/** core/chain_indexer.go: section heads committed while reorg notices may come in at every
    point where the lock is not held. The headers found during processing and the verdicts of
    the backend are parameters; child indexers and AddKnownSectionHead do not appear. */
module ChainIndexers {
  import opened TxTypes
  import opened ChainTree

  /** The hash that stands for no hash. */
  const ZERO: Hash := 0

  /** Headers first, first + 1, ... linked by parent hashes, continuing after `before`. */
  ghost predicate Links(run: seq<Header>, first: nat, before: Hash) {
    forall i :: 0 <= i < |run| ==> LinkAt(run, i, first, before)
  }

  ghost predicate LinkAt(run: seq<Header>, i: nat, first: nat, before: Hash)
    requires i < |run|
  {
    && run[i].number == first + i && run[i].hash != ZERO
    && run[i].parent == (if i == 0 then before else run[i - 1].hash)
  }

  function LastHash(run: seq<Header>, before: Hash): Hash {
    if run == [] then before else run[|run| - 1].hash
  }

  function HeadOf(heads: map<nat, Hash>, section: nat): Hash {
    if section in heads then heads[section] else ZERO
  }

  /** The head of the section before, which the first section does not have. */
  function HeadBefore(heads: map<nat, Hash>, section: nat): Hash {
    if section == 0 then ZERO else HeadOf(heads, section - 1)
  }

  /** Heads exist exactly for the sections below `stored`, and each is reached from the one
      before by a run of `size` linked headers. */
  ghost predicate Committed(heads: map<nat, Hash>, runs: map<nat, seq<Header>>, stored: nat, size: nat) {
    && (forall s: nat :: s in heads <==> s < stored)
    && (forall s: nat :: s in runs <==> s < stored)
    && (forall s :: s in runs ==> Sound(heads, runs[s], s, size))
  }

  ghost predicate Sound(heads: map<nat, Hash>, run: seq<Header>, s: nat, size: nat) {
    Reached(HeadBefore(heads, s), HeadOf(heads, s), run, s, size)
  }

  /** The run of section s leads from one head to the next. */
  ghost predicate Reached(before: Hash, head: Hash, run: seq<Header>, s: nat, size: nat) {
    |run| == size && Links(run, s * size, before) && head == LastHash(run, before)
  }

  /** A section taken up for processing, with the head it has to continue, and whether the
      backend refused it. */
  datatype Job = Job(section: nat, oldHead: Hash, refused: bool)

  /** The section a height falls in. */
  function SectionOf(height: nat, size: nat): nat
    requires size > 0
  {
    height / size
  }

  /** All heights of section s are below this one. */
  predicate EndsBelow(s: nat, height: nat, size: nat) {
    (s + 1) * size <= height
  }

  /** Section s has a header above the fork; the chains agree up to `top`. */
  predicate ReachesAbove(s: nat, top: nat, size: nat) {
    top + 1 < (s + 1) * size
  }

  /** Of the notices since section s was taken up, at position b, none fell below it; of those
      since it was committed, at position c, all fell above it. */
  ghost predicate Spared(tops: seq<nat>, b: nat, c: nat, s: nat, size: nat)
    requires size > 0
  {
    && b <= c <= |tops|
    && (forall k :: b <= k < c ==> SectionOf(tops[k], size) >= s)
    && (forall k :: c <= k < |tops| ==> SectionOf(tops[k], size) > s)
  }

  ghost predicate SparedAt(tops: seq<nat>, begun: map<nat, nat>, committed: map<nat, nat>, s: nat, size: nat)
    requires size > 0
  {
    s in begun && s in committed && Spared(tops, begun[s], committed[s], s, size)
  }

  ghost predicate History(tops: seq<nat>, begun: map<nat, nat>, committed: map<nat, nat>, stored: nat, size: nat)
    requires size > 0
  {
    forall s: nat :: s < stored ==> SparedAt(tops, begun, committed, s, size)
  }

  /** No notice fell below the section since it was taken up, or the sections before it are gone. */
  ghost predicate Pending(tops: seq<nat>, at: nat, job: Option<Job>, stored: nat, size: nat)
    requires size > 0
  {
    job.Some? ==>
      && stored <= job.value.section && at <= |tops|
      && (stored == job.value.section ==> forall k :: at <= k < |tops| ==> SectionOf(tops[k], size) >= stored)
  }

  /** Section s reaches above a fork noticed after it was taken up. */
  ghost predicate Stale(tops: seq<nat>, begun: map<nat, nat>, s: nat, size: nat)
    requires s in begun
  {
    exists k :: begun[s] <= k < |tops| && ReachesAbove(s, tops[k], size)
  }

  /** A fork inside section s, with more of it above, was noticed while it was being processed. */
  ghost predicate CaughtAtWork(tops: seq<nat>, begun: map<nat, nat>, committed: map<nat, nat>, s: nat, size: nat)
    requires size > 0 && s in begun && s in committed && committed[s] <= |tops|
  {
    exists k :: begun[s] <= k < committed[s] && SectionOf(tops[k], size) == s && ReachesAbove(s, tops[k], size)
  }

  class ChainIndexer {
    const size: nat
    const confirms: nat
    var stored: nat
    var known: nat
    var cascaded: nat
    var heads: map<nat, Hash>
    var job: Option<Job>
    ghost var runs: map<nat, seq<Header>>
    /** The common height each reorg notice named, and how many there had been when the current
        section was taken up, and when each stored one was taken up and committed. */
    ghost var tops: seq<nat>
    ghost var at: nat
    ghost var begun: map<nat, nat>
    ghost var committed: map<nat, nat>

    ghost predicate Valid()
      reads this
    {
      && size > 0 && Committed(heads, runs, stored, size)
      && (job.Some? ==> (job.value.oldHead == ZERO <==> job.value.section == 0))
      && Pending(tops, at, job, stored, size) && History(tops, begun, committed, stored, size)
    }

    constructor (size: nat, confirms: nat)
      requires size > 0
      ensures Valid() && this.size == size && this.confirms == confirms && stored == 0 && known == 0 && job == None
      ensures tops == []
    {
      this.size, this.confirms := size, confirms;
      stored, known, cascaded, heads, job, runs := 0, 0, 0, map[], None, map[];
      tops, at, begun, committed := [], 0, map[], map[];
    }

    /** Lower the number of valid sections, removing the heads above it. */
    method DropSections(sections: nat)
      requires Valid()
      modifies this`stored, this`heads, this`runs
      ensures Valid() && stored == if sections < old(stored) then sections else old(stored)
      ensures forall s :: s in heads ==> s in old(heads) && heads[s] == old(heads)[s]
    {
      hide Committed, SparedAt;
      DropNothing(heads, runs, stored, size);
      while stored > sections
        invariant Valid() && stored <= old(stored) && (sections <= old(stored) ==> sections <= stored)
        invariant stored == old(stored) || sections <= stored
        invariant forall s :: s in heads ==> s in old(heads) && heads[s] == old(heads)[s]
        decreases stored
      {
        DropLast(heads, runs, stored, size);
        stored := stored - 1;
        heads, runs := heads - {stored}, runs - {stored};
      }
    }

    /** A notice that the chain above `head` changed. Exactly the sections that end below that
        height stay; one that ends with it goes too, although none of its headers changed. */
    method Reorg(head: nat)
      requires Valid()
      modifies this`stored, this`known, this`cascaded, this`heads, this`runs, this`tops
      ensures Valid() && stored <= old(stored) && stored * size <= head && known <= old(known)
      ensures forall s: nat :: s in heads <==> s in old(heads) && EndsBelow(s, head, size)
      ensures forall s :: s in heads ==> heads[s] == old(heads)[s]
      ensures old(stored) * size <= head ==> stored == old(stored)
      ensures tops == old(tops) + [head] && known == Least(old(known), SectionOf(head, size))
      ensures stored == Least(old(stored), SectionOf(head, size))
      ensures cascaded == Least(old(cascaded), SectionOf(head, size) * size)
    {
      hide Committed, History, Pending, SectionOf, EndsBelow;
      var changed := SectionOf(head, size);
      Whole(head, size, old(stored));
      HeadMissing(heads, runs, stored, size, 0);
      if changed < known {
        known := changed;
      }
      if changed < stored {
        DropSections(changed);
      }
      HeadMissing(heads, runs, stored, size, 0);
      Remaining(head, size);
      Scaled(stored, changed, size, head);
      if changed * size < cascaded {
        cascaded := changed * size;
      }
      HistoryNoticed(tops, at, begun, committed, job, stored, size, head);
      tops := tops + [head];
    }

    /** A new head: sections with enough confirmations become known. */
    method NewHead(head: nat)
      requires Valid()
      modifies this`known
      ensures Valid() && known >= old(known)
      ensures known > old(known) ==> known * size + confirms <= head + 1
      ensures forall n: nat :: n * size + confirms <= head + 1 && confirms <= head ==> n <= known
    {
      hide Committed;
      if head >= confirms {
        var sections := (head + 1 - confirms) / size;
        Sections(head + 1 - confirms, size);
        if sections > known {
          known := sections;
        }
      }
    }

    /** Take up the next section, and give up the lock. */
    method Start()
      requires Valid()
      modifies this`job, this`at
      ensures Valid()
      ensures old(job).None? && known > stored ==>
                job == Some(Job(stored, HeadBefore(heads, stored), false)) && at == |tops|
      ensures old(job).Some? || known <= stored ==> job == old(job)
    {
      hide Committed, HeadBefore, History;
      if job.None? && known > stored {
        NonZeroHead(heads, runs, stored, size);
        job := Some(Job(stored, HeadBefore(heads, stored), false));
        at := |tops|;
      }
    }

    /** The backend refuses the section. Without the lock, all sections are then to be dropped. */
    method Refuse()
      requires Valid() && job.Some? && !job.value.refused
      modifies this`job
      ensures Valid() && job == Some(old(job).value.(refused := true))
    {
      hide Committed, History;
      job := Some(job.value.(refused := true));
    }

    /** One round of dropping all sections; notices may come in before the next. */
    method DropOne()
      requires Valid() && job.Some? && job.value.refused && stored > 0
      modifies this`stored, this`heads, this`runs
      ensures Valid() && stored == old(stored) - 1 && heads == old(heads) - {stored}
    {
      hide Committed, SparedAt, SectionOf;
      DropLast(heads, runs, stored, size);
      stored := stored - 1;
      heads, runs := heads - {stored}, runs - {stored};
    }

    /** Read a section's headers, each as the database has it at that moment. */
    method ProcessSection(section: nat, before: Hash, found: seq<Option<Header>>)
      returns (r: Option<Hash>, ghost run: seq<Header>)
      requires size > 0 && |found| == size
      requires forall i :: 0 <= i < size && found[i].Some? ==>
                 found[i].value.number == section * size + i && found[i].value.hash != ZERO
      ensures r.Some? <==> Linked(found, before)
      ensures r.Some? ==>
                && |run| == size && Links(run, section * size, before)
                && r.value == LastHash(run, before) == found[size - 1].value.hash
    {
      var last, first := before, section * size;
      run := [];
      for i := 0 to size
        invariant |run| == i && Links(run, first, before) && last == LastHash(run, before)
        invariant forall j :: 0 <= j < i ==> found[j] == Some(run[j])
        invariant forall j :: 0 <= j < i ==> found[j].Some? && found[j].value.parent == Previous(found, j, before)
      {
        hide Links;
        if found[i].None? || found[i].value.parent != last {
          return None, run;
        }
        assert found[i].value.number == first + i;
        LinksMore(run, first, before, found[i].value);
        run := run + [found[i].value];
        last := found[i].value.hash;
      }
      return Some(last), run;
    }

    /** Take the lock back and commit, unless processing failed or the section before changed. */
    method Finish(found: seq<Option<Header>>, commitFails: bool)
      requires Valid() && job.Some? && |found| == size
      requires forall i :: 0 <= i < size && found[i].Some? ==>
                 found[i].value.number == job.value.section * size + i && found[i].value.hash != ZERO
      modifies this`stored, this`known, this`cascaded, this`heads, this`job, this`runs, this`begun, this`committed
      ensures Valid() && job == None
      ensures stored == old(stored) + 1 || stored == old(stored)
      ensures stored == old(stored) + 1 <==>
                && !old(job).value.refused && !commitFails && Linked(found, old(job).value.oldHead)
                && old(job).value.oldHead == HeadBefore(old(heads), old(job).value.section)
      ensures stored == old(stored) + 1 ==>
                && old(job).value.section == old(stored) && known == old(known)
                && heads == old(heads)[old(stored) := found[size - 1].value.hash]
                && begun == old(begun)[old(stored) := at] && committed == old(committed)[old(stored) := |tops|]
                && cascaded == stored * size - 1
      ensures stored == old(stored) ==> known == stored && heads == old(heads) && cascaded == old(cascaded)
    {
      hide Committed, History, Pending, Linked, Reached, HeadBefore;
      var r, run := Process(found, commitFails);
      Settle(r, run);
    }

    /** What comes of the section, with the lock given up. */
    method Process(found: seq<Option<Header>>, commitFails: bool) returns (r: Option<Hash>, ghost run: seq<Header>)
      requires size > 0 && job.Some? && |found| == size
      requires forall i :: 0 <= i < size && found[i].Some? ==>
                 found[i].value.number == job.value.section * size + i && found[i].value.hash != ZERO
      ensures r.Some? <==> !job.value.refused && !commitFails && Linked(found, job.value.oldHead)
      ensures r.Some? ==>
                && Reached(job.value.oldHead, r.value, run, job.value.section, size)
                && r.value == found[size - 1].value.hash
    {
      hide Links, LastHash;
      if job.value.refused {
        return None, [];
      }
      r, run := ProcessSection(job.value.section, job.value.oldHead, found);
      if commitFails {
        r := None;
      }
    }

    /** Commit with the lock held again, if the section before is still the same. */
    method Settle(r: Option<Hash>, ghost run: seq<Header>)
      requires Valid() && job.Some?
      requires r.Some? ==> Reached(job.value.oldHead, r.value, run, job.value.section, size)
      modifies this`stored, this`known, this`cascaded, this`heads, this`job, this`runs, this`begun, this`committed
      ensures Valid() && job == None
      ensures if r.Some? && old(job).value.oldHead == HeadBefore(old(heads), old(job).value.section) then
                && stored == old(stored) + 1 && old(job).value.section == old(stored) && known == old(known)
                && heads == old(heads)[old(stored) := r.value]
                && begun == old(begun)[old(stored) := at] && committed == old(committed)[old(stored) := |tops|]
                && cascaded == stored * size - 1
              else stored == old(stored) && known == stored && heads == old(heads) && cascaded == old(cascaded)
    {
      hide Committed, Reached, HeadBefore, History, Pending;
      var section, oldHead := job.value.section, job.value.oldHead;
      HeadMissing(heads, runs, stored, size, section);
      PendingSection(tops, at, job, stored, size);
      if r.Some? && oldHead == HeadBefore(heads, section) {
        CommitNext(heads, runs, stored, size, run, r.value);
        HistoryNext(tops, at, begun, committed, job, stored, size);
        heads, runs := heads[section := r.value], runs[section := run];
        stored := section + 1;
        cascaded := stored * size - 1;
        begun, committed := begun[section := at], committed[section := |tops|];
      } else {
        known := stored;
      }
      job := None;
      PendingNone(tops, at, stored, size);
    }

    ghost function Now(): Moment
      reads this
    {
      Moment(stored, known, cascaded, heads, job, tops)
    }

    /** One step; a step that cannot be taken in the current state is passed over. */
    method Take(step: Step)
      requires Valid()
      modifies this
      ensures Valid() && Follows(step, old(Now()), Now(), size, confirms)
    {
      hide Committed, History, Pending, EndsBelow, SectionOf, HeadBefore, Linked;
      match step {
        case Head(n) => NewHead(n);
        case Changed(n) => Reorg(n);
        case Begin => Start();
        case Refusal =>
          if job.Some? && !job.value.refused {
            Refuse();
          }
        case Drop =>
          if job.Some? && job.value.refused && stored > 0 {
            DropOne();
          }
        case End(found, commitFails) =>
          if job.Some? && (job.value.refused ==> stored == 0) && |found| == size {
            var genuine := Genuine(found, job.value.section * size);
            if genuine {
              LinkedLast(found, job.value.oldHead);
              Finish(found, commitFails);
            }
          }
      }
    }

    /** Any run of head and reorg notices around one section at a time. A stored section reaches
        above a fork noticed since it was taken up exactly if that fork is inside the section and
        was noticed while it was being processed. */
    method Run(steps: seq<Step>) returns (ghost trace: seq<Moment>)
      requires Valid()
      modifies this
      ensures Valid() && tops == old(tops) + Tops(steps)
      ensures forall s: nat :: s < stored ==>
                s in begun && s in committed && committed[s] <= |tops| &&
                (Stale(tops, begun, s, size) <==> CaughtAtWork(tops, begun, committed, s, size))
      ensures |trace| == |steps| + 1 && trace[0] == old(Now()) && trace[|steps|] == Now()
      ensures forall i :: 0 <= i < |steps| ==> Follows(steps[i], trace[i], trace[i + 1], size, confirms)
    {
      hide Committed, History, Pending, Stale, CaughtAtWork, Follows;
      trace := [Now()];
      for i := 0 to |steps|
        invariant Valid() && tops == old(tops) + Tops(steps[..i])
        invariant |trace| == i + 1 && trace[0] == old(Now()) && trace[i] == Now()
        invariant forall k :: 0 <= k < i ==> Follows(steps[k], trace[k], trace[k + 1], size, confirms)
      {
        assert steps[..i + 1][..i] == steps[..i];
        Take(steps[i]);
        FollowsTops(steps[i], trace[i], Now(), size, confirms);
        trace := trace + [Now()];
      }
      assert steps[..|steps|] == steps;
      forall s: nat | s < stored
        ensures s in begun && s in committed && committed[s] <= |tops| &&
                (Stale(tops, begun, s, size) <==> CaughtAtWork(tops, begun, committed, s, size))
      {
        StaleExactly(tops, begun, committed, stored, size, s);
      }
    }
  }

  /** The indexer at one time. */
  datatype Moment = Moment(stored: nat, known: nat, cascaded: int, heads: map<nat, Hash>, job: Option<Job>,
                           tops: seq<nat>)

  function Least(a: int, b: int): int {
    if a < b then a else b
  }

  /** The headers found are those of the section. */
  ghost predicate Proper(found: seq<Option<Header>>, first: nat) {
    forall i :: 0 <= i < |found| && found[i].Some? ==>
      found[i].value.number == first + i && found[i].value.hash != ZERO
  }

  /** What a step does to the indexer. */
  ghost predicate Follows(step: Step, m: Moment, m': Moment, size: nat, confirms: nat)
    requires size > 0
  {
    match step
    case Head(n) =>
      && m' == m.(known := m'.known) && m.known <= m'.known
      && (m.known < m'.known ==> m'.known * size + confirms <= n + 1)
      && (forall k: nat :: k * size + confirms <= n + 1 && confirms <= n ==> k <= m'.known)
    case Changed(n) =>
      && m' == Moment(Least(m.stored, SectionOf(n, size)), Least(m.known, SectionOf(n, size)),
                      Least(m.cascaded, SectionOf(n, size) * size), m'.heads, m.job, m.tops + [n])
      && (forall s: nat :: s in m'.heads <==> s in m.heads && EndsBelow(s, n, size))
      && (forall s :: s in m'.heads ==> m'.heads[s] == m.heads[s])
    case Begin =>
      if m.job.None? && m.known > m.stored
      then m' == m.(job := Some(Job(m.stored, HeadBefore(m.heads, m.stored), false)))
      else m' == m
    case Refusal =>
      if m.job.Some? then m' == m.(job := Some(m.job.value.(refused := true))) else m' == m
    case Drop =>
      if m.job.Some? && m.job.value.refused && m.stored > 0
      then m' == m.(stored := m.stored - 1, heads := m.heads - {m.stored - 1})
      else m' == m
    case End(found, commitFails) =>
      if m.job.None? || (m.job.value.refused && m.stored > 0) || |found| != size ||
         !Proper(found, m.job.value.section * size)
      then m' == m
      else if !m.job.value.refused && !commitFails && Linked(found, m.job.value.oldHead) &&
              m.job.value.oldHead == HeadBefore(m.heads, m.job.value.section)
      then
        && found[size - 1].Some? && m.job.value.section == m.stored
        && m' == m.(stored := m.stored + 1, cascaded := (m.stored + 1) * size - 1,
                    heads := m.heads[m.stored := found[size - 1].value.hash], job := None)
      else m' == m.(known := m.stored, job := None)
  }

  lemma LinkedLast(found: seq<Option<Header>>, before: Hash)
    requires found != []
    ensures Linked(found, before) ==> found[|found| - 1].Some?
  {
  }

  lemma FollowsTops(step: Step, m: Moment, m': Moment, size: nat, confirms: nat)
    requires size > 0 && Follows(step, m, m', size, confirms)
    ensures m'.tops == m.tops + (if step.Changed? then [step.n] else [])
  {
    hide SectionOf, EndsBelow, HeadBefore, Linked, Proper;
  }

  datatype Step =
    | Head(n: nat) | Changed(n: nat) | Begin | Refusal | Drop | End(found: seq<Option<Header>>, commitFails: bool)

  /** The common heights that the reorg notices of a run name. */
  ghost function Tops(steps: seq<Step>): seq<nat> {
    if steps == [] then []
    else
      var last := steps[|steps| - 1];
      Tops(steps[..|steps| - 1]) + (if last.Changed? then [last.n] else [])
  }

  lemma StaleExactly(tops: seq<nat>, begun: map<nat, nat>, committed: map<nat, nat>, stored: nat, size: nat, s: nat)
    requires size > 0 && History(tops, begun, committed, stored, size) && s < stored
    ensures s in begun && s in committed && committed[s] <= |tops|
    ensures Stale(tops, begun, s, size) <==> CaughtAtWork(tops, begun, committed, s, size)
  {
    assert SparedAt(tops, begun, committed, s, size);
    hide SectionOf, ReachesAbove;
    if Stale(tops, begun, s, size) {
      var k :| begun[s] <= k < |tops| && ReachesAbove(s, tops[k], size);
      FallsBy(s, tops[k], size);
      assert k < committed[s] && SectionOf(tops[k], size) == s;
    }
  }

  /** A fork below a section's last header falls in that section or an earlier one. */
  lemma FallsBy(s: nat, top: nat, size: nat)
    requires size > 0 && ReachesAbove(s, top, size)
    ensures SectionOf(top, size) <= s
  {
    Whole(top, size, s + 1);
    if SectionOf(top, size) > s {
      Scaled(s + 1, SectionOf(top, size), size, top);
    }
  }

  lemma HistoryNoticed(tops: seq<nat>, at: nat, begun: map<nat, nat>, committed: map<nat, nat>, job: Option<Job>,
                       stored: nat, size: nat, top: nat)
    requires size > 0 && History(tops, begun, committed, stored, size) && Pending(tops, at, job, stored, size)
    requires stored <= SectionOf(top, size)
    ensures History(tops + [top], begun, committed, stored, size) && Pending(tops + [top], at, job, stored, size)
  {
    hide SectionOf;
    forall s: nat | s < stored ensures SparedAt(tops + [top], begun, committed, s, size) {
      assert SparedAt(tops, begun, committed, s, size);
    }
  }

  lemma HistoryNext(tops: seq<nat>, at: nat, begun: map<nat, nat>, committed: map<nat, nat>, job: Option<Job>,
                    stored: nat, size: nat)
    requires size > 0 && History(tops, begun, committed, stored, size) && Pending(tops, at, job, stored, size)
    requires job.Some? && job.value.section == stored
    ensures History(tops, begun[stored := at], committed[stored := |tops|], stored + 1, size)
  {
    hide SectionOf;
    var begun', committed' := begun[stored := at], committed[stored := |tops|];
    forall s: nat | s < stored + 1 ensures SparedAt(tops, begun', committed', s, size) {
      assert s < stored ==> SparedAt(tops, begun, committed, s, size);
    }
  }

  lemma PendingSection(tops: seq<nat>, at: nat, job: Option<Job>, stored: nat, size: nat)
    requires size > 0 && Pending(tops, at, job, stored, size) && job.Some?
    ensures stored <= job.value.section
  {
  }

  lemma PendingNone(tops: seq<nat>, at: nat, stored: nat, size: nat)
    requires size > 0
    ensures Pending(tops, at, None, stored, size)
  {
  }

  /** Sections of two headers. The chains part after the genesis, which is noticed while the
      first section, read before, is being processed: it is stored with a header above the fork,
      and is not even known. */
  method StaleSection() returns (c: ChainIndexer)
    ensures fresh(c) && c.Valid() && c.size == 2 && c.stored == 1 && c.known == 0
    ensures 0 in c.begun && Stale(c.tops, c.begun, 0, c.size) && ReachesAbove(0, 0, c.size)
  {
    hide Committed, History, Pending;
    c := new ChainIndexer(2, 0);
    c.NewHead(1);
    assert 1 * c.size + c.confirms <= 1 + 1;
    c.Start();
    c.Reorg(0);
    var found := [Some(Header(7, ZERO, 0, 1)), Some(Header(8, 7, 1, 1))];
    assert Linked(found, ZERO);
    c.Finish(found, false);
    assert c.tops[0] == 0;
  }

  /** What the database hands out under a number has that number. */
  method Genuine(found: seq<Option<Header>>, first: nat) returns (r: bool)
    ensures r <==> Proper(found, first)
  {
    for i := 0 to |found|
      invariant forall j :: 0 <= j < i && found[j].Some? ==>
                  found[j].value.number == first + j && found[j].value.hash != ZERO
    {
      if found[i].Some? && !(found[i].value.number == first + i && found[i].value.hash != ZERO) {
        return false;
      }
    }
    return true;
  }

  function Previous(found: seq<Option<Header>>, i: nat, before: Hash): Hash
    requires i < |found|
  {
    if i == 0 then before else if found[i - 1].Some? then found[i - 1].value.hash else ZERO
  }

  lemma LinksMore(run: seq<Header>, first: nat, before: Hash, x: Header)
    requires Links(run, first, before) && x.number == first + |run| && x.hash != ZERO &&
             x.parent == LastHash(run, before)
    ensures Links(run + [x], first, before)
  {
    forall i | 0 <= i < |run| + 1 ensures LinkAt(run + [x], i, first, before) {
      assert i < |run| ==> LinkAt(run, i, first, before);
    }
  }

  /** The runs of the first n sections, one after the other. */
  ghost function Joined(runs: map<nat, seq<Header>>, n: nat): seq<Header> {
    if n == 0 then [] else Joined(runs, n - 1) + (if n - 1 in runs then runs[n - 1] else [])
  }

  /** Together the committed sections are one unbroken chain of headers from height 0 on. */
  lemma {:induction false} OneChain(heads: map<nat, Hash>, runs: map<nat, seq<Header>>, stored: nat, size: nat, n: nat)
    requires Committed(heads, runs, stored, size) && n <= stored
    ensures var all := Joined(runs, n);
            |all| == n * size && Links(all, 0, ZERO) && LastHash(all, ZERO) == HeadBefore(heads, n)
  {
    if n > 0 {
      OneChain(heads, runs, stored, size, n - 1);
      assert Sound(heads, runs[n - 1], n - 1, size);
      hide Committed;
      var all, run := Joined(runs, n - 1), runs[n - 1];
      var m := (n - 1) * size;
      assert Links(run, m, LastHash(all, ZERO));
      assert n * size == m + size;
      JoinLinks(all, run);
    }
  }

  lemma JoinLinks(a: seq<Header>, b: seq<Header>)
    requires Links(a, 0, ZERO) && Links(b, |a|, LastHash(a, ZERO))
    ensures Links(a + b, 0, ZERO) && LastHash(a + b, ZERO) == LastHash(b, LastHash(a, ZERO))
  {
    var c := a + b;
    forall i | 0 <= i < |c| ensures LinkAt(c, i, 0, ZERO) {
      if i < |a| {
        assert LinkAt(a, i, 0, ZERO);
      } else {
        assert LinkAt(b, i - |a|, |a|, LastHash(a, ZERO));
      }
    }
  }

  /** Every header is there, and each names the one before it. */
  ghost predicate Linked(found: seq<Option<Header>>, before: Hash) {
    forall i :: 0 <= i < |found| ==> found[i].Some? && found[i].value.parent == Previous(found, i, before)
  }

  lemma DropNothing(heads: map<nat, Hash>, runs: map<nat, seq<Header>>, stored: nat, size: nat)
    requires Committed(heads, runs, stored, size)
    ensures heads.Keys == runs.Keys
  {
  }

  lemma DropLast(heads: map<nat, Hash>, runs: map<nat, seq<Header>>, stored: nat, size: nat)
    requires Committed(heads, runs, stored, size) && stored > 0
    ensures Committed(heads - {stored - 1}, runs - {stored - 1}, stored - 1, size)
  {
    hide Reached;
    var heads' := heads - {stored - 1};
    forall s | s in runs && s != stored - 1 ensures Sound(heads', runs[s], s, size) {
      assert Sound(heads, runs[s], s, size);
    }
  }

  lemma NonZeroHead(heads: map<nat, Hash>, runs: map<nat, seq<Header>>, stored: nat, size: nat)
    requires Committed(heads, runs, stored, size) && size > 0
    ensures HeadBefore(heads, stored) == ZERO <==> stored == 0
  {
    if stored > 0 {
      var run := runs[stored - 1];
      assert Sound(heads, run, stored - 1, size);
      assert LinkAt(run, |run| - 1, (stored - 1) * size, HeadBefore(heads, stored - 1));
    }
  }

  lemma HeadMissing(heads: map<nat, Hash>, runs: map<nat, seq<Header>>, stored: nat, size: nat, section: nat)
    requires Committed(heads, runs, stored, size)
    ensures stored < section ==> HeadBefore(heads, section) == ZERO
    ensures forall s: nat :: s in heads <==> s < stored
  {
  }

  lemma CommitNext(heads: map<nat, Hash>, runs: map<nat, seq<Header>>, stored: nat, size: nat, run: seq<Header>,
                   h: Hash)
    requires Committed(heads, runs, stored, size) && Reached(HeadBefore(heads, stored), h, run, stored, size)
    ensures Committed(heads[stored := h], runs[stored := run], stored + 1, size)
  {
    hide Reached;
    var heads', runs' := heads[stored := h], runs[stored := run];
    forall s | s in runs' ensures Sound(heads', runs'[s], s, size) {
      assert s in runs ==> Sound(heads, runs[s], s, size);
    }
  }

  lemma Whole(head: nat, size: nat, n: nat)
    requires size > 0
    ensures SectionOf(head, size) * size <= head
    ensures n * size <= head ==> n <= SectionOf(head, size)
  {
    if n > head / size {
      Scaled(head / size + 1, n, size, n * size);
    }
  }

  /** The sections before the one a height falls in are those that end below the height. */
  lemma Remaining(height: nat, size: nat)
    requires size > 0
    ensures forall s: nat :: s < SectionOf(height, size) <==> EndsBelow(s, height, size)
  {
    forall s: nat ensures s < SectionOf(height, size) <==> EndsBelow(s, height, size) {
      Whole(height, size, s + 1);
      if s < SectionOf(height, size) {
        Scaled(s + 1, SectionOf(height, size), size, height);
      }
    }
  }

  lemma Scaled(a: nat, b: nat, size: nat, top: nat)
    requires a <= b && b * size <= top
    ensures a * size <= top
  {
  }

  lemma Sections(m: nat, size: nat)
    requires size > 0
    ensures m / size * size <= m
    ensures forall n: nat :: n * size <= m ==> n <= m / size
  {
    forall n: nat | n * size <= m ensures n <= m / size {
      Whole(m, size, n);
    }
  }
}
