/** event/feed.go: one-to-many delivery over a slice of select cases that is edited in place
    while a prefix of it is in use. Goroutines interleave only where the source takes or gives
    up a lock or a channel, so every method here is one such atomic step; which step comes
    next, and which receivers are ready, is up to the caller. */
module Feeds {
  /** Case 0 is the channel that interrupts a send; the others are subscribers. */
  datatype Case = RemoveSub | Channel(id: nat)

  const FIRST: nat := 1

  /** The subscribers in a case list. */
  ghost function Subs(s: seq<Case>): multiset<Case> {
    if |s| < FIRST then multiset{} else multiset(s[FIRST..])
  }

  predicate Channels(s: seq<Case>) {
    forall i :: 0 <= i < |s| ==> s[i].Channel?
  }

  predicate WellFormed(s: seq<Case>) {
    |s| >= FIRST && s[0] == RemoveSub && Channels(s[FIRST..])
  }

  function Without(s: seq<Case>, index: nat): seq<Case>
    requires index < |s|
  {
    s[..index] + s[index + 1..]
  }

  function Swapped(s: seq<Case>, i: nat, j: nat): seq<Case>
    requires i < |s| && j < |s|
  {
    s[i := s[j]][j := s[i]]
  }

  /** Who is where: every subscription is live or waiting for its removal, and each waiting one
      is in the case list, where its removal will look for it. */
  ghost predicate Accounted(s: seq<Case>, inbox: seq<Case>, live: multiset<Case>, waiting: multiset<Case>) {
    && WellFormed(s) && Channels(inbox)
    && (forall c :: multiset(inbox)[c] + Subs(s)[c] == live[c] + waiting[c])
    && (forall c :: waiting[c] <= Subs(s)[c])
  }

  /** A send in progress: the first `open` cases are exactly those not served yet, the others
      exactly those served and not removed since. */
  ghost predicate Serving(s: seq<Case>, open: nat, nsent: nat, start: multiset<Case>, delivered: multiset<Case>,
                          early: multiset<Case>, late: multiset<Case>)
  {
    && FIRST <= open <= |s|
    && (forall c :: Subs(s[..open])[c] + delivered[c] + early[c] == start[c])
    && (forall c :: multiset(s[open..])[c] + late[c] == delivered[c])
    && nsent == |delivered|
  }

  /** The channel is in the prefix that is still to be served. */
  ghost predicate Unserved(s: seq<Case>, open: nat, c: Case) {
    FIRST <= open <= |s| && c in s[FIRST..open]
  }

  function Plus(m: multiset<Case>, c: Case): multiset<Case> {
    m + multiset{c}
  }

  function Minus(m: multiset<Case>, c: Case): multiset<Case> {
    m - multiset{c}
  }

  /** The first case of a channel is at this index. */
  ghost predicate FirstAt(s: seq<Case>, index: nat, c: Case) {
    index < |s| && s[index] == c && forall k :: 0 <= k < index ==> s[k] != c
  }

  function Refusals(accepts: seq<bool>): nat {
    if accepts == [] then 0 else Refusals(accepts[..|accepts| - 1]) + (if accepts[|accepts| - 1] then 0 else 1)
  }

  method Copy(s: seq<Case>) returns (a: array<Case>)
    ensures fresh(a) && a.Length == |s| && a[..|s|] == s
  {
    a := new Case[|s|](i requires 0 <= i < |s| => s[i]);
  }

  class Feed {
    var buf: array<Case>
    var size: nat
    var inbox: seq<Case>
    var sending: bool
    /** The length of the prefix of unserved cases during a send. */
    var open: nat
    var nsent: nat
    /** Subscriptions in force, and those whose removal is past the inbox: in the source the
        subscription objects and the goroutines blocked in `remove`. */
    var live: multiset<Case>
    var waiting: multiset<Case>
    /** Of the current send: the subscribers at its start, those served, those removed before
        they were served, and those removed after. */
    ghost var start: multiset<Case>
    ghost var delivered: multiset<Case>
    ghost var early: multiset<Case>
    ghost var late: multiset<Case>

    ghost function Cases(): seq<Case>
      reads this`size, this`buf, buf
    {
      if size <= buf.Length then buf[..size] else []
    }

    ghost predicate Valid()
      reads this, buf
    {
      && size <= buf.Length
      && Accounted(Cases(), inbox, live, waiting)
      && (sending ==> Serving(Cases(), open, nsent, start, delivered, early, late))
    }

    constructor ()
      ensures Valid()
      ensures Now() == Moment([RemoveSub], [], false, 0, 0, multiset{}, multiset{}, multiset{}, multiset{}, multiset{},
                              multiset{})
    {
      buf := new Case[1](_ => RemoveSub);
      size, inbox, sending, open, nsent := 1, [], false, 0, 0;
      live, waiting, start := multiset{}, multiset{}, multiset{};
      delivered, early, late := multiset{}, multiset{}, multiset{};
    }

    method Subscribe(c: Case)
      requires Valid() && c.Channel?
      modifies this`inbox, this`live
      ensures Valid() && live == old(live) + multiset{c} && inbox == old(inbox) + [c]
    {
      hide Accounted, Serving;
      JoinsInbox(Cases(), inbox, live, waiting, c);
      inbox := inbox + [c];
      live := live + multiset{c};
    }

    /** The first case holding c, or -1. */
    method Find(c: Case) returns (index: int)
      requires size <= buf.Length
      ensures -1 <= index < size
      ensures index >= 0 ==> buf[index] == c && forall k :: 0 <= k < index ==> buf[k] != c
      ensures index == -1 <==> c !in buf[..size]
    {
      for i := 0 to size
        invariant forall k :: 0 <= k < i ==> buf[k] != c
      {
        if buf[i] == c {
          return i;
        }
      }
      return -1;
    }

    /** Close the gap at `index` by moving everything behind it one place down. */
    method Delete(index: nat)
      requires index < size <= buf.Length
      modifies this`size, buf
      ensures size == old(size) - 1 && buf[..size] == Without(old(buf[..size]), index)
    {
      var last := size - 1;
      for k := index to last
        invariant size == last + 1 && buf[..index] == old(buf[..index])
        invariant buf[index..k] == old(buf[index + 1..k + 1])
        invariant buf[k + 1..size] == old(buf[k + 1..size])
      {
        assert buf[k + 1..size][0] == old(buf[k + 1..size])[0];
        buf[k] := buf[k + 1];
        assert buf[index..k + 1] == buf[index..k] + [buf[k]];
      }
      size := size - 1;
      assert buf[..size] == buf[..index] + buf[index..size];
      assert old(buf[..size]) == old(buf[..index]) + old(buf[index..size]);
    }

    /** Move case i behind the unserved prefix. */
    method Deactivate(i: nat)
      requires FIRST <= i < open <= size <= buf.Length
      modifies this`open, buf
      ensures open == old(open) - 1 && buf[..size] == Swapped(old(buf[..size]), i, open)
    {
      var last := open - 1;
      buf[i], buf[last] := buf[last], buf[i];
      open := last;
    }

    /** First half of `remove`: a channel still in the inbox is gone at once, otherwise its
        removal waits for the send in progress or for the send lock. */
    method Unsubscribe(c: Case) returns (done: bool)
      requires Valid() && c in live
      modifies this`inbox, this`live, this`waiting
      ensures Valid() && live == old(live) - multiset{c} && (done <==> c in old(inbox))
      ensures waiting == if done then old(waiting) else old(waiting) + multiset{c}
      ensures multiset(inbox) == old(multiset(inbox)) - (if done then multiset{c} else multiset{})
    {
      hide Subs, WellFormed, Accounted, Serving, Without;
      LeavesInbox(Cases(), inbox, live, waiting, c);
      live := live - multiset{c};
      for i := 0 to |inbox|
        invariant inbox == old(inbox) && c !in inbox[..i]
      {
        if inbox[i] == c {
          WithoutOne(inbox, i);
          LeavesInboxAt(Cases(), inbox, old(live), waiting, c, i);
          inbox := Without(inbox, i);
          return true;
        }
      }
      assert inbox[..|inbox|] == inbox;
      waiting := waiting + multiset{c};
      return false;
    }

    /** Second half of `remove` while no send is running: the channel is found and deleted. */
    method RemoveIdle(c: Case)
      requires Valid() && !sending && c in waiting
      modifies this`size, this`waiting, buf
      ensures Valid() && waiting == Minus(old(waiting), c)
      ensures Subs(Cases()) == Minus(old(Subs(Cases())), c)
    {
      hide Subs, WellFormed, Without, Accounted, Serving;
      var index := Find(c);
      WaitingIsFound(Cases(), inbox, live, waiting, c, index);
      Delete(index);
      waiting := waiting - multiset{c};
    }

    /** Take the send lock and take over the inbox. */
    method BeginSend()
      requires Valid() && !sending
      modifies this`buf, this`size, this`inbox, this`sending, this`open, this`nsent
      modifies this`start, this`delivered, this`early, this`late
      ensures Valid() && sending && inbox == [] && fresh(buf)
      ensures start == live + waiting && delivered == early == late == multiset{}
      ensures nsent == 0 && open == size == |Cases()| && Cases() == old(Cases()) + old(inbox)
    {
      hide Valid, Cases, Accounted, Serving;
      Parts();
      InboxJoins(Cases(), inbox, live, waiting);
      TakeInbox();
      OpenAll();
      Whole();
    }

    /** Nobody is served yet. */
    method OpenAll()
      modifies this`sending, this`open, this`nsent, this`start, this`delivered, this`early, this`late
      ensures sending && open == size && nsent == 0
      ensures start == live + waiting && delivered == early == late == multiset{}
    {
      sending, open, nsent, start := true, size, 0, live + waiting;
      delivered, early, late := multiset{}, multiset{}, multiset{};
    }

    lemma Parts()
      requires Valid()
      ensures size <= buf.Length && Accounted(Cases(), inbox, live, waiting)
    {
    }

    lemma Whole()
      requires size <= buf.Length && Accounted(Cases(), inbox, live, waiting)
      requires Serving(Cases(), open, nsent, start, delivered, early, late)
      ensures Valid()
    {
    }

    /** Append the inbox to the case list. */
    method TakeInbox()
      requires size <= buf.Length
      modifies this`buf, this`size, this`inbox
      ensures fresh(buf) && size <= buf.Length && inbox == []
      ensures Cases() == old(Cases()) + old(inbox) && |Cases()| == size
    {
      var s := buf[..size] + inbox;
      buf := Copy(s);
      size, inbox := |s|, [];
    }

    /** One successful delivery, to the case at index i of the unserved prefix. */
    method Deliver(i: nat)
      requires Valid() && sending && FIRST <= i < open
      modifies this`open, this`nsent, this`delivered, buf
      ensures Valid() && open == old(open) - 1 && nsent == old(nsent) + 1
      ensures delivered == old(delivered) + multiset{old(Cases()[i])}
      ensures Cases() == Swapped(old(Cases()), i, open)
    {
      hide Subs, Swapped, Accounted, Serving;
      SwapMoves(Cases(), inbox, live, waiting, i, open, nsent, start, delivered, early, late);
      Bounds(Cases(), open, nsent, start, delivered, early, late);
      assert buf[i] == Cases()[i];
      delivered := delivered + multiset{buf[i]};
      nsent := nsent + 1;
      Deactivate(i);
    }

    /** The non-blocking pass: every unserved case is tried exactly once, although served ones
        are swapped away under the loop index. accepts[k] is the outcome of the k-th attempt. */
    method FastPath(accepts: seq<bool>) returns (ghost tried: seq<Case>)
      requires Valid() && sending && |accepts| == open - FIRST
      modifies this`open, this`nsent, this`delivered, buf
      ensures Valid() && FIRST <= open <= old(open)
      ensures |tried| == |accepts| && multiset(tried) == old(Subs(Cases()[..open]))
      ensures delivered + Subs(Cases()[..open]) == old(delivered + Subs(Cases()[..open]))
      ensures open - FIRST == Refusals(accepts) && nsent == old(nsent) + |accepts| - Refusals(accepts)
    {
      hide Subs, Swapped, Accounted, Serving, Trying, Refusals;
      var i, k := FIRST, 0;
      tried := [];
      Bounds(Cases(), open, nsent, start, delivered, early, late);
      PassStart(Cases(), open);
      RefusalsNext(accepts, 0);
      while i < open
        invariant Valid() && FIRST <= i <= open <= old(open) && 0 <= k <= |accepts| && |accepts| - k == open - i
        invariant Trying(Cases(), i, open, tried, old(Subs(Cases()[..open]))) && |tried| == k
        invariant i - FIRST == Refusals(accepts[..k]) && nsent == old(nsent) + k - Refusals(accepts[..k])
        decreases open - i
      {
        ghost var s := Cases();
        Bounds(s, open, nsent, start, delivered, early, late);
        TryOne(s, i, open, tried, old(Subs(Cases()[..open])));
        RefusalsNext(accepts, k);
        tried := tried + [s[i]];
        if accepts[k] {
          Deliver(i);
          i := i - 1;
        }
        i, k := i + 1, k + 1;
      }
      assert accepts[..k] == accepts;
      PassEnd(old(Cases()), Cases(), i, old(open), open, tried, old(nsent), nsent, start, old(delivered), delivered,
              early, late);
    }

    /** A removal that interrupts the send: the channel is found, and if it was not served yet
        the unserved prefix shrinks with it. */
    method RemoveDuringSend(c: Case)
      requires Valid() && sending && c in waiting
      modifies this`size, this`open, this`waiting, this`early, this`late, buf
      ensures Valid() && waiting == Minus(old(waiting), c)
      ensures if Unserved(old(Cases()), old(open), c) then early == Plus(old(early), c) && late == old(late)
              else late == Plus(old(late), c) && early == old(early)
      ensures Subs(Cases()) == Minus(old(Subs(Cases())), c)
    {
      hide Subs, Without, Accounted, Serving, Unserved, FirstAt, Plus, Minus;
      ghost var s := Cases();
      var index := TakeOut(c);
      RemovalShrinks(s, index, c, open, nsent, start, delivered, early, late);
      waiting := Minus(waiting, c);
      if index < open {
        early := Plus(early, c);
        open := open - 1;
      } else {
        late := Plus(late, c);
      }
    }

    /** Find the first case of a channel to be removed, and delete it. */
    method TakeOut(c: Case) returns (index: nat)
      requires size <= buf.Length && Accounted(Cases(), inbox, live, waiting) && c in waiting
      modifies this`size, buf
      ensures size == old(size) - 1 && FIRST <= index && FirstAt(old(Cases()), index, c)
      ensures Cases() == Without(old(Cases()), index) && Subs(Cases()) == Minus(old(Subs(Cases())), c)
      ensures Accounted(Cases(), inbox, live, Minus(waiting, c))
    {
      hide Subs, Without, Accounted;
      var found := Find(c);
      WaitingIsFound(Cases(), inbox, live, waiting, c, found);
      index := found;
      Delete(index);
    }

    /** When no case is left unserved the send is over: everyone subscribed at its start was
        served exactly once, unless removed before. */
    method EndSend() returns (n: nat)
      requires Valid() && sending && open == FIRST
      modifies this`sending
      ensures Valid() && !sending && n == nsent == |delivered|
      ensures delivered + early == start
      ensures Subs(Cases()) + early + late == start
    {
      EveryoneServed(Cases(), open, nsent, start, delivered, early, late);
      sending := false;
      return nsent;
    }

    ghost function Now(): Moment
      reads this, buf
    {
      Moment(Cases(), inbox, sending, open, nsent, live, waiting, start, delivered, early, late)
    }

    lemma InBounds()
      requires Valid() && sending
      ensures FIRST <= open <= |Cases()|
    {
      Bounds(Cases(), open, nsent, start, delivered, early, late);
    }

    /** One step; a step that cannot be taken in the current state is passed over. */
    method Take(step: Step)
      requires Valid()
      modifies this, buf
      ensures Valid() && (buf == old(buf) || fresh(buf))
      ensures Follows(step, old(Now()), Now())
    {
      if step.Unhook? {
        TakeOff(step);
      } else if step.Join? || step.Leave? {
        TakeOn(step);
      } else {
        TakeForward(step);
      }
    }

    /** The second half of `remove`, with or without a send in progress. */
    method TakeOff(step: Step)
      requires Valid() && step.Unhook?
      modifies this, buf
      ensures Valid() && (buf == old(buf) || fresh(buf))
      ensures Follows(step, old(Now()), Now())
    {
      hide Valid, Cases, Subs, Unserved, Plus, Minus;
      if step.c in waiting {
        if sending {
          RemoveDuringSend(step.c);
        } else {
          RemoveIdle(step.c);
        }
      }
    }

    /** A step of a subscriber at the inbox. */
    method TakeOn(step: Step)
      requires Valid() && (step.Join? || step.Leave?)
      modifies this, buf
      ensures Valid() && (buf == old(buf) || fresh(buf))
      ensures Follows(step, old(Now()), Now())
    {
      hide Valid, Cases;
      if step.Join? {
        if step.c.Channel? {
          Subscribe(step.c);
        }
      } else if step.c in live {
        var _ := Unsubscribe(step.c);
      }
    }

    /** A step of the sender. */
    method TakeForward(step: Step)
      requires Valid() && !step.Unhook? && !step.Join? && !step.Leave?
      modifies this, buf
      ensures Valid() && (buf == old(buf) || fresh(buf))
      ensures Follows(step, old(Now()), Now())
    {
      hide Valid, Cases, Subs, Swapped, Refusals;
      if sending {
        InBounds();
      }
      match step {
        case Begin => if !sending { BeginSend(); }
        case Try(accepts) =>
          if sending && |accepts| == open - FIRST {
            ghost var _ := FastPath(accepts);
            InBounds();
          }
        case Serve(i) => if sending && FIRST <= i < open { Deliver(i); }
        case End => if sending && open == FIRST { var _ := EndSend(); }
      }
    }

    /** Any interleaving of subscribers, removals and one sender at a time. Whenever a send is over,
        everyone subscribed at its start was served exactly once, unless removed before. */
    method Run(steps: seq<Step>) returns (ghost trace: seq<Moment>)
      requires Valid()
      modifies this, buf
      ensures Valid() && |trace| == |steps| + 1 && trace[0] == old(Now()) && trace[|steps|] == Now()
      ensures forall n :: 0 <= n < |steps| ==> Follows(steps[n], trace[n], trace[n + 1])
      ensures forall n :: 0 <= n < |steps| && trace[n].sending && !trace[n + 1].sending ==> trace[n].Complete()
    {
      hide Valid, Follows, Moment.Complete;
      trace := [Now()];
      for n := 0 to |steps|
        invariant Valid() && (buf == old(buf) || fresh(buf))
        invariant |trace| == n + 1 && trace[0] == old(Now()) && trace[n] == Now()
        invariant forall k :: 0 <= k < n ==> Follows(steps[k], trace[k], trace[k + 1])
      {
        Take(steps[n]);
        trace := trace + [Now()];
      }
      forall n | 0 <= n < |steps| && trace[n].sending && !trace[n + 1].sending ensures trace[n].Complete() {
        OverIsComplete(steps[n], trace[n], trace[n + 1]);
      }
    }
  }

  /** The feed at one time. */
  datatype Moment = Moment(cases: seq<Case>, inbox: seq<Case>, sending: bool, open: nat, nsent: nat,
                           live: multiset<Case>, waiting: multiset<Case>, start: multiset<Case>,
                           delivered: multiset<Case>, early: multiset<Case>, late: multiset<Case>)
  {
    /** Every subscriber at the start was served once, or removed before it was served. */
    ghost predicate Complete() {
      delivered + early == start && nsent == |delivered|
    }

    /** Who was served or removed so far in the current send. */
    ghost predicate SameSend(m: Moment) {
      && sending == m.sending && open == m.open && nsent == m.nsent && start == m.start
      && delivered == m.delivered && early == m.early && late == m.late
    }
  }

  /** What a step does to the feed. */
  ghost predicate Follows(step: Step, m: Moment, m': Moment) {
    match step
    case Join(c) =>
      m' == if c.Channel? then m.(live := m.live + multiset{c}, inbox := m.inbox + [c]) else m
    case Leave(c) =>
      if c !in m.live then m' == m
      else
        && m'.live == m.live - multiset{c} && m'.cases == m.cases && m'.SameSend(m)
        && m'.waiting == (if c in m.inbox then m.waiting else m.waiting + multiset{c})
        && multiset(m'.inbox) == multiset(m.inbox) - (if c in m.inbox then multiset{c} else multiset{})
    case Unhook(c) =>
      if c !in m.waiting then m' == m
      else
        && m'.waiting == Minus(m.waiting, c) && Subs(m'.cases) == Minus(Subs(m.cases), c)
        && m'.live == m.live && m'.inbox == m.inbox && m'.sending == m.sending
        && m'.start == m.start && m'.delivered == m.delivered && m'.nsent == m.nsent
        && m'.early == (if m.sending && Unserved(m.cases, m.open, c) then Plus(m.early, c) else m.early)
        && m'.late == (if m.sending && !Unserved(m.cases, m.open, c) then Plus(m.late, c) else m.late)
    case Begin =>
      if m.sending then m' == m
      else
        var all, none := m.cases + m.inbox, multiset{};
        m' == Moment(all, [], true, |all|, 0, m.live, m.waiting, m.live + m.waiting, none, none, none)
    case Try(accepts) =>
      if !m.sending || |accepts| != m.open - FIRST then m' == m
      else
        && FIRST <= m'.open <= |m'.cases| && m.open <= |m.cases|
        && m'.delivered + Subs(m'.cases[..m'.open]) == m.delivered + Subs(m.cases[..m.open])
        && m'.open == FIRST + Refusals(accepts) && m'.nsent == m.nsent + |accepts| - Refusals(accepts)
        && m' == m.(cases := m'.cases, open := m'.open, nsent := m'.nsent, delivered := m'.delivered)
    case Serve(i) =>
      if !m.sending || !(FIRST <= i < m.open) then m' == m
      else
        && m.open <= |m.cases|
        && m' == m.(cases := Swapped(m.cases, i, m.open - 1), open := m.open - 1, nsent := m.nsent + 1,
                    delivered := m.delivered + multiset{m.cases[i]})
    case End =>
      if m.sending && m.open == FIRST then m' == m.(sending := false) && m.Complete() else m' == m
  }

  lemma OverIsComplete(step: Step, m: Moment, m': Moment)
    requires Follows(step, m, m') && m.sending && !m'.sending
    ensures m.Complete()
  {
    hide Subs, Unserved, Swapped, Refusals;
  }

  datatype Step =
    | Join(c: Case) | Leave(c: Case) | Unhook(c: Case) | Begin | Try(accepts: seq<bool>) | Serve(i: nat) | End

  lemma JoinsInbox(s: seq<Case>, inbox: seq<Case>, live: multiset<Case>, waiting: multiset<Case>, c: Case)
    requires Accounted(s, inbox, live, waiting) && c.Channel?
    ensures Accounted(s, inbox + [c], live + multiset{c}, waiting)
  {
    hide Subs;
  }

  lemma LeavesInboxAt(s: seq<Case>, inbox: seq<Case>, live: multiset<Case>, waiting: multiset<Case>, c: Case, i: nat)
    requires Accounted(s, inbox, live, waiting) && c in live && i < |inbox| && inbox[i] == c
    ensures Accounted(s, Without(inbox, i), live - multiset{c}, waiting)
  {
    hide Subs;
    WithoutOne(inbox, i);
    assert c in multiset(inbox);
  }

  lemma LeavesInbox(s: seq<Case>, inbox: seq<Case>, live: multiset<Case>, waiting: multiset<Case>, c: Case)
    requires Accounted(s, inbox, live, waiting) && c in live
    ensures c !in inbox ==> Accounted(s, inbox, live - multiset{c}, waiting + multiset{c})
  {
    hide Subs;
    if c !in inbox {
      assert c !in multiset(inbox);
    }
  }

  lemma Bounds(s: seq<Case>, open: nat, nsent: nat, start: multiset<Case>, delivered: multiset<Case>,
               early: multiset<Case>, late: multiset<Case>)
    requires Serving(s, open, nsent, start, delivered, early, late)
    ensures FIRST <= open <= |s|
  {
  }

  lemma WithoutOne(s: seq<Case>, i: nat)
    requires i < |s|
    ensures multiset(Without(s, i)) == multiset(s) - multiset{s[i]}
    ensures Channels(s) ==> Channels(Without(s, i))
  {
    assert s == s[..i] + [s[i]] + s[i + 1..];
  }

  lemma SubsWithout(s: seq<Case>, i: nat)
    requires FIRST <= i < |s|
    ensures Subs(Without(s, i)) == Subs(s) - multiset{s[i]} && s[i] in Subs(s)
    ensures WellFormed(s) ==> WellFormed(Without(s, i))
  {
    var t := s[FIRST..];
    assert Without(s, i)[FIRST..] == Without(t, i - FIRST);
    WithoutOne(t, i - FIRST);
    assert t[i - FIRST] == s[i];
    hide Without;
  }

  lemma SubsSplit(s: seq<Case>, k: nat)
    requires FIRST <= k <= |s|
    ensures Subs(s) == Subs(s[..k]) + multiset(s[k..])
  {
    assert s[FIRST..] == s[..k][FIRST..] + s[k..];
  }

  /** A waiting channel is in the case list, behind case 0, and deleting its first occurrence
      settles its removal. */
  lemma WaitingIsFound(s: seq<Case>, inbox: seq<Case>, live: multiset<Case>, waiting: multiset<Case>, c: Case,
                       index: int)
    requires Accounted(s, inbox, live, waiting) && c in waiting
    requires -1 <= index < |s| && (index == -1 <==> c !in s) && (index >= 0 ==> s[index] == c)
    ensures FIRST <= index && c.Channel? && Subs(Without(s, index)) == Subs(s) - multiset{c}
    ensures Accounted(Without(s, index), inbox, live, waiting - multiset{c})
  {
    assert c in Subs(s);
    assert c in s[FIRST..];
    assert c in s;
    var j :| 0 <= j < |s[FIRST..]| && s[FIRST..][j] == c;
    SubsWithout(s, index);
    hide Subs, Without;
  }

  lemma InboxJoins(s: seq<Case>, inbox: seq<Case>, live: multiset<Case>, waiting: multiset<Case>)
    requires Accounted(s, inbox, live, waiting)
    ensures Accounted(s + inbox, [], live, waiting)
    ensures Serving(s + inbox, |s + inbox|, 0, live + waiting, multiset{}, multiset{}, multiset{})
  {
    assert (s + inbox)[FIRST..] == s[FIRST..] + inbox;
    assert (s + inbox)[..|s + inbox|] == s + inbox;
  }

  /** Serving case i: it leaves the unserved prefix, nobody else moves out of or into it. */
  lemma SwapMoves(s: seq<Case>, inbox: seq<Case>, live: multiset<Case>, waiting: multiset<Case>, i: nat, open: nat,
                  nsent: nat, start: multiset<Case>, delivered: multiset<Case>, early: multiset<Case>,
                  late: multiset<Case>)
    requires Accounted(s, inbox, live, waiting) && Serving(s, open, nsent, start, delivered, early, late)
    requires FIRST <= i < open
    ensures var s' := Swapped(s, i, open - 1);
            && Accounted(s', inbox, live, waiting)
            && Serving(s', open - 1, nsent + 1, start, delivered + multiset{s[i]}, early, late)
  {
    hide Subs, Swapped, WellFormed;
    SwapAround(s, i, open);
    SwapKeeps(s, i, open);
  }

  lemma SwapKeeps(s: seq<Case>, i: nat, open: nat)
    requires WellFormed(s) && FIRST <= i < open <= |s|
    ensures Subs(Swapped(s, i, open - 1)) == Subs(s)
  {
    var s', x := Swapped(s, i, open - 1), multiset{s[i]};
    SwapAround(s, i, open);
    SubsSplit(s, open);
    SubsSplit(s', open - 1);
    hide Subs, Swapped;
    assert (Subs(s'[..open - 1]) + x) + multiset(s[open..]) == Subs(s'[..open - 1]) + (x + multiset(s[open..]));
  }

  lemma SwapAround(s: seq<Case>, i: nat, open: nat)
    requires WellFormed(s) && FIRST <= i < open <= |s|
    ensures var s' := Swapped(s, i, open - 1);
            && |s'| == |s| && WellFormed(s') && multiset(s'[open - 1..]) == multiset{s[i]} + multiset(s[open..])
            && Subs(s[..open]) == Subs(s'[..open - 1]) + multiset{s[i]}
  {
    SwapPrefix(s, i, open);
    var s' := Swapped(s, i, open - 1);
    assert s'[open - 1..] == [s[i]] + s[open..];
    forall k | 0 <= k < |s'[FIRST..]| ensures s'[FIRST..][k].Channel? {
      assert s[FIRST..][i - FIRST].Channel? && s[FIRST..][open - 1 - FIRST].Channel? && s[FIRST..][k].Channel?;
    }
  }

  lemma SwapPrefix(s: seq<Case>, i: nat, open: nat)
    requires FIRST <= i < open <= |s|
    ensures Subs(s[..open]) == Subs(Swapped(s, i, open - 1)[..open - 1]) + multiset{s[i]}
  {
    var t, k := s[..open][FIRST..], i - FIRST;
    LastMoved(t, k);
    assert Swapped(s, i, open - 1)[..open - 1][FIRST..] == t[k := t[|t| - 1]][..|t| - 1];
  }

  /** Overwriting an element by the last one, which is then cut off. */
  lemma LastMoved(t: seq<Case>, k: nat)
    requires k < |t|
    ensures multiset(t) == multiset(t[k := t[|t| - 1]][..|t| - 1]) + multiset{t[k]}
  {
    var n, x := |t| - 1, t[|t| - 1];
    if k == n {
      assert t == t[k := x][..n] + [t[k]];
    } else {
      var a, b := t[..k], t[k + 1..n];
      assert t == a + [t[k]] + b + [x];
      assert t[k := x][..n] == a + [x] + b;
      assert multiset(t[k := x][..n]) == multiset(a) + multiset{x} + multiset(b);
    }
  }

  /** Deleting the first occurrence of a channel takes it out of the unserved prefix exactly if
      it has one there. */
  lemma RemovalShrinks(s: seq<Case>, index: nat, c: Case, open: nat, nsent: nat, start: multiset<Case>,
                       delivered: multiset<Case>, early: multiset<Case>, late: multiset<Case>)
    requires Serving(s, open, nsent, start, delivered, early, late) && FIRST <= index && FirstAt(s, index, c)
    ensures FIRST <= open && index < |s| && (index < open <==> Unserved(s, open, c))
    ensures index < open ==> Serving(Without(s, index), open - 1, nsent, start, delivered, Plus(early, c), late)
    ensures index >= open ==> Serving(Without(s, index), open, nsent, start, delivered, early, Plus(late, c))
  {
    Bounds(s, open, nsent, start, delivered, early, late);
    hide Subs, Without, Serving, Unserved, FirstAt;
    FirstUnserved(s, index, c, open);
    if index < open {
      CutPrefix(s, index, open);
      ServingEarly(s, Without(s, index), c, open, nsent, start, delivered, early, late);
    } else {
      CutSuffix(s, index, open);
      ServingLate(s, Without(s, index), c, open, nsent, start, delivered, early, late);
    }
  }

  lemma FirstUnserved(s: seq<Case>, index: nat, c: Case, open: nat)
    requires FIRST <= index && FirstAt(s, index, c) && FIRST <= open <= |s|
    ensures index < |s| && s[index] == c && (index < open <==> Unserved(s, open, c))
  {
    if index < open {
      assert s[FIRST..open][index - FIRST] == c;
    }
  }

  lemma ServingEarly(s: seq<Case>, s': seq<Case>, c: Case, open: nat, nsent: nat, start: multiset<Case>,
                     delivered: multiset<Case>, early: multiset<Case>, late: multiset<Case>)
    requires Serving(s, open, nsent, start, delivered, early, late) && FIRST < open && |s'| == |s| - 1
    requires Subs(s[..open]) == Plus(Subs(s'[..open - 1]), c) && s'[open - 1..] == s[open..]
    ensures Serving(s', open - 1, nsent, start, delivered, Plus(early, c), late)
  {
    hide Subs;
  }

  lemma ServingLate(s: seq<Case>, s': seq<Case>, c: Case, open: nat, nsent: nat, start: multiset<Case>,
                    delivered: multiset<Case>, early: multiset<Case>, late: multiset<Case>)
    requires Serving(s, open, nsent, start, delivered, early, late) && open <= |s'| == |s| - 1
    requires s'[..open] == s[..open] && multiset(s[open..]) == Plus(multiset(s'[open..]), c)
    ensures Serving(s', open, nsent, start, delivered, early, Plus(late, c))
  {
    hide Subs;
  }

  lemma CutPrefix(s: seq<Case>, index: nat, open: nat)
    requires FIRST <= index < open <= |s|
    ensures var s' := Without(s, index);
            && |s'| == |s| - 1 && Subs(s[..open]) == Subs(s'[..open - 1]) + multiset{s[index]}
            && s'[open - 1..] == s[open..]
  {
    assert Without(s, index)[..open - 1] == Without(s[..open], index);
    SubsWithout(s[..open], index);
  }

  lemma CutSuffix(s: seq<Case>, index: nat, open: nat)
    requires FIRST <= open <= index < |s|
    ensures var s' := Without(s, index);
            && |s'| == |s| - 1 && s'[..open] == s[..open]
            && multiset(s[open..]) == multiset(s'[open..]) + multiset{s[index]}
  {
    assert Without(s, index)[open..] == Without(s[open..], index - open);
    WithoutOne(s[open..], index - open);
    assert s[open..][index - open] == s[index];
  }

  lemma EveryoneServed(s: seq<Case>, open: nat, nsent: nat, start: multiset<Case>, delivered: multiset<Case>,
                       early: multiset<Case>, late: multiset<Case>)
    requires Serving(s, open, nsent, start, delivered, early, late) && open == FIRST
    ensures delivered + early == start && Subs(s) + early + late == start
  {
    SubsSplit(s, open);
    assert s[..open][FIRST..] == [];
  }

  /** In the non-blocking pass, the cases tried and those from i to the end of the prefix make
      up the whole prefix. */
  ghost predicate Trying(s: seq<Case>, i: nat, open: nat, tried: seq<Case>, total: multiset<Case>) {
    FIRST <= i <= open <= |s| && forall c :: multiset(tried)[c] + multiset(s[i..open])[c] == total[c]
  }

  lemma PassStart(s: seq<Case>, open: nat)
    requires FIRST <= open <= |s|
    ensures Trying(s, FIRST, open, [], Subs(s[..open]))
  {
    assert s[..open][FIRST..] == s[FIRST..open];
  }

  /** Whether case i is served and swapped away or skipped, the next one to try is in its place. */
  lemma TryOne(s: seq<Case>, i: nat, open: nat, tried: seq<Case>, total: multiset<Case>)
    requires Trying(s, i, open, tried, total) && i < open
    ensures Trying(s, i + 1, open, tried + [s[i]], total)
    ensures Trying(Swapped(s, i, open - 1), i, open - 1, tried + [s[i]], total)
  {
    var r, rest := s[i..open], s[i + 1..open];
    LastMoved(r, 0);
    assert r == [s[i]] + rest;
    assert Swapped(s, i, open - 1)[i..open - 1] == r[0 := r[|r| - 1]][..|r| - 1];
    assert multiset(tried + [s[i]]) == multiset(tried) + multiset{s[i]};
  }

  lemma RefusalsNext(accepts: seq<bool>, k: nat)
    requires k <= |accepts|
    ensures k == 0 ==> Refusals(accepts[..k]) == 0
    ensures k < |accepts| ==> Refusals(accepts[..k + 1]) == Refusals(accepts[..k]) + (if accepts[k] then 0 else 1)
  {
    if k < |accepts| {
      assert accepts[..k + 1][..k] == accepts[..k];
    }
  }

  lemma PassEnd(s0: seq<Case>, s: seq<Case>, i: nat, open0: nat, open: nat, tried: seq<Case>, nsent0: nat, nsent: nat,
                start: multiset<Case>, delivered0: multiset<Case>, delivered: multiset<Case>, early: multiset<Case>,
                late: multiset<Case>)
    requires Serving(s0, open0, nsent0, start, delivered0, early, late)
    requires Serving(s, open, nsent, start, delivered, early, late)
    requires Trying(s, i, open, tried, Subs(s0[..open0])) && i == open
    ensures multiset(tried) == Subs(s0[..open0])
    ensures delivered + Subs(s[..open]) == delivered0 + Subs(s0[..open0])
  {
    hide Subs;
    assert s[i..open] == [];
  }
}
