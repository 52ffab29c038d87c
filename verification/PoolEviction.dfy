/** The fair-share eviction of core/tx_pool.go: what the nested loops over the offending
    accounts keep true, on values. */
module PoolEviction {
  import opened TxTypes
  import opened TxLists
  import opened PoolInvariants
  import opened PoolNonces
  import opened Heaps

  /** The number of transactions in a map of lists. */
  ghost function Total(p: Lists): nat
    decreases |p|
  {
    if p == map[] then 0 else
      var a :| a in p;
      assert |p - {a}| < |p| by { Fewer(p, a); }
      |p[a].items| + Total(p - {a})
  }

  lemma Fewer(p: Lists, a: Address)
    requires a in p
    ensures |p - {a}| < |p|
  {
    assert (p - {a}).Keys == p.Keys - {a};
  }

  /** The total may be taken apart at any account. */
  lemma {:induction false} TotalAt(p: Lists, a: Address)
    requires a in p
    ensures Total(p) == |p[a].items| + Total(p - {a})
    decreases |p|
  {
    var b :| b in p && Total(p) == |p[b].items| + Total(p - {b});
    if b != a {
      Fewer(p, a);
      Fewer(p, b);
      TotalAt(p - {b}, a);
      TotalAt(p - {a}, b);
      assert p - {b} - {a} == p - {a} - {b};
    }
  }

  lemma TotalUpdate(p: Lists, a: Address, l: List)
    requires a in p
    ensures Total(p[a := l]) + |p[a].items| == Total(p) + |l.items|
  {
    hide Total;
    TotalAt(p, a);
    TotalAt(p[a := l], a);
    assert p[a := l] - {a} == p - {a};
  }

  lemma {:induction false} TotalBounds(p: Lists, a: Address)
    requires a in p
    ensures |p[a].items| <= Total(p)
  {
    hide Total;
    TotalAt(p, a);
  }

  /** m' is m without some of its highest nonces. */
  ghost predicate LowPart(m': Items, m: Items) {
    PartOf(m', m) && forall n, k :: n in m' && k in m && k !in m' ==> n < k
  }

  /** What eviction may do to the pending lists: local accounts and accounts within the slot
      allowance lose nothing, others keep at least their allowance and lose highest nonces only. */
  ghost predicate Evicted(p0: Lists, p: Lists, locals: set<Address>, slots: nat) {
    && p.Keys == p0.Keys
    && forall a :: a in p0 ==>
         && LowPart(p[a].items, p0[a].items)
         && (a in locals || |p0[a].items| <= slots ==> p[a] == p0[a])
         && (|p0[a].items| > slots ==> |p[a].items| >= slots)
  }

  ghost predicate Penalised(p0: Lists, p: Lists, a: Address) {
    a in p0 && a in p && |p[a].items| < |p0[a].items|
  }

  /** No non-local account is left with more than a penalised one. */
  ghost predicate Fair(p0: Lists, p: Lists, locals: set<Address>) {
    forall a, b :: Penalised(p0, p, a) && b in p && b !in locals ==> |p[b].items| <= |p[a].items|
  }

  ghost predicate Distinct(s: seq<Address>) {
    forall i, j :: 0 <= i < j < |s| ==> s[i] != s[j]
  }

  /** The offenders all hold exactly e transactions, nobody else was touched, and no non-local
      account holds more than e. */
  ghost predicate Level(p0: Lists, p: Lists, locals: set<Address>, slots: nat, offenders: seq<Address>, e: nat) {
    && Evicted(p0, p, locals, slots) && Distinct(offenders)
    && (forall o :: o in offenders ==> o in p && o !in locals && |p0[o].items| > slots && |p[o].items| == e)
    && (forall a :: a in p && a !in offenders ==> p[a] == p0[a])
    && (forall a :: a in p && a !in locals ==> |p[a].items| <= e)
  }

  lemma LevelIsFair(p0: Lists, p: Lists, locals: set<Address>, slots: nat, offenders: seq<Address>, e: nat)
    requires Level(p0, p, locals, slots, offenders, e)
    ensures Evicted(p0, p, locals, slots) && Fair(p0, p, locals)
  {
  }

  lemma LevelStart(p: Lists, locals: set<Address>, slots: nat)
    ensures Level(p, p, locals, slots, [], Total(p))
  {
    forall a | a in p ensures |p[a].items| <= Total(p) {
      TotalBounds(p, a);
    }
  }

  /** One account gives up its highest nonce. */
  ghost predicate GaveUpLast(p: Lists, p': Lists, a: Address) {
    && a in p && p'.Keys == p.Keys && SameElsewhere(p, p', a)
    && LowPart(p'[a].items, p[a].items) && |p'[a].items| == |p[a].items| - 1
    && p'[a].strict == p[a].strict
  }

  /** Each of the first i offenders gave up its highest nonce; nobody else changed. */
  ghost predicate Reduced(p: Lists, p': Lists, offenders: seq<Address>, i: nat)
    requires i <= |offenders|
  {
    && p'.Keys == p.Keys
    && (forall a :: a in p && a !in offenders[..i] ==> p'[a] == p[a])
    && (forall a :: a in p && a in offenders[..i] ==>
          LowPart(p'[a].items, p[a].items) && |p'[a].items| == |p[a].items| - 1)
  }

  lemma ReducedNext(p: Lists, p1: Lists, p2: Lists, offenders: seq<Address>, i: nat)
    requires i < |offenders| && Distinct(offenders) && Reduced(p, p1, offenders, i) && GaveUpLast(p1, p2, offenders[i])
    ensures Reduced(p, p2, offenders, i + 1)
  {
    hide LowPart;
    assert offenders[..i + 1] == offenders[..i] + [offenders[i]];
    assert offenders[i] !in offenders[..i];
  }

  /** Every offender still has a transaction to give up. */
  ghost predicate CanReduce(p: Lists, offenders: seq<Address>) {
    Distinct(offenders) && forall o :: o in offenders ==> o in p && p[o].items != map[]
  }

  /** No non-local account outside the offenders holds more than t. */
  ghost predicate OthersWithin(p: Lists, locals: set<Address>, offenders: seq<Address>, t: nat) {
    forall a :: a in p && a !in locals && a !in offenders ==> |p[a].items| <= t
  }

  lemma LevelParts(p0: Lists, p: Lists, locals: set<Address>, slots: nat, offenders: seq<Address>, e: nat)
    requires Level(p0, p, locals, slots, offenders, e) && |offenders| > 0
    ensures offenders[|offenders| - 1] in p && |p[offenders[|offenders| - 1]].items| == e
    ensures e > 0 ==> CanReduce(p, offenders)
  {
    assert offenders[|offenders| - 1] in offenders;
  }

  /** There are no more offenders than non-local accounts. */
  lemma OffendersAreAccounts(p0: Lists, p: Lists, locals: set<Address>, slots: nat, offenders: seq<Address>, e: nat)
    requires Level(p0, p, locals, slots, offenders, e)
    ensures |offenders| <= |Remote(p, locals)|
  {
    DistinctFit(offenders, Remote(p, locals).Keys);
  }

  lemma {:induction false} DistinctFit(s: seq<Address>, t: set<Address>)
    requires Distinct(s) && forall x :: x in s ==> x in t
    ensures |s| <= |t|
  {
    if s != [] {
      var x, rest := s[|s| - 1], s[..|s| - 1];
      assert x in s;
      forall y | y in rest ensures y in t - {x} {
        assert y in s;
      }
      DistinctFit(rest, t - {x});
    }
  }

  /** A round over all level offenders lowers the level by one. */
  lemma LevelDown(p0: Lists, p: Lists, p': Lists, locals: set<Address>, slots: nat, offenders: seq<Address>, e: nat,
                  t: nat)
    requires Level(p0, p, locals, slots, offenders, e) && e > t >= slots && Reduced(p, p', offenders, |offenders|)
    requires OthersWithin(p, locals, offenders, t)
    ensures Level(p0, p', locals, slots, offenders, e - 1) && OthersWithin(p', locals, offenders, t)
  {
    hide Distinct, LowPart;
    assert offenders[..|offenders|] == offenders;
    forall a | a in p0 ensures LowPart(p'[a].items, p0[a].items) {
      if a in offenders { LowPartTrans(p'[a].items, p[a].items, p0[a].items); }
    }
  }

  lemma LowPartTrans(m2: Items, m1: Items, m0: Items)
    requires LowPart(m2, m1) && LowPart(m1, m0)
    ensures LowPart(m2, m0)
  {
  }

  /** A new offender with exactly e transactions joins the level ones. */
  lemma LevelJoin(p0: Lists, p: Lists, locals: set<Address>, slots: nat, offenders: seq<Address>, e: nat, x: Address)
    requires Level(p0, p, locals, slots, offenders, e) && x !in offenders
    requires x in p && x !in locals && |p0[x].items| > slots && |p[x].items| == e
    ensures Level(p0, p, locals, slots, offenders + [x], e)
  {
  }

  /** The first offender sets the level. */
  lemma LevelFirst(p0: Lists, p: Lists, locals: set<Address>, slots: nat, e: nat, x: Address)
    requires Level(p0, p, locals, slots, [], e)
    requires x in p && x !in locals && |p0[x].items| > slots
    requires OthersWithin(p, locals, [], |p[x].items|)
    ensures Level(p0, p, locals, slots, [x], |p[x].items|)
  {
  }

  /** An account in the spam queue, with the list length it was pushed with. */
  datatype Spammer = Spammer(addr: Address, priority: int)

  const SpamKey: Spammer -> int := (x: Spammer) => -x.priority

  /** The heap holds, once each, the non-local accounts above the allowance that are not done. */
  ghost predicate SpamHeap(s: seq<Spammer>, p: Lists, locals: set<Address>, slots: nat, done: seq<Address>) {
    && (forall x :: x in s ==> x.addr in p && x.addr !in locals && x.addr !in done)
    && (forall x :: x in s ==> x.priority == |p[x.addr].items| > slots)
    && (forall a :: a in p && a !in locals && a !in done && |p[a].items| > slots ==> Spammer(a, |p[a].items|) in s)
    && (forall x :: multiset(s)[x] <= 1)
  }

  lemma SpamPop(s: seq<Spammer>, x: Spammer, s': seq<Spammer>, p: Lists, locals: set<Address>, slots: nat,
                done: seq<Address>)
    requires SpamHeap(s, p, locals, slots, done) && multiset(s) == multiset(s') + multiset{x}
    requires forall y :: y in s ==> SpamKey(x) <= SpamKey(y)
    ensures SpamHeap(s', p, locals, slots, done + [x.addr])
    ensures x.addr in p && x.addr !in done && x.addr !in locals && |p[x.addr].items| > slots
    ensures OthersWithin(p, locals, done, |p[x.addr].items|)
  {
    assert x in multiset(s);
    forall y | y in s' ensures y in s && y.addr != x.addr {
      assert y in multiset(s);
      assert multiset(s)[x] <= 1;
      assert y != x;
    }
    forall y ensures multiset(s')[y] <= 1 {
      assert multiset(s)[y] <= 1;
    }
    forall a | a in p && a !in locals && a !in done && |p[a].items| > slots
      ensures |p[a].items| <= |p[x.addr].items| && (a != x.addr ==> Spammer(a, |p[a].items|) in s')
    {
      var y := Spammer(a, |p[a].items|);
      assert SpamKey(x) <= SpamKey(y);
      assert y in multiset(s);
      if a != x.addr { assert y in multiset(s'); }
    }
  }

  /** Collecting the spam queue: the accounts in `todo` are still to be looked at. */
  ghost predicate Collecting(s: seq<Spammer>, p: Lists, locals: set<Address>, slots: nat, todo: set<Address>) {
    && (forall x :: x in s ==> x.addr in p && x.addr !in locals && x.addr !in todo)
    && (forall x :: x in s ==> x.priority == |p[x.addr].items| > slots)
    && (forall a :: a in p && a !in locals && a !in todo && |p[a].items| > slots ==> Spammer(a, |p[a].items|) in s)
    && (forall x :: multiset(s)[x] <= 1)
  }

  lemma CollectStep(s: seq<Spammer>, s': seq<Spammer>, p: Lists, locals: set<Address>, slots: nat, todo: set<Address>,
                    a: Address)
    requires Collecting(s, p, locals, slots, todo) && a in todo && a in p
    requires if a !in locals && |p[a].items| > slots
             then multiset(s') == multiset(s) + multiset{Spammer(a, |p[a].items|)} else s' == s
    ensures Collecting(s', p, locals, slots, todo - {a})
  {
    if a !in locals && |p[a].items| > slots {
      var x := Spammer(a, |p[a].items|);
      assert x !in s;
      assert x !in multiset(s);
      forall y ensures y in s' <==> y in s || y == x {
        assert y in s' <==> y in multiset(s');
        assert y in s <==> y in multiset(s);
      }
    }
  }

  /** Adding up the list lengths of a map, visited in any order. */
  method Count(lists: Lists) returns (n: nat)
    ensures n == Total(lists)
  {
    n := 0;
    var todo := lists;
    while todo != map[]
      invariant n + Total(todo) == Total(lists)
      decreases |todo|
    {
      var a :| a in todo;
      TotalAt(todo, a);
      Fewer(todo, a);
      n := n + |todo[a].items|;
      todo := todo - {a};
    }
  }

  /** Where the offenders stand when the next one is popped: it was never touched, and no
      non-local account outside the offenders holds more than it does. */
  lemma NextOffender(p0: Lists, p: Lists, locals: set<Address>, slots: nat, offenders: seq<Address>, e: nat, x: Address)
    requires Level(p0, p, locals, slots, offenders, e)
    requires x in p0 && x !in offenders && x !in locals && |p0[x].items| > slots
    requires OthersWithin(p0, locals, offenders, |p0[x].items|)
    ensures x in p && p[x] == p0[x] && |p[x].items| <= e && OthersWithin(p, locals, offenders, |p[x].items|)
  {
  }

  /** Nobody but the offenders is above the allowance once the spam queue ran empty. */
  lemma LastOffenders(p0: Lists, p: Lists, locals: set<Address>, slots: nat, offenders: seq<Address>, e: nat)
    requires Level(p0, p, locals, slots, offenders, e) && SpamHeap([], p0, locals, slots, offenders)
    ensures OthersWithin(p, locals, offenders, slots)
    ensures e <= slots || offenders == [] ==> forall a :: a in p && a !in locals ==> |p[a].items| <= slots
  {
  }

  lemma EvictedNonEmpty(p0: Lists, p: Lists, locals: set<Address>, slots: nat)
    requires Evicted(p0, p, locals, slots) && NoneEmpty(p0) && slots >= 1
    ensures NoneEmpty(p)
  {
    forall a | a in p ensures p[a].items != map[] {
      assert a in p0;
      if p[a] != p0[a] { assert |p[a].items| >= 1; }
    }
  }

  /** A non-local account waiting in the queue pass, with its heartbeat. */
  datatype Beat = Beat(addr: Address, time: int)

  const BeatKey: Beat -> int := (b: Beat) => b.time

  /** Clock readings from 1 on; an account never heard of comes before all others. */
  function BeatOf(beats: map<Address, nat>, a: Address): Beat {
    Beat(a, if a in beats then beats[a] + 1 else 0)
  }

  /** No heartbeat for longer than the lifetime, or none ever. */
  predicate IsSilent(beats: map<Address, nat>, a: Address, now: nat, lifetime: int) {
    a in beats ==> now - beats[a] > lifetime
  }

  /** The non-local accounts that were silent for too long. */
  function Silent(q: Lists, beats: map<Address, nat>, locals: set<Address>, now: nat, lifetime: int): set<Address> {
    set a | a in q && a !in locals && IsSilent(beats, a, now, lifetime)
  }

  /** Different accounts, earlier heartbeats first. */
  ghost predicate InOrder(left: seq<Beat>) {
    forall i, j :: 0 <= i < j < |left| ==> left[i].addr != left[j].addr && left[i].time <= left[j].time
  }

  lemma LastInOrder(left: seq<Beat>)
    requires InOrder(left) && |left| > 0
    ensures var x, rest := left[|left| - 1], left[..|left| - 1];
            && InOrder(rest) && (forall b :: b in left <==> b in rest || b == x)
            && (forall b :: b in rest ==> b.addr != x.addr && b.time <= x.time)
  {
    var x, rest := left[|left| - 1], left[..|left| - 1];
    assert left == rest + [x];
    forall b | b in rest ensures b.addr != x.addr && b.time <= x.time {
      var i :| 0 <= i < |rest| && rest[i] == b;
      assert left[i] == b;
    }
  }

  /** The queue pass: the accounts in `left` are untouched and sorted by heartbeat, local
      accounts are untouched, and every other account has lost its whole queue. */
  ghost predicate Draining(q0: Lists, q: Lists, locals: set<Address>, beats: map<Address, nat>, left: seq<Beat>) {
    && (forall b :: b in left ==> b.addr in q && b.addr !in locals && b == BeatOf(beats, b.addr))
    && InOrder(left)
    && (forall a :: a in q ==> a in q0 && q[a] == q0[a] && (a in locals || BeatOf(beats, a) in left))
    && (forall a :: a in q0 && a in locals ==> a in q)
    && (forall a, b :: a in q0 && a !in q && b in left ==> b.time <= BeatOf(beats, a).time)
  }

  /** What the queue pass may do: local accounts lose nothing, others lose highest nonces only,
      and an account loses something only after every account with a later heartbeat lost all. */
  ghost predicate Drained(q0: Lists, q: Lists, locals: set<Address>, beats: map<Address, nat>) {
    && (forall a :: a in q ==> a in q0 && LowPart(q[a].items, q0[a].items))
    && (forall a :: a in q0 && a in locals ==> a in q && q[a] == q0[a])
    && (forall a, b :: a in q0 && b in q && b !in locals && BeatOf(beats, a).time < BeatOf(beats, b).time ==>
          a in q && q[a] == q0[a])
  }

  lemma DrainingIsDrained(q0: Lists, q: Lists, locals: set<Address>, beats: map<Address, nat>, left: seq<Beat>)
    requires Draining(q0, q, locals, beats, left)
    ensures Drained(q0, q, locals, beats)
    ensures left == [] ==> forall a :: a in q ==> a in locals
  {
  }

  /** One account's queue went entirely. */
  lemma DrainAll(q0: Lists, q: Lists, locals: set<Address>, beats: map<Address, nat>, left: seq<Beat>, q': Lists)
    requires Draining(q0, q, locals, beats, left) && |left| > 0
    requires q' == q - {left[|left| - 1].addr}
    ensures Draining(q0, q', locals, beats, left[..|left| - 1])
  {
    LastInOrder(left);
    hide InOrder;
    var x, rest := left[|left| - 1], left[..|left| - 1];
    assert x == BeatOf(beats, x.addr);
    forall a, b | a in q0 && a !in q' && b in rest ensures b.time <= BeatOf(beats, a).time {
      assert a in q ==> a == x.addr;
    }
  }

  /** One account's queue lost its highest nonces, which ends the pass. */
  lemma DrainSome(q0: Lists, q: Lists, locals: set<Address>, beats: map<Address, nat>, left: seq<Beat>, q': Lists)
    requires Draining(q0, q, locals, beats, left) && |left| > 0
    requires var a := left[|left| - 1].addr;
             SameElsewhere(q, q', a) && a in q' && a in q && LowPart(q'[a].items, q[a].items)
    ensures Drained(q0, q', locals, beats)
  {
    var x := left[|left| - 1];
    assert x in left && x == BeatOf(beats, x.addr);
    forall a, b | a in q0 && b in q' && b !in locals && BeatOf(beats, a).time < BeatOf(beats, b).time
      ensures a in q' && q'[a] == q0[a]
    {
      LastInOrder(left);
      assert b in q && BeatOf(beats, b) in left;
    }
  }

  /** The non-local accounts of q outside `todo`, once each, with their heartbeats. */
  ghost predicate BeatsListed(s: seq<Beat>, q: Lists, locals: set<Address>, beats: map<Address, nat>,
                              todo: set<Address>)
  {
    && (forall b :: b in s ==> b.addr in q && b.addr !in locals && b.addr !in todo && b == BeatOf(beats, b.addr))
    && (forall a :: a in q && a !in locals && a !in todo ==> BeatOf(beats, a) in s)
    && (forall b :: multiset(s)[b] <= 1)
  }

  lemma BeatsStep(s: seq<Beat>, q: Lists, locals: set<Address>, beats: map<Address, nat>, todo: set<Address>,
                  a: Address)
    requires BeatsListed(s, q, locals, beats, todo) && a in todo && a in q
    ensures BeatsListed(if a in locals then s else s + [BeatOf(beats, a)], q, locals, beats, todo - {a})
  {
    if a !in locals {
      assert BeatOf(beats, a) !in s;
      assert BeatOf(beats, a) !in multiset(s);
    }
  }

  lemma DrainStart(q: Lists, locals: set<Address>, beats: map<Address, nat>, all: seq<Beat>, left: seq<Beat>)
    requires BeatsListed(all, q, locals, beats, {})
    requires multiset(left) == multiset(all) && NonDecreasing(left, BeatKey)
    ensures Draining(q, q, locals, beats, left)
  {
    forall b ensures b in left <==> b in all {
      assert b in left <==> b in multiset(left);
      assert b in all <==> b in multiset(all);
    }
    forall i, j | 0 <= i < j < |left| ensures left[i].addr != left[j].addr && left[i].time <= left[j].time {
      assert BeatKey(left[i]) <= BeatKey(left[j]);
      if left[i].addr == left[j].addr {
        assert left[i] in all && left[j] in all;
        TwiceInside(left, i, j);
      }
    }
  }

  lemma TwiceInside(s: seq<Beat>, i: nat, j: nat)
    requires i < j < |s| && s[i] == s[j]
    ensures multiset(s)[s[i]] >= 2
  {
    assert s == s[..j] + [s[j]] + s[j + 1..];
    assert s[..j][i] == s[i];
    assert s[i] in multiset(s[..j]);
  }

  lemma TotalRemove(q: Lists, a: Address, n: nat)
    requires a in q && n in q[a].items && !q[a].strict
    ensures Total(WithList(q, a, q[a].Remove(n))) == Total(q) - 1
  {
    SizeWithout(q[a].items, n);
    TotalAt(q, a);
    if q[a].Remove(n).items != map[] {
      TotalUpdate(q, a, q[a].Remove(n));
    }
  }

  /** The pending lists of the non-local accounts. */
  ghost function Remote(p: Lists, locals: set<Address>): Lists {
    map a | a in p && a !in locals :: p[a]
  }

  /** The pending lists of the local accounts. */
  ghost function Local(p: Lists, locals: set<Address>): Lists {
    map a | a in p && a in locals :: p[a]
  }

  lemma {:induction false} TotalSplit(p: Lists, locals: set<Address>)
    ensures Total(p) == Total(Remote(p, locals)) + Total(Local(p, locals))
    decreases |p|
  {
    hide Total;
    if p == map[] {
      TotalAllEmpty(p);
      assert Remote(p, locals) == p && Local(p, locals) == p;
    } else {
      var a :| a in p;
      Fewer(p, a);
      TotalAt(p, a);
      TotalSplit(p - {a}, locals);
      SplitWithout(p, locals, a);
      if a in locals {
        TotalAt(Local(p, locals), a);
      } else {
        TotalAt(Remote(p, locals), a);
      }
    }
  }

  lemma SplitWithout(p: Lists, locals: set<Address>, a: Address)
    requires a in p
    ensures Local(p - {a}, locals) == if a in locals then Local(p, locals) - {a} else Local(p, locals)
    ensures Remote(p - {a}, locals) == if a in locals then Remote(p, locals) else Remote(p, locals) - {a}
  {
  }

  lemma {:induction false} TotalNoneEmpty(p: Lists)
    requires NoneEmpty(p)
    ensures Total(p) >= |p|
    decreases |p|
  {
    if p != map[] {
      var a :| a in p;
      Fewer(p, a);
      TotalAt(p, a);
      TotalNoneEmpty(p - {a});
      assert p == (p - {a})[a := p[a]];
    }
  }

  lemma {:induction false} TotalAllEmpty(p: Lists)
    requires forall a :: a in p ==> p[a].items == map[]
    ensures Total(p) == 0
    decreases |p|
  {
    if p != map[] {
      var a :| a in p;
      Fewer(p, a);
      TotalAt(p, a);
      TotalAllEmpty(p - {a});
    }
  }

  /** What one eviction guarantees: it stops at the limit, or with every non-local account at its allowance,
      it touches nothing if the limit was kept, and overshoots by less than one per non-local account. */
  ghost predicate Settles(p0: Lists, p: Lists, locals: set<Address>, slots: nat, limit: nat) {
    && Evicted(p0, p, locals, slots) && Fair(p0, p, locals)
    && (Total(p) <= limit || forall a :: a in p && a !in locals ==> |p[a].items| <= slots)
    && (Total(p0) <= limit ==> p == p0)
    && (Total(p0) > limit ==> Total(p) + |Remote(p, locals)| > limit)
  }

  /** Whether the slots suffice for every non-local account to keep a pending transaction. */
  ghost predicate Spares(p: Lists, locals: set<Address>, slots: nat, limit: nat) {
    || slots >= 1 || Total(p) <= limit || Remote(p, locals) == map[]
    || |Remote(p, locals)| + Total(Local(p, locals)) <= limit
  }

  /** Eviction empties no list exactly if the slots suffice; otherwise it empties every non-local one. */
  lemma EvictionEmptiesLists(p0: Lists, p: Lists, locals: set<Address>, slots: nat, limit: nat)
    requires Settles(p0, p, locals, slots, limit) && NoneEmpty(p0)
    ensures NoneEmpty(p) <==> Spares(p0, locals, slots, limit)
    ensures Spares(p0, locals, slots, limit) || forall a :: a in Remote(p, locals) ==> p[a].items == map[]
  {
    hide Total, Evicted, Fair, NoneEmpty, Remote, Local;
    if slots >= 1 {
      EvictedNonEmpty(p0, p, locals, slots);
    } else if Total(p0) > limit {
      if r :| r in p && r in Remote(p, locals) && p[r].items == map[] {
        Starved(p0, p, locals, limit, r);
      } else {
        Fed(p0, p, locals, limit);
      }
    }
  }

  lemma Starved(p0: Lists, p: Lists, locals: set<Address>, limit: nat, r: Address)
    requires Settles(p0, p, locals, 0, limit) && NoneEmpty(p0) && Total(p0) > limit
    requires r in Remote(p, locals) && p[r].items == map[]
    ensures !NoneEmpty(p) && !Spares(p0, locals, 0, limit)
    ensures forall a :: a in Remote(p, locals) ==> p[a].items == map[]
  {
    hide Total, Evicted, Fair, NoneEmpty;
    LocalsKept(p0, p, locals);
    TotalSplit(p, locals);
    AllFall(p0, p, locals, r);
    TotalAllEmpty(Remote(p, locals));
    SomeEmpty(p, r);
  }

  lemma Fed(p0: Lists, p: Lists, locals: set<Address>, limit: nat)
    requires Settles(p0, p, locals, 0, limit) && NoneEmpty(p0) && Total(p0) > limit
    requires forall a :: a in p && a in Remote(p, locals) ==> p[a].items != map[]
    ensures NoneEmpty(p) && Spares(p0, locals, 0, limit)
  {
    hide Total, Evicted, Fair, NoneEmpty, Remote, Local;
    LocalsKept(p0, p, locals);
    TotalSplit(p, locals);
    RemoteNonEmpty(p0, p, locals);
    TotalNoneEmpty(Remote(p, locals));
    if Total(p) > limit {
      NothingLeft(p, locals);
      assert Remote(p0, locals).Keys == {};
    }
  }

  lemma SomeEmpty(p: Lists, a: Address)
    requires a in p && p[a].items == map[]
    ensures !NoneEmpty(p)
  {
  }

  lemma LocalsKept(p0: Lists, p: Lists, locals: set<Address>)
    requires Evicted(p0, p, locals, 0)
    ensures Local(p, locals) == Local(p0, locals) && Remote(p, locals).Keys == Remote(p0, locals).Keys
    ensures |Remote(p, locals)| == |Remote(p0, locals)|
  {
    SameSize(Remote(p, locals), Remote(p0, locals));
  }

  lemma SameSize(p: Lists, q: Lists)
    requires p.Keys == q.Keys
    ensures |p| == |q|
  {
    assert |p.Keys| == |p| && |q.Keys| == |q|;
  }

  /** One non-local account left with nothing: fairness leaves all of them with nothing. */
  lemma AllFall(p0: Lists, p: Lists, locals: set<Address>, r: Address)
    requires Evicted(p0, p, locals, 0) && Fair(p0, p, locals) && NoneEmpty(p0)
    requires r in Remote(p, locals) && p[r].items == map[]
    ensures forall a :: a in Remote(p, locals) ==> p[a].items == map[]
  {
    assert Penalised(p0, p, r) by { assert p0[r].items != map[]; }
    forall a | a in Remote(p, locals) ensures p[a].items == map[] {
      assert |p[a].items| <= |p[r].items|;
    }
  }

  lemma RemoteNonEmpty(p0: Lists, p: Lists, locals: set<Address>)
    requires Evicted(p0, p, locals, 0) && NoneEmpty(p0)
    requires forall a :: a in p && a in Remote(p, locals) ==> p[a].items != map[]
    ensures NoneEmpty(Remote(p, locals)) && NoneEmpty(p)
  {
  }

  lemma NothingLeft(p: Lists, locals: set<Address>)
    requires NoneEmpty(Remote(p, locals)) && forall a :: a in p && a !in locals ==> |p[a].items| <= 0
    ensures Remote(p, locals) == map[]
  {
    forall r ensures r !in Remote(p, locals) {
    }
  }

  /** Three accounts with one transaction each, one slot in all and none per account: all three end empty. */
  lemma EvictionEmptiesAll(p: Lists)
    ensures NoneEmpty(ThreeSingles)
    ensures !Spares(ThreeSingles, {}, 0, 1)
    ensures Settles(ThreeSingles, p, {}, 0, 1) ==> forall a :: a in {1, 2, 3} ==> a in p && p[a].items == map[]
  {
    hide Settles;
    var p0 := ThreeSingles;
    assert Remote(p0, {}) == p0 && Local(p0, {}) == map[];
    assert p0.Keys == {1, 2, 3} && |p0| == |p0.Keys| == 3;
    TotalNoneEmpty(p0);
    if Settles(p0, p, {}, 0, 1) {
      EvictionEmptiesLists(p0, p, {}, 0, 1);
      assert p.Keys == p0.Keys by { SettlesKeys(p0, p, {}, 0, 1); }
      assert Remote(p, {}).Keys == p.Keys;
    }
  }

  lemma SettlesKeys(p0: Lists, p: Lists, locals: set<Address>, slots: nat, limit: nat)
    requires Settles(p0, p, locals, slots, limit)
    ensures p.Keys == p0.Keys
  {
  }

  function Single(a: Address): List {
    List(true, map[0 := Tx(a, 0, 1, 1, 0, 0, 0)], 1, 1)
  }

  const ThreeSingles: Lists := map[1 := Single(1), 2 := Single(2), 3 := Single(3)]
}
