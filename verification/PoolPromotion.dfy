/** The facts behind promoting one account's queue (core/tx_pool.go, the loop of
    `promoteExecutables`) and demoting one account's pending list (`demoteUnexecutables`). */
module PoolPromotion {
  import opened TxTypes
  import opened TxSortedMaps
  import opened TxLists
  import opened PoolInvariants
  import opened PoolNonces

  /** Dropping part of a queued list from the pool. */
  lemma ShrinkQueued(p: Lists, q: Lists, all: set<Tx>, a: Address, l: List)
    requires Consistent(p, q, all, a, map[]) && a in q && !l.strict && l.Valid() && PartOf(l.items, q[a].items)
    ensures Consistent(p, q[a := l], all - TxsOf(q[a].items - l.items.Keys), a, map[])
  {
    hide Consistent;
    var gone := q[a].items - l.items.Keys;
    TakeFromQueue(p, q, all, a, l);
    Forgotten(p, q[a := l], all, a, gone, gone);
    assert gone - gone.Keys == map[];
  }

  /** The list operations the pool applies to a queued list only take entries away. */
  lemma ForwardPart(l: List, t: nat)
    requires l.Valid()
    ensures l.Forward(t).Valid() && l.Forward(t).strict == l.strict && PartOf(l.Forward(t).items, l.items)
    ensures l.items - l.Forward(t).items.Keys == Below(l.items, t)
  {
  }

  lemma FilterPart(l: List, costLimit: int, gasLimit: nat)
    requires l.Valid() && !l.strict
    ensures var f := l.Filter(costLimit, gasLimit);
            && f.list.Valid() && !f.list.strict && PartOf(f.list.items, l.items)
            && l.items - f.list.items.Keys == Where(l.items, Unpayable(costLimit, gasLimit))
  {
    hide Unpayable, Where;
    FilterIsComplete(l, costLimit, gasLimit);
    FilterPartitions(l, costLimit, gasLimit);
    var f := l.Filter(costLimit, gasLimit);
    assert l.items - f.list.items.Keys == f.removed;
  }

  lemma CapPart(l: List, cap: nat)
    requires l.Valid()
    ensures l.Cap(cap).Valid() && l.Cap(cap).strict == l.strict
    ensures PartOf(l.Cap(cap).items, l.items) && |l.Cap(cap).items| <= cap
  {
  }

  lemma ReadyPart(l: List, t: nat)
    requires l.Valid()
    ensures l.Ready(t).Valid() && l.Ready(t).strict == l.strict && PartOf(l.Ready(t).items, l.items)
    ensures l.items - l.Ready(t).items.Keys == Below(l.items, ReadyEnd(l.items, t))
  {
    ForwardPart(l, ReadyEnd(l.items, t));
  }

  /** Why a queued transaction may be dropped while promoting. */
  ghost predicate DropReason(tx: Tx, nonceOf: Address -> nat, balanceOf: Address -> int, maxGas: nat,
                             locals: set<Address>)
  {
    tx.nonce < nonceOf(tx.from) || Unpayable(balanceOf(tx.from), maxGas)(tx) || tx.from !in locals
  }

  /** Whatever left the pool was queued by account a, and was dropped for a reason. */
  ghost predicate Trimmed(all0: set<Tx>, all: set<Tx>, m: Items, a: Address, nonceOf: Address -> nat,
                          balanceOf: Address -> int, maxGas: nat, locals: set<Address>)
  {
    && all <= all0
    && forall tx :: tx in all0 && tx !in all ==>
         tx in TxsOf(m) && tx.from == a && DropReason(tx, nonceOf, balanceOf, maxGas, locals)
  }

  lemma TrimMore(all0: set<Tx>, all: set<Tx>, m: Items, a: Address, nonceOf: Address -> nat, balanceOf: Address -> int,
                 maxGas: nat, locals: set<Address>, gone: Items)
    requires Trimmed(all0, all, m, a, nonceOf, balanceOf, maxGas, locals) && Owned(m, a) && PartOf(gone, m)
    requires forall n :: n in gone ==> DropReason(gone[n], nonceOf, balanceOf, maxGas, locals)
    ensures Trimmed(all0, all - TxsOf(gone), m, a, nonceOf, balanceOf, maxGas, locals)
  {
  }

  /** The run handed out by `Ready` is the interval [lo, end), and nothing queued at `end`. */
  lemma ReadyRun(m: Items, start: nat)
    ensures var end := ReadyEnd(m, start);
            && end !in From(m, end)
            && (Below(m, end) != map[] ==>
                  && m != map[] && MinNonce(m) <= start && MinNonce(m) < end
                  && forall n :: n in Below(m, end) <==> MinNonce(m) <= n < end)
            && (Below(m, end) == map[] ==> From(m, end) == m && start !in m)
  {
    var end := ReadyEnd(m, start);
    if m != map[] && MinNonce(m) <= start {
      assert MinNonce(m) in Below(m, end);
    } else {
      assert end == 0 && Below(m, 0) == map[] && From(m, 0) == m;
    }
  }

  /** Of the run [lo, ..) of account a, everything below n has been promoted. */
  ghost predicate Promoting(p0: Lists, p: Lists, v0: map<Address, nat>, v: map<Address, nat>, a: Address, run: Items,
                            lo: nat, n: nat)
  {
    && SameElsewhere(p0, p, a) && SameElsewhere(v0, v, a)
    && (n == lo ==> p == p0 && v == v0)
    && (n > lo ==> a in p && a in v && v[a] == n && p[a].items == ListOf(p0, a, true).items + Below(run, n))
    && (NoneEmpty(p0) ==> NoneEmpty(p))
  }

  lemma PromoteStart(p: Lists, v: map<Address, nat>, a: Address, run: Items, lo: nat)
    requires forall n :: n in run ==> lo <= n
    ensures Promoting(p, p, v, v, a, run, lo, lo) && From(run, lo) == run
  {
  }

  lemma PromoteStep(p0: Lists, p: Lists, q: Lists, all: set<Tx>, v0: map<Address, nat>, v: map<Address, nat>,
                    a: Address, run: Items, lo: nat, n: nat, bump: nat)
    requires Promoting(p0, p, v0, v, a, run, lo, n) && Consistent(p, q, all, a, From(run, n))
    requires lo <= n && n in run && forall k :: k in run ==> lo <= k
    ensures run[n].from == a && run[n].nonce == n && run[n] in all
    ensures var r := ListOf(p, a, true).Add(run[n], bump);
            && r.Added? && r.replaced == None
            && Consistent(p[a := r.list], q, all, a, From(run, n + 1))
            && Promoting(p0, p[a := r.list], v0, v[a := n + 1], a, run, lo, n + 1)
  {
    hide Consistent;
    PutInPending(p, q, all, a, From(run, n), n, bump);
    assert From(run, n) - {n} == From(run, n + 1);
    PromotingNext(p0, p, v0, v, a, run, lo, n, ListOf(p, a, true).Add(run[n], bump).list);
  }

  lemma PromotingNext(p0: Lists, p: Lists, v0: map<Address, nat>, v: map<Address, nat>, a: Address, run: Items,
                      lo: nat, n: nat, l: List)
    requires Promoting(p0, p, v0, v, a, run, lo, n) && lo <= n && n in run && forall k :: k in run ==> lo <= k
    requires l.items == ListOf(p, a, true).items[n := run[n]]
    ensures Promoting(p0, p[a := l], v0, v[a := n + 1], a, run, lo, n + 1)
  {
    RunGrows(ListOf(p0, a, true).items, ListOf(p, a, true).items, run, lo, n);
    assert n in l.items;
  }

  lemma RunGrows(m0: Items, m: Items, run: Items, lo: nat, n: nat)
    requires n in run && forall k :: k in run ==> lo <= k
    requires if n == lo then m == m0 else m == m0 + Below(run, n)
    ensures m[n := run[n]] == m0 + Below(run, n + 1)
  {
    if n == lo {
      assert Below(run, n) == map[];
    }
    assert Below(run, n + 1) == Below(run, n)[n := run[n]];
  }

  lemma NothingDone(p: Lists, q: Lists, all: set<Tx>, v: map<Address, nat>, a: Address, nonceOf: Address -> nat,
                    balanceOf: Address -> int, maxGas: nat, locals: set<Address>)
    ensures Trimmed(all, all, ListOf(q, a, false).items, a, nonceOf, balanceOf, maxGas, locals)
    ensures SameElsewhere(p, p, a) && SameElsewhere(q, q, a) && SameElsewhere(v, v, a)
    ensures a in p ==> PartOf(p[a].items, p[a].items)
  {
  }

  /** The two passes of `TrimQueue`, on values. */
  lemma TrimFacts(p: Lists, q: Lists, all: set<Tx>, a: Address, nonceOf: Address -> nat, balanceOf: Address -> int,
                  maxGas: nat, locals: set<Address>)
    requires Consistent(p, q, all, a, map[]) && a in q
    ensures var l := q[a]; var l1 := l.Forward(nonceOf(a)); var l2 := l1.Filter(balanceOf(a), maxGas).list;
            && l1.Valid() && !l1.strict && PartOf(l1.items, l.items)
            && l2.Valid() && !l2.strict && PartOf(l2.items, l1.items) && PartOf(l2.items, l.items)
            && SameElsewhere(q, q[a := l1][a := l2], a)
            && (forall n :: n in l2.items ==> nonceOf(a) <= n)
            && Trimmed(all, all - TxsOf(l.items - l1.items.Keys) - TxsOf(l1.items - l2.items.Keys), l.items, a, nonceOf,
                       balanceOf, maxGas, locals)
            && Outdated(all, all - TxsOf(l.items - l1.items.Keys) - TxsOf(l1.items - l2.items.Keys), nonceOf, balanceOf,
                        maxGas)
  {
    var l := q[a];
    var l1 := l.Forward(nonceOf(a));
    ForwardPart(l, nonceOf(a));
    FilterPart(l1, balanceOf(a), maxGas);
    var l2 := l1.Filter(balanceOf(a), maxGas).list;
    hide Consistent, List.Filter;
    TrimMore(all, all, l.items, a, nonceOf, balanceOf, maxGas, locals, l.items - l1.items.Keys);
    TrimMore(all, all - TxsOf(l.items - l1.items.Keys), l.items, a, nonceOf, balanceOf, maxGas, locals,
             l1.items - l2.items.Keys);
  }

  /** What capping an account's queue comes to, whether the list then goes or not. */
  lemma CapOutcome(p: Lists, q: Lists, all: set<Tx>, a: Address, cap: nat, nonceOf: Address -> nat,
                   balanceOf: Address -> int, maxGas: nat, locals: set<Address>)
    requires Consistent(p, q, all, a, map[]) && a in q
    ensures q[a].Cap(cap).Valid() && !q[a].Cap(cap).strict && PartOf(q[a].Cap(cap).items, q[a].items)
    ensures var l := if a in locals then q[a] else q[a].Cap(cap);
            var all' := if a in locals then all else all - TxsOf(q[a].items - l.items.Keys);
            && PartOf(l.items, q[a].items) && (a !in locals ==> |l.items| <= cap)
            && SameElsewhere(q, q[a := l], a) && SameElsewhere(q, q[a := l] - {a}, a)
            && (a in locals ==> q[a := l] == q)
            && Trimmed(all, all', q[a].items, a, nonceOf, balanceOf, maxGas, locals)
            && (|q[a].items| <= cap ==> all' == all)
  {
    hide Consistent, List.Cap, List.Valid, Trimmed, PartOf, SameElsewhere, TxsOf;
    CapFacts(p, q, all, a, cap, nonceOf, balanceOf, maxGas, locals);
    assert a in locals ==> q[a := q[a]] == q;
  }

  lemma CapFacts(p: Lists, q: Lists, all: set<Tx>, a: Address, cap: nat, nonceOf: Address -> nat,
                 balanceOf: Address -> int, maxGas: nat, locals: set<Address>)
    requires Consistent(p, q, all, a, map[]) && a in q
    ensures var l := q[a]; var l' := l.Cap(cap);
            && l'.Valid() && !l'.strict && PartOf(l'.items, l.items) && |l'.items| <= cap
            && SameElsewhere(q, q, a) && SameElsewhere(q, q - {a}, a)
            && SameElsewhere(q, q[a := l'], a) && SameElsewhere(q, q[a := l'] - {a}, a)
            && PartOf(l.items, l.items)
            && Trimmed(all, all, l.items, a, nonceOf, balanceOf, maxGas, locals)
            && (a !in locals ==>
                  Trimmed(all, all - TxsOf(l.items - l'.items.Keys), l.items, a, nonceOf, balanceOf, maxGas, locals))
            && (|l.items| <= cap ==> all - TxsOf(l.items - l'.items.Keys) == all)
  {
    var l := q[a];
    CapPart(l, cap);
    if |l.items| <= cap {
      assert l.items - l.Cap(cap).items.Keys == map[] && TxsOf(map[]) == {};
    }
    hide Consistent, List.Cap;
    if a !in locals {
      TrimMore(all, all, l.items, a, nonceOf, balanceOf, maxGas, locals, l.items - l.Cap(cap).items.Keys);
    }
  }

  /** What `Ready` takes out of account a's queue, and how it lies against the pending list. */
  lemma ReadyFacts(p: Lists, q: Lists, all: set<Tx>, v: map<Address, nat>, nonceOf: Address -> nat, a: Address)
    requires Consistent(p, q, all, a, map[]) && a in q
    requires forall n :: n in q[a].items ==> nonceOf(a) <= n
    ensures var l, start := q[a], VirtualNonce(v, nonceOf, a);
            var end := ReadyEnd(l.items, start);
            var run := Below(l.items, end);
            var q' := q[a := l.Ready(start)];
            && Consistent(p, q', all, a, run) && PartOf(l.Ready(start).items, l.items)
            && SameElsewhere(q, q', a) && SameElsewhere(p, p, a) && SameElsewhere(v, v, a)
            && (a in p ==> PartOf(p[a].items, p[a].items))
            && (run == map[] ==> Consistent(p, q', all, a, map[]) && !Occupied(q', a, start))
            && !Occupied(q', a, end)
            && (run != map[] ==>
                  && l.items != map[] && MinNonce(l.items) < end
                  && (forall n :: n in run <==> MinNonce(l.items) <= n < end)
                  && (AllContiguous(p, v, nonceOf) ==> MinNonce(l.items) == start))
  {
    var l, start := q[a], VirtualNonce(v, nonceOf, a);
    ReadyPart(l, start);
    ReadyRun(l.items, start);
    TakeFromQueue(p, q, all, a, l.Ready(start));
    if Below(l.items, ReadyEnd(l.items, start)) != map[] && AllContiguous(p, v, nonceOf) {
      assert ContiguousAt(p, v, nonceOf, a);
      ReadyStartsAtVirtualNonce(p, q, v, nonceOf, a);
    }
  }

  lemma PromotedFacts(p0: Lists, p: Lists, q: Lists, all: set<Tx>, v0: map<Address, nat>, v: map<Address, nat>,
                      nonceOf: Address -> nat, a: Address, lo: nat, end: nat)
    requires a in q && lo < end && Consistent(p0, q, all, a, map[])
    requires Promoting(p0, p, v0, v, a, Below(q[a].items, end), lo, end)
    ensures SameElsewhere(p0, p, a) && SameElsewhere(v0, v, a) && (NoneEmpty(p0) ==> NoneEmpty(p))
    ensures VirtualNonce(v, nonceOf, a) == end
    ensures a in p0 ==> a in p && PartOf(p0[a].items, p[a].items)
  {
    if a in p0 {
      forall n | n in p0[a].items ensures n !in Below(q[a].items, end) {
        assert Occupied(p0, a, n);
        assert n in q[a].items ==> Occupied(q, a, n);
      }
    }
  }

  lemma PromotionOver(p0: Lists, q0: Lists, q1: Lists, q2: Lists, q: Lists, all0: set<Tx>, all1: set<Tx>, all: set<Tx>,
                      a: Address, n: nat, nonceOf: Address -> nat, balanceOf: Address -> int, maxGas: nat,
                      locals: set<Address>)
    requires a in q0 && a in q1 && a in q2 && NoneEmpty(q0)
    requires SameElsewhere(q0, q1, a) && SameElsewhere(q1, q2, a) && SameElsewhere(q2, q, a)
    requires PartOf(q1[a].items, q0[a].items) && PartOf(q2[a].items, q1[a].items)
    requires a in q ==> PartOf(q[a].items, q2[a].items) && q[a].items != map[]
    requires Trimmed(all0, all1, q0[a].items, a, nonceOf, balanceOf, maxGas, locals)
    requires Trimmed(all1, all, q2[a].items, a, nonceOf, balanceOf, maxGas, locals)
    requires Consistent(p0, q0, all0, 0, map[])
    requires !Occupied(q2, a, n)
    ensures SameElsewhere(q0, q, a) && NoneEmpty(q) && !Occupied(q, a, n)
    ensures a in q ==> PartOf(q[a].items, q0[a].items)
    ensures Trimmed(all0, all, q0[a].items, a, nonceOf, balanceOf, maxGas, locals)
  {
  }

  /** Dropping part of a pending list from the pool and sending another part back to the queue. */
  lemma ShrinkPending(p: Lists, q: Lists, all: set<Tx>, a: Address, l: List, gone: Items)
    requires Consistent(p, q, all, a, map[]) && a in p && l.strict && l.Valid() && PartOf(l.items, p[a].items)
    requires PartOf(gone, p[a].items) && gone.Keys !! l.items.Keys
    ensures Consistent(p[a := l], q, all - TxsOf(gone), a, p[a].items - l.items.Keys - gone.Keys)
  {
    hide Consistent;
    TakeFromPending(p, q, all, a, l);
    Forgotten(p[a := l], q, all, a, p[a].items - l.items.Keys, gone);
  }

  /** m continues m0 from nonce n on: if m0 was an interval reaching back to n or below,
      then m is an interval starting at n. */
  ghost predicate Restarts(m0: Items, m: Items, n: nat) {
    forall lo: nat, hi: nat :: Contiguous(m0, lo, hi) && lo <= n && m != map[] ==> Contiguous(m, n, MaxNonce(m) + 1)
  }

  /** Why a pending transaction may be dropped while demoting. */
  ghost predicate Stale(tx: Tx, nonceOf: Address -> nat, balanceOf: Address -> int, maxGas: nat) {
    tx.nonce < nonceOf(tx.from) || Unpayable(balanceOf(tx.from), maxGas)(tx)
  }

  ghost predicate NoneStale(m: Items, nonceOf: Address -> nat, balanceOf: Address -> int, maxGas: nat) {
    forall n :: n in m ==> !Stale(m[n], nonceOf, balanceOf, maxGas)
  }

  ghost predicate Outdated(all0: set<Tx>, all: set<Tx>, nonceOf: Address -> nat, balanceOf: Address -> int, maxGas: nat)
  {
    all <= all0 && forall tx :: tx in all0 && tx !in all ==> Stale(tx, nonceOf, balanceOf, maxGas)
  }

  /** The three passes over one account's pending list, on values: the list after dropping old
      nonces, after filtering, and whether its front is missing. */
  lemma DemoteFacts(p: Lists, q: Lists, all: set<Tx>, a: Address, nonceOf: Address -> nat, balanceOf: Address -> int,
                    maxGas: nat)
    requires Consistent(p, q, all, a, map[]) && a in p
    ensures var l := p[a]; var l1 := l.Forward(nonceOf(a)); var f := l1.Filter(balanceOf(a), maxGas);
            && Consistent(p[a := l1], q, all - TxsOf(Below(l.items, nonceOf(a))), a, map[])
            && Consistent(p[a := l1][a := f.list], q, all - TxsOf(Below(l.items, nonceOf(a))) - TxsOf(f.removed), a,
                          f.invalids)
            && PartOf(f.list.items, l.items) && NoneStale(f.list.items, nonceOf, balanceOf, maxGas)
            && (f.list.items != map[] && nonceOf(a) in f.list.items ==> Restarts(l.items, f.list.items, nonceOf(a)))
            && Outdated(all, all - TxsOf(Below(l.items, nonceOf(a))) - TxsOf(f.removed), nonceOf, balanceOf, maxGas)
  {
    var l := p[a];
    assert l.Valid() && l.strict && Owned(l.items, a);
    hide Consistent, Restarts, Outdated, NoneStale;
    var l1 := l.Forward(nonceOf(a));
    ForwardPart(l, nonceOf(a));
    var gone := Below(l.items, nonceOf(a));
    assert l.items - l1.items.Keys - gone.Keys == map[];
    ShrinkPending(p, q, all, a, l1, gone);
    StrictFilterPart(l1, balanceOf(a), maxGas);
    hide List.Filter;
    var f := l1.Filter(balanceOf(a), maxGas);
    ShrinkPending(p[a := l1], q, all - TxsOf(gone), a, f.list, f.removed);
    DemoteReasons(l, all, a, nonceOf, balanceOf, maxGas);
    if f.list.items != map[] && nonceOf(a) in f.list.items {
      FilteredRestarts(l, nonceOf(a), balanceOf(a), maxGas);
    }
  }

  lemma StrictFilterPart(l: List, costLimit: int, gasLimit: nat)
    requires l.Valid()
    ensures var f := l.Filter(costLimit, gasLimit);
            && f.list.Valid() && f.list.strict == l.strict && PartOf(f.list.items, l.items)
            && PartOf(f.removed, l.items) && f.removed.Keys !! f.list.items.Keys
            && l.items - f.list.items.Keys - f.removed.Keys == f.invalids
  {
    hide Where, WhereNot, Unpayable, CleanUpTo;
    FilterIsComplete(l, costLimit, gasLimit);
    FilterPartitions(l, costLimit, gasLimit);
    hide List.Filter;
    var f := l.Filter(costLimit, gasLimit);
    assert l.items - f.list.items.Keys - f.removed.Keys == f.invalids;
  }

  lemma DemoteReasons(l: List, all: set<Tx>, a: Address, nonceOf: Address -> nat, balanceOf: Address -> int,
                      maxGas: nat)
    requires l.Valid() && Owned(l.items, a)
    ensures var f := l.Forward(nonceOf(a)).Filter(balanceOf(a), maxGas);
            && Outdated(all, all - TxsOf(Below(l.items, nonceOf(a))) - TxsOf(f.removed), nonceOf, balanceOf, maxGas)
            && NoneStale(f.list.items, nonceOf, balanceOf, maxGas)
  {
    var l1 := l.Forward(nonceOf(a));
    var f := l1.Filter(balanceOf(a), maxGas);
    FilterIsComplete(l1, balanceOf(a), maxGas);
    hide List.Filter, List.Valid;
    forall tx | tx in TxsOf(Below(l.items, nonceOf(a))) || tx in TxsOf(f.removed)
      ensures Stale(tx, nonceOf, balanceOf, maxGas)
    {
    }
    forall n | n in f.list.items ensures !Stale(f.list.items[n], nonceOf, balanceOf, maxGas) {
    }
    hide Stale, TxsOf, Below;
  }

  lemma FilteredRestarts(l: List, n: nat, costLimit: int, gasLimit: nat)
    requires l.Valid() && l.strict && n in l.Forward(n).Filter(costLimit, gasLimit).list.items
    ensures Restarts(l.items, l.Forward(n).Filter(costLimit, gasLimit).list.items, n)
  {
    var l1 := l.Forward(n);
    var m := l1.Filter(costLimit, gasLimit).list.items;
    forall lo: nat, hi: nat | Contiguous(l.items, lo, hi) && lo <= n ensures Contiguous(m, n, MaxNonce(m) + 1) {
      FilterPartitions(l1, costLimit, gasLimit);
      assert n in l.items;
      assert Contiguous(l1.items, n, hi);
      var mid := FilterKeepsPrefix(l1, costLimit, gasLimit, n, hi);
      assert mid - 1 in m;
    }
  }

  /** What demoting account a leaves of its pending list: a non-empty list whose front is at the
      state nonce and in which nothing is stale, or no list at all. */
  ghost predicate Demoted(p0: Lists, p: Lists, nonceOf: Address -> nat, balanceOf: Address -> int, maxGas: nat,
                          a: Address)
  {
    a in p ==>
      && NoneStale(p[a].items, nonceOf, balanceOf, maxGas)
      && a in p0 && p[a].items != map[] && nonceOf(a) in p[a].items && PartOf(p[a].items, p0[a].items)
      && Restarts(p0[a].items, p[a].items, nonceOf(a))
  }

  /** What demotion leaves of a pending list: the payable part from the state nonce on. */
  function Payable(l: List, n: nat, costLimit: int, gasLimit: nat): List {
    l.Forward(n).Filter(costLimit, gasLimit).list
  }

  /** A transaction stays exactly if it is not below the state nonce and neither it nor any before
      it from there on is too expensive or too large. */
  lemma PayablePrefix(l: List, n: nat, costLimit: int, gasLimit: nat, k: nat)
    requires l.Valid() && l.strict
    ensures k in Payable(l, n, costLimit, gasLimit).items <==>
              k in l.items && n <= k && CleanBetween(l.items, Unpayable(costLimit, gasLimit), n, k)
    ensures k in Payable(l, n, costLimit, gasLimit).items ==>
              Payable(l, n, costLimit, gasLimit).items[k] == l.items[k]
  {
    var l1 := l.Forward(n);
    FilterIsComplete(l1, costLimit, gasLimit);
    FilterPartitions(l1, costLimit, gasLimit);
    hide List.Filter, CleanUpTo, CleanBetween;
    CleanFrom(l.items, Unpayable(costLimit, gasLimit), n, k);
  }

  /** Nothing from lo up to hi is bad. */
  ghost predicate CleanBetween(m: Items, bad: Tx -> bool, lo: nat, hi: nat) {
    forall j :: lo <= j <= hi && j in m ==> !bad(m[j])
  }

  lemma CleanFrom(m: Items, bad: Tx -> bool, n: nat, k: nat)
    ensures CleanUpTo(From(m, n), bad, k) <==> CleanBetween(m, bad, n, k)
  {
    if CleanUpTo(From(m, n), bad, k) {
      forall j | n <= j <= k && j in m ensures !bad(m[j]) {
        assert j in From(m, n);
      }
    }
  }

  /** Account a keeps its payable part, or its list goes if that does not start at the state nonce. */
  ghost predicate Retains(p0: Lists, p: Lists, nonceOf: Address -> nat, balanceOf: Address -> int, maxGas: nat,
                          a: Address)
    requires a in p0
  {
    var l := Payable(p0[a], nonceOf(a), balanceOf(a), maxGas);
    if nonceOf(a) in l.items then a in p && p[a] == l else a !in p
  }

  /** The same for every account but those in `todo`, which are untouched. */
  ghost predicate RetainsAll(p0: Lists, p: Lists, nonceOf: Address -> nat, balanceOf: Address -> int, maxGas: nat,
                             todo: set<Address>)
  {
    && p.Keys <= p0.Keys && (forall a :: a in todo ==> a in p0 && a in p && p[a] == p0[a])
    && forall a :: a in p0 && a !in todo ==> Retains(p0, p, nonceOf, balanceOf, maxGas, a)
  }

  lemma RetainsNone(p: Lists, nonceOf: Address -> nat, balanceOf: Address -> int, maxGas: nat)
    ensures RetainsAll(p, p, nonceOf, balanceOf, maxGas, p.Keys)
  {
  }

  lemma RetainsMore(p0: Lists, p: Lists, p': Lists, nonceOf: Address -> nat, balanceOf: Address -> int, maxGas: nat,
                    todo: set<Address>, a: Address)
    requires RetainsAll(p0, p, nonceOf, balanceOf, maxGas, todo) && a in todo && SameElsewhere(p, p', a)
    requires Retains(p, p', nonceOf, balanceOf, maxGas, a)
    ensures RetainsAll(p0, p', nonceOf, balanceOf, maxGas, todo - {a})
  {
    hide Payable;
    forall b | b in p0 && b !in todo - {a} ensures Retains(p0, p', nonceOf, balanceOf, maxGas, b) {
      if b != a {
        assert Retains(p0, p, nonceOf, balanceOf, maxGas, b);
      }
    }
    forall b | b in p' ensures b in p0 {
      assert b != a ==> b in p;
    }
  }
}
