/** What whole pool operations promise (core/tx_pool.go), on values. */
module PoolOutcomes {
  import opened TxTypes
  import opened TxLists
  import opened PoolInvariants
  import opened PoolNonces
  import opened PoolPromotion
  import opened PoolEviction
  import opened TxPricedLists

  /** Transactions were only lost for a reason; those of local accounts only when they became
      too old or unpayable. */
  ghost predicate Kept(all0: set<Tx>, all: set<Tx>, nonceOf: Address -> nat, balanceOf: Address -> int, maxGas: nat,
                       locals: set<Address>)
  {
    all <= all0 && forall tx :: tx in all0 && tx !in all ==> DropReason(tx, nonceOf, balanceOf, maxGas, locals)
  }

  lemma KeptAll(all: set<Tx>, nonceOf: Address -> nat, balanceOf: Address -> int, maxGas: nat, locals: set<Address>)
    ensures Kept(all, all, nonceOf, balanceOf, maxGas, locals)
  {
  }

  lemma KeptTrimmed(all0: set<Tx>, all1: set<Tx>, all2: set<Tx>, m: Items, a: Address, nonceOf: Address -> nat,
                    balanceOf: Address -> int, maxGas: nat, locals: set<Address>)
    requires Kept(all0, all1, nonceOf, balanceOf, maxGas, locals)
    requires Trimmed(all1, all2, m, a, nonceOf, balanceOf, maxGas, locals)
    ensures Kept(all0, all2, nonceOf, balanceOf, maxGas, locals)
  {
  }

  lemma KeptTrans(all0: set<Tx>, all1: set<Tx>, all2: set<Tx>, nonceOf: Address -> nat, balanceOf: Address -> int,
                  maxGas: nat, locals: set<Address>)
    requires Kept(all0, all1, nonceOf, balanceOf, maxGas, locals) &&
             Kept(all1, all2, nonceOf, balanceOf, maxGas, locals)
    ensures Kept(all0, all2, nonceOf, balanceOf, maxGas, locals)
  {
  }

  /** Pending eviction spares local accounts. */
  lemma EvictionKept(p0: Lists, p: Lists, q: Lists, all0: set<Tx>, all: set<Tx>, slots: nat, nonceOf: Address -> nat,
                     balanceOf: Address -> int, maxGas: nat, locals: set<Address>)
    requires Consistent(p0, q, all0, 0, map[]) && Consistent(p, q, all, 0, map[]) && all <= all0
    requires Evicted(p0, p, locals, slots)
    ensures Kept(all0, all, nonceOf, balanceOf, maxGas, locals)
  {
    forall tx | tx in all0 && tx !in all ensures DropReason(tx, nonceOf, balanceOf, maxGas, locals) {
      assert Holds(p0, tx) || Holds(q, tx);
      assert !Holds(p, tx) && !Holds(q, tx);
    }
  }

  lemma DrainKept(p: Lists, q0: Lists, q: Lists, all0: set<Tx>, all: set<Tx>, beats: map<Address, nat>,
                  nonceOf: Address -> nat, balanceOf: Address -> int, maxGas: nat, locals: set<Address>)
    requires Consistent(p, q0, all0, 0, map[]) && Consistent(p, q, all, 0, map[]) && all <= all0
    requires Drained(q0, q, locals, beats)
    ensures Kept(all0, all, nonceOf, balanceOf, maxGas, locals)
  {
    forall tx | tx in all0 && tx !in all ensures DropReason(tx, nonceOf, balanceOf, maxGas, locals) {
      assert Holds(p, tx) || Holds(q0, tx);
      assert !Holds(p, tx) && !Holds(q, tx);
    }
  }

  /** Evicting the end of a pending interval moves its virtual nonce to one that was pending,
      so nothing queued becomes executable. */
  lemma IdleAfterEviction(p0: Lists, p: Lists, q: Lists, all: set<Tx>, v0: map<Address, nat>, v: map<Address, nat>,
                          nonceOf: Address -> nat, locals: set<Address>, slots: nat)
    requires Consistent(p0, q, all, 0, map[]) && Evicted(p0, p, locals, slots)
    requires AllContiguous(p0, v0, nonceOf) && AllContiguous(p, v, nonceOf) && Idle(q, v0, nonceOf, {})
    ensures Idle(q, v, nonceOf, {})
  {
    forall a ensures IdleAt(q, v, nonceOf, a) {
      assert ContiguousAt(p0, v0, nonceOf, a) && ContiguousAt(p, v, nonceOf, a) && IdleAt(q, v0, nonceOf, a);
      var hi0, hi := VirtualNonce(v0, nonceOf, a), VirtualNonce(v, nonceOf, a);
      if a in p {
        IntervalShrinks(p0[a].items, p[a].items, nonceOf(a), hi0, hi);
        assert hi < hi0 ==> Occupied(p0, a, hi);
      }
    }
  }

  lemma IntervalShrinks(m0: Items, m: Items, lo: nat, hi0: nat, hi: nat)
    requires Contiguous(m0, lo, hi0) && Contiguous(m, lo, hi) && PartOf(m, m0)
    ensures hi <= hi0
  {
    assert hi0 < hi ==> hi0 in m;
  }

  lemma IdleDrained(q0: Lists, q: Lists, locals: set<Address>, beats: map<Address, nat>, v: map<Address, nat>,
                    nonceOf: Address -> nat)
    requires Drained(q0, q, locals, beats) && Idle(q0, v, nonceOf, {})
    ensures Idle(q, v, nonceOf, {})
  {
    IdleShrunk(q0, q, v, nonceOf, {});
  }

  lemma CappedElsewhere(q: Lists, q': Lists, todo: set<Address>, cap: nat, a: Address)
    requires Capped(q, todo, {}, cap) && SameElsewhere(q, q', a)
    ensures Capped(q', todo - {a}, {}, cap)
    ensures a in todo ==> |ListOf(q, a, false).items| <= cap
  {
  }

  /** The non-local ones among these accounts are within their queue allowance. */
  ghost predicate Capped(q: Lists, accounts: set<Address>, locals: set<Address>, cap: nat) {
    forall a :: a in accounts && a in q && a !in locals ==> |q[a].items| <= cap
  }

  lemma CapMore(q: Lists, q': Lists, accounts: set<Address>, locals: set<Address>, cap: nat, a: Address)
    requires Capped(q, accounts, locals, cap) && SameElsewhere(q, q', a)
    requires a in q' && a !in locals ==> |q'[a].items| <= cap
    ensures Capped(q', accounts + {a}, locals, cap)
  {
  }

  lemma CapDrained(q0: Lists, q: Lists, accounts: set<Address>, locals: set<Address>, beats: map<Address, nat>,
                   cap: nat)
    requires Capped(q0, accounts, locals, cap) && Drained(q0, q, locals, beats)
    ensures Capped(q, accounts, locals, cap)
  {
    forall a | a in accounts && a in q && a !in locals ensures |q[a].items| <= cap {
      PartIsSmaller(q[a].items, q0[a].items);
    }
  }

  lemma PartIsSmaller(m: Items, m0: Items)
    requires PartOf(m, m0)
    ensures |m| <= |m0|
  {
    SubsetSize(m.Keys, m0.Keys);
  }

  lemma {:induction false} SubsetSize(s: set<nat>, t: set<nat>)
    requires s <= t
    ensures |s| <= |t|
  {
    if s != {} {
      var x :| x in s;
      SubsetSize(s - {x}, t - {x});
    }
  }

  /** The state after promotion: pending fits, or every non-local account is within its slots;
      the queue fits, or only local accounts are queued. */
  ghost predicate Within(p: Lists, q: Lists, locals: set<Address>, slots: nat, globalSlots: nat, globalQueue: nat) {
    && (Total(p) <= globalSlots || forall a :: a in p && a !in locals ==> |p[a].items| <= slots)
    && (Total(q) <= globalQueue || forall a :: a in q ==> a in locals)
  }

  /** tx took its place: nothing else came, and only a transaction at its nonce may have gone. */
  ghost predicate TookPlace(all0: set<Tx>, all: set<Tx>, tx: Tx) {
    && tx in all && all <= all0 + {tx}
    && forall t :: t in all0 && t !in all ==> t.from == tx.from && t.nonce == tx.nonce
  }

  /** Room was made: only remote transactions went, none dearer than a remote one that stayed. */
  ghost predicate MadeRoom(all0: set<Tx>, all: set<Tx>, locals: set<Address>) {
    && all <= all0
    && (forall d :: d in all0 && d !in all ==> d.from !in locals)
    && (forall d, t :: d in all0 && d !in all && t in all && t.from !in locals ==> d.gasPrice <= t.gasPrice)
  }

  /** A better priced transaction at a pending nonce. */
  lemma PendingReplaced(p: Lists, q: Lists, all: set<Tx>, v: map<Address, nat>, nonceOf: Address -> nat, tx: Tx,
                        bump: nat)
    requires Consistent(p, q, all, 0, map[]) && Occupied(p, tx.from, tx.nonce) && p[tx.from].Add(tx, bump).Added?
    ensures var r := p[tx.from].Add(tx, bump);
            var p', all' := p[tx.from := r.list], Swapped(all, r.replaced, tx);
            && r.replaced.Some?
            && Consistent(p', q, all', 0, map[]) && TookPlace(all, all', tx)
            && (NoneEmpty(p) ==> NoneEmpty(p'))
            && (AllContiguous(p, v, nonceOf) ==> AllContiguous(p', v, nonceOf))
  {
    var a := tx.from;
    assert p[a].items[tx.nonce].from == a && p[a].items[tx.nonce].nonce == tx.nonce;
    Retag(p, q, all, 0, a);
    ReplacePending(p, q, all, tx, bump);
    var r := p[a].Add(tx, bump);
    Retag(p[a := r.list], q, Swapped(all, r.replaced, tx), a, 0);
    hide Consistent;
    if AllContiguous(p, v, nonceOf) {
      assert ContiguousAt(p, v, nonceOf, a);
      ContiguousAfter(p, v, p[a := r.list], v, nonceOf, a);
    }
  }

  /** A transaction whose nonce is not pending. */
  lemma Enqueued(p: Lists, q: Lists, all: set<Tx>, tx: Tx, bump: nat)
    requires Consistent(p, q, all, 0, map[]) && !Occupied(p, tx.from, tx.nonce)
    requires ListOf(q, tx.from, false).Add(tx, bump).Added?
    ensures var r := ListOf(q, tx.from, false).Add(tx, bump);
            var q', all' := q[tx.from := r.list], Swapped(all, r.replaced, tx);
            && Consistent(p, q', all', 0, map[]) && TookPlace(all, all', tx)
            && (NoneEmpty(q) ==> NoneEmpty(q'))
  {
    var a := tx.from;
    Retag(p, q, all, 0, a);
    EnterQueue(p, q, all, tx, bump);
    var r := ListOf(q, a, false).Add(tx, bump);
    Retag(p, q[a := r.list], Swapped(all, r.replaced, tx), a, 0);
    assert Occupied(q, a, tx.nonce) ==> q[a].items[tx.nonce].from == a && q[a].items[tx.nonce].nonce == tx.nonce;
    hide Consistent;
    assert tx.nonce in r.list.items;
  }

  lemma IdleEnqueued(q: Lists, v: map<Address, nat>, nonceOf: Address -> nat, tx: Tx, bump: nat, except: set<Address>)
    requires ListOf(q, tx.from, false).Add(tx, bump).Added? && Idle(q, v, nonceOf, except)
    ensures var r := ListOf(q, tx.from, false).Add(tx, bump);
            && Idle(q[tx.from := r.list], v, nonceOf, except + {tx.from})
            && (r.replaced.Some? ==> Idle(q[tx.from := r.list], v, nonceOf, except))
  {
    var r := ListOf(q, tx.from, false).Add(tx, bump);
    IdleAfter(q, v, q[tx.from := r.list], v, nonceOf, except, tx.from);
    if r.replaced.Some? && tx.from !in except {
      assert IdleAt(q, v, nonceOf, tx.from);
      assert Occupied(q, tx.from, tx.nonce);
      assert except - {tx.from} == except;
    }
  }

  lemma IdleMore(q: Lists, v: map<Address, nat>, nonceOf: Address -> nat, except: set<Address>, more: set<Address>)
    requires Idle(q, v, nonceOf, except)
    ensures Idle(q, v, nonceOf, except + more)
  {
  }

  /** What one accepted transaction may cost the pool. */
  ghost predicate Displaced(all0: set<Tx>, all: set<Tx>, tx: Tx, locals: set<Address>) {
    && all <= all0 + {tx}
    && forall d :: d in all0 && d !in all ==>
         || (d.from == tx.from && d.nonce == tx.nonce)
         || (d.from !in locals && forall t :: t in all && t != tx && t.from !in locals ==> d.gasPrice <= t.gasPrice)
  }

  lemma DisplacedByRoom(all0: set<Tx>, all1: set<Tx>, all: set<Tx>, tx: Tx, locals: set<Address>)
    requires MadeRoom(all0, all1, locals)
    ensures TookPlace(all1, all, tx) ==> Displaced(all0, all, tx, locals) && all <= all0 + {tx}
    ensures Displaced(all0, all1, tx, locals) && all1 <= all0 + {tx}
  {
  }

  /** Demotion is done with every account but those in `todo`, which it has not touched. */
  ghost predicate Demoting(p0: Lists, p: Lists, nonceOf: Address -> nat, balanceOf: Address -> int, maxGas: nat,
                           todo: set<Address>)
  {
    && (forall a :: a in todo ==> a in p0 && a in p && p[a] == p0[a])
    && (forall a :: a !in todo ==> Demoted(p0, p, nonceOf, balanceOf, maxGas, a))
  }

  lemma DemotingStep(p0: Lists, p: Lists, p': Lists, nonceOf: Address -> nat, balanceOf: Address -> int, maxGas: nat,
                     todo: set<Address>, a: Address)
    requires Demoting(p0, p, nonceOf, balanceOf, maxGas, todo) && a in todo && SameElsewhere(p, p', a)
    requires Demoted(p, p', nonceOf, balanceOf, maxGas, a)
    ensures Demoting(p0, p', nonceOf, balanceOf, maxGas, todo - {a})
  {
    forall b | b !in todo - {a} ensures Demoted(p0, p', nonceOf, balanceOf, maxGas, b) {
      if b != a {
        assert Demoted(p0, p, nonceOf, balanceOf, maxGas, b);
      }
    }
  }

  lemma OutdatedMore(all0: set<Tx>, all1: set<Tx>, all2: set<Tx>, nonceOf: Address -> nat, balanceOf: Address -> int,
                     maxGas: nat)
    requires Outdated(all0, all1, nonceOf, balanceOf, maxGas) && Outdated(all1, all2, nonceOf, balanceOf, maxGas)
    ensures Outdated(all0, all2, nonceOf, balanceOf, maxGas)
  {
  }

  /** The virtual nonces `reset` sets: one past the last pending nonce. */
  ghost predicate Renumbered(p: Lists, v: map<Address, nat>, todo: set<Address>) {
    && (forall a :: a in v ==> a in p)
    && (forall a :: a in p && a !in todo ==>
         a in v && p[a].items != map[] && v[a] == MaxNonce(p[a].items) + 1)
  }

  /** Pending lists were intervals reaching down to these state nonces or below. */
  ghost predicate WasContiguous(p: Lists, nonceOf: Address -> nat) {
    forall a :: a in p ==> exists lo: nat, hi: nat :: lo <= nonceOf(a) && Contiguous(p[a].items, lo, hi)
  }

  /** Contiguity survives a new head whose state nonces are not lower: what demotion leaves
      starts at the new state nonce and ends where the virtual nonce is put. */
  lemma ContiguousAgain(p0: Lists, p: Lists, v: map<Address, nat>, nonceOf: Address -> nat, balanceOf: Address -> int,
                        maxGas: nat)
    requires WasContiguous(p0, nonceOf)
    requires Demoting(p0, p, nonceOf, balanceOf, maxGas, {}) && Renumbered(p, v, {})
    ensures AllContiguous(p, v, nonceOf)
  {
    forall a ensures ContiguousAt(p, v, nonceOf, a) {
      assert Demoted(p0, p, nonceOf, balanceOf, maxGas, a);
      if a in p {
        var lo: nat, hi: nat :| lo <= nonceOf(a) && Contiguous(p0[a].items, lo, hi);
      }
    }
  }

  lemma NoLower(p: Lists, v: map<Address, nat>, nonceOf: Address -> nat, nonces: Address -> nat)
    ensures AllContiguous(p, v, nonceOf) && (forall a :: nonceOf(a) <= nonces(a)) ==> WasContiguous(p, nonces)
  {
    if AllContiguous(p, v, nonceOf) && forall a :: nonceOf(a) <= nonces(a) {
      forall a | a in p ensures exists lo: nat, hi: nat :: lo <= nonces(a) && Contiguous(p[a].items, lo, hi) {
        assert ContiguousAt(p, v, nonceOf, a);
      }
    }
  }

  /** Transactions that the state has already seen executed. */
  ghost predicate Executed(txs: seq<Tx>, nonceOf: Address -> nat) {
    forall tx :: tx in txs ==> tx.nonce < nonceOf(tx.from)
  }

  datatype Refusal =
    | Known | Oversized | NegativeValue | AboveGasLimit | InvalidSender | Underpriced | NonceTooLow | InsufficientFunds
    | Malformed | ReplaceUnderpriced

  datatype Outcome = Refused(why: Refusal) | Accepted(replaced: bool)

  ghost predicate SameSlot(a: Tx, b: Tx) {
    a.from == b.from && a.nonce == b.nonce
  }

  /** tx outbids whatever is known at its slot. */
  ghost predicate Beats(tx: Tx, all: set<Tx>, bump: nat) {
    forall t :: t in all && SameSlot(t, tx) ==> Outbids(tx, t, bump)
  }

  /** Why a transaction was taken or not, against what was known before, whether the pool could
      be full, and the verdict of validation. */
  ghost predicate Justified(o: Outcome, tx: Tx, prior: set<Tx>, full: bool, bump: nat, verdict: Option<Refusal>) {
    match o
    case Accepted(_) => verdict == None
    case Refused(Known) => tx in prior
    case Refused(ReplaceUnderpriced) =>
      verdict == None && exists t :: t in prior && SameSlot(t, tx) && !Outbids(tx, t, bump)
    case Refused(Underpriced) => verdict == Some(Underpriced) || (verdict == None && full)
    case Refused(why) => verdict == Some(why)
  }

  lemma InsertJustified(r: Outcome, tx: Tx, prior: set<Tx>, known: set<Tx>, all: set<Tx>, full: bool, bump: nat)
    requires r.Accepted? || r == Refused(ReplaceUnderpriced)
    requires known <= prior && (r.Accepted? <==> Beats(tx, known, bump)) && (r.Accepted? ==> TookPlace(known, all, tx))
    ensures Justified(r, tx, prior, full, bump, None) && (r.Accepted? ==> tx in all)
  {
    if r == Refused(ReplaceUnderpriced) {
      var t :| t in known && SameSlot(t, tx) && !Outbids(tx, t, bump);
      assert t in prior;
    }
  }

  lemma JustifiedMore(o: Outcome, tx: Tx, prior: set<Tx>, full: bool, bump: nat, verdict: Option<Refusal>,
                      prior': set<Tx>, full': bool)
    requires Justified(o, tx, prior, full, bump, verdict) && prior <= prior' && (full ==> full')
    ensures Justified(o, tx, prior', full', bump, verdict)
  {
  }

  /** Nothing went missing in a batch: what was known is still there, or a transaction of the
      batch took its slot; what was accepted is there, or a later one took its slot. */
  ghost predicate Traced(all0: set<Tx>, all: set<Tx>, txs: seq<Tx>, outcomes: seq<Outcome>) {
    && |outcomes| <= |txs| && all <= all0 + Members(txs[..|outcomes|])
    && (forall t :: t in all0 && t !in all ==> Retaken(txs, 0, |outcomes|, t))
    && (forall j :: 0 <= j < |outcomes| && outcomes[j].Accepted? ==>
          txs[j] in all || Retaken(txs, j + 1, |outcomes|, txs[j]))
  }

  function Members(txs: seq<Tx>): set<Tx> {
    set i | 0 <= i < |txs| :: txs[i]
  }

  ghost predicate Retaken(txs: seq<Tx>, from: nat, to: nat, t: Tx) {
    exists k :: from <= k < to && k < |txs| && SameSlot(txs[k], t) && txs[k] != t
  }

  lemma TracedNext(all0: set<Tx>, all: set<Tx>, all': set<Tx>, txs: seq<Tx>, outcomes: seq<Outcome>, o: Outcome)
    requires Traced(all0, all, txs, outcomes) && |outcomes| < |txs|
    requires if o.Accepted? then TookPlace(all, all', txs[|outcomes|]) else all' == all
    ensures Traced(all0, all', txs, outcomes + [o])
  {
    var n := |outcomes|;
    var outcomes' := outcomes + [o];
    assert txs[..n + 1] == txs[..n] + [txs[n]];
    assert Members(txs[..n + 1]) == Members(txs[..n]) + {txs[n]} by { MembersMore(txs[..n], txs[n]); }
    forall from: nat, t | Retaken(txs, from, n, t) ensures Retaken(txs, from, n + 1, t) {
      var k :| from <= k < n && k < |txs| && SameSlot(txs[k], t) && txs[k] != t;
    }
    forall t | t in all0 && t !in all' ensures Retaken(txs, 0, n + 1, t) {
      assert t in all ==> SameSlot(txs[n], t) && txs[n] != t;
    }
    forall j | 0 <= j < n + 1 && outcomes'[j].Accepted? && txs[j] !in all' ensures Retaken(txs, j + 1, n + 1, txs[j]) {
      assert j < n && outcomes[j].Accepted?;
      assert txs[j] in all ==> SameSlot(txs[n], txs[j]) && txs[n] != txs[j];
    }
  }

  lemma MembersMore(txs: seq<Tx>, tx: Tx)
    ensures Members(txs + [tx]) == Members(txs) + {tx}
  {
    forall t ensures t in Members(txs + [tx]) <==> t in Members(txs) + {tx} {
      if t in Members(txs) {
        var i :| 0 <= i < |txs| && txs[i] == t;
        assert (txs + [tx])[i] == t;
      } else if t == tx {
        assert (txs + [tx])[|txs|] == t;
      }
    }
  }

  /** With room to spare, a batch costs nothing but stale transactions and taken slots. */
  ghost predicate Survived(all0: set<Tx>, all: set<Tx>, txs: seq<Tx>, outcomes: seq<Outcome>, nonceOf: Address -> nat,
                           balanceOf: Address -> int, maxGas: nat)
  {
    && |outcomes| == |txs|
    && (forall t :: t in all0 && t !in all ==> Stale(t, nonceOf, balanceOf, maxGas) || Retaken(txs, 0, |txs|, t))
    && (forall j :: 0 <= j < |txs| && outcomes[j].Accepted? && txs[j] !in all ==>
          Stale(txs[j], nonceOf, balanceOf, maxGas) || Retaken(txs, j + 1, |txs|, txs[j]))
  }

  lemma TracedSurvives(all0: set<Tx>, all: set<Tx>, all': set<Tx>, txs: seq<Tx>, outcomes: seq<Outcome>,
                       nonceOf: Address -> nat, balanceOf: Address -> int, maxGas: nat)
    requires Traced(all0, all, txs, outcomes) && |outcomes| == |txs| && Outdated(all, all', nonceOf, balanceOf, maxGas)
    ensures Survived(all0, all', txs, outcomes, nonceOf, balanceOf, maxGas)
  {
    hide Stale, Retaken;
  }

  /** The pool knows as many transactions as its lists hold. */
  lemma CountAll(p: Lists, q: Lists, all: set<Tx>)
    requires Consistent(p, q, all, 0, map[])
    ensures |all| == Total(p) + Total(q)
  {
    var sp := set tx | tx in all && Holds(p, tx);
    var sq := set tx | tx in all && Holds(q, tx);
    assert all == sp + sq;
    forall tx | tx in sp && tx in sq ensures false {
      assert Occupied(p, tx.from, tx.nonce) && Occupied(q, tx.from, tx.nonce);
    }
    CountHeld(p, sp, true);
    CountHeld(q, sq, false);
  }

  lemma {:induction false} CountHeld(p: Lists, s: set<Tx>, strict: bool)
    requires Sound(p, strict) && forall tx :: tx in s <==> Holds(p, tx)
    ensures |s| == Total(p)
    decreases |p|
  {
    if p == map[] {
      assert s == {};
    } else {
      hide Total;
      var a :| a in p;
      TotalAt(p, a);
      Fewer(p, a);
      var mine := TxsOf(p[a].items);
      CountTxs(p[a].items);
      HeldElsewhere(p, s, strict, a);
      assert s == mine + (s - mine);
      CountHeld(p - {a}, s - mine, strict);
    }
  }

  lemma HeldElsewhere(p: Lists, s: set<Tx>, strict: bool, a: Address)
    requires Sound(p, strict) && a in p && forall tx :: tx in s <==> Holds(p, tx)
    ensures TxsOf(p[a].items) <= s && Sound(p - {a}, strict)
    ensures forall tx :: tx in s - TxsOf(p[a].items) <==> Holds(p - {a}, tx)
  {
    var mine := TxsOf(p[a].items);
    forall tx ensures tx in mine <==> Holds(p, tx) && tx.from == a {
    }
  }

  lemma {:induction false} CountTxs(m: Items)
    requires Keyed(m)
    ensures |TxsOf(m)| == |m|
    decreases |m|
  {
    if m == map[] {
      assert TxsOf(m) == {};
    } else {
      var n :| n in m;
      var rest := m - {n};
      SizeWithout(m, n);
      CountTxs(rest);
      assert TxsOf(m) == TxsOf(rest) + {m[n]};
    }
  }

  lemma Fits(p: Lists, q: Lists, all: set<Tx>, cap: nat)
    requires Consistent(p, q, all, 0, map[]) && |all| <= cap
    ensures Total(p) <= cap && Total(q) <= cap && Capped(q, q.Keys, {}, cap)
  {
    CountAll(p, q, all);
    forall a | a in q ensures |q[a].items| <= cap {
      TotalBounds(q, a);
    }
  }

  lemma FewerKnown(all: set<Tx>, all': set<Tx>)
    requires all' <= all
    ensures |all'| <= |all|
  {
    assert all == all' + (all - all');
  }

  const MAX_SIZE: nat := 32 * 1024

  /** The chain state and the pool settings that validation looks at. */
  datatype Rules = Rules(gasPrice: int, maxGas: nat, nonceOf: Address -> nat, balanceOf: Address -> int,
                         locals: set<Address>)

  /** `validateTx` up to the address and contract checks, whose verdict is `wellFormed`. */
  function VerdictOf(tx: Tx, local: bool, signed: bool, wellFormed: bool, rules: Rules): Option<Refusal> {
    if tx.size > MAX_SIZE then Some(Oversized)
    else if tx.value < 0 then Some(NegativeValue)
    else if rules.maxGas < tx.gas then Some(AboveGasLimit)
    else if !signed then Some(InvalidSender)
    else if !(local || tx.from in rules.locals) && rules.gasPrice > tx.gasPrice then Some(Underpriced)
    else if rules.nonceOf(tx.from) > tx.nonce then Some(NonceTooLow)
    else if rules.balanceOf(tx.from) < tx.Cost() then Some(InsufficientFunds)
    else if !wellFormed then Some(Malformed)
    else None
  }

  /** What it takes to be valid. */
  ghost predicate Eligible(tx: Tx, local: bool, signed: bool, wellFormed: bool, rules: Rules) {
    && tx.size <= 32768 && tx.value >= 0 && tx.gas <= rules.maxGas && signed && wellFormed
    && rules.nonceOf(tx.from) <= tx.nonce && tx.gasPrice * tx.gas + tx.value <= rules.balanceOf(tx.from)
    && (local || tx.from in rules.locals || rules.gasPrice <= tx.gasPrice)
  }

  /** What each verdict says about the transaction. */
  ghost predicate Fault(why: Refusal, tx: Tx, local: bool, signed: bool, wellFormed: bool, rules: Rules) {
    match why
    case Oversized => tx.size > 32768
    case NegativeValue => tx.value < 0
    case AboveGasLimit => tx.gas > rules.maxGas
    case InvalidSender => !signed
    case Underpriced => !local && tx.from !in rules.locals && tx.gasPrice < rules.gasPrice
    case NonceTooLow => tx.nonce < rules.nonceOf(tx.from)
    case InsufficientFunds => rules.balanceOf(tx.from) < tx.gasPrice * tx.gas + tx.value
    case Malformed => !wellFormed
    case Known => false
    case ReplaceUnderpriced => false
  }

  lemma VerdictMeans(tx: Tx, local: bool, signed: bool, wellFormed: bool, rules: Rules)
    ensures VerdictOf(tx, local, signed, wellFormed, rules).None? <==> Eligible(tx, local, signed, wellFormed, rules)
    ensures VerdictOf(tx, local, signed, wellFormed, rules).Some? ==>
              Fault(VerdictOf(tx, local, signed, wellFormed, rules).value, tx, local, signed, wellFormed, rules)
  {
  }

  lemma EligibleIsFresh(tx: Tx, local: bool, signed: bool, wellFormed: bool, rules: Rules)
    requires Eligible(tx, local, signed, wellFormed, rules)
    ensures !Stale(tx, rules.nonceOf, rules.balanceOf, rules.maxGas)
  {
  }

  /** Every known transaction is of a sane size and value, and of a local account or not below the
      price floor. */
  ghost predicate Screened(all: set<Tx>, gasPrice: int, locals: set<Address>) {
    forall tx :: tx in all ==>
      tx.size <= 32768 && tx.value >= 0 && (tx.from in locals || gasPrice <= tx.gasPrice)
  }

  lemma ScreenedFewer(all: set<Tx>, all': set<Tx>, gasPrice: int, locals: set<Address>)
    requires all' <= all
    ensures Screened(all, gasPrice, locals) ==> Screened(all', gasPrice, locals)
  {
  }

  lemma ScreenedAgain(all: set<Tx>, all': set<Tx>, gasPrice: int, price: int, locals: set<Address>)
    requires all' == all - RemoteBelow(all, price, locals)
    ensures Screened(all, gasPrice, locals) ==> Screened(all', price, locals)
  {
  }

  /** Its slot was taken from a cheaper transaction. */
  ghost predicate Outdid(tx: Tx, all: set<Tx>) {
    exists t :: t in all && SameSlot(t, tx) && t.gasPrice < tx.gasPrice
  }

  /** A local transaction below the floor takes its account into the local ones, unless it takes
      the slot of a pending one, whose price it exceeds. */
  lemma ScreenedMore(all: set<Tx>, all': set<Tx>, tx: Tx, local: bool, signed: bool, wellFormed: bool, rules: Rules,
                     locals: set<Address>)
    requires all' <= all + {tx} && Eligible(tx, local, signed, wellFormed, rules) && rules.locals <= locals
    requires local && tx.from !in locals ==> Outdid(tx, all)
    ensures Screened(all, rules.gasPrice, rules.locals) ==> Screened(all', rules.gasPrice, locals)
  {
  }

  /** No other transaction known or in the batch has its slot. */
  ghost predicate Alone(tx: Tx, all: set<Tx>, txs: seq<Tx>) {
    forall t :: (t in all || t in txs) && SameSlot(t, tx) ==> t == tx
  }

  /** A batch brings in every valid transaction that has its slot to itself, and keeps every known
      one that is not stale and has its slot to itself. */
  ghost predicate Welcomes(all0: set<Tx>, all: set<Tx>, txs: seq<Tx>, local: bool, signed: Tx -> bool,
                           wellFormed: Tx -> bool, rules: Rules)
  {
    && (forall tx | tx in all0 && Alone(tx, all0, txs) && !Stale(tx, rules.nonceOf, rules.balanceOf, rules.maxGas) ::
          tx in all)
    && (forall tx | tx in txs && Alone(tx, all0, txs) && Eligible(tx, local, signed(tx), wellFormed(tx), rules) ::
          tx in all)
  }

  lemma BatchWelcomes(all0: set<Tx>, all: set<Tx>, txs: seq<Tx>, outcomes: seq<Outcome>, local: bool,
                      signed: Tx -> bool, wellFormed: Tx -> bool, rules: Rules, limit: nat, bump: nat)
    requires AllJustified(outcomes, txs, all0, limit, bump, Verdicts(txs, local, signed, wellFormed, rules))
    requires Survived(all0, all, txs, outcomes, rules.nonceOf, rules.balanceOf, rules.maxGas)
    requires |all0| + |txs| <= limit
    ensures Welcomes(all0, all, txs, local, signed, wellFormed, rules)
  {
    hide AllJustified, Survived, Eligible, Verdicts, Stale;
    forall tx | Alone(tx, all0, txs) && tx in all0 && !Stale(tx, rules.nonceOf, rules.balanceOf, rules.maxGas)
      ensures tx in all
    {
      AloneStays(all0, all, txs, outcomes, rules, tx);
    }
    forall tx | Alone(tx, all0, txs) && tx in txs && Eligible(tx, local, signed(tx), wellFormed(tx), rules)
      ensures tx in all
    {
      AloneComes(all0, all, txs, outcomes, local, signed, wellFormed, rules, limit, bump, tx);
    }
  }

  lemma AloneStays(all0: set<Tx>, all: set<Tx>, txs: seq<Tx>, outcomes: seq<Outcome>, rules: Rules, tx: Tx)
    requires Survived(all0, all, txs, outcomes, rules.nonceOf, rules.balanceOf, rules.maxGas)
    requires Alone(tx, all0, txs) && tx in all0 && !Stale(tx, rules.nonceOf, rules.balanceOf, rules.maxGas)
    ensures tx in all
  {
    hide Stale;
    assert !Retaken(txs, 0, |txs|, tx);
  }

  lemma AloneComes(all0: set<Tx>, all: set<Tx>, txs: seq<Tx>, outcomes: seq<Outcome>, local: bool,
                   signed: Tx -> bool, wellFormed: Tx -> bool, rules: Rules, limit: nat, bump: nat, tx: Tx)
    requires AllJustified(outcomes, txs, all0, limit, bump, Verdicts(txs, local, signed, wellFormed, rules))
    requires Survived(all0, all, txs, outcomes, rules.nonceOf, rules.balanceOf, rules.maxGas)
    requires |all0| + |txs| <= limit && tx in txs && Alone(tx, all0, txs)
    requires Eligible(tx, local, signed(tx), wellFormed(tx), rules)
    ensures tx in all
  {
    EligibleIsFresh(tx, local, signed(tx), wellFormed(tx), rules);
    VerdictMeans(tx, local, signed(tx), wellFormed(tx), rules);
    hide Eligible, Stale, VerdictOf;
    if tx in all0 {
      AloneStays(all0, all, txs, outcomes, rules, tx);
    } else {
      var j := FirstOf(txs, tx);
      assert tx !in all0 + Members(txs[..j]);
      assert Justified(outcomes[j], txs[j], all0 + Members(txs[..j]), |all0| + j >= limit, bump, None);
      AcceptedAlone(outcomes[j], tx, all0, txs, j, |all0| + j >= limit, bump);
      assert !Retaken(txs, j + 1, |txs|, tx);
    }
  }

  lemma AcceptedAlone(o: Outcome, tx: Tx, all0: set<Tx>, txs: seq<Tx>, j: nat, full: bool, bump: nat)
    requires j < |txs| && Alone(tx, all0, txs) && tx !in all0 + Members(txs[..j]) && !full
    requires Justified(o, tx, all0 + Members(txs[..j]), full, bump, None)
    ensures o.Accepted?
  {
    forall t | t in all0 + Members(txs[..j]) ensures !SameSlot(t, tx) {
      assert t in all0 || t in txs;
    }
  }

  lemma {:induction false} FirstOf(txs: seq<Tx>, tx: Tx) returns (j: nat)
    requires tx in txs
    ensures j < |txs| && txs[j] == tx && tx !in txs[..j]
  {
    j := 0;
    while txs[j] != tx
      invariant j < |txs| && tx !in txs[..j]
      decreases |txs| - j
    {
      assert txs[..j + 1] == txs[..j] + [txs[j]];
      j := j + 1;
    }
  }

  lemma WelcomedStay(all0: set<Tx>, all: set<Tx>, all': set<Tx>, txs: seq<Tx>, local: bool, signed: Tx -> bool,
                     wellFormed: Tx -> bool, rules: Rules)
    requires Welcomes(all0, all, txs, local, signed, wellFormed, rules)
    requires Outdated(all, all', rules.nonceOf, rules.balanceOf, rules.maxGas)
    ensures Welcomes(all0, all', txs, local, signed, wellFormed, rules)
  {
    forall tx | tx in txs && Eligible(tx, local, signed(tx), wellFormed(tx), rules)
      ensures !Stale(tx, rules.nonceOf, rules.balanceOf, rules.maxGas)
    {
      EligibleIsFresh(tx, local, signed(tx), wellFormed(tx), rules);
    }
    hide Stale, Eligible, Alone;
  }

  /** What was lost other than at the slot of tx. */
  ghost function LostElsewhere(all0: set<Tx>, all: set<Tx>, tx: Tx): set<Tx> {
    set d | d in all0 && d !in all && !SameSlot(d, tx)
  }

  /** A transaction coming in costs no more than room for itself, besides what it replaces. */
  ghost predicate Frugal(all0: set<Tx>, all: set<Tx>, tx: Tx, limit: nat) {
    && |LostElsewhere(all0, all, tx)| <= (if |all0| < limit then 0 else |all0| + 1 - limit)
    && (|all| >= |all0| || |all| + 1 >= limit)
  }

  lemma FrugalSize(all0: set<Tx>, all: set<Tx>, tx: Tx, limit: nat)
    requires Frugal(all0, all, tx, limit)
    ensures |all| >= |all0| || |all| + 1 >= limit
  {
  }

  lemma FrugalNothing(all: set<Tx>, tx: Tx, limit: nat)
    ensures Frugal(all, all, tx, limit)
  {
    assert LostElsewhere(all, all, tx) == {};
  }

  lemma FrugalRoom(all0: set<Tx>, known: set<Tx>, all: set<Tx>, tx: Tx, limit: nat)
    requires known <= all0 && (|all0| < limit ==> known == all0) && (|all0| >= limit ==> |known| + 1 >= limit)
    requires all == known || (TookPlace(known, all, tx) && |all| >= |known|)
    ensures Frugal(all0, all, tx, limit)
  {
    assert all0 == known + (all0 - known);
    FewerKnown(all0 - known, LostElsewhere(all0, all, tx));
  }

  /** How a valid new transaction fares, against what was known and local before. */
  ghost predicate Fares(r: Outcome, tx: Tx, local: bool, all0: set<Tx>, all: set<Tx>, locals0: set<Address>,
                        locals: set<Address>, limit: nat, bump: nat)
  {
    && Justified(r, tx, all0, |all0| >= limit, bump, None)
    && (r == Refused(Underpriced) <==>
          |all0| >= limit && tx.from !in locals0 && all0 != {} && IsCheapest(tx, all0))
    && (if r.Accepted? then tx in all else all <= all0 && locals == locals0)
    && (|all0| < limit ==> if r.Accepted? then TookPlace(all0, all, tx) else all == all0)
    && (|all0| < limit ==> (r.Accepted? <==> Beats(tx, all0, bump)))
    && Displaced(all0, all, tx, locals0) && Frugal(all0, all, tx, limit)
    && locals0 <= locals <= locals0 + (if local && r.Accepted? then {tx.from} else {})
    && (local && r.Accepted? && tx.from !in locals ==> Outdid(tx, all0))
  }

  lemma FaresBadly(tx: Tx, local: bool, all: set<Tx>, locals: set<Address>, limit: nat, bump: nat)
    requires |all| >= limit && tx.from !in locals && all != {} && IsCheapest(tx, all)
    ensures Fares(Refused(Underpriced), tx, local, all, all, locals, locals, limit, bump)
  {
    hide Beats, IsCheapest;
    FrugalNothing(all, tx, limit);
  }

  /** Room is made, then the transaction takes its place. */
  lemma FaresOn(r: Outcome, tx: Tx, local: bool, all0: set<Tx>, known: set<Tx>, all: set<Tx>, locals0: set<Address>,
                locals: set<Address>, limit: nat, bump: nat, occupied: bool)
    requires MadeRoom(all0, known, locals0) && tx !in all0 && (|all0| < limit ==> known == all0)
    requires |all0| >= limit ==> |known| + 1 >= limit
    requires !(|all0| >= limit && tx.from !in locals0 && all0 != {} && IsCheapest(tx, all0))
    requires r.Accepted? || r == Refused(ReplaceUnderpriced)
    requires r.Accepted? <==> Beats(tx, known, bump)
    requires if r.Accepted? then TookPlace(known, all, tx) && |all| >= |known| else all == known
    requires locals == if local && r.Accepted? && !occupied then locals0 + {tx.from} else locals0
    requires local && r.Accepted? && tx.from !in locals ==> Outdid(tx, known)
    ensures Fares(r, tx, local, all0, all, locals0, locals, limit, bump)
  {
    hide IsCheapest;
    InsertJustified(r, tx, all0, known, all, |all0| >= limit, bump);
    DisplacedByRoom(all0, known, all, tx, locals0);
    FrugalRoom(all0, known, all, tx, limit);
    hide Beats, Displaced, Frugal, Justified;
  }

  /** What comes of adding a transaction. */
  ghost predicate Admits(r: Outcome, tx: Tx, local: bool, signed: bool, wellFormed: bool, rules: Rules, all0: set<Tx>,
                         all: set<Tx>, locals: set<Address>, limit: nat, bump: nat)
  {
    && (tx in all0 ==> r == Refused(Known))
    && (tx !in all0 && !Eligible(tx, local, signed, wellFormed, rules) ==>
          && r.Refused? && Fault(r.why, tx, local, signed, wellFormed, rules)
          && VerdictOf(tx, local, signed, wellFormed, rules) == Some(r.why))
    && (tx in all0 || !Eligible(tx, local, signed, wellFormed, rules) ==> all == all0 && locals == rules.locals)
    && (tx !in all0 && Eligible(tx, local, signed, wellFormed, rules) ==>
          Fares(r, tx, local, all0, all, rules.locals, locals, limit, bump))
  }

  lemma FaresWell(r: Outcome, tx: Tx, local: bool, all0: set<Tx>, all: set<Tx>, locals0: set<Address>,
                  locals: set<Address>, limit: nat, bump: nat)
    requires Fares(r, tx, local, all0, all, locals0, locals, limit, bump)
    ensures all <= all0 + {tx} && Frugal(all0, all, tx, limit)
    ensures Justified(r, tx, all0, |all0| >= limit, bump, None)
    ensures |all0| < limit ==> if r.Accepted? then TookPlace(all0, all, tx) else all == all0
    ensures if r.Accepted? then tx in all else all <= all0 && locals == locals0
    ensures locals0 <= locals && (local || locals == locals0)
    ensures local && r.Accepted? && tx.from !in locals ==> Outdid(tx, all0)
  {
    hide Justified, Frugal, Beats, IsCheapest, Outdid;
  }

  lemma AdmitsMeans(r: Outcome, tx: Tx, local: bool, signed: bool, wellFormed: bool, rules: Rules, all0: set<Tx>,
                    all: set<Tx>, locals: set<Address>, limit: nat, bump: nat)
    requires Admits(r, tx, local, signed, wellFormed, rules, all0, all, locals, limit, bump)
    ensures Progress(r, tx, all0, all, limit, bump, VerdictOf(tx, local, signed, wellFormed, rules))
    ensures |all| >= |all0| || |all| + 1 >= limit
    ensures Screened(all0, rules.gasPrice, rules.locals) ==> Screened(all, rules.gasPrice, locals)
    ensures rules.locals <= locals && (local || locals == rules.locals)
    ensures r.Accepted? ==> tx in all && Eligible(tx, local, signed, wellFormed, rules)
    ensures tx.nonce < rules.nonceOf(tx.from) ==>
              r.Refused? && r.why != ReplaceUnderpriced && all == all0 && locals == rules.locals
  {
    VerdictMeans(tx, local, signed, wellFormed, rules);
    hide VerdictOf, Fares, TookPlace;
    if tx !in all0 && Eligible(tx, local, signed, wellFormed, rules) {
      FaresWell(r, tx, local, all0, all, rules.locals, locals, limit, bump);
      FrugalSize(all0, all, tx, limit);
      hide Frugal, Fault, Justified;
      if r.Accepted? {
        ScreenedMore(all0, all, tx, local, signed, wellFormed, rules, locals);
      } else {
        ScreenedFewer(all0, all, rules.gasPrice, locals);
      }
    }
  }

  /** The verdicts on a batch. */
  ghost function Verdicts(txs: seq<Tx>, local: bool, signed: Tx -> bool, wellFormed: Tx -> bool, rules: Rules):
    seq<Option<Refusal>>
  {
    seq(|txs|, i requires 0 <= i < |txs| => VerdictOf(txs[i], local, signed(txs[i]), wellFormed(txs[i]), rules))
  }

  /** Adding local transactions widens the local accounts, which does not matter to local ones. */
  lemma VerdictAt(txs: seq<Tx>, local: bool, signed: Tx -> bool, wellFormed: Tx -> bool, rules: Rules,
                  locals: set<Address>, i: nat)
    requires i < |txs| && (local || locals == rules.locals)
    ensures Verdicts(txs, local, signed, wellFormed, rules)[i] ==
            VerdictOf(txs[i], local, signed(txs[i]), wellFormed(txs[i]), rules.(locals := locals))
  {
  }

  /** Some transaction was taken in without replacing another. */
  ghost predicate GotNew(outcomes: seq<Outcome>) {
    Accepted(false) in outcomes
  }

  lemma NoneNew()
    ensures !GotNew([])
  {
  }

  lemma NewNext(outcomes: seq<Outcome>, r: Outcome)
    ensures GotNew(outcomes + [r]) <==> GotNew(outcomes) || r == Accepted(false)
  {
  }

  lemma ExecutedAt(txs: seq<Tx>, nonceOf: Address -> nat, i: nat)
    requires Executed(txs, nonceOf) && i < |txs|
    ensures txs[i].nonce < nonceOf(txs[i].from)
  {
  }

  /** Every outcome of a batch has its reason in the state before it. */
  ghost predicate AllJustified(outcomes: seq<Outcome>, txs: seq<Tx>, all0: set<Tx>, limit: nat, bump: nat,
                               verdicts: seq<Option<Refusal>>)
  {
    && |outcomes| <= |txs| == |verdicts|
    && forall i :: 0 <= i < |outcomes| ==>
         Justified(outcomes[i], txs[i], all0 + Members(txs[..i]), |all0| + i >= limit, bump, verdicts[i])
  }

  /** The state of a batch after some outcomes. */
  ghost predicate Batch(outcomes: seq<Outcome>, txs: seq<Tx>, all0: set<Tx>, all: set<Tx>, limit: nat, bump: nat,
                        verdicts: seq<Option<Refusal>>)
  {
    && AllJustified(outcomes, txs, all0, limit, bump, verdicts)
    && all <= all0 + Members(txs[..|outcomes|]) && |all| <= |all0| + |outcomes|
  }

  lemma BatchStart(all: set<Tx>, txs: seq<Tx>, limit: nat, bump: nat, verdicts: seq<Option<Refusal>>)
    requires |verdicts| == |txs|
    ensures Batch([], txs, all, all, limit, bump, verdicts) && Traced(all, all, txs, [])
  {
  }

  lemma BatchNext(all0: set<Tx>, all: set<Tx>, all': set<Tx>, txs: seq<Tx>, outcomes: seq<Outcome>, o: Outcome,
                  limit: nat, bump: nat, verdicts: seq<Option<Refusal>>, verdict: Option<Refusal>)
    requires Batch(outcomes, txs, all0, all, limit, bump, verdicts) && |outcomes| < |txs|
    requires all' <= all + {txs[|outcomes|]} && verdicts[|outcomes|] == verdict
    requires Justified(o, txs[|outcomes|], all, |all| >= limit, bump, verdict)
    ensures Batch(outcomes + [o], txs, all0, all', limit, bump, verdicts)
  {
    hide Justified, AllJustified, Members;
    var n := |outcomes|;
    BatchSize(all0, all, txs, outcomes, limit, bump, verdicts);
    JustifiedMore(o, txs[n], all, |all| >= limit, bump, verdict, all0 + Members(txs[..n]), |all0| + n >= limit);
    JustifiedNext(outcomes, txs, all0, limit, bump, verdicts, o);
    assert txs[..n + 1] == txs[..n] + [txs[n]];
    MembersMore(txs[..n], txs[n]);
    FewerKnown(all + {txs[n]}, all');
  }

  lemma JustifiedNext(outcomes: seq<Outcome>, txs: seq<Tx>, all0: set<Tx>, limit: nat, bump: nat,
                      verdicts: seq<Option<Refusal>>, o: Outcome)
    requires AllJustified(outcomes, txs, all0, limit, bump, verdicts) && |outcomes| < |txs|
    requires var n := |outcomes|;
             Justified(o, txs[n], all0 + Members(txs[..n]), |all0| + n >= limit, bump, verdicts[n])
    ensures AllJustified(outcomes + [o], txs, all0, limit, bump, verdicts)
  {
    hide Justified, Members;
  }

  lemma BatchSize(all0: set<Tx>, all: set<Tx>, txs: seq<Tx>, outcomes: seq<Outcome>, limit: nat, bump: nat,
                  verdicts: seq<Option<Refusal>>)
    requires Batch(outcomes, txs, all0, all, limit, bump, verdicts)
    ensures |all| <= |all0| + |outcomes| && |verdicts| == |txs|
    ensures AllJustified(outcomes, txs, all0, limit, bump, verdicts)
  {
  }

  /** One transaction of a batch: its outcome has its reason, and below the limit it takes exactly
      its slot. */
  ghost predicate Progress(o: Outcome, tx: Tx, all: set<Tx>, all': set<Tx>, limit: nat, bump: nat,
                           verdict: Option<Refusal>)
  {
    && Justified(o, tx, all, |all| >= limit, bump, verdict) && all' <= all + {tx}
    && (|all| < limit ==> if o.Accepted? then TookPlace(all, all', tx) else all' == all)
  }

  /** The outcomes so far have their reasons; while the batch fits, every change is accounted for. */
  ghost predicate Batched(outcomes: seq<Outcome>, txs: seq<Tx>, all0: set<Tx>, all: set<Tx>, limit: nat, bump: nat,
                          verdicts: seq<Option<Refusal>>)
  {
    && Batch(outcomes, txs, all0, all, limit, bump, verdicts)
    && (|all0| + |txs| <= limit ==> Traced(all0, all, txs, outcomes))
  }

  lemma BatchedStart(all: set<Tx>, txs: seq<Tx>, limit: nat, bump: nat, verdicts: seq<Option<Refusal>>)
    requires |verdicts| == |txs|
    ensures Batched([], txs, all, all, limit, bump, verdicts)
  {
    hide Batch, Traced;
    BatchStart(all, txs, limit, bump, verdicts);
  }

  lemma BatchedNext(all0: set<Tx>, all: set<Tx>, all': set<Tx>, txs: seq<Tx>, outcomes: seq<Outcome>, o: Outcome,
                    limit: nat, bump: nat, verdicts: seq<Option<Refusal>>)
    requires Batched(outcomes, txs, all0, all, limit, bump, verdicts) && |outcomes| < |txs| == |verdicts|
    requires Progress(o, txs[|outcomes|], all, all', limit, bump, verdicts[|outcomes|])
    ensures Batched(outcomes + [o], txs, all0, all', limit, bump, verdicts)
  {
    hide Batch, Traced, Justified, TookPlace;
    BatchSize(all0, all, txs, outcomes, limit, bump, verdicts);
    BatchNext(all0, all, all', txs, outcomes, o, limit, bump, verdicts, verdicts[|outcomes|]);
    if |all0| + |txs| <= limit {
      TracedNext(all0, all, all', txs, outcomes, o);
    }
  }

  lemma BatchedEnd(all0: set<Tx>, all: set<Tx>, txs: seq<Tx>, outcomes: seq<Outcome>, limit: nat, bump: nat,
                   verdicts: seq<Option<Refusal>>)
    requires Batched(outcomes, txs, all0, all, limit, bump, verdicts)
    ensures |all| <= |all0| + |outcomes| && AllJustified(outcomes, txs, all0, limit, bump, verdicts)
    ensures |outcomes| == |txs| ==> all <= all0 + Members(txs)
    ensures |all0| + |txs| <= limit ==> Traced(all0, all, txs, outcomes)
  {
    hide Traced, AllJustified, Members;
    BatchSize(all0, all, txs, outcomes, limit, bump, verdicts);
    assert txs[..|txs|] == txs;
  }
}
