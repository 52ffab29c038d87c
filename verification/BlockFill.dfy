/** Filling a block: the loop of miner/worker.go over the transaction set of
    core/types/transaction.go, which offers each account's transactions in their order and the
    best paid account first. In the heap an account stands for its next transaction. Which
    transactions are ignored for their replay protection is a parameter. */
module BlockFilling {
  import opened Gas
  import opened Heaps
  import opened Ledgers
  import opened TxTypes

  /** Transactions by account, in nonce order. */
  type Accounts = map<Address, seq<Transaction>>

  datatype Offer = Offer(account: Address, price: int)

  const Dearest: Offer -> int := (o: Offer) => -o.price

  function Price(tx: Transaction): int {
    tx.msg.gasPrice
  }

  ghost predicate NoneEmpty(left: Accounts) {
    forall a :: a in left ==> left[a] != []
  }

  /** Every account is in the heap once, with the price of its next transaction. */
  ghost predicate Offered(heads: seq<Offer>, left: Accounts) {
    && NoneEmpty(left)
    && (forall a :: a in left ==> OfferOf(left, a) in heads)
    && (forall o :: o in heads ==> multiset(heads)[o] == 1 && o.account in left && o == OfferOf(left, o.account))
  }

  function OfferOf(left: Accounts, a: Address): Offer {
    Offer(a, if a in left && left[a] != [] then Price(left[a][0]) else 0)
  }

  /** No account's next transaction pays more than that of a. */
  ghost predicate IsDearest(left: Accounts, a: Address) {
    a in left && left[a] != [] &&
    forall c :: c in left && left[c] != [] ==> Price(left[c][0]) <= Price(left[a][0])
  }

  function Without(left: Accounts, a: Address): Accounts {
    left - {a}
  }

  /** The next transaction of an account is taken away. */
  function Shifted(left: Accounts, a: Address): Accounts
    requires a in left && left[a] != []
  {
    if |left[a]| == 1 then Without(left, a) else left[a := left[a][1..]]
  }

  class TxSet {
    const heads: MinHeap<Offer>
    var left: Accounts

    /** The offers of all accounts, put in heap order. */
    constructor (txs: Accounts, offers: seq<Offer>)
      requires Offered(offers, txs)
      ensures Valid() && left == txs && fresh(heads)
    {
      left := txs;
      heads := new MinHeap<Offer>(Dearest);
      new;
      hide Ordered, Offered;
      heads.s := offers;
      heads.Init();
      OfferedPermuted(offers, heads.s, txs);
    }

    ghost predicate Valid()
      reads this, heads
    {
      heads.Valid() && heads.key == Dearest && Offered(heads.s, left)
    }

    /** The best paid next transaction, by its account. */
    method Peek() returns (r: Option<Address>)
      requires Valid()
      ensures r.None? <==> left == map[]
      ensures r.Some? ==> IsDearest(left, r.value) && |heads.s| > 0 && heads.s[0] == OfferOf(left, r.value)
    {
      hide Ordered;
      OfferedSome(heads.s, left);
      if |heads.s| == 0 {
        return None;
      }
      RootIsDearest(heads.s, heads.key, left);
      return Some(heads.s[0].account);
    }

    /** Go on to the next transaction of the same account. */
    method Shift(ghost a: Address)
      requires Valid() && |heads.s| > 0 && heads.s[0].account == a
      modifies this`left, heads
      ensures Valid() && old(a in left && left[a] != []) && left == Shifted(old(left), a)
    {
      hide Ordered, Offered;
      var o := heads.s[0];
      RootIsThere(heads.s, left);
      if |left[o.account]| > 1 {
        var next := left[o.account][1..];
        ghost var before := heads.s;
        heads.ReplaceRoot(Offer(o.account, Price(next[0])));
        OfferReplaced(before, heads.s, left, o.account);
        left := left[o.account := next];
      } else {
        ghost var before := heads.s;
        var _ := heads.Pop();
        OfferDropped(before, heads.s, left, o.account);
        left := Without(left, o.account);
      }
    }

    /** Give up on the account. */
    method Pop(ghost a: Address)
      requires Valid() && |heads.s| > 0 && heads.s[0].account == a
      modifies this`left, heads
      ensures Valid() && left == Without(old(left), a)
    {
      hide Ordered, Offered;
      RootIsThere(heads.s, left);
      ghost var before := heads.s;
      var o := heads.Pop();
      OfferDropped(before, heads.s, left, o.account);
      left := Without(left, o.account);
    }
  }

  /** `NewTransactionsByPriceAndNonce`, which crashes on an account without transactions. */
  method NewTxSet(txs: Accounts) returns (r: Option<TxSet>)
    ensures r.Some? <==> NoneEmpty(txs)
    ensures r.Some? ==> fresh(r.value) && fresh(r.value.heads) && r.value.Valid() && r.value.left == txs
  {
    hide Ordered;
    var todo := txs.Keys;
    var offers: seq<Offer> := [];
    while todo != {}
      invariant todo <= txs.Keys && Offering(offers, txs, todo)
      decreases todo
    {
      var a :| a in todo;
      if txs[a] == [] {
        return None;
      }
      OfferingNext(offers, txs, todo, a);
      offers := offers + [Offer(a, Price(txs[a][0]))];
      todo := todo - {a};
    }
    OfferingEnd(offers, txs);
    var set' := new TxSet(txs, offers);
    return Some(set');
  }

  /** The accounts not to do have been offered. */
  ghost predicate Offering(offers: seq<Offer>, txs: Accounts, todo: set<Address>) {
    && (forall a :: a in txs && a !in todo ==> txs[a] != [] && OfferOf(txs, a) in offers)
    && (forall o :: o in offers ==>
          multiset(offers)[o] == 1 && o.account in txs && o.account !in todo && o == OfferOf(txs, o.account))
  }

  lemma OfferingNext(offers: seq<Offer>, txs: Accounts, todo: set<Address>, a: Address)
    requires Offering(offers, txs, todo) && a in todo && a in txs && txs[a] != []
    ensures Offering(offers + [OfferOf(txs, a)], txs, todo - {a})
  {
    var more, x := offers + [OfferOf(txs, a)], OfferOf(txs, a);
    assert x !in offers;
    forall o | o in more
      ensures multiset(more)[o] == 1 && o.account in txs && o.account !in todo - {a} && o == OfferOf(txs, o.account)
    {
      assert multiset(more) == multiset(offers) + multiset{x};
      assert x !in multiset(offers);
    }
    forall c | c in txs && c !in todo - {a} ensures txs[c] != [] && OfferOf(txs, c) in more {
      assert c != a ==> OfferOf(txs, c) in offers;
      assert more[|offers|] == x;
    }
  }

  lemma OfferingEnd(offers: seq<Offer>, txs: Accounts)
    requires Offering(offers, txs, {})
    ensures Offered(offers, txs)
  {
  }

  lemma OfferedPermuted(a: seq<Offer>, b: seq<Offer>, left: Accounts)
    requires Offered(a, left) && multiset(a) == multiset(b)
    ensures Offered(b, left)
  {
    forall o ensures o in a <==> o in b {
      assert o in a <==> o in multiset(a);
      assert o in b <==> o in multiset(b);
    }
  }

  lemma OfferedSome(heads: seq<Offer>, left: Accounts)
    requires Offered(heads, left)
    ensures |heads| == 0 <==> left == map[]
  {
    if |heads| > 0 {
      assert heads[0] in heads;
    }
  }

  lemma RootIsThere(heads: seq<Offer>, left: Accounts)
    requires Offered(heads, left) && |heads| > 0
    ensures var a := heads[0].account; a in left && left[a] != [] && heads[0] == OfferOf(left, a)
  {
    assert heads[0] in heads;
  }

  lemma RootIsDearest(heads: seq<Offer>, key: Offer -> int, left: Accounts)
    requires Ordered(heads, key) && key == Dearest && Offered(heads, left) && |heads| > 0
    ensures IsDearest(left, heads[0].account) && heads[0] == OfferOf(left, heads[0].account)
  {
    RootIsThere(heads, left);
    RootIsMinOfAll(heads, key);
    forall c | c in left && left[c] != [] ensures Price(left[c][0]) <= heads[0].price {
      assert OfferOf(left, c) in heads;
      assert key(heads[0]) <= key(OfferOf(left, c));
    }
  }

  lemma OfferDropped(before: seq<Offer>, after: seq<Offer>, left: Accounts, a: Address)
    requires Offered(before, left) && a in left && multiset(before) == multiset(after) + multiset{OfferOf(left, a)}
    ensures Offered(after, Without(left, a))
  {
    var x := OfferOf(left, a);
    forall o ensures o in after <==> o in before && o != x {
      assert o in before <==> o in multiset(before);
      assert o in after <==> o in multiset(after);
    }
  }

  lemma OfferReplaced(before: seq<Offer>, after: seq<Offer>, left: Accounts, a: Address)
    requires Offered(before, left) && a in left && |left[a]| > 1
    requires multiset(after) + multiset{OfferOf(left, a)} == multiset(before) + multiset{Offer(a, Price(left[a][1]))}
    ensures Offered(after, left[a := left[a][1..]])
  {
    var left' := left[a := left[a][1..]];
    var x, y := OfferOf(left, a), OfferOf(left', a);
    assert y == Offer(a, Price(left[a][1])) && x in before && (y in before ==> y == x);
    forall o ensures (o in after <==> o == y || (o in before && o != x)) && (o in after ==> multiset(after)[o] == 1) {
      assert o in before <==> o in multiset(before);
      assert o in after <==> o in multiset(after);
      assert (multiset(after) + multiset{x})[o] == (multiset(before) + multiset{y})[o];
      assert o in before ==> multiset(before)[o] == 1;
    }
  }

  /** Before or after a turn: the transactions not yet offered, the state and the gas left. */
  datatype Step = Step(left: Accounts, turn: Turn)

  /** One turn of filling: the dearest next transaction comes up. It takes effect if it goes
      through. The account goes on with its next transaction, unless this one is ignored, ahead
      of its nonce or too large for the gas left. A transaction that crashes ends everything. */
  ghost predicate Advances(s: Step, a: Address, s': Step, vm: Vm, homestead: bool, ignored: Transaction -> bool) {
    IsDearest(s.left, a) && TX_GAS <= s.turn.pool &&
    var tx := s.left[a][0];
    if ignored(tx) then s'.turn == s.turn && s'.left == Without(s.left, a)
    else
      && !Crashes(tx) && TakesTurn(tx, vm, homestead, s.turn, s'.turn)
      && s'.left == if GivesUp(tx, s.turn.state, s.turn.pool) then Without(s.left, a) else Shifted(s.left, a)
  }

  ghost predicate Trace(steps: seq<Step>, picks: seq<Address>, vm: Vm, homestead: bool, ignored: Transaction -> bool) {
    && |steps| == |picks| + 1
    && forall i :: 0 <= i < |picks| ==> Advances(steps[i], picks[i], steps[i + 1], vm, homestead, ignored)
  }

  /** The transaction that comes up goes through. */
  ghost predicate Goes(s: Step, a: Address, vm: Vm, homestead: bool, ignored: Transaction -> bool) {
    a in s.left && s.left[a] != [] &&
    var tx := s.left[a][0]; !ignored(tx) && Succeeds(tx, vm, homestead, s.turn.state, s.turn.pool)
  }

  /** The transactions that went through in the first n turns. */
  ghost function Taken(steps: seq<Step>, picks: seq<Address>, vm: Vm, homestead: bool, ignored: Transaction -> bool,
                       n: nat): seq<Transaction>
    requires n <= |picks| && |steps| == |picks| + 1
  {
    if n == 0 then []
    else
      Taken(steps, picks, vm, homestead, ignored, n - 1) +
      (if Goes(steps[n - 1], picks[n - 1], vm, homestead, ignored) then [steps[n - 1].left[picks[n - 1]][0]] else [])
  }

  lemma {:induction false} TakenKept(steps: seq<Step>, picks: seq<Address>, s: Step, a: Address, vm: Vm,
                                     homestead: bool, ignored: Transaction -> bool, n: nat)
    requires n <= |picks| && |steps| == |picks| + 1
    ensures Taken(steps + [s], picks + [a], vm, homestead, ignored, n) == Taken(steps, picks, vm, homestead, ignored, n)
    ensures GasTaken(steps + [s], picks + [a], vm, homestead, ignored, n) ==
            GasTaken(steps, picks, vm, homestead, ignored, n)
  {
    hide Goes;
    if n > 0 {
      TakenKept(steps, picks, s, a, vm, homestead, ignored, n - 1);
    }
  }

  lemma TraceMore(steps: seq<Step>, picks: seq<Address>, s: Step, a: Address, vm: Vm, homestead: bool,
                  ignored: Transaction -> bool)
    requires Trace(steps, picks, vm, homestead, ignored)
    requires Advances(steps[|picks|], a, s, vm, homestead, ignored)
    ensures Trace(steps + [s], picks + [a], vm, homestead, ignored)
    ensures Taken(steps + [s], picks + [a], vm, homestead, ignored, |picks| + 1) ==
            Taken(steps, picks, vm, homestead, ignored, |picks|) +
            (if Goes(steps[|picks|], a, vm, homestead, ignored) then [steps[|picks|].left[a][0]] else [])
    ensures GasTaken(steps + [s], picks + [a], vm, homestead, ignored, |picks| + 1) ==
            GasTaken(steps, picks, vm, homestead, ignored, |picks|) +
            (if Goes(steps[|picks|], a, vm, homestead, ignored) then steps[|picks|].turn.pool - s.turn.pool else 0)
  {
    hide Advances, Goes;
    var steps', picks' := steps + [s], picks + [a];
    forall i | 0 <= i < |picks'| ensures Advances(steps'[i], picks'[i], steps'[i + 1], vm, homestead, ignored) {
      assert i < |picks| ==> Advances(steps[i], picks[i], steps[i + 1], vm, homestead, ignored);
    }
    TakenKept(steps, picks, s, a, vm, homestead, ignored, |picks|);
  }

  /** The transactions that went through have their senders' nonces and use them up. */
  lemma {:induction false} TakenInTurn(steps: seq<Step>, picks: seq<Address>, vm: Vm, homestead: bool,
                                       ignored: Transaction -> bool, n: nat)
    requires Trace(steps, picks, vm, homestead, ignored) && n <= |picks|
    ensures InTurn(Taken(steps, picks, vm, homestead, ignored, n), vm, steps[0].turn.state, steps[n].turn.state)
  {
    hide InTurn;
    if n == 0 {
      NoneInTurn(vm, steps[0].turn.state);
    } else {
      TakenInTurn(steps, picks, vm, homestead, ignored, n - 1);
      var s, a := steps[n - 1], picks[n - 1];
      assert Advances(s, a, steps[n], vm, homestead, ignored);
      InTurnOn(Taken(steps, picks, vm, homestead, ignored, n - 1), steps[0].turn.state, s, a, steps[n], vm, homestead,
               ignored);
      hide Trace, Advances, Goes;
    }
  }

  lemma InTurnOn(done: seq<Transaction>, s0: State, s: Step, a: Address, s': Step, vm: Vm, homestead: bool,
                 ignored: Transaction -> bool)
    requires InTurn(done, vm, s0, s.turn.state) && Advances(s, a, s', vm, homestead, ignored)
    ensures InTurn(done + (if Goes(s, a, vm, homestead, ignored) then [s.left[a][0]] else []), vm, s0, s'.turn.state)
  {
    GoesOrStays(s, a, s', vm, homestead, ignored);
    hide InTurn, Advances, Succeeds, Applied;
    if Goes(s, a, vm, homestead, ignored) {
      InTurnNext(done, s.left[a][0], vm, homestead, s0, s.turn.state, s.turn.pool, s'.turn.state,
                 s.turn.pool - s'.turn.pool);
    } else {
      assert done + [] == done;
    }
  }

  lemma GoesOrStays(s: Step, a: Address, s': Step, vm: Vm, homestead: bool, ignored: Transaction -> bool)
    requires Advances(s, a, s', vm, homestead, ignored)
    ensures Goes(s, a, vm, homestead, ignored) ==>
              && a in s.left && s.left[a] != []
              && Succeeds(s.left[a][0], vm, homestead, s.turn.state, s.turn.pool)
              && Applied(s.left[a][0], vm, homestead, s.turn.state, s'.turn.state, s.turn.pool - s'.turn.pool)
    ensures !Goes(s, a, vm, homestead, ignored) ==> s'.turn.state == s.turn.state
  {
    hide Succeeds, Applied, GivesUp, Crashes, BuysGas;
  }

  ghost predicate AllOrdinary(left: Accounts) {
    forall a, i :: a in left && 0 <= i < |left[a]| ==> Ordinary(left[a][i])
  }

  function Lengths(left: Accounts): map<Address, int> {
    map a | a in left :: |left[a]|
  }

  lemma {:induction false} NotNegative(m: map<Address, int>)
    requires forall a :: a in m ==> m[a] >= 0
    ensures Sum(m) >= 0
    decreases |m|
  {
    if m != map[] {
      var k :| k in m && Sum(m) == m[k] + Sum(m - {k});
      FewerLeft(m, k);
      NotNegative(m - {k});
    }
  }

  /** How many transactions are left. */
  ghost function Count(left: Accounts): nat {
    NotNegative(Lengths(left));
    Sum(Lengths(left))
  }

  lemma CountFalls(left: Accounts, a: Address)
    requires a in left && left[a] != []
    ensures Count(Without(left, a)) < Count(left) && Count(Shifted(left, a)) < Count(left)
  {
    hide Sum;
    var m := Lengths(left);
    SumAt(m, a);
    assert Lengths(Without(left, a)) == m - {a};
    if |left[a]| > 1 {
      var m' := Lengths(left[a := left[a][1..]]);
      SumAt(m', a);
      assert m' - {a} == m - {a};
    }
  }

  lemma StillOrdinary(left: Accounts, a: Address)
    requires AllOrdinary(left) && a in left && left[a] != []
    ensures Ordinary(left[a][0]) && AllOrdinary(Without(left, a)) && AllOrdinary(Shifted(left, a))
  {
    hide Ordinary;
    var next := Shifted(left, a);
    forall c, i | c in next && 0 <= i < |next[c]| ensures Ordinary(next[c][i]) {
      assert c == a ==> next[c][i] == left[a][i + 1];
    }
  }

  /** Gas that the transactions gone through in the first n turns took. */
  ghost function GasTaken(steps: seq<Step>, picks: seq<Address>, vm: Vm, homestead: bool, ignored: Transaction -> bool,
                          n: nat): int
    requires n <= |picks| && |steps| == |picks| + 1
  {
    if n == 0 then 0
    else
      GasTaken(steps, picks, vm, homestead, ignored, n - 1) +
      (if Goes(steps[n - 1], picks[n - 1], vm, homestead, ignored)
       then steps[n - 1].turn.pool - steps[n].turn.pool else 0)
  }

  /** The transaction that comes up next crashes the source. */
  ghost predicate CrashesNext(s: Step, a: Address, ignored: Transaction -> bool) {
    IsDearest(s.left, a) && !ignored(s.left[a][0]) && Crashes(s.left[a][0])
  }

  /** Fill a block from the set, with a gas pool of the block's whole limit, until the gas does not
      even cover a plain transfer or all is offered. Exactly the transactions that go through in
      their turn are included, and their gas is added to what the block had used before. */
  method Fill(b: Block, txs: TxSet, vm: Vm, homestead: bool, ignored: Transaction -> bool)
    returns (included: seq<Transaction>, crashed: bool, ghost steps: seq<Step>, ghost picks: seq<Address>)
    requires b.Balanced() && b.used + b.limit <= MAX64 && Conserving(vm) && txs.Valid() && AllOrdinary(txs.left)
    modifies b`used, b`fees, b`receipts, b.gp, b.db, txs`left, txs.heads
    ensures b.Balanced() && txs.Valid() && |b.receipts| == |old(b.receipts)| + |included|
    ensures Trace(steps, picks, vm, homestead, ignored)
    ensures steps[0] == old(Step(txs.left, Turn(b.db.state, b.limit)))
    ensures steps[|picks|] == Step(txs.left, Turn(b.db.state, b.gp.gas))
    ensures crashed || b.gp.gas < TX_GAS || txs.left == map[]
    ensures crashed <==> TX_GAS <= b.gp.gas && exists a :: CrashesNext(steps[|picks|], a, ignored)
    ensures included == Taken(steps, picks, vm, homestead, ignored, |picks|)
    ensures b.used == old(b.used) + GasTaken(steps, picks, vm, homestead, ignored, |picks|)
    ensures b.used + b.gp.gas <= old(b.used) + b.limit
    ensures InTurn(included, vm, old(b.db.state), b.db.state)
  {
    hide Conserving, Ordinary, Succeeds, TakesTurn, Trace, Advances, AllOrdinary, GivesUp, Offered, Ordered, Sum;
    hide InTurn;
    hide Shifted, Without, Count, IsDearest, Running, EndsAt, Goes, Taken, GasTaken, CrashesNext;
    b.gp.gas := b.limit;
    included, crashed := [], false;
    steps, picks := [Step(txs.left, Turn(b.db.state, b.gp.gas))], [];
    TraceStart(steps[0], vm, homestead, ignored);
    TakenInTurn(steps, picks, vm, homestead, ignored, 0);
    while b.gp.gas >= TX_GAS
      invariant b.Balanced() && txs.Valid() && AllOrdinary(txs.left)
      invariant |b.receipts| == |old(b.receipts)| + |included| && b.used + b.gp.gas <= old(b.used) + b.limit
      invariant Trace(steps, picks, vm, homestead, ignored) && |steps| == |picks| + 1
      invariant steps[0] == old(Step(txs.left, Turn(b.db.state, b.limit)))
      invariant steps[|picks|] == Step(txs.left, Turn(b.db.state, b.gp.gas))
      invariant included == Taken(steps, picks, vm, homestead, ignored, |picks|)
      invariant b.used == old(b.used) + GasTaken(steps, picks, vm, homestead, ignored, |picks|)
      invariant InTurn(included, vm, old(b.db.state), b.db.state)
      decreases Count(txs.left)
    {
      var next := txs.Peek();
      if next.None? {
        NoneCrashes(steps[|picks|], ignored);
        return;
      }
      ghost var s, before := steps[|picks|], b.used;
      var tx, taken;
      tx, taken, crashed := TakeNext(b, txs, next.value, vm, homestead, ignored);
      if crashed {
        return;
      }
      if taken {
        included := included + [tx];
      }
      TraceMore(steps, picks, Step(txs.left, Turn(b.db.state, b.gp.gas)), next.value, vm, homestead, ignored);
      steps := steps + [Step(txs.left, Turn(b.db.state, b.gp.gas))];
      picks := picks + [next.value];
      TakenInTurn(steps, picks, vm, homestead, ignored, |picks|);
    }
  }

  lemma NoneCrashes(s: Step, ignored: Transaction -> bool)
    requires s.left == map[]
    ensures forall a :: !CrashesNext(s, a, ignored)
  {
  }

  lemma TraceStart(s: Step, vm: Vm, homestead: bool, ignored: Transaction -> bool)
    ensures Trace([s], [], vm, homestead, ignored) && Taken([s], [], vm, homestead, ignored, 0) == []
    ensures GasTaken([s], [], vm, homestead, ignored, 0) == 0
  {
  }

  /** One turn with the transaction at the top. */
  method TakeNext(b: Block, txs: TxSet, a: Address, vm: Vm, homestead: bool, ignored: Transaction -> bool)
    returns (tx: Transaction, taken: bool, crashed: bool)
    requires b.Balanced() && Conserving(vm) && txs.Valid() && AllOrdinary(txs.left) && b.gp.gas >= TX_GAS
    requires IsDearest(txs.left, a) && |txs.heads.s| > 0 && txs.heads.s[0] == OfferOf(txs.left, a)
    modifies b`used, b`fees, b`receipts, b.gp, b.db, txs`left, txs.heads
    ensures b.Balanced() && txs.Valid() && AllOrdinary(txs.left)
    ensures crashed <==> CrashesNext(old(Step(txs.left, Turn(b.db.state, b.gp.gas))), a, ignored)
    ensures crashed ==>
              && !taken && txs.left == old(txs.left)
              && Turn(b.db.state, b.gp.gas) == old(Turn(b.db.state, b.gp.gas))
    ensures !crashed ==>
              && Count(txs.left) < old(Count(txs.left))
              && Advances(old(Step(txs.left, Turn(b.db.state, b.gp.gas))), a,
                          Step(txs.left, Turn(b.db.state, b.gp.gas)), vm, homestead, ignored)
    ensures |b.receipts| == |old(b.receipts)| + (if taken then 1 else 0)
    ensures !crashed ==> (taken <==> Goes(old(Step(txs.left, Turn(b.db.state, b.gp.gas))), a, vm, homestead, ignored))
    ensures if taken then b.used + b.gp.gas == old(b.used + b.gp.gas) else b.used == old(b.used)
    ensures b.gp.gas <= old(b.gp.gas)
    ensures a in old(txs.left) && old(txs.left)[a] != [] && tx == old(txs.left)[a][0]
  {
    hide Conserving, Ordinary, Succeeds, TakesTurn, AllOrdinary, GivesUp, Offered, Ordered, Sum, Count, Without;
    hide Shifted, Running, EndsAt, Crashes;
    tx, crashed := txs.left[a][0], false;
    CountFalls(txs.left, a);
    StillOrdinary(txs.left, a);
    if ignored(tx) {
      txs.Pop(a);
      return tx, false, false;
    }
    var why := b.Attempt(tx, vm, homestead);
    if why == Some(Crashed) {
      CrashChangesNothing(tx, vm, homestead, old(Turn(b.db.state, b.gp.gas)), Turn(b.db.state, b.gp.gas));
      return tx, false, true;
    }
    if Stuck(why) {
      txs.Pop(a);
    } else {
      txs.Shift(a);
    }
    taken := why.None?;
  }

  lemma CrashChangesNothing(tx: Transaction, vm: Vm, homestead: bool, a: Turn, b: Turn)
    requires Crashes(tx) && TakesTurn(tx, vm, homestead, a, b)
    ensures a == b
  {
  }

  /** A turn takes no more gas than its transaction may use, and gives none back. */
  lemma TurnTakesGas(tx: Transaction, vm: Vm, homestead: bool, a: Turn, b: Turn)
    requires TakesTurn(tx, vm, homestead, a, b)
    ensures b.pool <= a.pool
  {
    hide IntrinsicCost;
  }

  /** What goes through takes its gas out of the pool. */
  lemma {:induction false} GasFromPool(steps: seq<Step>, picks: seq<Address>, vm: Vm, homestead: bool,
                                       ignored: Transaction -> bool, n: nat)
    requires Trace(steps, picks, vm, homestead, ignored) && n <= |picks|
    ensures 0 <= GasTaken(steps, picks, vm, homestead, ignored, n) <= steps[0].turn.pool - steps[n].turn.pool
  {
    if n > 0 {
      GasFromPool(steps, picks, vm, homestead, ignored, n - 1);
      assert Advances(steps[n - 1], picks[n - 1], steps[n], vm, homestead, ignored);
      PoolFalls(steps[n - 1], picks[n - 1], steps[n], vm, homestead, ignored);
      hide Advances, Trace, Goes;
    }
  }

  lemma PoolFalls(s: Step, a: Address, s': Step, vm: Vm, homestead: bool, ignored: Transaction -> bool)
    requires Advances(s, a, s', vm, homestead, ignored)
    ensures s'.turn.pool <= s.turn.pool
  {
    hide TakesTurn, GivesUp, Without, Shifted, Crashes;
    if !ignored(s.left[a][0]) {
      TurnTakesGas(s.left[a][0], vm, homestead, s.turn, s'.turn);
    }
  }

  /** Whatever is offered, a block of this limit that has used this much stays within its limit. */
  ghost predicate KeepsLimit(limit: nat, used: nat) {
    forall steps: seq<Step>, picks, vm, homestead, ignored ::
      Conserving(vm) && Trace(steps, picks, vm, homestead, ignored) && steps[0].turn.pool == limit ==>
        used + GasTaken(steps, picks, vm, homestead, ignored, |picks|) <= limit
  }

  /** A fill keeps the block's limit exactly if nothing was used before, or nothing can be filled. */
  lemma KeepsLimitIff(limit: nat, used: nat)
    requires limit <= MAX64
    ensures KeepsLimit(limit, used) <==> used == 0 || (limit < TX_GAS && used <= limit)
  {
    hide Advances, Conserving;
    if used == 0 || (limit < TX_GAS && used <= limit) {
      forall steps: seq<Step>, picks, vm, homestead, ignored |
        Conserving(vm) && Trace(steps, picks, vm, homestead, ignored) && steps[0].turn.pool == limit
        ensures used + GasTaken(steps, picks, vm, homestead, ignored, |picks|) <= limit
      {
        WithinLimit(steps, picks, vm, homestead, ignored, used);
      }
    } else {
      var n := if limit < TX_GAS then 0 else 1;
      GreedyTrace(limit);
      GreedyConserves();
      assert used + GasTaken(Greedy(limit, n), seq(n, i => 1), Burning, false, NoneIgnored, n) > limit;
    }
  }

  lemma WithinLimit(steps: seq<Step>, picks: seq<Address>, vm: Vm, homestead: bool, ignored: Transaction -> bool,
                    used: nat)
    requires Trace(steps, picks, vm, homestead, ignored)
    requires used == 0 || (steps[0].turn.pool < TX_GAS && used <= steps[0].turn.pool)
    ensures used + GasTaken(steps, picks, vm, homestead, ignored, |picks|) <= steps[0].turn.pool
  {
    forall i | 0 <= i < |picks| ensures TX_GAS <= steps[i].turn.pool {
      TurnNeeds(steps, picks, vm, homestead, ignored, i);
    }
    GasFromPool(steps, picks, vm, homestead, ignored, |picks|);
    hide Advances;
    assert steps[0].turn.pool < TX_GAS ==> |picks| == 0;
  }

  /** There is a turn only with something offered and gas for a plain transfer. */
  lemma TurnNeeds(steps: seq<Step>, picks: seq<Address>, vm: Vm, homestead: bool, ignored: Transaction -> bool, i: nat)
    requires Trace(steps, picks, vm, homestead, ignored) && i < |picks|
    ensures steps[i].left != map[] && TX_GAS <= steps[i].turn.pool
  {
    assert Advances(steps[i], picks[i], steps[i + 1], vm, homestead, ignored);
    hide TakesTurn, GivesUp;
  }

  /** A machine that uses up all the gas. */
  const Burning: Vm := (s: State, m: Message, g: nat) => VmOutcome(s, 0, 0, false, false)

  const NoneIgnored: Transaction -> bool := (tx: Transaction) => false

  /** A free transaction with this much gas. */
  function Free(gas: nat): Transaction {
    Plain(Message(1, 0, false, gas, 0, 0, [], false))
  }

  const Nobody: State := State(map[], map[])

  /** Offering one transaction with the whole limit as its gas, before and after n turns. */
  ghost function Greedy(limit: nat, n: nat): seq<Step> {
    if n == 0 then [Step(map[], Turn(Nobody, limit))]
    else
      [Step(map[1 := [Free(limit)]], Turn(Nobody, limit)), Step(map[], Turn(Burnt(limit), 0))]
  }

  ghost function Burnt(limit: nat): State {
    Entered(Nobody, Free(limit).msg).AddBalance(1, Fee(0, 0))
  }

  lemma GreedyConserves()
    ensures Conserving(Burning)
  {
  }

  lemma GreedyTrace(limit: nat)
    requires limit <= MAX64
    ensures Trace(Greedy(limit, 0), [], Burning, false, NoneIgnored)
    ensures GasTaken(Greedy(limit, 0), [], Burning, false, NoneIgnored, 0) == 0
    ensures limit >= TX_GAS ==>
              && Trace(Greedy(limit, 1), [1], Burning, false, NoneIgnored)
              && GasTaken(Greedy(limit, 1), [1], Burning, false, NoneIgnored, 1) == limit
  {
    if limit >= TX_GAS {
      var s := Greedy(limit, 1);
      GreedyGoes(limit);
      assert Advances(s[0], 1, s[1], Burning, false, NoneIgnored);
    }
  }

  lemma GreedyGoes(limit: nat)
    requires TX_GAS <= limit <= MAX64
    ensures var tx := Free(limit);
            && Succeeds(tx, Burning, false, Nobody, limit) && !Crashes(tx) && !GivesUp(tx, Nobody, limit)
            && Applied(tx, Burning, false, Nobody, Burnt(limit), limit)
  {
    var tx := Free(limit);
    assert IntrinsicCost([], false) == TX_GAS;
    assert Executed(Nobody, Burnt(limit), tx.msg, Burning, false, limit, false);
  }

  /** Filling from one such offer takes all the gas. */
  lemma OneOffer(steps: seq<Step>, picks: seq<Address>, limit: nat)
    requires TX_GAS <= limit <= MAX64 && Trace(steps, picks, Burning, false, NoneIgnored)
    requires steps[0].left == map[1 := [Free(limit)]] && steps[0].turn.pool == limit
    requires steps[0].turn.state.Balance(1) >= 0
    requires var last := steps[|picks|];
             last.turn.pool < TX_GAS || last.left == map[] || exists a :: CrashesNext(last, a, NoneIgnored)
    ensures GasTaken(steps, picks, Burning, false, NoneIgnored, |picks|) == limit
    ensures steps[|picks|].turn.state.Balance(1) >= 0
  {
    assert 1 in steps[0].left;
    NotACrash(steps[0], limit);
    assert picks != [];
    var s, s' := steps[0], steps[1];
    assert Advances(s, picks[0], s', Burning, false, NoneIgnored);
    OfferGoes(s, picks[0], s', limit);
    forall i | 0 <= i < |picks| ensures steps[i].left != map[] {
      TurnNeeds(steps, picks, Burning, false, NoneIgnored, i);
    }
    hide Goes;
    assert |picks| == 1;
    assert GasTaken(steps, picks, Burning, false, NoneIgnored, 0) == 0;
  }

  lemma NotACrash(s: Step, limit: nat)
    requires s.left == map[1 := [Free(limit)]]
    ensures forall a :: !CrashesNext(s, a, NoneIgnored)
  {
  }

  lemma OfferGoes(s: Step, a: Address, s': Step, limit: nat)
    requires TX_GAS <= limit <= MAX64 && s.left == map[1 := [Free(limit)]] && s.turn.pool == limit
    requires s.turn.state.Balance(1) >= 0 && Advances(s, a, s', Burning, false, NoneIgnored)
    ensures Goes(s, a, Burning, false, NoneIgnored) && s'.turn.pool == 0 && s'.left == map[]
    ensures s'.turn.state.Balance(1) >= 0
  {
    assert IntrinsicCost([], false) == TX_GAS;
    assert a == 1 && Fee(limit, 0) == 0;
    assert Succeeds(Free(limit), Burning, false, s.turn.state, limit);
  }

  /** Offering two such transactions one after the other, as the source does while not mining: the
      block ends with more gas used than its limit. */
  method RefillOverruns() returns (b: Block)
    ensures fresh(b) && b.used == 2 * b.limit > b.limit
  {
    hide Trace, Taken, GasTaken, Conserving, Sum, Offered, Ordered, Ordinary, CrashesNext, Running, EndsAt, Free;
    b := new Block(TX_GAS, Nobody);
    GreedyConserves();
    FreeIsOrdinary(TX_GAS);
    var one: Accounts := map[1 := [Free(TX_GAS)]];
    for i := 0 to 2
      invariant b.Balanced() && b.used == i * b.limit && b.limit == TX_GAS && b.db.state.Balance(1) >= 0
      invariant fresh(b) && fresh(b.gp) && fresh(b.db)
    {
      var offer := NewTxSet(one);
      var included, crashed, steps, picks := Fill(b, offer.value, Burning, false, NoneIgnored);
      OneOffer(steps, picks, TX_GAS);
    }
  }

  lemma FreeIsOrdinary(gas: nat)
    ensures var one: Accounts := map[1 := [Free(gas)]]; NoneEmpty(one) && AllOrdinary(one)
  {
  }

  /** The transactions of an account that came up in the first n turns. */
  ghost function ComeUp(steps: seq<Step>, picks: seq<Address>, a: Address, n: nat): seq<Transaction>
    requires n <= |picks| && |steps| == |picks| + 1
  {
    if n == 0 then []
    else
      ComeUp(steps, picks, a, n - 1) +
      (if picks[n - 1] == a && a in steps[n - 1].left && steps[n - 1].left[a] != []
       then [steps[n - 1].left[a][0]] else [])
  }

  /** In the first n turns a transaction of the account was ignored, ahead of its nonce or too large. */
  ghost predicate PutOff(steps: seq<Step>, picks: seq<Address>, a: Address, n: nat, ignored: Transaction -> bool)
    requires n <= |picks| && |steps| == |picks| + 1
  {
    exists i :: 0 <= i < n && picks[i] == a && a in steps[i].left && steps[i].left[a] != [] &&
      var tx := steps[i].left[a][0]; ignored(tx) || GivesUp(tx, steps[i].turn.state, steps[i].turn.pool)
  }

  /** Each account's transactions come up in their order and without gaps; all of them do, unless
      one puts off the rest or the account is still waiting. */
  lemma {:induction false} AccountOrder(steps: seq<Step>, picks: seq<Address>, a: Address, n: nat, vm: Vm,
                                        homestead: bool, ignored: Transaction -> bool)
    requires Trace(steps, picks, vm, homestead, ignored) && n <= |picks| && a in steps[0].left
    ensures ComeUp(steps, picks, a, n) <= steps[0].left[a]
    ensures a in steps[n].left ==> ComeUp(steps, picks, a, n) + steps[n].left[a] == steps[0].left[a]
    ensures a !in steps[n].left ==>
              ComeUp(steps, picks, a, n) == steps[0].left[a] || PutOff(steps, picks, a, n, ignored)
  {
    if n > 0 {
      AccountOrder(steps, picks, a, n - 1, vm, homestead, ignored);
      assert Advances(steps[n - 1], picks[n - 1], steps[n], vm, homestead, ignored);
      PutOffMore(steps, picks, a, n, ignored);
      AdvanceOf(steps[n - 1], picks[n - 1], steps[n], vm, homestead, ignored, a);
      hide Trace, PutOff, GivesUp, Advances;
      var done, s, s' := ComeUp(steps, picks, a, n - 1), steps[n - 1].left, steps[n].left;
      if picks[n - 1] == a {
        OneFurther(done, s[a], if a in s' then s'[a] else [], steps[0].left[a]);
        assert ComeUp(steps, picks, a, n) == done + [s[a][0]];
        hide ComeUp;
      } else {
        assert ComeUp(steps, picks, a, n) == done;
        hide ComeUp;
      }
    }
  }

  /** The first of what is left comes up. */
  lemma OneFurther(done: seq<Transaction>, now: seq<Transaction>, rest: seq<Transaction>, all: seq<Transaction>)
    requires now != [] && done + now == all
    ensures done + [now[0]] <= all
    ensures now == [now[0]] + rest ==> (done + [now[0]]) + rest == all
    ensures now == [now[0]] ==> done + [now[0]] == all
  {
    assert all[..|done| + 1] == done + [now[0]];
  }

  lemma PutOffMore(steps: seq<Step>, picks: seq<Address>, a: Address, n: nat, ignored: Transaction -> bool)
    requires 0 < n <= |picks| && |steps| == |picks| + 1
    ensures PutOff(steps, picks, a, n - 1, ignored) ==> PutOff(steps, picks, a, n, ignored)
    ensures picks[n - 1] == a && a in steps[n - 1].left && steps[n - 1].left[a] != [] &&
            (ignored(steps[n - 1].left[a][0]) ||
             GivesUp(steps[n - 1].left[a][0], steps[n - 1].turn.state, steps[n - 1].turn.pool)) ==>
              PutOff(steps, picks, a, n, ignored)
  {
    hide GivesUp;
  }

  /** What one turn means for one account. */
  lemma AdvanceOf(s: Step, c: Address, s': Step, vm: Vm, homestead: bool, ignored: Transaction -> bool, a: Address)
    requires Advances(s, c, s', vm, homestead, ignored)
    ensures c in s.left && s.left[c] != []
    ensures c != a ==> (a in s'.left <==> a in s.left) && (a in s.left ==> s'.left[a] == s.left[a])
    ensures c == a && a in s'.left ==> s.left[a] == [s.left[a][0]] + s'.left[a]
    ensures c == a && a !in s'.left ==>
              s.left[a] == [s.left[a][0]] || ignored(s.left[a][0]) || GivesUp(s.left[a][0], s.turn.state, s.turn.pool)
  {
    hide TakesTurn, GivesUp;
  }
}
