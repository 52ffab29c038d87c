/** core/tx_pool.go. The lists inside the pool are values (`List`); everything else follows
    the source field by field. Clock readings, the chain state and the verdict of the
    callbacks inside `validateTx` are parameters. */
module TxPools {
  import opened TxTypes
  import opened TxSortedMaps
  import opened TxLists
  import opened TxPricedLists
  import opened PoolInvariants
  import opened PoolNonces
  import opened PoolPromotion
  import opened PoolEviction
  import opened PoolOutcomes
  import opened PoolHeartbeats
  import opened Heaps

  datatype Config = Config(priceBump: nat, accountSlots: nat, globalSlots: nat, accountQueue: nat, globalQueue: nat,
                           lifetime: nat)

  datatype Op =
    | AddBatch(txs: seq<Tx>, local: bool, signed: Tx -> bool, wellFormed: Tx -> bool, now: nat)
    | Remove(gone: seq<Tx>)
    | Reprice(price: int)
    | Tick(now: nat)
    | NewHead(nonces: Address -> nat, balances: Address -> int, gasLimit: nat, reinject: seq<Tx>, signed: Tx -> bool,
              wellFormed: Tx -> bool, now: nat)

  /** The operations that may promote happen between these times. */
  ghost predicate Clocked(ops: seq<Op>, from: nat, to: nat) {
    forall i :: 0 <= i < |ops| && (ops[i].AddBatch? || ops[i].NewHead?) ==> from <= ops[i].now <= to
  }

  /** A new head lowers no nonce, and its state has executed what the old head had. */
  ghost predicate Forward(op: Op, nonceOf: Address -> nat) {
    op.NewHead? ==> (forall a :: nonceOf(a) <= op.nonces(a)) && Executed(op.reinject, op.nonces)
  }

  function NoncesAfter(op: Op, nonceOf: Address -> nat): Address -> nat {
    if op.NewHead? then op.nonces else nonceOf
  }

  /** State nonces never go backwards, and the new state has executed what the old head had. */
  ghost predicate Onward(ops: seq<Op>, nonceOf: Address -> nat) {
    ops == [] || (Forward(ops[0], nonceOf) && Onward(ops[1..], NoncesAfter(ops[0], nonceOf)))
  }

  /** This many transactions hit none of the pool's limits. */
  ghost predicate FitsIn(config: Config, n: nat) {
    n <= config.globalSlots && n <= config.globalQueue && n <= config.accountQueue
  }

  /** The pool at one time. */
  datatype Moment = Moment(all: set<Tx>, pending: Lists, queue: Lists, beats: map<Address, nat>, rules: Rules)

  /** What an operation does to the pool. */
  ghost predicate Follows(op: Op, m: Moment, m': Moment, config: Config) {
    match op
    case AddBatch(txs, local, signed, wellFormed, now) =>
      && m'.rules == m.rules.(locals := m'.rules.locals) && m.rules.locals <= m'.rules.locals
      && (local || m'.rules.locals == m.rules.locals)
      && m'.all <= m.all + Members(txs) && Paced(m.pending, m.beats, m'.pending, m'.beats, now, now)
      && (FitsIn(config, |m.all| + |txs|) ==> Welcomes(m.all, m'.all, txs, local, signed, wellFormed, m.rules))
    case Remove(gone) =>
      m'.rules == m.rules && m'.all == m.all - ToSet(gone) && Unpromoted(m.pending, m.beats, m'.pending, m'.beats)
    case Reprice(price) =>
      && m'.rules == m.rules.(gasPrice := price) && m'.all == m.all - RemoteBelow(m.all, price, m.rules.locals)
      && Unpromoted(m.pending, m.beats, m'.pending, m'.beats)
    case Tick(now) =>
      && m' == m.(all := m'.all, queue := m'.queue) && m'.all <= m.all
      && m'.queue == m.queue - Silent(m.queue, m.beats, m.rules.locals, now, config.lifetime)
    case NewHead(nonces, balances, gasLimit, reinject, signed, wellFormed, now) =>
      var rules := Rules(m.rules.gasPrice, gasLimit, nonces, balances, m.rules.locals);
      && m'.rules == rules
      && m'.all <= m.all + Members(reinject) && Paced(m.pending, m.beats, m'.pending, m'.beats, now, now)
      && (FitsIn(config, |m.all| + |reinject|) ==> Welcomes(m.all, m'.all, reinject, false, signed, wellFormed, rules))
      && Within(m'.pending, m'.queue, rules.locals, config.accountSlots, config.globalSlots, config.globalQueue)
  }

  class TxPool {
    const config: Config
    const priced: TxPricedList
    var gasPrice: int
    var nonceOf: Address -> nat
    var balanceOf: Address -> int
    var maxGas: nat
    var virtual: map<Address, nat>
    var locals: set<Address>
    var pending: Lists
    var queue: Lists
    var beats: map<Address, nat>
    var all: set<Tx>
    /** Transactions already popped from the price heap and about to be removed from the pool. */
    ghost var unpriced: set<Tx>

    ghost predicate Priced()
      reads this`all, this`unpriced, priced, priced.items
    {
      priced.Valid() && Covers(priced.Entries(), all - unpriced)
    }

    /** `all` is exactly the disjoint union of pending and queue, every pooled transaction has
        an entry in the price heap, and no stored list is empty. */
    ghost predicate Valid()
      reads this`pending, this`queue, this`all, this`unpriced, priced, priced.items
    {
      Coherent() && unpriced == {}
    }

    /** The same while a batch of transactions taken off the price heap is being removed. */
    ghost predicate Coherent()
      reads this`pending, this`queue, this`all, this`unpriced, priced, priced.items
    {
      Books(unpriced)
    }

    ghost predicate Books(owed: set<Tx>)
      reads this`pending, this`queue, this`all, this`unpriced, priced, priced.items
    {
      && priced.Valid() && Covers(priced.Entries(), all - owed)
      && Consistent(pending, queue, all, 0, map[])
      && NoneEmpty(queue)
      && (config.accountSlots >= 1 ==> NoneEmpty(pending))
    }

    /** Every account's pending nonces run from its state nonce to its virtual nonce. */
    ghost predicate Gapless()
      reads this`pending, this`virtual, this`nonceOf
    {
      AllContiguous(pending, virtual, nonceOf)
    }

    /** Outside the excepted accounts nothing executable is left in the queue. */
    ghost predicate Settled(except: set<Address>)
      reads this`queue, this`virtual, this`nonceOf
    {
      Idle(queue, virtual, nonceOf, except)
    }

    /** Nothing known is oversized or of negative value, and nothing remote is below the price floor. */
    ghost predicate Priceworthy()
      reads this`all, this`gasPrice, this`locals
    {
      Screened(all, gasPrice, locals)
    }

    ghost predicate Roomy(n: nat) {
      FitsIn(config, n)
    }

    constructor (config: Config, priceLimit: int, nonceOf: Address -> nat, balanceOf: Address -> int, maxGas: nat)
      ensures Valid() && Gapless() && Settled({}) && Priceworthy() && all == {} && locals == {} && this.config == config
      ensures this.nonceOf == nonceOf && this.balanceOf == balanceOf && this.maxGas == maxGas && gasPrice == priceLimit
      ensures fresh(priced) && fresh(priced.items) && Heard(pending, beats)
    {
      this.config, gasPrice := config, priceLimit;
      this.nonceOf, this.balanceOf, this.maxGas := nonceOf, balanceOf, maxGas;
      virtual, locals, pending, queue, beats, all := map[], {}, map[], map[], map[], {};
      unpriced := {};
      priced := new TxPricedList();
    }

    /** The loops `delete(pool.all, hash); pool.priced.Removed()` over dropped transactions. */
    method Forget(gone: Items)
      requires Priced()
      modifies this`all, priced, priced.items
      ensures Priced() && all == old(all) - TxsOf(gone)
    {
      hide Covers;
      var todo := gone.Keys;
      assert all == old(all) - (TxsOf(gone) - (set n | n in todo :: gone[n]));
      while todo != {}
        invariant todo <= gone.Keys && Priced()
        invariant old(all) - TxsOf(gone) <= all <= old(all)
        invariant forall n :: n in gone && n !in todo ==> gone[n] !in all
        decreases todo
      {
        var n :| n in todo;
        todo := todo - {n};
        Unpool(gone[n]);
      }
    }

    method Unpool(tx: Tx)
      requires Priced()
      modifies this`all, priced, priced.items
      ensures Priced() && all == old(all) - {tx}
    {
      all := all - {tx};
      priced.Removed(all);
    }

    method Pool(tx: Tx)
      requires Priced()
      modifies this`all, priced, priced.items
      ensures Priced() && all == old(all) + {tx}
    {
      all := all + {tx};
      priced.Put(tx);
    }

    method EnqueueTx(tx: Tx) returns (replaced: bool, rejected: bool)
      requires Priced()
      modifies this`queue, this`all, priced, priced.items
      ensures Priced()
      ensures match ListOf(old(queue), tx.from, false).Add(tx, config.priceBump)
              case Rejected => rejected && queue == old(queue) && all == old(all)
              case Added(l, prev) =>
                && !rejected && replaced == prev.Some? && queue == old(queue)[tx.from := l]
                && all == Swapped(old(all), prev, tx)
    {
      hide Covers, List.Add;
      match ListOf(queue, tx.from, false).Add(tx, config.priceBump) {
        case Rejected =>
          return false, true;
        case Added(l, prev) =>
          queue := queue[tx.from := l];
          if prev.Some? {
            Unpool(prev.value);
          }
          Pool(tx);
          return prev.Some?, false;
      }
    }

    /** Send transactions taken out of a pending list back to the queue, in any order. */
    method Postpone(a: Address, txs: Items)
      requires Priced() && Consistent(pending, queue, all, a, txs)
      modifies this`queue, this`all, priced, priced.items
      ensures Priced() && Consistent(pending, queue, all, a, map[]) && all == old(all)
      ensures SameElsewhere(old(queue), queue, a) && (a in queue <==> a in old(queue) || txs != map[])
      ensures NoneEmpty(old(queue)) ==> NoneEmpty(queue)
    {
      hide Covers, Consistent, Postponing, List.Add, Swapped;
      var todo := txs;
      PostponeStart(queue, a, txs);
      while todo != map[]
        invariant Priced() && Consistent(pending, queue, all, a, todo) && all == old(all)
        invariant Postponing(old(queue), queue, a, txs, todo)
        decreases |todo|
      {
        var n :| n in todo;
        PostponeStep(pending, old(queue), queue, all, a, txs, todo, n, config.priceBump);
        var _, _ := EnqueueTx(todo[n]);
        todo := todo - {n};
      }
      PostponeDone(old(queue), queue, a, txs);
    }

    /** Removes one transaction; its pending successors go back to the queue. */
    method RemoveTx(tx: Tx)
      requires Coherent()
      modifies this`pending, this`queue, this`beats, this`virtual, this`all, priced, priced.items
      ensures Coherent() && all == old(all) - {tx}
      ensures tx !in old(all) ==>
                pending == old(pending) && queue == old(queue) && virtual == old(virtual) && beats == old(beats)
      ensures tx in old(all) && !Holds(old(pending), tx) ==>
                && Holds(old(queue), tx) && pending == old(pending) && virtual == old(virtual) && beats == old(beats)
                && queue == WithList(old(queue), tx.from, old(queue)[tx.from].Remove(tx.nonce))
      ensures tx in old(all) && Holds(old(pending), tx) ==>
                && pending == WithList(old(pending), tx.from, old(pending)[tx.from].Remove(tx.nonce))
                && virtual == Lowered(old(virtual), nonceOf, tx.from, tx.nonce)
                && SameElsewhere(old(queue), queue, tx.from)
      ensures Unpromoted(old(pending), old(beats), pending, beats)
      ensures old(Gapless()) ==> Gapless()
      ensures forall except :: old(Settled(except)) ==> Settled(except)
    {
      hide Covers, Consistent, NoneEmpty, AllContiguous, List.Remove, List.Invalidated, SameElsewhere, Idle, Unpromoted;
      PacedNothing(pending, beats);
      if tx !in all {
        return;
      }
      var a, nonce := tx.from, tx.nonce;
      RemovalFacts(pending, queue, all, tx, virtual, nonceOf);
      Unpool(tx);
      if a in pending && nonce in pending[a].items {
        var invalids := pending[a].Invalidated(nonce);
        RemovedLess(pending, beats, a, nonce);
        pending := pending[a := pending[a].Remove(nonce)];
        if pending[a].items == map[] {
          pending := pending - {a};
          beats := beats - {a};
        }
        Postpone(a, invalids);
        if VirtualNonce(virtual, nonceOf, a) > nonce {
          virtual := virtual[a := nonce];
        }
        Retag(pending, queue, all, a, 0);
        RemovalSettles(old(pending), old(queue), old(all), pending, queue, old(virtual), nonceOf, tx);
        return;
      }
      if a in queue {
        queue := queue[a := queue[a].Remove(nonce)];
        if queue[a].items == map[] {
          queue := queue - {a};
        }
      }
      Retag(pending, queue, all, a, 0);
      QueueRemovalSettles(old(queue), virtual, nonceOf, tx);
    }

    method PromoteTx(a: Address, tx: Tx, now: nat)
      requires Priced()
      modifies this`pending, this`beats, this`virtual, this`all, priced, priced.items
      ensures Priced()
      ensures match ListOf(old(pending), a, true).Add(tx, config.priceBump)
              case Rejected =>
                && pending == old(pending) && virtual == old(virtual) && all == old(all) - {tx}
                && beats == old(beats)
              case Added(l, prev) =>
                && pending == old(pending)[a := l] && virtual == old(virtual)[a := tx.nonce + 1]
                && beats == old(beats)[a := now] && all == Swapped(old(all), prev, tx)
    {
      hide Covers, List.Add;
      match ListOf(pending, a, true).Add(tx, config.priceBump) {
        case Rejected =>
          Unpool(tx);
        case Added(l, prev) =>
          pending := pending[a := l];
          if prev.Some? {
            Unpool(prev.value);
          }
          if tx !in all {
            Pool(tx);
          }
          beats := beats[a := now];
          virtual := virtual[a := tx.nonce + 1];
      }
    }

    /** Promote a run [lo, end) of account a in nonce order. */
    method PromoteRun(a: Address, run: Items, lo: nat, end: nat, now: nat)
      requires Priced() && Consistent(pending, queue, all, a, run)
      requires lo <= end && forall n :: n in run <==> lo <= n < end
      modifies this`pending, this`beats, this`virtual, this`all, priced, priced.items
      ensures Priced() && Consistent(pending, queue, all, a, map[]) && all == old(all)
      ensures Promoting(old(pending), pending, old(virtual), virtual, a, run, lo, end)
      ensures beats == Stamped(old(beats), a, now, lo < end)
      ensures old(Gapless()) && lo == VirtualNonce(old(virtual), nonceOf, a) ==> Gapless()
    {
      hide Priced, Gapless, Consistent, Promoting, From, Stamped;
      StampedOnce(beats, a, now);
      PromoteStart(pending, virtual, a, run, lo);
      var n := lo;
      while n < end
        invariant lo <= n <= end && Priced() && all == old(all)
        invariant Consistent(pending, queue, all, a, From(run, n))
        invariant Promoting(old(pending), pending, old(virtual), virtual, a, run, lo, n)
        invariant beats == Stamped(old(beats), a, now, lo < n)
        invariant old(Gapless()) && lo == VirtualNonce(old(virtual), nonceOf, a) ==>
                    Gapless() && n == VirtualNonce(virtual, nonceOf, a)
      {
        PromoteNext(a, run, lo, n, now, old(pending), old(virtual));
        n := n + 1;
      }
      RunOver(run, end);
    }

    /** Promote the next transaction of a run. */
    method PromoteNext(a: Address, run: Items, ghost lo: nat, n: nat, now: nat, ghost p0: Lists,
                       ghost v0: map<Address, nat>)
      requires Priced() && Consistent(pending, queue, all, a, From(run, n))
      requires lo <= n && n in run && (forall k :: k in run ==> lo <= k)
      requires Promoting(p0, pending, v0, virtual, a, run, lo, n)
      modifies this`pending, this`beats, this`virtual, this`all, priced, priced.items
      ensures Priced() && Consistent(pending, queue, all, a, From(run, n + 1)) && all == old(all)
      ensures Promoting(p0, pending, v0, virtual, a, run, lo, n + 1) && beats == old(beats)[a := now]
      ensures old(Gapless()) && n == VirtualNonce(old(virtual), nonceOf, a) ==>
                Gapless() && n + 1 == VirtualNonce(virtual, nonceOf, a)
    {
      hide Covers, Consistent, AllContiguous, Promoting, List.Add, From, Swapped;
      PromoteStep(p0, pending, queue, all, v0, virtual, a, run, lo, n, config.priceBump);
      if Gapless() && n == VirtualNonce(virtual, nonceOf, a) {
        PromotionExtends(pending, virtual, nonceOf, run[n], config.priceBump);
      }
      SwapNothing(all, run[n]);
      PromoteTx(a, run[n], now);
    }

    /** Replace account a's queued list by a part of it and forget what that leaves out. */
    method DropQueued(a: Address, l: List)
      requires Priced() && Consistent(pending, queue, all, a, map[])
      requires a in queue && !l.strict && l.Valid() && PartOf(l.items, queue[a].items)
      modifies this`queue, this`all, priced, priced.items
      ensures Priced() && Consistent(pending, queue, all, a, map[]) && queue == old(queue)[a := l]
      ensures all == old(all) - TxsOf(old(queue)[a].items - l.items.Keys)
    {
      hide Covers, Consistent, PartOf;
      ShrinkQueued(pending, queue, all, a, l);
      var gone := queue[a].items - l.items.Keys;
      queue := queue[a := l];
      Forget(gone);
    }

    /** Drop account a's queued transactions that are too old or unpayable. */
    method TrimQueue(a: Address)
      requires Priced() && Consistent(pending, queue, all, a, map[]) && a in queue
      modifies this`queue, this`all, priced, priced.items
      ensures Priced() && Consistent(pending, queue, all, a, map[]) && a in queue
      ensures SameElsewhere(old(queue), queue, a) && PartOf(queue[a].items, old(queue)[a].items)
      ensures forall n :: n in queue[a].items ==> nonceOf(a) <= n
      ensures Trimmed(old(all), all, old(queue)[a].items, a, nonceOf, balanceOf, maxGas, locals)
      ensures Outdated(old(all), all, nonceOf, balanceOf, maxGas)
    {
      hide Covers, Consistent, List.Forward, List.Filter, List.Valid, Trimmed, DropReason, PartOf, SameElsewhere;
      hide Outdated;
      var l := queue[a];
      TrimFacts(pending, queue, all, a, nonceOf, balanceOf, maxGas, locals);
      l := l.Forward(nonceOf(a));
      DropQueued(a, l);
      l := l.Filter(balanceOf(a), maxGas).list;
      DropQueued(a, l);
    }

    /** Hand account a's executable run over to its pending list. */
    method PromoteReady(a: Address, now: nat)
      requires Priced() && Consistent(pending, queue, all, a, map[]) && a in queue
      requires forall n :: n in queue[a].items ==> nonceOf(a) <= n
      modifies this`pending, this`queue, this`beats, this`virtual, this`all, priced, priced.items
      ensures Priced() && Consistent(pending, queue, all, a, map[]) && all == old(all) && a in queue
      ensures SameElsewhere(old(pending), pending, a) && SameElsewhere(old(queue), queue, a)
      ensures PartOf(queue[a].items, old(queue)[a].items)
      ensures a in old(pending) ==> a in pending && PartOf(old(pending)[a].items, pending[a].items)
      ensures SameElsewhere(old(virtual), virtual, a) && IdleAt(queue, virtual, nonceOf, a)
      ensures Paced(old(pending), old(beats), pending, beats, now, now)
      ensures NoneEmpty(old(pending)) ==> NoneEmpty(pending)
      ensures old(Gapless()) ==> Gapless()
    {
      hide Covers, Consistent, AllContiguous, Promoting, List.Ready, Below, From, ReadyEnd, PartOf, SameElsewhere;
      hide NoneEmpty, Paced;
      PacedNothing(pending, beats);
      PacedAnyway(pending, beats, pending, beats, now, now);
      var l, start := queue[a], VirtualNonce(virtual, nonceOf, a);
      var end := ReadyEnd(l.items, start);
      var run := Below(l.items, end);
      ReadyFacts(pending, queue, all, virtual, nonceOf, a);
      queue := queue[a := l.Ready(start)];
      if run != map[] {
        PromoteRun(a, run, MinNonce(l.items), end, now);
        PromotedFacts(old(pending), pending, old(queue), all, old(virtual), virtual, nonceOf, a, MinNonce(l.items),
                      end);
        PromotedBeat(old(pending), pending, old(virtual), virtual, old(beats), a, run, MinNonce(l.items), end, now);
      }
    }

    /** Cap account a's queue unless it is local, and drop the list if nothing is left. */
    method CapQueue(a: Address)
      requires Priced() && Consistent(pending, queue, all, a, map[]) && a in queue
      modifies this`queue, this`all, priced, priced.items
      ensures Priced() && Consistent(pending, queue, all, a, map[])
      ensures SameElsewhere(old(queue), queue, a)
      ensures a in queue ==> PartOf(queue[a].items, old(queue)[a].items) && queue[a].items != map[]
      ensures a in queue && a !in locals ==> |queue[a].items| <= config.accountQueue
      ensures Trimmed(old(all), all, old(queue)[a].items, a, nonceOf, balanceOf, maxGas, locals)
      ensures |old(queue)[a].items| <= config.accountQueue ==> all == old(all)
    {
      hide Priced, Consistent, List.Cap, List.Valid, Trimmed, DropReason, PartOf, SameElsewhere, TxsOf;
      CapOutcome(pending, queue, all, a, config.accountQueue, nonceOf, balanceOf, maxGas, locals);
      if a !in locals {
        DropQueued(a, queue[a].Cap(config.accountQueue));
      }
      DropEmpty(pending, queue, all, a, map[], a);
      if queue[a].items == map[] {
        queue := queue - {a};
      }
    }

    /** One round of `promoteExecutables`: drop what account a can no longer use, promote the
        executable run, cap the rest. */
    method PromoteAccount(a: Address, now: nat)
      requires Valid()
      modifies this`pending, this`queue, this`beats, this`virtual, this`all, priced, priced.items
      ensures Valid() && (old(Gapless()) ==> Gapless())
      ensures SameElsewhere(old(pending), pending, a) && SameElsewhere(old(queue), queue, a)
      ensures a in old(pending) ==> a in pending && PartOf(old(pending)[a].items, pending[a].items)
      ensures a in queue ==> a in old(queue) && PartOf(queue[a].items, old(queue)[a].items)
      ensures SameElsewhere(old(virtual), virtual, a) && IdleAt(queue, virtual, nonceOf, a)
      ensures a in queue && a !in locals ==> |queue[a].items| <= config.accountQueue
      ensures Paced(old(pending), old(beats), pending, beats, now, now)
      ensures Trimmed(old(all), all, ListOf(old(queue), a, false).items, a, nonceOf, balanceOf, maxGas, locals)
      ensures |ListOf(old(queue), a, false).items| <= config.accountQueue ==>
                Outdated(old(all), all, nonceOf, balanceOf, maxGas)
    {
      hide Covers, Consistent, AllContiguous, NoneEmpty, Trimmed, SameElsewhere, PartOf, Outdated, Paced;
      PacedNothing(pending, beats);
      PacedAnyway(pending, beats, pending, beats, now, now);
      NothingLost(all, nonceOf, balanceOf, maxGas);
      NothingDone(pending, queue, all, virtual, a, nonceOf, balanceOf, maxGas, locals);
      if a !in queue {
        return;
      }
      Retag(pending, queue, all, 0, a);
      TrimQueue(a);
      ghost var q1, all1 := queue, all;
      PromoteReady(a, now);
      ghost var q2 := queue;
      QueueShrank(old(queue)[a].items, q1[a].items, q2[a].items);
      CapQueue(a);
      Retag(pending, queue, all, a, 0);
      PromotionOver(old(pending), old(queue), q1, q2, queue, old(all), all1, all, a, VirtualNonce(virtual, nonceOf, a),
                    nonceOf, balanceOf, maxGas, locals);
    }

    /** Drop account a's old and unpayable pending transactions and queue what they invalidate. */
    method DropStale(a: Address)
      requires Priced() && Consistent(pending, queue, all, a, map[]) && a in pending && NoneEmpty(queue)
      modifies this`pending, this`queue, this`all, priced, priced.items
      ensures Priced() && Consistent(pending, queue, all, a, map[]) && NoneEmpty(queue)
      ensures var l := old(pending)[a].Forward(nonceOf(a));
              pending == old(pending)[a := l][a := l.Filter(balanceOf(a), maxGas).list]
      ensures SameElsewhere(old(queue), queue, a) && Outdated(old(all), all, nonceOf, balanceOf, maxGas)
    {
      hide Covers, Consistent, NoneEmpty, SameElsewhere, Outdated, NoneStale, List.Forward, List.Filter, Below;
      hide Restarts;
      var l := pending[a];
      DemoteFacts(pending, queue, all, a, nonceOf, balanceOf, maxGas);
      var low := Below(l.items, nonceOf(a));
      l := l.Forward(nonceOf(a));
      pending := pending[a := l];
      Forget(low);
      var f := l.Filter(balanceOf(a), maxGas);
      pending := pending[a := f.list];
      Forget(f.removed);
      Postpone(a, f.invalids);
    }

    /** Queue all of account a's pending transactions if the front is missing; drop an empty list. */
    method PostponeGapped(a: Address)
      requires Priced() && Consistent(pending, queue, all, a, map[]) && a in pending && NoneEmpty(queue)
      modifies this`pending, this`queue, this`beats, this`all, priced, priced.items
      ensures Priced() && Consistent(pending, queue, all, a, map[]) && NoneEmpty(queue) && all == old(all)
      ensures SameElsewhere(old(queue), queue, a)
      ensures pending == if nonceOf(a) in old(pending)[a].items then old(pending) else old(pending) - {a}
      ensures beats == if nonceOf(a) in old(pending)[a].items then old(beats) else old(beats) - {a}
    {
      hide Covers, Consistent, NoneEmpty, SameElsewhere, List.Cap;
      GappedFacts(pending, queue, all, a);
      if pending[a].items != map[] && nonceOf(a) !in pending[a].items {
        var dropped := pending[a].items;
        pending := pending[a := pending[a].(items := map[])];
        Postpone(a, dropped);
      }
      if pending[a].items == map[] {
        DropEmpty(pending, queue, all, a, map[], a);
        pending := pending - {a};
        beats := beats - {a};
      }
    }

    /** One round of `demoteUnexecutables`. */
    method DemoteAccount(a: Address)
      requires Priced() && Consistent(pending, queue, all, a, map[]) && a in pending && NoneEmpty(queue)
      modifies this`pending, this`queue, this`beats, this`all, priced, priced.items
      ensures Priced() && Consistent(pending, queue, all, a, map[]) && NoneEmpty(queue)
      ensures SameElsewhere(old(pending), pending, a) && SameElsewhere(old(queue), queue, a)
      ensures var l := Payable(old(pending)[a], nonceOf(a), balanceOf(a), maxGas);
              pending == if nonceOf(a) in l.items then old(pending)[a := l] else old(pending) - {a}
      ensures Retains(old(pending), pending, nonceOf, balanceOf, maxGas, a)
      ensures Unpromoted(old(pending), old(beats), pending, beats)
      ensures Demoted(old(pending), pending, nonceOf, balanceOf, maxGas, a)
      ensures Outdated(old(all), all, nonceOf, balanceOf, maxGas)
    {
      hide Priced, Consistent, NoneEmpty, Outdated, NoneStale, Restarts, List.Forward, List.Filter;
      DemoteFacts(pending, queue, all, a, nonceOf, balanceOf, maxGas);
      PayableLess(pending, queue, all, beats, a, nonceOf(a), balanceOf(a), maxGas);
      hide Unpromoted;
      DropStale(a);
      PostponeGapped(a);
    }

    /** Account a gives up its highest pending nonce. */
    method DropLast(a: Address)
      requires Priced() && Consistent(pending, queue, all, 0, map[]) && a in pending && pending[a].items != map[]
      modifies this`pending, this`virtual, this`all, priced, priced.items
      ensures Priced() && Consistent(pending, queue, all, 0, map[])
      ensures GaveUpLast(old(pending), pending, a) && Total(old(pending)) == Total(pending) + 1
      ensures all <= old(all) && (old(Gapless()) ==> Gapless())
    {
      hide Covers, Consistent, AllContiguous, GaveUpLast, Total, List.Cap;
      DropLastFacts(pending, queue, all, virtual, nonceOf, a);
      var l := pending[a];
      var tx := l.items[MaxNonce(l.items)];
      pending := pending[a := l.Cap(|l.items| - 1)];
      Unpool(tx);
      if VirtualNonce(virtual, nonceOf, a) > tx.nonce {
        virtual := virtual[a := tx.nonce];
      }
    }

    /** One round over the offenders: each gives up its highest nonce. */
    method ReduceOffenders(offenders: seq<Address>, count: nat) returns (left: nat)
      requires Priced() && Consistent(pending, queue, all, 0, map[]) && count == Total(pending)
      requires CanReduce(pending, offenders)
      modifies this`pending, this`virtual, this`all, priced, priced.items
      ensures Priced() && Consistent(pending, queue, all, 0, map[]) && left == Total(pending)
      ensures count == left + |offenders| && Reduced(old(pending), pending, offenders, |offenders|)
      ensures all <= old(all) && (old(Gapless()) ==> Gapless())
    {
      hide Covers, Consistent, AllContiguous, GaveUpLast, Total, Reduced, CanReduce;
      left := count;
      ReducedStart(pending, offenders);
      for i := 0 to |offenders|
        invariant Priced() && Consistent(pending, queue, all, 0, map[])
        invariant left == Total(pending) && count == left + i
        invariant Reduced(old(pending), pending, offenders, i)
        invariant all <= old(all) && (old(Gapless()) ==> Gapless())
      {
        ReducedKeeps(old(pending), pending, offenders, i);
        ghost var p := pending;
        DropLast(offenders[i]);
        ReducedNext(old(pending), p, pending, offenders, i);
        left := left - 1;
      }
    }

    /** The spam queue: non-local accounts above the slot allowance, by list length. */
    method CollectSpammers() returns (h: MinHeap<Spammer>)
      ensures fresh(h) && h.Valid() && h.key == SpamKey && SpamHeap(h.s, pending, locals, config.accountSlots, [])
    {
      h := new MinHeap<Spammer>(SpamKey);
      var todo := pending.Keys;
      while todo != {}
        invariant todo <= pending.Keys && fresh(h) && h.Valid() && h.key == SpamKey
        invariant Collecting(h.s, pending, locals, config.accountSlots, todo)
        decreases todo
      {
        hide Collecting;
        var a :| a in todo;
        ghost var s := h.s;
        if a !in locals && |pending[a].items| > config.accountSlots {
          h.Push(Spammer(a, |pending[a].items|));
        }
        CollectStep(s, h.s, pending, locals, config.accountSlots, todo, a);
        todo := todo - {a};
      }
    }

    /** Reduce level offenders round by round until the pool fits or they are down to the threshold. */
    method Equalise(offenders: seq<Address>, threshold: nat, count: nat, ghost p0: Lists, ghost e: nat)
      returns (left: nat, ghost e': nat)
      requires Priced() && Consistent(pending, queue, all, 0, map[]) && count == Total(pending)
      requires |offenders| > 0 && config.accountSlots <= threshold <= e
      requires Level(p0, pending, locals, config.accountSlots, offenders, e)
      requires OthersWithin(pending, locals, offenders, threshold)
      modifies this`pending, this`virtual, this`all, priced, priced.items
      ensures Priced() && Consistent(pending, queue, all, 0, map[]) && left == Total(pending)
      ensures Level(p0, pending, locals, config.accountSlots, offenders, e') && threshold <= e'
      ensures left <= config.globalSlots || e' == threshold
      ensures count > config.globalSlots ==> left + |offenders| > config.globalSlots
      ensures all <= old(all) && (old(Gapless()) ==> Gapless())
    {
      hide Priced, Gapless, Consistent, Total, Level, Reduced, CanReduce, OthersWithin;
      left, e' := count, e;
      LevelParts(p0, pending, locals, config.accountSlots, offenders, e');
      while left > config.globalSlots && |pending[offenders[|offenders| - 1]].items| > threshold
        invariant Priced() && Consistent(pending, queue, all, 0, map[]) && left == Total(pending)
        invariant Level(p0, pending, locals, config.accountSlots, offenders, e') && threshold <= e'
        invariant offenders[|offenders| - 1] in pending && |pending[offenders[|offenders| - 1]].items| == e'
        invariant OthersWithin(pending, locals, offenders, threshold)
        invariant count > config.globalSlots ==> left + |offenders| > config.globalSlots
        invariant all <= old(all) && (old(Gapless()) ==> Gapless())
        decreases left
      {
        left := LevelRound(offenders, threshold, left, p0, e');
        e' := e' - 1;
      }
    }

    /** A round that takes the level offenders from e to e - 1. */
    method LevelRound(offenders: seq<Address>, ghost threshold: nat, count: nat, ghost p0: Lists, ghost e: nat)
      returns (left: nat)
      requires Priced() && Consistent(pending, queue, all, 0, map[]) && count == Total(pending)
      requires |offenders| > 0 && config.accountSlots <= threshold < e
      requires Level(p0, pending, locals, config.accountSlots, offenders, e)
      requires OthersWithin(pending, locals, offenders, threshold)
      modifies this`pending, this`virtual, this`all, priced, priced.items
      ensures Priced() && Consistent(pending, queue, all, 0, map[]) && left == Total(pending) &&
              left + |offenders| == count
      ensures Level(p0, pending, locals, config.accountSlots, offenders, e - 1)
      ensures OthersWithin(pending, locals, offenders, threshold)
      ensures offenders[|offenders| - 1] in pending && |pending[offenders[|offenders| - 1]].items| == e - 1
      ensures all <= old(all) && (old(Gapless()) ==> Gapless())
    {
      hide Covers, Consistent, AllContiguous, Total, Level, Reduced, CanReduce, OthersWithin;
      LevelParts(p0, pending, locals, config.accountSlots, offenders, e);
      left := ReduceOffenders(offenders, count);
      LevelDown(p0, old(pending), pending, locals, config.accountSlots, offenders, e, threshold);
      LevelParts(p0, pending, locals, config.accountSlots, offenders, e - 1);
    }

    /** If too much is pending, level down the largest non-local accounts until it fits or all
        of them are down to their allowance. */
    method EvictPending()
      requires Valid()
      modifies this`pending, this`virtual, this`all, priced, priced.items
      ensures Valid() && all <= old(all) && (old(Gapless()) ==> Gapless())
      ensures Settles(old(pending), pending, locals, config.accountSlots, config.globalSlots)
      ensures Unpromoted(old(pending), beats, pending, beats)
      ensures Total(old(pending)) <= config.globalSlots ==> all == old(all)
      ensures NoneEmpty(old(pending)) ==>
                (NoneEmpty(pending) <==> Spares(old(pending), locals, config.accountSlots, config.globalSlots))
    {
      hide Covers, Consistent, AllContiguous, Total, NoneEmpty, Evicted, Fair, Spares;
      var count := Count(pending);
      if count > config.globalSlots {
        LevelDownSpammers(count);
      } else {
        LevelStart(pending, locals, config.accountSlots);
        LevelIsFair(pending, pending, locals, config.accountSlots, [], Total(pending));
      }
      PacedEvicted(old(pending), pending, beats, locals, config.accountSlots);
      hide Unpromoted;
      if config.accountSlots >= 1 {
        EvictedNonEmpty(old(pending), pending, locals, config.accountSlots);
      }
      if NoneEmpty(old(pending)) {
        EvictionEmptiesLists(old(pending), pending, locals, config.accountSlots, config.globalSlots);
      }
    }

    /** The eviction proper: take the spammers in, largest first, and level those taken so far. */
    method LevelDownSpammers(total: nat)
      requires Priced() && Consistent(pending, queue, all, 0, map[]) && total == Total(pending) > config.globalSlots
      modifies this`pending, this`virtual, this`all, priced, priced.items
      ensures Priced() && Consistent(pending, queue, all, 0, map[]) && all <= old(all) && (old(Gapless()) ==> Gapless())
      ensures Evicted(old(pending), pending, locals, config.accountSlots) && Fair(old(pending), pending, locals)
      ensures Total(pending) <= config.globalSlots ||
              forall a :: a in pending && a !in locals ==> |pending[a].items| <= config.accountSlots
      ensures Total(pending) + |Remote(pending, locals)| > config.globalSlots
    {
      hide Priced, Gapless, Consistent, Total, Level, SpamHeap, Evicted, Fair, OthersWithin;
      var count := total;
      ghost var p0: Lists, e: nat := pending, Total(pending);
      LevelStart(pending, locals, config.accountSlots);
      var spammers := CollectSpammers();
      var offenders: seq<Address> := [];
      ghost var level := 0;
      while count > config.globalSlots && |spammers.s| > 0
        invariant Priced() && Consistent(pending, queue, all, 0, map[]) && count == Total(pending)
        invariant fresh(spammers) && spammers.Valid() && spammers.key == SpamKey
        invariant SpamHeap(spammers.s, p0, locals, config.accountSlots, offenders)
        invariant 0 <= level <= |offenders| && Level(p0, pending, locals, config.accountSlots, offenders[..level], e)
        invariant count > config.globalSlots ==> level == |offenders|
        invariant level > 0 ==> config.accountSlots < e
        invariant level == 0 ==> offenders == []
        invariant count + level > config.globalSlots
        invariant all <= old(all) && (old(Gapless()) ==> Gapless())
        decreases |spammers.s|
      {
        ghost var s := spammers.s;
        var x := spammers.Pop();
        assert offenders[..level] == offenders;
        SpamPop(s, x, spammers.s, p0, locals, config.accountSlots, offenders);
        NextOffender(p0, pending, locals, config.accountSlots, offenders, e, x.addr);
        ghost var before := offenders;
        offenders := offenders + [x.addr];
        assert offenders[..level] == before && offenders[..|offenders|] == offenders;
        if |offenders| > 1 {
          var threshold := |pending[x.addr].items|;
          count, e := Equalise(offenders[..|offenders| - 1], threshold, count, p0, e);
          if e == threshold {
            Untouched(p0, pending, locals, config.accountSlots, before, e, x.addr);
            LevelJoin(p0, pending, locals, config.accountSlots, before, e, x.addr);
            level := |offenders|;
          }
        } else {
          LevelFirst(p0, pending, locals, config.accountSlots, e, x.addr);
          level, e := 1, |pending[x.addr].items|;
        }
      }
      if count > config.globalSlots {
        assert offenders[..level] == offenders;
        LastOffenders(p0, pending, locals, config.accountSlots, offenders, e);
        if |offenders| > 0 {
          level := |offenders|;
          count, e := Equalise(offenders, config.accountSlots, count, p0, e);
          LastOffenders(p0, pending, locals, config.accountSlots, offenders, e);
        }
      }
      LevelIsFair(p0, pending, locals, config.accountSlots, offenders[..level], e);
      OffendersAreAccounts(p0, pending, locals, config.accountSlots, offenders[..level], e);
    }

    /** Remove account a's queued transactions tx by tx, lowest nonce first. */
    method DropWholeQueue(a: Address)
      requires Valid() && a in queue
      modifies this`pending, this`queue, this`beats, this`virtual, this`all, priced, priced.items
      ensures Valid() && pending == old(pending) && virtual == old(virtual) && beats == old(beats)
      ensures queue == old(queue) - {a} && Total(queue) + |old(queue)[a].items| == Total(old(queue))
      ensures all <= old(all)
    {
      hide Covers, Consistent, NoneEmpty, SortedContents, Total, List.Remove, Idle, AllContiguous, WithList, Lowered;
      hide Holds;
      QueuedFacts(pending, queue, all, a);
      var txs := Flattened(queue[a].items);
      FlatLength(txs, queue[a].items);
      TotalAt(queue, a);
      var i := 0;
      while i < |txs|
        invariant 0 <= i <= |txs| && Valid() && pending == old(pending) && virtual == old(virtual) &&
                  beats == old(beats)
        invariant queue - {a} == old(queue) - {a} && all <= old(all)
        invariant i < |txs| ==> a in queue && SortedContents(txs[i..], queue[a].items)
        invariant i == |txs| ==> a !in queue
        decreases |txs| - i
      {
        DropFrontFacts(pending, queue, all, a, txs, i);
        RemoveTx(txs[i]);
        i := i + 1;
      }
    }

    /** Remove the k highest of account a's queued transactions, highest nonce first. */
    method DropQueueTail(a: Address, k: nat)
      requires Valid() && a in queue && k < |queue[a].items|
      modifies this`pending, this`queue, this`beats, this`virtual, this`all, priced, priced.items
      ensures Valid() && pending == old(pending) && virtual == old(virtual) && beats == old(beats)
      ensures SameElsewhere(old(queue), queue, a) && a in queue && LowPart(queue[a].items, old(queue)[a].items)
      ensures Total(queue) + k == Total(old(queue)) && all <= old(all)
    {
      hide Covers, Consistent, NoneEmpty, SortedContents, Total, List.Remove, LowPart, SameElsewhere, Idle;
      QueuedFacts(pending, queue, all, a);
      hide Valid;
      var txs := Flattened(queue[a].items);
      FlatLength(txs, queue[a].items);
      var i, drop := |txs|, k;
      while drop > 0
        invariant 0 <= drop <= k < |txs| && i == |txs| - k + drop
        invariant Valid() && pending == old(pending) && virtual == old(virtual) && beats == old(beats)
        invariant a in queue && SortedContents(txs[..i], queue[a].items) && LowPart(queue[a].items, old(queue)[a].items)
        invariant SameElsewhere(old(queue), queue, a) && all <= old(all)
        invariant Total(queue) + (k - drop) == Total(old(queue))
      {
        DropHighest(a, old(queue), txs, i);
        i, drop := i - 1, drop - 1;
      }
    }

    /** Remove the highest of account a's queued transactions, the last of the first i. */
    method DropHighest(a: Address, ghost q0: Lists, txs: seq<Tx>, i: nat)
      requires Valid() && a in queue && 1 < i <= |txs| && SortedContents(txs[..i], queue[a].items)
      requires a in q0 && LowPart(queue[a].items, q0[a].items) && SameElsewhere(q0, queue, a)
      modifies this`pending, this`queue, this`beats, this`virtual, this`all, priced, priced.items
      ensures Valid() && pending == old(pending) && virtual == old(virtual) && beats == old(beats)
      ensures a in queue && SortedContents(txs[..i - 1], queue[a].items) && LowPart(queue[a].items, q0[a].items)
      ensures SameElsewhere(q0, queue, a) && all <= old(all) && Total(queue) + 1 == old(Total(queue))
    {
      hide Covers, Consistent, NoneEmpty, SortedContents, Total, List.Remove, LowPart, SameElsewhere, Idle;
      hide Gapless, Settled, WithList, Lowered, Holds;
      DropBackFacts(pending, q0, queue, all, a, txs, i);
      RemoveTx(txs[i - 1]);
    }

    /** If too much is queued, drop whole queues of non-local accounts, latest heartbeat first,
        and the tail of the last one, until it fits or only local accounts are left. */
    method EvictQueue()
      requires Valid()
      modifies this`pending, this`queue, this`beats, this`virtual, this`all, priced, priced.items
      ensures Valid() && pending == old(pending) && virtual == old(virtual) && all <= old(all) && beats == old(beats)
      ensures Drained(old(queue), queue, locals, old(beats))
      ensures Total(queue) <= config.globalQueue || forall a :: a in queue ==> a in locals
      ensures Total(old(queue)) <= config.globalQueue ==> queue == old(queue) && all == old(all)
      ensures Total(old(queue)) > config.globalQueue ==> Total(queue) >= config.globalQueue
    {
      hide Covers, Consistent, NoneEmpty, Total, Draining, Drained, BeatsListed, SameElsewhere, LowPart;
      var queued := Count(queue);
      DrainedNothing(queue, locals, beats);
      if queued > config.globalQueue {
        var unsorted := CollectBeats();
        var addresses := Sort(unsorted, BeatKey);
        DrainStart(queue, locals, beats, unsorted, addresses);
        var drop := queued - config.globalQueue;
        DrainingIsDrained(queue, queue, locals, beats, addresses);
        while drop > 0 && |addresses| > 0
          invariant Valid() && pending == old(pending) && virtual == old(virtual) && beats == old(beats)
          invariant all <= old(all) && drop >= 0 && Total(queue) == config.globalQueue + drop
          invariant Drained(old(queue), queue, locals, beats)
          invariant drop > 0 ==> Draining(old(queue), queue, locals, beats, addresses)
          decreases |addresses|
        {
          var a := addresses[|addresses| - 1].addr;
          DrainNext(old(queue), queue, locals, beats, addresses);
          ghost var q := queue;
          var size := |queue[a].items|;
          if size <= drop {
            DropWholeQueue(a);
            DrainAll(old(queue), q, locals, beats, addresses, queue);
            DrainingIsDrained(old(queue), queue, locals, beats, addresses[..|addresses| - 1]);
            drop := drop - size;
          } else {
            DropQueueTail(a, drop);
            DrainSome(old(queue), q, locals, beats, addresses, queue);
            drop := 0;
          }
          addresses := addresses[..|addresses| - 1];
        }
        if drop > 0 {
          DrainingIsDrained(old(queue), queue, locals, beats, addresses);
        }
      }
    }

    method CollectBeats() returns (s: seq<Beat>)
      ensures BeatsListed(s, queue, locals, beats, {})
    {
      s := [];
      var todo := queue.Keys;
      while todo != {}
        invariant todo <= queue.Keys && BeatsListed(s, queue, locals, beats, todo)
        decreases todo
      {
        hide BeatsListed;
        var a :| a in todo;
        BeatsStep(s, queue, locals, beats, todo, a);
        if a !in locals {
          s := s + [BeatOf(beats, a)];
        }
        todo := todo - {a};
      }
    }

    /** The loop of `promoteExecutables` over the dirty accounts, in any order. */
    method PromoteAccounts(accounts: set<Address>, now: nat)
      requires Valid()
      modifies this`pending, this`queue, this`beats, this`virtual, this`all, priced, priced.items
      ensures Valid() && (old(Gapless()) ==> Gapless())
      ensures old(Settled(accounts)) ==> Settled({})
      ensures Kept(old(all), all, nonceOf, balanceOf, maxGas, locals)
      ensures Paced(old(pending), old(beats), pending, beats, now, now)
      ensures Capped(queue, accounts, locals, config.accountQueue)
      ensures Capped(old(queue), accounts, {}, config.accountQueue) ==>
                Outdated(old(all), all, nonceOf, balanceOf, maxGas)
    {
      hide Covers, Consistent, AllContiguous, NoneEmpty, Idle, Trimmed, Kept, Capped, SameElsewhere, PartOf, IdleAt;
      hide Outdated, ListOf, Paced;
      PacedNothing(pending, beats);
      PacedAnyway(pending, beats, pending, beats, now, now);
      NothingLost(all, nonceOf, balanceOf, maxGas);
      KeptAll(all, nonceOf, balanceOf, maxGas, locals);
      CappedNone(queue, locals, config.accountQueue);
      var todo := accounts;
      while todo != {}
        invariant todo <= accounts && Valid() && (old(Gapless()) ==> Gapless())
        invariant old(Settled(accounts)) ==> Settled(todo)
        invariant Kept(old(all), all, nonceOf, balanceOf, maxGas, locals)
        invariant Paced(old(pending), old(beats), pending, beats, now, now)
        invariant Capped(queue, accounts - todo, locals, config.accountQueue)
        invariant Capped(old(queue), accounts, {}, config.accountQueue) ==>
                    Capped(queue, todo, {}, config.accountQueue) && Outdated(old(all), all, nonceOf, balanceOf, maxGas)
        decreases todo
      {
        var a :| a in todo;
        ghost var p, b, q, v, known := pending, beats, queue, virtual, all;
        PromoteAccount(a, now);
        PacedOn(old(pending), old(beats), p, b, pending, beats, now, now);
        KeptTrimmed(old(all), known, all, ListOf(q, a, false).items, a, nonceOf, balanceOf, maxGas, locals);
        CapMore(q, queue, accounts - todo, locals, config.accountQueue, a);
        if Capped(old(queue), accounts, {}, config.accountQueue) {
          CappedElsewhere(q, queue, todo, config.accountQueue, a);
          OutdatedMore(old(all), known, all, nonceOf, balanceOf, maxGas);
        }
        if Idle(q, v, nonceOf, todo) {
          IdleAfter(q, v, queue, virtual, nonceOf, todo, a);
        }
        assert accounts - (todo - {a}) == accounts - todo + {a};
        todo := todo - {a};
      }
      assert accounts - todo == accounts;
    }

    /** Move executable transactions of these accounts to pending, then enforce the pool limits. */
    method PromoteExecutables(accounts: set<Address>, now: nat)
      requires Valid()
      modifies this`pending, this`queue, this`beats, this`virtual, this`all, priced, priced.items
      ensures Valid() && (old(Gapless()) ==> Gapless())
      ensures old(Gapless()) && old(Settled(accounts)) ==> Settled({})
      ensures all <= old(all) && Kept(old(all), all, nonceOf, balanceOf, maxGas, locals)
      ensures Paced(old(pending), old(beats), pending, beats, now, now)
      ensures Capped(queue, accounts, locals, config.accountQueue)
      ensures Within(pending, queue, locals, config.accountSlots, config.globalSlots, config.globalQueue)
      ensures Roomy(|old(all)|) ==> Outdated(old(all), all, nonceOf, balanceOf, maxGas)
    {
      hide Covers, Consistent, AllContiguous, NoneEmpty, Idle, Kept, Capped, Evicted, Fair, Drained, Total, Outdated;
      hide Paced, Unpromoted;
      if Roomy(|all|) {
        Fits(pending, queue, all, |all|);
        CappedSome(queue, accounts, |all|, config.accountQueue);
      }
      PromoteAccounts(accounts, now);
      if Roomy(|old(all)|) {
        OutdatedFewer(old(all), all, nonceOf, balanceOf, maxGas);
        Fits(pending, queue, all, |all|);
      }
      ghost var p, q, v, known := pending, queue, virtual, all;
      EvictPending();
      PacedAnyway(p, beats, pending, beats, now, now);
      PacedOn(old(pending), old(beats), p, beats, pending, beats, now, now);
      EvictionKept(p, pending, queue, known, all, config.accountSlots, nonceOf, balanceOf, maxGas, locals);
      KeptTrans(old(all), known, all, nonceOf, balanceOf, maxGas, locals);
      if old(Gapless()) && old(Settled(accounts)) {
        IdleAfterEviction(p, pending, queue, known, v, virtual, nonceOf, locals, config.accountSlots);
      }
      ghost var beat := beats;
      known := all;
      EvictQueue();
      DrainKept(pending, q, queue, known, all, beat, nonceOf, balanceOf, maxGas, locals);
      KeptTrans(old(all), known, all, nonceOf, balanceOf, maxGas, locals);
      CapDrained(q, queue, accounts, locals, beat, config.accountQueue);
      if old(Gapless()) && old(Settled(accounts)) {
        IdleDrained(q, queue, locals, beat, virtual, nonceOf);
      }
    }

    /** Remove transactions one after the other; unknown ones are ignored. */
    method RemoveTxs(txs: seq<Tx>)
      requires Coherent()
      modifies this`pending, this`queue, this`beats, this`virtual, this`all, priced, priced.items
      ensures Coherent() && all == old(all) - ToSet(txs)
      ensures Unpromoted(old(pending), old(beats), pending, beats)
      ensures old(Gapless()) ==> Gapless()
      ensures forall except :: old(Settled(except)) ==> Settled(except)
    {
      hide Covers, Consistent, AllContiguous, NoneEmpty, Idle, List.Remove, Lowered, Unpromoted;
      PacedNothing(pending, beats);
      for i := 0 to |txs|
        invariant Coherent() && all == old(all) - ToSet(txs[..i])
        invariant Unpromoted(old(pending), old(beats), pending, beats)
        invariant old(Gapless()) ==> Gapless()
        invariant forall except :: old(Settled(except)) ==> Settled(except)
      {
        ghost var p, b := pending, beats;
        RemoveTx(txs[i]);
        UnpromotedOn(old(pending), old(beats), p, b, pending, beats);
        assert txs[..i + 1] == txs[..i] + [txs[i]];
      }
      assert txs[..|txs|] == txs;
    }

    /** Remove transactions that the price heap has already given up. */
    method RemoveCheap(drop: seq<Tx>)
      requires unpriced == {} && Books(ToSet(drop))
      modifies this`unpriced, this`pending, this`queue, this`beats, this`virtual, this`all, priced, priced.items
      ensures Valid() && all == old(all) - ToSet(drop)
      ensures Unpromoted(old(pending), old(beats), pending, beats)
      ensures old(Gapless()) ==> Gapless()
      ensures forall except :: old(Settled(except)) ==> Settled(except)
    {
      hide Covers, Consistent, AllContiguous, NoneEmpty, Idle, ToSet, Unpromoted;
      unpriced := ToSet(drop);
      label Marked:
      RemoveTxs(drop);
      assert all - unpriced == all && all - {} == all;
      label Removed:
      unpriced := {};
      forall except | old(Settled(except)) ensures Settled(except) {
        assert old@Marked(Settled(except)) && old@Removed(Settled(except));
      }
    }

    /** Raise or lower the price floor; exactly the remote transactions below it go. */
    method SetGasPrice(price: int)
      requires Valid()
      modifies this`gasPrice, this`unpriced, this`pending, this`queue, this`beats, this`virtual, this`all
      modifies priced, priced.items
      ensures Valid() && gasPrice == price
      ensures all == old(all) - RemoteBelow(old(all), price, locals)
      ensures old(Priceworthy()) ==> Priceworthy()
      ensures Unpromoted(old(pending), old(beats), pending, beats)
      ensures old(Gapless()) ==> Gapless()
      ensures forall except :: old(Settled(except)) ==> Settled(except)
    {
      hide Covers, Consistent, AllContiguous, NoneEmpty, Idle, ToSet, RemoteBelow, Screened, Unpromoted;
      ScreenedAgain(all, all - RemoteBelow(all, price, locals), gasPrice, price, locals);
      gasPrice := price;
      assert all - {} == all;
      var drop := priced.Cap(price, all, locals);
      RemoveCheap(drop);
    }

    function Rulebook(): Rules
      reads this
    {
      Rules(gasPrice, maxGas, nonceOf, balanceOf, locals)
    }

    /** In a full pool, refuse a transaction no dearer than the cheapest, or drop the cheapest. */
    method MakeRoom(tx: Tx) returns (ok: bool)
      requires Valid()
      modifies this`unpriced, this`pending, this`queue, this`beats, this`virtual, this`all, priced, priced.items
      ensures Valid()
      ensures ok <==> !(|old(all)| >= config.globalSlots + config.globalQueue && tx.from !in locals && old(all) != {} &&
                        IsCheapest(tx, old(all)))
      ensures !ok || |old(all)| < config.globalSlots + config.globalQueue ==>
                all == old(all) && pending == old(pending) && queue == old(queue) && virtual == old(virtual)
      ensures MadeRoom(old(all), all, locals)
      ensures ok && |old(all)| >= config.globalSlots + config.globalQueue ==>
                all < old(all) || forall t :: t in old(all) ==> t.from in locals
      ensures ok && |old(all)| >= config.globalSlots + config.globalQueue ==>
                |all| >= config.globalSlots + config.globalQueue - 1
      ensures Unpromoted(old(pending), old(beats), pending, beats)
      ensures old(Gapless()) ==> Gapless()
      ensures forall except :: old(Settled(except)) ==> Settled(except)
    {
      hide Covers, Consistent, NoneEmpty, Gapless, Settled, IsCheapest, MadeRoom, Unpromoted;
      PacedNothing(pending, beats);
      RoomForFree(all, locals);
      if |all| < config.globalSlots + config.globalQueue {
        return true;
      }
      assert all - {} == all;
      var cheap := priced.Underpriced(tx, all, locals);
      if cheap {
        return false;
      }
      GiveWay();
      return true;
    }

    /** Drop the cheapest remote transactions until there is room for one more. */
    method GiveWay()
      requires Valid() && |all| >= config.globalSlots + config.globalQueue
      modifies this`unpriced, this`pending, this`queue, this`beats, this`virtual, this`all, priced, priced.items
      ensures Valid() && MadeRoom(old(all), all, locals)
      ensures all < old(all) || forall t :: t in old(all) ==> t.from in locals
      ensures |all| >= config.globalSlots + config.globalQueue - 1
      ensures Unpromoted(old(pending), old(beats), pending, beats)
      ensures old(Gapless()) ==> Gapless()
      ensures forall except :: old(Settled(except)) ==> Settled(except)
    {
      hide Covers, Consistent, NoneEmpty, Gapless, Settled, ToSet, MadeRoom, Unpromoted;
      assert all - {} == all;
      var drop := priced.Discard(|all| - (config.globalSlots + config.globalQueue - 1), all, locals);
      RoomFromDrop(all, drop, locals);
      RemoveCheap(drop);
    }

    /** Put a new transaction in place of the pending one at its nonce. */
    method Overtake(tx: Tx) returns (r: Outcome)
      requires Valid() && Occupied(pending, tx.from, tx.nonce)
      modifies this`pending, this`all, priced, priced.items
      ensures Valid() && (r == Accepted(true) || r == Refused(ReplaceUnderpriced))
      ensures r.Accepted? <==> Beats(tx, old(all), config.priceBump)
      ensures if r.Accepted? then TookPlace(old(all), all, tx) && Outdid(tx, old(all))
              else all == old(all) && pending == old(pending)
      ensures tx !in old(all) ==> |all| >= |old(all)|
      ensures Unpromoted(old(pending), beats, pending, beats) && (old(Gapless()) ==> Gapless())
    {
      hide Covers, Consistent, AllContiguous, NoneEmpty, List.Add, TookPlace, Swapped, Outbids, Beats;
      AddVerdict(pending, queue, all, tx, config.priceBump);
      PacedNothing(pending, beats);
      hide Unpromoted;
      match pending[tx.from].Add(tx, config.priceBump) {
        case Rejected =>
          return Refused(ReplaceUnderpriced);
        case Added(l, prev) =>
          PendingReplaced(pending, queue, all, virtual, nonceOf, tx, config.priceBump);
          PendingOutdone(pending, queue, all, tx, config.priceBump);
          ReplacedLess(pending, beats, tx, config.priceBump);
          SwapKeepsSize(all, tx);
          SwappedSome(all, prev.value, tx);
          pending := pending[tx.from := l];
          Unpool(prev.value);
          Pool(tx);
          return Accepted(true);
      }
    }

    /** Put a new transaction in place of a pending one, or in the queue. */
    method Insert(tx: Tx, local: bool) returns (r: Outcome)
      requires Valid()
      modifies this`pending, this`queue, this`all, this`locals, priced, priced.items
      ensures Valid() && (r.Accepted? || r == Refused(ReplaceUnderpriced))
      ensures r.Accepted? <==> Beats(tx, old(all), config.priceBump)
      ensures r.Refused? ==> all == old(all) && pending == old(pending) && queue == old(queue) && locals == old(locals)
      ensures r.Accepted? ==> TookPlace(old(all), all, tx)
      ensures tx !in old(all) ==> |all| >= |old(all)|
      ensures local && r.Accepted? && tx.from !in locals ==> Outdid(tx, old(all))
      ensures Unpromoted(old(pending), beats, pending, beats)
      ensures locals == if local && r.Accepted? && !Occupied(old(pending), tx.from, tx.nonce)
                        then old(locals) + {tx.from} else old(locals)
      ensures old(Gapless()) ==> Gapless()
      ensures forall except :: old(Settled(except)) ==>
                Settled(except + {tx.from}) && (r == Accepted(false) || Settled(except))
    {
      hide Covers, Consistent, AllContiguous, NoneEmpty, Idle, List.Add, TookPlace, Swapped, Outbids, Beats, Unpromoted;
      InsertSettles(queue, virtual, nonceOf, tx, config.priceBump);
      if tx.from in pending && tx.nonce in pending[tx.from].items {
        r := Overtake(tx);
        return;
      }
      AddVerdict(pending, queue, all, tx, config.priceBump);
      SwapKeepsSize(all, tx);
      PacedNothing(pending, beats);
      if ListOf(queue, tx.from, false).Add(tx, config.priceBump).Added? {
        Enqueued(pending, queue, all, tx, config.priceBump);
      }
      var replaced, rejected := EnqueueTx(tx);
      if rejected {
        return Refused(ReplaceUnderpriced);
      }
      if local {
        locals := locals + {tx.from};
      }
      return Accepted(replaced);
    }

    /** Validate a transaction and take it into the pool. */
    method Add(tx: Tx, local: bool, signed: bool, wellFormed: bool) returns (r: Outcome)
      requires Valid()
      modifies this`unpriced, this`pending, this`queue, this`beats, this`virtual, this`all, this`locals
      modifies priced, priced.items
      ensures Valid() && (old(Gapless()) ==> Gapless())
      ensures forall except :: old(Settled(except)) ==>
                Settled(except + {tx.from}) && (r == Accepted(false) || Settled(except))
      ensures Unpromoted(old(pending), old(beats), pending, beats)
      ensures Admits(r, tx, local, signed, wellFormed, old(Rulebook()), old(all), all, locals,
                     config.globalSlots + config.globalQueue, config.priceBump)
      ensures r.Refused? && r.why != ReplaceUnderpriced ==>
                pending == old(pending) && queue == old(queue) && virtual == old(virtual)
    {
      hide Valid, Gapless, Settled, Fares, Eligible, Fault, VerdictOf, Unpromoted;
      PacedNothing(pending, beats);
      VerdictMeans(tx, local, signed, wellFormed, Rulebook());
      var verdict := VerdictOf(tx, local, signed, wellFormed, Rulebook());
      if tx in all || verdict.Some? {
        forall except | Settled(except) ensures Settled(except + {tx.from}) {
          SettledMore(except, tx.from);
        }
        return Refused(if tx in all then Known else verdict.value);
      }
      r := TakeIn(tx, local);
    }

    lemma SettledMore(except: set<Address>, a: Address)
      requires Settled(except)
      ensures Settled(except + {a})
    {
      IdleMore(queue, virtual, nonceOf, except, {a});
    }

    /** Take a valid transaction in, if there is room for it. */
    method TakeIn(tx: Tx, local: bool) returns (r: Outcome)
      requires Valid() && tx !in all
      modifies this`unpriced, this`pending, this`queue, this`beats, this`virtual, this`all, this`locals
      modifies priced, priced.items
      ensures Valid() && (old(Gapless()) ==> Gapless())
      ensures forall except :: old(Settled(except)) ==>
                Settled(except + {tx.from}) && (r == Accepted(false) || Settled(except))
      ensures Unpromoted(old(pending), old(beats), pending, beats)
      ensures Fares(r, tx, local, old(all), all, old(locals), locals, config.globalSlots + config.globalQueue,
                    config.priceBump)
      ensures r.Refused? && r.why != ReplaceUnderpriced ==>
                pending == old(pending) && queue == old(queue) && virtual == old(virtual)
    {
      hide Valid, Gapless, Settled, IsCheapest, MadeRoom, TookPlace, Beats, Fares, Outdid, Unpromoted;
      var ok := MakeRoom(tx);
      label Roomier:
      if !ok {
        FaresBadly(tx, local, all, locals, config.globalSlots + config.globalQueue, config.priceBump);
        forall except | old(Settled(except)) ensures Settled(except + {tx.from}) && Settled(except) {
          SettledMore(except, tx.from);
        }
        return Refused(Underpriced);
      }
      ghost var known, occupied := all, Occupied(pending, tx.from, tx.nonce);
      SubsetOfRoom(old(all), known, locals);
      ghost var p := pending;
      r := Insert(tx, local);
      UnpromotedOn(old(pending), old(beats), p, beats, pending, beats);
      FaresOn(r, tx, local, old(all), known, all, old(locals), locals, config.globalSlots + config.globalQueue,
              config.priceBump, occupied);
      forall except | old(Settled(except))
        ensures Settled(except + {tx.from}) && (r == Accepted(false) || Settled(except))
      {
        assert old@Roomier(Settled(except));
      }
    }

    /** Add a batch, then promote the accounts that got something new. */
    method AddTxs(txs: seq<Tx>, local: bool, signed: Tx -> bool, wellFormed: Tx -> bool, now: nat)
      returns (outcomes: seq<Outcome>)
      requires Valid()
      modifies this`unpriced, this`pending, this`queue, this`beats, this`virtual, this`all, this`locals
      modifies priced, priced.items
      ensures Valid() && |outcomes| == |txs|
      ensures old(Gapless()) ==> Gapless()
      ensures old(Gapless()) && old(Settled({})) ==> Settled({})
      ensures AllJustified(outcomes, txs, old(all), config.globalSlots + config.globalQueue, config.priceBump,
                           Verdicts(txs, local, signed, wellFormed, old(Rulebook())))
      ensures Roomy(|old(all)| + |txs|) ==>
                && Survived(old(all), all, txs, outcomes, nonceOf, balanceOf, maxGas) && |all| <= |old(all)| + |txs|
                && Welcomes(old(all), all, txs, local, signed, wellFormed, old(Rulebook()))
      ensures all <= old(all) + Members(txs) && old(locals) <= locals && (local || locals == old(locals))
      ensures old(Priceworthy()) ==> Priceworthy()
      ensures Paced(old(pending), old(beats), pending, beats, now, now)
      ensures GotNew(outcomes) ==>
                Within(pending, queue, locals, config.accountSlots, config.globalSlots, config.globalQueue)
      ensures Executed(txs, nonceOf) ==>
                && all == old(all) && pending == old(pending) && queue == old(queue) && virtual == old(virtual)
                && locals == old(locals)
    {
      hide Covers, Consistent, AllContiguous, NoneEmpty, Idle, Outdated, Survived, Traced, AllJustified, Within;
      hide Screened, Welcomes, Verdicts, Paced, Unpromoted;
      var dirty;
      outcomes, dirty := AddEach(txs, local, signed, wellFormed);
      ghost var known, p, b := all, pending, beats;
      PacedAnyway(old(pending), old(beats), p, b, now, now);
      NothingLost(all, nonceOf, balanceOf, maxGas);
      if dirty != {} {
        PromoteExecutables(dirty, now);
        PacedOn(old(pending), old(beats), p, b, pending, beats, now, now);
      }
      ScreenedFewer(known, all, gasPrice, locals);
      if Roomy(|old(all)| + |txs|) {
        OutdatedFewer(known, all, nonceOf, balanceOf, maxGas);
        TracedSurvives(old(all), known, all, txs, outcomes, nonceOf, balanceOf, maxGas);
        BatchWelcomes(old(all), all, txs, outcomes, local, signed, wellFormed, old(Rulebook()),
                      config.globalSlots + config.globalQueue, config.priceBump);
      }
    }

    /** The loop over a batch. */
    method AddEach(txs: seq<Tx>, local: bool, signed: Tx -> bool, wellFormed: Tx -> bool)
      returns (outcomes: seq<Outcome>, dirty: set<Address>)
      requires Valid()
      modifies this`unpriced, this`pending, this`queue, this`beats, this`virtual, this`all, this`locals
      modifies priced, priced.items
      ensures Valid() && |outcomes| == |txs| && (old(Gapless()) ==> Gapless())
      ensures (old(Settled({})) ==> Settled(dirty)) && (GotNew(outcomes) ==> dirty != {})
      ensures AllJustified(outcomes, txs, old(all), config.globalSlots + config.globalQueue, config.priceBump,
                           Verdicts(txs, local, signed, wellFormed, old(Rulebook())))
      ensures Roomy(|old(all)| + |txs|) ==>
                Traced(old(all), all, txs, outcomes) && |all| <= |old(all)| + |txs|
      ensures all <= old(all) + Members(txs) && (old(Priceworthy()) ==> Priceworthy())
      ensures old(locals) <= locals && (local || locals == old(locals))
      ensures Unpromoted(old(pending), old(beats), pending, beats)
      ensures |all| >= |old(all)| || |all| >= config.globalSlots + config.globalQueue - 1
      ensures Executed(txs, nonceOf) ==>
                && all == old(all) && pending == old(pending) && queue == old(queue) && virtual == old(virtual)
                && locals == old(locals) && dirty == {}
    {
      hide Valid, Gapless, Settled, Traced, AllJustified, Batched, Progress, Members;
      hide Verdicts, VerdictOf, GotNew, Executed, Screened, Unpromoted;
      PacedNothing(pending, beats);
      outcomes, dirty := [], {};
      ghost var limit := config.globalSlots + config.globalQueue;
      ghost var verdicts := Verdicts(txs, local, signed, wellFormed, Rulebook());
      VerdictCount(txs, local, signed, wellFormed, Rulebook());
      BatchedStart(all, txs, limit, config.priceBump, verdicts);
      NoneNew();
      for i := 0 to |txs|
        invariant Valid() && |outcomes| == i && (old(Gapless()) ==> Gapless())
        invariant (old(Settled({})) ==> Settled(dirty)) && (GotNew(outcomes) ==> dirty != {})
        invariant old(locals) <= locals && (local || locals == old(locals))
        invariant Batched(outcomes, txs, old(all), all, limit, config.priceBump, verdicts)
        invariant old(Priceworthy()) ==> Priceworthy()
        invariant Unpromoted(old(pending), old(beats), pending, beats)
        invariant |all| >= |old(all)| || |all| >= config.globalSlots + config.globalQueue - 1
        invariant Executed(txs, nonceOf) ==>
                    && all == old(all) && pending == old(pending) && queue == old(queue) && virtual == old(virtual)
                    && locals == old(locals) && dirty == {}
      {
        ghost var known := all;
        VerdictAt(txs, local, signed, wellFormed, old(Rulebook()), locals, i);
        if Executed(txs, nonceOf) {
          ExecutedAt(txs, nonceOf, i);
        }
        ghost var p, b := pending, beats;
        var r;
        r, dirty := AddDirty(txs[i], local, signed(txs[i]), wellFormed(txs[i]), dirty);
        UnpromotedOn(old(pending), old(beats), p, b, pending, beats);
        NewNext(outcomes, r);
        BatchedNext(old(all), known, all, txs, outcomes, r, limit, config.priceBump, verdicts);
        outcomes := outcomes + [r];
      }
      BatchedEnd(old(all), all, txs, outcomes, limit, config.priceBump, verdicts);
    }

    /** Add one transaction of a batch; accounts that got something new are dirty. */
    method AddDirty(tx: Tx, local: bool, signed: bool, wellFormed: bool, dirty: set<Address>)
      returns (r: Outcome, more: set<Address>)
      requires Valid()
      modifies this`unpriced, this`pending, this`queue, this`beats, this`virtual, this`all, this`locals
      modifies priced, priced.items
      ensures Valid() && (old(Gapless()) ==> Gapless()) && (old(Settled(dirty)) ==> Settled(more))
      ensures more == if r == Accepted(false) then dirty + {tx.from} else dirty
      ensures Progress(r, tx, old(all), all, config.globalSlots + config.globalQueue, config.priceBump,
                       VerdictOf(tx, local, signed, wellFormed, old(Rulebook())))
      ensures old(locals) <= locals && (local || locals == old(locals))
      ensures Unpromoted(old(pending), old(beats), pending, beats)
      ensures old(Priceworthy()) ==> Priceworthy()
      ensures |all| >= |old(all)| || |all| >= config.globalSlots + config.globalQueue - 1
      ensures tx.nonce < nonceOf(tx.from) ==>
                && all == old(all) && pending == old(pending) && queue == old(queue) && virtual == old(virtual)
                && locals == old(locals) && more == dirty
    {
      hide Valid, Gapless, Settled, Admits, VerdictOf, Screened, Eligible, Progress, Unpromoted;
      r := Add(tx, local, signed, wellFormed);
      AdmitsMeans(r, tx, local, signed, wellFormed, old(Rulebook()), old(all), all, locals,
                  config.globalSlots + config.globalQueue, config.priceBump);
      more := if r == Accepted(false) then dirty + {tx.from} else dirty;
    }

    /** Drop the whole queue of every non-local account that was silent for too long. */
    method Expire(now: nat)
      requires Valid()
      modifies this`pending, this`queue, this`beats, this`virtual, this`all, priced, priced.items
      ensures Valid() && pending == old(pending) && virtual == old(virtual) && all <= old(all)
      ensures queue == old(queue) - Silent(old(queue), old(beats), locals, now, config.lifetime) && beats == old(beats)
      ensures Heard(pending, beats) ==>
                forall a :: a in old(queue) ==>
                  (a !in queue <==> a !in locals && (a !in pending || beats[a] + config.lifetime < now))
      ensures old(Gapless()) ==> Gapless()
      ensures old(Settled({})) ==> Settled({})
    {
      hide Covers, Consistent, AllContiguous, NoneEmpty, Idle, Total;
      var todo := queue.Keys;
      ghost var gone: set<Address> := {};
      while todo != {}
        invariant todo <= queue.Keys && gone !! todo && todo <= old(queue).Keys
        invariant Valid() && pending == old(pending) && virtual == old(virtual) && all <= old(all) &&
                  beats == old(beats)
        invariant queue == old(queue) - gone
        invariant forall a :: a in gone <==> a in old(queue) && a !in todo && a !in locals &&
                                             IsSilent(old(beats), a, now, config.lifetime)
        decreases todo
      {
        var a :| a in todo;
        if a !in locals && IsSilent(beats, a, now, config.lifetime) {
          DropWholeQueue(a);
          gone := gone + {a};
        }
        todo := todo - {a};
      }
      if old(Settled({})) {
        ExpiredIdle(old(queue), gone, virtual, nonceOf);
      }
    }

    method DemoteUnexecutables()
      requires Valid()
      modifies this`pending, this`queue, this`beats, this`all, priced, priced.items
      ensures Valid() && Demoting(old(pending), pending, nonceOf, balanceOf, maxGas, {})
      ensures RetainsAll(old(pending), pending, nonceOf, balanceOf, maxGas, {})
      ensures Unpromoted(old(pending), old(beats), pending, beats)
      ensures Outdated(old(all), all, nonceOf, balanceOf, maxGas)
    {
      hide Covers, Consistent, NoneEmpty, Demoting, Demoted, Outdated, SameElsewhere, RetainsAll, Retains, Unpromoted;
      PacedNothing(pending, beats);
      var todo := pending.Keys;
      RetainsNone(pending, nonceOf, balanceOf, maxGas);
      DemotingStart(pending, all, nonceOf, balanceOf, maxGas);
      while todo != {}
        invariant Priced() && Consistent(pending, queue, all, 0, map[]) && NoneEmpty(queue) && unpriced == {}
        invariant Demoting(old(pending), pending, nonceOf, balanceOf, maxGas, todo)
        invariant RetainsAll(old(pending), pending, nonceOf, balanceOf, maxGas, todo)
        invariant Unpromoted(old(pending), old(beats), pending, beats)
        invariant Outdated(old(all), all, nonceOf, balanceOf, maxGas)
        decreases todo
      {
        var a :| a in todo;
        DemotingNext(old(pending), pending, nonceOf, balanceOf, maxGas, todo, a);
        ghost var p, b, known := pending, beats, all;
        Retag(pending, queue, all, 0, a);
        DemoteAccount(a);
        UnpromotedOn(old(pending), old(beats), p, b, pending, beats);
        Retag(pending, queue, all, a, 0);
        DemotingStep(old(pending), p, pending, nonceOf, balanceOf, maxGas, todo, a);
        RetainsMore(old(pending), p, pending, nonceOf, balanceOf, maxGas, todo, a);
        OutdatedMore(old(all), known, all, nonceOf, balanceOf, maxGas);
        todo := todo - {a};
      }
      DemotedNonEmpty(old(pending), pending, nonceOf, balanceOf, maxGas);
    }

    /** Put every account's virtual nonce just past its pending list. */
    method RenumberPending()
      requires NoneEmpty(pending)
      modifies this`virtual
      ensures old(virtual) == map[] ==> Renumbered(pending, virtual, {})
    {
      var todo := pending.Keys;
      while todo != {}
        invariant todo <= pending.Keys
        invariant old(virtual) == map[] ==> Renumbered(pending, virtual, todo)
        decreases todo
      {
        var a :| a in todo;
        virtual := virtual[a := MaxNonce(pending[a].items) + 1];
        todo := todo - {a};
      }
    }

    /** A new chain head: take over its state, reinject what a reorg discarded, demote, promote. */
    method Reset(nonces: Address -> nat, balances: Address -> int, gasLimit: nat, reinject: seq<Tx>,
                 signed: Tx -> bool, wellFormed: Tx -> bool, now: nat)
      requires Valid()
      modifies this`nonceOf, this`balanceOf, this`maxGas
      modifies this`unpriced, this`pending, this`queue, this`beats, this`virtual, this`all, this`locals
      modifies priced, priced.items
      ensures Valid() && nonceOf == nonces && balanceOf == balances && maxGas == gasLimit && locals == old(locals)
      ensures Within(pending, queue, locals, config.accountSlots, config.globalSlots, config.globalQueue)
      ensures old(Gapless()) && (forall a :: old(nonceOf)(a) <= nonces(a)) && Executed(reinject, nonces) ==>
                Gapless() && Settled({})
      ensures Executed(reinject, nonces) && Roomy(|old(all)|) ==> Outdated(old(all), all, nonces, balances, gasLimit)
      ensures Roomy(|old(all)| + |reinject|) ==>
                Welcomes(old(all), all, reinject, false, signed, wellFormed,
                         Rules(gasPrice, gasLimit, nonces, balances, old(locals)))
      ensures all <= old(all) + Members(reinject)
      ensures old(Priceworthy()) ==> Priceworthy()
      ensures Paced(old(pending), old(beats), pending, beats, now, now)
    {
      hide Valid, Settled, Paced, Outdated, Within, WasContiguous, Executed, Survived, AllJustified, Welcomes;
      hide Screened, Members, AllContiguous;
      NoLower(pending, virtual, nonceOf, nonces);
      nonceOf, balanceOf, maxGas := nonces, balances, gasLimit;
      virtual := map[];
      hide Gapless;
      ghost var rules := Rulebook();
      var _ := AddTxs(reinject, false, signed, wellFormed, now);
      ghost var p, b, added := pending, beats, all;
      Rebuild(now);
      PacedOn(old(pending), old(beats), p, b, pending, beats, now, now);
      ScreenedFewer(added, all, gasPrice, locals);
      if Roomy(|old(all)| + |reinject|) {
        WelcomedStay(old(all), added, all, reinject, false, signed, wellFormed, rules);
      }
    }

    /** The part of `reset` after reinjection: demote, renumber, promote. */
    method Rebuild(now: nat)
      requires Valid()
      modifies this`pending, this`queue, this`beats, this`virtual, this`all, priced, priced.items
      ensures Valid()
      ensures Within(pending, queue, locals, config.accountSlots, config.globalSlots, config.globalQueue)
      ensures old(virtual) == map[] && WasContiguous(old(pending), nonceOf) ==> Gapless() && Settled({})
      ensures all <= old(all)
      ensures Paced(old(pending), old(beats), pending, beats, now, now)
      ensures Roomy(|old(all)|) ==> Outdated(old(all), all, nonceOf, balanceOf, maxGas)
    {
      hide Valid, Gapless, Settled, Paced, Unpromoted, Within, WasContiguous, Outdated, Demoting, RetainsAll;
      DemoteUnexecutables();
      ghost var p, b, known := pending, beats, all;
      Readjust(now, old(pending));
      PacedAnyway(old(pending), old(beats), p, b, now, now);
      PacedOn(old(pending), old(beats), p, b, pending, beats, now, now);
      OutdatedFewer(old(all), known, nonceOf, balanceOf, maxGas);
      if Roomy(|old(all)|) {
        OutdatedMore(old(all), known, all, nonceOf, balanceOf, maxGas);
      }
    }

    /** The last part of `reset`, after demotion. */
    method Readjust(now: nat, ghost p0: Lists)
      requires Valid() && Demoting(p0, pending, nonceOf, balanceOf, maxGas, {})
      modifies this`pending, this`queue, this`beats, this`virtual, this`all, priced, priced.items
      ensures Valid()
      ensures Within(pending, queue, locals, config.accountSlots, config.globalSlots, config.globalQueue)
      ensures old(virtual) == map[] && WasContiguous(p0, nonceOf) ==> Gapless() && Settled({})
      ensures all <= old(all)
      ensures Paced(old(pending), old(beats), pending, beats, now, now)
      ensures Roomy(|old(all)|) ==> Outdated(old(all), all, nonceOf, balanceOf, maxGas)
    {
      hide Outdated;
      hide Covers, Consistent, AllContiguous, NoneEmpty, Idle, Demoting, Renumbered, Kept, Capped, Within;
      hide WasContiguous, Paced;
      DemotedNonEmpty(p0, pending, nonceOf, balanceOf, maxGas);
      RenumberPending();
      if old(virtual) == map[] && WasContiguous(p0, nonceOf) {
        ContiguousAgain(p0, pending, virtual, nonceOf, balanceOf, maxGas);
      }
      UnqueuedIdle(queue, virtual, nonceOf);
      PromoteExecutables(queue.Keys, now);
    }

    ghost function Now(): Moment
      reads this
    {
      Moment(all, pending, queue, beats, Rulebook())
    }

    /** One operation of a run. */
    method Take(op: Op)
      requires Valid()
      modifies this, priced, priced.items
      ensures Valid() && Follows(op, old(Now()), Now(), config) && nonceOf == NoncesAfter(op, old(nonceOf))
      ensures old(Gapless()) && old(Settled({})) && Forward(op, old(nonceOf)) ==> Gapless() && Settled({})
      ensures old(Priceworthy()) ==> Priceworthy()
      ensures if op.AddBatch? || op.NewHead? then Paced(old(pending), old(beats), pending, beats, op.now, op.now)
              else Unpromoted(old(pending), old(beats), pending, beats)
    {
      hide Coherent, Gapless, Settled, Within, Welcomes, Survived, AllJustified, Screened, Paced, Unpromoted, Silent;
      hide RemoteBelow, Members, ToSet, Executed, Outdated;
      PacedNothing(pending, beats);
      match op {
        case AddBatch(txs, local, signed, wellFormed, now) =>
          var _ := AddTxs(txs, local, signed, wellFormed, now);
        case Remove(txs) =>
          RemoveTxs(txs);
          ScreenedFewer(old(all), all, gasPrice, locals);
        case Reprice(price) =>
          SetGasPrice(price);
        case Tick(now) =>
          Expire(now);
          ScreenedFewer(old(all), all, gasPrice, locals);
        case NewHead(nonces, balances, gasLimit, reinject, signed, wellFormed, now) =>
          Reset(nonces, balances, gasLimit, reinject, signed, wellFormed, now);
      }
    }

    /** Any run of pool operations. While state nonces do not go backwards and reorgs reinject
        only transactions whose nonces are used up, every account's pending nonces stay an
        unbroken interval up to its virtual nonce and nothing executable waits in the queue. Nothing
        remote is ever below the price floor. Heartbeats follow the promotions. */
    method Run(ops: seq<Op>) returns (ghost trace: seq<Moment>)
      requires Valid()
      modifies this, priced, priced.items
      ensures Valid() && ((forall i :: 0 <= i < |ops| ==> !ops[i].NewHead?) ==> nonceOf == old(nonceOf))
      ensures old(Gapless()) && old(Settled({})) && Onward(ops, old(nonceOf)) ==> Gapless() && Settled({})
      ensures old(Priceworthy()) ==> Priceworthy()
      ensures forall from, to :: Clocked(ops, from, to) ==> Paced(old(pending), old(beats), pending, beats, from, to)
      ensures |trace| == |ops| + 1 && trace[0] == old(Now()) && trace[|ops|] == Now()
      ensures forall i :: 0 <= i < |ops| ==> Follows(ops[i], trace[i], trace[i + 1], config)
    {
      hide Valid, Gapless, Settled, Priceworthy, Paced, Unpromoted, Clocked, Follows, Forward, Rulebook;
      PacedNothing(pending, beats);
      forall from, to ensures Paced(old(pending), old(beats), pending, beats, from, to) {
        PacedAnyway(pending, beats, pending, beats, from, to);
      }
      trace := [Now()];
      for i := 0 to |ops|
        invariant Valid() && ((forall i :: 0 <= i < |ops| ==> !ops[i].NewHead?) ==> nonceOf == old(nonceOf))
        invariant old(Gapless()) && old(Settled({})) && Onward(ops, old(nonceOf)) ==>
                    Gapless() && Settled({}) && Onward(ops[i..], nonceOf)
        invariant old(Priceworthy()) ==> Priceworthy()
        invariant forall from, to ::
                    Clocked(ops, from, to) ==> Paced(old(pending), old(beats), pending, beats, from, to)
        invariant |trace| == i + 1 && trace[0] == old(Now()) && trace[i] == Now()
        invariant forall k :: 0 <= k < i ==> Follows(ops[k], trace[k], trace[k + 1], config)
      {
        assert ops[i..][0] == ops[i] && ops[i..][1..] == ops[i + 1..];
        ghost var p, b := pending, beats;
        Take(ops[i]);
        trace := trace + [Now()];
        forall from, to | Clocked(ops, from, to) ensures Paced(old(pending), old(beats), pending, beats, from, to) {
          ClockAt(ops, from, to, i, p, b, pending, beats);
          PacedOn(old(pending), old(beats), p, b, pending, beats, from, to);
        }
      }
    }

    /** Any run, then a look at the heartbeats no later than the lifetime after some time. Accounts
        promoted from that time on keep their queue as long as they have a pending list. */
    method RunThenExpire(ops: seq<Op>, from: nat, now: nat) returns (ghost waiting: Lists)
      requires Valid() && Heard(pending, beats) && Clocked(ops, from, now) && now <= from + config.lifetime
      modifies this, priced, priced.items
      ensures Valid() && Heard(pending, beats)
      ensures forall a :: a in waiting && a in pending && (a in old(pending) ==> old(beats)[a] >= from) ==>
                a in queue && queue[a] == waiting[a]
      ensures forall a :: a in waiting && a !in pending && a !in locals ==> a !in queue
    {
      hide Valid, Gapless, Settled, Priceworthy, Paced, Clocked, Onward, Follows;
      ghost var _ := Run(ops);
      waiting := queue;
      assert Paced(old(pending), old(beats), pending, beats, from, now);
      forall a | a in pending && (a in old(pending) ==> old(beats)[a] >= from)
        ensures Heard(pending, beats) && beats[a] >= from
      {
        StillHeard(old(pending), old(beats), pending, beats, from, now, a);
      }
      HeardStill(old(pending), old(beats), pending, beats, from, now);
      Expire(now);
    }
  }

  lemma HeardStill(p0: Lists, b0: map<Address, nat>, p: Lists, b: map<Address, nat>, from: nat, to: nat)
    requires Heard(p0, b0) && Paced(p0, b0, p, b, from, to)
    ensures Heard(p, b)
  {
  }

  lemma StillHeard(p0: Lists, b0: map<Address, nat>, p: Lists, b: map<Address, nat>, from: nat, to: nat, a: Address)
    requires Heard(p0, b0) && Paced(p0, b0, p, b, from, to) && a in p && (a in p0 ==> b0[a] >= from)
    ensures Heard(p, b) && b[a] >= from
  {
    hide Gained;
  }

  lemma ClockAt(ops: seq<Op>, from: nat, to: nat, i: nat, p0: Lists, b0: map<Address, nat>, p: Lists,
                b: map<Address, nat>)
    requires i < |ops| && Clocked(ops, from, to)
    requires if ops[i].AddBatch? || ops[i].NewHead? then Paced(p0, b0, p, b, ops[i].now, ops[i].now)
             else Unpromoted(p0, b0, p, b)
    ensures Paced(p0, b0, p, b, from, to)
  {
    hide Paced, Unpromoted;
    if ops[i].AddBatch? || ops[i].NewHead? {
      PacedWider(p0, b0, p, b, ops[i].now, ops[i].now, from, to);
    } else {
      PacedAnyway(p0, b0, p, b, from, to);
    }
  }

  lemma UnpromotedOn(p0: Lists, b0: map<Address, nat>, p1: Lists, b1: map<Address, nat>, p: Lists,
                     b: map<Address, nat>)
    requires Unpromoted(p0, b0, p1, b1) && Unpromoted(p1, b1, p, b)
    ensures Unpromoted(p0, b0, p, b)
  {
    PacedOn(p0, b0, p1, b1, p, b, 1, 0);
  }

  lemma RemovedLess(p: Lists, b: map<Address, nat>, a: Address, nonce: nat)
    requires a in p
    ensures Unpromoted(p, b, p[a := p[a].Remove(nonce)], b) && Unpromoted(p, b, p - {a}, b - {a})
    ensures p[a := p[a].Remove(nonce)] - {a} == p - {a}
  {
    hide Unpromoted;
    PacedLess(p, b, a, p[a].Remove(nonce));
  }

  lemma ReplacedLess(p: Lists, b: map<Address, nat>, tx: Tx, bump: nat)
    requires Occupied(p, tx.from, tx.nonce) && p[tx.from].Add(tx, bump).Added?
    ensures Unpromoted(p, b, p[tx.from := p[tx.from].Add(tx, bump).list], b)
  {
    hide Unpromoted;
    PacedLess(p, b, tx.from, p[tx.from].Add(tx, bump).list);
  }

  lemma PromotedBeat(p0: Lists, p: Lists, v0: map<Address, nat>, v: map<Address, nat>, b0: map<Address, nat>,
                     a: Address, run: Items, lo: nat, end: nat, now: nat)
    requires Promoting(p0, p, v0, v, a, run, lo, end) && lo < end
    ensures Paced(p0, b0, p, Stamped(b0, a, now, true), now, now)
  {
    hide Paced;
    PacedMore(p0, b0, p, a, now);
  }

  lemma PayableLess(p: Lists, q: Lists, all: set<Tx>, b: map<Address, nat>, a: Address, n: nat, costLimit: int,
                    gasLimit: nat)
    requires Consistent(p, q, all, a, map[]) && a in p
    ensures Unpromoted(p, b, p[a := Payable(p[a], n, costLimit, gasLimit)], b) && Unpromoted(p, b, p - {a}, b - {a})
  {
    var l := Payable(p[a], n, costLimit, gasLimit);
    assert p[a].Valid() && p[a].strict;
    hide Consistent, Unpromoted, Payable;
    forall k | k in l.items ensures k in p[a].items {
      PayablePrefix(p[a], n, costLimit, gasLimit, k);
    }
    PacedLess(p, b, a, l);
  }

  lemma DrainedNothing(q: Lists, locals: set<Address>, beats: map<Address, nat>)
    ensures Drained(q, q, locals, beats)
  {
  }

  lemma DrainNext(q0: Lists, q: Lists, locals: set<Address>, beats: map<Address, nat>, left: seq<Beat>)
    requires Draining(q0, q, locals, beats, left) && |left| > 0
    ensures left[|left| - 1].addr in q
  {
    assert left[|left| - 1] in left;
  }

  lemma QueuedFacts(p: Lists, q: Lists, all: set<Tx>, a: Address)
    requires Consistent(p, q, all, 0, map[]) && a in q && NoneEmpty(q)
    ensures Keyed(q[a].items) && LowPart(q[a].items, q[a].items) && SameElsewhere(q, q, a) && q[a].items != map[]
  {
  }

  lemma FlatLength(txs: seq<Tx>, m: Items)
    requires SortedContents(txs, m)
    ensures |txs| == |m| && txs[0..] == txs && txs[..|txs|] == txs
    ensures m == map[] <==> txs == []
  {
    assert m == map[] <==> m.Keys == {};
  }

  /** Removing the first of the remaining queued transactions. */
  lemma DropFrontFacts(p: Lists, q: Lists, all: set<Tx>, a: Address, txs: seq<Tx>, i: nat)
    requires Consistent(p, q, all, 0, map[]) && a in q && i < |txs| && SortedContents(txs[i..], q[a].items)
    ensures var tx := txs[i]; var q' := WithList(q, a, q[a].Remove(tx.nonce));
            && tx in all && !Holds(p, tx) && Holds(q, tx) && tx.from == a && q' - {a} == q - {a}
            && (i + 1 < |txs| ==> a in q' && SortedContents(txs[i + 1..], q'[a].items))
            && (i + 1 == |txs| ==> a !in q')
  {
    var tx := txs[i];
    assert txs[i..][0] == tx;
    QueuedMember(p, q, all, a, tx);
    assert !q[a].strict;
    SortedDropFront(txs[i..], q[a].items);
    assert txs[i..][1..] == txs[i + 1..];
    FlatLength(txs[i + 1..], q[a].items - {tx.nonce});
  }

  lemma QueuedMember(p: Lists, q: Lists, all: set<Tx>, a: Address, tx: Tx)
    requires Consistent(p, q, all, 0, map[]) && a in q && tx.nonce in q[a].items && q[a].items[tx.nonce] == tx
    ensures tx in all && !Holds(p, tx) && Holds(q, tx) && tx.from == a
  {
    assert Occupied(q, a, tx.nonce);
    assert !Occupied(p, a, tx.nonce);
  }

  /** Removing the last of the remaining queued transactions. */
  lemma DropBackFacts(p: Lists, q0: Lists, q: Lists, all: set<Tx>, a: Address, txs: seq<Tx>, i: nat)
    requires Consistent(p, q, all, 0, map[]) && a in q && a in q0 && 1 < i <= |txs|
    requires SortedContents(txs[..i], q[a].items) && LowPart(q[a].items, q0[a].items) && SameElsewhere(q0, q, a)
    ensures var tx := txs[i - 1]; var q' := WithList(q, a, q[a].Remove(tx.nonce));
            && tx in all && !Holds(p, tx) && Holds(q, tx) && tx.from == a
            && a in q' && SortedContents(txs[..i - 1], q'[a].items) && LowPart(q'[a].items, q0[a].items)
            && SameElsewhere(q0, q', a) && Total(q') + 1 == Total(q)
  {
    var tx := txs[i - 1];
    assert txs[..i][i - 1] == tx;
    QueuedMember(p, q, all, a, tx);
    assert !q[a].strict;
    hide Consistent, Total, LowPart, SameElsewhere;
    SortedDropBack(txs[..i], q[a].items);
    assert txs[..i][..i - 1] == txs[..i - 1];
    FlatLength(txs[..i - 1], q[a].items - {tx.nonce});
    TotalRemove(q, a, tx.nonce);
    SortedEnds(txs[..i], q[a].items);
    LowerStill(q0, q, a, tx.nonce);
  }

  lemma LowerStill(q0: Lists, q: Lists, a: Address, n: nat)
    requires a in q0 && a in q && LowPart(q[a].items, q0[a].items) && SameElsewhere(q0, q, a) &&
             IsGreatest(q[a].items, n)
    requires !q[a].strict && q[a].items - {n} != map[]
    ensures var q' := WithList(q, a, q[a].Remove(n));
            a in q' && LowPart(q'[a].items, q0[a].items) && SameElsewhere(q0, q', a)
  {
  }

  lemma Untouched(p0: Lists, p: Lists, locals: set<Address>, slots: nat, offenders: seq<Address>, e: nat, x: Address)
    requires Level(p0, p, locals, slots, offenders, e) && x in p0 && x !in offenders
    ensures x in p && p[x] == p0[x]
  {
  }

  lemma ReducedStart(p: Lists, offenders: seq<Address>)
    ensures Reduced(p, p, offenders, 0)
  {
  }

  lemma ReducedKeeps(p: Lists, p': Lists, offenders: seq<Address>, i: nat)
    requires i < |offenders| && CanReduce(p, offenders) && Reduced(p, p', offenders, i)
    ensures Distinct(offenders) && offenders[i] in p' && p'[offenders[i]].items != map[]
  {
    assert offenders[i] !in offenders[..i];
  }

  lemma DropLastFacts(p: Lists, q: Lists, all: set<Tx>, v: map<Address, nat>, nonceOf: Address -> nat, a: Address)
    requires Consistent(p, q, all, 0, map[]) && a in p && p[a].items != map[]
    ensures var l := p[a];
            var n := MaxNonce(l.items);
            var p' := p[a := l.Cap(|l.items| - 1)];
            && |l.items| >= 1 && l.items[n].nonce == n
            && Consistent(p', q, all - {l.items[n]}, 0, map[])
            && GaveUpLast(p, p', a) && Total(p) == Total(p') + 1
            && (AllContiguous(p, v, nonceOf) ==> AllContiguous(p', Lowered(v, nonceOf, a, n), nonceOf))
  {
    var l := p[a];
    var n := MaxNonce(l.items);
    CapButOne(l);
    var l' := l.Cap(|l.items| - 1);
    assert l.Valid() && l.strict && l.items[n].nonce == n;
    hide Consistent, List.Cap, List.Valid, AllContiguous, Total, GaveUpLast;
    ShrinkByOne(p, q, all, a, n, l');
    LastGivenUp(p, a, n, l');
    TotalUpdate(p, a, l');
    if AllContiguous(p, v, nonceOf) {
      LastKeepsInterval(p, v, nonceOf, a, n, l');
    }
  }

  lemma ShrinkByOne(p: Lists, q: Lists, all: set<Tx>, a: Address, n: nat, l: List)
    requires Consistent(p, q, all, 0, map[]) && a in p && n in p[a].items
    requires l.Valid() && l.strict && l.items == p[a].items - {n}
    ensures Consistent(p[a := l], q, all - {p[a].items[n]}, 0, map[])
  {
    hide Consistent, List.Valid;
    var gone := map[n := p[a].items[n]];
    Retag(p, q, all, 0, a);
    ShrinkPending(p, q, all, a, l, gone);
    assert p[a].items - l.items.Keys - gone.Keys == map[];
    assert TxsOf(gone) == {p[a].items[n]};
    Retag(p[a := l], q, all - {p[a].items[n]}, a, 0);
  }

  lemma LastGivenUp(p: Lists, a: Address, n: nat, l: List)
    requires a in p && IsGreatest(p[a].items, n) && l.items == p[a].items - {n} && l.strict == p[a].strict
    ensures GaveUpLast(p, p[a := l], a)
  {
    SizeWithout(p[a].items, n);
  }

  /** Capping a list one below its length takes out exactly its highest nonce. */
  lemma CapButOne(l: List)
    requires l.items != map[] && l.Valid()
    ensures |l.items| >= 1 && l.Cap(|l.items| - 1).Valid() && l.Cap(|l.items| - 1).strict == l.strict
    ensures l.Cap(|l.items| - 1).items == l.items - {MaxNonce(l.items)}
    ensures |l.Cap(|l.items| - 1).items| == |l.items| - 1
  {
    hide Lowest;
    assert |l.items| >= 1 by { assert l.items.Keys != {}; }
    var n := MaxNonce(l.items);
    SizeWithout(l.items, n);
    LowestStep(l.items, n, |l.items| - 1);
    LowestAll(l.items - {n}, |l.items| - 1);
  }

  lemma LastKeepsInterval(p: Lists, v: map<Address, nat>, nonceOf: Address -> nat, a: Address, n: nat, l: List)
    requires AllContiguous(p, v, nonceOf) && a in p && IsGreatest(p[a].items, n) && l.items == p[a].items - {n}
    ensures AllContiguous(p[a := l], Lowered(v, nonceOf, a, n), nonceOf)
  {
    assert ContiguousAt(p, v, nonceOf, a);
    var hi := VirtualNonce(v, nonceOf, a);
    assert n == hi - 1 by { assert hi - 1 in p[a].items; }
    ContiguousAfter(p, v, p[a := l], Lowered(v, nonceOf, a, n), nonceOf, a);
  }

  lemma GappedFacts(p: Lists, q: Lists, all: set<Tx>, a: Address)
    requires Consistent(p, q, all, a, map[]) && a in p
    ensures p[a].Cap(0).items == map[]
    ensures Consistent(p[a := p[a].(items := map[])], q, all, a, p[a].items)
    ensures p[a := p[a].(items := map[])] - {a} == p - {a} && SameElsewhere(q, q, a)
  {
    var l := p[a].(items := map[]);
    assert p[a].items - l.items.Keys == p[a].items;
    TakeFromPending(p, q, all, a, l);
  }

  lemma SwapNothing(all: set<Tx>, tx: Tx)
    requires tx in all
    ensures Swapped(all, None, tx) == all
  {
  }

  lemma RunOver(run: Items, end: nat)
    requires forall n :: n in run ==> n < end
    ensures From(run, end) == map[]
  {
  }

  /** Everything `RemoveTx` relies on, for both places a pooled transaction can be. */
  lemma RemovalFacts(p: Lists, q: Lists, all: set<Tx>, tx: Tx, v: map<Address, nat>, nonceOf: Address -> nat)
    requires Consistent(p, q, all, 0, map[]) && tx in all
    ensures Holds(p, tx) <==> Occupied(p, tx.from, tx.nonce)
    ensures Holds(p, tx) ==>
              var l := p[tx.from];
              var p' := WithList(p, tx.from, l.Remove(tx.nonce));
              && p[tx.from := l.Remove(tx.nonce)] - {tx.from} == p - {tx.from}
              && Consistent(p', q, all - {tx}, tx.from, l.Invalidated(tx.nonce))
              && (NoneEmpty(p) ==> NoneEmpty(p'))
              && (AllContiguous(p, v, nonceOf) ==> AllContiguous(p', Lowered(v, nonceOf, tx.from, tx.nonce), nonceOf))
    ensures !Holds(p, tx) ==>
              && Holds(q, tx)
              && var l := q[tx.from];
                 var q' := WithList(q, tx.from, l.Remove(tx.nonce));
                 && q[tx.from := l.Remove(tx.nonce)] - {tx.from} == q - {tx.from}
                 && Consistent(p, q', all - {tx}, tx.from, map[])
                 && (NoneEmpty(q) ==> NoneEmpty(q'))
  {
    Retag(p, q, all, 0, tx.from);
    PooledSitsAtItsNonce(p, q, all, tx);
    hide Consistent, AllContiguous, NoneEmpty, WithList, List.Remove, List.Invalidated;
    if Holds(p, tx) {
      StrictAt(p, q, all, tx);
      WithListFacts(p, tx.from, p[tx.from].Remove(tx.nonce));
      RemovePending(p, q, all, tx);
      if AllContiguous(p, v, nonceOf) { RemovalKeepsInterval(p, v, nonceOf, tx.from, tx.nonce); }
    } else {
      WithListFacts(q, tx.from, q[tx.from].Remove(tx.nonce));
      RemoveQueued(p, q, all, tx);
    }
  }

  lemma WithListFacts(lists: Lists, a: Address, l: List)
    ensures lists[a := l] - {a} == lists - {a}
    ensures NoneEmpty(lists) ==> NoneEmpty(WithList(lists, a, l))
  {
  }

  lemma StrictAt(p: Lists, q: Lists, all: set<Tx>, tx: Tx)
    requires Consistent(p, q, all, 0, map[]) && Holds(p, tx)
    ensures p[tx.from].strict && Occupied(p, tx.from, tx.nonce)
  {
  }

  /** Of the transactions txs of account a, all but `todo` have reached the queue. */
  ghost predicate Postponing(q0: Lists, q: Lists, a: Address, txs: Items, todo: Items) {
    && PartOf(todo, txs) && SameElsewhere(q0, q, a)
    && (a in q <==> a in q0 || todo.Keys != txs.Keys)
    && (NoneEmpty(q0) ==> NoneEmpty(q))
  }

  lemma PostponeStart(q: Lists, a: Address, txs: Items)
    ensures Postponing(q, q, a, txs, txs)
  {
  }

  lemma PostponeDone(q0: Lists, q: Lists, a: Address, txs: Items)
    requires Postponing(q0, q, a, txs, map[])
    ensures SameElsewhere(q0, q, a) && (a in q <==> a in q0 || txs != map[]) && (NoneEmpty(q0) ==> NoneEmpty(q))
  {
  }

  lemma PostponeStep(p: Lists, q0: Lists, q: Lists, all: set<Tx>, a: Address, txs: Items, moving: Items, n: nat,
                     bump: nat)
    requires Consistent(p, q, all, a, moving) && n in moving && Postponing(q0, q, a, txs, moving)
    ensures var tx := moving[n]; var r := ListOf(q, tx.from, false).Add(tx, bump);
            && tx.from == a && Swapped(all, None, tx) == all && |moving - {n}| < |moving|
            && r.Added? && r.replaced == None && Consistent(p, q[a := r.list], all, a, moving - {n})
            && Postponing(q0, q[a := r.list], a, txs, moving - {n})
  {
    hide Consistent, Postponing;
    SizeWithout(moving, n);
    PutInQueue(p, q, all, a, moving, n, bump);
    PostponingNext(q0, q, a, txs, moving, n, ListOf(q, a, false).Add(moving[n], bump).list);
  }

  lemma PostponingNext(q0: Lists, q: Lists, a: Address, txs: Items, todo: Items, n: nat, l: List)
    requires Postponing(q0, q, a, txs, todo) && n in todo && n in l.items
    ensures Postponing(q0, q[a := l], a, txs, todo - {n})
  {
  }

  lemma RemovalSettles(p: Lists, q: Lists, all: set<Tx>, p': Lists, q': Lists, v: map<Address, nat>,
                       nonceOf: Address -> nat, tx: Tx)
    requires Consistent(p, q, all, 0, map[]) && Consistent(p', q', all - {tx}, 0, map[]) && Holds(p, tx)
    requires p' == WithList(p, tx.from, p[tx.from].Remove(tx.nonce)) && SameElsewhere(q, q', tx.from)
    ensures forall except :: Idle(q, v, nonceOf, except) ==>
              Idle(q', Lowered(v, nonceOf, tx.from, tx.nonce), nonceOf, except)
  {
    hide Idle, Consistent;
    forall except | Idle(q, v, nonceOf, except)
      ensures Idle(q', Lowered(v, nonceOf, tx.from, tx.nonce), nonceOf, except)
    {
      IdleAfterRemoval(p, q, all, p', q', v, nonceOf, tx, except);
    }
  }

  lemma QueueRemovalSettles(q: Lists, v: map<Address, nat>, nonceOf: Address -> nat, tx: Tx)
    requires Holds(q, tx)
    ensures forall except :: Idle(q, v, nonceOf, except) ==>
              Idle(WithList(q, tx.from, q[tx.from].Remove(tx.nonce)), v, nonceOf, except)
  {
    forall except | Idle(q, v, nonceOf, except)
      ensures Idle(WithList(q, tx.from, q[tx.from].Remove(tx.nonce)), v, nonceOf, except)
    {
      IdleShrunk(q, WithList(q, tx.from, q[tx.from].Remove(tx.nonce)), v, nonceOf, except);
    }
  }

  lemma CappedNone(q: Lists, locals: set<Address>, cap: nat)
    ensures forall accounts: set<Address> :: Capped(q, accounts - accounts, locals, cap)
  {
  }

  lemma RoomForFree(all: set<Tx>, locals: set<Address>)
    ensures MadeRoom(all, all, locals)
  {
  }

  lemma RoomFromDrop(all: set<Tx>, drop: seq<Tx>, locals: set<Address>)
    requires forall tx :: tx in drop ==> tx in all && tx.from !in locals
    requires forall d, t :: d in drop && t in all && t !in drop && t.from !in locals ==> d.gasPrice <= t.gasPrice
    ensures MadeRoom(all, all - ToSet(drop), locals)
    ensures drop != [] ==> all - ToSet(drop) < all
    ensures |all| <= |all - ToSet(drop)| + |drop|
  {
    assert drop != [] ==> drop[0] in ToSet(drop) && drop[0] in all;
    NoMoreThanListed(drop);
    assert all == (all - ToSet(drop)) + ToSet(drop);
  }

  lemma {:induction false} NoMoreThanListed(s: seq<Tx>)
    ensures |ToSet(s)| <= |s|
  {
    if s != [] {
      var rest := s[..|s| - 1];
      NoMoreThanListed(rest);
      assert ToSet(s) == ToSet(rest) + {s[|s| - 1]};
    }
  }

  lemma SwapKeepsSize(all: set<Tx>, tx: Tx)
    ensures tx !in all ==> forall prev :: |Swapped(all, prev, tx)| >= |all|
  {
    if tx !in all {
      forall prev ensures |Swapped(all, prev, tx)| >= |all| {
        var kept := all - (if prev.Some? then {prev.value} else {});
        assert Swapped(all, prev, tx) == kept + {tx};
        if prev.Some? && prev.value in all {
          assert all == kept + {prev.value};
        } else {
          assert all == kept;
        }
      }
    }
  }

  lemma PendingOutdone(p: Lists, q: Lists, all: set<Tx>, tx: Tx, bump: nat)
    requires Consistent(p, q, all, 0, map[]) && Occupied(p, tx.from, tx.nonce) && Beats(tx, all, bump)
    ensures Outdid(tx, all)
  {
    var t := p[tx.from].items[tx.nonce];
    assert Holds(p, t) && SameSlot(t, tx);
  }

  lemma SwappedSome(all: set<Tx>, prev: Tx, tx: Tx)
    ensures Swapped(all, Some(prev), tx) == all - {prev} + {tx}
  {
  }

  /** A transaction is rejected exactly when one at its nonce is pooled that it does not outbid. */
  lemma AddVerdict(p: Lists, q: Lists, all: set<Tx>, tx: Tx, bump: nat)
    requires Consistent(p, q, all, 0, map[])
    ensures var l := if Occupied(p, tx.from, tx.nonce) then p[tx.from] else ListOf(q, tx.from, false);
            l.Add(tx, bump).Added? <==> Beats(tx, all, bump)
  {
    var a, n := tx.from, tx.nonce;
    var l := if Occupied(p, a, n) then p[a] else ListOf(q, a, false);
    hide Outbids;
    forall t | t in all && t.from == a && t.nonce == n ensures n in l.items && l.items[n] == t {
      assert Holds(p, t) || Holds(q, t);
    }
    if n in l.items {
      assert Holds(p, l.items[n]) || Holds(q, l.items[n]);
    }
  }

  lemma InsertSettles(q: Lists, v: map<Address, nat>, nonceOf: Address -> nat, tx: Tx, bump: nat)
    ensures forall except :: Idle(q, v, nonceOf, except) ==> Idle(q, v, nonceOf, except + {tx.from})
    ensures var r := ListOf(q, tx.from, false).Add(tx, bump);
            r.Added? ==> forall except :: Idle(q, v, nonceOf, except) ==>
              && Idle(q[tx.from := r.list], v, nonceOf, except + {tx.from})
              && (r.replaced.Some? ==> Idle(q[tx.from := r.list], v, nonceOf, except))
  {
    hide Idle, List.Add;
    var r := ListOf(q, tx.from, false).Add(tx, bump);
    forall except | Idle(q, v, nonceOf, except) ensures Idle(q, v, nonceOf, except + {tx.from}) {
      IdleMore(q, v, nonceOf, except, {tx.from});
    }
    if r.Added? {
      forall except | Idle(q, v, nonceOf, except)
        ensures Idle(q[tx.from := r.list], v, nonceOf, except + {tx.from})
        ensures r.replaced.Some? ==> Idle(q[tx.from := r.list], v, nonceOf, except)
      {
        IdleEnqueued(q, v, nonceOf, tx, bump, except);
      }
    }
  }

  lemma ExpiredIdle(q: Lists, gone: set<Address>, v: map<Address, nat>, nonceOf: Address -> nat)
    requires Idle(q, v, nonceOf, {})
    ensures Idle(q - gone, v, nonceOf, {})
  {
    IdleShrunk(q, q - gone, v, nonceOf, {});
  }

  lemma UnqueuedIdle(q: Lists, v: map<Address, nat>, nonceOf: Address -> nat)
    ensures Idle(q, v, nonceOf, q.Keys)
  {
  }

  lemma DemotingStart(p: Lists, all: set<Tx>, nonceOf: Address -> nat, balanceOf: Address -> int, maxGas: nat)
    ensures Demoting(p, p, nonceOf, balanceOf, maxGas, p.Keys) && Outdated(all, all, nonceOf, balanceOf, maxGas)
  {
  }

  lemma DemotingNext(p0: Lists, p: Lists, nonceOf: Address -> nat, balanceOf: Address -> int, maxGas: nat,
                     todo: set<Address>, a: Address)
    requires Demoting(p0, p, nonceOf, balanceOf, maxGas, todo) && a in todo
    ensures a in p
  {
  }

  lemma DemotedNonEmpty(p0: Lists, p: Lists, nonceOf: Address -> nat, balanceOf: Address -> int, maxGas: nat)
    requires Demoting(p0, p, nonceOf, balanceOf, maxGas, {})
    ensures NoneEmpty(p)
  {
    forall a | a in p ensures p[a].items != map[] {
      assert Demoted(p0, p, nonceOf, balanceOf, maxGas, a);
    }
  }

  lemma NothingLost(all: set<Tx>, nonceOf: Address -> nat, balanceOf: Address -> int, maxGas: nat)
    ensures Outdated(all, all, nonceOf, balanceOf, maxGas)
  {
  }

  lemma QueueShrank(m0: Items, m1: Items, m2: Items)
    requires PartOf(m1, m0) && PartOf(m2, m1)
    ensures |m2| <= |m0|
  {
    PartIsSmaller(m1, m0);
    PartIsSmaller(m2, m1);
  }

  lemma CappedSome(q: Lists, accounts: set<Address>, n: nat, cap: nat)
    requires Capped(q, q.Keys, {}, n) && n <= cap
    ensures Capped(q, accounts, {}, cap)
  {
  }

  lemma OutdatedFewer(all: set<Tx>, all': set<Tx>, nonceOf: Address -> nat, balanceOf: Address -> int, maxGas: nat)
    requires Outdated(all, all', nonceOf, balanceOf, maxGas)
    ensures all' <= all && |all'| <= |all|
  {
    FewerKnown(all, all');
  }

  lemma SubsetOfRoom(all0: set<Tx>, all: set<Tx>, locals: set<Address>)
    requires MadeRoom(all0, all, locals)
    ensures all <= all0
  {
  }

  lemma VerdictCount(txs: seq<Tx>, local: bool, signed: Tx -> bool, wellFormed: Tx -> bool, rules: Rules)
    ensures |Verdicts(txs, local, signed, wellFormed, rules)| == |txs|
  {
  }
}
