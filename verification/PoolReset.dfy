/** core/tx_pool.go, the first part of `reset`: which transactions a reorg throws back into the
    pool. Blocks come from the chain of core/blockchain.go; the state at the new head is a
    parameter, and may be missing. */
module PoolResets {
  import opened TxTypes
  import opened ChainTree
  import opened Reorgs
  import opened TxLists
  import opened PoolInvariants
  import opened PoolNonces
  import opened PoolPromotion
  import opened PoolOutcomes
  import TxPools

  /** Reorgs between heads further apart than this are not followed. */
  const MAX_DEPTH: int := 64

  datatype State = State(nonceOf: Address -> nat, balanceOf: Address -> int)

  /** Crash: a head's own block is missing. Unrooted: a branch ends before the two meet. */
  datatype Collected = Crash | Unrooted | Reinject(txs: seq<TxHash>)

  predicate Stored(hs: Headers, h: Header) {
    h.hash in hs && hs[h.hash] == h
  }

  /** The new head does not follow the old one directly, and is near enough to look for a reorg. */
  ghost predicate Followed(oldHead: Option<Header>, newHead: Header) {
    && oldHead.Some? && oldHead.value.hash != newHead.parent
    && newHead.number <= oldHead.value.number + 64 && oldHead.value.number <= newHead.number + 64
  }

  /** What is thrown back: exactly the transactions of blocks that only the old head has, unless
      they are in a block that only the new head has. */
  ghost predicate Collects(hs: Headers, bodies: Bodies, oldHead: Option<Header>, newHead: Header, r: Collected) {
    if !Followed(oldHead, newHead) then r == Reinject([])
    else
      var a, b := oldHead.value.hash, newHead.hash;
      && (r == Crash <==> !(a in hs && hs[a] == oldHead.value && b in hs && hs[b] == newHead))
      && (r == Unrooted ==> forall x :: !(IsAncestor(hs, x, a) && IsAncestor(hs, x, b)))
      && (r.Reinject? ==> exists x :: IsAncestor(hs, x, a) && IsAncestor(hs, x, b))
      && (r.Reinject? ==> forall tx :: tx in r.txs <==> Only(hs, bodies, a, b, tx) && !Only(hs, bodies, b, a, tx))
  }

  method Collect(bc: BlockChain, oldHead: Option<Header>, newHead: Header) returns (r: Collected)
    requires Numbered(bc.headers)
    ensures Collects(bc.headers, bc.bodies, oldHead, newHead, r)
  {
    hide IsBranch, Foreign, Only, IsAncestor, Numbered;
    if oldHead.None? || oldHead.value.hash == newHead.parent {
      return Reinject([]);
    }
    var depth := oldHead.value.number - newHead.number;
    if depth > MAX_DEPTH || -depth > MAX_DEPTH {
      return Reinject([]);
    }
    if !Stored(bc.headers, oldHead.value) || !Stored(bc.headers, newHead) {
      return Crash;
    }
    var a, b := oldHead.value.hash, newHead.hash;
    var split := bc.FindSplit(a, b);
    if split.Unrelated? {
      return Unrooted;
    }
    var discarded := bc.Transactions(split.oldChain);
    var included := bc.Transactions(split.newChain);
    var keep := TxDifference(discarded, included);
    BranchIsOnly(bc.headers, bc.bodies, a, b, split.oldChain, split.common, |split.newChain|);
    BranchIsOnly(bc.headers, bc.bodies, b, a, split.newChain, split.common, |split.oldChain|);
    IsCommon(bc.headers, a, b, split.common, |split.oldChain|, |split.newChain|);
    return Reinject(keep);
  }

  lemma IsCommon(hs: Headers, a: Hash, b: Hash, common: Hash, j: nat, k: nat)
    requires Up(hs, a, j) == Some(common) == Up(hs, b, k)
    ensures IsAncestor(hs, common, a) && IsAncestor(hs, common, b)
  {
  }

  /** A state has used up the nonces of every block of the old head's chain. */
  ghost predicate HeadExecuted(hs: Headers, bodies: Bodies, oldHead: Option<Header>, txOf: TxHash -> Tx,
                               nonceOf: Address -> nat)
  {
    oldHead.Some? ==>
      forall tx :: InChain(hs, bodies, oldHead.value.hash, tx) ==> txOf(tx).nonce < nonceOf(txOf(tx).from)
  }

  function Bodied(txs: seq<TxHash>, txOf: TxHash -> Tx): seq<Tx> {
    seq(|txs|, i requires 0 <= i < |txs| => txOf(txs[i]))
  }

  lemma ReinjectExecuted(hs: Headers, bodies: Bodies, oldHead: Option<Header>, newHead: Header, r: Collected,
                         txOf: TxHash -> Tx, nonceOf: Address -> nat)
    requires Collects(hs, bodies, oldHead, newHead, r) && r.Reinject?
    requires HeadExecuted(hs, bodies, oldHead, txOf, nonceOf)
    ensures Executed(Bodied(r.txs, txOf), nonceOf)
  {
    forall tx | tx in Bodied(r.txs, txOf) ensures tx.nonce < nonceOf(tx.from) {
      var i :| 0 <= i < |r.txs| && txOf(r.txs[i]) == tx;
      assert r.txs[i] in r.txs;
      assert Only(hs, bodies, oldHead.value.hash, newHead.hash, r.txs[i]);
      assert InChain(hs, bodies, oldHead.value.hash, r.txs[i]);
    }
  }

  /** A transaction that the way from the old head to the new one loses. */
  ghost predicate Lost(hs: Headers, bodies: Bodies, oldHead: Option<Header>, newHead: Header, tx: TxHash) {
    && Followed(oldHead, newHead)
    && Only(hs, bodies, oldHead.value.hash, newHead.hash, tx) && !Only(hs, bodies, newHead.hash, oldHead.value.hash, tx)
  }

  /** No other transaction known or lost has its slot. */
  ghost predicate Unrivalled(hs: Headers, bodies: Bodies, oldHead: Option<Header>, newHead: Header,
                             txOf: TxHash -> Tx, all: set<Tx>, tx: Tx)
  {
    && (forall t :: t in all && SameSlot(t, tx) ==> t == tx)
    && (forall h :: Lost(hs, bodies, oldHead, newHead, h) && SameSlot(txOf(h), tx) ==> txOf(h) == tx)
  }

  /** Every lost transaction that is valid on the new state and has its slot to itself is known again. */
  ghost predicate Regains(hs: Headers, bodies: Bodies, oldHead: Option<Header>, newHead: Header, txOf: TxHash -> Tx,
                          all0: set<Tx>, all: set<Tx>, signed: Tx -> bool, wellFormed: Tx -> bool, rules: Rules)
  {
    forall h | Lost(hs, bodies, oldHead, newHead, h) && Unrivalled(hs, bodies, oldHead, newHead, txOf, all0, txOf(h)) &&
               Eligible(txOf(h), false, signed(txOf(h)), wellFormed(txOf(h)), rules) :: txOf(h) in all
  }

  /** What comes into the pool was lost on the way to the new head. */
  ghost predicate OnlyLost(hs: Headers, bodies: Bodies, oldHead: Option<Header>, newHead: Header, txOf: TxHash -> Tx,
                           all0: set<Tx>, all: set<Tx>)
  {
    forall tx :: tx in all && tx !in all0 ==> exists h :: Lost(hs, bodies, oldHead, newHead, h) && txOf(h) == tx
  }

  lemma WelcomedBack(hs: Headers, bodies: Bodies, oldHead: Option<Header>, newHead: Header, r: Collected,
                     txOf: TxHash -> Tx, all0: set<Tx>, all: set<Tx>, signed: Tx -> bool, wellFormed: Tx -> bool,
                     rules: Rules)
    requires Collects(hs, bodies, oldHead, newHead, r) && r.Reinject?
    ensures Welcomes(all0, all, Bodied(r.txs, txOf), false, signed, wellFormed, rules) ==>
              Regains(hs, bodies, oldHead, newHead, txOf, all0, all, signed, wellFormed, rules)
    ensures all <= all0 + Members(Bodied(r.txs, txOf)) ==> OnlyLost(hs, bodies, oldHead, newHead, txOf, all0, all)
  {
    hide Eligible, Only, IsAncestor, Stale;
    var txs := Bodied(r.txs, txOf);
    forall h ensures h in r.txs <==> Lost(hs, bodies, oldHead, newHead, h) {
    }
    hide Collects, Lost;
    forall t ensures t in txs <==> exists h :: h in r.txs && txOf(h) == t {
      if t in txs {
        var i :| 0 <= i < |txs| && txs[i] == t;
        assert r.txs[i] in r.txs;
      }
      if h :| h in r.txs && txOf(h) == t {
        var i :| 0 <= i < |r.txs| && r.txs[i] == h;
        assert txs[i] == t;
      }
    }
    forall h | h in r.txs && Unrivalled(hs, bodies, oldHead, newHead, txOf, all0, txOf(h))
      ensures Alone(txOf(h), all0, txs) && txOf(h) in txs
    {
    }
  }

  /** A new chain head. Without a way from the old head, or without the new state, the pool stays
      as it is. Otherwise what was lost on the way comes back, if there is room and it is still valid.
      If nonces do not go back and the new state has used up those of the old
      head's chain, every account's pending nonces stay an unbroken interval. */
  method ResetTo(pool: TxPools.TxPool, bc: BlockChain, oldHead: Option<Header>, newHead: Header, state: Option<State>,
                 gasLimit: nat, txOf: TxHash -> Tx, signed: Tx -> bool, wellFormed: Tx -> bool, now: nat)
    returns (r: Collected)
    requires pool.Valid() && Numbered(bc.headers)
    modifies pool, pool.priced, pool.priced.items
    ensures pool.Valid() && Collects(bc.headers, bc.bodies, oldHead, newHead, r)
    ensures !r.Reinject? || state.None? ==> unchanged(pool, pool.priced, pool.priced.items)
    ensures r.Reinject? && state.Some? ==>
              && pool.nonceOf == state.value.nonceOf && pool.balanceOf == state.value.balanceOf
              && pool.maxGas == gasLimit && pool.locals == old(pool.locals) && pool.gasPrice == old(pool.gasPrice)
              && Within(pool.pending, pool.queue, pool.locals, pool.config.accountSlots, pool.config.globalSlots,
                        pool.config.globalQueue)
    ensures r.Reinject? && state.Some? && old(pool.Gapless()) &&
            (forall a :: old(pool.nonceOf)(a) <= state.value.nonceOf(a)) &&
            HeadExecuted(bc.headers, bc.bodies, oldHead, txOf, state.value.nonceOf) ==>
              pool.Gapless() && pool.Settled({})
    ensures r.Reinject? && state.Some? ==>
              && OnlyLost(bc.headers, bc.bodies, oldHead, newHead, txOf, old(pool.all), pool.all)
              && (pool.Roomy(|old(pool.all)| + |r.txs|) ==>
                    Regains(bc.headers, bc.bodies, oldHead, newHead, txOf, old(pool.all), pool.all, signed, wellFormed,
                            Rules(pool.gasPrice, gasLimit, state.value.nonceOf, state.value.balanceOf,
                                  old(pool.locals))))
    ensures old(pool.Priceworthy()) ==> pool.Priceworthy()
  {
    hide Collects, HeadExecuted, Executed, Within, Numbered, Welcomes, Regains, OnlyLost, Screened, Members;
    hide TxPools.TxPool.Valid, TxPools.TxPool.Gapless, TxPools.TxPool.Settled;
    r := Collect(bc, oldHead, newHead);
    if !r.Reinject? || state.None? {
      return;
    }
    if HeadExecuted(bc.headers, bc.bodies, oldHead, txOf, state.value.nonceOf) {
      ReinjectExecuted(bc.headers, bc.bodies, oldHead, newHead, r, txOf, state.value.nonceOf);
    }
    pool.Reset(state.value.nonceOf, state.value.balanceOf, gasLimit, Bodied(r.txs, txOf), signed, wellFormed, now);
    WelcomedBack(bc.headers, bc.bodies, oldHead, newHead, r, txOf, old(pool.all), pool.all, signed, wellFormed,
                 Rules(pool.gasPrice, gasLimit, state.value.nonceOf, state.value.balanceOf, old(pool.locals)));
  }

  /** What the pool's loop reacts to: a new chain head, with the blocks stored by then, or anything
      else. */
  datatype Event =
    | Head(headers: Headers, bodies: Bodies, block: Header, state: Option<State>, gasLimit: nat, now: nat)
    | Other(op: TxPools.Op)

  ghost predicate Proper(e: Event) {
    match e
    case Head(headers, _, _, _, _, _) => Numbered(headers)
    case Other(op) => !op.NewHead?
  }

  /** The head the loop keeps: the last one announced, whatever came of it. */
  function LastHead(events: seq<Event>, head: Header): Header {
    if events == [] then head else LastHead(events[1..], HeadAfter(events[0], head))
  }

  function HeadAfter(e: Event, head: Header): Header {
    if e.Head? then e.block else head
  }

  ghost predicate NoLowerNonce(from: Address -> nat, to: Address -> nat) {
    forall a :: from(a) <= to(a)
  }

  /** States are those of their blocks, a block's state has used up the nonces of its chain, and no
      head lowers a nonce of the head before. */
  ghost predicate Steady(events: seq<Event>, head: Header, nonceAt: Hash -> Address -> nat, txOf: TxHash -> Tx) {
    events == [] ||
    match events[0]
    case Head(headers, bodies, block, state, _, _) =>
      && HeadExecuted(headers, bodies, Some(head), txOf, nonceAt(head.hash))
      && (state.Some? ==> state.value.nonceOf == nonceAt(block.hash))
      && NoLowerNonce(nonceAt(head.hash), nonceAt(block.hash)) && Steady(events[1..], block, nonceAt, txOf)
    case Other(_) => Steady(events[1..], head, nonceAt, txOf)
  }

  /** The pool's loop at one time: the head it keeps, and the pool. */
  datatype Stage = Stage(head: Header, pool: TxPools.Moment)

  /** What comes of a chain head, given what was collected. */
  ghost predicate Heeded(e: Event, s: Stage, s': Stage, r: Collected, config: TxPools.Config, txOf: TxHash -> Tx,
                         signed: Tx -> bool, wellFormed: Tx -> bool)
    requires e.Head?
  {
    && s'.head == e.block && Collects(e.headers, e.bodies, Some(s.head), e.block, r) && r != Crash
    && if r.Unrooted? || e.state.None? then s'.pool == s.pool
       else
         var rules := Rules(s.pool.rules.gasPrice, e.gasLimit, e.state.value.nonceOf, e.state.value.balanceOf,
                            s.pool.rules.locals);
         && s'.pool.rules == rules
         && OnlyLost(e.headers, e.bodies, Some(s.head), e.block, txOf, s.pool.all, s'.pool.all)
         && (TxPools.FitsIn(config, |s.pool.all| + |r.txs|) ==>
               Regains(e.headers, e.bodies, Some(s.head), e.block, txOf, s.pool.all, s'.pool.all, signed, wellFormed,
                       rules))
  }

  /** What comes of an event that does not crash the loop. */
  ghost predicate Answers(e: Event, s: Stage, s': Stage, config: TxPools.Config, txOf: TxHash -> Tx,
                          signed: Tx -> bool, wellFormed: Tx -> bool)
  {
    if e.Head? then exists r :: Heeded(e, s, s', r, config, txOf, signed, wellFormed)
    else s'.head == s.head && TxPools.Follows(e.op, s.pool, s'.pool, config)
  }

  /** A head announced next to the head before has a block missing that the loop looks for. */
  ghost predicate Misses(e: Event, head: Header) {
    && e.Head? && Followed(Some(head), e.block)
    && !(head.hash in e.headers && e.headers[head.hash] == head &&
         e.block.hash in e.headers && e.headers[e.block.hash] == e.block)
  }

  ghost predicate RunsInto(events: seq<Event>, head: Header) {
    events != [] && (Misses(events[0], head) || RunsInto(events[1..], HeadAfter(events[0], head)))
  }

  /** The loop's answer to a chain head. */
  method Heed(pool: TxPools.TxPool, bc: BlockChain, head: Header, e: Event, txOf: TxHash -> Tx, signed: Tx -> bool,
              wellFormed: Tx -> bool)
    returns (crashed: bool)
    requires pool.Valid() && e.Head? && Proper(e)
    modifies pool, pool.priced, pool.priced.items, bc
    ensures pool.Valid() && (crashed <==> Misses(e, head))
    ensures crashed ==> unchanged(pool, pool.priced, pool.priced.items)
    ensures !crashed ==>
              Answers(e, Stage(head, old(pool.Now())), Stage(e.block, pool.Now()), pool.config, txOf, signed,
                      wellFormed)
    ensures old(pool.Priceworthy()) ==> pool.Priceworthy()
    ensures pool.nonceOf == old(pool.nonceOf) || (e.state.Some? && pool.nonceOf == e.state.value.nonceOf)
    ensures old(pool.Gapless()) && old(pool.Settled({})) &&
            (e.state.Some? ==>
               && (forall a :: old(pool.nonceOf)(a) <= e.state.value.nonceOf(a))
               && HeadExecuted(e.headers, e.bodies, Some(head), txOf, e.state.value.nonceOf)) ==>
              pool.Gapless() && pool.Settled({})
  {
    hide HeadExecuted, Within, Executed, Regains, OnlyLost, IsAncestor, Only, Answers;
    hide TxPools.TxPool.Valid, TxPools.TxPool.Gapless, TxPools.TxPool.Settled, TxPools.TxPool.Priceworthy;
    bc.headers, bc.bodies := e.headers, e.bodies;
    var r := ResetTo(pool, bc, Some(head), e.block, e.state, e.gasLimit, txOf, signed, wellFormed, e.now);
    crashed := r == Crash;
    if !crashed {
      HeadAnswers(e, Stage(head, old(pool.Now())), Stage(e.block, pool.Now()), r, pool.config, txOf, signed,
                  wellFormed);
    }
  }

  lemma HeadAnswers(e: Event, s: Stage, s': Stage, r: Collected, config: TxPools.Config, txOf: TxHash -> Tx,
                    signed: Tx -> bool, wellFormed: Tx -> bool)
    requires e.Head? && Heeded(e, s, s', r, config, txOf, signed, wellFormed)
    ensures Answers(e, s, s', config, txOf, signed, wellFormed)
  {
  }

  /** The pool's loop over chain heads and other operations. The head moves on even if a reset
      fails. While no head lowers a nonce, pending nonces stay unbroken intervals all the same. It
      crashes exactly at a head for which a block is missing. */
  method Loop(pool: TxPools.TxPool, bc: BlockChain, first: Header, events: seq<Event>,
              ghost nonceAt: Hash -> Address -> nat, txOf: TxHash -> Tx, signed: Tx -> bool, wellFormed: Tx -> bool)
    returns (head: Header, crashed: bool, ghost trace: seq<Stage>)
    requires pool.Valid() && forall i :: 0 <= i < |events| ==> Proper(events[i])
    modifies pool, pool.priced, pool.priced.items, bc
    ensures pool.Valid() && (!crashed ==> head == LastHead(events, first)) && (crashed <==> RunsInto(events, first))
    ensures old(pool.Gapless()) && old(pool.Settled({})) && NoLowerNonce(old(pool.nonceOf), nonceAt(first.hash)) &&
            Steady(events, first, nonceAt, txOf) ==>
              pool.Gapless() && pool.Settled({})
    ensures old(pool.Priceworthy()) ==> pool.Priceworthy()
    ensures 0 < |trace| <= |events| + 1 && trace[0] == Stage(first, old(pool.Now()))
    ensures forall i :: 0 <= i < |trace| - 1 ==>
              Answers(events[i], trace[i], trace[i + 1], pool.config, txOf, signed, wellFormed)
    ensures trace[|trace| - 1] == Stage(head, pool.Now()) && (!crashed ==> |trace| == |events| + 1)
  {
    hide HeadExecuted, NoLowerNonce, Answers, Misses, TxPools.Follows, LastHead, RunsInto, Steady, HeadAfter;
    hide TxPools.TxPool.Valid, TxPools.TxPool.Gapless, TxPools.TxPool.Settled, TxPools.TxPool.Priceworthy;
    ghost var kept := pool.Gapless() && pool.Settled({}) && NoLowerNonce(pool.nonceOf, nonceAt(first.hash)) &&
                      Steady(events, first, nonceAt, txOf);
    head, crashed := first, false;
    trace := [Stage(head, pool.Now())];
    for i := 0 to |events|
      invariant pool.Valid() && LastHead(events, first) == LastHead(events[i..], head)
      invariant RunsInto(events, first) <==> RunsInto(events[i..], head)
      invariant kept ==>
                  && pool.Gapless() && pool.Settled({}) && NoLowerNonce(pool.nonceOf, nonceAt(head.hash))
                  && Steady(events[i..], head, nonceAt, txOf)
      invariant old(pool.Priceworthy()) ==> pool.Priceworthy()
      invariant |trace| == i + 1 && trace[0] == Stage(first, old(pool.Now())) && trace[i] == Stage(head, pool.Now())
      invariant forall k :: 0 <= k < i ==>
                  Answers(events[k], trace[k], trace[k + 1], pool.config, txOf, signed, wellFormed)
    {
      var e := events[i];
      assert events[i..][0] == e && events[i..][1..] == events[i + 1..];
      Unrolled(events[i..], head, nonceAt, txOf);
      if e.Head? {
        LaterNonces(pool.nonceOf, e.headers, e.bodies, head, e.block, txOf, nonceAt);
        crashed := Heed(pool, bc, head, e, txOf, signed, wellFormed);
        if crashed {
          return;
        }
        head := e.block;
      } else {
        OneOp(e.op, pool.nonceOf);
        OtherIs(e, head);
        ghost var s := trace[i];
        ghost var steps := pool.Run([e.op]);
        OtherAnswers(e, s, Stage(head, pool.Now()), steps, pool.config, txOf, signed, wellFormed);
      }
      trace := trace + [Stage(head, pool.Now())];
    }
    RolledUp(head);
  }

  lemma Unrolled(events: seq<Event>, head: Header, nonceAt: Hash -> Address -> nat, txOf: TxHash -> Tx)
    requires events != []
    ensures var next := if events[0].Head? then events[0].block else head;
            && LastHead(events, head) == LastHead(events[1..], next)
            && (RunsInto(events, head) <==> Misses(events[0], head) || RunsInto(events[1..], next))
            && (Steady(events, head, nonceAt, txOf) ==> Steady(events[1..], next, nonceAt, txOf))
    ensures Steady(events, head, nonceAt, txOf) && events[0].Head? ==>
              var e := events[0];
              && HeadExecuted(e.headers, e.bodies, Some(head), txOf, nonceAt(head.hash))
              && (e.state.Some? ==> e.state.value.nonceOf == nonceAt(e.block.hash))
              && NoLowerNonce(nonceAt(head.hash), nonceAt(e.block.hash))
  {
    hide HeadExecuted, NoLowerNonce, Misses;
  }

  lemma RolledUp(head: Header)
    ensures LastHead([], head) == head && !RunsInto([], head)
  {
  }

  lemma OtherIs(e: Event, head: Header)
    requires e.Other?
    ensures !Misses(e, head)
  {
  }

  lemma OtherAnswers(e: Event, s: Stage, s': Stage, steps: seq<TxPools.Moment>, config: TxPools.Config,
                     txOf: TxHash -> Tx, signed: Tx -> bool, wellFormed: Tx -> bool)
    requires e.Other? && |steps| == 2 && steps[0] == s.pool && steps[1] == s'.pool && s'.head == s.head
    requires forall i :: 0 <= i < 1 ==> TxPools.Follows([e.op][i], steps[i], steps[i + 1], config)
    ensures Answers(e, s, s', config, txOf, signed, wellFormed)
  {
    hide TxPools.Follows;
    assert [e.op][0] == e.op;
  }

  lemma OneOp(op: TxPools.Op, nonceOf: Address -> nat)
    requires !op.NewHead?
    ensures TxPools.Onward([op], nonceOf)
  {
    assert [op][1..] == [];
  }

  /** Where nonces do not go back, a later state has used up what an earlier one had. */
  lemma LaterNonces(nonceOf: Address -> nat, hs: Headers, bodies: Bodies, head: Header, block: Header,
                    txOf: TxHash -> Tx, nonceAt: Hash -> Address -> nat)
    ensures NoLowerNonce(nonceOf, nonceAt(head.hash)) && NoLowerNonce(nonceAt(head.hash), nonceAt(block.hash)) ==>
              NoLowerNonce(nonceOf, nonceAt(block.hash)) && forall a :: nonceOf(a) <= nonceAt(block.hash)(a)
    ensures HeadExecuted(hs, bodies, Some(head), txOf, nonceAt(head.hash)) &&
            NoLowerNonce(nonceAt(head.hash), nonceAt(block.hash)) ==>
              HeadExecuted(hs, bodies, Some(head), txOf, nonceAt(block.hash))
    ensures NoLowerNonce(nonceAt(block.hash), nonceAt(block.hash))
  {
  }

  /** No nonce between two stored ones is missing. */
  ghost predicate Unbroken(m: Items) {
    forall j, k, n :: j in m && k in m && j <= n <= k ==> n in m
  }

  /** The payable part of a list that starts at the state nonce is unbroken. */
  ghost predicate PartUnbroken(p: Lists, nonceOf: Address -> nat, balanceOf: Address -> int, maxGas: nat, a: Address)
    requires a in p
  {
    var m := Payable(p[a], nonceOf(a), balanceOf(a), maxGas).items;
    nonceOf(a) in m ==> Unbroken(m)
  }

  /** After reinjection, demotion and renumbering make the pending nonces intervals again exactly if
      what demotion leaves of each list is unbroken. */
  lemma GaplessAgainIff(p0: Lists, p: Lists, v: map<Address, nat>, nonceOf: Address -> nat, balanceOf: Address -> int,
                        maxGas: nat)
    requires forall a :: a in p0 ==> p0[a].Valid() && p0[a].strict
    requires RetainsAll(p0, p, nonceOf, balanceOf, maxGas, {}) && Renumbered(p, v, {})
    ensures AllContiguous(p, v, nonceOf) <==> forall a :: a in p0 ==> PartUnbroken(p0, nonceOf, balanceOf, maxGas, a)
  {
    hide Payable;
    forall a ensures ContiguousAt(p, v, nonceOf, a) <==> (a in p0 ==> PartUnbroken(p0, nonceOf, balanceOf, maxGas, a)) {
      if a in p0 {
        assert Retains(p0, p, nonceOf, balanceOf, maxGas, a);
        if a in p {
          FromStateNonce(p0[a], nonceOf(a), balanceOf(a), maxGas);
          UnbrokenIsInterval(p[a].items, nonceOf(a));
        }
      }
    }
    hide ContiguousAt, PartUnbroken;
  }

  lemma FromStateNonce(l: List, n: nat, costLimit: int, gasLimit: nat)
    requires l.Valid() && l.strict
    ensures forall k :: k in Payable(l, n, costLimit, gasLimit).items ==> n <= k
  {
    hide Payable;
    forall k | k in Payable(l, n, costLimit, gasLimit).items ensures n <= k {
      PayablePrefix(l, n, costLimit, gasLimit, k);
    }
  }

  lemma UnbrokenIsInterval(m: Items, n: nat)
    requires n in m && forall k :: k in m ==> n <= k
    ensures Unbroken(m) <==> Contiguous(m, n, MaxNonce(m) + 1)
  {
    var top := MaxNonce(m);
    if Unbroken(m) {
      forall k ensures k in m <==> n <= k < top + 1 {
        assert n in m && top in m;
      }
    }
  }

  /** A transaction of account 1. */
  function Nth(n: nat): Tx {
    Tx(1, n, 1, 1, 0, 0, 0)
  }

  /** Account 1's list with one pending transaction, of nonce 3. */
  const Third: List := List(true, map[3 := Nth(3)], 1, 1)

  const One: Address -> nat := (a: Address) => 1

  const Plenty: Address -> int := (a: Address) => 100

  /** A head lowers account 1's nonce from 3 to 1, and of the transactions lost only the one with
      nonce 1 comes back and is promoted, next to the pending one with nonce 3. Demotion looks at
      the front only and leaves the gap at 2, whatever the virtual nonces. */
  lemma LoweredNonceGap(p: Lists, v: map<Address, nat>)
    requires Third.Add(Nth(1), 10).Added? && RetainsAll(map[1 := Third.Add(Nth(1), 10).list], p, One, Plenty, 100, {})
    ensures 1 in p && 1 in p[1].items && 3 in p[1].items && 2 !in p[1].items && !AllContiguous(p, v, One)
  {
    var l := Third.Add(Nth(1), 10).list;
    var p1: Lists := map[1 := l];
    assert Retains(p1, p, One, Plenty, 100, 1);
    AllPayable(l);
    hide RetainsAll, Payable;
    assert One(1) == 1 && Plenty(1) == 100 && 1 in p && p[1] == Payable(l, 1, 100, 100);
    var m := p[1].items;
    assert 3 in m && 2 !in m;
    forall hi: nat ensures !Contiguous(m, 1, hi) {
      assert hi <= 3 || 2 < hi;
    }
    assert !ContiguousAt(p, v, One, 1);
  }

  lemma AllPayable(l: List)
    requires l == Third.Add(Nth(1), 10).list
    ensures Payable(l, 1, 100, 100).items == l.items && l.items == map[3 := Nth(3), 1 := Nth(1)]
  {
    assert l.costcap == 1 && l.gascap == 1;
  }
}
