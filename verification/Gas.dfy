/** Gas and fee accounting: core/gaspool.go, core/state_transition.go,
    core/ligo_state_transition.go, core/ligo_state_processor.go, core/state_processor.go and
    the block filling loop of miner/worker.go. The virtual machine and the chain contract
    callbacks are parameters. */
module Gas {
  import opened Ledgers
  import opened TxTypes

  const MAX64: nat := 0xffff_ffff_ffff_ffff
  const TX_GAS: nat := 21000
  const TX_GAS_CREATE: nat := 53000
  const NONZERO_GAS: nat := 68
  const ZERO_GAS: nat := 4

  type Balances = map<Address, int>

  datatype State = State(balances: Balances, nonces: map<Address, nat>) {
    function Balance(a: Address): int {
      Amount(balances, a)
    }

    function Nonce(a: Address): nat {
      if a in nonces then nonces[a] else 0
    }

    function AddBalance(a: Address, amount: int): State {
      this.(balances := Credit(balances, a, amount))
    }

    function Bump(a: Address): State {
      this.(nonces := nonces[a := Nonce(a) + 1])
    }
  }

  /** Crediting an account adds to all the money there is. */
  lemma SumAdded(s: State, a: Address, amount: int)
    ensures Sum(s.AddBalance(a, amount).balances) == Sum(s.balances) + amount
  {
    SumCredited(s.balances, a, amount);
  }

  /** The price of some gas. */
  function Fee(gas: nat, price: nat): int {
    gas * price
  }

  datatype Message = Message(from: Address, nonce: nat, checkNonce: bool, gas: nat, gasPrice: nat, value: int,
                             data: seq<nat>, create: bool)

  /** What the virtual machine hands back: the state, the gas left, the refund counter, and
      whether it failed, or found the transferred value uncovered. */
  datatype VmOutcome = VmOutcome(state: State, gasLeft: nat, refund: nat, failed: bool, uncovered: bool)

  type Vm = (State, Message, nat) -> VmOutcome

  /** A virtual machine that conserves money and gives back no more gas than it got. */
  ghost predicate Conserving(vm: Vm) {
    forall s, m, g ::
      vm(s, m, g).gasLeft <= g && Sum(vm(s, m, g).state.balances) == Sum(s.balances)
  }

  /** A chain contract function: its gas, and its effect, if it accepts. */
  datatype Contract = Contract(admitted: bool, requiredGas: nat, apply: (State, Message) -> Option<State>)

  ghost predicate Neutral(c: Contract) {
    forall s, m :: c.apply(s, m).Some? ==> Sum(c.apply(s, m).value.balances) == Sum(s.balances)
  }

  function NonZero(data: seq<nat>): nat {
    if data == [] then 0 else NonZero(data[..|data| - 1]) + (if data[|data| - 1] != 0 then 1 else 0)
  }

  lemma {:induction false} NonZeroBound(data: seq<nat>)
    ensures NonZero(data) <= |data|
  {
    if data != [] {
      NonZeroBound(data[..|data| - 1]);
    }
  }

  /** The intrinsic cost without regard to word size. */
  function IntrinsicCost(data: seq<nat>, create: bool): nat {
    NonZeroBound(data);
    (if create then TX_GAS_CREATE else TX_GAS) + NONZERO_GAS * NonZero(data) + ZERO_GAS * (|data| - NonZero(data))
  }

  /** The intrinsic cost if it fits 64 bits, and an error exactly when it does not. */
  method IntrinsicGas(data: seq<nat>, create: bool) returns (r: Option<nat>)
    requires |data| <= MAX64
    ensures r == if IntrinsicCost(data, create) <= MAX64 then Some(IntrinsicCost(data, create)) else None
  {
    var gas := if create then TX_GAS_CREATE else TX_GAS;
    if |data| > 0 {
      var nz := 0;
      for i := 0 to |data|
        invariant nz == NonZero(data[..i])
      {
        assert data[..i + 1][..i] == data[..i];
        if data[i] != 0 {
          nz := nz + 1;
        }
      }
      assert data[..|data|] == data;
      NonZeroBound(data);
      if (MAX64 - gas) / NONZERO_GAS < nz {
        return None;
      }
      gas := gas + nz * NONZERO_GAS;
      var z := |data| - nz;
      if (MAX64 - gas) / ZERO_GAS < z {
        return None;
      }
      gas := gas + z * ZERO_GAS;
    }
    return Some(gas);
  }

  class GasPool {
    var gas: nat

    constructor (limit: nat)
      requires limit <= MAX64
      ensures gas == limit
    {
      gas := limit;
    }

    /** The source panics when the precondition fails. */
    method AddGas(amount: nat)
      requires gas + amount <= MAX64
      modifies this
      ensures gas == old(gas) + amount
    {
      gas := gas + amount;
    }

    method SubGas(amount: nat) returns (ok: bool)
      modifies this
      ensures ok <==> amount <= old(gas)
      ensures gas == if ok then old(gas) - amount else old(gas)
    {
      if gas < amount {
        return false;
      }
      gas := gas - amount;
      return true;
    }
  }

  datatype Failure = NonceTooHigh | NonceTooLow | InsufficientForGas | GasLimitReached | OutOfGas | InsufficientForValue
    | NotAllowed | Rejected | Crashed

  datatype Transition = Failed(why: Failure) | Done(usedGas: nat, usedMoney: int, vmFailed: bool)

  class StateDb {
    var state: State

    constructor (s: State)
      ensures state == s
    {
      state := s;
    }
  }

  /** The sender's nonce fits, and both sender and pool can cover the whole gas allowance. */
  ghost predicate Affords(s: State, pool: nat, msg: Message) {
    && (msg.checkNonce ==> s.Nonce(msg.from) == msg.nonce)
    && Fee(msg.gas, msg.gasPrice) <= s.Balance(msg.from) && msg.gas <= pool
  }

  /** Calls to a chain contract start with four bytes naming the function; the source crashes on less. */
  const ID_LENGTH: nat := 4

  /** Failures that the account's later transactions would meet as well. */
  predicate Stuck(why: Option<Failure>) {
    why == Some(NonceTooHigh) || why == Some(GasLimitReached)
  }

  /** The sender's nonce is not there yet, or only the pool's gas does not suffice. */
  ghost predicate Blocked(s: State, pool: nat, msg: Message) {
    || (msg.checkNonce && s.Nonce(msg.from) < msg.nonce)
    || ((msg.checkNonce ==> s.Nonce(msg.from) == msg.nonce) &&
        Fee(msg.gas, msg.gasPrice) <= s.Balance(msg.from) && pool < msg.gas)
  }

  /** The state after paying for the gas allowance. */
  function Paid(s: State, msg: Message): State {
    s.AddBalance(msg.from, -Fee(msg.gas, msg.gasPrice))
  }

  /** The state the machine starts from: gas paid for, and the nonce raised for a plain call. */
  function Entered(s: State, msg: Message): State {
    if msg.create then Paid(s, msg) else Paid(s, msg).Bump(msg.from)
  }

  /** Gas charged after the refund, which is at most half. */
  function NetGas(gross: nat, refund: nat): nat {
    if refund < gross / 2 then gross - refund else gross - gross / 2
  }

  /** What a run of the machine leaves: its state, with the price of the unused gas returned. */
  ghost predicate Executed(s: State, s': State, msg: Message, vm: Vm, homestead: bool, used: int, failed: bool) {
    var cost := IntrinsicCost(msg.data, msg.create && homestead);
    cost <= msg.gas &&
    var out := vm(Entered(s, msg), msg, msg.gas - cost);
    && out.gasLeft <= msg.gas && failed == out.failed
    && used == NetGas(msg.gas - out.gasLeft, out.refund) <= msg.gas
    && s' == out.state.AddBalance(msg.from, Fee(msg.gas - used, msg.gasPrice))
  }

  class StateTransition {
    const gp: GasPool
    const db: StateDb
    const msg: Message
    var gas: nat
    var initialGas: nat

    constructor (gp: GasPool, db: StateDb, msg: Message)
      ensures this.gp == gp && this.db == db && this.msg == msg && gas == 0 && initialGas == 0
    {
      this.gp, this.db, this.msg, gas, initialGas := gp, db, msg, 0, 0;
    }

    method UseGas(amount: nat) returns (ok: bool)
      modifies this`gas
      ensures ok <==> amount <= old(gas)
      ensures gas == if ok then old(gas) - amount else old(gas)
    {
      if gas < amount {
        return false;
      }
      gas := gas - amount;
      return true;
    }

    /** Pay for the whole gas allowance up front. */
    method BuyGas() returns (r: Option<Failure>)
      requires gas == 0
      modifies this, gp, db
      ensures r.None? <==> Fee(msg.gas, msg.gasPrice) <= old(db.state).Balance(msg.from) && msg.gas <= old(gp.gas)
      ensures r.None? ==>
                && gp.gas == old(gp.gas) - msg.gas && gas == initialGas == msg.gas
                && db.state == old(db.state).AddBalance(msg.from, -Fee(msg.gas, msg.gasPrice))
      ensures r.Some? ==> gp.gas == old(gp.gas) && db.state == old(db.state) && r.value != Crashed
      ensures Stuck(r) <==> Fee(msg.gas, msg.gasPrice) <= old(db.state).Balance(msg.from) && old(gp.gas) < msg.gas
    {
      var cost := Fee(msg.gas, msg.gasPrice);
      if db.state.Balance(msg.from) < cost {
        return Some(InsufficientForGas);
      }
      var ok := gp.SubGas(msg.gas);
      if !ok {
        return Some(GasLimitReached);
      }
      gas := gas + msg.gas;
      initialGas := msg.gas;
      db.state := db.state.AddBalance(msg.from, -cost);
      return None;
    }

    method PreCheck() returns (r: Option<Failure>)
      requires gas == 0
      modifies this, gp, db
      ensures r.None? <==> Affords(old(db.state), old(gp.gas), msg)
      ensures r.None? ==>
                && gp.gas == old(gp.gas) - msg.gas && gas == initialGas == msg.gas
                && db.state == old(db.state).AddBalance(msg.from, -Fee(msg.gas, msg.gasPrice))
      ensures r.Some? ==> gp.gas == old(gp.gas) && db.state == old(db.state) && r.value != Crashed
      ensures Stuck(r) <==> Blocked(old(db.state), old(gp.gas), msg)
    {
      if msg.checkNonce {
        var nonce := db.state.Nonce(msg.from);
        if nonce < msg.nonce {
          return Some(NonceTooHigh);
        } else if nonce > msg.nonce {
          return Some(NonceTooLow);
        }
      }
      r := BuyGas();
    }

    /** Give back the unused gas and the refund, at most half of what was used. */
    method RefundGas(refundCounter: nat)
      requires gas <= initialGas && gp.gas + initialGas <= MAX64
      modifies this`gas, gp, db
      ensures old(gas) <= gas <= initialGas && 2 * (initialGas - gas) >= initialGas - old(gas)
      ensures initialGas - gas == NetGas(initialGas - old(gas), refundCounter)
      ensures gp.gas == old(gp.gas) + gas
      ensures db.state == old(db.state).AddBalance(msg.from, Fee(gas, msg.gasPrice))
    {
      var refund := (initialGas - gas) / 2;
      if refund > refundCounter {
        refund := refundCounter;
      }
      gas := gas + refund;
      db.state := db.state.AddBalance(msg.from, Fee(gas, msg.gasPrice));
      gp.AddGas(gas);
    }

    /** Run one message. What leaves the gas pool and the accounts on success is exactly the gas
        used and its price; on failure the caller has to undo the state. */
    method TransitionDbEx(vm: Vm, homestead: bool) returns (r: Transition)
      requires Conserving(vm) && gas == 0 && gp.gas <= MAX64 && |msg.data| <= MAX64
      modifies this, gp, db
      ensures gp.gas <= old(gp.gas)
      ensures r.Done? ==>
                && gp.gas + r.usedGas == old(gp.gas) && r.usedGas <= msg.gas
                && 2 * r.usedGas >= IntrinsicCost(msg.data, msg.create && homestead)
                && r.usedMoney == Fee(r.usedGas, msg.gasPrice)
                && Sum(db.state.balances) + r.usedMoney == Sum(old(db.state).balances)
      ensures var cost := IntrinsicCost(msg.data, msg.create && homestead);
              r.Done? <==>
                && Affords(old(db.state), old(gp.gas), msg) && cost <= MAX64 && cost <= msg.gas
                && !vm(Entered(old(db.state), msg), msg, msg.gas - cost).uncovered
      ensures r.Done? ==> Executed(old(db.state), db.state, msg, vm, homestead, r.usedGas, r.vmFailed)
      ensures r.Failed? && Stuck(Some(r.why)) <==> Blocked(old(db.state), old(gp.gas), msg)
      ensures r.Failed? ==> r.why != Crashed
      ensures r.Failed? ==> gp.gas == old(gp.gas) - (if Affords(old(db.state), old(gp.gas), msg) then msg.gas else 0)
    {
      hide Conserving, IntrinsicCost, Sum, Fee, Executed, Entered;
      ghost var start := db.state;
      var err := PreCheck();
      if err.Some? {
        return Failed(err.value);
      }
      r := Proceed(vm, homestead, start);
    }

    /** Run a message whose gas is paid for. */
    method Proceed(vm: Vm, homestead: bool, ghost start: State) returns (r: Transition)
      requires Conserving(vm) && gas == initialGas == msg.gas && gp.gas + gas <= MAX64 && |msg.data| <= MAX64
      requires db.state == Paid(start, msg)
      modifies this, gp, db
      ensures gp.gas <= old(gp.gas) + msg.gas && (r.Failed? ==> gp.gas == old(gp.gas) && r.why != Crashed)
      ensures r.Done? ==>
                && gp.gas + r.usedGas == old(gp.gas) + msg.gas && r.usedGas <= msg.gas
                && 2 * r.usedGas >= IntrinsicCost(msg.data, msg.create && homestead)
                && r.usedMoney == Fee(r.usedGas, msg.gasPrice)
                && Sum(db.state.balances) + r.usedMoney == Sum(start.balances)
                && Executed(start, db.state, msg, vm, homestead, r.usedGas, r.vmFailed)
      ensures var cost := IntrinsicCost(msg.data, msg.create && homestead);
              r.Done? <==>
                cost <= MAX64 && cost <= msg.gas && !vm(Entered(start, msg), msg, msg.gas - cost).uncovered
      ensures r.Failed? ==> !Stuck(Some(r.why))
    {
      hide Conserving, IntrinsicCost, Sum, Fee, Executed, NetGas, Credit;
      var cost := IntrinsicGas(msg.data, msg.create && homestead);
      if cost.None? {
        return Failed(OutOfGas);
      }
      var ok := UseGas(cost.value);
      if !ok {
        return Failed(OutOfGas);
      }
      var before := if msg.create then db.state else db.state.Bump(msg.from);
      var out := vm(before, msg, gas);
      VmFacts(vm, before, msg, gas);
      db.state, gas := out.state, out.gasLeft;
      if out.uncovered {
        return Failed(InsufficientForValue);
      }
      RefundGas(out.refund);
      var used := initialGas - gas;
      MoneyConserved(start, before, out.state, msg, gas);
      RunIs(start, db.state, msg, vm, homestead, cost.value, used);
      return Done(used, Fee(used, msg.gasPrice), out.failed);
    }
  }

  lemma RunIs(s: State, s': State, msg: Message, vm: Vm, homestead: bool, cost: nat, used: nat)
    requires cost == IntrinsicCost(msg.data, msg.create && homestead) <= msg.gas
    requires var out := vm(Entered(s, msg), msg, msg.gas - cost);
             && out.gasLeft <= msg.gas && used == NetGas(msg.gas - out.gasLeft, out.refund) <= msg.gas
             && s' == out.state.AddBalance(msg.from, Fee(msg.gas - used, msg.gasPrice))
    ensures Executed(s, s', msg, vm, homestead, used, vm(Entered(s, msg), msg, msg.gas - cost).failed)
  {
  }

  lemma VmFacts(vm: Vm, s: State, m: Message, g: nat)
    requires Conserving(vm)
    ensures vm(s, m, g).gasLeft <= g && Sum(vm(s, m, g).state.balances) == Sum(s.balances)
  {
  }

  /** Paying for all gas, running, and taking back the price of the gas left. */
  lemma MoneyConserved(start: State, before: State, after: State, msg: Message, gas: nat)
    requires gas <= msg.gas && before.balances == start.AddBalance(msg.from, -Fee(msg.gas, msg.gasPrice)).balances
    requires Sum(after.balances) == Sum(before.balances)
    ensures var back := after.AddBalance(msg.from, Fee(gas, msg.gasPrice));
            Sum(back.balances) + Fee(msg.gas - gas, msg.gasPrice) == Sum(start.balances)
  {
    hide Sum, Fee;
    var paid, back := Fee(msg.gas, msg.gasPrice), Fee(gas, msg.gasPrice);
    SumAdded(start, msg.from, -paid);
    SumAdded(after, msg.from, back);
    PriceDifference(msg.gas, gas, msg.gasPrice);
  }

  lemma PriceDifference(gas: nat, left: nat, price: nat)
    requires left <= gas
    ensures Fee(gas - left, price) == Fee(gas, price) - Fee(left, price)
  {
  }

  /** A transaction to an ordinary address, or to one of the chain's own contracts. */
  datatype Transaction = Plain(msg: Message) | ChainCall(msg: Message, contract: Contract)

  datatype Receipt = Receipt(cumulative: nat, gasUsed: nat, failed: bool)

  ghost predicate Admissible(txs: seq<Transaction>) {
    forall i :: 0 <= i < |txs| ==> Ordinary(txs[i])
  }

  ghost predicate Ordinary(tx: Transaction) {
    |tx.msg.data| <= MAX64 && (tx.ChainCall? ==> Neutral(tx.contract))
  }

  /** What a transaction may be charged: chain calls their fixed gas, others no more than they
      offered, each at its own price. */
  ghost predicate Charged(tx: Transaction, gas: int, fee: int) {
    && 0 <= gas <= tx.msg.gas && fee == Fee(gas, tx.msg.gasPrice)
    && (tx.ChainCall? ==> gas == tx.contract.requiredGas)
  }

  /** What a chain contract leaves: the callback's state, with the unused gas returned and the
      nonce raised. */
  ghost predicate Called(msg: Message, contract: Contract, s: State, s': State, used: int) {
    var out := contract.apply(Paid(s, msg), msg);
    && out.Some? && used == contract.requiredGas <= msg.gas
    && s' == out.value.AddBalance(msg.from, Fee(msg.gas - contract.requiredGas, msg.gasPrice)).Bump(msg.from)
  }

  ghost predicate Applied(tx: Transaction, vm: Vm, homestead: bool, s: State, s': State, used: int) {
    match tx
    case Plain(msg) => exists failed :: Executed(s, s', msg, vm, homestead, used, failed)
    case ChainCall(msg, contract) => Called(msg, contract, s, s', used)
  }

  /** A call to a chain contract too short to name a function. */
  predicate Crashes(tx: Transaction) {
    tx.ChainCall? && |tx.msg.data| < ID_LENGTH
  }

  /** A call to a chain contract names a function, and one that is allowed on this chain. */
  predicate Allowed(tx: Transaction) {
    !Crashes(tx) && (tx.ChainCall? ==> tx.contract.admitted)
  }

  /** Whether a transaction gets as far as taking its gas allowance out of the pool. */
  ghost predicate BuysGas(tx: Transaction, s: State, pool: nat) {
    Allowed(tx) && Affords(s, pool, tx.msg)
  }

  /** Whether a transaction goes through on this state with this much gas in the pool. */
  ghost predicate Succeeds(tx: Transaction, vm: Vm, homestead: bool, s: State, pool: nat) {
    Affords(s, pool, tx.msg) &&
    match tx
    case Plain(msg) =>
      var cost := IntrinsicCost(msg.data, msg.create && homestead);
      cost <= MAX64 && cost <= msg.gas && !vm(Entered(s, msg), msg, msg.gas - cost).uncovered
    case ChainCall(msg, contract) =>
      && Allowed(tx) && contract.requiredGas <= msg.gas
      && msg.value <= Paid(s, msg).Balance(msg.from) && contract.apply(Paid(s, msg), msg).Some?
  }

  /** Whether a transaction fails in a way that puts off the rest of its account. */
  ghost predicate GivesUp(tx: Transaction, s: State, pool: nat) {
    Allowed(tx) && Blocked(s, pool, tx.msg)
  }

  /** The state and the gas left when a transaction comes up. */
  datatype Turn = Turn(state: State, pool: nat)

  /** One turn of filling: a transaction that goes through takes effect. Any other leaves the
      state alone, and costs its whole gas allowance if it gets as far as buying it, else nothing. */
  ghost predicate TakesTurn(tx: Transaction, vm: Vm, homestead: bool, a: Turn, b: Turn) {
    if Succeeds(tx, vm, homestead, a.state, a.pool) then Applied(tx, vm, homestead, a.state, b.state, a.pool - b.pool)
    else b.state == a.state && b.pool == a.pool - (if BuysGas(tx, a.state, a.pool) then tx.msg.gas else 0)
  }

  ghost predicate Turns(txs: seq<Transaction>, vm: Vm, homestead: bool, turns: seq<Turn>) {
    && 0 < |turns| <= |txs| + 1
    && forall i :: 0 <= i < |turns| - 1 ==> TakesTurn(txs[i], vm, homestead, turns[i], turns[i + 1])
  }

  /** The transactions that went through in their turn. */
  ghost function Chosen(txs: seq<Transaction>, vm: Vm, homestead: bool, turns: seq<Turn>, n: nat): seq<Transaction>
    requires n < |turns| <= |txs| + 1
  {
    if n == 0 then []
    else
      Chosen(txs, vm, homestead, turns, n - 1) +
      (if Succeeds(txs[n - 1], vm, homestead, turns[n - 1].state, turns[n - 1].pool) then [txs[n - 1]] else [])
  }

  lemma {:induction false} ChosenKept(txs: seq<Transaction>, vm: Vm, homestead: bool, turns: seq<Turn>, more: Turn,
                                      n: nat)
    requires n < |turns| <= |txs|
    ensures Chosen(txs, vm, homestead, turns + [more], n) == Chosen(txs, vm, homestead, turns, n)
  {
    hide Succeeds;
    if n > 0 {
      ChosenKept(txs, vm, homestead, turns, more, n - 1);
    }
  }

  /** The next turn. */
  lemma TurnTaken(txs: seq<Transaction>, vm: Vm, homestead: bool, turns: seq<Turn>, more: Turn)
    requires Turns(txs, vm, homestead, turns) && |turns| <= |txs|
    requires TakesTurn(txs[|turns| - 1], vm, homestead, turns[|turns| - 1], more)
    ensures Turns(txs, vm, homestead, turns + [more])
    ensures var n, t := |turns|, turns[|turns| - 1];
            Chosen(txs, vm, homestead, turns + [more], n) ==
            Chosen(txs, vm, homestead, turns, n - 1) +
            (if Succeeds(txs[n - 1], vm, homestead, t.state, t.pool) then [txs[n - 1]] else [])
  {
    hide Succeeds, TakesTurn;
    ChosenKept(txs, vm, homestead, turns, more, |turns| - 1);
  }

  /** What the sender pays and which nonce it has when the machine starts: the whole gas allowance,
      and one more for a call, which a creation leaves to the machine. Nobody else is touched. */
  lemma StartsFrom(s: State, msg: Message, a: Address)
    ensures Entered(s, msg).Balance(a) == s.Balance(a) - (if a == msg.from then msg.gas * msg.gasPrice else 0)
    ensures Entered(s, msg).Nonce(a) == s.Nonce(a) + (if a == msg.from && !msg.create then 1 else 0)
  {
  }

  /** What the sender has after a run of the machine: what the machine left, and the price of the
      unused gas. */
  lemma EndsWith(s: State, s': State, msg: Message, vm: Vm, homestead: bool, used: int, failed: bool, a: Address)
    requires Executed(s, s', msg, vm, homestead, used, failed)
    ensures var out := vm(Entered(s, msg), msg, msg.gas - IntrinsicCost(msg.data, msg.create && homestead)).state;
            && s'.Balance(a) == out.Balance(a) + (if a == msg.from then (msg.gas - used) * msg.gasPrice else 0)
            && s'.Nonce(a) == out.Nonce(a)
  {
    hide IntrinsicCost;
  }

  /** The same for a chain contract: the callback starts without the sender's whole gas allowance;
      afterwards the unused gas is paid back and the sender's nonce is one higher. */
  lemma CallEndsWith(msg: Message, contract: Contract, s: State, s': State, used: int, a: Address)
    requires Called(msg, contract, s, s', used)
    ensures var start := Paid(s, msg);
            && start.Balance(a) == s.Balance(a) - (if a == msg.from then msg.gas * msg.gasPrice else 0)
            && start.Nonce(a) == s.Nonce(a)
    ensures var out := contract.apply(Paid(s, msg), msg).value;
            && s'.Balance(a) == out.Balance(a) + (if a == msg.from then (msg.gas - used) * msg.gasPrice else 0)
            && s'.Nonce(a) == out.Nonce(a) + (if a == msg.from then 1 else 0)
  {
  }

  /** The machine or the callback lowers no nonce on behalf of this transaction, and a creation
      raises its sender's. */
  ghost predicate Lifts(tx: Transaction, vm: Vm) {
    match tx
    case Plain(msg) =>
      forall s, g, a ::
        !vm(s, msg, g).uncovered ==>
          s.Nonce(a) + (if a == msg.from && msg.create then 1 else 0) <= vm(s, msg, g).state.Nonce(a)
    case ChainCall(msg, contract) =>
      forall s, a :: contract.apply(s, msg).Some? ==> s.Nonce(a) <= contract.apply(s, msg).value.Nonce(a)
  }

  /** The machine or the callback leaves account a's nonce alone, but for one more for a creation
      by a itself. */
  ghost predicate Spares(tx: Transaction, vm: Vm, a: Address) {
    match tx
    case Plain(msg) =>
      forall s, g ::
        !vm(s, msg, g).uncovered ==>
          vm(s, msg, g).state.Nonce(a) == s.Nonce(a) + (if a == msg.from && msg.create then 1 else 0)
    case ChainCall(msg, contract) =>
      forall s :: contract.apply(s, msg).Some? ==> contract.apply(s, msg).value.Nonce(a) == s.Nonce(a)
  }

  /** A transaction that goes through has its sender's nonce and uses it up. */
  lemma UsesNonce(tx: Transaction, vm: Vm, homestead: bool, s: State, pool: nat, s': State, used: int, a: Address)
    requires Succeeds(tx, vm, homestead, s, pool) && Applied(tx, vm, homestead, s, s', used)
    ensures tx.msg.checkNonce ==> s.Nonce(tx.msg.from) == tx.msg.nonce
    ensures Lifts(tx, vm) ==> s.Nonce(a) + (if a == tx.msg.from then 1 else 0) <= s'.Nonce(a)
    ensures Spares(tx, vm, a) ==> s'.Nonce(a) == s.Nonce(a) + (if a == tx.msg.from then 1 else 0)
  {
    hide IntrinsicCost, Entered;
    StartsFrom(s, tx.msg, a);
    match tx {
      case Plain(msg) =>
        var failed :| Executed(s, s', msg, vm, homestead, used, failed);
        EndsWith(s, s', msg, vm, homestead, used, failed, a);
      case ChainCall(msg, contract) =>
        CallEndsWith(msg, contract, s, s', used, a);
    }
  }

  /** Nobody owes anything. */
  ghost predicate Solvent(s: State) {
    forall a :: 0 <= s.Balance(a)
  }

  /** The machine or the callback makes no balance negative, if the value is covered. */
  ghost predicate Prudent(tx: Transaction, vm: Vm) {
    match tx
    case Plain(msg) => forall s, g :: Solvent(s) && !vm(s, msg, g).uncovered ==> Solvent(vm(s, msg, g).state)
    case ChainCall(msg, contract) =>
      forall s ::
        Solvent(s) && msg.value <= s.Balance(msg.from) && contract.apply(s, msg).Some? ==>
          Solvent(contract.apply(s, msg).value)
  }

  /** A transaction that goes through is paid for. */
  lemma StaysSolvent(tx: Transaction, vm: Vm, homestead: bool, s: State, pool: nat, s': State, used: int)
    requires Succeeds(tx, vm, homestead, s, pool) && Applied(tx, vm, homestead, s, s', used)
    requires Prudent(tx, vm) && Solvent(s)
    ensures Solvent(s')
  {
    AllowancePaid(s, tx.msg, pool);
    hide IntrinsicCost, Entered, Paid, Affords, Fee;
    match tx {
      case Plain(msg) =>
        var failed :| Executed(s, s', msg, vm, homestead, used, failed);
        forall a ensures 0 <= s'.Balance(a) {
          EndsWith(s, s', msg, vm, homestead, used, failed, a);
          NoNegativeFee(msg.gas - used, msg.gasPrice);
        }
      case ChainCall(msg, contract) =>
        forall a ensures 0 <= s'.Balance(a) {
          CallEndsWith(msg, contract, s, s', used, a);
          NoNegativeFee(msg.gas - used, msg.gasPrice);
        }
    }
  }

  lemma AllowancePaid(s: State, msg: Message, pool: nat)
    requires Affords(s, pool, msg) && Solvent(s)
    ensures Solvent(Entered(s, msg)) && Solvent(Paid(s, msg))
  {
    forall a ensures 0 <= Entered(s, msg).Balance(a) == Paid(s, msg).Balance(a) {
      StartsFrom(s, msg, a);
    }
  }

  lemma NoNegativeFee(gas: nat, price: nat)
    ensures 0 <= gas * price
  {
  }

  function CountOf(txs: seq<Transaction>, a: Address): nat {
    if txs == [] then 0
    else CountOf(txs[..|txs| - 1], a) + (if txs[|txs| - 1].msg.from == a then 1 else 0)
  }

  /** Checked transactions of one sender come with rising nonces, so none has a nonce twice. */
  ghost predicate Rising(done: seq<Transaction>) {
    forall i, j | 0 <= i < j < |done| && done[i].msg.from == done[j].msg.from ::
      done[i].msg.checkNonce && done[j].msg.checkNonce ==> done[i].msg.nonce < done[j].msg.nonce
  }

  ghost predicate Behind(done: seq<Transaction>, s: State) {
    forall i :: 0 <= i < |done| && done[i].msg.checkNonce ==> done[i].msg.nonce < s.Nonce(done[i].msg.from)
  }

  /** Account a's transactions each raised its nonce by one, and the checked ones had it before. */
  ghost predicate Numbered(done: seq<Transaction>, s0: State, s: State, a: Address) {
    && s.Nonce(a) == s0.Nonce(a) + CountOf(done, a)
    && forall i :: 0 <= i < |done| && done[i].msg.checkNonce && done[i].msg.from == a ==>
         done[i].msg.nonce == s0.Nonce(a) + CountOf(done[..i], a)
  }

  ghost predicate AllLift(done: seq<Transaction>, vm: Vm) {
    forall i :: 0 <= i < |done| ==> Lifts(done[i], vm)
  }

  ghost predicate AllSpare(done: seq<Transaction>, vm: Vm, a: Address) {
    forall i :: 0 <= i < |done| ==> Spares(done[i], vm, a)
  }

  ghost predicate AllPrudent(done: seq<Transaction>, vm: Vm) {
    forall i :: 0 <= i < |done| ==> Prudent(done[i], vm)
  }

  /** What the transactions gone through so far say about nonces and balances. */
  ghost predicate InTurn(done: seq<Transaction>, vm: Vm, s0: State, s: State) {
    && (AllPrudent(done, vm) && Solvent(s0) ==> Solvent(s))
    && (AllLift(done, vm) ==> Rising(done) && Behind(done, s))
    && (forall a :: AllSpare(done, vm, a) ==> Numbered(done, s0, s, a))
  }

  lemma InTurnNext(done: seq<Transaction>, tx: Transaction, vm: Vm, homestead: bool, s0: State, s: State, pool: nat,
                   s': State, used: int)
    requires InTurn(done, vm, s0, s)
    requires Succeeds(tx, vm, homestead, s, pool) && Applied(tx, vm, homestead, s, s', used)
    ensures InTurn(done + [tx], vm, s0, s')
  {
    hide Succeeds, Applied, Lifts, Spares, Prudent, Solvent;
    var done' := done + [tx];
    assert done'[..|done|] == done && done'[|done|] == tx;
    if AllPrudent(done', vm) && Solvent(s0) {
      forall i | 0 <= i < |done| ensures Prudent(done[i], vm) { assert Prudent(done'[i], vm); }
      StaysSolvent(tx, vm, homestead, s, pool, s', used);
    }
    if AllLift(done', vm) {
      assert AllLift(done, vm) by {
        forall i | 0 <= i < |done| ensures Lifts(done[i], vm) { assert Lifts(done'[i], vm); }
      }
      forall a ensures s.Nonce(a) + (if a == tx.msg.from then 1 else 0) <= s'.Nonce(a) {
        UsesNonce(tx, vm, homestead, s, pool, s', used, a);
      }
    }
    UsesNonce(tx, vm, homestead, s, pool, s', used, tx.msg.from);
    forall a | AllSpare(done', vm, a) ensures Numbered(done', s0, s', a) {
      forall i | 0 <= i < |done| ensures Spares(done[i], vm, a) { assert Spares(done'[i], vm, a); }
      UsesNonce(tx, vm, homestead, s, pool, s', used, a);
      NumberedNext(done, tx, s0, s, s', a);
    }
  }

  lemma NumberedNext(done: seq<Transaction>, tx: Transaction, s0: State, s: State, s': State, a: Address)
    requires Numbered(done, s0, s, a) && (tx.msg.checkNonce ==> s.Nonce(tx.msg.from) == tx.msg.nonce)
    requires s'.Nonce(a) == s.Nonce(a) + (if a == tx.msg.from then 1 else 0)
    ensures Numbered(done + [tx], s0, s', a)
  {
    var done' := done + [tx];
    assert done'[..|done|] == done;
    forall i | 0 <= i < |done'| && done'[i].msg.checkNonce && done'[i].msg.from == a
      ensures done'[i].msg.nonce == s0.Nonce(a) + CountOf(done'[..i], a)
    {
      assert i < |done| ==> done'[..i] == done[..i];
    }
  }

  lemma NoneInTurn(vm: Vm, s: State)
    ensures InTurn([], vm, s, s)
  {
  }

  /** Cumulative gas is the running sum of the gas of the receipts. */
  predicate Running(rs: seq<Receipt>) {
    forall i :: 0 <= i < |rs| ==> RunsAt(rs, i)
  }

  predicate RunsAt(rs: seq<Receipt>, i: nat)
    requires i < |rs|
  {
    rs[i].cumulative <= MAX64 && rs[i].cumulative == rs[i].gasUsed + (if i == 0 then 0 else rs[i - 1].cumulative)
  }

  lemma RunningMore(rs: seq<Receipt>, used: nat, gas: nat, failed: bool)
    requires Running(rs) && EndsAt(rs, used) && used + gas <= MAX64
    ensures var rs' := rs + [Receipt(used + gas, gas, failed)]; Running(rs') && EndsAt(rs', used + gas)
  {
    var rs' := rs + [Receipt(used + gas, gas, failed)];
    forall i | 0 <= i < |rs'| ensures RunsAt(rs', i) {
      assert i < |rs| ==> RunsAt(rs, i);
    }
  }

  /** The receipts end at this cumulative value. */
  predicate EndsAt(rs: seq<Receipt>, used: nat) {
    used == if rs == [] then 0 else rs[|rs| - 1].cumulative
  }

  /** The block being processed or filled. */
  class Block {
    const gp: GasPool
    const db: StateDb
    const limit: nat
    var used: nat
    var fees: int
    var receipts: seq<Receipt>
    /** All the money there was at the start. */
    ghost const money: int

    constructor (limit: nat, s: State)
      requires limit <= MAX64
      ensures this.limit == limit && money == Sum(s.balances) && db.state == s && receipts == [] && used == 0 &&
              fees == 0
      ensures gp.gas == limit && fresh(gp) && fresh(db) && Balanced()
    {
      this.limit, used, fees, receipts, money := limit, 0, 0, [], Sum(s.balances);
      gp := new GasPool(limit);
      db := new StateDb(s);
    }

    /** Money is conserved, the receipts add up, and the gas about fits a word. */
    ghost predicate Balanced()
      reads this, gp, db
    {
      && limit <= MAX64 && used + gp.gas <= MAX64
      && Sum(db.state.balances) + fees == money
      && Running(receipts) && EndsAt(receipts, used)
    }

    method Record(gas: nat, price: nat, failed: bool)
      requires used + gas <= MAX64 && Running(receipts) && EndsAt(receipts, used)
      modifies this`used, this`fees, this`receipts
      ensures used == old(used) + gas && fees == old(fees) + Fee(gas, price)
      ensures receipts == old(receipts) + [Receipt(used, gas, failed)] && Running(receipts) && EndsAt(receipts, used)
    {
      hide Running, EndsAt;
      RunningMore(receipts, used, gas, failed);
      used := used + gas;
      fees := fees + Fee(gas, price);
      receipts := receipts + [Receipt(used, gas, failed)];
    }

    /** Run one transaction. On success exactly the gas used leaves the pool; on failure nothing
        is recorded, and the gas pool and the state are left as they are at that point. */
    method ApplyTransactionEx(tx: Transaction, vm: Vm, homestead: bool) returns (r: Option<Failure>)
      requires Balanced() && Conserving(vm) && Ordinary(tx)
      modifies this`used, this`fees, this`receipts, gp, db
      ensures r.None? ==> Balanced() && used + gp.gas == old(used + gp.gas) && |receipts| == |old(receipts)| + 1
      ensures r.None? ==> receipts[..|old(receipts)|] == old(receipts)
      ensures r.None? ==> Charged(tx, used - old(used), fees - old(fees))
      ensures r.None? ==> Applied(tx, vm, homestead, old(db.state), db.state, used - old(used))
      ensures r.None? <==> Succeeds(tx, vm, homestead, old(db.state), old(gp.gas))
      ensures Stuck(r) <==> GivesUp(tx, old(db.state), old(gp.gas))
      ensures r == Some(Crashed) <==> Crashes(tx)
      ensures r.Some? ==>
                && used == old(used) && fees == old(fees) && receipts == old(receipts)
                && gp.gas == old(gp.gas) - (if BuysGas(tx, old(db.state), old(gp.gas)) then tx.msg.gas else 0)
    {
      hide Conserving, Ordinary, Neutral, Running, EndsAt, Sum, IntrinsicCost, Fee;
      OrdinaryFacts(tx);
      if tx.Plain? {
        var st := new StateTransition(gp, db, tx.msg);
        var t := st.TransitionDbEx(vm, homestead);
        if t.Failed? {
          return Some(t.why);
        }
        Record(t.usedGas, tx.msg.gasPrice, t.vmFailed);
        return None;
      }
      r := ApplyChainCall(tx.msg, tx.contract);
    }

    /** The branch for chain contracts: a fixed amount of gas and a callback. */
    method ApplyChainCall(msg: Message, contract: Contract) returns (r: Option<Failure>)
      requires Balanced() && Neutral(contract)
      modifies this`used, this`fees, this`receipts, gp, db
      ensures r.None? ==> Balanced() && used + gp.gas == old(used + gp.gas) && |receipts| == |old(receipts)| + 1
      ensures r.None? ==> receipts[..|old(receipts)|] == old(receipts)
      ensures r.None? ==> Charged(ChainCall(msg, contract), used - old(used), fees - old(fees))
      ensures r.None? ==> Called(msg, contract, old(db.state), db.state, used - old(used))
      ensures r.None? <==>
                && Allowed(ChainCall(msg, contract)) && Affords(old(db.state), old(gp.gas), msg)
                && contract.requiredGas <= msg.gas
                && msg.value <= Paid(old(db.state), msg).Balance(msg.from)
                && contract.apply(Paid(old(db.state), msg), msg).Some?
      ensures Stuck(r) <==> GivesUp(ChainCall(msg, contract), old(db.state), old(gp.gas))
      ensures r == Some(Crashed) <==> |msg.data| < ID_LENGTH
      ensures r.Some? ==>
                && used == old(used) && fees == old(fees) && receipts == old(receipts)
                && gp.gas == old(gp.gas) -
                             (if BuysGas(ChainCall(msg, contract), old(db.state), old(gp.gas)) then msg.gas else 0)
    {
      hide Neutral, Running, EndsAt, Sum, Fee;
      if |msg.data| < ID_LENGTH {
        return Some(Crashed);
      }
      if !contract.admitted {
        return Some(NotAllowed);
      }
      if msg.checkNonce {
        var nonce := db.state.Nonce(msg.from);
        if nonce < msg.nonce {
          return Some(NonceTooHigh);
        } else if nonce > msg.nonce {
          return Some(NonceTooLow);
        }
      }
      var start := db.state;
      if start.Balance(msg.from) < Fee(msg.gas, msg.gasPrice) {
        return Some(InsufficientForGas);
      }
      var ok := gp.SubGas(msg.gas);
      if !ok {
        return Some(GasLimitReached);
      }
      db.state := db.state.AddBalance(msg.from, -Fee(msg.gas, msg.gasPrice));
      var gas := contract.requiredGas;
      if msg.gas < gas {
        return Some(OutOfGas);
      }
      if db.state.Balance(msg.from) < msg.value {
        return Some(InsufficientForValue);
      }
      var before := db.state;
      var out := contract.apply(before, msg);
      NeutralFacts(contract, before, msg);
      if out.None? {
        return Some(Rejected);
      }
      db.state := out.value;
      var left := msg.gas - gas;
      db.state := db.state.AddBalance(msg.from, Fee(left, msg.gasPrice));
      gp.AddGas(left);
      MoneyConserved(start, before, out.value, msg, left);
      Record(gas, msg.gasPrice, false);
      db.state := db.state.Bump(msg.from);
      return None;
    }

    /** Process a block: every transaction has to succeed, and the first that does not fails it. */
    method Process(txs: seq<Transaction>, vm: Vm, homestead: bool) returns (r: Option<Failure>, ghost turns: seq<Turn>)
      requires Balanced() && receipts == [] && gp.gas == limit && Conserving(vm) && Admissible(txs)
      modifies this`used, this`fees, this`receipts, gp, db
      ensures r.None? ==> Balanced() && used + gp.gas == limit && |receipts| == |txs|
      ensures Turns(txs, vm, homestead, turns) && turns[0] == old(Turn(db.state, gp.gas))
      ensures Chosen(txs, vm, homestead, turns, |turns| - 1) == txs[..|turns| - 1]
      ensures r.None? ==> |turns| == |txs| + 1 && turns[|txs|] == Turn(db.state, gp.gas)
      ensures r.Some? ==>
                && |turns| <= |txs|
                && var last := |turns| - 1; !Succeeds(txs[last], vm, homestead, turns[last].state, turns[last].pool)
      ensures InTurn(txs[..|turns| - 1], vm, old(db.state), turns[|turns| - 1].state)
    {
      hide Conserving, Ordinary, Succeeds, Applied, TakesTurn, Turns, Running, EndsAt, Sum, InTurn;
      NoneInTurn(vm, db.state);
      turns := [Turn(db.state, gp.gas)];
      FirstTurn(txs, vm, homestead, turns[0]);
      NothingUsed(used);
      for i := 0 to |txs|
        invariant Balanced() && used + gp.gas == limit && |receipts| == i
        invariant |turns| == i + 1 && Turns(txs, vm, homestead, turns)
        invariant turns[0] == old(Turn(db.state, gp.gas)) && turns[i] == Turn(db.state, gp.gas)
        invariant Chosen(txs, vm, homestead, turns, i) == txs[..i]
        invariant InTurn(txs[..i], vm, old(db.state), db.state)
      {
        r := ApplyTransactionEx(txs[i], vm, homestead);
        if r.Some? {
          return;
        }
        TurnIs(txs[i], vm, homestead, turns[i], Turn(db.state, gp.gas));
        TurnTaken(txs, vm, homestead, turns, Turn(db.state, gp.gas));
        assert txs[..i + 1] == txs[..i] + [txs[i]];
        InTurnNext(txs[..i], txs[i], vm, homestead, old(db.state), turns[i].state, turns[i].pool, db.state,
                   turns[i].pool - gp.gas);
        turns := turns + [Turn(db.state, gp.gas)];
      }
      r := None;
    }

    /** Try a transaction while filling a block: a failing one is undone, but the gas it took out
        of the pool is not put back. */
    method Attempt(tx: Transaction, vm: Vm, homestead: bool) returns (r: Option<Failure>)
      requires Balanced() && Conserving(vm) && Ordinary(tx)
      modifies this`used, this`fees, this`receipts, gp, db
      ensures Balanced() && |receipts| == |old(receipts)| + (if r.None? then 1 else 0)
      ensures TakesTurn(tx, vm, homestead, old(Turn(db.state, gp.gas)), Turn(db.state, gp.gas))
      ensures r.None? <==> Succeeds(tx, vm, homestead, old(db.state), old(gp.gas))
      ensures Stuck(r) <==> GivesUp(tx, old(db.state), old(gp.gas))
      ensures r == Some(Crashed) <==> Crashes(tx)
      ensures if r.None? then used + gp.gas == old(used + gp.gas) else used == old(used)
      ensures gp.gas <= old(gp.gas)
    {
      hide Conserving, Ordinary, Succeeds, Applied, TakesTurn, Running, EndsAt, Sum, GivesUp, BuysGas, Crashes;
      var snapshot := db.state;
      r := ApplyTransactionEx(tx, vm, homestead);
      if r.Some? {
        db.state := snapshot;
      }
      TurnIs(tx, vm, homestead, old(Turn(db.state, gp.gas)), Turn(db.state, gp.gas));
    }
  }

  lemma NothingUsed(used: nat)
    requires EndsAt([], used)
    ensures used == 0
  {
  }

  lemma FirstTurn(txs: seq<Transaction>, vm: Vm, homestead: bool, t: Turn)
    ensures Turns(txs, vm, homestead, [t])
  {
  }

  lemma TurnIs(tx: Transaction, vm: Vm, homestead: bool, a: Turn, b: Turn)
    requires Succeeds(tx, vm, homestead, a.state, a.pool) ==>
               Applied(tx, vm, homestead, a.state, b.state, a.pool - b.pool)
    requires !Succeeds(tx, vm, homestead, a.state, a.pool) ==>
               b.state == a.state && b.pool == a.pool - (if BuysGas(tx, a.state, a.pool) then tx.msg.gas else 0)
    ensures TakesTurn(tx, vm, homestead, a, b)
  {
  }

  lemma OrdinaryFacts(tx: Transaction)
    requires Ordinary(tx)
    ensures |tx.msg.data| <= MAX64 && (tx.ChainCall? ==> Neutral(tx.contract))
  {
  }

  lemma NeutralFacts(c: Contract, s: State, m: Message)
    requires Neutral(c)
    ensures c.apply(s, m).Some? ==> Sum(c.apply(s, m).value.balances) == Sum(s.balances)
  {
  }

  /** Subtraction on 64-bit words. */
  function Sub64(a: nat, b: nat): (r: nat)
    ensures r <= 0xffff_ffff_ffff_ffff && (a <= MAX64 ==> (r + b) % 0x1_0000_0000_0000_0000 == a)
  {
    (a - b) % (MAX64 + 1)
  }

  /** core/blockchain.go, `SetReceiptsData`: the gas of each receipt from the cumulative values,
      in place. On the receipts of a processed block this restores what was recorded. */
  method SetReceiptsData(rs: array<Receipt>, txCount: nat) returns (ok: bool)
    modifies rs
    ensures ok <==> txCount == rs.Length
    ensures !ok ==> rs[..] == old(rs[..])
    ensures ok ==> forall j :: 0 <= j < rs.Length ==> rs[j] == Recovered(old(rs[..]), j)
  {
    hide Recovered, Sub64;
    if txCount != rs.Length {
      return false;
    }
    for j := 0 to rs.Length
      invariant forall i :: j <= i < rs.Length ==> rs[i] == old(rs[i])
      invariant forall i :: 0 <= i < j ==> rs[i] == Recovered(old(rs[..]), i)
      invariant forall i :: 0 <= i < j ==> rs[i].cumulative == old(rs[i]).cumulative
    {
      RecoveredIs(old(rs[..]), j);
      if j == 0 {
        rs[j] := rs[j].(gasUsed := rs[j].cumulative);
      } else {
        rs[j] := rs[j].(gasUsed := Sub64(rs[j].cumulative, rs[j - 1].cumulative));
      }
    }
    return true;
  }

  /** The receipt at j with its gas taken from the cumulative values. */
  function Recovered(rs: seq<Receipt>, j: nat): Receipt
    requires j < |rs|
  {
    rs[j].(gasUsed := if j == 0 then rs[j].cumulative else Sub64(rs[j].cumulative, rs[j - 1].cumulative))
  }

  lemma RecoveredIs(rs: seq<Receipt>, j: nat)
    requires j < |rs|
    ensures j == 0 ==> Recovered(rs, j) == rs[j].(gasUsed := rs[j].cumulative)
    ensures j > 0 ==> Recovered(rs, j) == rs[j].(gasUsed := Sub64(rs[j].cumulative, rs[j - 1].cumulative))
  {
  }

  /** Receipts of a processed block that were stored without their gas regain it. */
  lemma ReceiptsRecovered(rs: seq<Receipt>, stored: seq<Receipt>, i: nat)
    requires Running(rs) && |stored| == |rs| && i < |rs|
    requires forall j :: 0 <= j < |rs| ==> stored[j] == rs[j].(gasUsed := 0)
    ensures Recovered(stored, i) == rs[i]
  {
    assert RunsAt(rs, i) && stored[i] == rs[i].(gasUsed := 0);
    if i > 0 {
      assert stored[i - 1] == rs[i - 1].(gasUsed := 0);
      assert rs[i].cumulative - rs[i - 1].cumulative == rs[i].gasUsed;
    }
  }
}
