/** core/chains_info.go, `GetSideChainForLaunch`: at a block height, each pending side chain is
    kept, launched or given up, and its money is moved accordingly. */
module SideChains {
  import opened Ledgers
  import opened TxTypes

  type ChainId = nat

  const OFFICIAL_MINIMUM_DEPOSIT: int := 77_000_000_000_000_000_000_000

  datatype Validator = Validator(address: Address, deposit: int)

  datatype ChainInfo = ChainInfo(owner: Address, minValidators: nat, minDeposit: int, validators: seq<Validator>)

  datatype Pending = Pending(chain: ChainId, start: int, end: int)

  datatype Fate = Keep | Launch | GiveUp

  /** The books of the state: balances, deposits for a side chain, and chain balances. */
  datatype Books = Books(balances: map<Address, int>, deposits: map<(Address, ChainId), int>,
                         chains: map<Address, int>)
  {
    ghost function Total(): int {
      Sum(balances) + Sum(deposits) + Sum(chains)
    }

    /** A validator gets its deposit back. */
    function Refund(v: Validator, chain: ChainId): Books {
      this.(deposits := Credit(deposits, (v.address, chain), -v.deposit),
            balances := Credit(balances, v.address, v.deposit))
    }

    /** A validator's deposit goes to the side chain. */
    function HandOver(v: Validator, chain: ChainId, owner: Address): Books {
      this.(deposits := Credit(deposits, (v.address, chain), -v.deposit),
            chains := Credit(chains, owner, v.deposit))
    }

    /** The owner gets the official deposit back. */
    function Release(owner: Address): Books {
      this.(balances := Credit(balances, owner, OFFICIAL_MINIMUM_DEPOSIT),
            chains := Credit(chains, owner, -OFFICIAL_MINIMUM_DEPOSIT))
    }
  }

  function Deposits(vs: seq<Validator>): int {
    if vs == [] then 0 else Deposits(vs[..|vs| - 1]) + vs[|vs| - 1].deposit
  }

  method TotalDeposit(vs: seq<Validator>) returns (sum: int)
    ensures sum == Deposits(vs)
  {
    sum := 0;
    for i := 0 to |vs|
      invariant sum == Deposits(vs[..i])
    {
      assert vs[..i + 1][..i] == vs[..i];
      sum := sum + vs[i].deposit;
    }
    assert vs[..|vs|] == vs;
  }

  function FateOf(p: Pending, info: ChainInfo, height: int): Fate {
    if p.start > height then Keep
    else if p.end < height then GiveUp
    else if |info.validators| >= info.minValidators && Deposits(info.validators) >= info.minDeposit then Launch
    else Keep
  }

  function InfoOf(infos: map<ChainId, ChainInfo>, p: Pending): ChainInfo {
    if p.chain in infos then infos[p.chain] else ChainInfo(0, 0, 0, [])
  }

  /** The data of an entry that has started is stored. */
  predicate Readable(p: Pending, infos: map<ChainId, ChainInfo>, height: int) {
    p.start <= height ==> p.chain in infos
  }

  ghost predicate AllReadable(idx: seq<Pending>, infos: map<ChainId, ChainInfo>, height: int) {
    forall i :: 0 <= i < |idx| ==> Readable(idx[i], infos, height)
  }

  /** The pending entries with a given fate, in order. */
  function Select(idx: seq<Pending>, infos: map<ChainId, ChainInfo>, height: int, fate: Fate): seq<Pending> {
    if idx == [] then []
    else
      var p := idx[|idx| - 1];
      Select(idx[..|idx| - 1], infos, height, fate) + (if FateOf(p, InfoOf(infos, p), height) == fate then [p] else [])
  }

  function Ids(idx: seq<Pending>): seq<ChainId> {
    seq(|idx|, i requires 0 <= i < |idx| => idx[i].chain)
  }

  /** The books after the first n validators were refunded. */
  function Refunded(b: Books, vs: seq<Validator>, chain: ChainId): Books {
    if vs == [] then b else Refunded(b, vs[..|vs| - 1], chain).Refund(vs[|vs| - 1], chain)
  }

  function HandedOver(b: Books, vs: seq<Validator>, chain: ChainId, owner: Address): Books {
    if vs == [] then b else HandedOver(b, vs[..|vs| - 1], chain, owner).HandOver(vs[|vs| - 1], chain, owner)
  }

  function Settled(b: Books, p: Pending, info: ChainInfo, height: int): Books {
    match FateOf(p, info, height)
    case Keep => b
    case GiveUp => Refunded(b, info.validators, p.chain).Release(info.owner)
    case Launch => HandedOver(b, info.validators, p.chain, info.owner)
  }

  function AllSettled(b: Books, idx: seq<Pending>, infos: map<ChainId, ChainInfo>, height: int): Books {
    if idx == [] then b
    else
      var p := idx[|idx| - 1];
      Settled(AllSettled(b, idx[..|idx| - 1], infos, height), p, InfoOf(infos, p), height)
  }

  /** What account a joined with. */
  function Joined(vs: seq<Validator>, a: Address): int {
    if vs == [] then 0
    else Joined(vs[..|vs| - 1], a) + (if vs[|vs| - 1].address == a then vs[|vs| - 1].deposit else 0)
  }

  /** Started and not over, with enough validators and enough deposits. */
  ghost predicate Ready(p: Pending, info: ChainInfo, height: int) {
    && p.start <= height <= p.end && |info.validators| >= info.minValidators
    && Deposits(info.validators) >= info.minDeposit
  }

  ghost predicate Over(p: Pending, height: int) {
    p.start <= height && p.end < height
  }

  /** What an entry brings account a: its deposits back, and the owner the official deposit. */
  ghost function Regained(p: Pending, info: ChainInfo, height: int, a: Address): int {
    if Over(p, height) then Joined(info.validators, a) + (if a == info.owner then OFFICIAL_MINIMUM_DEPOSIT else 0)
    else 0
  }

  /** What an entry brings account a's chain balance: all deposits to the owner, or the official
      deposit out of it. */
  ghost function Funded(p: Pending, info: ChainInfo, height: int, a: Address): int {
    if a != info.owner then 0
    else if Ready(p, info, height) then Deposits(info.validators)
    else if Over(p, height) then -OFFICIAL_MINIMUM_DEPOSIT
    else 0
  }

  /** What an entry takes out of account a's deposit for chain c. */
  ghost function Freed(p: Pending, info: ChainInfo, height: int, a: Address, c: ChainId): int {
    if c == p.chain && (Ready(p, info, height) || Over(p, height)) then Joined(info.validators, a) else 0
  }

  ghost predicate Moved(b: Books, b': Books, p: Pending, info: ChainInfo, height: int) {
    && (forall a :: Amount(b'.balances, a) == Amount(b.balances, a) + Regained(p, info, height, a))
    && (forall a :: Amount(b'.chains, a) == Amount(b.chains, a) + Funded(p, info, height, a))
    && (forall a, c :: Amount(b'.deposits, (a, c)) == Amount(b.deposits, (a, c)) - Freed(p, info, height, a, c))
  }

  ghost function AllRegained(idx: seq<Pending>, infos: map<ChainId, ChainInfo>, height: int, a: Address): int {
    if idx == [] then 0
    else
      var p := idx[|idx| - 1];
      AllRegained(idx[..|idx| - 1], infos, height, a) + Regained(p, InfoOf(infos, p), height, a)
  }

  ghost function AllFunded(idx: seq<Pending>, infos: map<ChainId, ChainInfo>, height: int, a: Address): int {
    if idx == [] then 0
    else
      var p := idx[|idx| - 1];
      AllFunded(idx[..|idx| - 1], infos, height, a) + Funded(p, InfoOf(infos, p), height, a)
  }

  ghost function AllFreed(idx: seq<Pending>, infos: map<ChainId, ChainInfo>, height: int, a: Address, c: ChainId): int {
    if idx == [] then 0
    else
      var p := idx[|idx| - 1];
      AllFreed(idx[..|idx| - 1], infos, height, a, c) + Freed(p, InfoOf(infos, p), height, a, c)
  }

  /** What a pass over an index moves: every account and every deposit gets the sum over the entries. */
  ghost predicate AllMoved(b: Books, b': Books, idx: seq<Pending>, infos: map<ChainId, ChainInfo>, height: int) {
    && (forall a :: Amount(b'.balances, a) == Amount(b.balances, a) + AllRegained(idx, infos, height, a))
    && (forall a :: Amount(b'.chains, a) == Amount(b.chains, a) + AllFunded(idx, infos, height, a))
    && (forall a, c :: Amount(b'.deposits, (a, c)) == Amount(b.deposits, (a, c)) - AllFreed(idx, infos, height, a, c))
  }

  /** Some entry for this chain is launched; some entry for it is given up. */
  ghost predicate Launched(idx: seq<Pending>, infos: map<ChainId, ChainInfo>, height: int, c: ChainId) {
    c in infos && exists i :: 0 <= i < |idx| && idx[i].chain == c && Ready(idx[i], infos[c], height)
  }

  ghost predicate Abandoned(idx: seq<Pending>, infos: map<ChainId, ChainInfo>, height: int, c: ChainId) {
    c in infos && exists i :: 0 <= i < |idx| && idx[i].chain == c && Over(idx[i], height)
  }

  class Settlement {
    var books: Books

    constructor (b: Books)
      ensures books == b
    {
      books := b;
    }

    method RefundAll(vs: seq<Validator>, chain: ChainId)
      modifies this
      ensures books == Refunded(old(books), vs, chain)
    {
      for i := 0 to |vs|
        invariant books == Refunded(old(books), vs[..i], chain)
      {
        assert vs[..i + 1][..i] == vs[..i];
        books := books.Refund(vs[i], chain);
      }
      assert vs[..|vs|] == vs;
    }

    method HandOverAll(vs: seq<Validator>, chain: ChainId, owner: Address)
      modifies this
      ensures books == HandedOver(old(books), vs, chain, owner)
    {
      for i := 0 to |vs|
        invariant books == HandedOver(old(books), vs[..i], chain, owner)
      {
        assert vs[..i + 1][..i] == vs[..i];
        books := books.HandOver(vs[i], chain, owner);
      }
      assert vs[..|vs|] == vs;
    }

    /** One entry; a crash if it has started and its data is missing. */
    method SettleOne(p: Pending, infos: map<ChainId, ChainInfo>, height: int) returns (fate: Option<Fate>)
      modifies this
      ensures fate.None? <==> !Readable(p, infos, height)
      ensures fate.None? ==> books == old(books)
      ensures fate.Some? ==>
                && fate.value == FateOf(p, InfoOf(infos, p), height)
                && books == Settled(old(books), p, InfoOf(infos, p), height)
      ensures fate == Some(Launch) <==> p.chain in infos && Ready(p, infos[p.chain], height)
      ensures fate == Some(GiveUp) <==> p.chain in infos && Over(p, height)
      ensures fate.Some? ==> Moved(old(books), books, p, InfoOf(infos, p), height)
      ensures fate == Some(Keep) ==> books == old(books)
    {
      SettledMoves(books, p, InfoOf(infos, p), height);
      if p.start > height {
        return Some(Keep);
      }
      if p.chain !in infos {
        return None;
      }
      var info := infos[p.chain];
      if p.end < height {
        RefundAll(info.validators, p.chain);
        books := books.Release(info.owner);
        return Some(GiveUp);
      }
      var total := TotalDeposit(info.validators);
      if |info.validators| >= info.minValidators && total >= info.minDeposit {
        HandOverAll(info.validators, p.chain, info.owner);
        return Some(Launch);
      }
      return Some(Keep);
    }

    /** The whole pass, compacting the index in place over the slots already read. It crashes at
        the first started entry without data, with the entries before it settled. */
    method GetSideChainForLaunch(idx: array<Pending>, infos: map<ChainId, ChainInfo>, height: int)
      returns (ready: seq<ChainId>, given: seq<ChainId>, kept: nat, changed: bool, crash: Option<nat>)
      modifies this, idx
      ensures crash.None? <==> AllReadable(old(idx[..]), infos, height)
      ensures crash.None? ==>
                && kept <= idx.Length && idx[..kept] == Select(old(idx[..]), infos, height, Keep)
                && ready == Ids(Select(old(idx[..]), infos, height, Launch))
                && given == Ids(Select(old(idx[..]), infos, height, GiveUp))
                && books == AllSettled(old(books), old(idx[..]), infos, height)
                && (changed <==> ready != [] || given != [])
                && (forall c :: c in ready <==> Launched(old(idx[..]), infos, height, c))
                && (forall c :: c in given <==> Abandoned(old(idx[..]), infos, height, c))
                && AllMoved(old(books), books, old(idx[..]), infos, height)
      ensures crash.Some? ==>
                && crash.value < idx.Length && AllReadable(old(idx[..crash.value]), infos, height)
                && !Readable(old(idx[..])[crash.value], infos, height)
                && books == AllSettled(old(books), old(idx[..crash.value]), infos, height)
                && AllMoved(old(books), books, old(idx[..crash.value]), infos, height)
    {
      hide Select, AllSettled, Settled, FateOf, AllMoved, Launched, Abandoned, Moved;
      ghost var all := idx[..];
      ready, given, kept, changed := [], [], 0, false;
      NothingYet(books, all, infos, height);
      for i := 0 to idx.Length
        invariant kept <= i && idx[i..] == all[i..] && AllReadable(all[..i], infos, height)
        invariant idx[..kept] == Select(all[..i], infos, height, Keep)
        invariant ready == Ids(Select(all[..i], infos, height, Launch))
        invariant given == Ids(Select(all[..i], infos, height, GiveUp))
        invariant books == AllSettled(old(books), all[..i], infos, height)
        invariant kept + |ready| + |given| == i
      {
        assert idx[i] == idx[i..][0] == all[i..][0] == all[i];
        var v := idx[i];
        NextEntry(old(books), all, i, infos, height);
        var fate := SettleOne(v, infos, height);
        if fate.None? {
          assert all[..i] == old(idx[..i]);
          PassMoves(old(books), all[..i], infos, height);
          return ready, given, kept, changed, Some(i);
        }
        match fate.value {
          case Keep =>
            ghost var before := idx[..kept];
            idx[kept] := v;
            kept := kept + 1;
            assert idx[..kept] == before + [v];
          case Launch => ready := ready + [v.chain];
          case GiveUp => given := given + [v.chain];
        }
        assert idx[i + 1..] == all[i..][1..] == all[i + 1..];
      }
      assert all[..idx.Length] == all;
      PassMoves(old(books), all, infos, height);
      SelectedAre(all, infos, height);
      changed := kept != idx.Length;
      crash := None;
    }
  }

  lemma {:induction false} RefundsMove(b: Books, vs: seq<Validator>, chain: ChainId)
    ensures var b' := Refunded(b, vs, chain);
            && (forall a :: Amount(b'.balances, a) == Amount(b.balances, a) + Joined(vs, a))
            && b'.chains == b.chains
            && (forall a, c :: Amount(b'.deposits, (a, c)) ==
                               Amount(b.deposits, (a, c)) - (if c == chain then Joined(vs, a) else 0))
  {
    if vs != [] {
      RefundsMove(b, vs[..|vs| - 1], chain);
    }
  }

  lemma {:induction false} HandOversMove(b: Books, vs: seq<Validator>, chain: ChainId, owner: Address)
    ensures var b' := HandedOver(b, vs, chain, owner);
            && b'.balances == b.balances
            && (forall a :: Amount(b'.chains, a) == Amount(b.chains, a) + (if a == owner then Deposits(vs) else 0))
            && (forall a, c :: Amount(b'.deposits, (a, c)) ==
                               Amount(b.deposits, (a, c)) - (if c == chain then Joined(vs, a) else 0))
  {
    if vs != [] {
      HandOversMove(b, vs[..|vs| - 1], chain, owner);
    }
  }

  /** Who pays whom when an entry is settled. */
  lemma SettledMoves(b: Books, p: Pending, info: ChainInfo, height: int)
    ensures Moved(b, Settled(b, p, info, height), p, info, height)
  {
    hide Refunded, HandedOver, Joined, Deposits;
    RefundsMove(b, info.validators, p.chain);
    HandOversMove(b, info.validators, p.chain, info.owner);
  }

  /** Who pays whom in a whole pass. */
  lemma {:induction false} PassMoves(b: Books, idx: seq<Pending>, infos: map<ChainId, ChainInfo>, height: int)
    ensures AllMoved(b, AllSettled(b, idx, infos, height), idx, infos, height)
  {
    hide Settled, Regained, Funded, Freed;
    if idx != [] {
      var p, rest := idx[|idx| - 1], idx[..|idx| - 1];
      PassMoves(b, rest, infos, height);
      SettledMoves(AllSettled(b, rest, infos, height), p, InfoOf(infos, p), height);
    }
  }

  /** Selection keeps the order of the index. */
  lemma {:induction false} SelectedInOrder(idx: seq<Pending>, infos: map<ChainId, ChainInfo>, height: int, fate: Fate)
    returns (at: seq<nat>)
    ensures var s := Select(idx, infos, height, fate);
            && |at| == |s| && (forall k :: 0 <= k < |s| ==> at[k] < |idx| && s[k] == idx[at[k]])
            && (forall j, k :: 0 <= j < k < |s| ==> at[j] < at[k])
            && (forall i :: 0 <= i < |idx| ==> (i in at <==> FateOf(idx[i], InfoOf(infos, idx[i]), height) == fate))
  {
    hide FateOf;
    at := [];
    if idx != [] {
      var n := |idx| - 1;
      at := SelectedInOrder(idx[..n], infos, height, fate);
      if FateOf(idx[n], InfoOf(infos, idx[n]), height) == fate {
        at := at + [n];
      }
    }
  }

  /** Who is launched and who is given up. */
  lemma SelectedAre(idx: seq<Pending>, infos: map<ChainId, ChainInfo>, height: int)
    requires AllReadable(idx, infos, height)
    ensures forall c :: c in Ids(Select(idx, infos, height, Launch)) <==> Launched(idx, infos, height, c)
    ensures forall c :: c in Ids(Select(idx, infos, height, GiveUp)) <==> Abandoned(idx, infos, height, c)
  {
    forall c ensures c in Ids(Select(idx, infos, height, Launch)) <==> Launched(idx, infos, height, c) {
      SelectedIs(idx, infos, height, Launch, c);
    }
    forall c ensures c in Ids(Select(idx, infos, height, GiveUp)) <==> Abandoned(idx, infos, height, c) {
      SelectedIs(idx, infos, height, GiveUp, c);
    }
  }

  lemma SelectedIs(idx: seq<Pending>, infos: map<ChainId, ChainInfo>, height: int, fate: Fate, c: ChainId)
    requires AllReadable(idx, infos, height)
    ensures c in Ids(Select(idx, infos, height, fate)) <==>
            exists i :: 0 <= i < |idx| && idx[i].chain == c && FateOf(idx[i], InfoOf(infos, idx[i]), height) == fate
  {
    hide Select, FateOf;
    var s := Select(idx, infos, height, fate);
    var at := SelectedInOrder(idx, infos, height, fate);
    if c in Ids(s) {
      var k :| 0 <= k < |s| && s[k].chain == c;
      assert at[k] in at;
    }
    if i :| 0 <= i < |idx| && idx[i].chain == c && FateOf(idx[i], InfoOf(infos, idx[i]), height) == fate {
      var k :| 0 <= k < |at| && at[k] == i;
      assert Ids(s)[k] == c;
    }
  }

  lemma NothingYet(b: Books, all: seq<Pending>, infos: map<ChainId, ChainInfo>, height: int)
    ensures AllSettled(b, all[..0], infos, height) == b
    ensures Select(all[..0], infos, height, Keep) == [] && Ids(Select(all[..0], infos, height, Launch)) == []
    ensures Ids(Select(all[..0], infos, height, GiveUp)) == []
  {
  }

  lemma NextEntry(b: Books, all: seq<Pending>, i: nat, infos: map<ChainId, ChainInfo>, height: int)
    requires i < |all|
    ensures var p := all[i]; var fate := FateOf(p, InfoOf(infos, p), height);
            && AllSettled(b, all[..i + 1], infos, height) ==
               Settled(AllSettled(b, all[..i], infos, height), p, InfoOf(infos, p), height)
            && Select(all[..i + 1], infos, height, Keep) ==
               Select(all[..i], infos, height, Keep) + (if fate == Keep then [p] else [])
            && Ids(Select(all[..i + 1], infos, height, Launch)) ==
               Ids(Select(all[..i], infos, height, Launch)) + (if fate == Launch then [p.chain] else [])
            && Ids(Select(all[..i + 1], infos, height, GiveUp)) ==
               Ids(Select(all[..i], infos, height, GiveUp)) + (if fate == GiveUp then [p.chain] else [])
  {
    assert all[..i + 1][..i] == all[..i];
  }

  /** Each single transfer leaves the total alone. */
  lemma TransfersConserve(b: Books, v: Validator, chain: ChainId, owner: Address)
    ensures b.Refund(v, chain).Total() == b.Total()
    ensures b.HandOver(v, chain, owner).Total() == b.Total()
    ensures b.Release(owner).Total() == b.Total()
  {
    hide Sum;
    SumCredited(b.deposits, (v.address, chain), -v.deposit);
    SumCredited(b.balances, v.address, v.deposit);
    SumCredited(b.chains, owner, v.deposit);
    SumCredited(b.balances, owner, OFFICIAL_MINIMUM_DEPOSIT);
    SumCredited(b.chains, owner, -OFFICIAL_MINIMUM_DEPOSIT);
  }

  lemma {:induction false} RefundsConserve(b: Books, vs: seq<Validator>, chain: ChainId, owner: Address)
    ensures Refunded(b, vs, chain).Total() == b.Total()
    ensures HandedOver(b, vs, chain, owner).Total() == b.Total()
  {
    hide Books.Total, Books.Refund, Books.HandOver;
    if vs != [] {
      var v, rest := vs[|vs| - 1], vs[..|vs| - 1];
      RefundsConserve(b, rest, chain, owner);
      TransfersConserve(Refunded(b, rest, chain), v, chain, owner);
      TransfersConserve(HandedOver(b, rest, chain, owner), v, chain, owner);
    }
  }

  /** Whatever the fates, balances, deposits and chain balances together stay the same. */
  lemma {:induction false} SettlementConserves(b: Books, idx: seq<Pending>, infos: map<ChainId, ChainInfo>, height: int)
    ensures AllSettled(b, idx, infos, height).Total() == b.Total()
  {
    hide Books.Total, Books.Release;
    if idx != [] {
      var p, rest := idx[|idx| - 1], idx[..|idx| - 1];
      var info, before := InfoOf(infos, p), AllSettled(b, rest, infos, height);
      SettlementConserves(b, rest, infos, height);
      RefundsConserve(before, info.validators, p.chain, info.owner);
      TransfersConserve(Refunded(before, info.validators, p.chain), Validator(0, 0), p.chain, info.owner);
    }
  }

  /** Kept, launched and given up are all there is. */
  lemma {:induction false} FatesPartition(idx: seq<Pending>, infos: map<ChainId, ChainInfo>, height: int)
    ensures multiset(idx) ==
            multiset(Select(idx, infos, height, Keep)) + multiset(Select(idx, infos, height, Launch)) +
            multiset(Select(idx, infos, height, GiveUp))
  {
    if idx != [] {
      var p, rest := idx[|idx| - 1], idx[..|idx| - 1];
      assert idx == rest + [p];
      FatesPartition(rest, infos, height);
    }
  }
}
