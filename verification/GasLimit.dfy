/** core/block_validator.go, `CalcGasLimit`, on 64-bit words. */
module GasLimits {
  const WORD: nat := 0x1_0000_0000_0000_0000
  const DIVISOR: nat := 1024
  const MIN_GAS_LIMIT: nat := 5000
  /** Contributions are below this. */
  const TOP: nat := WORD / DIVISOR

  function Wrap(x: int): nat {
    x % WORD
  }

  function Decay(limit: nat): nat {
    Wrap(limit / DIVISOR - 1)
  }

  function Contribution(used: nat): nat {
    Wrap(used + used / 2) / DIVISOR
  }

  /** Where the limit would go without floor and ceiling. */
  function Raw(used: nat, parent: nat): nat {
    Wrap(parent - Decay(parent) + Contribution(used))
  }

  /** The next block's gas limit after a block with this limit and gas used. */
  function CalcGasLimit(used: nat, parent: nat, floor: nat, ceil: nat): nat {
    var limit := if Raw(used, parent) < MIN_GAS_LIMIT then MIN_GAS_LIMIT else Raw(used, parent);
    if limit < floor then
      var up := Wrap(parent + Decay(parent));
      if up > floor then floor else up
    else if limit > ceil then
      var down := Wrap(parent - Decay(parent));
      if down < ceil then ceil else down
    else limit
  }

  /** The limits the source is meant for: words of at least the minimum. */
  predicate IsLimit(limit: nat) {
    MIN_GAS_LIMIT <= limit < WORD
  }

  /** Limits from which a step up stays a word. */
  predicate InBounds(limit: nat) {
    MIN_GAS_LIMIT <= limit && limit + limit / DIVISOR <= WORD
  }

  /** At most a 1024th away. */
  predicate Near(a: nat, b: nat) {
    a - a / DIVISOR <= b <= a + a / DIVISOR
  }

  lemma DecayIs(parent: nat)
    requires IsLimit(parent)
    ensures Decay(parent) == parent / DIVISOR - 1 >= 3
    ensures Wrap(parent - Decay(parent)) == parent - Decay(parent)
    ensures Wrap(parent + Decay(parent)) == parent + Decay(parent) - (if InBounds(parent) then 0 else WORD)
    ensures InBounds(parent - Decay(parent)) || parent - Decay(parent) < MIN_GAS_LIMIT
  {
  }

  /** Within bounds nothing wraps around. */
  lemma NothingWraps(used: nat, parent: nat)
    requires InBounds(parent) && used <= parent
    ensures IsLimit(parent) && parent - Decay(parent) <= Raw(used, parent) <= parent + parent / DIVISOR
  {
    DecayIs(parent);
    ContributionBound(used, parent);
    hide Contribution, Decay;
    var sum := parent - Decay(parent) + Contribution(used);
    assert 0 <= sum < WORD;
  }

  lemma ContributionBound(used: nat, parent: nat)
    requires used <= parent
    ensures 2 * Contribution(used) <= 3 * (parent / DIVISOR) + 2
  {
    assert Wrap(used + used / 2) <= used + used / 2;
  }

  /** Limits from which a 1024th up is at least the minimum and stays a word. */
  predicate HasRoom(limit: nat) {
    MIN_GAS_LIMIT <= limit + limit / DIVISOR <= WORD
  }

  /** One block moves the limit by at most a 1024th. */
  lemma StepIsSmall(used: nat, parent: nat, floor: nat, ceil: nat)
    requires HasRoom(parent) && used <= parent
    ensures Near(parent, CalcGasLimit(used, parent, floor, ceil))
  {
    if InBounds(parent) {
      NothingWraps(used, parent);
      DecayIs(parent);
      hide Raw, Decay, Wrap;
    } else {
      JustBelow(used, parent);
      hide Raw, Decay, Wrap;
    }
  }

  /** Without floor and ceiling the next limit is higher exactly if the block used two thirds of its
      limit, up to rounding, and lower exactly if it used less, down to the minimum. */
  ghost predicate FollowsUse(used: nat, parent: nat) {
    var whole, next := parent - parent % 1024, CalcGasLimit(used, parent, 0, WORD - 1);
    && (next > parent <==> used + used / 2 >= whole)
    && (next < parent <==> used + used / 2 < whole - 1024 && parent > 5000)
  }

  /** The limit follows the use exactly if half as much again as was used is still a word. */
  lemma FollowsUseIff(used: nat, parent: nat)
    requires InBounds(parent) && used <= parent
    ensures FollowsUse(used, parent) <==> used + used / 2 < WORD
  {
    NothingWraps(used, parent);
    DecayIs(parent);
    RawIs(used, parent);
    var weight, whole := Wrap(used + used / 2), parent - parent % 1024;
    assert whole == 1024 * (parent / 1024);
    if used + used / 2 >= WORD {
      assert weight == used + used / 2 - WORD;
      assert weight < whole;
    }
    hide Raw, Decay, Wrap;
    assert weight / 1024 > parent / 1024 - 1 <==> weight >= whole;
    assert weight / 1024 < parent / 1024 - 1 <==> weight < whole - 1024;
  }

  lemma RawIs(used: nat, parent: nat)
    requires InBounds(parent) && used <= parent
    ensures Raw(used, parent) == parent - (parent / 1024 - 1) + Wrap(used + used / 2) / 1024
  {
    DecayIs(parent);
    NothingWraps(used, parent);
    ContributionBound(used, parent);
    hide Decay;
  }

  /** A full block with a limit of three quarters of a word makes the limit fall. */
  lemma FullBlockFalls()
    ensures var full := 0xC000_0000_0000_0000;
            InBounds(full) && CalcGasLimit(full, full, 0, WORD - 1) < full && !FollowsUse(full, full)
  {
    var full := 0xC000_0000_0000_0000;
    FollowsUseIff(full, full);
    RawIs(full, full);
  }

  /** Just below the minimum a block can still step up to it. */
  lemma JustBelow(used: nat, parent: nat)
    requires HasRoom(parent) && parent < MIN_GAS_LIMIT && used <= parent
    ensures parent / DIVISOR == 4 && Wrap(parent + Decay(parent)) == parent + 3
    ensures Wrap(parent - Decay(parent)) == parent - 3 && Raw(used, parent) <= parent + 4
  {
    assert parent / DIVISOR == 4;
    assert Decay(parent) == 3;
    assert Contribution(used) <= 7;
  }

  /** Further below, a block jumps up to the minimum. */
  lemma JumpsUp(parent: nat)
    requires !HasRoom(parent) && parent < MIN_GAS_LIMIT
    ensures CalcGasLimit(0, parent, 0, WORD - 1) == MIN_GAS_LIMIT > parent + parent / DIVISOR
  {
    if parent < DIVISOR {
      assert Decay(parent) == WORD - 1;
      assert Raw(0, parent) == parent + 1;
    } else {
      assert Decay(parent) == parent / DIVISOR - 1;
      assert Raw(0, parent) == parent - Decay(parent);
    }
  }

  /** A limit so high that a step up wraps around falls to nearly nothing. */
  lemma FallsDown(parent: nat, floor: nat)
    requires IsLimit(parent) && !InBounds(parent) && parent <= floor < WORD
    ensures CalcGasLimit(0, parent, floor, floor) == parent + Decay(parent) - WORD < parent - parent / DIVISOR
  {
    DecayIs(parent);
    assert Raw(0, parent) == parent - Decay(parent);
  }

  /** Exactly the limits with room move by at most a 1024th whatever the block used and whatever
      floor and ceiling are. */
  lemma StepIsSmallIff(parent: nat)
    requires parent < WORD
    ensures HasRoom(parent) <==> forall used: nat, floor: nat, ceil: nat ::
              used <= parent ==> Near(parent, CalcGasLimit(used, parent, floor, ceil))
  {
    if HasRoom(parent) {
      forall used: nat, floor: nat, ceil: nat | used <= parent
        ensures Near(parent, CalcGasLimit(used, parent, floor, ceil))
      {
        StepIsSmall(used, parent, floor, ceil);
      }
    } else if parent < MIN_GAS_LIMIT {
      JumpsUp(parent);
      assert !Near(parent, CalcGasLimit(0, parent, 0, WORD - 1));
    } else {
      FallsDown(parent, WORD - 1);
      assert !Near(parent, CalcGasLimit(0, parent, WORD - 1, WORD - 1));
    }
  }

  /** The highest word as limit, floor and ceiling: an empty block does not keep it. */
  lemma HighestLimitFalls()
    ensures CalcGasLimit(0, WORD - 1, WORD - 1, WORD - 1) < WORD - 1 - (WORD - 1) / DIVISOR
  {
    FallsDown(WORD - 1, WORD - 1);
  }

  /** With floor and ceiling both at f, the limit moves towards f by its decay, or reaches it. */
  lemma TowardsTarget(used: nat, parent: nat, f: nat)
    requires Tame(parent, f) && used <= parent
    ensures var next := CalcGasLimit(used, parent, f, f);
            && Decay(parent) >= 3 && Tame(next, f)
            && (parent <= f ==> next == f || (next == parent + Decay(parent) && next < f))
            && (parent >= f ==> next == f || (next == parent - Decay(parent) && next > f))
  {
    DecayIs(parent);
    DecayIs(f);
    if InBounds(parent) {
      NothingWraps(used, parent);
    } else {
      RawNearTop(used, parent);
    }
    hide Raw, Decay, Wrap, Contribution;
  }

  /** Near the top of the words the unbounded limit may wrap around once. */
  lemma RawNearTop(used: nat, parent: nat)
    requires IsLimit(parent) && used <= parent
    ensures var base := parent - Decay(parent);
            && (base <= Raw(used, parent) < base + TOP || (base + TOP > WORD && Raw(used, parent) < base + TOP - WORD))
            && (base + TOP > WORD ==> base + TOP - WORD < base)
  {
    DecayIs(parent);
    ContributionTop(used);
    hide Contribution, Decay;
    WrapOnce(parent - Decay(parent) + Contribution(used));
    hide Wrap;
  }

  lemma ContributionTop(used: nat)
    ensures Contribution(used) < TOP
  {
  }

  lemma WrapOnce(x: nat)
    requires x < 2 * WORD
    ensures Wrap(x) == if x < WORD then x else x - WORD
  {
  }

  /** Where a run may start for a target: both within bounds; or a start beyond the bounds with
      the target below its first step down, and no wrap-around that could end below the target. */
  predicate Tame(start: nat, f: nat) {
    && IsLimit(start) && InBounds(f)
    && (InBounds(start) ||
        (f <= start - Decay(start) &&
         (f == MIN_GAS_LIMIT || f <= start + Decay(start) - WORD || start - Decay(start) + TOP <= WORD)))
  }

  /** The limit after a run of blocks that used this much gas. */
  function LimitAfter(usage: seq<nat>, start: nat, f: nat): nat {
    if usage == [] then start
    else CalcGasLimit(usage[|usage| - 1], LimitAfter(usage[..|usage| - 1], start, f), f, f)
  }

  /** No block uses more than its limit. */
  predicate Feasible(usage: seq<nat>, start: nat, f: nat) {
    forall i :: 0 <= i < |usage| ==> usage[i] <= LimitAfter(usage[..i], start, f)
  }

  predicate Between(a: nat, x: nat, b: nat) {
    a <= x <= b || b <= x <= a
  }

  function Distance(a: nat, b: nat): nat {
    if a < b then b - a else a - b
  }

  /** A step towards f by at least 3, or to f. */
  predicate Closer(a: nat, b: nat, f: nat) {
    Between(a, b, f) && (b == f || Distance(b, f) + 3 <= Distance(a, f))
  }

  /** Every block of the run brings the limit closer to f, on the same side, or keeps it there. */
  predicate Steady(usage: seq<nat>, start: nat, f: nat) {
    forall i :: 0 <= i < |usage| ==> Closer(LimitAfter(usage[..i], start, f), LimitAfter(usage[..i + 1], start, f), f)
  }

  lemma FeasiblePrefix(usage: seq<nat>, start: nat, f: nat, n: nat)
    requires Feasible(usage, start, f) && n <= |usage|
    ensures Feasible(usage[..n], start, f)
  {
    var rest := usage[..n];
    forall i | 0 <= i < n ensures rest[i] <= LimitAfter(rest[..i], start, f) {
      assert usage[..i] == rest[..i];
    }
  }

  lemma {:induction false} StaysTame(usage: seq<nat>, start: nat, f: nat)
    requires Tame(start, f) && Feasible(usage, start, f)
    ensures Tame(LimitAfter(usage, start, f), f)
  {
    hide Tame, CalcGasLimit, Decay;
    if usage != [] {
      var rest := usage[..|usage| - 1];
      FeasiblePrefix(usage, start, f, |usage| - 1);
      StaysTame(rest, start, f);
      TowardsTarget(usage[|usage| - 1], LimitAfter(rest, start, f), f);
    }
  }

  /** Whatever the blocks use, every block brings the limit at least 3 closer to the target, on
      the same side, until it is there, and then keeps it. */
  lemma Monotone(usage: seq<nat>, start: nat, f: nat)
    requires Tame(start, f) && Feasible(usage, start, f)
    ensures Steady(usage, start, f)
  {
    hide Tame, CalcGasLimit, Decay;
    forall i | 0 <= i < |usage|
      ensures Closer(LimitAfter(usage[..i], start, f), LimitAfter(usage[..i + 1], start, f), f)
    {
      assert usage[..i + 1][..i] == usage[..i];
      FeasiblePrefix(usage, start, f, i);
      StaysTame(usage[..i], start, f);
      TowardsTarget(usage[i], LimitAfter(usage[..i], start, f), f);
    }
  }

  /** So the target is reached in finitely many blocks and never overshot. */
  lemma {:induction false} Converges(usage: seq<nat>, start: nat, f: nat)
    requires Tame(start, f) && Feasible(usage, start, f)
    ensures var last := LimitAfter(usage, start, f);
            && Between(start, last, f)
            && (last == f || Distance(last, f) + 3 * |usage| <= Distance(start, f))
            && (3 * |usage| >= Distance(start, f) ==> last == f)
  {
    hide Tame, CalcGasLimit;
    if usage != [] {
      var rest := usage[..|usage| - 1];
      FeasiblePrefix(usage, start, f, |usage| - 1);
      Converges(rest, start, f);
      Monotone(usage, start, f);
      assert usage[..|usage|] == usage;
    }
  }

  /** Exactly the tame starts get to the target steadily whatever the blocks use. */
  lemma ConvergesIff(start: nat, f: nat)
    requires IsLimit(start) && IsLimit(f)
    ensures Tame(start, f) <==> forall usage: seq<nat> :: Feasible(usage, start, f) ==> Steady(usage, start, f)
  {
    hide Tame, Feasible, Steady;
    if Tame(start, f) {
      forall usage: seq<nat> | Feasible(usage, start, f) ensures Steady(usage, start, f) {
        Monotone(usage, start, f);
      }
    } else {
      var usage := Astray([], start, f);
      assert Feasible(usage, start, f) && !Steady(usage, start, f);
    }
  }

  /** One more block. */
  lemma Append(usage: seq<nat>, start: nat, f: nat, used: nat)
    requires Feasible(usage, start, f) && used <= LimitAfter(usage, start, f)
    ensures var more, last := usage + [used], LimitAfter(usage, start, f);
            && Feasible(more, start, f) && LimitAfter(more, start, f) == CalcGasLimit(used, last, f, f)
            && (!Closer(last, CalcGasLimit(used, last, f, f), f) ==> !Steady(more, start, f))
  {
    var more := usage + [used];
    assert more[..|usage|] == usage && more[..|usage| + 1] == more;
    forall i | 0 <= i < |more| ensures more[i] <= LimitAfter(more[..i], start, f) {
      assert i < |usage| ==> more[..i] == usage[..i];
    }
  }

  /** From a limit that is not tame some usage leads astray. */
  lemma {:induction false} Astray(sofar: seq<nat>, start: nat, f: nat) returns (usage: seq<nat>)
    requires Feasible(sofar, start, f) && IsLimit(f)
    requires var last := LimitAfter(sofar, start, f); IsLimit(last) && !Tame(last, f)
    ensures Feasible(usage, start, f) && !Steady(usage, start, f)
    decreases f - LimitAfter(sofar, start, f)
  {
    var last := LimitAfter(sofar, start, f);
    DecayIs(last);
    DecayIs(f);
    if last < f && InBounds(last) {
      Append(sofar, start, f, 0);
      Climbs(last, f);
      usage := Astray(sofar + [0], start, f);
    } else {
      var used := Wrecks(last, f);
      Append(sofar, start, f, used);
      usage := sofar + [used];
    }
  }

  /** Empty blocks raise a limit below a target out of bounds. */
  lemma Climbs(last: nat, f: nat)
    requires InBounds(last) && last < f && IsLimit(f) && !InBounds(f)
    ensures var next := CalcGasLimit(0, last, f, f); last < next <= f && IsLimit(next) && !Tame(next, f)
  {
    DecayIs(last);
    assert Raw(0, last) == last - Decay(last);
  }

  /** Above the bounds an untame limit is wrecked by one block. */
  lemma Wrecks(last: nat, f: nat) returns (used: nat)
    requires IsLimit(last) && IsLimit(f) && !Tame(last, f) && !(last < f && InBounds(last))
    ensures used <= last && !Closer(last, CalcGasLimit(used, last, f, f), f)
  {
    DecayIs(last);
    DecayIs(f);
    assert !InBounds(last);
    if last - Decay(last) < f {
      used := 0;
      assert Raw(0, last) == last - Decay(last);
    } else {
      used := Exactly(WORD - (last - Decay(last)));
      assert Raw(used, last) == 0;
    }
  }

  /** Every contribution below the top is made by some usage. */
  lemma Exactly(contribution: nat) returns (used: nat)
    requires contribution < TOP
    ensures Contribution(used) == contribution && used <= WORD / 3 * 2
  {
    var x := contribution * DIVISOR;
    var k := (x + 2) / 3;
    used := 2 * k;
    assert used + used / 2 == 3 * k && x <= 3 * k <= x + 2;
    assert x + DIVISOR <= WORD;
    assert Wrap(3 * k) == 3 * k;
  }
}
