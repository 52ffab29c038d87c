/** Transactions as the pool sees them. A transaction stands for its own hash: hashes are
    injective, so `all[hash]` is membership of the transaction itself. */
module TxTypes {
  type Address = nat

  datatype Option<+T> = None | Some(value: T)

  datatype Tx = Tx(from: Address, nonce: nat, gasPrice: int, gas: nat, value: int, size: nat, payload: nat) {
    /** cost == V + GP * GL */
    function Cost(): int {
      gasPrice * gas + value
    }
  }

  /** Nonce to transaction. */
  type Items = map<nat, Tx>

  ghost predicate Keyed(m: Items) {
    forall n :: n in m ==> m[n].nonce == n
  }

  function TxsOf(m: Items): (r: set<Tx>)
    ensures forall n :: n in m ==> m[n] in r
    ensures Keyed(m) ==> forall tx :: tx in r <==> tx.nonce in m && m[tx.nonce] == tx
  {
    set n | n in m :: m[n]
  }

  function From(m: Items, t: nat): Items {
    map n | n in m && n >= t :: m[n]
  }

  function Below(m: Items, t: nat): Items {
    map n | n in m && n < t :: m[n]
  }

  /** The entries of m whose transaction passes (or fails) the test. */
  function Where(m: Items, test: Tx -> bool): Items {
    map n | n in m && test(m[n]) :: m[n]
  }

  function WhereNot(m: Items, test: Tx -> bool): Items {
    map n | n in m && !test(m[n]) :: m[n]
  }

  ghost predicate PartOf(part: Items, m: Items) {
    forall n :: n in part ==> n in m && part[n] == m[n]
  }

  /** The list s names every transaction of m exactly once. */
  ghost predicate Enumerates(s: seq<Tx>, m: Items) {
    && |s| == |m|
    && (forall tx :: tx in s ==> tx.nonce in m && m[tx.nonce] == tx)
    && (forall n :: n in m ==> m[n] in s)
  }

  /** The list s is the contents of m in increasing nonce order. */
  ghost predicate SortedContents(s: seq<Tx>, m: Items) {
    && |s| == |m|
    && (forall i :: 0 <= i < |s| ==> s[i].nonce in m && m[s[i].nonce] == s[i])
    && (forall i, j :: 0 <= i < j < |s| ==> s[i].nonce < s[j].nonce)
  }

  ghost predicate IsLeast(m: Items, n: nat) {
    n in m && forall k :: k in m ==> n <= k
  }

  ghost predicate IsGreatest(m: Items, n: nat) {
    n in m && forall k :: k in m ==> k <= n
  }

  lemma {:induction false} LeastOfSet(s: set<nat>) returns (n: nat)
    requires s != {}
    ensures n in s && forall k :: k in s ==> n <= k
    decreases |s|
  {
    n :| n in s;
    if s != {n} {
      assert s - {n} != {};
      ghost var n0 := n;
      var k := LeastOfSet(s - {n});
      n := if k < n then k else n;
      assert forall j :: j in s ==> j == n0 || j in s - {n0};
    }
  }

  lemma {:induction false} GreatestOfSet(s: set<nat>) returns (n: nat)
    requires s != {}
    ensures n in s && forall k :: k in s ==> k <= n
    decreases |s|
  {
    n :| n in s;
    if s != {n} {
      assert s - {n} != {};
      ghost var n0 := n;
      var k := GreatestOfSet(s - {n});
      n := if k > n then k else n;
      assert forall j :: j in s ==> j == n0 || j in s - {n0};
    }
  }

  /** The smallest stored nonce. */
  function MinNonce(m: Items): (r: nat)
    requires m != map[]
    ensures IsLeast(m, r)
  {
    assert exists n: nat :: n in m.Keys && forall k :: k in m.Keys ==> n <= k by {
      var n := LeastOfSet(m.Keys);
    }
    var n: nat :| n in m.Keys && forall k :: k in m.Keys ==> n <= k;
    n
  }

  /** The largest stored nonce. */
  function MaxNonce(m: Items): (r: nat)
    requires m != map[]
    ensures IsGreatest(m, r)
  {
    assert exists n: nat :: n in m.Keys && forall k :: k in m.Keys ==> k <= n by {
      var n := GreatestOfSet(m.Keys);
    }
    var n: nat :| n in m.Keys && forall k :: k in m.Keys ==> k <= n;
    n
  }

  lemma SizeWithout(m: Items, n: nat)
    requires n in m
    ensures |m - {n}| == |m| - 1
  {
    assert (m - {n}).Keys == m.Keys - {n};
  }

  /** The t lowest-nonce entries of m (all of it when it has no more than t). */
  function Lowest(m: Items, t: nat): (r: Items)
    ensures forall n :: n in r ==> n in m && r[n] == m[n]
    ensures |r| == if |m| <= t then |m| else t
    ensures forall n, k :: n in r && k in m && k !in r ==> n < k
    decreases |m|
  {
    if |m| <= t then m else
      SizeWithout(m, MaxNonce(m));
      Lowest(m - {MaxNonce(m)}, t)
  }

  /** The first nonce at or after n that m does not hold. */
  function RunEnd(m: Items, n: nat): (e: nat)
    ensures n <= e && e !in m && forall k :: n <= k < e ==> k in m
    decreases |From(m, n)|
  {
    if n !in m then n else
      assert From(m, n + 1) == From(m, n) - {n};
      SizeWithout(From(m, n), n);
      RunEnd(m, n + 1)
  }

  /** Every enumeration of a duplicate-free size mentions each key: equal counts leave no room. */
  lemma {:induction false} SortedCoversAll(s: seq<Tx>, m: Items)
    requires SortedContents(s, m)
    ensures forall n :: n in m ==> m[n] in s && m[n].nonce == n
  {
    if s != [] {
      var last := s[|s| - 1];
      SizeWithout(m, last.nonce);
      SortedDropBack(s, m);
      SortedCoversAll(s[..|s| - 1], m - {last.nonce});
      forall n | n in m ensures m[n] in s && m[n].nonce == n {
        if n != last.nonce { assert n in m - {last.nonce}; }
      }
    } else {
      assert m.Keys == {};
    }
  }

  lemma SortedDropBack(s: seq<Tx>, m: Items)
    requires SortedContents(s, m) && s != []
    ensures SortedContents(s[..|s| - 1], m - {s[|s| - 1].nonce})
  {
    SizeWithout(m, s[|s| - 1].nonce);
  }

  lemma SortedDropFront(s: seq<Tx>, m: Items)
    requires SortedContents(s, m) && s != []
    ensures SortedContents(s[1..], m - {s[0].nonce})
  {
    SizeWithout(m, s[0].nonce);
  }

  lemma SortedEnds(s: seq<Tx>, m: Items)
    requires SortedContents(s, m) && s != []
    ensures IsLeast(m, s[0].nonce) && IsGreatest(m, s[|s| - 1].nonce)
  {
    SortedCoversAll(s, m);
    forall k | k in m ensures s[0].nonce <= k <= s[|s| - 1].nonce {
      var i :| 0 <= i < |s| && s[i] == m[k];
    }
  }
}
