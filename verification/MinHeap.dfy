/** The slice heap copied from `container/heap` into metrics/sample.go, generic in the
    ordering key. The nonce, price, dial-history and spammer heaps are all instances of it. */
module Heaps {

  function Parent(k: nat): nat
    requires k > 0
  {
    (k - 1) / 2
  }

  ghost predicate Rel<T>(s: seq<T>, key: T -> int, k: nat)
    requires 0 < k < |s|
  {
    key(s[Parent(k)]) <= key(s[k])
  }

  ghost predicate Ordered<T>(s: seq<T>, key: T -> int) {
    forall k :: 0 < k < |s| ==> Rel(s, key, k)
  }

  /** Every heap relation inside s[..n] whose parent is at or after `lo` holds, except those
      between `hole` and its children; those children still sit below the parent of `hole`. */
  ghost predicate DownHole<T>(s: seq<T>, key: T -> int, lo: nat, n: nat, hole: nat)
    requires n <= |s| && hole <= n
  {
    && (forall k :: 0 < k < n && lo <= Parent(k) && Parent(k) != hole ==> Rel(s, key, k))
    && (forall k :: 0 < k < n && Parent(k) == hole && 0 < hole && lo <= Parent(hole) ==>
          key(s[Parent(hole)]) <= key(s[k]))
  }

  /** Every heap relation inside s[..n] holds, except the one between `hole` and its parent;
      the children of `hole` already sit below that parent. */
  ghost predicate UpHole<T>(s: seq<T>, key: T -> int, n: nat, hole: nat)
    requires n <= |s| && hole < n
  {
    && (forall k :: 0 < k < n && k != hole ==> Rel(s, key, k))
    && (forall k :: 0 < k < n && Parent(k) == hole && 0 < hole ==> key(s[Parent(hole)]) <= key(s[k]))
  }

  ghost predicate RelFrom<T>(s: seq<T>, key: T -> int, lo: nat, n: nat)
    requires n <= |s|
  {
    forall k :: 0 < k < n && lo <= Parent(k) ==> Rel(s, key, k)
  }

  /** j is a child of i with the least key among the children of i. */
  ghost predicate IsLeastChild<T>(s: seq<T>, key: T -> int, n: nat, i: nat, j: nat)
    requires n <= |s|
  {
    i < j < n && Parent(j) == i && forall k :: 0 < k < n && Parent(k) == i ==> key(s[j]) <= key(s[k])
  }

  ghost predicate ChildrenAbove<T>(s: seq<T>, key: T -> int, n: nat, i: nat)
    requires n <= |s| && i <= n
  {
    forall k :: 0 < k < n && Parent(k) == i ==> key(s[i]) <= key(s[k])
  }

  /** The root of a heap carries the least key: this is what every user of index 0 relies on. */
  lemma {:induction false} RootIsMin<T>(s: seq<T>, key: T -> int, k: nat)
    requires Ordered(s, key) && k < |s|
    ensures key(s[0]) <= key(s[k])
  {
    if k > 0 {
      RootIsMin(s, key, Parent(k));
      assert Rel(s, key, k);
    }
  }

  /** The root carries the least key of the whole heap. */
  lemma RootIsMinOfAll<T>(s: seq<T>, key: T -> int)
    requires Ordered(s, key)
    ensures forall x :: x in s ==> key(s[0]) <= key(x)
  {
    forall x | x in s ensures key(s[0]) <= key(x) {
      var k :| 0 <= k < |s| && s[k] == x;
      RootIsMin(s, key, k);
    }
  }

  function Swap<T>(s: seq<T>, i: nat, j: nat): (r: seq<T>)
    requires i < |s| && j < |s|
    ensures |r| == |s| && multiset(r) == multiset(s)
    ensures r[i] == s[j] && r[j] == s[i]
    ensures forall k :: 0 <= k < |s| && k != i && k != j ==> r[k] == s[k]
  {
    s[i := s[j]][j := s[i]]
  }

  class MinHeap<T(==)> {
    const key: T -> int
    var s: seq<T>

    ghost predicate Valid()
      reads this
    {
      Ordered(s, key)
    }

    constructor (key: T -> int)
      ensures this.key == key && s == [] && Valid()
    {
      this.key := key;
      s := [];
    }

    method Up(j0: nat, ghost n: nat)
      requires n <= |s| && j0 < n && UpHole(s, key, n, j0)
      modifies this`s
      ensures |s| == old(|s|) && multiset(s) == old(multiset(s)) && s[n..] == old(s[n..])
      ensures forall k :: 0 < k < n ==> Rel(s, key, k)
    {
      var j := j0;
      while true
        invariant 0 <= j < n <= |s| == old(|s|) && multiset(s) == old(multiset(s)) && s[n..] == old(s[n..])
        invariant UpHole(s, key, n, j)
        decreases j
      {
        var i := if j == 0 then 0 else (j - 1) / 2;
        if i == j || !(key(s[j]) < key(s[i])) {
          break;
        }
        assert i == Parent(j);
        ghost var before := s;
        s := Swap(s, i, j);
        UpStep(before, key, n, j);
        j := i;
      }
    }

    method Down(i0: nat, n: nat, ghost lo: nat) returns (moved: bool)
      requires n <= |s| && lo <= i0 <= n && DownHole(s, key, lo, n, i0)
      modifies this`s
      ensures |s| == old(|s|) && multiset(s) == old(multiset(s)) && s[n..] == old(s[n..])
      ensures RelFrom(s, key, lo, n)
      ensures !moved ==> s == old(s)
      ensures moved ==> !ChildrenAbove(old(s), key, n, i0)
    {
      hide DownHole, ChildrenAbove, RelFrom, IsLeastChild;
      var i := i0;
      while true
        invariant lo <= i <= n <= |s| == old(|s|) && multiset(s) == old(multiset(s)) && s[n..] == old(s[n..])
        invariant DownHole(s, key, lo, n, i)
        invariant i0 <= i && (i == i0 ==> s == old(s))
        invariant i > i0 ==> !ChildrenAbove(old(s), key, n, i0)
        decreases n - i
      {
        var j1 := 2 * i + 1;
        if j1 >= n {
          LeafIsAbove(s, key, n, i);
          NoHole(s, key, lo, n, i);
          break;
        }
        var j := j1;
        if j1 + 1 < n && !(key(s[j1]) < key(s[j1 + 1])) {
          j := j1 + 1;
        }
        LeastChild(s, key, n, i, j);
        if !(key(s[j]) < key(s[i])) {
          NoHole(s, key, lo, n, i);
          break;
        }
        DownStep(s, key, lo, n, i, j);
        s := Swap(s, i, j);
        i := j;
      }
      moved := i > i0;
    }

    /** The slice without its last element, as `Pop` of the heap interface leaves it. */
    function DropLast(): (r: seq<T>)
      requires |s| > 0
      reads this
      ensures multiset(s) == multiset(r) + multiset{s[|s| - 1]}
      ensures (forall k :: 0 < k < |s| - 1 ==> Rel(s, key, k)) ==> Ordered(r, key)
    {
      var r := s[..|s| - 1];
      assert s == r + [s[|s| - 1]];
      assert forall k :: 0 < k < |r| ==> Rel(s, key, k) == Rel(r, key, k);
      r
    }

    method Push(x: T)
      requires Valid()
      modifies this`s
      ensures Valid() && multiset(s) == old(multiset(s)) + multiset{x}
    {
      ghost var before := s;
      s := s + [x];
      forall k | 0 < k < |before| ensures Rel(s, key, k) {
        assert Rel(before, key, k);
      }
      Up(|s| - 1, |s|);
    }

    method Pop() returns (x: T)
      requires Valid() && |s| > 0
      modifies this`s
      ensures Valid() && x == old(s[0]) && old(multiset(s)) == multiset(s) + multiset{x}
      ensures |s| == old(|s|) - 1
      ensures forall y :: y in old(s) ==> key(x) <= key(y)
    {
      RootIsMinOfAll(s, key);
      var n := |s| - 1;
      ghost var before := s;
      s := Swap(s, 0, n);
      forall k | 0 < k < n && Parent(k) != 0 ensures Rel(s, key, k) {
        assert Rel(before, key, k);
      }
      var _ := Down(0, n, 0);
      x := s[n];
      s := DropLast();
    }

    /** `heap.Remove`: take out the element at index i. */
    method Remove(i: nat) returns (x: T)
      requires Valid() && i < |s|
      modifies this`s
      ensures Valid() && x == old(s[i]) && old(multiset(s)) == multiset(s) + multiset{x}
      ensures |s| == old(|s|) - 1
    {
      hide DownHole, UpHole, RelFrom, ChildrenAbove, Ordered, Rel, Swap;
      var n := |s| - 1;
      RelatedBelow(s, key, n);
      if n != i {
        RemoveHole(s, key, i);
        s := Swap(s, i, n);
        ghost var low := i > 0 && key(s[i]) < key(s[Parent(i)]);
        var moved := Down(i, n, if low then i else 0);
        AfterDown(s, key, n, i);
        if !moved {
          Up(i, n);
        }
      }
      x := s[n];
      s := DropLast();
    }

    /** `heap.Fix` after the root was replaced. */
    method ReplaceRoot(x: T)
      requires Valid() && |s| > 0
      modifies this`s
      ensures Valid() && |s| == old(|s|) && multiset(s) + multiset{old(s[0])} == old(multiset(s)) + multiset{x}
    {
      hide DownHole, RelFrom, Ordered;
      RootReplaced(s, key, x);
      s := s[0 := x];
      var _ := Down(0, |s|, 0);
      AllRelated(s, key);
    }

    /** `heap.Init`: establish the heap order on arbitrary contents. */
    method Init()
      modifies this`s
      ensures Valid() && multiset(s) == old(multiset(s)) && |s| == old(|s|)
    {
      var n := |s|;
      var i := n / 2;
      while i > 0
        invariant 0 <= i <= n / 2 && |s| == n && multiset(s) == old(multiset(s))
        invariant RelFrom(s, key, i, n)
      {
        i := i - 1;
        var _ := Down(i, n, i);
      }
    }
  }

  ghost predicate NonDecreasing<T>(s: seq<T>, key: T -> int) {
    forall i, j :: 0 <= i < j < |s| ==> key(s[i]) <= key(s[j])
  }

  /** `sort.Sort`, taken by its contract; realised here by emptying a heap. */
  method Sort<T(==)>(s: seq<T>, key: T -> int) returns (r: seq<T>)
    ensures multiset(r) == multiset(s) && NonDecreasing(r, key)
  {
    var h := new MinHeap<T>(key);
    h.s := s;
    h.Init();
    r := [];
    while |h.s| > 0
      invariant h.Valid() && fresh(h) && h.key == key
      invariant multiset(r) + multiset(h.s) == multiset(s)
      invariant NonDecreasing(r, key)
      invariant forall x, y :: x in r && y in h.s ==> key(x) <= key(y)
      decreases |h.s|
    {
      ghost var before := h.s;
      var x := h.Pop();
      assert forall y :: y in h.s ==> y in multiset(before) && y in before;
      assert x in before;
      r := r + [x];
    }
  }

  lemma RelatedBelow<T>(s: seq<T>, key: T -> int, n: nat)
    requires Ordered(s, key) && n <= |s|
    ensures forall k :: 0 < k < n ==> Rel(s, key, k)
  {
  }

  /** With everything below n related there is no hole. */
  lemma AfterDown<T>(s: seq<T>, key: T -> int, n: nat, i: nat)
    requires i < n <= |s|
    ensures RelFrom(s, key, 0, n) ==> UpHole(s, key, n, i) && forall k :: 0 < k < n ==> Rel(s, key, k)
  {
    if RelFrom(s, key, 0, n) {
      forall k | 0 < k < n && Parent(k) == i && 0 < i ensures key(s[Parent(i)]) <= key(s[k]) {
        assert Rel(s, key, k) && Rel(s, key, i);
      }
    }
  }

  lemma RootReplaced<T>(s: seq<T>, key: T -> int, x: T)
    requires Ordered(s, key) && |s| > 0
    ensures DownHole(s[0 := x], key, 0, |s|, 0)
    ensures multiset(s[0 := x]) + multiset{s[0]} == multiset(s) + multiset{x}
  {
    assert s == [s[0]] + s[1..] && s[0 := x] == [x] + s[1..];
    forall k | 0 < k < |s| && Parent(k) != 0 ensures Rel(s[0 := x], key, k) {
      assert Rel(s, key, k);
    }
  }

  lemma AllRelated<T>(s: seq<T>, key: T -> int)
    requires RelFrom(s, key, 0, |s|)
    ensures Ordered(s, key)
  {
  }

  lemma UpStep<T>(s: seq<T>, key: T -> int, n: nat, j: nat)
    requires n <= |s| && 0 < j < n && UpHole(s, key, n, j) && key(s[j]) < key(s[Parent(j)])
    ensures UpHole(Swap(s, Parent(j), j), key, n, Parent(j))
  {
    var r, i := Swap(s, Parent(j), j), Parent(j);
    forall k | 0 < k < n && k != i ensures Rel(r, key, k) {
      if k != j { assert Rel(s, key, k); }
    }
    forall k | 0 < k < n && Parent(k) == i && 0 < i ensures key(r[Parent(i)]) <= key(r[k]) {
      assert Rel(s, key, i);
      if k != j { assert Rel(s, key, k); }
    }
  }

  lemma DownStep<T>(s: seq<T>, key: T -> int, lo: nat, n: nat, i: nat, j: nat)
    requires n <= |s| && lo <= i <= n && DownHole(s, key, lo, n, i) && IsLeastChild(s, key, n, i, j)
    requires key(s[j]) < key(s[i])
    ensures DownHole(Swap(s, i, j), key, lo, n, j)
  {
    var r := Swap(s, i, j);
    forall k | 0 < k < n && lo <= Parent(k) && Parent(k) != j ensures Rel(r, key, k) {
      if Parent(k) != i && k != i { assert Rel(s, key, k); }
    }
    forall k | 0 < k < n && Parent(k) == j ensures key(r[i]) <= key(r[k]) {
      assert Rel(s, key, k);
    }
  }

  lemma LeafIsAbove<T>(s: seq<T>, key: T -> int, n: nat, i: nat)
    requires i <= n <= |s| && 2 * i + 1 >= n
    ensures ChildrenAbove(s, key, n, i)
  {
    forall k | 0 < k < n && Parent(k) == i ensures false {}
  }

  /** The child chosen by `Down` is a least child. */
  lemma LeastChild<T>(s: seq<T>, key: T -> int, n: nat, i: nat, j: nat)
    requires n <= |s| && 2 * i + 1 < n
    requires j == if 2 * i + 2 < n && key(s[2 * i + 2]) <= key(s[2 * i + 1]) then 2 * i + 2 else 2 * i + 1
    ensures IsLeastChild(s, key, n, i, j)
    ensures ChildrenAbove(s, key, n, i) <==> key(s[i]) <= key(s[j])
  {
    forall k | 0 < k < n && Parent(k) == i ensures k == 2 * i + 1 || k == 2 * i + 2 {}
  }

  lemma NoHole<T>(s: seq<T>, key: T -> int, lo: nat, n: nat, i: nat)
    requires i <= n <= |s| && DownHole(s, key, lo, n, i) && ChildrenAbove(s, key, n, i)
    ensures RelFrom(s, key, lo, n)
  {
  }

  lemma RemoveHole<T>(s: seq<T>, key: T -> int, i: nat)
    requires Ordered(s, key) && i < |s| - 1
    ensures var n := |s| - 1; var r := Swap(s, i, n);
            if i > 0 && key(r[i]) < key(r[Parent(i)]) then
              && DownHole(r, key, i, n, i) && UpHole(r, key, n, i)
              && ChildrenAbove(r, key, n, i)
            else
              DownHole(r, key, 0, n, i)
  {
    var n := |s| - 1;
    var r := Swap(s, i, n);
    forall k | 0 < k < n && k != i && Parent(k) != i ensures Rel(r, key, k) {
      assert Rel(s, key, k);
    }
    if i > 0 { assert Rel(s, key, i); }
    forall k | 0 < k < n && Parent(k) == i ensures i > 0 ==> key(r[Parent(i)]) <= key(r[k]) {
      assert Rel(s, key, k);
    }
  }
}
