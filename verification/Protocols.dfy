/** p2p/peer.go: the message code table that both ends of a connection work out for
    themselves. Protocol names are numbers in the order of the strings they stand for; the
    code arithmetic is unbounded. */
module Protocols {
  import opened TxTypes

  type Name = nat

  datatype Cap = Cap(name: Name, version: nat)

  datatype Protocol = Protocol(cap: Cap, length: nat)

  /** A running protocol and the code range [offset, offset + length) it was given. */
  datatype Entry = Entry(version: nat, offset: nat, length: nat)

  type Table = map<Name, Entry>

  /** Codes below this belong to the base protocol. */
  const BASE: nat := 16

  /** The main chain's protocol. */
  const MAIN: Name := 0

  predicate Before(a: Cap, b: Cap) {
    a.name < b.name || (a.name == b.name && a.version <= b.version)
  }

  predicate Sorted(s: seq<Cap>) {
    forall i, j :: 0 <= i < j < |s| ==> Before(s[i], s[j])
  }

  /** The first protocol with this name and version. */
  function Find(ps: seq<Protocol>, c: Cap): Option<Protocol> {
    if ps == [] then None else if ps[0].cap == c then Some(ps[0]) else Find(ps[1..], c)
  }

  /** The capabilities both sides have. */
  ghost predicate Shared(ps: seq<Protocol>, cs: seq<Cap>, c: Cap) {
    c in cs && Find(ps, c).Some?
  }

  /** The end of the codes of these protocols when laid out one after the other. */
  ghost function End(t: Table, order: seq<Name>): nat {
    if order == [] then BASE
    else End(t, order[..|order| - 1]) + (if order[|order| - 1] in t then t[order[|order| - 1]].length else 0)
  }

  ghost predicate Ascending(order: seq<Name>) {
    forall i, j :: 0 <= i < j < |order| ==> order[i] < order[j]
  }

  /** The table's ranges follow each other without gap from BASE on, in the order of names. */
  ghost predicate Tiles(t: Table, order: seq<Name>) {
    && Ascending(order)
    && (forall n :: n in t <==> n in order)
    && (forall k :: 0 <= k < |order| ==> TileAt(t, order, k))
  }

  ghost predicate TileAt(t: Table, order: seq<Name>, k: nat)
    requires k < |order|
  {
    order[k] in t && t[order[k]].offset == End(t, order[..k])
  }

  /** Each shared name is there with its highest shared version and that protocol's length. */
  ghost predicate Matches(t: Table, ps: seq<Protocol>, cs: seq<Cap>) {
    && (forall c :: Shared(ps, cs, c) ==> c.name in t && c.version <= t[c.name].version)
    && (forall n :: n in t ==>
          var c := Cap(n, t[n].version);
          Shared(ps, cs, c) && t[n].length == Find(ps, c).value.length)
  }

  /** What `matchProtocols` promises. */
  ghost predicate IsTable(t: Table, ps: seq<Protocol>, cs: seq<Cap>) {
    Matches(t, ps, cs) && exists order :: Tiles(t, order)
  }

  /** Sort by insertion, standing in for the library sort. */
  method SortCaps(cs: seq<Cap>) returns (r: seq<Cap>)
    ensures multiset(r) == multiset(cs) && Sorted(r)
  {
    r := [];
    for i := 0 to |cs|
      invariant multiset(r) == multiset(cs[..i]) && Sorted(r)
    {
      var k := 0;
      while k < |r| && Before(r[k], cs[i])
        invariant 0 <= k <= |r| && forall j :: 0 <= j < k ==> Before(r[j], cs[i])
      {
        k := k + 1;
      }
      InsertAt(r, k, cs[i]);
      assert cs[..i + 1] == cs[..i] + [cs[i]];
      r := r[..k] + [cs[i]] + r[k..];
    }
    assert cs[..|cs|] == cs;
  }

  lemma InsertAt(r: seq<Cap>, k: nat, c: Cap)
    requires Sorted(r) && k <= |r| && (forall j :: 0 <= j < k ==> Before(r[j], c)) && (k < |r| ==> !Before(r[k], c))
    ensures Sorted(r[..k] + [c] + r[k..]) && multiset(r[..k] + [c] + r[k..]) == multiset(r) + multiset{c}
  {
    assert r == r[..k] + r[k..];
    var s := r[..k] + [c] + r[k..];
    forall i, j | 0 <= i < j < |s| ensures Before(s[i], s[j]) {
      assert k < |r| ==> Before(c, r[k]);
    }
  }

  /** Work out the table for these local protocols and the other side's capabilities. */
  method MatchProtocols(ps: seq<Protocol>, caps: seq<Cap>) returns (t: Table)
    ensures IsTable(t, ps, caps)
  {
    hide Matching, Find, Sorted, IsTable;
    var cs := SortCaps(caps);
    var offset: nat := BASE;
    t := map[];
    ghost var order: seq<Name> := [];
    MatchStart(ps, cs);
    for i := 0 to |cs|
      invariant Matching(t, order, offset, ps, cs, i)
    {
      var p := FindProtocol(ps, cs[i]);
      if p.None? {
        MatchNone(t, order, offset, ps, cs, i);
        continue;
      }
      if cs[i].name in t {
        MatchHigher(t, order, offset, ps, cs, i, p.value.length);
        offset := offset - t[cs[i].name].length;
      } else {
        MatchNew(t, order, offset, ps, cs, i, p.value.length);
        order := order + [cs[i].name];
      }
      t := t[cs[i].name := Entry(cs[i].version, offset, p.value.length)];
      offset := offset + p.value.length;
    }
    MatchEnd(t, order, offset, ps, cs, caps);
  }

  method FindProtocol(ps: seq<Protocol>, c: Cap) returns (p: Option<Protocol>)
    ensures p == Find(ps, c)
  {
    for i := 0 to |ps|
      invariant Find(ps, c) == Find(ps[i..], c)
    {
      if ps[i].cap == c {
        return Some(ps[i]);
      }
      assert ps[i..][1..] == ps[i + 1..];
    }
    return None;
  }

  /** The table after the first i capabilities, in sorted order. */
  ghost predicate Matching(t: Table, order: seq<Name>, offset: nat, ps: seq<Protocol>, cs: seq<Cap>, i: nat) {
    && i <= |cs| && Sorted(cs)
    && Matches(t, ps, cs[..i]) && Tiles(t, order) && offset == End(t, order)
    && Seen(t, cs[..i])
  }

  ghost predicate Seen(t: Table, cs: seq<Cap>) {
    forall n :: n in t ==> exists j :: 0 <= j < |cs| && cs[j].name == n
  }

  lemma SeenNext(t: Table, cs: seq<Cap>, i: nat, e: Entry)
    requires i < |cs| && Seen(t, cs[..i])
    ensures Seen(t, cs[..i + 1]) && Seen(t[cs[i].name := e], cs[..i + 1])
  {
    var more := cs[..i + 1];
    assert more[i].name == cs[i].name;
    forall n | n in t ensures exists j :: 0 <= j < |more| && more[j].name == n {
      var j :| 0 <= j < i && cs[..i][j].name == n;
      assert more[j].name == n;
    }
  }

  lemma MatchStart(ps: seq<Protocol>, cs: seq<Cap>)
    requires Sorted(cs)
    ensures Matching(map[], [], BASE, ps, cs, 0)
  {
  }

  lemma MatchNone(t: Table, order: seq<Name>, offset: nat, ps: seq<Protocol>, cs: seq<Cap>, i: nat)
    requires Matching(t, order, offset, ps, cs, i) && i < |cs| && Find(ps, cs[i]).None?
    ensures Matching(t, order, offset, ps, cs, i + 1)
  {
    hide Find, Tiles, Matches, Seen, End, Sorted;
    MatchesStep(t, ps, cs, i, Entry(0, 0, 0));
    SeenNext(t, cs, i, Entry(0, 0, 0));
  }

  /** A higher version of the name matched last takes over its place. */
  lemma MatchHigher(t: Table, order: seq<Name>, offset: nat, ps: seq<Protocol>, cs: seq<Cap>, i: nat, length: nat)
    requires Matching(t, order, offset, ps, cs, i) && i < |cs| && cs[i].name in t
    requires Find(ps, cs[i]).Some? && Find(ps, cs[i]).value.length == length
    ensures t[cs[i].name].length <= offset
    ensures var start := offset - t[cs[i].name].length;
            Matching(t[cs[i].name := Entry(cs[i].version, start, length)], order, start + length, ps, cs, i + 1)
  {
    hide Find, Tiles, Matches, Seen, End, Sorted;
    HighestName(t, cs, i);
    LastName(t, order, cs[i].name);
    var e := Entry(cs[i].version, offset - t[cs[i].name].length, length);
    TilesReplaced(t, order, cs[i].name, e);
    MatchesStep(t, ps, cs, i, e);
    SeenNext(t, cs, i, e);
  }

  /** A new name goes to the end. */
  lemma MatchNew(t: Table, order: seq<Name>, offset: nat, ps: seq<Protocol>, cs: seq<Cap>, i: nat, length: nat)
    requires Matching(t, order, offset, ps, cs, i) && i < |cs| && cs[i].name !in t
    requires Find(ps, cs[i]).Some? && Find(ps, cs[i]).value.length == length
    ensures Matching(t[cs[i].name := Entry(cs[i].version, offset, length)], order + [cs[i].name], offset + length, ps,
                     cs, i + 1)
  {
    hide Find, Tiles, Matches, Seen, End, Sorted;
    HighestName(t, cs, i);
    var e := Entry(cs[i].version, offset, length);
    TilesAppended(t, order, cs[i].name, e);
    MatchesStep(t, ps, cs, i, e);
    SeenNext(t, cs, i, e);
  }

  /** Sorting keeps a name's capabilities together, the current one last. */
  lemma HighestName(t: Table, cs: seq<Cap>, i: nat)
    requires Sorted(cs) && i < |cs| && Seen(t, cs[..i])
    ensures forall n :: n in t ==> n <= cs[i].name
  {
    forall n | n in t ensures n <= cs[i].name {
      var j :| 0 <= j < i && cs[..i][j].name == n;
      assert Before(cs[j], cs[i]);
    }
  }

  lemma SharedNext(ps: seq<Protocol>, cs: seq<Cap>, i: nat, x: Cap)
    requires i < |cs|
    ensures Shared(ps, cs[..i + 1], x) <==> Shared(ps, cs[..i], x) || (x == cs[i] && Find(ps, x).Some?)
  {
    assert cs[..i + 1] == cs[..i] + [cs[i]];
  }

  lemma MatchesStep(t: Table, ps: seq<Protocol>, cs: seq<Cap>, i: nat, e: Entry)
    requires i < |cs| && Sorted(cs) && Matches(t, ps, cs[..i])
    ensures Find(ps, cs[i]).None? ==> Matches(t, ps, cs[..i + 1])
    ensures Find(ps, cs[i]).Some? && e.version == cs[i].version && e.length == Find(ps, cs[i]).value.length ==>
              Matches(t[cs[i].name := e], ps, cs[..i + 1])
  {
    forall x ensures Shared(ps, cs[..i + 1], x) <==> Shared(ps, cs[..i], x) || (x == cs[i] && Find(ps, x).Some?) {
      SharedNext(ps, cs, i, x);
    }
    forall x | Shared(ps, cs[..i], x) && x.name == cs[i].name ensures x.version <= cs[i].version {
      var j :| 0 <= j < i && cs[..i][j] == x;
      assert Before(cs[j], cs[i]);
    }
    hide Shared, Find;
  }

  lemma LastName(t: Table, order: seq<Name>, n: Name)
    requires Tiles(t, order) && n in t && forall m :: m in t ==> m <= n
    ensures |order| > 0 && order[|order| - 1] == n && t[n].length <= End(t, order)
  {
    assert n in order;
    assert TileAt(t, order, |order| - 1);
  }

  /** The layout depends on nothing but the lengths. */
  lemma {:induction false} SameEnd(t: Table, t': Table, order: seq<Name>)
    requires forall k :: 0 <= k < |order| ==>
               order[k] in t && order[k] in t' && t[order[k]].length == t'[order[k]].length
    ensures End(t, order) == End(t', order)
  {
    if order != [] {
      SameEnd(t, t', order[..|order| - 1]);
    }
  }

  lemma TilesReplaced(t: Table, order: seq<Name>, n: Name, e: Entry)
    requires Tiles(t, order) && |order| > 0 && order[|order| - 1] == n
    requires t[n].length <= End(t, order) && e.offset == End(t, order) - t[n].length
    ensures Tiles(t[n := e], order) && End(t[n := e], order) == e.offset + e.length
  {
    var t' := t[n := e];
    forall k | 0 <= k < |order| ensures End(t', order[..k]) == End(t, order[..k]) && TileAt(t', order, k) {
      assert TileAt(t, order, k);
      forall j | 0 <= j < k ensures order[..k][j] in t && order[..k][j] != n {
        assert TileAt(t, order, j);
      }
      SameEnd(t, t', order[..k]);
    }
    assert TileAt(t, order, |order| - 1);
  }

  lemma TilesAppended(t: Table, order: seq<Name>, n: Name, e: Entry)
    requires Tiles(t, order) && n !in t && (forall m :: m in t ==> m <= n) && e.offset == End(t, order)
    ensures Tiles(t[n := e], order + [n]) && End(t[n := e], order + [n]) == e.offset + e.length
  {
    AppendedNames(t, order, n, e);
    hide TileAt, End, Ascending;
    var t', order' := t[n := e], order + [n];
    forall k | 0 <= k < |order'| ensures TileAt(t', order', k) {
      AppendedAt(t, order, n, e, k);
    }
    AppendedAt(t, order, n, e, |order|);
  }

  lemma AppendedNames(t: Table, order: seq<Name>, n: Name, e: Entry)
    requires Ascending(order) && (forall m :: m in t <==> m in order) && n !in t && forall m :: m in t ==> m <= n
    ensures Ascending(order + [n]) && (forall m :: m in t[n := e] <==> m in order + [n])
    ensures forall j :: 0 <= j < |order| ==> order[j] != n
  {
    forall j | 0 <= j < |order| ensures order[j] < n {
      assert order[j] in order;
    }
    forall m ensures m in order + [n] <==> m in order || m == n {
    }
  }

  lemma AppendedAt(t: Table, order: seq<Name>, n: Name, e: Entry, k: nat)
    requires k <= |order| && (forall j :: 0 <= j < |order| ==> TileAt(t, order, j) && order[j] != n) &&
             e.offset == End(t, order)
    ensures TileAt(t[n := e], order + [n], k)
    ensures k == |order| ==> End(t[n := e], order + [n]) == e.offset + e.length
  {
    var t', order' := t[n := e], order + [n];
    assert order'[..k] == order[..k] && order[..|order|] == order;
    forall j | 0 <= j < |order| ensures order[j] in t {
      assert TileAt(t, order, j);
    }
    EndKept(t, n, e, order, k);
    assert k < |order| ==> TileAt(t, order, k);
  }

  lemma EndKept(t: Table, n: Name, e: Entry, order: seq<Name>, k: nat)
    requires k <= |order| && forall j :: 0 <= j < |order| ==> order[j] in t && order[j] != n
    ensures End(t[n := e], order[..k]) == End(t, order[..k])
  {
    SameEnd(t, t[n := e], order[..k]);
  }

  lemma MatchEnd(t: Table, order: seq<Name>, offset: nat, ps: seq<Protocol>, cs: seq<Cap>, caps: seq<Cap>)
    requires Matching(t, order, offset, ps, cs, |cs|) && multiset(cs) == multiset(caps)
    ensures IsTable(t, ps, caps)
  {
    assert cs[..|cs|] == cs;
    forall c ensures Shared(ps, cs, c) <==> Shared(ps, caps, c) {
      assert c in cs <==> c in multiset(cs);
      assert c in caps <==> c in multiset(caps);
    }
    hide Shared, Find;
  }

  /** The capabilities a side announces. */
  function CapsOf(ps: seq<Protocol>): seq<Cap> {
    seq(|ps|, i requires 0 <= i < |ps| => ps[i].cap)
  }

  lemma {:induction false} Announced(ps: seq<Protocol>, c: Cap)
    ensures c in CapsOf(ps) <==> Find(ps, c).Some?
  {
    if ps != [] {
      assert CapsOf(ps) == [ps[0].cap] + CapsOf(ps[1..]);
      Announced(ps[1..], c);
    }
  }

  /** v is the highest version of n that both sides have. */
  ghost predicate HighestShared(pa: seq<Protocol>, pb: seq<Protocol>, n: Name, v: nat) {
    && Find(pa, Cap(n, v)).Some? && Find(pb, Cap(n, v)).Some?
    && forall w: nat :: Find(pa, Cap(n, w)).Some? && Find(pb, Cap(n, w)).Some? ==> w <= v
  }

  lemma SharedIsThere(pa: seq<Protocol>, pb: seq<Protocol>, t: Table, n: Name, v: nat)
    requires Matches(t, pa, CapsOf(pb)) && HighestShared(pa, pb, n, v)
    ensures n in t && t[n].version == v && t[n].length == Find(pa, Cap(n, v)).value.length
  {
    Announced(pb, Cap(n, v));
    assert Shared(pa, CapsOf(pb), Cap(n, v));
    Announced(pb, Cap(n, t[n].version));
    assert Shared(pa, CapsOf(pb), Cap(n, t[n].version));
  }

  /** Both sides give a protocol, in its highest shared version, the same number of codes. */
  ghost predicate Agree(pa: seq<Protocol>, pb: seq<Protocol>) {
    forall n, v :: HighestShared(pa, pb, n, v) ==> Find(pa, Cap(n, v)).value.length == Find(pb, Cap(n, v)).value.length
  }

  /** Two sides that match each other's announcements arrive at the same table exactly if they
      agree on the lengths. */
  lemma SameTable(pa: seq<Protocol>, pb: seq<Protocol>, ta: Table, tb: Table)
    requires IsTable(ta, pa, CapsOf(pb)) && IsTable(tb, pb, CapsOf(pa))
    ensures ta == tb <==> Agree(pa, pb)
  {
    forall n, v | HighestShared(pa, pb, n, v)
      ensures n in ta && ta[n].length == Find(pa, Cap(n, v)).value.length
      ensures n in tb && tb[n].length == Find(pb, Cap(n, v)).value.length
    {
      SharedIsThere(pa, pb, ta, n, v);
      HighestBothWays(pa, pb, n, v);
      SharedIsThere(pb, pa, tb, n, v);
    }
    if Agree(pa, pb) {
      SameButOffsets(pa, pb, ta, tb);
      SameOffsets(ta, tb);
    }
  }

  lemma HighestBothWays(pa: seq<Protocol>, pb: seq<Protocol>, n: Name, v: nat)
    ensures HighestShared(pa, pb, n, v) <==> HighestShared(pb, pa, n, v)
  {
  }

  /** Offsets follow from the names and lengths. */
  lemma SameOffsets(ta: Table, tb: Table)
    requires (exists oa :: Tiles(ta, oa)) && (exists ob :: Tiles(tb, ob)) && ta.Keys == tb.Keys
    requires forall n :: n in ta ==> ta[n].version == tb[n].version && ta[n].length == tb[n].length
    ensures ta == tb
  {
    var oa :| Tiles(ta, oa);
    var ob :| Tiles(tb, ob);
    SameOrder(oa, ob);
    forall n | n in ta ensures ta[n].offset == tb[n].offset {
      var k :| 0 <= k < |oa| && oa[k] == n;
      assert TileAt(ta, oa, k) && TileAt(tb, ob, k);
      forall j | 0 <= j < k ensures oa[..k][j] in ta && oa[..k][j] in tb {
        assert TileAt(ta, oa, j);
      }
      SameEnd(ta, tb, oa[..k]);
    }
  }

  lemma SameButOffsets(pa: seq<Protocol>, pb: seq<Protocol>, ta: Table, tb: Table)
    requires Agree(pa, pb) && Matches(ta, pa, CapsOf(pb)) && Matches(tb, pb, CapsOf(pa))
    ensures ta.Keys == tb.Keys
    ensures forall n :: n in ta ==> ta[n].version == tb[n].version && ta[n].length == tb[n].length
  {
    hide Agree, Find;
    forall n | n in ta ensures n in tb && ta[n].version == tb[n].version && ta[n].length == tb[n].length {
      ThereIsShared(pa, pb, ta, n);
      HighestBothWays(pa, pb, n, ta[n].version);
      SharedIsThere(pb, pa, tb, n, ta[n].version);
      SameLength(pa, pb, n, ta[n].version);
    }
    forall n | n in tb ensures n in ta {
      ThereIsShared(pb, pa, tb, n);
      HighestBothWays(pa, pb, n, tb[n].version);
      SharedIsThere(pa, pb, ta, n, tb[n].version);
    }
  }

  lemma SameLength(pa: seq<Protocol>, pb: seq<Protocol>, n: Name, v: nat)
    requires Agree(pa, pb) && HighestShared(pa, pb, n, v)
    ensures Find(pa, Cap(n, v)).value.length == Find(pb, Cap(n, v)).value.length
  {
  }

  /** The versions in the table are the highest shared ones. */
  lemma ThereIsShared(pa: seq<Protocol>, pb: seq<Protocol>, t: Table, n: Name)
    requires Matches(t, pa, CapsOf(pb)) && n in t
    ensures HighestShared(pa, pb, n, t[n].version) && t[n].length == Find(pa, Cap(n, t[n].version)).value.length
  {
    forall w: nat
      ensures Shared(pa, CapsOf(pb), Cap(n, w)) <==> Find(pa, Cap(n, w)).Some? && Find(pb, Cap(n, w)).Some?
    {
      Announced(pb, Cap(n, w));
    }
  }

  /** Ascending sequences with the same members are equal. */
  lemma {:induction false} SameOrder(a: seq<Name>, b: seq<Name>)
    requires Ascending(a) && Ascending(b) && forall n :: n in a <==> n in b
    ensures a == b
    decreases |a|
  {
    if |a| > 0 || |b| > 0 {
      assert |a| > 0 ==> a[|a| - 1] in b;
      assert |b| > 0 ==> b[|b| - 1] in a;
      var x := a[|a| - 1];
      var a', b' := a[..|a| - 1], b[..|b| - 1];
      forall n ensures n in a' <==> n in b' {
        assert n in a' <==> n in a && n != x;
        assert n in b' <==> n in b && n != x;
      }
      SameOrder(a', b');
      assert a == a' + [x] && b == b' + [x];
    }
  }

  function EndOf(e: Entry): nat {
    e.offset + e.length
  }

  ghost predicate InRange(e: Entry, code: nat) {
    e.offset <= code < e.offset + e.length
  }

  /** No two ranges meet, and none reaches into the base protocol. */
  ghost predicate Disjoint(t: Table) {
    && (forall n :: n in t ==> BASE <= t[n].offset)
    && (forall m, n :: m in t && n in t && m != n ==>
          t[m].offset + t[m].length <= t[n].offset || t[n].offset + t[n].length <= t[m].offset)
  }

  lemma {:induction false} EndGrows(t: Table, order: seq<Name>, j: nat, k: nat)
    requires j < k <= |order| && forall i :: 0 <= i < |order| ==> order[i] in t
    ensures BASE <= End(t, order[..j]) && End(t, order[..j]) + t[order[j]].length <= End(t, order[..k])
    decreases k
  {
    assert order[..k][..k - 1] == order[..k - 1];
    if j < k - 1 {
      EndGrows(t, order, j, k - 1);
    } else {
      EndAtLeast(t, order[..j]);
    }
  }

  lemma {:induction false} EndAtLeast(t: Table, order: seq<Name>)
    ensures BASE <= End(t, order)
  {
    if order != [] {
      EndAtLeast(t, order[..|order| - 1]);
    }
  }

  lemma TilesAreDisjoint(t: Table, order: seq<Name>)
    requires Tiles(t, order)
    ensures Disjoint(t)
  {
    forall i | 0 <= i < |order| ensures order[i] in t && t[order[i]].offset == End(t, order[..i]) {
      assert TileAt(t, order, i);
    }
    forall n | n in t ensures BASE <= t[n].offset {
      var k :| 0 <= k < |order| && order[k] == n;
      EndAtLeast(t, order[..k]);
    }
    forall m, n | m in t && n in t && m < n ensures t[m].offset + t[m].length <= t[n].offset {
      var j :| 0 <= j < |order| && order[j] == m;
      var k :| 0 <= k < |order| && order[k] == n;
      EndGrows(t, order, j, k);
    }
  }

  class Peer {
    var running: Table
    var caps: seq<Cap>

    constructor (t: Table, caps: seq<Cap>)
      ensures running == t && this.caps == caps
    {
      running, this.caps := t, caps;
    }

    /** The protocol a wire code belongs to, looking through the table in any order. */
    method GetProto(code: nat) returns (r: Option<Name>)
      requires Disjoint(running)
      ensures r.Some? ==> r.value in running && InRange(running[r.value], code)
      ensures forall n :: n in running && InRange(running[n], code) ==> r == Some(n)
    {
      var todo := running.Keys;
      while todo != {}
        invariant todo <= running.Keys && forall n :: n in running && n !in todo ==> !InRange(running[n], code)
        decreases todo
      {
        var n :| n in todo;
        todo := todo - {n};
        if running[n].offset <= code < running[n].offset + running[n].length {
          return Some(n);
        }
      }
      return None;
    }

    /** The code on the wire for one of a protocol's own codes. */
    method WriteCode(n: Name, code: nat) returns (r: Option<nat>)
      requires n in running
      ensures r == if code < running[n].length then Some(code + running[n].offset) else None
    {
      if code >= running[n].length {
        return None;
      }
      return Some(code + running[n].offset);
    }

    /** What arrives for a wire code: the protocol and its own code. */
    method ReadCode(wire: nat) returns (r: Option<(Name, nat)>)
      requires Disjoint(running)
      ensures forall n :: n in running && InRange(running[n], wire) ==> r == Some((n, wire - running[n].offset))
      ensures r.Some? ==> BASE <= wire
    {
      var p := GetProto(wire);
      if p.None? {
        return None;
      }
      return Some((p.value, wire - running[p.value].offset));
    }

    /** The end of the highest range in use; 0, inside the base protocol, if there is none. */
    method LargestOffset() returns (end: nat)
      ensures forall n :: n in running ==> EndOf(running[n]) <= end
      ensures if running == map[] then end == 0 else exists n :: n in running && end == EndOf(running[n])
    {
      end := 0;
      var todo := running.Keys;
      while todo != {}
        invariant todo <= running.Keys
        invariant forall n :: n in running && n !in todo ==> EndOf(running[n]) <= end
        invariant todo == running.Keys || exists n :: n in running && end == EndOf(running[n])
        invariant todo == running.Keys ==> end == 0
        decreases todo
      {
        var n :| n in todo;
        todo := todo - {n};
        if running[n].offset + running[n].length > end {
          end := running[n].offset + running[n].length;
        }
      }
    }

    /** Add a side chain's protocol behind the others. The source takes its channels from the
        main chain's entry, and crashes if that is missing. */
    method CheckAndUpdate(side: Name, server: seq<Protocol>) returns (r: Update)
      requires Disjoint(running)
      modifies this
      ensures Disjoint(running)
      ensures r == Added <==>
                && side !in old(running) && (exists i :: 0 <= i < |server| && server[i].cap.name == side)
                && MAIN in old(running)
      ensures r == Crash <==>
                && side !in old(running) && (exists i :: 0 <= i < |server| && server[i].cap.name == side)
                && MAIN !in old(running)
      ensures r != Added ==> running == old(running) && caps == old(caps)
      ensures r == Added ==>
                && side in running && running == old(running)[side := running[side]]
                && (forall n :: n in old(running) ==> EndOf(old(running)[n]) <= running[side].offset)
                && (exists n :: n in old(running) && EndOf(old(running)[n]) == running[side].offset)
                && Cap(side, running[side].version) in caps && (forall c :: c in old(caps) ==> c in caps)
                && exists i :: 0 <= i < |server| &&
                     server[i] == Protocol(Cap(side, running[side].version), running[side].length)
    {
      if side in running {
        return Unchanged;
      }
      var offset := LargestOffset();
      for i := 0 to |server|
        invariant forall j :: 0 <= j < i ==> server[j].cap.name != side
        invariant running == old(running) && caps == old(caps)
      {
        if server[i].cap.name == side {
          if MAIN !in running {
            return Crash;
          }
          running := running[side := Entry(server[i].cap.version, offset, server[i].length)];
          if server[i].cap !in caps {
            caps := caps + [server[i].cap];
          }
          return Added;
        }
      }
      return Unchanged;
    }
  }

  datatype Update = Unchanged | Added | Crash

  /** Between sides that agree on the lengths, a code written by one side's protocol is read back
      unchanged by the same protocol on the other side. */
  method Transmit(pa: seq<Protocol>, pb: seq<Protocol>, n: Name, code: nat) returns (r: Option<(Name, nat)>)
    ensures Agree(pa, pb) ==>
              forall v :: HighestShared(pa, pb, n, v) && code < Find(pa, Cap(n, v)).value.length ==>
                r == Some((n, code))
  {
    hide Disjoint, Agree, Find, Tiles, Shared;
    var ta := MatchProtocols(pa, CapsOf(pb));
    var tb := MatchProtocols(pb, CapsOf(pa));
    SameTable(pa, pb, ta, tb);
    ghost var order :| Tiles(tb, order);
    TilesAreDisjoint(tb, order);
    forall v | HighestShared(pa, pb, n, v)
      ensures n in ta && ta[n].length == Find(pa, Cap(n, v)).value.length
    {
      SharedIsThere(pa, pb, ta, n, v);
    }
    if n !in ta {
      return None;
    }
    var sender := new Peer(ta, CapsOf(pb));
    var receiver := new Peer(tb, CapsOf(pa));
    var wire := sender.WriteCode(n, code);
    if wire.None? {
      return None;
    }
    r := receiver.ReadCode(wire.value);
  }
}
