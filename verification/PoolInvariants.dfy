/** What the transaction pool keeps true across its maps, and the elementary moves of a
    transaction between them. */
module PoolInvariants {
  import opened TxTypes
  import opened TxLists

  type Lists = map<Address, List>

  ghost predicate Holds(lists: Lists, tx: Tx) {
    tx.from in lists && tx.nonce in lists[tx.from].items && lists[tx.from].items[tx.nonce] == tx
  }

  /** Some list entry of account a sits at nonce n. */
  ghost predicate Occupied(lists: Lists, a: Address, n: nat) {
    a in lists && n in lists[a].items
  }

  ghost predicate Owned(m: Items, a: Address) {
    Keyed(m) && forall n :: n in m ==> m[n].from == a
  }

  ghost predicate Sound(lists: Lists, strict: bool) {
    forall a :: a in lists ==> lists[a].Valid() && lists[a].strict == strict && Owned(lists[a].items, a)
  }

  /** No account has the same nonce both pending and queued. */
  ghost predicate Apart(p: Lists, q: Lists) {
    forall a, n :: !(Occupied(p, a, n) && Occupied(q, a, n))
  }

  /** `all` is the disjoint union of pending and queue, plus the transactions of account a that
      are on their way from one to the other. */
  ghost predicate Consistent(p: Lists, q: Lists, all: set<Tx>, a: Address, moving: Items) {
    && Sound(p, true) && Sound(q, false) && Apart(p, q)
    && Owned(moving, a)
    && (forall n :: n in moving ==> !Occupied(p, a, n) && !Occupied(q, a, n))
    && (forall tx :: tx in all <==> Holds(p, tx) || Holds(q, tx) || tx in TxsOf(moving))
  }

  ghost predicate NoneEmpty(lists: Lists) {
    forall a :: a in lists ==> lists[a].items != map[]
  }

  /** The map with account a's list replaced, or dropped when it became empty. */
  function WithList(lists: Lists, a: Address, l: List): Lists {
    if l.items == map[] then lists - {a} else lists[a := l]
  }

  function ListOf(lists: Lists, a: Address, strict: bool): List {
    if a in lists then lists[a] else NewList(strict)
  }

  /** Which account is tagged does not matter while nothing moves. */
  lemma Retag(p: Lists, q: Lists, all: set<Tx>, a: Address, b: Address)
    requires Consistent(p, q, all, a, map[])
    ensures Consistent(p, q, all, b, map[])
  {
  }

  lemma TakeFromPending(p: Lists, q: Lists, all: set<Tx>, a: Address, l: List)
    requires Consistent(p, q, all, a, map[]) && a in p && l.strict && l.Valid() && PartOf(l.items, p[a].items)
    ensures Consistent(p[a := l], q, all, a, p[a].items - l.items.Keys)
  {
    var gone, p' := p[a].items - l.items.Keys, p[a := l];
    forall tx ensures tx in all <==> Holds(p', tx) || Holds(q, tx) || tx in TxsOf(gone) {
      assert Holds(p, tx) <==> Holds(p', tx) || tx in TxsOf(gone);
    }
    forall b, n ensures Occupied(p', b, n) ==> Occupied(p, b, n) {}
    forall n | n in gone ensures !Occupied(p', a, n) && !Occupied(q, a, n) {
      assert Occupied(p, a, n);
    }
  }

  lemma TakeFromQueue(p: Lists, q: Lists, all: set<Tx>, a: Address, l: List)
    requires Consistent(p, q, all, a, map[]) && a in q && !l.strict && l.Valid() && PartOf(l.items, q[a].items)
    ensures Consistent(p, q[a := l], all, a, q[a].items - l.items.Keys)
  {
    var gone, q' := q[a].items - l.items.Keys, q[a := l];
    forall tx ensures tx in all <==> Holds(p, tx) || Holds(q', tx) || tx in TxsOf(gone) {
      assert Holds(q, tx) <==> Holds(q', tx) || tx in TxsOf(gone);
    }
    forall b, n ensures Occupied(q', b, n) ==> Occupied(q, b, n) {}
    forall n | n in gone ensures !Occupied(p, a, n) && !Occupied(q', a, n) {
      assert Occupied(q, a, n);
    }
  }

  /** Forgetting transactions that sit in neither map. */
  lemma Forgotten(p: Lists, q: Lists, all: set<Tx>, a: Address, moving: Items, gone: Items)
    requires Consistent(p, q, all, a, moving) && PartOf(gone, moving)
    ensures Consistent(p, q, all - TxsOf(gone), a, moving - gone.Keys)
  {
    var rest, all' := moving - gone.Keys, all - TxsOf(gone);
    forall tx | tx in TxsOf(gone) ensures !Holds(p, tx) && !Holds(q, tx) && tx !in TxsOf(rest) {
      assert tx.nonce in moving && tx.from == a;
      assert !Occupied(p, a, tx.nonce) && !Occupied(q, a, tx.nonce);
    }
    forall tx ensures tx in all' <==> Holds(p, tx) || Holds(q, tx) || tx in TxsOf(rest) {
      assert tx in TxsOf(moving) <==> tx in TxsOf(rest) || tx in TxsOf(gone);
    }
  }

  /** A new transaction whose nonce is free in both maps. */
  lemma Arrived(p: Lists, q: Lists, all: set<Tx>, tx: Tx)
    requires Consistent(p, q, all, tx.from, map[])
    requires !Occupied(p, tx.from, tx.nonce) && !Occupied(q, tx.from, tx.nonce)
    ensures Consistent(p, q, all + {tx}, tx.from, map[tx.nonce := tx])
  {
  }

  lemma PutInQueue(p: Lists, q: Lists, all: set<Tx>, a: Address, moving: Items, n: nat, bump: nat)
    requires Consistent(p, q, all, a, moving) && n in moving
    ensures var r := ListOf(q, a, false).Add(moving[n], bump);
            && moving[n].from == a && moving[n].nonce == n && moving[n] in all
            && r.Added? && r.replaced == None && Consistent(p, q[a := r.list], all, a, moving - {n})
  {
    var l, tx := ListOf(q, a, false), moving[n];
    assert n !in l.items by { assert !Occupied(q, a, n); }
    var l' := l.Add(tx, bump).list;
    var q', rest := q[a := l'], moving - {n};
    forall t ensures t in all <==> Holds(p, t) || Holds(q', t) || t in TxsOf(rest) {
      assert Holds(q', t) <==> Holds(q, t) || t == tx;
      assert t in TxsOf(moving) <==> t in TxsOf(rest) || t == tx;
    }
    forall b, k ensures Occupied(q', b, k) <==> Occupied(q, b, k) || (b == a && k == n) {}
    forall b, k ensures !(Occupied(p, b, k) && Occupied(q', b, k)) {
      assert !Occupied(p, a, n);
    }
  }

  lemma PutInPending(p: Lists, q: Lists, all: set<Tx>, a: Address, moving: Items, n: nat, bump: nat)
    requires Consistent(p, q, all, a, moving) && n in moving
    ensures var r := ListOf(p, a, true).Add(moving[n], bump);
            && moving[n].from == a && moving[n].nonce == n && moving[n] in all
            && r.Added? && r.replaced == None && Consistent(p[a := r.list], q, all, a, moving - {n})
  {
    var l, tx := ListOf(p, a, true), moving[n];
    assert n !in l.items by { assert !Occupied(p, a, n); }
    var l' := l.Add(tx, bump).list;
    var p', rest := p[a := l'], moving - {n};
    forall t ensures t in all <==> Holds(p', t) || Holds(q, t) || t in TxsOf(rest) {
      assert Holds(p', t) <==> Holds(p, t) || t == tx;
      assert t in TxsOf(moving) <==> t in TxsOf(rest) || t == tx;
    }
    forall b, k ensures Occupied(p', b, k) <==> Occupied(p, b, k) || (b == a && k == n) {}
    forall b, k ensures !(Occupied(p', b, k) && Occupied(q, b, k)) {
      assert !Occupied(q, a, n);
    }
  }

  /** An empty list may be dropped from its map. */
  lemma DropEmpty(p: Lists, q: Lists, all: set<Tx>, a: Address, moving: Items, b: Address)
    requires Consistent(p, q, all, a, moving)
    ensures b in p && p[b].items == map[] ==> Consistent(p - {b}, q, all, a, moving)
    ensures b in q && q[b].items == map[] ==> Consistent(p, q - {b}, all, a, moving)
  {
    if b in p && p[b].items == map[] {
      assert forall tx :: Holds(p - {b}, tx) <==> Holds(p, tx);
      assert forall c, n :: Occupied(p - {b}, c, n) <==> Occupied(p, c, n);
    }
    if b in q && q[b].items == map[] {
      assert forall tx :: Holds(q - {b}, tx) <==> Holds(q, tx);
      assert forall c, n :: Occupied(q - {b}, c, n) <==> Occupied(q, c, n);
    }
  }

  /** Where a pooled transaction sits is decided by its nonce alone, so removing by nonce
      removes that very transaction. */
  lemma PooledSitsAtItsNonce(p: Lists, q: Lists, all: set<Tx>, tx: Tx)
    requires Consistent(p, q, all, tx.from, map[]) && tx in all
    ensures if Occupied(p, tx.from, tx.nonce) then Holds(p, tx) && !Occupied(q, tx.from, tx.nonce) else Holds(q, tx)
  {
  }

  /** Taking tx out of its pending list leaves the invalidated successors on the move. */
  lemma RemovePending(p: Lists, q: Lists, all: set<Tx>, tx: Tx)
    requires Consistent(p, q, all, tx.from, map[]) && Holds(p, tx)
    ensures var l := p[tx.from];
            Consistent(WithList(p, tx.from, l.Remove(tx.nonce)), q, all - {tx}, tx.from, l.Invalidated(tx.nonce))
  {
    var a, n, l := tx.from, tx.nonce, p[tx.from];
    var l' := l.Remove(n);
    assert l.Valid() && l.strict;
    RemoveParts(l, tx);
    hide Consistent, List.Remove, List.Invalidated, From, PartOf, List.Valid;
    TakeFromPending(p, q, all, a, l');
    Forgotten(p[a := l'], q, all, a, From(l.items, n), map[n := tx]);
    DropEmpty(p[a := l'], q, all - {tx}, a, l.Invalidated(n), a);
    assert p[a := l'] - {a} == p - {a};
  }

  /** A strict removal splits a list into what stays, the transaction, and what it invalidates. */
  lemma RemoveParts(l: List, tx: Tx)
    requires l.Valid() && l.strict && tx.nonce in l.items && l.items[tx.nonce] == tx
    ensures var l', gone, one := l.Remove(tx.nonce), From(l.items, tx.nonce), map[tx.nonce := tx];
            && l'.strict && l'.Valid() && PartOf(l'.items, l.items) && l.items - l'.items.Keys == gone
            && PartOf(one, gone) && gone - one.Keys == l.Invalidated(tx.nonce) && TxsOf(one) == {tx}
  {
    var l', gone, one := l.Remove(tx.nonce), From(l.items, tx.nonce), map[tx.nonce := tx];
    assert l.items - l'.items.Keys == gone;
    assert gone - one.Keys == l.Invalidated(tx.nonce);
  }

  lemma RemoveQueued(p: Lists, q: Lists, all: set<Tx>, tx: Tx)
    requires Consistent(p, q, all, tx.from, map[]) && Holds(q, tx)
    ensures Consistent(p, WithList(q, tx.from, q[tx.from].Remove(tx.nonce)), all - {tx}, tx.from, map[])
  {
    var a, n, l := tx.from, tx.nonce, q[tx.from];
    var l' := l.Remove(n);
    assert l.Valid() && !l.strict;
    hide Consistent;
    TakeFromQueue(p, q, all, a, l');
    assert l.items - l'.items.Keys == map[n := tx];
    Forgotten(p, q[a := l'], all, a, map[n := tx], map[n := tx]);
    assert TxsOf(map[n := tx]) == {tx};
    assert map[n := tx] - {n} == map[];
    DropEmpty(p, q[a := l'], all - {tx}, a, map[], a);
    assert q[a := l'] - {a} == q - {a};
  }

  /** The known transactions after tx took the place of another, if any. */
  function Swapped(all: set<Tx>, prev: Option<Tx>, tx: Tx): set<Tx> {
    all - (if prev.Some? then {prev.value} else {}) + {tx}
  }

  /** A better priced transaction takes over a pending nonce. */
  lemma ReplacePending(p: Lists, q: Lists, all: set<Tx>, tx: Tx, bump: nat)
    requires Consistent(p, q, all, tx.from, map[]) && Occupied(p, tx.from, tx.nonce)
    requires p[tx.from].Add(tx, bump).Added?
    ensures var r := p[tx.from].Add(tx, bump);
            r.replaced == Some(p[tx.from].items[tx.nonce])
            && Consistent(p[tx.from := r.list], q, Swapped(all, r.replaced, tx), tx.from, map[])
  {
    var a, n, l := tx.from, tx.nonce, p[tx.from];
    assert l.Valid() && l.strict && Owned(l.items, a);
    assert !Occupied(q, a, n);
    SwapParts(l, tx);
    hide Consistent, PartOf, TxsOf;
    var l1, prev := l.(items := l.items - {n}), map[n := l.items[n]];
    TakeFromPending(p, q, all, a, l1);
    Forgotten(p[a := l1], q, all, a, prev, prev);
    Arrived(p[a := l1], q, all - {l.items[n]}, tx);
    PutInPending(p[a := l1], q, all - {l.items[n]} + {tx}, a, map[n := tx], n, bump);
    assert p[a := l1][a := l.Add(tx, bump).list] == p[a := l.Add(tx, bump).list];
  }

  /** A transaction whose nonce is not pending enters the queue, possibly replacing another. */
  lemma EnterQueue(p: Lists, q: Lists, all: set<Tx>, tx: Tx, bump: nat)
    requires Consistent(p, q, all, tx.from, map[]) && !Occupied(p, tx.from, tx.nonce)
    requires ListOf(q, tx.from, false).Add(tx, bump).Added?
    ensures var r := ListOf(q, tx.from, false).Add(tx, bump);
            Consistent(p, q[tx.from := r.list], Swapped(all, r.replaced, tx), tx.from, map[])
  {
    var a, n := tx.from, tx.nonce;
    if Occupied(q, a, n) {
      ReplaceQueued(p, q, all, tx, bump);
    } else {
      hide Consistent;
      Arrived(p, q, all, tx);
      PutInQueue(p, q, all + {tx}, a, map[n := tx], n, bump);
      assert map[n := tx] - {n} == map[];
      assert all - {} + {tx} == all + {tx};
    }
  }

  /** The same with a queued transaction of that nonce. */
  lemma ReplaceQueued(p: Lists, q: Lists, all: set<Tx>, tx: Tx, bump: nat)
    requires Consistent(p, q, all, tx.from, map[]) && !Occupied(p, tx.from, tx.nonce) && Occupied(q, tx.from, tx.nonce)
    requires q[tx.from].Add(tx, bump).Added?
    ensures var r := q[tx.from].Add(tx, bump);
            Consistent(p, q[tx.from := r.list], Swapped(all, r.replaced, tx), tx.from, map[])
  {
    var a, n, l := tx.from, tx.nonce, q[tx.from];
    assert l.Valid() && !l.strict && Owned(l.items, a);
    SwapParts(l, tx);
    hide Consistent, PartOf, TxsOf;
    var l1, prev := l.(items := l.items - {n}), map[n := l.items[n]];
    TakeFromQueue(p, q, all, a, l1);
    Forgotten(p, q[a := l1], all, a, prev, prev);
    Arrived(p, q[a := l1], all - {l.items[n]}, tx);
    PutInQueue(p, q[a := l1], all - {l.items[n]} + {tx}, a, map[n := tx], n, bump);
    assert q[a := l1][a := l.Add(tx, bump).list] == q[a := l.Add(tx, bump).list];
  }

  /** A list without the transaction that is replaced, and that transaction. */
  lemma SwapParts(l: List, tx: Tx)
    requires l.Valid() && tx.nonce in l.items
    ensures var n := tx.nonce;
            var l1, prev := l.(items := l.items - {n}), map[n := l.items[n]];
            && l1.Valid() && PartOf(l1.items, l.items) && l.items - l1.items.Keys == prev && PartOf(prev, prev)
            && prev - prev.Keys == map[] && TxsOf(prev) == {l.items[n]}
            && map[n := tx] - {n} == map[] && l1.items[n := tx] == l.items[n := tx]
  {
    var n := tx.nonce;
    assert l.items - (l.items - {n}).Keys == map[n := l.items[n]];
    assert (l.items - {n})[n := tx] == l.items[n := tx];
  }
}
