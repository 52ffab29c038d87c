/** The virtual nonces of the pool and the pending intervals they delimit. */
module PoolNonces {
  import opened TxTypes
  import opened TxSortedMaps
  import opened TxLists
  import opened PoolInvariants

  /** `ManagedState.GetNonce`: the nonce set by the pool, or the one of the chain state. */
  function VirtualNonce(virtual: map<Address, nat>, nonceOf: Address -> nat, a: Address): nat {
    if a in virtual then virtual[a] else nonceOf(a)
  }

  /** Account a's pending nonces are exactly those from its state nonce up to its virtual nonce. */
  ghost predicate ContiguousAt(p: Lists, virtual: map<Address, nat>, nonceOf: Address -> nat, a: Address) {
    if a in p then Contiguous(p[a].items, nonceOf(a), VirtualNonce(virtual, nonceOf, a))
    else VirtualNonce(virtual, nonceOf, a) == nonceOf(a)
  }

  ghost predicate AllContiguous(p: Lists, virtual: map<Address, nat>, nonceOf: Address -> nat) {
    forall a :: ContiguousAt(p, virtual, nonceOf, a)
  }

  /** Only account a was touched. */
  ghost predicate SameElsewhere<V>(m: map<Address, V>, m': map<Address, V>, a: Address) {
    forall b :: b != a ==> (b in m <==> b in m') && (b in m ==> m[b] == m'[b])
  }

  lemma ContiguousAfter(p: Lists, v: map<Address, nat>, p': Lists, v': map<Address, nat>, nonceOf: Address -> nat,
                        a: Address)
    requires AllContiguous(p, v, nonceOf) && SameElsewhere(p, p', a) && SameElsewhere(v, v', a)
    requires ContiguousAt(p', v', nonceOf, a)
    ensures AllContiguous(p', v', nonceOf)
  {
    forall b ensures ContiguousAt(p', v', nonceOf, b) {
      assert ContiguousAt(p, v, nonceOf, b);
    }
  }

  /** The virtual nonce after a pending transaction at nonce n is taken out. */
  function Lowered(v: map<Address, nat>, nonceOf: Address -> nat, a: Address, n: nat): map<Address, nat> {
    if VirtualNonce(v, nonceOf, a) > n then v[a := n] else v
  }

  /** Removing a pending transaction leaves the interval below it, and the virtual nonce there. */
  lemma RemovalKeepsInterval(p: Lists, v: map<Address, nat>, nonceOf: Address -> nat, a: Address, n: nat)
    requires AllContiguous(p, v, nonceOf) && Occupied(p, a, n) && p[a].strict
    ensures AllContiguous(WithList(p, a, p[a].Remove(n)), Lowered(v, nonceOf, a, n), nonceOf)
  {
    var p', v' := WithList(p, a, p[a].Remove(n)), Lowered(v, nonceOf, a, n);
    assert ContiguousAt(p, v, nonceOf, a);
    if n > nonceOf(a) {
      assert n - 1 in p[a].items;
      assert n - 1 in p[a].Remove(n).items;
    } else {
      assert p[a].Remove(n).items == map[];
    }
    ContiguousAfter(p, v, p', v', nonceOf, a);
  }

  /** Queued nonces never lie inside the pending interval, so once those below the state nonce
      are gone, a queue whose first nonce is within reach starts exactly at the virtual nonce. */
  lemma ReadyStartsAtVirtualNonce(p: Lists, q: Lists, v: map<Address, nat>, nonceOf: Address -> nat, a: Address)
    requires Apart(p, q) && ContiguousAt(p, v, nonceOf, a) && a in q
    requires forall n :: n in q[a].items ==> nonceOf(a) <= n
    requires q[a].items != map[] && MinNonce(q[a].items) <= VirtualNonce(v, nonceOf, a)
    ensures MinNonce(q[a].items) == VirtualNonce(v, nonceOf, a)
  {
    var n := MinNonce(q[a].items);
    assert Occupied(q, a, n) && !Occupied(p, a, n);
  }

  /** Promoting the transaction at the virtual nonce extends the interval by one. */
  lemma PromotionExtends(p: Lists, v: map<Address, nat>, nonceOf: Address -> nat, tx: Tx, bump: nat)
    requires AllContiguous(p, v, nonceOf) && tx.nonce == VirtualNonce(v, nonceOf, tx.from)
    ensures var r := ListOf(p, tx.from, true).Add(tx, bump);
            r.Added? && AllContiguous(p[tx.from := r.list], v[tx.from := tx.nonce + 1], nonceOf)
  {
    var a := tx.from;
    assert ContiguousAt(p, v, nonceOf, a);
    var r := ListOf(p, a, true).Add(tx, bump);
    ContiguousAfter(p, v, p[a := r.list], v[a := tx.nonce + 1], nonceOf, a);
  }

  /** Nothing queued is executable: account a's queue has no transaction at its virtual nonce. */
  ghost predicate IdleAt(q: Lists, v: map<Address, nat>, nonceOf: Address -> nat, a: Address) {
    !Occupied(q, a, VirtualNonce(v, nonceOf, a))
  }

  ghost predicate Idle(q: Lists, v: map<Address, nat>, nonceOf: Address -> nat, except: set<Address>) {
    forall a :: a !in except ==> IdleAt(q, v, nonceOf, a)
  }

  lemma IdleAfter(q: Lists, v: map<Address, nat>, q': Lists, v': map<Address, nat>, nonceOf: Address -> nat,
                  except: set<Address>, a: Address)
    requires Idle(q, v, nonceOf, except) && SameElsewhere(q, q', a) && SameElsewhere(v, v', a)
    ensures Idle(q', v', nonceOf, except + {a})
    ensures IdleAt(q', v', nonceOf, a) ==> Idle(q', v', nonceOf, except - {a})
  {
    forall b | b !in except && b != a ensures IdleAt(q', v', nonceOf, b) {
      assert IdleAt(q, v, nonceOf, b);
    }
  }

  lemma IdleShrunk(q: Lists, q': Lists, v: map<Address, nat>, nonceOf: Address -> nat, except: set<Address>)
    requires Idle(q, v, nonceOf, except) && forall a :: a in q' ==> a in q && PartOf(q'[a].items, q[a].items)
    ensures Idle(q', v, nonceOf, except)
  {
    forall a | a !in except ensures IdleAt(q', v, nonceOf, a) {
      assert IdleAt(q, v, nonceOf, a);
    }
  }

  /** Taking a transaction out of pending frees its nonce, which nothing in the queue has. */
  lemma IdleAfterRemoval(p: Lists, q: Lists, all: set<Tx>, p': Lists, q': Lists, v: map<Address, nat>,
                         nonceOf: Address -> nat, tx: Tx, except: set<Address>)
    requires Consistent(p, q, all, 0, map[]) && Consistent(p', q', all - {tx}, 0, map[]) && Holds(p, tx)
    requires p' == WithList(p, tx.from, p[tx.from].Remove(tx.nonce)) && SameElsewhere(q, q', tx.from)
    requires Idle(q, v, nonceOf, except)
    ensures Idle(q', Lowered(v, nonceOf, tx.from, tx.nonce), nonceOf, except)
  {
    var a, v' := tx.from, Lowered(v, nonceOf, tx.from, tx.nonce);
    assert p[a].strict;
    forall n: nat | Occupied(q', a, n) ensures Occupied(q, a, n) || n > tx.nonce {
      var t := q'[a].items[n];
      assert t.from == a && t.nonce == n && Holds(q', t);
      if Holds(p, t) {
        assert Occupied(q', a, n) && !Occupied(p', a, n);
      }
    }
    if a !in except {
      assert IdleAt(q, v, nonceOf, a);
      assert Occupied(p, a, tx.nonce) && !Occupied(q, a, tx.nonce);
    }
    IdleAfter(q, v, q', v', nonceOf, except, a);
  }
}
