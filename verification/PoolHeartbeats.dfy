/** core/tx_pool.go, the heartbeats: when each account's transactions were last promoted. */
module PoolHeartbeats {
  import opened TxTypes
  import opened TxLists
  import opened PoolInvariants
  import opened PoolNonces
  import opened PoolEviction

  type Heartbeats = map<Address, nat>

  /** Exactly the accounts with a pending list have a heartbeat. */
  ghost predicate Heard(p: Lists, b: Heartbeats) {
    b.Keys == p.Keys
  }

  /** Some nonce of account a became pending. */
  ghost predicate Gained(p0: Lists, p: Lists, a: Address) {
    a in p && (a !in p0 || exists n :: n in p[a].items && n !in p0[a].items)
  }

  /** Every account with a pending list has the heartbeat it had and gained nothing, or a heartbeat
      between these times. */
  ghost predicate Paced(p0: Lists, b0: Heartbeats, p: Lists, b: Heartbeats, from: nat, to: nat) {
    Heard(p0, b0) ==>
      && Heard(p, b)
      && forall a :: a in p ==> from <= b[a] <= to || (a in p0 && b[a] == b0[a] && !Gained(p0, p, a))
  }

  /** Nothing was promoted: heartbeats only went with their lists. */
  ghost predicate Unpromoted(p0: Lists, b0: Heartbeats, p: Lists, b: Heartbeats) {
    Paced(p0, b0, p, b, 1, 0)
  }

  function Stamped(b: Heartbeats, a: Address, now: nat, promoted: bool): Heartbeats {
    if promoted then b[a := now] else b
  }

  lemma StampedOnce(b: Heartbeats, a: Address, now: nat)
    ensures Stamped(b, a, now, false) == b
    ensures forall promoted :: Stamped(b, a, now, promoted)[a := now] == Stamped(b, a, now, true)
  {
  }

  lemma PacedNothing(p: Lists, b: Heartbeats)
    ensures Unpromoted(p, b, p, b)
  {
  }

  lemma PacedAnyway(p0: Lists, b0: Heartbeats, p: Lists, b: Heartbeats, from: nat, to: nat)
    requires Unpromoted(p0, b0, p, b)
    ensures Paced(p0, b0, p, b, from, to)
  {
    hide Gained;
  }

  lemma PacedWider(p0: Lists, b0: Heartbeats, p: Lists, b: Heartbeats, from: nat, to: nat, from': nat, to': nat)
    requires Paced(p0, b0, p, b, from, to) && from' <= from && to <= to'
    ensures Paced(p0, b0, p, b, from', to')
  {
    hide Gained;
  }

  lemma PacedOn(p0: Lists, b0: Heartbeats, p1: Lists, b1: Heartbeats, p: Lists, b: Heartbeats, from: nat, to: nat)
    requires Paced(p0, b0, p1, b1, from, to) && Paced(p1, b1, p, b, from, to)
    ensures Paced(p0, b0, p, b, from, to)
  {
  }

  /** Lists that lost nonces, and none of them its key. */
  lemma PacedShrunk(p0: Lists, p: Lists, b: Heartbeats)
    requires p.Keys == p0.Keys && forall a :: a in p ==> p[a].items.Keys <= p0[a].items.Keys
    ensures Unpromoted(p0, b, p, b)
  {
  }

  lemma PacedEvicted(p0: Lists, p: Lists, b: Heartbeats, locals: set<Address>, slots: nat)
    requires Evicted(p0, p, locals, slots)
    ensures Unpromoted(p0, b, p, b)
  {
    forall a | a in p ensures p[a].items.Keys <= p0[a].items.Keys {
      assert LowPart(p[a].items, p0[a].items);
    }
    PacedShrunk(p0, p, b);
  }

  /** One list lost nonces; if it went, its heartbeat went with it. */
  lemma PacedLess(p0: Lists, b: Heartbeats, a: Address, l: List)
    requires a in p0 && l.items.Keys <= p0[a].items.Keys
    ensures Unpromoted(p0, b, p0[a := l], b) && Unpromoted(p0, b, p0 - {a}, b - {a})
  {
  }

  lemma PacedMore(p0: Lists, b0: Heartbeats, p: Lists, a: Address, now: nat)
    requires SameElsewhere(p0, p, a) && a in p
    ensures Paced(p0, b0, p, Stamped(b0, a, now, true), now, now)
  {
  }

}
