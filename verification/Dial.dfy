/** p2p/dial.go, the dial scheduler, with the peer map of the run loop in p2p/server.go. Time
    is an integer count of nanoseconds that does not go backwards; the answers of the discovery
    table and the address whitelist are parameters. */
module Dialing {
  import opened Heaps
  import opened TxTypes

  type NodeId = nat

  datatype ConnFlag = DynDialed | StaticDialed | Inbound

  datatype PastDial = PastDial(id: NodeId, exp: int)

  const Expiry: PastDial -> int := (d: PastDial) => d.exp

  datatype Task = Dial(id: NodeId, flag: ConnFlag) | Discover | WaitExpire(duration: int)

  const HISTORY: int := 30_000_000_000
  const FALLBACK: int := 20_000_000_000

  type Conns = map<NodeId, ConnFlag>

  function Dynamic(m: Conns): set<NodeId> {
    set id | id in m && m[id] == DynDialed
  }

  /** No more nodes are dynamic peers or being dialled dynamically than there is room for. */
  ghost predicate WithinBudget(peers: Conns, dialing: Conns, maxDyn: nat) {
    |Dynamic(peers) + Dynamic(dialing)| <= maxDyn
  }

  /** Every finished dial is remembered, or its time is up. */
  ghost predicate Remembered(hist: seq<PastDial>, done: map<NodeId, int>, clock: int) {
    forall id :: id in done ==> PastDial(id, done[id] + HISTORY) in hist || done[id] + HISTORY < clock
  }

  /** The history holds nothing else, every dial once, and none of a node that is being dialled. */
  ghost predicate Exact(hist: seq<PastDial>, done: map<NodeId, int>, dialing: Conns) {
    forall d :: d in hist ==>
      multiset(hist)[d] == 1 && d.id in done && d.exp == done[d.id] + HISTORY && d.id !in dialing
  }

  /** The last dial of this node ended less than the history time ago. */
  ghost predicate Recent(id: NodeId, done: map<NodeId, int>, now: int) {
    id in done && now <= done[id] + HISTORY
  }

  predicate InHistory(hist: seq<PastDial>, id: NodeId) {
    exists i :: 0 <= i < |hist| && hist[i].id == id
  }

  datatype Verdict = Go | AlreadyDialing | AlreadyConnected | Self | NotWhitelisted | RecentlyDialed

  /** The dials among some tasks. */
  function Dials(tasks: seq<Task>): seq<NodeId> {
    if tasks == [] then []
    else Dials(tasks[..|tasks| - 1]) +
         (if tasks[|tasks| - 1].Dial? then [tasks[|tasks| - 1].id] else [])
  }

  class DialState {
    const maxDyn: nat
    const self: NodeId
    const allowed: NodeId -> bool
    const hist: MinHeap<PastDial>
    var lookupRunning: bool
    var dialing: Conns
    var peers: Conns
    var lookupBuf: seq<NodeId>
    var bootnodes: seq<NodeId>
    var statics: set<NodeId>
    var start: int
    var clock: int
    /** When the last dial of a node finished, unless its history was cleared since. */
    ghost var done: map<NodeId, int>
    /** The dials handed out and not reported done. */
    ghost var flying: multiset<NodeId>

    ghost predicate Valid()
      reads this`peers, this`dialing, this`flying, this`done, this`clock, hist
    {
      && hist.Valid() && hist.key == Expiry
      && WithinBudget(peers, dialing, maxDyn) && flying == multiset(dialing.Keys)
      && Remembered(hist.s, done, clock) && Exact(hist.s, done, dialing)
    }

    constructor (maxDyn: nat, self: NodeId, allowed: NodeId -> bool, bootnodes: seq<NodeId>, statics: set<NodeId>,
                 now: int)
      ensures Valid() && fresh(hist) && this.maxDyn == maxDyn && this.self == self && this.allowed == allowed
      ensures Now() == Moment(map[], map[], statics, bootnodes, [], false, 0, now, map[])
    {
      this.maxDyn, this.self, this.allowed, this.bootnodes, this.statics := maxDyn, self, allowed, bootnodes, statics;
      lookupRunning, dialing, peers, lookupBuf, start, clock := false, map[], map[], [], 0, now;
      done, flying := map[], multiset{};
      hist := new MinHeap<PastDial>(Expiry);
    }

    method Contains(id: NodeId) returns (r: bool)
      ensures r <==> InHistory(hist.s, id)
    {
      for i := 0 to |hist.s|
        invariant forall j :: 0 <= j < i ==> hist.s[j].id != id
      {
        if hist.s[i].id == id {
          return true;
        }
      }
      return false;
    }

    /** Once the old dials are forgotten, a node passes exactly if it may be dialled now. */
    method CheckDial(id: NodeId) returns (v: Verdict)
      requires Valid() && Current(hist.s, clock)
      ensures v == Go <==> Eligible(id, dialing, peers, self, allowed, done, clock)
      ensures Refused(v, id, dialing, peers, self, allowed, done, clock)
    {
      hide Remembered, Current, Exact, WithinBudget, Ordered, InHistory;
      HistoryIsExact(hist.s, done, dialing, clock, id);
      if id in dialing {
        return AlreadyDialing;
      } else if id in peers {
        return AlreadyConnected;
      } else if id == self {
        return Self;
      } else if !allowed(id) {
        return NotWhitelisted;
      }
      var recent := Contains(id);
      return if recent then RecentlyDialed else Go;
    }

    /** Forget the dials whose time is up. */
    method Expire(now: int)
      requires Valid() && clock <= now
      modifies this`clock, hist
      ensures Valid() && clock == now && Current(hist.s, now)
    {
      hide Remembered, Current, Exact;
      ExpireStart(hist.s, done, clock, now);
      clock := now;
      while |hist.s| > 0 && hist.s[0].exp < now
        invariant Valid() && clock == now
        decreases |hist.s|
      {
        ghost var before := hist.s;
        var d := hist.Pop();
        Popped(before, hist.s, d, done, dialing, now);
      }
      AllCurrent(hist.s, hist.key, now);
    }

    /** Hand out a dial if the candidate passes. */
    method AddDial(flag: ConnFlag, id: NodeId, tasks: seq<Task>, ghost f0: multiset<NodeId>, ghost d0: Conns)
      returns (ok: bool, more: seq<Task>)
      requires Valid() && Current(hist.s, clock)
      requires flag == DynDialed ==> |Dynamic(peers)| + |Dynamic(dialing)| < maxDyn
      requires Started(tasks, f0, flying, d0, dialing, peers, self, allowed, done, clock)
      modifies this`dialing, this`flying
      ensures Valid() && ok == Eligible(id, old(dialing), peers, self, allowed, done, clock)
      ensures !ok ==> more == tasks && dialing == old(dialing) && flying == old(flying)
      ensures ok ==> more == tasks + [Dial(id, flag)] && dialing == old(dialing)[id := flag]
      ensures !Eligible(id, dialing, peers, self, allowed, done, clock)
      ensures |Dynamic(dialing)| == |old(Dynamic(dialing))| + (if ok && flag == DynDialed then 1 else 0)
      ensures Started(more, f0, flying, d0, dialing, peers, self, allowed, done, clock)
    {
      hide Remembered, Current, Exact, Started, Eligible, Refused, WithinBudget, Ordered, Dynamic;
      var v := CheckDial(id);
      if v != Go {
        return false, tasks;
      }
      StillExact(hist.s, done, dialing, peers, self, allowed, clock, id, flag);
      StartFacts(tasks, f0, flying, d0, dialing, peers, self, allowed, done, clock, id, flag, maxDyn);
      dialing := dialing[id := flag];
      flying := flying + multiset{id};
      DialledOnce(id, dialing, peers, self, allowed, done, clock);
      return true, tasks + [Dial(id, flag)];
    }

    /** How many connections of a table are dynamic. */
    method CountDynamic(m: Conns) returns (n: nat)
      ensures n == |Dynamic(m)|
    {
      n := 0;
      var todo := m.Keys;
      ghost var seen: set<NodeId> := {};
      while todo != {}
        invariant todo <= m.Keys && seen == Dynamic(m) - todo && n == |seen|
        decreases todo
      {
        var id :| id in todo;
        todo := todo - {id};
        if m[id] == DynDialed {
          n := n + 1;
          seen := seen + {id};
        }
      }
      assert Dynamic(m) - todo == Dynamic(m);
    }

    /** Dial the static nodes that may be dialled; drop those that never may. */
    method DialStatics(ghost f0: multiset<NodeId>, ghost d0: Conns) returns (tasks: seq<Task>)
      requires Valid() && Current(hist.s, clock)
      requires f0 == flying && d0 == dialing
      modifies this`dialing, this`flying, this`statics
      ensures Valid() && Started(tasks, f0, flying, d0, dialing, peers, self, allowed, done, clock)
      ensures |Dynamic(dialing)| == |old(Dynamic(dialing))| && statics <= old(statics)
      ensures Adds([], tasks, StaticDialed, old(statics))
      ensures Attended(statics, {}, dialing, peers, done, clock) && old(dialing).Keys <= dialing.Keys
      ensures forall id :: id in old(statics) && id !in statics ==> id == self || !allowed(id)
    {
      hide Valid, Current, Dynamic, Started, Attended, Eligible, Refused, Adds;
      tasks := [];
      AddsNone([], StaticDialed, statics);
      StartedNone(flying, dialing, peers, self, allowed, done, clock);
      var todo := statics;
      AllToDo(statics, dialing, peers, done, clock);
      while todo != {}
        invariant Valid() && todo <= statics <= old(statics) && |Dynamic(dialing)| == |old(Dynamic(dialing))|
        invariant Started(tasks, f0, flying, d0, dialing, peers, self, allowed, done, clock)
        invariant Adds([], tasks, StaticDialed, old(statics))
        invariant forall id :: id in old(statics) && id !in statics ==> id == self || !allowed(id)
        invariant Attended(statics, todo, dialing, peers, done, clock) && old(dialing).Keys <= dialing.Keys
        decreases todo
      {
        var id :| id in todo;
        assert todo == (todo - {id}) + {id};
        todo := todo - {id};
        var v := CheckDial(id);
        AttendedStep(statics, todo, dialing, peers, self, allowed, done, clock, id, v);
        if v == NotWhitelisted || v == Self {
          statics := statics - {id};
        } else if v == Go {
          var ok;
          AddsMore([], tasks, StaticDialed, old(statics), id);
          ok, tasks := AddDial(StaticDialed, id, tasks, f0, d0);
        }
      }
    }

    /** Dial dynamic candidates in order while the budget lasts; `used` of them were looked at. */
    method DialDynamic(candidates: seq<NodeId>, need: int, before: seq<Task>, ghost f0: multiset<NodeId>,
                       ghost d0: Conns)
      returns (left: int, tasks: seq<Task>, used: nat)
      requires Valid() && Current(hist.s, clock) && need == maxDyn - |Dynamic(peers)| - |Dynamic(dialing)|
      requires Started(before, f0, flying, d0, dialing, peers, self, allowed, done, clock)
      modifies this`dialing, this`flying
      ensures Valid() && left == maxDyn - |Dynamic(peers)| - |Dynamic(dialing)|
      ensures left <= need && (need >= 0 ==> left >= 0)
      ensures old(dialing).Keys <= dialing.Keys
      ensures Started(tasks, f0, flying, d0, dialing, peers, self, allowed, done, clock)
      ensures used <= |candidates| && (used < |candidates| ==> left <= 0) && need - left <= used
      ensures Tried(candidates[..used], dialing, peers, self, allowed, done, clock)
      ensures Adds(before, tasks, DynDialed, Nodes(candidates[..used]))
    {
      hide Valid, Current, Dynamic, Started, Tried, Adds, Eligible, Nodes;
      left, tasks, used := need, before, 0;
      AddsNone(before, DynDialed, Nodes(candidates[..0]));
      TriedNone(dialing, peers, self, allowed, done, clock);
      while used < |candidates| && left > 0
        invariant Valid() && used <= |candidates| && left == maxDyn - |Dynamic(peers)| - |Dynamic(dialing)|
        invariant left <= need && (need >= 0 ==> left >= 0) && need - left <= used && old(dialing).Keys <= dialing.Keys
        invariant Started(tasks, f0, flying, d0, dialing, peers, self, allowed, done, clock)
        invariant Tried(candidates[..used], dialing, peers, self, allowed, done, clock)
        invariant Adds(before, tasks, DynDialed, Nodes(candidates[..used]))
      {
        var ok;
        ghost var d := dialing;
        assert candidates[..used + 1] == candidates[..used] + [candidates[used]];
        AddsNode(before, tasks, DynDialed, candidates[..used], candidates[used]);
        ok, tasks := AddDial(DynDialed, candidates[used], tasks, f0, d0);
        TriedMore(candidates[..used], candidates[used], d, dialing, peers, self, allowed, done, clock);
        if ok {
          left := left - 1;
        }
        used := used + 1;
      }
    }

    /** Without any peer for a while, try the next boot node. */
    method DialBootnode(need: int, before: seq<Task>, ghost f0: multiset<NodeId>, ghost d0: Conns, now: int)
      returns (left: int, tasks: seq<Task>)
      requires Valid() && Current(hist.s, clock) && need == maxDyn - |Dynamic(peers)| - |Dynamic(dialing)|
      requires Started(before, f0, flying, d0, dialing, peers, self, allowed, done, clock)
      modifies this`dialing, this`flying, this`bootnodes
      ensures Valid() && left == maxDyn - |Dynamic(peers)| - |Dynamic(dialing)|
      ensures left <= need && (need >= 0 ==> left >= 0)
      ensures old(dialing).Keys <= dialing.Keys
      ensures Started(tasks, f0, flying, d0, dialing, peers, self, allowed, done, clock)
      ensures multiset(bootnodes) == old(multiset(bootnodes))
      ensures var falls := FallsBack(peers, old(bootnodes), need, start, now);
              && bootnodes == Rotated(old(bootnodes), falls) && need - left <= (if falls then 1 else 0)
              && (falls ==> !Eligible(old(bootnodes)[0], dialing, peers, self, allowed, done, clock))
              && Adds(before, tasks, DynDialed, FirstBoot(old(bootnodes), falls))
    {
      hide Remembered, Current, Exact, Dynamic, Started, WithinBudget, Ordered, Adds, Eligible;
      AddsNone(before, DynDialed, FirstBoot(bootnodes, FallsBack(peers, bootnodes, need, start, now)));
      left, tasks := need, before;
      if peers == map[] && |bootnodes| > 0 && need > 0 && now - start > FALLBACK {
        var bootnode := bootnodes[0];
        assert bootnodes == [bootnode] + bootnodes[1..];
        bootnodes := bootnodes[1..] + [bootnode];
        var ok;
        AddsMore(before, tasks, DynDialed, {bootnode}, bootnode);
        ok, tasks := AddDial(DynDialed, bootnode, tasks, f0, d0);
        if ok {
          left := left - 1;
        }
      }
    }

    /** Fill up to half of the budget with random nodes. */
    method DialRandom(random: seq<NodeId>, need: int, before: seq<Task>, ghost f0: multiset<NodeId>, ghost d0: Conns)
      returns (left: int, tasks: seq<Task>)
      requires Valid() && Current(hist.s, clock) && need == maxDyn - |Dynamic(peers)| - |Dynamic(dialing)|
      requires Started(before, f0, flying, d0, dialing, peers, self, allowed, done, clock)
      modifies this`dialing, this`flying
      ensures Valid() && left == maxDyn - |Dynamic(peers)| - |Dynamic(dialing)|
      ensures left <= need && (need >= 0 ==> left >= 0)
      ensures old(dialing).Keys <= dialing.Keys
      ensures Started(tasks, f0, flying, d0, dialing, peers, self, allowed, done, clock)
      ensures need > 0 ==> 2 * left >= need
      ensures Tried(random[..Half(need, |random|)], dialing, peers, self, allowed, done, clock)
      ensures Adds(before, tasks, DynDialed, Nodes(random[..Half(need, |random|)]))
    {
      hide Valid, Current, Dynamic, Started, Tried, Adds, Nodes;
      AddsNone(before, DynDialed, Nodes(random[..0]));
      TriedNone(dialing, peers, self, allowed, done, clock);
      left, tasks := need, before;
      var randomCandidates := if need > 0 then need / 2 else 0;
      if randomCandidates > 0 {
        var some := if randomCandidates < |random| then random[..randomCandidates] else random;
        var used;
        left, tasks, used := DialDynamic(some, need, before, f0, d0);
        assert some[..used] == some == random[..Half(need, |random|)];
      }
    }

    /** Use up buffered lookup results. */
    method DialLookups(need: int, before: seq<Task>, ghost f0: multiset<NodeId>, ghost d0: Conns)
      returns (left: int, tasks: seq<Task>)
      requires Valid() && Current(hist.s, clock) && need == maxDyn - |Dynamic(peers)| - |Dynamic(dialing)|
      requires Started(before, f0, flying, d0, dialing, peers, self, allowed, done, clock)
      modifies this`dialing, this`flying, this`lookupBuf
      ensures Valid() && left == maxDyn - |Dynamic(peers)| - |Dynamic(dialing)|
      ensures left <= need && (need >= 0 ==> left >= 0)
      ensures old(dialing).Keys <= dialing.Keys
      ensures Started(tasks, f0, flying, d0, dialing, peers, self, allowed, done, clock)
      ensures |lookupBuf| <= |old(lookupBuf)| && (lookupBuf != [] ==> left <= 0)
      ensures lookupBuf == old(lookupBuf)[|old(lookupBuf)| - |lookupBuf|..]
      ensures Tried(old(lookupBuf)[..|old(lookupBuf)| - |lookupBuf|], dialing, peers, self, allowed, done, clock)
      ensures Adds(before, tasks, DynDialed, Nodes(old(lookupBuf)[..|old(lookupBuf)| - |lookupBuf|]))
    {
      hide Remembered, Current, Exact, Dynamic, Started, WithinBudget, Ordered, Tried, Adds, Nodes;
      var used;
      left, tasks, used := DialDynamic(lookupBuf, need, before, f0, d0);
      lookupBuf := lookupBuf[used..];
    }

    /** Static nodes first, then dynamic ones from three sources. */
    method DialAll(random: seq<NodeId>, need: int, now: int) returns (left: int, tasks: seq<Task>)
      requires Valid() && Current(hist.s, clock) && need == maxDyn - |Dynamic(peers)| - |Dynamic(dialing)|
      modifies this`dialing, this`flying, this`statics, this`bootnodes, this`lookupBuf
      ensures Valid() && left == maxDyn - |Dynamic(peers)| - |Dynamic(dialing)|
      ensures left <= need && (need >= 0 ==> left >= 0)
      ensures old(dialing).Keys <= dialing.Keys
      ensures Started(tasks, old(flying), flying, old(dialing), dialing, peers, self, allowed, done, clock)
      ensures multiset(bootnodes) == old(multiset(bootnodes))
      ensures Attended(statics, {}, dialing, peers, done, clock) && (lookupBuf != [] ==> left <= 0)
      ensures AllDials(tasks)
      ensures Scheduled(tasks, old(statics), old(bootnodes), bootnodes, random, old(lookupBuf), lookupBuf, need,
                        FallsBack(peers, old(bootnodes), need, start, now), dialing, peers, self, allowed, done, clock)
    {
      hide Valid, Current, Dynamic, Started, Attended, Tried, Adds, Eligible, Nodes;
      hide Scheduled, FallsBack, Rotated, FirstBoot, AllDials;
      ghost var f0, d0 := flying, dialing;
      tasks := DialStatics(f0, d0);
      ghost var d1 := dialing;
      ghost var t1, falls := tasks, FallsBack(peers, bootnodes, need, start, now);
      left, tasks := DialBootnode(need, tasks, f0, d0, now);
      ghost var t2, d2, left2 := tasks, dialing, left;
      left, tasks := DialRandom(random, left, tasks, f0, d0);
      ghost var t3, d3 := tasks, dialing;
      left, tasks := DialLookups(left, tasks, f0, d0);
      AttendedMore(statics, {}, d1, dialing, peers, done, clock);
      ScheduledAll(t1, t2, t3, tasks, old(statics), old(bootnodes), bootnodes, random, old(lookupBuf), lookupBuf, need,
                   left2, falls, d2, d3, dialing, peers, self, allowed, done, clock);
    }

    /** The next tasks to run, given the number still running and what the discovery table
        returns as random nodes. */
    method NewTasks(running: nat, random: seq<NodeId>, now: int) returns (tasks: seq<Task>)
      requires Valid() && clock <= now && now != 0
      modifies this`start, this`clock, this`dialing, this`flying, this`statics, this`bootnodes, this`lookupBuf
      modifies this`lookupRunning, hist
      ensures Valid() && clock == now
      ensures Started(tasks, old(flying), flying, old(dialing), dialing, peers, self, allowed, done, now)
      ensures running == 0 && |hist.s| > 0 ==> tasks != []
      ensures multiset(bootnodes) == old(multiset(bootnodes))
      ensures Attended(statics, {}, dialing, peers, done, clock)
      ensures lookupBuf == [] || |Dynamic(peers)| + |Dynamic(dialing)| >= maxDyn
      ensures lookupRunning || |Dynamic(peers)| + |Dynamic(dialing)| + |lookupBuf| >= maxDyn
      ensures start == if old(start) == 0 then now else old(start)
      ensures var need := maxDyn - |Dynamic(peers)| - |Dynamic(old(dialing))|;
              Scheduled(tasks, old(statics), old(bootnodes), bootnodes, random, old(lookupBuf), lookupBuf, need,
                        FallsBack(peers, old(bootnodes), need, start, now), dialing, peers, self, allowed, done, now)
      ensures Discover in tasks <==> lookupRunning && !old(lookupRunning)
      ensures Waits(tasks, running, done, now)
    {
      hide Valid, Current, Dynamic, Started, Attended, Scheduled, FallsBack, AllDials, Waits;
      if start == 0 {
        start := now;
      }
      var need := Budget();
      Expire(now);
      var left, dials := DialAll(random, need, now);
      tasks := Idle(left, running, dials, old(flying), old(dialing), now);
      ScheduledIdle(dials, tasks, old(statics), old(bootnodes), bootnodes, random, old(lookupBuf), lookupBuf, need,
                    FallsBack(peers, old(bootnodes), need, start, now), dialing, peers, self, allowed, done, now);
    }

    lemma NextIs()
      requires Valid() && Current(hist.s, clock)
      ensures |hist.s| > 0 ==> NextExpiry(done, clock, hist.s[0].exp - clock)
      ensures hist.s == [] ==> forall id :: !Recent(id, done, clock)
    {
      EarliestIsNext(hist.s, hist.key, done, dialing, clock);
    }

    /** How many more dynamic dials there is room for; negative if a peer is still being dialled. */
    method Budget() returns (need: int)
      ensures need == maxDyn - |Dynamic(peers)| - |Dynamic(dialing)|
    {
      var dynPeers := CountDynamic(peers);
      var dynDials := CountDynamic(dialing);
      return maxDyn - dynPeers - dynDials;
    }

    /** Start a lookup if candidates are short; wait for the history if there is nothing to do. */
    method Idle(need: int, running: nat, before: seq<Task>, ghost f0: multiset<NodeId>, ghost d0: Conns, now: int)
      returns (tasks: seq<Task>)
      requires Started(before, f0, flying, d0, dialing, peers, self, allowed, done, now)
      requires Valid() && Current(hist.s, clock) && clock == now && AllDials(before)
      modifies this`lookupRunning
      ensures Started(tasks, f0, flying, d0, dialing, peers, self, allowed, done, now)
      ensures running == 0 && |hist.s| > 0 ==> tasks != []
      ensures lookupRunning <==> old(lookupRunning) || |lookupBuf| < need
      ensures Waits(tasks, running, done, now) && (Discover in tasks <==> lookupRunning && !old(lookupRunning))
      ensures before <= tasks && forall k :: |before| <= k < |tasks| ==> !tasks[k].Dial?
    {
      hide Valid, Current, Started, AllDials, Waits, NextExpiry, Recent;
      NextIs();
      tasks := before;
      if |lookupBuf| < need && !lookupRunning {
        lookupRunning := true;
        StartedOther(tasks, f0, flying, d0, dialing, peers, self, allowed, done, now, Discover);
        tasks := tasks + [Discover];
      }
      if running == 0 && |tasks| == 0 && |hist.s| > 0 {
        StartedOther(tasks, f0, flying, d0, dialing, peers, self, allowed, done, now, WaitExpire(hist.s[0].exp - now));
        tasks := tasks + [WaitExpire(hist.s[0].exp - now)];
      }
      WaitsIdle(before, tasks, running, lookupRunning && !old(lookupRunning),
                if |hist.s| > 0 then Some(hist.s[0].exp - now) else None, done, now);
    }

    /** A dial is over, however it went. */
    method DialDone(id: NodeId, now: int)
      requires Valid() && id in flying && clock <= now
      modifies this`clock, this`dialing, this`flying, this`done, hist
      ensures Valid() && clock == now && dialing == old(dialing) - {id} && flying == old(flying) - multiset{id}
      ensures done == old(done)[id := now]
    {
      hide Remembered, Exact, Dynamic, WithinBudget, Ordered;
      DoneFacts(hist.s, done, clock, now, dialing, peers, id);
      hist.Push(PastDial(id, now + HISTORY));
      Land(id, now);
      Pushed(old(hist.s), hist.s, PastDial(id, now + HISTORY), old(done), old(dialing), id, now);
    }

    /** The dial leaves the table. */
    method Land(id: NodeId, now: int)
      modifies this`clock, this`dialing, this`flying, this`done
      ensures clock == now && dialing == old(dialing) - {id} && flying == old(flying) - multiset{id}
      ensures done == old(done)[id := now]
    {
      clock, dialing, flying, done := now, dialing - {id}, flying - multiset{id}, done[id := now];
    }

    method LookupDone(results: seq<NodeId>)
      requires Valid()
      modifies this`lookupRunning, this`lookupBuf
      ensures Valid() && !lookupRunning && lookupBuf == old(lookupBuf) + results
    {
      hide Remembered, Exact, WithinBudget, Ordered;
      lookupRunning := false;
      lookupBuf := lookupBuf + results;
    }

    /** A connection is up; a dynamic one comes from a dynamic dial that is still running. */
    method PeerUp(id: NodeId, flag: ConnFlag)
      requires Valid() && id !in peers
      requires flag == DynDialed ==> id in dialing && dialing[id] == DynDialed
      modifies this`peers
      ensures Valid() && peers == old(peers)[id := flag]
    {
      UpFacts(peers, dialing, id, flag);
      peers := peers[id := flag];
    }

    method PeerDown(id: NodeId)
      requires Valid()
      modifies this`peers
      ensures Valid() && peers == old(peers) - {id}
    {
      SmallerSet(Dynamic(peers - {id}) + Dynamic(dialing), Dynamic(peers) + Dynamic(dialing));
      peers := peers - {id};
    }

    /** Stop wanting a static node and forget that it was dialled. */
    method RemoveStatic(id: NodeId)
      requires Valid()
      modifies this`statics, this`done, hist
      ensures Valid() && statics == old(statics) - {id} && done == old(done) - {id}
    {
      hide Remembered, Exact, WithinBudget, Ordered;
      statics := statics - {id};
      Forget(id);
      done := done - {id};
    }

    /** Take a node's entry out of the history, if there is one. */
    method Forget(id: NodeId)
      requires hist.Valid() && hist.key == Expiry && Remembered(hist.s, done, clock) && Exact(hist.s, done, dialing)
      modifies hist
      ensures hist.Valid() && hist.key == Expiry
      ensures Remembered(hist.s, done - {id}, clock) && Exact(hist.s, done - {id}, dialing)
    {
      hide Remembered, Exact, Ordered;
      var i := 0;
      while i < |hist.s| && hist.s[i].id != id
        invariant 0 <= i <= |hist.s| && forall j :: 0 <= j < i ==> hist.s[j].id != id
      {
        i := i + 1;
      }
      if i < |hist.s| {
        ghost var before := hist.s;
        var d := hist.Remove(i);
        Without(before, hist.s, d, done, dialing, id, clock);
      } else {
        ForgetOne(hist.s, done, dialing, id, clock);
      }
    }

    ghost function Now(): Moment
      reads this
    {
      Moment(dialing, peers, statics, bootnodes, lookupBuf, lookupRunning, start, clock, done)
    }

    /** One event; one that cannot happen in the current state is passed over. */
    method Take(e: Event, ghost log: seq<Attempt>, ghost d0: Conns) returns (ghost more: seq<Attempt>)
      requires Valid() && Spaced(log) && Tracked(log, dialing, done, clock) && Covered(log, d0, dialing)
      modifies this, hist
      ensures Valid() && Spaced(more) && Tracked(more, dialing, done, clock) && Covered(more, d0, dialing)
      ensures Follows(e, old(Now()), Now(), maxDyn, self, allowed)
    {
      hide Valid, Spaced, Tracked, Covered;
      if e.Tick? {
        more := TakeTick(e, log, d0);
      } else if e.Finished? || e.Unwant? {
        more := TakeBack(e, log, d0);
      } else {
        more := log;
        TakeOver(e);
      }
    }

    /** Events that change what the scheduler remembers. */
    method TakeBack(e: Event, ghost log: seq<Attempt>, ghost d0: Conns) returns (ghost more: seq<Attempt>)
      requires Valid() && Spaced(log) && Tracked(log, dialing, done, clock) && Covered(log, d0, dialing)
      requires e.Finished? || e.Unwant?
      modifies this, hist
      ensures Valid() && Spaced(more) && Tracked(more, dialing, done, clock) && Covered(more, d0, dialing)
      ensures Follows(e, old(Now()), Now(), maxDyn, self, allowed)
    {
      hide Valid, Spaced, Tracked, Covered;
      more := log;
      Flying();
      match e {
        case Finished(id, now) =>
          if id in dialing && clock <= now {
            LogDone(log, d0, dialing, done, clock, id, now);
            DialDone(id, now);
            more := Closed(log, id, now);
          }
        case Unwant(id) =>
          LogClear(log, d0, dialing, done, clock, id);
          RemoveStatic(id);
          more := Cleared(log, id);
      }
    }

    /** Events that concern neither dials nor the history. */
    method TakeOver(e: Event)
      requires Valid() && !e.Tick? && !e.Finished? && !e.Unwant?
      modifies this`lookupRunning, this`lookupBuf, this`peers, this`statics
      ensures Valid() && Follows(e, old(Now()), Now(), maxDyn, self, allowed)
    {
      hide Valid;
      match e {
        case Looked(results) => LookupDone(results);
        case Up(id, flag) =>
          if id !in peers && (flag == DynDialed ==> id in dialing && dialing[id] == DynDialed) {
            PeerUp(id, flag);
          }
        case Down(id) => PeerDown(id);
        case Want(id) => statics := statics + {id};
      }
    }

    lemma Flying()
      requires Valid()
      ensures flying == multiset(dialing.Keys)
    {
    }

    method TakeTick(e: Event, ghost log: seq<Attempt>, ghost d0: Conns) returns (ghost more: seq<Attempt>)
      requires Valid() && Spaced(log) && Tracked(log, dialing, done, clock) && Covered(log, d0, dialing) && e.Tick?
      modifies this, hist
      ensures Valid() && Spaced(more) && Tracked(more, dialing, done, clock) && Covered(more, d0, dialing)
      ensures Follows(e, old(Now()), Now(), maxDyn, self, allowed)
    {
      hide Valid, Dynamic, Started, Spaced, Tracked, Covered, Scheduled, FallsBack, Attended, Waits, Follows;
      TickPassed(e, Now(), maxDyn, self, allowed);
      more := log;
      if clock <= e.now && e.now != 0 {
        ghost var d, f, before := dialing, flying, clock;
        Flying();
        var tasks := NewTasks(e.running, e.random, e.now);
        Flying();
        LogTick(log, d0, d, dialing, f, flying, tasks, peers, self, allowed, done, before, e.now);
        more := log + Starts(Dials(tasks), e.now);
        TickTaken(e, old(Now()), Now(), tasks, maxDyn, self, allowed);
      }
    }

    /** Any run of the scheduler, with the dials it hands out. Two dials of a node never overlap, and
        the second starts more than the history time after the first ended unless the node was
        unwanted between. */
    method Run(events: seq<Event>) returns (ghost log: seq<Attempt>, ghost trace: seq<Moment>)
      requires Valid()
      modifies this, hist
      ensures Valid() && Spaced(log)
      ensures Tracked(log, dialing, done, clock) && Covered(log, old(dialing), dialing)
      ensures |trace| == |events| + 1 && trace[0] == old(Now()) && trace[|events|] == Now()
      ensures forall i :: 0 <= i < |events| ==> Follows(events[i], trace[i], trace[i + 1], maxDyn, self, allowed)
    {
      hide Valid, Spaced, Tracked, Covered, Follows;
      log, trace := [], [Now()];
      LogStart(dialing, done, clock);
      for i := 0 to |events|
        invariant Valid() && Spaced(log)
        invariant Tracked(log, dialing, done, clock) && Covered(log, old(dialing), dialing)
        invariant |trace| == i + 1 && trace[0] == old(Now()) && trace[i] == Now()
        invariant forall k :: 0 <= k < i ==> Follows(events[k], trace[k], trace[k + 1], maxDyn, self, allowed)
      {
        log := Take(events[i], log, old(dialing));
        trace := trace + [Now()];
      }
    }
  }

  /** The scheduler at one time. */
  datatype Moment = Moment(dialing: Conns, peers: Conns, statics: set<NodeId>, bootnodes: seq<NodeId>,
                           lookupBuf: seq<NodeId>, lookupRunning: bool, start: int, clock: int,
                           done: map<NodeId, int>)

  lemma TickPassed(e: Event, m: Moment, maxDyn: nat, self: NodeId, allowed: NodeId -> bool)
    requires e.Tick?
    ensures m.clock > e.now || e.now == 0 ==> Follows(e, m, m, maxDyn, self, allowed)
  {
    hide Scheduled, Attended, Waits, FallsBack;
  }

  lemma TickTaken(e: Event, m: Moment, m': Moment, tasks: seq<Task>, maxDyn: nat, self: NodeId,
                  allowed: NodeId -> bool)
    requires e.Tick? && m.clock <= e.now == m'.clock && e.now != 0 && m'.peers == m.peers && m'.done == m.done
    requires m'.start == if m.start == 0 then e.now else m.start
    requires Attended(m'.statics, {}, m'.dialing, m.peers, m.done, e.now)
    requires var need := maxDyn - |Dynamic(m.peers)| - |Dynamic(m.dialing)|;
             Scheduled(tasks, m.statics, m.bootnodes, m'.bootnodes, e.random, m.lookupBuf, m'.lookupBuf, need,
                       FallsBack(m.peers, m.bootnodes, need, m'.start, e.now), m'.dialing, m.peers, self, allowed,
                       m.done, e.now)
    requires Waits(tasks, e.running, m.done, e.now) && (Discover in tasks <==> m'.lookupRunning && !m.lookupRunning)
    ensures Follows(e, m, m', maxDyn, self, allowed)
  {
    hide Scheduled, Attended, Waits, FallsBack, Dynamic;
  }

  /** What an event does to the scheduler. */
  ghost predicate Follows(e: Event, m: Moment, m': Moment, maxDyn: nat, self: NodeId, allowed: NodeId -> bool) {
    match e
    case Tick(running, random, now) =>
      if m.clock > now || now == 0 then m' == m
      else
        var need := maxDyn - |Dynamic(m.peers)| - |Dynamic(m.dialing)|;
        && m'.clock == now && m'.peers == m.peers && m'.done == m.done
        && m'.start == (if m.start == 0 then now else m.start)
        && Attended(m'.statics, {}, m'.dialing, m.peers, m.done, now)
        && exists tasks ::
             && Scheduled(tasks, m.statics, m.bootnodes, m'.bootnodes, random, m.lookupBuf, m'.lookupBuf, need,
                          FallsBack(m.peers, m.bootnodes, need, m'.start, now), m'.dialing, m.peers, self, allowed,
                          m.done, now)
             && Waits(tasks, running, m.done, now) && (Discover in tasks <==> m'.lookupRunning && !m.lookupRunning)
    case Finished(id, now) =>
      m' == if id in m.dialing && m.clock <= now
            then m.(clock := now, dialing := m.dialing - {id}, done := m.done[id := now]) else m
    case Looked(results) => m' == m.(lookupRunning := false, lookupBuf := m.lookupBuf + results)
    case Up(id, flag) =>
      m' == if id !in m.peers && (flag == DynDialed ==> id in m.dialing && m.dialing[id] == DynDialed)
            then m.(peers := m.peers[id := flag]) else m
    case Down(id) => m' == m.(peers := m.peers - {id})
    case Want(id) => m' == m.(statics := m.statics + {id})
    case Unwant(id) => m' == m.(statics := m.statics - {id}, done := m.done - {id})
  }

  /** A dial in a run; cleared if the node was unwanted after it and before any further dial. */
  datatype Attempt = Running(id: NodeId, start: int) | Over(id: NodeId, start: int, end: int, cleared: bool)

  /** The later dial of the same node keeps its distance. */
  ghost predicate Apart(a: Attempt, b: Attempt) {
    a.Over? && a.end <= b.start && (a.cleared || a.end + HISTORY < b.start)
  }

  ghost predicate Spaced(log: seq<Attempt>) {
    forall i, j :: 0 <= i < j < |log| && log[i].id == log[j].id ==> Apart(log[i], log[j])
  }

  /** Running dials are in the dialing table; the end of others is known, cleared or long ago. */
  ghost predicate Traced(a: Attempt, dialing: Conns, done: map<NodeId, int>, clock: int) {
    && a.start <= clock
    && (a.Running? ==> a.id in dialing)
    && (a.Over? ==> a.start <= a.end <= clock &&
                    (a.cleared || (a.id in done && a.end <= done[a.id]) || a.end + HISTORY < clock))
  }

  ghost predicate Tracked(log: seq<Attempt>, dialing: Conns, done: map<NodeId, int>, clock: int) {
    forall i :: 0 <= i < |log| ==> Traced(log[i], dialing, done, clock)
  }

  ghost predicate IsRunning(log: seq<Attempt>, id: NodeId) {
    exists i :: 0 <= i < |log| && log[i].Running? && log[i].id == id
  }

  /** Every dial going on since the run began is in the log. */
  ghost predicate Covered(log: seq<Attempt>, d0: Conns, dialing: Conns) {
    forall id :: id in dialing && id !in d0 ==> IsRunning(log, id)
  }

  ghost function Starts(ids: seq<NodeId>, now: int): seq<Attempt> {
    seq(|ids|, i requires 0 <= i < |ids| => Running(ids[i], now))
  }

  ghost function Close(a: Attempt, id: NodeId, now: int): Attempt {
    if a.Running? && a.id == id then Over(id, a.start, now, false) else a
  }

  /** The dial of this node ends now. */
  ghost function Closed(log: seq<Attempt>, id: NodeId, now: int): seq<Attempt> {
    seq(|log|, i requires 0 <= i < |log| => Close(log[i], id, now))
  }

  ghost predicate IsLast(log: seq<Attempt>, i: nat) {
    i < |log| && forall j :: i < j < |log| ==> log[j].id != log[i].id
  }

  /** The node's last dial, if over, is forgotten. */
  ghost function Cleared(log: seq<Attempt>, id: NodeId): seq<Attempt> {
    seq(|log|, i requires 0 <= i < |log| =>
          if log[i].id == id && log[i].Over? && IsLast(log, i) then log[i].(cleared := true) else log[i])
  }

  lemma LogStart(dialing: Conns, done: map<NodeId, int>, clock: int)
    ensures Spaced([]) && Tracked([], dialing, done, clock) && Covered([], dialing, dialing)
  {
  }

  lemma LogTick(log: seq<Attempt>, dStart: Conns, d0: Conns, dialing: Conns, f0: multiset<NodeId>,
                flying: multiset<NodeId>, tasks: seq<Task>, peers: Conns, self: NodeId, allowed: NodeId -> bool,
                done: map<NodeId, int>, clock: int, now: int)
    requires Spaced(log) && Tracked(log, d0, done, clock) && Covered(log, dStart, d0) && clock <= now
    requires Started(tasks, f0, flying, d0, dialing, peers, self, allowed, done, now)
    requires f0 == multiset(d0.Keys) && flying == multiset(dialing.Keys)
    ensures var log' := log + Starts(Dials(tasks), now);
            Spaced(log') && Tracked(log', dialing, done, now) && Covered(log', dStart, dialing)
  {
    hide Dials, Spaced, Tracked, Covered;
    var ids := Dials(tasks);
    StartedOnce(ids, d0, dialing);
    TickTracked(log, ids, d0, dialing, done, clock, now);
    TickCovered(log, ids, dStart, d0, dialing, now);
    forall k | 0 <= k < |ids| ensures ids[k] !in d0 && !Recent(ids[k], done, now) {
      assert ids[k] in ids;
      assert Eligible(ids[k], d0, peers, self, allowed, done, now);
    }
    TickSpaced(log, ids, d0, done, clock, now);
  }

  /** Dials handed out together are to different nodes, which are then all being dialled. */
  lemma StartedOnce(ids: seq<NodeId>, d0: Conns, dialing: Conns)
    requires multiset(dialing.Keys) == multiset(d0.Keys) + multiset(ids)
    ensures forall i, j :: 0 <= i < j < |ids| ==> ids[i] != ids[j]
    ensures forall id :: id in dialing <==> id in d0 || id in ids
  {
    forall i, j | 0 <= i < j < |ids| ensures ids[i] != ids[j] {
      assert multiset(dialing.Keys)[ids[i]] <= 1;
      TwiceIn(ids, i, j);
    }
    forall id ensures id in dialing <==> id in d0 || id in ids {
      assert id in dialing <==> id in multiset(dialing.Keys);
      assert id in d0 <==> id in multiset(d0.Keys);
      assert id in ids <==> id in multiset(ids);
    }
  }

  lemma TwiceIn(ids: seq<NodeId>, i: nat, j: nat)
    requires i < j < |ids|
    ensures ids[i] == ids[j] ==> multiset(ids)[ids[i]] >= 2
  {
    assert ids == ids[..j] + [ids[j]] + ids[j + 1..];
    assert ids[..j][i] == ids[i];
    assert ids[i] in multiset(ids[..j]);
  }

  lemma TickTracked(log: seq<Attempt>, ids: seq<NodeId>, d0: Conns, dialing: Conns, done: map<NodeId, int>, clock: int,
                    now: int)
    requires Tracked(log, d0, done, clock) && clock <= now && forall id :: id in dialing <==> id in d0 || id in ids
    ensures Tracked(log + Starts(ids, now), dialing, done, now)
  {
    var log' := log + Starts(ids, now);
    forall i | 0 <= i < |log'| ensures Traced(log'[i], dialing, done, now) {
      if i < |log| {
        assert Traced(log[i], d0, done, clock);
      }
    }
  }

  lemma TickCovered(log: seq<Attempt>, ids: seq<NodeId>, dStart: Conns, d0: Conns, dialing: Conns, now: int)
    requires Covered(log, dStart, d0) && forall id :: id in dialing <==> id in d0 || id in ids
    ensures Covered(log + Starts(ids, now), dStart, dialing)
  {
    var log' := log + Starts(ids, now);
    forall id | id in dialing && id !in dStart ensures IsRunning(log', id) {
      if id in d0 {
        assert IsRunning(log, id);
        var i :| 0 <= i < |log| && log[i].Running? && log[i].id == id;
        assert log'[i] == log[i];
      } else {
        var k :| 0 <= k < |ids| && ids[k] == id;
        assert log'[|log| + k] == Running(id, now);
      }
    }
  }

  lemma TickSpaced(log: seq<Attempt>, ids: seq<NodeId>, d0: Conns, done: map<NodeId, int>, clock: int, now: int)
    requires Spaced(log) && Tracked(log, d0, done, clock) && clock <= now
    requires forall i, j :: 0 <= i < j < |ids| ==> ids[i] != ids[j]
    requires forall k :: 0 <= k < |ids| ==> ids[k] !in d0 && !Recent(ids[k], done, now)
    ensures Spaced(log + Starts(ids, now))
  {
    var log' := log + Starts(ids, now);
    forall i, j | 0 <= i < j < |log'| && log'[i].id == log'[j].id ensures Apart(log'[i], log'[j]) {
      if j < |log| {
        assert Apart(log[i], log[j]);
      } else {
        assert log'[j] == Running(ids[j - |log|], now);
        if i < |log| {
          assert Traced(log[i], d0, done, clock);
        }
      }
    }
  }

  lemma LogDone(log: seq<Attempt>, dStart: Conns, dialing: Conns, done: map<NodeId, int>, clock: int, id: NodeId,
                now: int)
    requires Spaced(log) && Tracked(log, dialing, done, clock) && Covered(log, dStart, dialing) && clock <= now
    ensures var log' := Closed(log, id, now);
            && Spaced(log') && Tracked(log', dialing - {id}, done[id := now], now)
            && Covered(log', dStart, dialing - {id})
  {
    var log' := Closed(log, id, now);
    forall i | 0 <= i < |log'| ensures Traced(log'[i], dialing - {id}, done[id := now], now) {
      assert Traced(log[i], dialing, done, clock);
    }
    forall i, j | 0 <= i < j < |log'| && log'[i].id == log'[j].id ensures Apart(log'[i], log'[j]) {
      assert Apart(log[i], log[j]);
    }
    forall x | x in dialing - {id} && x !in dStart ensures IsRunning(log', x) {
      assert IsRunning(log, x);
      var i :| 0 <= i < |log| && log[i].Running? && log[i].id == x;
      assert log'[i] == log[i];
    }
  }

  lemma LogClear(log: seq<Attempt>, dStart: Conns, dialing: Conns, done: map<NodeId, int>, clock: int, id: NodeId)
    requires Spaced(log) && Tracked(log, dialing, done, clock) && Covered(log, dStart, dialing)
    ensures var log' := Cleared(log, id);
            Spaced(log') && Tracked(log', dialing, done - {id}, clock) && Covered(log', dStart, dialing)
  {
    var log' := Cleared(log, id);
    forall i | 0 <= i < |log'| ensures Traced(log'[i], dialing, done - {id}, clock) {
      assert Traced(log[i], dialing, done, clock);
      if log[i].id == id && log[i].Over? && !IsLast(log, i) {
        var j :| i < j < |log| && log[j].id == log[i].id;
        assert Apart(log[i], log[j]) && Traced(log[j], dialing, done, clock);
      }
    }
    forall i, j | 0 <= i < j < |log'| && log'[i].id == log'[j].id ensures Apart(log'[i], log'[j]) {
      assert Apart(log[i], log[j]);
    }
    forall x | x in dialing && x !in dStart ensures IsRunning(log', x) {
      assert IsRunning(log, x);
      var i :| 0 <= i < |log| && log[i].Running? && log[i].id == x;
      assert log'[i] == log[i];
    }
  }

  datatype Event =
    | Tick(running: nat, random: seq<NodeId>, now: int) | Finished(id: NodeId, at: int) | Looked(results: seq<NodeId>)
    | Up(id: NodeId, flag: ConnFlag) | Down(id: NodeId) | Want(id: NodeId) | Unwant(id: NodeId)

  /** No wanted node outside `todo` is left aside: it is being dialled, connected, or was
      dialled recently. */
  ghost predicate Attended(statics: set<NodeId>, todo: set<NodeId>, dialing: Conns, peers: Conns,
                           done: map<NodeId, int>, now: int)
  {
    forall id :: id in statics && id !in todo ==> id in dialing || id in peers || Recent(id, done, now)
  }

  lemma AllToDo(statics: set<NodeId>, dialing: Conns, peers: Conns, done: map<NodeId, int>, now: int)
    ensures Attended(statics, statics, dialing, peers, done, now)
  {
  }

  lemma AttendedMore(statics: set<NodeId>, todo: set<NodeId>, dialing: Conns, dialing': Conns, peers: Conns,
                     done: map<NodeId, int>, now: int)
    requires Attended(statics, todo, dialing, peers, done, now) && dialing.Keys <= dialing'.Keys
    ensures Attended(statics, todo, dialing', peers, done, now)
  {
    hide Recent;
  }

  /** What a refused candidate is refused for. */
  ghost predicate Refused(v: Verdict, id: NodeId, dialing: Conns, peers: Conns, self: NodeId, allowed: NodeId -> bool,
                          done: map<NodeId, int>, now: int)
  {
    match v
    case Go => true
    case AlreadyDialing => id in dialing
    case AlreadyConnected => id in peers
    case Self => id == self
    case NotWhitelisted => !allowed(id)
    case RecentlyDialed => Recent(id, done, now)
  }

  lemma AttendedStep(statics: set<NodeId>, todo: set<NodeId>, dialing: Conns, peers: Conns, self: NodeId,
                     allowed: NodeId -> bool, done: map<NodeId, int>, now: int, id: NodeId, v: Verdict)
    requires Attended(statics, todo + {id}, dialing, peers, done, now) && id !in todo
    requires Refused(v, id, dialing, peers, self, allowed, done, now)
    ensures v == Self || v == NotWhitelisted ==>
              Attended(statics - {id}, todo, dialing, peers, done, now) && (id == self || !allowed(id))
    ensures v == Go ==> Attended(statics, todo, dialing[id := StaticDialed], peers, done, now)
    ensures v == AlreadyDialing || v == AlreadyConnected || v == RecentlyDialed ==>
              Attended(statics, todo, dialing, peers, done, now)
  {
    hide Recent;
  }

  ghost predicate Current(hist: seq<PastDial>, now: int) {
    forall d :: d in hist ==> d.exp >= now
  }

  /** A node that may be dialled now: not being dialled or connected, not oneself, allowed, and
      not within the history time of its last dial. */
  ghost predicate Eligible(id: NodeId, d0: Conns, peers: Conns, self: NodeId, allowed: NodeId -> bool,
                           done: map<NodeId, int>, now: int)
  {
    id !in d0 && id !in peers && id != self && allowed(id) && !Recent(id, done, now)
  }

  /** The tasks handed out so far account for the change of the dialing table. */
  ghost predicate Started(tasks: seq<Task>, f0: multiset<NodeId>, flying: multiset<NodeId>, d0: Conns, dialing: Conns,
                          peers: Conns, self: NodeId, allowed: NodeId -> bool, done: map<NodeId, int>, now: int)
  {
    && flying == f0 + multiset(Dials(tasks))
    && d0.Keys <= dialing.Keys && (forall id :: id in d0 ==> dialing[id] == d0[id])
    && (forall t :: t in tasks && t.Dial? ==> t.id in dialing && dialing[t.id] == t.flag)
    && forall id :: id in Dials(tasks) ==> Eligible(id, d0, peers, self, allowed, done, now)
  }

  function Nodes(ids: seq<NodeId>): set<NodeId> {
    set id | id in ids
  }

  /** None of these may be dialled any more: whoever might have been is being dialled now. */
  ghost predicate Tried(ids: seq<NodeId>, dialing: Conns, peers: Conns, self: NodeId, allowed: NodeId -> bool,
                        done: map<NodeId, int>, now: int)
  {
    forall i :: 0 <= i < |ids| ==> !Eligible(ids[i], dialing, peers, self, allowed, done, now)
  }

  /** All that came to the tasks are dials with this flag to some of these nodes. */
  ghost predicate Adds(before: seq<Task>, tasks: seq<Task>, flag: ConnFlag, nodes: set<NodeId>) {
    && before <= tasks
    && forall k :: |before| <= k < |tasks| ==> tasks[k].Dial? && tasks[k].flag == flag && tasks[k].id in nodes
  }

  ghost predicate AllDials(tasks: seq<Task>) {
    forall k :: 0 <= k < |tasks| ==> tasks[k].Dial?
  }

  /** No peer, a boot node to try, room for it, and the fallback time is over. */
  ghost predicate FallsBack(peers: Conns, bootnodes: seq<NodeId>, need: int, start: int, now: int) {
    peers == map[] && bootnodes != [] && need > 0 && now > start + FALLBACK
  }

  /** The first boot node goes to the end. */
  ghost function Rotated(bootnodes: seq<NodeId>, falls: bool): seq<NodeId> {
    if falls && bootnodes != [] then bootnodes[1..] + [bootnodes[0]] else bootnodes
  }

  ghost function FirstBoot(bootnodes: seq<NodeId>, falls: bool): set<NodeId> {
    if falls && bootnodes != [] then {bootnodes[0]} else {}
  }

  /** Half of the need, as far as there are nodes. */
  function Half(need: int, n: nat): (r: nat)
    ensures r <= n && (need > 0 ==> 2 * r <= need)
  {
    if need <= 0 then 0 else if need / 2 < n then need / 2 else n
  }

  /** What a scheduling step dials and what it uses up: static nodes; the first boot node if it falls
      back; random nodes for half of what is needed then; lookup results. All of these that might be
      dialled are dialled, and nobody else. */
  ghost predicate Scheduled(tasks: seq<Task>, statics: set<NodeId>, boot0: seq<NodeId>, boot: seq<NodeId>,
                            random: seq<NodeId>, found0: seq<NodeId>, found: seq<NodeId>, need: int, falls: bool,
                            dialing: Conns, peers: Conns, self: NodeId, allowed: NodeId -> bool,
                            done: map<NodeId, int>, now: int)
  {
    && boot == Rotated(boot0, falls)
    && (falls && boot0 != [] ==> !Eligible(boot0[0], dialing, peers, self, allowed, done, now))
    && Tried(random[..Half(if falls then need - 1 else need, |random|)], dialing, peers, self, allowed, done, now)
    && |found| <= |found0| && found == found0[|found0| - |found|..]
    && Tried(found0[..|found0| - |found|], dialing, peers, self, allowed, done, now)
    && (forall t :: t in tasks && t.Dial? ==>
          || (t.flag == StaticDialed && t.id in statics)
          || (t.flag == DynDialed &&
              (t.id in FirstBoot(boot0, falls) || t.id in random[..Half(need, |random|)] ||
               t.id in found0[..|found0| - |found|])))
  }

  /** The earliest end of the history time of a dial is in d. */
  ghost predicate NextExpiry(done: map<NodeId, int>, now: int, d: int) {
    && d >= 0 && (exists id :: id in done && done[id] + HISTORY == now + d)
    && forall id :: Recent(id, done, now) ==> now + d <= done[id] + HISTORY
  }

  /** The tasks, with a lookup if one starts, or with waiting if there is nothing else to do. */
  ghost function Idled(dials: seq<Task>, running: nat, lookup: bool, wait: Option<int>): seq<Task> {
    if lookup then dials + [Discover]
    else if running == 0 && dials == [] && wait.Some? then [WaitExpire(wait.value)]
    else dials
  }

  /** Waiting is for the next dial to leave the history, and only if there is nothing else to do. With
      nothing running and something in the history, there is always something to do. */
  ghost predicate Waits(tasks: seq<Task>, running: nat, done: map<NodeId, int>, now: int) {
    && (forall d :: WaitExpire(d) in tasks ==> running == 0 && tasks == [WaitExpire(d)] && NextExpiry(done, now, d))
    && (running == 0 && (exists id :: Recent(id, done, now)) ==> tasks != [])
  }

  lemma WaitsIdle(dials: seq<Task>, tasks: seq<Task>, running: nat, lookup: bool, wait: Option<int>,
                  done: map<NodeId, int>, now: int)
    requires AllDials(dials) && tasks == Idled(dials, running, lookup, wait)
    requires if wait.Some? then NextExpiry(done, now, wait.value) else forall id :: !Recent(id, done, now)
    ensures Waits(tasks, running, done, now) && (Discover in tasks <==> lookup)
    ensures dials <= tasks && forall k :: |dials| <= k < |tasks| ==> !tasks[k].Dial?
  {
    hide NextExpiry, Recent;
    forall t | t in dials ensures t.Dial? {
      var k :| 0 <= k < |dials| && dials[k] == t;
    }
  }

  lemma DialledOnce(id: NodeId, dialing: Conns, peers: Conns, self: NodeId, allowed: NodeId -> bool,
                    done: map<NodeId, int>, now: int)
    requires id in dialing
    ensures !Eligible(id, dialing, peers, self, allowed, done, now)
  {
  }

  lemma AddsNone(tasks: seq<Task>, flag: ConnFlag, nodes: set<NodeId>)
    ensures Adds(tasks, tasks, flag, nodes)
  {
  }

  lemma AddsMore(before: seq<Task>, tasks: seq<Task>, flag: ConnFlag, nodes: set<NodeId>, id: NodeId)
    requires Adds(before, tasks, flag, nodes) && id in nodes
    ensures Adds(before, tasks + [Dial(id, flag)], flag, nodes)
  {
  }

  lemma AddsNode(before: seq<Task>, tasks: seq<Task>, flag: ConnFlag, ids: seq<NodeId>, id: NodeId)
    requires Adds(before, tasks, flag, Nodes(ids))
    ensures Adds(before, tasks, flag, Nodes(ids + [id]))
    ensures Adds(before, tasks + [Dial(id, flag)], flag, Nodes(ids + [id]))
  {
    assert id in ids + [id];
    assert Nodes(ids) <= Nodes(ids + [id]);
  }

  lemma TriedNone(dialing: Conns, peers: Conns, self: NodeId, allowed: NodeId -> bool, done: map<NodeId, int>, now: int)
    ensures Tried([], dialing, peers, self, allowed, done, now)
  {
  }

  lemma TriedLater(ids: seq<NodeId>, dialing: Conns, dialing': Conns, peers: Conns, self: NodeId,
                   allowed: NodeId -> bool, done: map<NodeId, int>, now: int)
    requires Tried(ids, dialing, peers, self, allowed, done, now) && dialing.Keys <= dialing'.Keys
    ensures Tried(ids, dialing', peers, self, allowed, done, now)
  {
    forall i | 0 <= i < |ids| ensures !Eligible(ids[i], dialing', peers, self, allowed, done, now) {
      assert !Eligible(ids[i], dialing, peers, self, allowed, done, now);
    }
  }

  lemma TriedMore(ids: seq<NodeId>, id: NodeId, dialing: Conns, dialing': Conns, peers: Conns, self: NodeId,
                  allowed: NodeId -> bool, done: map<NodeId, int>, now: int)
    requires Tried(ids, dialing, peers, self, allowed, done, now) && dialing.Keys <= dialing'.Keys
    requires !Eligible(id, dialing', peers, self, allowed, done, now)
    ensures Tried(ids + [id], dialing', peers, self, allowed, done, now)
  {
    TriedLater(ids, dialing, dialing', peers, self, allowed, done, now);
  }

  lemma ScheduledAll(t1: seq<Task>, t2: seq<Task>, t3: seq<Task>, tasks: seq<Task>, statics: set<NodeId>,
                     boot0: seq<NodeId>, boot: seq<NodeId>, random: seq<NodeId>, found0: seq<NodeId>,
                     found: seq<NodeId>, need: int, left: int, falls: bool, d2: Conns, d3: Conns, dialing: Conns,
                     peers: Conns, self: NodeId, allowed: NodeId -> bool, done: map<NodeId, int>, now: int)
    requires d2.Keys <= d3.Keys <= dialing.Keys && boot == Rotated(boot0, falls)
    requires falls && boot0 != [] ==> !Eligible(boot0[0], d2, peers, self, allowed, done, now)
    requires left <= need && need - left <= (if falls then 1 else 0)
    requires Tried(random[..Half(left, |random|)], d3, peers, self, allowed, done, now)
    requires |found| <= |found0| && found == found0[|found0| - |found|..]
    requires Tried(found0[..|found0| - |found|], dialing, peers, self, allowed, done, now)
    requires Adds([], t1, StaticDialed, statics) && Adds(t1, t2, DynDialed, FirstBoot(boot0, falls))
    requires Adds(t2, t3, DynDialed, Nodes(random[..Half(left, |random|)]))
    requires Adds(t3, tasks, DynDialed, Nodes(found0[..|found0| - |found|]))
    ensures Scheduled(tasks, statics, boot0, boot, random, found0, found, need, falls, dialing, peers, self, allowed,
                      done, now)
    ensures AllDials(tasks)
  {
    TriedLater(random[..Half(left, |random|)], d3, dialing, peers, self, allowed, done, now);
    FewerTried(random, Half(if falls then need - 1 else need, |random|), Half(left, |random|), dialing, peers, self,
               allowed, done, now);
    hide Tried, Eligible;
    forall t | t in tasks && t.Dial?
      ensures || (t.flag == StaticDialed && t.id in statics)
              || (t.flag == DynDialed &&
                  (t.id in FirstBoot(boot0, falls) || t.id in random[..Half(need, |random|)] ||
                   t.id in found0[..|found0| - |found|]))
    {
      var k :| 0 <= k < |tasks| && tasks[k] == t;
      assert k < |t3| ==> t3[k] == t;
      assert k < |t2| ==> t2[k] == t;
      assert k < |t1| ==> t1[k] == t;
      assert random[..Half(left, |random|)] == random[..Half(need, |random|)][..Half(left, |random|)];
    }
  }

  lemma FewerTried(ids: seq<NodeId>, m: nat, n: nat, dialing: Conns, peers: Conns, self: NodeId,
                   allowed: NodeId -> bool, done: map<NodeId, int>, now: int)
    requires m <= n <= |ids| && Tried(ids[..n], dialing, peers, self, allowed, done, now)
    ensures Tried(ids[..m], dialing, peers, self, allowed, done, now)
  {
    hide Eligible;
    forall i | 0 <= i < m ensures !Eligible(ids[..m][i], dialing, peers, self, allowed, done, now) {
      assert ids[..n][i] == ids[..m][i];
    }
  }

  lemma ScheduledIdle(dials: seq<Task>, tasks: seq<Task>, statics: set<NodeId>, boot0: seq<NodeId>, boot: seq<NodeId>,
                      random: seq<NodeId>, found0: seq<NodeId>, found: seq<NodeId>, need: int, falls: bool,
                      dialing: Conns, peers: Conns, self: NodeId, allowed: NodeId -> bool, done: map<NodeId, int>,
                      now: int)
    requires Scheduled(dials, statics, boot0, boot, random, found0, found, need, falls, dialing, peers, self, allowed,
                       done, now)
    requires dials <= tasks && forall k :: |dials| <= k < |tasks| ==> !tasks[k].Dial?
    ensures Scheduled(tasks, statics, boot0, boot, random, found0, found, need, falls, dialing, peers, self, allowed,
                      done, now)
  {
    hide Tried, Eligible;
    forall t | t in tasks && t.Dial? ensures t in dials {
      var k :| 0 <= k < |tasks| && tasks[k] == t;
    }
  }

  /** The root of the history is the next to expire. */
  lemma EarliestIsNext(hist: seq<PastDial>, key: PastDial -> int, done: map<NodeId, int>, dialing: Conns, now: int)
    requires Ordered(hist, key) && key == Expiry && Current(hist, now)
    requires Remembered(hist, done, now) && Exact(hist, done, dialing)
    ensures |hist| > 0 ==> NextExpiry(done, now, hist[0].exp - now)
    ensures hist == [] ==> forall id :: !Recent(id, done, now)
  {
    if |hist| > 0 {
      RootIsMinOfAll(hist, key);
      assert hist[0] in hist;
      forall id | Recent(id, done, now) ensures hist[0].exp <= done[id] + HISTORY {
        var d := PastDial(id, done[id] + HISTORY);
        assert d in hist && key(hist[0]) <= key(d);
      }
    }
  }

  lemma ExpireStart(hist: seq<PastDial>, done: map<NodeId, int>, clock: int, now: int)
    requires Remembered(hist, done, clock) && clock <= now
    ensures Remembered(hist, done, now)
  {
  }

  lemma Popped(before: seq<PastDial>, after: seq<PastDial>, d: PastDial, done: map<NodeId, int>, dialing: Conns,
               now: int)
    requires Remembered(before, done, now) && d.exp < now && multiset(before) == multiset(after) + multiset{d}
    requires Exact(before, done, dialing)
    ensures Remembered(after, done, now) && Exact(after, done, dialing)
  {
    forall x | x in before && x != d ensures x in after {
      assert x in multiset(before);
    }
    SomeExact(before, after, done, dialing);
  }

  lemma SomeExact(before: seq<PastDial>, after: seq<PastDial>, done: map<NodeId, int>, dialing: Conns)
    requires Exact(before, done, dialing) && multiset(after) <= multiset(before)
    ensures Exact(after, done, dialing)
  {
    forall x | x in after ensures x in before && multiset(after)[x] == 1 {
      assert x in multiset(after) && x in multiset(before);
    }
  }

  lemma AllCurrent(s: seq<PastDial>, key: PastDial -> int, now: int)
    requires Ordered(s, key) && key == Expiry && (|s| > 0 ==> s[0].exp >= now)
    ensures Current(s, now)
  {
    if |s| > 0 {
      RootIsMinOfAll(s, key);
      assert Expiry(s[0]) == s[0].exp;
      forall d | d in s ensures d.exp >= now {
        assert key(s[0]) <= key(d);
      }
    }
  }

  lemma DialsMore(tasks: seq<Task>, t: Task)
    ensures Dials(tasks + [t]) == Dials(tasks) + (if t.Dial? then [t.id] else [])
  {
    assert (tasks + [t])[..|tasks|] == tasks;
  }

  lemma HistoryIsExact(hist: seq<PastDial>, done: map<NodeId, int>, dialing: Conns, now: int, id: NodeId)
    requires Remembered(hist, done, now) && Exact(hist, done, dialing) && Current(hist, now)
    ensures InHistory(hist, id) <==> Recent(id, done, now)
  {
    if InHistory(hist, id) {
      var i :| 0 <= i < |hist| && hist[i].id == id;
      assert hist[i] in hist;
    }
  }

  lemma StillExact(hist: seq<PastDial>, done: map<NodeId, int>, dialing: Conns, peers: Conns, self: NodeId,
                   allowed: NodeId -> bool, now: int, id: NodeId, flag: ConnFlag)
    requires Exact(hist, done, dialing) && Current(hist, now) && Eligible(id, dialing, peers, self, allowed, done, now)
    ensures Exact(hist, done, dialing[id := flag])
  {
  }

  lemma StartFacts(tasks: seq<Task>, f0: multiset<NodeId>, flying: multiset<NodeId>, d0: Conns, dialing: Conns,
                   peers: Conns, self: NodeId, allowed: NodeId -> bool, done: map<NodeId, int>, now: int,
                   id: NodeId, flag: ConnFlag, maxDyn: nat)
    requires Started(tasks, f0, flying, d0, dialing, peers, self, allowed, done, now)
    requires Eligible(id, dialing, peers, self, allowed, done, now)
    requires flying == multiset(dialing.Keys)
    requires WithinBudget(peers, dialing, maxDyn)
    requires flag == DynDialed ==> |Dynamic(peers)| + |Dynamic(dialing)| < maxDyn
    ensures var dialing' := dialing[id := flag];
            && flying + multiset{id} == multiset(dialing'.Keys)
            && |Dynamic(dialing')| == |Dynamic(dialing)| + (if flag == DynDialed then 1 else 0)
            && WithinBudget(peers, dialing', maxDyn)
            && Started(tasks + [Dial(id, flag)], f0, flying + multiset{id}, d0, dialing', peers, self, allowed, done,
                       now)
  {
    hide Dynamic, Dials, Recent;
    DynamicAdd(dialing, peers, id, flag);
    assert dialing[id := flag].Keys == dialing.Keys + {id};
    StartedMore(tasks, f0, flying, d0, dialing, peers, self, allowed, done, now, id, flag);
  }

  lemma StartedMore(tasks: seq<Task>, f0: multiset<NodeId>, flying: multiset<NodeId>, d0: Conns, dialing: Conns,
                    peers: Conns, self: NodeId, allowed: NodeId -> bool, done: map<NodeId, int>, now: int, id: NodeId,
                    flag: ConnFlag)
    requires Started(tasks, f0, flying, d0, dialing, peers, self, allowed, done, now)
    requires Eligible(id, d0, peers, self, allowed, done, now) && id !in dialing
    ensures Started(tasks + [Dial(id, flag)], f0, flying + multiset{id}, d0, dialing[id := flag], peers, self, allowed,
                    done, now)
  {
    DialsMore(tasks, Dial(id, flag));
    hide Dials, Eligible;
    assert flying + multiset{id} == f0 + (multiset(Dials(tasks)) + multiset{id});
  }

  lemma DynamicAdd(dialing: Conns, peers: Conns, id: NodeId, flag: ConnFlag)
    requires id !in dialing
    ensures var dialing' := dialing[id := flag];
            if flag == DynDialed then
              && |Dynamic(dialing')| == |Dynamic(dialing)| + 1
              && |Dynamic(peers) + Dynamic(dialing')| <= |Dynamic(peers)| + |Dynamic(dialing)| + 1
            else Dynamic(dialing') == Dynamic(dialing)
  {
    var dialing' := dialing[id := flag];
    if flag == DynDialed {
      assert Dynamic(dialing') == Dynamic(dialing) + {id};
      UnionSize(Dynamic(peers), Dynamic(dialing'));
    } else {
      assert Dynamic(dialing') == Dynamic(dialing);
    }
  }

  lemma UnionSize(a: set<NodeId>, b: set<NodeId>)
    ensures |a + b| <= |a| + |b|
  {
    assert a + b == a + (b - a) && a !! (b - a);
    assert |a + b| == |a| + |b - a|;
    assert b == (b - a) + (b * a);
    assert |b| == |b - a| + |b * a|;
  }

  lemma StartedNone(flying: multiset<NodeId>, dialing: Conns, peers: Conns, self: NodeId, allowed: NodeId -> bool,
                    done: map<NodeId, int>, now: int)
    ensures Started([], flying, flying, dialing, dialing, peers, self, allowed, done, now)
  {
  }

  lemma StartedOther(tasks: seq<Task>, f0: multiset<NodeId>, flying: multiset<NodeId>, d0: Conns, dialing: Conns,
                     peers: Conns, self: NodeId, allowed: NodeId -> bool, done: map<NodeId, int>, now: int, t: Task)
    requires Started(tasks, f0, flying, d0, dialing, peers, self, allowed, done, now) && !t.Dial?
    ensures Started(tasks + [t], f0, flying, d0, dialing, peers, self, allowed, done, now)
  {
    DialsMore(tasks, t);
  }

  lemma SmallerSet(a: set<NodeId>, b: set<NodeId>)
    requires a <= b
    ensures |a| <= |b|
  {
    assert b == a + (b - a);
  }

  lemma DoneFacts(hist: seq<PastDial>, done: map<NodeId, int>, clock: int, now: int, dialing: Conns, peers: Conns,
                  id: NodeId)
    requires Remembered(hist, done, clock) && clock <= now && id in multiset(dialing.Keys)
    ensures Remembered(hist, done, now)
    ensures multiset(dialing.Keys) - multiset{id} == multiset((dialing - {id}).Keys)
    ensures forall maxDyn :: WithinBudget(peers, dialing, maxDyn) ==> WithinBudget(peers, dialing - {id}, maxDyn)
  {
    assert (dialing - {id}).Keys == dialing.Keys - {id};
    SmallerSet(Dynamic(peers) + Dynamic(dialing - {id}), Dynamic(peers) + Dynamic(dialing));
  }

  lemma Pushed(before: seq<PastDial>, after: seq<PastDial>, d: PastDial, done: map<NodeId, int>, dialing: Conns,
               id: NodeId, now: int)
    requires Remembered(before, done, now) && d == PastDial(id, now + HISTORY) && Exact(before, done, dialing)
    requires multiset(after) == multiset(before) + multiset{d} && id in dialing
    ensures Remembered(after, done[id := now], now) && Exact(after, done[id := now], dialing - {id})
  {
    assert d in multiset(after);
    forall x | x in before ensures x in after {
      assert x in multiset(before) && x in multiset(after);
    }
    forall x | x in after ensures x == d || x in before {
      assert x in multiset(after);
    }
    assert d !in before;
    assert d !in multiset(before);
  }

  lemma UpFacts(peers: Conns, dialing: Conns, id: NodeId, flag: ConnFlag)
    requires id !in peers && (flag == DynDialed ==> id in dialing && dialing[id] == DynDialed)
    ensures Dynamic(peers[id := flag]) + Dynamic(dialing) == Dynamic(peers) + Dynamic(dialing)
  {
  }

  lemma ForgetOne(hist: seq<PastDial>, done: map<NodeId, int>, dialing: Conns, id: NodeId, clock: int)
    requires Remembered(hist, done, clock) && Exact(hist, done, dialing)
    requires forall i :: 0 <= i < |hist| ==> hist[i].id != id
    ensures Remembered(hist, done - {id}, clock) && Exact(hist, done - {id}, dialing)
  {
  }

  lemma Without(before: seq<PastDial>, after: seq<PastDial>, d: PastDial, done: map<NodeId, int>, dialing: Conns,
                id: NodeId, clock: int)
    requires Remembered(before, done, clock) && d.id == id && multiset(before) == multiset(after) + multiset{d}
    requires Exact(before, done, dialing)
    ensures Remembered(after, done - {id}, clock) && Exact(after, done - {id}, dialing)
  {
    forall x | x in before && x != d ensures x in after {
      assert x in multiset(before);
    }
    SomeExact(before, after, done, dialing);
    assert d in multiset(before);
    assert d !in multiset(after);
    forall i | 0 <= i < |after| ensures after[i].id != id {
      assert after[i] in after && after[i] in multiset(after);
    }
    RememberedOthers(before, after, d, done, id, clock);
    hide Remembered;
  }

  lemma RememberedOthers(before: seq<PastDial>, after: seq<PastDial>, d: PastDial, done: map<NodeId, int>, id: NodeId,
                         clock: int)
    requires Remembered(before, done, clock) && d.id == id && forall x :: x in before && x != d ==> x in after
    ensures Remembered(after, done - {id}, clock)
  {
  }
}
