/** Reassembly of fragmented datagrams under flow, octet and replay budgets:
    the state, one step of Add, and what every step keeps. */
module Reassembly {
  import opened Bytes
  import opened Sums
  import opened CompletedHeap
  import opened Datagram

  const MAX_TIMEOUT := 24 * 60 * 60 * 1_000_000_000

  datatype Limits = Limits(maxFlows: int, maxBytes: int, maxPayload: int, timeout: int) {
    // What the constructor accepts; times are in nanoseconds.
    predicate Supported() {
      && 0 < maxFlows <= 0x10_0000
      && 0 < maxBytes <= 0x400_0000
      && 0 < maxPayload <= MAX_PAYLOAD
      && 0 < timeout <= MAX_TIMEOUT
    }
  }

  datatype Flow = Flow(created: int, count: nat, parts: map<nat, seq<byte>>, bytes: nat)

  // The memory of finished messages: a map, and a heap that finds its oldest entry.
  datatype Replay = Replay(completed: map<FlowKey, int>, order: seq<Entry>)

  datatype State = State(flows: map<FlowKey, Flow>, bytes: int, replay: Replay)

  datatype Outcome = Pending | Delivered(payload: seq<byte>) | Rejected(error: Error)

  const EMPTY := State(map[], 0, Replay(map[], []))

  function PartSize(part: seq<byte>): int { |part| }

  function FlowSize(f: Flow): int { f.bytes }

  predicate HasHole(parts: map<nat, seq<byte>>, n: nat) {
    exists i: nat :: i < n && i !in parts
  }

  // The first n parts, in index order.
  function Join(parts: map<nat, seq<byte>>, n: nat): seq<byte>
    requires !HasHole(parts, n)
  {
    if n == 0 then [] else Join(parts, n - 1) + parts[n - 1]
  }

  // ---------- the replay memory ----------

  function ExpireReplay(r: Replay, now: int, timeout: int): Replay
    decreases |r.order|
  {
    if r.order == [] || now - r.order[0].at < timeout then r
    else
      var (_, rest) := Pop(r.order);
      ExpireReplay(Replay(Forget(r.completed, r.order[0]), rest), now, timeout)
  }

  // Deletes an entry unless the map has a different completion time for its key.
  function Forget(completed: map<FlowKey, int>, e: Entry): map<FlowKey, int> {
    if e.key in completed && completed[e.key] == e.at then completed - {e.key} else completed
  }

  // Makes room for one more entry: pops until one live entry has been dropped.
  function MakeRoom(r: Replay, limit: nat): Replay
    decreases |r.order|
  {
    if |r.completed| < limit || r.order == [] then r
    else
      var (e, rest) := Pop(r.order);
      if e.key in r.completed && r.completed[e.key] == e.at then Replay(r.completed - {e.key}, rest)
      else MakeRoom(Replay(r.completed, rest), limit)
  }

  function Remember(r: Replay, key: FlowKey, now: int, limit: nat): Replay {
    var room := MakeRoom(r, limit);
    Replay(room.completed[key := now], Push(room.order, Entry(key, now)))
  }

  // ---------- one step ----------

  predicate Live(f: Flow, now: int, timeout: int) { now - f.created < timeout }

  function LiveFlows(flows: map<FlowKey, Flow>, now: int, timeout: int): map<FlowKey, Flow> {
    map k | k in flows && Live(flows[k], now, timeout) :: flows[k]
  }

  ghost function Expire(s: State, l: Limits, now: int): State {
    var live := LiveFlows(s.flows, now, l.timeout);
    State(live, s.bytes - Sum(s.flows - live.Keys, FlowSize), ExpireReplay(s.replay, now, l.timeout))
  }

  function KeyOf(h: Header): FlowKey { FlowKey(h.flowID, h.sequence) }

  function Drop(s: State, key: FlowKey, flow: Flow): State {
    s.(flows := s.flows - {key}, bytes := s.bytes - flow.bytes)
  }

  function FlowFor(s: State, h: Header, now: int): Flow {
    if KeyOf(h) in s.flows then s.flows[KeyOf(h)] else Flow(now, h.count, map[], 0)
  }

  function Extend(f: Flow, index: nat, payload: seq<byte>): Flow {
    f.(parts := f.parts[index := payload], bytes := f.bytes + |payload|)
  }

  function Store(s: State, h: Header, payload: seq<byte>, now: int): State {
    s.(flows := s.flows[KeyOf(h) := Extend(FlowFor(s, h, now), h.index, payload)], bytes := s.bytes + |payload|)
  }

  // The last steps of an accepted datagram: store the part, and hand out the
  // message when it was the last one.
  function StoreOrDeliver(s: State, l: Limits, h: Header, payload: seq<byte>, now: int): (State, Outcome)
    requires l.Supported()
  {
    var grown := Extend(FlowFor(s, h, now), h.index, payload);
    if |grown.parts| != grown.count then (Store(s, h, payload, now), Pending)
    else if HasHole(grown.parts, grown.count) then (Store(s, h, payload, now), Pending)
    else
      (Drop(Store(s, h, payload, now), KeyOf(h), grown).(replay := Remember(s.replay, KeyOf(h), now, 2 * l.maxFlows)),
       Delivered(Join(grown.parts, grown.count)))
  }

  // One well-formed datagram against an already expired state.
  function Accept(s: State, l: Limits, h: Header, payload: seq<byte>, now: int): (State, Outcome)
    requires l.Supported()
  {
    var key, flow := KeyOf(h), FlowFor(s, h, now);
    if key in s.replay.completed then (s, Rejected(MalformedFrame))
    else if key !in s.flows && |s.flows| >= l.maxFlows then (s, Rejected(Transient))
    else if flow.count != h.count || h.index in flow.parts then (Drop(s, key, flow), Rejected(MalformedFrame))
    else if s.bytes + |payload| > l.maxBytes then (Drop(s, key, flow), Rejected(Transient))
    else StoreOrDeliver(s, l, h, payload, now)
  }

  ghost function Add(s: State, l: Limits, data: seq<byte>, now: int): (State, Outcome)
    requires l.Supported()
  {
    var d := Decode(data, l.maxPayload);
    if d.Err? then (s, Rejected(d.error))
    else Accept(Expire(s, l, now), l, d.value.0, d.value.1, now)
  }

  // ---------- what every state satisfies ----------

  ghost predicate InRange(f: Flow) {
    forall i :: i in f.parts ==> i < f.count
  }

  // A stored flow is never empty and never complete.
  ghost predicate FlowOk(f: Flow) {
    && InRange(f)
    && 0 < |f.parts| < f.count
    && f.bytes == Sum(f.parts, PartSize)
  }

  ghost function Entries(completed: map<FlowKey, int>): (s: set<Entry>)
    ensures forall e :: e in s <==> e.key in completed && completed[e.key] == e.at
  {
    set k | k in completed :: Entry(k, completed[k])
  }

  // The heap holds exactly the entries of the map, each once.
  ghost predicate Mirrors(r: Replay) {
    multiset(r.order) == multiset(Entries(r.completed)) && Ordered(r.order, |r.order|)
  }

  ghost predicate FlowsValid(flows: map<FlowKey, Flow>, bytes: int, l: Limits) {
    && (forall k :: k in flows ==> FlowOk(flows[k]))
    && |flows| <= l.maxFlows
    && bytes == Sum(flows, FlowSize)
    && 0 <= bytes <= l.maxBytes
  }

  ghost predicate ReplayValid(r: Replay, l: Limits) {
    Mirrors(r) && |r.completed| <= 2 * l.maxFlows
  }

  ghost predicate Valid(s: State, l: Limits) {
    FlowsValid(s.flows, s.bytes, l) && ReplayValid(s.replay, l)
  }

  // ---------- the heap agrees with the map ----------

  lemma Recorded(r: Replay, e: Entry)
    requires Mirrors(r)
    ensures e in r.order <==> e.key in r.completed && r.completed[e.key] == e.at
  {
    assert e in r.order <==> e in multiset(r.order);
    assert e in multiset(Entries(r.completed)) <==> e in Entries(r.completed);
  }

  lemma ForgetKeepsMirror(r: Replay)
    requires Mirrors(r) && r.order != []
    ensures var e := r.order[0];
            && e.key in r.completed && r.completed[e.key] == e.at
            && Mirrors(Replay(r.completed - {e.key}, Pop(r.order).1))
  {
    var e := r.order[0];
    Recorded(r, e);
    PopTakesRoot(r.order);
    assert Entries(r.completed - {e.key}) == Entries(r.completed) - {e};
    assert multiset(Entries(r.completed) - {e}) == multiset(Entries(r.completed)) - multiset{e};
  }

  lemma RootOldestCompleted(r: Replay, k: FlowKey)
    requires Mirrors(r) && k in r.completed
    ensures r.order != [] && r.order[0].at <= r.completed[k]
  {
    Recorded(r, Entry(k, r.completed[k]));
    var i :| 0 <= i < |r.order| && r.order[i] == Entry(k, r.completed[k]);
    RootIsOldest(r.order, i);
  }

  // Popping from the heap forgets exactly the entries that have reached the timeout.
  lemma {:induction false} ExpiryIsExact(r: Replay, now: int, timeout: int)
    requires Mirrors(r)
    ensures var r' := ExpireReplay(r, now, timeout);
            && Mirrors(r')
            && r'.completed == map k | k in r.completed && now - r.completed[k] < timeout :: r.completed[k]
    decreases |r.order|
  {
    if r.order == [] {
      forall k | k in r.completed ensures false { RootOldestCompleted(r, k); }
      assert r.completed == map[];
    } else if now - r.order[0].at < timeout {
      forall k | k in r.completed ensures now - r.completed[k] < timeout { RootOldestCompleted(r, k); }
    } else {
      ForgetKeepsMirror(r);
      ExpiryIsExact(Replay(Forget(r.completed, r.order[0]), Pop(r.order).1), now, timeout);
    }
  }

  // Eviction drops one entry, the oldest, and only when the memory is full.
  lemma MakeRoomDropsOldest(r: Replay, limit: nat)
    requires Mirrors(r) && 0 < limit && |r.completed| <= limit
    ensures var r' := MakeRoom(r, limit);
            && Mirrors(r') && |r'.completed| < limit
            && (|r.completed| < limit ==> r' == r)
            && (|r.completed| == limit ==>
                  r.order != [] && r.order[0].key in r.completed && r'.completed == r.completed - {r.order[0].key})
  {
    if |r.completed| == limit {
      var k :| k in r.completed;
      RootOldestCompleted(r, k);
      ForgetKeepsMirror(r);
      PopTakesRoot(r.order);
    }
  }

  lemma RecordKeepsMirror(r: Replay, key: FlowKey, now: int)
    requires Mirrors(r) && key !in r.completed
    ensures Mirrors(Replay(r.completed[key := now], Push(r.order, Entry(key, now))))
  {
    var e := Entry(key, now);
    var known := Entries(r.completed);
    PushKeeps(r.order, e);
    assert Entries(r.completed[key := now]) == known + {e};
    assert e !in known;
    assert multiset(known + {e}) == multiset(known) + multiset{e};
  }

  lemma RememberKeepsMirror(r: Replay, key: FlowKey, now: int, limit: nat)
    requires Mirrors(r) && 0 < limit && |r.completed| <= limit && key !in r.completed
    ensures Mirrors(Remember(r, key, now, limit))
    ensures |Remember(r, key, now, limit).completed| <= limit
  {
    MakeRoomDropsOldest(r, limit);
    var room := MakeRoom(r, limit);
    RecordKeepsMirror(room, key, now);
    assert room.completed[key := now].Keys == room.completed.Keys + {key};
  }

  // ---------- every step keeps the invariant ----------

  lemma ExpireKeepsFlows(s: State, l: Limits, now: int)
    requires Valid(s, l)
    ensures var e := Expire(s, l, now);
            && e.bytes == Sum(e.flows, FlowSize) && 0 <= e.bytes <= s.bytes
            && |e.flows| <= |s.flows|
  {
    var live := LiveFlows(s.flows, now, l.timeout);
    var dead := s.flows - live.Keys;
    SumSplit(s.flows, FlowSize, live.Keys);
    assert live == map k | k in live.Keys :: s.flows[k];
    SumNonNegative(live, FlowSize);
    SumNonNegative(dead, FlowSize);
    SubsetSize(live.Keys, s.flows.Keys);
  }

  lemma ExpireKeepsValid(s: State, l: Limits, now: int)
    requires Valid(s, l)
    ensures Valid(Expire(s, l, now), l)
  {
    ExpireKeepsFlows(s, l, now);
    ExpiryIsExact(s.replay, now, l.timeout);
    SubsetSize(ExpireReplay(s.replay, now, l.timeout).completed.Keys, s.replay.completed.Keys);
  }

  lemma FullMeansAll(parts: map<nat, seq<byte>>, n: nat)
    requires forall i :: i in parts ==> i < n
    ensures |parts| <= n
    ensures |parts| == n <==> !HasHole(parts, n)
  {
    assert parts.Keys <= Below(n);
    AllBelow(parts.Keys, n);
    if !HasHole(parts, n) {
      assert parts.Keys == Below(n);
    }
  }

  lemma ExtendFlow(f: Flow, index: nat, payload: seq<byte>)
    requires InRange(f) && f.bytes == Sum(f.parts, PartSize)
    requires index < f.count && index !in f.parts
    ensures var g := Extend(f, index, payload);
            && InRange(g)
            && g.bytes == Sum(g.parts, PartSize)
            && |g.parts| == |f.parts| + 1 <= g.count
            && (|g.parts| == g.count <==> !HasHole(g.parts, g.count))
  {
    var g := Extend(f, index, payload);
    SumUpdate(f.parts, PartSize, index, payload);
    assert g.parts.Keys == f.parts.Keys + {index};
    FullMeansAll(g.parts, g.count);
  }

  lemma DropKeepsFlows(flows: map<FlowKey, Flow>, bytes: int, l: Limits, key: FlowKey, flow: Flow)
    requires FlowsValid(flows, bytes, l)
    requires if key in flows then flow == flows[key] else flow.bytes == 0
    ensures FlowsValid(flows - {key}, bytes - flow.bytes, l)
  {
    SumUpdate(flows, FlowSize, key, flow);
    SumNonNegative(flows - {key}, FlowSize);
    SubsetSize((flows - {key}).Keys, flows.Keys);
  }

  lemma StoreKeepsFlows(flows: map<FlowKey, Flow>, bytes: int, l: Limits, key: FlowKey, grown: Flow, more: nat)
    requires FlowsValid(flows, bytes, l) && FlowOk(grown)
    requires key in flows || |flows| < l.maxFlows
    requires grown.bytes == more + if key in flows then flows[key].bytes else 0
    requires bytes + more <= l.maxBytes
    ensures FlowsValid(flows[key := grown], bytes + more, l)
  {
    SumUpdate(flows, FlowSize, key, grown);
    assert flows[key := grown].Keys == flows.Keys + {key};
  }

  lemma FlowForOk(s: State, l: Limits, h: Header, now: int)
    requires Valid(s, l)
    ensures var f := FlowFor(s, h, now);
            && InRange(f) && f.bytes == Sum(f.parts, PartSize)
  {
    assert KeyOf(h) in s.flows ==> FlowOk(s.flows[KeyOf(h)]);
  }

  // A full set of parts never has a hole, so the code's test for one never succeeds.
  lemma GrownFlow(s: State, l: Limits, h: Header, payload: seq<byte>, now: int)
    requires Valid(s, l) && h.index < h.count
    requires var f := FlowFor(s, h, now); f.count == h.count && h.index !in f.parts
    ensures var grown := Extend(FlowFor(s, h, now), h.index, payload);
            && (|grown.parts| == grown.count <==> !HasHole(grown.parts, grown.count))
            && (|grown.parts| != grown.count ==> FlowOk(grown))
  {
    FlowForOk(s, l, h, now);
    ExtendFlow(FlowFor(s, h, now), h.index, payload);
  }

  lemma StoreOrDeliverKeepsValid(s: State, l: Limits, h: Header, payload: seq<byte>, now: int)
    requires Valid(s, l) && l.Supported() && h.index < h.count
    requires KeyOf(h) !in s.replay.completed
    requires KeyOf(h) in s.flows || |s.flows| < l.maxFlows
    requires var f := FlowFor(s, h, now); f.count == h.count && h.index !in f.parts
    requires s.bytes + |payload| <= l.maxBytes
    ensures Valid(StoreOrDeliver(s, l, h, payload, now).0, l)
  {
    var key, flow := KeyOf(h), FlowFor(s, h, now);
    GrownFlow(s, l, h, payload, now);
    var grown := Extend(flow, h.index, payload);
    if |grown.parts| != grown.count {
      StoreKeepsFlows(s.flows, s.bytes, l, key, grown, |payload|);
    } else {
      DeliveryKeepsValid(s, l, h, payload, now);
    }
  }

  lemma DeliveryKeepsValid(s: State, l: Limits, h: Header, payload: seq<byte>, now: int)
    requires Valid(s, l) && l.Supported() && KeyOf(h) !in s.replay.completed
    ensures var grown := Extend(FlowFor(s, h, now), h.index, payload);
            Valid(Drop(Store(s, h, payload, now), KeyOf(h), grown).(replay := Remember(s.replay, KeyOf(h), now, 2 * l.maxFlows)), l)
  {
    DeliveredFlows(s, l, h, payload, now);
    RememberKeepsMirror(s.replay, KeyOf(h), now, 2 * l.maxFlows);
  }

  lemma DeliveredFlows(s: State, l: Limits, h: Header, payload: seq<byte>, now: int)
    requires FlowsValid(s.flows, s.bytes, l)
    ensures var s' := Drop(Store(s, h, payload, now), KeyOf(h), Extend(FlowFor(s, h, now), h.index, payload));
            FlowsValid(s'.flows, s'.bytes, l)
  {
    var key, flow := KeyOf(h), FlowFor(s, h, now);
    var grown := Extend(flow, h.index, payload);
    assert s.flows[key := grown] - {key} == s.flows - {key};
    DropKeepsFlows(s.flows, s.bytes, l, key, flow);
  }

  lemma AcceptKeepsValid(s: State, l: Limits, h: Header, payload: seq<byte>, now: int)
    requires Valid(s, l) && l.Supported() && h.index < h.count
    ensures Valid(Accept(s, l, h, payload, now).0, l)
  {
    var key, flow := KeyOf(h), FlowFor(s, h, now);
    if key !in s.replay.completed && (key in s.flows || |s.flows| < l.maxFlows) {
      if flow.count != h.count || h.index in flow.parts || s.bytes + |payload| > l.maxBytes {
        DropKeepsValid(s, l, key, flow);
      } else {
        StoreOrDeliverKeepsValid(s, l, h, payload, now);
      }
    }
  }

  lemma DropKeepsValid(s: State, l: Limits, key: FlowKey, flow: Flow)
    requires Valid(s, l) && flow == if key in s.flows then s.flows[key] else flow.(bytes := 0)
    ensures Valid(Drop(s, key, flow), l)
  {
    DropKeepsFlows(s.flows, s.bytes, l, key, flow);
  }

  // What a datagram that passes every check does: it adds its part, and when no
  // part is missing any more the flow is gone and its key remembered.
  ghost predicate Stores(s: State, s': State, key: FlowKey, grown: Flow, full: bool) {
    && s'.flows == (if full then s.flows - {key} else s.flows[key := grown])
    && (forall k :: k in s'.replay.completed ==> k in s.replay.completed || (full && k == key))
    && (full ==> key in s'.replay.completed)
  }

  lemma AcceptStores(s: State, l: Limits, h: Header, payload: seq<byte>, now: int)
    requires Valid(s, l) && l.Supported() && h.index < h.count
    requires KeyOf(h) !in s.replay.completed
    requires KeyOf(h) in s.flows || |s.flows| < l.maxFlows
    requires var f := FlowFor(s, h, now); f.count == h.count && h.index !in f.parts
    requires s.bytes + |payload| <= l.maxBytes
    ensures var (s', o) := Accept(s, l, h, payload, now);
            var grown := Extend(FlowFor(s, h, now), h.index, payload);
            var full := !HasHole(grown.parts, h.count);
            && Stores(s, s', KeyOf(h), grown, full)
            && o == (if full then Delivered(Join(grown.parts, h.count)) else Pending)
  {
    var key, grown := KeyOf(h), Extend(FlowFor(s, h, now), h.index, payload);
    GrownFlow(s, l, h, payload, now);
    MakeRoomDropsOldest(s.replay, 2 * l.maxFlows);
    assert s.flows[key := grown] - {key} == s.flows - {key};
  }

  // The invariant of every reachable state: it holds of the fresh reassembler
  // and every Add keeps it, whatever octets arrive at whatever time.
  lemma AddKeepsValid(s: State, l: Limits, data: seq<byte>, now: int)
    requires Valid(s, l) && l.Supported()
    ensures Valid(Add(s, l, data, now).0, l)
  {
    var d := Decode(data, l.maxPayload);
    if d.Ok? {
      AcceptedHeaders(d.value.0);
      ExpireKeepsValid(s, l, now);
      AcceptKeepsValid(Expire(s, l, now), l, d.value.0, d.value.1, now);
    }
  }

  lemma EmptyIsValid(l: Limits)
    requires l.Supported()
    ensures Valid(EMPTY, l)
  {
    assert Entries(map[]) == {};
  }
}
