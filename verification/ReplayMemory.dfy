/** How long a finished message stays protected against replay, over every run
    of the reassembler on arbitrary octets with a strictly increasing clock. */
module ReplayMemory {
  import opened Bytes
  import opened Sums
  import opened CompletedHeap
  import opened Datagram
  import opened Reassembly

  datatype Event = Event(data: seq<byte>, at: int)

  datatype Trace = Trace(events: seq<Event>, states: seq<State>, outcomes: seq<Outcome>)

  ghost predicate IsStep(t: Trace, l: Limits, q: nat)
    requires l.Supported() && q < |t.events| == |t.outcomes| < |t.states|
  {
    && (t.states[q + 1], t.outcomes[q]) == Add(t.states[q], l, t.events[q].data, t.events[q].at)
    && (q > 0 ==> t.events[q - 1].at < t.events[q].at)
  }

  ghost predicate IsRun(t: Trace, l: Limits)
    requires l.Supported()
  {
    && |t.outcomes| == |t.events| && |t.states| == |t.events| + 1 && t.states[0] == EMPTY
    && forall q :: 0 <= q < |t.events| ==> IsStep(t, l, q)
  }

  function KeyIn(data: seq<byte>, l: Limits): FlowKey {
    var d := Decode(data, l.maxPayload);
    if d.Ok? then KeyOf(d.value.0) else FlowKey(0, 0)
  }

  // The messages handed out by the first n events, oldest first.
  ghost function Log(t: Trace, l: Limits, n: nat): seq<Entry>
    requires n <= |t.events| == |t.outcomes|
  {
    if n == 0 then []
    else
      var e := t.events[n - 1];
      Log(t, l, n - 1) + if t.outcomes[n - 1].Delivered? then [Entry(KeyIn(e.data, l), e.at)] else []
  }

  // ---------- what the memory knows about the log ----------

  ghost predicate Chronological(log: seq<Entry>, now: int) {
    && (forall i, j :: 0 <= i < j < |log| ==> log[i].at < log[j].at)
    && (forall i :: 0 <= i < |log| ==> log[i].at <= now)
  }

  ghost predicate Grounded(completed: map<FlowKey, int>, log: seq<Entry>) {
    forall k :: k in completed ==> Entry(k, completed[k]) in log
  }

  // Recent enough, and with few enough deliveries after it, to be remembered.
  predicate Protected(log: seq<Entry>, i: nat, l: Limits, now: int)
    requires i < |log|
  {
    now - log[i].at < l.timeout && |log| - i <= 2 * l.maxFlows
  }

  predicate Known(completed: map<FlowKey, int>, e: Entry) {
    e.key in completed && completed[e.key] == e.at
  }

  ghost predicate RemembersRecent(completed: map<FlowKey, int>, log: seq<Entry>, l: Limits, now: int) {
    forall i: nat :: i < |log| && Protected(log, i, l, now) ==> Known(completed, log[i])
  }

  // Two deliveries of one key are a timeout or a memory apart.
  ghost predicate FarApart(log: seq<Entry>, l: Limits, i: nat, j: nat)
    requires i < j < |log|
  {
    log[i].key == log[j].key ==> log[j].at - log[i].at >= l.timeout || j - i - 1 >= 2 * l.maxFlows
  }

  ghost predicate AllFarApart(log: seq<Entry>, l: Limits) {
    forall i: nat, j: nat :: i < j < |log| ==> FarApart(log, l, i, j)
  }

  ghost predicate Inv(s: State, l: Limits, log: seq<Entry>, now: int) {
    && Valid(s, l)
    && Chronological(log, now)
    && Grounded(s.replay.completed, log)
    && RemembersRecent(s.replay.completed, log, l, now)
    && AllFarApart(log, l)
  }

  // ---------- one step ----------

  lemma ExpireKeeps(s: State, l: Limits, log: seq<Entry>, was: int, now: int)
    requires Inv(s, l, log, was) && was <= now
    ensures Inv(Expire(s, l, now), l, log, now)
  {
    ExpireKeepsValid(s, l, now);
    ExpiryIsExact(s.replay, now, l.timeout);
    forall i: nat | i < |log| && Protected(log, i, l, now)
      ensures Known(Expire(s, l, now).replay.completed, log[i])
    {
      assert Protected(log, i, l, was);
    }
  }

  ghost function KeysFrom(log: seq<Entry>, i: nat): (keys: set<FlowKey>)
    requires i <= |log|
    ensures |keys| <= |log| - i
    ensures forall j :: i <= j < |log| ==> log[j].key in keys
    decreases |log| - i
  {
    if i == |log| then {} else {log[i].key} + KeysFrom(log, i + 1)
  }

  // Eviction never takes a protected entry: everything still in the memory is at
  // least as recent as the oldest entry, so a full memory needs that many deliveries.
  lemma EvictionSpares(r: Replay, l: Limits, log: seq<Entry>, now: int, i: nat)
    requires l.Supported() && ReplayValid(r, l) && Chronological(log, now) && Grounded(r.completed, log)
    requires i < |log| && Known(r.completed, log[i]) && |log| - i < 2 * l.maxFlows
    ensures Known(MakeRoom(r, 2 * l.maxFlows).completed, log[i])
  {
    MakeRoomDropsOldest(r, 2 * l.maxFlows);
    if |r.completed| == 2 * l.maxFlows && r.order[0].key == log[i].key {
      Recorded(r, r.order[0]);
      forall k | k in r.completed ensures k in KeysFrom(log, i) {
        RootOldestCompleted(r, k);
        var j :| 0 <= j < |log| && log[j] == Entry(k, r.completed[k]);
        assert log[i].at <= log[j].at;
      }
      SubsetSize(r.completed.Keys, KeysFrom(log, i));
      assert false;
    }
  }

  lemma RememberKeeps(r: Replay, l: Limits, log: seq<Entry>, was: int, now: int, key: FlowKey)
    requires l.Supported() && ReplayValid(r, l) && Chronological(log, was) && was < now && Grounded(r.completed, log)
    requires RemembersRecent(r.completed, log, l, now) && key !in r.completed
    ensures var r', log' := Remember(r, key, now, 2 * l.maxFlows), log + [Entry(key, now)];
            Chronological(log', now) && Grounded(r'.completed, log') && RemembersRecent(r'.completed, log', l, now)
  {
    MakeRoomDropsOldest(r, 2 * l.maxFlows);
    GroundedMore(r.completed, MakeRoom(r, 2 * l.maxFlows).completed, log, key, now);
    RecentMore(r, l, log, was, now, key);
    ChronologicalMore(log, was, now, key);
  }

  lemma ChronologicalMore(log: seq<Entry>, was: int, now: int, key: FlowKey)
    requires Chronological(log, was) && was < now
    ensures Chronological(log + [Entry(key, now)], now)
  {
  }

  lemma RecentMore(r: Replay, l: Limits, log: seq<Entry>, was: int, now: int, key: FlowKey)
    requires l.Supported() && ReplayValid(r, l) && Chronological(log, was) && Grounded(r.completed, log)
    requires RemembersRecent(r.completed, log, l, now) && key !in r.completed
    ensures RemembersRecent(MakeRoom(r, 2 * l.maxFlows).completed[key := now], log + [Entry(key, now)], l, now)
  {
    var room, log' := MakeRoom(r, 2 * l.maxFlows).completed, log + [Entry(key, now)];
    forall i: nat | i < |log'| && Protected(log', i, l, now) ensures Known(room[key := now], log'[i]) {
      if i < |log| {
        assert Protected(log, i, l, now) && Known(r.completed, log[i]);
        EvictionSpares(r, l, log, was, i);
      }
    }
  }

  lemma GroundedMore(completed: map<FlowKey, int>, room: map<FlowKey, int>, log: seq<Entry>, key: FlowKey, now: int)
    requires Grounded(completed, log) && forall k :: k in room ==> k in completed && room[k] == completed[k]
    ensures Grounded(room[key := now], log + [Entry(key, now)])
  {
    var kept, log' := room[key := now], log + [Entry(key, now)];
    forall k | k in kept ensures Entry(k, kept[k]) in log' {
      assert k != key ==> Entry(k, completed[k]) in log;
      assert log'[|log|] == Entry(key, now);
    }
  }

  lemma DeliveryFarApart(completed: map<FlowKey, int>, l: Limits, log: seq<Entry>, now: int, key: FlowKey)
    requires RemembersRecent(completed, log, l, now) && key !in completed && AllFarApart(log, l)
    ensures AllFarApart(log + [Entry(key, now)], l)
  {
    var log' := log + [Entry(key, now)];
    forall i: nat, j: nat | i < j < |log'| ensures FarApart(log', l, i, j) {
      if j < |log| {
        assert FarApart(log, l, i, j);
      } else if log[i].key == key {
        assert !Known(completed, log[i]);
        assert !Protected(log, i, l, now);
      }
    }
  }

  // A delivery happens only for an unknown key and is then remembered; any other
  // answer leaves the memory alone.
  lemma AcceptReplay(s: State, l: Limits, h: Header, payload: seq<byte>, now: int)
    requires l.Supported()
    ensures var (s', o) := Accept(s, l, h, payload, now);
            if o.Delivered? then
              KeyOf(h) !in s.replay.completed && s'.replay == Remember(s.replay, KeyOf(h), now, 2 * l.maxFlows)
            else s'.replay == s.replay
  {
  }

  lemma AddKeeps(s: State, l: Limits, log: seq<Entry>, was: int, e: Event)
    requires l.Supported() && Inv(s, l, log, was) && was < e.at
    ensures var (s', o) := Add(s, l, e.data, e.at);
            Inv(s', l, log + (if o.Delivered? then [Entry(KeyIn(e.data, l), e.at)] else []), e.at)
  {
    var (s', o) := Add(s, l, e.data, e.at);
    AddKeepsValid(s, l, e.data, e.at);
    var d := Decode(e.data, l.maxPayload);
    if d.Ok? {
      var x := Expire(s, l, e.at);
      ExpireKeeps(s, l, log, was, e.at);
      AcceptReplay(x, l, d.value.0, d.value.1, e.at);
      if o.Delivered? {
        RememberKeeps(x.replay, l, log, was, e.at, KeyOf(d.value.0));
        DeliveryFarApart(x.replay.completed, l, log, e.at, KeyOf(d.value.0));
      } else {
        assert log + [] == log;
      }
    } else {
      assert log + [] == log;
      forall i: nat | i < |log| && Protected(log, i, l, e.at) ensures Known(s.replay.completed, log[i]) {
        assert Protected(log, i, l, was);
      }
    }
  }

  // ---------- whole runs ----------

  ghost function ClockAfter(t: Trace, n: nat): int
    requires n <= |t.events|
  {
    if n == 0 then (if t.events == [] then 0 else t.events[0].at - 1) else t.events[n - 1].at
  }

  lemma {:induction false} RunKeeps(t: Trace, l: Limits, n: nat)
    requires l.Supported() && IsRun(t, l) && n <= |t.events|
    ensures Inv(t.states[n], l, Log(t, l, n), ClockAfter(t, n))
  {
    if n == 0 {
      EmptyIsValid(l);
    } else {
      RunKeeps(t, l, n - 1);
      assert IsStep(t, l, n - 1);
      AddKeeps(t.states[n - 1], l, Log(t, l, n - 1), ClockAfter(t, n - 1), t.events[n - 1]);
    }
  }

  // A key is handed out twice only if the timeout has passed in between, or at
  // least 2*maxFlows other messages were handed out in between.
  lemma ReplayNeedsTimeOrTraffic(t: Trace, l: Limits, n: nat, i: nat, j: nat)
    requires l.Supported() && IsRun(t, l) && n <= |t.events|
    requires i < j < |Log(t, l, n)| && Log(t, l, n)[i].key == Log(t, l, n)[j].key
    ensures Log(t, l, n)[j].at - Log(t, l, n)[i].at >= l.timeout || j - i - 1 >= 2 * l.maxFlows
  {
    RunKeeps(t, l, n);
    assert FarApart(Log(t, l, n), l, i, j);
  }
}
