/** Whole runs of the reassembler: many messages, cut into fragments, arriving
    interleaved and in any order. */
module ReassemblyRuns {
  import opened Bytes
  import opened Sums
  import opened CompletedHeap
  import opened Datagram
  import opened Reassembly
  import opened Fragmentation

  // Fragment i of message m arrives at a time.
  datatype Arrival = Arrival(m: nat, i: nat, at: int)

  function Key(m: Message): FlowKey { FlowKey(m.flowID, m.sequence) }

  // Messages the sender can cut and this receiver accepts, each under its own key.
  ghost predicate Sendable(msgs: seq<Message>, l: Limits) {
    && (forall m :: 0 <= m < |msgs| ==> Cuttable(msgs[m]) && |msgs[m].Parts()[0]| <= l.maxPayload)
    && (forall m, n :: 0 <= m < n < |msgs| ==> Key(msgs[m]) != Key(msgs[n]))
  }

  // The fragments of message m that have arrived.
  ghost function Got(past: seq<Arrival>, m: nat): set<nat> {
    if past == [] then {}
    else
      var last := past[|past| - 1];
      Got(past[..|past| - 1], m) + if last.m == m then {last.i} else {}
  }

  // When the first fragment of message m arrived.
  ghost function FirstAt(past: seq<Arrival>, m: nat): int
    requires Got(past, m) != {}
  {
    var before := past[..|past| - 1];
    if Got(before, m) != {} then FirstAt(before, m) else past[|past| - 1].at
  }

  ghost predicate Whole(m: Message, got: set<nat>)
    requires m.mtu > HEADER_BYTES
  {
    forall i: nat :: i < |m.Parts()| ==> i in got
  }

  // Arrival a may follow past: it is a fragment of a message, it is not a
  // duplicate, and no message that is still incomplete has reached the timeout.
  ghost predicate MayFollow(msgs: seq<Message>, l: Limits, past: seq<Arrival>, a: Arrival)
    requires Sendable(msgs, l)
  {
    && a.m < |msgs| && a.i < |msgs[a.m].Parts()| && a.i !in Got(past, a.m)
    && (forall m :: 0 <= m < |msgs| && Got(past, m) != {} && !Whole(msgs[m], Got(past, m)) ==>
                      a.at - FirstAt(past, m) < l.timeout)
  }

  ghost predicate Schedule(msgs: seq<Message>, l: Limits, arrivals: seq<Arrival>)
    requires Sendable(msgs, l)
  {
    forall q :: 0 <= q < |arrivals| ==> Follows(msgs, l, arrivals, q)
  }

  ghost predicate Follows(msgs: seq<Message>, l: Limits, arrivals: seq<Arrival>, q: nat)
    requires Sendable(msgs, l) && q < |arrivals|
  {
    MayFollow(msgs, l, arrivals[..q], arrivals[q])
  }

  ghost function Wire(msgs: seq<Message>, l: Limits, a: Arrival): seq<byte>
    requires Sendable(msgs, l) && a.m < |msgs| && a.i < |msgs[a.m].Parts()|
  {
    FragmentDecodes(msgs[a.m], a.i, MAX_PAYLOAD);
    Fragments(msgs[a.m]).value[a.i]
  }

  lemma PrefixSchedule(msgs: seq<Message>, l: Limits, arrivals: seq<Arrival>, n: nat)
    requires Sendable(msgs, l) && Schedule(msgs, l, arrivals) && n <= |arrivals|
    ensures Schedule(msgs, l, arrivals[..n])
  {
    forall q | 0 <= q < n ensures Follows(msgs, l, arrivals[..n], q) {
      assert Follows(msgs, l, arrivals, q);
      assert arrivals[..n][..q] == arrivals[..q];
    }
  }

  // The states a reassembler passes through and the answers it gives.
  datatype Trace = Trace(states: seq<State>, outcomes: seq<Outcome>)

  ghost predicate IsRun(t: Trace, l: Limits, msgs: seq<Message>, arrivals: seq<Arrival>)
    requires l.Supported() && Sendable(msgs, l) && Schedule(msgs, l, arrivals)
  {
    && |t.states| == |arrivals| + 1 && |t.outcomes| == |arrivals|
    && forall q :: 0 <= q < |arrivals| ==> IsStep(t, l, msgs, arrivals, q)
  }

  ghost predicate IsStep(t: Trace, l: Limits, msgs: seq<Message>, arrivals: seq<Arrival>, q: nat)
    requires l.Supported() && Sendable(msgs, l) && Schedule(msgs, l, arrivals)
    requires q < |arrivals| && |t.states| == |arrivals| + 1 && |t.outcomes| == |arrivals|
  {
    assert Follows(msgs, l, arrivals, q);
    (t.states[q + 1], t.outcomes[q]) == Add(t.states[q], l, Wire(msgs, l, arrivals[q]), arrivals[q].at)
  }

  // The whole message when the fragment that arrives is its last one, otherwise nothing yet.
  ghost function Expected(msgs: seq<Message>, l: Limits, arrivals: seq<Arrival>, q: nat): Outcome
    requires Sendable(msgs, l) && Schedule(msgs, l, arrivals) && q < |arrivals|
  {
    var a := arrivals[q];
    assert Follows(msgs, l, arrivals, q);
    if Whole(msgs[a.m], Got(arrivals[..q], a.m) + {a.i}) then Delivered(msgs[a.m].payload) else Pending
  }

  // Room for one more part of a flow, once expired flows are gone.
  predicate HasRoom(s: State, l: Limits, key: FlowKey, more: nat) {
    (key in s.flows || |s.flows| < l.maxFlows) && s.bytes + more <= l.maxBytes
  }

  ghost predicate RoomAt(t: Trace, l: Limits, msgs: seq<Message>, arrivals: seq<Arrival>, q: nat)
    requires Sendable(msgs, l) && Schedule(msgs, l, arrivals) && q < |arrivals| < |t.states|
  {
    var a := arrivals[q];
    assert Follows(msgs, l, arrivals, q);
    HasRoom(Expire(t.states[q], l, a.at), l, Key(msgs[a.m]), |msgs[a.m].Parts()[a.i]|)
  }

  ghost predicate NeverOverBudget(t: Trace, l: Limits, msgs: seq<Message>, arrivals: seq<Arrival>)
    requires Sendable(msgs, l) && Schedule(msgs, l, arrivals) && |t.states| == |arrivals| + 1
  {
    forall q :: 0 <= q < |arrivals| ==> RoomAt(t, l, msgs, arrivals, q)
  }

  // No message has been seen before.
  ghost predicate Unseen(s: State, msgs: seq<Message>) {
    forall m :: 0 <= m < |msgs| ==> Key(msgs[m]) !in s.flows && Key(msgs[m]) !in s.replay.completed
  }

  // ---------- what the state holds for each message ----------

  ghost function Stored(m: Message, got: set<nat>): map<nat, seq<byte>>
    requires m.mtu > HEADER_BYTES
  {
    map i | i in got && i < |m.Parts()| :: m.Parts()[i]
  }

  // Nothing before the first fragment and after the last, and in between
  // exactly the parts that have arrived.
  ghost predicate TracksOne(s: State, m: Message, past: seq<Arrival>, n: nat)
    requires m.mtu > HEADER_BYTES
  {
    var got, key := Got(past, n), Key(m);
    && (got == {} || Whole(m, got) ==> key !in s.flows)
    && (!Whole(m, got) ==> key !in s.replay.completed)
    && (got != {} && !Whole(m, got) ==>
          && key in s.flows
          && s.flows[key].created == FirstAt(past, n)
          && s.flows[key].count == |m.Parts()|
          && s.flows[key].parts == Stored(m, got))
  }

  ghost predicate Tracks(s: State, l: Limits, msgs: seq<Message>, past: seq<Arrival>)
    requires Sendable(msgs, l)
  {
    forall m :: 0 <= m < |msgs| ==> TracksOne(s, msgs[m], past, m)
  }

  lemma ExpireKeepsTracks(s: State, l: Limits, msgs: seq<Message>, past: seq<Arrival>, a: Arrival)
    requires Sendable(msgs, l) && Valid(s, l) && Tracks(s, l, msgs, past) && MayFollow(msgs, l, past, a)
    ensures Tracks(Expire(s, l, a.at), l, msgs, past)
  {
    ExpiryIsExact(s.replay, a.at, l.timeout);
    forall m | 0 <= m < |msgs| ensures TracksOne(Expire(s, l, a.at), msgs[m], past, m) {
      assert TracksOne(s, msgs[m], past, m);
    }
  }

  lemma GotStep(past: seq<Arrival>, a: Arrival, m: nat)
    ensures Got(past + [a], m) == Got(past, m) + if a.m == m then {a.i} else {}
    ensures Got(past, m) != {} ==> FirstAt(past + [a], m) == FirstAt(past, m)
    ensures Got(past, m) == {} && a.m == m ==> FirstAt(past + [a], m) == a.at
  {
    assert (past + [a])[..|past|] == past;
  }

  // The flow that the next fragment of a tracked message meets.
  lemma FlowMet(s: State, l: Limits, msgs: seq<Message>, past: seq<Arrival>, a: Arrival, h: Header)
    requires Sendable(msgs, l) && Tracks(s, l, msgs, past) && MayFollow(msgs, l, past, a)
    requires h == HeaderAt(msgs[a.m], a.i, |msgs[a.m].Parts()|)
    ensures var f := FlowFor(s, h, a.at);
            && KeyOf(h) == Key(msgs[a.m]) && KeyOf(h) !in s.replay.completed
            && f.count == h.count && f.parts == Stored(msgs[a.m], Got(past, a.m)) && h.index !in f.parts
            && f.created == (if Got(past, a.m) == {} then a.at else FirstAt(past, a.m))
  {
    var m := msgs[a.m];
    assert TracksOne(s, m, past, a.m);
    assert !Whole(m, Got(past, a.m));
    if Got(past, a.m) == {} {
      assert Stored(m, {}) == map[];
    }
  }

  lemma GrownStored(m: Message, got: set<nat>, i: nat)
    requires m.mtu > HEADER_BYTES && i < |m.Parts()|
    ensures Stored(m, got)[i := m.Parts()[i]] == Stored(m, got + {i})
  {
  }

  lemma WholeMeansStored(m: Message, got: set<nat>)
    requires m.mtu > HEADER_BYTES
    ensures Whole(m, got) <==> forall i: nat :: i < |m.Parts()| ==> i in Stored(m, got)
  {
    forall i: nat | i < |m.Parts()| ensures i in Stored(m, got) <==> i in got {
    }
  }

  // Storing or delivering one message leaves every other message as it was.
  lemma OthersKept(s: State, s': State, m: Message, n: Message, grown: Flow, full: bool,
                   past: seq<Arrival>, a: Arrival, k: nat)
    requires n.mtu > HEADER_BYTES && Stores(s, s', Key(m), grown, full)
    requires Key(n) != Key(m) && k != a.m && TracksOne(s, n, past, k)
    ensures TracksOne(s', n, past + [a], k)
  {
    GotStep(past, a, k);
  }

  lemma OwnKept(s: State, s': State, m: Message, grown: Flow, past: seq<Arrival>, a: Arrival)
    requires m.mtu > HEADER_BYTES && TracksOne(s, m, past, a.m) && !Whole(m, Got(past, a.m))
    requires Stores(s, s', Key(m), grown, Whole(m, Got(past, a.m) + {a.i}))
    requires grown.count == |m.Parts()| && grown.parts == Stored(m, Got(past, a.m) + {a.i})
    requires grown.created == (if Got(past, a.m) == {} then a.at else FirstAt(past, a.m))
    ensures TracksOne(s', m, past + [a], a.m)
  {
    GotStep(past, a, a.m);
  }

  // One arrival: the state goes on tracking every message, and the answer is
  // the expected one.
  lemma ArrivalStep(s: State, l: Limits, msgs: seq<Message>, past: seq<Arrival>, a: Arrival)
    requires l.Supported() && Sendable(msgs, l)
    requires Valid(s, l) && Tracks(s, l, msgs, past) && MayFollow(msgs, l, past, a)
    requires HasRoom(s, l, Key(msgs[a.m]), |msgs[a.m].Parts()[a.i]|)
    ensures var m := msgs[a.m];
            var (s', o) := Accept(s, l, HeaderAt(m, a.i, |m.Parts()|), m.Parts()[a.i], a.at);
            && o == (if Whole(m, Got(past, a.m) + {a.i}) then Delivered(m.payload) else Pending)
            && Tracks(s', l, msgs, past + [a])
  {
    var m := msgs[a.m];
    var h, part := HeaderAt(m, a.i, |m.Parts()|), m.Parts()[a.i];
    var got := Got(past, a.m) + {a.i};
    FlowMet(s, l, msgs, past, a, h);
    GrownStored(m, Got(past, a.m), a.i);
    AcceptStores(s, l, h, part, a.at);
    WholeMeansStored(m, got);
    var grown := Extend(FlowFor(s, h, a.at), h.index, part);
    var (s', o) := Accept(s, l, h, part, a.at);
    if Whole(m, got) {
      PartsJoin(m, grown.parts);
    }
    forall n | 0 <= n < |msgs| ensures TracksOne(s', msgs[n], past + [a], n) {
      assert TracksOne(s, msgs[n], past, n);
      if n == a.m {
        OwnKept(s, s', m, grown, past, a);
      } else {
        assert Key(msgs[n]) != Key(m);
        OthersKept(s, s', m, msgs[n], grown, Whole(m, got), past, a, n);
      }
    }
  }

  lemma AddStep(s: State, l: Limits, msgs: seq<Message>, past: seq<Arrival>, a: Arrival)
    requires l.Supported() && Sendable(msgs, l)
    requires Valid(s, l) && Tracks(s, l, msgs, past) && MayFollow(msgs, l, past, a)
    requires HasRoom(Expire(s, l, a.at), l, Key(msgs[a.m]), |msgs[a.m].Parts()[a.i]|)
    ensures var (s', o) := Add(s, l, Wire(msgs, l, a), a.at);
            && o == (if Whole(msgs[a.m], Got(past, a.m) + {a.i}) then Delivered(msgs[a.m].payload) else Pending)
            && Valid(s', l) && Tracks(s', l, msgs, past + [a])
  {
    FragmentDecodes(msgs[a.m], a.i, l.maxPayload);
    ExpireKeepsValid(s, l, a.at);
    ExpireKeepsTracks(s, l, msgs, past, a);
    ArrivalStep(Expire(s, l, a.at), l, msgs, past, a);
    AddKeepsValid(s, l, Wire(msgs, l, a), a.at);
  }

  lemma NothingTracked(s: State, l: Limits, msgs: seq<Message>)
    requires Sendable(msgs, l) && Unseen(s, msgs)
    ensures Tracks(s, l, msgs, [])
  {
  }

  lemma {:induction false} RunTracks(t: Trace, l: Limits, msgs: seq<Message>, arrivals: seq<Arrival>, n: nat)
    requires l.Supported() && Sendable(msgs, l) && Schedule(msgs, l, arrivals) && n <= |arrivals|
    requires IsRun(t, l, msgs, arrivals) && NeverOverBudget(t, l, msgs, arrivals)
    requires Valid(t.states[0], l) && Unseen(t.states[0], msgs)
    ensures Valid(t.states[n], l) && Tracks(t.states[n], l, msgs, arrivals[..n])
  {
    if n == 0 {
      NothingTracked(t.states[0], l, msgs);
    } else {
      RunTracks(t, l, msgs, arrivals, n - 1);
      RunStep(t, l, msgs, arrivals, n - 1);
    }
  }

  lemma RunStep(t: Trace, l: Limits, msgs: seq<Message>, arrivals: seq<Arrival>, q: nat)
    requires l.Supported() && Sendable(msgs, l) && Schedule(msgs, l, arrivals) && q < |arrivals|
    requires IsRun(t, l, msgs, arrivals) && NeverOverBudget(t, l, msgs, arrivals)
    requires Valid(t.states[q], l) && Tracks(t.states[q], l, msgs, arrivals[..q])
    ensures Valid(t.states[q + 1], l) && Tracks(t.states[q + 1], l, msgs, arrivals[..q + 1])
    ensures t.outcomes[q] == Expected(msgs, l, arrivals, q)
  {
    var past, a := arrivals[..q], arrivals[q];
    assert arrivals[..q + 1] == past + [a];
    assert Follows(msgs, l, arrivals, q);
    assert RoomAt(t, l, msgs, arrivals, q);
    AddStep(t.states[q], l, msgs, past, a);
    assert IsStep(t, l, msgs, arrivals, q);
  }

  // Messages with fresh, distinct keys, fed fragment by fragment in any
  // interleaving and order, within the timeout and the budgets: no Add fails,
  // and each message comes out whole exactly when its last fragment arrives.
  lemma DeliveredWhenComplete(t: Trace, l: Limits, msgs: seq<Message>, arrivals: seq<Arrival>, q: nat)
    requires l.Supported() && Sendable(msgs, l) && Schedule(msgs, l, arrivals) && q < |arrivals|
    requires IsRun(t, l, msgs, arrivals) && NeverOverBudget(t, l, msgs, arrivals)
    requires Valid(t.states[0], l) && Unseen(t.states[0], msgs)
    ensures t.outcomes[q] == Expected(msgs, l, arrivals, q)
  {
    RunTracks(t, l, msgs, arrivals, q);
    RunStep(t, l, msgs, arrivals, q);
  }

  lemma {:induction false} GotGrows(arrivals: seq<Arrival>, p: nat, q: nat, m: nat)
    requires p <= q <= |arrivals|
    ensures Got(arrivals[..p], m) <= Got(arrivals[..q], m)
    decreases q - p
  {
    if p < q {
      GotGrows(arrivals, p, q - 1, m);
      assert arrivals[..q] == arrivals[..q - 1] + [arrivals[q - 1]];
      GotStep(arrivals[..q - 1], arrivals[q - 1], m);
    }
  }

  lemma ExpectedOnce(msgs: seq<Message>, l: Limits, arrivals: seq<Arrival>, p: nat, q: nat)
    requires Sendable(msgs, l) && Schedule(msgs, l, arrivals) && p < q < |arrivals|
    requires arrivals[p].m == arrivals[q].m
    ensures Expected(msgs, l, arrivals, p) == Pending
  {
    var m, missing := arrivals[p].m, arrivals[q].i;
    assert Follows(msgs, l, arrivals, q);
    assert missing !in Got(arrivals[..p], m) + {arrivals[p].i} by {
      GotGrows(arrivals, p + 1, q, m);
      assert arrivals[..p + 1] == arrivals[..p] + [arrivals[p]];
      GotStep(arrivals[..p], arrivals[p], m);
    }
    assert !Whole(msgs[m], Got(arrivals[..p], m) + {arrivals[p].i});
  }

  lemma ExpectedPrefix(msgs: seq<Message>, l: Limits, arrivals: seq<Arrival>, n: nat, q: nat)
    requires Sendable(msgs, l) && Schedule(msgs, l, arrivals) && q < n <= |arrivals|
    ensures Schedule(msgs, l, arrivals[..n])
    ensures Expected(msgs, l, arrivals[..n], q) == Expected(msgs, l, arrivals, q)
  {
    PrefixSchedule(msgs, l, arrivals, n);
    assert arrivals[..n][..q] == arrivals[..q];
  }

  lemma {:induction false} ExpectedEventually(msgs: seq<Message>, l: Limits, arrivals: seq<Arrival>, m: nat) returns (q: nat)
    requires Sendable(msgs, l) && Schedule(msgs, l, arrivals) && m < |msgs|
    requires Whole(msgs[m], Got(arrivals, m))
    ensures q < |arrivals| && arrivals[q].m == m
    ensures Expected(msgs, l, arrivals, q) == Delivered(msgs[m].payload)
  {
    assert 0 in Got(arrivals, m);
    var n := |arrivals| - 1;
    var before := Got(arrivals[..n], m);
    if Whole(msgs[m], before) {
      PrefixSchedule(msgs, l, arrivals, n);
      q := ExpectedEventually(msgs, l, arrivals[..n], m);
      ExpectedPrefix(msgs, l, arrivals, n, q);
    } else {
      q := n;
    }
  }

  // Every run that feeds fresh messages within the timeout and the budgets.
  ghost predicate Feeds(t: Trace, l: Limits, msgs: seq<Message>, arrivals: seq<Arrival>)
    requires l.Supported() && Sendable(msgs, l) && Schedule(msgs, l, arrivals)
  {
    && IsRun(t, l, msgs, arrivals) && NeverOverBudget(t, l, msgs, arrivals)
    && Valid(t.states[0], l) && Unseen(t.states[0], msgs)
  }

  // No message is handed out twice: an arrival before another of the same
  // message is answered with nothing.
  lemma DeliveredOnce(t: Trace, l: Limits, msgs: seq<Message>, arrivals: seq<Arrival>, p: nat, q: nat)
    requires l.Supported() && Sendable(msgs, l) && Schedule(msgs, l, arrivals) && Feeds(t, l, msgs, arrivals)
    requires p < q < |arrivals| && arrivals[p].m == arrivals[q].m
    ensures t.outcomes[p] == Pending
  {
    DeliveredWhenComplete(t, l, msgs, arrivals, p);
    ExpectedOnce(msgs, l, arrivals, p, q);
  }

  // A message all of whose fragments arrive is handed out at exactly one of
  // them, with its payload.
  lemma DeliveredEventually(t: Trace, l: Limits, msgs: seq<Message>, arrivals: seq<Arrival>, m: nat) returns (q: nat)
    requires l.Supported() && Sendable(msgs, l) && Schedule(msgs, l, arrivals) && Feeds(t, l, msgs, arrivals)
    requires m < |msgs| && Whole(msgs[m], Got(arrivals, m))
    ensures q < |arrivals| && arrivals[q].m == m && t.outcomes[q] == Delivered(msgs[m].payload)
    ensures forall p :: 0 <= p < |arrivals| && p != q && arrivals[p].m == m ==> t.outcomes[p] == Pending
  {
    q := ExpectedEventually(msgs, l, arrivals, m);
    DeliveredWhenComplete(t, l, msgs, arrivals, q);
    forall p | 0 <= p < |arrivals| && p != q && arrivals[p].m == m ensures t.outcomes[p] == Pending {
      if p < q {
        DeliveredOnce(t, l, msgs, arrivals, p, q);
      } else {
        DeliveredOnce(t, l, msgs, arrivals, q, p);
      }
    }
  }

  // ---------- budgets that can be checked beforehand ----------

  ghost function Octets(msgs: seq<Message>, l: Limits, arrivals: seq<Arrival>): nat
    requires Sendable(msgs, l) && Schedule(msgs, l, arrivals)
  {
    if arrivals == [] then 0
    else
      var n := |arrivals| - 1;
      PrefixSchedule(msgs, l, arrivals, n);
      assert Follows(msgs, l, arrivals, n);
      Octets(msgs, l, arrivals[..n]) + |msgs[arrivals[n].m].Parts()[arrivals[n].i]|
  }

  ghost function Keys(msgs: seq<Message>): (keys: set<FlowKey>)
    ensures |keys| <= |msgs|
    ensures forall m :: 0 <= m < |msgs| ==> Key(msgs[m]) in keys
  {
    if msgs == [] then {} else Keys(msgs[..|msgs| - 1]) + {Key(msgs[|msgs| - 1])}
  }

  lemma {:induction false} OctetsGrow(msgs: seq<Message>, l: Limits, arrivals: seq<Arrival>, n: nat)
    requires Sendable(msgs, l) && Schedule(msgs, l, arrivals) && n <= |arrivals|
    ensures Schedule(msgs, l, arrivals[..n]) && Octets(msgs, l, arrivals[..n]) <= Octets(msgs, l, arrivals)
    decreases |arrivals|
  {
    PrefixSchedule(msgs, l, arrivals, n);
    if n < |arrivals| {
      var k := |arrivals| - 1;
      PrefixSchedule(msgs, l, arrivals, k);
      OctetsGrow(msgs, l, arrivals[..k], n);
      assert arrivals[..k][..n] == arrivals[..n];
    } else {
      assert arrivals[..n] == arrivals;
    }
  }

  lemma AcceptBounds(s: State, l: Limits, h: Header, payload: seq<byte>, now: int)
    requires l.Supported()
    ensures var s' := Accept(s, l, h, payload, now).0;
            s'.flows.Keys <= s.flows.Keys + {KeyOf(h)} && s'.bytes <= s.bytes + |payload|
  {
  }

  // One Add opens at most the flow of its own key and stores at most its own octets.
  lemma AddBounds(t: Trace, l: Limits, msgs: seq<Message>, arrivals: seq<Arrival>, q: nat)
    requires l.Supported() && Sendable(msgs, l) && Schedule(msgs, l, arrivals) && q < |arrivals|
    requires IsRun(t, l, msgs, arrivals) && Valid(t.states[q], l)
    ensures Follows(msgs, l, arrivals, q) && Valid(t.states[q + 1], l)
    ensures var a := arrivals[q];
            && t.states[q + 1].flows.Keys <= t.states[q].flows.Keys + {Key(msgs[a.m])}
            && t.states[q + 1].bytes <= t.states[q].bytes + |msgs[a.m].Parts()[a.i]|
  {
    var s, a := t.states[q], arrivals[q];
    assert Follows(msgs, l, arrivals, q);
    AddKeepsValid(s, l, Wire(msgs, l, a), a.at);
    FragmentDecodes(msgs[a.m], a.i, l.maxPayload);
    ExpireKeepsFlows(s, l, a.at);
    AcceptBounds(Expire(s, l, a.at), l, HeaderAt(msgs[a.m], a.i, |msgs[a.m].Parts()|), msgs[a.m].Parts()[a.i], a.at);
    assert IsStep(t, l, msgs, arrivals, q);
  }

  ghost predicate Bounded(t: Trace, l: Limits, msgs: seq<Message>, arrivals: seq<Arrival>, n: nat)
    requires Sendable(msgs, l) && Schedule(msgs, l, arrivals) && n <= |arrivals| < |t.states|
  {
    PrefixSchedule(msgs, l, arrivals, n);
    && Valid(t.states[n], l)
    && t.states[n].flows.Keys <= t.states[0].flows.Keys + Keys(msgs)
    && t.states[n].bytes <= t.states[0].bytes + Octets(msgs, l, arrivals[..n])
  }

  lemma {:induction false} RunBounds(t: Trace, l: Limits, msgs: seq<Message>, arrivals: seq<Arrival>, n: nat)
    requires l.Supported() && Sendable(msgs, l) && Schedule(msgs, l, arrivals) && n <= |arrivals|
    requires IsRun(t, l, msgs, arrivals) && Valid(t.states[0], l)
    ensures Bounded(t, l, msgs, arrivals, n)
  {
    PrefixSchedule(msgs, l, arrivals, n);
    if n > 0 {
      var q := n - 1;
      RunBounds(t, l, msgs, arrivals, q);
      AddBounds(t, l, msgs, arrivals, q);
      OctetsStep(msgs, l, arrivals, q);
      assert Key(msgs[arrivals[q].m]) in Keys(msgs);
    }
  }

  lemma OctetsStep(msgs: seq<Message>, l: Limits, arrivals: seq<Arrival>, q: nat)
    requires Sendable(msgs, l) && Schedule(msgs, l, arrivals) && q < |arrivals|
    ensures Follows(msgs, l, arrivals, q)
    ensures Schedule(msgs, l, arrivals[..q]) && Schedule(msgs, l, arrivals[..q + 1])
    ensures Octets(msgs, l, arrivals[..q + 1])
            == Octets(msgs, l, arrivals[..q]) + |msgs[arrivals[q].m].Parts()[arrivals[q].i]|
  {
    PrefixSchedule(msgs, l, arrivals, q);
    PrefixSchedule(msgs, l, arrivals, q + 1);
    assert arrivals[..q + 1][..q] == arrivals[..q];
  }

  lemma RoomBeforehand(s: State, first: State, l: Limits, msgs: seq<Message>, key: FlowKey, more: nat, total: nat, now: int)
    requires Valid(s, l) && key in Keys(msgs)
    requires s.flows.Keys <= first.flows.Keys + Keys(msgs) && |first.flows| + |msgs| <= l.maxFlows
    requires s.bytes <= first.bytes + total && first.bytes + total + more <= l.maxBytes
    ensures HasRoom(Expire(s, l, now), l, key, more)
  {
    var e := Expire(s, l, now);
    ExpireKeepsFlows(s, l, now);
    if key !in e.flows {
      var others := Keys(msgs) - {key};
      assert |others| == |Keys(msgs)| - 1;
      SubsetSize(e.flows.Keys, first.flows.Keys + others);
      assert |first.flows.Keys + others| <= |first.flows.Keys| + |others|;
    }
  }

  // The same, when the messages fit beside what is already stored: enough flow
  // slots for all of them and enough octets for everything that arrives.
  lemma DeliveredWithinBudgets(t: Trace, l: Limits, msgs: seq<Message>, arrivals: seq<Arrival>, q: nat)
    requires l.Supported() && Sendable(msgs, l) && Schedule(msgs, l, arrivals) && q < |arrivals|
    requires IsRun(t, l, msgs, arrivals) && Valid(t.states[0], l) && Unseen(t.states[0], msgs)
    requires |t.states[0].flows| + |msgs| <= l.maxFlows
    requires t.states[0].bytes + Octets(msgs, l, arrivals) <= l.maxBytes
    ensures t.outcomes[q] == Expected(msgs, l, arrivals, q)
  {
    forall n | 0 <= n < |arrivals| ensures RoomAt(t, l, msgs, arrivals, n) {
      RunBounds(t, l, msgs, arrivals, n);
      OctetsGrow(msgs, l, arrivals, n + 1);
      OctetsStep(msgs, l, arrivals, n);
      var a := arrivals[n];
      RoomBeforehand(t.states[n], t.states[0], l, msgs, Key(msgs[a.m]), |msgs[a.m].Parts()[a.i]|,
                     Octets(msgs, l, arrivals[..n]), a.at);
    }
    DeliveredWhenComplete(t, l, msgs, arrivals, q);
  }
}
