/** What one Add answers and leaves behind, said in terms of the state before it,
    the datagram and the clock. */
module ReassemblyAnswers {
  import opened Bytes
  import opened Sums
  import opened CompletedHeap
  import opened Datagram
  import opened Reassembly

  // ---------- what has not timed out ----------

  // The flows begun less than the timeout ago.
  ghost function Young(s: State, l: Limits, now: int): map<FlowKey, Flow> {
    map k | k in s.flows && now - s.flows[k].created < l.timeout :: s.flows[k]
  }

  ghost function YoungOctets(s: State, l: Limits, now: int): int { Sum(Young(s, l, now), FlowSize) }

  // The messages finished less than the timeout ago.
  ghost function Recent(s: State, l: Limits, now: int): map<FlowKey, int> {
    map k | k in s.replay.completed && now - s.replay.completed[k] < l.timeout :: s.replay.completed[k]
  }

  // Expiry keeps exactly what is younger than the timeout, and releases the
  // octets of everything else.
  lemma ExpiryOutright(s: State, l: Limits, now: int)
    requires Valid(s, l)
    ensures var e := Expire(s, l, now);
            && e.flows == Young(s, l, now) && e.bytes == YoungOctets(s, l, now) && e.replay.completed == Recent(s, l, now)
  {
    ExpireKeepsFlows(s, l, now);
    ExpiryIsExact(s.replay, now, l.timeout);
    assert Expire(s, l, now).flows == Young(s, l, now);
  }

  // ---------- the cases ----------

  // One datagram, in a state and at a time.
  datatype Event = Event(s: State, l: Limits, h: Header, payload: seq<byte>, now: int) {
    function Key(): FlowKey { FlowKey(h.flowID, h.sequence) }

    ghost predicate Replayed() { Key() in Recent(s, l, now) }

    // A flow of this message is open, or there is a slot for one.
    ghost predicate Admitted() { Key() in Young(s, l, now) || |Young(s, l, now)| < l.maxFlows }

    // The flow to extend: the open one, or a new one that starts now.
    ghost function Own(): Flow {
      if Key() in Young(s, l, now) then Young(s, l, now)[Key()] else Flow(now, h.count, map[], 0)
    }

    ghost predicate Clashes() { Own().count != h.count || h.index in Own().parts }

    ghost predicate Overfull() { YoungOctets(s, l, now) + |payload| > l.maxBytes }

    ghost predicate Stored() { !Replayed() && Admitted() && !Clashes() && !Overfull() }

    ghost predicate Completes() { forall i: nat :: i < h.count && i != h.index ==> i in Own().parts }

    ghost function Grown(): Flow {
      Flow(Own().created, Own().count, Own().parts[h.index := payload], Own().bytes + |payload|)
    }
  }

  ghost predicate Decodes(e: Event, data: seq<byte>) {
    Valid(e.s, e.l) && e.l.Supported() && Decode(data, e.l.maxPayload) == Ok((e.h, e.payload))
  }

  // The expired state on which the datagram is then accepted.
  ghost predicate Expired(e: Event, x: State) {
    && x.flows == Young(e.s, e.l, e.now) && x.bytes == YoungOctets(e.s, e.l, e.now)
    && x.replay.completed == Recent(e.s, e.l, e.now) && Valid(x, e.l) && e.l.Supported() && e.h.index < e.h.count
  }

  lemma AddIsAccept(e: Event, data: seq<byte>) returns (x: State)
    requires Decodes(e, data)
    ensures Expired(e, x) && Add(e.s, e.l, data, e.now) == Accept(x, e.l, e.h, e.payload, e.now)
  {
    x := Expire(e.s, e.l, e.now);
    AcceptedHeaders(e.h);
    ExpireKeepsValid(e.s, e.l, e.now);
    ExpiryOutright(e.s, e.l, e.now);
  }

  lemma OwnIsFlowFor(e: Event, x: State)
    requires Expired(e, x)
    ensures KeyOf(e.h) == e.Key() && FlowFor(x, e.h, e.now) == e.Own()
    ensures Extend(FlowFor(x, e.h, e.now), e.h.index, e.payload) == e.Grown()
  {
    assert e.Own() == FlowFor(x, e.h, e.now);
  }

  lemma HolesAre(parts: map<nat, seq<byte>>, index: nat, payload: seq<byte>, n: nat)
    requires index < n
    ensures HasHole(parts[index := payload], n) <==> exists i: nat :: i < n && i != index && i !in parts
  {
    var more := parts[index := payload];
    forall i: nat ensures i in more <==> i == index || i in parts {
    }
  }

  lemma CompletesIsWhole(e: Event, x: State)
    requires Expired(e, x) && e.Stored()
    ensures |e.Grown().parts| == e.Grown().count <==> e.Completes()
    ensures HasHole(e.Grown().parts, e.h.count) <==> !e.Completes()
  {
    OwnIsFlowFor(e, x);
    HolesAre(e.Own().parts, e.h.index, e.payload, e.h.count);
    GrownFlow(x, e.l, e.h, e.payload, e.now);
  }

  // What accepting comes to, case by case.
  ghost predicate Outcomes(e: Event, x: State, s': State, o: Outcome) {
    if e.Replayed() then s' == x && o == Rejected(MalformedFrame)
    else if !e.Admitted() then s' == x && o == Rejected(Transient)
    else if e.Clashes() then s'.flows == x.flows - {e.Key()} && s'.replay == x.replay && o == Rejected(MalformedFrame)
    else if e.Overfull() then s'.flows == x.flows - {e.Key()} && s'.replay == x.replay && o == Rejected(Transient)
    else Kept(e, x, s', o)
  }

  ghost predicate Kept(e: Event, x: State, s': State, o: Outcome) {
    if !e.Completes() then s'.flows == x.flows[e.Key() := e.Grown()] && s'.replay == x.replay && o == Pending
    else && e.l.Supported() && s'.flows == x.flows - {e.Key()} && s'.replay == Remember(x.replay, e.Key(), e.now, 2 * e.l.maxFlows)
         && !HasHole(e.Grown().parts, e.h.count) && o == Delivered(Join(e.Grown().parts, e.h.count))
  }

  lemma StoredAs(e: Event, x: State)
    requires Expired(e, x) && e.Stored()
    ensures var (s', o) := StoreOrDeliver(x, e.l, e.h, e.payload, e.now); Kept(e, x, s', o)
  {
    OwnIsFlowFor(e, x);
    CompletesIsWhole(e, x);
    assert x.flows[e.Key() := e.Grown()] - {e.Key()} == x.flows - {e.Key()};
  }

  lemma AcceptedAs(e: Event, x: State)
    requires Expired(e, x)
    ensures var (s', o) := Accept(x, e.l, e.h, e.payload, e.now); Outcomes(e, x, s', o)
  {
    OwnIsFlowFor(e, x);
    if e.Stored() {
      StoredAs(e, x);
    }
  }

  // ---------- the answers ----------

  // Each refusal is given exactly in its cases, a part that completes its
  // message delivers the parts in order, and any other is kept in silence.
  lemma AnswersExactly(e: Event, data: seq<byte>)
    requires Decodes(e, data)
    ensures var o := Add(e.s, e.l, data, e.now).1;
            && (o == Rejected(MalformedFrame) <==> e.Replayed() || (e.Admitted() && e.Clashes()))
            && (o == Rejected(Transient) <==> !e.Replayed() && (!e.Admitted() || (!e.Clashes() && e.Overfull())))
            && (o.Delivered? <==> e.Stored() && e.Completes())
            && (o == Pending <==> e.Stored() && !e.Completes())
            && (o.Delivered? ==> !HasHole(e.Grown().parts, e.h.count) && o.payload == Join(e.Grown().parts, e.h.count))
  {
    var x := AddIsAccept(e, data);
    AcceptedAs(e, x);
  }

  // An undecodable datagram is refused for its own fault and changes nothing.
  lemma UndecodableIsRefused(s: State, l: Limits, data: seq<byte>, now: int)
    requires l.Supported() && Decode(data, l.maxPayload).Err?
    ensures Add(s, l, data, now) == (s, Rejected(Decode(data, l.maxPayload).error))
  {
  }

  // ---------- the state left behind ----------

  // A flow of another message is there exactly if it was and has not timed out,
  // as it was.
  lemma OthersExpireOnly(e: Event, data: seq<byte>, k: FlowKey)
    requires Decodes(e, data) && k != e.Key()
    ensures var flows := Add(e.s, e.l, data, e.now).0.flows;
            && (k in flows <==> k in e.s.flows && e.now - e.s.flows[k].created < e.l.timeout)
            && (k in flows ==> flows[k] == e.s.flows[k])
  {
    var x := AddIsAccept(e, data);
    AcceptedAs(e, x);
    var (s', o) := Accept(x, e.l, e.h, e.payload, e.now);
    OthersStay(e, x, s', o, k);
  }

  lemma OthersStay(e: Event, x: State, s': State, o: Outcome, k: FlowKey)
    requires Outcomes(e, x, s', o) && k != e.Key()
    ensures (k in s'.flows <==> k in x.flows) && (k in x.flows ==> s'.flows[k] == x.flows[k])
  {
  }

  // The message's own flow: as it was when the datagram is refused at the door,
  // gone when it clashes, does not fit or is complete, and otherwise extended;
  // one that has timed out starts anew with only this part.
  lemma OwnFlowAfter(e: Event, data: seq<byte>)
    requires Decodes(e, data)
    ensures var flows := Add(e.s, e.l, data, e.now).0.flows;
            if e.Replayed() || !e.Admitted() then
              && (e.Key() in flows <==> e.Key() in Young(e.s, e.l, e.now))
              && (e.Key() in flows ==> flows[e.Key()] == e.s.flows[e.Key()])
            else if e.Stored() && !e.Completes() then e.Key() in flows && flows[e.Key()] == e.Grown()
            else e.Key() !in flows
  {
    var x := AddIsAccept(e, data);
    AcceptedAs(e, x);
  }

  // The octet counter is what the remaining flows hold.
  lemma OctetsAfter(e: Event, data: seq<byte>)
    requires Decodes(e, data)
    ensures var s' := Add(e.s, e.l, data, e.now).0; s'.bytes == Sum(s'.flows, FlowSize)
  {
    AddKeepsValid(e.s, e.l, data, e.now);
  }

  // A delivered message is remembered as finished now, at the cost of at most
  // others; no other answer changes what is remembered beyond expiry.
  lemma MemoryAfter(e: Event, data: seq<byte>)
    requires Decodes(e, data)
    ensures var completed, recent := Add(e.s, e.l, data, e.now).0.replay.completed, Recent(e.s, e.l, e.now);
            if e.Stored() && e.Completes() then
              && e.Key() in completed && completed[e.Key()] == e.now
              && (forall k :: k in completed && k != e.Key() ==> k in recent && completed[k] == recent[k])
              && (|recent| < 2 * e.l.maxFlows ==> completed == recent[e.Key() := e.now])
            else completed == recent
  {
    var x := AddIsAccept(e, data);
    AcceptedAs(e, x);
    MakeRoomDropsOldest(x.replay, 2 * e.l.maxFlows);
  }
}
