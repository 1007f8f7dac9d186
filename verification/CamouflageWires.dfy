/** From one end to the other: what is sent for a packet, received in any order,
    gives the packet back. */
module CamouflageWires {
  import opened Bytes
  import opened Sums
  import opened Mask
  import opened Fragmentation
  import opened Camouflage
  import opened CamouflageReassembly
  import opened CamouflageRuns

  datatype WireArrival = WireArrival(source: string, wire: seq<byte>, now: int, room: nat)

  // The receiving end: the keys it knows and its options.
  datatype Receiver = Receiver(o: Options, hash: Hash, keys: seq<Key>) {
    ghost function Receive(s: State, w: WireArrival): (State, Option<seq<byte>>) {
      match Decode(hash, keys, w.wire, w.room)
      case Nothing => (s, None)
      case Payload(payload) => (s, Some(payload))
      case Part(body) => Accept(o, s, w.source, body, w.now)
    }

    // The fragment body that a wire packet carries, if any.
    function BodyOf(w: WireArrival): seq<byte> {
      var content := Decode(hash, keys, w.wire, w.room);
      if content.Part? then content.body else []
    }

    function Body(w: WireArrival): Arrival { Arrival(w.source, BodyOf(w), w.now) }
  }

  datatype WireRun = WireRun(arrivals: seq<WireArrival>, trace: seq<State>, outs: seq<Option<seq<byte>>>) {
    ghost predicate Valid(r: Receiver) {
      |trace| == |arrivals| + 1 && |outs| == |arrivals| && forall j: nat :: j < |arrivals| ==> StepAt(r, j)
    }

    ghost predicate StepAt(r: Receiver, j: nat)
      requires j < |arrivals| && |trace| == |arrivals| + 1 && |outs| == |arrivals|
    {
      r.Receive(trace[j], arrivals[j]) == (trace[j + 1], outs[j])
    }
  }

  // ---------- the same run, as fragment bodies ----------

  ghost function Bodies(r: Receiver, run: WireRun): Run
    requires |run.outs| == |run.arrivals|
  {
    Run(seq(|run.arrivals|, j requires 0 <= j < |run.arrivals| => r.Body(run.arrivals[j])), run.trace,
        seq(|run.arrivals|, j requires 0 <= j < |run.arrivals| => PartOut(r, run, j)))
  }

  ghost function PartOut(r: Receiver, run: WireRun, j: nat): Option<seq<byte>>
    requires |run.outs| == |run.arrivals| && j < |run.arrivals|
  {
    var w := run.arrivals[j];
    if Decode(r.hash, r.keys, w.wire, w.room).Part? then run.outs[j] else None
  }

  lemma NoBodyNoChange(o: Options, s: State, source: string, now: int)
    ensures Accept(o, s, source, [], now) == (s, None)
  {
  }

  lemma BodyStep(r: Receiver, run: WireRun, j: nat)
    requires run.Valid(r) && j < |run.arrivals|
    ensures Bodies(r, run).StepAt(r.o, j)
  {
    assert run.StepAt(r, j);
    var w := run.arrivals[j];
    NoBodyNoChange(r.o, run.trace[j], w.source, w.now);
  }

  lemma BodiesAreRun(r: Receiver, run: WireRun)
    requires run.Valid(r)
    ensures Bodies(r, run).Valid(r.o)
  {
    forall j: nat | j < |run.arrivals| ensures Bodies(r, run).StepAt(r.o, j) {
      BodyStep(r, run, j);
    }
  }

  // ---------- one packet, sent and received ----------

  // A packet as one sender sends it.
  datatype Sending = Sending(o: Options, hash: Hash, key: Key, id: u16, packet: seq<byte>, draws: nat -> Draw) {
    ghost predicate Fragmented() {
      o.Supported() && o.maxFragment > OVERHEAD && 2 <= |Cut(packet, o.maxFragment - OVERHEAD)| <= MAX_COUNT
    }

    function Parts(): seq<seq<byte>>
      requires o.maxFragment > OVERHEAD
    {
      Cut(packet, o.maxFragment - OVERHEAD)
    }

    ghost predicate KnownTo(r: Receiver)
      requires Fragmented()
    {
      r.o == o && r.hash == hash
      && forall i: nat :: i < |Parts()| ==> Recognised(hash, r.keys, key, draws(i).salt, FragmentBody(o, id, i, |Parts()|, Parts()[i], draws(i)))
    }

    // The i-th packet that was sent.
    ghost predicate Sent(i: nat, wire: seq<byte>) {
      var sent := Send(o, hash, key, id, packet, draws);
      sent.Ok? && i < |sent.value| && wire == sent.value[i]
    }
  }

  // Arrival j is the packet indices[j] of the sending, from one source, or a
  // packet that carries no fragment of that source and identifier.
  ghost predicate WireLabelled(r: Receiver, p: Sending, source: string, w: WireArrival, index: Option<nat>) {
    if index.Some? then w.source == source && p.Sent(index.value, w.wire)
    else Foreign(r.o, r.Body(w), FragmentKey(source, p.id))
  }

  // The first of the packets is admitted, and the others arrive in time.
  ghost predicate Transmitted(r: Receiver, p: Sending, source: string, run: WireRun, indices: seq<Option<nat>>, first: nat)
    requires p.Fragmented()
  {
    && run.Valid(r) && |indices| == |run.arrivals| && first < |indices| && indices[first].Some?
    && indices[first].value < |p.Parts()| && FragmentKey(source, p.id) !in run.trace[0].parts
    && (forall j :: 0 <= j < |indices| ==> WireLabelled(r, p, source, run.arrivals[j], indices[j]))
    && (forall j :: 0 <= j < first ==> indices[j].None?)
    && (forall j :: first < j < |indices| ==> run.arrivals[j].now < run.arrivals[first].now + TTL)
    && !NoRoom(Evict(run.trace[first], run.arrivals[first].now), source, |p.Parts()[indices[first].value]|)
  }

  lemma SentCarries(r: Receiver, p: Sending, w: WireArrival, i: nat)
    requires p.Fragmented() && p.KnownTo(r) && p.Sent(i, w.wire)
    ensures i < |p.Parts()| && Decode(r.hash, r.keys, w.wire, w.room).Part?
    ensures Carries(r.o, r.Body(w), FragmentKey(w.source, p.id), p.Parts(), i)
  {
    FragmentsFit(p.o, p.hash, p.key, p.id, p.packet, p.draws, 0);
    FragmentReadsBack(p.o, p.hash, r.keys, p.key, p.id, p.packet, p.draws, i, w.room);
  }

  lemma PartsNonEmpty(p: Sending)
    requires p.Fragmented()
    ensures NonEmpty(p.Parts())
  {
    forall part | part in p.Parts() ensures part != [] {
      var i :| 0 <= i < |p.Parts()| && p.Parts()[i] == part;
      PartNotEmpty(p.packet, p.o.maxFragment - OVERHEAD, i);
    }
  }

  lemma BodiesAreScheduled(r: Receiver, p: Sending, source: string, run: WireRun, indices: seq<Option<nat>>, first: nat)
    requires p.Fragmented() && p.KnownTo(r) && Transmitted(r, p, source, run, indices, first)
    ensures Scheduled(r.o, Bodies(r, run), FragmentKey(source, p.id), p.Parts(), indices, first)
  {
    var bodies, key := Bodies(r, run), FragmentKey(source, p.id);
    BodiesAreRun(r, run);
    PartsNonEmpty(p);
    forall j: nat | j < |indices| ensures LabelledAt(r.o, bodies.arrivals, key, p.Parts(), indices, j) {
      assert WireLabelled(r, p, source, run.arrivals[j], indices[j]);
      if indices[j].Some? {
        SentCarries(r, p, run.arrivals[j], indices[j].value);
      }
    }
    forall j: nat | first < j < |indices| ensures InTime(bodies.arrivals, first, j) {
      assert run.arrivals[j].now < run.arrivals[first].now + TTL;
    }
  }

  // Whatever else arrives, the packets sent for a handshake packet, received in
  // any order and repeated before they are complete, return it exactly when the
  // last of them arrives, and nothing before.
  lemma SentPacketReturns(r: Receiver, p: Sending, source: string, run: WireRun, indices: seq<Option<nat>>, first: nat, j: nat)
    requires p.Fragmented() && p.KnownTo(r) && Transmitted(r, p, source, run, indices, first)
    requires j < |indices| && indices[j].Some? && Seen(indices, j) != Below(|p.Parts()|)
    ensures run.outs[j] == if Seen(indices, j + 1) == Below(|p.Parts()|) then Some(p.packet) else None
  {
    BodiesAreScheduled(r, p, source, run, indices, first);
    OwnOut(r, p, source, run, indices, first, j);
    ReturnedAs(r, p, FragmentKey(source, p.id), Bodies(r, run), indices, first, j);
  }

  lemma OwnOut(r: Receiver, p: Sending, source: string, run: WireRun, indices: seq<Option<nat>>, first: nat, j: nat)
    requires p.Fragmented() && p.KnownTo(r) && Transmitted(r, p, source, run, indices, first) && j < |indices| && indices[j].Some?
    ensures Bodies(r, run).outs[j] == run.outs[j]
  {
    assert WireLabelled(r, p, source, run.arrivals[j], indices[j]);
    SentCarries(r, p, run.arrivals[j], indices[j].value);
  }

  lemma ReturnedAs(r: Receiver, p: Sending, key: FragmentKey, bodies: Run, indices: seq<Option<nat>>, first: nat, j: nat)
    requires p.Fragmented() && r.o == p.o && Scheduled(r.o, bodies, key, p.Parts(), indices, first)
    requires j < |indices| && indices[j].Some? && Seen(indices, j) != Below(|p.Parts()|)
    ensures bodies.outs[j] == if Seen(indices, j + 1) == Below(|p.Parts()|) then Some(p.packet) else None
  {
    PacketReturnsWhenComplete(r.o, bodies, key, p.packet, p.o.maxFragment - OVERHEAD, indices, first, j);
  }

  // A packet that needs no fragments is sent as one data packet, and returned at
  // once when it fits the destination.
  lemma SmallPacketReturns(r: Receiver, p: Sending, s: State, w: WireArrival)
    requires p.o.Supported() && p.o.maxFragment > OVERHEAD && |p.Parts()| < 2 && r.hash == p.hash
    requires Recognised(p.hash, r.keys, p.key, p.draws(0).salt, DataBody(p.packet)) && p.Sent(0, w.wire)
    ensures r.Receive(s, w) == (s, if |p.packet| <= w.room then Some(p.packet) else None)
  {
    DataRoundTrip(p.hash, r.keys, p.key, p.draws(0).salt, p.packet, w.room);
  }
}
