/** Whole runs of the camouflage reassembler. */
module CamouflageRuns {
  import opened Bytes
  import opened Sums
  import opened Mask
  import opened Fragmentation
  import opened Camouflage
  import opened CamouflageReassembly

  datatype Arrival = Arrival(source: string, body: seq<byte>, now: int)

  // A run: the states before and after each arrival, and what each returned.
  datatype Run = Run(arrivals: seq<Arrival>, trace: seq<State>, outs: seq<Option<seq<byte>>>) {
    ghost predicate Valid(o: Options) {
      |trace| == |arrivals| + 1 && |outs| == |arrivals| && forall j: nat :: j < |arrivals| ==> StepAt(o, j)
    }

    ghost predicate StepAt(o: Options, j: nat)
      requires j < |arrivals| && |trace| == |arrivals| + 1 && |outs| == |arrivals|
    {
      Accept(o, trace[j], arrivals[j].source, arrivals[j].body, arrivals[j].now) == (trace[j + 1], outs[j])
    }
  }

  // Every state of every run from a fresh start keeps the invariants, and with
  // them the bound on stored octets.
  lemma {:induction false} RunKeepsValid(o: Options, run: Run, j: nat)
    requires o.Supported() && run.Valid(o) && run.trace[0] == FRESH && j < |run.trace|
    ensures CamouflageReassembly.Valid(o, run.trace[j])
    ensures 0 <= run.trace[j].bytes <= MAX_ENTRIES * (7 * (o.maxHandshake - OVERHEAD))
  {
    if j == 0 {
      FreshIsValid(o);
    } else {
      RunKeepsValid(o, run, j - 1);
      var a := run.arrivals[j - 1];
      assert run.StepAt(o, j - 1);
      AcceptKeepsValid(o, run.trace[j - 1], a.source, a.body, a.now);
    }
    BytesBounded(o, run.trace[j]);
  }

  // ---------- one packet among other traffic ----------

  // The arrival carries part i of the packet with this key.
  ghost predicate Carries(o: Options, a: Arrival, key: FragmentKey, parts: seq<seq<byte>>, i: nat) {
    i < |parts| && a.source == key.source && ParseFragment(o, a.body) == Some(Fragment(key.id, i, |parts|, parts[i]))
  }

  ghost predicate Foreign(o: Options, a: Arrival, key: FragmentKey) {
    var f := ParseFragment(o, a.body);
    f.Some? ==> FragmentKey(a.source, f.value.id) != key
  }

  ghost predicate NonEmpty(parts: seq<seq<byte>>) {
    forall p :: p in parts ==> p != []
  }

  ghost predicate Holds(slots: Slots, parts: seq<seq<byte>>, seen: set<nat>) {
    |slots| == |parts| && forall i: nat :: i < |parts| ==> slots[i] == if i in seen then Some(parts[i]) else None
  }

  // The state holds exactly the parts seen so far.
  ghost predicate Tracks(s: State, key: FragmentKey, parts: seq<seq<byte>>, seen: set<nat>, deadline: int) {
    if seen == {} then key !in s.parts
    else key in s.parts && s.parts[key].total == |parts| && s.parts[key].deadline == deadline && Holds(s.parts[key].slots, parts, seen)
  }

  lemma ForeignStep(o: Options, s: State, a: Arrival, key: FragmentKey, parts: seq<seq<byte>>, seen: set<nat>, deadline: int)
    requires Tracks(s, key, parts, seen, deadline) && Foreign(o, a, key) && (seen != {} ==> a.now < deadline)
    ensures Tracks(Accept(o, s, a.source, a.body, a.now).0, key, parts, seen, deadline)
  {
    var f := ParseFragment(o, a.body);
    if f.Some? {
      var e, other := Evict(s, a.now), FragmentKey(a.source, f.value.id);
      assert Tracks(e, key, parts, seen, deadline);
      if other in e.parts || !NoRoom(e, a.source, |f.value.payload|) {
        ForeignStore(Opened(e, other, f.value.total, a.now), other, f.value, key, parts, seen, deadline);
      }
    }
  }

  lemma ForeignStore(s: State, other: FragmentKey, f: Fragment, key: FragmentKey, parts: seq<seq<byte>>, seen: set<nat>, deadline: int)
    requires other in s.parts && f.index < f.total && other != key && Tracks(s, key, parts, seen, deadline)
    ensures Tracks(StorePart(s, other, f).0, key, parts, seen, deadline)
  {
  }

  // Storing one more part of the packet.
  lemma OwnStore(s: State, key: FragmentKey, parts: seq<seq<byte>>, i: nat, seen: set<nat>)
    requires key in s.parts && s.parts[key].total == |parts| && Holds(s.parts[key].slots, parts, seen)
    requires i < |parts| && seen < Below(|parts|) && NonEmpty(parts)
    ensures var (s', out) := StorePart(s, key, Fragment(key.id, i, |parts|, parts[i]));
            if seen + {i} == Below(|parts|) then out == Some(Flatten(parts)) && key !in s'.parts
            else out == None && key in s'.parts && s'.parts[key].total == |parts| && s'.parts[key].deadline == s.parts[key].deadline
                 && Holds(s'.parts[key].slots, parts, seen + {i})
  {
    var a := s.parts[key];
    if i in seen {
      assert seen + {i} == seen;
    } else {
      HeldMore(a.slots, parts, i, seen);
      FlattenNotEmpty(parts);
    }
  }

  // With one more part the slots are complete exactly when all have been seen.
  lemma HeldMore(slots: Slots, parts: seq<seq<byte>>, i: nat, seen: set<nat>)
    requires Holds(slots, parts, seen) && i < |parts| && seen <= Below(|parts|)
    ensures var more := slots[i := Some(parts[i])];
            && Holds(more, parts, seen + {i}) && (Complete(more) <==> seen + {i} == Below(|parts|))
            && (Complete(more) ==> JoinSlots(more) == Flatten(parts))
  {
    var more := slots[i := Some(parts[i])];
    assert Holds(more, parts, seen + {i});
    HeldComplete(more, parts, seen + {i});
  }

  lemma HeldComplete(slots: Slots, parts: seq<seq<byte>>, seen: set<nat>)
    requires Holds(slots, parts, seen) && seen <= Below(|parts|)
    ensures Complete(slots) <==> seen == Below(|parts|)
    ensures Complete(slots) ==> JoinSlots(slots) == Flatten(parts)
  {
    if Complete(slots) {
      forall k: nat | k < |parts| ensures k in seen {
        assert slots[k].Some?;
      }
      SlotsJoin(slots, parts, |parts|);
      assert parts[..|parts|] == parts && slots[..|parts|] == slots;
    }
  }

  lemma FlattenNotEmpty(parts: seq<seq<byte>>)
    requires parts != [] && NonEmpty(parts)
    ensures Flatten(parts) != []
  {
    assert parts[0] in parts;
  }

  lemma {:induction false} SlotsJoin(slots: Slots, parts: seq<seq<byte>>, n: nat)
    requires n <= |parts| == |slots| && forall i: nat :: i < |parts| ==> slots[i] == Some(parts[i])
    ensures Complete(slots[..n]) && JoinSlots(slots[..n]) == Flatten(parts[..n])
  {
    if n > 0 {
      SlotsJoin(slots, parts, n - 1);
      assert slots[..n][..n - 1] == slots[..n - 1];
      assert parts[..n] == parts[..n - 1] + [parts[n - 1]];
      FlattenAppend(parts[..n - 1], parts[n - 1]);
    }
  }

  // One arrival of the packet's own parts, new or repeated.
  lemma OwnStep(o: Options, s: State, a: Arrival, key: FragmentKey, parts: seq<seq<byte>>, i: nat, seen: set<nat>, deadline: int)
    requires Tracks(s, key, parts, seen, deadline) && Carries(o, a, key, parts, i)
    requires seen < Below(|parts|) && NonEmpty(parts)
    requires if seen == {} then deadline == a.now + TTL && !NoRoom(Evict(s, a.now), a.source, |parts[i]|) else a.now < deadline
    ensures var (s', out) := Accept(o, s, a.source, a.body, a.now);
            if seen + {i} == Below(|parts|) then out == Some(Flatten(parts)) && key !in s'.parts
            else out == None && Tracks(s', key, parts, seen + {i}, deadline)
  {
    var e := Evict(s, a.now);
    var open := Opened(e, key, |parts|, a.now);
    assert key in open.parts && open.parts[key].deadline == deadline;
    assert Holds(open.parts[key].slots, parts, seen);
    OwnStore(open, key, parts, i, seen);
  }

  // The indices that have arrived before arrival j.
  ghost function Seen(indices: seq<Option<nat>>, j: nat): set<nat>
    requires j <= |indices|
  {
    if j == 0 then {} else Seen(indices, j - 1) + Index(indices[j - 1])
  }

  ghost predicate Labelled(o: Options, a: Arrival, key: FragmentKey, parts: seq<seq<byte>>, index: Option<nat>) {
    if index.Some? then Carries(o, a, key, parts, index.value) else Foreign(o, a, key)
  }

  ghost predicate LabelledAt(o: Options, arrivals: seq<Arrival>, key: FragmentKey, parts: seq<seq<byte>>, indices: seq<Option<nat>>, j: nat)
    requires j < |arrivals| && j < |indices|
  {
    Labelled(o, arrivals[j], key, parts, indices[j])
  }

  ghost predicate InTime(arrivals: seq<Arrival>, first: nat, j: nat)
    requires first < |arrivals| && j < |arrivals|
  {
    arrivals[j].now < arrivals[first].now + TTL
  }

  // One packet's parts among other traffic. Arrival j carries part indices[j],
  // or has nothing to do with the packet; the first part arrives at first, where
  // it is admitted, and everything after it arrives within the time allowed.
  ghost predicate Scheduled(o: Options, run: Run, key: FragmentKey, parts: seq<seq<byte>>, indices: seq<Option<nat>>, first: nat) {
    && run.Valid(o) && |indices| == |run.arrivals| && first < |indices| && indices[first].Some? && indices[first].value < |parts|
    && NonEmpty(parts) && key !in run.trace[0].parts
    && (forall j: nat :: j < |indices| ==> LabelledAt(o, run.arrivals, key, parts, indices, j))
    && (forall j :: 0 <= j < first ==> indices[j].None?)
    && (forall j: nat :: first < j < |indices| ==> InTime(run.arrivals, first, j))
    && !NoRoom(Evict(run.trace[first], run.arrivals[first].now), key.source, |parts[indices[first].value]|)
  }

  lemma {:induction false} NothingSeen(indices: seq<Option<nat>>, first: nat, j: nat)
    requires first < |indices| && indices[first].Some? && j <= |indices| && forall k :: 0 <= k < first ==> indices[k].None?
    ensures Seen(indices, j) == {} <==> j <= first
  {
    if j > 0 {
      NothingSeen(indices, first, j - 1);
    }
  }

  lemma {:induction false} SeenBelow(o: Options, run: Run, key: FragmentKey, parts: seq<seq<byte>>, indices: seq<Option<nat>>, first: nat, j: nat)
    requires Scheduled(o, run, key, parts, indices, first) && j <= |indices|
    ensures Seen(indices, j) <= Below(|parts|)
  {
    if j > 0 {
      SeenBelow(o, run, key, parts, indices, first, j - 1);
      assert LabelledAt(o, run.arrivals, key, parts, indices, j - 1);
      assert Index(indices[j - 1]) <= Below(|parts|);
    }
  }

  lemma StillMissing(o: Options, run: Run, key: FragmentKey, parts: seq<seq<byte>>, indices: seq<Option<nat>>, first: nat, j: nat)
    requires Scheduled(o, run, key, parts, indices, first) && 0 < j <= |indices| && Seen(indices, j) != Below(|parts|)
    ensures Seen(indices, j - 1) < Below(|parts|)
  {
    SeenBelow(o, run, key, parts, indices, first, j - 1);
    SeenBelow(o, run, key, parts, indices, first, j);
    assert Seen(indices, j - 1) <= Seen(indices, j);
  }

  // Until the packet is complete, the reassembler holds exactly the parts that
  // have arrived, whatever their order and repetition.
  ghost predicate Held(run: Run, key: FragmentKey, parts: seq<seq<byte>>, indices: seq<Option<nat>>, first: nat, j: nat)
    requires j < |run.trace| && j <= |indices| && first < |run.arrivals|
  {
    Seen(indices, j) == Below(|parts|) || Tracks(run.trace[j], key, parts, Seen(indices, j), run.arrivals[first].now + TTL)
  }

  lemma {:induction false} PartsAreHeld(
    o: Options, run: Run, key: FragmentKey, parts: seq<seq<byte>>, indices: seq<Option<nat>>, first: nat, j: nat)
    requires Scheduled(o, run, key, parts, indices, first) && j <= |indices|
    ensures Held(run, key, parts, indices, first, j)
    decreases j
  {
    if j == 0 {
      HeldAtStart(o, run, key, parts, indices, first);
    } else {
      PartsAreHeld(o, run, key, parts, indices, first, j - 1);
      HeldNext(o, run, key, parts, indices, first, j - 1, j);
    }
  }

  ghost predicate After(s: State, out: Option<seq<byte>>, key: FragmentKey, parts: seq<seq<byte>>, index: Option<nat>, seen: set<nat>, deadline: int) {
    if seen == Below(|parts|) then index.Some? ==> out == Some(Flatten(parts))
    else Tracks(s, key, parts, seen, deadline) && (index.Some? ==> out == None)
  }

  ghost function Index(index: Option<nat>): set<nat> { if index.Some? then {index.value} else {} }

  // An arrival finds the assembly in time, or opens it with room to spare.
  ghost predicate Admitted(s: State, a: Arrival, index: Option<nat>, parts: seq<seq<byte>>, seen: set<nat>, deadline: int) {
    if seen != {} then a.now < deadline
    else index.Some? && index.value < |parts| ==>
           deadline == a.now + TTL && !NoRoom(Evict(s, a.now), a.source, |parts[index.value]|)
  }

  lemma Arrives(o: Options, s: State, a: Arrival, key: FragmentKey, parts: seq<seq<byte>>, index: Option<nat>, seen: set<nat>, deadline: int)
    requires Labelled(o, a, key, parts, index) && Tracks(s, key, parts, seen, deadline) && Admitted(s, a, index, parts, seen, deadline)
    requires seen < Below(|parts|) && NonEmpty(parts)
    ensures var (s', out) := Accept(o, s, a.source, a.body, a.now); After(s', out, key, parts, index, seen + Index(index), deadline)
  {
    if index.Some? {
      OwnStep(o, s, a, key, parts, index.value, seen, deadline);
    } else {
      ForeignStep(o, s, a, key, parts, seen, deadline);
      assert seen + Index(index) == seen;
    }
  }

  lemma IsAdmitted(o: Options, run: Run, key: FragmentKey, parts: seq<seq<byte>>, indices: seq<Option<nat>>, first: nat, j: nat)
    requires Scheduled(o, run, key, parts, indices, first) && j < |indices|
    ensures Admitted(run.trace[j], run.arrivals[j], indices[j], parts, Seen(indices, j), run.arrivals[first].now + TTL)
  {
    NothingSeen(indices, first, j);
    assert LabelledAt(o, run.arrivals, key, parts, indices, j);
    assert j > first ==> InTime(run.arrivals, first, j);
  }

  lemma OneArrival(o: Options, run: Run, key: FragmentKey, parts: seq<seq<byte>>, indices: seq<Option<nat>>, first: nat, j: nat)
    requires Scheduled(o, run, key, parts, indices, first) && j < |indices| && Seen(indices, j) < Below(|parts|)
    requires Tracks(run.trace[j], key, parts, Seen(indices, j), run.arrivals[first].now + TTL)
    ensures After(run.trace[j + 1], run.outs[j], key, parts, indices[j], Seen(indices, j + 1), run.arrivals[first].now + TTL)
  {
    assert run.StepAt(o, j) && LabelledAt(o, run.arrivals, key, parts, indices, j);
    IsAdmitted(o, run, key, parts, indices, first, j);
    Arrives(o, run.trace[j], run.arrivals[j], key, parts, indices[j], Seen(indices, j), run.arrivals[first].now + TTL);
  }

  lemma HeldAtStart(o: Options, run: Run, key: FragmentKey, parts: seq<seq<byte>>, indices: seq<Option<nat>>, first: nat)
    requires Scheduled(o, run, key, parts, indices, first)
    ensures Held(run, key, parts, indices, first, 0)
  {
  }

  lemma HeldNext(o: Options, run: Run, key: FragmentKey, parts: seq<seq<byte>>, indices: seq<Option<nat>>, first: nat, j: nat, next: nat)
    requires Scheduled(o, run, key, parts, indices, first) && j < |indices| && next == j + 1 && Held(run, key, parts, indices, first, j)
    ensures Held(run, key, parts, indices, first, next)
  {
    if Seen(indices, next) != Below(|parts|) {
      StillMissing(o, run, key, parts, indices, first, next);
      OneArrival(o, run, key, parts, indices, first, j);
    }
  }

  lemma PartsReturnWhenComplete(
    o: Options, run: Run, key: FragmentKey, parts: seq<seq<byte>>, indices: seq<Option<nat>>, first: nat, j: nat)
    requires Scheduled(o, run, key, parts, indices, first) && j < |indices| && indices[j].Some? && Seen(indices, j) != Below(|parts|)
    ensures run.outs[j] == if Seen(indices, j + 1) == Below(|parts|) then Some(Flatten(parts)) else None
  {
    SeenBelow(o, run, key, parts, indices, first, j);
    PartsAreHeld(o, run, key, parts, indices, first, j);
    OneArrival(o, run, key, parts, indices, first, j);
  }

  // A packet cut by the sender comes back exactly when the last of its parts
  // arrives, in any order, with any repetitions before that, among any traffic.
  lemma PacketReturnsWhenComplete(
    o: Options, run: Run, key: FragmentKey, packet: seq<byte>, size: nat, indices: seq<Option<nat>>, first: nat, j: nat)
    requires o.Supported() && 0 < size == o.maxFragment - OVERHEAD
    requires Scheduled(o, run, key, Cut(packet, size), indices, first) && j < |indices| && indices[j].Some?
    requires Seen(indices, j) != Below(|Cut(packet, size)|)
    ensures run.outs[j] == if Seen(indices, j + 1) == Below(|Cut(packet, size)|) then Some(packet) else None
  {
    PartsReturnWhenComplete(o, run, key, Cut(packet, size), indices, first, j);
    CutFlattens(packet, size);
  }
}
