/** When the octet cap of the camouflage reassembler is kept. It is tested only
    when an assembly is opened, and later parts are stored regardless. */
module CamouflageCap {
  import opened Bytes
  import opened Sums
  import opened Mask
  import opened Camouflage
  import opened CamouflageReassembly
  import opened CamouflageRuns

  // What the limits on entries and parts allow.
  function Reach(o: Options): int { MAX_ENTRIES * (7 * (o.maxHandshake - OVERHEAD)) }

  ghost predicate FromFresh(o: Options, run: Run) { run.Valid(o) && run.trace[0] == FRESH }

  ghost predicate CapKept(o: Options, run: Run) {
    forall j :: 0 <= j < |run.trace| ==> run.trace[j].bytes <= MAX_BYTES
  }

  // ---------- a flood of unfinished assemblies ----------

  // The smallest part size at which 128 assemblies of seven parts exceed the cap.
  const PART := 1171

  // One source for each assembly.
  function Name(b: nat): string { seq(b, _ => 'x') }

  function FloodKey(b: nat): FragmentKey { FragmentKey(Name(b), 0) }

  function Chunk(): (s: seq<byte>)
    ensures |s| == PART
  {
    seq(PART, _ => 0)
  }

  // Part i of eight, without padding.
  function FloodBody(i: nat): seq<byte> { FragmentHeader(0, i, MAX_COUNT, PART, 0) + Chunk() }

  lemma FloodParses(o: Options, i: nat)
    requires PART <= o.maxHandshake - OVERHEAD && i < MAX_COUNT
    ensures ParseFragment(o, FloodBody(i)) == Some(Fragment(0, i, MAX_COUNT, Chunk()))
  {
    HeaderFields(0, i, MAX_COUNT, PART, 0, Chunk());
    assert FloodBody(i)[FRAGMENT_HEADER..FRAGMENT_HEADER + PART] == Chunk();
  }

  // The keys of the first n assemblies.
  ghost function FloodKeys(n: nat): (s: set<FragmentKey>)
    ensures |s| == n
    ensures forall k :: k in s <==> k.id == 0 && |k.source| < n && k == FloodKey(|k.source|)
  {
    if n == 0 then {} else FloodKeys(n - 1) + {FloodKey(n - 1)}
  }

  ghost predicate Waiting(a: Assembly, i: nat) {
    a.total == MAX_COUNT && |a.slots| == MAX_COUNT && forall k :: i <= k < MAX_COUNT ==> a.slots[k].None?
  }

  // a assemblies have seven parts each, and one more has the first i parts.
  ghost predicate Flooded(o: Options, s: State, a: nat, i: nat) {
    Valid(o, s) && Shape(s, a, i)
  }

  ghost predicate Shape(s: State, a: nat, i: nat) {
    && s.bytes == PART * (7 * a + i)
    && s.parts.Keys == FloodKeys(if i > 0 then a + 1 else a)
    && (forall k :: k in s.parts ==> s.parts[k].deadline == TTL)
    && (i > 0 ==> Waiting(s.parts[FloodKey(a)], i))
  }

  lemma NothingDead(s: State)
    requires forall k :: k in s.parts ==> s.parts[k].deadline == TTL
    ensures Evict(s, 0) == s
  {
    assert Dead(s, 0) == {};
    RemovedNone(s);
  }

  lemma RoomForOne(o: Options, s: State, a: nat)
    requires Flooded(o, s, a, 0) && a < MAX_ENTRIES
    ensures FloodKey(a) !in s.parts && !NoRoom(s, Name(a), PART)
  {
    assert Count(s.sources, Name(a)) == |From(s.parts.Keys, Name(a))|;
    assert From(s.parts.Keys, Name(a)) == {};
    assert |s.parts| == |s.parts.Keys|;
  }

  lemma StoreNext(s: State, key: FragmentKey, i: nat)
    requires key in s.parts && i < 7 && Waiting(s.parts[key], i)
    ensures var (s', out) := StorePart(s, key, Fragment(0, i, MAX_COUNT, Chunk()));
            && out == None && s'.bytes == s.bytes + PART && s'.parts.Keys == s.parts.Keys
            && Waiting(s'.parts[key], i + 1)
            && forall k :: k in s.parts ==> s'.parts[k].deadline == s.parts[k].deadline
  {
    var a' := Extended(s.parts[key], i, Chunk());
    assert a'.slots[7].None?;
  }

  lemma OpenNext(o: Options, s: State, a: nat, i: nat)
    requires Flooded(o, s, a, i) && a < MAX_ENTRIES && i < 7
    ensures var open := Opened(s, FloodKey(a), MAX_COUNT, 0);
            && open.parts.Keys == FloodKeys(a + 1) && open.bytes == s.bytes && Waiting(open.parts[FloodKey(a)], i)
            && forall k :: k in open.parts ==> open.parts[k].deadline == TTL
    ensures FloodKey(a) in s.parts || !NoRoom(s, Name(a), PART)
  {
    if i == 0 {
      RoomForOne(o, s, a);
      NewAssembly(s, a);
    } else {
      assert FloodKey(a) in FloodKeys(a + 1);
    }
  }

  lemma NewAssembly(s: State, a: nat)
    requires Shape(s, a, 0) && FloodKey(a) !in s.parts
    ensures var open := Opened(s, FloodKey(a), MAX_COUNT, 0);
            && open.parts.Keys == FloodKeys(a + 1) && open.bytes == s.bytes && Waiting(open.parts[FloodKey(a)], 0)
            && forall k :: k in open.parts ==> open.parts[k].deadline == TTL
  {
    assert Opened(s, FloodKey(a), MAX_COUNT, 0).parts.Keys == s.parts.Keys + {FloodKey(a)};
  }

  lemma FloodStored(o: Options, s: State, a: nat, i: nat)
    requires PART <= o.maxHandshake - OVERHEAD && Flooded(o, s, a, i) && a < MAX_ENTRIES && i < 7
    ensures Accept(o, s, Name(a), FloodBody(i), 0)
            == StorePart(Opened(s, FloodKey(a), MAX_COUNT, 0), FloodKey(a), Fragment(0, i, MAX_COUNT, Chunk()))
  {
    FloodParses(o, i);
    NothingDead(s);
    OpenNext(o, s, a, i);
  }

  lemma FloodStep(o: Options, s: State, a: nat, i: nat)
    requires PART <= o.maxHandshake - OVERHEAD && Flooded(o, s, a, i) && a < MAX_ENTRIES && i < 7
    ensures var (s', out) := Accept(o, s, Name(a), FloodBody(i), 0); out == None && Flooded(o, s', a, i + 1)
  {
    AcceptKeepsValid(o, s, Name(a), FloodBody(i), 0);
    FloodStored(o, s, a, i);
    FloodShape(o, s, a, i);
  }

  lemma FloodShape(o: Options, s: State, a: nat, i: nat)
    requires Flooded(o, s, a, i) && a < MAX_ENTRIES && i < 7
    ensures var (s', out) := StorePart(Opened(s, FloodKey(a), MAX_COUNT, 0), FloodKey(a), Fragment(0, i, MAX_COUNT, Chunk()));
            out == None && Shape(s', a, i + 1)
  {
    OpenNext(o, s, a, i);
    StoreNext(Opened(s, FloodKey(a), MAX_COUNT, 0), FloodKey(a), i);
  }

  lemma NextAssembly(o: Options, s: State, a: nat)
    requires Flooded(o, s, a, 7)
    ensures Flooded(o, s, a + 1, 0)
  {
  }

  function Extend(run: Run, a: Arrival, s: State, out: Option<seq<byte>>): Run {
    Run(run.arrivals + [a], run.trace + [s], run.outs + [out])
  }

  // ---------- lengthening a run ----------

  type Relation = (State, Arrival, State, Option<seq<byte>>) -> bool

  // The steps of a run under any relation between states.
  ghost predicate Linked(run: Run, step: Relation) {
    && |run.trace| == |run.arrivals| + 1 && |run.outs| == |run.arrivals|
    && forall j :: 0 <= j < |run.arrivals| ==> step(run.trace[j], run.arrivals[j], run.trace[j + 1], run.outs[j])
  }

  lemma ExtendLinked(run: Run, step: Relation, a: Arrival, s: State, out: Option<seq<byte>>)
    requires Linked(run, step) && step(run.trace[|run.arrivals|], a, s, out)
    ensures Linked(Extend(run, a, s, out), step)
  {
  }

  ghost function StepBy(o: Options): Relation {
    (before: State, a: Arrival, after: State, out: Option<seq<byte>>) => Accept(o, before, a.source, a.body, a.now) == (after, out)
  }

  lemma LinkedIsValid(o: Options, run: Run)
    ensures Linked(run, StepBy(o)) <==> run.Valid(o)
  {
    if Linked(run, StepBy(o)) {
      forall j: nat | j < |run.arrivals| ensures run.StepAt(o, j) {
        assert StepBy(o)(run.trace[j], run.arrivals[j], run.trace[j + 1], run.outs[j]);
      }
    }
    if run.Valid(o) {
      forall j | 0 <= j < |run.arrivals| ensures StepBy(o)(run.trace[j], run.arrivals[j], run.trace[j + 1], run.outs[j]) {
        assert run.StepAt(o, j);
      }
    }
  }

  lemma {:induction false} Flood(o: Options, a: nat, i: nat) returns (run: Run)
    requires PART <= o.maxHandshake - OVERHEAD && a <= MAX_ENTRIES && i <= 7 && (a == MAX_ENTRIES ==> i == 0)
    ensures Linked(run, StepBy(o)) && run.trace[0] == FRESH && Flooded(o, run.trace[|run.arrivals|], a, i)
    decreases a, i
  {
    if i > 0 {
      var before := Flood(o, a, i - 1);
      var s := before.trace[|before.arrivals|];
      FloodStep(o, s, a, i - 1);
      var (s', out) := Accept(o, s, Name(a), FloodBody(i - 1), 0);
      var arrival := Arrival(Name(a), FloodBody(i - 1), 0);
      ExtendLinked(before, StepBy(o), arrival, s', out);
      run := Extend(before, arrival, s', out);
    } else if a > 0 {
      run := Flood(o, a - 1, 7);
      NextAssembly(o, run.trace[|run.arrivals|], a - 1);
    } else {
      FreshIsValid(o);
      run := Run([], [FRESH], []);
    }
  }

  // ---------- the cap ----------

  // Whenever the limits allow it, some run from a fresh start exceeds the cap.
  lemma CapExceeded(o: Options) returns (run: Run)
    requires o.Supported() && Reach(o) > MAX_BYTES
    ensures FromFresh(o, run) && run.trace[|run.arrivals|].bytes == MAX_ENTRIES * 7 * PART > MAX_BYTES
  {
    run := Flood(o, MAX_ENTRIES, 0);
    LinkedIsValid(o, run);
  }

  // The options the constructor fills in are among those.
  lemma DefaultsExceedCap() returns (o: Options, run: Run)
    ensures o == Options(512, 1200, 1280) && o.Supported()
    ensures FromFresh(o, run) && run.trace[|run.arrivals|].bytes > MAX_BYTES
  {
    o := Options(512, 1200, 1280);
    run := CapExceeded(o);
  }

  // The cap is kept in every state of every run exactly when the limits on
  // entries, parts and wire size keep it by themselves.
  lemma CapKeptExactly(o: Options)
    requires o.Supported()
    ensures (forall run :: FromFresh(o, run) ==> CapKept(o, run)) <==> Reach(o) <= MAX_BYTES
    ensures Reach(o) <= MAX_BYTES <==> o.maxHandshake <= 1204
  {
    if Reach(o) <= MAX_BYTES {
      forall run | FromFresh(o, run) ensures CapKept(o, run) {
        forall j | 0 <= j < |run.trace| ensures run.trace[j].bytes <= MAX_BYTES {
          RunKeepsValid(o, run, j);
        }
      }
    } else {
      var run := CapExceeded(o);
      assert !CapKept(o, run);
    }
  }
}
