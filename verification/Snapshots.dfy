/** Desired snapshots: one generation per node, over every run of resource
    edits, spec deletions and materialisations, and on every control stream. */
module Snapshots {
  import opened Bytes
  import opened Domain
  import opened Store

  // ---------- materialised content ----------

  // What a node is told: its spec, the assignments it takes part in with their
  // port rows, and their services.
  datatype Content = Content(
    spec: Spec, rows: map<string, Row>, ports: map<string, seq<PortRow>>, services: map<string, Service>)

  function RowsFor(db: Tables, node: string, gateway: bool): map<string, Row> {
    map id | id in db.assignments && (if gateway then db.assignments[id].gatewayID else db.assignments[id].agentID) == node :: db.assignments[id]
  }

  predicate Uses(rows: map<string, Row>, service: string) {
    exists id :: id in rows && service in rows[id].services
  }

  function Materialise(db: Tables, node: string): Option<Content> {
    if node !in db.nodes || node !in db.specs then None
    else
      var spec := db.specs[node].value;
      var rows := RowsFor(db, node, spec.GatewayRole?);
      Some(Content(spec, rows, map id | id in rows && id in db.bindings :: db.bindings[id],
                   map s | s in db.services && (if spec.GatewayRole? then Uses(rows, s) else db.services[s].value.agentID == node) ::
                     db.services[s].value))
  }

  // A node with a spec is told of exactly the assignments it takes part in on the
  // side its spec gives it, as they are stored with their port rows, and of the
  // services they hold, or for an agent of all its services.
  lemma ToldExactly(db: Tables, node: string)
    ensures Materialise(db, node).Some? <==> node in db.nodes && node in db.specs
    ensures Materialise(db, node).Some? ==>
              var c, gateway := Materialise(db, node).value, db.specs[node].value.GatewayRole?;
              && c.spec == db.specs[node].value
              && (forall id :: id in c.rows <==>
                                 id in db.assignments && node == if gateway then db.assignments[id].gatewayID else db.assignments[id].agentID)
              && (forall id :: id in c.rows ==> c.rows[id] == db.assignments[id])
              && (forall id :: id in c.ports <==> id in c.rows && id in db.bindings)
              && (forall id :: id in c.ports ==> c.ports[id] == db.bindings[id])
              && (forall s :: s in c.services <==>
                                && s in db.services
                                && if gateway then exists id :: id in c.rows && s in c.rows[id].services
                                   else db.services[s].value.agentID == node)
              && (forall s :: s in c.services ==> c.services[s] == db.services[s].value)
  {
  }

  // ---------- generations ----------

  // The largest generation among some assignments, zero if there are none.
  ghost function Top(rows: map<string, Row>): (top: nat)
    ensures forall id :: id in rows ==> rows[id].generation <= top
    ensures top == 0 || exists id :: id in rows && rows[id].generation == top
    decreases |rows|
  {
    if rows == map[] then 0
    else
      var id :| id in rows;
      var rest := Top(rows - {id});
      assert forall x :: x in rows ==> x == id || x in rows - {id};
      if rows[id].generation > rest then rows[id].generation else rest
  }

  // The empty content stands for a node whose spec has been deleted.
  datatype Record = Record(generation: nat, content: Option<Content>, checksum: string)

  type Table = map<string, Record>

  // The checksum of a snapshot; it covers the generation.
  type Checksum = (Option<Content>, nat) -> string

  ghost predicate Injective(sum: Checksum) {
    forall c, g, c', g' :: sum(c, g) == sum(c', g') ==> c == c' && g == g'
  }

  function Sealed(sum: Checksum, content: Option<Content>, generation: nat): Record {
    Record(generation, content, sum(content, generation))
  }

  datatype Failure = Missing | Conflict | GenerationExhausted

  function Max(a: nat, b: nat): nat { if a > b then a else b }

  function Previous(table: Table, node: string): Option<Record> {
    if node in table then Some(table[node]) else None
  }

  // The candidate for some content: the previous generation if nothing has
  // changed, otherwise a later one that covers every assignment.
  function Candidate(sum: Checksum, content: Content, top: nat, previous: Option<Record>): Result<Record, Failure> {
    var first := if previous.Some? then Max(top, previous.value.generation) else if top == 0 then 1 else top;
    var candidate := Sealed(sum, Some(content), first);
    if previous.None? || previous.value.checksum == candidate.checksum then Ok(candidate)
    else if previous.value.generation >= MAX_STORED then Err(GenerationExhausted)
    else Ok(Sealed(sum, Some(content), Max(first, previous.value.generation + 1)))
  }

  // The conditional write of a snapshot row.
  function Save(table: Table, node: string, r: Record): Result<Table, Failure> {
    if r.generation > MAX_STORED then Err(GenerationExhausted)
    else if node !in table || r.generation > table[node].generation then Ok(table[node := r])
    else if r.generation == table[node].generation && r.checksum == table[node].checksum then Ok(table)
    else Err(Conflict)
  }

  ghost function Ensure(sum: Checksum, db: Tables, table: Table, node: string): Result<Table, Failure> {
    var content := Materialise(db, node);
    if content.Some? then
      var candidate := Candidate(sum, content.value, Top(content.value.rows), Previous(table, node));
      if candidate.Err? then Err(candidate.error) else Save(table, node, candidate.value)
    else if node !in table then Err(Missing)
    else if table[node].content.None? then Ok(table)
    else if table[node].generation >= MAX_STORED then Err(GenerationExhausted)
    else Save(table, node, Sealed(sum, None, table[node].generation + 1))
  }

  // The empty snapshot that a spec deletion leaves in the same transaction.
  function Clear(sum: Checksum, table: Table, node: string): Result<Table, Failure> {
    if node !in table then Ok(table[node := Sealed(sum, None, 1)])
    else if table[node].generation >= MAX_STORED then Err(GenerationExhausted)
    else Ok(table[node := Sealed(sum, None, table[node].generation + 1)])
  }

  // ---------- the loop over assignments ----------

  method HighestGeneration(rows: map<string, Row>) returns (top: nat)
    ensures top == Top(rows)
  {
    top := 0;
    var todo := rows.Keys;
    while todo != {}
      invariant todo <= rows.Keys
      invariant forall id :: id in rows && id !in todo ==> rows[id].generation <= top
      invariant top == 0 || exists id :: id in rows && rows[id].generation == top
      decreases |todo|
    {
      var id :| id in todo;
      if rows[id].generation > top {
        top := rows[id].generation;
      }
      todo := todo - {id};
    }
  }

  method BuildDesiredSnapshot(sum: Checksum, db: Tables, table: Table, node: string) returns (r: Result<Record, Failure>)
    ensures var content := Materialise(db, node);
            r == if content.None? then Err(Missing)
                 else Candidate(sum, content.value, Top(content.value.rows), Previous(table, node))
  {
    var content := Materialise(db, node);
    if content.None? {
      return Err(Missing);
    }
    var generation := HighestGeneration(content.value.rows);
    var previous := Previous(table, node);
    if previous.Some? {
      if previous.value.generation > generation {
        generation := previous.value.generation;
      }
    } else if generation == 0 {
      generation := 1;
    }
    var candidate := Sealed(sum, content, generation);
    if previous.Some? && previous.value.checksum == candidate.checksum {
      return Ok(candidate);
    }
    if previous.Some? {
      if previous.value.generation >= MAX_STORED {
        return Err(GenerationExhausted);
      }
      if generation < previous.value.generation + 1 {
        generation := previous.value.generation + 1;
      }
      candidate := Sealed(sum, content, generation);
    }
    return Ok(candidate);
  }

  method EnsureDesiredSnapshot(sum: Checksum, db: Tables, table: Table, node: string) returns (r: Result<Table, Failure>)
    ensures r == Ensure(sum, db, table, node)
  {
    var built := BuildDesiredSnapshot(sum, db, table, node);
    if built.Ok? {
      return Save(table, node, built.value);
    }
    if Materialise(db, node).Some? || node !in table {
      return Err(built.error);
    }
    if table[node].content.None? {
      return Ok(table);
    }
    if table[node].generation >= MAX_STORED {
      return Err(GenerationExhausted);
    }
    r := Save(table, node, Sealed(sum, None, table[node].generation + 1));
  }

  // ---------- what every step keeps ----------

  // A stored generation covers every assignment in its snapshot.
  ghost predicate Covers(r: Record) {
    r.content.Some? ==> forall id :: id in r.content.value.rows ==> r.content.value.rows[id].generation <= r.generation
  }

  ghost predicate RecordFine(sum: Checksum, r: Record) {
    0 < r.generation <= MAX_STORED && r.checksum == sum(r.content, r.generation) && Covers(r)
  }

  ghost predicate TableFine(sum: Checksum, table: Table) {
    forall node :: node in table ==> RecordFine(sum, table[node])
  }

  // The same content keeps its generation, and any other gets a larger one.
  ghost predicate Succeeds(before: Record, after: Record) {
    if before.content == after.content then before == after else before.generation < after.generation
  }

  lemma CandidateIs(sum: Checksum, content: Content, previous: Option<Record>)
    requires Injective(sum) && (previous.Some? ==> RecordFine(sum, previous.value))
    requires Candidate(sum, content, Top(content.rows), previous).Ok?
    ensures var r := Candidate(sum, content, Top(content.rows), previous).value;
            && r.content == Some(content) && 0 < r.generation && r.checksum == sum(r.content, r.generation) && Covers(r)
            && (previous.Some? ==> Succeeds(previous.value, r))
  {
    if previous.Some? && previous.value.content == Some(content) {
      var top := Top(content.rows);
      assert top <= previous.value.generation;
    }
  }

  // A record that follows the stored one is written, or is the stored one.
  lemma SaveStores(sum: Checksum, table: Table, node: string, r: Record)
    requires TableFine(sum, table) && r.generation > 0 && r.checksum == sum(r.content, r.generation) && Covers(r)
    requires node in table ==> Succeeds(table[node], r)
    ensures Save(table, node, r).Ok? <==> r.generation <= MAX_STORED
    ensures Save(table, node, r).Ok? ==> Save(table, node, r).value == table[node := r] && TableFine(sum, table[node := r])
    ensures Save(table, node, r).Err? ==> Save(table, node, r).error == GenerationExhausted
  {
    if node in table && table[node].content == r.content {
      assert table[node := r] == table;
    }
  }

  lemma EnsureStores(sum: Checksum, db: Tables, table: Table, node: string)
    requires Injective(sum) && TableFine(sum, table) && Ensure(sum, db, table, node).Ok?
    ensures var table' := Ensure(sum, db, table, node).value;
            && TableFine(sum, table') && table'.Keys == table.Keys + {node}
            && table'[node].content == Materialise(db, node)
            && (node in table ==> Succeeds(table[node], table'[node]))
            && forall other :: other in table && other != node ==> table'[other] == table[other]
  {
    var content := Materialise(db, node);
    if content.Some? {
      CandidateIs(sum, content.value, Previous(table, node));
      SaveStores(sum, table, node, Candidate(sum, content.value, Top(content.value.rows), Previous(table, node)).value);
    } else if table[node].content.Some? {
      SaveStores(sum, table, node, Sealed(sum, None, table[node].generation + 1));
    }
  }

  // A materialisation fails only when there is nothing to tell the node, or the
  // generations are used up; never because of a conflicting row.
  lemma EnsureFails(sum: Checksum, db: Tables, table: Table, node: string)
    requires Injective(sum) && TableFine(sum, table) && Ensure(sum, db, table, node).Err?
    ensures Ensure(sum, db, table, node).error != Conflict
    ensures Ensure(sum, db, table, node).error == Missing <==> Materialise(db, node).None? && node !in table
  {
    var content := Materialise(db, node);
    if content.Some? {
      var candidate := Candidate(sum, content.value, Top(content.value.rows), Previous(table, node));
      if candidate.Ok? {
        CandidateIs(sum, content.value, Previous(table, node));
        SaveStores(sum, table, node, candidate.value);
      }
    }
  }

  // The least generation that a node's content may take: its own while the
  // content stays, one more when it changes, and one for a first snapshot.
  ghost function Floor(db: Tables, table: Table, node: string): nat {
    if node !in table then 1
    else if table[node].content == Materialise(db, node) then table[node].generation
    else table[node].generation + 1
  }

  ghost predicate TellsRowOf(db: Tables, node: string, generation: nat) {
    Materialise(db, node).Some? && exists id :: id in Materialise(db, node).value.rows && Materialise(db, node).value.rows[id].generation == generation
  }

  // The generation stored is the least one from there on that covers every
  // assignment in the snapshot.
  lemma GenerationIsLeast(sum: Checksum, db: Tables, table: Table, node: string)
    requires Injective(sum) && TableFine(sum, table) && Ensure(sum, db, table, node).Ok?
    ensures var stored := Ensure(sum, db, table, node).value[node].generation;
            && Floor(db, table, node) <= stored <= MAX_STORED
            && (stored == Floor(db, table, node) || TellsRowOf(db, node, stored))
  {
    EnsureStores(sum, db, table, node);
    assert RecordFine(sum, Ensure(sum, db, table, node).value[node]);
    if node in table {
      assert RecordFine(sum, table[node]);
    }
  }

  // A spec deletion that commits leaves the node an empty snapshot of the next
  // generation, whatever it held, and every other node its own; it is refused
  // when there is no next generation.
  lemma DeletionClears(rules: Rules, sum: Checksum, s: State, node: string, ifMatch: int)
    ensures var e, s' := StepDeleteSpec(node, ifMatch), After(rules, sum, s, Event.Edit(StepDeleteSpec(node, ifMatch)));
            var next := if node in s.table then s.table[node].generation + 1 else 1;
            if Transaction(rules, s.db, e).Ok? && next <= MAX_STORED
            then s' == State(Transaction(rules, s.db, e).value, s.table[node := Record(next, None, sum(None, next))])
            else s' == s
  {
  }

  // ---------- runs ----------

  datatype State = State(db: Tables, table: Table)

  datatype Event = Edit(step: Step) | Materialised(node: string)

  // A spec deletion clears the node's snapshot in the same transaction.
  ghost function After(rules: Rules, sum: Checksum, s: State, e: Event): State {
    match e
    case Materialised(node) =>
      var r := Ensure(sum, s.db, s.table, node);
      if r.Ok? then s.(table := r.value) else s
    case Edit(step) =>
      var r := Transaction(rules, s.db, step);
      if r.Err? then s
      else if step.StepDeleteSpec? then
        var cleared := Clear(sum, s.table, step.node);
        if cleared.Err? then s else State(r.value, cleared.value)
      else s.(db := r.value)
  }

  lemma EventKeeps(rules: Rules, sum: Checksum, s: State, e: Event)
    requires Injective(sum) && TableFine(sum, s.table)
    ensures var table' := After(rules, sum, s, e).table;
            TableFine(sum, table') && forall node :: node in s.table ==> node in table' && Grows(s.table[node], table'[node])
  {
    match e
    case Materialised(node) =>
      if Ensure(sum, s.db, s.table, node).Ok? {
        EnsureStores(sum, s.db, s.table, node);
      }
    case Edit(step) =>
      EditKeeps(rules, sum, s, step);
  }

  lemma EditKeeps(rules: Rules, sum: Checksum, s: State, step: Step)
    requires TableFine(sum, s.table)
    ensures var table' := After(rules, sum, s, Event.Edit(step)).table;
            TableFine(sum, table') && forall node :: node in s.table ==> node in table' && Grows(s.table[node], table'[node])
  {
    if step.StepDeleteSpec? && Clear(sum, s.table, step.node).Ok? {
      ClearKeeps(sum, s.table, step.node);
    }
  }

  lemma ClearKeeps(sum: Checksum, table: Table, node: string)
    requires TableFine(sum, table) && Clear(sum, table, node).Ok?
    ensures var table' := Clear(sum, table, node).value;
            TableFine(sum, table') && forall other :: other in table ==> other in table' && Grows(table[other], table'[other])
  {
  }

  // Snapshots only move on: the same record, or a larger generation.
  ghost predicate Grows(before: Record, after: Record) {
    before == after || before.generation < after.generation
  }

  ghost predicate IsRun(rules: Rules, sum: Checksum, trace: seq<State>, events: seq<Event>) {
    |trace| == |events| + 1 && trace[0].table == map[] && forall i: nat :: i < |events| ==> StepAt(rules, sum, trace, events, i)
  }

  ghost predicate StepAt(rules: Rules, sum: Checksum, trace: seq<State>, events: seq<Event>, i: nat)
    requires i < |events| && |trace| == |events| + 1
  {
    trace[i + 1] == After(rules, sum, trace[i], events[i])
  }

  lemma {:induction false} RunKeepsTable(rules: Rules, sum: Checksum, trace: seq<State>, events: seq<Event>, i: nat)
    requires Injective(sum) && IsRun(rules, sum, trace, events) && i < |trace|
    ensures TableFine(sum, trace[i].table)
    decreases i
  {
    if i > 0 {
      RunKeepsTable(rules, sum, trace, events, i - 1);
      assert StepAt(rules, sum, trace, events, i - 1);
      EventKeeps(rules, sum, trace[i - 1], events[i - 1]);
    }
  }

  // Over every run, a node's stored generation never falls, and two different
  // snapshots of a node never share a generation.
  lemma {:induction false} GenerationsNeverFall(
    rules: Rules, sum: Checksum, trace: seq<State>, events: seq<Event>, node: string, i: nat, j: nat)
    requires Injective(sum) && IsRun(rules, sum, trace, events) && i <= j < |trace| && node in trace[i].table
    ensures node in trace[j].table && Grows(trace[i].table[node], trace[j].table[node]) && Covers(trace[j].table[node])
    decreases j
  {
    if i == j {
      RunKeepsTable(rules, sum, trace, events, j);
      assert RecordFine(sum, trace[j].table[node]);
    } else {
      GenerationsNeverFall(rules, sum, trace, events, node, i, j - 1);
      GrowsNext(rules, sum, trace, events, node, j - 1, trace[j - 1].table, trace[j].table);
    }
  }

  lemma GrowsNext(rules: Rules, sum: Checksum, trace: seq<State>, events: seq<Event>, node: string, k: nat, before: Table, after: Table)
    requires Injective(sum) && IsRun(rules, sum, trace, events) && k + 1 < |trace|
    requires before == trace[k].table && after == trace[k + 1].table && node in before
    ensures node in after && Grows(before[node], after[node]) && Covers(after[node])
  {
    RunKeepsTable(rules, sum, trace, events, k);
    assert StepAt(rules, sum, trace, events, k);
    EventKeeps(rules, sum, trace[k], events[k]);
    assert RecordFine(sum, after[node]);
  }

  // ---------- unchanged content ----------

  // A committed deletion of the node's spec while its stored snapshot is already
  // empty: a spec was put and deleted again without a materialisation between.
  ghost predicate ClearsEmpty(rules: Rules, sum: Checksum, s: State, e: Event, node: string) {
    && e.Edit? && e.step.StepDeleteSpec? && e.step.node == node && node in s.table && s.table[node].content.None?
    && Transaction(rules, s.db, e.step).Ok? && Clear(sum, s.table, node).Ok?
  }

  // Over one event a node's content keeps its record if unchanged and gets a
  // larger generation otherwise, except exactly when an empty snapshot is
  // cleared again: that takes a new generation for the same content.
  lemma KeptExactly(rules: Rules, sum: Checksum, s: State, e: Event, node: string)
    requires Injective(sum) && TableFine(sum, s.table) && node in s.table
    ensures node in After(rules, sum, s, e).table
    ensures Succeeds(s.table[node], After(rules, sum, s, e).table[node]) <==> !ClearsEmpty(rules, sum, s, e, node)
  {
    match e
    case Materialised(other) =>
      if Ensure(sum, s.db, s.table, other).Ok? {
        EnsureStores(sum, s.db, s.table, other);
      }
    case Edit(step) => EditKept(rules, sum, s, step, node);
  }

  lemma EditKept(rules: Rules, sum: Checksum, s: State, step: Step, node: string)
    requires TableFine(sum, s.table) && node in s.table
    ensures node in After(rules, sum, s, Event.Edit(step)).table
    ensures Succeeds(s.table[node], After(rules, sum, s, Event.Edit(step)).table[node])
            <==> !ClearsEmpty(rules, sum, s, Event.Edit(step), node)
  {
  }

  // The node has a snapshot throughout, always with the same content.
  ghost predicate Steady(trace: seq<State>, node: string, i: nat, j: nat)
    requires i <= j < |trace|
  {
    && (forall k :: i <= k <= j ==> node in trace[k].table)
    && forall k :: i <= k <= j ==> trace[k].table[node].content == trace[j].table[node].content
  }

  ghost predicate ClearedBetween(rules: Rules, sum: Checksum, trace: seq<State>, events: seq<Event>, node: string, i: nat, j: nat)
    requires j <= |events| <= |trace|
  {
    exists k :: i <= k < j && ClearsEmpty(rules, sum, trace[k], events[k], node)
  }

  // While a node's content does not change it keeps its record, generation and
  // all, if and only if no empty snapshot of it is cleared in between.
  lemma {:induction false} UnchangedKeepsGeneration(
    rules: Rules, sum: Checksum, trace: seq<State>, events: seq<Event>, node: string, i: nat, j: nat)
    requires Injective(sum) && IsRun(rules, sum, trace, events) && i <= j < |trace| && Steady(trace, node, i, j)
    ensures trace[i].table[node] == trace[j].table[node] <==> !ClearedBetween(rules, sum, trace, events, node, i, j)
    decreases j
  {
    if i < j {
      var k := j - 1;
      assert Steady(trace, node, i, k);
      UnchangedKeepsGeneration(rules, sum, trace, events, node, i, k);
      GenerationsNeverFall(rules, sum, trace, events, node, i, k);
      LastEvent(rules, sum, trace, events, node, k, j);
      assert ClearedBetween(rules, sum, trace, events, node, i, j) <==>
             ClearedBetween(rules, sum, trace, events, node, i, k) || ClearsEmpty(rules, sum, trace[k], events[k], node);
    }
  }

  lemma LastEvent(rules: Rules, sum: Checksum, trace: seq<State>, events: seq<Event>, node: string, k: nat, j: nat)
    requires Injective(sum) && IsRun(rules, sum, trace, events) && j == k + 1 < |trace|
    requires node in trace[k].table && node in trace[j].table && trace[k].table[node].content == trace[j].table[node].content
    ensures trace[k].table[node] == trace[j].table[node] <==> !ClearsEmpty(rules, sum, trace[k], events[k], node)
    ensures trace[k].table[node].generation <= trace[j].table[node].generation
    ensures ClearsEmpty(rules, sum, trace[k], events[k], node) ==> trace[k].table[node].generation < trace[j].table[node].generation
  {
    RunKeepsTable(rules, sum, trace, events, k);
    assert StepAt(rules, sum, trace, events, k);
    KeptExactly(rules, sum, trace[k], events[k], node);
    GenerationsNeverFall(rules, sum, trace, events, node, k, j);
  }

  // ---------- the run in which unchanged content takes a new generation ----------

  const NODE := "node"
  const ROW := NodeRow(true, CertActive, map[], 1)
  const AGENT := AgentRole(AgentSpec(NODE, "", map[]))

  ghost function Configured(revision: nat): Tables {
    EMPTY.(nodes := map[NODE := ROW], specs := map[NODE := Versioned(AGENT, revision)])
  }

  const BARE: Tables := EMPTY.(nodes := map[NODE := ROW])

  ghost function Told(): Content { Content(AGENT, map[], map[], map[]) }

  // A spec is put, materialised and deleted, then put and deleted again.
  ghost function RewriteEvents(): seq<Event> {
    [Event.Edit(StepAddNode(NODE, ROW)), Event.Edit(StepPutSpec(NODE, AGENT, 0)), Materialised(NODE),
     Event.Edit(StepDeleteSpec(NODE, 1)), Event.Edit(StepPutSpec(NODE, AGENT, 0)), Event.Edit(StepDeleteSpec(NODE, 1))]
  }

  ghost function RewriteTrace(sum: Checksum): seq<State> {
    var first, second, third :=
      map[NODE := Sealed(sum, Some(Told()), 1)], map[NODE := Sealed(sum, None, 2)], map[NODE := Sealed(sum, None, 3)];
    [State(EMPTY, map[]), State(BARE, map[]), State(Configured(1), map[]), State(Configured(1), first),
     State(BARE, second), State(Configured(1), second), State(BARE, third)]
  }

  lemma PutsAgent(rules: Rules)
    requires rules.validAgentSpec(AGENT.agent)
    ensures PutSpec(rules, BARE, NODE, AGENT, 0) == Ok(Configured(1))
  {
    assert WriteSpec(BARE, NODE, AGENT) == Configured(1);
  }

  lemma DeletesAgent()
    ensures DeleteSpec(Configured(1), NODE, 1) == Ok(BARE)
  {
    assert Configured(1).specs - {NODE} == map[];
  }

  lemma TellsAgent(sum: Checksum)
    ensures Ensure(sum, Configured(1), map[], NODE) == Ok(map[NODE := Sealed(sum, Some(Told()), 1)])
  {
    assert Materialise(Configured(1), NODE) == Some(Told());
    assert Top(map[]) == 0;
  }

  lemma RewriteSteps(rules: Rules, sum: Checksum, i: nat)
    requires rules.validAgentSpec(AGENT.agent) && i < 6
    ensures StepAt(rules, sum, RewriteTrace(sum), RewriteEvents(), i)
  {
    PutsAgent(rules);
    DeletesAgent();
    TellsAgent(sum);
  }

  // The empty snapshot of the fourth state and of the last is the same content
  // under two generations, with nothing else stored for the node in between.
  lemma EmptyContentIsRewritten(rules: Rules, sum: Checksum) returns (trace: seq<State>, events: seq<Event>)
    requires rules.validAgentSpec(AGENT.agent)
    ensures IsRun(rules, sum, trace, events) && |trace| == 7 && Steady(trace, NODE, 4, 6)
    ensures trace[4].table[NODE].content == trace[6].table[NODE].content
    ensures trace[4].table[NODE].generation != trace[6].table[NODE].generation
  {
    trace, events := RewriteTrace(sum), RewriteEvents();
    forall i: nat | i < |events| ensures StepAt(rules, sum, trace, events, i) {
      RewriteSteps(rules, sum, i);
    }
  }

  // ---------- one control stream ----------

  datatype Stream = Stream(lastSent: nat, sent: seq<nat>)

  // The first snapshot: one newer than what the node reports, or its own
  // generation again when the checksums differ.
  function Open(applied: nat, checksum: string, first: Option<Record>): Stream {
    if first.Some? && (first.value.generation > applied || (first.value.generation == applied && first.value.checksum != checksum))
    then Stream(first.value.generation, [first.value.generation])
    else Stream(applied, [])
  }

  // A later snapshot is sent only if it is newer than the last one sent.
  function Push(s: Stream, r: Record): Stream {
    if r.generation <= s.lastSent then s else Stream(r.generation, s.sent + [r.generation])
  }

  function PushAll(s: Stream, rs: seq<Record>): Stream {
    if rs == [] then s else Push(PushAll(s, rs[..|rs| - 1]), rs[|rs| - 1])
  }

  ghost predicate Ascending(sent: seq<nat>) {
    forall i, j :: 0 <= i < j < |sent| ==> sent[i] < sent[j]
  }

  // The snapshot at hand when a stream opens is sent exactly if it is newer than
  // what the node reports, or has the same generation and another checksum.
  lemma OpensExactly(applied: nat, checksum: string, first: Option<Record>)
    ensures var s := Open(applied, checksum, first);
            var due := first.Some? && (first.value.generation > applied || (first.value.generation == applied && first.value.checksum != checksum));
            s.sent == (if due then [first.value.generation] else []) && s.lastSent == (if due then first.value.generation else applied)
  {
  }

  // The generations sent on one stream are strictly increasing and never below
  // what the node reported; the newest snapshot seen has been sent or is not
  // newer than what the node has.
  lemma {:induction false} StreamAscends(applied: nat, checksum: string, first: Option<Record>, rs: seq<Record>)
    ensures var s := PushAll(Open(applied, checksum, first), rs);
            && Ascending(s.sent) && applied <= s.lastSent
            && (forall g :: g in s.sent ==> applied <= g <= s.lastSent)
            && s.lastSent == (if s.sent == [] then applied else s.sent[|s.sent| - 1])
            && (forall r :: r in rs ==> r.generation <= s.lastSent)
  {
    if rs != [] {
      var front, last := rs[..|rs| - 1], rs[|rs| - 1];
      StreamAscends(applied, checksum, first, front);
      assert rs == front + [last];
    }
  }
}
