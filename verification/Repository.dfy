/** The resource repository: the store's transactions as they are carried out,
    row by row on the transaction's view, then committed or rolled back. */
module Repositories {
  import opened Bytes
  import opened Ordering
  import opened Domain
  import opened Store
  import opened StoreInvariants

  // ---------- row-by-row edits ----------

  function EditOne(tx: Tables, id: string, e: Edit): Tables {
    tx.(assignments := tx.assignments[id := e.row], bindings := tx.bindings[id := e.ports],
        acks := if e.forget then map k | k in tx.acks && k.id != id :: tx.acks[k] else tx.acks)
  }

  // The transaction's view while the rows in todo are still to come.
  ghost function Partly(db: Tables, edits: map<string, Edit>, todo: set<string>): Tables {
    EditAll(db, edits - todo)
  }

  lemma Start(db: Tables, edits: map<string, Edit>, todo: set<string>)
    requires edits.Keys <= todo
    ensures Partly(db, edits, todo) == db && !Overflows(db, edits - todo) && !RevisionOverflows(db, edits - todo)
  {
    assert edits - todo == map[];
  }

  lemma Finish(db: Tables, edits: map<string, Edit>)
    ensures Partly(db, edits, {}) == EditAll(db, edits) && edits - {} == edits
  {
    assert edits - {} == edits;
  }

  lemma Untouched(db: Tables, edits: map<string, Edit>, todo: set<string>, id: string)
    requires id in db.assignments && id in db.bindings && id in todo
    ensures var tx := Partly(db, edits, todo);
            id in tx.assignments && id in tx.bindings && tx.assignments[id] == db.assignments[id] && tx.bindings[id] == db.bindings[id]
  {
  }

  lemma Skip(db: Tables, edits: map<string, Edit>, todo: set<string>, id: string)
    requires id in todo && id !in edits
    ensures edits - (todo - {id}) == edits - todo
  {
  }

  lemma EditStep(db: Tables, edits: map<string, Edit>, todo: set<string>, id: string)
    requires id in db.assignments && id in db.bindings && id in edits && id in todo
    ensures EditOne(Partly(db, edits, todo), id, edits[id]) == Partly(db, edits, todo - {id})
    ensures !Overflows(db, edits - todo) && (edits[id].row == db.assignments[id] || !Full(db.assignments[id])) ==>
              !Overflows(db, edits - (todo - {id}))
    ensures !RevisionOverflows(db, edits - todo) && (edits[id].row == db.assignments[id] || db.assignments[id].revision < MAX_STORED) ==>
              !RevisionOverflows(db, edits - (todo - {id}))
  {
    var some, more := edits - todo, edits - (todo - {id});
    assert more == some[id := edits[id]];
    EditMore(db, some, id, edits[id]);
  }

  lemma EditMore(db: Tables, some: map<string, Edit>, id: string, e: Edit)
    requires id in db.assignments && id in db.bindings && id !in some
    ensures EditOne(EditAll(db, some), id, e) == EditAll(db, some[id := e])
  {
    ForgetMore(db, some, id, e);
    var left, right := EditOne(EditAll(db, some), id, e), EditAll(db, some[id := e]);
    assert left.assignments == right.assignments;
    assert left.bindings == right.bindings;
  }

  lemma ForgetMore(db: Tables, some: map<string, Edit>, id: string, e: Edit)
    requires id !in some
    ensures EditOne(EditAll(db, some), id, e).acks == EditAll(db, some[id := e]).acks
  {
    forall k ensures Forgotten(some[id := e], k) <==> Forgotten(some, k) || (k.id == id && e.forget) {
    }
  }

  method BumpAssignments(db: Tables, service: string) returns (r: Result<Tables, Error>)
    requires db.bindings.Keys == db.assignments.Keys
    ensures r == Bump(db, service)
  {
    ghost var edits := BumpEdits(db, service);
    var todo := set id | id in db.assignments && service in db.assignments[id].services;
    assert todo == edits.Keys;
    var tx := db;
    Start(db, edits, todo);
    while todo != {}
      invariant todo <= edits.Keys && tx == Partly(db, edits, todo) && !Overflows(db, edits - todo)
      decreases |todo|
    {
      var id :| id in todo;
      Untouched(db, edits, todo, id);
      var row := tx.assignments[id];
      if Full(row) {
        assert edits[id].row != row;
        return Err(Exhausted);
      }
      EditStep(db, edits, todo, id);
      tx := EditOne(tx, id, Edit(Reopened(row), true, tx.bindings[id]));
      todo := todo - {id};
    }
    Finish(db, edits);
    r := Ok(tx);
  }

  method UpdateEndpoint(tx: Tables, node: string, spec: GatewaySpec, id: string, ghost db: Tables, ghost todo: set<string>)
    returns (r: Result<Tables, Error>)
    requires spec.endpoints != [] && id in db.assignments && id in db.bindings && db.assignments[id].gatewayID == node && id in todo
    requires tx == Partly(db, EndpointEdits(db, node, spec), todo) && !Overflows(db, EndpointEdits(db, node, spec) - todo)
    ensures var edits := EndpointEdits(db, node, spec);
            if r.Ok? then r.value == Partly(db, edits, todo - {id}) && !Overflows(db, edits - (todo - {id}))
            else r == Err(Exhausted) && Overflows(db, edits)
  {
    ghost var edits := EndpointEdits(db, node, spec);
    Untouched(db, edits, todo, id);
    var row := tx.assignments[id];
    var endpoint := if row.endpoint in spec.endpoints then row.endpoint else spec.endpoints[0];
    if endpoint == row.endpoint && row.policy == spec.policy {
      Skip(db, edits, todo, id);
      return Ok(tx);
    }
    if Full(row) {
      assert edits[id].row != row;
      return Err(Exhausted);
    }
    EditStep(db, edits, todo, id);
    r := Ok(EditOne(tx, id, Edit(Reopened(row).(endpoint := endpoint, policy := spec.policy), true, tx.bindings[id])));
  }

  method UpdateEndpoints(db: Tables, node: string, spec: GatewaySpec) returns (r: Result<Tables, Error>)
    requires db.bindings.Keys == db.assignments.Keys && spec.endpoints != []
    ensures var edits := EndpointEdits(db, node, spec);
            r == if Overflows(db, edits) then Err(Exhausted) else Ok(EditAll(db, edits))
  {
    ghost var edits := EndpointEdits(db, node, spec);
    var rows := set id | id in db.assignments && db.assignments[id].gatewayID == node;
    var todo, tx := rows, db;
    Start(db, edits, todo);
    while todo != {}
      invariant todo <= rows && tx == Partly(db, edits, todo) && !Overflows(db, edits - todo)
      decreases |todo|
    {
      var id :| id in todo;
      var next := UpdateEndpoint(tx, node, spec, id, db, todo);
      if next.Err? {
        return next;
      }
      tx, todo := next.value, todo - {id};
    }
    Finish(db, edits);
    r := Ok(tx);
  }

  method QuarantineAssignment(tx: Tables, node: string, id: string, ghost db: Tables, ghost todo: set<string>)
    returns (r: Result<Tables, Error>)
    requires id in db.assignments && id in db.bindings && Participant(db.assignments[id], node) && id in todo
    requires tx == Partly(db, QuarantineEdits(db, node), todo) && !RevisionOverflows(db, QuarantineEdits(db, node) - todo)
    ensures var edits := QuarantineEdits(db, node);
            if r.Ok? then r.value == Partly(db, edits, todo - {id}) && !RevisionOverflows(db, edits - (todo - {id}))
            else r == Err(Exhausted) && RevisionOverflows(db, edits)
  {
    ghost var edits := QuarantineEdits(db, node);
    Untouched(db, edits, todo, id);
    var row := tx.assignments[id];
    if row.state != Degraded {
      if row.revision >= MAX_STORED {
        assert edits[id].row != row;
        return Err(Exhausted);
      }
      row := row.(state := Degraded, revision := row.revision + 1);
    }
    EditStep(db, edits, todo, id);
    r := Ok(EditOne(tx, id, Edit(row, true, [])));
  }

  method QuarantineAssignments(db: Tables, node: string) returns (r: Result<Tables, Error>)
    requires db.bindings.Keys == db.assignments.Keys
    ensures var edits := QuarantineEdits(db, node);
            r == if RevisionOverflows(db, edits) then Err(Exhausted) else Ok(EditAll(db, edits))
  {
    ghost var edits := QuarantineEdits(db, node);
    var rows := set id | id in db.assignments && Participant(db.assignments[id], node);
    var todo, tx := rows, db;
    Start(db, edits, todo);
    while todo != {}
      invariant todo <= rows && tx == Partly(db, edits, todo) && !RevisionOverflows(db, edits - todo)
      decreases |todo|
    {
      var id :| id in todo;
      var next := QuarantineAssignment(tx, node, id, db, todo);
      if next.Err? {
        return next;
      }
      tx, todo := next.value, todo - {id};
    }
    Finish(db, edits);
    r := Ok(tx);
  }

  method WriteNodeRow(db: Tables, node: string, row: NodeRow, quarantine: bool) returns (r: Result<Tables, Error>)
    requires db.bindings.Keys == db.assignments.Keys
    ensures r == WriteNode(db, node, row, quarantine)
  {
    var written := db.(nodes := db.nodes[node := row]);
    if !quarantine {
      return Ok(written);
    }
    r := QuarantineAssignments(written, node);
  }

  method UpdateNodeTransaction(
    db: Tables, node: string, enabled: bool, certificate: Certificate, labels: Labels, ifMatch: int) returns (r: Result<Tables, Error>)
    requires db.bindings.Keys == db.assignments.Keys
    ensures r == UpdateNode(db, node, enabled, certificate, labels, ifMatch)
  {
    if ifMatch <= 0 {
      return Err(RevisionConflict);
    }
    if node !in db.nodes {
      return Err(NotFound);
    }
    var before := db.nodes[node];
    if before.revision != ifMatch {
      return Err(RevisionConflict);
    }
    if certificate == CertDecommissioned && enabled {
      return Err(Decommissioned);
    }
    if before.certificate == CertDecommissioned && (enabled || certificate != CertDecommissioned) {
      return Err(Decommissioned);
    }
    var quarantine := !enabled || certificate != CertActive;
    if !before.enabled && enabled && certificate == CertActive {
      quarantine := false;
    }
    if before.certificate == CertRevoked && certificate == CertActive {
      quarantine := true;
    }
    r := WriteNodeRow(db, node, NodeRow(enabled, certificate, labels, before.revision + 1), quarantine);
  }

  method DecommissionTransaction(db: Tables, node: string, ifMatch: int) returns (r: Result<Tables, Error>)
    requires db.bindings.Keys == db.assignments.Keys
    ensures r == DecommissionNode(db, node, ifMatch)
  {
    if node !in db.nodes {
      return Err(NotFound);
    }
    var before := db.nodes[node];
    if ifMatch <= 0 || ifMatch != before.revision {
      return Err(RevisionConflict);
    }
    if before.certificate == CertDecommissioned && !before.enabled {
      return Ok(db);
    }
    if before.revision >= MAX_STORED {
      return Err(Exhausted);
    }
    r := WriteNodeRow(db, node, before.(enabled := false, certificate := CertDecommissioned, revision := before.revision + 1), true);
  }

  // ---------- a node's report, row by row ----------

  ghost function AckedFor(db: Tables, node: string, ids: set<string>, applied: bool): map<AckKey, Ack> {
    db.acks + map id | id in ids && id in db.assignments :: AckKey(id, node) := Ack(db.assignments[id].generation, applied)
  }

  lemma AckedForIs(db: Tables, node: string, ids: set<string>, applied: bool, k: AckKey)
    ensures var acks, hit := AckedFor(db, node, ids, applied), k.node == node && k.id in ids && k.id in db.assignments;
            && (k in acks <==> hit || k in db.acks)
            && (k in acks ==> acks[k] == if hit then Ack(db.assignments[k.id].generation, applied) else db.acks[k])
  {
  }

  lemma AckedForAll(db: Tables, node: string, generation: nat, applied: bool, ids: set<string>)
    requires forall id :: id in ids <==> id in db.assignments && Concerns(db.assignments[id], node, generation)
    ensures AckedFor(db, node, ids, applied) == Acked(db, node, generation, applied)
  {
    forall k ensures (k in AckedFor(db, node, ids, applied) <==> k in Acked(db, node, generation, applied)) {
      AckedForIs(db, node, ids, applied, k);
      AckedIs(db, node, generation, applied, k);
    }
  }

  lemma AckedForMore(db: Tables, node: string, ids: set<string>, applied: bool, id: string)
    requires id in db.assignments
    ensures AckedFor(db, node, ids, applied)[AckKey(id, node) := Ack(db.assignments[id].generation, applied)]
            == AckedFor(db, node, ids + {id}, applied)
  {
  }

  // Whether an assignment is applied depends on its own acks only.
  lemma AppliedLocally(db: Tables, node: string, ids: set<string>, all: set<string>, applied: bool, id: string, row: Row)
    requires id in ids && ids <= all
    ensures ParticipantsApplied(AckedFor(db, node, ids, applied), id, row) == ParticipantsApplied(AckedFor(db, node, all, applied), id, row)
  {
    var a, b := AckedFor(db, node, ids, applied), AckedFor(db, node, all, applied);
    forall n ensures AppliedAck(a, id, n, row.generation) == AppliedAck(b, id, n, row.generation) {
      AckedForIs(db, node, ids, applied, AckKey(id, n));
      AckedForIs(db, node, all, applied, AckKey(id, n));
    }
    assert AppliedBy(a, id, row) == AppliedBy(b, id, row);
  }

  // The transaction's view while the rows in todo have not been reported on.
  ghost function Reporting(db: Tables, node: string, applied: bool, edits: map<string, Edit>, todo: set<string>): Tables {
    Partly(db.(acks := AckedFor(db, node, edits.Keys - todo, applied)), edits, todo)
  }

  lemma ReportingAcks(db: Tables, node: string, applied: bool, edits: map<string, Edit>, todo: set<string>, acks: map<AckKey, Ack>)
    requires forall d :: d in edits ==> !edits[d].forget
    ensures Reporting(db, node, applied, edits, todo).acks == AckedFor(db, node, edits.Keys - todo, applied)
    ensures Reporting(db, node, applied, edits, todo).(acks := acks) == Partly(db.(acks := acks), edits, todo)
  {
    ReplaceAcks(db.(acks := AckedFor(db, node, edits.Keys - todo, applied)), edits - todo, acks);
  }

  // Edits that forget nothing leave the acks alone.
  lemma ReplaceAcks(db: Tables, edits: map<string, Edit>, acks: map<AckKey, Ack>)
    requires forall d :: d in edits ==> !edits[d].forget
    ensures EditAll(db, edits).acks == db.acks
    ensures EditAll(db.(acks := acks), edits) == EditAll(db, edits).(acks := acks)
  {
    assert forall k :: !Forgotten(edits, k);
  }

  lemma ReportStep(db: Tables, node: string, applied: bool, edits: map<string, Edit>, todo: set<string>, id: string)
    requires id in db.assignments && id in db.bindings && id in edits && id in todo && forall d :: d in edits ==> !edits[d].forget
    ensures var tx := Reporting(db, node, applied, edits, todo);
            var acks := tx.acks[AckKey(id, node) := Ack(db.assignments[id].generation, applied)];
            && acks == AckedFor(db, node, edits.Keys - (todo - {id}), applied)
            && EditOne(tx.(acks := acks), id, edits[id]) == Reporting(db, node, applied, edits, todo - {id})
  {
    var tx := Reporting(db, node, applied, edits, todo);
    var acks := tx.acks[AckKey(id, node) := Ack(db.assignments[id].generation, applied)];
    ReportingAcks(db, node, applied, edits, todo, acks);
    AckedForMore(db, node, edits.Keys - todo, applied, id);
    assert edits.Keys - todo + {id} == edits.Keys - (todo - {id});
    EditStep(db.(acks := acks), edits, todo, id);
  }

  // The branches of one report on one assignment.
  method ReportEdit(acks: map<AckKey, Ack>, id: string, row: Row, ports: seq<PortRow>, applied: bool) returns (e: Edit)
    requires row.state != Draining
    ensures e == ResultEdit(acks, id, row, ports, applied)
  {
    if row.state == Degraded {
      return Edit(row, false, []);
    }
    if applied {
      if row.state == Applied || !ParticipantsApplied(acks, id, row) {
        return Edit(row, false, ports);
      }
      return Edit(row.(state := Applied, revision := row.revision + 1), false, ports);
    }
    e := Edit(row.(state := Degraded, revision := row.revision + 1), false, []);
  }

  lemma ReportStart(db: Tables, node: string, applied: bool, edits: map<string, Edit>, todo: set<string>)
    requires edits.Keys <= todo
    ensures Reporting(db, node, applied, edits, todo) == db && !RevisionOverflows(db, edits - todo)
  {
    assert edits - todo == map[] && edits.Keys - todo == {};
    assert AckedFor(db, node, {}, applied) == db.acks;
    Start(db, edits, todo);
  }

  lemma ReportFinish(db: Tables, node: string, generation: nat, applied: bool)
    requires db.bindings.Keys == db.assignments.Keys
    ensures var edits := ResultEdits(db, node, generation, applied);
            && Reporting(db, node, applied, edits, {}) == EditAll(db.(acks := Acked(db, node, generation, applied)), edits)
            && edits - {} == edits
  {
    var edits := ResultEdits(db, node, generation, applied);
    assert edits - {} == edits && edits.Keys - {} == edits.Keys;
    AckedForAll(db, node, generation, applied, edits.Keys);
  }

  lemma ReportRow(db: Tables, node: string, generation: nat, applied: bool, todo: set<string>, id: string)
    requires id in db.assignments && id in db.bindings && id in todo && Concerns(db.assignments[id], node, generation)
    requires db.bindings.Keys == db.assignments.Keys
    ensures var edits := ResultEdits(db, node, generation, applied);
            id in edits && edits[id] == ResultEdit(AckedFor(db, node, edits.Keys - (todo - {id}), applied), id, db.assignments[id], db.bindings[id], applied)
  {
    var edits := ResultEdits(db, node, generation, applied);
    AckedForAll(db, node, generation, applied, edits.Keys);
    AppliedLocally(db, node, edits.Keys - (todo - {id}), edits.Keys, applied, id, db.assignments[id]);
  }

  method ReportOn(db: Tables, tx: Tables, node: string, generation: nat, applied: bool, id: string, ghost todo: set<string>)
    returns (r: Result<Tables, Error>)
    requires db.bindings.Keys == db.assignments.Keys && id in db.assignments && id in todo && Participant(db.assignments[id], node)
    requires tx == Reporting(db, node, applied, ResultEdits(db, node, generation, applied), todo)
    requires !RevisionOverflows(db, ResultEdits(db, node, generation, applied) - todo)
    ensures var edits := ResultEdits(db, node, generation, applied);
            if r.Ok? then r.value == Reporting(db, node, applied, edits, todo - {id}) && !RevisionOverflows(db, edits - (todo - {id}))
            else r == Err(Exhausted) && RevisionOverflows(db, edits)
  {
    ghost var edits := ResultEdits(db, node, generation, applied);
    Untouched(db.(acks := AckedFor(db, node, edits.Keys - todo, applied)), edits, todo, id);
    var row := tx.assignments[id];
    if row.generation > generation || row.state == Draining {
      Skip(db, edits, todo, id);
      assert edits.Keys - (todo - {id}) == edits.Keys - todo;
      return Ok(tx);
    }
    ReportRow(db, node, generation, applied, todo, id);
    ReportStep(db, node, applied, edits, todo, id);
    EditStep(db, edits, todo, id);
    var acked := tx.(acks := tx.acks[AckKey(id, node) := Ack(row.generation, applied)]);
    var e := ReportEdit(acked.acks, id, row, acked.bindings[id], applied);
    if e.row != row && row.revision >= MAX_STORED {
      return Err(Exhausted);
    }
    r := Ok(EditOne(acked, id, e));
  }

  method ApplyNodeResult(db: Tables, node: string, generation: nat, applied: bool) returns (r: Result<Tables, Error>)
    requires db.bindings.Keys == db.assignments.Keys
    ensures r == NodeResult(db, node, generation, applied)
  {
    if node == "" || generation == 0 {
      return Err(Invalid);
    }
    if generation > MAX_STORED {
      return Err(InvalidGeneration);
    }
    ghost var edits := ResultEdits(db, node, generation, applied);
    var rows := set id | id in db.assignments && Participant(db.assignments[id], node);
    var todo, tx := rows, db;
    ReportStart(db, node, applied, edits, todo);
    while todo != {}
      invariant todo <= rows && tx == Reporting(db, node, applied, edits, todo) && !RevisionOverflows(db, edits - todo)
      decreases |todo|
    {
      var id :| id in todo;
      var next := ReportOn(db, tx, node, generation, applied, id, todo);
      if next.Err? {
        return next;
      }
      tx, todo := next.value, todo - {id};
    }
    ReportFinish(db, node, generation, applied);
    r := Ok(tx);
  }

  // ---------- checks and insertions of PutAssignment ----------

  method CheckMembers(rules: Rules, services: map<string, Versioned<Service>>, agentID: string, labels: Labels, ids: seq<string>)
    returns (e: Option<Error>)
    ensures e == MemberError(rules, services, agentID, labels, ids)
  {
    for i := 0 to |ids|
      invariant MemberError(rules, services, agentID, labels, ids[i..]) == MemberError(rules, services, agentID, labels, ids)
    {
      assert ids[i..][0] == ids[i] && ids[i..][1..] == ids[i + 1..];
      if ids[i] !in services {
        return Some(NotFound);
      }
      var s := services[ids[i]].value;
      if s.agentID != agentID {
        return Some(ForeignService);
      }
      if !rules.matches(s.selector, labels) {
        return Some(SelectorMismatch);
      }
    }
    return None;
  }

  method CheckListeners(rules: Rules, listeners: seq<Listener>, b: Binding) returns (hit: bool)
    ensures hit == HitsListener(rules, listeners, b)
  {
    for i := 0 to |listeners|
      invariant forall k :: 0 <= k < i ==>
                              rules.Key(listeners[k].protocol, listeners[k].bind, listeners[k].port) != rules.KeyOf(b)
    {
      if rules.Key(listeners[i].protocol, listeners[i].bind, listeners[i].port) == rules.KeyOf(b) {
        return true;
      }
    }
    return false;
  }

  method CheckBinding(rules: Rules, spec: GatewaySpec, s: Service, b: Binding) returns (e: Option<Error>)
    ensures e == Misfit(rules, spec, s, b)
  {
    if s.protocol != b.protocol {
      return Some(ProtocolMismatch);
    }
    if rules.canon(s.bind) != rules.canon(b.bind) {
      return Some(BindMismatch);
    }
    if s.port != 0 && s.port != b.port {
      return Some(PortMismatch);
    }
    var inside := PortInPool(spec.pool, b.protocol, b.port);
    if !inside {
      return Some(OutsidePool);
    }
    var hit := CheckListeners(rules, spec.listeners, b);
    return if hit then Some(PortTaken) else None;
  }

  method CheckBindings(rules: Rules, services: map<string, Versioned<Service>>, spec: GatewaySpec, members: seq<string>, bindings: seq<Binding>)
    returns (e: Option<Error>)
    ensures e == BindingError(rules, services, spec, members, bindings)
  {
    for i := 0 to |bindings|
      invariant BindingError(rules, services, spec, members, bindings[i..]) == BindingError(rules, services, spec, members, bindings)
    {
      var b := bindings[i];
      assert bindings[i..][0] == b && bindings[i..][1..] == bindings[i + 1..];
      if b.serviceID !in members || b.serviceID !in services {
        return Some(UnknownBinding);
      }
      e := CheckBinding(rules, spec, services[b.serviceID].value, b);
      if e.Some? {
        return;
      }
    }
    return None;
  }

  method CheckPut(rules: Rules, db: Tables, a: Assignment, ifMatch: int) returns (e: Option<Error>)
    ensures e == PutError(rules, db, a, ifMatch)
  {
    if a.state == Applied {
      return Some(StateControllerOwned);
    }
    if !rules.validAssignment(a) {
      return Some(Invalid);
    }
    if a.generation > MAX_STORED {
      return Some(InvalidGeneration);
    }
    e := ParticipantError(db, a.gatewayID, true);
    if e.Some? {
      return;
    }
    e := ParticipantError(db, a.agentID, false);
    if e.Some? {
      return;
    }
    var spec, labels := db.specs[a.gatewayID].value.gateway, db.nodes[a.gatewayID].labels;
    if a.endpoint != "" && a.endpoint !in spec.endpoints {
      return Some(EndpointMismatch);
    }
    if a.id in db.assignments && a.generation < db.assignments[a.id].generation {
      return Some(StaleGeneration);
    }
    if exists other :: other in Superseded(db, a.id, a.serviceIDs) && !Relinquished(db.assignments[other].state) {
      return Some(ResourceConflict);
    }
    e := CheckMembers(rules, db.services, a.agentID, labels, a.serviceIDs);
    if e.Some? {
      return;
    }
    e := CheckBindings(rules, db.services, spec, a.serviceIDs, a.bindings);
    if e.Some? {
      return;
    }
    e := RevisionError(RevisionOf(db, a.id), ifMatch);
  }

  // Inserting member rows one by one under the unique constraint.
  method InsertServices(base: Tables, services: seq<string>) returns (ok: bool)
    ensures ok == ServicesInsertable(base, services)
  {
    for i := 0 to |services|
      invariant ServicesInsertable(base, services[..i])
    {
      var s := services[i];
      assert services[..i + 1] == services[..i] + [s];
      if ServiceTaken(base, s) {
        return false;
      }
      if s in services[..i] {
        var k :| 0 <= k < i && services[k] == s;
        return false;
      }
    }
    assert services[..|services|] == services;
    return true;
  }

  predicate PortClash(inserted: seq<PortRow>, p: PortRow) {
    exists k :: 0 <= k < |inserted| && (SameSocket(inserted[k], p) || inserted[k].binding.serviceID == p.binding.serviceID)
  }

  lemma PortsInsertableMore(base: Tables, ports: seq<PortRow>, p: PortRow)
    requires PortsInsertable(base, ports)
    ensures PortsInsertable(base, ports + [p]) <==> !SocketTaken(base, p) && !PortClash(ports, p)
  {
    var more := ports + [p];
    if PortsInsertable(base, more) {
      assert p in more;
      forall k | 0 <= k < |ports| ensures !SameSocket(ports[k], p) && ports[k].binding.serviceID != p.binding.serviceID {
        assert more[k] == ports[k] && more[|ports|] == p;
      }
    }
  }

  lemma PortsInsertablePrefix(base: Tables, ports: seq<PortRow>, i: nat)
    requires i <= |ports| && PortsInsertable(base, ports)
    ensures PortsInsertable(base, ports[..i])
  {
  }

  method InsertPorts(base: Tables, gatewayID: string, rules: Rules, bindings: seq<Binding>) returns (r: Option<seq<PortRow>>)
    ensures var ports := Map(bindings, PortRowBy(rules, gatewayID));
            r == if PortsInsertable(base, ports) then Some(ports) else None
  {
    var inserted: seq<PortRow> := [];
    ghost var ports := Map(bindings, PortRowBy(rules, gatewayID));
    for i := 0 to |bindings|
      invariant inserted == ports[..i] && PortsInsertable(base, inserted)
    {
      var p := PortRow(gatewayID, rules.Normal(bindings[i]));
      assert ports[i] == p && ports[..i + 1] == inserted + [p];
      PortsInsertableMore(base, inserted, p);
      if SocketTaken(base, p) || PortClash(inserted, p) {
        if PortsInsertable(base, ports) {
          PortsInsertablePrefix(base, ports, i + 1);
          assert false;
        }
        return None;
      }
      inserted := inserted + [p];
    }
    assert ports[..|bindings|] == ports;
    r := Some(inserted);
  }

  method PutTransaction(rules: Rules, db: Tables, a: Assignment, ifMatch: int) returns (r: Result<Tables, Error>)
    ensures r == Put(rules, db, a, ifMatch)
  {
    var e := CheckPut(rules, db, a, ifMatch);
    if e.Some? {
      return Err(e.value);
    }
    var base := Drop(db, Superseded(db, a.id, a.serviceIDs) + {a.id});
    var ok := InsertServices(base, a.serviceIDs);
    if !ok {
      return Err(ResourceConflict);
    }
    var ports: seq<PortRow> := [];
    if !Relinquished(a.state) {
      var inserted := InsertPorts(base, a.gatewayID, rules, a.bindings);
      if inserted.None? {
        return Err(PortTaken);
      }
      ports := inserted.value;
    }
    r := Ok(AddRow(base, a.id, RowFor(db, a), ports));
  }

  // ---------- a state change ----------

  lemma EditJustOne(db: Tables, id: string, e: Edit)
    requires id in db.assignments && id in db.bindings
    ensures EditAll(db, map[id := e]) == EditOne(db, id, e)
  {
    NothingDone(db);
    EditMore(db, map[], id, e);
    assert map[][id := e] == map[id := e];
  }

  method UpdateStateTransaction(db: Tables, id: string, state: Lifecycle, ifMatch: int) returns (r: Result<Tables, Error>)
    requires db.bindings.Keys == db.assignments.Keys
    ensures r == UpdateState(db, id, state, ifMatch)
  {
    if state == Applied {
      return Err(StateControllerOwned);
    }
    if id !in db.assignments {
      return Err(NotFound);
    }
    var row := db.assignments[id];
    if ifMatch <= 0 || ifMatch != row.revision {
      return Err(RevisionConflict);
    }
    if row.revision >= MAX_STORED {
      return Err(Exhausted);
    }
    EditJustOne(db, id, StateEdit(db, id, state));
    var ports := if Relinquished(state) then [] else db.bindings[id];
    r := Ok(EditOne(db, id, Edit(row.(state := state, revision := row.revision + 1), true, ports)));
  }

  // ---------- services ----------

  method PutServiceTransaction(rules: Rules, db: Tables, s: Service, ifMatch: int) returns (r: Result<Tables, Error>)
    requires db.bindings.Keys == db.assignments.Keys
    ensures r == PutService(rules, db, s, ifMatch)
  {
    if !rules.validService(s) {
      return Err(Invalid);
    }
    if s.agentID !in db.specs {
      return Err(NotFound);
    }
    if !HasRole(db, s.agentID, false) {
      return Err(WrongKind);
    }
    var current := ServiceRevision(db, s.id);
    if current.None? {
      if ifMatch > 0 {
        return Err(RevisionConflict);
      }
      return Ok(WriteService(rules, db, s));
    }
    if ifMatch <= 0 || ifMatch != current.value {
      return Err(RevisionConflict);
    }
    var previous := db.services[s.id].value;
    if !Fixed(previous, s) && ServiceTaken(db, s.id) {
      return Err(ResourceConflict);
    }
    if previous.selector != s.selector && Excludes(rules, db, s) {
      return Err(SelectorMismatch);
    }
    var written := WriteService(rules, db, s);
    if previous == s {
      return Ok(written);
    }
    r := BumpAssignments(written, s.id);
  }

  method RemoveService(row: Row, ports: seq<PortRow>, service: string) returns (ids: seq<string>, rest: seq<PortRow>)
    ensures ids == WithoutID(row.services, service) && rest == WithoutService(ports, service)
  {
    ids, rest := [], [];
    for i := 0 to |row.services|
      invariant ids + WithoutID(row.services[i..], service) == WithoutID(row.services, service)
    {
      var s := row.services[i];
      assert row.services[i..][0] == s && row.services[i..][1..] == row.services[i + 1..];
      if s != service {
        assert ids + ([s] + WithoutID(row.services[i + 1..], service)) == ids + [s] + WithoutID(row.services[i + 1..], service);
        ids := ids + [s];
      }
    }
    for i := 0 to |ports|
      invariant rest + WithoutService(ports[i..], service) == WithoutService(ports, service)
    {
      var p := ports[i];
      assert ports[i..][0] == p && ports[i..][1..] == ports[i + 1..];
      if p.binding.serviceID != service {
        assert rest + ([p] + WithoutService(ports[i + 1..], service)) == rest + [p] + WithoutService(ports[i + 1..], service);
        rest := rest + [p];
      }
    }
  }

  // A service is held by at most one assignment.
  lemma OneHolder(rules: Rules, db: Tables, service: string, id: string)
    requires Inv(rules, db) && id in db.assignments && service in db.assignments[id].services
    ensures forall other :: other in db.assignments && service in db.assignments[other].services ==> other == id
  {
    forall other | other in db.assignments && other != id ensures service !in db.assignments[other].services {
      assert Apart(db.assignments[id], db.bindings[id], db.assignments[other], db.bindings[other]);
    }
  }

  lemma NothingDone(db: Tables)
    ensures Drop(db, {}) == db && EditAll(db, map[]) == db
  {
    assert EditAll(db, map[]).acks == db.acks;
  }

  // Detaching a service deletes its one holder when nothing else is left in it.
  lemma DetachEmptied(rules: Rules, db: Tables, service: string, id: string)
    requires Inv(rules, db) && id in db.assignments && service in db.assignments[id].services
    requires WithoutID(db.assignments[id].services, service) == []
    ensures Detach(db, service) == Ok(Drop(db, {id}))
  {
    OneHolder(rules, db, service, id);
    assert Emptied(db, service) == {id};
    DetachNothing(Drop(db, {id}), service);
    NothingDone(Drop(db, {id}));
  }

  // Otherwise it edits that one row.
  lemma DetachKept(rules: Rules, db: Tables, service: string, id: string)
    requires Inv(rules, db) && id in db.assignments && service in db.assignments[id].services
    requires WithoutID(db.assignments[id].services, service) != []
    ensures Detach(db, service) == if Full(db.assignments[id]) then Err(Exhausted)
                                   else Ok(EditOne(db, id, DetachEdit(db.assignments[id], db.bindings[id], service)))
  {
    OneHolder(rules, db, service, id);
    var e := DetachEdit(db.assignments[id], db.bindings[id], service);
    assert Emptied(db, service) == {};
    NothingDone(db);
    DetachEditsOne(db, service, id);
    EditMore(db, map[], id, e);
    assert map[][id := e] == map[id := e];
    OverflowsOne(db, id, e);
  }

  lemma DetachEditsOne(db: Tables, service: string, id: string)
    requires id in db.assignments && id in db.bindings && service in db.assignments[id].services
    requires forall other :: other in db.assignments && service in db.assignments[other].services ==> other == id
    ensures DetachEdits(db, service) == map[id := DetachEdit(db.assignments[id], db.bindings[id], service)]
  {
  }

  lemma OverflowsOne(db: Tables, id: string, e: Edit)
    requires id in db.assignments && e.row != db.assignments[id]
    ensures Overflows(db, map[id := e]) <==> Full(db.assignments[id])
  {
    assert id in map[id := e];
  }

  lemma DetachNothing(db: Tables, service: string)
    requires !ServiceTaken(db, service)
    ensures Emptied(db, service) == {} && DetachEdits(db, service) == map[] && Detach(db, service) == Ok(db)
  {
    assert forall id :: id in db.assignments ==> service !in db.assignments[id].services;
    assert Emptied(db, service) == {} && DetachEdits(db, service) == map[];
    NothingDone(db);
  }

  method DetachService(rules: Rules, db: Tables, service: string) returns (r: Result<Tables, Error>)
    requires Inv(rules, db)
    ensures r == Detach(db, service)
  {
    var holders := set id | id in db.assignments && service in db.assignments[id].services;
    if holders == {} {
      assert forall id :: id in db.assignments && service in db.assignments[id].services ==> id in holders;
      DetachNothing(db, service);
      return Ok(db);
    }
    var id :| id in holders;
    var row := db.assignments[id];
    var ids, ports := RemoveService(row, db.bindings[id], service);
    if |ids| == 0 {
      DetachEmptied(rules, db, service, id);
      return Ok(Drop(db, {id}));
    }
    DetachKept(rules, db, service, id);
    if Full(row) {
      return Err(Exhausted);
    }
    r := Ok(EditOne(db, id, Edit(Reopened(row).(services := ids), true, if Relinquished(row.state) then [] else ports)));
  }

  // ---------- node specs ----------

  method CheckObstructed(rules: Rules, db: Tables, node: string, spec: GatewaySpec) returns (bad: bool)
    ensures bad == Obstructs(rules, db, node, spec)
  {
    var todo := db.bindings.Keys;
    while todo != {}
      invariant todo <= db.bindings.Keys
      invariant forall id, p :: id in db.bindings && id !in todo && p in db.bindings[id] && p.gatewayID == node ==> Serveable(rules, spec, p.binding)
      decreases |todo|
    {
      var id :| id in todo;
      var ports := db.bindings[id];
      for i := 0 to |ports|
        invariant forall k :: 0 <= k < i && ports[k].gatewayID == node ==> Serveable(rules, spec, ports[k].binding)
      {
        var p := ports[i];
        if p.gatewayID == node {
          var inside := PortInPool(spec.pool, p.binding.protocol, p.binding.port);
          var hit := CheckListeners(rules, spec.listeners, p.binding);
          if !inside || hit {
            assert p in db.bindings[id] && !Serveable(rules, spec, p.binding);
            return true;
          }
        }
      }
      todo := todo - {id};
    }
    return false;
  }

  method PutSpecTransaction(rules: Rules, db: Tables, node: string, spec: Spec, ifMatch: int) returns (r: Result<Tables, Error>)
    requires db.bindings.Keys == db.assignments.Keys
    ensures r == PutSpec(rules, db, node, spec, ifMatch)
  {
    if spec.GatewayRole? {
      if !rules.validGatewaySpec(spec.gateway) {
        return Err(Invalid);
      }
      if node !in db.nodes {
        return Err(NotFound);
      }
      var bad := CheckObstructed(rules, db, node, spec.gateway);
      if bad {
        return Err(PortTaken);
      }
    } else {
      var e := SpecError(rules, db, node, spec);
      if e.Some? {
        return Err(e.value);
      }
    }
    if node in db.specs && db.specs[node].value.GatewayRole? != spec.GatewayRole? && HasDependents(db, node) {
      return Err(ResourceConflict);
    }
    if RevisionError(SpecRevision(db, node), ifMatch).Some? {
      return Err(RevisionConflict);
    }
    var written := WriteSpec(db, node, spec);
    if spec.AgentRole? {
      return Ok(written);
    }
    if spec.gateway.endpoints == [] {
      return Err(Invalid);
    }
    r := UpdateEndpoints(written, node, spec.gateway);
  }

  // ---------- the repository ----------

  function Failure(r: Result<Tables, Error>): Option<Error> {
    if r.Ok? then None else Some(r.error)
  }

  // A refused transaction is rolled back.
  function Settled(db: Tables, r: Result<Tables, Error>): Tables {
    if r.Ok? then r.value else db
  }

  class Repository {
    const rules: Rules
    var assignments: map<string, Row>
    var bindings: map<string, seq<PortRow>>
    var acks: map<AckKey, Ack>
    var services: map<string, Versioned<Service>>
    var specs: map<string, Versioned<Spec>>
    var nodes: map<string, NodeRow>

    function Model(): Tables
      reads this
    {
      Tables(assignments, bindings, acks, services, specs, nodes)
    }

    ghost predicate Valid()
      reads this
    {
      rules.Idempotent() && Inv(rules, Model())
    }

    constructor (rules: Rules)
      requires rules.Idempotent()
      ensures Valid() && Model() == EMPTY && this.rules == rules
    {
      this.rules := rules;
      assignments, bindings, acks, services, specs, nodes := map[], map[], map[], map[], map[], map[];
    }

    method Settle(r: Result<Tables, Error>, ghost step: Step) returns (e: Option<Error>)
      requires Valid() && r == Transaction(rules, Model(), step)
      modifies this
      ensures Valid() && Model() == Settled(old(Model()), r) && e == Failure(r)
    {
      StepKeepsInv(rules, Model(), step);
      if r.Err? {
        return Some(r.error);
      }
      Install(r.value);
      return None;
    }

    method Install(tx: Tables)
      modifies this
      ensures Model() == tx
    {
      assignments, bindings, acks := tx.assignments, tx.bindings, tx.acks;
      services, specs, nodes := tx.services, tx.specs, tx.nodes;
    }

    method PutAssignment(a: Assignment, ifMatch: int) returns (e: Option<Error>)
      requires Valid()
      modifies this
      ensures Valid()
      ensures var r := Put(rules, old(Model()), a, ifMatch); Model() == Settled(old(Model()), r) && e == Failure(r)
    {
      var r := PutTransaction(rules, Model(), a, ifMatch);
      e := Settle(r, StepPut(a, ifMatch));
    }

    method UpdateAssignmentState(id: string, state: Lifecycle, ifMatch: int) returns (e: Option<Error>)
      requires Valid()
      modifies this
      ensures Valid()
      ensures var r := UpdateState(old(Model()), id, state, ifMatch); Model() == Settled(old(Model()), r) && e == Failure(r)
    {
      var r := UpdateStateTransaction(Model(), id, state, ifMatch);
      e := Settle(r, StepState(id, state, ifMatch));
    }

    method DeleteAssignment(id: string, ifMatch: int) returns (e: Option<Error>)
      requires Valid()
      modifies this
      ensures Valid()
      ensures var r := Store.DeleteAssignment(old(Model()), id, ifMatch); Model() == Settled(old(Model()), r) && e == Failure(r)
    {
      e := Settle(Store.DeleteAssignment(Model(), id, ifMatch), StepDelete(id, ifMatch));
    }

    method ApplyResult(node: string, generation: nat, applied: bool) returns (e: Option<Error>)
      requires Valid()
      modifies this
      ensures Valid()
      ensures var r := NodeResult(old(Model()), node, generation, applied); Model() == Settled(old(Model()), r) && e == Failure(r)
    {
      var r := ApplyNodeResult(Model(), node, generation, applied);
      e := Settle(r, StepResult(node, generation, applied));
    }

    method PutService(s: Service, ifMatch: int) returns (e: Option<Error>)
      requires Valid()
      modifies this
      ensures Valid()
      ensures var r := Store.PutService(rules, old(Model()), s, ifMatch); Model() == Settled(old(Model()), r) && e == Failure(r)
    {
      var r := PutServiceTransaction(rules, Model(), s, ifMatch);
      e := Settle(r, StepPutService(s, ifMatch));
    }

    method DeleteService(id: string, ifMatch: int) returns (e: Option<Error>)
      requires Valid()
      modifies this
      ensures Valid()
      ensures var r := Store.DeleteService(old(Model()), id, ifMatch); Model() == Settled(old(Model()), r) && e == Failure(r)
    {
      var db := Model();
      if id !in db.services {
        return Some(NotFound);
      }
      if RevisionError(ServiceRevision(db, id), ifMatch).Some? {
        return Some(RevisionConflict);
      }
      var r := DetachService(rules, db, id);
      if r.Ok? {
        r := Ok(r.value.(services := r.value.services - {id}));
      }
      e := Settle(r, StepDeleteService(id, ifMatch));
    }

    method PutNodeSpec(node: string, spec: Spec, ifMatch: int) returns (e: Option<Error>)
      requires Valid()
      modifies this
      ensures Valid()
      ensures var r := PutSpec(rules, old(Model()), node, spec, ifMatch); Model() == Settled(old(Model()), r) && e == Failure(r)
    {
      var r := PutSpecTransaction(rules, Model(), node, spec, ifMatch);
      e := Settle(r, StepPutSpec(node, spec, ifMatch));
    }

    method DeleteNodeSpec(node: string, ifMatch: int) returns (e: Option<Error>)
      requires Valid()
      modifies this
      ensures Valid()
      ensures var r := DeleteSpec(old(Model()), node, ifMatch); Model() == Settled(old(Model()), r) && e == Failure(r)
    {
      e := Settle(DeleteSpec(Model(), node, ifMatch), StepDeleteSpec(node, ifMatch));
    }

    // Enrols a new node.
    method AddNode(node: string, row: NodeRow) returns (e: Option<Error>)
      requires Valid()
      modifies this
      ensures Valid()
      ensures var r := Store.AddNode(old(Model()), node, row); Model() == Settled(old(Model()), r) && e == Failure(r)
    {
      e := Settle(Store.AddNode(Model(), node, row), StepAddNode(node, row));
    }

    method UpdateNode(node: string, enabled: bool, certificate: Certificate, labels: Labels, ifMatch: int) returns (e: Option<Error>)
      requires Valid()
      modifies this
      ensures Valid()
      ensures var r := Store.UpdateNode(old(Model()), node, enabled, certificate, labels, ifMatch);
              Model() == Settled(old(Model()), r) && e == Failure(r)
    {
      var r := UpdateNodeTransaction(Model(), node, enabled, certificate, labels, ifMatch);
      e := Settle(r, StepUpdateNode(node, enabled, certificate, labels, ifMatch));
    }

    method DecommissionNode(node: string, ifMatch: int) returns (e: Option<Error>)
      requires Valid()
      modifies this
      ensures Valid()
      ensures var r := Store.DecommissionNode(old(Model()), node, ifMatch); Model() == Settled(old(Model()), r) && e == Failure(r)
    {
      var r := DecommissionTransaction(Model(), node, ifMatch);
      e := Settle(r, StepDecommission(node, ifMatch));
    }
  }
}
