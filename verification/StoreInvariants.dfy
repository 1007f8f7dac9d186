/** What every transaction of the assignment store keeps. */
module StoreInvariants {
  import opened Bytes
  import opened Ordering
  import opened Sums
  import opened Domain
  import opened Store

  type Services = map<string, Versioned<Service>>
  type Specs = map<string, Versioned<Spec>>

  // ---------- the invariants ----------

  // A stored binding serves one of its assignment's services: same agent,
  // protocol, address and fixed port, inside the gateway's pool, on none of the
  // gateway's own listeners, with its address in normal form.
  ghost predicate PortFine(rules: Rules, services: Services, spec: GatewaySpec, row: Row, p: PortRow) {
    var b := p.binding;
    && p.gatewayID == row.gatewayID
    && b.serviceID in row.services && b.serviceID in services
    && services[b.serviceID].value.agentID == row.agentID
    && Misfit(rules, spec, services[b.serviceID].value, b) == None
    && rules.canon(b.bind) == b.bind
  }

  ghost predicate MemberFine(services: Services, agentID: string, s: string) {
    s in services && services[s].value.agentID == agentID
  }

  ghost predicate SocketsApart(ports: seq<PortRow>) {
    forall i, j :: 0 <= i < j < |ports| ==> !SameSocket(ports[i], ports[j])
  }

  ghost predicate IsGateway(specs: Specs, node: string) { node in specs && specs[node].value.GatewayRole? }

  ghost predicate IsAgent(specs: Specs, node: string) { node in specs && specs[node].value.AgentRole? }

  // One assignment with its port rows, against services and specs.
  ghost predicate RowFine(rules: Rules, services: Services, specs: Specs, row: Row, ports: seq<PortRow>) {
    && IsGateway(specs, row.gatewayID) && IsAgent(specs, row.agentID)
    && Distinct(row.services) && (forall s :: s in row.services ==> MemberFine(services, row.agentID, s))
    && (Relinquished(row.state) ==> ports == [])
    && SocketsApart(ports)
    && (forall p :: p in ports ==> PortFine(rules, services, specs[row.gatewayID].value.gateway, row, p))
  }

  ghost predicate AckFine(assignments: map<string, Row>, k: AckKey, ack: Ack) {
    k.id in assignments && Participant(assignments[k.id], k.node) && ack.generation == assignments[k.id].generation
  }

  ghost predicate AppliedFine(acks: map<AckKey, Ack>, id: string, row: Row) {
    row.state == Applied ==> AppliedAck(acks, id, row.gatewayID, row.generation) && AppliedAck(acks, id, row.agentID, row.generation)
  }

  // Two assignments share no service and no socket.
  ghost predicate Apart(r: Row, ports: seq<PortRow>, r': Row, ports': seq<PortRow>) {
    && (forall s :: s in r.services ==> s !in r'.services)
    && (forall p, q :: p in ports && q in ports' ==> !SameSocket(p, q))
  }

  ghost predicate RowsFine(rules: Rules, db: Tables) {
    db.bindings.Keys == db.assignments.Keys
    && forall id :: id in db.assignments ==> RowFine(rules, db.services, db.specs, db.assignments[id], db.bindings[id])
  }

  ghost predicate AcksFine(db: Tables) {
    forall k :: k in db.acks ==> AckFine(db.assignments, k, db.acks[k])
  }

  ghost predicate AllApplied(db: Tables) {
    forall id :: id in db.assignments ==> AppliedFine(db.acks, id, db.assignments[id])
  }

  ghost predicate AllApart(db: Tables)
    requires db.bindings.Keys == db.assignments.Keys
  {
    forall id, id' :: id in db.assignments && id' in db.assignments && id != id' ==>
                        Apart(db.assignments[id], db.bindings[id], db.assignments[id'], db.bindings[id'])
  }

  ghost predicate Core(rules: Rules, db: Tables) {
    RowsFine(rules, db) && AcksFine(db) && AllApplied(db) && AllApart(db)
  }

  // An assignment's endpoint is one its gateway advertises.
  ghost predicate EndpointFine(specs: Specs, row: Row) {
    IsGateway(specs, row.gatewayID) && (row.endpoint == "" || row.endpoint in specs[row.gatewayID].value.gateway.endpoints)
  }

  ghost predicate EndpointsFine(db: Tables) {
    forall id :: id in db.assignments ==> EndpointFine(db.specs, db.assignments[id])
  }

  ghost predicate Inv(rules: Rules, db: Tables) {
    Core(rules, db) && EndpointsFine(db)
  }

  // ---------- derived edits ----------

  // An edit that moves no assignment, adds no service or port and leaves a
  // relinquished row bare.
  ghost predicate Shrinks(row: Row, ports: seq<PortRow>, e: Edit) {
    && e.row.gatewayID == row.gatewayID && e.row.agentID == row.agentID
    && Distinct(e.row.services) && (forall s :: s in e.row.services ==> s in row.services)
    && (Relinquished(e.row.state) ==> e.ports == [])
    && SocketsApart(e.ports) && (forall p :: p in e.ports ==> p in ports && p.binding.serviceID in e.row.services)
  }

  // An edit that outdates no ack it keeps and does not declare a row applied.
  ghost predicate Modest(row: Row, e: Edit) {
    && (e.row.generation != row.generation ==> e.forget)
    && (e.row.state == Applied ==> row.state == Applied && !e.forget && e.row.generation == row.generation)
  }

  ghost predicate AllShrink(db: Tables, edits: map<string, Edit>) {
    forall id :: id in edits ==> id in db.assignments && id in db.bindings && Shrinks(db.assignments[id], db.bindings[id], edits[id])
  }

  ghost predicate AllModest(db: Tables, edits: map<string, Edit>) {
    forall id :: id in edits && id in db.assignments ==> Modest(db.assignments[id], edits[id])
  }

  lemma ShrunkRow(rules: Rules, services: Services, specs: Specs, row: Row, ports: seq<PortRow>, e: Edit)
    requires RowFine(rules, services, specs, row, ports) && Shrinks(row, ports, e)
    ensures RowFine(rules, services, specs, e.row, e.ports)
  {
    forall s | s in e.row.services ensures MemberFine(services, e.row.agentID, s) {
      assert MemberFine(services, row.agentID, s);
    }
    var spec := specs[row.gatewayID].value.gateway;
    forall p | p in e.ports ensures PortFine(rules, services, spec, e.row, p) {
      assert PortFine(rules, services, spec, row, p);
    }
  }

  lemma EditedRowsFine(rules: Rules, db: Tables, edits: map<string, Edit>)
    requires RowsFine(rules, db) && AllShrink(db, edits)
    ensures RowsFine(rules, EditAll(db, edits))
  {
    var after := EditAll(db, edits);
    forall id | id in after.assignments
      ensures RowFine(rules, db.services, db.specs, after.assignments[id], after.bindings[id])
    {
      if id in edits {
        ShrunkRow(rules, db.services, db.specs, db.assignments[id], db.bindings[id], edits[id]);
      }
    }
  }

  lemma EditedAcksFine(db: Tables, edits: map<string, Edit>)
    requires AcksFine(db) && AllApplied(db) && AllShrink(db, edits) && AllModest(db, edits)
    ensures AcksFine(EditAll(db, edits)) && AllApplied(EditAll(db, edits))
  {
    var after := EditAll(db, edits);
    forall k | k in after.acks ensures AckFine(after.assignments, k, after.acks[k]) {
      assert AckFine(db.assignments, k, db.acks[k]);
    }
    forall id | id in after.assignments ensures AppliedFine(after.acks, id, after.assignments[id]) {
      assert AppliedFine(db.acks, id, db.assignments[id]);
    }
  }

  lemma ShrunkApart(r: Row, ports: seq<PortRow>, e: Edit, r': Row, ports': seq<PortRow>, e': Edit)
    requires Apart(r, ports, r', ports') && Shrinks(r, ports, e) && Shrinks(r', ports', e')
    ensures Apart(e.row, e.ports, e'.row, e'.ports)
  {
  }

  // An assignment that is left alone is edited into itself.
  function EditOf(db: Tables, edits: map<string, Edit>, id: string): Edit
    requires id in db.assignments && id in db.bindings
  {
    if id in edits then edits[id] else Edit(db.assignments[id], false, db.bindings[id])
  }

  lemma EditOfShrinks(rules: Rules, db: Tables, edits: map<string, Edit>, id: string)
    requires RowsFine(rules, db) && AllShrink(db, edits) && id in db.assignments
    ensures Shrinks(db.assignments[id], db.bindings[id], EditOf(db, edits, id))
  {
    assert RowFine(rules, db.services, db.specs, db.assignments[id], db.bindings[id]);
    var spec := db.specs[db.assignments[id].gatewayID].value.gateway;
    forall p | p in db.bindings[id] ensures p.binding.serviceID in db.assignments[id].services {
      assert PortFine(rules, db.services, spec, db.assignments[id], p);
    }
  }

  lemma EditedApart(rules: Rules, db: Tables, edits: map<string, Edit>)
    requires RowsFine(rules, db) && AllApart(db) && AllShrink(db, edits)
    ensures AllApart(EditAll(db, edits))
  {
    var after := EditAll(db, edits);
    forall id, id' | id in after.assignments && id' in after.assignments && id != id'
      ensures Apart(after.assignments[id], after.bindings[id], after.assignments[id'], after.bindings[id'])
    {
      EditOfShrinks(rules, db, edits, id);
      EditOfShrinks(rules, db, edits, id');
      ShrunkApart(db.assignments[id], db.bindings[id], EditOf(db, edits, id),
                  db.assignments[id'], db.bindings[id'], EditOf(db, edits, id'));
    }
  }

  lemma EditKeepsCore(rules: Rules, db: Tables, edits: map<string, Edit>)
    requires Core(rules, db) && AllShrink(db, edits) && AllModest(db, edits)
    ensures Core(rules, EditAll(db, edits))
  {
    EditedRowsFine(rules, db, edits);
    EditedAcksFine(db, edits);
    EditedApart(rules, db, edits);
  }

  lemma DropKeepsCore(rules: Rules, db: Tables, ids: set<string>)
    requires Core(rules, db)
    ensures Core(rules, Drop(db, ids))
  {
    DroppedAcks(db, ids);
    var after := Drop(db, ids);
    assert RowsFine(rules, after) && AllApart(after);
  }

  lemma DroppedAcks(db: Tables, ids: set<string>)
    requires AcksFine(db) && AllApplied(db)
    ensures AcksFine(Drop(db, ids)) && AllApplied(Drop(db, ids))
  {
    var after := Drop(db, ids);
    forall k | k in after.acks ensures AckFine(after.assignments, k, after.acks[k]) {
      assert AckFine(db.assignments, k, db.acks[k]);
    }
    forall id | id in after.assignments ensures AppliedFine(after.acks, id, after.assignments[id]) {
      assert AppliedFine(db.acks, id, db.assignments[id]);
    }
  }

  ghost predicate ApartFrom(db: Tables, row: Row, ports: seq<PortRow>, other: string)
    requires other in db.assignments && other in db.bindings
  {
    Apart(row, ports, db.assignments[other], db.bindings[other]) && Apart(db.assignments[other], db.bindings[other], row, ports)
  }

  lemma AddKeepsCore(rules: Rules, db: Tables, id: string, row: Row, ports: seq<PortRow>)
    requires Core(rules, db) && id !in db.assignments && row.state != Applied
    requires RowFine(rules, db.services, db.specs, row, ports)
    requires forall other :: other in db.assignments ==> ApartFrom(db, row, ports, other)
    ensures Core(rules, AddRow(db, id, row, ports))
  {
    AddedRows(rules, db, id, row, ports);
    AddedAcks(db, id, row, ports);
  }

  lemma AddedRows(rules: Rules, db: Tables, id: string, row: Row, ports: seq<PortRow>)
    requires RowsFine(rules, db) && AllApart(db) && id !in db.assignments
    requires RowFine(rules, db.services, db.specs, row, ports)
    requires forall other :: other in db.assignments ==> ApartFrom(db, row, ports, other)
    ensures RowsFine(rules, AddRow(db, id, row, ports)) && AllApart(AddRow(db, id, row, ports))
  {
  }

  lemma AddedAcks(db: Tables, id: string, row: Row, ports: seq<PortRow>)
    requires AcksFine(db) && AllApplied(db) && id !in db.assignments && row.state != Applied
    ensures AcksFine(AddRow(db, id, row, ports)) && AllApplied(AddRow(db, id, row, ports))
  {
    var after := AddRow(db, id, row, ports);
    forall k | k in after.acks ensures AckFine(after.assignments, k, after.acks[k]) {
      assert AckFine(db.assignments, k, db.acks[k]);
    }
    forall other | other in after.assignments ensures AppliedFine(after.acks, other, after.assignments[other]) {
      assert other != id ==> AppliedFine(db.acks, other, db.assignments[other]);
    }
  }

  // ---------- putting an assignment ----------

  lemma {:induction false} MembersFine(rules: Rules, services: Services, agentID: string, labels: Labels, ids: seq<string>)
    requires MemberError(rules, services, agentID, labels, ids).None?
    ensures forall s :: s in ids ==> MemberFine(services, agentID, s)
  {
    if ids != [] {
      MembersFine(rules, services, agentID, labels, ids[1..]);
    }
  }

  lemma {:induction false} BindingsFit(rules: Rules, services: Services, spec: GatewaySpec, members: seq<string>, bindings: seq<Binding>)
    requires BindingError(rules, services, spec, members, bindings).None?
    ensures forall b :: b in bindings ==>
                          b.serviceID in members && b.serviceID in services && Misfit(rules, spec, services[b.serviceID].value, b).None?
  {
    if bindings != [] {
      BindingsFit(rules, services, spec, members, bindings[1..]);
    }
  }

  lemma NormalFits(rules: Rules, spec: GatewaySpec, s: Service, b: Binding)
    requires rules.Idempotent() && Misfit(rules, spec, s, b).None?
    ensures Misfit(rules, spec, s, rules.Normal(b)).None?
  {
  }

  lemma PutRowFine(rules: Rules, db: Tables, a: Assignment, ifMatch: int)
    requires rules.Idempotent() && Put(rules, db, a, ifMatch).Ok?
    ensures RowFine(rules, db.services, db.specs, RowFor(db, a), PortsFor(rules, a))
    ensures EndpointFine(db.specs, RowFor(db, a))
  {
    var spec, row, ports := db.specs[a.gatewayID].value.gateway, RowFor(db, a), PortsFor(rules, a);
    MembersFine(rules, db.services, a.agentID, db.nodes[a.gatewayID].labels, a.serviceIDs);
    BindingsFit(rules, db.services, spec, a.serviceIDs, a.bindings);
    forall p | p in ports ensures PortFine(rules, db.services, spec, row, p) {
      var i :| 0 <= i < |a.bindings| && ports[i] == p;
      assert a.bindings[i] in a.bindings && p == PortRow(a.gatewayID, rules.Normal(a.bindings[i]));
      assert MemberFine(db.services, a.agentID, a.bindings[i].serviceID);
      NormalFits(rules, spec, db.services[a.bindings[i].serviceID].value, a.bindings[i]);
    }
  }

  lemma InsertableIsApart(db: Tables, row: Row, ports: seq<PortRow>, other: string)
    requires ServicesInsertable(db, row.services) && PortsInsertable(db, ports) && other in db.assignments && other in db.bindings
    ensures ApartFrom(db, row, ports, other)
  {
    forall s | s in row.services ensures s !in db.assignments[other].services {
      assert !ServiceTaken(db, s);
    }
    forall p, q | p in ports && q in db.bindings[other] ensures !SameSocket(p, q) && !SameSocket(q, p) {
      assert !SocketTaken(db, p);
    }
  }

  lemma PutKeepsInv(rules: Rules, db: Tables, a: Assignment, ifMatch: int)
    requires Inv(rules, db) && rules.Idempotent() && Put(rules, db, a, ifMatch).Ok?
    ensures Inv(rules, Put(rules, db, a, ifMatch).value)
  {
    var base := Drop(db, Superseded(db, a.id, a.serviceIDs) + {a.id});
    var row, ports := RowFor(db, a), PortsFor(rules, a);
    DropKeepsCore(rules, db, Superseded(db, a.id, a.serviceIDs) + {a.id});
    PutRowFine(rules, db, a, ifMatch);
    forall other | other in base.assignments ensures ApartFrom(base, row, ports, other) {
      InsertableIsApart(base, row, ports, other);
    }
    AddKeepsCore(rules, base, a.id, row, ports);
    PutEndpoints(rules, db, a, ifMatch);
  }

  lemma PutEndpoints(rules: Rules, db: Tables, a: Assignment, ifMatch: int)
    requires rules.Idempotent() && EndpointsFine(db) && Put(rules, db, a, ifMatch).Ok?
    ensures EndpointsFine(Put(rules, db, a, ifMatch).value)
  {
    PutRowFine(rules, db, a, ifMatch);
  }

  // ---------- a node's report ----------

  lemma CountIsBoth(acks: map<AckKey, Ack>, id: string, row: Row)
    requires row.gatewayID != row.agentID
    ensures ParticipantsApplied(acks, id, row) <==>
            AppliedAck(acks, id, row.gatewayID, row.generation) && AppliedAck(acks, id, row.agentID, row.generation)
  {
    var both := {row.gatewayID, row.agentID};
    assert both == {row.gatewayID} + {row.agentID} && |both| == 2;
    var done := AppliedBy(acks, id, row);
    SubsetSize(done, both);
    assert row.gatewayID in done <==> AppliedAck(acks, id, row.gatewayID, row.generation);
    assert row.agentID in done <==> AppliedAck(acks, id, row.agentID, row.generation);
  }

  lemma AckedIs(db: Tables, node: string, generation: nat, applied: bool, k: AckKey)
    ensures var acks, hit := Acked(db, node, generation, applied),
                k.node == node && k.id in db.assignments && Concerns(db.assignments[k.id], node, generation);
            && (k in acks <==> hit || k in db.acks)
            && (k in acks ==> acks[k] == if hit then Ack(db.assignments[k.id].generation, applied) else db.acks[k])
  {
  }

  lemma AckedFine(db: Tables, node: string, generation: nat, applied: bool)
    requires AcksFine(db)
    ensures AcksFine(db.(acks := Acked(db, node, generation, applied)))
  {
    var acks := Acked(db, node, generation, applied);
    forall k | k in acks ensures AckFine(db.assignments, k, acks[k]) {
      AckedIs(db, node, generation, applied, k);
      assert k in db.acks ==> AckFine(db.assignments, k, db.acks[k]);
    }
  }

  // Edits that keep every port row or none, and every service.
  lemma PlainEditShrinks(rules: Rules, db: Tables, id: string, e: Edit)
    requires RowsFine(rules, db) && id in db.assignments
    requires e.row.gatewayID == db.assignments[id].gatewayID && e.row.agentID == db.assignments[id].agentID
    requires e.row.services == db.assignments[id].services
    requires e.ports == [] || e.ports == db.bindings[id]
    requires Relinquished(e.row.state) ==> e.ports == []
    ensures Shrinks(db.assignments[id], db.bindings[id], e)
  {
    EditOfShrinks(rules, db, map[], id);
  }

  lemma ResultAppliedFine(rules: Rules, db: Tables, node: string, generation: nat, applied: bool, id: string)
    requires Core(rules, db) && id in db.assignments
    ensures var acks := Acked(db, node, generation, applied);
            var edits := ResultEdits(db, node, generation, applied);
            AppliedFine(acks, id, if id in edits then edits[id].row else db.assignments[id])
  {
    var acks, row := Acked(db, node, generation, applied), db.assignments[id];
    assert RowFine(rules, db.services, db.specs, row, db.bindings[id]);
    assert AppliedFine(db.acks, id, row);
    CountIsBoth(acks, id, row);
    AckedIs(db, node, generation, applied, AckKey(id, row.gatewayID));
    AckedIs(db, node, generation, applied, AckKey(id, row.agentID));
  }

  ghost predicate SamePlace(row: Row, e: Edit) {
    e.row.gatewayID == row.gatewayID && e.row.agentID == row.agentID && e.row.endpoint == row.endpoint
  }

  ghost predicate AllStay(db: Tables, edits: map<string, Edit>) {
    forall id :: id in edits && id in db.assignments ==> SamePlace(db.assignments[id], edits[id])
  }

  lemma ResultEditsShrink(rules: Rules, db: Tables, node: string, generation: nat, applied: bool)
    requires RowsFine(rules, db)
    ensures var edits := ResultEdits(db, node, generation, applied);
            AllShrink(db, edits) && AllStay(db, edits)
  {
    var edits := ResultEdits(db, node, generation, applied);
    forall id | id in edits ensures Shrinks(db.assignments[id], db.bindings[id], edits[id]) {
      assert RowFine(rules, db.services, db.specs, db.assignments[id], db.bindings[id]);
      PlainEditShrinks(rules, db, id, edits[id]);
    }
  }

  lemma ResultKeepsAcks(db: Tables, node: string, generation: nat, applied: bool)
    ensures var acked := db.(acks := Acked(db, node, generation, applied));
            EditAll(acked, ResultEdits(db, node, generation, applied)).acks == acked.acks
  {
    var acks, edits := Acked(db, node, generation, applied), ResultEdits(db, node, generation, applied);
    assert forall k :: k in acks ==> !Forgotten(edits, k);
  }

  // The acks after a report belong to participants at the current generation.
  lemma ResultAcksFine(db: Tables, node: string, generation: nat, applied: bool)
    requires AcksFine(db)
    ensures AcksFine(EditAll(db.(acks := Acked(db, node, generation, applied)), ResultEdits(db, node, generation, applied)))
  {
    var acked, edits := db.(acks := Acked(db, node, generation, applied)), ResultEdits(db, node, generation, applied);
    var after := EditAll(acked, edits);
    AckedFine(db, node, generation, applied);
    ResultKeepsAcks(db, node, generation, applied);
    forall k | k in acked.acks ensures AckFine(after.assignments, k, acked.acks[k]) {
      assert AckFine(acked.assignments, k, acked.acks[k]);
      assert after.assignments[k.id] == if k.id in edits then edits[k.id].row else db.assignments[k.id];
    }
  }

  lemma ResultAllApplied(rules: Rules, db: Tables, node: string, generation: nat, applied: bool)
    requires Core(rules, db)
    ensures AllApplied(EditAll(db.(acks := Acked(db, node, generation, applied)), ResultEdits(db, node, generation, applied)))
  {
    var acked, edits := db.(acks := Acked(db, node, generation, applied)), ResultEdits(db, node, generation, applied);
    var after := EditAll(acked, edits);
    ResultKeepsAcks(db, node, generation, applied);
    forall id | id in after.assignments ensures AppliedFine(acked.acks, id, after.assignments[id]) {
      ResultAppliedFine(rules, db, node, generation, applied, id);
    }
  }

  lemma NodeResultKeepsInv(rules: Rules, db: Tables, node: string, generation: nat, applied: bool)
    requires Inv(rules, db) && NodeResult(db, node, generation, applied).Ok?
    ensures Inv(rules, NodeResult(db, node, generation, applied).value)
  {
    var acked, edits := db.(acks := Acked(db, node, generation, applied)), ResultEdits(db, node, generation, applied);
    ResultEditsShrink(rules, db, node, generation, applied);
    assert AllShrink(acked, edits) && RowsFine(rules, acked) && AllApart(acked);
    ResultAcksFine(db, node, generation, applied);
    ResultAllApplied(rules, db, node, generation, applied);
    EditedRowsFine(rules, acked, edits);
    EditedApart(rules, acked, edits);
    SameEndpoints(acked, edits);
  }

  lemma SameEndpoints(db: Tables, edits: map<string, Edit>)
    requires EndpointsFine(db) && AllStay(db, edits)
    ensures EndpointsFine(EditAll(db, edits))
  {
    var after := EditAll(db, edits);
    forall id | id in after.assignments ensures EndpointFine(after.specs, after.assignments[id]) {
      assert EndpointFine(db.specs, db.assignments[id]);
    }
  }

  // ---------- state changes, deletions, quarantine ----------

  lemma EditKeepsInv(rules: Rules, db: Tables, edits: map<string, Edit>)
    requires Inv(rules, db) && AllShrink(db, edits) && AllModest(db, edits) && AllStay(db, edits)
    ensures Inv(rules, EditAll(db, edits))
  {
    EditKeepsCore(rules, db, edits);
    SameEndpoints(db, edits);
  }

  lemma UpdateStateKeepsInv(rules: Rules, db: Tables, id: string, state: Lifecycle, ifMatch: int)
    requires Inv(rules, db) && UpdateState(db, id, state, ifMatch).Ok?
    ensures Inv(rules, UpdateState(db, id, state, ifMatch).value)
  {
    var e := StateEdit(db, id, state);
    PlainEditShrinks(rules, db, id, e);
    OneEdit(db, id, e);
    EditKeepsInv(rules, db, map[id := e]);
  }

  lemma OneEdit(db: Tables, id: string, e: Edit)
    requires id in db.assignments && id in db.bindings && Shrinks(db.assignments[id], db.bindings[id], e)
    requires Modest(db.assignments[id], e) && SamePlace(db.assignments[id], e)
    ensures AllShrink(db, map[id := e]) && AllModest(db, map[id := e]) && AllStay(db, map[id := e])
  {
  }

  lemma DropKeepsInv(rules: Rules, db: Tables, ids: set<string>)
    requires Inv(rules, db)
    ensures Inv(rules, Drop(db, ids))
  {
    DropKeepsCore(rules, db, ids);
    assert EndpointsFine(Drop(db, ids));
  }

  lemma WriteNodeKeepsInv(rules: Rules, db: Tables, node: string, row: NodeRow, quarantine: bool)
    requires Inv(rules, db) && WriteNode(db, node, row, quarantine).Ok?
    ensures Inv(rules, WriteNode(db, node, row, quarantine).value)
  {
    var written := db.(nodes := db.nodes[node := row]);
    assert Inv(rules, written);
    if quarantine {
      QuarantineEditsShrink(rules, written, node);
      EditKeepsInv(rules, written, QuarantineEdits(written, node));
    }
  }

  lemma UpdateNodeKeepsInv(rules: Rules, db: Tables, node: string, enabled: bool, certificate: Certificate, labels: Labels, ifMatch: int)
    requires Inv(rules, db) && UpdateNode(db, node, enabled, certificate, labels, ifMatch).Ok?
    ensures Inv(rules, UpdateNode(db, node, enabled, certificate, labels, ifMatch).value)
  {
    var before := db.nodes[node];
    WriteNodeKeepsInv(rules, db, node, NodeRow(enabled, certificate, labels, before.revision + 1), Quarantines(before, enabled, certificate));
  }

  lemma DecommissionKeepsInv(rules: Rules, db: Tables, node: string, ifMatch: int)
    requires Inv(rules, db) && DecommissionNode(db, node, ifMatch).Ok?
    ensures Inv(rules, DecommissionNode(db, node, ifMatch).value)
  {
    var before := db.nodes[node];
    if before.enabled || before.certificate != CertDecommissioned {
      WriteNodeKeepsInv(rules, db, node, before.(enabled := false, certificate := CertDecommissioned, revision := before.revision + 1), true);
    }
  }

  lemma QuarantineEditsShrink(rules: Rules, db: Tables, node: string)
    requires RowsFine(rules, db)
    ensures var edits := QuarantineEdits(db, node); AllShrink(db, edits) && AllModest(db, edits) && AllStay(db, edits)
  {
    var edits := QuarantineEdits(db, node);
    forall id | id in edits ensures Shrinks(db.assignments[id], db.bindings[id], edits[id]) {
      PlainEditShrinks(rules, db, id, edits[id]);
    }
  }

  // ---------- services ----------

  lemma BumpKeepsInv(rules: Rules, db: Tables, service: string)
    requires Inv(rules, db) && Bump(db, service).Ok?
    ensures Inv(rules, Bump(db, service).value)
  {
    BumpEditsShrink(rules, db, service);
    EditKeepsInv(rules, db, BumpEdits(db, service));
  }

  lemma BumpEditsShrink(rules: Rules, db: Tables, service: string)
    requires RowsFine(rules, db)
    ensures var edits := BumpEdits(db, service); AllShrink(db, edits) && AllModest(db, edits) && AllStay(db, edits)
  {
    var edits := BumpEdits(db, service);
    forall id | id in edits ensures Shrinks(db.assignments[id], db.bindings[id], edits[id]) {
      assert RowFine(rules, db.services, db.specs, db.assignments[id], db.bindings[id]);
      PlainEditShrinks(rules, db, id, edits[id]);
    }
  }

  lemma ServiceWriteRow(rules: Rules, db: Tables, s: Service, row: Row, ports: seq<PortRow>)
    requires rules.Idempotent() && RowFine(rules, db.services, db.specs, row, ports)
    requires s.id in row.services ==> s.id in db.services && Fixed(db.services[s.id].value, s)
    ensures RowFine(rules, WriteService(rules, db, s).services, db.specs, row, ports)
  {
    var services := WriteService(rules, db, s).services;
    var spec := db.specs[row.gatewayID].value.gateway;
    forall m | m in row.services ensures MemberFine(services, row.agentID, m) {
      assert MemberFine(db.services, row.agentID, m);
    }
    forall p | p in ports ensures PortFine(rules, services, spec, row, p) {
      assert PortFine(rules, db.services, spec, row, p);
    }
  }

  lemma PutServiceKeepsInv(rules: Rules, db: Tables, s: Service, ifMatch: int)
    requires rules.Idempotent() && Inv(rules, db) && PutService(rules, db, s, ifMatch).Ok?
    ensures Inv(rules, PutService(rules, db, s, ifMatch).value)
  {
    var written := WriteService(rules, db, s);
    forall id | id in db.assignments
      ensures RowFine(rules, written.services, written.specs, db.assignments[id], db.bindings[id])
    {
      var row := db.assignments[id];
      assert RowFine(rules, db.services, db.specs, row, db.bindings[id]);
      if s.id in row.services {
        assert MemberFine(db.services, row.agentID, s.id);
        assert ServiceTaken(db, s.id);
      }
      ServiceWriteRow(rules, db, s, row, db.bindings[id]);
    }
    assert Inv(rules, written);
    if s.id in db.services && db.services[s.id].value != s {
      BumpKeepsInv(rules, written, s.id);
    }
  }

  lemma {:induction false} WithoutIDIs(ids: seq<string>, id: string)
    requires Distinct(ids)
    ensures var r := WithoutID(ids, id); Distinct(r) && forall s :: s in r <==> s in ids && s != id
  {
    if ids != [] {
      WithoutIDIs(ids[1..], id);
      var rest := WithoutID(ids[1..], id);
      assert ids[0] !in ids[1..];
      assert forall s :: s in ids <==> s == ids[0] || s in ids[1..];
      assert Distinct([ids[0]] + rest);
    }
  }

  lemma {:induction false} WithoutServiceIs(ports: seq<PortRow>, service: string)
    requires SocketsApart(ports)
    ensures var r := WithoutService(ports, service);
            SocketsApart(r) && forall p :: p in r <==> p in ports && p.binding.serviceID != service
  {
    if ports != [] {
      WithoutServiceIs(ports[1..], service);
      var rest := WithoutService(ports[1..], service);
      assert forall p :: p in ports <==> p == ports[0] || p in ports[1..];
      forall p | p in rest ensures !SameSocket(ports[0], p) {
        var i :| 0 <= i < |ports[1..]| && ports[1..][i] == p;
        assert !SameSocket(ports[0], ports[i + 1]);
      }
      assert SocketsApart([ports[0]] + rest);
    }
  }

  lemma DetachShrinks(rules: Rules, db: Tables, service: string, id: string)
    requires RowsFine(rules, db) && id in DetachEdits(db, service)
    ensures Shrinks(db.assignments[id], db.bindings[id], DetachEdits(db, service)[id])
  {
    var row, ports, e := db.assignments[id], db.bindings[id], DetachEdits(db, service)[id];
    assert RowFine(rules, db.services, db.specs, row, ports);
    WithoutIDIs(row.services, service);
    WithoutServiceIs(ports, service);
    forall p | p in e.ports ensures p in ports && p.binding.serviceID in e.row.services {
      assert PortFine(rules, db.services, db.specs[row.gatewayID].value.gateway, row, p);
    }
  }

  lemma DetachKeepsInv(rules: Rules, db: Tables, service: string)
    requires Inv(rules, db) && Detach(db, service).Ok?
    ensures Inv(rules, Detach(db, service).value) && Detach(db, service).value.services == db.services
    ensures !ServiceTaken(Detach(db, service).value, service)
  {
    var rest := Drop(db, Emptied(db, service));
    var edits := DetachEdits(rest, service);
    DropKeepsInv(rules, db, Emptied(db, service));
    DetachEditsShrink(rules, rest, service);
    EditKeepsInv(rules, rest, edits);
    DetachedIsFree(rules, rest, service);
  }

  lemma DetachEditsShrink(rules: Rules, db: Tables, service: string)
    requires RowsFine(rules, db)
    ensures var edits := DetachEdits(db, service); AllShrink(db, edits) && AllModest(db, edits) && AllStay(db, edits)
  {
    var edits := DetachEdits(db, service);
    forall id | id in edits ensures Shrinks(db.assignments[id], db.bindings[id], edits[id]) {
      DetachShrinks(rules, db, service, id);
    }
  }

  lemma DetachedIsFree(rules: Rules, db: Tables, service: string)
    requires RowsFine(rules, db)
    ensures !ServiceTaken(EditAll(db, DetachEdits(db, service)), service)
  {
    var after := EditAll(db, DetachEdits(db, service));
    forall id | id in after.assignments ensures service !in after.assignments[id].services {
      assert RowFine(rules, db.services, db.specs, db.assignments[id], db.bindings[id]);
      WithoutIDIs(db.assignments[id].services, service);
    }
  }

  lemma DeleteServiceKeepsInv(rules: Rules, db: Tables, service: string, ifMatch: int)
    requires Inv(rules, db) && DeleteService(db, service, ifMatch).Ok?
    ensures Inv(rules, DeleteService(db, service, ifMatch).value)
  {
    DetachKeepsInv(rules, db, service);
    var detached := Detach(db, service).value;
    var services := detached.services - {service};
    forall id | id in detached.assignments
      ensures RowFine(rules, services, detached.specs, detached.assignments[id], detached.bindings[id])
    {
      var row := detached.assignments[id];
      assert RowFine(rules, detached.services, detached.specs, row, detached.bindings[id]);
      assert service !in row.services;
      forall m | m in row.services ensures MemberFine(services, row.agentID, m) {
        assert MemberFine(detached.services, row.agentID, m);
      }
      var spec := detached.specs[row.gatewayID].value.gateway;
      forall p | p in detached.bindings[id] ensures PortFine(rules, services, spec, row, p) {
        assert PortFine(rules, detached.services, spec, row, p);
      }
    }
  }

  // ---------- node specs ----------

  // The roles and pools that assignments depend on are still there.
  ghost predicate SpecsServe(rules: Rules, db: Tables, specs: Specs, id: string)
    requires id in db.assignments && id in db.bindings
  {
    var row := db.assignments[id];
    && IsGateway(specs, row.gatewayID) && IsAgent(specs, row.agentID)
    && forall p :: p in db.bindings[id] ==> Serveable(rules, specs[row.gatewayID].value.gateway, p.binding)
  }

  lemma SpecChangeKeepsCore(rules: Rules, db: Tables, specs: Specs)
    requires Core(rules, db) && forall id :: id in db.assignments ==> SpecsServe(rules, db, specs, id)
    ensures Core(rules, db.(specs := specs))
  {
    forall id | id in db.assignments ensures RowFine(rules, db.services, specs, db.assignments[id], db.bindings[id]) {
      var row := db.assignments[id];
      assert RowFine(rules, db.services, db.specs, row, db.bindings[id]) && SpecsServe(rules, db, specs, id);
      forall p | p in db.bindings[id] ensures PortFine(rules, db.services, specs[row.gatewayID].value.gateway, row, p) {
        assert PortFine(rules, db.services, db.specs[row.gatewayID].value.gateway, row, p);
        assert Serveable(rules, specs[row.gatewayID].value.gateway, p.binding);
      }
    }
  }

  lemma StillServed(rules: Rules, db: Tables, id: string)
    requires RowsFine(rules, db) && id in db.assignments
    ensures SpecsServe(rules, db, db.specs, id)
  {
    var row := db.assignments[id];
    assert RowFine(rules, db.services, db.specs, row, db.bindings[id]);
    forall p | p in db.bindings[id] ensures Serveable(rules, db.specs[row.gatewayID].value.gateway, p.binding) {
      assert PortFine(rules, db.services, db.specs[row.gatewayID].value.gateway, row, p);
    }
  }

  lemma PutSpecServes(rules: Rules, db: Tables, node: string, spec: Spec, ifMatch: int, id: string)
    requires RowsFine(rules, db) && id in db.assignments && PutSpec(rules, db, node, spec, ifMatch).Ok?
    ensures SpecsServe(rules, db, WriteSpec(db, node, spec).specs, id)
  {
    var row := db.assignments[id];
    StillServed(rules, db, id);
    if row.gatewayID == node {
      assert HasDependents(db, node) && spec.GatewayRole?;
      forall p | p in db.bindings[id] ensures Serveable(rules, spec.gateway, p.binding) {
        assert RowFine(rules, db.services, db.specs, row, db.bindings[id]);
        assert PortFine(rules, db.services, db.specs[node].value.gateway, row, p);
        assert !Obstructs(rules, db, node, spec.gateway);
      }
    } else if row.agentID == node {
      assert HasDependents(db, node) && spec.AgentRole?;
    }
  }

  lemma PutSpecKeepsInv(rules: Rules, db: Tables, node: string, spec: Spec, ifMatch: int)
    requires Inv(rules, db) && PutSpec(rules, db, node, spec, ifMatch).Ok?
    ensures Inv(rules, PutSpec(rules, db, node, spec, ifMatch).value)
  {
    var written := WriteSpec(db, node, spec);
    forall id | id in db.assignments ensures SpecsServe(rules, db, written.specs, id) {
      PutSpecServes(rules, db, node, spec, ifMatch, id);
    }
    SpecChangeKeepsCore(rules, db, written.specs);
    if spec.AgentRole? {
      forall id | id in written.assignments ensures EndpointFine(written.specs, written.assignments[id]) {
        assert EndpointFine(db.specs, db.assignments[id]) && SpecsServe(rules, db, written.specs, id);
      }
    } else {
      EndpointEditsKeepInv(rules, db, written, node, spec.gateway);
    }
  }

  lemma EndpointEditsKeepInv(rules: Rules, db: Tables, written: Tables, node: string, spec: GatewaySpec)
    requires Core(rules, written) && EndpointsFine(db) && spec.endpoints != []
    requires written == WriteSpec(db, node, GatewayRole(spec))
    ensures Inv(rules, EditAll(written, EndpointEdits(written, node, spec)))
  {
    EndpointEditsShrink(rules, written, node, spec);
    EditKeepsCore(rules, written, EndpointEdits(written, node, spec));
    EndpointsRepaired(rules, db, written, node, spec);
  }

  lemma EndpointEditsShrink(rules: Rules, db: Tables, node: string, spec: GatewaySpec)
    requires RowsFine(rules, db) && spec.endpoints != []
    ensures AllShrink(db, EndpointEdits(db, node, spec)) && AllModest(db, EndpointEdits(db, node, spec))
  {
    var edits := EndpointEdits(db, node, spec);
    forall id | id in edits ensures Shrinks(db.assignments[id], db.bindings[id], edits[id]) {
      assert RowFine(rules, db.services, db.specs, db.assignments[id], db.bindings[id]);
      PlainEditShrinks(rules, db, id, edits[id]);
    }
  }

  lemma EndpointsRepaired(rules: Rules, db: Tables, written: Tables, node: string, spec: GatewaySpec)
    requires RowsFine(rules, written) && EndpointsFine(db) && spec.endpoints != []
    requires written == WriteSpec(db, node, GatewayRole(spec))
    ensures EndpointsFine(EditAll(written, EndpointEdits(written, node, spec)))
  {
    var edits := EndpointEdits(written, node, spec);
    var after := EditAll(written, edits);
    forall id | id in after.assignments ensures EndpointFine(after.specs, after.assignments[id]) {
      var row := db.assignments[id];
      assert EndpointFine(db.specs, row);
      if id in edits {
        assert after.assignments[id] == edits[id].row && EndpointFor(row, spec) in spec.endpoints;
      } else if row.gatewayID == node {
        assert after.assignments[id] == row && row.endpoint in spec.endpoints;
      } else {
        assert after.assignments[id] == row;
      }
    }
  }

  lemma DeleteSpecKeepsInv(rules: Rules, db: Tables, node: string, ifMatch: int)
    requires Inv(rules, db) && DeleteSpec(db, node, ifMatch).Ok?
    ensures Inv(rules, DeleteSpec(db, node, ifMatch).value)
  {
    var specs := db.specs - {node};
    forall id | id in db.assignments ensures SpecsServe(rules, db, specs, id) && EndpointFine(specs, db.assignments[id]) {
      StillServed(rules, db, id);
      assert EndpointFine(db.specs, db.assignments[id]);
      assert db.assignments[id].gatewayID == node || db.assignments[id].agentID == node ==> HasDependents(db, node);
    }
    SpecChangeKeepsCore(rules, db, specs);
  }

  // ---------- runs ----------

  // The trace of a run: each state follows from the one before by one step.
  ghost predicate IsRun(rules: Rules, trace: seq<Tables>, steps: seq<Step>) {
    |trace| == |steps| + 1 && forall i: nat :: i < |steps| ==> StepAt(rules, trace, steps, i)
  }

  ghost predicate StepAt(rules: Rules, trace: seq<Tables>, steps: seq<Step>, i: nat)
    requires i < |steps| && |trace| == |steps| + 1
  {
    trace[i + 1] == Commit(rules, trace[i], steps[i])
  }

  lemma StepKeepsInv(rules: Rules, db: Tables, step: Step)
    requires rules.Idempotent() && Inv(rules, db)
    ensures Inv(rules, Commit(rules, db, step))
  {
    if Transaction(rules, db, step).Ok? {
      match step
      case StepPut(a, m) => PutKeepsInv(rules, db, a, m);
      case StepState(id, state, m) => UpdateStateKeepsInv(rules, db, id, state, m);
      case StepDelete(id, m) => DropKeepsInv(rules, db, {id});
      case StepResult(node, generation, applied) => NodeResultKeepsInv(rules, db, node, generation, applied);
      case StepPutService(service, m) => PutServiceKeepsInv(rules, db, service, m);
      case StepDeleteService(id, m) => DeleteServiceKeepsInv(rules, db, id, m);
      case StepPutSpec(node, spec, m) => PutSpecKeepsInv(rules, db, node, spec, m);
      case StepDeleteSpec(node, m) => DeleteSpecKeepsInv(rules, db, node, m);
      case StepAddNode(node, row) => WriteNodeKeepsInv(rules, db, node, row.(revision := 1), false);
      case StepUpdateNode(node, enabled, certificate, labels, m) => UpdateNodeKeepsInv(rules, db, node, enabled, certificate, labels, m);
      case StepDecommission(node, m) => DecommissionKeepsInv(rules, db, node, m);
    }
  }

  // Every state of every run from empty tables satisfies the invariants.
  lemma {:induction false} RunKeepsInv(rules: Rules, trace: seq<Tables>, steps: seq<Step>, i: nat)
    requires rules.Idempotent() && IsRun(rules, trace, steps) && trace[0] == EMPTY && i < |trace|
    ensures Inv(rules, trace[i])
  {
    if i > 0 {
      RunKeepsInv(rules, trace, steps, i - 1);
      assert StepAt(rules, trace, steps, i - 1);
      StepKeepsInv(rules, trace[i - 1], steps[i - 1]);
    }
  }
}
