/** Whole runs of the assignment store. */
module StoreRuns {
  import opened Bytes
  import opened Ordering
  import opened Domain
  import opened Store
  import opened StoreInvariants

  // ---------- one socket, one binding ----------

  // Stored bindings on one gateway with one protocol, address and port are one
  // row: the same assignment's, at the same position.
  lemma OneBindingPerSocket(rules: Rules, db: Tables, id: string, i: nat, id': string, j: nat)
    requires Inv(rules, db) && id in db.bindings && i < |db.bindings[id]| && id' in db.bindings && j < |db.bindings[id']|
    requires var p, q := db.bindings[id][i], db.bindings[id'][j];
             p.gatewayID == q.gatewayID && p.binding.protocol == q.binding.protocol
             && rules.canon(p.binding.bind) == rules.canon(q.binding.bind) && p.binding.port == q.binding.port
    ensures id == id' && i == j
  {
    var p, q := db.bindings[id][i], db.bindings[id'][j];
    assert RowFine(rules, db.services, db.specs, db.assignments[id], db.bindings[id]);
    assert RowFine(rules, db.services, db.specs, db.assignments[id'], db.bindings[id']);
    assert p in db.bindings[id] && q in db.bindings[id'];
    assert PortFine(rules, db.services, db.specs[db.assignments[id].gatewayID].value.gateway, db.assignments[id], p);
    assert PortFine(rules, db.services, db.specs[db.assignments[id'].gatewayID].value.gateway, db.assignments[id'], q);
    assert id == id' || Apart(db.assignments[id], db.bindings[id], db.assignments[id'], db.bindings[id']);
    assert SameSocket(p, q) && SameSocket(q, p);
  }

  // ---------- how a row may change ----------

  // Generations and revisions do not fall, and any change takes a new revision.
  ghost predicate Forward(before: Row, after: Row) {
    before.generation <= after.generation && before.revision <= after.revision
    && (before != after ==> before.revision < after.revision)
  }

  ghost predicate StaysRelinquished(before: Row, after: Row) {
    Relinquished(before.state) ==> Relinquished(after.state)
  }

  ghost predicate NotYetApplied(before: Row, after: Row) {
    after.state == Applied ==> before.state == Applied
  }

  // The steps that may take an assignment out of degraded or draining.
  predicate Reinstates(step: Step, id: string) {
    (step.StepPut? && step.a.id == id) || (step.StepState? && step.id == id)
  }

  // A row's next version under a step, when it survives.
  lemma EditedRow(db: Tables, edits: map<string, Edit>, id: string)
    requires id in db.assignments
    ensures id in EditAll(db, edits).assignments
    ensures EditAll(db, edits).assignments[id] == if id in edits then edits[id].row else db.assignments[id]
  {
  }

  // What a change derived from another resource may do to a row.
  ghost predicate Derived(before: Row, after: Row) {
    Forward(before, after) && StaysRelinquished(before, after) && NotYetApplied(before, after)
  }

  lemma EditedForward(db: Tables, edits: map<string, Edit>, id: string)
    requires id in db.assignments && (id in edits ==> Forward(db.assignments[id], edits[id].row))
    requires id in edits ==> StaysRelinquished(db.assignments[id], edits[id].row) && NotYetApplied(db.assignments[id], edits[id].row)
    ensures var after := EditAll(db, edits).assignments[id]; Derived(db.assignments[id], after)
  {
    EditedRow(db, edits, id);
  }

  lemma PutMoves(rules: Rules, db: Tables, a: Assignment, ifMatch: int, id: string)
    requires Put(rules, db, a, ifMatch).Ok? && id in db.assignments && id in Put(rules, db, a, ifMatch).value.assignments
    ensures var after := Put(rules, db, a, ifMatch).value.assignments[id];
            Forward(db.assignments[id], after) && (id == a.id || after == db.assignments[id])
  {
  }

  lemma ServiceMoves(rules: Rules, db: Tables, s: Service, ifMatch: int, id: string)
    requires PutService(rules, db, s, ifMatch).Ok? && id in db.assignments
    ensures var db' := PutService(rules, db, s, ifMatch).value;
            id in db'.assignments && Derived(db.assignments[id], db'.assignments[id])
  {
    var written := WriteService(rules, db, s);
    if s.id in db.services && db.services[s.id].value != s {
      EditedForward(written, BumpEdits(written, s.id), id);
    }
  }

  lemma DetachMoves(db: Tables, service: string, id: string)
    requires Detach(db, service).Ok? && id in db.assignments && id in Detach(db, service).value.assignments
    ensures Derived(db.assignments[id], Detach(db, service).value.assignments[id])
  {
    var rest := Drop(db, Emptied(db, service));
    EditedForward(rest, DetachEdits(rest, service), id);
  }

  lemma SpecMoves(rules: Rules, db: Tables, node: string, spec: Spec, ifMatch: int, id: string)
    requires PutSpec(rules, db, node, spec, ifMatch).Ok? && id in db.assignments
    ensures var db' := PutSpec(rules, db, node, spec, ifMatch).value;
            id in db'.assignments && Derived(db.assignments[id], db'.assignments[id])
  {
    var written := WriteSpec(db, node, spec);
    if spec.GatewayRole? {
      EditedForward(written, EndpointEdits(written, node, spec.gateway), id);
    }
  }

  lemma ResultMoves(db: Tables, node: string, generation: nat, applied: bool, id: string)
    requires NodeResult(db, node, generation, applied).Ok? && id in db.assignments
    ensures var after := NodeResult(db, node, generation, applied).value.assignments[id];
            Forward(db.assignments[id], after) && StaysRelinquished(db.assignments[id], after)
  {
    EditedRow(db.(acks := Acked(db, node, generation, applied)), ResultEdits(db, node, generation, applied), id);
  }

  lemma NodeMoves(db: Tables, node: string, row: NodeRow, quarantine: bool, id: string)
    requires WriteNode(db, node, row, quarantine).Ok? && id in db.assignments
    ensures Derived(db.assignments[id], WriteNode(db, node, row, quarantine).value.assignments[id])
  {
    var written := db.(nodes := db.nodes[node := row]);
    if quarantine {
      EditedForward(written, QuarantineEdits(written, node), id);
    }
  }

  lemma UpdateNodeMoves(db: Tables, node: string, enabled: bool, certificate: Certificate, labels: Labels, ifMatch: int, id: string)
    requires UpdateNode(db, node, enabled, certificate, labels, ifMatch).Ok? && id in db.assignments
    ensures Derived(db.assignments[id], UpdateNode(db, node, enabled, certificate, labels, ifMatch).value.assignments[id])
  {
    var before := db.nodes[node];
    NodeMoves(db, node, NodeRow(enabled, certificate, labels, before.revision + 1), Quarantines(before, enabled, certificate), id);
  }

  lemma DecommissionMoves(db: Tables, node: string, ifMatch: int, id: string)
    requires DecommissionNode(db, node, ifMatch).Ok? && id in db.assignments
    ensures Derived(db.assignments[id], DecommissionNode(db, node, ifMatch).value.assignments[id])
  {
    var before := db.nodes[node];
    if before.enabled || before.certificate != CertDecommissioned {
      NodeMoves(db, node, before.(enabled := false, certificate := CertDecommissioned, revision := before.revision + 1), true, id);
    }
  }

  // Over one step an assignment that survives moves forward, and leaves degraded
  // or draining only when it is put or its state is set.
  lemma StepMoves(rules: Rules, db: Tables, step: Step, id: string)
    requires id in db.assignments && id in Commit(rules, db, step).assignments
    ensures var after := Commit(rules, db, step).assignments[id];
            Forward(db.assignments[id], after) && (Reinstates(step, id) || StaysRelinquished(db.assignments[id], after))
  {
    if Transaction(rules, db, step).Ok? {
      match step
      case StepPut(a, m) => PutMoves(rules, db, a, m, id);
      case StepState(id', state, m) => EditedRow(db, map[id' := StateEdit(db, id', state)], id);
      case StepDelete(_, _) =>
      case StepResult(node, generation, applied) => ResultMoves(db, node, generation, applied, id);
      case StepPutService(service, m) => ServiceMoves(rules, db, service, m, id);
      case StepDeleteService(service, m) => DetachMoves(db, service, id);
      case StepPutSpec(node, spec, m) => SpecMoves(rules, db, node, spec, m, id);
      case StepDeleteSpec(_, _) =>
      case StepAddNode(node, row) => NodeMoves(db, node, row.(revision := 1), false, id);
      case StepUpdateNode(node, enabled, certificate, labels, m) => UpdateNodeMoves(db, node, enabled, certificate, labels, m, id);
      case StepDecommission(node, m) => DecommissionMoves(db, node, m, id);
    }
  }

  lemma NextMove(rules: Rules, trace: seq<Tables>, steps: seq<Step>, id: string, i: nat, next: nat)
    requires IsRun(rules, trace, steps) && next == i + 1 < |trace| && id in trace[i].assignments && id in trace[next].assignments
    ensures Forward(trace[i].assignments[id], trace[next].assignments[id])
    ensures Reinstates(steps[i], id) || StaysRelinquished(trace[i].assignments[id], trace[next].assignments[id])
  {
    assert StepAt(rules, trace, steps, i);
    StepMoves(rules, trace[i], steps[i], id);
  }

  // While an assignment exists, its generation and revision never fall, and
  // once relinquished it stays so until it is put again or its state is set.
  lemma {:induction false} RunMoves(rules: Rules, trace: seq<Tables>, steps: seq<Step>, id: string, i: nat, j: nat)
    requires IsRun(rules, trace, steps) && i <= j < |trace| && forall k :: i <= k <= j ==> id in trace[k].assignments
    ensures Forward(trace[i].assignments[id], trace[j].assignments[id])
    ensures (forall k :: i <= k < j ==> !Reinstates(steps[k], id)) ==>
              StaysRelinquished(trace[i].assignments[id], trace[j].assignments[id])
    decreases j - i
  {
    if i < j {
      RunMoves(rules, trace, steps, id, i, j - 1);
      NextMove(rules, trace, steps, id, j - 1, j);
    }
  }

  // ---------- becoming applied ----------

  lemma PutDoesNotApply(rules: Rules, db: Tables, a: Assignment, ifMatch: int, id: string)
    requires Put(rules, db, a, ifMatch).Ok? && id in Put(rules, db, a, ifMatch).value.assignments
    ensures Put(rules, db, a, ifMatch).value.assignments[id].state == Applied ==>
              id in db.assignments && db.assignments[id].state == Applied
  {
  }

  // Only a node's report can make an assignment applied.
  lemma OtherStepsDoNotApply(rules: Rules, db: Tables, step: Step, id: string)
    requires !step.StepResult? && id in db.assignments && id in Commit(rules, db, step).assignments
    ensures NotYetApplied(db.assignments[id], Commit(rules, db, step).assignments[id])
  {
    if Transaction(rules, db, step).Ok? {
      match step
      case StepPut(a, m) => PutDoesNotApply(rules, db, a, m, id);
      case StepState(id', state, m) => EditedRow(db, map[id' := StateEdit(db, id', state)], id);
      case StepDelete(_, _) =>
      case StepPutService(service, m) => ServiceMoves(rules, db, service, m, id);
      case StepDeleteService(service, m) => DetachMoves(db, service, id);
      case StepPutSpec(node, spec, m) => SpecMoves(rules, db, node, spec, m, id);
      case StepDeleteSpec(_, _) =>
      case StepAddNode(node, row) => NodeMoves(db, node, row.(revision := 1), false, id);
      case StepUpdateNode(node, enabled, certificate, labels, m) => UpdateNodeMoves(db, node, enabled, certificate, labels, m, id);
      case StepDecommission(node, m) => DecommissionMoves(db, node, m, id);
    }
  }

  function Peer(row: Row, node: string): string { if node == row.gatewayID then row.agentID else row.gatewayID }

  // An assignment becomes applied exactly by a participant's report of success,
  // at a generation that covers it, when its peer's ack is already there.
  lemma BecomesApplied(rules: Rules, db: Tables, step: Step, id: string)
    requires Inv(rules, db) && id in db.assignments && id in Commit(rules, db, step).assignments && Transaction(rules, db, step).Ok?
    ensures Commit(rules, db, step).assignments[id].state == Applied && db.assignments[id].state != Applied <==>
            && step.StepResult? && step.applied && db.assignments[id].state == Pending
            && Concerns(db.assignments[id], step.node, step.generation)
            && AppliedAck(db.acks, id, Peer(db.assignments[id], step.node), db.assignments[id].generation)
  {
    if step.StepResult? {
      ResultApplies(rules, db, step.node, step.generation, step.applied, id);
    } else if Commit(rules, db, step).assignments[id].state == Applied {
      OtherStepsDoNotApply(rules, db, step, id);
    }
  }

  lemma ResultApplies(rules: Rules, db: Tables, node: string, generation: nat, applied: bool, id: string)
    requires Inv(rules, db) && NodeResult(db, node, generation, applied).Ok? && id in db.assignments
    ensures var row, after := db.assignments[id], NodeResult(db, node, generation, applied).value.assignments[id];
            after.state == Applied && row.state != Applied <==>
            row.state == Pending && applied && Concerns(row, node, generation) && AppliedAck(db.acks, id, Peer(row, node), row.generation)
  {
    var row := db.assignments[id];
    var acks := Acked(db, node, generation, applied);
    EditedRow(db.(acks := acks), ResultEdits(db, node, generation, applied), id);
    assert RowFine(rules, db.services, db.specs, row, db.bindings[id]);
    if Concerns(row, node, generation) {
      ReadyWithPeer(db, node, generation, applied, id);
    }
  }

  // With this report recorded, the participants are all in if the peer was.
  lemma ReadyWithPeer(db: Tables, node: string, generation: nat, applied: bool, id: string)
    requires id in db.assignments && Concerns(db.assignments[id], node, generation)
    requires db.assignments[id].gatewayID != db.assignments[id].agentID
    ensures var row := db.assignments[id];
            ParticipantsApplied(Acked(db, node, generation, applied), id, row) <==>
            applied && AppliedAck(db.acks, id, Peer(row, node), row.generation)
  {
    var row := db.assignments[id];
    CountIsBoth(Acked(db, node, generation, applied), id, row);
    AckedIs(db, node, generation, applied, AckKey(id, row.gatewayID));
    AckedIs(db, node, generation, applied, AckKey(id, row.agentID));
  }

  lemma SuccessAcked(db: Tables, node: string, g: nat, id: string)
    requires NodeResult(db, node, g, true).Ok? && id in db.assignments && Concerns(db.assignments[id], node, g)
    ensures AppliedAck(NodeResult(db, node, g, true).value.acks, id, node, db.assignments[id].generation)
  {
    AckedIs(db, node, g, true, AckKey(id, node));
    ResultKeepsAcks(db, node, g, true);
  }

  // A successful report changes a row's state at most to applied.
  lemma SuccessReported(db: Tables, node: string, g: nat, id: string)
    requires NodeResult(db, node, g, true).Ok? && id in db.assignments
    ensures var row, after := db.assignments[id], NodeResult(db, node, g, true).value;
            && id in after.assignments && after.assignments[id].(state := row.state, revision := row.revision) == row
            && after.assignments[id].state in {row.state, Applied}
  {
    EditedRow(db.(acks := Acked(db, node, g, true)), ResultEdits(db, node, g, true), id);
  }

  // Successful reports of both participants, in either order, apply a pending
  // assignment whose generation they cover.
  lemma BothReportsApply(rules: Rules, db: Tables, id: string, node: string, g: nat, g': nat)
    requires Inv(rules, db) && id in db.assignments && db.assignments[id].state == Pending
    requires Participant(db.assignments[id], node) && db.assignments[id].generation <= g && db.assignments[id].generation <= g'
    requires NodeResult(db, node, g, true).Ok? && NodeResult(NodeResult(db, node, g, true).value, Peer(db.assignments[id], node), g', true).Ok?
    ensures NodeResult(NodeResult(db, node, g, true).value, Peer(db.assignments[id], node), g', true).value.assignments[id].state == Applied
  {
    var row, mid := db.assignments[id], NodeResult(db, node, g, true).value;
    assert RowFine(rules, db.services, db.specs, row, db.bindings[id]);
    NodeResultKeepsInv(rules, db, node, g, true);
    SuccessAcked(db, node, g, id);
    SuccessReported(db, node, g, id);
    SecondReport(rules, mid, id, row.(state := mid.assignments[id].state, revision := mid.assignments[id].revision), node, g');
  }

  lemma SecondReport(rules: Rules, db: Tables, id: string, row: Row, node: string, g: nat)
    requires Inv(rules, db) && id in db.assignments && db.assignments[id] == row && row.state in {Pending, Applied}
    requires Participant(row, node) && row.generation <= g && AppliedAck(db.acks, id, node, row.generation)
    requires NodeResult(db, Peer(row, node), g, true).Ok?
    ensures NodeResult(db, Peer(row, node), g, true).value.assignments[id].state == Applied
  {
    assert RowFine(rules, db.services, db.specs, row, db.bindings[id]);
    assert Peer(row, Peer(row, node)) == node;
    SuccessReported(db, Peer(row, node), g, id);
    ResultApplies(rules, db, Peer(row, node), g, true, id);
  }

  // ---------- what a write does to the other rows ----------

  ghost predicate Shares(services: seq<string>, row: Row) {
    exists s :: s in services && s in row.services
  }

  ghost predicate Untouched(db: Tables, db': Tables, id: string)
    requires id in db.assignments && id in db.bindings
  {
    && id in db'.assignments && id in db'.bindings
    && db'.assignments[id] == db.assignments[id] && db'.bindings[id] == db.bindings[id]
    && forall node :: var k := AckKey(id, node); (k in db'.acks <==> k in db.acks) && (k in db.acks ==> db'.acks[k] == db.acks[k])
  }

  ghost predicate Unacked(db: Tables, id: string) {
    forall node :: AckKey(id, node) !in db.acks
  }

  // A put stores what was asked for: placement, services and bindings with
  // normal addresses, none of them for a relinquished row, and no acks.
  lemma PutStores(rules: Rules, db: Tables, a: Assignment, ifMatch: int)
    requires Put(rules, db, a, ifMatch).Ok?
    ensures var db' := Put(rules, db, a, ifMatch).value;
            && a.id in db'.assignments && a.id in db'.bindings && Unacked(db', a.id)
            && db'.assignments[a.id].gatewayID == a.gatewayID && db'.assignments[a.id].agentID == a.agentID
            && db'.assignments[a.id].services == a.serviceIDs && db'.assignments[a.id].state == a.state
            && (forall b :: PortRow(a.gatewayID, b) in db'.bindings[a.id] <==>
                              !Relinquished(a.state) && exists c :: c in a.bindings && rules.Normal(c) == b)
  {
    var ports := PortsFor(rules, a);
    forall b | PortRow(a.gatewayID, b) in ports ensures exists c :: c in a.bindings && rules.Normal(c) == b {
      var i :| 0 <= i < |ports| && ports[i] == PortRow(a.gatewayID, b);
      assert a.bindings[i] in a.bindings && rules.Normal(a.bindings[i]) == b;
    }
    forall c | c in a.bindings && !Relinquished(a.state) ensures PortRow(a.gatewayID, rules.Normal(c)) in ports {
      var i :| 0 <= i < |a.bindings| && a.bindings[i] == c;
      assert ports[i] == PortRow(a.gatewayID, rules.Normal(c));
    }
  }

  // A put replaces exactly the relinquished assignments that hold one of its
  // services, and touches no other.
  lemma PutReplaces(rules: Rules, db: Tables, a: Assignment, ifMatch: int, other: string)
    requires Inv(rules, db) && Put(rules, db, a, ifMatch).Ok? && other in db.assignments && other != a.id
    ensures var db' := Put(rules, db, a, ifMatch).value;
            && (Shares(a.serviceIDs, db.assignments[other]) ==> other !in db'.assignments && Relinquished(db.assignments[other].state))
            && (!Shares(a.serviceIDs, db.assignments[other]) ==> Untouched(db, db', other))
  {
    var gone := Superseded(db, a.id, a.serviceIDs);
    assert other in gone <==> Shares(a.serviceIDs, db.assignments[other]);
    var base := Drop(db, gone + {a.id});
    AddSpares(base, a.id, RowFor(db, a), PortsFor(rules, a), other);
    if other in gone {
      OnlyRelinquished(rules, db, a, ifMatch, other);
    } else {
      DropSpares(db, gone + {a.id}, other);
    }
  }

  lemma AddSpares(db: Tables, id: string, row: Row, ports: seq<PortRow>, other: string)
    requires other != id
    ensures other in AddRow(db, id, row, ports).assignments <==> other in db.assignments
    ensures other in db.assignments && other in db.bindings ==> Untouched(db, AddRow(db, id, row, ports), other)
  {
  }

  lemma OnlyRelinquished(rules: Rules, db: Tables, a: Assignment, ifMatch: int, other: string)
    requires PutError(rules, db, a, ifMatch).None? && other in Superseded(db, a.id, a.serviceIDs)
    ensures Relinquished(db.assignments[other].state)
  {
  }

  // A failure report degrades every assignment it concerns, releases its
  // bindings and records the rejection; other rows and bindings stay.
  lemma FailureReleases(db: Tables, node: string, generation: nat, id: string)
    requires NodeResult(db, node, generation, false).Ok? && id in db.assignments && id in db.bindings
    ensures var row, db' := db.assignments[id], NodeResult(db, node, generation, false).value;
            && id in db'.assignments && id in db'.bindings
            && if Concerns(row, node, generation)
               then && Degrades(row, db'.assignments[id]) && db'.bindings[id] == []
                    && AckKey(id, node) in db'.acks && !db'.acks[AckKey(id, node)].applied
               else db'.assignments[id] == row && db'.bindings[id] == db.bindings[id]
  {
    EditedOrUntouched(db.(acks := Acked(db, node, generation, false)), ResultEdits(db, node, generation, false), id);
    AckedIs(db, node, generation, false, AckKey(id, node));
    ResultKeepsAcks(db, node, generation, false);
  }

  ghost predicate Degrades(before: Row, after: Row) {
    after == before.(state := Degraded, revision := if before.state == Degraded then before.revision else before.revision + 1)
  }

  // The node's placements are degraded, without bindings and acks, and no other
  // placement is touched.
  ghost predicate ClosedFor(db: Tables, db': Tables, node: string, id: string)
    requires id in db.assignments && id in db.bindings
  {
    if Participant(db.assignments[id], node)
    then && id in db'.assignments && id in db'.bindings
         && Degrades(db.assignments[id], db'.assignments[id]) && db'.bindings[id] == [] && Unacked(db', id)
    else Untouched(db, db', id)
  }

  lemma DisablingWrites(db: Tables, node: string, enabled: bool, certificate: Certificate, labels: Labels, ifMatch: int)
    requires UpdateNode(db, node, enabled, certificate, labels, ifMatch).Ok? && (!enabled || certificate != CertActive)
    ensures UpdateNode(db, node, enabled, certificate, labels, ifMatch)
            == WriteNode(db, node, NodeRow(enabled, certificate, labels, db.nodes[node].revision + 1), true)
  {
  }

  // Disabling a node, or leaving it without an active certificate, closes every
  // placement it takes part in.
  lemma DisablingCloses(rules: Rules, db: Tables, node: string, enabled: bool, certificate: Certificate, labels: Labels, ifMatch: int, id: string)
    requires Inv(rules, db) && UpdateNode(db, node, enabled, certificate, labels, ifMatch).Ok? && id in db.assignments
    requires !enabled || certificate != CertActive
    ensures ClosedFor(db, UpdateNode(db, node, enabled, certificate, labels, ifMatch).value, node, id)
  {
    DisablingWrites(db, node, enabled, certificate, labels, ifMatch);
    QuarantineCloses(db, node, NodeRow(enabled, certificate, labels, db.nodes[node].revision + 1), id);
  }

  lemma QuarantineCloses(db: Tables, node: string, row: NodeRow, id: string)
    requires WriteNode(db, node, row, true).Ok? && id in db.assignments && id in db.bindings
    ensures ClosedFor(db, WriteNode(db, node, row, true).value, node, id)
  {
    var written := db.(nodes := db.nodes[node := row]);
    EditedOrUntouched(written, QuarantineEdits(written, node), id);
  }

  // An assignment that a derived change touches must be applied anew.
  ghost predicate MustReapply(before: Row, after: Row) {
    && after.gatewayID == before.gatewayID && after.agentID == before.agentID
    && after.generation == before.generation + 1 && after.revision == before.revision + 1
    && after.state == (if before.state == Degraded || before.state == Draining then before.state else Pending)
  }

  ghost predicate SameTerms(before: Row, after: Row) {
    after.endpoint == before.endpoint && after.policy == before.policy
  }

  lemma EditedOrUntouched(db: Tables, edits: map<string, Edit>, id: string)
    requires id in db.assignments && id in db.bindings
    ensures var db' := EditAll(db, edits);
            && (id !in edits ==> Untouched(db, db', id))
            && (id in edits ==> db'.assignments[id] == edits[id].row && db'.bindings[id] == edits[id].ports)
            && (id in edits && edits[id].forget ==> Unacked(db', id))
  {
    EditedRow(db, edits, id);
  }

  // A changed service sends exactly its holder back to its participants.
  lemma ServiceChangeReopens(rules: Rules, db: Tables, s: Service, ifMatch: int, id: string)
    requires Inv(rules, db) && PutService(rules, db, s, ifMatch).Ok? && id in db.assignments
    requires s.id in db.services && db.services[s.id].value != s
    ensures var db' := PutService(rules, db, s, ifMatch).value;
            if s.id in db.assignments[id].services
            then && id in db'.assignments && id in db'.bindings && MustReapply(db.assignments[id], db'.assignments[id]) && Unacked(db', id)
                 && db'.assignments[id].services == db.assignments[id].services && SameTerms(db.assignments[id], db'.assignments[id])
                 && db'.bindings[id] == db.bindings[id]
            else Untouched(db, db', id)
  {
    var written := WriteService(rules, db, s);
    EditedOrUntouched(written, BumpEdits(written, s.id), id);
  }

  // A gateway edit sends back exactly its assignments whose endpoint is no
  // longer advertised or whose policy differs, with both brought up to date.
  lemma GatewayChangeReopens(rules: Rules, db: Tables, node: string, spec: GatewaySpec, ifMatch: int, id: string)
    requires Inv(rules, db) && PutSpec(rules, db, node, GatewayRole(spec), ifMatch).Ok? && id in db.assignments
    ensures var row, db' := db.assignments[id], PutSpec(rules, db, node, GatewayRole(spec), ifMatch).value;
            if row.gatewayID == node && (row.endpoint !in spec.endpoints || row.policy != spec.policy)
            then && id in db'.assignments && id in db'.bindings && MustReapply(row, db'.assignments[id]) && Unacked(db', id)
                 && db'.assignments[id].services == row.services && db'.bindings[id] == db.bindings[id]
                 && db'.assignments[id].endpoint == (if row.endpoint in spec.endpoints then row.endpoint else spec.endpoints[0])
                 && db'.assignments[id].policy == spec.policy
            else Untouched(db, db', id)
  {
    var written := WriteSpec(db, node, GatewayRole(spec));
    EditedOrUntouched(written, EndpointEdits(written, node, spec), id);
  }

  // Deleting a service takes it and its binding out of its holder, which must be
  // applied anew, or goes when it has no other service; nothing else changes.
  lemma ServiceDeletionDetaches(rules: Rules, db: Tables, service: string, ifMatch: int, id: string)
    requires Inv(rules, db) && DeleteService(db, service, ifMatch).Ok? && id in db.assignments
    ensures var row, db' := db.assignments[id], DeleteService(db, service, ifMatch).value;
            if service !in row.services then Untouched(db, db', id)
            else if forall s :: s in row.services ==> s == service then id !in db'.assignments
            else && id in db'.assignments && id in db'.bindings && MustReapply(row, db'.assignments[id]) && Unacked(db', id)
                 && SameTerms(row, db'.assignments[id]) && LeavesOut(row.services, service, db'.assignments[id].services)
                 && (forall p :: p in db'.bindings[id] <==> p in db.bindings[id] && p.binding.serviceID != service)
  {
    var row := db.assignments[id];
    assert RowFine(rules, db.services, db.specs, row, db.bindings[id]);
    WithoutIDIs(row.services, service);
    OnlyService(row.services, service);
    if service in row.services && WithoutID(row.services, service) == [] {
      EmptiedGoes(db, service, id);
    } else if service in row.services {
      DetachedRow(rules, db, service, id);
    } else {
      DetachSpares(db, service, id);
    }
  }

  // The rest is what was there without the one place that held the service.
  ghost predicate LeavesOut(ids: seq<string>, service: string, rest: seq<string>) {
    exists k :: 0 <= k < |ids| && ids[k] == service && rest == ids[..k] + ids[k + 1..]
  }

  lemma {:induction false} WithoutAbsent(ids: seq<string>, service: string)
    requires service !in ids
    ensures WithoutID(ids, service) == ids
  {
    if ids != [] {
      WithoutAbsent(ids[1..], service);
      assert ids == [ids[0]] + ids[1..];
    }
  }

  lemma {:induction false} WithoutIDLeavesOut(ids: seq<string>, service: string)
    requires Distinct(ids) && service in ids
    ensures LeavesOut(ids, service, WithoutID(ids, service))
  {
    var first, rest := ids[0], ids[1..];
    if first == service {
      WithoutAbsent(rest, service);
      assert ids[..0] + ids[0 + 1..] == rest;
    } else {
      WithoutIDLeavesOut(rest, service);
      var k :| 0 <= k < |rest| && rest[k] == service && WithoutID(rest, service) == rest[..k] + rest[k + 1..];
      LeftOutLater(ids, k);
    }
  }

  lemma LeftOutLater(ids: seq<string>, k: nat)
    requires k + 1 < |ids|
    ensures ids[..k + 1] + ids[k + 1 + 1..] == [ids[0]] + (ids[1..][..k] + ids[1..][k + 1..])
  {
  }

  lemma OnlyService(ids: seq<string>, service: string)
    requires Distinct(ids)
    ensures WithoutID(ids, service) == [] <==> forall s :: s in ids ==> s == service
  {
    WithoutIDIs(ids, service);
    var rest := WithoutID(ids, service);
    if rest != [] {
      assert rest[0] in rest;
    }
  }

  lemma EmptiedGoes(db: Tables, service: string, id: string)
    requires Detach(db, service).Ok? && id in Emptied(db, service)
    ensures id !in Detach(db, service).value.assignments
  {
  }

  // Dropping other rows does not touch this one.
  lemma DropSpares(db: Tables, gone: set<string>, id: string)
    requires id in db.assignments && id in db.bindings && id !in gone
    ensures Untouched(db, Drop(db, gone), id)
  {
  }

  lemma DetachSpares(db: Tables, service: string, id: string)
    requires Detach(db, service).Ok? && id in db.assignments && id in db.bindings && service !in db.assignments[id].services
    ensures Untouched(db, Detach(db, service).value, id)
  {
    var gone := Emptied(db, service);
    var rest := Drop(db, gone);
    DropSpares(db, gone, id);
    EditedOrUntouched(rest, DetachEdits(rest, service), id);
  }

  lemma DetachedRow(rules: Rules, db: Tables, service: string, id: string)
    requires Inv(rules, db) && Detach(db, service).Ok? && id in db.assignments
    requires service in db.assignments[id].services && WithoutID(db.assignments[id].services, service) != []
    ensures var row, db' := db.assignments[id], Detach(db, service).value;
            && id in db'.assignments && id in db'.bindings && MustReapply(row, db'.assignments[id]) && Unacked(db', id)
            && SameTerms(row, db'.assignments[id]) && LeavesOut(row.services, service, db'.assignments[id].services)
            && (forall p :: p in db'.bindings[id] <==> p in db.bindings[id] && p.binding.serviceID != service)
  {
    var row, rest := db.assignments[id], Drop(db, Emptied(db, service));
    DropSpares(db, Emptied(db, service), id);
    EditedOrUntouched(rest, DetachEdits(rest, service), id);
    assert RowFine(rules, db.services, db.specs, row, db.bindings[id]);
    WithoutIDLeavesOut(row.services, service);
    WithoutServiceIs(db.bindings[id], service);
  }
}
