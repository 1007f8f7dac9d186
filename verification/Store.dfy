/** The assignment store: its tables and its write transactions, each a
    function from the tables before to the tables after or a refusal. */
module Store {
  import opened Bytes
  import opened Ordering
  import opened Domain

  // ---------- tables ----------

  // An assignments row with its member services in position order.
  datatype Row = Row(
    gatewayID: string, agentID: string, services: seq<string>, generation: nat, state: Lifecycle,
    endpoint: string, policy: string, revision: nat)

  datatype PortRow = PortRow(gatewayID: string, binding: Binding)

  datatype AckKey = AckKey(id: string, node: string)

  datatype Ack = Ack(generation: nat, applied: bool)

  datatype Versioned<T> = Versioned(value: T, revision: nat)

  datatype NodeRow = NodeRow(enabled: bool, certificate: Certificate, labels: Labels, revision: nat)

  // Port rows are kept per assignment in position order; every assignment has
  // an entry, possibly empty.
  datatype Tables = Tables(
    assignments: map<string, Row>, bindings: map<string, seq<PortRow>>, acks: map<AckKey, Ack>,
    services: map<string, Versioned<Service>>, specs: map<string, Versioned<Spec>>, nodes: map<string, NodeRow>)

  const EMPTY := Tables(map[], map[], map[], map[], map[], map[])

  datatype Error =
    | StateControllerOwned | Invalid | InvalidGeneration | NotFound | WrongKind | NodeDisabled | EndpointMismatch
    | StaleGeneration | RevisionConflict | ResourceConflict | ForeignService | SelectorMismatch | UnknownBinding
    | ProtocolMismatch | BindMismatch | PortMismatch | OutsidePool | PortTaken | Exhausted
    | GatewayRequired | GatewayConflict | Decommissioned

  // The largest revision and generation the columns hold.
  const MAX_STORED: nat := 0x7fff_ffff_ffff_ffff

  // ---------- derived edits ----------

  // New columns for one assignment, whether its acks are deleted, and the port
  // rows that remain.
  datatype Edit = Edit(row: Row, forget: bool, ports: seq<PortRow>)

  predicate Forgotten(edits: map<string, Edit>, k: AckKey) { k.id in edits && edits[k.id].forget }

  function EditAll(db: Tables, edits: map<string, Edit>): Tables {
    db.(assignments := map id | id in db.assignments :: if id in edits then edits[id].row else db.assignments[id],
        bindings := map id | id in db.bindings :: if id in edits then edits[id].ports else db.bindings[id],
        acks := map k | k in db.acks && !Forgotten(edits, k) :: db.acks[k])
  }

  // Deletes assignments with everything that refers to them.
  function Drop(db: Tables, ids: set<string>): Tables {
    db.(assignments := db.assignments - ids, bindings := db.bindings - ids,
        acks := map k | k in db.acks && k.id !in ids :: db.acks[k])
  }

  function AddRow(db: Tables, id: string, row: Row, ports: seq<PortRow>): Tables {
    db.(assignments := db.assignments[id := row], bindings := db.bindings[id := ports])
  }

  // A participant has to apply the assignment anew, unless it is relinquished.
  function Reopened(row: Row): Row {
    row.(generation := row.generation + 1, revision := row.revision + 1,
         state := if Relinquished(row.state) then row.state else Pending)
  }

  predicate Full(row: Row) { row.generation >= MAX_STORED || row.revision >= MAX_STORED }

  // ---------- PutAssignment ----------

  predicate HasRole(db: Tables, node: string, gateway: bool) {
    node in db.specs && db.specs[node].value.GatewayRole? == gateway
  }

  function ParticipantError(db: Tables, node: string, gateway: bool): Option<Error> {
    if node !in db.nodes || node !in db.specs then Some(NotFound)
    else if !HasRole(db, node, gateway) then Some(WrongKind)
    else if !db.nodes[node].enabled then Some(NodeDisabled)
    else None
  }

  function MemberError(rules: Rules, services: map<string, Versioned<Service>>, agentID: string, labels: Labels, ids: seq<string>)
    : Option<Error>
  {
    if ids == [] then None
    else if ids[0] !in services then Some(NotFound)
    else if services[ids[0]].value.agentID != agentID then Some(ForeignService)
    else if !rules.matches(services[ids[0]].value.selector, labels) then Some(SelectorMismatch)
    else MemberError(rules, services, agentID, labels, ids[1..])
  }

  predicate HitsListener(rules: Rules, listeners: seq<Listener>, b: Binding) {
    exists i :: 0 <= i < |listeners| &&
                rules.Key(listeners[i].protocol, listeners[i].bind, listeners[i].port) == rules.KeyOf(b)
  }

  // Why a binding may not serve this service on this gateway.
  function Misfit(rules: Rules, spec: GatewaySpec, s: Service, b: Binding): Option<Error> {
    if s.protocol != b.protocol then Some(ProtocolMismatch)
    else if rules.canon(s.bind) != rules.canon(b.bind) then Some(BindMismatch)
    else if s.port != 0 && s.port != b.port then Some(PortMismatch)
    else if !InPool(spec.pool, b.protocol, b.port) then Some(OutsidePool)
    else if HitsListener(rules, spec.listeners, b) then Some(PortTaken)
    else None
  }

  function BindingError(
    rules: Rules, services: map<string, Versioned<Service>>, spec: GatewaySpec, members: seq<string>, bindings: seq<Binding>): Option<Error>
  {
    if bindings == [] then None
    else
      var b := bindings[0];
      if b.serviceID !in members || b.serviceID !in services then Some(UnknownBinding)
      else
        var e := Misfit(rules, spec, services[b.serviceID].value, b);
        if e.Some? then e else BindingError(rules, services, spec, members, bindings[1..])
  }

  // Other assignments that hold one of the services.
  function Superseded(db: Tables, id: string, services: seq<string>): set<string> {
    set other | other in db.assignments && other != id && exists s :: s in services && s in db.assignments[other].services
  }

  function RevisionError(current: Option<nat>, ifMatch: int): Option<Error> {
    if current.None? then if ifMatch > 0 then Some(RevisionConflict) else None
    else if ifMatch <= 0 || ifMatch != current.value then Some(RevisionConflict) else None
  }

  function RevisionOf(db: Tables, id: string): Option<nat> {
    if id in db.assignments then Some(db.assignments[id].revision) else None
  }

  function PutError(rules: Rules, db: Tables, a: Assignment, ifMatch: int): Option<Error> {
    if a.state == Applied then Some(StateControllerOwned)
    else if !rules.validAssignment(a) then Some(Invalid)
    else if a.generation > MAX_STORED then Some(InvalidGeneration)
    else if ParticipantError(db, a.gatewayID, true).Some? then ParticipantError(db, a.gatewayID, true)
    else if ParticipantError(db, a.agentID, false).Some? then ParticipantError(db, a.agentID, false)
    else
      var spec, labels := db.specs[a.gatewayID].value.gateway, db.nodes[a.gatewayID].labels;
      if a.endpoint != "" && a.endpoint !in spec.endpoints then Some(EndpointMismatch)
      else if a.id in db.assignments && a.generation < db.assignments[a.id].generation then Some(StaleGeneration)
      else if exists other :: other in Superseded(db, a.id, a.serviceIDs) && !Relinquished(db.assignments[other].state) then Some(ResourceConflict)
      else
        var e := MemberError(rules, db.services, a.agentID, labels, a.serviceIDs);
        var e' := BindingError(rules, db.services, spec, a.serviceIDs, a.bindings);
        if e.Some? then e else if e'.Some? then e' else RevisionError(RevisionOf(db, a.id), ifMatch)
  }

  predicate SameSocket(x: PortRow, y: PortRow) {
    x.gatewayID == y.gatewayID && x.binding.protocol == y.binding.protocol && x.binding.bind == y.binding.bind
    && x.binding.port == y.binding.port
  }

  // The unique constraint on gateway, protocol, address and port.
  predicate SocketTaken(db: Tables, p: PortRow) {
    exists id :: id in db.bindings && exists q :: q in db.bindings[id] && SameSocket(p, q)
  }

  predicate ServiceTaken(db: Tables, s: string) {
    exists id :: id in db.assignments && s in db.assignments[id].services
  }

  predicate ServicesInsertable(db: Tables, services: seq<string>) {
    Distinct(services) && forall s :: s in services ==> !ServiceTaken(db, s)
  }

  predicate PortsInsertable(db: Tables, ports: seq<PortRow>) {
    && (forall i, j :: 0 <= i < j < |ports| ==>
                         !SameSocket(ports[i], ports[j]) && ports[i].binding.serviceID != ports[j].binding.serviceID)
    && forall p :: p in ports ==> !SocketTaken(db, p)
  }

  function PortRowBy(rules: Rules, gatewayID: string): Binding -> PortRow { b => PortRow(gatewayID, rules.Normal(b)) }

  function PortsFor(rules: Rules, a: Assignment): seq<PortRow> {
    if Relinquished(a.state) then [] else Map(a.bindings, PortRowBy(rules, a.gatewayID))
  }

  function RowFor(db: Tables, a: Assignment): Row {
    Row(a.gatewayID, a.agentID, a.serviceIDs, a.generation, a.state, a.endpoint, a.policy,
        if a.id in db.assignments then db.assignments[a.id].revision + 1 else 1)
  }

  function Put(rules: Rules, db: Tables, a: Assignment, ifMatch: int): Result<Tables, Error> {
    var e := PutError(rules, db, a, ifMatch);
    if e.Some? then Err(e.value)
    else
      var base := Drop(db, Superseded(db, a.id, a.serviceIDs) + {a.id});
      if !ServicesInsertable(base, a.serviceIDs) then Err(ResourceConflict)
      else if !PortsInsertable(base, PortsFor(rules, a)) then Err(PortTaken)
      else Ok(AddRow(base, a.id, RowFor(db, a), PortsFor(rules, a)))
  }

  // ---------- UpdateAssignmentState, DeleteAssignment ----------

  function StateEdit(db: Tables, id: string, state: Lifecycle): Edit
    requires id in db.assignments && id in db.bindings
  {
    var row := db.assignments[id];
    Edit(row.(state := state, revision := row.revision + 1), true, if Relinquished(state) then [] else db.bindings[id])
  }

  function UpdateState(db: Tables, id: string, state: Lifecycle, ifMatch: int): Result<Tables, Error> {
    if state == Applied then Err(StateControllerOwned)
    else if id !in db.assignments || id !in db.bindings then Err(NotFound)
    else if RevisionError(RevisionOf(db, id), ifMatch).Some? then Err(RevisionConflict)
    else if db.assignments[id].revision >= MAX_STORED then Err(Exhausted)
    else Ok(EditAll(db, map[id := StateEdit(db, id, state)]))
  }

  function DeleteAssignment(db: Tables, id: string, ifMatch: int): Result<Tables, Error> {
    if id !in db.assignments then Err(NotFound)
    else if RevisionError(RevisionOf(db, id), ifMatch).Some? then Err(RevisionConflict)
    else Ok(Drop(db, {id}))
  }

  // ---------- a node's report ----------

  predicate Participant(row: Row, node: string) { row.gatewayID == node || row.agentID == node }

  // The report covers the assignment's generation and may still change it.
  predicate Concerns(row: Row, node: string, generation: nat) {
    Participant(row, node) && row.generation <= generation && row.state != Draining
  }

  predicate AppliedAck(acks: map<AckKey, Ack>, id: string, node: string, generation: nat) {
    AckKey(id, node) in acks && acks[AckKey(id, node)].generation >= generation && acks[AckKey(id, node)].applied
  }

  // Both participants are counted.
  predicate ParticipantsApplied(acks: map<AckKey, Ack>, id: string, row: Row) {
    |AppliedBy(acks, id, row)| == 2
  }

  function AppliedBy(acks: map<AckKey, Ack>, id: string, row: Row): set<string> {
    set node | node in {row.gatewayID, row.agentID} && AppliedAck(acks, id, node, row.generation)
  }

  function Acked(db: Tables, node: string, generation: nat, applied: bool): (acks: map<AckKey, Ack>)
  {
    db.acks + map id | id in db.assignments && Concerns(db.assignments[id], node, generation) ::
                AckKey(id, node) := Ack(db.assignments[id].generation, applied)
  }

  // The row's next state under a report, given the acks that include it.
  function ResultState(acks: map<AckKey, Ack>, id: string, row: Row, applied: bool): Lifecycle {
    if !applied then Degraded
    else if row.state == Pending && ParticipantsApplied(acks, id, row) then Applied
    else row.state
  }

  function ResultEdit(acks: map<AckKey, Ack>, id: string, row: Row, ports: seq<PortRow>, applied: bool): Edit {
    var state := ResultState(acks, id, row, applied);
    Edit(if state == row.state then row else row.(state := state, revision := row.revision + 1),
         false, if state == Degraded then [] else ports)
  }

  function ResultEdits(db: Tables, node: string, generation: nat, applied: bool): map<string, Edit> {
    var acks := Acked(db, node, generation, applied);
    map id | id in db.assignments && id in db.bindings && Concerns(db.assignments[id], node, generation) ::
      ResultEdit(acks, id, db.assignments[id], db.bindings[id], applied)
  }

  // Some row would have to take a revision beyond the column.
  predicate Overflows(db: Tables, edits: map<string, Edit>) {
    exists id :: id in edits && id in db.assignments && edits[id].row != db.assignments[id] && Full(db.assignments[id])
  }

  predicate RevisionOverflows(db: Tables, edits: map<string, Edit>) {
    exists id :: id in edits && id in db.assignments && edits[id].row != db.assignments[id] && db.assignments[id].revision >= MAX_STORED
  }

  function NodeResult(db: Tables, node: string, generation: nat, applied: bool): Result<Tables, Error> {
    if node == "" || generation == 0 then Err(Invalid)
    else if generation > MAX_STORED then Err(InvalidGeneration)
    else
      var edits := ResultEdits(db, node, generation, applied);
      if RevisionOverflows(db, edits) then Err(Exhausted)
      else Ok(EditAll(db.(acks := Acked(db, node, generation, applied)), edits))
  }

  // ---------- services ----------

  function BumpEdits(db: Tables, service: string): map<string, Edit> {
    map id | id in db.assignments && id in db.bindings && service in db.assignments[id].services ::
      Edit(Reopened(db.assignments[id]), true, db.bindings[id])
  }

  function Bump(db: Tables, service: string): Result<Tables, Error> {
    if Overflows(db, BumpEdits(db, service)) then Err(Exhausted) else Ok(EditAll(db, BumpEdits(db, service)))
  }

  predicate Fixed(before: Service, after: Service) {
    before.agentID == after.agentID && before.protocol == after.protocol && before.bind == after.bind && before.port == after.port
  }

  // The selector leaves out the gateway of an assignment that holds the service.
  predicate Excludes(rules: Rules, db: Tables, s: Service) {
    exists id :: id in db.assignments && s.id in db.assignments[id].services &&
                 !(db.assignments[id].gatewayID in db.nodes && rules.matches(s.selector, db.nodes[db.assignments[id].gatewayID].labels))
  }

  function WriteService(rules: Rules, db: Tables, s: Service): Tables {
    var revision := if s.id in db.services then db.services[s.id].revision + 1 else 1;
    db.(services := db.services[s.id := Versioned(s.(bind := rules.canon(s.bind)), revision)])
  }

  function ServiceRevision(db: Tables, id: string): Option<nat> {
    if id in db.services then Some(db.services[id].revision) else None
  }

  function PutService(rules: Rules, db: Tables, s: Service, ifMatch: int): Result<Tables, Error> {
    if !rules.validService(s) then Err(Invalid)
    else if s.agentID !in db.specs then Err(NotFound)
    else if !HasRole(db, s.agentID, false) then Err(WrongKind)
    else if RevisionError(ServiceRevision(db, s.id), ifMatch).Some? then Err(RevisionConflict)
    else if s.id !in db.services then Ok(WriteService(rules, db, s))
    else
      var previous := db.services[s.id].value;
      if !Fixed(previous, s) && ServiceTaken(db, s.id) then Err(ResourceConflict)
      else if previous.selector != s.selector && Excludes(rules, db, s) then Err(SelectorMismatch)
      else if previous == s then Ok(WriteService(rules, db, s))
      else Bump(WriteService(rules, db, s), s.id)
  }

  function WithoutID(ids: seq<string>, id: string): seq<string> {
    if ids == [] then []
    else if ids[0] == id then WithoutID(ids[1..], id)
    else [ids[0]] + WithoutID(ids[1..], id)
  }

  function WithoutService(ports: seq<PortRow>, service: string): seq<PortRow> {
    if ports == [] then []
    else if ports[0].binding.serviceID == service then WithoutService(ports[1..], service)
    else [ports[0]] + WithoutService(ports[1..], service)
  }

  function DetachEdit(row: Row, ports: seq<PortRow>, service: string): Edit {
    Edit(Reopened(row).(services := WithoutID(row.services, service)), true,
         if Relinquished(row.state) then [] else WithoutService(ports, service))
  }

  function DetachEdits(db: Tables, service: string): map<string, Edit> {
    map id | id in db.assignments && id in db.bindings && service in db.assignments[id].services ::
      DetachEdit(db.assignments[id], db.bindings[id], service)
  }

  // Assignments that hold nothing but the service.
  function Emptied(db: Tables, service: string): set<string> {
    set id | id in db.assignments && service in db.assignments[id].services && WithoutID(db.assignments[id].services, service) == []
  }

  function Detach(db: Tables, service: string): Result<Tables, Error> {
    var rest := Drop(db, Emptied(db, service));
    if Overflows(rest, DetachEdits(rest, service)) then Err(Exhausted)
    else Ok(EditAll(rest, DetachEdits(rest, service)))
  }

  function DeleteService(db: Tables, id: string, ifMatch: int): Result<Tables, Error> {
    if id !in db.services then Err(NotFound)
    else if RevisionError(ServiceRevision(db, id), ifMatch).Some? then Err(RevisionConflict)
    else
      var detached := Detach(db, id);
      if detached.Err? then detached else Ok(detached.value.(services := detached.value.services - {id}))
  }

  // ---------- node specs ----------

  // Bindings stored for the gateway that its new spec could not serve.
  predicate Obstructs(rules: Rules, db: Tables, node: string, spec: GatewaySpec) {
    exists id :: id in db.bindings && exists p :: p in db.bindings[id] && p.gatewayID == node && !Serveable(rules, spec, p.binding)
  }

  predicate Serveable(rules: Rules, spec: GatewaySpec, b: Binding) {
    InPool(spec.pool, b.protocol, b.port) && !HitsListener(rules, spec.listeners, b)
  }

  // Some assignment of the agent is on a gateway the spec does not allow.
  predicate Strands(rules: Rules, db: Tables, node: string, spec: AgentSpec) {
    exists id :: id in db.assignments && db.assignments[id].agentID == node &&
                 (if spec.gatewayID != "" then db.assignments[id].gatewayID != spec.gatewayID
                  else !(db.assignments[id].gatewayID in db.nodes && rules.matches(spec.selector, db.nodes[db.assignments[id].gatewayID].labels)))
  }

  predicate HasDependents(db: Tables, node: string) {
    if HasRole(db, node, true) then
      (exists id :: id in db.assignments && db.assignments[id].gatewayID == node)
      || (exists id :: id in db.specs && db.specs[id].value.AgentRole? && db.specs[id].value.agent.gatewayID == node)
    else
      (exists id :: id in db.services && db.services[id].value.agentID == node)
      || (exists id :: id in db.assignments && db.assignments[id].agentID == node)
  }

  function SpecRevision(db: Tables, node: string): Option<nat> {
    if node in db.specs then Some(db.specs[node].revision) else None
  }

  function SpecError(rules: Rules, db: Tables, node: string, spec: Spec): Option<Error> {
    match spec
    case GatewayRole(gateway) =>
      if !rules.validGatewaySpec(gateway) then Some(Invalid)
      else if node !in db.nodes then Some(NotFound)
      else if Obstructs(rules, db, node, gateway) then Some(PortTaken)
      else None
    case AgentRole(agent) =>
      if !rules.validAgentSpec(agent) then Some(Invalid)
      else if node !in db.nodes then Some(NotFound)
      else if agent.gatewayID != "" && !(agent.gatewayID in db.nodes && HasRole(db, agent.gatewayID, true)) then Some(GatewayRequired)
      else if Strands(rules, db, node, agent) then Some(GatewayConflict)
      else None
  }

  function WriteSpec(db: Tables, node: string, spec: Spec): Tables {
    db.(specs := db.specs[node := Versioned(spec, if node in db.specs then db.specs[node].revision + 1 else 1)])
  }

  function EndpointFor(row: Row, spec: GatewaySpec): string
    requires spec.endpoints != []
  {
    if row.endpoint in spec.endpoints then row.endpoint else spec.endpoints[0]
  }

  function EndpointEdits(db: Tables, node: string, spec: GatewaySpec): map<string, Edit>
    requires spec.endpoints != []
  {
    map id | id in db.assignments && id in db.bindings && db.assignments[id].gatewayID == node &&
             (db.assignments[id].endpoint !in spec.endpoints || db.assignments[id].policy != spec.policy) ::
      Edit(Reopened(db.assignments[id]).(endpoint := EndpointFor(db.assignments[id], spec), policy := spec.policy), true, db.bindings[id])
  }

  function PutSpec(rules: Rules, db: Tables, node: string, spec: Spec, ifMatch: int): Result<Tables, Error> {
    var e := SpecError(rules, db, node, spec);
    if e.Some? then Err(e.value)
    else if node in db.specs && db.specs[node].value.GatewayRole? != spec.GatewayRole? && HasDependents(db, node) then Err(ResourceConflict)
    else if RevisionError(SpecRevision(db, node), ifMatch).Some? then Err(RevisionConflict)
    else
      var written := WriteSpec(db, node, spec);
      if spec.AgentRole? then Ok(written)
      else if spec.gateway.endpoints == [] then Err(Invalid)
      else if Overflows(written, EndpointEdits(written, node, spec.gateway)) then Err(Exhausted)
      else Ok(EditAll(written, EndpointEdits(written, node, spec.gateway)))
  }

  function DeleteSpec(db: Tables, node: string, ifMatch: int): Result<Tables, Error> {
    if node !in db.specs then Err(NotFound)
    else if RevisionError(SpecRevision(db, node), ifMatch).Some? then Err(RevisionConflict)
    else if HasDependents(db, node) then Err(ResourceConflict)
    else Ok(db.(specs := db.specs - {node}))
  }

  // ---------- nodes ----------

  function QuarantineEdit(row: Row): Edit {
    Edit(if row.state == Degraded then row else row.(state := Degraded, revision := row.revision + 1), true, [])
  }

  function QuarantineEdits(db: Tables, node: string): map<string, Edit> {
    map id | id in db.assignments && Participant(db.assignments[id], node) :: QuarantineEdit(db.assignments[id])
  }

  // Writes a node's row and, if asked to, degrades its assignments with it.
  function WriteNode(db: Tables, node: string, row: NodeRow, quarantine: bool): Result<Tables, Error> {
    var written := db.(nodes := db.nodes[node := row]);
    if !quarantine then Ok(written)
    else if RevisionOverflows(written, QuarantineEdits(written, node)) then Err(Exhausted)
    else Ok(EditAll(written, QuarantineEdits(written, node)))
  }

  // A new identity.
  function AddNode(db: Tables, node: string, row: NodeRow): Result<Tables, Error> {
    if node in db.nodes then Err(ResourceConflict) else WriteNode(db, node, row.(revision := 1), false)
  }

  // A disabled or inactive identity keeps no placement, and repairing a revoked
  // certificate does not bring one back.
  predicate Quarantines(before: NodeRow, enabled: bool, certificate: Certificate) {
    if before.certificate == CertRevoked && certificate == CertActive then true
    else !enabled || certificate != CertActive
  }

  function NodeRevision(db: Tables, node: string): Option<nat> {
    if node in db.nodes then Some(db.nodes[node].revision) else None
  }

  function UpdateNode(db: Tables, node: string, enabled: bool, certificate: Certificate, labels: Labels, ifMatch: int): Result<Tables, Error> {
    if ifMatch <= 0 then Err(RevisionConflict)
    else if node !in db.nodes then Err(NotFound)
    else
      var before := db.nodes[node];
      if before.revision != ifMatch then Err(RevisionConflict)
      else if certificate == CertDecommissioned && enabled then Err(Decommissioned)
      else if before.certificate == CertDecommissioned && (enabled || certificate != CertDecommissioned) then Err(Decommissioned)
      else WriteNode(db, node, NodeRow(enabled, certificate, labels, before.revision + 1), Quarantines(before, enabled, certificate))
  }

  function DecommissionNode(db: Tables, node: string, ifMatch: int): Result<Tables, Error> {
    if node !in db.nodes then Err(NotFound)
    else if RevisionError(NodeRevision(db, node), ifMatch).Some? then Err(RevisionConflict)
    else
      var before := db.nodes[node];
      if before.certificate == CertDecommissioned && !before.enabled then Ok(db)
      else if before.revision >= MAX_STORED then Err(Exhausted)
      else WriteNode(db, node, before.(enabled := false, certificate := CertDecommissioned, revision := before.revision + 1), true)
  }

  // ---------- runs ----------

  datatype Step =
    | StepPut(a: Assignment, ifMatch: int)
    | StepState(id: string, state: Lifecycle, ifMatch: int)
    | StepDelete(id: string, ifMatch: int)
    | StepResult(node: string, generation: nat, applied: bool)
    | StepPutService(service: Service, ifMatch: int)
    | StepDeleteService(serviceID: string, ifMatch: int)
    | StepPutSpec(node: string, spec: Spec, ifMatch: int)
    | StepDeleteSpec(node: string, ifMatch: int)
    | StepAddNode(node: string, row: NodeRow)
    | StepUpdateNode(node: string, enabled: bool, certificate: Certificate, labels: Labels, ifMatch: int)
    | StepDecommission(node: string, ifMatch: int)

  function Transaction(rules: Rules, db: Tables, step: Step): Result<Tables, Error> {
    match step
    case StepPut(a, m) => Put(rules, db, a, m)
    case StepState(id, state, m) => UpdateState(db, id, state, m)
    case StepDelete(id, m) => DeleteAssignment(db, id, m)
    case StepResult(node, generation, applied) => NodeResult(db, node, generation, applied)
    case StepPutService(service, m) => PutService(rules, db, service, m)
    case StepDeleteService(id, m) => DeleteService(db, id, m)
    case StepPutSpec(node, spec, m) => PutSpec(rules, db, node, spec, m)
    case StepDeleteSpec(node, m) => DeleteSpec(db, node, m)
    case StepAddNode(node, row) => AddNode(db, node, row)
    case StepUpdateNode(node, enabled, certificate, labels, m) => UpdateNode(db, node, enabled, certificate, labels, m)
    case StepDecommission(node, m) => DecommissionNode(db, node, m)
  }

  // A refused transaction is rolled back.
  function Commit(rules: Rules, db: Tables, step: Step): Tables {
    var r := Transaction(rules, db, step);
    if r.Ok? then r.value else db
  }
}
