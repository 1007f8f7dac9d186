/** Placing an agent's services on a gateway. */
module Scheduler {
  import opened Bytes
  import opened Ordering
  import opened Domain
  import opened Ports

  datatype Node = Node(id: string, enabled: bool, certificate: Certificate, isGateway: bool, labels: Labels)

  // A gateway, its assignments, and the binding keys in use on it.
  datatype Candidate = Candidate(
    node: Node, spec: GatewaySpec, healthy: bool, assignments: seq<Assignment>, used: set<string>)

  datatype Request = Request(
    agentID: string, spec: AgentSpec, services: seq<Service>, existing: Option<Assignment>, generation: nat)

  datatype Error =
    | InvalidAgentID | NoGeneration | InvalidAgentSpec | ForeignAgentSpec | NoServices
    | DuplicateService(id: string) | ForeignService(id: string) | InvalidService(id: string)
    | PortConflict(gatewayID: string, protocol: string, bind: string, port: u16)
    | SelectorMismatch(gatewayID: string, serviceID: string)
    | PortOutsidePool(port: u16) | PoolExhausted | NoHealthyGateway

  // ---------- the request ----------

  // A relinquished placement is not sticky.
  function Sticky(req: Request): Option<Assignment> {
    if req.existing.Some? && Relinquished(req.existing.value.state) then None else req.existing
  }

  function SpecOf(req: Request): AgentSpec {
    if req.spec.nodeID == "" then req.spec.(nodeID := req.agentID) else req.spec
  }

  // The first service that repeats an id or belongs to another agent.
  function ServiceError(req: Request, i: nat): Option<Error>
    requires i <= |req.services|
    decreases |req.services| - i
  {
    if i == |req.services| then None
    else
      var s := req.services[i];
      if exists k :: 0 <= k < i && req.services[k].id == s.id then Some(DuplicateService(s.id))
      else if s.agentID != req.agentID then Some(ForeignService(s.id))
      else ServiceError(req, i + 1)
  }

  function RequestError(rules: Rules, req: Request): Option<Error> {
    if !rules.validID(req.agentID) then Some(InvalidAgentID)
    else if req.generation == 0 then Some(NoGeneration)
    else if !rules.validAgentSpec(SpecOf(req)) then Some(InvalidAgentSpec)
    else if SpecOf(req).nodeID != req.agentID then Some(ForeignAgentSpec)
    else if req.services == [] then Some(NoServices)
    else ServiceError(req, 0)
  }

  // ---------- the order of candidates ----------

  function ActiveAgents(assignments: seq<Assignment>): set<string> {
    if assignments == [] then {}
    else
      var a := assignments[0];
      (if Relinquished(a.state) then {} else {a.agentID}) + ActiveAgents(assignments[1..])
  }

  function ActiveServices(assignments: seq<Assignment>): nat {
    if assignments == [] then 0
    else
      var a := assignments[0];
      (if Relinquished(a.state) then 0 else |a.serviceIDs|) + ActiveServices(assignments[1..])
  }

  datatype Rank = Rank(away: bool, load: int, id: string)

  predicate RankLess(a: Rank, b: Rank) {
    if a.away != b.away then !a.away
    else if a.load != b.load then a.load < b.load
    else StringLess(a.id, b.id)
  }

  // The current gateway first, then the least loaded, then by id.
  function RankOf(req: Request, c: Candidate): Rank {
    Rank(Sticky(req).Some? && c.node.id != Sticky(req).value.gatewayID,
         1000 * |ActiveAgents(c.assignments)| + ActiveServices(c.assignments), c.node.id)
  }

  function RankBy(req: Request): Candidate -> Rank { c => RankOf(req, c) }

  function Ordered(req: Request, candidates: seq<Candidate>): seq<Candidate> {
    SortBy(candidates, RankBy(req), RankLess)
  }

  // ---------- one candidate ----------

  predicate Eligible(rules: Rules, req: Request, c: Candidate) {
    && c.node.enabled && c.node.certificate !in {CertRevoked, CertExpired, CertDecommissioned}
    && c.node.isGateway && c.healthy
    && (req.spec.gatewayID != "" ==> c.node.id == req.spec.gatewayID)
    && (req.spec.gatewayID == "" ==> rules.matches(req.spec.selector, c.node.labels))
  }

  // The current placement is on this gateway, so its own share is released.
  predicate Keeps(req: Request, c: Candidate) {
    Sticky(req).Some? && Sticky(req).value.gatewayID == c.node.id && Sticky(req).value.agentID == req.agentID
  }

  function UsedAgents(req: Request, c: Candidate): nat {
    var used := |ActiveAgents(c.assignments)|;
    if Keeps(req, c) && used > 0 then used - 1 else used
  }

  function UsedServices(req: Request, c: Candidate): nat {
    var used := ActiveServices(c.assignments);
    if !Keeps(req, c) then used
    else if used >= |Sticky(req).value.serviceIDs| then used - |Sticky(req).value.serviceIDs|
    else 0
  }

  predicate HasCapacity(req: Request, c: Candidate) {
    && (c.spec.maxAgents > 0 ==> UsedAgents(req, c) < c.spec.maxAgents)
    && (c.spec.maxServices > 0 ==> UsedServices(req, c) + |req.services| <= c.spec.maxServices)
  }

  function KeysOf(rules: Rules, bindings: seq<Binding>): set<string> {
    set b | b in bindings :: rules.KeyOf(b)
  }

  // The keys held by active assignments other than the one being replaced.
  function OtherKeys(rules: Rules, assignments: seq<Assignment>, skip: Option<string>): set<string> {
    if assignments == [] then {}
    else
      var a := assignments[0];
      (if Relinquished(a.state) || skip == Some(a.id) then {} else KeysOf(rules, a.bindings))
      + OtherKeys(rules, assignments[1..], skip)
  }

  function SkipID(req: Request): Option<string> {
    if Sticky(req).Some? then Some(Sticky(req).value.id) else None
  }

  // What a new binding on this gateway must not collide with.
  function Occupied(rules: Rules, req: Request, c: Candidate): set<string> {
    (if Keeps(req, c) then c.used - KeysOf(rules, Sticky(req).value.bindings) else c.used)
    + OtherKeys(rules, c.assignments, SkipID(req))
  }

  // The last binding of each service.
  function ByService(bindings: seq<Binding>): map<string, Binding> {
    if bindings == [] then map[]
    else
      var last := bindings[|bindings| - 1];
      ByService(bindings[..|bindings| - 1])[last.serviceID := last]
  }

  function Inherited(req: Request, c: Candidate): map<string, Binding> {
    if Keeps(req, c) then ByService(Sticky(req).value.bindings) else map[]
  }

  // A service may keep the port it has.
  predicate MayKeep(rules: Rules, s: Service, kept: map<string, Binding>, occupied: set<string>) {
    && s.id in kept && kept[s.id].protocol == s.protocol && rules.canon(kept[s.id].bind) == rules.canon(s.bind)
    && (s.port == 0 || s.port == kept[s.id].port)
    && rules.KeyOf(kept[s.id]) !in occupied
  }

  function PortFor(rules: Rules, c: Candidate, s: Service, kept: map<string, Binding>, occupied: set<string>): Result<u16, PortError> {
    if MayKeep(rules, s, kept, occupied) && kept[s.id].port != 0 then Ok(kept[s.id].port)
    else Allocate(rules, c.spec.pool, s.protocol, s.bind, s.port, occupied)
  }

  function PlacementError(c: Candidate, s: Service, e: PortError): Error {
    match e
    case Conflict(protocol, bind, port) => PortConflict(c.node.id, protocol, s.bind, port)
    case OutsidePool(port) => PortOutsidePool(port)
    case Exhausted => PoolExhausted
  }

  // Bindings for the services in turn, each avoiding the ones before it.
  function Place(rules: Rules, c: Candidate, services: seq<Service>, kept: map<string, Binding>, occupied: set<string>)
    : Result<seq<Binding>, Error>
  {
    if services == [] then Ok([])
    else
      var s := services[0];
      if !rules.validService(s) then Err(InvalidService(s.id))
      else if !rules.matches(s.selector, c.node.labels) then Err(SelectorMismatch(c.node.id, s.id))
      else
        var port := PortFor(rules, c, s, kept, occupied);
        if port.Err? then Err(PlacementError(c, s, port.error))
        else
          var rest := Place(rules, c, services[1..], kept, occupied + {rules.Key(s.protocol, s.bind, port.value)});
          if rest.Err? then rest else Ok([Binding(s.id, s.protocol, s.bind, port.value)] + rest.value)
  }

  datatype Attempt = Skipped | Failed(error: Error) | Placed(bindings: seq<Binding>)

  function Try(rules: Rules, req: Request, c: Candidate): Attempt {
    if !Eligible(rules, req, c) || !HasCapacity(req, c) then Skipped
    else
      match Place(rules, c, req.services, Inherited(req, c), Occupied(rules, req, c))
      case Ok(bindings) => Placed(bindings)
      case Err(e) => Failed(e)
  }

  function ServiceID(s: Service): string { s.id }

  function IDs(services: seq<Service>): seq<string> { Map(services, ServiceID) }

  function NewAssignment(req: Request, c: Candidate, bindings: seq<Binding>): Assignment {
    var id := if Keeps(req, c) then Sticky(req).value.id else req.agentID + "-" + c.node.id;
    var endpoint := if c.spec.endpoints == [] then "" else c.spec.endpoints[0];
    Assignment(id, c.node.id, req.agentID, IDs(req.services), bindings, req.generation, Pending, endpoint, c.spec.policy)
  }

  // ---------- the whole decision ----------

  // The first candidate that takes the services; otherwise the last port
  // conflict, the first other failure, or that no gateway would do.
  function FirstPlacement(rules: Rules, req: Request, ordered: seq<Candidate>, conflict: Option<Error>, other: Option<Error>)
    : Result<Assignment, Error>
  {
    if ordered == [] then
      if conflict.Some? then Err(conflict.value)
      else if other.Some? then Err(other.value)
      else Err(NoHealthyGateway)
    else
      match Try(rules, req, ordered[0])
      case Skipped => FirstPlacement(rules, req, ordered[1..], conflict, other)
      case Placed(bindings) => Ok(NewAssignment(req, ordered[0], bindings))
      case Failed(e) =>
        if e.InvalidService? then Err(e)
        else if e.PortConflict? then FirstPlacement(rules, req, ordered[1..], Some(e), other)
        else FirstPlacement(rules, req, ordered[1..], conflict, if other.None? then Some(e) else other)
  }

  function Decide(rules: Rules, req: Request, candidates: seq<Candidate>): Result<Assignment, Error> {
    var e := RequestError(rules, req);
    if e.Some? then Err(e.value)
    else FirstPlacement(rules, req, Ordered(req, candidates), None, None)
  }

  // ---------- the loops of the source ----------

  method BindingKeys(rules: Rules, bindings: seq<Binding>) returns (keys: set<string>)
    ensures keys == KeysOf(rules, bindings)
  {
    keys := {};
    for i := 0 to |bindings|
      invariant keys == KeysOf(rules, bindings[..i])
    {
      assert bindings[..i + 1] == bindings[..i] + [bindings[i]];
      keys := keys + {rules.KeyOf(bindings[i])};
    }
    assert bindings[..|bindings|] == bindings;
  }

  // A set of binding keys that may be shared with others.
  class BindingSet {
    var keys: set<string>

    constructor ()
      ensures keys == {}
    {
      keys := {};
    }

    method Add(key: string)
      modifies this
      ensures keys == old(keys) + {key}
    {
      keys := keys + {key};
    }

    method Delete(key: string)
      modifies this
      ensures keys == old(keys) - {key}
    {
      keys := keys - {key};
    }
  }

  method CloneBindingSet(source: BindingSet) returns (copy: BindingSet)
    ensures fresh(copy) && copy.keys == source.keys == old(source.keys)
  {
    copy := new BindingSet();
    var todo := source.keys;
    while todo != {}
      invariant fresh(copy) && copy != source && todo <= source.keys && copy.keys == source.keys - todo
      invariant source.keys == old(source.keys)
      decreases |todo|
    {
      var key :| key in todo;
      copy.Add(key);
      todo := todo - {key};
    }
  }

  // The caller's set is left as it is; what is returned is a new one.
  method CollectOccupied(rules: Rules, req: Request, c: Candidate, shared: BindingSet) returns (occupied: BindingSet)
    requires shared.keys == c.used
    ensures fresh(occupied) && occupied.keys == Occupied(rules, req, c) && shared.keys == old(shared.keys)
  {
    occupied := CloneBindingSet(shared);
    if Keeps(req, c) {
      var own := Sticky(req).value.bindings;
      for i := 0 to |own|
        invariant fresh(occupied) && occupied != shared && shared.keys == c.used
        invariant occupied.keys == c.used - KeysOf(rules, own[..i])
      {
        assert own[..i + 1] == own[..i] + [own[i]];
        occupied.Delete(rules.KeyOf(own[i]));
      }
      assert own[..|own|] == own;
    }
    for i := 0 to |c.assignments|
      invariant fresh(occupied) && occupied != shared && shared.keys == c.used
      invariant occupied.keys + OtherKeys(rules, c.assignments[i..], SkipID(req)) == Occupied(rules, req, c)
    {
      var a := c.assignments[i];
      assert c.assignments[i..][0] == a && c.assignments[i..][1..] == c.assignments[i + 1..];
      if !Relinquished(a.state) && SkipID(req) != Some(a.id) {
        AddKeys(rules, a.bindings, occupied);
      }
    }
  }

  method AddKeys(rules: Rules, bindings: seq<Binding>, occupied: BindingSet)
    modifies occupied
    ensures occupied.keys == old(occupied.keys) + KeysOf(rules, bindings)
  {
    for i := 0 to |bindings|
      invariant occupied.keys == old(occupied.keys) + KeysOf(rules, bindings[..i])
    {
      assert bindings[..i + 1] == bindings[..i] + [bindings[i]];
      occupied.Add(rules.KeyOf(bindings[i]));
    }
    assert bindings[..|bindings|] == bindings;
  }

  method ChoosePort(rules: Rules, c: Candidate, s: Service, kept: map<string, Binding>, occupied: set<string>)
    returns (r: Result<u16, PortError>)
    ensures r == PortFor(rules, c, s, kept, occupied)
  {
    var port: u16 := 0;
    if MayKeep(rules, s, kept, occupied) {
      port := kept[s.id].port;
    }
    if port != 0 {
      return Ok(port);
    }
    r := AllocatePort(rules, c.spec.pool, s.protocol, s.bind, s.port, occupied);
  }

  method PlaceServices(rules: Rules, c: Candidate, services: seq<Service>, kept: map<string, Binding>, occupied: BindingSet)
    returns (r: Result<seq<Binding>, Error>)
    modifies occupied
    ensures r == Place(rules, c, services, kept, old(occupied.keys))
  {
    var placed := [];
    ghost var all := Place(rules, c, services, kept, occupied.keys);
    ghost var rest := all;
    assert services[0..] == services;
    assert all.Ok? ==> placed + rest.value == all.value;
    for i := 0 to |services|
      invariant rest == Place(rules, c, services[i..], kept, occupied.keys)
      invariant all.Err? ==> all == rest
      invariant all.Ok? ==> rest.Ok? && all.value == placed + rest.value
    {
      var s := services[i];
      assert services[i..][0] == s && services[i..][1..] == services[i + 1..];
      if !rules.validService(s) {
        return Err(InvalidService(s.id));
      }
      if !rules.matches(s.selector, c.node.labels) {
        return Err(SelectorMismatch(c.node.id, s.id));
      }
      var port := ChoosePort(rules, c, s, kept, occupied.keys);
      if port.Err? {
        return Err(PlacementError(c, s, port.error));
      }
      occupied.Add(rules.Key(s.protocol, s.bind, port.value));
      rest := Place(rules, c, services[i + 1..], kept, occupied.keys);
      var binding := Binding(s.id, s.protocol, s.bind, port.value);
      assert rest.Ok? ==> placed + ([binding] + rest.value) == placed + [binding] + rest.value;
      placed := placed + [binding];
    }
    assert rest == Ok([]) && placed + [] == placed;
    r := Ok(placed);
  }

  // Each gateway's loaded keys are in a set of the caller's.
  ghost predicate Shared(candidates: seq<Candidate>, shared: map<string, BindingSet>)
    reads shared.Values
  {
    forall c :: c in candidates ==> c.node.id in shared && shared[c.node.id].keys == c.used
  }

  method TryCandidate(rules: Rules, req: Request, c: Candidate, shared: BindingSet) returns (t: Attempt)
    requires shared.keys == c.used
    ensures t == Try(rules, req, c) && shared.keys == old(shared.keys)
  {
    if !Eligible(rules, req, c) || !HasCapacity(req, c) {
      return Skipped;
    }
    var occupied := CollectOccupied(rules, req, c, shared);
    var placed := PlaceServices(rules, c, req.services, Inherited(req, c), occupied);
    t := match placed
         case Ok(bindings) => Placed(bindings)
         case Err(e) => Failed(e);
  }

  // The caller's sets are read and never written: nothing is modified that
  // existed before the call.
  method Schedule(rules: Rules, req: Request, candidates: seq<Candidate>, shared: map<string, BindingSet>)
    returns (r: Result<Assignment, Error>)
    requires Shared(candidates, shared)
    ensures r == Decide(rules, req, candidates)
    ensures forall id :: id in shared ==> shared[id].keys == old(shared[id].keys)
  {
    var invalid := RequestError(rules, req);
    if invalid.Some? {
      return Err(invalid.value);
    }
    var ordered := Ordered(req, candidates);
    var conflict: Option<Error>, other: Option<Error> := None, None;
    assert ordered[0..] == ordered;
    for i := 0 to |ordered|
      invariant FirstPlacement(rules, req, ordered[i..], conflict, other) == Decide(rules, req, candidates)
      invariant Shared(candidates, shared) && forall id :: id in shared ==> shared[id].keys == old(shared[id].keys)
    {
      var c := ordered[i];
      assert ordered[i..][0] == c && ordered[i..][1..] == ordered[i + 1..];
      SortMembers(candidates, RankBy(req), RankLess, c);
      var t := TryCandidate(rules, req, c, shared[c.node.id]);
      match t {
        case Skipped =>
        case Placed(bindings) => return Ok(NewAssignment(req, c, bindings));
        case Failed(e) =>
          if e.InvalidService? {
            return Err(e);
          }
          if e.PortConflict? {
            conflict := Some(e);
          } else if other.None? {
            other := Some(e);
          }
      }
    }
    return Err(if conflict.Some? then conflict.value else if other.Some? then other.value else NoHealthyGateway);
  }
}
