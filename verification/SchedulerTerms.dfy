/** The scheduler's decisions in terms of the request and the candidates alone. */
module SchedulerTerms {
  import opened Bytes
  import opened Ordering
  import opened Domain
  import opened Ports
  import opened Scheduler
  import opened SchedulerSafety
  import opened SchedulerFixedPoint

  // ---------- what counts as active ----------

  predicate Active(a: Assignment) { a.state == Pending || a.state == Applied }

  ghost function AgentsOn(assignments: seq<Assignment>): set<string> {
    set a | a in assignments && Active(a) :: a.agentID
  }

  // All services of the active assignments, counted from the last.
  ghost function ServicesOn(assignments: seq<Assignment>): nat {
    if assignments == [] then 0
    else
      var last := assignments[|assignments| - 1];
      ServicesOn(assignments[..|assignments| - 1]) + if Active(last) then |last.serviceIDs| else 0
  }

  lemma {:induction false} ActiveCounts(assignments: seq<Assignment>)
    ensures ActiveAgents(assignments) == AgentsOn(assignments) && ActiveServices(assignments) == ServicesOn(assignments)
  {
    if assignments != [] {
      var n := |assignments| - 1;
      ActiveCounts(assignments[..n]);
      ActiveAppend(assignments[..n], assignments[n]);
      assert assignments == assignments[..n] + [assignments[n]];
    }
  }

  // ---------- the request ----------

  // The assignment to replace, unless it has been relinquished.
  function Current(req: Request): Option<Assignment> {
    if req.existing.Some? && Active(req.existing.value) then req.existing else None
  }

  // What a request needs to be looked at. An agent's spec without a node is its own.
  ghost predicate WellFormed(rules: Rules, req: Request) {
    && rules.validID(req.agentID) && req.generation != 0
    && rules.validAgentSpec(if req.spec.nodeID == "" then req.spec.(nodeID := req.agentID) else req.spec)
    && req.spec.nodeID in {"", req.agentID}
    && req.services != []
    && (forall i, j :: 0 <= i < j < |req.services| ==> req.services[i].id != req.services[j].id)
    && (forall s :: s in req.services ==> s.agentID == req.agentID)
  }

  lemma WellFormedExactly(rules: Rules, req: Request)
    ensures RequestError(rules, req).None? <==> WellFormed(rules, req)
  {
    if ServiceError(req, 0).None? {
      NoServiceError(req);
      assert forall i, j :: 0 <= i < j < |req.services| ==> IDs(req.services)[i] != IDs(req.services)[j];
    }
    if WellFormed(rules, req) {
      ServiceErrorNone(req, 0);
    }
  }

  // ---------- which gateways may be chosen ----------

  // The gateway may serve the agent: it can be used at all, and it is the fixed
  // gateway or, without one, matches the selector.
  ghost predicate MayServe(rules: Rules, req: Request, c: Candidate) {
    && c.node.enabled && c.node.isGateway && c.healthy
    && c.node.certificate in {CertPending, CertActive}
    && (if req.spec.gatewayID != "" then c.node.id == req.spec.gatewayID else rules.matches(req.spec.selector, c.node.labels))
  }

  // The current placement is the agent's own on this gateway.
  predicate StaysOn(req: Request, c: Candidate) {
    Current(req).Some? && Current(req).value.gatewayID == c.node.id && Current(req).value.agentID == req.agentID
  }

  // There is room for the services once the own share is released.
  ghost predicate RoomOn(req: Request, c: Candidate) {
    var agents, services := |AgentsOn(c.assignments)|, ServicesOn(c.assignments);
    var mine := if StaysOn(req, c) then |Current(req).value.serviceIDs| else 0;
    && (c.spec.maxAgents > 0 ==> (if StaysOn(req, c) && agents > 0 then agents - 1 else agents) < c.spec.maxAgents)
    && (c.spec.maxServices > 0 ==> (if services >= mine then services - mine else 0) + |req.services| <= c.spec.maxServices)
  }

  lemma EligibleExactly(rules: Rules, req: Request, c: Candidate)
    ensures Eligible(rules, req, c) && HasCapacity(req, c) <==> MayServe(rules, req, c) && RoomOn(req, c)
    ensures Keeps(req, c) <==> StaysOn(req, c)
    ensures Sticky(req) == Current(req)
  {
    ActiveCounts(c.assignments);
    assert Sticky(req) == Current(req);
    assert Keeps(req, c) <==> StaysOn(req, c);
    UsableCertificates(c.node.certificate);
    assert HasCapacity(req, c) <==> RoomOn(req, c);
  }

  // ---------- what is occupied ----------

  ghost predicate HeldBy(rules: Rules, a: Assignment, key: string) {
    exists b :: b in a.bindings && rules.Key(b.protocol, b.bind, b.port) == key
  }

  // The key is held by an active assignment that stays.
  ghost predicate HeldByOther(rules: Rules, req: Request, c: Candidate, key: string) {
    exists a :: a in c.assignments && Active(a) && !(Current(req).Some? && Current(req).value.id == a.id) && HeldBy(rules, a, key)
  }

  lemma {:induction false} OtherKeysAre(rules: Rules, assignments: seq<Assignment>, skip: Option<string>, key: string)
    ensures key in OtherKeys(rules, assignments, skip) <==>
            exists a :: a in assignments && Active(a) && skip != Some(a.id) && HeldBy(rules, a, key)
  {
    if assignments != [] {
      var first, rest := assignments[0], assignments[1..];
      OtherKeysAre(rules, rest, skip, key);
      assert forall a :: a in assignments <==> a == first || a in rest;
      assert key in KeysOf(rules, first.bindings) <==> HeldBy(rules, first, key);
    }
  }

  // A key is occupied exactly if it was loaded as used and is not released with
  // the current placement, or an active assignment that stays holds it.
  lemma OccupiedExactly(rules: Rules, req: Request, c: Candidate, key: string)
    ensures key in Occupied(rules, req, c) <==>
            (key in c.used && !(StaysOn(req, c) && HeldBy(rules, Current(req).value, key))) || HeldByOther(rules, req, c, key)
  {
    EligibleExactly(rules, req, c);
    OtherKeysAre(rules, c.assignments, SkipID(req), key);
    if StaysOn(req, c) {
      assert key in KeysOf(rules, Current(req).value.bindings) <==> HeldBy(rules, Current(req).value, key);
    }
  }

  // The keys loaded as used are those of the gateway's own listeners and of all
  // its active assignments.
  lemma LoadedExactly(rules: Rules, listeners: seq<Listener>, assignments: seq<Assignment>, key: string)
    ensures key in LoadedKeys(rules, listeners, assignments) <==>
            || (exists l :: l in listeners && rules.Key(l.protocol, l.bind, l.port) == key)
            || (exists a :: a in assignments && Active(a) && HeldBy(rules, a, key))
  {
    OtherKeysAre(rules, assignments, None, key);
    var own := set l | l in listeners :: rules.Key(l.protocol, l.bind, l.port);
    assert key in own <==> exists l :: l in listeners && rules.Key(l.protocol, l.bind, l.port) == key;
  }

  // ---------- the order of preference ----------

  ghost function Load(c: Candidate): int { 1000 * |AgentsOn(c.assignments)| + ServicesOn(c.assignments) }

  predicate IsCurrent(req: Request, c: Candidate) { Current(req).Some? && Current(req).value.gatewayID == c.node.id }

  // The current gateway comes first, then fewer active agents and services, an
  // agent weighing as much as a thousand services, then the lower id.
  ghost predicate Preferred(req: Request, c: Candidate, d: Candidate) {
    if IsCurrent(req, c) != IsCurrent(req, d) then IsCurrent(req, c)
    else Load(c) < Load(d) || (Load(c) == Load(d) && StringLess(c.node.id, d.node.id))
  }

  lemma RanksByPreference(req: Request, c: Candidate, d: Candidate)
    ensures RankLess(RankOf(req, c), RankOf(req, d)) <==> Preferred(req, c, d)
  {
    ActiveCounts(c.assignments);
    ActiveCounts(d.assignments);
  }

  // ---------- the decision ----------

  // A gateway takes the services if it may serve the agent, has room, and the
  // services can be placed on it one after the other.
  ghost predicate Takes(rules: Rules, req: Request, c: Candidate) {
    MayServe(rules, req, c) && RoomOn(req, c) && Place(rules, c, req.services, Inherited(req, c), Occupied(rules, req, c)).Ok?
  }

  lemma TakesExactly(rules: Rules, req: Request, c: Candidate)
    ensures Try(rules, req, c).Placed? <==> Takes(rules, req, c)
    ensures Try(rules, req, c).Skipped? <==> !(MayServe(rules, req, c) && RoomOn(req, c))
  {
    EligibleExactly(rules, req, c);
  }

  // The gateway that is chosen may serve the agent and takes the services, and is
  // preferred to every other that does; the assignment names it, the agent, the
  // services, the generation asked for, the gateway's first endpoint and policy,
  // is pending, and keeps the id of the current placement if that stays.
  lemma DecisionOutright(rules: Rules, req: Request, candidates: seq<Candidate>) returns (c: Candidate)
    requires Decide(rules, req, candidates).Ok? && DistinctNodes(candidates)
    ensures c in candidates && Takes(rules, req, c)
    ensures forall d :: d in candidates && Takes(rules, req, d) ==> d == c || Preferred(req, c, d)
    ensures var a := Decide(rules, req, candidates).value;
            && a.gatewayID == c.node.id && a.agentID == req.agentID && a.generation == req.generation && a.state == Pending
            && |a.serviceIDs| == |req.services| && (forall i :: 0 <= i < |req.services| ==> a.serviceIDs[i] == req.services[i].id)
            && a.endpoint == (if c.spec.endpoints == [] then "" else c.spec.endpoints[0]) && a.policy == c.spec.policy
            && a.id == (if StaysOn(req, c) then Current(req).value.id else req.agentID + "-" + c.node.id)
    ensures var gatewayID := Decide(rules, req, candidates).value.gatewayID;
            && (req.spec.gatewayID != "" ==> gatewayID == req.spec.gatewayID)
            && (req.spec.gatewayID == "" ==> rules.matches(req.spec.selector, c.node.labels))
    ensures WellFormed(rules, req)
  {
    c := PicksBest(rules, req, candidates);
    TakesExactly(rules, req, c);
    EligibleExactly(rules, req, c);
    WellFormedExactly(rules, req);
    forall d | d in candidates && Takes(rules, req, d) ensures d == c || Preferred(req, c, d) {
      TakesExactly(rules, req, d);
      RanksByPreference(req, c, d);
    }
  }

  // ---------- which port a service gets ----------

  // The service can stay at the port it has on this gateway.
  ghost predicate Keepable(rules: Rules, s: Service, kept: map<string, Binding>, taken: set<string>) {
    && s.id in kept && kept[s.id].protocol == s.protocol && rules.canon(kept[s.id].bind) == rules.canon(s.bind)
    && kept[s.id].port != 0 && s.port in {0, kept[s.id].port}
    && rules.Key(kept[s.id].protocol, kept[s.id].bind, kept[s.id].port) !in taken
  }

  // The first port that is free, in the order of the ranges and upwards in each.
  ghost predicate EarliestFree(rules: Rules, ranges: seq<PortRange>, s: Service, port: u16, taken: set<string>) {
    && rules.Key(s.protocol, s.bind, port) !in taken
    && exists j: nat :: j < |ranges| && InRange(ranges[j], port) &&
                        forall i: nat, p: u16 :: i < |ranges| && InRange(ranges[i], p) && Earlier(i, p, j, port) ==>
                                                   rules.Key(s.protocol, s.bind, p) in taken
  }

  ghost predicate GetsPort(rules: Rules, c: Candidate, s: Service, kept: map<string, Binding>, taken: set<string>, port: u16) {
    if Keepable(rules, s, kept, taken) then port == kept[s.id].port
    else if s.port != 0 then port == s.port && rules.Key(s.protocol, s.bind, port) !in taken && InPool(c.spec.pool, s.protocol, port)
    else EarliestFree(rules, if s.protocol == "tcp" then c.spec.pool.tcp else c.spec.pool.udp, s, port, taken)
  }

  lemma PortForExactly(rules: Rules, c: Candidate, s: Service, kept: map<string, Binding>, taken: set<string>)
    requires PortFor(rules, c, s, kept, taken).Ok?
    ensures GetsPort(rules, c, s, kept, taken, PortFor(rules, c, s, kept, taken).value)
  {
    if !Keepable(rules, s, kept, taken) {
      var ranges := c.spec.pool.Ranges(s.protocol);
      AllocateIs(rules, c.spec.pool, s.protocol, s.bind, s.port, taken);
      if s.port == 0 {
        var j := FirstFree(rules, s.protocol, s.bind, ranges, taken);
        assert j < |ranges| && InRange(ranges[j], PortFor(rules, c, s, kept, taken).value);
      }
    }
  }

  // Each service gets its port against what is occupied and what the services
  // before it got.
  lemma {:induction false} PlacedOneByOne(
    rules: Rules, c: Candidate, services: seq<Service>, kept: map<string, Binding>, occupied: set<string>, i: nat)
    requires Place(rules, c, services, kept, occupied).Ok? && i < |services|
    ensures var bs := Place(rules, c, services, kept, occupied).value;
            && |bs| == |services| && bs[i].serviceID == services[i].id
            && GetsPort(rules, c, services[i], kept, occupied + KeysOf(rules, bs[..i]), bs[i].port)
    decreases |services|
  {
    var s, rest := services[0], services[1..];
    var port := PlaceGoesOn(rules, c, services, kept, occupied);
    var b, key := Binding(s.id, s.protocol, s.bind, port), rules.Key(s.protocol, s.bind, port);
    var bs, more := Place(rules, c, services, kept, occupied).value, Place(rules, c, rest, kept, occupied + {key}).value;
    if i == 0 {
      PlaceSound(rules, c, services, kept, occupied);
      assert occupied + KeysOf(rules, bs[..0]) == occupied;
    } else {
      PlacedOneByOne(rules, c, rest, kept, occupied + {key}, i - 1);
      TakenMore(rules, b, more, i, occupied);
    }
  }

  lemma PlaceGoesOn(rules: Rules, c: Candidate, services: seq<Service>, kept: map<string, Binding>, occupied: set<string>) returns (port: u16)
    requires Place(rules, c, services, kept, occupied).Ok? && services != []
    ensures GetsPort(rules, c, services[0], kept, occupied, port)
    ensures var s := services[0];
            var rest := Place(rules, c, services[1..], kept, occupied + {rules.Key(s.protocol, s.bind, port)});
            rest.Ok? && Place(rules, c, services, kept, occupied).value == [Binding(s.id, s.protocol, s.bind, port)] + rest.value
  {
    PortForExactly(rules, c, services[0], kept, occupied);
    port := PortFor(rules, c, services[0], kept, occupied).value;
  }

  lemma TakenMore(rules: Rules, b: Binding, rest: seq<Binding>, i: nat, occupied: set<string>)
    requires 0 < i <= |rest| + 1
    ensures ([b] + rest)[..i] == [b] + rest[..i - 1]
    ensures occupied + {rules.KeyOf(b)} + KeysOf(rules, rest[..i - 1]) == occupied + KeysOf(rules, ([b] + rest)[..i])
  {
    KeysMore(rules, b, rest[..i - 1]);
  }

  // ---------- refusals ----------

  function Answers(rules: Rules, req: Request, ordered: seq<Candidate>): (answers: seq<Attempt>)
    ensures |answers| == |ordered| && forall i :: 0 <= i < |ordered| ==> answers[i] == Try(rules, req, ordered[i])
  {
    seq(|ordered|, i requires 0 <= i < |ordered| => Try(rules, req, ordered[i]))
  }

  predicate Invalid(a: Attempt) { a.Failed? && a.error.InvalidService? }

  predicate Clash(a: Attempt) { a.Failed? && a.error.PortConflict? }

  predicate Otherwise(a: Attempt) { a.Failed? && !Invalid(a) && !Clash(a) }

  // The last port conflict among the first answers.
  ghost predicate LastClash(answers: seq<Attempt>, n: nat, e: Option<Error>)
    requires n <= |answers|
  {
    if e.None? then forall i :: 0 <= i < n ==> !Clash(answers[i])
    else exists i :: 0 <= i < n && Clash(answers[i]) && answers[i].error == e.value && forall j :: i < j < n ==> !Clash(answers[j])
  }

  // The first refusal among them for another reason.
  ghost predicate FirstOther(answers: seq<Attempt>, n: nat, e: Option<Error>)
    requires n <= |answers|
  {
    if e.None? then forall i :: 0 <= i < n ==> !Otherwise(answers[i])
    else exists i :: 0 <= i < n && Otherwise(answers[i]) && answers[i].error == e.value && forall j :: 0 <= j < i ==> !Otherwise(answers[j])
  }

  ghost predicate FirstInvalid(answers: seq<Attempt>, e: Error) {
    exists i :: 0 <= i < |answers| && Invalid(answers[i]) && answers[i].error == e
                && forall j :: 0 <= j < i ==> !Invalid(answers[j]) && !answers[j].Placed?
  }

  // No gateway takes the services, and none finds one of them invalid; the last
  // port conflict counts more than the first other refusal.
  ghost predicate NoneTakes(answers: seq<Attempt>, e: Error) {
    && (forall i :: 0 <= i < |answers| ==> !Invalid(answers[i]) && !answers[i].Placed?)
    && exists c, o :: LastClash(answers, |answers|, c) && FirstOther(answers, |answers|, o)
                      && e == if c.Some? then c.value else if o.Some? then o.value else NoHealthyGateway
  }

  // The answers before k are accounted for by the last clash and the first other
  // refusal among them.
  ghost predicate PassedTo(answers: seq<Attempt>, k: nat, conflict: Option<Error>, other: Option<Error>) {
    && k <= |answers| && (forall i :: 0 <= i < k ==> !Invalid(answers[i]) && !answers[i].Placed?)
    && LastClash(answers, k, conflict) && FirstOther(answers, k, other)
  }

  ghost predicate Justified(answers: seq<Attempt>, e: Error) { FirstInvalid(answers, e) || NoneTakes(answers, e) }

  lemma {:induction false} RefusedFrom(
    rules: Rules, req: Request, ordered: seq<Candidate>, answers: seq<Attempt>, k: nat, conflict: Option<Error>, other: Option<Error>, e: Error)
    requires answers == Answers(rules, req, ordered) && PassedTo(answers, k, conflict, other)
    requires FirstPlacement(rules, req, ordered[k..], conflict, other) == Err(e)
    ensures Justified(answers, e)
    decreases |ordered| - k
  {
    if k == |ordered| {
      NothingLeft(rules, req, ordered[k..], answers, conflict, other, e);
    } else if Invalid(answers[k]) {
      StopsAtInvalid(rules, req, ordered[k..], answers, k, conflict, other, e);
    } else {
      var conflict', other' := CarryOn(answers, k, conflict, other);
      GoesOn(rules, req, ordered, k, conflict, other, conflict', other');
      RefusedFrom(rules, req, ordered, answers, k + 1, conflict', other', e);
    }
  }

  lemma NothingLeft(
    rules: Rules, req: Request, rest: seq<Candidate>, answers: seq<Attempt>, conflict: Option<Error>, other: Option<Error>, e: Error)
    requires rest == [] && PassedTo(answers, |answers|, conflict, other)
    requires FirstPlacement(rules, req, rest, conflict, other) == Err(e)
    ensures NoneTakes(answers, e)
  {
  }

  lemma StopsAtInvalid(
    rules: Rules, req: Request, rest: seq<Candidate>, answers: seq<Attempt>, k: nat, conflict: Option<Error>, other: Option<Error>, e: Error)
    requires k < |answers| && Invalid(answers[k]) && PassedTo(answers, k, conflict, other)
    requires rest != [] && Try(rules, req, rest[0]) == answers[k] && FirstPlacement(rules, req, rest, conflict, other) == Err(e)
    ensures FirstInvalid(answers, e)
  {
  }

  lemma GoesOn(
    rules: Rules, req: Request, ordered: seq<Candidate>, k: nat, conflict: Option<Error>, other: Option<Error>,
    conflict': Option<Error>, other': Option<Error>)
    requires k < |ordered| && FirstPlacement(rules, req, ordered[k..], conflict, other).Err?
    requires var answer := Try(rules, req, ordered[k]);
             && !Invalid(answer) && conflict' == (if Clash(answer) then Some(answer.error) else conflict)
             && other' == (if Otherwise(answer) && other.None? then Some(answer.error) else other)
    ensures !Try(rules, req, ordered[k]).Placed?
    ensures FirstPlacement(rules, req, ordered[k..], conflict, other) == FirstPlacement(rules, req, ordered[k + 1..], conflict', other')
  {
    assert ordered[k..][0] == ordered[k] && ordered[k..][1..] == ordered[k + 1..];
  }

  lemma CarryOn(answers: seq<Attempt>, k: nat, conflict: Option<Error>, other: Option<Error>) returns (conflict': Option<Error>, other': Option<Error>)
    requires k < |answers| && PassedTo(answers, k, conflict, other) && !Invalid(answers[k])
    ensures !answers[k].Placed? ==> PassedTo(answers, k + 1, conflict', other')
    ensures conflict' == (if Clash(answers[k]) then Some(answers[k].error) else conflict)
    ensures other' == (if Otherwise(answers[k]) && other.None? then Some(answers[k].error) else other)
  {
    conflict' := if Clash(answers[k]) then Some(answers[k].error) else conflict;
    other' := if Otherwise(answers[k]) && other.None? then Some(answers[k].error) else other;
  }

  // A refused decision reports what is wrong with the request; else, over the
  // gateways in the order of preference, the first service found invalid, before
  // any gateway that takes them; else the last port conflict, the first other
  // refusal, or that no gateway was eligible.
  lemma RefusedBecause(rules: Rules, req: Request, candidates: seq<Candidate>)
    requires Decide(rules, req, candidates).Err?
    ensures var e, answers := Decide(rules, req, candidates).error, Answers(rules, req, Ordered(req, candidates));
            RequestError(rules, req) == Some(e) || Justified(answers, e)
  {
    var ordered := Ordered(req, candidates);
    assert ordered[0..] == ordered;
    if RequestError(rules, req).None? {
      RefusedFrom(rules, req, ordered, Answers(rules, req, ordered), 0, None, None, Decide(rules, req, candidates).error);
    }
  }

  // What stops a service on a gateway, where it does not keep the port it has.
  ghost predicate Stops(rules: Rules, c: Candidate, s: Service, occupied: set<string>, e: Error) {
    if !rules.validService(s) then e == InvalidService(s.id)
    else if !rules.matches(s.selector, c.node.labels) then e == SelectorMismatch(c.node.id, s.id)
    else if s.port == 0 then
      e == PoolExhausted && forall p: u16 :: InRanges(c.spec.pool.Ranges(s.protocol), p) ==> rules.Key(s.protocol, s.bind, p) in occupied
    else if rules.Key(s.protocol, s.bind, s.port) in occupied then e == PortConflict(c.node.id, s.protocol, s.bind, s.port)
    else e == PortOutsidePool(s.port) && !InPool(c.spec.pool, s.protocol, s.port)
  }

  // A gateway that fails does so at the first service that cannot be placed after
  // those before it.
  lemma {:induction false} PlaceStopsAt(rules: Rules, c: Candidate, services: seq<Service>, kept: map<string, Binding>, occupied: set<string>)
    returns (k: nat, taken: set<string>)
    requires Place(rules, c, services, kept, occupied).Err?
    ensures k < |services| && Place(rules, c, services[..k], kept, occupied).Ok?
    ensures taken == occupied + KeysOf(rules, Place(rules, c, services[..k], kept, occupied).value)
    ensures Stops(rules, c, services[k], taken, Place(rules, c, services, kept, occupied).error)
  {
    var s := services[0];
    var port := PortFor(rules, c, s, kept, occupied);
    if rules.validService(s) && rules.matches(s.selector, c.node.labels) && port.Ok? {
      var key := rules.Key(s.protocol, s.bind, port.value);
      var i, t := PlaceStopsAt(rules, c, services[1..], kept, occupied + {key});
      k, taken := i + 1, t;
      assert services[..k][0] == s && services[..k][1..] == services[1..][..i];
      PlacedBefore(rules, c, services[..k], kept, occupied, port.value);
    } else {
      k, taken := 0, occupied;
      StopsHere(rules, c, s, kept, occupied, Place(rules, c, services, kept, occupied).error);
    }
  }

  lemma PlacedBefore(rules: Rules, c: Candidate, services: seq<Service>, kept: map<string, Binding>, occupied: set<string>, port: u16)
    requires services != [] && rules.validService(services[0]) && rules.matches(services[0].selector, c.node.labels)
    requires PortFor(rules, c, services[0], kept, occupied) == Ok(port)
    requires Place(rules, c, services[1..], kept, occupied + {rules.Key(services[0].protocol, services[0].bind, port)}).Ok?
    ensures var s := services[0];
            var key := rules.Key(s.protocol, s.bind, port);
            && Place(rules, c, services, kept, occupied).Ok?
            && occupied + {key} + KeysOf(rules, Place(rules, c, services[1..], kept, occupied + {key}).value)
               == occupied + KeysOf(rules, Place(rules, c, services, kept, occupied).value)
  {
    var s := services[0];
    KeysMore(rules, Binding(s.id, s.protocol, s.bind, port),
             Place(rules, c, services[1..], kept, occupied + {rules.Key(s.protocol, s.bind, port)}).value);
  }

  lemma KeysMore(rules: Rules, b: Binding, rest: seq<Binding>)
    ensures KeysOf(rules, [b] + rest) == {rules.KeyOf(b)} + KeysOf(rules, rest)
  {
    assert forall x :: x in [b] + rest <==> x == b || x in rest;
  }

  lemma StopsHere(rules: Rules, c: Candidate, s: Service, kept: map<string, Binding>, occupied: set<string>, e: Error)
    requires if !rules.validService(s) then e == InvalidService(s.id)
             else if !rules.matches(s.selector, c.node.labels) then e == SelectorMismatch(c.node.id, s.id)
             else var port := PortFor(rules, c, s, kept, occupied); port.Err? && e == PlacementError(c, s, port.error)
    ensures Stops(rules, c, s, occupied, e)
  {
    AllocateIs(rules, c.spec.pool, s.protocol, s.bind, s.port, occupied);
  }

  // No binding of a decision is on a key that another active assignment of the
  // gateway holds, nor on one of its listeners' unless the current placement,
  // which stays there, is already on it.
  lemma DecisionCollidesWithNothing(rules: Rules, req: Request, candidates: seq<Candidate>, b: Binding) returns (c: Candidate)
    requires Decide(rules, req, candidates).Ok? && DistinctNodes(candidates) && b in Decide(rules, req, candidates).value.bindings
    requires forall d :: d in candidates ==> d.used == LoadedKeys(rules, d.spec.listeners, d.assignments)
    ensures var key := rules.Key(b.protocol, b.bind, b.port);
            && c in candidates && c.node.id == Decide(rules, req, candidates).value.gatewayID
            && !HeldByOther(rules, req, c, key)
            && forall l :: l in c.spec.listeners && rules.Key(l.protocol, l.bind, l.port) == key ==>
                             StaysOn(req, c) && HeldBy(rules, Current(req).value, key)
  {
    c := PicksBest(rules, req, candidates);
    var key := rules.Key(b.protocol, b.bind, b.port);
    PlaceSound(rules, c, req.services, Inherited(req, c), Occupied(rules, req, c));
    var bs := Decide(rules, req, candidates).value.bindings;
    var i :| 0 <= i < |bs| && bs[i] == b;
    assert rules.KeyOf(bs[i]) !in Occupied(rules, req, c);
    OccupiedExactly(rules, req, c, key);
    LoadedExactly(rules, c.spec.listeners, c.assignments, key);
  }

  // ---------- when placements are the same ----------

  // Two placements are the same exactly if they agree in id, nodes, endpoint and
  // policy, and hold the same services and the same bindings up to order and the
  // spelling of addresses.
  lemma SamePlacementExactly(rules: Rules, a: Assignment, b: Assignment)
    requires rules.Idempotent()
    requires forall i, j :: 0 <= i < j < |a.bindings| ==> rules.KeyOf(a.bindings[i]) != rules.KeyOf(a.bindings[j])
    ensures SamePlacement(rules, a, b) <==>
            && a.id == b.id && a.gatewayID == b.gatewayID && a.agentID == b.agentID && a.endpoint == b.endpoint && a.policy == b.policy
            && multiset(a.serviceIDs) == multiset(b.serviceIDs)
            && multiset(Map(a.bindings, NormalBy(rules))) == multiset(Map(b.bindings, NormalBy(rules)))
  {
    SameIDsExactly(a.serviceIDs, b.serviceIDs);
    if SameBindings(rules, SortBy(a.bindings, KeyBy(rules), StringLess), SortBy(b.bindings, KeyBy(rules), StringLess)) {
      SameBindingsPermute(rules, a.bindings, b.bindings);
    }
    if multiset(Map(a.bindings, NormalBy(rules))) == multiset(Map(b.bindings, NormalBy(rules))) {
      PermutedBindingsAgree(rules, a.bindings, b.bindings);
    }
  }

  lemma SameIDsExactly(a: seq<string>, b: seq<string>)
    ensures SortBy(a, Self, StringLess) == SortBy(b, Self, StringLess) <==> multiset(a) == multiset(b)
  {
    StringOrder();
    SortSorts(a, Self, StringLess);
    SortSorts(b, Self, StringLess);
    if multiset(a) == multiset(b) {
      SortIgnoresOrder(a, b, Self, StringLess);
    }
  }

  lemma SameIsNormal(rules: Rules, xs: seq<Binding>, ys: seq<Binding>)
    ensures SameBindings(rules, xs, ys) <==> Map(xs, NormalBy(rules)) == Map(ys, NormalBy(rules))
  {
    var left, right := Map(xs, NormalBy(rules)), Map(ys, NormalBy(rules));
    forall i | 0 <= i < |xs| && |xs| == |ys| ensures SameBinding(rules, xs[i], ys[i]) <==> left[i] == right[i] {
      assert left[i] == rules.Normal(xs[i]) && right[i] == rules.Normal(ys[i]);
    }
  }

  lemma SameBindingsPermute(rules: Rules, a: seq<Binding>, b: seq<Binding>)
    requires SameBindings(rules, SortBy(a, KeyBy(rules), StringLess), SortBy(b, KeyBy(rules), StringLess))
    ensures multiset(Map(a, NormalBy(rules))) == multiset(Map(b, NormalBy(rules)))
  {
    StringOrder();
    var sa, sb := SortBy(a, KeyBy(rules), StringLess), SortBy(b, KeyBy(rules), StringLess);
    SortSorts(a, KeyBy(rules), StringLess);
    SortSorts(b, KeyBy(rules), StringLess);
    SameIsNormal(rules, sa, sb);
    MapPermutes(sa, a, NormalBy(rules));
    MapPermutes(sb, b, NormalBy(rules));
  }

  // With one binding per key, normal form and key determine each other.
  lemma NormalFormsByKey(rules: Rules, a: seq<Binding>, x: Binding, y: Binding)
    requires rules.Idempotent() && x in Map(a, NormalBy(rules)) && y in Map(a, NormalBy(rules)) && rules.KeyOf(x) == rules.KeyOf(y)
    requires forall i, j :: 0 <= i < j < |a| ==> rules.KeyOf(a[i]) != rules.KeyOf(a[j])
    ensures x == y
  {
    var i := WhereNormal(rules, a, x);
    var j := WhereNormal(rules, a, y);
    assert i == j;
  }

  lemma WhereNormal(rules: Rules, a: seq<Binding>, x: Binding) returns (i: nat)
    requires rules.Idempotent() && x in Map(a, NormalBy(rules))
    ensures i < |a| && x == rules.Normal(a[i]) && rules.KeyOf(a[i]) == rules.KeyOf(x)
  {
    var na := Map(a, NormalBy(rules));
    i :| 0 <= i < |na| && na[i] == x;
    assert na[i] == NormalBy(rules)(a[i]);
  }

  lemma NormalFormsSortAlike(rules: Rules, a: seq<Binding>, na: seq<Binding>, nb: seq<Binding>)
    requires rules.Idempotent() && na == Map(a, NormalBy(rules)) && multiset(na) == multiset(nb)
    requires forall i, j :: 0 <= i < j < |a| ==> rules.KeyOf(a[i]) != rules.KeyOf(a[j])
    ensures SortBy(na, KeyBy(rules), StringLess) == SortBy(nb, KeyBy(rules), StringLess)
  {
    StringOrder();
    forall x, y | x in na && y in na && KeyBy(rules)(x) == KeyBy(rules)(y) ensures x == y {
      NormalFormsByKey(rules, a, x, y);
    }
    SortIgnoresOrder(na, nb, KeyBy(rules), StringLess);
  }

  lemma PermutedBindingsAgree(rules: Rules, a: seq<Binding>, b: seq<Binding>)
    requires rules.Idempotent() && multiset(Map(a, NormalBy(rules))) == multiset(Map(b, NormalBy(rules)))
    requires forall i, j :: 0 <= i < j < |a| ==> rules.KeyOf(a[i]) != rules.KeyOf(a[j])
    ensures SameBindings(rules, SortBy(a, KeyBy(rules), StringLess), SortBy(b, KeyBy(rules), StringLess))
  {
    NormalFormsSortAlike(rules, a, Map(a, NormalBy(rules)), Map(b, NormalBy(rules)));
    SortOfNormal(rules, a);
    SortOfNormal(rules, b);
    SameIsNormal(rules, SortBy(a, KeyBy(rules), StringLess), SortBy(b, KeyBy(rules), StringLess));
  }

  lemma SortOfNormal(rules: Rules, a: seq<Binding>)
    requires rules.Idempotent()
    ensures SortBy(Map(a, NormalBy(rules)), KeyBy(rules), StringLess) == Map(SortBy(a, KeyBy(rules), StringLess), NormalBy(rules))
  {
    SortMap(a, NormalBy(rules), KeyBy(rules), KeyBy(rules), StringLess);
  }
}
