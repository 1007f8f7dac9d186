/** The scheduler and the store together: what is decided on a fresh view of the
    tables is accepted by them. */
module PlacementStore {
  import opened Bytes
  import opened Ordering
  import opened Domain
  import opened Ports
  import opened Store
  import opened StoreInvariants
  import Scheduler
  import SchedulerSafety
  import SchedulerFixedPoint

  type Request = Scheduler.Request
  type Candidate = Scheduler.Candidate

  // ---------- a fresh view ----------

  function BindingOf(p: PortRow): Binding { p.binding }

  // An assignment as it is read back.
  function Loaded(db: Tables, id: string): Assignment
    requires id in db.assignments && id in db.bindings
  {
    var row := db.assignments[id];
    Assignment(id, row.gatewayID, row.agentID, row.services, Map(db.bindings[id], BindingOf), row.generation, row.state,
               row.endpoint, row.policy)
  }

  ghost predicate IsLoaded(db: Tables, a: Assignment) {
    a.id in db.assignments && a.id in db.bindings && a == Loaded(db, a.id)
  }

  // The candidate shows its gateway as the tables have it.
  ghost predicate FreshView(rules: Rules, db: Tables, c: Candidate) {
    var id := c.node.id;
    && id in db.nodes && HasRole(db, id, true) && c.spec == db.specs[id].value.gateway
    && c.node.enabled == db.nodes[id].enabled && c.node.labels == db.nodes[id].labels
    && (forall a :: a in c.assignments ==> IsLoaded(db, a) && a.gatewayID == id)
    && (forall k :: k in db.assignments && k in db.bindings && db.assignments[k].gatewayID == id ==> Loaded(db, k) in c.assignments)
    && (forall i, j :: 0 <= i < j < |c.assignments| ==> c.assignments[i].id != c.assignments[j].id)
    && c.used == SchedulerFixedPoint.LoadedKeys(rules, c.spec.listeners, c.assignments)
  }

  // The request is for an enabled agent's stored services, with its stored
  // assignment if it has one.
  ghost predicate FreshRequest(db: Tables, req: Request) {
    && req.agentID in db.nodes && HasRole(db, req.agentID, false) && db.nodes[req.agentID].enabled
    && (forall s :: s in req.services ==> s.id in db.services && db.services[s.id].value == s)
    && (req.existing.Some? ==> IsLoaded(db, req.existing.value) && req.existing.value.agentID == req.agentID
                               && req.existing.value.generation <= req.generation)
  }

  // No active assignment but the one to be replaced holds one of the services.
  ghost predicate Unclaimed(db: Tables, services: seq<Service>, id: string) {
    forall other, s :: other in db.assignments && other != id && s in services && s.id in db.assignments[other].services ==>
                         Relinquished(db.assignments[other].state)
  }

  // The id and the revision under which the decision is put.
  ghost predicate PutAs(db: Tables, req: Request, id: string, ifMatch: int) {
    && (if req.existing.Some? then id == req.existing.value.id else id !in db.assignments)
    && RevisionError(RevisionOf(db, id), ifMatch).None?
  }

  lemma ViewIsConsistent(rules: Rules, db: Tables, req: Request, c: Candidate)
    requires FreshView(rules, db, c) && FreshRequest(db, req)
    ensures SchedulerSafety.Consistent(req, c)
  {
    var e := Scheduler.Sticky(req);
    if e.Some? {
      assert IsLoaded(db, e.value);
      forall a | a in c.assignments && a.id == e.value.id ensures a == e.value {
        assert IsLoaded(db, a);
      }
    }
  }

  // ---------- the bindings fit ----------

  // A binding read back serves its gateway, as the store keeps it.
  lemma StoredFits(rules: Rules, db: Tables, a: Assignment, b: Binding)
    requires Inv(rules, db) && IsLoaded(db, a) && b in a.bindings
    ensures IsGateway(db.specs, a.gatewayID) && Serveable(rules, db.specs[a.gatewayID].value.gateway, b)
  {
    var row, ports := db.assignments[a.id], db.bindings[a.id];
    var i :| 0 <= i < |a.bindings| && a.bindings[i] == b;
    assert ports[i].binding == b && ports[i] in ports;
    assert RowFine(rules, db.services, db.specs, row, ports);
    assert PortFine(rules, db.services, db.specs[row.gatewayID].value.gateway, row, ports[i]);
  }

  lemma {:induction false} ByServiceFrom(bindings: seq<Binding>, id: string)
    requires id in Scheduler.ByService(bindings)
    ensures Scheduler.ByService(bindings)[id] in bindings
  {
    var n := |bindings| - 1;
    if id != bindings[n].serviceID {
      ByServiceFrom(bindings[..n], id);
    }
  }

  // An inherited port is in the pool, because the store kept it there.
  lemma InheritedInPool(rules: Rules, db: Tables, req: Request, c: Candidate, s: Service, b: Binding)
    requires Inv(rules, db) && FreshView(rules, db, c) && FreshRequest(db, req)
    requires SchedulerSafety.Inherits(rules, s, b, Scheduler.Inherited(req, c))
    ensures InPool(c.spec.pool, s.protocol, b.port)
  {
    var e := Scheduler.Sticky(req).value;
    ByServiceFrom(e.bindings, s.id);
    StoredFits(rules, db, e, Scheduler.Inherited(req, c)[s.id]);
  }

  // What is not occupied hits no listener, even with the own keys released.
  lemma FreeOfListeners(rules: Rules, db: Tables, req: Request, c: Candidate, b: Binding)
    requires Inv(rules, db) && FreshView(rules, db, c) && FreshRequest(db, req)
    requires rules.KeyOf(b) !in Scheduler.Occupied(rules, req, c)
    ensures !HitsListener(rules, c.spec.listeners, b)
  {
    if HitsListener(rules, c.spec.listeners, b) {
      var i :| 0 <= i < |c.spec.listeners| && ListenerKey(rules, c.spec.listeners[i]) == rules.KeyOf(b);
      assert c.spec.listeners[i] in c.spec.listeners;
      ListenersLoaded(rules, c, c.spec.listeners[i]);
      var e := Scheduler.Sticky(req).value;
      var own :| own in e.bindings && rules.KeyOf(own) == rules.KeyOf(b);
      StoredFits(rules, db, e, own);
    }
  }

  function ListenerKey(rules: Rules, l: Listener): string { rules.Key(l.protocol, l.bind, l.port) }

  lemma ListenersLoaded(rules: Rules, c: Candidate, l: Listener)
    requires c.used == SchedulerFixedPoint.LoadedKeys(rules, c.spec.listeners, c.assignments) && l in c.spec.listeners
    ensures ListenerKey(rules, l) in c.used
  {
  }

  lemma BindingFits(rules: Rules, db: Tables, req: Request, c: Candidate, s: Service, b: Binding)
    requires Inv(rules, db) && FreshView(rules, db, c) && FreshRequest(db, req)
    requires SchedulerSafety.Fits(rules, c, s, b, Scheduler.Inherited(req, c)) && rules.KeyOf(b) !in Scheduler.Occupied(rules, req, c)
    ensures Misfit(rules, c.spec, s, b).None?
  {
    if !InPool(c.spec.pool, s.protocol, b.port) {
      InheritedInPool(rules, db, req, c, s, b);
    }
    FreeOfListeners(rules, db, req, c, b);
  }

  lemma {:induction false} NoBindingError(rules: Rules, services: Services, spec: GatewaySpec, members: seq<string>, bindings: seq<Binding>)
    requires forall b :: b in bindings ==>
                           b.serviceID in members && b.serviceID in services && Misfit(rules, spec, services[b.serviceID].value, b).None?
    ensures BindingError(rules, services, spec, members, bindings).None?
  {
    if bindings != [] {
      assert bindings[0] in bindings;
      NoBindingError(rules, services, spec, members, bindings[1..]);
    }
  }

  lemma {:induction false} NoMemberError(rules: Rules, services: Services, agentID: string, labels: Labels, ids: seq<string>)
    requires forall s :: s in ids ==> s in services && services[s].value.agentID == agentID && rules.matches(services[s].value.selector, labels)
    ensures MemberError(rules, services, agentID, labels, ids).None?
  {
    if ids != [] {
      assert ids[0] in ids;
      NoMemberError(rules, services, agentID, labels, ids[1..]);
    }
  }

  // ---------- the rows can be inserted ----------

  // A binding stored for the gateway by an assignment that stays is occupied.
  lemma StoredIsOccupied(rules: Rules, db: Tables, req: Request, c: Candidate, other: string, q: PortRow)
    requires Inv(rules, db) && FreshView(rules, db, c) && FreshRequest(db, req)
    requires other in db.assignments && q in db.bindings[other] && q.gatewayID == c.node.id
    requires Scheduler.SkipID(req) != Some(other)
    ensures rules.KeyOf(q.binding) in Scheduler.Occupied(rules, req, c)
  {
    var row, ports := db.assignments[other], db.bindings[other];
    assert RowFine(rules, db.services, db.specs, row, ports);
    assert PortFine(rules, db.services, db.specs[row.gatewayID].value.gateway, row, q);
    var a := Loaded(db, other);
    var i :| 0 <= i < |ports| && ports[i] == q;
    assert a.bindings[i] == q.binding;
    InOtherKeys(rules, c.assignments, Scheduler.SkipID(req), a, q.binding);
  }

  lemma {:induction false} InOtherKeys(rules: Rules, assignments: seq<Assignment>, skip: Option<string>, a: Assignment, b: Binding)
    requires a in assignments && !Relinquished(a.state) && skip != Some(a.id) && b in a.bindings
    ensures rules.KeyOf(b) in Scheduler.OtherKeys(rules, assignments, skip)
  {
    if assignments[0] != a {
      InOtherKeys(rules, assignments[1..], skip, a, b);
    }
  }

  lemma PortsGoIn(rules: Rules, db: Tables, req: Request, c: Candidate, a: Assignment, gone: set<string>)
    requires rules.Idempotent() && Inv(rules, db) && FreshView(rules, db, c) && FreshRequest(db, req)
    requires a.gatewayID == c.node.id && !Relinquished(a.state) && a.id in gone
    requires Scheduler.SkipID(req).Some? ==> Scheduler.SkipID(req) == Some(a.id)
    requires SchedulerSafety.Sound(rules, c, req.services, Scheduler.Inherited(req, c), Scheduler.Occupied(rules, req, c), a.bindings)
    requires Distinct(Scheduler.IDs(req.services))
    ensures PortsInsertable(Drop(db, gone), PortsFor(rules, a))
  {
    var ports := PortsFor(rules, a);
    forall i, j | 0 <= i < j < |ports|
      ensures !SameSocket(ports[i], ports[j]) && ports[i].binding.serviceID != ports[j].binding.serviceID
    {
      PairGoesIn(rules, req, c, a, i, j);
    }
    forall p | p in ports ensures !SocketTaken(Drop(db, gone), p) {
      var i :| 0 <= i < |ports| && ports[i] == p;
      PortGoesIn(rules, db, req, c, a, gone, i);
    }
  }

  lemma PairGoesIn(rules: Rules, req: Request, c: Candidate, a: Assignment, i: nat, j: nat)
    requires rules.Idempotent() && !Relinquished(a.state) && i < j < |a.bindings|
    requires SchedulerSafety.Sound(rules, c, req.services, Scheduler.Inherited(req, c), Scheduler.Occupied(rules, req, c), a.bindings)
    requires Distinct(Scheduler.IDs(req.services))
    ensures var ports := PortsFor(rules, a);
            !SameSocket(ports[i], ports[j]) && ports[i].binding.serviceID != ports[j].binding.serviceID
  {
    var kept := Scheduler.Inherited(req, c);
    assert SchedulerSafety.Fits(rules, c, req.services[i], a.bindings[i], kept);
    assert SchedulerSafety.Fits(rules, c, req.services[j], a.bindings[j], kept);
    assert Scheduler.IDs(req.services)[i] != Scheduler.IDs(req.services)[j];
    assert rules.KeyOf(a.bindings[i]) != rules.KeyOf(a.bindings[j]);
  }

  lemma PortGoesIn(rules: Rules, db: Tables, req: Request, c: Candidate, a: Assignment, gone: set<string>, i: nat)
    requires rules.Idempotent() && Inv(rules, db) && FreshView(rules, db, c) && FreshRequest(db, req)
    requires a.gatewayID == c.node.id && !Relinquished(a.state) && a.id in gone && i < |a.bindings|
    requires Scheduler.SkipID(req).Some? ==> Scheduler.SkipID(req) == Some(a.id)
    requires rules.KeyOf(a.bindings[i]) !in Scheduler.Occupied(rules, req, c)
    ensures !SocketTaken(Drop(db, gone), PortsFor(rules, a)[i])
  {
    var base, p := Drop(db, gone), PortsFor(rules, a)[i];
    forall other, q | other in base.bindings && q in base.bindings[other] ensures !SameSocket(p, q) {
      if SameSocket(p, q) {
        StoredIsOccupied(rules, db, req, c, other, q);
      }
    }
  }

  lemma ServicesGoIn(db: Tables, id: string, services: seq<string>)
    requires Distinct(services)
    ensures ServicesInsertable(Drop(db, Superseded(db, id, services) + {id}), services)
  {
    var base := Drop(db, Superseded(db, id, services) + {id});
    forall s, other | s in services && other in base.assignments ensures s !in base.assignments[other].services {
      assert other !in Superseded(db, id, services);
    }
  }

  // ---------- the theorem ----------

  // The checks of the put, on the gateway that was chosen.
  lemma NoPutError(rules: Rules, db: Tables, req: Request, c: Candidate, a: Assignment, ifMatch: int)
    requires Inv(rules, db) && FreshView(rules, db, c) && FreshRequest(db, req) && PutAs(db, req, a.id, ifMatch)
    requires Unclaimed(db, req.services, a.id) && rules.validAssignment(a) && a.generation <= MAX_STORED
    requires a.state == Pending && a.gatewayID == c.node.id && c.node.enabled && a.agentID == req.agentID && a.generation == req.generation
    requires a.serviceIDs == Scheduler.IDs(req.services) && (a.endpoint == "" || a.endpoint in c.spec.endpoints)
    requires forall s :: s in req.services ==> s.agentID == req.agentID
    requires SchedulerSafety.Sound(rules, c, req.services, Scheduler.Inherited(req, c), Scheduler.Occupied(rules, req, c), a.bindings)
    ensures PutError(rules, db, a, ifMatch).None?
  {
    MembersAccepted(rules, db, req, c, a.bindings);
    BindingsAccepted(rules, db, req, c, a.bindings);
    SupersededInactive(db, req.services, a.id);
  }

  lemma SupersededInactive(db: Tables, services: seq<Service>, id: string)
    requires Unclaimed(db, services, id)
    ensures forall other :: other in Superseded(db, id, Scheduler.IDs(services)) ==> Relinquished(db.assignments[other].state)
  {
    var ids := Scheduler.IDs(services);
    forall other | other in Superseded(db, id, ids) ensures Relinquished(db.assignments[other].state) {
      var s :| s in ids && s in db.assignments[other].services;
      var i :| 0 <= i < |ids| && ids[i] == s;
      assert services[i] in services && services[i].id == s;
    }
  }

  lemma MembersAccepted(rules: Rules, db: Tables, req: Request, c: Candidate, bs: seq<Binding>)
    requires FreshRequest(db, req) && forall s :: s in req.services ==> s.agentID == req.agentID
    requires SchedulerSafety.Sound(rules, c, req.services, Scheduler.Inherited(req, c), Scheduler.Occupied(rules, req, c), bs)
    ensures MemberError(rules, db.services, req.agentID, c.node.labels, Scheduler.IDs(req.services)).None?
  {
    var ids := Scheduler.IDs(req.services);
    forall id | id in ids
      ensures id in db.services && db.services[id].value.agentID == req.agentID && rules.matches(db.services[id].value.selector, c.node.labels)
    {
      var i :| 0 <= i < |ids| && ids[i] == id;
      assert req.services[i] in req.services;
      assert SchedulerSafety.Fits(rules, c, req.services[i], bs[i], Scheduler.Inherited(req, c));
    }
    NoMemberError(rules, db.services, req.agentID, c.node.labels, ids);
  }

  lemma BindingsAccepted(rules: Rules, db: Tables, req: Request, c: Candidate, bs: seq<Binding>)
    requires Inv(rules, db) && FreshView(rules, db, c) && FreshRequest(db, req)
    requires SchedulerSafety.Sound(rules, c, req.services, Scheduler.Inherited(req, c), Scheduler.Occupied(rules, req, c), bs)
    ensures BindingError(rules, db.services, c.spec, Scheduler.IDs(req.services), bs).None?
  {
    var ids := Scheduler.IDs(req.services);
    forall b | b in bs
      ensures b.serviceID in ids && b.serviceID in db.services && Misfit(rules, c.spec, db.services[b.serviceID].value, b).None?
    {
      var i :| 0 <= i < |bs| && bs[i] == b;
      assert req.services[i] in req.services && ids[i] == req.services[i].id;
      assert SchedulerSafety.Fits(rules, c, req.services[i], b, Scheduler.Inherited(req, c));
      BindingFits(rules, db, req, c, req.services[i], b);
    }
    NoBindingError(rules, db.services, c.spec, ids, bs);
  }

  lemma ChosenIsAccepted(rules: Rules, db: Tables, req: Request, c: Candidate, a: Assignment, ifMatch: int)
    requires rules.Idempotent() && Inv(rules, db) && FreshView(rules, db, c) && FreshRequest(db, req)
    requires Scheduler.Try(rules, req, c).Placed? && a == Scheduler.NewAssignment(req, c, a.bindings).(id := a.id)
    requires a.bindings == Scheduler.Try(rules, req, c).bindings
    requires Distinct(Scheduler.IDs(req.services)) && SchedulerFixedPoint.Ours(req)
    requires PutAs(db, req, a.id, ifMatch) && Unclaimed(db, req.services, a.id)
    requires rules.validAssignment(a) && a.generation <= MAX_STORED
    ensures Put(rules, db, a, ifMatch).Ok?
  {
    SchedulerSafety.PlaceSound(rules, c, req.services, Scheduler.Inherited(req, c), Scheduler.Occupied(rules, req, c));
    NoPutError(rules, db, req, c, a, ifMatch);
    ServicesGoIn(db, a.id, a.serviceIDs);
    PortsGoIn(rules, db, req, c, a, Superseded(db, a.id, a.serviceIDs) + {a.id});
  }

  // A decision made on a fresh view of the tables, for services that no other
  // active assignment holds, is accepted when it is put under the right revision.
  lemma DecisionIsAccepted(rules: Rules, db: Tables, req: Request, candidates: seq<Candidate>, a: Assignment, ifMatch: int)
    requires rules.Idempotent() && Inv(rules, db) && SchedulerSafety.DistinctNodes(candidates) && FreshRequest(db, req)
    requires forall c :: c in candidates ==> FreshView(rules, db, c)
    requires Scheduler.Decide(rules, req, candidates).Ok? && a == Scheduler.Decide(rules, req, candidates).value.(id := a.id)
    requires PutAs(db, req, a.id, ifMatch) && Unclaimed(db, req.services, a.id)
    requires rules.validAssignment(a) && a.generation <= MAX_STORED
    ensures Put(rules, db, a, ifMatch).Ok?
  {
    forall c | c in candidates ensures SchedulerSafety.Consistent(req, c) {
      ViewIsConsistent(rules, db, req, c);
    }
    var c := SchedulerSafety.PicksBest(rules, req, candidates);
    SchedulerFixedPoint.NoServiceError(req);
    ChosenIsAccepted(rules, db, req, c, a, ifMatch);
  }
}
