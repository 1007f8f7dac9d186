/** What every scheduling decision guarantees. */
module SchedulerSafety {
  import opened Bytes
  import opened Sums
  import opened Ordering
  import opened Domain
  import opened Ports
  import opened Scheduler

  // ---------- which gateway is chosen ----------

  lemma RankOrder()
    ensures StrictTotal(RankLess)
  {
    StringOrder();
    forall x: Rank, y: Rank, z: Rank | RankLess(x, y) && RankLess(y, z) ensures RankLess(x, z) {
    }
    forall x: Rank, y: Rank ensures x == y || RankLess(x, y) || RankLess(y, x) {
      StringTotal(x.id, y.id);
    }
  }

  // One candidate per gateway.
  ghost predicate DistinctNodes(candidates: seq<Candidate>) {
    forall x, y :: x in candidates && y in candidates && x.node.id == y.node.id ==> x == y
  }

  lemma OrderedIs(req: Request, candidates: seq<Candidate>)
    ensures InOrder(Ordered(req, candidates), RankBy(req), RankLess)
    ensures forall c :: c in Ordered(req, candidates) <==> c in candidates
  {
    RankOrder();
    SortSorts(candidates, RankBy(req), RankLess);
    forall c ensures c in Ordered(req, candidates) <==> c in candidates {
      assert c in multiset(Ordered(req, candidates)) <==> c in multiset(candidates);
    }
  }

  // The decision, success or error, does not depend on how the candidates are listed.
  lemma DecisionIgnoresOrder(rules: Rules, req: Request, a: seq<Candidate>, b: seq<Candidate>)
    requires multiset(a) == multiset(b) && DistinctNodes(a)
    ensures Decide(rules, req, a) == Decide(rules, req, b)
  {
    RankOrder();
    forall x, y | x in a && y in a && RankBy(req)(x) == RankBy(req)(y) ensures x == y {
      assert x.node.id == y.node.id;
    }
    SortIgnoresOrder(a, b, RankBy(req), RankLess);
  }

  // What is carried on when the first candidate does not take the services.
  lemma PassedOver(rules: Rules, req: Request, ordered: seq<Candidate>, conflict: Option<Error>, other: Option<Error>)
    returns (conflict': Option<Error>, other': Option<Error>)
    requires FirstPlacement(rules, req, ordered, conflict, other).Ok? && !Try(rules, req, ordered[0]).Placed?
    ensures FirstPlacement(rules, req, ordered, conflict, other) == FirstPlacement(rules, req, ordered[1..], conflict', other')
  {
    conflict', other' := conflict, other;
    match Try(rules, req, ordered[0])
    case Skipped =>
    case Failed(e) =>
      if e.PortConflict? {
        conflict' := Some(e);
      } else if other.None? {
        other' := Some(e);
      }
    case Placed(_) =>
  }

  lemma {:induction false} FirstPlacementIs(rules: Rules, req: Request, ordered: seq<Candidate>, conflict: Option<Error>, other: Option<Error>)
    returns (i: nat)
    requires FirstPlacement(rules, req, ordered, conflict, other).Ok?
    ensures i < |ordered| && Try(rules, req, ordered[i]).Placed?
    ensures forall k :: 0 <= k < i ==> !Try(rules, req, ordered[k]).Placed?
    ensures FirstPlacement(rules, req, ordered, conflict, other).value
            == NewAssignment(req, ordered[i], Try(rules, req, ordered[i]).bindings)
  {
    var t := Try(rules, req, ordered[0]);
    if t.Placed? {
      i := 0;
    } else {
      var conflict', other' := PassedOver(rules, req, ordered, conflict, other);
      var k := FirstPlacementIs(rules, req, ordered[1..], conflict', other');
      i := k + 1;
      forall j | 0 <= j < i ensures !Try(rules, req, ordered[j]).Placed? {
        assert j > 0 ==> ordered[j] == ordered[1..][j - 1];
      }
    }
  }

  // A successful decision takes the best-ranked gateway among all that fit.
  lemma PicksBest(rules: Rules, req: Request, candidates: seq<Candidate>) returns (c: Candidate)
    requires Decide(rules, req, candidates).Ok? && DistinctNodes(candidates)
    ensures c in candidates && Try(rules, req, c).Placed?
    ensures Decide(rules, req, candidates).value == NewAssignment(req, c, Try(rules, req, c).bindings)
    ensures forall d :: d in candidates && Try(rules, req, d).Placed? ==>
                          d == c || RankLess(RankOf(req, c), RankOf(req, d))
  {
    var ordered := Ordered(req, candidates);
    var i := FirstPlacementIs(rules, req, ordered, None, None);
    c := ordered[i];
    OrderedIs(req, candidates);
    RankOrder();
    forall d | d in candidates && Try(rules, req, d).Placed?
      ensures d == c || RankLess(RankOf(req, c), RankOf(req, d))
    {
      var k :| 0 <= k < |ordered| && ordered[k] == d;
      if k != i {
        assert !RankLess(RankBy(req)(ordered[k]), RankBy(req)(ordered[i]));
      }
    }
  }

  ghost predicate Reported(rules: Rules, req: Request, ordered: seq<Candidate>, e: Error) {
    exists c :: c in ordered && Try(rules, req, c) == Failed(e)
  }

  lemma {:induction false} FirstFailureIs(rules: Rules, req: Request, ordered: seq<Candidate>, conflict: Option<Error>, other: Option<Error>)
    requires FirstPlacement(rules, req, ordered, conflict, other).Err?
    requires forall s :: s in req.services ==> rules.validService(s)
    requires (conflict.Some? ==> conflict.value.PortConflict?) && (other.Some? ==> !other.value.PortConflict? && other.value != NoHealthyGateway)
    ensures var e := FirstPlacement(rules, req, ordered, conflict, other).error;
            && (forall c :: c in ordered ==> !Try(rules, req, c).Placed?)
            && (conflict == Some(e) || other == Some(e) || Reported(rules, req, ordered, e) || e == NoHealthyGateway)
            && (e == NoHealthyGateway ==> other.None? && forall c :: c in ordered ==> Try(rules, req, c).Skipped?)
            && (!e.PortConflict? ==> conflict.None? && forall c :: c in ordered && Try(rules, req, c).Failed? ==>
                                                               !Try(rules, req, c).error.PortConflict?)
  {
    if ordered != [] {
      var c, rest := ordered[0], ordered[1..];
      assert forall d :: d in ordered <==> d == c || d in rest;
      match Try(rules, req, c)
      case Placed(_) =>
      case Skipped => FirstFailureIs(rules, req, rest, conflict, other);
      case Failed(e) =>
        NoInvalidService(rules, c, req.services, Inherited(req, c), Occupied(rules, req, c));
        ErrorsAreReal(rules, c, req.services, Inherited(req, c), Occupied(rules, req, c));
        if e.PortConflict? {
          FirstFailureIs(rules, req, rest, Some(e), other);
        } else {
          FirstFailureIs(rules, req, rest, conflict, if other.None? then Some(e) else other);
        }
    }
  }

  lemma {:induction false} NoInvalidService(rules: Rules, c: Candidate, services: seq<Service>, kept: map<string, Binding>, occupied: set<string>)
    requires forall s :: s in services ==> rules.validService(s)
    ensures var r := Place(rules, c, services, kept, occupied); r.Err? ==> !r.error.InvalidService?
  {
    if services != [] {
      var port := PortFor(rules, c, services[0], kept, occupied);
      if port.Ok? {
        NoInvalidService(rules, c, services[1..], kept,
                         occupied + {rules.Key(services[0].protocol, services[0].bind, port.value)});
      }
    }
  }

  lemma {:induction false} ErrorsAreReal(rules: Rules, c: Candidate, services: seq<Service>, kept: map<string, Binding>, occupied: set<string>)
    ensures var r := Place(rules, c, services, kept, occupied); r.Err? ==> r.error != NoHealthyGateway
  {
    if services != [] {
      var port := PortFor(rules, c, services[0], kept, occupied);
      if port.Ok? {
        ErrorsAreReal(rules, c, services[1..], kept,
                      occupied + {rules.Key(services[0].protocol, services[0].bind, port.value)});
      }
    }
  }

  // With valid services a decision fails exactly when no gateway fits, and the
  // error says why: a port conflict if there was one, else another failure that
  // some gateway reported, else that none was eligible with room.
  lemma FailsOnlyWithoutFit(rules: Rules, req: Request, candidates: seq<Candidate>)
    requires RequestError(rules, req).None? && forall s :: s in req.services ==> rules.validService(s)
    ensures Decide(rules, req, candidates).Err? <==> forall c :: c in candidates ==> !Try(rules, req, c).Placed?
    ensures Decide(rules, req, candidates).Err? ==>
              var e := Decide(rules, req, candidates).error;
              && (e == NoHealthyGateway || Reported(rules, req, candidates, e))
              && (e == NoHealthyGateway ==> forall c :: c in candidates ==> Try(rules, req, c).Skipped?)
              && (!e.PortConflict? ==> forall c :: c in candidates && Try(rules, req, c).Failed? ==>
                                                     !Try(rules, req, c).error.PortConflict?)
  {
    var ordered := Ordered(req, candidates);
    OrderedIs(req, candidates);
    if FirstPlacement(rules, req, ordered, None, None).Ok? {
      var i := FirstPlacementIs(rules, req, ordered, None, None);
      assert ordered[i] in candidates;
    } else {
      FirstFailureIs(rules, req, ordered, None, None);
    }
  }

  // ---------- the bindings that are chosen ----------

  // The service keeps the port it has, at the same protocol and address.
  ghost predicate Inherits(rules: Rules, s: Service, b: Binding, kept: map<string, Binding>) {
    && s.id in kept && kept[s.id].port == b.port && kept[s.id].protocol == s.protocol
    && rules.canon(kept[s.id].bind) == rules.canon(s.bind)
  }

  ghost predicate Fits(rules: Rules, c: Candidate, s: Service, b: Binding, kept: map<string, Binding>) {
    && rules.validService(s) && rules.matches(s.selector, c.node.labels)
    && b.serviceID == s.id && b.protocol == s.protocol && b.bind == s.bind
    && (s.port != 0 ==> b.port == s.port)
    && (InPool(c.spec.pool, s.protocol, b.port) || Inherits(rules, s, b, kept))
  }

  // One binding per service, none on an occupied key, no two on one key.
  ghost predicate Sound(rules: Rules, c: Candidate, services: seq<Service>, kept: map<string, Binding>, occupied: set<string>, bs: seq<Binding>) {
    && |bs| == |services|
    && (forall i :: 0 <= i < |bs| ==> Fits(rules, c, services[i], bs[i], kept))
    && (forall i :: 0 <= i < |bs| ==> rules.KeyOf(bs[i]) !in occupied)
    && (forall i, j :: 0 <= i < j < |bs| ==> rules.KeyOf(bs[i]) != rules.KeyOf(bs[j]))
  }

  lemma {:induction false} PlaceSound(rules: Rules, c: Candidate, services: seq<Service>, kept: map<string, Binding>, occupied: set<string>)
    requires Place(rules, c, services, kept, occupied).Ok?
    ensures Sound(rules, c, services, kept, occupied, Place(rules, c, services, kept, occupied).value)
  {
    if services != [] {
      var s := services[0];
      var port := PortFor(rules, c, s, kept, occupied).value;
      var key := rules.Key(s.protocol, s.bind, port);
      AllocateIs(rules, c.spec.pool, s.protocol, s.bind, s.port, occupied);
      assert key !in occupied;
      PlaceSound(rules, c, services[1..], kept, occupied + {key});
      var bs, rest := Place(rules, c, services, kept, occupied).value, Place(rules, c, services[1..], kept, occupied + {key}).value;
      assert bs == [Binding(s.id, s.protocol, s.bind, port)] + rest;
      SoundCons(rules, c, services, kept, occupied, bs);
    }
  }

  lemma SoundCons(rules: Rules, c: Candidate, services: seq<Service>, kept: map<string, Binding>, occupied: set<string>, bs: seq<Binding>)
    requires services != [] && bs != [] && Fits(rules, c, services[0], bs[0], kept)
    requires rules.KeyOf(bs[0]) !in occupied
    requires Sound(rules, c, services[1..], kept, occupied + {rules.KeyOf(bs[0])}, bs[1..])
    ensures Sound(rules, c, services, kept, occupied, bs)
  {
    forall i | 0 <= i < |bs| ensures Fits(rules, c, services[i], bs[i], kept) && rules.KeyOf(bs[i]) !in occupied {
      assert i > 0 ==> Fits(rules, c, services[1..][i - 1], bs[1..][i - 1], kept);
    }
    forall i, j | 0 <= i < j < |bs| ensures rules.KeyOf(bs[i]) != rules.KeyOf(bs[j]) {
      assert bs[j] == bs[1..][j - 1] && (i > 0 ==> bs[i] == bs[1..][i - 1]);
    }
  }

  // ---------- capacity ----------

  function Without(assignments: seq<Assignment>, id: string): seq<Assignment> {
    if assignments == [] then []
    else if assignments[0].id == id then Without(assignments[1..], id)
    else [assignments[0]] + Without(assignments[1..], id)
  }

  // The scheduler's view agrees with the store: the current placement, if it is
  // on this gateway, is listed there once, and no other entry has its id.
  ghost predicate Consistent(req: Request, c: Candidate) {
    && (forall a :: a in c.assignments ==> a.gatewayID == c.node.id)
    && (forall i, j :: 0 <= i < j < |c.assignments| ==> c.assignments[i].id != c.assignments[j].id)
    && (Sticky(req).Some? ==>
          && Sticky(req).value.agentID == req.agentID
          && (Sticky(req).value.gatewayID == c.node.id ==> Sticky(req).value in c.assignments)
          && (forall a :: a in c.assignments && a.id == Sticky(req).value.id ==> a == Sticky(req).value))
  }

  lemma {:induction false} WithoutServices(assignments: seq<Assignment>, a: Assignment)
    requires forall i, j :: 0 <= i < j < |assignments| ==> assignments[i].id != assignments[j].id
    requires forall b :: b in assignments && b.id == a.id ==> b == a
    ensures ActiveServices(Without(assignments, a.id))
            == ActiveServices(assignments) - (if a in assignments && !Relinquished(a.state) then |a.serviceIDs| else 0)
    ensures ActiveAgents(Without(assignments, a.id)) <= ActiveAgents(assignments)
    ensures a in assignments && !Relinquished(a.state) ==> a.agentID in ActiveAgents(assignments)
  {
    if assignments != [] {
      var rest := Without(assignments[1..], a.id);
      WithoutServices(assignments[1..], a);
      assert ([assignments[0]] + rest)[1..] == rest;
      if assignments[0].id == a.id {
        assert a !in assignments[1..];
      } else {
        assert a in assignments <==> a in assignments[1..];
      }
    }
  }

  lemma {:induction false} ActiveAppend(assignments: seq<Assignment>, a: Assignment)
    ensures ActiveServices(assignments + [a]) == ActiveServices(assignments) + (if Relinquished(a.state) then 0 else |a.serviceIDs|)
    ensures ActiveAgents(assignments + [a]) == ActiveAgents(assignments) + (if Relinquished(a.state) then {} else {a.agentID})
  {
    if assignments == [] {
      assert assignments + [a] == [a];
    } else {
      ActiveAppend(assignments[1..], a);
      assert (assignments + [a])[1..] == assignments[1..] + [a];
    }
  }

  // The gateway's assignments once the new placement has replaced an old one.
  function After(c: Candidate, id: string, a: Assignment): seq<Assignment> {
    Without(c.assignments, id) + [a]
  }

  ghost predicate WithinCapacity(c: Candidate, assignments: seq<Assignment>) {
    && (c.spec.maxAgents > 0 ==> |ActiveAgents(assignments)| <= c.spec.maxAgents)
    && (c.spec.maxServices > 0 ==> ActiveServices(assignments) <= c.spec.maxServices)
  }

  // The counts behind the capacity test: with its own share released, a
  // placement is charged for exactly what the other assignments use.
  lemma UsedBelow(req: Request, c: Candidate, id: string, a: Assignment)
    requires Consistent(req, c) && a.agentID == req.agentID && !Relinquished(a.state)
    requires Sticky(req).Some? ==> id == Sticky(req).value.id
    requires Sticky(req).None? ==> forall b :: b in c.assignments && b.id == id ==> Relinquished(b.state)
    ensures ActiveServices(Without(c.assignments, id)) <= UsedServices(req, c)
    ensures |ActiveAgents(After(c, id, a))| <= UsedAgents(req, c) + 1
    ensures ActiveServices(After(c, id, a)) == ActiveServices(Without(c.assignments, id)) + |a.serviceIDs|
    ensures req.agentID in ActiveAgents(After(c, id, a))
  {
    ActiveAppend(Without(c.assignments, id), a);
    var agents := ActiveAgents(c.assignments);
    if Sticky(req).Some? {
      var e := Sticky(req).value;
      WithoutServices(c.assignments, e);
      if Keeps(req, c) {
        assert ActiveAgents(After(c, id, a)) <= agents;
        SubsetSize(ActiveAgents(After(c, id, a)), agents);
      } else {
        assert e.gatewayID != c.node.id;
        assert e !in c.assignments;
        SubsetSize(ActiveAgents(After(c, id, a)), agents + {a.agentID});
      }
    } else {
      WithoutRelinquished(c.assignments, id);
      SubsetSize(ActiveAgents(After(c, id, a)), agents + {a.agentID});
    }
  }

  lemma {:induction false} WithoutRelinquished(assignments: seq<Assignment>, id: string)
    requires forall b :: b in assignments && b.id == id ==> Relinquished(b.state)
    ensures ActiveServices(Without(assignments, id)) == ActiveServices(assignments)
    ensures ActiveAgents(Without(assignments, id)) == ActiveAgents(assignments)
  {
    if assignments != [] {
      var rest := Without(assignments[1..], id);
      WithoutRelinquished(assignments[1..], id);
      assert ([assignments[0]] + rest)[1..] == rest;
    }
  }

  lemma UsableCertificates(c: Certificate)
    ensures c in {CertPending, CertActive} <==> c !in {CertRevoked, CertExpired, CertDecommissioned}
  {
    match c
    case CertPending =>
    case CertActive =>
    case CertRevoked =>
    case CertExpired =>
    case CertDecommissioned =>
  }

  // Everything a successful decision promises about the gateway it picked: the
  // fixed gateway or the selector is respected, bindings fit their services and
  // collide with nothing that stays, and the gateway ends within its capacity.
  lemma DecisionIsSafe(rules: Rules, req: Request, candidates: seq<Candidate>) returns (c: Candidate)
    requires Decide(rules, req, candidates).Ok? && DistinctNodes(candidates)
    requires forall d :: d in candidates ==> Consistent(req, d)
    ensures var a := Decide(rules, req, candidates).value;
            && c in candidates && c.node.id == a.gatewayID && a.agentID == req.agentID
            && c.healthy && c.node.enabled && c.node.isGateway && c.node.certificate in {CertPending, CertActive}
            && (req.spec.gatewayID != "" ==> a.gatewayID == req.spec.gatewayID)
            && (req.spec.gatewayID == "" ==> rules.matches(req.spec.selector, c.node.labels))
            && a.serviceIDs == IDs(req.services)
            && Sound(rules, c, req.services, Inherited(req, c), Occupied(rules, req, c), a.bindings)
            && (Sticky(req).Some? ==> WithinCapacity(c, After(c, Sticky(req).value.id, a)))
            && (Sticky(req).None? ==> forall id :: (forall b :: b in c.assignments && b.id == id ==> Relinquished(b.state)) ==>
                                                     WithinCapacity(c, After(c, id, a)))
  {
    c := PicksBest(rules, req, candidates);
    UsableCertificates(c.node.certificate);
    var a := Decide(rules, req, candidates).value;
    PlaceSound(rules, c, req.services, Inherited(req, c), Occupied(rules, req, c));
    if Sticky(req).Some? {
      UsedBelow(req, c, Sticky(req).value.id, a);
    } else {
      forall id | forall b :: b in c.assignments && b.id == id ==> Relinquished(b.state)
        ensures WithinCapacity(c, After(c, id, a))
      {
        UsedBelow(req, c, id, a);
      }
    }
  }
}
