/** Scheduling again, once a decision has been stored, changes nothing. */
module SchedulerFixedPoint {
  import opened Bytes
  import opened Ordering
  import opened Domain
  import opened Ports
  import opened Scheduler
  import opened SchedulerSafety

  // ---------- when two placements are the same ----------

  function Self(id: string): string { id }

  function KeyBy(rules: Rules): Binding -> string { b => rules.KeyOf(b) }

  function NormalBy(rules: Rules): Binding -> Binding { b => rules.Normal(b) }

  predicate SameBinding(rules: Rules, x: Binding, y: Binding) {
    x.serviceID == y.serviceID && x.protocol == y.protocol && rules.canon(x.bind) == rules.canon(y.bind) && x.port == y.port
  }

  predicate SameBindings(rules: Rules, xs: seq<Binding>, ys: seq<Binding>) {
    |xs| == |ys| && forall i :: 0 <= i < |xs| ==> SameBinding(rules, xs[i], ys[i])
  }

  predicate SamePlacement(rules: Rules, a: Assignment, b: Assignment) {
    && a.id == b.id && a.gatewayID == b.gatewayID && a.agentID == b.agentID
    && a.endpoint == b.endpoint && a.policy == b.policy
    && SortBy(a.serviceIDs, Self, StringLess) == SortBy(b.serviceIDs, Self, StringLess)
    && SameBindings(rules, SortBy(a.bindings, KeyBy(rules), StringLess), SortBy(b.bindings, KeyBy(rules), StringLess))
  }

  method SameAssignmentPlacement(rules: Rules, a: Assignment, b: Assignment) returns (same: bool)
    ensures same == SamePlacement(rules, a, b)
  {
    if a.id != b.id || a.gatewayID != b.gatewayID || a.agentID != b.agentID || a.endpoint != b.endpoint
       || a.policy != b.policy || |a.serviceIDs| != |b.serviceIDs| || |a.bindings| != |b.bindings| {
      return false;
    }
    var left, right := SortBy(a.serviceIDs, Self, StringLess), SortBy(b.serviceIDs, Self, StringLess);
    for i := 0 to |left|
      invariant left[..i] == right[..i]
    {
      if left[i] != right[i] {
        return false;
      }
    }
    assert left[..|left|] == left && right[..|left|] == right;
    var xs, ys := SortBy(a.bindings, KeyBy(rules), StringLess), SortBy(b.bindings, KeyBy(rules), StringLess);
    for i := 0 to |xs|
      invariant forall k :: 0 <= k < i ==> SameBinding(rules, xs[k], ys[k])
    {
      if !SameBinding(rules, xs[i], ys[i]) {
        return false;
      }
    }
    return true;
  }

  // ---------- the view after the decision is stored ----------

  // The row that storing a decision leaves, under its final id; its state and
  // generation may have moved on, but it has not been relinquished.
  function StoredForm(rules: Rules, a: Assignment, id: string, state: Lifecycle, generation: nat): Assignment {
    a.(id := id, bindings := Map(a.bindings, NormalBy(rules)), state := state, generation := generation)
  }

  // Binding keys in use when candidates are loaded.
  function LoadedKeys(rules: Rules, listeners: seq<Listener>, assignments: seq<Assignment>): set<string> {
    (set l | l in listeners :: rules.Key(l.protocol, l.bind, l.port)) + OtherKeys(rules, assignments, None)
  }

  function Refreshed(rules: Rules, c: Candidate, stored: Assignment): Candidate {
    var rest := Without(c.assignments, stored.id);
    var assignments := if c.node.id == stored.gatewayID then rest + [stored] else rest;
    c.(assignments := assignments, used := LoadedKeys(rules, c.spec.listeners, assignments))
  }

  function RefreshBy(rules: Rules, stored: Assignment): Candidate -> Candidate { c => Refreshed(rules, c, stored) }

  function RefreshAll(rules: Rules, candidates: seq<Candidate>, stored: Assignment): seq<Candidate> {
    Map(candidates, RefreshBy(rules, stored))
  }

  method LoadUsedKeys(rules: Rules, listeners: seq<Listener>, assignments: seq<Assignment>) returns (used: set<string>)
    ensures used == LoadedKeys(rules, listeners, assignments)
  {
    used := {};
    for i := 0 to |listeners|
      invariant used == set l | l in listeners[..i] :: rules.Key(l.protocol, l.bind, l.port)
    {
      assert listeners[..i + 1] == listeners[..i] + [listeners[i]];
      used := used + {rules.Key(listeners[i].protocol, listeners[i].bind, listeners[i].port)};
    }
    assert listeners[..|listeners|] == listeners;
    for i := 0 to |assignments|
      invariant used + OtherKeys(rules, assignments[i..], None) == LoadedKeys(rules, listeners, assignments)
    {
      var a := assignments[i];
      assert assignments[i..][0] == a && assignments[i..][1..] == assignments[i + 1..];
      if !Relinquished(a.state) {
        var keys := BindingKeys(rules, a.bindings);
        used := used + keys;
      }
    }
  }

  // ---------- the request is still well formed ----------

  ghost predicate Ours(req: Request) {
    forall s :: s in req.services ==> s.agentID == req.agentID
  }

  lemma {:induction false} ServiceErrorNone(req: Request, i: nat)
    requires i <= |req.services|
    requires Distinct(IDs(req.services)) && Ours(req)
    ensures ServiceError(req, i).None?
    decreases |req.services| - i
  {
    if i < |req.services| {
      forall k | 0 <= k < i ensures req.services[k].id != req.services[i].id {
        assert IDs(req.services)[k] != IDs(req.services)[i];
      }
      ServiceErrorNone(req, i + 1);
    }
  }

  lemma {:induction false} ServicesFine(req: Request, i: nat, k: nat)
    requires i <= k < |req.services| && ServiceError(req, i).None?
    ensures req.services[k].agentID == req.agentID
    ensures forall j :: 0 <= j < k ==> req.services[j].id != req.services[k].id
    decreases |req.services| - i
  {
    if i < k {
      ServicesFine(req, i + 1, k);
    }
  }

  lemma NoServiceError(req: Request)
    requires ServiceError(req, 0).None?
    ensures Distinct(IDs(req.services)) && Ours(req)
  {
    var ids := IDs(req.services);
    forall i, j | 0 <= i < j < |ids| ensures ids[i] != ids[j] {
      ServicesFine(req, 0, j);
    }
    forall s | s in req.services ensures s.agentID == req.agentID {
      var k :| 0 <= k < |req.services| && req.services[k] == s;
      ServicesFine(req, 0, k);
    }
  }

  // ---------- the same gateway comes first ----------

  // If the current gateway takes the services, it is chosen.
  lemma CurrentComesFirst(rules: Rules, req: Request, candidates: seq<Candidate>, c: Candidate)
    requires c in candidates && DistinctNodes(candidates) && RequestError(rules, req).None?
    requires Sticky(req).Some? && Sticky(req).value.gatewayID == c.node.id && Try(rules, req, c).Placed?
    ensures Decide(rules, req, candidates) == Ok(NewAssignment(req, c, Try(rules, req, c).bindings))
  {
    var ordered := Ordered(req, candidates);
    OrderedIs(req, candidates);
    var k :| 0 <= k < |ordered| && ordered[k] == c;
    assert k == 0 || !RankLess(RankBy(req)(ordered[k]), RankBy(req)(ordered[0]));
    assert ordered[0] in candidates;
  }

  // ---------- every port is kept ----------

  ghost predicate PositivePool(pool: PortPool) {
    forall r :: r in pool.tcp || r in pool.udp ==> r.min > 0
  }

  lemma {:induction false} PortsPositive(rules: Rules, c: Candidate, services: seq<Service>, kept: map<string, Binding>, occupied: set<string>)
    requires Place(rules, c, services, kept, occupied).Ok? && PositivePool(c.spec.pool)
    ensures forall b :: b in Place(rules, c, services, kept, occupied).value ==> b.port != 0
  {
    if services != [] {
      var s := services[0];
      var port := PortFor(rules, c, s, kept, occupied).value;
      AllocateIs(rules, c.spec.pool, s.protocol, s.bind, s.port, occupied);
      assert port != 0;
      PortsPositive(rules, c, services[1..], kept, occupied + {rules.Key(s.protocol, s.bind, port)});
    }
  }

  lemma {:induction false} ByServiceIs(bindings: seq<Binding>, i: nat)
    requires i < |bindings| && forall j, k :: 0 <= j < k < |bindings| ==> bindings[j].serviceID != bindings[k].serviceID
    ensures bindings[i].serviceID in ByService(bindings) && ByService(bindings)[bindings[i].serviceID] == bindings[i]
  {
    var n := |bindings| - 1;
    if i < n {
      ByServiceIs(bindings[..n], i);
    }
  }

  // The binding keeps serving the service where it is.
  ghost predicate Serves(rules: Rules, c: Candidate, s: Service, kept: map<string, Binding>) {
    && rules.validService(s) && rules.matches(s.selector, c.node.labels) && s.id in kept
    && kept[s.id].protocol == s.protocol && rules.canon(kept[s.id].bind) == rules.canon(s.bind)
    && (s.port == 0 || s.port == kept[s.id].port) && kept[s.id].port != 0
  }

  function Rebind(s: Service, kept: map<string, Binding>): Binding {
    Binding(s.id, s.protocol, s.bind, if s.id in kept then kept[s.id].port else 0)
  }

  function RebindBy(kept: map<string, Binding>): Service -> Binding { s => Rebind(s, kept) }

  lemma {:induction false} PlaceAgain(rules: Rules, c: Candidate, services: seq<Service>, kept: map<string, Binding>, occupied: set<string>)
    requires forall s :: s in services ==> Serves(rules, c, s, kept) && rules.KeyOf(Rebind(s, kept)) !in occupied
    requires forall i, j :: 0 <= i < j < |services| ==> rules.KeyOf(Rebind(services[i], kept)) != rules.KeyOf(Rebind(services[j], kept))
    ensures Place(rules, c, services, kept, occupied) == Ok(Map(services, RebindBy(kept)))
  {
    if services != [] {
      var s, rest := services[0], services[1..];
      var key := rules.KeyOf(Rebind(s, kept));
      assert Serves(rules, c, s, kept);
      assert rules.KeyOf(kept[s.id]) == key;
      assert PortFor(rules, c, s, kept, occupied) == Ok(kept[s.id].port);
      forall t | t in rest ensures Serves(rules, c, t, kept) && rules.KeyOf(Rebind(t, kept)) !in occupied + {key} {
        var k :| 0 <= k < |rest| && rest[k] == t;
        assert services[k + 1] == t;
      }
      PlaceAgain(rules, c, rest, kept, occupied + {key});
    }
  }

  // ---------- what stays occupied ----------

  lemma {:induction false} OtherKeysWithout(rules: Rules, assignments: seq<Assignment>, id: string, skip: Option<string>)
    requires skip.None? || skip == Some(id)
    ensures OtherKeys(rules, Without(assignments, id), Some(id)) <= OtherKeys(rules, assignments, skip)
  {
    if assignments != [] {
      var rest := Without(assignments[1..], id);
      OtherKeysWithout(rules, assignments[1..], id, skip);
      assert ([assignments[0]] + rest)[1..] == rest;
    }
  }

  lemma {:induction false} OtherKeysAppend(rules: Rules, assignments: seq<Assignment>, a: Assignment)
    ensures OtherKeys(rules, assignments + [a], Some(a.id)) == OtherKeys(rules, assignments, Some(a.id))
  {
    if assignments == [] {
      assert assignments + [a] == [a];
    } else {
      OtherKeysAppend(rules, assignments[1..], a);
      assert (assignments + [a])[1..] == assignments[1..] + [a];
    }
  }

  // ---------- the comparison ----------

  lemma SortedBindingsAgree(rules: Rules, first: seq<Binding>, second: seq<Binding>)
    requires rules.Idempotent() && multiset(first) == multiset(second)
    requires forall i, j :: 0 <= i < j < |first| ==> rules.KeyOf(first[i]) != rules.KeyOf(first[j])
    ensures SameBindings(rules, SortBy(Map(first, NormalBy(rules)), KeyBy(rules), StringLess), SortBy(second, KeyBy(rules), StringLess))
  {
    StringOrder();
    forall x, y | x in first && y in first && KeyBy(rules)(x) == KeyBy(rules)(y) ensures x == y {
      var i :| 0 <= i < |first| && first[i] == x;
      var j :| 0 <= j < |first| && first[j] == y;
      assert rules.KeyOf(first[i]) == rules.KeyOf(first[j]);
    }
    SortIgnoresOrder(first, second, KeyBy(rules), StringLess);
    SortMap(first, NormalBy(rules), KeyBy(rules), KeyBy(rules), StringLess);
  }

  lemma SortedIDsAgree(first: seq<Service>, second: seq<Service>)
    requires multiset(first) == multiset(second)
    ensures SortBy(IDs(first), Self, StringLess) == SortBy(IDs(second), Self, StringLess)
  {
    StringOrder();
    MapPermutes(first, second, ServiceID);
    SortIgnoresOrder(IDs(first), IDs(second), Self, StringLess);
  }

  // ---------- the theorem ----------

  // The id a decision is stored under: the current one, or one that no active
  // assignment has.
  ghost predicate StoredUnder(req: Request, candidates: seq<Candidate>, id: string) {
    if Sticky(req).Some? then id == Sticky(req).value.id
    else forall c, b :: c in candidates && b in c.assignments && b.id == id ==> Relinquished(b.state)
  }

  function Again(req: Request, services: seq<Service>, stored: Assignment, generation: nat): Request {
    req.(services := services, existing := Some(stored), generation := generation)
  }

  // A decision's bindings, as the next run inherits them.
  lemma InheritedAgain(rules: Rules, c: Candidate, services: seq<Service>, kept: map<string, Binding>, occupied: set<string>, bs: seq<Binding>)
    returns (again: map<string, Binding>)
    requires rules.Idempotent() && Sound(rules, c, services, kept, occupied, bs)
    requires Distinct(IDs(services)) && forall b :: b in bs ==> b.port != 0
    ensures again == ByService(Map(bs, NormalBy(rules)))
    ensures forall s :: s in services ==> Serves(rules, c, s, again)
    ensures Map(services, RebindBy(again)) == bs
  {
    var normal := Map(bs, NormalBy(rules));
    again := ByService(normal);
    forall i, j | 0 <= i < j < |normal| ensures normal[i].serviceID != normal[j].serviceID {
      assert Fits(rules, c, services[i], bs[i], kept) && Fits(rules, c, services[j], bs[j], kept);
      assert IDs(services)[i] != IDs(services)[j];
    }
    forall i | 0 <= i < |services|
      ensures Serves(rules, c, services[i], again) && Rebind(services[i], again) == bs[i]
    {
      assert Fits(rules, c, services[i], bs[i], kept) && bs[i] in bs;
      ByServiceIs(normal, i);
    }
  }

  // No two services of one decision, in any order, are bound to one key.
  lemma KeysStayApart(rules: Rules, services: seq<Service>, permuted: seq<Service>, kept: map<string, Binding>, bs: seq<Binding>)
    requires bs == Map(services, RebindBy(kept)) && multiset(permuted) == multiset(services) && Distinct(IDs(services))
    requires forall i, j :: 0 <= i < j < |bs| ==> rules.KeyOf(bs[i]) != rules.KeyOf(bs[j])
    ensures forall i, j :: 0 <= i < j < |permuted| ==>
                             rules.KeyOf(Rebind(permuted[i], kept)) != rules.KeyOf(Rebind(permuted[j], kept))
  {
    MapPermutes(services, permuted, ServiceID);
    DistinctPermutes(IDs(services), IDs(permuted));
    forall i, j | 0 <= i < j < |permuted|
      ensures rules.KeyOf(Rebind(permuted[i], kept)) != rules.KeyOf(Rebind(permuted[j], kept))
    {
      assert permuted[i] in multiset(services) && permuted[j] in multiset(services);
      assert IDs(permuted)[i] != IDs(permuted)[j];
      PairApart(rules, services, kept, bs, permuted[i], permuted[j]);
    }
  }

  lemma PairApart(rules: Rules, services: seq<Service>, kept: map<string, Binding>, bs: seq<Binding>, x: Service, y: Service)
    requires bs == Map(services, RebindBy(kept)) && x in services && y in services && x.id != y.id
    requires forall i, j :: 0 <= i < j < |bs| ==> rules.KeyOf(bs[i]) != rules.KeyOf(bs[j])
    ensures rules.KeyOf(Rebind(x, kept)) != rules.KeyOf(Rebind(y, kept))
  {
    var p :| 0 <= p < |services| && services[p] == x;
    var q :| 0 <= q < |services| && services[q] == y;
    assert bs[p] == Rebind(services[p], kept) && bs[q] == Rebind(services[q], kept);
  }

  lemma CapacityAgain(rules: Rules, req: Request, c: Candidate, services: seq<Service>, stored: Assignment, generation: nat)
    requires Consistent(req, c) && HasCapacity(req, c)
    requires stored.gatewayID == c.node.id && stored.agentID == req.agentID && !Relinquished(stored.state)
    requires |services| == |req.services| == |stored.serviceIDs|
    requires Sticky(req).Some? ==> stored.id == Sticky(req).value.id
    requires Sticky(req).None? ==> forall b :: b in c.assignments && b.id == stored.id ==> Relinquished(b.state)
    ensures HasCapacity(Again(req, services, stored, generation), Refreshed(rules, c, stored))
  {
    UsedBelow(req, c, stored.id, stored);
    assert Refreshed(rules, c, stored).assignments == After(c, stored.id, stored);
  }

  // Nothing occupied the second time collides with what was placed the first.
  lemma FreeAgain(rules: Rules, req: Request, c: Candidate, services: seq<Service>, stored: Assignment, generation: nat, key: string)
    requires stored.gatewayID == c.node.id && stored.agentID == req.agentID && !Relinquished(stored.state)
    requires Sticky(req).Some? ==> stored.id == Sticky(req).value.id
    requires key in KeysOf(rules, stored.bindings) && key !in Occupied(rules, req, c)
    ensures key !in Occupied(rules, Again(req, services, stored, generation), Refreshed(rules, c, stored))
  {
    OtherKeysAppend(rules, Without(c.assignments, stored.id), stored);
    OtherKeysWithout(rules, c.assignments, stored.id, SkipID(req));
  }

  lemma KeyStored(rules: Rules, bs: seq<Binding>, i: nat)
    requires rules.Idempotent() && i < |bs|
    ensures rules.KeyOf(bs[i]) in KeysOf(rules, Map(bs, NormalBy(rules)))
  {
    var normal := Map(bs, NormalBy(rules));
    assert normal[i] == rules.Normal(bs[i]) && normal[i] in normal;
  }

  lemma ServiceFree(
    rules: Rules, req: Request, c: Candidate, a: Assignment, services: seq<Service>, stored: Assignment, generation: nat,
    kept: map<string, Binding>, s: Service)
    requires rules.Idempotent() && a.gatewayID == c.node.id && a.agentID == req.agentID && !Relinquished(stored.state)
    requires stored == StoredForm(rules, a, stored.id, stored.state, stored.generation)
    requires Sticky(req).Some? ==> stored.id == Sticky(req).value.id
    requires Map(req.services, RebindBy(kept)) == a.bindings && s in req.services
    requires forall i :: 0 <= i < |a.bindings| ==> rules.KeyOf(a.bindings[i]) !in Occupied(rules, req, c)
    ensures rules.KeyOf(Rebind(s, kept)) !in Occupied(rules, Again(req, services, stored, generation), Refreshed(rules, c, stored))
  {
    var i :| 0 <= i < |req.services| && req.services[i] == s;
    assert a.bindings[i] == Rebind(s, kept);
    KeyStored(rules, a.bindings, i);
    FreeAgain(rules, req, c, services, stored, generation, rules.KeyOf(a.bindings[i]));
  }

  lemma PlacedAgain(rules: Rules, req: Request, c: Candidate, a: Assignment, services: seq<Service>, stored: Assignment, generation: nat)
    requires rules.Idempotent() && Distinct(IDs(req.services)) && multiset(services) == multiset(req.services)
    requires a.gatewayID == c.node.id && a.agentID == req.agentID && !Relinquished(stored.state)
    requires stored == StoredForm(rules, a, stored.id, stored.state, stored.generation)
    requires Sticky(req).Some? ==> stored.id == Sticky(req).value.id
    requires Sound(rules, c, req.services, Inherited(req, c), Occupied(rules, req, c), a.bindings)
    requires forall b :: b in a.bindings ==> b.port != 0
    ensures var again, c' := Again(req, services, stored, generation), Refreshed(rules, c, stored);
            var r := Place(rules, c', services, Inherited(again, c'), Occupied(rules, again, c'));
            r.Ok? && multiset(r.value) == multiset(a.bindings)
  {
    var again, c' := Again(req, services, stored, generation), Refreshed(rules, c, stored);
    var kept := InheritedAgain(rules, c, req.services, Inherited(req, c), Occupied(rules, req, c), a.bindings);
    assert kept == Inherited(again, c');
    var occupied := Occupied(rules, again, c');
    forall s | s in services ensures Serves(rules, c', s, kept) && rules.KeyOf(Rebind(s, kept)) !in occupied {
      assert s in multiset(req.services);
      assert Serves(rules, c, s, kept);
      ServiceFree(rules, req, c, a, services, stored, generation, kept, s);
    }
    KeysStayApart(rules, req.services, services, kept, a.bindings);
    PlaceAgain(rules, c', services, kept, occupied);
    MapPermutes(req.services, services, RebindBy(kept));
  }

  lemma StillWellFormed(rules: Rules, req: Request, services: seq<Service>, stored: Assignment, generation: nat)
    requires RequestError(rules, req).None? && multiset(services) == multiset(req.services) && generation > 0
    ensures RequestError(rules, Again(req, services, stored, generation)).None?
    ensures Distinct(IDs(req.services)) && |services| == |req.services|
  {
    assert |multiset(services)| == |services| && |multiset(req.services)| == |req.services|;
    NoServiceError(req);
    MapPermutes(req.services, services, ServiceID);
    DistinctPermutes(IDs(req.services), IDs(services));
    var again := Again(req, services, stored, generation);
    forall s | s in services ensures s.agentID == req.agentID {
      assert s in multiset(req.services);
    }
    ServiceErrorNone(again, 0);
  }

  lemma RefreshedNodes(rules: Rules, candidates: seq<Candidate>, stored: Assignment, c: Candidate)
    requires DistinctNodes(candidates) && c in candidates
    ensures DistinctNodes(RefreshAll(rules, candidates, stored))
    ensures Refreshed(rules, c, stored) in RefreshAll(rules, candidates, stored)
  {
    var all := RefreshAll(rules, candidates, stored);
    forall x, y | x in all && y in all && x.node.id == y.node.id ensures x == y {
      var i :| 0 <= i < |all| && all[i] == x;
      var j :| 0 <= j < |all| && all[j] == y;
      assert all[i] == Refreshed(rules, candidates[i], stored) && all[j] == Refreshed(rules, candidates[j], stored);
      assert candidates[i] in candidates && candidates[j] in candidates;
    }
    var k :| 0 <= k < |candidates| && candidates[k] == c;
    assert all[k] == Refreshed(rules, c, stored);
  }

  // The chosen gateway takes the same bindings again.
  lemma TakenAgain(rules: Rules, req: Request, c: Candidate, services: seq<Service>, stored: Assignment, generation: nat)
    requires Try(rules, req, c).Placed? && Consistent(req, c) && PositivePool(c.spec.pool) && rules.Idempotent()
    requires Distinct(IDs(req.services)) && multiset(services) == multiset(req.services) && |services| == |req.services|
    requires StoredUnder(req, [c], stored.id) && !Relinquished(stored.state)
    requires stored == StoredForm(rules, NewAssignment(req, c, Try(rules, req, c).bindings), stored.id, stored.state, stored.generation)
    ensures var t := Try(rules, Again(req, services, stored, generation), Refreshed(rules, c, stored));
            t.Placed? && multiset(t.bindings) == multiset(Try(rules, req, c).bindings)
  {
    var again, c' := Again(req, services, stored, generation), Refreshed(rules, c, stored);
    var a := NewAssignment(req, c, Try(rules, req, c).bindings);
    assert c in [c];
    CapacityAgain(rules, req, c, services, stored, generation);
    PlaceSound(rules, c, req.services, Inherited(req, c), Occupied(rules, req, c));
    PortsPositive(rules, c, req.services, Inherited(req, c), Occupied(rules, req, c));
    PlacedAgain(rules, req, c, a, services, stored, generation);
    assert Eligible(rules, again, c') && HasCapacity(again, c');
  }

  // Once a decision is stored and the candidates are loaded again, scheduling
  // the same services in any order picks the same gateway, endpoint and ports,
  // so that the stored row is left as it is.
  lemma SchedulingIsFixedPoint(
    rules: Rules, req: Request, candidates: seq<Candidate>, stored: Assignment, services: seq<Service>, generation: nat)
    requires Decide(rules, req, candidates).Ok? && DistinctNodes(candidates)
    requires forall c :: c in candidates ==> Consistent(req, c) && PositivePool(c.spec.pool)
    requires rules.Idempotent() && StoredUnder(req, candidates, stored.id) && !Relinquished(stored.state)
    requires stored == StoredForm(rules, Decide(rules, req, candidates).value, stored.id, stored.state, stored.generation)
    requires multiset(services) == multiset(req.services) && generation > 0
    ensures var again := Decide(rules, Again(req, services, stored, generation), RefreshAll(rules, candidates, stored));
            again.Ok? && SamePlacement(rules, stored, again.value)
  {
    var again, all := Again(req, services, stored, generation), RefreshAll(rules, candidates, stored);
    var a := Decide(rules, req, candidates).value;
    var c := PicksBest(rules, req, candidates);
    var c' := Refreshed(rules, c, stored);
    StillWellFormed(rules, req, services, stored, generation);
    RefreshedNodes(rules, candidates, stored, c);
    TakenAgain(rules, req, c, services, stored, generation);
    CurrentComesFirst(rules, again, all, c');
    var bs := Try(rules, again, c').bindings;
    PlaceSound(rules, c, req.services, Inherited(req, c), Occupied(rules, req, c));
    SortedBindingsAgree(rules, a.bindings, bs);
    SortedIDsAgree(req.services, services);
  }
}
