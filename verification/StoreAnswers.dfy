/** When each transaction of the assignment store is accepted, and what it stores,
    in terms of the tables before it. */
module StoreAnswers {
  import opened Bytes
  import opened Ordering
  import opened Domain
  import opened Store
  import opened StoreInvariants
  import opened StoreRuns

  // ---------- revisions ----------

  // A write names the revision it replaces, or none for a new resource.
  predicate Matches(current: Option<nat>, ifMatch: int) {
    if current.None? then ifMatch <= 0 else 0 < ifMatch && ifMatch == current.value
  }

  lemma MatchesExactly(current: Option<nat>, ifMatch: int)
    ensures RevisionError(current, ifMatch) == if Matches(current, ifMatch) then None else Some(RevisionConflict)
  {
  }

  function StoredRevision(db: Tables, id: string): Option<nat> {
    if id in db.assignments then Some(db.assignments[id].revision) else None
  }

  // ---------- putting an assignment ----------

  predicate Serving(state: Lifecycle) { state == Pending || state == Applied }

  ghost predicate Known(db: Tables, node: string, gateway: bool) {
    node in db.nodes && node in db.specs && (db.specs[node].value.GatewayRole? <==> gateway)
  }

  ghost predicate Ready(db: Tables, node: string, gateway: bool) { Known(db, node, gateway) && db.nodes[node].enabled }

  // The document itself may be put.
  ghost predicate Sayable(rules: Rules, a: Assignment) {
    a.state != Applied && rules.validAssignment(a) && a.generation <= 0x7fff_ffff_ffff_ffff
  }

  ghost predicate Staffed(db: Tables, a: Assignment) { Ready(db, a.gatewayID, true) && Ready(db, a.agentID, false) }

  ghost predicate Advertised(db: Tables, a: Assignment)
    requires Staffed(db, a)
  {
    a.endpoint == "" || a.endpoint in db.specs[a.gatewayID].value.gateway.endpoints
  }

  ghost predicate Stale(db: Tables, a: Assignment) {
    a.id in db.assignments && a.generation < db.assignments[a.id].generation
  }

  // Another assignment that serves holds one of the services.
  ghost predicate Claimed(db: Tables, a: Assignment) {
    exists other :: other in db.assignments && other != a.id && Shares(a.serviceIDs, db.assignments[other]) && Serving(db.assignments[other].state)
  }

  ghost predicate MemberOk(rules: Rules, db: Tables, agentID: string, labels: Labels, s: string) {
    s in db.services && db.services[s].value.agentID == agentID && rules.matches(db.services[s].value.selector, labels)
  }

  // The port is in one of the pool's ranges, or the protocol has none.
  ghost predicate Admits(pool: PortPool, b: Binding) {
    var ranges := if b.protocol == "tcp" then pool.tcp else pool.udp;
    ranges == [] || Covers(ranges, b.port)
  }

  ghost predicate Covers(ranges: seq<PortRange>, port: int) {
    exists i :: 0 <= i < |ranges| && ranges[i].min <= port <= ranges[i].max
  }

  ghost predicate OnListener(rules: Rules, listeners: seq<Listener>, b: Binding) {
    exists l :: l in listeners && rules.Key(l.protocol, l.bind, l.port) == rules.Key(b.protocol, b.bind, b.port)
  }

  // The binding serves one of the services where the service wants it, on a port
  // of the gateway's pool that none of its listeners has.
  ghost predicate BindingOk(rules: Rules, db: Tables, spec: GatewaySpec, members: seq<string>, b: Binding) {
    && b.serviceID in members && b.serviceID in db.services
    && var s := db.services[b.serviceID].value;
       && s.protocol == b.protocol && rules.canon(s.bind) == rules.canon(b.bind) && (s.port == 0 || s.port == b.port)
       && Admits(spec.pool, b) && !OnListener(rules, spec.listeners, b)
  }

  ghost predicate MembersOk(rules: Rules, db: Tables, a: Assignment)
    requires Staffed(db, a)
  {
    forall s :: s in a.serviceIDs ==> MemberOk(rules, db, a.agentID, db.nodes[a.gatewayID].labels, s)
  }

  ghost predicate BindingsOk(rules: Rules, db: Tables, a: Assignment)
    requires Staffed(db, a)
  {
    forall b :: b in a.bindings ==> BindingOk(rules, db, db.specs[a.gatewayID].value.gateway, a.serviceIDs, b)
  }

  ghost predicate SameAddress(rules: Rules, b: Binding, c: Binding) {
    b.protocol == c.protocol && rules.canon(b.bind) == rules.canon(c.bind) && b.port == c.port
  }

  // A stored binding of an assignment that stays has this address.
  ghost predicate AddressTaken(rules: Rules, db: Tables, a: Assignment, b: Binding) {
    exists other, q :: other in db.assignments && other != a.id && !Shares(a.serviceIDs, db.assignments[other])
                       && other in db.bindings && q in db.bindings[other] && q.gatewayID == a.gatewayID
                       && q.binding.protocol == b.protocol && q.binding.bind == rules.canon(b.bind) && q.binding.port == b.port
  }

  // The bindings can be held: one per service, no two at one address, none at an
  // address that is taken. A relinquished assignment holds none.
  ghost predicate Holdable(rules: Rules, db: Tables, a: Assignment) {
    Serving(a.state) ==>
      && (forall i, j :: 0 <= i < j < |a.bindings| ==>
                           !SameAddress(rules, a.bindings[i], a.bindings[j]) && a.bindings[i].serviceID != a.bindings[j].serviceID)
      && forall b :: b in a.bindings ==> !AddressTaken(rules, db, a, b)
  }

  // Everything that is asked of a put but its revision.
  ghost predicate Checked(rules: Rules, db: Tables, a: Assignment) {
    && Sayable(rules, a) && Staffed(db, a) && Advertised(db, a) && !Stale(db, a) && !Claimed(db, a)
    && MembersOk(rules, db, a) && BindingsOk(rules, db, a)
  }

  lemma {:induction false} MembersExactly(rules: Rules, db: Tables, agentID: string, labels: Labels, ids: seq<string>)
    ensures MemberError(rules, db.services, agentID, labels, ids).None? <==>
            forall s :: s in ids ==> MemberOk(rules, db, agentID, labels, s)
  {
    if ids != [] {
      MembersExactly(rules, db, agentID, labels, ids[1..]);
      assert forall s :: s in ids <==> s == ids[0] || s in ids[1..];
      if MemberError(rules, db.services, agentID, labels, ids).None? {
        assert MemberOk(rules, db, agentID, labels, ids[0]);
        assert MemberError(rules, db.services, agentID, labels, ids[1..]).None?;
      } else {
        assert ids[0] in ids;
        assert MemberOk(rules, db, agentID, labels, ids[0]) ==> MemberError(rules, db.services, agentID, labels, ids[1..]).Some?;
      }
    }
  }

  lemma FitExactly(rules: Rules, db: Tables, spec: GatewaySpec, members: seq<string>, b: Binding)
    ensures BindingOk(rules, db, spec, members, b) <==>
            b.serviceID in members && b.serviceID in db.services && Misfit(rules, spec, db.services[b.serviceID].value, b).None?
  {
    PoolExactly(spec.pool, b);
    ListenersExactly(rules, spec.listeners, b);
  }

  lemma PoolExactly(pool: PortPool, b: Binding)
    ensures InPool(pool, b.protocol, b.port) <==> Admits(pool, b)
  {
    CoversExactly(pool.Ranges(b.protocol), b.port);
  }

  lemma CoversExactly(ranges: seq<PortRange>, port: int)
    ensures InRanges(ranges, port) <==> Covers(ranges, port)
  {
    assert forall i :: 0 <= i < |ranges| ==> (InRange(ranges[i], port) <==> ranges[i].min <= port <= ranges[i].max);
  }

  lemma ListenersExactly(rules: Rules, listeners: seq<Listener>, b: Binding)
    ensures HitsListener(rules, listeners, b) <==> OnListener(rules, listeners, b)
  {
    if OnListener(rules, listeners, b) {
      var l :| l in listeners && rules.Key(l.protocol, l.bind, l.port) == rules.Key(b.protocol, b.bind, b.port);
      var i :| 0 <= i < |listeners| && listeners[i] == l;
    }
  }

  lemma {:induction false} BindingsExactly(rules: Rules, db: Tables, spec: GatewaySpec, members: seq<string>, bindings: seq<Binding>)
    ensures BindingError(rules, db.services, spec, members, bindings).None? <==>
            forall b :: b in bindings ==> BindingOk(rules, db, spec, members, b)
  {
    if bindings != [] {
      FitExactly(rules, db, spec, members, bindings[0]);
      BindingsExactly(rules, db, spec, members, bindings[1..]);
      assert forall b :: b in bindings <==> b == bindings[0] || b in bindings[1..];
    }
  }

  lemma ParticipantExactly(db: Tables, node: string, gateway: bool)
    ensures ParticipantError(db, node, gateway).None? <==> Ready(db, node, gateway)
    ensures ParticipantError(db, node, gateway) == Some(NodeDisabled) <==> Known(db, node, gateway) && !db.nodes[node].enabled
  {
  }

  lemma ClaimedExactly(db: Tables, a: Assignment)
    ensures Claimed(db, a) <==> exists other :: other in Superseded(db, a.id, a.serviceIDs) && !Relinquished(db.assignments[other].state)
  {
    assert forall other :: other in Superseded(db, a.id, a.serviceIDs) <==>
                             other in db.assignments && other != a.id && Shares(a.serviceIDs, db.assignments[other]);
  }

  // The checks that come before members and bindings are looked at.
  ghost predicate Entered(rules: Rules, db: Tables, a: Assignment) {
    Sayable(rules, a) && Staffed(db, a) && Advertised(db, a) && !Stale(db, a) && !Claimed(db, a)
  }

  lemma EnteredExactly(rules: Rules, db: Tables, a: Assignment, ifMatch: int)
    ensures Entered(rules, db, a) ==>
              var spec, labels := db.specs[a.gatewayID].value.gateway, db.nodes[a.gatewayID].labels;
              var members := MemberError(rules, db.services, a.agentID, labels, a.serviceIDs);
              var bindings := BindingError(rules, db.services, spec, a.serviceIDs, a.bindings);
              PutError(rules, db, a, ifMatch) ==
              if members.Some? then members else if bindings.Some? then bindings else RevisionError(RevisionOf(db, a.id), ifMatch)
    ensures !Entered(rules, db, a) ==> PutError(rules, db, a, ifMatch).Some? && PutError(rules, db, a, ifMatch) != Some(RevisionConflict)
  {
    ParticipantExactly(db, a.gatewayID, true);
    ParticipantExactly(db, a.agentID, false);
    ClaimedExactly(db, a);
  }

  lemma CheckedExactly(rules: Rules, db: Tables, a: Assignment, ifMatch: int)
    ensures PutError(rules, db, a, ifMatch).None? <==> Checked(rules, db, a) && Matches(StoredRevision(db, a.id), ifMatch)
    ensures Checked(rules, db, a) && !Matches(StoredRevision(db, a.id), ifMatch) ==> PutError(rules, db, a, ifMatch) == Some(RevisionConflict)
  {
    EnteredExactly(rules, db, a, ifMatch);
    MatchesExactly(StoredRevision(db, a.id), ifMatch);
    if Entered(rules, db, a) {
      MembersExactly(rules, db, a.agentID, db.nodes[a.gatewayID].labels, a.serviceIDs);
      BindingsExactly(rules, db, db.specs[a.gatewayID].value.gateway, a.serviceIDs, a.bindings);
    }
  }

  lemma ServicesFree(db: Tables, a: Assignment)
    ensures ServicesInsertable(Drop(db, Superseded(db, a.id, a.serviceIDs) + {a.id}), a.serviceIDs) <==> Distinct(a.serviceIDs)
  {
    var base := Drop(db, Superseded(db, a.id, a.serviceIDs) + {a.id});
    forall s, other | s in a.serviceIDs && other in base.assignments ensures s !in base.assignments[other].services {
      assert other !in Superseded(db, a.id, a.serviceIDs);
    }
  }

  lemma TakenExactly(rules: Rules, db: Tables, a: Assignment, b: Binding)
    requires db.bindings.Keys == db.assignments.Keys
    ensures SocketTaken(Drop(db, Superseded(db, a.id, a.serviceIDs) + {a.id}), PortRow(a.gatewayID, rules.Normal(b)))
            <==> AddressTaken(rules, db, a, b)
  {
    var gone, p := Superseded(db, a.id, a.serviceIDs) + {a.id}, PortRow(a.gatewayID, rules.Normal(b));
    var base := Drop(db, gone);
    assert forall other :: other in db.assignments ==> (other in gone <==> other == a.id || Shares(a.serviceIDs, db.assignments[other]));
    if SocketTaken(base, p) {
      var other :| other in base.bindings && exists q :: q in base.bindings[other] && SameSocket(p, q);
      var q :| q in base.bindings[other] && SameSocket(p, q);
      assert other in db.assignments && q in db.bindings[other];
    }
    if AddressTaken(rules, db, a, b) {
      var other, q :| other in db.assignments && other != a.id && !Shares(a.serviceIDs, db.assignments[other])
                      && other in db.bindings && q in db.bindings[other] && q.gatewayID == a.gatewayID
                      && q.binding.protocol == b.protocol && q.binding.bind == rules.canon(b.bind) && q.binding.port == b.port;
      assert other in base.bindings && q in base.bindings[other] && SameSocket(p, q);
    }
  }

  lemma HoldableExactly(rules: Rules, db: Tables, a: Assignment)
    requires db.bindings.Keys == db.assignments.Keys && a.state != Applied
    ensures PortsInsertable(Drop(db, Superseded(db, a.id, a.serviceIDs) + {a.id}), PortsFor(rules, a)) <==> Holdable(rules, db, a)
  {
    var base, ports := Drop(db, Superseded(db, a.id, a.serviceIDs) + {a.id}), PortsFor(rules, a);
    if Serving(a.state) {
      PairsExactly(rules, a);
      AllTakenExactly(rules, db, a);
    }
  }

  lemma AllTakenExactly(rules: Rules, db: Tables, a: Assignment)
    requires db.bindings.Keys == db.assignments.Keys && Serving(a.state)
    ensures var base := Drop(db, Superseded(db, a.id, a.serviceIDs) + {a.id});
            (forall p :: p in PortsFor(rules, a) ==> !SocketTaken(base, p)) <==> forall b :: b in a.bindings ==> !AddressTaken(rules, db, a, b)
  {
    var base, ports := Drop(db, Superseded(db, a.id, a.serviceIDs) + {a.id}), PortsFor(rules, a);
    forall i | 0 <= i < |ports|
      ensures ports[i] in ports && a.bindings[i] in a.bindings
      ensures SocketTaken(base, ports[i]) <==> AddressTaken(rules, db, a, a.bindings[i])
    {
      assert ports[i] == PortRow(a.gatewayID, rules.Normal(a.bindings[i]));
      TakenExactly(rules, db, a, a.bindings[i]);
    }
    ByIndex(ports, a.bindings, p => SocketTaken(base, p), b => AddressTaken(rules, db, a, b));
  }

  lemma ByIndex<T, U>(xs: seq<T>, ys: seq<U>, f: T -> bool, g: U -> bool)
    requires |xs| == |ys| && forall i :: 0 <= i < |xs| ==> f(xs[i]) == g(ys[i])
    ensures (forall x :: x in xs ==> !f(x)) <==> forall y :: y in ys ==> !g(y)
  {
    if forall x :: x in xs ==> !f(x) {
      forall y | y in ys ensures !g(y) {
        var i :| 0 <= i < |ys| && ys[i] == y;
        assert xs[i] in xs;
      }
    }
    if forall y :: y in ys ==> !g(y) {
      forall x | x in xs ensures !f(x) {
        var i :| 0 <= i < |xs| && xs[i] == x;
        assert ys[i] in ys;
      }
    }
  }

  lemma PairsExactly(rules: Rules, a: Assignment)
    requires Serving(a.state)
    ensures var ports := PortsFor(rules, a);
            (forall i, j :: 0 <= i < j < |ports| ==>
                              !SameSocket(ports[i], ports[j]) && ports[i].binding.serviceID != ports[j].binding.serviceID)
            <==>
            (forall i, j :: 0 <= i < j < |a.bindings| ==>
                              !SameAddress(rules, a.bindings[i], a.bindings[j]) && a.bindings[i].serviceID != a.bindings[j].serviceID)
  {
    var ports := PortsFor(rules, a);
    forall i, j | 0 <= i < j < |ports|
      ensures SameSocket(ports[i], ports[j]) <==> SameAddress(rules, a.bindings[i], a.bindings[j])
      ensures ports[i].binding.serviceID == a.bindings[i].serviceID && ports[j].binding.serviceID == a.bindings[j].serviceID
    {
      assert ports[i] == PortRow(a.gatewayID, rules.Normal(a.bindings[i])) && ports[j] == PortRow(a.gatewayID, rules.Normal(a.bindings[j]));
    }
  }

  // A put is accepted exactly if the document may be put, its nodes are ready and
  // of their kinds, its endpoint is advertised, its generation is not behind, no
  // serving assignment holds its services, these are the agent's, match the
  // gateway and are named once, its bindings fit and can be held, and it names
  // the revision it replaces, or none if there is no such assignment.
  lemma PutExactly(rules: Rules, db: Tables, a: Assignment, ifMatch: int)
    requires Inv(rules, db)
    ensures Put(rules, db, a, ifMatch).Ok? <==>
            && Checked(rules, db, a) && Distinct(a.serviceIDs) && Holdable(rules, db, a)
            && (if a.id in db.assignments then 0 < ifMatch == db.assignments[a.id].revision else ifMatch <= 0)
    ensures Checked(rules, db, a) && !Matches(StoredRevision(db, a.id), ifMatch) ==> Put(rules, db, a, ifMatch) == Err(RevisionConflict)
  {
    CheckedExactly(rules, db, a, ifMatch);
    ServicesFree(db, a);
    if Checked(rules, db, a) {
      HoldableExactly(rules, db, a);
    }
  }

  // The checks' refusals before members and bindings, each in exactly its case.
  lemma CheckRefusals(rules: Rules, db: Tables, a: Assignment, ifMatch: int)
    ensures var r := PutError(rules, db, a, ifMatch);
            && (r == Some(StateControllerOwned) <==> a.state == Applied)
            && (r == Some(Invalid) <==> a.state != Applied && !rules.validAssignment(a))
            && (r == Some(InvalidGeneration) <==>
                a.state != Applied && rules.validAssignment(a) && a.generation > 0x7fff_ffff_ffff_ffff)
            && (r == Some(NodeDisabled) <==>
                && Sayable(rules, a) && Known(db, a.gatewayID, true)
                && (!db.nodes[a.gatewayID].enabled || (Known(db, a.agentID, false) && !db.nodes[a.agentID].enabled)))
            && (r == Some(EndpointMismatch) <==> Sayable(rules, a) && Staffed(db, a) && !Advertised(db, a))
            && (r == Some(StaleGeneration) <==> Sayable(rules, a) && Staffed(db, a) && Advertised(db, a) && Stale(db, a))
            && (r == Some(ResourceConflict) <==>
                Sayable(rules, a) && Staffed(db, a) && Advertised(db, a) && !Stale(db, a) && Claimed(db, a))
  {
    ParticipantExactly(db, a.gatewayID, true);
    ParticipantExactly(db, a.agentID, false);
    ClaimedExactly(db, a);
    if Entered(rules, db, a) {
      EnteredExactly(rules, db, a, ifMatch);
      MemberErrorsAre(rules, db.services, a.agentID, db.nodes[a.gatewayID].labels, a.serviceIDs);
      BindingErrorsAre(rules, db.services, db.specs[a.gatewayID].value.gateway, a.serviceIDs, a.bindings);
    }
  }

  lemma {:induction false} MemberErrorsAre(rules: Rules, services: Services, agentID: string, labels: Labels, ids: seq<string>)
    ensures MemberError(rules, services, agentID, labels, ids) in {None, Some(NotFound), Some(ForeignService), Some(SelectorMismatch)}
  {
    if ids != [] {
      MemberErrorsAre(rules, services, agentID, labels, ids[1..]);
    }
  }

  lemma {:induction false} BindingErrorsAre(rules: Rules, services: Services, spec: GatewaySpec, members: seq<string>, bindings: seq<Binding>)
    ensures BindingError(rules, services, spec, members, bindings) in
            {None, Some(UnknownBinding), Some(ProtocolMismatch), Some(BindMismatch), Some(PortMismatch), Some(OutsidePool), Some(PortTaken)}
  {
    if bindings != [] {
      BindingErrorsAre(rules, services, spec, members, bindings[1..]);
    }
  }

  ghost predicate MemberFault(rules: Rules, db: Tables, agentID: string, labels: Labels, s: string, e: Error) {
    if s !in db.services then e == NotFound
    else if db.services[s].value.agentID != agentID then e == ForeignService
    else !rules.matches(db.services[s].value.selector, labels) && e == SelectorMismatch
  }

  // The i-th service is the first that will not do, for this reason.
  ghost predicate BadAt(rules: Rules, db: Tables, agentID: string, labels: Labels, ids: seq<string>, i: nat, e: Error) {
    && i < |ids| && MemberFault(rules, db, agentID, labels, ids[i], e)
    && forall k: nat :: k < i ==> MemberOk(rules, db, agentID, labels, ids[k])
  }

  lemma BadLater(rules: Rules, db: Tables, agentID: string, labels: Labels, ids: seq<string>, i: nat, e: Error)
    requires ids != [] && MemberOk(rules, db, agentID, labels, ids[0])
    ensures BadAt(rules, db, agentID, labels, ids[1..], i, e) <==> BadAt(rules, db, agentID, labels, ids, i + 1, e)
  {
    var rest := ids[1..];
    assert forall k: nat :: k < |rest| ==> rest[k] == ids[k + 1];
    if BadAt(rules, db, agentID, labels, rest, i, e) {
      forall k: nat | k < i + 1 ensures MemberOk(rules, db, agentID, labels, ids[k]) {
        assert k > 0 ==> MemberOk(rules, db, agentID, labels, rest[k - 1]);
      }
    }
    if BadAt(rules, db, agentID, labels, ids, i + 1, e) {
      forall k: nat | k < i ensures MemberOk(rules, db, agentID, labels, rest[k]) {
        assert MemberOk(rules, db, agentID, labels, ids[k + 1]);
      }
    }
  }

  // The first service that will not do gives the refusal: unknown, another
  // agent's, or with a selector that leaves out the gateway.
  lemma {:induction false} FirstBadMember(rules: Rules, db: Tables, agentID: string, labels: Labels, ids: seq<string>, e: Error)
    ensures MemberError(rules, db.services, agentID, labels, ids) == Some(e) <==>
            exists i: nat :: BadAt(rules, db, agentID, labels, ids, i, e)
  {
    if ids != [] {
      FirstBadMember(rules, db, agentID, labels, ids[1..], e);
      if MemberOk(rules, db, agentID, labels, ids[0]) {
        forall i: nat ensures BadAt(rules, db, agentID, labels, ids[1..], i, e) <==> BadAt(rules, db, agentID, labels, ids, i + 1, e) {
          BadLater(rules, db, agentID, labels, ids, i, e);
        }
        LaterOnly(rules, db, agentID, labels, ids, e);
      } else {
        FirstOnly(rules, db, agentID, labels, ids, e);
      }
    }
  }

  lemma LaterOnly(rules: Rules, db: Tables, agentID: string, labels: Labels, ids: seq<string>, e: Error)
    requires ids != [] && MemberOk(rules, db, agentID, labels, ids[0])
    requires forall i: nat :: BadAt(rules, db, agentID, labels, ids[1..], i, e) <==> BadAt(rules, db, agentID, labels, ids, i + 1, e)
    ensures (exists i: nat :: BadAt(rules, db, agentID, labels, ids, i, e)) <==>
            exists i: nat :: BadAt(rules, db, agentID, labels, ids[1..], i, e)
  {
    if i: nat :| BadAt(rules, db, agentID, labels, ids, i, e) {
      assert i > 0;
      assert BadAt(rules, db, agentID, labels, ids[1..], i - 1, e);
    }
  }

  lemma FirstOnly(rules: Rules, db: Tables, agentID: string, labels: Labels, ids: seq<string>, e: Error)
    requires ids != [] && !MemberOk(rules, db, agentID, labels, ids[0])
    ensures (exists i: nat :: BadAt(rules, db, agentID, labels, ids, i, e)) <==> MemberFault(rules, db, agentID, labels, ids[0], e)
  {
    if MemberFault(rules, db, agentID, labels, ids[0], e) {
      assert BadAt(rules, db, agentID, labels, ids, 0, e);
    }
    var first: nat := 0;
    assert forall i: nat :: BadAt(rules, db, agentID, labels, ids, i, e) && i > first ==> MemberOk(rules, db, agentID, labels, ids[first]);
  }

  lemma MemberRefusals(rules: Rules, db: Tables, a: Assignment, ifMatch: int, e: Error)
    requires e in {SelectorMismatch, ForeignService}
    ensures PutError(rules, db, a, ifMatch) == Some(e) <==>
            Entered(rules, db, a) && exists i: nat :: BadAt(rules, db, a.agentID, db.nodes[a.gatewayID].labels, a.serviceIDs, i, e)
  {
    if Entered(rules, db, a) {
      EnteredExactly(rules, db, a, ifMatch);
      BindingErrorsAre(rules, db.services, db.specs[a.gatewayID].value.gateway, a.serviceIDs, a.bindings);
      FirstBadMember(rules, db, a.agentID, db.nodes[a.gatewayID].labels, a.serviceIDs, e);
    } else {
      ParticipantExactly(db, a.gatewayID, true);
      ParticipantExactly(db, a.agentID, false);
      ClaimedExactly(db, a);
    }
  }

  lemma RevisionRefusal(rules: Rules, db: Tables, a: Assignment, ifMatch: int)
    ensures PutError(rules, db, a, ifMatch) == Some(RevisionConflict) <==> Checked(rules, db, a) && !Matches(StoredRevision(db, a.id), ifMatch)
  {
    CheckedExactly(rules, db, a, ifMatch);
    EnteredExactly(rules, db, a, ifMatch);
    if Entered(rules, db, a) {
      MembersExactly(rules, db, a.agentID, db.nodes[a.gatewayID].labels, a.serviceIDs);
      BindingsExactly(rules, db, db.specs[a.gatewayID].value.gateway, a.serviceIDs, a.bindings);
      MemberErrorsAre(rules, db.services, a.agentID, db.nodes[a.gatewayID].labels, a.serviceIDs);
      BindingErrorsAre(rules, db.services, db.specs[a.gatewayID].value.gateway, a.serviceIDs, a.bindings);
    }
  }

  lemma PutReports(rules: Rules, db: Tables, a: Assignment, ifMatch: int, e: Error)
    requires e != PortTaken
    ensures Put(rules, db, a, ifMatch) == Err(e) <==>
            || PutError(rules, db, a, ifMatch) == Some(e)
            || (e == ResourceConflict && PutError(rules, db, a, ifMatch).None? && !Distinct(a.serviceIDs))
  {
    ServicesFree(db, a);
  }

  // A put is refused for each of these reasons in exactly its case: a node that
  // is disabled, an endpoint that is not advertised, a generation that is behind,
  // a service that a serving assignment holds or that is named twice, a first
  // unfit service that is another agent's or leaves out the gateway, and, when
  // nothing else is wrong, a revision that is not the stored one.
  lemma PutRefusals(rules: Rules, db: Tables, a: Assignment, ifMatch: int)
    ensures var r := Put(rules, db, a, ifMatch);
            && (r == Err(StateControllerOwned) <==> a.state == Applied)
            && (r == Err(NodeDisabled) <==>
                && Sayable(rules, a) && Known(db, a.gatewayID, true)
                && (!db.nodes[a.gatewayID].enabled || (Known(db, a.agentID, false) && !db.nodes[a.agentID].enabled)))
            && (r == Err(EndpointMismatch) <==> Sayable(rules, a) && Staffed(db, a) && !Advertised(db, a))
            && (r == Err(StaleGeneration) <==> Sayable(rules, a) && Staffed(db, a) && Advertised(db, a) && Stale(db, a))
            && (r == Err(ResourceConflict) <==>
                || (Sayable(rules, a) && Staffed(db, a) && Advertised(db, a) && !Stale(db, a) && Claimed(db, a))
                || (Checked(rules, db, a) && Matches(StoredRevision(db, a.id), ifMatch) && !Distinct(a.serviceIDs)))
            && (r == Err(RevisionConflict) <==> Checked(rules, db, a) && !Matches(StoredRevision(db, a.id), ifMatch))
    ensures forall e :: e in {SelectorMismatch, ForeignService} ==>
                          (Put(rules, db, a, ifMatch) == Err(e) <==>
                           && Entered(rules, db, a)
                           && exists i: nat :: BadAt(rules, db, a.agentID, db.nodes[a.gatewayID].labels, a.serviceIDs, i, e))
  {
    forall e | e in {SelectorMismatch, ForeignService}
      ensures Put(rules, db, a, ifMatch) == Err(e) <==>
              Entered(rules, db, a) && exists i: nat :: BadAt(rules, db, a.agentID, db.nodes[a.gatewayID].labels, a.serviceIDs, i, e)
    {
      PutReports(rules, db, a, ifMatch, e);
      MemberRefusals(rules, db, a, ifMatch, e);
    }
    PutReports(rules, db, a, ifMatch, StateControllerOwned);
    PutReports(rules, db, a, ifMatch, NodeDisabled);
    PutReports(rules, db, a, ifMatch, EndpointMismatch);
    PutReports(rules, db, a, ifMatch, StaleGeneration);
    PutReports(rules, db, a, ifMatch, ResourceConflict);
    PutReports(rules, db, a, ifMatch, RevisionConflict);
    CheckRefusals(rules, db, a, ifMatch);
    CheckedExactly(rules, db, a, ifMatch);
    RevisionRefusal(rules, db, a, ifMatch);
  }

  // What a put stores of the document, and that it touches no other table.
  lemma PutOutright(rules: Rules, db: Tables, a: Assignment, ifMatch: int)
    requires Put(rules, db, a, ifMatch).Ok?
    ensures var db' := Put(rules, db, a, ifMatch).value;
            && db'.services == db.services && db'.specs == db.specs && db'.nodes == db.nodes && a.id in db'.assignments
            && db'.assignments[a.id] == Row(a.gatewayID, a.agentID, a.serviceIDs, a.generation, a.state, a.endpoint, a.policy,
                                            if a.id in db.assignments then db.assignments[a.id].revision + 1 else 1)
  {
  }

  // ---------- states and deletions ----------

  lemma UpdateStateExactly(db: Tables, id: string, state: Lifecycle, ifMatch: int)
    requires db.bindings.Keys == db.assignments.Keys
    ensures UpdateState(db, id, state, ifMatch).Ok? <==>
            state != Applied && id in db.assignments && 0 < ifMatch == db.assignments[id].revision < 0x7fff_ffff_ffff_ffff
    ensures UpdateState(db, id, state, ifMatch) == Err(RevisionConflict) <==>
            state != Applied && id in db.assignments && !(0 < ifMatch == db.assignments[id].revision)
  {
  }

  // A state change stores the state under the next revision, forgets the acks,
  // and keeps the bindings only of an assignment that serves. Nothing else moves.
  lemma UpdateStateOutright(db: Tables, id: string, state: Lifecycle, ifMatch: int, other: string)
    requires db.bindings.Keys == db.assignments.Keys && UpdateState(db, id, state, ifMatch).Ok? && other in db.assignments
    ensures var db' := UpdateState(db, id, state, ifMatch).value;
            && db'.services == db.services && db'.specs == db.specs && db'.nodes == db.nodes
            && id in db'.assignments && id in db'.bindings && Unacked(db', id)
            && db'.assignments[id] == db.assignments[id].(state := state, revision := db.assignments[id].revision + 1)
            && db'.bindings[id] == (if Serving(state) then db.bindings[id] else [])
            && (other != id ==> Untouched(db, db', other))
  {
    var edits := map[id := StateEdit(db, id, state)];
    EditedOrUntouched(db, edits, id);
    EditedOrUntouched(db, edits, other);
  }

  lemma DeleteAssignmentExactly(db: Tables, id: string, ifMatch: int)
    ensures Store.DeleteAssignment(db, id, ifMatch).Ok? <==> id in db.assignments && 0 < ifMatch == db.assignments[id].revision
    ensures id in db.assignments && !(0 < ifMatch == db.assignments[id].revision) ==>
              Store.DeleteAssignment(db, id, ifMatch) == Err(RevisionConflict)
  {
  }

  // A deletion removes the row with its bindings and acks, and nothing else.
  lemma DeleteAssignmentOutright(db: Tables, id: string, ifMatch: int, other: string)
    requires db.bindings.Keys == db.assignments.Keys && Store.DeleteAssignment(db, id, ifMatch).Ok? && other in db.assignments
    ensures var db' := Store.DeleteAssignment(db, id, ifMatch).value;
            && db'.services == db.services && db'.specs == db.specs && db'.nodes == db.nodes
            && id !in db'.assignments && id !in db'.bindings && Unacked(db', id)
            && (other != id ==> Untouched(db, db', other))
  {
    if other != id {
      DropSpares(db, {id}, other);
    }
  }

  // ---------- a node's report ----------

  // The report is about this assignment: the node takes part in it, has seen its
  // generation, and it is not draining.
  ghost predicate About(row: Row, node: string, generation: nat) {
    (row.gatewayID == node || row.agentID == node) && row.generation <= generation && row.state in {Pending, Applied, Degraded}
  }

  lemma AboutExactly(row: Row, node: string, generation: nat)
    ensures Concerns(row, node, generation) <==> About(row, node, generation)
  {
    match row.state
    case Pending =>
    case Applied =>
    case Degraded =>
    case Draining =>
  }

  // The report moves the assignment on: failure degrades it, and success applies
  // it if it is pending and the peer's ack of success is there.
  ghost predicate Shifts(db: Tables, id: string, node: string, applied: bool)
    requires id in db.assignments
  {
    var row := db.assignments[id];
    var peer := AckKey(id, if node == row.gatewayID then row.agentID else row.gatewayID);
    if applied then row.state == Pending && peer in db.acks && db.acks[peer].applied else row.state != Degraded
  }

  // The peer's ack, if there is one, is at the assignment's generation.
  lemma PeerAckCurrent(db: Tables, node: string, id: string)
    requires AcksFine(db) && id in db.assignments
    ensures var row := db.assignments[id];
            var peer := AckKey(id, Peer(row, node));
            AppliedAck(db.acks, id, Peer(row, node), row.generation) <==> peer in db.acks && db.acks[peer].applied
  {
    var k := AckKey(id, Peer(db.assignments[id], node));
    assert k in db.acks ==> AckFine(db.assignments, k, db.acks[k]);
  }

  lemma ResultIsShift(rules: Rules, db: Tables, node: string, generation: nat, applied: bool, id: string)
    requires Inv(rules, db) && id in db.assignments && Concerns(db.assignments[id], node, generation)
    ensures ResultEdit(Acked(db, node, generation, applied), id, db.assignments[id], db.bindings[id], applied).row
            == if Shifts(db, id, node, applied)
               then db.assignments[id].(state := if applied then Applied else Degraded, revision := db.assignments[id].revision + 1)
               else db.assignments[id]
  {
    assert RowFine(rules, db.services, db.specs, db.assignments[id], db.bindings[id]);
    ReadyWithPeer(db, node, generation, applied, id);
    PeerAckCurrent(db, node, id);
  }

  // What a report does to one assignment: an ack at its generation is recorded if
  // the report is about it; success applies it if it is pending and the peer's
  // ack of success is there, failure degrades it without bindings.
  lemma ReportOutright(rules: Rules, db: Tables, node: string, generation: nat, applied: bool, id: string)
    requires Inv(rules, db) && NodeResult(db, node, generation, applied).Ok? && id in db.assignments
    ensures var row, db' := db.assignments[id], NodeResult(db, node, generation, applied).value;
            && db'.services == db.services && db'.specs == db.specs && db'.nodes == db.nodes && id in db'.assignments && id in db'.bindings
            && if !About(row, node, generation) then db'.assignments[id] == row && db'.bindings[id] == db.bindings[id]
               else
                 && AckKey(id, node) in db'.acks && db'.acks[AckKey(id, node)] == Ack(row.generation, applied)
                 && db'.assignments[id] == (if Shifts(db, id, node, applied)
                                            then row.(state := if applied then Applied else Degraded, revision := row.revision + 1)
                                            else row)
                 && db'.bindings[id] == (if db'.assignments[id].state == Degraded then [] else db.bindings[id])
  {
    AboutExactly(db.assignments[id], node, generation);
    var acked, edits := db.(acks := Acked(db, node, generation, applied)), ResultEdits(db, node, generation, applied);
    EditedOrUntouched(acked, edits, id);
    AckedIs(db, node, generation, applied, AckKey(id, node));
    ResultKeepsAcks(db, node, generation, applied);
    if Concerns(db.assignments[id], node, generation) {
      ResultIsShift(rules, db, node, generation, applied, id);
    }
  }

  // A report adds or replaces the node's own ack of each assignment it is about;
  // every other ack stays.
  lemma ReportAcksExactly(db: Tables, node: string, generation: nat, applied: bool, k: AckKey)
    requires NodeResult(db, node, generation, applied).Ok?
    ensures var acks := NodeResult(db, node, generation, applied).value.acks;
            if k.node == node && k.id in db.assignments && About(db.assignments[k.id], node, generation)
            then k in acks && acks[k] == Ack(db.assignments[k.id].generation, applied)
            else (k in acks <==> k in db.acks) && (k in acks ==> acks[k] == db.acks[k])
  {
    if k.id in db.assignments {
      AboutExactly(db.assignments[k.id], node, generation);
    }
    AckedIs(db, node, generation, applied, k);
    ResultKeepsAcks(db, node, generation, applied);
  }

  // ---------- services ----------

  // An assignment that holds the service.
  ghost predicate Holds(db: Tables, id: string, service: string) {
    id in db.assignments && service in db.assignments[id].services
  }

  // Its generation and revision can still be raised.
  ghost predicate Raisable(row: Row) { row.generation < 0x7fff_ffff_ffff_ffff && row.revision < 0x7fff_ffff_ffff_ffff }

  ghost predicate SameSpot(s: Service, t: Service) {
    s.agentID == t.agentID && s.protocol == t.protocol && s.bind == t.bind && s.port == t.port
  }

  // The selector still matches the gateway of every holder.
  ghost predicate StillSelected(rules: Rules, db: Tables, s: Service) {
    forall id :: Holds(db, id, s.id) ==>
                   var gateway := db.assignments[id].gatewayID;
                   gateway in db.nodes && rules.matches(s.selector, db.nodes[gateway].labels)
  }

  // What changing a stored service asks for: one in use stays where it is, its
  // selector still matches, and its holder can be sent back to its nodes.
  ghost predicate Changeable(rules: Rules, db: Tables, previous: Service, s: Service) {
    && (SameSpot(previous, s) || forall id :: !Holds(db, id, s.id))
    && (previous.selector == s.selector || StillSelected(rules, db, s))
    && (previous == s || forall id :: Holds(db, id, s.id) ==> Raisable(db.assignments[id]))
  }

  lemma BumpExactly(db: Tables, service: string)
    requires db.bindings.Keys == db.assignments.Keys
    ensures Bump(db, service).Ok? <==> forall id :: Holds(db, id, service) ==> Raisable(db.assignments[id])
  {
    var edits := BumpEdits(db, service);
    forall id | Holds(db, id, service) ensures id in edits && edits[id].row != db.assignments[id] {
    }
    if Overflows(db, edits) {
      var id :| id in edits && id in db.assignments && edits[id].row != db.assignments[id] && Full(db.assignments[id]);
      assert Holds(db, id, service) && !Raisable(db.assignments[id]);
    }
    if id :| Holds(db, id, service) && !Raisable(db.assignments[id]) {
      assert id in edits && Full(db.assignments[id]);
    }
  }

  lemma ChangeExactly(rules: Rules, db: Tables, s: Service)
    requires s.id in db.services
    ensures ServiceTaken(db, s.id) <==> exists id :: Holds(db, id, s.id)
    ensures Excludes(rules, db, s) <==> !StillSelected(rules, db, s)
  {
    if ServiceTaken(db, s.id) {
      var id :| id in db.assignments && s.id in db.assignments[id].services;
      assert Holds(db, id, s.id);
    }
    if Excludes(rules, db, s) {
      var id :| id in db.assignments && s.id in db.assignments[id].services &&
                !(db.assignments[id].gatewayID in db.nodes && rules.matches(s.selector, db.nodes[db.assignments[id].gatewayID].labels));
      assert Holds(db, id, s.id);
    }
    if id :| Holds(db, id, s.id) && !(db.assignments[id].gatewayID in db.nodes && rules.matches(s.selector, db.nodes[db.assignments[id].gatewayID].labels)) {
      assert id in db.assignments && s.id in db.assignments[id].services;
    }
  }

  ghost predicate OfAgent(rules: Rules, db: Tables, s: Service) {
    rules.validService(s) && s.agentID in db.specs && db.specs[s.agentID].value.AgentRole?
  }

  lemma PutServiceExactly(rules: Rules, db: Tables, s: Service, ifMatch: int)
    requires db.bindings.Keys == db.assignments.Keys
    ensures Store.PutService(rules, db, s, ifMatch).Ok? <==>
            && OfAgent(rules, db, s)
            && (if s.id in db.services
                then 0 < ifMatch == db.services[s.id].revision && Changeable(rules, db, db.services[s.id].value, s)
                else ifMatch <= 0)
    ensures OfAgent(rules, db, s) && !Matches(if s.id in db.services then Some(db.services[s.id].revision) else None, ifMatch) ==>
              Store.PutService(rules, db, s, ifMatch) == Err(RevisionConflict)
  {
    MatchesExactly(ServiceRevision(db, s.id), ifMatch);
    if s.id in db.services {
      ChangeExactly(rules, db, s);
      BumpExactly(WriteService(rules, db, s), s.id);
      assert forall id :: Holds(WriteService(rules, db, s), id, s.id) <==> Holds(db, id, s.id);
    }
  }

  // A service is stored as it is put, its address in normal form, under the next
  // revision; other services, specs and nodes stay.
  lemma PutServiceOutright(rules: Rules, db: Tables, s: Service, ifMatch: int)
    requires Store.PutService(rules, db, s, ifMatch).Ok?
    ensures var db' := Store.PutService(rules, db, s, ifMatch).value;
            && db'.specs == db.specs && db'.nodes == db.nodes
            && db'.services == db.services[s.id := Versioned(s.(bind := rules.canon(s.bind)),
                                                             if s.id in db.services then db.services[s.id].revision + 1 else 1)]
            && (s.id in db.services && db.services[s.id].value == s ==>
                  db'.assignments == db.assignments && db'.bindings == db.bindings && db'.acks == db.acks)
            && (s.id !in db.services ==>
                  db'.assignments == db.assignments && db'.bindings == db.bindings && db'.acks == db.acks)
  {
  }

  lemma DetachExactly(db: Tables, service: string)
    requires db.bindings.Keys == db.assignments.Keys && forall id :: id in db.assignments ==> Distinct(db.assignments[id].services)
    ensures Detach(db, service).Ok? <==>
            forall id :: Holds(db, id, service) ==>
                           (forall s :: s in db.assignments[id].services ==> s == service) || Raisable(db.assignments[id])
  {
    var rest := Drop(db, Emptied(db, service));
    forall id ensures Holds(rest, id, service) <==> Holds(db, id, service) && !(forall s :: s in db.assignments[id].services ==> s == service) {
      if id in db.assignments {
        OnlyService(db.assignments[id].services, service);
      }
    }
    DetachOverflows(rest, service);
  }

  lemma DetachOverflows(db: Tables, service: string)
    requires db.bindings.Keys == db.assignments.Keys
    ensures Overflows(db, DetachEdits(db, service)) <==> exists id :: Holds(db, id, service) && !Raisable(db.assignments[id])
  {
    var edits := DetachEdits(db, service);
    forall id | Holds(db, id, service) ensures id in edits && edits[id].row != db.assignments[id] {
    }
    if Overflows(db, edits) {
      var id :| id in edits && id in db.assignments && edits[id].row != db.assignments[id] && Full(db.assignments[id]);
      assert Holds(db, id, service) && !Raisable(db.assignments[id]);
    }
    if id :| Holds(db, id, service) && !Raisable(db.assignments[id]) {
      assert id in edits && Full(db.assignments[id]);
    }
  }

  lemma DeleteServiceExactly(rules: Rules, db: Tables, service: string, ifMatch: int)
    requires Inv(rules, db)
    ensures Store.DeleteService(db, service, ifMatch).Ok? <==>
            && service in db.services && 0 < ifMatch == db.services[service].revision
            && forall id :: Holds(db, id, service) ==>
                              (forall s :: s in db.assignments[id].services ==> s == service) || Raisable(db.assignments[id])
    ensures service in db.services && !(0 < ifMatch == db.services[service].revision) ==>
              Store.DeleteService(db, service, ifMatch) == Err(RevisionConflict)
  {
    forall id | id in db.assignments ensures Distinct(db.assignments[id].services) {
      assert RowFine(rules, db.services, db.specs, db.assignments[id], db.bindings[id]);
    }
    DetachExactly(db, service);
    MatchesExactly(ServiceRevision(db, service), ifMatch);
  }

  lemma DeleteServiceOutright(db: Tables, service: string, ifMatch: int)
    requires Store.DeleteService(db, service, ifMatch).Ok?
    ensures var db' := Store.DeleteService(db, service, ifMatch).value;
            db'.specs == db.specs && db'.nodes == db.nodes && service !in db'.services && db'.services == db.services - {service}
  {
  }

  // ---------- node specs ----------

  // Something depends on what the node's spec makes it: assignments on a gateway
  // and agents fixed to it, or an agent's services and assignments.
  ghost predicate Needed(db: Tables, node: string)
    requires node in db.specs
  {
    if db.specs[node].value.GatewayRole? then
      || (exists id :: id in db.assignments && db.assignments[id].gatewayID == node)
      || (exists id :: id in db.specs && db.specs[id].value.AgentRole? && db.specs[id].value.agent.gatewayID == node)
    else
      || (exists id :: id in db.services && db.services[id].value.agentID == node)
      || (exists id :: id in db.assignments && db.assignments[id].agentID == node)
  }

  lemma DeleteSpecExactly(db: Tables, node: string, ifMatch: int)
    ensures DeleteSpec(db, node, ifMatch).Ok? <==>
            node in db.specs && 0 < ifMatch == db.specs[node].revision && !Needed(db, node)
    ensures node in db.specs && !(0 < ifMatch == db.specs[node].revision) ==> DeleteSpec(db, node, ifMatch) == Err(RevisionConflict)
    ensures DeleteSpec(db, node, ifMatch).Ok? ==> DeleteSpec(db, node, ifMatch).value == db.(specs := db.specs - {node})
  {
    MatchesExactly(SpecRevision(db, node), ifMatch);
  }

  // The gateway's stored bindings fit its new pool and listeners.
  ghost predicate StillFits(rules: Rules, db: Tables, node: string, spec: GatewaySpec) {
    forall id, p :: id in db.bindings && p in db.bindings[id] && p.gatewayID == node ==>
                      Admits(spec.pool, p.binding) && !OnListener(rules, spec.listeners, p.binding)
  }

  // The agent's assignments are where its new spec allows them.
  ghost predicate StillAllowed(rules: Rules, db: Tables, node: string, spec: AgentSpec) {
    forall id :: id in db.assignments && db.assignments[id].agentID == node ==>
                   var gateway := db.assignments[id].gatewayID;
                   if spec.gatewayID != "" then gateway == spec.gatewayID
                   else gateway in db.nodes && rules.matches(spec.selector, db.nodes[gateway].labels)
  }

  // The assignment's endpoint is withdrawn or its policy replaced.
  ghost predicate Affected(db: Tables, id: string, node: string, spec: GatewaySpec) {
    && id in db.assignments && db.assignments[id].gatewayID == node
    && (db.assignments[id].endpoint !in spec.endpoints || db.assignments[id].policy != spec.policy)
  }

  // The spec itself may be written for the node.
  ghost predicate Writable(rules: Rules, db: Tables, node: string, spec: Spec) {
    && node in db.nodes
    && match spec
       case GatewayRole(gateway) =>
         && rules.validGatewaySpec(gateway) && StillFits(rules, db, node, gateway) && gateway.endpoints != []
         && forall id :: Affected(db, id, node, gateway) ==> Raisable(db.assignments[id])
       case AgentRole(agent) =>
         && rules.validAgentSpec(agent) && StillAllowed(rules, db, node, agent)
         && (agent.gatewayID != "" ==> Known(db, agent.gatewayID, true))
  }

  lemma ObstructsExactly(rules: Rules, db: Tables, node: string, spec: GatewaySpec)
    ensures Obstructs(rules, db, node, spec) <==> !StillFits(rules, db, node, spec)
  {
    forall id, p | id in db.bindings && p in db.bindings[id]
      ensures Serveable(rules, spec, p.binding) <==> Admits(spec.pool, p.binding) && !OnListener(rules, spec.listeners, p.binding)
    {
      PoolExactly(spec.pool, p.binding);
      ListenersExactly(rules, spec.listeners, p.binding);
    }
  }

  lemma AffectedExactly(db: Tables, node: string, spec: GatewaySpec)
    requires db.bindings.Keys == db.assignments.Keys && spec.endpoints != []
    ensures Overflows(db, EndpointEdits(db, node, spec)) <==> exists id :: Affected(db, id, node, spec) && !Raisable(db.assignments[id])
  {
    var edits := EndpointEdits(db, node, spec);
    forall id ensures id in edits <==> Affected(db, id, node, spec) {
    }
    if Overflows(db, edits) {
      var id :| id in edits && id in db.assignments && edits[id].row != db.assignments[id] && Full(db.assignments[id]);
      assert Affected(db, id, node, spec) && !Raisable(db.assignments[id]);
    }
    if id :| Affected(db, id, node, spec) && !Raisable(db.assignments[id]) {
      assert id in edits && edits[id].row != db.assignments[id] && Full(db.assignments[id]);
    }
  }

  lemma PutSpecExactly(rules: Rules, db: Tables, node: string, spec: Spec, ifMatch: int)
    requires db.bindings.Keys == db.assignments.Keys
    ensures PutSpec(rules, db, node, spec, ifMatch).Ok? <==>
            && Writable(rules, db, node, spec)
            && (if node in db.specs
                then && 0 < ifMatch == db.specs[node].revision
                     && ((db.specs[node].value.GatewayRole? <==> spec.GatewayRole?) || !Needed(db, node))
                else ifMatch <= 0)
  {
    MatchesExactly(SpecRevision(db, node), ifMatch);
    if spec.GatewayRole? {
      ObstructsExactly(rules, db, node, spec.gateway);
      if spec.gateway.endpoints != [] {
        var written := WriteSpec(db, node, spec);
        AffectedExactly(written, node, spec.gateway);
        assert forall id :: Affected(written, id, node, spec.gateway) <==> Affected(db, id, node, spec.gateway);
      }
    } else {
      StrandsExactly(rules, db, node, spec.agent);
    }
  }

  lemma StrandsExactly(rules: Rules, db: Tables, node: string, spec: AgentSpec)
    ensures Strands(rules, db, node, spec) <==> !StillAllowed(rules, db, node, spec)
  {
  }

  // The spec is stored as it is put, under the next revision; other specs,
  // services and nodes stay, and an agent's spec touches no assignment.
  lemma PutSpecOutright(rules: Rules, db: Tables, node: string, spec: Spec, ifMatch: int)
    requires PutSpec(rules, db, node, spec, ifMatch).Ok?
    ensures var db' := PutSpec(rules, db, node, spec, ifMatch).value;
            && db'.services == db.services && db'.nodes == db.nodes
            && db'.specs == db.specs[node := Versioned(spec, if node in db.specs then db.specs[node].revision + 1 else 1)]
            && (spec.AgentRole? ==> db'.assignments == db.assignments && db'.bindings == db.bindings && db'.acks == db.acks)
  {
  }

  // ---------- nodes ----------

  // An identity that is lost to decommissioning stays disabled.
  ghost predicate MayBecome(before: NodeRow, enabled: bool, certificate: Certificate) {
    && (certificate == CertDecommissioned ==> !enabled)
    && (before.certificate == CertDecommissioned ==> !enabled && certificate == CertDecommissioned)
  }

  // The update closes the node's placements.
  ghost predicate Closing(before: NodeRow, enabled: bool, certificate: Certificate) {
    !enabled || certificate != CertActive || before.certificate == CertRevoked
  }

  // A placement of the node that would have to take another revision to close.
  ghost predicate Worn(db: Tables, id: string, node: string) {
    && id in db.assignments && (db.assignments[id].gatewayID == node || db.assignments[id].agentID == node)
    && db.assignments[id].state != Degraded && db.assignments[id].revision >= 0x7fff_ffff_ffff_ffff
  }

  lemma WornExactly(db: Tables, node: string)
    ensures RevisionOverflows(db, QuarantineEdits(db, node)) <==> exists id :: Worn(db, id, node)
  {
    var edits := QuarantineEdits(db, node);
    if RevisionOverflows(db, edits) {
      var id :| id in edits && id in db.assignments && edits[id].row != db.assignments[id] && db.assignments[id].revision >= MAX_STORED;
      assert Worn(db, id, node);
    }
    if id :| Worn(db, id, node) {
      assert id in edits && edits[id].row != db.assignments[id];
    }
  }

  lemma UpdateNodeExactly(db: Tables, node: string, enabled: bool, certificate: Certificate, labels: Labels, ifMatch: int)
    ensures Store.UpdateNode(db, node, enabled, certificate, labels, ifMatch).Ok? <==>
            && node in db.nodes && 0 < ifMatch == db.nodes[node].revision && MayBecome(db.nodes[node], enabled, certificate)
            && (Closing(db.nodes[node], enabled, certificate) ==> forall id :: !Worn(db, id, node))
    ensures node in db.nodes && !(0 < ifMatch == db.nodes[node].revision) ==>
              Store.UpdateNode(db, node, enabled, certificate, labels, ifMatch) == Err(RevisionConflict)
  {
    if node in db.nodes {
      var written := db.(nodes := db.nodes[node := NodeRow(enabled, certificate, labels, db.nodes[node].revision + 1)]);
      WornExactly(written, node);
      assert forall id :: Worn(written, id, node) <==> Worn(db, id, node);
    }
  }

  // The node is stored as it is put, under the next revision. Its placements are
  // closed exactly if it is disabled, is without an active certificate, or comes
  // back from a revoked one; otherwise, as for every other placement, nothing
  // is touched.
  lemma UpdateNodeOutright(
    db: Tables, node: string, enabled: bool, certificate: Certificate, labels: Labels, ifMatch: int, id: string)
    requires db.bindings.Keys == db.assignments.Keys && Store.UpdateNode(db, node, enabled, certificate, labels, ifMatch).Ok?
    requires id in db.assignments
    ensures var db' := Store.UpdateNode(db, node, enabled, certificate, labels, ifMatch).value;
            && db'.services == db.services && db'.specs == db.specs
            && db'.nodes == db.nodes[node := NodeRow(enabled, certificate, labels, db.nodes[node].revision + 1)]
            && if Closing(db.nodes[node], enabled, certificate) then ClosedFor(db, db', node, id) else Untouched(db, db', id)
  {
    var row := NodeRow(enabled, certificate, labels, db.nodes[node].revision + 1);
    if Quarantines(db.nodes[node], enabled, certificate) {
      QuarantineCloses(db, node, row, id);
    }
  }

  ghost predicate Gone(row: NodeRow) { row.certificate == CertDecommissioned && !row.enabled }

  lemma DecommissionExactly(db: Tables, node: string, ifMatch: int)
    ensures Store.DecommissionNode(db, node, ifMatch).Ok? <==>
            && node in db.nodes && 0 < ifMatch == db.nodes[node].revision
            && (Gone(db.nodes[node]) || (db.nodes[node].revision < 0x7fff_ffff_ffff_ffff && forall id :: !Worn(db, id, node)))
  {
    if node in db.nodes {
      var before := db.nodes[node];
      MatchesExactly(NodeRevision(db, node), ifMatch);
      var row := before.(enabled := false, certificate := CertDecommissioned, revision := before.revision + 1);
      var written := db.(nodes := db.nodes[node := row]);
      WornExactly(written, node);
      assert forall id :: Worn(written, id, node) <==> Worn(db, id, node);
    }
  }

  // Decommissioning disables the node for good and closes its placements; the
  // second time it changes nothing.
  lemma DecommissionOutright(db: Tables, node: string, ifMatch: int, id: string)
    requires db.bindings.Keys == db.assignments.Keys && Store.DecommissionNode(db, node, ifMatch).Ok? && id in db.assignments
    ensures var db', before := Store.DecommissionNode(db, node, ifMatch).value, db.nodes[node];
            if Gone(before) then db' == db
            else
              && db'.services == db.services && db'.specs == db.specs && ClosedFor(db, db', node, id)
              && db'.nodes == db.nodes[node := NodeRow(false, CertDecommissioned, before.labels, before.revision + 1)]
  {
    var before := db.nodes[node];
    if !Gone(before) {
      QuarantineCloses(db, node, before.(enabled := false, certificate := CertDecommissioned, revision := before.revision + 1), id);
    }
  }

  // A node is added once, and touches nothing else.
  lemma AddNodeExactly(db: Tables, node: string, row: NodeRow)
    ensures Store.AddNode(db, node, row) ==
            if node in db.nodes then Err(ResourceConflict) else Ok(db.(nodes := db.nodes[node := row.(revision := 1)]))
  {
  }

  // A report is accepted exactly if it names a node and a generation that can be
  // stored, and no row it moves on is at its last revision.
  lemma ReportAccepted(rules: Rules, db: Tables, node: string, generation: nat, applied: bool)
    requires Inv(rules, db)
    ensures NodeResult(db, node, generation, applied).Ok? <==>
            && node != "" && 0 < generation <= 0x7fff_ffff_ffff_ffff
            && forall id :: !Stuck(db, node, generation, applied, id)
  {
    StuckExactly(rules, db, node, generation, applied, ResultEdits(db, node, generation, applied));
  }

  lemma StuckExactly(rules: Rules, db: Tables, node: string, generation: nat, applied: bool, edits: map<string, Edit>)
    requires Inv(rules, db) && edits == ResultEdits(db, node, generation, applied)
    ensures RevisionOverflows(db, edits) <==> exists id :: Stuck(db, node, generation, applied, id)
  {
    if RevisionOverflows(db, edits) {
      var id :| id in edits && id in db.assignments && edits[id].row != db.assignments[id] && db.assignments[id].revision >= MAX_STORED;
      MovedOn(rules, db, node, generation, applied, edits, id);
      assert Stuck(db, node, generation, applied, id);
    }
    if id :| Stuck(db, node, generation, applied, id) {
      MovedOn(rules, db, node, generation, applied, edits, id);
      assert id in edits && edits[id].row != db.assignments[id];
    }
  }

  lemma MovedOn(rules: Rules, db: Tables, node: string, generation: nat, applied: bool, edits: map<string, Edit>, id: string)
    requires Inv(rules, db) && edits == ResultEdits(db, node, generation, applied) && id in db.assignments
    ensures id in edits <==> About(db.assignments[id], node, generation)
    ensures id in edits ==> (edits[id].row != db.assignments[id] <==> Shifts(db, id, node, applied))
  {
    AboutExactly(db.assignments[id], node, generation);
    if Concerns(db.assignments[id], node, generation) {
      ResultIsShift(rules, db, node, generation, applied, id);
    }
  }

  // The report would move a row on that is at its last revision.
  ghost predicate Stuck(db: Tables, node: string, generation: nat, applied: bool, id: string) {
    && id in db.assignments && About(db.assignments[id], node, generation) && Shifts(db, id, node, applied)
    && db.assignments[id].revision >= 0x7fff_ffff_ffff_ffff
  }
}
