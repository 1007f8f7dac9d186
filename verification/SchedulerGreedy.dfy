/** When placing services one after the other finds a placement if there is one. */
module SchedulerGreedy {
  import opened Bytes
  import opened Text
  import opened Ordering
  import opened Domain
  import opened Ports
  import opened Scheduler
  import opened SchedulerSafety
  import opened SchedulerTerms

  // ---------- binding keys tell sockets apart ----------

  const BAR := '|'

  lemma FirstBar(x: string, y: string, x': string, y': string)
    requires x + [BAR] + y == x' + [BAR] + y' && BAR !in x && BAR !in x'
    ensures x == x' && y == y'
  {
    var s := x + [BAR] + y;
    assert s[|x|] == BAR && s[|x'|] == BAR;
    assert x == s[..|x|] && x' == s[..|x'|] && y == s[|x| + 1..] && y' == s[|x'| + 1..];
  }

  lemma LastBar(x: string, y: string, x': string, y': string)
    requires x + [BAR] + y == x' + [BAR] + y' && BAR !in y && BAR !in y'
    ensures x == x' && y == y'
  {
    var s := x + [BAR] + y;
    assert s[|x|] == BAR && s[|x'|] == BAR;
    assert x == s[..|x|] && x' == s[..|x'|] && y == s[|x| + 1..] && y' == s[|x'| + 1..];
  }

  lemma NoBarInDecimal(n: nat)
    ensures BAR !in Decimal(n)
  {
    assert forall i :: 0 <= i < |Decimal(n)| ==> IsDigit(Decimal(n)[i]);
  }

  lemma KeyTells(rules: Rules, protocol: string, bind: string, port: u16, protocol': string, bind': string, port': u16)
    requires BAR !in protocol && BAR !in protocol' && rules.Key(protocol, bind, port) == rules.Key(protocol', bind', port')
    ensures protocol == protocol' && rules.canon(bind) == rules.canon(bind') && port == port'
  {
    var c, c', d, d' := rules.canon(bind), rules.canon(bind'), Decimal(port), Decimal(port');
    NoBarInDecimal(port);
    NoBarInDecimal(port');
    assert rules.Key(protocol, bind, port) == protocol + [BAR] + (c + [BAR] + d);
    assert rules.Key(protocol', bind', port') == protocol' + [BAR] + (c' + [BAR] + d');
    FirstBar(protocol, c + [BAR] + d, protocol', c' + [BAR] + d');
    LastBar(c, d, c', d');
    DecimalValue(port);
    DecimalValue(port');
  }

  // ---------- placements, whoever finds them ----------

  // A binding for a service that inherits nothing.
  ghost predicate Suits(rules: Rules, c: Candidate, s: Service, b: Binding) {
    && rules.validService(s) && rules.matches(s.selector, c.node.labels)
    && b.serviceID == s.id && b.protocol == s.protocol && b.bind == s.bind
    && if s.port != 0 then b.port == s.port && InPool(c.spec.pool, s.protocol, s.port)
       else InRanges(c.spec.pool.Ranges(s.protocol), b.port)
  }

  ghost predicate Feasible(rules: Rules, c: Candidate, services: seq<Service>, occupied: set<string>, bs: seq<Binding>) {
    && |bs| == |services|
    && (forall i :: 0 <= i < |bs| ==> Suits(rules, c, services[i], bs[i]))
    && (forall i :: 0 <= i < |bs| ==> rules.KeyOf(bs[i]) !in occupied)
    && (forall i, j :: 0 <= i < j < |bs| ==> rules.KeyOf(bs[i]) != rules.KeyOf(bs[j]))
  }

  // No service with an automatic port comes before one that asks for a port it
  // could be given.
  ghost predicate NoTrap(rules: Rules, pool: PortPool, services: seq<Service>) {
    forall i, j :: 0 <= i < j < |services| ==> !Traps(rules, pool, services[i], services[j])
  }

  ghost predicate Traps(rules: Rules, pool: PortPool, s: Service, t: Service) {
    && s.port == 0 && t.port != 0 && s.protocol == t.protocol && rules.canon(s.bind) == rules.canon(t.bind)
    && InRanges(pool.Ranges(t.protocol), t.port)
  }

  // The protocol is tcp or udp, as validation demands; all that matters is that
  // its name has no bar.
  ghost predicate Plain(services: seq<Service>) {
    forall s :: s in services ==> BAR !in s.protocol
  }

  lemma FeasibleTail(rules: Rules, c: Candidate, services: seq<Service>, occupied: set<string>, bs: seq<Binding>, key: string)
    requires services != [] && Feasible(rules, c, services, occupied, bs)
    requires forall j :: 0 < j < |bs| ==> rules.KeyOf(bs[j]) != key
    ensures Feasible(rules, c, services[1..], occupied + {key}, bs[1..])
  {
    var rest := bs[1..];
    forall i | 0 <= i < |rest| ensures Suits(rules, c, services[1..][i], rest[i]) && rules.KeyOf(rest[i]) !in occupied + {key} {
      assert rest[i] == bs[i + 1] && services[1..][i] == services[i + 1];
    }
    forall i, j | 0 <= i < j < |rest| ensures rules.KeyOf(rest[i]) != rules.KeyOf(rest[j]) {
      assert rest[i] == bs[i + 1] && rest[j] == bs[j + 1];
    }
  }

  // Two automatic services at one address may trade their ports.
  lemma Trade(rules: Rules, c: Candidate, services: seq<Service>, occupied: set<string>, bs: seq<Binding>, j: nat) returns (traded: seq<Binding>)
    requires Feasible(rules, c, services, occupied, bs) && 0 < j < |bs| && services[0].port == 0 && services[j].port == 0
    requires services[0].protocol == services[j].protocol && rules.canon(services[0].bind) == rules.canon(services[j].bind)
    ensures Feasible(rules, c, services, occupied, traded) && traded[0] == bs[0].(port := bs[j].port)
  {
    traded := bs[0 := bs[0].(port := bs[j].port)][j := bs[j].(port := bs[0].port)];
    assert Suits(rules, c, services[0], bs[0]) && Suits(rules, c, services[j], bs[j]);
    assert rules.KeyOf(traded[0]) == rules.KeyOf(bs[j]) && rules.KeyOf(traded[j]) == rules.KeyOf(bs[0]);
    forall i | 0 <= i < |bs| ensures Suits(rules, c, services[i], traded[i]) && rules.KeyOf(traded[i]) !in occupied {
      assert Suits(rules, c, services[i], bs[i]);
    }
    TradedApart(rules, bs, traded, j);
  }

  lemma TradedApart(rules: Rules, bs: seq<Binding>, traded: seq<Binding>, j: nat)
    requires 0 < j < |bs| == |traded| && rules.KeyOf(traded[0]) == rules.KeyOf(bs[j]) && rules.KeyOf(traded[j]) == rules.KeyOf(bs[0])
    requires forall i :: 0 < i < |bs| && i != j ==> traded[i] == bs[i]
    requires forall i, k :: 0 <= i < k < |bs| ==> rules.KeyOf(bs[i]) != rules.KeyOf(bs[k])
    ensures forall i, k :: 0 <= i < k < |bs| ==> rules.KeyOf(traded[i]) != rules.KeyOf(traded[k])
  {
    forall i, k | 0 <= i < k < |bs| ensures rules.KeyOf(traded[i]) != rules.KeyOf(traded[k]) {
      var i' := if i == 0 then j else if i == j then 0 else i;
      var k' := if k == 0 then j else if k == j then 0 else k;
      assert rules.KeyOf(traded[i]) == rules.KeyOf(bs[i']) && rules.KeyOf(traded[k]) == rules.KeyOf(bs[k']) && i' != k';
    }
  }

  // A placement stays possible when the first service takes any free port.
  lemma TakeAny(rules: Rules, c: Candidate, services: seq<Service>, occupied: set<string>, bs: seq<Binding>, port: u16)
    returns (rest: seq<Binding>)
    requires Feasible(rules, c, services, occupied, bs) && services != [] && Plain(services) && NoTrap(rules, c.spec.pool, services)
    requires services[0].port == 0 && InRanges(c.spec.pool.Ranges(services[0].protocol), port)
    ensures Feasible(rules, c, services[1..], occupied + {rules.Key(services[0].protocol, services[0].bind, port)}, rest)
  {
    var s := services[0];
    var key := rules.Key(s.protocol, s.bind, port);
    if j :| 0 < j < |bs| && rules.KeyOf(bs[j]) == key {
      assert Suits(rules, c, services[j], bs[j]) && Suits(rules, c, s, bs[0]);
      assert s in services && services[j] in services;
      KeyTells(rules, bs[j].protocol, bs[j].bind, bs[j].port, s.protocol, s.bind, port);
      assert !Traps(rules, c.spec.pool, s, services[j]);
      var traded := Trade(rules, c, services, occupied, bs, j);
      assert rules.KeyOf(traded[0]) == key;
      FeasibleTail(rules, c, services, occupied, traded, key);
      rest := traded[1..];
    } else {
      FeasibleTail(rules, c, services, occupied, bs, key);
      rest := bs[1..];
    }
  }

  // ---------- placing one after the other ----------

  lemma FirstPort(rules: Rules, c: Candidate, services: seq<Service>, occupied: set<string>, bs: seq<Binding>)
    requires services != [] && Feasible(rules, c, services, occupied, bs)
    ensures var s := services[0];
            var port := PortFor(rules, c, s, map[], occupied);
            port.Ok? && if s.port != 0 then port.value == s.port else InRanges(c.spec.pool.Ranges(s.protocol), port.value)
  {
    var s := services[0];
    assert Suits(rules, c, s, bs[0]) && rules.KeyOf(bs[0]) !in occupied;
    AllocateIs(rules, c.spec.pool, s.protocol, s.bind, s.port, occupied);
    if s.port == 0 {
      assert !Taken(rules, s.protocol, s.bind, bs[0].port, occupied);
    }
  }

  lemma {:induction false} GreedyFinds(rules: Rules, c: Candidate, services: seq<Service>, occupied: set<string>, bs: seq<Binding>)
    requires Feasible(rules, c, services, occupied, bs) && Plain(services) && NoTrap(rules, c.spec.pool, services)
    ensures Place(rules, c, services, map[], occupied).Ok?
    decreases |services|
  {
    if services != [] {
      var s := services[0];
      FirstPort(rules, c, services, occupied, bs);
      var port := PortFor(rules, c, s, map[], occupied).value;
      var key := rules.Key(s.protocol, s.bind, port);
      assert Suits(rules, c, s, bs[0]);
      var rest: seq<Binding>;
      if s.port != 0 {
        assert rules.KeyOf(bs[0]) == key;
        FeasibleTail(rules, c, services, occupied, bs, key);
        rest := bs[1..];
      } else {
        rest := TakeAny(rules, c, services, occupied, bs, port);
      }
      NoTrapTail(rules, c.spec.pool, services);
      GreedyFinds(rules, c, services[1..], occupied + {key}, rest);
    }
  }

  lemma NoTrapTail(rules: Rules, pool: PortPool, services: seq<Service>)
    requires services != [] && NoTrap(rules, pool, services)
    ensures NoTrap(rules, pool, services[1..])
  {
    var rest := services[1..];
    forall i, j | 0 <= i < j < |rest| ensures !Traps(rules, pool, rest[i], rest[j]) {
      assert !Traps(rules, pool, services[i + 1], services[j + 1]);
    }
  }

  lemma {:induction false} GreedyIsFeasible(rules: Rules, c: Candidate, services: seq<Service>, occupied: set<string>)
    requires Place(rules, c, services, map[], occupied).Ok?
    ensures Feasible(rules, c, services, occupied, Place(rules, c, services, map[], occupied).value)
  {
    PlaceSound(rules, c, services, map[], occupied);
    PlaceSuits(rules, c, services, occupied);
  }

  lemma {:induction false} PlaceSuits(rules: Rules, c: Candidate, services: seq<Service>, occupied: set<string>)
    requires Place(rules, c, services, map[], occupied).Ok?
    ensures var bs := Place(rules, c, services, map[], occupied).value;
            |bs| == |services| && forall i :: 0 <= i < |bs| ==> Suits(rules, c, services[i], bs[i])
  {
    if services != [] {
      var s := services[0];
      var port := PortFor(rules, c, s, map[], occupied).value;
      var rest := occupied + {rules.Key(s.protocol, s.bind, port)};
      AllocateIs(rules, c.spec.pool, s.protocol, s.bind, s.port, occupied);
      PlaceSuits(rules, c, services[1..], rest);
      var bs, tail := Place(rules, c, services, map[], occupied).value, Place(rules, c, services[1..], map[], rest).value;
      assert bs == [Binding(s.id, s.protocol, s.bind, port)] + tail;
      forall i | 0 <= i < |bs| ensures Suits(rules, c, services[i], bs[i]) {
        assert i > 0 ==> services[i] == services[1..][i - 1] && bs[i] == tail[i - 1];
      }
    }
  }

  // Without a trap, placing one after the other succeeds exactly when some
  // placement exists.
  lemma GreedyExactly(rules: Rules, c: Candidate, services: seq<Service>, occupied: set<string>)
    requires Plain(services) && NoTrap(rules, c.spec.pool, services)
    ensures Place(rules, c, services, map[], occupied).Ok? <==> exists bs :: Feasible(rules, c, services, occupied, bs)
  {
    if Place(rules, c, services, map[], occupied).Ok? {
      GreedyIsFeasible(rules, c, services, occupied);
    }
    if bs :| Feasible(rules, c, services, occupied, bs) {
      GreedyFinds(rules, c, services, occupied, bs);
    }
  }

  // A gateway that may serve the agent, has room, and on which the services have
  // a placement.
  ghost predicate HasPlacement(rules: Rules, req: Request, c: Candidate) {
    MayServe(rules, req, c) && RoomOn(req, c) && exists bs :: Feasible(rules, c, req.services, Occupied(rules, req, c), bs)
  }

  // A first placement of valid services without a trap fails exactly when no
  // eligible gateway with room has any placement for them.
  lemma FailsOnlyWithoutPlacement(rules: Rules, req: Request, candidates: seq<Candidate>)
    requires WellFormed(rules, req) && Current(req).None? && Plain(req.services)
    requires forall s :: s in req.services ==> rules.validService(s)
    requires forall c :: c in candidates ==> NoTrap(rules, c.spec.pool, req.services)
    ensures Decide(rules, req, candidates).Err? <==> forall c :: c in candidates ==> !HasPlacement(rules, req, c)
  {
    WellFormedExactly(rules, req);
    FailsOnlyWithoutFit(rules, req, candidates);
    forall c | c in candidates ensures Try(rules, req, c).Placed? <==> HasPlacement(rules, req, c) {
      TakesExactly(rules, req, c);
      GreedyExactly(rules, c, req.services, Occupied(rules, req, c));
    }
  }

  // Services that ask for ports before those that do not are never a trap.
  lemma FixedFirst(rules: Rules, pool: PortPool, services: seq<Service>)
    requires forall i, j :: 0 <= i < j < |services| && services[j].port != 0 ==> services[i].port != 0
    ensures NoTrap(rules, pool, services)
  {
  }

  // ---------- a trap ----------

  // The first service takes the lowest port, which the second asks for. There
  // is a placement, and in the other order it is found.
  lemma TrapFails(rules: Rules, c: Candidate, s: Service, t: Service)
    requires rules.validService(s) && rules.validService(t)
    requires rules.matches(s.selector, c.node.labels) && rules.matches(t.selector, c.node.labels)
    requires s.protocol == t.protocol == TCP && s.bind == t.bind && s.port == 0 && t.port == 8000
    requires c.spec.pool.tcp == [PortRange(8000, 8001)]
    ensures Place(rules, c, [s, t], map[], {}).Err?
    ensures Feasible(rules, c, [s, t], {}, [Binding(s.id, TCP, s.bind, 8001), Binding(t.id, TCP, t.bind, 8000)])
    ensures Place(rules, c, [t, s], map[], {}).Ok?
  {
    var low, high := Binding(t.id, TCP, t.bind, 8000), Binding(s.id, TCP, s.bind, 8001);
    var ranges := c.spec.pool.Ranges(TCP);
    assert InRange(ranges[0], 8000) && InRange(ranges[0], 8001);
    assert rules.KeyOf(low) != rules.KeyOf(high) by {
      if rules.KeyOf(low) == rules.KeyOf(high) {
        KeyTells(rules, TCP, t.bind, 8000, TCP, s.bind, 8001);
      }
    }
    TrappedOrder(rules, c, s, t);
    assert Suits(rules, c, s, high) && Suits(rules, c, t, low);
    assert [t, s][1..] == [s] && [s][1..] == [];
    FixedFirst(rules, c.spec.pool, [t, s]);
    GreedyFinds(rules, c, [t, s], {}, [low, high]);
  }

  lemma TrappedOrder(rules: Rules, c: Candidate, s: Service, t: Service)
    requires s.protocol == t.protocol == TCP && s.bind == t.bind && s.port == 0 && t.port == 8000
    requires c.spec.pool.tcp == [PortRange(8000, 8001)]
    ensures Place(rules, c, [s, t], map[], {}).Err?
  {
    assert FreeBetween(rules, TCP, s.bind, 8000, 8001, {}) == Some(8000);
    assert PortFor(rules, c, s, map[], {}) == Ok(8000);
    assert [s, t][1..] == [t];
  }
}
