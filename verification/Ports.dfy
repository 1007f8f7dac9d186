/** Choosing a public port on a gateway. */
module Ports {
  import opened Bytes
  import opened Domain

  datatype PortError =
    | Conflict(protocol: string, bind: string, port: u16)
    | OutsidePool(port: u16)
    | Exhausted

  predicate Taken(rules: Rules, protocol: string, bind: string, port: u16, used: set<string>) {
    rules.Key(protocol, bind, port) in used
  }

  // The lowest untaken port in port..max.
  function FreeBetween(rules: Rules, protocol: string, bind: string, port: nat, max: u16, used: set<string>): Option<u16>
    decreases max + 1 - port
  {
    if port > max then None
    else if Taken(rules, protocol, bind, port, used) then FreeBetween(rules, protocol, bind, port + 1, max, used)
    else Some(port)
  }

  function FreeInRanges(rules: Rules, protocol: string, bind: string, ranges: seq<PortRange>, used: set<string>): Option<u16> {
    if ranges == [] then None
    else
      var free := FreeBetween(rules, protocol, bind, ranges[0].min, ranges[0].max, used);
      if free.Some? then free else FreeInRanges(rules, protocol, bind, ranges[1..], used)
  }

  function Allocate(rules: Rules, pool: PortPool, protocol: string, bind: string, requested: u16, used: set<string>)
    : Result<u16, PortError>
  {
    if requested != 0 then
      if Taken(rules, protocol, bind, requested, used) then Err(Conflict(protocol, bind, requested))
      else if !InPool(pool, protocol, requested) then Err(OutsidePool(requested))
      else Ok(requested)
    else
      var free := FreeInRanges(rules, protocol, bind, pool.Ranges(protocol), used);
      if free.Some? then Ok(free.value) else Err(Exhausted)
  }

  lemma {:induction false} FreeBetweenIs(rules: Rules, protocol: string, bind: string, port: nat, max: u16, used: set<string>)
    ensures var free := FreeBetween(rules, protocol, bind, port, max, used);
            if free.Some? then
              && port <= free.value <= max && !Taken(rules, protocol, bind, free.value, used)
              && forall p: nat :: port <= p < free.value ==> Taken(rules, protocol, bind, p, used)
            else forall p: nat :: port <= p <= max ==> Taken(rules, protocol, bind, p, used)
    decreases max + 1 - port
  {
    if port <= max && Taken(rules, protocol, bind, port, used) {
      FreeBetweenIs(rules, protocol, bind, port + 1, max, used);
    }
  }

  // A port is found exactly when the ranges hold one that is not taken.
  lemma {:induction false} FreeInRangesIs(rules: Rules, protocol: string, bind: string, ranges: seq<PortRange>, used: set<string>)
    ensures var free := FreeInRanges(rules, protocol, bind, ranges, used);
            if free.Some? then InRanges(ranges, free.value) && !Taken(rules, protocol, bind, free.value, used)
            else forall p: u16 :: InRanges(ranges, p) ==> Taken(rules, protocol, bind, p, used)
  {
    if ranges != [] {
      var r, rest := ranges[0], ranges[1..];
      FreeBetweenIs(rules, protocol, bind, r.min, r.max, used);
      var here := FreeBetween(rules, protocol, bind, r.min, r.max, used);
      if here.Some? {
        assert InRange(ranges[0], here.value);
      } else {
        FreeInRangesIs(rules, protocol, bind, rest, used);
        RangesSplit(ranges);
      }
    }
  }

  lemma RangesSplit(ranges: seq<PortRange>)
    requires ranges != []
    ensures forall p: u16 :: InRanges(ranges, p) <==> InRange(ranges[0], p) || InRanges(ranges[1..], p)
  {
    forall p: u16 ensures InRanges(ranges, p) <==> InRange(ranges[0], p) || InRanges(ranges[1..], p) {
      if InRanges(ranges[1..], p) {
        var i :| 0 <= i < |ranges| - 1 && InRange(ranges[1..][i], p);
        assert InRange(ranges[i + 1], p);
      }
      if InRanges(ranges, p) {
        var i :| 0 <= i < |ranges| && InRange(ranges[i], p);
        assert i > 0 ==> InRange(ranges[1..][i - 1], p);
      }
    }
  }

  ghost predicate AllTaken(rules: Rules, protocol: string, bind: string, ranges: seq<PortRange>, used: set<string>) {
    forall p: u16 :: InRanges(ranges, p) ==> Taken(rules, protocol, bind, p, used)
  }

  // What an allocation grants, and exactly when it refuses and why.
  lemma AllocateIs(rules: Rules, pool: PortPool, protocol: string, bind: string, requested: u16, used: set<string>)
    ensures var r, ranges := Allocate(rules, pool, protocol, bind, requested, used), pool.Ranges(protocol);
            && (r.Ok? ==> !Taken(rules, protocol, bind, r.value, used) && InPool(pool, protocol, r.value)
                          && if requested != 0 then r.value == requested else InRanges(ranges, r.value))
            && (r == Err(Conflict(protocol, bind, requested)) <==> requested != 0 && Taken(rules, protocol, bind, requested, used))
            && (r == Err(OutsidePool(requested)) <==>
                requested != 0 && !Taken(rules, protocol, bind, requested, used) && !InPool(pool, protocol, requested))
            && (r == Err(Exhausted) <==> requested == 0 && AllTaken(rules, protocol, bind, ranges, used))
            && (r.Ok? || r.error in {Conflict(protocol, bind, requested), OutsidePool(requested), Exhausted})
  {
    FreeInRangesIs(rules, protocol, bind, pool.Ranges(protocol), used);
  }

  // The ports of the ranges in the order in which they are tried.
  ghost predicate Earlier(i: nat, p: int, j: nat, q: int) {
    i < j || (i == j && p < q)
  }

  // Of the free ports the first in the order of ranges and numbers is given.
  lemma {:induction false} FirstFree(rules: Rules, protocol: string, bind: string, ranges: seq<PortRange>, used: set<string>) returns (j: nat)
    requires FreeInRanges(rules, protocol, bind, ranges, used).Some?
    ensures var port := FreeInRanges(rules, protocol, bind, ranges, used).value;
            && j < |ranges| && ranges[j].min <= port <= ranges[j].max && !Taken(rules, protocol, bind, port, used)
            && forall i: nat, p: u16 :: i < |ranges| && ranges[i].min <= p <= ranges[i].max && Earlier(i, p, j, port) ==>
                                          Taken(rules, protocol, bind, p, used)
  {
    FreeBetweenIs(rules, protocol, bind, ranges[0].min, ranges[0].max, used);
    if FreeBetween(rules, protocol, bind, ranges[0].min, ranges[0].max, used).Some? {
      j := 0;
    } else {
      var k := FirstFree(rules, protocol, bind, ranges[1..], used);
      j := k + 1;
      var port := FreeInRanges(rules, protocol, bind, ranges, used).value;
      forall i: nat, p: u16 | i < |ranges| && ranges[i].min <= p <= ranges[i].max && Earlier(i, p, j, port)
        ensures Taken(rules, protocol, bind, p, used)
      {
        if i > 0 {
          assert ranges[1..][i - 1] == ranges[i] && Earlier(i - 1, p, k, port);
        }
      }
    }
  }

  // A protocol without ranges admits every port that is asked for, but has none
  // to give by itself: automatic allocation fails with nothing in use.
  lemma EmptyPoolIsExhausted(rules: Rules, pool: PortPool, protocol: string, bind: string, port: u16, used: set<string>)
    requires pool.Ranges(protocol) == []
    ensures Allocate(rules, pool, protocol, bind, 0, used) == Err(Exhausted)
    ensures InPool(pool, protocol, port)
    ensures port != 0 && !Taken(rules, protocol, bind, port, used) ==> Allocate(rules, pool, protocol, bind, port, used) == Ok(port)
  {
  }

  // So exhaustion means that every port the pool admits is taken exactly when
  // there are ranges, or all ports are taken anyway.
  lemma ExhaustionMeansFull(rules: Rules, pool: PortPool, protocol: string, bind: string, used: set<string>)
    requires Allocate(rules, pool, protocol, bind, 0, used) == Err(Exhausted)
    ensures (forall p: u16 :: InPool(pool, protocol, p) ==> Taken(rules, protocol, bind, p, used)) <==>
            pool.Ranges(protocol) != [] || forall p: u16 :: Taken(rules, protocol, bind, p, used)
  {
    AllocateIs(rules, pool, protocol, bind, 0, used);
    if pool.Ranges(protocol) == [] {
      assert forall p: u16 :: InPool(pool, protocol, p);
    }
  }

  method AllocatePort(rules: Rules, pool: PortPool, protocol: string, bind: string, requested: u16, used: set<string>)
    returns (r: Result<u16, PortError>)
    ensures r == Allocate(rules, pool, protocol, bind, requested, used)
  {
    if requested != 0 {
      if rules.Key(protocol, bind, requested) in used {
        return Err(Conflict(protocol, bind, requested));
      }
      var inside := PortInPool(pool, protocol, requested);
      return if inside then Ok(requested) else Err(OutsidePool(requested));
    }
    var ranges := pool.Ranges(protocol);
    ghost var answer := FreeInRanges(rules, protocol, bind, ranges, used);
    for i := 0 to |ranges|
      invariant FreeInRanges(rules, protocol, bind, ranges[i..], used) == answer
    {
      var port: nat := ranges[i].min;
      while port <= ranges[i].max
        invariant ranges[i].min <= port <= ranges[i].max + 1 || port == ranges[i].min
        invariant FreeBetween(rules, protocol, bind, port, ranges[i].max, used)
                  == FreeBetween(rules, protocol, bind, ranges[i].min, ranges[i].max, used)
      {
        if rules.Key(protocol, bind, port) !in used {
          assert ranges[i..][0] == ranges[i];
          return Ok(port);
        }
        port := port + 1;
      }
      assert ranges[i..][0] == ranges[i] && ranges[i..][1..] == ranges[i + 1..];
    }
    return Err(Exhausted);
  }
}
