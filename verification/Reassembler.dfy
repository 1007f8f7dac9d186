/** The reassembler as the program runs it: fields updated in place. Every
    method is tied to the state functions of module Reassembly. */
module Reassemblers {
  import opened Bytes
  import opened Sums
  import opened CompletedHeap
  import opened Datagram
  import opened R = Reassembly

  class Reassembler {
    const limits: Limits
    var flows: map<FlowKey, Flow>
    var completed: map<FlowKey, int>
    var order: seq<Entry>
    var bytes: int

    ghost function Model(): State
      reads this
    {
      State(flows, bytes, Replay(completed, order))
    }

    ghost predicate Ok()
      reads this
    {
      limits.Supported() && Valid(Model(), limits)
    }

    constructor (l: Limits)
      requires l.Supported()
      ensures limits == l && Model() == EMPTY && Ok()
    {
      limits, flows, completed, order, bytes := l, map[], map[], [], 0;
      EmptyIsValid(l);
    }

    method ExpireFlows(now: int)
      modifies this`flows, this`bytes
      ensures flows == LiveFlows(old(flows), now, limits.timeout)
      ensures bytes == old(bytes) - Sum(old(flows) - flows.Keys, FlowSize)
    {
      var keys := flows.Keys;
      ghost var dead: map<FlowKey, Flow> := map[];
      while keys != {}
        invariant keys <= flows.Keys && flows.Keys <= old(flows).Keys && dead.Keys !! flows.Keys
        invariant forall k :: k in old(flows) ==> if k in flows then flows[k] == old(flows)[k] else k in dead
        invariant forall k :: k in dead ==> k in old(flows) && dead[k] == old(flows)[k]
        invariant forall k :: k in dead ==> !Live(dead[k], now, limits.timeout)
        invariant forall k :: k in flows && k !in keys ==> Live(flows[k], now, limits.timeout)
        invariant bytes == old(bytes) - Sum(dead, FlowSize)
        decreases |keys|
      {
        var k :| k in keys;
        keys := keys - {k};
        if now - flows[k].created >= limits.timeout {
          SumUpdate(dead, FlowSize, k, flows[k]);
          dead, bytes := dead[k := flows[k]], bytes - flows[k].bytes;
          flows := flows - {k};
        }
      }
      assert dead == old(flows) - flows.Keys;
    }

    method ExpireCompleted(now: int)
      modifies this`completed, this`order
      ensures Replay(completed, order) == ExpireReplay(old(Replay(completed, order)), now, limits.timeout)
    {
      while order != [] && now - order[0].at >= limits.timeout
        invariant ExpireReplay(Replay(completed, order), now, limits.timeout)
                  == ExpireReplay(old(Replay(completed, order)), now, limits.timeout)
        decreases |order|
      {
        var first := order[0];
        var popped;
        popped, order := HeapPop(order);
        if first.key in completed && completed[first.key] == first.at {
          completed := completed - {first.key};
        }
      }
    }

    method Expire(now: int)
      requires Ok()
      modifies this
      ensures Model() == R.Expire(old(Model()), limits, now)
      ensures Ok()
    {
      ExpireKeepsValid(Model(), limits, now);
      ExpireFlows(now);
      ExpireCompleted(now);
    }

    // Records a finished message, first making room for it.
    method RememberCompleted(key: FlowKey, now: int)
      requires limits.Supported()
      modifies this`completed, this`order
      ensures Replay(completed, order) == Remember(old(Replay(completed, order)), key, now, 2 * limits.maxFlows)
    {
      ghost var limit: nat := 2 * limits.maxFlows;
      ghost var start := Replay(completed, order);
      var evicted := false;
      while !evicted && |completed| >= limits.maxFlows * 2 && order != []
        invariant !evicted ==> MakeRoom(Replay(completed, order), limit) == MakeRoom(start, limit)
        invariant evicted ==> Replay(completed, order) == MakeRoom(start, limit)
        decreases !evicted, |order|
      {
        var entry;
        entry, order := HeapPop(order);
        if entry.key in completed && completed[entry.key] == entry.at {
          completed := completed - {entry.key};
          evicted := true;
        }
      }
      completed := completed[key := now];
      order := HeapPush(order, Entry(key, now));
    }

    // The parts in index order, unless one is missing.
    static method Collect(parts: map<nat, seq<byte>>, count: nat) returns (result: Option<seq<byte>>)
      ensures result == if HasHole(parts, count) then None else Some(Join(parts, count))
    {
      var joined: seq<byte> := [];
      for index := 0 to count
        invariant !HasHole(parts, index) && joined == Join(parts, index)
      {
        if index !in parts {
          return None;
        }
        joined := joined + parts[index];
      }
      return Some(joined);
    }

    method PutPart(h: Header, payload: seq<byte>, now: int) returns (grown: Flow)
      modifies this`flows, this`bytes
      ensures Model() == R.Store(old(Model()), h, payload, now)
      ensures grown == Extend(FlowFor(old(Model()), h, now), h.index, payload)
    {
      var key := FlowKey(h.flowID, h.sequence);
      var flow := if key in flows then flows[key] else Flow(now, h.count, map[], 0);
      grown := flow.(parts := flow.parts[h.index := payload], bytes := flow.bytes + |payload|);
      flows := flows[key := grown];
      bytes := bytes + |payload|;
    }

    method DropFlow(key: FlowKey, flow: Flow)
      modifies this`flows, this`bytes
      ensures Model() == Drop(old(Model()), key, flow)
    {
      flows, bytes := flows - {key}, bytes - flow.bytes;
    }

    // Stores the part, and hands out the message when none is missing.
    method StorePart(h: Header, payload: seq<byte>, now: int) returns (o: Outcome)
      requires limits.Supported()
      modifies this
      ensures (Model(), o) == StoreOrDeliver(old(Model()), limits, h, payload, now)
    {
      var grown := PutPart(h, payload, now);
      if |grown.parts| != grown.count {
        return Pending;
      }
      var result := Collect(grown.parts, grown.count);
      if result.None? {
        return Pending;
      }
      DropFlow(KeyOf(h), grown);
      RememberCompleted(KeyOf(h), now);
      return Delivered(result.value);
    }

    method AcceptDecoded(h: Header, payload: seq<byte>, now: int) returns (o: Outcome)
      requires limits.Supported()
      modifies this
      ensures (Model(), o) == Accept(old(Model()), limits, h, payload, now)
    {
      var key := FlowKey(h.flowID, h.sequence);
      if key in completed {
        return Rejected(MalformedFrame);
      }
      if key !in flows && |flows| >= limits.maxFlows {
        return Rejected(Transient);
      }
      var flow := if key in flows then flows[key] else Flow(now, h.count, map[], 0);
      if flow.count != h.count || h.index in flow.parts {
        DropFlow(key, flow);
        return Rejected(MalformedFrame);
      }
      if bytes + |payload| > limits.maxBytes {
        DropFlow(key, flow);
        return Rejected(Transient);
      }
      o := StorePart(h, payload, now);
    }

    // The entry point: decode, expire, accept.
    method Add(data: seq<byte>, now: int) returns (o: Outcome)
      requires Ok()
      modifies this
      ensures (Model(), o) == R.Add(old(Model()), limits, data, now)
      ensures Ok()
    {
      AddKeepsValid(Model(), limits, data, now);
      var d := Decode(data, limits.maxPayload);
      if d.Err? {
        return Rejected(d.error);
      }
      Expire(now);
      o := AcceptDecoded(d.value.0, d.value.1, now);
    }
  }
}
