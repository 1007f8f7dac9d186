/** The camouflage packet connection's receiving side, as it updates its state. */
module CamouflageConns {
  import opened Bytes
  import opened Sums
  import opened Mask
  import opened Camouflage
  import opened CamouflageReassembly
  import opened CamouflageAnswers

  // Concatenates the slots once none is missing.
  method Collect(slots: Slots) returns (packet: Option<seq<byte>>)
    ensures packet == if Complete(slots) then Some(JoinSlots(slots)) else None
  {
    for i := 0 to |slots|
      invariant forall k :: 0 <= k < i ==> slots[k].Some?
    {
      if slots[i].None? {
        return None;
      }
    }
    var joined: seq<byte> := [];
    for i := 0 to |slots|
      invariant Complete(slots[..i]) && joined == JoinSlots(slots[..i])
    {
      assert slots[..i + 1][..i] == slots[..i];
      joined := joined + slots[i].value;
    }
    assert slots[..|slots|] == slots;
    packet := Some(joined);
  }

  lemma RemovedCounts(s: State, gone: set<FragmentKey>, key: FragmentKey)
    requires gone <= s.parts.Keys && key in s.parts && key !in gone && key.source in s.sources
    ensures var before := Removed(s, gone).sources;
            Removed(s, gone + {key}).sources == before[key.source := Count(before, key.source) - 1]
  {
    forall x ensures |From(gone + {key}, x)| == |From(gone, x)| + if x == key.source then 1 else 0 {
      FromAdd(gone, key, x);
    }
  }

  lemma RemovedMore(s: State, gone: set<FragmentKey>, key: FragmentKey)
    requires gone <= s.parts.Keys && key in s.parts && key !in gone && key.source in s.sources
    ensures var before, after := Removed(s, gone), Removed(s, gone + {key});
            && key in before.parts && before.parts[key] == s.parts[key]
            && after == State(before.parts - {key}, before.sources[key.source := Count(before.sources, key.source) - 1],
                              before.bytes - s.parts[key].bytes)
  {
    var all, some := map k | k in gone + {key} :: s.parts[k], map k | k in gone :: s.parts[k];
    assert s.parts - (gone + {key}) == s.parts - gone - {key};
    SumRemove(all, AssemblySize, key);
    assert all - {key} == some;
    RemovedCounts(s, gone, key);
  }

  // The state while the keys in todo are still to be looked at.
  ghost function Evicting(s: State, now: int, todo: set<FragmentKey>): State { Removed(s, Dead(s, now) - todo) }

  lemma EvictionStarts(s: State, now: int)
    ensures Evicting(s, now, s.parts.Keys) == s && Evicting(s, now, {}) == Evict(s, now)
  {
    RemovedNone(s);
    assert Dead(s, now) - s.parts.Keys == {} && Dead(s, now) - {} == Dead(s, now);
  }

  lemma EvictionStep(s: State, now: int, todo: set<FragmentKey>, key: FragmentKey)
    requires key in todo && key in s.parts && key.source in s.sources
    ensures var before, after := Evicting(s, now, todo), Evicting(s, now, todo - {key});
            && key in before.parts && before.parts[key] == s.parts[key]
            && after == if now >= s.parts[key].deadline
                        then State(before.parts - {key}, before.sources[key.source := Count(before.sources, key.source) - 1],
                                   before.bytes - s.parts[key].bytes)
                        else before
  {
    var gone := Dead(s, now) - todo;
    RemovedMore(s, gone, key);
    if now >= s.parts[key].deadline {
      assert Dead(s, now) - (todo - {key}) == gone + {key};
    } else {
      assert Dead(s, now) - (todo - {key}) == gone;
    }
  }

  lemma SourceListed(o: Options, s: State, key: FragmentKey)
    requires Valid(o, s) && key in s.parts
    ensures key.source in s.sources
  {
    assert key in From(s.parts.Keys, key.source);
    assert Count(s.sources, key.source) == |From(s.parts.Keys, key.source)|;
  }

  // An open assembly has one slot for each of its parts.
  lemma SlotsReady(o: Options, s: State, key: FragmentKey, total: nat, now: int)
    requires Valid(o, s)
    ensures var a := Opened(s, key, total, now).parts[key]; |a.slots| == a.total
  {
    assert key in s.parts ==> AssemblyFine(o, s.parts[key]);
  }

  function EvictOne(s: State, key: FragmentKey, now: int): State
    requires key in s.parts
  {
    if now >= s.parts[key].deadline then Closed(s, key) else s
  }

  method EvictAll(before: State, now: int) returns (s: State)
    requires forall k :: k in before.parts ==> k.source in before.sources
    ensures s == Evict(before, now)
  {
    s := before;
    var todo := before.parts.Keys;
    EvictionStarts(before, now);
    while todo != {}
      invariant todo <= before.parts.Keys && s == Evicting(before, now, todo)
      decreases |todo|
    {
      var key :| key in todo;
      EvictedOne(before, now, todo, key);
      s := EvictOne(s, key, now);
      todo := todo - {key};
    }
  }

  lemma EvictedOne(s: State, now: int, todo: set<FragmentKey>, key: FragmentKey)
    requires key in todo && todo <= s.parts.Keys && forall k :: k in s.parts ==> k.source in s.sources
    ensures key in Evicting(s, now, todo).parts && EvictOne(Evicting(s, now, todo), key, now) == Evicting(s, now, todo - {key})
  {
    EvictionStep(s, now, todo, key);
  }

  class PacketConn {
    const o: Options
    const hash: Hash
    const keys: seq<Key>
    var parts: map<FragmentKey, Assembly>
    var sources: map<string, int>
    var bytes: int

    function Model(): State
      reads this
    {
      State(parts, sources, bytes)
    }

    ghost predicate Valid()
      reads this
    {
      o.Supported() && CamouflageReassembly.Valid(o, Model())
    }

    constructor (o: Options, hash: Hash, keys: seq<Key>)
      requires o.Supported()
      ensures Valid() && Model() == FRESH && this.o == o && this.hash == hash && this.keys == keys
    {
      this.o, this.hash, this.keys := o, hash, keys;
      parts, sources, bytes := map[], map[], 0;
      new;
      FreshIsValid(o);
    }

    method EvictFragments(now: int)
      requires Valid()
      modifies this
      ensures Valid() && Model() == Evict(old(Model()), now)
    {
      ghost var before := Model();
      forall k | k in parts ensures k.source in sources { SourceListed(o, before, k); }
      EvictKeepsValid(o, before, now);
      var s := EvictAll(Model(), now);
      parts, sources, bytes := s.parts, s.sources, s.bytes;
      assert Model() == s;
    }

    method OpenAssembly(key: FragmentKey, total: nat, now: int)
      modifies this
      ensures Model() == Opened(old(Model()), key, total, now)
    {
      if key !in parts {
        parts := parts[key := Assembly(total, NoSlots(total), 0, now + TTL)];
        sources := sources[key.source := Count(sources, key.source) + 1];
      }
    }

    // Stores a part in its open assembly.
    method Store(key: FragmentKey, f: Fragment) returns (packet: Option<seq<byte>>)
      requires key in parts && f.index < f.total && |parts[key].slots| == parts[key].total
      modifies this
      ensures (Model(), packet) == StorePart(old(Model()), key, f)
    {
      var a := parts[key];
      if a.total != f.total || a.slots[f.index].Some? {
        return None;
      }
      a := Extended(a, f.index, f.payload);
      parts, bytes := parts[key := a], bytes + |f.payload|;
      packet := Collect(a.slots);
      if packet.None? {
        return;
      }
      parts, sources := parts - {key}, sources[key.source := Count(sources, key.source) - 1];
      bytes := bytes - a.bytes;
      if |packet.value| == 0 {
        packet := None;
      }
    }

    method AcceptFragment(source: string, body: seq<byte>, now: int) returns (packet: Option<seq<byte>>)
      requires Valid()
      modifies this
      ensures Valid() && (Model(), packet) == Accept(o, old(Model()), source, body, now)
    {
      var f := ParseFragment(o, body);
      if f.None? {
        return None;
      }
      AcceptKeepsValid(o, Model(), source, body, now);
      EvictFragments(now);
      var key := FragmentKey(source, f.value.id);
      if key !in parts && NoRoom(Model(), source, |f.value.payload|) {
        return None;
      }
      SlotsReady(o, Model(), key, f.value.total, now);
      OpenAssembly(key, f.value.total, now);
      packet := Store(key, f.value);
    }

    // One datagram from the socket: a payload or a finished packet, or nothing.
    method Receive(wire: seq<byte>, source: string, now: int, room: nat) returns (packet: Option<seq<byte>>)
      requires Valid()
      modifies this
      ensures Valid()
      ensures match Decode(hash, keys, wire, room)
              case Nothing => packet == None && Model() == old(Model())
              case Payload(payload) => packet == Some(payload) && Model() == old(Model())
              case Part(body) => (Model(), packet) == Accept(o, old(Model()), source, body, now)
      // A packet of impossible length, or that no key authenticates, is dropped.
      ensures (Wire(wire).Possible() ==> forall key :: key in keys ==> !Wire(wire).SignedBy(hash, key)) ==>
                packet == None && Model() == old(Model())
    {
      if Wire(wire).Possible() ==> forall key :: key in keys ==> !Wire(wire).SignedBy(hash, key) {
        UnsignedIsDropped(hash, keys, wire, room);
      }
      match Decode(hash, keys, wire, room)
      case Nothing => packet := None;
      case Payload(payload) => packet := Some(payload);
      case Part(body) => packet := AcceptFragment(source, body, now);
    }
  }
}
