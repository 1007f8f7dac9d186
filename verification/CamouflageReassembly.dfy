/** Reassembly of camouflage fragments, per source and identifier. */
module CamouflageReassembly {
  import opened Bytes
  import opened Sums
  import opened Mask
  import opened Fragmentation
  import opened Camouflage

  const MAX_ENTRIES := 128
  const MAX_PER_SOURCE := 16
  const MAX_BYTES := 0x10_0000
  const TTL := 1_000_000_000

  datatype FragmentKey = FragmentKey(source: string, id: u16)

  type Slots = seq<Option<seq<byte>>>

  datatype Assembly = Assembly(total: nat, slots: Slots, bytes: nat, deadline: int)

  // Counters of sources that have gone quiet stay at zero.
  datatype State = State(parts: map<FragmentKey, Assembly>, sources: map<string, int>, bytes: int)

  const FRESH := State(map[], map[], 0)

  // ---------- slots ----------

  function NoSlots(n: nat): (s: Slots)
    ensures |s| == n && forall i :: 0 <= i < n ==> s[i].None?
  {
    if n == 0 then [] else NoSlots(n - 1) + [None]
  }

  function Size(slots: Slots): nat {
    if slots == [] then 0 else Size(slots[..|slots| - 1]) + SlotSize(slots[|slots| - 1])
  }

  function SlotSize(slot: Option<seq<byte>>): nat { if slot.None? then 0 else |slot.value| }

  predicate Complete(slots: Slots) { forall i :: 0 <= i < |slots| ==> slots[i].Some? }

  function JoinSlots(slots: Slots): seq<byte>
    requires Complete(slots)
  {
    if slots == [] then [] else JoinSlots(slots[..|slots| - 1]) + slots[|slots| - 1].value
  }

  // ---------- one step ----------

  function Count(sources: map<string, int>, source: string): int { if source in sources then sources[source] else 0 }

  function AssemblySize(a: Assembly): int { a.bytes }

  function Dead(s: State, now: int): set<FragmentKey> {
    set k | k in s.parts && now >= s.parts[k].deadline
  }

  function From(keys: set<FragmentKey>, source: string): set<FragmentKey> {
    set k | k in keys && k.source == source
  }

  ghost function Removed(s: State, gone: set<FragmentKey>): State
    requires gone <= s.parts.Keys
  {
    State(s.parts - gone, map x | x in s.sources :: s.sources[x] - |From(gone, x)|,
          s.bytes - Sum(map k | k in gone :: s.parts[k], AssemblySize))
  }

  ghost function Evict(s: State, now: int): State { Removed(s, Dead(s, now)) }

  // A new assembly would exceed a limit.
  predicate NoRoom(s: State, source: string, size: nat) {
    Count(s.sources, source) >= MAX_PER_SOURCE || |s.parts| >= MAX_ENTRIES || s.bytes + size > MAX_BYTES
  }

  function Opened(s: State, key: FragmentKey, total: nat, now: int): State {
    if key in s.parts then s
    else s.(parts := s.parts[key := Assembly(total, NoSlots(total), 0, now + TTL)],
            sources := s.sources[key.source := Count(s.sources, key.source) + 1])
  }

  function Extended(a: Assembly, index: nat, payload: seq<byte>): Assembly
    requires index < |a.slots|
  {
    a.(slots := a.slots[index := Some(payload)], bytes := a.bytes + |payload|)
  }

  function Closed(s: State, key: FragmentKey): State
    requires key in s.parts
  {
    State(s.parts - {key}, s.sources[key.source := Count(s.sources, key.source) - 1], s.bytes - s.parts[key].bytes)
  }

  // Stores a part in an open assembly, and hands out the packet with the last.
  // An assembly has one slot for each of its parts.
  function StorePart(s: State, key: FragmentKey, f: Fragment): (State, Option<seq<byte>>)
    requires key in s.parts && f.index < f.total
  {
    var a := s.parts[key];
    if a.total != f.total || |a.slots| != a.total || a.slots[f.index].Some? then (s, None)
    else
      var a' := Extended(a, f.index, f.payload);
      var s' := s.(parts := s.parts[key := a'], bytes := s.bytes + |f.payload|);
      if !Complete(a'.slots) then (s', None)
      else
        var packet := JoinSlots(a'.slots);
        (Closed(s', key), if packet == [] then None else Some(packet))
  }

  ghost function Accept(o: Options, s: State, source: string, body: seq<byte>, now: int): (State, Option<seq<byte>>) {
    var f := ParseFragment(o, body);
    if f.None? then (s, None)
    else
      var e, key := Evict(s, now), FragmentKey(source, f.value.id);
      if key !in e.parts && NoRoom(e, source, |f.value.payload|) then (e, None)
      else StorePart(Opened(e, key, f.value.total, now), key, f.value)
  }

  // ---------- what every step keeps ----------

  ghost predicate SlotFine(slot: Option<seq<byte>>, limit: int) {
    slot.Some? ==> 0 < |slot.value| <= limit
  }

  ghost predicate SlotsFine(slots: Slots, limit: int) {
    forall i :: 0 <= i < |slots| ==> SlotFine(slots[i], limit)
  }

  // An assembly in flight: its parts are within bounds, its byte count is their
  // total, and at least one part is missing.
  ghost predicate AssemblyFine(o: Options, a: Assembly) {
    && 2 <= a.total <= MAX_COUNT && |a.slots| == a.total && SlotsFine(a.slots, o.maxHandshake - OVERHEAD)
    && a.bytes == Size(a.slots) && !Complete(a.slots)
  }

  ghost predicate AssembliesFine(o: Options, parts: map<FragmentKey, Assembly>) {
    forall k :: k in parts ==> AssemblyFine(o, parts[k])
  }

  // Each counter is the number of live assemblies of its source.
  ghost predicate Counted(keys: set<FragmentKey>, sources: map<string, int>) {
    forall x :: Count(sources, x) == |From(keys, x)|
  }

  ghost predicate PerSource(keys: set<FragmentKey>) {
    forall x :: |From(keys, x)| <= MAX_PER_SOURCE
  }

  ghost predicate Valid(o: Options, s: State) {
    && AssembliesFine(o, s.parts) && Counted(s.parts.Keys, s.sources) && PerSource(s.parts.Keys)
    && |s.parts| <= MAX_ENTRIES && s.bytes == Sum(s.parts, AssemblySize)
  }

  lemma FreshIsValid(o: Options)
    ensures Valid(o, FRESH)
  {
    assert forall x :: From({}, x) == {};
  }

  lemma FromAdd(keys: set<FragmentKey>, key: FragmentKey, x: string)
    ensures From(keys + {key}, x) == if key.source == x then From(keys, x) + {key} else From(keys, x)
    ensures From(keys - {key}, x) == From(keys, x) - {key}
  {
  }

  lemma FromMinus(keys: set<FragmentKey>, gone: set<FragmentKey>, x: string)
    requires gone <= keys
    ensures |From(keys - gone, x)| == |From(keys, x)| - |From(gone, x)|
  {
    assert From(keys - gone, x) == From(keys, x) - From(gone, x);
    assert From(gone, x) <= From(keys, x);
    assert From(keys, x) == From(keys - gone, x) + From(gone, x);
  }

  // Eviction removes exactly the assemblies whose time has passed.
  lemma EvictKeepsValid(o: Options, s: State, now: int)
    requires Valid(o, s)
    ensures Valid(o, Evict(s, now))
    ensures forall k :: k in Evict(s, now).parts <==> k in s.parts && now < s.parts[k].deadline
  {
    var dead, e := Dead(s, now), Evict(s, now);
    assert e.parts.Keys == s.parts.Keys - dead;
    SumSplit(s.parts, AssemblySize, dead);
    SubsetSize(e.parts.Keys, s.parts.Keys);
    assert |e.parts| == |e.parts.Keys| && |s.parts| == |s.parts.Keys|;
    EvictCounts(s, now);
  }

  lemma RemovedNone(s: State)
    ensures Removed(s, {}) == s
  {
    assert forall x :: From({}, x) == {};
    assert s.parts - {} == s.parts;
  }

  lemma EvictCounts(s: State, now: int)
    requires Counted(s.parts.Keys, s.sources) && PerSource(s.parts.Keys)
    ensures Counted(Evict(s, now).parts.Keys, Evict(s, now).sources) && PerSource(Evict(s, now).parts.Keys)
  {
    var dead, e := Dead(s, now), Evict(s, now);
    assert e.parts.Keys == s.parts.Keys - dead;
    forall x ensures Count(e.sources, x) == |From(e.parts.Keys, x)| && |From(e.parts.Keys, x)| <= MAX_PER_SOURCE {
      FromMinus(s.parts.Keys, dead, x);
      assert Count(s.sources, x) == |From(s.parts.Keys, x)| && |From(s.parts.Keys, x)| <= MAX_PER_SOURCE;
    }
  }

  lemma {:induction false} NoSlotsSize(n: nat)
    ensures Size(NoSlots(n)) == 0
  {
    if n > 0 {
      NoSlotsSize(n - 1);
      assert NoSlots(n)[..n - 1] == NoSlots(n - 1);
    }
  }

  lemma OpenKeepsValid(o: Options, s: State, key: FragmentKey, total: nat, now: int, size: nat)
    requires Valid(o, s) && 2 <= total <= MAX_COUNT && key !in s.parts && !NoRoom(s, key.source, size)
    ensures Valid(o, Opened(s, key, total, now))
  {
    var e := Opened(s, key, total, now);
    OpenedFine(o, total, now);
    OpenCounts(s, key, total, now);
    SumUpdate(s.parts, AssemblySize, key, e.parts[key]);
  }

  lemma OpenedFine(o: Options, total: nat, now: int)
    requires 2 <= total <= MAX_COUNT
    ensures AssemblyFine(o, Assembly(total, NoSlots(total), 0, now + TTL))
  {
    NoSlotsSize(total);
    assert NoSlots(total)[0].None?;
  }

  lemma OpenCounts(s: State, key: FragmentKey, total: nat, now: int)
    requires Counted(s.parts.Keys, s.sources) && PerSource(s.parts.Keys) && key !in s.parts && Count(s.sources, key.source) < MAX_PER_SOURCE
    ensures var e := Opened(s, key, total, now);
            Counted(e.parts.Keys, e.sources) && PerSource(e.parts.Keys) && |e.parts| == |s.parts| + 1
  {
    var e := Opened(s, key, total, now);
    assert e.parts.Keys == s.parts.Keys + {key};
    assert |e.parts| == |e.parts.Keys| && |s.parts| == |s.parts.Keys|;
    forall x ensures Count(e.sources, x) == |From(e.parts.Keys, x)| && |From(e.parts.Keys, x)| <= MAX_PER_SOURCE {
      FromAdd(s.parts.Keys, key, x);
      assert Count(s.sources, x) == |From(s.parts.Keys, x)| && |From(s.parts.Keys, x)| <= MAX_PER_SOURCE;
    }
  }

  lemma {:induction false} SizeSet(slots: Slots, i: nat, part: seq<byte>)
    requires i < |slots| && slots[i].None?
    ensures Size(slots[i := Some(part)]) == Size(slots) + |part|
  {
    var n := |slots| - 1;
    var more := slots[i := Some(part)];
    if i < n {
      SizeSet(slots[..n], i, part);
      assert more[..n] == slots[..n][i := Some(part)];
    } else {
      assert more[..n] == slots[..n];
    }
  }

  lemma StoredAssembly(o: Options, a: Assembly, index: nat, payload: seq<byte>)
    requires AssemblyFine(o, a) && index < a.total && a.slots[index].None? && 0 < |payload| <= o.maxHandshake - OVERHEAD
    ensures var a' := Extended(a, index, payload);
            && |a'.slots| == a'.total && SlotsFine(a'.slots, o.maxHandshake - OVERHEAD) && a'.bytes == Size(a'.slots)
            && (!Complete(a'.slots) ==> AssemblyFine(o, a'))
  {
    SizeSet(a.slots, index, payload);
    forall i | 0 <= i < a.total ensures SlotFine(Extended(a, index, payload).slots[i], o.maxHandshake - OVERHEAD) {
      assert SlotFine(a.slots[i], o.maxHandshake - OVERHEAD);
    }
  }

  lemma CloseKeepsValid(o: Options, s: State, key: FragmentKey)
    requires key in s.parts && AssembliesFine(o, s.parts - {key})
    requires Counted(s.parts.Keys, s.sources) && PerSource(s.parts.Keys) && |s.parts| <= MAX_ENTRIES && s.bytes == Sum(s.parts, AssemblySize)
    ensures Valid(o, Closed(s, key))
  {
    var e := Closed(s, key);
    assert e.parts.Keys == s.parts.Keys - {key};
    SumRemove(s.parts, AssemblySize, key);
    SubsetSize(e.parts.Keys, s.parts.Keys);
    assert |e.parts| == |e.parts.Keys| && |s.parts| == |s.parts.Keys|;
    forall x ensures Count(e.sources, x) == |From(e.parts.Keys, x)| && |From(e.parts.Keys, x)| <= MAX_PER_SOURCE {
      FromAdd(s.parts.Keys, key, x);
      assert Count(s.sources, x) == |From(s.parts.Keys, x)| && |From(s.parts.Keys, x)| <= MAX_PER_SOURCE;
      assert x == key.source ==> key in From(s.parts.Keys, x);
    }
  }

  lemma StoreKeepsValid(o: Options, s: State, key: FragmentKey, f: Fragment)
    requires Valid(o, s) && key in s.parts && f.index < f.total && 0 < |f.payload| <= o.maxHandshake - OVERHEAD
    ensures Valid(o, StorePart(s, key, f).0)
  {
    var a := s.parts[key];
    assert AssemblyFine(o, a);
    if a.total == f.total && a.slots[f.index].None? {
      var a' := Extended(a, f.index, f.payload);
      StoredAssembly(o, a, f.index, f.payload);
      if Complete(a'.slots) {
        LastPart(o, s, key, a', |f.payload|);
      } else {
        OneMorePart(o, s, key, a', |f.payload|);
      }
    }
  }

  lemma OneMorePart(o: Options, s: State, key: FragmentKey, a: Assembly, more: nat)
    requires Valid(o, s) && key in s.parts && a.bytes == s.parts[key].bytes + more && AssemblyFine(o, a)
    ensures Valid(o, s.(parts := s.parts[key := a], bytes := s.bytes + more))
  {
    StoredCounts(s, key, a, more);
  }

  lemma LastPart(o: Options, s: State, key: FragmentKey, a: Assembly, more: nat)
    requires Valid(o, s) && key in s.parts && a.bytes == s.parts[key].bytes + more
    ensures Valid(o, Closed(s.(parts := s.parts[key := a], bytes := s.bytes + more), key))
  {
    var s' := s.(parts := s.parts[key := a], bytes := s.bytes + more);
    StoredCounts(s, key, a, more);
    assert AssembliesFine(o, s'.parts - {key});
    CloseKeepsValid(o, s', key);
  }

  // Replacing an assembly leaves the keys alone and moves the octet count with it.
  lemma StoredCounts(s: State, key: FragmentKey, a: Assembly, more: nat)
    requires key in s.parts && a.bytes == s.parts[key].bytes + more && s.bytes == Sum(s.parts, AssemblySize)
    ensures var parts := s.parts[key := a];
            parts.Keys == s.parts.Keys && |parts| == |s.parts| && s.bytes + more == Sum(parts, AssemblySize)
  {
    var parts := s.parts[key := a];
    SumUpdate(s.parts, AssemblySize, key, a);
    assert parts.Keys == s.parts.Keys;
    assert |parts| == |parts.Keys| && |s.parts| == |s.parts.Keys|;
  }

  lemma AcceptKeepsValid(o: Options, s: State, source: string, body: seq<byte>, now: int)
    requires Valid(o, s)
    ensures Valid(o, Accept(o, s, source, body, now).0)
  {
    var f := ParseFragment(o, body);
    if f.Some? {
      var e, key := Evict(s, now), FragmentKey(source, f.value.id);
      EvictKeepsValid(o, s, now);
      if key in e.parts || !NoRoom(e, source, |f.value.payload|) {
        if key !in e.parts {
          OpenKeepsValid(o, e, key, f.value.total, now, |f.value.payload|);
        }
        StoreKeepsValid(o, Opened(e, key, f.value.total, now), key, f.value);
      }
    }
  }

  // ---------- the bound on stored octets ----------

  lemma {:induction false} SizeAtMost(slots: Slots, limit: nat)
    requires SlotsFine(slots, limit)
    ensures Size(slots) <= |slots| * limit
  {
    if slots != [] {
      var n := |slots| - 1;
      SizeAtMost(slots[..n], limit);
      assert SlotFine(slots[n], limit);
      assert |slots| * limit == n * limit + limit;
    }
  }

  lemma {:induction false} IncompleteSize(slots: Slots, limit: nat)
    requires SlotsFine(slots, limit) && !Complete(slots)
    ensures Size(slots) <= (|slots| - 1) * limit
  {
    var n := |slots| - 1;
    assert SlotFine(slots[n], limit);
    if slots[n].None? {
      SizeAtMost(slots[..n], limit);
    } else {
      assert !Complete(slots[..n]) by {
        var i :| 0 <= i < |slots| && slots[i].None?;
        assert slots[..n][i].None?;
      }
      IncompleteSize(slots[..n], limit);
      assert n * limit == (n - 1) * limit + limit;
    }
  }

  lemma SevenParts(count: int, limit: nat)
    requires 1 <= count <= 7
    ensures count * limit <= 7 * limit
  {
    assert (7 - count) * limit >= 0;
  }

  // The octet cap is tested only when an assembly is opened, so what bounds the
  // memory is the number of assemblies and of parts in each.
  lemma BytesBounded(o: Options, s: State)
    requires o.Supported() && Valid(o, s)
    ensures 0 <= s.bytes <= MAX_ENTRIES * (7 * (o.maxHandshake - OVERHEAD))
  {
    var limit := o.maxHandshake - OVERHEAD;
    forall k | k in s.parts ensures 0 <= AssemblySize(s.parts[k]) <= 7 * limit {
      var a := s.parts[k];
      assert AssemblyFine(o, a);
      IncompleteSize(a.slots, limit);
      SevenParts(a.total - 1, limit);
    }
    SumBounds(s.parts, AssemblySize, 0, 7 * limit);
    Scale(7 * limit, |s.parts|);
  }

  lemma Scale(each: nat, n: nat)
    requires n <= MAX_ENTRIES
    ensures each * n <= MAX_ENTRIES * each
  {
    assert (MAX_ENTRIES - n) * each >= 0;
  }

  // A finished assembly is never empty, so its last branch cannot be taken.
  lemma PacketNotEmpty(slots: Slots, limit: int)
    requires slots != [] && SlotsFine(slots, limit) && Complete(slots)
    ensures JoinSlots(slots) != []
  {
    assert SlotFine(slots[|slots| - 1], limit);
  }
}
