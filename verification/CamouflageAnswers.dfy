/** What the camouflage layer puts on the wire and what it makes of what arrives,
    in terms of the octets. */
module CamouflageAnswers {
  import opened Bytes
  import opened Sums
  import opened Mask
  import opened Camouflage
  import opened CamouflageReassembly

  // ---------- the keystream ----------

  // Octet j of block c is octet j of the hash of the c-th counter, so that no
  // block is used for two places of a packet.
  lemma KeyStreamByBlocks(h: Hash, key: Key, salt: seq<byte>, c: nat, j: nat)
    requires c < 0x1_0000_0000 && j < 32
    ensures KeyStream(h, key, salt, 32 * c + j) == h.block(key, salt, c)[j]
  {
    assert (32 * c + j) / 32 == c && (32 * c + j) % 32 == j;
  }

  // ---------- the wire form of a sealed body ----------

  lemma SealedLayout(h: Hash, key: Key, salt: Salt, body: seq<byte>)
    ensures var wire := Seal(h, key, salt, body);
            && |wire| == 16 + |body| + 8
            && wire[..16] == salt && wire[16..16 + |body|] == Masked(h, key, salt, body)
            && wire[16 + |body|..] == h.tag(key, salt, Masked(h, key, salt, body))
  {
  }

  lemma EncodeDataExactly(h: Hash, key: Key, salt: Salt, payload: seq<byte>)
    ensures EncodeData(h, key, salt, payload).Ok? <==> |payload| <= 65536 - 26
    ensures |payload| <= 65536 - 26 ==> EncodeData(h, key, salt, payload).value == Seal(h, key, salt, [1, 0] + payload)
  {
  }

  // ---------- what is opened ----------

  // The parts of a wire packet of possible length.
  datatype Wire = Wire(octets: seq<byte>) {
    predicate Possible() { 26 <= |octets| <= 65536 }

    function Salted(): seq<byte>
      requires Possible()
    {
      octets[..16]
    }

    function Hidden(): seq<byte>
      requires Possible()
    {
      octets[16..|octets| - 8]
    }

    function Mark(): seq<byte>
      requires Possible()
    {
      octets[|octets| - 8..]
    }

    // The key authenticates the packet.
    predicate SignedBy(h: Hash, key: Key)
      requires Possible()
    {
      h.tag(key, Salted(), Hidden()) == Mark()
    }
  }

  // The i-th key is the first that authenticates the packet.
  ghost predicate FirstToSign(h: Hash, keys: seq<Key>, w: Wire, i: nat)
    requires w.Possible()
  {
    i < |keys| && w.SignedBy(h, keys[i]) && forall k: nat :: k < i ==> !w.SignedBy(h, keys[k])
  }

  lemma {:induction false} FirstKeyExactly(h: Hash, keys: seq<Key>, w: Wire)
    requires w.Possible()
    ensures var key := FirstKey(h, keys, w.Salted(), w.Hidden(), w.Mark());
            && (key.None? <==> forall i: nat :: i < |keys| ==> !w.SignedBy(h, keys[i]))
            && (key.Some? ==> exists i: nat :: FirstToSign(h, keys, w, i) && key.value == keys[i])
  {
    if keys != [] {
      if w.SignedBy(h, keys[0]) {
        assert FirstToSign(h, keys, w, 0);
      } else {
        FirstKeyExactly(h, keys[1..], w);
        assert forall i: nat :: 0 < i < |keys| ==> keys[i] == keys[1..][i - 1];
        if i: nat :| FirstToSign(h, keys[1..], w, i) && FirstKey(h, keys[1..], w.Salted(), w.Hidden(), w.Mark()).Some?
                     && FirstKey(h, keys[1..], w.Salted(), w.Hidden(), w.Mark()).value == keys[1..][i] {
          assert FirstToSign(h, keys, w, i + 1) && keys[i + 1] == keys[1..][i];
        }
      }
    }
  }

  // A body is read from a packet exactly if its length is possible, and the first
  // key that authenticates it uncovers that body with the version in front.
  lemma OpenExactly(h: Hash, keys: seq<Key>, wire: seq<byte>, body: seq<byte>)
    ensures Open(h, keys, wire) == Some(body) <==>
            && Wire(wire).Possible()
            && exists i: nat :: FirstToSign(h, keys, Wire(wire), i) && Uncovers(h, keys[i], Wire(wire), body)
  {
    var w := Wire(wire);
    if w.Possible() {
      FirstKeyExactly(h, keys, w);
      var key := FirstKey(h, keys, w.Salted(), w.Hidden(), w.Mark());
      forall i: nat, k: nat | FirstToSign(h, keys, w, i) && FirstToSign(h, keys, w, k) ensures i == k {
      }
      if key.Some? {
        var i: nat :| FirstToSign(h, keys, w, i) && key.value == keys[i];
        assert Open(h, keys, wire) == Some(body) <==> Uncovers(h, keys[i], w, body);
      }
    }
  }

  ghost predicate Uncovers(h: Hash, key: Key, w: Wire, body: seq<byte>)
    requires w.Possible()
  {
    body == Masked(h, key, w.Salted(), w.Hidden()) && body[0] == 1
  }

  // What a body is: data with its payload if there is room for it, a fragment,
  // or nothing.
  lemma DecodeExactly(h: Hash, keys: seq<Key>, wire: seq<byte>, room: nat)
    ensures var body, content := Open(h, keys, wire), Decode(h, keys, wire, room);
            && (content.Payload? <==> body.Some? && body.value[1] == 0 && |body.value| - 2 <= room)
            && (content.Payload? ==> content.payload == body.value[2..])
            && (content.Part? <==> body.Some? && body.value[1] == 1)
            && (content.Part? ==> content.body == body.value)
            && (content == Nothing <==> body.None? || !(body.value[1] == 1 || (body.value[1] == 0 && |body.value| - 2 <= room)))
  {
  }

  // A packet of impossible length, or that no key authenticates, is dropped.
  lemma UnsignedIsDropped(h: Hash, keys: seq<Key>, wire: seq<byte>, room: nat)
    requires Wire(wire).Possible() ==> forall key :: key in keys ==> !Wire(wire).SignedBy(h, key)
    ensures Open(h, keys, wire) == None && Decode(h, keys, wire, room) == Nothing
  {
    if Wire(wire).Possible() {
      FirstKeyExactly(h, keys, Wire(wire));
    }
  }

  // ---------- which bodies are fragments ----------

  // The body is a header, the part and some padding, within the limits.
  ghost predicate Carrying(o: Options, body: seq<byte>, f: Fragment, padding: seq<byte>) {
    && 2 <= f.total <= 8 && f.index < f.total && 0 < |f.payload| < 0x1_0000 && |padding| < 0x1_0000
    && |body| + 24 <= o.maxHandshake && |body| >= 2
    && body[2..] == FragmentHeader(f.id, f.index, f.total, |f.payload|, |padding|)[2..] + f.payload + padding
  }

  lemma ParsedExactly(o: Options, body: seq<byte>, f: Fragment)
    ensures ParseFragment(o, body) == Some(f) <==> exists padding :: Carrying(o, body, f, padding)
  {
    if ParseFragment(o, body) == Some(f) {
      ParsedCarries(o, body, f);
    }
    if padding :| Carrying(o, body, f, padding) {
      CarriedParses(o, body, f, padding);
    }
  }

  lemma ParsedCarries(o: Options, body: seq<byte>, f: Fragment)
    requires ParseFragment(o, body) == Some(f)
    ensures Carrying(o, body, f, body[FRAGMENT_HEADER + |f.payload|..])
  {
    var padding := body[FRAGMENT_HEADER + |f.payload|..];
    StoreLoaded16(body[2..4]);
    StoreLoaded16(body[6..8]);
    StoreLoaded16(body[8..10]);
    var head := FragmentHeader(f.id, f.index, f.total, |f.payload|, |padding|);
    assert head[2..] == body[2..4] + [body[4], body[5]] + body[6..8] + body[8..10];
    assert body[2..] == body[2..4] + [body[4], body[5]] + body[6..8] + body[8..10] + body[10..];
    assert body[10..] == f.payload + padding;
  }

  lemma CarriedParses(o: Options, body: seq<byte>, f: Fragment, padding: seq<byte>)
    requires Carrying(o, body, f, padding)
    ensures ParseFragment(o, body) == Some(f)
  {
    var head := FragmentHeader(f.id, f.index, f.total, |f.payload|, |padding|);
    var rest := f.payload + padding;
    HeaderFields(f.id, f.index, f.total, |f.payload|, |padding|, rest);
    var whole := head + rest;
    assert whole[2..] == head[2..] + rest && body[2..] == head[2..] + f.payload + padding;
    assert body[2..] == whole[2..] && |body| == |whole|;
    assert whole[10..10 + |f.payload|] == f.payload;
    SameFrom(body, whole, 2, 4);
    SameFrom(body, whole, 6, 8);
    SameFrom(body, whole, 8, 10);
    SameFrom(body, whole, 10, 10 + |f.payload|);
    assert body[4] == body[2..][2] == whole[4] && body[5] == body[2..][3] == whole[5];
  }

  lemma SameFrom(x: seq<byte>, y: seq<byte>, lo: nat, hi: nat)
    requires |x| == |y| && 2 <= lo <= hi <= |x| && x[2..] == y[2..]
    ensures x[lo..hi] == y[lo..hi]
  {
    forall i | 0 <= i < hi - lo ensures x[lo..hi][i] == y[lo..hi][i] {
      assert x[2..][lo - 2 + i] == y[2..][lo - 2 + i];
    }
  }

  // ---------- what a fragment does ----------

  // One fragment, in a state and at a time.
  datatype Event = Event(s: State, source: string, f: Fragment, now: int) {
    function Key(): FragmentKey { FragmentKey(source, f.id) }

    // The assemblies whose second has not passed.
    ghost function Open(): map<FragmentKey, Assembly> {
      map k | k in s.parts && now < s.parts[k].deadline :: s.parts[k]
    }

    ghost function OfSource(): set<FragmentKey> { set k | k in Open() && k.source == source }

    ghost predicate Admitted() {
      Key() in Open() || (|OfSource()| < 16 && |Open()| < 128 && Sum(Open(), AssemblySize) + |f.payload| <= 0x10_0000)
    }

    // The assembly to extend: the open one, or a new one that ends in a second.
    ghost function Own(): Assembly {
      if Key() in Open() then Open()[Key()] else Assembly(f.total, NoSlots(f.total), 0, now + 1_000_000_000)
    }

    ghost predicate Repeats() { Own().total != f.total || |Own().slots| != f.total || f.index >= f.total || Own().slots[f.index].Some? }

    ghost function Grown(): Assembly
      requires !Repeats()
    {
      Assembly(f.total, Own().slots[f.index := Some(f.payload)], Own().bytes + |f.payload|, Own().deadline)
    }

    ghost predicate Completes()
      requires !Repeats()
    {
      forall i :: 0 <= i < f.total && i != f.index ==> Own().slots[i].Some?
    }
  }

  lemma EvictedIs(o: Options, e: Event)
    requires Valid(o, e.s)
    ensures var x := Evict(e.s, e.now);
            && x.parts == e.Open() && x.bytes == Sum(e.Open(), AssemblySize) && Valid(o, x) && Count(x.sources, e.source) == |e.OfSource()|
  {
    EvictKeepsValid(o, e.s, e.now);
    var x := Evict(e.s, e.now);
    assert x.parts == e.Open();
    assert From(x.parts.Keys, e.source) == e.OfSource();
  }

  // A body that is no fragment changes nothing and returns nothing.
  lemma NoFragmentNoChange(o: Options, s: State, source: string, body: seq<byte>, now: int)
    requires ParseFragment(o, body).None?
    ensures Accept(o, s, source, body, now) == (s, None)
  {
  }

  ghost predicate Carries(o: Options, e: Event, body: seq<byte>) {
    Valid(o, e.s) && ParseFragment(o, body) == Some(e.f)
  }

  // A packet is returned exactly when the fragment is admitted, is new to its
  // assembly and leaves no slot empty; it is the parts in order.
  lemma ReturnsExactly(o: Options, e: Event, body: seq<byte>)
    requires Carries(o, e, body)
    ensures var out := Accept(o, e.s, e.source, body, e.now).1;
            && (out.Some? <==> e.Admitted() && !e.Repeats() && e.Completes())
            && (out.Some? ==> Complete(e.Grown().slots) && out.value == JoinSlots(e.Grown().slots))
  {
    AcceptOutcome(o, e, body);
  }

  // What is left of the other assemblies is what has not ended, as it was.
  lemma OthersEndOnly(o: Options, e: Event, body: seq<byte>, k: FragmentKey)
    requires Carries(o, e, body) && k != e.Key()
    ensures var parts := Accept(o, e.s, e.source, body, e.now).0.parts;
            && (k in parts <==> k in e.s.parts && e.now < e.s.parts[k].deadline)
            && (k in parts ==> parts[k] == e.s.parts[k])
  {
    var (s', out) := Accept(o, e.s, e.source, body, e.now);
    AcceptOutcome(o, e, body);
    OthersStay(e, s'.parts, out, k);
  }

  lemma OthersStay(e: Event, parts: map<FragmentKey, Assembly>, out: Option<seq<byte>>, k: FragmentKey)
    requires Outcome(e, parts, out) && k != e.Key()
    ensures (k in parts <==> k in e.Open()) && (k in parts ==> parts[k] == e.Open()[k])
  {
  }

  lemma AcceptOutcome(o: Options, e: Event, body: seq<byte>)
    requires Carries(o, e, body)
    ensures var (s', out) := Accept(o, e.s, e.source, body, e.now); Outcome(e, s'.parts, out)
  {
    EvictedIs(o, e);
    StoredOutcome(o, e, Evict(e.s, e.now));
  }

  // The fragment's own assembly is gone with its packet, extended by a new part,
  // and otherwise as it was.
  lemma OwnAfter(o: Options, e: Event, body: seq<byte>)
    requires Carries(o, e, body)
    ensures var parts := Accept(o, e.s, e.source, body, e.now).0.parts;
            if e.Admitted() && !e.Repeats() then
              if e.Completes() then e.Key() !in parts else e.Key() in parts && parts[e.Key()] == e.Grown()
            else parts == e.Open()
  {
    AcceptOutcome(o, e, body);
  }

  ghost predicate Outcome(e: Event, parts: map<FragmentKey, Assembly>, out: Option<seq<byte>>) {
    if e.Admitted() && !e.Repeats() then
      if e.Completes() then parts == e.Open() - {e.Key()} && Complete(e.Grown().slots) && out == Some(JoinSlots(e.Grown().slots))
      else parts == e.Open()[e.Key() := e.Grown()] && out == None
    else parts == e.Open() && out == None
  }

  // The state after eviction.
  ghost predicate Evicted(o: Options, e: Event, x: State) {
    && x.parts == e.Open() && x.bytes == Sum(e.Open(), AssemblySize) && Count(x.sources, e.source) == |e.OfSource()|
    && Valid(o, e.s) && 2 <= e.f.total <= MAX_COUNT && e.f.index < e.f.total && 0 < |e.f.payload| <= o.maxHandshake - OVERHEAD
  }

  lemma StoredOutcome(o: Options, e: Event, x: State)
    requires Evicted(o, e, x)
    ensures if e.Key() !in x.parts && NoRoom(x, e.source, |e.f.payload|) then Outcome(e, x.parts, None)
            else var (s', out) := StorePart(Opened(x, e.Key(), e.f.total, e.now), e.Key(), e.f); Outcome(e, s'.parts, out)
  {
    if e.Admitted() {
      var open := Opened(x, e.Key(), e.f.total, e.now);
      assert e.Key() in open.parts && open.parts[e.Key()] == e.Own();
      assert open.parts == e.Open()[e.Key() := e.Own()];
      OwnFine(o, e);
      OpenOutcome(o, e, open);
    }
  }

  lemma OwnFine(o: Options, e: Event)
    requires Valid(o, e.s) && 2 <= e.f.total <= MAX_COUNT
    ensures |e.Own().slots| == e.Own().total && SlotsFine(e.Own().slots, o.maxHandshake - OVERHEAD)
    ensures e.Key() !in e.Open() ==> forall i :: 0 <= i < e.f.total ==> e.Own().slots[i].None?
  {
    if e.Key() in e.Open() {
      assert AssemblyFine(o, e.s.parts[e.Key()]);
    }
  }

  lemma OpenOutcome(o: Options, e: Event, open: State)
    requires 2 <= e.f.total && e.f.index < e.f.total && 0 < |e.f.payload| <= o.maxHandshake - OVERHEAD && e.Admitted()
    requires e.Key() in open.parts && open.parts[e.Key()] == e.Own() && open.parts == e.Open()[e.Key() := e.Own()]
    requires |e.Own().slots| == e.Own().total && SlotsFine(e.Own().slots, o.maxHandshake - OVERHEAD)
    requires e.Key() !in e.Open() ==> !e.Repeats()
    ensures var (s', out) := StorePart(open, e.Key(), e.f); Outcome(e, s'.parts, out)
  {
    if e.Repeats() {
      assert open.parts == e.Open();
    } else {
      GrownComplete(e);
      GrownParts(e, open);
      if e.Completes() {
        GrownNotEmpty(o, e);
      }
    }
  }

  lemma GrownComplete(e: Event)
    requires !e.Repeats()
    ensures Complete(e.Grown().slots) <==> e.Completes()
    ensures Extended(e.Own(), e.f.index, e.f.payload) == e.Grown()
  {
    var slots := e.Grown().slots;
    if e.Completes() {
      forall i | 0 <= i < |slots| ensures slots[i].Some? {
        assert i != e.f.index ==> slots[i] == e.Own().slots[i];
      }
    }
    if Complete(slots) {
      forall i | 0 <= i < e.f.total && i != e.f.index ensures e.Own().slots[i].Some? {
        assert slots[i] == e.Own().slots[i];
      }
    }
  }

  lemma GrownParts(e: Event, open: State)
    requires !e.Repeats() && open.parts == e.Open()[e.Key() := e.Own()]
    ensures open.parts[e.Key() := e.Grown()] == e.Open()[e.Key() := e.Grown()]
    ensures open.parts[e.Key() := e.Grown()] - {e.Key()} == e.Open() - {e.Key()}
  {
  }

  lemma GrownNotEmpty(o: Options, e: Event)
    requires !e.Repeats() && Complete(e.Grown().slots) && 0 < |e.f.payload| <= o.maxHandshake - OVERHEAD
    requires SlotsFine(e.Own().slots, o.maxHandshake - OVERHEAD)
    ensures JoinSlots(e.Grown().slots) != []
  {
    forall i | 0 <= i < |e.Grown().slots| ensures SlotFine(e.Grown().slots[i], o.maxHandshake - OVERHEAD) {
      assert i != e.f.index ==> SlotFine(e.Own().slots[i], o.maxHandshake - OVERHEAD);
    }
    PacketNotEmpty(e.Grown().slots, o.maxHandshake - OVERHEAD);
  }
}
