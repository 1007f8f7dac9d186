/** Camouflage packets: sealed bodies, data packets, and handshake packets cut
    into padded fragments. Random octets are parameters. */
module Camouflage {
  import opened Bytes
  import opened Mask
  import opened Fragmentation

  const VERSION: byte := 1
  const DATA: byte := 0
  const FRAGMENT: byte := 1
  const SALT_BYTES := 16
  const DATA_HEADER := 2
  const FRAGMENT_HEADER := 10
  const OVERHEAD := FRAGMENT_HEADER + SALT_BYTES + TAG_BYTES
  const MAX_COUNT := 8
  const MAX_WIRE := 0x1_0000

  type Salt = s: seq<byte> | |s| == SALT_BYTES witness seq(SALT_BYTES, _ => 0)

  datatype Options = Options(minFragment: int, maxFragment: int, maxHandshake: int) {
    // What the constructor accepts.
    predicate Supported() { OVERHEAD <= minFragment <= maxFragment <= maxHandshake <= MAX_WIRE }
  }

  datatype Error = TooLarge | FragmentTooSmall | TooManyFragments | PayloadTooLarge | WireTooLarge

  // ---------- sealing ----------

  function Seal(h: Hash, key: Key, salt: Salt, body: seq<byte>): (wire: seq<byte>)
    ensures |wire| == |body| + SALT_BYTES + TAG_BYTES
  {
    var masked := Masked(h, key, salt, body);
    salt + masked + h.tag(key, salt, masked)
  }

  method SealInto(h: Hash, key: Key, salt: Salt, body: array<byte>, wire: array<byte>)
    requires wire.Length == body.Length + SALT_BYTES + TAG_BYTES && wire != body
    modifies wire
    ensures wire[..] == Seal(h, key, salt, body[..])
  {
    CopyInto(wire, 0, salt);
    CopyInto(wire, SALT_BYTES, body[..]);
    var end := SALT_BYTES + body.Length;
    assert wire[..SALT_BYTES] == salt && wire[SALT_BYTES..end] == body[..];
    MaskInPlace(h, key, salt, wire, SALT_BYTES, end);
    var masked := wire[SALT_BYTES..end];
    assert masked == Masked(h, key, salt, body[..]) && wire[..end] == salt + masked;
    CopyInto(wire, end, h.tag(key, salt, masked));
    assert wire[..] == wire[..wire.Length];
  }

  function FirstKey(h: Hash, keys: seq<Key>, salt: seq<byte>, masked: seq<byte>, tag: seq<byte>): Option<Key> {
    if keys == [] then None
    else if h.tag(keys[0], salt, masked) == tag then Some(keys[0])
    else FirstKey(h, keys[1..], salt, masked, tag)
  }

  // The body of a wire packet that some key authenticates.
  function Open(h: Hash, keys: seq<Key>, wire: seq<byte>): Option<seq<byte>> {
    if |wire| < SALT_BYTES + TAG_BYTES + DATA_HEADER || |wire| > MAX_WIRE then None
    else
      var salt, masked, tag := wire[..SALT_BYTES], wire[SALT_BYTES..|wire| - TAG_BYTES], wire[|wire| - TAG_BYTES..];
      var key := FirstKey(h, keys, salt, masked, tag);
      if key.None? then None
      else
        var body := Masked(h, key.value, salt, masked);
        if body[0] != VERSION then None else Some(body)
  }

  // The sender's key is the receiver's first that authenticates the packet.
  ghost predicate Recognised(h: Hash, keys: seq<Key>, key: Key, salt: Salt, body: seq<byte>) {
    var masked := Masked(h, key, salt, body);
    exists i :: 0 <= i < |keys| && keys[i] == key && forall j :: 0 <= j < i ==> h.tag(keys[j], salt, masked) != h.tag(key, salt, masked)
  }

  lemma {:induction false} FirstKeyIs(h: Hash, keys: seq<Key>, key: Key, salt: seq<byte>, masked: seq<byte>, i: nat)
    requires i < |keys| && keys[i] == key && forall j :: 0 <= j < i ==> h.tag(keys[j], salt, masked) != h.tag(key, salt, masked)
    ensures FirstKey(h, keys, salt, masked, h.tag(key, salt, masked)) == Some(key)
  {
    if i > 0 {
      FirstKeyIs(h, keys[1..], key, salt, masked, i - 1);
    }
  }

  // A recognised packet opens to the body that was sealed.
  lemma OpenSealed(h: Hash, keys: seq<Key>, key: Key, salt: Salt, body: seq<byte>)
    requires Recognised(h, keys, key, salt, body)
    requires |body| >= DATA_HEADER && body[0] == VERSION && |body| + SALT_BYTES + TAG_BYTES <= MAX_WIRE
    ensures Open(h, keys, Seal(h, key, salt, body)) == Some(body)
  {
    var wire, masked := Seal(h, key, salt, body), Masked(h, key, salt, body);
    var i :| 0 <= i < |keys| && keys[i] == key && forall j :: 0 <= j < i ==> h.tag(keys[j], salt, masked) != h.tag(key, salt, masked);
    assert wire[..SALT_BYTES] == salt;
    assert wire[SALT_BYTES..|wire| - TAG_BYTES] == masked;
    assert wire[|wire| - TAG_BYTES..] == h.tag(key, salt, masked);
    FirstKeyIs(h, keys, key, salt, masked, i);
    MaskTwice(h, key, salt, body);
  }

  // ---------- data packets ----------

  function DataBody(payload: seq<byte>): seq<byte> { [VERSION, DATA] + payload }

  function EncodeData(h: Hash, key: Key, salt: Salt, payload: seq<byte>): Result<seq<byte>, Error> {
    var wire := Seal(h, key, salt, DataBody(payload));
    if |wire| > MAX_WIRE then Err(TooLarge) else Ok(wire)
  }

  method EncodeDataPacket(h: Hash, key: Key, salt: Salt, payload: seq<byte>) returns (r: Result<seq<byte>, Error>)
    ensures r == EncodeData(h, key, salt, payload)
  {
    var body := new byte[DATA_HEADER + |payload|](_ => 0);
    body[0] := VERSION;
    body[1] := DATA;
    CopyInto(body, DATA_HEADER, payload);
    assert body[..] == body[..DATA_HEADER + |payload|] == DataBody(payload);
    var wire := new byte[body.Length + SALT_BYTES + TAG_BYTES](_ => 0);
    SealInto(h, key, salt, body, wire);
    if wire.Length > MAX_WIRE {
      return Err(TooLarge);
    }
    r := Ok(wire[..]);
  }

  // What a receiver makes of an opened body: a payload, a fragment, or nothing.
  datatype Content = Nothing | Payload(payload: seq<byte>) | Part(body: seq<byte>)

  function Classify(body: seq<byte>, room: nat): Content
    requires |body| >= DATA_HEADER
  {
    if body[1] == DATA then
      if |body| - DATA_HEADER > room then Nothing else Payload(body[DATA_HEADER..])
    else if body[1] == FRAGMENT then Part(body)
    else Nothing
  }

  function Decode(h: Hash, keys: seq<Key>, wire: seq<byte>, room: nat): Content {
    var body := Open(h, keys, wire);
    if body.None? || |body.value| < DATA_HEADER then Nothing else Classify(body.value, room)
  }

  // Every accepted payload comes back unchanged when it fits the destination.
  lemma DataRoundTrip(h: Hash, keys: seq<Key>, key: Key, salt: Salt, payload: seq<byte>, room: nat)
    requires EncodeData(h, key, salt, payload).Ok? && Recognised(h, keys, key, salt, DataBody(payload))
    ensures Decode(h, keys, EncodeData(h, key, salt, payload).value, room)
            == if |payload| <= room then Payload(payload) else Nothing
  {
    OpenSealed(h, keys, key, salt, DataBody(payload));
    assert DataBody(payload)[DATA_HEADER..] == payload;
  }

  // Key rotation: the receiver knows a new key and still the sender's old one.
  lemma SurvivesRotation(h: Hash, current: Key, previous: Key, salt: Salt, payload: seq<byte>, room: nat)
    requires EncodeData(h, previous, salt, payload).Ok? && |payload| <= room
    requires var masked := Masked(h, previous, salt, DataBody(payload));
             current == previous || h.tag(current, salt, masked) != h.tag(previous, salt, masked)
    ensures Decode(h, [current, previous], EncodeData(h, previous, salt, payload).value, room) == Payload(payload)
  {
    var keys := [current, previous];
    assert keys[0] == current && keys[1] == previous;
    assert Recognised(h, keys, previous, salt, DataBody(payload));
    DataRoundTrip(h, keys, previous, salt, payload, room);
  }

  // ---------- fragments ----------

  // The random choices for one fragment.
  datatype Draw = Draw(extra: nat, fill: nat -> byte, salt: Salt)

  function Max(a: int, b: int): int { if a > b then a else b }

  // At least the minimum wire size, and a random amount up to the maximum.
  function Padding(o: Options, size: nat, extra: nat): nat {
    var base := OVERHEAD + size;
    var low, high := Max(0, o.minFragment - base), Max(0, o.maxFragment - base);
    if high > low then low + extra % (high - low + 1) else low
  }

  // Lengths are stored in 16 bits and indices in 8, whatever their size.
  function FragmentHeader(id: u16, index: nat, total: nat, size: nat, padding: nat): (s: seq<byte>)
    ensures |s| == FRAGMENT_HEADER
  {
    [VERSION, FRAGMENT] + Store16(id) + [index % 0x100, total % 0x100] + Store16(size % 0x1_0000) + Store16(padding % 0x1_0000)
  }

  function Filler(n: nat, fill: nat -> byte): (s: seq<byte>)
    ensures |s| == n
  {
    seq(n, i requires 0 <= i < n => fill(i))
  }

  function FragmentBody(o: Options, id: u16, index: nat, total: nat, payload: seq<byte>, draw: Draw): seq<byte> {
    var padding := Padding(o, |payload|, draw.extra);
    FragmentHeader(id, index, total, |payload|, padding) + payload + Filler(padding, draw.fill)
  }

  function FragmentWire(o: Options, h: Hash, key: Key, id: u16, index: nat, total: nat, payload: seq<byte>, draw: Draw): Result<seq<byte>, Error> {
    if OVERHEAD + |payload| > o.maxFragment then Err(PayloadTooLarge)
    else
      var wire := Seal(h, key, draw.salt, FragmentBody(o, id, index, total, payload, draw));
      if |wire| > o.maxHandshake then Err(WireTooLarge) else Ok(wire)
  }

  // The wire packets of parts[i..], or the first error.
  function WiresFrom(o: Options, h: Hash, key: Key, id: u16, parts: seq<seq<byte>>, i: nat, draws: nat -> Draw): Result<seq<seq<byte>>, Error>
    requires i <= |parts|
    decreases |parts| - i
  {
    if i == |parts| then Ok([])
    else
      var wire := FragmentWire(o, h, key, id, i, |parts|, parts[i], draws(i));
      if wire.Err? then Err(wire.error)
      else
        var rest := WiresFrom(o, h, key, id, parts, i + 1, draws);
        if rest.Err? then rest else Ok([wire.value] + rest.value)
  }

  // What is sent for one packet.
  function Send(o: Options, h: Hash, key: Key, id: u16, packet: seq<byte>, draws: nat -> Draw): Result<seq<seq<byte>>, Error> {
    if o.maxFragment <= OVERHEAD then Err(FragmentTooSmall)
    else
      var parts := Cut(packet, o.maxFragment - OVERHEAD);
      if |parts| < 2 then
        var wire := EncodeData(h, key, draws(0).salt, packet);
        if wire.Err? then Err(wire.error) else Ok([wire.value])
      else if |parts| > MAX_COUNT then Err(TooManyFragments)
      else WiresFrom(o, h, key, id, parts, 0, draws)
  }

  // What is on the wire when sending parts[i..] ends, with or without an error.
  function WrittenFrom(o: Options, h: Hash, key: Key, id: u16, parts: seq<seq<byte>>, i: nat, draws: nat -> Draw): seq<seq<byte>>
    requires i <= |parts|
    decreases |parts| - i
  {
    if i == |parts| then []
    else
      var wire := FragmentWire(o, h, key, id, i, |parts|, parts[i], draws(i));
      if wire.Err? then [] else [wire.value] + WrittenFrom(o, h, key, id, parts, i + 1, draws)
  }

  function Written(o: Options, h: Hash, key: Key, id: u16, packet: seq<byte>, draws: nat -> Draw): seq<seq<byte>> {
    if o.maxFragment <= OVERHEAD then []
    else
      var parts := Cut(packet, o.maxFragment - OVERHEAD);
      if |parts| < 2 then
        var wire := EncodeData(h, key, draws(0).salt, packet);
        if wire.Err? then [] else [wire.value]
      else if |parts| > MAX_COUNT then []
      else WrittenFrom(o, h, key, id, parts, 0, draws)
  }

  method FillHeader(body: array<byte>, id: u16, index: nat, total: nat, size: nat, padding: nat)
    requires body.Length >= FRAGMENT_HEADER
    modifies body
    ensures body[..FRAGMENT_HEADER] == FragmentHeader(id, index, total, size, padding)
  {
    body[0] := VERSION;
    body[1] := FRAGMENT;
    CopyInto(body, 2, Store16(id));
    body[4] := index % 0x100;
    body[5] := total % 0x100;
    assert body[..6] == [VERSION, FRAGMENT] + Store16(id) + [index % 0x100, total % 0x100];
    CopyInto(body, 6, Store16(size % 0x1_0000));
    CopyInto(body, 8, Store16(padding % 0x1_0000));
  }

  // Fills a fragment body in place.
  method FillFragment(o: Options, id: u16, index: nat, total: nat, payload: seq<byte>, draw: Draw) returns (body: array<byte>)
    ensures fresh(body) && body[..] == FragmentBody(o, id, index, total, payload, draw)
  {
    var padding := Padding(o, |payload|, draw.extra);
    body := new byte[FRAGMENT_HEADER + |payload| + padding](_ => 0);
    FillHeader(body, id, index, total, |payload|, padding);
    CopyInto(body, FRAGMENT_HEADER, payload);
    CopyInto(body, FRAGMENT_HEADER + |payload|, Filler(padding, draw.fill));
    assert body[..] == body[..body.Length];
  }

  method WriteFragment(o: Options, h: Hash, key: Key, id: u16, index: nat, total: nat, payload: seq<byte>, draw: Draw)
    returns (r: Result<seq<byte>, Error>)
    ensures r == FragmentWire(o, h, key, id, index, total, payload, draw)
  {
    if OVERHEAD + |payload| > o.maxFragment {
      return Err(PayloadTooLarge);
    }
    var body := FillFragment(o, id, index, total, payload, draw);
    var wire := new byte[body.Length + SALT_BYTES + TAG_BYTES](_ => 0);
    SealInto(h, key, draw.salt, body, wire);
    if wire.Length > o.maxHandshake {
      return Err(WireTooLarge);
    }
    r := Ok(wire[..]);
  }

  // The loop of the source, advancing an offset through the packet. An error
  // ends it after the fragments already written.
  method WriteFragments(o: Options, h: Hash, key: Key, id: u16, packet: seq<byte>, draws: nat -> Draw)
    returns (sent: seq<seq<byte>>, r: Result<seq<seq<byte>>, Error>)
    ensures r == Send(o, h, key, id, packet, draws) && sent == Written(o, h, key, id, packet, draws)
  {
    if o.maxFragment <= OVERHEAD {
      return [], Err(FragmentTooSmall);
    }
    var size := o.maxFragment - OVERHEAD;
    var total := (|packet| + size - 1) / size;
    ghost var parts := Cut(packet, size);
    CutCount(packet, size);
    if total < 2 {
      var wire := EncodeDataPacket(h, key, draws(0).salt, packet);
      if wire.Err? {
        return [], Err(wire.error);
      }
      return [wire.value], Ok([wire.value]);
    }
    if total > MAX_COUNT {
      return [], Err(TooManyFragments);
    }
    sent, r := WriteParts(o, h, key, id, packet, size, total, draws);
  }

  // What has been sent, before what remains.
  function Prefixed(sent: seq<seq<byte>>, rest: Result<seq<seq<byte>>, Error>): Result<seq<seq<byte>>, Error> {
    if rest.Err? then rest else Ok(sent + rest.value)
  }

  lemma PrefixedNext(o: Options, h: Hash, key: Key, id: u16, parts: seq<seq<byte>>, i: nat, draws: nat -> Draw, sent: seq<seq<byte>>)
    requires i < |parts|
    ensures var wire := FragmentWire(o, h, key, id, i, |parts|, parts[i], draws(i));
            Prefixed(sent, WiresFrom(o, h, key, id, parts, i, draws))
            == if wire.Err? then Err(wire.error) else Prefixed(sent + [wire.value], WiresFrom(o, h, key, id, parts, i + 1, draws))
  {
    var wire, rest := FragmentWire(o, h, key, id, i, |parts|, parts[i], draws(i)), WiresFrom(o, h, key, id, parts, i + 1, draws);
    if wire.Ok? && rest.Ok? {
      assert sent + ([wire.value] + rest.value) == sent + [wire.value] + rest.value;
    }
  }

  lemma WrittenNext(o: Options, h: Hash, key: Key, id: u16, parts: seq<seq<byte>>, i: nat, draws: nat -> Draw, sent: seq<seq<byte>>)
    requires i < |parts|
    ensures var wire := FragmentWire(o, h, key, id, i, |parts|, parts[i], draws(i));
            sent + WrittenFrom(o, h, key, id, parts, i, draws)
            == if wire.Err? then sent else sent + [wire.value] + WrittenFrom(o, h, key, id, parts, i + 1, draws)
  {
    var wire := FragmentWire(o, h, key, id, i, |parts|, parts[i], draws(i));
    if wire.Ok? {
      var rest := WrittenFrom(o, h, key, id, parts, i + 1, draws);
      assert sent + ([wire.value] + rest) == sent + [wire.value] + rest;
    } else {
      assert sent + [] == sent;
    }
  }

  // The offset at which part index begins, or the end of the packet.
  predicate At(packet: seq<byte>, size: nat, total: nat, index: nat, offset: nat) {
    index <= total && if index < total then offset == index * size else offset == |packet|
  }

  method WriteParts(o: Options, h: Hash, key: Key, id: u16, packet: seq<byte>, size: nat, total: nat, draws: nat -> Draw)
    returns (sent: seq<seq<byte>>, r: Result<seq<seq<byte>>, Error>)
    requires size > 0 && total == |Cut(packet, size)| > 1
    ensures r == WiresFrom(o, h, key, id, Cut(packet, size), 0, draws)
    ensures sent == WrittenFrom(o, h, key, id, Cut(packet, size), 0, draws)
  {
    ghost var parts := Cut(packet, size);
    sent := [];
    ghost var all := WiresFrom(o, h, key, id, parts, 0, draws);
    var index: nat, offset: nat := 0, 0;
    assert all.Ok? ==> [] + all.value == all.value;
    while offset < |packet|
      invariant At(packet, size, total, index, offset)
      invariant Prefixed(sent, WiresFrom(o, h, key, id, parts, index, draws)) == all
      invariant sent + WrittenFrom(o, h, key, id, parts, index, draws) == WrittenFrom(o, h, key, id, parts, 0, draws)
      decreases |packet| - offset
    {
      var wire, end := WritePart(o, h, key, id, packet, size, index, offset, total, draws(index));
      PrefixedNext(o, h, key, id, parts, index, draws, sent);
      WrittenNext(o, h, key, id, parts, index, draws, sent);
      if wire.Err? {
        return sent, Err(wire.error);
      }
      sent := sent + [wire.value];
      index, offset := index + 1, end;
    }
    OffsetDone(packet, size, index, offset);
    assert sent + [] == sent;
    r := Ok(sent);
  }

  method WritePart(
    o: Options, h: Hash, key: Key, id: u16, packet: seq<byte>, size: nat, index: nat, offset: nat, total: nat, draw: Draw)
    returns (r: Result<seq<byte>, Error>, end: nat)
    requires size > 0 && total == |Cut(packet, size)| && offset < |packet| && At(packet, size, total, index, offset)
    ensures index < total && r == FragmentWire(o, h, key, id, index, total, Cut(packet, size)[index], draw)
    ensures offset < end <= |packet| && At(packet, size, total, index + 1, end)
  {
    end := if offset + size < |packet| then offset + size else |packet|;
    CutPart(packet, size, index, offset, end);
    OffsetNext(packet, size, index, offset);
    r := WriteFragment(o, h, key, id, index, total, packet[offset..end], draw);
  }

  // The next offset: the end of the packet exactly after its last part.
  lemma {:induction false} OffsetNext(packet: seq<byte>, size: nat, index: nat, offset: nat)
    requires size > 0 && index < |Cut(packet, size)| && offset == index * size
    ensures index + 1 < |Cut(packet, size)| <==> offset + size < |packet|
    ensures offset + size == (index + 1) * size
  {
    if |packet| > size && index > 0 {
      assert offset == (index - 1) * size + size;
      OffsetNext(packet[size..], size, index - 1, offset - size);
    }
  }

  lemma OffsetDone(packet: seq<byte>, size: nat, index: nat, offset: nat)
    requires size > 0 && |Cut(packet, size)| > 1 && offset >= |packet| && At(packet, size, |Cut(packet, size)|, index, offset)
    ensures index == |Cut(packet, size)|
  {
    if index < |Cut(packet, size)| {
      CutPart(packet, size, index, offset, if offset + size > |packet| then |packet| else offset + size);
      PartNotEmpty(packet, size, index);
    }
  }

  lemma {:induction false} PartNotEmpty(packet: seq<byte>, size: nat, index: nat)
    requires size > 0 && index < |Cut(packet, size)| && |packet| > 0
    ensures 0 < |Cut(packet, size)[index]| <= size
  {
    if |packet| > size && index > 0 {
      PartNotEmpty(packet[size..], size, index - 1);
    }
  }

  // ---------- reading fragments back ----------

  datatype Fragment = Fragment(id: u16, index: nat, total: nat, payload: seq<byte>)

  function ParseFragment(o: Options, body: seq<byte>): (r: Option<Fragment>)
    ensures r.Some? ==> 2 <= r.value.total <= MAX_COUNT && r.value.index < r.value.total && 0 < |r.value.payload| <= o.maxHandshake - OVERHEAD
  {
    if |body| < FRAGMENT_HEADER then None
    else
      var index: nat, total: nat := body[4], body[5];
      var size: nat, padding: nat := Load16(body[6..8]), Load16(body[8..10]);
      if total < 2 || total > MAX_COUNT || index >= total || size == 0
         || FRAGMENT_HEADER + size + padding != |body| || |body| + SALT_BYTES + TAG_BYTES > o.maxHandshake then None
      else Some(Fragment(Load16(body[2..4]), index, total, body[FRAGMENT_HEADER..FRAGMENT_HEADER + size]))
  }

  lemma PaddingBounds(o: Options, size: nat, extra: nat)
    requires o.Supported() && OVERHEAD + size <= o.maxFragment
    ensures o.minFragment <= OVERHEAD + size + Padding(o, size, extra) <= o.maxFragment
  {
  }

  lemma HeaderFields(id: u16, index: nat, total: nat, size: nat, padding: nat, rest: seq<byte>)
    requires index < total < 0x100 && size < 0x1_0000 && padding < 0x1_0000
    ensures var body := FragmentHeader(id, index, total, size, padding) + rest;
            && body[0] == VERSION && body[1] == FRAGMENT && body[4] == index && body[5] == total
            && Load16(body[2..4]) == id && Load16(body[6..8]) == size && Load16(body[8..10]) == padding
  {
    var body := FragmentHeader(id, index, total, size, padding) + rest;
    assert body[2..4] == Store16(id) && body[6..8] == Store16(size) && body[8..10] == Store16(padding);
    LoadStored16(id);
    LoadStored16(size);
    LoadStored16(padding);
  }

  // No field is truncated: the body reads back as the fragment it carries.
  lemma ParseBody(o: Options, id: u16, index: nat, total: nat, payload: seq<byte>, draw: Draw)
    requires o.Supported() && index < total && 2 <= total <= MAX_COUNT && 0 < |payload| <= o.maxFragment - OVERHEAD
    ensures ParseFragment(o, FragmentBody(o, id, index, total, payload, draw)) == Some(Fragment(id, index, total, payload))
  {
    var padding := Padding(o, |payload|, draw.extra);
    PaddingBounds(o, |payload|, draw.extra);
    var rest := payload + Filler(padding, draw.fill);
    var body := FragmentBody(o, id, index, total, payload, draw);
    assert body == FragmentHeader(id, index, total, |payload|, padding) + rest;
    HeaderFields(id, index, total, |payload|, padding, rest);
    assert body[FRAGMENT_HEADER..FRAGMENT_HEADER + |payload|] == payload;
  }

  // ---------- what sending a packet puts on the wire ----------

  ghost predicate WireFor(o: Options, h: Hash, key: Key, id: u16, parts: seq<seq<byte>>, i: nat, draws: nat -> Draw, wire: seq<byte>)
    requires i < |parts|
  {
    wire == Seal(h, key, draws(i).salt, FragmentBody(o, id, i, |parts|, parts[i], draws(i)))
    && o.minFragment <= |wire| <= o.maxFragment
  }

  ghost predicate AllFit(o: Options, parts: seq<seq<byte>>) {
    forall k :: 0 <= k < |parts| ==> OVERHEAD + |parts[k]| <= o.maxFragment
  }

  lemma WireFits(o: Options, h: Hash, key: Key, id: u16, parts: seq<seq<byte>>, i: nat, draws: nat -> Draw)
    requires o.Supported() && i < |parts| && OVERHEAD + |parts[i]| <= o.maxFragment
    ensures var r := FragmentWire(o, h, key, id, i, |parts|, parts[i], draws(i));
            r.Ok? && WireFor(o, h, key, id, parts, i, draws, r.value)
  {
    PaddingBounds(o, |parts[i]|, draws(i).extra);
  }

  lemma {:induction false} WiresOk(o: Options, h: Hash, key: Key, id: u16, parts: seq<seq<byte>>, i: nat, draws: nat -> Draw)
    requires o.Supported() && i <= |parts| && AllFit(o, parts)
    ensures var r := WiresFrom(o, h, key, id, parts, i, draws); r.Ok? && |r.value| == |parts| - i
    decreases |parts| - i
  {
    if i < |parts| {
      WireFits(o, h, key, id, parts, i, draws);
      WiresOk(o, h, key, id, parts, i + 1, draws);
    }
  }

  lemma {:induction false} WireIs(o: Options, h: Hash, key: Key, id: u16, parts: seq<seq<byte>>, i: nat, draws: nat -> Draw, k: nat)
    requires o.Supported() && i <= k < |parts| && AllFit(o, parts)
    ensures var r := WiresFrom(o, h, key, id, parts, i, draws);
            r.Ok? && |r.value| == |parts| - i && WireFor(o, h, key, id, parts, k, draws, r.value[k - i])
    decreases |parts| - i
  {
    WiresOk(o, h, key, id, parts, i, draws);
    WireFits(o, h, key, id, parts, i, draws);
    if i < k {
      WireIs(o, h, key, id, parts, i + 1, draws, k);
    }
  }

  // With supported options a packet is refused only when fragments have no room
  // or it needs more than eight.
  lemma SendExactly(o: Options, h: Hash, key: Key, id: u16, packet: seq<byte>, draws: nat -> Draw)
    requires o.Supported()
    ensures Send(o, h, key, id, packet, draws).Ok? <==>
            o.maxFragment > OVERHEAD && |Cut(packet, o.maxFragment - OVERHEAD)| <= MAX_COUNT
  {
    if o.maxFragment > OVERHEAD {
      var parts := Cut(packet, o.maxFragment - OVERHEAD);
      FirstPartLargest(packet, o.maxFragment - OVERHEAD);
      WiresOk(o, h, key, id, parts, 0, draws);
    }
  }

  lemma {:induction false} WrittenWhole(o: Options, h: Hash, key: Key, id: u16, parts: seq<seq<byte>>, i: nat, draws: nat -> Draw)
    requires i <= |parts| && WiresFrom(o, h, key, id, parts, i, draws).Ok?
    ensures WrittenFrom(o, h, key, id, parts, i, draws) == WiresFrom(o, h, key, id, parts, i, draws).value
    decreases |parts| - i
  {
    if i < |parts| {
      WrittenWhole(o, h, key, id, parts, i + 1, draws);
    }
  }

  // With accepted options a packet is written whole or not at all.
  lemma WholeOrNothing(o: Options, h: Hash, key: Key, id: u16, packet: seq<byte>, draws: nat -> Draw)
    requires o.Supported()
    ensures var r := Send(o, h, key, id, packet, draws);
            Written(o, h, key, id, packet, draws) == if r.Ok? then r.value else []
  {
    SendExactly(o, h, key, id, packet, draws);
    if o.maxFragment > OVERHEAD {
      var parts := Cut(packet, o.maxFragment - OVERHEAD);
      if 2 <= |parts| <= MAX_COUNT {
        WrittenWhole(o, h, key, id, parts, 0, draws);
      }
    }
  }

  // Every fragment's wire size is within the configured bounds.
  lemma FragmentsFit(o: Options, h: Hash, key: Key, id: u16, packet: seq<byte>, draws: nat -> Draw, i: nat)
    requires o.Supported() && o.maxFragment > OVERHEAD
    requires var n := |Cut(packet, o.maxFragment - OVERHEAD)|; 2 <= n <= MAX_COUNT && i < n
    ensures var parts, r := Cut(packet, o.maxFragment - OVERHEAD), Send(o, h, key, id, packet, draws);
            r.Ok? && |r.value| == |parts| && WireFor(o, h, key, id, parts, i, draws, r.value[i])
  {
    var parts := Cut(packet, o.maxFragment - OVERHEAD);
    FirstPartLargest(packet, o.maxFragment - OVERHEAD);
    WireIs(o, h, key, id, parts, 0, draws, i);
  }

  // A receiver that recognises a fragment reads back its index, the count and
  // its part of the packet.
  lemma FragmentReadsBack(o: Options, h: Hash, keys: seq<Key>, key: Key, id: u16, packet: seq<byte>, draws: nat -> Draw, i: nat, room: nat)
    requires o.Supported() && o.maxFragment > OVERHEAD
    requires var n := |Cut(packet, o.maxFragment - OVERHEAD)|; 2 <= n <= MAX_COUNT && i < n
    requires var parts := Cut(packet, o.maxFragment - OVERHEAD);
             Recognised(h, keys, key, draws(i).salt, FragmentBody(o, id, i, |parts|, parts[i], draws(i)))
    ensures var parts, r := Cut(packet, o.maxFragment - OVERHEAD), Send(o, h, key, id, packet, draws);
            && r.Ok? && |r.value| == |parts| && Decode(h, keys, r.value[i], room).Part?
            && ParseFragment(o, Decode(h, keys, r.value[i], room).body) == Some(Fragment(id, i, |parts|, parts[i]))
  {
    var parts := Cut(packet, o.maxFragment - OVERHEAD);
    var body := FragmentBody(o, id, i, |parts|, parts[i], draws(i));
    FragmentsFit(o, h, key, id, packet, draws, i);
    FirstPartLargest(packet, o.maxFragment - OVERHEAD);
    PartNotEmpty(packet, o.maxFragment - OVERHEAD, i);
    ParseBody(o, id, i, |parts|, parts[i], draws(i));
    BodyKind(o, id, i, |parts|, parts[i], draws(i));
    OpenSealed(h, keys, key, draws(i).salt, body);
  }

  lemma BodyKind(o: Options, id: u16, index: nat, total: nat, payload: seq<byte>, draw: Draw)
    ensures var body := FragmentBody(o, id, index, total, payload, draw);
            |body| >= DATA_HEADER && body[0] == VERSION && body[1] == FRAGMENT
  {
    var head := FragmentHeader(id, index, total, |payload|, Padding(o, |payload|, draw.extra));
    assert head[0] == VERSION && head[1] == FRAGMENT;
  }
}
