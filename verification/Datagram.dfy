/** The AFDP/1 header carried in a QUIC DATAGRAM frame, and its codec. */
module Datagram {
  import opened Bytes

  const VERSION: byte := 1
  const HEADER_BYTES := 24
  const MAX_PAYLOAD := 0xFFFF
  const MAX_FRAGMENTS := 1024

  const FLAG_FRAGMENTED: byte := 1
  const FLAG_FIN: byte := 2

  datatype Error = InvalidVersion | MalformedFrame | FrameTooLarge | Transient | MtuTooSmall

  datatype Header = Header(flags: byte, flowID: u64, sequence: u32, index: u16, count: u16)

  // flags & DatagramFlagFragmented != 0
  predicate Fragmented(flags: byte) { flags % 2 == 1 }

  // flags & DatagramFlagFin != 0
  predicate Fin(flags: byte) { flags / 2 % 2 == 1 }

  // flags &^ (DatagramFlagFragmented | DatagramFlagFin) != 0
  predicate HasUnknownFlags(flags: byte) { flags / 4 != 0 }

  // The error cases of the header check, in the order in which they are tried.
  function HeaderError(h: Header): (e: Option<Error>) {
    if h.flowID == 0 then Some(MalformedFrame)
    else if h.count == 0 then Some(MalformedFrame)
    else if h.count == 1 && h.index != 0 then Some(MalformedFrame)
    else if h.index >= h.count then Some(MalformedFrame)
    else if h.count > MAX_FRAGMENTS then Some(FrameTooLarge)
    else if h.count == 1 && Fragmented(h.flags) then Some(MalformedFrame)
    else if h.count > 1 && !Fragmented(h.flags) then Some(MalformedFrame)
    else if HasUnknownFlags(h.flags) then Some(MalformedFrame)
    else if h.index == h.count - 1 && !Fin(h.flags) then Some(MalformedFrame)
    else if h.index != h.count - 1 && Fin(h.flags) then Some(MalformedFrame)
    else None
  }

  // The only flag octet that goes with a given position in a message.
  function FlagsFor(index: nat, count: nat): byte {
    (if count > 1 then FLAG_FRAGMENTED else 0) + (if index + 1 == count then FLAG_FIN else 0)
  }

  lemma AcceptedHeaders(h: Header)
    ensures HeaderError(h).None? <==>
            h.flowID != 0 && h.index < h.count <= MAX_FRAGMENTS && h.flags == FlagsFor(h.index, h.count)
  {
  }

  function PayloadLimit(maxPayload: int): (limit: nat)
    ensures limit <= MAX_PAYLOAD
  {
    if maxPayload <= 0 || maxPayload > MAX_PAYLOAD then MAX_PAYLOAD else maxPayload
  }

  // The 24 header octets; octets 22 and 23 are reserved and stay zero.
  function HeaderBytes(h: Header, payloadLength: u16): (s: seq<byte>)
    ensures |s| == HEADER_BYTES
  {
    [VERSION, h.flags] + Store16(HEADER_BYTES) + Store64(h.flowID) + Store32(h.sequence)
    + Store16(h.index) + Store16(h.count) + Store16(payloadLength) + [0, 0]
  }

  function Frame(h: Header, payload: seq<byte>): (wire: seq<byte>)
    requires |payload| <= MAX_PAYLOAD
    ensures |wire| == HEADER_BYTES + |payload|
  {
    HeaderBytes(h, |payload|) + payload
  }

  function Encode(h: Header, payload: seq<byte>, maxPayload: int): Result<seq<byte>, Error> {
    if HeaderError(h).Some? then Err(HeaderError(h).value)
    else if |payload| > PayloadLimit(maxPayload) then Err(FrameTooLarge)
    else Ok(Frame(h, payload))
  }

  function Decode(data: seq<byte>, maxPayload: int): Result<(Header, seq<byte>), Error> {
    if |data| < HEADER_BYTES then Err(MalformedFrame)
    else if data[0] != VERSION then Err(InvalidVersion)
    else if Load16(data[2..4]) != HEADER_BYTES || Load16(data[22..24]) != 0 then Err(MalformedFrame)
    else if Load16(data[20..22]) != |data| - HEADER_BYTES then Err(MalformedFrame)
    else
      var h := HeaderOf(data);
      if HeaderError(h).Some? then Err(HeaderError(h).value)
      else if Load16(data[20..22]) > PayloadLimit(maxPayload) then Err(FrameTooLarge)
      else Ok((h, data[HEADER_BYTES..]))
  }

  function HeaderOf(data: seq<byte>): Header
    requires |data| >= HEADER_BYTES
  {
    Header(data[1], Load64(data[4..12]), Load32(data[12..16]), Load16(data[16..18]), Load16(data[18..20]))
  }

  lemma Fields(a: seq<byte>, b: seq<byte>, c: seq<byte>, d: seq<byte>, e: seq<byte>, f: seq<byte>,
               g: seq<byte>, z: seq<byte>, p: seq<byte>)
    requires |a| == 2 && |b| == 2 && |c| == 8 && |d| == 4 && |e| == 2 && |f| == 2 && |g| == 2 && |z| == 2
    ensures var s := a + b + c + d + e + f + g + z + p;
            && s[..2] == a && s[2..4] == b && s[4..12] == c && s[12..16] == d && s[16..18] == e
            && s[18..20] == f && s[20..22] == g && s[22..24] == z && s[24..] == p
  {
  }

  ghost predicate HasFields(d: seq<byte>, h: Header, payload: seq<byte>)
    requires |d| >= HEADER_BYTES && |payload| <= MAX_PAYLOAD
  {
    && d[..2] == [VERSION, h.flags]
    && d[2..4] == Store16(HEADER_BYTES)
    && d[4..12] == Store64(h.flowID)
    && d[12..16] == Store32(h.sequence)
    && d[16..18] == Store16(h.index)
    && d[18..20] == Store16(h.count)
    && d[20..22] == Store16(|payload|)
    && d[22..24] == [0, 0]
    && d[24..] == payload
  }

  lemma FrameFields(h: Header, payload: seq<byte>)
    requires |payload| <= MAX_PAYLOAD
    ensures HasFields(Frame(h, payload), h, payload)
  {
    Fields([VERSION, h.flags], Store16(HEADER_BYTES), Store64(h.flowID), Store32(h.sequence),
           Store16(h.index), Store16(h.count), Store16(|payload|), [0, 0], payload);
  }

  lemma FieldsFrame(d: seq<byte>, h: Header, payload: seq<byte>)
    requires |d| >= HEADER_BYTES && |payload| <= MAX_PAYLOAD && HasFields(d, h, payload)
    ensures d == Frame(h, payload)
  {
    assert d == d[..2] + d[2..4] + d[4..12] + d[12..16] + d[16..18] + d[18..20] + d[20..22] + d[22..24] + d[24..];
  }

  // Decoding what was encoded gives back the header and the payload.
  lemma {:induction false} DecodeAfterEncode(h: Header, payload: seq<byte>, maxPayload: int)
    requires Encode(h, payload, maxPayload).Ok?
    ensures Decode(Encode(h, payload, maxPayload).value, maxPayload) == Ok((h, payload))
  {
    FrameFields(h, payload);
    var wire := Frame(h, payload);
    assert wire[0] == wire[..2][0] && wire[1] == wire[..2][1];
    LoadStored64(h.flowID);
    LoadStored32(h.sequence);
    LoadStored16(h.index);
    LoadStored16(h.count);
    LoadStored16(|payload|);
  }

  // Every accepted octet string is the unique encoding of what it decodes to.
  lemma {:induction false} EncodeAfterDecode(data: seq<byte>, maxPayload: int)
    requires Decode(data, maxPayload).Ok?
    ensures var (h, payload) := Decode(data, maxPayload).value; Encode(h, payload, maxPayload) == Ok(data)
  {
    var (h, payload) := Decode(data, maxPayload).value;
    StoreLoaded16(data[2..4]);
    StoreLoaded64(data[4..12]);
    StoreLoaded32(data[12..16]);
    StoreLoaded16(data[16..18]);
    StoreLoaded16(data[18..20]);
    StoreLoaded16(data[20..22]);
    FieldsFrame(data, h, payload);
  }

  // What can be encoded: a message with a flow, a part within a count of at most
  // 1024, flags 1 for fragmented and 2 for last, and a payload within the limit.
  lemma EncodeExactly(h: Header, payload: seq<byte>, maxPayload: int)
    ensures Encode(h, payload, maxPayload).Ok? <==>
            && h.flowID != 0 && h.index < h.count <= 1024
            && h.flags == (if h.count > 1 then 1 else 0) + (if h.index + 1 == h.count then 2 else 0)
            && |payload| <= (if 0 < maxPayload <= 65535 then maxPayload else 65535)
  {
    AcceptedHeaders(h);
  }

  // Writes the header into a zeroed buffer, field by field, as the source does.
  method PutHeader(wire: array<byte>, h: Header, payloadLength: u16)
    requires wire.Length >= HEADER_BYTES
    requires wire[22] == 0 && wire[23] == 0
    modifies wire
    ensures wire[..HEADER_BYTES] == HeaderBytes(h, payloadLength)
  {
    wire[0] := VERSION;
    wire[1] := h.flags;
    CopyInto(wire, 2, Store16(HEADER_BYTES));
    CopyInto(wire, 4, Store64(h.flowID));
    CopyInto(wire, 12, Store32(h.sequence));
    CopyInto(wire, 16, Store16(h.index));
    CopyInto(wire, 18, Store16(h.count));
    CopyInto(wire, 20, Store16(payloadLength));
    assert wire[..HEADER_BYTES] == wire[..22] + [0, 0];
  }

  method EncodeDatagram(h: Header, payload: seq<byte>, maxPayload: int) returns (r: Result<seq<byte>, Error>)
    ensures r == Encode(h, payload, maxPayload)
  {
    if HeaderError(h).Some? {
      return Err(HeaderError(h).value);
    }
    if |payload| > PayloadLimit(maxPayload) {
      return Err(FrameTooLarge);
    }
    var wire := new byte[HEADER_BYTES + |payload|](_ => 0);
    PutHeader(wire, h, |payload|);
    CopyInto(wire, HEADER_BYTES, payload);
    assert wire[..] == wire[..HEADER_BYTES + |payload|];
    r := Ok(wire[..]);
  }
}
