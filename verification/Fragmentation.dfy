/** Cutting one payload into datagrams. */
module Fragmentation {
  import opened Bytes
  import opened Datagram
  import opened Reassembly

  // A payload cut into parts of the given size; the last part is what remains,
  // and an empty payload is one empty part.
  function Cut(payload: seq<byte>, size: nat): (parts: seq<seq<byte>>)
    requires size > 0
    ensures |parts| > 0
  {
    if |payload| <= size then [payload] else [payload[..size]] + Cut(payload[size..], size)
  }

  function Flatten(parts: seq<seq<byte>>): seq<byte> {
    if parts == [] then [] else parts[0] + Flatten(parts[1..])
  }

  datatype Message = Message(flowID: u64, sequence: u32, payload: seq<byte>, mtu: int) {
    function Parts(): (parts: seq<seq<byte>>)
      requires mtu > HEADER_BYTES
      ensures |parts| > 0
    {
      Cut(payload, mtu - HEADER_BYTES)
    }
  }

  function HeaderAt(m: Message, i: nat, count: nat): Header
    requires i < count <= MAX_FRAGMENTS
  {
    Header(FlagsFor(i, count), m.flowID, m.sequence, i, count)
  }

  // The frames of parts[i..], or the first encoding error.
  function FramesFrom(m: Message, parts: seq<seq<byte>>, i: nat): Result<seq<seq<byte>>, Error>
    requires i <= |parts| <= MAX_FRAGMENTS
    decreases |parts| - i
  {
    if i == |parts| then Ok([])
    else
      var frame := Encode(HeaderAt(m, i, |parts|), parts[i], m.mtu - HEADER_BYTES);
      if frame.Err? then Err(frame.error)
      else
        var rest := FramesFrom(m, parts, i + 1);
        if rest.Err? then rest else Ok([frame.value] + rest.value)
  }

  function Fragments(m: Message): Result<seq<seq<byte>>, Error> {
    if m.flowID == 0 then Err(MalformedFrame)
    else if m.mtu <= HEADER_BYTES then Err(MtuTooSmall)
    else if |m.Parts()| > MAX_FRAGMENTS then Err(FrameTooLarge)
    else FramesFrom(m, m.Parts(), 0)
  }

  // ---------- the index arithmetic of the source ----------

  // Length over size, rounded up, and at least one.
  function PartCount(length: nat, size: nat): (count: nat)
    requires size > 0
    ensures count > 0
  {
    var count := (length + size - 1) / size;
    if count == 0 then 1 else count
  }

  lemma PartCountStep(length: nat, size: nat)
    requires 0 < size < length
    ensures PartCount(length, size) == 1 + PartCount(length - size, size)
  {
    var n := length + size - 1;
    QuotientShift(n, size);
    QuotientPositive(length - size + size - 1, size);
  }

  lemma QuotientShift(n: nat, size: nat)
    requires 0 < size <= n
    ensures n / size == 1 + (n - size) / size
  {
    var q, r := (n - size) / size, (n - size) % size;
    assert n == size * (q + 1) + r;
    QuotientUnique(n, size, q + 1, r);
  }

  lemma QuotientUnique(n: nat, size: nat, q: int, r: int)
    requires size > 0 && 0 <= r < size && n == size * q + r
    ensures n / size == q
  {
    var p, s := n / size, n % size;
    assert n == size * p + s;
    assert size * (q - p) == s - r;
    SmallMultiple(size, q - p);
  }

  lemma SmallMultiple(size: int, d: int)
    requires 0 < size && -size < size * d < size
    ensures d == 0
  {
    Magnitude(size, d);
  }

  lemma Magnitude(size: int, d: int)
    requires 0 < size
    ensures d >= 1 ==> size * d >= size
    ensures d <= -1 ==> size * d <= -size
  {
    if d >= 0 {
      MultipleAtLeast(size, d);
    } else {
      MultipleAtLeast(size, -d);
      assert size * -d == -(size * d);
    }
  }

  lemma {:induction false} MultipleAtLeast(size: nat, d: nat)
    ensures d > 0 ==> size * d >= size
  {
    if d > 1 {
      MultipleAtLeast(size, d - 1);
      assert size * d == size * (d - 1) + size;
    }
  }

  lemma QuotientPositive(n: nat, size: nat)
    requires 0 < size <= n
    ensures n / size > 0
  {
    QuotientShift(n, size);
  }

  lemma PartCountSmall(length: nat, size: nat)
    requires length <= size && size > 0
    ensures PartCount(length, size) == 1
  {
    if length > 0 {
      QuotientUnique(length + size - 1, size, 1, length - 1);
    } else {
      QuotientUnique(size - 1, size, 0, size - 1);
    }
  }

  // The division and the products of the source describe exactly the cut.
  lemma {:induction false} CutCount(payload: seq<byte>, size: nat)
    requires size > 0
    ensures |Cut(payload, size)| == PartCount(|payload|, size)
  {
    if |payload| <= size {
      PartCountSmall(|payload|, size);
    } else {
      CutCount(payload[size..], size);
      PartCountStep(|payload|, size);
    }
  }

  lemma {:induction false} CutPart(payload: seq<byte>, size: nat, i: nat, start: int, end: int)
    requires size > 0 && i < |Cut(payload, size)|
    requires start == i * size
    requires end == if start + size > |payload| then |payload| else start + size
    ensures 0 <= start <= end <= |payload| && Cut(payload, size)[i] == payload[start..end]
  {
    if i > 0 {
      assert start == (i - 1) * size + size;
      CutPart(payload[size..], size, i - 1, start - size, end - size);
    }
  }

  // The loop of the source: the count by division, each part by its offsets.
  method FragmentsLoop(m: Message) returns (r: Result<seq<seq<byte>>, Error>)
    ensures r == Fragments(m)
  {
    if m.flowID == 0 {
      return Err(MalformedFrame);
    }
    if m.mtu <= HEADER_BYTES {
      return Err(MtuTooSmall);
    }
    var partSize := m.mtu - HEADER_BYTES;
    var count := PartCount(|m.payload|, partSize);
    ghost var parts := m.Parts();
    CutCount(m.payload, partSize);
    if count > MAX_FRAGMENTS {
      return Err(FrameTooLarge);
    }
    var result: seq<seq<byte>> := [];
    ghost var all := FramesFrom(m, parts, 0);
    ghost var rest := all;
    assert all.Ok? ==> result + rest.value == all.value;
    for index := 0 to count
      invariant rest == FramesFrom(m, parts, index)
      invariant all.Ok? <==> rest.Ok?
      invariant all.Ok? ==> all.value == result + rest.value
      invariant all.Err? ==> all == rest
    {
      var start := index * partSize;
      var end := if start + partSize > |m.payload| then |m.payload| else start + partSize;
      CutPart(m.payload, partSize, index, start, end);
      var frame := EncodeDatagram(HeaderAt(m, index, count), m.payload[start..end], partSize);
      if frame.Err? {
        return Err(frame.error);
      }
      result := result + [frame.value];
      rest := FramesFrom(m, parts, index + 1);
    }
    assert rest == Ok([]) && result + [] == result;
    r := Ok(result);
  }

  // ---------- when cutting succeeds, and what each frame is ----------

  predicate Cuttable(m: Message) {
    m.flowID != 0 && m.mtu > HEADER_BYTES && |m.Parts()| <= MAX_FRAGMENTS && |m.Parts()[0]| <= MAX_PAYLOAD
  }

  lemma {:induction false} FirstPartLargest(payload: seq<byte>, size: nat)
    requires size > 0
    ensures forall i: nat :: i < |Cut(payload, size)| ==> |Cut(payload, size)[i]| <= |Cut(payload, size)[0]| <= size
  {
    if |payload| > size {
      FirstPartLargest(payload[size..], size);
    }
  }

  ghost predicate FramesAre(m: Message, parts: seq<seq<byte>>, frames: seq<seq<byte>>, from: nat)
    requires from + |frames| == |parts| <= MAX_FRAGMENTS
  {
    forall k: nat :: k < |frames| ==>
                       |parts[from + k]| <= MAX_PAYLOAD
                       && frames[k] == Frame(HeaderAt(m, from + k, |parts|), parts[from + k])
  }

  lemma {:induction false} FramesFromIs(m: Message, parts: seq<seq<byte>>, i: nat)
    requires i <= |parts| <= MAX_FRAGMENTS && m.flowID != 0
    requires forall k: nat :: k < |parts| ==> |parts[k]| <= PayloadLimit(m.mtu - HEADER_BYTES)
    ensures var r := FramesFrom(m, parts, i);
            r.Ok? && |r.value| == |parts| - i && FramesAre(m, parts, r.value, i)
    decreases |parts| - i
  {
    if i < |parts| {
      FramesFromIs(m, parts, i + 1);
      AcceptedHeaders(HeaderAt(m, i, |parts|));
      var r, rest := FramesFrom(m, parts, i), FramesFrom(m, parts, i + 1);
      forall k: nat | 0 < k < |parts| - i
        ensures r.value[k] == Frame(HeaderAt(m, i + k, |parts|), parts[i + k])
      {
        assert r.value[k] == rest.value[k - 1];
        assert i + k == i + 1 + (k - 1);
      }
    }
  }

  // Cutting fails exactly on a zero flow, an MTU without room for payload, more
  // than 1024 parts, or a part too long for the 16-bit length field.
  lemma FragmentsExactly(m: Message)
    ensures Fragments(m).Ok? <==> Cuttable(m)
    ensures Cuttable(m) ==>
              |Fragments(m).value| == |m.Parts()| && FramesAre(m, m.Parts(), Fragments(m).value, 0)
  {
    if m.flowID != 0 && m.mtu > HEADER_BYTES && |m.Parts()| <= MAX_FRAGMENTS {
      FirstPartLargest(m.payload, m.mtu - HEADER_BYTES);
      if |m.Parts()[0]| <= MAX_PAYLOAD {
        FramesFromIs(m, m.Parts(), 0);
      } else {
        assert Encode(HeaderAt(m, 0, |m.Parts()|), m.Parts()[0], m.mtu - HEADER_BYTES).Err?;
      }
    }
  }

  // Each frame decodes to its header and its part of the payload.
  lemma FragmentDecodes(m: Message, i: nat, maxPayload: int)
    requires Cuttable(m) && i < |m.Parts()| && 0 < maxPayload <= MAX_PAYLOAD && |m.Parts()[0]| <= maxPayload
    ensures Fragments(m).Ok? && i < |Fragments(m).value|
    ensures Decode(Fragments(m).value[i], maxPayload) == Ok((HeaderAt(m, i, |m.Parts()|), m.Parts()[i]))
  {
    FragmentsExactly(m);
    FirstPartLargest(m.payload, m.mtu - HEADER_BYTES);
    var h, p := HeaderAt(m, i, |m.Parts()|), m.Parts()[i];
    AcceptedHeaders(h);
    assert Fragments(m).value[i] == Frame(HeaderAt(m, 0 + i, |m.Parts()|), m.Parts()[0 + i]);
    DecodeAfterEncode(h, p, maxPayload);
  }

  // ---------- the parts, in index order, are the payload ----------

  lemma {:induction false} CutFlattens(payload: seq<byte>, size: nat)
    requires size > 0
    ensures Flatten(Cut(payload, size)) == payload
  {
    if |payload| > size {
      CutFlattens(payload[size..], size);
      assert Cut(payload, size)[1..] == Cut(payload[size..], size);
    } else {
      assert Cut(payload, size)[1..] == [];
    }
  }

  lemma {:induction false} FlattenAppend(parts: seq<seq<byte>>, last: seq<byte>)
    ensures Flatten(parts + [last]) == Flatten(parts) + last
  {
    if parts == [] {
      assert (parts + [last])[1..] == [];
    } else {
      FlattenAppend(parts[1..], last);
      assert (parts + [last])[1..] == parts[1..] + [last];
    }
  }

  lemma {:induction false} JoinFlattens(stored: map<nat, seq<byte>>, parts: seq<seq<byte>>, n: nat)
    requires n <= |parts|
    requires forall i: nat :: i < n ==> i in stored && stored[i] == parts[i]
    ensures Join(stored, n) == Flatten(parts[..n])
  {
    if n > 0 {
      JoinFlattens(stored, parts, n - 1);
      FlattenAppend(parts[..n - 1], parts[n - 1]);
      assert parts[..n] == parts[..n - 1] + [parts[n - 1]];
    }
  }

  lemma PartsJoin(m: Message, stored: map<nat, seq<byte>>)
    requires m.mtu > HEADER_BYTES
    requires forall i: nat :: i < |m.Parts()| ==> i in stored && stored[i] == m.Parts()[i]
    ensures Join(stored, |m.Parts()|) == m.payload
  {
    JoinFlattens(stored, m.Parts(), |m.Parts()|);
    assert m.Parts()[..|m.Parts()|] == m.Parts();
    CutFlattens(m.payload, m.mtu - HEADER_BYTES);
  }
}
