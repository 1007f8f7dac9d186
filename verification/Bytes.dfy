/** Octets, fixed-width unsigned integers and their big-endian encoding. */
module Bytes {
  type byte = x: int | 0 <= x < 0x100
  type u16 = x: int | 0 <= x < 0x1_0000
  type u32 = x: int | 0 <= x < 0x1_0000_0000
  type u64 = x: int | 0 <= x < 0x1_0000_0000_0000_0000

  datatype Option<+T> = None | Some(value: T)

  datatype Result<+T, +E> = Ok(value: T) | Err(error: E)

  function Store16(v: u16): (s: seq<byte>)
    ensures |s| == 2
  {
    [v / 0x100, v % 0x100]
  }

  function Store32(v: u32): (s: seq<byte>)
    ensures |s| == 4
  {
    Store16(v / 0x1_0000) + Store16(v % 0x1_0000)
  }

  function Store64(v: u64): (s: seq<byte>)
    ensures |s| == 8
  {
    Store32(v / 0x1_0000_0000) + Store32(v % 0x1_0000_0000)
  }

  function Load16(s: seq<byte>): u16
    requires |s| == 2
  {
    var high: int := s[0];
    0x100 * high + s[1]
  }

  function Load32(s: seq<byte>): u32
    requires |s| == 4
  {
    0x1_0000 * Load16(s[..2]) + Load16(s[2..])
  }

  function Load64(s: seq<byte>): u64
    requires |s| == 8
  {
    0x1_0000_0000 * Load32(s[..4]) + Load32(s[4..])
  }

  lemma LoadStored16(v: u16)
    ensures Load16(Store16(v)) == v
  {
  }

  lemma LoadStored32(v: u32)
    ensures Load32(Store32(v)) == v
  {
    var s := Store32(v);
    assert s[..2] == Store16(v / 0x1_0000) && s[2..] == Store16(v % 0x1_0000);
  }

  lemma LoadStored64(v: u64)
    ensures Load64(Store64(v)) == v
  {
    var s := Store64(v);
    assert s[..4] == Store32(v / 0x1_0000_0000) && s[4..] == Store32(v % 0x1_0000_0000);
    LoadStored32(v / 0x1_0000_0000);
    LoadStored32(v % 0x1_0000_0000);
  }

  lemma StoreLoaded16(s: seq<byte>)
    requires |s| == 2
    ensures Store16(Load16(s)) == s
  {
  }

  lemma StoreLoaded32(s: seq<byte>)
    requires |s| == 4
    ensures Store32(Load32(s)) == s
  {
    StoreLoaded16(s[..2]);
    StoreLoaded16(s[2..]);
    assert s == s[..2] + s[2..];
  }

  lemma StoreLoaded64(s: seq<byte>)
    requires |s| == 8
    ensures Store64(Load64(s)) == s
  {
    StoreLoaded32(s[..4]);
    StoreLoaded32(s[4..]);
    var high, low := Load32(s[..4]), Load32(s[4..]);
    assert Load64(s) / 0x1_0000_0000 == high && Load64(s) % 0x1_0000_0000 == low;
    assert s == s[..4] + s[4..];
  }

  // Copies src over dst[at..at+|src|] and leaves the rest alone.
  method CopyInto(dst: array<byte>, at: nat, src: seq<byte>)
    requires at + |src| <= dst.Length
    modifies dst
    ensures dst[..at + |src|] == old(dst[..at]) + src
    ensures forall i :: at + |src| <= i < dst.Length ==> dst[i] == old(dst[i])
  {
    for k := 0 to |src|
      invariant dst[..at + k] == old(dst[..at]) + src[..k]
      invariant forall i :: at + k <= i < dst.Length ==> dst[i] == old(dst[i])
    {
      dst[at + k] := src[k];
    }
  }
}
