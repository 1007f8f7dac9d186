/** The camouflage layer's keystream and its authenticator. The hash is left
    open: any function that gives 32-octet blocks and 8-octet tags. */
module Mask {
  import opened Bytes

  const BLOCK_BYTES := 32
  const TAG_BYTES := 8

  type Block = s: seq<byte> | |s| == BLOCK_BYTES witness seq(BLOCK_BYTES, _ => 0)
  type Tag = s: seq<byte> | |s| == TAG_BYTES witness seq(TAG_BYTES, _ => 0)
  type Key = seq<byte>

  datatype Hash = Hash(block: (Key, seq<byte>, u32) -> Block, tag: (Key, seq<byte>, seq<byte>) -> Tag)

  // ---------- exclusive or ----------

  // Bit by bit, from the lowest.
  function Xor(a: nat, b: nat): nat
    decreases a + b
  {
    if a == 0 && b == 0 then 0 else XorBit(a % 2, b % 2) + 2 * Xor(a / 2, b / 2)
  }

  function XorBit(a: nat, b: nat): nat { if a == b then 0 else 1 }

  lemma {:induction false} XorBelow(a: nat, b: nat, bits: nat)
    requires a < Power(bits) && b < Power(bits)
    ensures Xor(a, b) < Power(bits)
  {
    if bits > 0 && (a != 0 || b != 0) {
      XorBelow(a / 2, b / 2, bits - 1);
    }
  }

  function Power(bits: nat): nat {
    if bits == 0 then 1 else 2 * Power(bits - 1)
  }

  lemma {:induction false} XorParts(a: nat, b: nat)
    ensures Xor(a, b) / 2 == Xor(a / 2, b / 2)
    ensures Xor(a, b) % 2 == XorBit(a % 2, b % 2)
  {
    Halves(XorBit(a % 2, b % 2), Xor(a / 2, b / 2));
  }

  lemma Halves(low: nat, high: nat)
    requires low < 2
    ensures (low + 2 * high) / 2 == high && (low + 2 * high) % 2 == low
  {
  }

  lemma {:induction false} XorTwice(a: nat, b: nat)
    ensures Xor(Xor(a, b), b) == a
    decreases a + b
  {
    if a != 0 || b != 0 {
      XorTwice(a / 2, b / 2);
      XorParts(a, b);
      XorParts(Xor(a, b), b);
      Halves(a % 2, a / 2);
    }
  }

  // The bit of n with weight two to the k.
  predicate BitAt(n: nat, k: nat) { if k == 0 then n % 2 == 1 else BitAt(n / 2, k - 1) }

  lemma {:induction false} ZeroHasNoBits(k: nat)
    ensures !BitAt(0, k)
  {
    if k > 0 {
      ZeroHasNoBits(k - 1);
    }
  }

  // A bit of the exclusive or is set exactly if the two bits differ.
  lemma {:induction false} XorBitwise(a: nat, b: nat, k: nat)
    ensures BitAt(Xor(a, b), k) <==> BitAt(a, k) != BitAt(b, k)
    decreases k
  {
    if a == 0 && b == 0 {
      ZeroHasNoBits(k);
    } else {
      XorParts(a, b);
      if k > 0 {
        XorBitwise(a / 2, b / 2, k - 1);
      }
    }
  }

  lemma PowerEight()
    ensures Power(8) == 0x100
  {
    assert Power(4) == 16;
  }

  function XorByte(a: byte, b: byte): (r: byte)
    ensures r == Xor(a, b) && Xor(r, b) == a
  {
    PowerEight();
    XorBelow(a, b, 8);
    XorTwice(a, b);
    Xor(a, b)
  }

  // ---------- the keystream ----------

  function KeyStream(h: Hash, key: Key, salt: seq<byte>, i: nat): byte {
    h.block(key, salt, i / BLOCK_BYTES % 0x1_0000_0000)[i % BLOCK_BYTES]
  }

  function Masked(h: Hash, key: Key, salt: seq<byte>, data: seq<byte>): (r: seq<byte>)
    ensures |r| == |data| && forall i :: 0 <= i < |data| ==> r[i] == XorByte(data[i], KeyStream(h, key, salt, i))
  {
    seq(|data|, i requires 0 <= i < |data| => XorByte(data[i], KeyStream(h, key, salt, i)))
  }

  // Masking undoes itself.
  lemma MaskTwice(h: Hash, key: Key, salt: seq<byte>, data: seq<byte>)
    ensures Masked(h, key, salt, Masked(h, key, salt, data)) == data
  {
    var once := Masked(h, key, salt, data);
    var twice := Masked(h, key, salt, once);
    forall i | 0 <= i < |data| ensures twice[i] == data[i] {
      assert once[i] == XorByte(data[i], KeyStream(h, key, salt, i));
    }
  }

  // Masking flips exactly the bits that are set in the keystream: octet i is
  // masked with octet i % 32 of block i / 32.
  lemma MaskedBitwise(h: Hash, key: Key, salt: seq<byte>, data: seq<byte>, i: nat, k: nat)
    requires i < |data| && i / 32 < 0x1_0000_0000
    ensures BitAt(Masked(h, key, salt, data)[i], k) <==> BitAt(data[i], k) != BitAt(h.block(key, salt, i / 32)[i % 32], k)
  {
    XorBitwise(data[i], KeyStream(h, key, salt, i), k);
  }

  lemma KeyStreamAt(h: Hash, key: Key, salt: seq<byte>, counter: nat, i: nat)
    requires i < BLOCK_BYTES
    ensures KeyStream(h, key, salt, BLOCK_BYTES * counter + i) == h.block(key, salt, counter % 0x1_0000_0000)[i]
  {
  }

  // Masks data[lo..hi] in place, block by block.
  method MaskInPlace(h: Hash, key: Key, salt: seq<byte>, data: array<byte>, lo: nat, hi: nat)
    requires lo <= hi <= data.Length
    modifies data
    ensures data[..] == old(data[..lo]) + Masked(h, key, salt, old(data[lo..hi])) + old(data[hi..])
  {
    ghost var was := data[..];
    var offset, counter: nat := 0, 0;
    while offset < hi - lo
      invariant offset == BLOCK_BYTES * counter
      invariant forall i :: 0 <= i < data.Length ==>
        data[i] == if lo <= i < hi && i - lo < offset then XorByte(was[i], KeyStream(h, key, salt, i - lo)) else was[i]
    {
      var block := h.block(key, salt, counter % 0x1_0000_0000);
      var i := 0;
      while i < BLOCK_BYTES && offset + i < hi - lo
        invariant 0 <= i <= BLOCK_BYTES && offset + i <= hi - lo + BLOCK_BYTES
        invariant forall j :: 0 <= j < data.Length ==>
          data[j] == if lo <= j < hi && j - lo < offset + i then XorByte(was[j], KeyStream(h, key, salt, j - lo)) else was[j]
      {
        KeyStreamAt(h, key, salt, counter, i);
        data[lo + offset + i] := XorByte(data[lo + offset + i], block[i]);
        i := i + 1;
      }
      offset, counter := offset + BLOCK_BYTES, counter + 1;
    }
    ghost var masked := Masked(h, key, salt, was[lo..hi]);
    assert data[..] == was[..lo] + masked + was[hi..];
  }
}
