/** Clause 22 management frames: the 32 bits after the preamble, as the
    capture path decodes them (src/mdioprobe_mdio_api.c) and as the bit-bang
    master puts them on the wire (section 22.2.4.5 of IEEE 802.3). */
module Clause22 {

  type Byte = b: int | 0 <= b < 0x100
  type Word = w: int | 0 <= w < 0x1_0000
  type Bit = b: int | 0 <= b < 2

  /** A decoded frame; `err` is 0, or -1 when the start bits are not 01. */
  datatype Frame = Frame(op: int, phy: int, reg: int, data: int, err: int)

  function Be32(rx: seq<Byte>): (w: int)
    requires |rx| == 4
    ensures 0 <= w < 0x1_0000_0000
  {
    var b0: int, b1: int, b2: int, b3: int := rx[0], rx[1], rx[2], rx[3];
    b0 * 0x100_0000 + b1 * 0x1_0000 + b2 * 0x100 + b3
  }

  function Decode(rx: seq<Byte>): Frame
    requires |rx| == 4
  {
    var frame := Be32(rx);
    var st := frame / 0x4000_0000 % 4;
    Frame(frame / 0x1000_0000 % 4, frame / 0x80_0000 % 32, frame / 0x4_0000 % 32,
          frame % 0x1_0000, if st == 1 then 0 else -1)
  }

  /** The windows the offset detector accepts, by their first two bytes: a read,
      0110xxxx, or a write, 0101xxxx, whose turnaround is the 10 its master has to
      drive. `PlausibleOnWord` says it of the word the source tests. */
  predicate Plausible(rx: seq<Byte>)
    requires |rx| == 4
  {
    0x60 <= rx[0] < 0x70 || (0x50 <= rx[0] < 0x60 && rx[1] % 4 == 2)
  }

  lemma PlausibleOnWord(rx: seq<Byte>)
    requires |rx| == 4
    ensures var frame := Be32(rx);
            var st, op, ta := frame / 0x4000_0000 % 4, frame / 0x1000_0000 % 4, frame / 0x1_0000 % 4;
            Plausible(rx) == (if st != 1 then false else if op == 1 then ta == 2 else op == 2)
  {
    var frame, b0: int, b1: int := Be32(rx), rx[0], rx[1];
    assert frame / 0x1_0000 == 256 * b0 + b1;
    assert frame / 0x100_0000 == b0;
    assert frame / 0x1000_0000 == b0 / 16;
    assert frame / 0x4000_0000 == b0 / 64;
    assert (256 * b0 + b1) % 4 == b1 % 4;
  }

  // ------------------------------------------------------------------
  // The other direction: fields to a word, a word to bytes and to bits.

  /** The 32-bit word section 22.2.4.5 of IEEE 802.3 draws. */
  function FrameWord(op: int, phy: int, reg: int, ta: int, data: int): (w: int)
    requires 0 <= op < 4 && 0 <= phy < 32 && 0 <= reg < 32 && 0 <= ta < 4 && 0 <= data < 0x1_0000
    ensures 0 <= w < 0x1_0000_0000
  {
    0x4000_0000 + op * 0x1000_0000 + phy * 0x80_0000 + reg * 0x4_0000 + ta * 0x1_0000 + data
  }

  lemma FrameWordFields(op: int, phy: int, reg: int, ta: int, data: int)
    requires 0 <= op < 4 && 0 <= phy < 32 && 0 <= reg < 32 && 0 <= ta < 4 && 0 <= data < 0x1_0000
    ensures var w := FrameWord(op, phy, reg, ta, data);
            && w / 0x4000_0000 % 4 == 1 && w / 0x1000_0000 % 4 == op && w / 0x80_0000 % 32 == phy
            && w / 0x4_0000 % 32 == reg && w / 0x1_0000 % 4 == ta && w % 0x1_0000 == data
  {
    var w := FrameWord(op, phy, reg, ta, data);
    assert w / 0x1_0000 == 0x4000 + op * 0x1000 + phy * 0x80 + reg * 4 + ta;
    assert w / 0x4_0000 == 0x1000 + op * 0x400 + phy * 0x20 + reg;
    assert w / 0x80_0000 == 0x80 + op * 0x20 + phy;
    assert w / 0x1000_0000 == 4 + op;
  }

  /** Decoding inverts the field layout, and the detector's test accepts exactly
      the reads and the writes whose turnaround is 10. */
  lemma DecodeFrameWord(rx: seq<Byte>, op: int, phy: int, reg: int, ta: int, data: int)
    requires 0 <= op < 4 && 0 <= phy < 32 && 0 <= reg < 32 && 0 <= ta < 4 && 0 <= data < 0x1_0000
    requires |rx| == 4 && Be32(rx) == FrameWord(op, phy, reg, ta, data)
    ensures Decode(rx) == Frame(op, phy, reg, data, 0)
    ensures Plausible(rx) <==> op == 2 || (op == 1 && ta == 2)
  {
    FrameWordFields(op, phy, reg, ta, data);
    PlausibleOnWord(rx);
  }

  /** A window the detector accepts decodes without an error mark. */
  lemma PlausibleDecodesClean(rx: seq<Byte>)
    requires |rx| == 4 && Plausible(rx)
    ensures Decode(rx).err == 0 && (Decode(rx).op == 1 || Decode(rx).op == 2)
  {
    PlausibleOnWord(rx);
  }

  /** The `n` low bits of `v`, most significant first. */
  function BitsOf(v: nat, n: nat): (bits: seq<Bit>)
    ensures |bits| == n
  {
    if n == 0 then [] else BitsOf(v / 2, n - 1) + [v % 2]
  }

  /** A bit string read as a number, first bit most significant. */
  function Pack(bits: seq<Bit>): nat {
    if bits == [] then 0 else 2 * Pack(bits[..|bits| - 1]) + bits[|bits| - 1]
  }

  function Pow2(n: nat): (p: nat)
    ensures p >= 1
  {
    if n == 0 then 1 else 2 * Pow2(n - 1)
  }

  /** `x` with `n` more bits shifted in below it, all zero. */
  function Shl(x: nat, n: nat): nat {
    if n == 0 then x else 2 * Shl(x, n - 1)
  }

  lemma {:induction false} PackAppend(a: seq<Bit>, b: seq<Bit>)
    ensures Pack(a + b) == Shl(Pack(a), |b|) + Pack(b)
  {
    if b == [] {
      assert a + b == a;
    } else {
      var b' := b[..|b| - 1];
      assert (a + b)[..|a + b| - 1] == a + b';
      PackAppend(a, b');
    }
  }

  lemma {:induction false} ShlByte(x: nat)
    ensures Shl(x, 8) == 256 * x
  {
    assert Shl(x, 1) == 2 * x;
    assert Shl(x, 2) == 4 * x;
    assert Shl(x, 4) == 16 * x;
    assert Shl(x, 6) == 64 * x;
  }

  lemma {:induction false} PackBitsOf(v: nat, n: nat)
    requires v < Pow2(n)
    ensures Pack(BitsOf(v, n)) == v
  {
    if n != 0 {
      PackBitsOf(v / 2, n - 1);
      assert BitsOf(v, n)[..n - 1] == BitsOf(v / 2, n - 1);
    }
  }

  lemma {:induction false} PackBelow(bits: seq<Bit>)
    ensures Pack(bits) < Pow2(|bits|)
  {
    if bits != [] {
      PackBelow(bits[..|bits| - 1]);
    }
  }

  /** What a slave shifting in eight bits at a time, MSB first, stores for a
      32-bit frame. */
  function ShiftIn(bits: seq<Bit>): (rx: seq<Byte>)
    requires |bits| == 32
    ensures |rx| == 4
  {
    PackBelow(bits[..8]); PackBelow(bits[8..16]); PackBelow(bits[16..24]); PackBelow(bits[24..]);
    assert Pow2(8) == 256;
    [Pack(bits[..8]), Pack(bits[8..16]), Pack(bits[16..24]), Pack(bits[24..])]
  }

  /** Byte by byte or all at once, the value is the same. */
  lemma ShiftInIsBigEndian(bits: seq<Bit>)
    requires |bits| == 32
    ensures Be32(ShiftIn(bits)) == Pack(bits)
  {
    var rx := ShiftIn(bits);
    assert bits[..8] + bits[8..16] == bits[..16];
    PackAppend(bits[..8], bits[8..16]); ShlByte(Pack(bits[..8]));
    assert Pack(bits[..16]) == 256 * rx[0] as int + rx[1] as int;
    assert bits[..16] + bits[16..24] == bits[..24];
    PackAppend(bits[..16], bits[16..24]); ShlByte(Pack(bits[..16]));
    assert Pack(bits[..24]) == 256 * Pack(bits[..16]) + rx[2] as int;
    assert bits[..24] + bits[24..] == bits;
    PackAppend(bits[..24], bits[24..]); ShlByte(Pack(bits[..24]));
  }
}
