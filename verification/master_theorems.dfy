/** What a frame of the bit-bang master means to whoever else is on the wire: the
    capture path, and targets that answer in the ways the source describes. */
module MasterTheorems {
  import opened Clause22
  import opened Master

  // ---- bits, fields and the word -------------------------------------------

  lemma {:induction false} ShlSmall(x: nat)
    ensures Shl(x, 2) == 4 * x && Shl(x, 5) == 32 * x && Pow2(2) == 4 && Pow2(5) == 32
  {
    assert Shl(x, 1) == 2 * x;
    assert Shl(x, 2) == 4 * x;
    assert Shl(x, 4) == 16 * x;
  }

  lemma {:induction false} ShlWord(x: nat)
    ensures Shl(x, 16) == 0x1_0000 * x && Pow2(16) == 0x1_0000
  {
    ShlByte(x);
    assert Shl(x, 10) == 4 * Shl(x, 8);
    assert Shl(x, 12) == 4 * Shl(x, 10);
    assert Shl(x, 14) == 4 * Shl(x, 12);
    Pow2Mono(16, 16);
  }

  /** Start, operation and the two addresses. */
  lemma PackFour(a: seq<Bit>, b: seq<Bit>, c: seq<Bit>, d: seq<Bit>)
    requires |b| == 2 && |c| == 5 && |d| == 5
    ensures Pack(a + b + c + d) == 4096 * Pack(a) + 1024 * Pack(b) + 32 * Pack(c) + Pack(d)
  {
    PackAppend(a, b); ShlSmall(Pack(a));
    PackAppend(a + b, c); ShlSmall(Pack(a + b));
    PackAppend(a + b + c, d); ShlSmall(Pack(a + b + c));
  }

  /** The header, the turnaround and the data. */
  lemma PackThree(h: seq<Bit>, t: seq<Bit>, d: seq<Bit>)
    requires |t| == 2 && |d| == 16
    ensures Pack(h + t + d) == 0x4_0000 * Pack(h) + 0x1_0000 * Pack(t) + Pack(d)
  {
    PackAppend(h, t); ShlSmall(Pack(h));
    PackAppend(h + t, d); ShlWord(Pack(h + t));
  }

  /** The header without its preamble. */
  function Fields(op: int, phy: int, reg: int): (s: seq<Bit>)
    requires 0 <= op < 4 && 0 <= phy < 32 && 0 <= reg < 32
    ensures |s| == 14
  {
    BitsOf(1, 2) + BitsOf(op, 2) + BitsOf(phy, 5) + BitsOf(reg, 5)
  }

  lemma PackHeader(op: nat, phy: nat, reg: nat)
    requires op < 4 && phy < 32 && reg < 32
    ensures Pack(Fields(op, phy, reg)) == 4096 + op * 1024 + phy * 32 + reg
  {
    ShlSmall(0);
    PackBitsOf(1, 2); PackBitsOf(op, 2); PackBitsOf(phy, 5); PackBitsOf(reg, 5);
    PackFour(BitsOf(1, 2), BitsOf(op, 2), BitsOf(phy, 5), BitsOf(reg, 5));
  }

  lemma AfterPreamble(op: nat, phy: nat, reg: nat, rest: seq<Bit>)
    requires op < 4 && phy < 32 && reg < 32
    ensures (Header(op, phy, reg) + rest)[32..] == Fields(op, phy, reg) + rest
    ensures (Header(op, phy, reg) + rest)[..32] == Ones(32)
  {
  }

  /** A frame's 32 bits, shifted in, are the word of its fields. */
  lemma ShiftedInIsTheFrame(op: nat, phy: nat, reg: nat, t: seq<Bit>, d: seq<Bit>)
    requires op < 4 && phy < 32 && reg < 32 && |t| == 2 && |d| == 16
    ensures Pack(t) < 4 && Pack(d) < 0x1_0000
    ensures Be32(ShiftIn(Fields(op, phy, reg) + t + d)) == FrameWord(op, phy, reg, Pack(t), Pack(d))
  {
    PackBelow(t); PackBelow(d); ShlSmall(0); ShlWord(0);
    ShiftInIsBigEndian(Fields(op, phy, reg) + t + d);
    PackThree(Fields(op, phy, reg), t, d);
    PackHeader(op, phy, reg);
  }

  /** So the capture path accepts and decodes any frame of this master. */
  lemma FrameDecodes(op: nat, phy: nat, reg: nat, t: seq<Bit>, d: seq<Bit>)
    requires phy < 32 && reg < 32 && |t| == 2 && |d| == 16 && (op == 2 || (op == 1 && Pack(t) == 2))
    ensures var rx := ShiftIn(Fields(op, phy, reg) + t + d);
            Plausible(rx) && Decode(rx) == Frame(op, phy, reg, Pack(d), 0)
  {
    ShiftedInIsTheFrame(op, phy, reg, t, d);
    DecodeFrameWord(ShiftIn(Fields(op, phy, reg) + t + d), op, phy, reg, Pack(t), Pack(d));
  }

  /** Frame round trip: what `WriteFrame` clocks out, shifted in after the preamble,
      passes the capture path's window test and decodes to the same write. */
  lemma WriteRoundTrip(phy: nat, reg: nat, data: Word)
    requires phy < 32 && reg < 32
    ensures var wire := Header(1, phy, reg) + BitsOf(2, 2) + BitsOf(data, 16);
            && |wire| == 64 && wire[..32] == Ones(32)
            && Plausible(ShiftIn(wire[32..]))
            && Decode(ShiftIn(wire[32..])) == Frame(1, phy, reg, data, 0)
  {
    var t, d := BitsOf(2, 2), BitsOf(data, 16);
    AfterPreamble(1, phy, reg, t + d);
    assert Header(1, phy, reg) + t + d == Header(1, phy, reg) + (t + d);
    assert Fields(1, phy, reg) + t + d == Fields(1, phy, reg) + (t + d);
    ShlSmall(0); ShlWord(0);
    PackBitsOf(2, 2); PackBitsOf(data, 16);
    FrameDecodes(1, phy, reg, t, d);
  }

  // ---- a read, as the capture path sees it ------------------------------------

  /** What is on the line at the rising edges of clocks after `base` others, where the
      probe's pad contributes `pads`. */
  function Heard(pads: seq<Bit>, rise: nat -> Bit, base: nat): (s: seq<Bit>)
    ensures |s| == |pads|
  {
    seq(|pads|, k requires 0 <= k < |pads| => if pads[k] == 0 then 0 else rise(base + k + 1))
  }

  /** The target leaves the line alone until the last address bit. */
  predicate QuietHeader(rise: nat -> Bit, base: nat) {
    forall n :: base + 33 <= n <= base + 46 ==> rise(n) == 1
  }

  lemma HeardRead(rise: nat -> Bit, base: nat, phy: nat, reg: nat)
    requires phy < 32 && reg < 32 && QuietHeader(rise, base)
    ensures Heard(Header(2, phy, reg) + Ones(18), rise, base)[32..]
            == Fields(2, phy, reg) + Sampled(rise, base + 47, 18)
  {
    var pads := Header(2, phy, reg) + Ones(18);
    AfterPreamble(2, phy, reg, Ones(18));
    var rx, fs := Heard(pads, rise, base)[32..], Fields(2, phy, reg) + Sampled(rise, base + 47, 18);
    forall k | 0 <= k < 32
      ensures rx[k] == fs[k]
    {
      assert pads[32..][k] == pads[32 + k];
    }
  }

  /** The line does not change between the end of clock `n` and the rising edge of the
      next: a target lets go of a bit, or puts the next one out, just after that edge. */
  predicate HeldOver(rise: nat -> Bit, high: nat -> Bit, n: nat) {
    rise(n + 1) == high(n)
  }

  /** The probe's own capture of a read is a read of the same register, with the levels
      at the rising edges of clocks 49 to 64 for its data. That is the value the master
      returns exactly if the target holds each of its bits over to the next rising edge. */
  lemma ReadSeenByCapture(rise: nat -> Bit, high: nat -> Bit, base: nat, phy: nat, reg: nat, strict: bool)
    requires phy < 32 && reg < 32 && QuietHeader(rise, base)
    ensures var rx := ShiftIn(Heard(Header(2, phy, reg) + Ones(18), rise, base)[32..]);
            && Plausible(rx)
            && Decode(rx) == Frame(2, phy, reg, Pack(Sampled(rise, base + 49, 16)), 0)
            && (Decode(rx).data == ReadOutcome(high, base, strict).1
                <==> forall n :: base + 48 <= n <= base + 63 ==> HeldOver(rise, high, n))
  {
    var tail := Sampled(rise, base + 47, 18);
    HeardRead(rise, base, phy, reg);
    assert Fields(2, phy, reg) + tail[..2] + tail[2..] == Fields(2, phy, reg) + tail;
    assert tail[2..] == Sampled(rise, base + 49, 16);
    FrameDecodes(2, phy, reg, tail[..2], tail[2..]);
    SameSamples(rise, high, base);
  }

  lemma SameSamples(rise: nat -> Bit, high: nat -> Bit, base: nat)
    ensures Pack(Sampled(rise, base + 49, 16)) == Pack(Sampled(high, base + 48, 16))
            <==> forall n :: base + 48 <= n <= base + 63 ==> HeldOver(rise, high, n)
  {
    var late, early := Sampled(rise, base + 49, 16), Sampled(high, base + 48, 16);
    if Pack(late) == Pack(early) {
      PackInjective(late, early);
    }
    assert late == early ==> forall n :: base + 48 <= n <= base + 63 ==> HeldOver(rise, high, n) by {
      if late == early {
        forall n | base + 48 <= n <= base + 63
          ensures HeldOver(rise, high, n)
        {
          assert late[n - base - 48] == early[n - base - 48];
        }
      }
    }
    if forall n :: base + 48 <= n <= base + 63 ==> HeldOver(rise, high, n) {
      forall k | 0 <= k < 16
        ensures late[k] == early[k]
      {
        assert HeldOver(rise, high, base + 48 + k);
      }
      assert late == early;
    }
  }

  lemma {:induction false} PackInjective(a: seq<Bit>, b: seq<Bit>)
    requires |a| == |b| && Pack(a) == Pack(b)
    ensures a == b
  {
    if a != [] {
      var m := |a| - 1;
      PackInjective(a[..m], b[..m]);
      assert a == a[..m] + [a[m]] && b == b[..m] + [b[m]];
    }
  }

  lemma {:induction false} ShlOfBit(b: Bit, n: nat)
    ensures Shl(b, n) == if b == 1 then Pow2(n) else 0
  {
    if n > 0 {
      ShlOfBit(b, n - 1);
    }
  }

  // ---- targets ------------------------------------------------------------------

  /** Register `d` on the line from clock `first` of the frame on. */
  predicate Drives(line: nat -> Bit, base: nat, first: nat, d: Word) {
    Sampled(line, base + first, 16) == BitsOf(d, 16)
  }

  lemma DrivenValue(line: nat -> Bit, base: nat, first: nat, d: Word)
    requires Drives(line, base, first, d)
    ensures Pack(Sampled(line, base + first, 16)) == d
  {
    ShlWord(0);
    PackBitsOf(d, 16);
  }

  /** The parts the source describes as met: data from clock 48, with or without the
      acknowledgement. With it the read is right whatever the mode; without it strict
      mode refuses every value, and relaxed mode only all ones. */
  lemma EarlyPart(line: nat -> Bit, base: nat, d: Word, strict: bool)
    requires Drives(line, base, 48, d)
    ensures ReadOutcome(line, base, strict)
            == (if line(base + 47) == 0 || (!strict && d != 0xFFFF) then Rc.Ok else Eio, d)
  {
    DrivenValue(line, base, 48, d);
  }

  lemma {:induction false} AllOnes(n: nat)
    ensures BitsOf(Pow2(n) - 1, n) == Ones(n)
  {
    if n > 0 {
      AllOnes(n - 1);
      assert (Pow2(n) - 1) / 2 == Pow2(n - 1) - 1;
    }
  }

  /** A bus with nobody on it is reported as such in either mode. */
  lemma SilentBus(line: nat -> Bit, base: nat, strict: bool)
    requires forall k :: base + 47 <= k <= base + 63 ==> line(k) == 1
    ensures ReadOutcome(line, base, strict) == (Eio, 0xFFFF)
  {
    assert Sampled(line, base + 48, 16) == Ones(16);
    AllOnes(16);
    Pow2Mono(16, 16);
    EarlyPart(line, base, 0xFFFF, strict);
  }

  /** A part that follows the drawing, acknowledging at clock 48 with data from 49: it
      is refused in strict mode, and in relaxed mode every value comes back halved. */
  lemma DatasheetPart(line: nat -> Bit, base: nat, d: Word, strict: bool)
    requires line(base + 47) == 1 && line(base + 48) == 0 && Drives(line, base, 49, d)
    ensures ReadOutcome(line, base, strict) == (if strict then Eio else Rc.Ok, d / 2)
  {
    var early, late := Sampled(line, base + 48, 16), Sampled(line, base + 49, 16);
    assert early == [0] + late[..15];
    PackAppend([0], late[..15]);
    ShlOfBit(0, 15);
    DrivenValue(line, base, 49, d);
    assert late[..|late| - 1] == late[..15];
    assert Pack(late) == 2 * Pack(late[..15]) + late[15];
    PackBelow(late[..15]);
    Pow2Mono(16, 16);
    assert Pow2(16) == 2 * Pow2(15);
  }
}
