/** The bit-bang Clause 22 master (src/mdioprobe_mdio_master.c): what its pin writes
    put on the wire. Time is not modelled here, only order: a half-period wait does
    nothing to the pins. */
module Master {
  import opened Clause22

  datatype Rc = Ok | Eio

  /** `n` released bits. */
  function Ones(n: nat): (s: seq<Bit>)
    ensures |s| == n && forall k :: 0 <= k < n ==> s[k] == 1
  {
    seq(n, _ => 1)
  }

  /** The preamble and the 14 bits every frame starts with. */
  function Header(op: int, phy: int, reg: int): (s: seq<Bit>)
    requires 0 <= op < 4 && 0 <= phy < 32 && 0 <= reg < 32
    ensures |s| == 46
  {
    Ones(32) + BitsOf(1, 2) + BitsOf(op, 2) + BitsOf(phy, 5) + BitsOf(reg, 5)
  }

  /** The source's right shift. */
  function Shr(v: nat, i: nat): nat {
    if i == 0 then v else Shr(v, i - 1) / 2
  }

  lemma MoreOnes(a: nat, b: nat)
    ensures Ones(a) + Ones(b) == Ones(a + b)
  {
  }

  lemma Regrouped(p: seq<Bit>, a: seq<Bit>, b: seq<Bit>, c: seq<Bit>, d: seq<Bit>)
    ensures p + (a + b) + (c + d) == p + a + b + c + d
  {
  }

  /** The master's pins, the buffer MDC goes out through, and the line. The target, or
      the pull-up, gives the line two levels a clock: `rise` at the rising edge of the
      n-th clock since reset, where the capture path samples, and `high` at the end of
      its high half, where the master reads its comparator. */
  class Pins {
    const rise: nat -> Bit
    const high: nat -> Bit
    var mdc: bool
    var odr: Bit
    var output: bool            // MDIO drives the pad; else it is in analog mode
    var lent: bool              // MDIO's pad, PB8, is in the alternate function of a serial driver
    var enabled: bool           // MDC_EN: the buffer passes MDC on to the connector
    var count: nat              // rising edges of MDC so far
    var wire: seq<Bit>          // what the probe put on MDIO at each one the buffer let out
    ghost var steady: bool      // MDIO's pad has only ever changed with MDC low

    constructor (rise: nat -> Bit, high: nat -> Bit, lent: bool)
      ensures this.rise == rise && this.high == high && this.lent == lent
      ensures Idle() && !enabled && count == 0 && wire == [] && steady
    {
      this.rise, this.high, this.lent := rise, high, lent;
      mdc, odr, output, enabled, count, wire, steady := false, 0, false, false, 0, [], true;
    }

    /** What the open-drain pad contributes: 0 pulls the line low. */
    function Pad(): Bit
      reads this
    {
      if output then odr else 1
    }

    /** MDC low and MDIO let go, as every frame finds and leaves them. */
    predicate Idle()
      reads this
    {
      !mdc && !output
    }

    method MdcSet(level: bool)
      modifies this
      ensures mdc == level && odr == old(odr) && output == old(output) && steady == old(steady)
      ensures enabled == old(enabled) && lent == old(lent)
      ensures count == if level && !old(mdc) then old(count) + 1 else old(count)
      ensures wire == if level && !old(mdc) && enabled then old(wire) + [Pad()] else old(wire)
    {
      if level && !mdc {
        count := count + 1;
        if enabled {
          wire := wire + [Pad()];
        }
      }
      mdc := level;
    }

    /** Nothing has been clocked, inside or outside. */
    twostate predicate NoEdge()
      reads this
    {
      mdc == old(mdc) && count == old(count) && wire == old(wire)
    }

    method MdioDrive(level: Bit)
      modifies this
      ensures odr == level && output == old(output) && enabled == old(enabled) && NoEdge()
      ensures lent == old(lent)
      ensures steady == (old(steady) && (old(mdc) ==> Pad() == old(Pad())))
    {
      ghost var was := Pad();
      odr := level;
      steady := steady && (mdc ==> Pad() == was);
    }

    /** mdio_pin_transmit: released first, then driving. It and `HighZ` set the pad's mode
        and so take it from whatever driver has it. */
    method Transmit()
      modifies this
      ensures odr == 1 && output && !lent && enabled == old(enabled) && NoEdge()
      ensures steady == (old(steady) && (old(mdc) ==> old(Pad()) == 1))
    {
      ghost var was := Pad();
      odr := 1;
      output, lent := true, false;
      steady := steady && (mdc ==> Pad() == was);
    }

    method HighZ()
      modifies this
      ensures !output && !lent && odr == old(odr) && enabled == old(enabled) && NoEdge()
      ensures steady == (old(steady) && (old(mdc) ==> old(Pad()) == 1))
    {
      ghost var was := Pad();
      output, lent := false, false;
      steady := steady && (mdc ==> Pad() == was);
    }

    /** pinctrl gives the pad to a serial driver. */
    method Lend()
      requires Idle()
      modifies this`lent
      ensures lent
    {
      lent := true;
    }

    /** mdioprobe_mdc_buffer_enable; with MDC low it makes no edge. */
    method BufferEnable(on: bool)
      requires !mdc
      modifies this`enabled
      ensures enabled == on
    {
      enabled := on;
    }

    method Sense() returns (v: Bit)
      ensures v == if Pad() == 0 then 0 else high(count)
    {
      v := if Pad() == 0 then 0 else high(count);
    }

    /** Between two quiet moments the pins went back to where they were, MDIO moved
        only with MDC low, there was a clock for each of `bits`, and those went out on
        the wire exactly if the buffer was on. */
    twostate predicate Ran(bits: seq<Bit>)
      reads this
    {
      && !mdc && output == old(output) && steady == old(steady) && Emitted(bits)
    }

    /** And the pad is whose it was. */
    twostate predicate Clocked(bits: seq<Bit>)
      reads this
    {
      Ran(bits) && lent == old(lent)
    }

    /** And the master has taken the pad. */
    twostate predicate Taken(bits: seq<Bit>)
      reads this
    {
      Ran(bits) && !lent
    }

    twostate predicate Emitted(bits: seq<Bit>)
      reads this
    {
      && enabled == old(enabled) && count == old(count) + |bits|
      && wire == old(wire) + if enabled then bits else []
    }

    /** In analog mode the pad does not listen to the data register. */
    method WriteBit(bit: Bit)
      requires !mdc
      modifies this
      ensures Clocked([if output then bit else 1])
    {
      MdioDrive(bit);
      MdcSet(true);
      MdcSet(false);
    }

    method ReadBit() returns (v: Bit)
      requires Idle()
      modifies this
      ensures Clocked([1]) && v == high(count)
    {
      MdcSet(true);
      v := Sense();
      MdcSet(false);
    }

    method WriteBits(value: nat, nbits: nat)
      requires !mdc
      modifies this
      ensures Clocked(if output then BitsOf(value, nbits) else Ones(nbits))
    {
      var i := nbits;
      while i > 0
        invariant 0 <= i <= nbits
        invariant Clocked(if output then BitsOf(Shr(value, i), nbits - i) else Ones(nbits - i))
      {
        i := i - 1;
        WriteBit(Shr(value, i) % 2);
      }
    }

    method SendPreamble()
      requires Idle()
      modifies this
      ensures !mdc && output && !lent && steady == old(steady) && Emitted(Ones(32))
    {
      Transmit();
      for i := 0 to 32
        invariant !mdc && output && !lent && steady == old(steady) && Emitted(Ones(i))
      {
        WriteBit(1);
      }
    }

    /** Two fields in a row. */
    method WritePair(a: nat, m: nat, b: nat, n: nat)
      requires !mdc && output
      modifies this
      ensures Clocked(BitsOf(a, m) + BitsOf(b, n))
    {
      WriteBits(a, m);
      WriteBits(b, n);
    }

    /** What both directions start with. */
    method SendHeader(op: nat, prtad: nat, regad: nat)
      requires Idle() && op < 4
      modifies this
      ensures !mdc && output && !lent && steady == old(steady) && Emitted(Header(op, prtad % 32, regad % 32))
    {
      SendPreamble();
      WritePair(1, 2, op, 2);
      WritePair(prtad % 32, 5, regad % 32, 5);
      Regrouped(Ones(32), BitsOf(1, 2), BitsOf(op, 2), BitsOf(prtad % 32, 5), BitsOf(regad % 32, 5));
    }

    /** transact_frame, writing: 64 clocks, MDIO let go at the end, and always 0. */
    method WriteFrame(prtad: nat, regad: nat, data: Word) returns (rc: Rc)
      requires Idle()
      modifies this
      ensures Taken(Header(1, prtad % 32, regad % 32) + BitsOf(2, 2) + BitsOf(data, 16))
      ensures Idle() && rc == Rc.Ok
    {
      SendHeader(1, prtad, regad);
      WriteBits(2, 2);
      WriteBits(data, 16);
      MdioDrive(1);
      MdcSet(false);
      HighZ();
      return Rc.Ok;
    }

    /** Clocks 48 to 63 of a read. */
    method ReadWord() returns (v: Word)
      requires Idle()
      modifies this
      ensures Clocked(Ones(16)) && Idle()
      ensures v == Pack(Sampled(high, old(count) + 1, 16))
    {
      v := 0;
      for i := 0 to 16
        invariant Clocked(Ones(i)) && Idle()
        invariant v == Pack(Sampled(high, old(count) + 1, i))
      {
        var b := ReadBit();
        ShiftedWord(high, old(count) + 1, i);
        v := (2 * v + b) % 0x1_0000;
      }
    }

    /** transact_frame, reading: the acknowledgement is looked for at clock 47, the
        data taken at clocks 48 to 63, and clock 64 given without looking. */
    method ReadFrame(prtad: nat, regad: nat, strict: bool) returns (rc: Rc, data: Word)
      requires Idle()
      modifies this
      ensures Taken(Header(2, prtad % 32, regad % 32) + Ones(18))
      ensures Idle() && (rc, data) == ReadOutcome(high, old(count), strict)
    {
      SendHeader(2, prtad, regad);
      HighZ();
      var ack := ReadBit();
      var claimed := ack == 0;
      data := ReadWord();
      var _ := ReadBit();
      assert [1] + Ones(16) + [1] == Ones(18);
      rc := if !claimed && (strict || data == 0xFFFF) then Eio else Rc.Ok;
      MdcSet(false);
      HighZ();
    }
  }

  /** The levels at `n` clocks from the given one. */
  function Sampled(line: nat -> Bit, first: nat, n: nat): (s: seq<Bit>)
    ensures |s| == n
  {
    seq(n, k requires 0 <= k => line(first + k))
  }

  lemma ShiftedWord(line: nat -> Bit, first: nat, n: nat)
    requires n < 16
    ensures Pack(Sampled(line, first, n + 1)) == 2 * Pack(Sampled(line, first, n)) + line(first + n)
    ensures Pack(Sampled(line, first, n + 1)) < Pow2(n + 1) <= 0x1_0000
  {
    var s := Sampled(line, first, n + 1);
    assert s[..n] == Sampled(line, first, n);
    PackBelow(s);
    Pow2Mono(n + 1, 16);
  }

  lemma {:induction false} Pow2Mono(a: nat, b: nat)
    requires a <= b
    ensures Pow2(a) <= Pow2(b) && Pow2(16) == 0x1_0000
  {
    if a < b {
      Pow2Mono(a, b - 1);
    }
    assert Pow2(4) == 16;
    assert Pow2(8) == 256;
    assert Pow2(12) == 4096;
  }

  /** What a read frame whose first clock follows `base` others returns. */
  function ReadOutcome(line: nat -> Bit, base: nat, strict: bool): (Rc, Word) {
    PackBelow(Sampled(line, base + 48, 16));
    Pow2Mono(16, 16);
    var v := Pack(Sampled(line, base + 48, 16));
    (if line(base + 47) != 0 && (strict || v == 0xFFFF) then Eio else Rc.Ok, v)
  }
}
