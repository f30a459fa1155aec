/** How the master sets and trims its clock (src/mdioprobe_mdio_master.c). Timing the
    bit loop is an arbitrary function of the spin and the number of bits; all that is
    known of it is a floor and a resolution. */
module MdcClock {
  import opened Arithmetic
  import Master

  /** The rates the knob accepts, and the one it starts with, in kHz. */
  const MIN_KHZ := 10
  const MAX_KHZ := 2500
  const DFL_KHZ := 1500

  /** The core clock. */
  const CORE_HZ := 170_000_000
  const CORE_KHZ := 170_000

  /** The half-periods, in core cycles, of the fastest and the slowest rate. */
  const MIN_HALF := 34
  const MAX_HALF := 8500

  /** The two spins a calibration times, and the denominator of the line it fits. */
  const LO_SPIN := 8
  const HI_SPIN := 128
  const LINE_DEN := 1920

  /** Core cycles a measurement may keep interrupts locked. */
  const WINDOW := 17000

  datatype Rc = Ok | Einval

  /** Core cycles a half-period should last at 170 MHz. */
  function Want(khz: nat): (w: nat)
    requires MIN_KHZ <= khz <= MAX_KHZ
    ensures MIN_HALF <= w <= MAX_HALF
  {
    WantBounds(khz);
    CORE_HZ / (2000 * khz)
  }

  lemma WantBounds(khz: nat)
    requires MIN_KHZ <= khz <= MAX_KHZ
    ensures MIN_HALF <= CORE_HZ / (2000 * khz) <= MAX_HALF
  {
    QuotientAtLeast(CORE_HZ, 2000 * khz, MIN_HALF);
    QuotientAtLeast(CORE_HZ, 2000 * khz, MAX_HALF + 1);
  }

  /** C's division: toward zero. */
  function Quot(n: int, d: int): int
    requires d != 0
  {
    if n >= 0 then n / d else -(-n / d)
  }

  lemma QuotNegative(n: int, d: int)
    requires n < 0 < d
    ensures Quot(n, d) <= 0
  {
  }

  function MeasureBits(half: nat): (bits: nat)
    ensures 1 <= bits <= 32
  {
    if half == 0 then 32
    else
      var bits := WINDOW / (2 * half);
      if bits < 1 then 1 else if bits > 32 then 32 else bits
  }

  /** As many bits are timed as fit the window with their two half-periods each, but one at
      least and 32 at most. */
  lemma MostThatFit(half: nat, n: nat)
    requires 1 <= n <= 32
    ensures n <= MeasureBits(half) <==> n == 1 || n * (2 * half) <= WINDOW
  {
    if half > 0 {
      QuotientAtLeast(WINDOW, 2 * half, n);
    }
  }

  /** What is measured for any spin lies in [spin + o, spin + o + g) cycles. */
  ghost predicate Resolves(q4: (nat, nat) -> nat, o: nat, g: nat) {
    forall spin: nat, bits: nat :: 16 * (spin + o) <= q4(spin, bits) < 16 * (spin + o + g)
  }

  /** A spin the line puts at or below the wanted half-period, bounded by the line's
      lower point and its slope. */
  lemma OnTheLine(half: nat, num: int, off: int, want: int, floor: nat, step: nat, lo: int)
    requires half > LO_SPIN && half * num <= (want - off) * LINE_DEN && LINE_DEN - 16 * step < num && step <= 12
    requires -LINE_DEN < off * LINE_DEN + LO_SPIN * num - lo * (LINE_DEN / 16) && lo >= 16 * (LO_SPIN + floor)
    ensures (half - LO_SPIN) * (LINE_DEN - 16 * step) < LINE_DEN * (want - floor - LO_SPIN + 1)
  {
    var more := half - LO_SPIN;
    Apart8(more, num);
    Wider(LINE_DEN - 16 * step, num, more);
  }

  lemma Apart8(more: nat, num: int)
    ensures (more + LO_SPIN) * num == more * num + LO_SPIN * num
  {
  }

  lemma Wider(a: int, b: int, n: nat)
    requires a <= b
    ensures n * a <= n * b
  {
  }

  lemma NinthLonger(more: nat, x: int, step: nat)
    requires step <= 12 && more * (LINE_DEN - 16 * step) < LINE_DEN * x
    ensures 9 * more < 10 * x
  {
    Wider(LINE_DEN - 16 * 12, LINE_DEN - 16 * step, more);
  }

  class Clock {
    const q4: (nat, nat) -> nat      // how long the bit loop takes, in sixteenths of a cycle
    const pins: Master.Pins
    ghost const floor: nat           // what a timing adds to its spin, and how finely
    ghost const step: nat            // it resolves, in cycles
    var khz: nat
    var half: nat
    var offset: int
    var slopeNum: int
    var slopeDen: int
    var initialised: bool

    constructor (q4: (nat, nat) -> nat, pins: Master.Pins, ghost floor: nat, ghost step: nat)
      requires Resolves(q4, floor, step) && step <= 12
      ensures Valid() && this.q4 == q4 && this.pins == pins && !initialised && khz == DFL_KHZ
    {
      this.q4, this.pins, this.floor, this.step := q4, pins, floor, step;
      khz, half, offset, slopeNum, slopeDen, initialised := DFL_KHZ, 0, 0, 0, 1, false;
    }

    predicate InRange()
      reads this
    {
      MIN_KHZ <= khz <= MAX_KHZ && slopeDen > 0
    }

    ghost predicate Valid()
      reads this
    {
      InRange() && Resolves(q4, floor, step) && step <= 12 && (initialised ==> Fitted())
    }

    /** The line fitted to two measured spins: as steep as the resolution lets it be, and
        within a cycle of both of them. */
    ghost predicate Fitted()
      reads this
    {
      var lo, hi := q4(LO_SPIN, 32), q4(HI_SPIN, 32);
      && slopeDen == LINE_DEN && LINE_DEN - 16 * step < slopeNum < LINE_DEN + 16 * step
      && -LINE_DEN < offset * LINE_DEN + LO_SPIN * slopeNum - lo * (LINE_DEN / 16) < LINE_DEN
      && -LINE_DEN < offset * LINE_DEN + HI_SPIN * slopeNum - hi * (LINE_DEN / 16) < LINE_DEN
    }

    /** The half-period is not much longer than was wanted: over it by less than the
        resolution when the trim had to add to it; else its spin is what the line gives,
        and that is the 8 it starts from or bounded by the line's slope and the floor. */
    ghost predicate CloseEnough()
      requires InRange()
      reads this
    {
      || Measured() < 16 * (Want(khz) + step)
      || half <= LO_SPIN
      || (half - LO_SPIN) * (LINE_DEN - 16 * step) < LINE_DEN * (Want(khz) - floor - LO_SPIN + 1)
    }

    /** The half-period now measured, in sixteenths of a cycle. */
    ghost function Measured(): nat
      reads this
    {
      q4(half, MeasureBits(half))
    }

    /** time_bit_loop_q4: the real bit loop, MDIO in analog mode, whoever had the pad. Its
        clocks go out on the wire exactly if the buffer is on; the source does not look. */
    method TimeBitLoop(spin: nat, bits: nat) returns (q: nat)
      requires pins.Idle()
      modifies pins
      ensures q == q4(spin, bits) && pins.Taken(Master.Ones(bits))
    {
      pins.HighZ();
      pins.WriteBits(0xAAAA_AAAA, bits);
      q := q4(spin, bits);
    }

    /** The line fitted to two spins passes within a cycle of both; it is left unset when
        the measurements make no sense, which they do on a loop that resolves. */
    method Calibrate()
      requires InRange() && pins.Idle()
      modifies this`offset, this`slopeNum, this`slopeDen, pins
      ensures InRange() && pins.Taken(Master.Ones(64))
      ensures var lo, hi := q4(LO_SPIN, 32), q4(HI_SPIN, 32);
              && (slopeNum <= 0 <==> lo == 0 || hi <= lo)
              && (slopeNum > 0 ==>
                    && -slopeDen < offset * slopeDen + LO_SPIN * slopeNum - lo * (slopeDen / 16) < slopeDen
                    && -slopeDen < offset * slopeDen + HI_SPIN * slopeNum - hi * (slopeDen / 16) < slopeDen)
      ensures Resolves(q4, floor, step) && step <= 12 ==> Fitted()
    {
      var lo := TimeBitLoop(LO_SPIN, 32);
      var hi := TimeBitLoop(HI_SPIN, 32);
      Master.MoreOnes(32, 32);
      if lo <= 0 || hi <= lo {
        slopeNum := 0;
        return;
      }
      slopeNum := hi - lo;
      slopeDen := HI_SPIN - LO_SPIN;
      var offsetQ4 := lo - Quot(LO_SPIN * slopeNum, slopeDen);
      offset := Quot(offsetQ4, 16);
      slopeDen := slopeDen * 16;
    }

    /** The longest spin the fitted line puts at or below the wanted half-period. */
    method Apply()
      requires InRange()
      modifies this`half
      ensures slopeNum <= 0 ==> half == Want(khz)
      ensures slopeNum > 0 ==>
                && (Want(khz) - offset) * slopeDen < (half + 1) * slopeNum
                && (half > 0 ==> half * slopeNum <= (Want(khz) - offset) * slopeDen)
    {
      var want := Want(khz);
      if slopeNum <= 0 {
        half := want;
        return;
      }
      var n := (want - offset) * slopeDen;
      var spin := Quot(n, slopeNum);
      half := if spin > 0 then spin else 0;
      if n >= 0 {
        OneMore(half, slopeNum);
      } else {
        QuotNegative(n, slopeNum);
      }
    }

    /** Twelve rounds are enough when a measurement resolves to twelve cycles: the loop
        ends at or above the wanted half-period and, when it added anything, less than
        the resolution above it. It never shortens. `timed` bits were clocked. */
    method Trim() returns (ghost timed: nat)
      requires Valid() && pins.Idle()
      modifies this`half, pins
      ensures half >= old(half)
      ensures slopeNum <= 0 ==> half == old(half)
      ensures slopeNum > 0 ==> Measured() >= 16 * Want(khz)
      ensures half > old(half) ==> Measured() < 16 * (Want(khz) + step)
      ensures old(Measured()) >= 16 * Want(khz) ==> half == old(half)
      ensures pins.Ran(Master.Ones(timed)) && (timed > 0 <==> slopeNum > 0)
      ensures pins.lent == (old(pins.lent) && timed == 0)
    {
      timed := 0;
      var want := Want(khz);
      if slopeNum <= 0 {
        return;
      }
      for i := 0 to 12
        invariant half >= old(half)
        invariant i > 0 ==> half > old(half) && timed > 0
        invariant half > old(half) ==> half + floor <= want && old(Measured()) < 16 * want
        invariant i > 0 ==> half + floor >= want - step + i
        invariant pins.Ran(Master.Ones(timed)) && pins.lent == (old(pins.lent) && timed == 0)
      {
        var bits := MeasureBits(half);
        var got := TimeBitLoop(half, bits);
        Master.MoreOnes(timed, bits);
        timed := timed + bits;
        if got >= want * 16 {
          return;
        }
        var short := (want * 16 - got + 15) / 16;
        half := half + short;
      }
    }

    /** What `Apply` left, when the trim finds nothing to add. */
    lemma AppliedIsClose()
      requires InRange() && Resolves(q4, floor, step) && step <= 12 && Fitted()
      requires half > 0 ==> half * slopeNum <= (Want(khz) - offset) * slopeDen
      ensures CloseEnough()
    {
      if half > LO_SPIN {
        OnTheLine(half, slopeNum, offset, Want(khz), floor, step, q4(LO_SPIN, 32));
      }
    }

    /** In plain figures: a delivered half-period is less than a ninth and 13 cycles longer
        than wanted, or shorter than the loop makes at a spin of 8. */
    lemma CloseInFigures()
      requires Valid() && CloseEnough()
      ensures 9 * Measured() < 16 * (10 * Want(khz) + 9 * 13) || Measured() < 16 * (LO_SPIN + floor + step)
    {
      assert Measured() < 16 * (half + floor + step);
      if half > LO_SPIN && Measured() >= 16 * (Want(khz) + step) {
        NinthLonger(half - LO_SPIN, Want(khz) - floor - LO_SPIN + 1, step);
      }
    }

    /** The half-period is at least what 2500 kHz needs, the limit section 22.2.2.11 of
        IEEE 802.3 sets, whatever rate was asked for. */
    ghost predicate WithinSpec()
      reads this
    {
      Measured() >= 16 * MIN_HALF
    }

    /** A refusal changes nothing. Timing puts clocks on the wire if and only if the call
        is let through, the master is set up, its calibration made sense and the buffer
        is on: nothing keeps it from doing so. Timed or not is also what decides whether
        a serial driver keeps the pad. */
    method SetClock(want: nat) returns (rc: Rc, ghost timed: nat)
      requires Valid() && pins.Idle()
      modifies this`khz, this`half, pins
      ensures Valid() && pins.Ran(Master.Ones(timed)) && pins.lent == (old(pins.lent) && timed == 0)
      ensures rc == Rc.Ok <==> MIN_KHZ <= want <= MAX_KHZ
      ensures rc == Einval ==> khz == old(khz) && half == old(half)
      ensures rc == Rc.Ok ==> khz == want
      ensures rc == Rc.Ok && initialised ==> Measured() >= 16 * Want(khz) && WithinSpec() && CloseEnough()
      ensures rc == Rc.Ok && !initialised && slopeNum <= 0 ==> half == Want(khz)
      ensures timed > 0 <==> rc == Rc.Ok && initialised && slopeNum > 0
      ensures pins.wire == old(pins.wire) <==> rc == Einval || !initialised || slopeNum <= 0 || !pins.enabled
    {
      timed := 0;
      if want < MIN_KHZ || want > MAX_KHZ {
        return Einval, timed;
      }
      khz := want;
      Apply();
      if initialised {
        AppliedIsClose();
        timed := Trim();
      }
      return Rc.Ok, timed;
    }

    /** mdioprobe_mdio_master_measure_clock: the rounded rate in kHz, and again clocks on
        the wire if and only if the buffer is on. */
    method MeasureClock() returns (rate: nat)
      requires Valid() && pins.Idle()
      modifies pins
      ensures pins.Ran(Master.Ones(if initialised then MeasureBits(half) else 0))
      ensures pins.lent == (old(pins.lent) && !initialised)
      ensures pins.wire == old(pins.wire) <==> !initialised || !pins.enabled
      ensures var q := Measured();
              if !initialised || q == 0 then rate == 0
              else rate * (2 * q) <= CORE_KHZ * 16 + q < (rate + 1) * (2 * q)
    {
      if !initialised {
        return 0;
      }
      var q := TimeBitLoop(half, MeasureBits(half));
      if q == 0 {
        return 0;
      }
      rate := (CORE_KHZ * 16 + q) / (2 * q);
      QuotientAtLeast(CORE_KHZ * 16 + q, 2 * q, rate);
      QuotientAtLeast(CORE_KHZ * 16 + q, 2 * q, rate + 1);
    }

    /** mdioprobe_mdio_master_init: the buffer goes off first, so its timing stays inside;
        a bit loop that resolves as stated always makes sense to the calibration. */
    method Init()
      requires Valid() && pins.Idle()
      modifies this, pins
      ensures Valid() && initialised && slopeNum > 0 && khz == old(khz)
      ensures Measured() >= 16 * Want(khz) && WithinSpec() && CloseEnough()
      ensures pins.Idle() && !pins.lent && !pins.enabled
      ensures pins.wire == old(pins.wire) && pins.steady == old(pins.steady)
    {
      pins.BufferEnable(false);
      pins.MdcSet(false);
      pins.HighZ();
      Calibrate();
      Apply();
      AppliedIsClose();
      var _ := Trim();
      initialised := true;
    }
  }

  /** A delivered half-period of `half` sixteenths is no faster than `khz`. */
  predicate NoFasterThan(q: nat, khz: nat) {
    // 170 MHz over two half-periods, against khz thousand a second
    CORE_KHZ * 16 <= 2 * q * khz
  }

  /** Within the specification means at most 2500 kHz on the wire. */
  lemma WithinSpecIsEnough(q: nat)
    ensures q >= 16 * MIN_HALF <==> NoFasterThan(q, MAX_KHZ)
  {
  }

  /** `want` is floored, so a trimmed clock may still run faster than the rate asked
      for; it is guaranteed not to exactly when the division comes out even. */
  lemma FlooredWant(khz: nat)
    requires MIN_KHZ <= khz <= MAX_KHZ
    ensures (forall q: nat :: q >= 16 * Want(khz) ==> NoFasterThan(q, khz)) <==> 85_000 % khz == 0
  {
    var w := Want(khz);
    FloorOf(khz);
    if 85_000 % khz == 0 {
      forall q: nat | q >= 16 * w
        ensures NoFasterThan(q, khz)
      {
        assert q * khz >= 16 * w * khz;
      }
    } else {
      assert !NoFasterThan(16 * w, khz);
    }
  }

  lemma FloorOf(khz: nat)
    requires MIN_KHZ <= khz <= MAX_KHZ
    ensures Want(khz) * khz == 85_000 - 85_000 % khz
  {
    var d := 2000 * khz;
    var q := CORE_HZ / d;
    var r := CORE_HZ % d;
    assert CORE_HZ == q * d + r && 0 <= r < d;
    assert q * d == 2000 * (q * khz);
    var s := 85_000 - q * khz;
    assert 2000 * s == r;
    assert 0 <= s < khz;
    Euclid(85_000, khz, q, s);
  }

  lemma Euclid(a: nat, d: nat, q: nat, r: nat)
    requires d > 0 && a == q * d + r && r < d
    ensures a % d == r && a / d == q
  {
    var p, s := a / d, a % d;
    assert a == p * d + s;
    if p < q {
      Apart(p, q, d);
    } else if q < p {
      Apart(q, p, d);
    }
  }
}
