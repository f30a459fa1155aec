/** What the regulator promises over every run. */
module RegulatorTheorems {
  import opened Arithmetic
  import opened Regulator

  // ------------------------------------------------------------------
  // The short-circuit latch

  /** A tick that counts towards the latch: armed, the watchdog flag up, and the
      gate within 32 codes of full effort. */
  predicate Hot(r: Reg, e: Event) {
    e.TickEv? && Armed(r) && (r.awd || e.s.trip) && r.dacCode <= GATE_SAT_MARGIN
  }

  /** Calls that neither re-arm the regulator nor switch it off. */
  predicate Neutral(e: Event) {
    e.SetKiEv? || e.SetKpEv? || e.TrackResetEv?
  }

  /** The last `k` ticks of the run were all hot, with nothing but neutral calls
      among them. */
  ghost predicate LastHot(evs: seq<Event>, k: nat)
    decreases |evs|
  {
    k == 0 ||
    (evs != [] &&
     var before, e := evs[..|evs| - 1], evs[|evs| - 1];
     if Neutral(e) then LastHot(before, k)
     else Hot(Run(INIT, before), e) && LastHot(before, k - 1))
  }

  /** How one event moves the counter of a regulator that is armed after it. */
  lemma CounterStep(r: Reg, e: Event)
    requires Inv(r) && Armed(Step(r, e))
    ensures Neutral(e) ==> Armed(r) && Step(r, e).scConsec == r.scConsec
    ensures !Neutral(e) ==> e.TickEv? && Step(r, e).scConsec == if Hot(r, e) then r.scConsec + 1 else 0
  {
  }

  /** While the regulator is armed its counter is the length of that streak. */
  lemma {:induction false} StreakIsCounted(evs: seq<Event>, k: nat)
    requires Armed(Run(INIT, evs))
    ensures LastHot(evs, k) <==> k <= Run(INIT, evs).scConsec
    decreases |evs|
  {
    if evs != [] {
      var before, e := evs[..|evs| - 1], evs[|evs| - 1];
      var r := Run(INIT, before);
      assert Run(INIT, evs) == Step(r, e);
      RunKeepsInv(before);
      CounterStep(r, e);
      if Neutral(e) {
        StreakIsCounted(before, k);
      } else if k > 0 && Hot(r, e) {
        StreakIsCounted(before, k - 1);
      }
    }
  }

  /** FAULT is entered at a tick exactly when that tick and the 99 ticks before it
      were hot: a single break in the streak, by a cool tick, a re-targeting or a
      shutdown, and there is no fault. */
  lemma FaultExactly(evs: seq<Event>, e: Event)
    requires Run(INIT, evs).state != Fault
    ensures Step(Run(INIT, evs), e).state == Fault <==> LastHot(evs + [e], SC_TICKS)
  {
    var r := Run(INIT, evs);
    RunKeepsInv(evs);
    assert (evs + [e])[..|evs|] == evs;
    if Armed(r) {
      StreakIsCounted(evs, SC_TICKS - 1);
      StreakIsCounted(evs, SC_TICKS);
    } else {
      NotHotUnarmed(evs, SC_TICKS);
    }
  }

  lemma {:induction false} NotHotUnarmed(evs: seq<Event>, k: nat)
    requires !Armed(Run(INIT, evs)) && Run(INIT, evs).state != Fault && k > 0
    ensures !LastHot(evs, k)
    decreases |evs|
  {
    if evs != [] {
      var before, e := evs[..|evs| - 1], evs[|evs| - 1];
      if Neutral(e) {
        NotHotUnarmed(before, k);
      }
    }
  }

  /** Ticks alone never leave OFF or FAULT. */
  lemma {:induction false} LatchHolds(r: Reg, ss: seq<Sample>)
    requires r.state == Off || r.state == Fault
    ensures RunTicks(r, ss).state == r.state && RunTicks(r, ss).dacReg == r.dacReg
    decreases |ss|
  {
    if ss != [] {
      LatchHolds(Tick(r, ss[0]), ss[1..]);
    }
  }

  // ------------------------------------------------------------------
  // A persistent short

  /** Every sample below the trip code, the flag up at every tick. */
  predicate Shorted(r: Reg, ss: seq<Sample>) {
    forall i :: 0 <= i < |ss| ==> ss[i].trip && ss[i].v < r.scCode
  }

  /** How far one shorted tick drains the integrator, at the least. */
  function Drain(r: Reg): int {
    (r.vSetTarget - r.scCode + 1) * r.kiQ16 / 256
  }

  lemma MulMono(a: int, b: int, k: int)
    requires a <= b && k >= 0
    ensures a * k <= b * k
  {
  }

  /** One shorted tick: either the latch closes, or the regulator stays on and the
      integrator is lower by `Drain`, or at the rail with the gate. */
  lemma ShortedTick(r: Reg, s: Sample)
    requires Inv(r) && r.state == On && s.trip && s.v < r.scCode <= r.vSetTarget && Drain(r) >= 1
    ensures var t := Tick(r, s);
            || t.state == Fault
            || (&& Inv(t) && t.state == On && t.scCode == r.scCode && t.vSetTarget == r.vSetTarget
                && t.kiQ16 == r.kiQ16 && Drain(t) == Drain(r)
                && t.dacAcc <= (if r.dacAcc > Drain(r) then r.dacAcc - Drain(r) else 0)
                && (t.dacAcc == 0 ==> t.dacCode == 0)
                && t.scConsec == if r.dacCode <= GATE_SAT_MARGIN then r.scConsec + 1 else 0)
  {
    TickKeepsInv(r, s);
    var e := r.vSet - s.v;
    MulMono(r.vSetTarget - r.scCode + 1, e, r.kiQ16);
    MulMono(0, e, r.kpQ16);
  }

  /** The integrator after `n` drains by `d`, stopping at the rail. */
  function Drained(acc: int, d: int, n: nat): int
    decreases n
  {
    if n == 0 then acc else Drained(if acc > d then acc - d else 0, d, n - 1)
  }

  lemma {:induction false} DrainedMono(a: int, b: int, d: int, n: nat)
    requires a <= b && d >= 1
    ensures Drained(a, d, n) <= Drained(b, d, n)
    decreases n
  {
    if n > 0 {
      DrainedMono(if a > d then a - d else 0, if b > d then b - d else 0, d, n - 1);
    }
  }

  lemma {:induction false} DrainedOut(acc: int, d: int, n: nat)
    requires d >= 1 && 0 <= acc <= n * d && n >= 1
    ensures Drained(acc, d, n) == 0
    decreases n
  {
    var next := if acc > d then acc - d else 0;
    assert n * d == (n - 1) * d + d;
    if n > 1 {
      assert (n - 1) * d >= 0;
      DrainedOut(next, d, n - 1);
    }
  }

  /** While shorted, the integrator drains to the rail. */
  lemma {:induction false} ShortDrains(r: Reg, ss: seq<Sample>)
    requires Inv(r) && r.state == On && r.scCode <= r.vSetTarget && Drain(r) >= 1 && Shorted(r, ss) && ss != []
    ensures var t := RunTicks(r, ss);
            || t.state == Fault
            || (&& Inv(t) && t.state == On && t.scCode == r.scCode && t.vSetTarget == r.vSetTarget
                && t.kiQ16 == r.kiQ16 && (t.dacAcc == 0 ==> t.dacCode == 0)
                && t.dacAcc <= Drained(r.dacAcc, Drain(r), |ss|))
    decreases |ss|
  {
    var t, d := Tick(r, ss[0]), Drain(r);
    ShortedTick(r, ss[0]);
    if t.state == Fault {
      LatchHolds(t, ss[1..]);
    } else {
      DrainedMono(t.dacAcc, if r.dacAcc > d then r.dacAcc - d else 0, d, |ss| - 1);
      if |ss| == 1 {
        assert ss[1..] == [] && RunTicks(r, ss) == t;
      } else {
        ShortDrains(t, ss[1..]);
      }
    }
  }

  /** With the integrator at the rail the gate cannot unsaturate, so every tick
      counts and the latch closes. */
  lemma {:induction false} SaturatedShortLatches(r: Reg, ss: seq<Sample>)
    requires Inv(r) && r.state == On && r.scCode <= r.vSetTarget && Drain(r) >= 1 && Shorted(r, ss)
    requires r.dacAcc == 0 && r.dacCode == 0 && |ss| >= SC_TICKS - r.scConsec
    ensures RunTicks(r, ss).state == Fault
    decreases |ss|
  {
    var t := Tick(r, ss[0]);
    ShortedTick(r, ss[0]);
    if t.state == Fault {
      LatchHolds(t, ss[1..]);
    } else {
      SaturatedShortLatches(t, ss[1..]);
    }
  }

  lemma {:induction false} RunTicksAppend(r: Reg, a: seq<Sample>, b: seq<Sample>)
    ensures RunTicks(r, a + b) == RunTicks(RunTicks(r, a), b)
    decreases |a|
  {
    if a == [] {
      assert a + b == b;
    } else {
      assert (a + b)[0] == a[0] && (a + b)[1..] == a[1..] + b;
      RunTicksAppend(Tick(r, a[0]), a[1..], b);
    }
  }

  lemma MvToCodeMono(a: Uint32, b: Uint32)
    requires a <= b <= 3300
    ensures MvToCode(a) <= MvToCode(b)
  {
  }

  /** A persistent short always latches, whatever the gains, as long as one shorted
      tick moves the integrator at all: `n` ticks bring it to the rail from anywhere,
      100 more close the latch. */
  lemma PersistentShortLatches(r: Reg, ss: seq<Sample>, n: nat)
    requires Inv(r) && r.state == On && Drain(r) >= 1 && Shorted(r, ss)
    requires n >= 1 && n * Drain(r) >= ACC_MAX && |ss| >= n + SC_TICKS
    ensures RunTicks(r, ss).state == Fault
  {
    TripBelowTarget(r);
    var a, b := ss[..n], ss[n..];
    assert ss == a + b;
    RunTicksAppend(r, a, b);
    ShortReachesRail(r, a);
    if RunTicks(r, a).state == Fault {
      LatchHolds(RunTicks(r, a), b);
    } else {
      SaturatedShortLatches(RunTicks(r, a), b);
    }
  }

  /** Long enough to drain the whole range, a short has latched or is at the rail. */
  lemma ShortReachesRail(r: Reg, ss: seq<Sample>)
    requires Inv(r) && r.state == On && r.scCode <= r.vSetTarget && Drain(r) >= 1 && Shorted(r, ss)
    requires |ss| >= 1 && |ss| * Drain(r) >= ACC_MAX
    ensures var t := RunTicks(r, ss);
            || t.state == Fault
            || (&& Inv(t) && t.state == On && t.scCode == r.scCode && t.vSetTarget == r.vSetTarget
                && Drain(t) == Drain(r) && t.dacAcc == 0 && t.dacCode == 0)
  {
    ShortDrains(r, ss);
    DrainedMono(r.dacAcc, ACC_MAX, Drain(r), |ss|);
    DrainedOut(ACC_MAX, Drain(r), |ss|);
  }

  lemma TripBelowTarget(r: Reg)
    requires Inv(r) && r.state == On
    ensures r.scCode <= r.vSetTarget
  {
    MvToCodeMono(if r.targetMv > r.scMarginMv then r.targetMv - r.scMarginMv else 0, r.targetMv);
  }

  /** With the default integral gain and margin: 83 ticks to the rail, 100 to the
      latch, from any state an ON regulator can be in. */
  lemma DefaultShortLatches(evs: seq<Event>, ss: seq<Sample>)
    requires var r := Run(INIT, evs);
             r.state == On && r.kiQ16 == KI_DFL && r.scMarginMv == SC_MARGIN_DFL && Shorted(r, ss) && |ss| >= 183
    ensures RunTicks(Run(INIT, evs), ss).state == Fault
  {
    RunKeepsInv(evs);
    DefaultDrain(Run(INIT, evs));
    PersistentShortLatches(Run(INIT, evs), ss, 83);
  }

  lemma DefaultDrain(r: Reg)
    requires Inv(r) && r.state == On && r.kiQ16 == KI_DFL && r.scMarginMv == SC_MARGIN_DFL
    ensures Drain(r) >= 12748 && 83 * Drain(r) >= ACC_MAX
  {
    assert r.vSetTarget == r.targetMv * 4095 / 3300 && r.scCode == (r.targetMv - 200) * 4095 / 3300;
    assert r.vSetTarget - r.scCode + 1 >= 249;
    MulMono(249, r.vSetTarget - r.scCode + 1, KI_DFL);
  }

  // ---- exactly when a short latches ------------------------------------------

  /** The gate code one tick of the mildest short leaves, the integrator standing still:
      what the proportional term alone makes of it. */
  function HeldCode(r: Reg): int {
    Clamp(r.dacAcc - (r.vSetTarget - r.scCode + 1) * r.kpQ16 / 256) / 256
  }

  /** What decides it for an ON regulator: a short moves the integrator, or the
      proportional term holds the gate saturated, or the streak lacks one tick. */
  predicate WillLatch(r: Reg) {
    Drain(r) >= 1 || HeldCode(r) <= GATE_SAT_MARGIN || (r.dacCode <= GATE_SAT_MARGIN && r.scConsec == SC_TICKS - 1)
  }

  /** One shorted tick that does not move the integrator down to the rail at once: the
      gate ends no higher than `HeldCode`, whatever the sample. */
  lemma HeldTick(r: Reg, s: Sample)
    requires Inv(r) && r.state == On && s.trip && s.v < r.scCode && Drain(r) <= 0
    ensures var t := Tick(r, s);
            t.state == Fault
            || (&& Inv(t) && t.state == On && t.scCode == r.scCode && t.vSetTarget == r.vSetTarget
                && t.kiQ16 == r.kiQ16 && t.kpQ16 == r.kpQ16 && t.dacAcc <= r.dacAcc
                && Drain(t) == Drain(r) && HeldCode(t) <= HeldCode(r) && t.dacCode <= HeldCode(r)
                && (s.v == r.scCode - 1 ==> t.dacAcc == r.dacAcc && t.dacCode == HeldCode(r))
                && t.scConsec == if r.dacCode <= GATE_SAT_MARGIN then r.scConsec + 1 else 0)
    ensures Tick(r, s).state == Fault <==> r.dacCode <= GATE_SAT_MARGIN && r.scConsec == SC_TICKS - 1
  {
    TickKeepsInv(r, s);
    TripBelowTarget(r);
    var least, e := r.vSetTarget - r.scCode + 1, r.vSet - s.v;
    MulMono(0, e, r.kiQ16);
    MulMono(0, least, r.kiQ16);
    MulMono(least, e, r.kpQ16);
  }

  /** Held saturated by the proportional term, every tick counts. */
  lemma {:induction false} HeldShortLatches(r: Reg, ss: seq<Sample>)
    requires Inv(r) && r.state == On && Drain(r) <= 0 && Shorted(r, ss)
    requires HeldCode(r) <= GATE_SAT_MARGIN && r.dacCode <= GATE_SAT_MARGIN
    requires |ss| >= SC_TICKS - r.scConsec
    ensures RunTicks(r, ss).state == Fault
    decreases |ss|
  {
    var t := Tick(r, ss[0]);
    HeldTick(r, ss[0]);
    if t.state == Fault {
      LatchHolds(t, ss[1..]);
    } else {
      HeldShortLatches(t, ss[1..]);
    }
  }

  /** The mildest short there is: every sample one code below the trip. */
  function Mildest(r: Reg, n: nat): (ss: seq<Sample>)
    requires r.scCode >= 1
    ensures |ss| == n && Shorted(r, ss) && forall i :: 0 <= i < n ==> ss[i] == Sample(r.scCode - 1, true)
  {
    seq(n, _ => Sample(r.scCode - 1, true))
  }

  lemma {:induction false} MildShortStays(r: Reg, ss: seq<Sample>)
    requires Inv(r) && r.state == On && Drain(r) <= 0 && HeldCode(r) > GATE_SAT_MARGIN
    requires !(r.dacCode <= GATE_SAT_MARGIN && r.scConsec == SC_TICKS - 1)
    requires r.scCode >= 1 && forall i :: 0 <= i < |ss| ==> ss[i] == Sample(r.scCode - 1, true)
    ensures RunTicks(r, ss).state == On
    decreases |ss|
  {
    if ss != [] {
      HeldTick(r, ss[0]);
      MildShortStays(Tick(r, ss[0]), ss[1..]);
    }
  }

  /** Every short of `n` ticks or more latches. */
  ghost predicate LatchesWithin(r: Reg, n: nat) {
    forall ss :: Shorted(r, ss) && |ss| >= n ==> RunTicks(r, ss).state == Fault
  }

  /** A persistent short always latches if and only if one of the three conditions holds
      when it starts, or the trip level is 0, below which no sample can lie. */
  lemma ShortLatchesExactly(r: Reg)
    requires Inv(r) && r.state == On
    ensures (exists n: nat :: LatchesWithin(r, n)) <==> r.scCode == 0 || WillLatch(r)
  {
    TripBelowTarget(r);
    if r.scCode == 0 || WillLatch(r) {
      var n := ACC_MAX + SC_TICKS;
      forall ss | Shorted(r, ss) && |ss| >= n
        ensures RunTicks(r, ss).state == Fault
      {
        ConditionLatches(r, ss);
      }
      assert LatchesWithin(r, n);
    } else {
      MulMono(0, r.vSetTarget - r.scCode + 1, r.kiQ16);
      forall n: nat
        ensures !LatchesWithin(r, n)
      {
        MildShortStays(r, Mildest(r, n));
      }
    }
  }

  lemma ConditionLatches(r: Reg, ss: seq<Sample>)
    requires Inv(r) && r.state == On && Shorted(r, ss) && |ss| >= ACC_MAX + SC_TICKS
    requires r.scCode == 0 || WillLatch(r)
    ensures RunTicks(r, ss).state == Fault
  {
    TripBelowTarget(r);
    assert ss[0].v < r.scCode;
    if Drain(r) >= 1 {
      PersistentShortLatches(r, ss, ACC_MAX);
    } else {
      HeldTick(r, ss[0]);
      if Tick(r, ss[0]).state == Fault {
        LatchHolds(Tick(r, ss[0]), ss[1..]);
      } else {
        HeldShortLatches(Tick(r, ss[0]), ss[1..]);
      }
    }
  }

  /** A rail handed straight through has its gate at zero already: 100 flagged ticks. */
  lemma {:induction false} PassthruShortLatches(r: Reg, ss: seq<Sample>)
    requires Inv(r) && r.state == Passthru && |ss| >= SC_TICKS - r.scConsec
    requires forall i :: 0 <= i < |ss| ==> ss[i].trip
    ensures RunTicks(r, ss).state == Fault
    decreases |ss|
  {
    var t := Tick(r, ss[0]);
    if t.state == Fault {
      LatchHolds(t, ss[1..]);
    } else {
      TickKeepsInv(r, ss[0]);
      PassthruShortLatches(t, ss[1..]);
    }
  }

  // ------------------------------------------------------------------
  // Soft start

  /** Ticks left of a ramp: one for every 8 counts still missing, at least one. */
  function RampTicks(r: Reg): (n: nat)
    ensures 1 <= n <= 512
  {
    if r.vSet + 8 >= r.vSetTarget then 1 else (r.vSetTarget - r.vSet + 7) / 8
  }

  /** The ramp ends at exactly that tick, in ON or in PASSTHRU as requested, whatever
      the samples; the setpoint climbs to the target and the streak starts from zero. */
  lemma {:induction false} SoftStartEnds(r: Reg, ss: seq<Sample>)
    requires Inv(r) && r.state == SoftStart && |ss| <= RampTicks(r)
    ensures var t := RunTicks(r, ss);
            && Inv(t) && t.targetMv == r.targetMv
            && (|ss| < RampTicks(r) ==> t.state == SoftStart && RampTicks(t) == RampTicks(r) - |ss|)
            && (|ss| == RampTicks(r) ==>
                  t.state == (if r.passthruReq then Passthru else On) && t.vSet == r.vSetTarget && t.scConsec == 0)
    decreases |ss|
  {
    if ss != [] {
      var t := Tick(r, ss[0]);
      TickKeepsInv(r, ss[0]);
      if RampTicks(r) == 1 {
        assert ss[1..] == [];
      } else {
        assert t.vSet == r.vSet + 8 && RampTicks(t) == RampTicks(r) - 1;
        SoftStartEnds(t, ss[1..]);
      }
    }
  }

  /** Ticks keep an armed regulator armed or fault it, and never change its target. */
  lemma {:induction false} ArmedStays(r: Reg, ss: seq<Sample>)
    requires Inv(r) && (Armed(r) || r.state == Fault)
    ensures var t := RunTicks(r, ss);
            Inv(t) && (Armed(t) || t.state == Fault) && t.targetMv == r.targetMv
    decreases |ss|
  {
    if ss != [] {
      TickKeepsInv(r, ss[0]);
      ArmedStays(Tick(r, ss[0]), ss[1..]);
    }
  }

  /** No ramp is still climbing after 512 ticks. */
  lemma RampIsOver(r: Reg, ss: seq<Sample>)
    requires Inv(r) && (r.state == SoftStart || Armed(r) || r.state == Fault)
    ensures var t := RunTicks(r, ss);
            && Inv(t) && t.targetMv == r.targetMv
            && (t.state == SoftStart || Armed(t) || t.state == Fault)
            && (t.state == SoftStart ==> r.state == SoftStart && RampTicks(t) == RampTicks(r) - |ss|)
  {
    if r.state != SoftStart {
      ArmedStays(r, ss);
    } else if |ss| < RampTicks(r) {
      SoftStartEnds(r, ss);
    } else {
      var n := RampTicks(r);
      assert ss == ss[..n] + ss[n..];
      RunTicksAppend(r, ss[..n], ss[n..]);
      SoftStartEnds(r, ss[..n]);
      ArmedStays(RunTicks(r, ss[..n]), ss[n..]);
    }
  }

  // ------------------------------------------------------------------
  // The calls

  /** Re-targeting while the loop is running is bumpless: the gate stays where it is.
      From OFF, FAULT and PASSTHRU it starts from off. */
  lemma RetargetIsBumpless(r: Reg, mv: Uint32, vNow: Code)
    requires Inv(r)
    ensures var t := SetTarget(r, mv, vNow);
            && t.state == SoftStart && t.vSet <= vNow
            && t.dacCode == (if r.state == On || r.state == SoftStart then r.dacCode else 4095)
            && (r.state == On || r.state == SoftStart ==> t.dacAcc == r.dacAcc)
            && Inv(t)
  {
    assert r == r.(scMarginMv := r.scMarginMv);
    SetTargetKeepsInv(r, r.scMarginMv, mv, vNow);
  }

  /** Changing the margin re-applies the last target, and so restarts a supply that
      was shut down or had latched a fault. */
  lemma MarginRearms(r: Reg, mv: Uint32, vNow: Code)
    requires Inv(r)
    ensures Step(r, SetMarginEv(mv, vNow)).state == (if r.targetMv == 0 then Off else SoftStart)
  {
  }

  /** The 32-bit product of the gain conversion wraps for a numerator of 65536 or
      more; the result is the clamped quotient exactly when the numerator is below
      that, or its low half alone already reaches the clamp. */
  lemma GainExact(num: Uint32, den: Uint32)
    requires den > 0
    ensures GainToQ16(num, den) == (if num >= den then 65536 else num * 65536 / den)
            <==> num < 65536 || num % 65536 >= den
  {
    var hi, lo := num / 65536, num % 65536;
    assert num == 65536 * hi + lo;
    assert num * 65536 % 0x1_0000_0000 == 65536 * lo;
    GainClamps(lo, den);
    GainClamps(num, den);
    if num >= 65536 && lo < den && num < den {
      GainGrows(lo, num, den);
    }
  }

  lemma GainClamps(n: nat, den: nat)
    requires den > 0
    ensures n * 65536 / den >= 65536 <==> n >= den
  {
    QuotientAtLeast(n * 65536, den, 65536);
  }

  lemma GainGrows(lo: nat, num: nat, den: nat)
    requires 0 < den <= 0x1_0000_0000 && num >= lo + 65536
    ensures lo * 65536 / den < num * 65536 / den
  {
    var q := lo * 65536 / den;
    QuotientAtLeast(lo * 65536, den, q);
    assert (q + 1) * den == q * den + den;
    QuotientAtLeast(num * 65536, den, q + 1);
  }

  /** A target survives the trip through its code to within a millivolt. */
  lemma CodeRoundTrip(mv: Uint32)
    requires mv <= 3300
    ensures mv - 1 <= CodeToMv(MvToCode(mv)) <= mv
  {
  }

  /** The excursion window grows with the sample of every armed tick, in PASSTHRU as much
      as in ON, and of no other. */
  lemma ExcursionsTracked(r: Reg, s: Sample)
    ensures var t := Tick(r, s);
            if Armed(r) then t.vMin == (if s.v < r.vMin then s.v else r.vMin)
                             && t.vMax == (if s.v > r.vMax then s.v else r.vMax)
            else t.vMin == r.vMin && t.vMax == r.vMax
  {
  }
}
