/** What one tick of the control law and each call do to the numbers they work on, told
    from outside: the error, the gains, and the integrator and gate before and after. */
module ControlTheorems {
  import opened Regulator
  import opened RegulatorTheorems

  /** The regulator is under control before and after a tick: ramping or on, not faulted,
      not handing the rail through. */
  ghost predicate Controlled(r: Reg, s: Sample) {
    && Inv(r) && (r.state == On || r.state == SoftStart)
    && (Tick(r, s).state == On || Tick(r, s).state == SoftStart)
  }

  /** How far the output is above the setpoint in force at the tick. */
  function Excess(r: Reg, s: Sample): int {
    s.v - Tick(r, s).vSet
  }

  /** Rounding and rails, for a product `x` of the error. */
  lemma Rounded(acc: int, x: int)
    ensures var a := Clamp(acc - x / 256);
            && 0 <= a <= ACC_MAX && (a > 0 ==> 256 * (a - acc) < 256 - x) && (a < ACC_MAX ==> -x <= 256 * (a - acc))
    ensures var c := Clamp(acc - x / 256) / 256;
            && 0 <= c <= 4095
            && (c > 0 ==> 65536 * c < 256 * acc - x + 256) && (c < 4095 ==> 256 * acc - x < 65536 * (c + 1))
  {
  }

  /** The two products a controlled tick is made of. */
  lemma TickArithmetic(r: Reg, s: Sample)
    requires Controlled(r, s)
    ensures var t, e := Tick(r, s), -Excess(r, s);
            && t.kiQ16 == r.kiQ16 && t.kpQ16 == r.kpQ16 && t.dacReg == t.dacCode
            && t.dacAcc == Clamp(r.dacAcc - e * r.kiQ16 / 256)
            && t.dacCode == Clamp(t.dacAcc - e * r.kpQ16 / 256) / 256
  {
  }

  lemma Negated(e: int, k: int)
    ensures -e * k == -(e * k)
  {
  }

  /** The integrator moves by the excess times the integral gain, rounded up to a whole
      count, as far as its rails allow. */
  lemma IntegratorMove(r: Reg, s: Sample)
    requires Controlled(r, s)
    ensures var t, x := Tick(r, s), Excess(r, s) * r.kiQ16;
            && 0 <= t.dacAcc <= ACC_MAX && t.kiQ16 == r.kiQ16 && t.kpQ16 == r.kpQ16
            && (t.dacAcc > 0 ==> 256 * (t.dacAcc - r.dacAcc) < x + 256)
            && (t.dacAcc < ACC_MAX ==> x <= 256 * (t.dacAcc - r.dacAcc))
  {
    TickArithmetic(r, s);
    Negated(Excess(r, s), r.kiQ16);
    Rounded(r.dacAcc, -Excess(r, s) * r.kiQ16);
  }

  /** The gate is the integrator and the excess times the proportional gain, in whole
      codes, as far as its rails allow; and the DAC is given it. */
  lemma GateFollows(r: Reg, s: Sample)
    requires Controlled(r, s)
    ensures var t, x := Tick(r, s), Excess(r, s) * r.kpQ16;
            && t.dacReg == t.dacCode
            && (t.dacCode > 0 ==> 65536 * t.dacCode < 256 * t.dacAcc + x + 256)
            && (t.dacCode < 4095 ==> 256 * t.dacAcc + x < 65536 * (t.dacCode + 1))
  {
    TickArithmetic(r, s);
    Negated(Excess(r, s), r.kpQ16);
    Rounded(Tick(r, s).dacAcc, -Excess(r, s) * r.kpQ16);
  }

  /** The setpoint of a tick does not depend on what it sampled: it is the target, or on
      the ramp 8 codes on. */
  lemma SetpointInForce(r: Reg, s: Sample)
    requires Controlled(r, s)
    ensures Tick(r, s).vSet == if r.state == SoftStart && r.vSet + 8 < r.vSetTarget then r.vSet + 8 else r.vSetTarget
  {
  }

  /** A higher output never opens the pass element further. */
  lemma TickIsMonotone(r: Reg, s: Sample, z: Sample)
    requires Controlled(r, s) && Controlled(r, z) && s.v <= z.v
    ensures Tick(r, s).dacAcc <= Tick(r, z).dacAcc && Tick(r, s).dacCode <= Tick(r, z).dacCode
  {
    SetpointInForce(r, s);
    SetpointInForce(r, z);
    var e, f := -Excess(r, s), -Excess(r, z);
    TickArithmetic(r, s);
    TickArithmetic(r, z);
    MulMono(f, e, r.kiQ16);
    MulMono(f, e, r.kpQ16);
    ClampedDown(r.dacAcc, r.dacAcc, e * r.kiQ16, f * r.kiQ16);
    ClampedDown(Tick(r, s).dacAcc, Tick(r, z).dacAcc, e * r.kpQ16, f * r.kpQ16);
  }

  lemma ClampedDown(a: int, b: int, x: int, y: int)
    requires a <= b && y <= x
    ensures Clamp(a - x / 256) <= Clamp(b - y / 256) && Clamp(a - x / 256) / 256 <= Clamp(b - y / 256) / 256
  {
  }

  /** At the setpoint the integrator stands still; above it any gain moves it up, and
      below it down as soon as the product is a whole count: which is the rounding. */
  lemma CorrectsBothWays(r: Reg, s: Sample)
    requires Controlled(r, s)
    ensures var t, e := Tick(r, s), Excess(r, s);
            && (e == 0 ==> t.dacAcc == r.dacAcc)
            && (e > 0 && r.kiQ16 > 0 ==> t.dacAcc > r.dacAcc || t.dacAcc == ACC_MAX)
            && (e < 0 && -e * r.kiQ16 >= 256 ==> t.dacAcc < r.dacAcc || t.dacAcc == 0)
            && (e < 0 && -e * r.kiQ16 < 256 ==> t.dacAcc == r.dacAcc)
  {
    IntegratorMove(r, s);
    var e := Excess(r, s);
    Negated(e, r.kiQ16);
    if e > 0 && r.kiQ16 > 0 {
      MulMono(1, e, r.kiQ16);
    } else if e < 0 {
      MulMono(e, 0, r.kiQ16);
    }
  }

  /** Every sample above the setpoint. */
  predicate StuckHigh(r: Reg, ss: seq<Sample>) {
    forall i :: 0 <= i < |ss| ==> ss[i].v > r.vSetTarget
  }

  lemma ShutAtTheRail(r: Reg, s: Sample)
    requires Controlled(r, s) && Tick(r, s).dacAcc == ACC_MAX && Excess(r, s) >= 0
    ensures Tick(r, s).dacCode == 4095
  {
    GateFollows(r, s);
    TickKeepsInv(r, s);
    MulMono(0, Excess(r, s), r.kpQ16);
  }

  lemma HighTick(r: Reg, s: Sample)
    requires Inv(r) && r.state == On && r.kiQ16 > 0 && s.v > r.vSetTarget
    ensures var t := Tick(r, s);
            if t.state == Fault then t.dacCode == 4095
            else && Inv(t) && t.state == On && t.vSetTarget == r.vSetTarget && t.kiQ16 == r.kiQ16
                 && (t.dacAcc > r.dacAcc || t.dacAcc == ACC_MAX) && (t.dacAcc == ACC_MAX ==> t.dacCode == 4095)
  {
    TickKeepsInv(r, s);
    if Tick(r, s).state != Fault {
      SetpointInForce(r, s);
      CorrectsBothWays(r, s);
      if Tick(r, s).dacAcc == ACC_MAX {
        ShutAtTheRail(r, s);
      }
    }
  }

  /** An output stuck above its setpoint shuts the pass element, from any state of an ON
      regulator with an integral gain, and it stays shut as long as the output is stuck. */
  lemma {:induction false} StuckHighShuts(r: Reg, ss: seq<Sample>)
    requires Inv(r) && r.state == On && r.kiQ16 > 0 && StuckHigh(r, ss)
    requires ss != [] && |ss| >= ACC_MAX - r.dacAcc
    ensures RunTicks(r, ss).dacCode == 4095
    decreases |ss|
  {
    var t := Tick(r, ss[0]);
    HighTick(r, ss[0]);
    if t.state == Fault {
      LatchHolds(t, ss[1..]);
      ParkedStays(t, ss[1..]);
    } else if |ss| == 1 {
      assert ss[1..] == [];
    } else {
      StuckHighShuts(t, ss[1..]);
    }
  }

  lemma {:induction false} ParkedStays(r: Reg, ss: seq<Sample>)
    requires r.state == Off || r.state == Fault
    ensures RunTicks(r, ss).dacCode == r.dacCode
    decreases |ss|
  {
    if ss != [] {
      ParkedStays(Tick(r, ss[0]), ss[1..]);
    }
  }

  // ---- the watchdog's flag --------------------------------------------------------

  /** A flag counts for one tick: an armed regulator has used it up after the tick, and a
      ramp that ends drops whatever came before. */
  lemma FlagIsSpent(r: Reg, s: Sample)
    ensures Armed(Tick(r, s)) || (Armed(r) && Tick(r, s).state == Fault) ==> !Tick(r, s).awd
  {
  }

  /** So of a run of ticks past the first, each counts exactly if its own flag came up with
      the gate saturated: without it the streak is over. */
  lemma NoFlagNoCount(r: Reg, s: Sample, z: Sample)
    requires Inv(r) && Armed(Tick(r, s))
    ensures var t := Tick(r, s);
            && (Hot(t, TickEv(z)) <==> z.trip && t.dacCode <= GATE_SAT_MARGIN)
            && (!z.trip ==> Armed(Tick(t, z)) && Tick(t, z).scConsec == 0)
  {
    FlagIsSpent(r, s);
  }

  // ---- the calls --------------------------------------------------------------

  /** `code` is the 12-bit code of `mv` millivolts on a 3.3 V scale, rounded down. */
  predicate IsCodeOf(code: int, mv: int) {
    3300 * code <= 4095 * mv < 3300 * (code + 1)
  }

  /** What a request for a rail sets up, whatever the regulator was doing: the request
      held to the range, the whole rail above 3000 mV; the setpoint on its way there from
      the present output, or already there when that is higher; the trip level the margin
      below; the watchdog's old flag dropped; the gains and the streak as they were. */
  lemma RequestSetsUp(r: Reg, mv: Uint32, vNow: Code)
    requires Inv(r)
    ensures var t := SetTarget(r, mv, vNow);
            && (mv > 3000 ==> t.targetMv == 3300) && (mv < 1800 ==> t.targetMv == 1800)
            && (1800 <= mv <= 3000 ==> t.targetMv == mv) && (t.passthruReq <==> mv > 3000)
            && t.state == SoftStart && IsCodeOf(t.vSetTarget, t.targetMv)
            && t.vSet == (if vNow <= t.vSetTarget then vNow else t.vSetTarget)
            && (if r.scMarginMv <= t.targetMv then IsCodeOf(t.scCode, t.targetMv - r.scMarginMv) else t.scCode == 0)
            && !t.awd && t.vMin == t.vMax == vNow && t.scMarginMv == r.scMarginMv && t.scConsec == r.scConsec
            && t.kiQ16 == r.kiQ16 && t.kpQ16 == r.kpQ16
  {
    CodeIsFloor(SetTarget(r, mv, vNow).targetMv);
    if r.scMarginMv <= SetTarget(r, mv, vNow).targetMv {
      CodeIsFloor(SetTarget(r, mv, vNow).targetMv - r.scMarginMv);
    }
  }

  lemma CodeIsFloor(mv: Uint32)
    requires mv <= 3300
    ensures IsCodeOf(MvToCode(mv), mv)
  {
  }

  /** A change of margin takes effect at once on a supply that has a target, and the
      target stays the same. */
  lemma MarginSetsUp(r: Reg, margin: Uint32, vNow: Code)
    requires Inv(r)
    ensures var t := Step(r, SetMarginEv(margin, vNow));
            && t.scMarginMv == margin && t.targetMv == r.targetMv && t.vSetTarget == r.vSetTarget
            && t.passthruReq == r.passthruReq && t.kiQ16 == r.kiQ16 && t.kpQ16 == r.kpQ16
            && (r.targetMv != 0 ==>
                  && t.vSet == (if vNow <= t.vSetTarget then vNow else t.vSetTarget)
                  && (if margin <= t.targetMv then IsCodeOf(t.scCode, t.targetMv - margin) else t.scCode == 0))
  {
    if r.targetMv != 0 && margin <= r.targetMv {
      CodeIsFloor(r.targetMv - margin);
    }
  }

  /** Each gain call moves its own gain and nothing else, and none with a denominator of
      zero; below 65536 the gain is the quotient in Q16, and 1 at the most. */
  lemma GainCalls(r: Reg, num: Uint32, den: Uint32)
    ensures var t := Step(r, SetKiEv(num, den)); t == r.(kiQ16 := t.kiQ16) && (den == 0 ==> t == r)
    ensures var t := Step(r, SetKpEv(num, den)); t == r.(kpQ16 := t.kpQ16) && (den == 0 ==> t == r)
    ensures den > 0 && num < 65536 ==>
              && Step(r, SetKiEv(num, den)).kiQ16 == (if num >= den then 65536 else num * 65536 / den)
              && Step(r, SetKpEv(num, den)).kpQ16 == (if num >= den then 65536 else num * 65536 / den)
  {
    if den > 0 {
      GainExact(num, den);
    }
  }

  /** Switching off shuts the pass element and keeps the target for a later margin change;
      a reset of the excursions starts the window at the present output. */
  lemma OtherCalls(r: Reg, vNow: Code)
    ensures var t := Step(r, ShutdownEv);
            && t.state == Off && t.dacCode == t.dacReg == 4095 && t.dacAcc == ACC_MAX
            && t == r.(state := Off, dacCode := t.dacCode, dacReg := t.dacReg, dacAcc := t.dacAcc)
    ensures var t := Step(r, TrackResetEv(vNow)); t.vMin == t.vMax == vNow && t == r.(vMin := vNow, vMax := vNow)
  {
  }
}
