/** The software regulator of the translator supply (src/mdioprobe_vreg.c): a
    20 kHz tick runs a fixed-point PI law and a debounced short-circuit latch, and
    a handful of calls change its targets and gains.

    `Reg` is the file's static state with the DAC data register and the pending
    analog-watchdog flag beside it; `Tick` and `Step` say what each interrupt and
    each call does to it, `Vreg` does it field by field in 32-bit arithmetic, and
    the lemmas are about every run of `Step`. */
module Regulator {

  newtype int32 = x: int | -0x8000_0000 <= x < 0x8000_0000
  type Uint32 = x: int | 0 <= x < 0x1_0000_0000
  /** A 12-bit ADC or DAC code. */
  type Code = c: int | 0 <= c < 4096

  /** The integrator at its upper rail: gate code 4095 in Q8. */
  const ACC_MAX := 1048320

  /** The default gains, 1/5 and 1/8 in Q16, and the default trip margin in millivolts. */
  const KI_DFL := 13107
  const KP_DFL := 8192
  const SC_MARGIN_DFL := 200

  /** Hot ticks in a row that close the latch. */
  const SC_TICKS := 100

  /** The gate code up to which the pass element counts as fully on. */
  const GATE_SAT_MARGIN := 32

  datatype State = Off | SoftStart | On | Passthru | Fault

  /** What the tick samples: the ADC reading, and whether the watchdog raised its
      flag since the previous tick. */
  datatype Sample = Sample(v: Code, trip: bool)

  datatype Reg = Reg(
    state: State, vSet: Code, vSetTarget: Code,
    dacCode: Code, dacAcc: int,            // gate code, and the integrator in Q8
    scCode: Code, scMarginMv: Uint32, scConsec: nat,
    targetMv: Uint32, passthruReq: bool,
    vMin: Code, vMax: Code, kiQ16: int, kpQ16: int,
    dacReg: Code, awd: bool)               // hardware: DAC data register, AWD1 flag

  // ---- conversions ---------------------------------------------------

  function MvToCode(mv: Uint32): Code {
    var c := mv * 4095 % 0x1_0000_0000 / 3300;
    if c > 4095 then 4095 else c
  }

  function CodeToMv(code: Code): int {
    code * 3300 / 4095
  }

  /** The 32-bit product wraps before the division. */
  function GainToQ16(num: Uint32, den: Uint32): (g: int)
    requires den > 0
    ensures 0 <= g <= 65536
  {
    var g := num * 65536 % 0x1_0000_0000 / den;
    if g > 65536 then 65536 else g
  }

  // ---- the tick ------------------------------------------------------

  predicate Armed(r: Reg) { r.state == On || r.state == Passthru }

  function Park(r: Reg, code: Code): Reg {
    r.(dacCode := code, dacAcc := code * 256, dacReg := code)
  }

  function Clamp(x: int): int {
    if x < 0 then 0 else if x > ACC_MAX then ACC_MAX else x
  }

  /** The short-circuit check of an armed regulator. */
  function Guard(r: Reg, v: Code): Reg
    requires Armed(r)
  {
    var r := r.(vMin := if v < r.vMin then v else r.vMin, vMax := if v > r.vMax then v else r.vMax);
    if !r.awd then r.(scConsec := 0)
    else if r.dacCode > GATE_SAT_MARGIN then r.(awd := false, scConsec := 0)
    else if r.scConsec + 1 >= SC_TICKS then Park(r.(awd := false, scConsec := r.scConsec + 1), 4095).(state := Fault)
    else r.(awd := false, scConsec := r.scConsec + 1)
  }

  /** The control law: `e > 0` means the output is low, and lowers the gate. The
      shifts are arithmetic, so they round down. */
  function PiStep(r: Reg, v: Code): Reg {
    var e := r.vSet - v;
    var acc := Clamp(r.dacAcc - e * r.kiQ16 / 256);
    var code := Clamp(acc - e * r.kpQ16 / 256) / 256;
    r.(dacAcc := acc, dacCode := code, dacReg := code)
  }

  /** The soft-start ramp: 8 counts a tick, then the watchdog armed afresh. */
  function RampStep(r: Reg): Reg
    requires r.state == SoftStart
  {
    if r.vSet + 8 < r.vSetTarget then r.(vSet := r.vSet + 8)
    else
      var r := r.(vSet := r.vSetTarget, awd := false, scConsec := 0);
      if r.passthruReq then Park(r, 0).(state := Passthru) else r.(state := On)
  }

  /** What the tick does to a regulator that is ramping or on. */
  function Control(r: Reg, v: Code): Reg {
    match r.state
    case On => PiStep(r, v)
    case SoftStart =>
      var r := RampStep(r);
      if r.state == Passthru then r else PiStep(r, v)
    case _ => r
  }

  function Tick(r: Reg, s: Sample): Reg {
    var r := r.(awd := r.awd || s.trip);
    Control(if Armed(r) then Guard(r, s.v) else r, s.v)
  }

  // ---- the calls -----------------------------------------------------

  /** The target a request stands for: clamped, and the whole rail above 3000. */
  function Fold(mv: Uint32): Uint32 {
    if mv > 3000 then 3300 else if mv < 1800 then 1800 else mv
  }

  /** The short-circuit trip level for a target. */
  function TripCode(targetMv: Uint32, marginMv: Uint32): Code {
    MvToCode(if targetMv > marginMv then targetMv - marginMv else 0)
  }

  /** The new target, its setpoint and its trip level. */
  function Aim(r: Reg, mv: Uint32): Reg {
    r.(passthruReq := mv > 3000, targetMv := mv, vSetTarget := MvToCode(mv), scCode := TripCode(mv, r.scMarginMv))
  }

  /** A fresh ramp towards the target, from the present output. */
  function Restart(r: Reg, vNow: Code): Reg {
    var r := if r.state == Off || r.state == Fault || r.state == Passthru then Park(r, 4095) else r;
    r.(vSet := if vNow < r.vSetTarget then vNow else r.vSetTarget, vMin := vNow, vMax := vNow,
       awd := false, state := SoftStart)
  }

  function SetTarget(r: Reg, mv: Uint32, vNow: Code): Reg {
    Restart(Aim(r, Fold(mv)), vNow)
  }

  datatype Event =
    | TickEv(s: Sample)
    | SetTargetEv(mv: Uint32, vNow: Code)
    | ShutdownEv
    | SetMarginEv(mv: Uint32, vNow: Code)
    | SetKiEv(num: Uint32, den: Uint32)
    | SetKpEv(num: Uint32, den: Uint32)
    | TrackResetEv(vNow: Code)

  function Step(r: Reg, e: Event): Reg {
    match e
    case TickEv(s) => Tick(r, s)
    case SetTargetEv(mv, vNow) => SetTarget(r, mv, vNow)
    case ShutdownEv => Park(r, 4095).(state := Off)
    case SetMarginEv(mv, vNow) =>
      var r := r.(scMarginMv := mv);
      if r.targetMv != 0 then SetTarget(r, r.targetMv, vNow) else r
    case SetKiEv(num, den) => if den == 0 then r else r.(kiQ16 := GainToQ16(num, den))
    case SetKpEv(num, den) => if den == 0 then r else r.(kpQ16 := GainToQ16(num, den))
    case TrackResetEv(vNow) => r.(vMin := vNow, vMax := vNow)
  }

  const INIT := Reg(Off, 0, 0, 4095, ACC_MAX, 0, SC_MARGIN_DFL, 0, 0, false, 0, 0, KI_DFL, KP_DFL, 4095, false)

  /** The state after any interleaving of ticks and calls. */
  function Run(r: Reg, evs: seq<Event>): Reg {
    if evs == [] then r else Step(Run(r, evs[..|evs| - 1]), evs[|evs| - 1])
  }

  /** Ticks alone. */
  function RunTicks(r: Reg, ss: seq<Sample>): Reg
    decreases |ss|
  {
    if ss == [] then r else RunTicks(Tick(r, ss[0]), ss[1..])
  }

  // ---- the invariant -------------------------------------------------

  ghost predicate Inv(r: Reg) {
    && 0 <= r.dacAcc <= ACC_MAX && r.dacReg == r.dacCode
    && r.vSet <= r.vSetTarget
    && 0 <= r.kiQ16 <= 65536 && 0 <= r.kpQ16 <= 65536
    && (r.state == Off || r.state == Fault ==> r.dacCode == 4095)
    && (r.state == Passthru ==> r.dacCode == 0 && r.passthruReq)
    && (r.state == On ==> r.vSet == r.vSetTarget && !r.passthruReq)
    && r.scConsec <= SC_TICKS && (Armed(r) ==> r.scConsec < SC_TICKS)
    && (r.targetMv == 0 || r.targetMv == 3300 || 1800 <= r.targetMv <= 3000)
    && (r.targetMv == 0 ==> r.state == Off)
    && (r.targetMv != 0 ==>
          && (r.passthruReq <==> r.targetMv == 3300)
          && r.vSetTarget == MvToCode(r.targetMv)
          && r.scCode == TripCode(r.targetMv, r.scMarginMv))
  }

  lemma PiKeepsInv(r: Reg, v: Code)
    requires Inv(r) && (r.state == On || r.state == SoftStart)
    ensures Inv(PiStep(r, v))
    ensures PiStep(r, v) == r.(dacAcc := PiStep(r, v).dacAcc, dacCode := PiStep(r, v).dacCode,
                               dacReg := PiStep(r, v).dacReg)
  {
  }

  lemma GuardKeepsInv(r: Reg, v: Code)
    requires Inv(r) && Armed(r)
    ensures Inv(Guard(r, v)) && (Guard(r, v).state == r.state || Guard(r, v).state == Fault)
  {
  }

  lemma RampKeepsInv(r: Reg)
    requires Inv(r) && r.state == SoftStart
    ensures Inv(RampStep(r))
  {
  }

  lemma ControlKeepsInv(r: Reg, v: Code)
    requires Inv(r)
    ensures Inv(Control(r, v))
  {
    if r.state == On {
      PiKeepsInv(r, v);
    } else if r.state == SoftStart {
      RampKeepsInv(r);
      if RampStep(r).state != Passthru {
        PiKeepsInv(RampStep(r), v);
      }
    }
  }

  lemma TickKeepsInv(r: Reg, s: Sample)
    requires Inv(r)
    ensures Inv(Tick(r, s))
  {
    var a := r.(awd := r.awd || s.trip);
    assert Inv(a);
    if Armed(a) {
      GuardKeepsInv(a, s.v);
    }
    ControlKeepsInv(if Armed(a) then Guard(a, s.v) else a, s.v);
  }

  /** Also with the margin just changed from `was` under it. */
  lemma SetTargetKeepsInv(r: Reg, was: Uint32, mv: Uint32, vNow: Code)
    requires Inv(r.(scMarginMv := was))
    ensures Inv(SetTarget(r, mv, vNow))
  {
  }

  lemma SetMarginKeepsInv(r: Reg, mv: Uint32, vNow: Code)
    requires Inv(r)
    ensures Inv(Step(r, SetMarginEv(mv, vNow)))
  {
    var m := r.(scMarginMv := mv);
    if r.targetMv != 0 {
      assert m.(scMarginMv := r.scMarginMv) == r;
      SetTargetKeepsInv(m, r.scMarginMv, r.targetMv, vNow);
    }
  }

  lemma OtherCallsKeepInv(r: Reg, e: Event)
    requires Inv(r) && !e.TickEv? && !e.SetTargetEv? && !e.SetMarginEv?
    ensures Inv(Step(r, e))
  {
  }

  lemma StepKeepsInv(r: Reg, e: Event)
    requires Inv(r)
    ensures Inv(Step(r, e))
  {
    if e.TickEv? {
      TickKeepsInv(r, e.s);
    } else if e.SetTargetEv? {
      assert r.(scMarginMv := r.scMarginMv) == r;
      SetTargetKeepsInv(r, r.scMarginMv, e.mv, e.vNow);
    } else if e.SetMarginEv? {
      SetMarginKeepsInv(r, e.mv, e.vNow);
    } else {
      OtherCallsKeepInv(r, e);
    }
  }

  lemma {:induction false} RunKeepsInv(evs: seq<Event>)
    ensures Inv(Run(INIT, evs))
  {
    if evs != [] {
      RunKeepsInv(evs[..|evs| - 1]);
      StepKeepsInv(Run(INIT, evs[..|evs| - 1]), evs[|evs| - 1]);
    }
  }
}
