/** The regulator as the firmware runs it: static fields changed in place, signed
    products and sums in 32 bits (an overflow would be a verification error), every
    interrupt and call tied to the state machine of `Regulator`. */
module VregDriver {
  import opened Regulator
  import opened RegulatorTheorems

  type Gain = g: int | 0 <= g <= 65536

  /** The products of the control law stay inside 32 bits. */
  lemma ProductFits(e: int, k: Gain)
    requires -4096 < e < 4096
    ensures -0x1000_0000 <= e * k <= 0x1000_0000
  {
    if e >= 0 {
      MulMono(0, e, k);
      MulMono(e, 4095, k);
    } else {
      MulMono(-4095, e, k);
      MulMono(e, 0, k);
    }
  }

  class Vreg {
    var state: State
    var vSet: Code
    var vSetTarget: Code
    var dacCode: Code
    var dacAcc: int32
    var scCode: Code
    var targetMv: Uint32
    var scMarginMv: Uint32
    var scConsec: nat
    var passthruReq: bool
    var vMin: Code
    var vMax: Code
    var kiQ16: Gain
    var kpQ16: Gain
    var dacReg: Code        // the DAC's data register
    var awd: bool           // the ADC's watchdog flag

    function View(): Reg
      reads this
    {
      Reg(state, vSet, vSetTarget, dacCode, dacAcc as int, scCode, scMarginMv, scConsec, targetMv,
          passthruReq, vMin, vMax, kiQ16, kpQ16, dacReg, awd)
    }

    constructor ()
      ensures View() == INIT
    {
      state, vSet, vSetTarget, dacCode, dacAcc := Off, 0, 0, 4095, ACC_MAX as int32;
      scCode, targetMv, scMarginMv, scConsec, passthruReq := 0, 0, SC_MARGIN_DFL, 0, false;
      vMin, vMax, kiQ16, kpQ16, dacReg, awd := 0, 0, KI_DFL, KP_DFL, 4095, false;
    }

    method GatePark(code: Code)
      modifies this`dacCode, this`dacAcc, this`dacReg
      ensures View() == Park(old(View()), code)
    {
      dacCode := code;
      dacAcc := code as int32 * 256;
      dacReg := code;
    }

    method EnterFault()
      modifies this`dacCode, this`dacAcc, this`dacReg, this`state
      ensures View() == Park(old(View()), 4095).(state := Fault)
    {
      GatePark(4095);
      state := Fault;
    }

    /** The armed half of the tick; true when the latch closed. */
    method GuardShort(v: Code) returns (faulted: bool)
      requires Inv(View()) && Armed(View())
      modifies this
      ensures View() == Guard(old(View()), v) && faulted == (state == Fault)
    {
      if v < vMin {
        vMin := v;
      }
      if v > vMax {
        vMax := v;
      }
      if awd {
        awd := false;
        if dacCode <= 0 + GATE_SAT_MARGIN {
          scConsec := scConsec + 1;
          if scConsec >= SC_TICKS {
            EnterFault();
            return true;
          }
        } else {
          scConsec := 0;
        }
      } else {
        scConsec := 0;
      }
      faulted := false;
    }

    /** The control law. */
    method Pi(v: Code)
      requires Inv(View())
      modifies this`dacAcc, this`dacCode, this`dacReg
      ensures View() == PiStep(old(View()), v)
    {
      var e := vSet as int32 - v as int32;
      ProductFits(e as int, kiQ16);
      ProductFits(e as int, kpQ16);
      var acc := dacAcc - e * kiQ16 as int32 / 256;
      if acc < 0 {
        acc := 0;
      } else if acc > ACC_MAX as int32 {
        acc := ACC_MAX as int32;
      }
      dacAcc := acc;
      var out := acc - e * kpQ16 as int32 / 256;
      if out < 0 {
        out := 0;
      } else if out > ACC_MAX as int32 {
        out := ACC_MAX as int32;
      }
      dacCode := (out / 256) as Code;
      dacReg := dacCode;
    }

    /** The soft-start half of the tick. */
    method Ramp()
      requires Inv(View()) && state == SoftStart
      modifies this
      ensures View() == RampStep(old(View()))
    {
      var ns: int := vSet + 8;
      if ns >= vSetTarget {
        vSet := vSetTarget;
        awd := false;
        scConsec := 0;
        if passthruReq {
          GatePark(0);
          state := Passthru;
          return;
        }
        state := On;
      } else {
        vSet := ns;
      }
    }

    /** The tick past the short-circuit check. */
    method Control(v: Code)
      requires Inv(View())
      modifies this
      ensures View() == Regulator.Control(old(View()), v)
    {
      if state != SoftStart && state != On {
        return;
      }
      if state == SoftStart {
        RampKeepsInv(View());
        Ramp();
        if state == Passthru {
          return;
        }
      }
      Pi(v);
    }

    /** The 20 kHz interrupt. */
    method TickIsr(s: Sample)
      requires Inv(View())
      modifies this
      ensures View() == Tick(old(View()), s) && Inv(View())
    {
      TickKeepsInv(View(), s);
      awd := awd || s.trip;
      if state == On || state == Passthru {
        GuardKeepsInv(View(), s.v);
        var faulted := GuardShort(s.v);
        if faulted {
          return;
        }
      }
      Control(s.v);
    }

    method Aim(mv: Uint32, passthru: bool)
      modifies this`passthruReq, this`targetMv, this`vSetTarget, this`scCode
      requires passthru == (mv > 3000)
      ensures View() == Regulator.Aim(old(View()), mv)
    {
      var scMv := if mv > scMarginMv then mv - scMarginMv else 0;
      passthruReq := passthru;
      targetMv := mv;
      vSetTarget := MvToCode(mv);
      scCode := MvToCode(scMv);
    }

    method SetTargetMv(request: Uint32, vNow: Code)
      modifies this
      ensures View() == SetTarget(old(View()), request, vNow)
    {
      var mv := request;
      if mv > 3300 {
        mv := 3300;
      }
      if mv < 1800 {
        mv := 1800;
      }
      var passthru := mv > 3000;
      if passthru {
        mv := 3300;
      }
      assert mv == Fold(request);
      Aim(mv, passthru);
      Restart(vNow);
    }

    method Restart(vNow: Code)
      modifies this
      ensures View() == Regulator.Restart(old(View()), vNow)
    {
      if state == Off || state == Fault || state == Passthru {
        GatePark(4095);
      }
      vSet := if vNow < vSetTarget then vNow else vSetTarget;
      vMin := vNow;
      vMax := vNow;
      awd := false;
      state := SoftStart;
    }

    method Shutdown()
      requires Inv(View())
      modifies this
      ensures View() == Step(old(View()), ShutdownEv) && Inv(View())
    {
      StepKeepsInv(View(), ShutdownEv);
      state := Off;
      GatePark(4095);
    }

    method SetKi(num: Uint32, den: Uint32)
      requires Inv(View())
      modifies this`kiQ16
      ensures View() == Step(old(View()), SetKiEv(num, den)) && Inv(View())
    {
      StepKeepsInv(View(), SetKiEv(num, den));
      if den == 0 {
        return;
      }
      kiQ16 := GainToQ16(num, den);
    }

    method SetKp(num: Uint32, den: Uint32)
      requires Inv(View())
      modifies this`kpQ16
      ensures View() == Step(old(View()), SetKpEv(num, den)) && Inv(View())
    {
      StepKeepsInv(View(), SetKpEv(num, den));
      if den == 0 {
        return;
      }
      kpQ16 := GainToQ16(num, den);
    }

    method SetScMargin(marginMv: Uint32, vNow: Code)
      requires Inv(View())
      modifies this
      ensures View() == Step(old(View()), SetMarginEv(marginMv, vNow)) && Inv(View())
    {
      ghost var was := View();
      StepKeepsInv(was, SetMarginEv(marginMv, vNow));
      scMarginMv := marginMv;
      if targetMv != 0 {
        SetTargetMv(targetMv, vNow);
      }
    }

    method TrackReset(vNow: Code)
      requires Inv(View())
      modifies this`vMin, this`vMax
      ensures View() == Step(old(View()), TrackResetEv(vNow)) && Inv(View())
    {
      vMin := vNow;
      vMax := vNow;
    }
  }

  // ------------------------------------------------------------------
  // supply_at_rail (src/mdioprobe_api.c)

  datatype Supply = Ready | NoDevice | Faulted | TimedOut

  /** The ticks that run while the caller sleeps. */
  method Sleep(reg: Vreg, ticks: seq<Sample>)
    requires Inv(reg.View()) && (reg.state == SoftStart || Armed(reg.View()) || reg.state == Fault)
    modifies reg
    ensures Inv(reg.View()) && (reg.state == SoftStart || Armed(reg.View()) || reg.state == Fault)
    ensures reg.View() == RunTicks(old(reg.View()), ticks) && reg.targetMv == old(reg.targetMv)
    ensures reg.state == SoftStart ==> old(reg.state) == SoftStart
                                       && RampTicks(reg.View()) == RampTicks(old(reg.View())) - |ticks|
  {
    RampIsOver(reg.View(), ticks);
    for i := 0 to |ticks|
      invariant Inv(reg.View()) && RunTicks(reg.View(), ticks[i..]) == RunTicks(old(reg.View()), ticks)
    {
      assert ticks[i..][0] == ticks[i] && ticks[i..][1..] == ticks[i + 1..];
      reg.TickIsr(ticks[i]);
    }
    assert ticks[|ticks|..] == [];
  }

  /** Asks for the rail unless the supply is already on its way to it or there. */
  method RequestRail(reg: Vreg, rail: Uint32, vNow: Code)
    requires Inv(reg.View()) && rail > 0 && reg.state != Fault
    modifies reg
    ensures Inv(reg.View()) && (reg.state == SoftStart || Armed(reg.View()))
    ensures reg.targetMv == Fold(rail) || reg.targetMv == rail
    ensures old(reg.state) != Off && old(reg.targetMv) == rail ==> reg.View() == old(reg.View())
  {
    if reg.state == Off || reg.targetMv != rail {
      RetargetIsBumpless(reg.View(), rail, vNow);
      reg.SetTargetMv(rail, vNow);
    }
  }

  /** supply_at_rail polls this often, and between two polls at least this many ticks run. */
  const POLLS := 40
  const NAP_TICKS := 100

  predicate Naps(naps: seq<seq<Sample>>) {
    |naps| == POLLS && forall i :: 0 <= i < POLLS ==> |naps[i]| >= NAP_TICKS
  }

  /** The polling loop: 40 polls 5 ms apart, and in 5 ms at least 100 ticks run. The
      ramp is over by the seventh poll at the latest, so it never runs to the end. */
  method AwaitRail(reg: Vreg, naps: seq<seq<Sample>>) returns (r: Supply)
    requires Inv(reg.View()) && (reg.state == SoftStart || Armed(reg.View()))
    requires Naps(naps)
    modifies reg
    ensures Inv(reg.View()) && reg.targetMv == old(reg.targetMv)
    ensures (r == Faulted && reg.state == Fault) || (r == Ready && Armed(reg.View()))
    ensures Armed(old(reg.View())) ==> r == Ready && reg.View() == old(reg.View())
  {
    var waited := 0;
    while waited < 200
      invariant waited in {0, 5, 10, 15, 20, 25, 30}
      invariant Inv(reg.View()) && reg.targetMv == old(reg.targetMv)
      invariant reg.state == SoftStart || Armed(reg.View()) || reg.state == Fault
      invariant reg.state == SoftStart ==> RampTicks(reg.View()) + 20 * waited <= 512
      invariant waited > 0 ==> old(reg.state) == SoftStart
      invariant waited == 0 ==> reg.View() == old(reg.View())
    {
      if reg.state == On || reg.state == Passthru {
        return Ready;
      }
      if reg.state == Fault {
        return Faulted;
      }
      Sleep(reg, naps[waited / 5]);
      waited := waited + 5;
    }
    r := TimedOut;
  }

  /** Brings the supply to the bus rail and waits for it. The wait never times out:
      for a rail the detector can report the supply is there, or it faulted on the
      way. Asking again for the same rail does not restart the ramp. */
  method SupplyAtRail(reg: Vreg, rail: int, vNow: Code, naps: seq<seq<Sample>>) returns (r: Supply)
    requires Inv(reg.View()) && rail < 0x1_0000_0000
    requires Naps(naps)
    modifies reg
    ensures Inv(reg.View()) && r != TimedOut
    ensures rail <= 0 <==> r == NoDevice
    ensures r == NoDevice ==> reg.View() == old(reg.View())
    ensures r == Faulted ==> reg.state == Fault
    ensures rail > 0 && old(reg.state) == Fault ==> r == Faulted && reg.View() == old(reg.View())
    ensures r == Ready ==> Armed(reg.View()) && (rail in {1800, 2500, 3300} ==> reg.targetMv == rail)
    ensures rail > 0 && Armed(old(reg.View())) && old(reg.targetMv) == rail ==>
              r == Ready && reg.View() == old(reg.View())
  {
    if rail <= 0 {
      return NoDevice;
    }
    if reg.state == Fault {
      return Faulted;
    }
    RequestRail(reg, rail, vNow);
    r := AwaitRail(reg, naps);
  }
}
