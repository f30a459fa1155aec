/** The API's interlocks (src/mdioprobe_api.c and src/mdioprobe_serial.c) over the
    detector, the capture session, the supply, the bit-bang master and its buffer: who
    may have the connector's pins, and what each call leaves behind. API calls are
    sequential; detector polls happen between them and inside transactions. */
module Session {
  import opened Clause22
  import BusDetector
  import CaptureSession
  import Linger
  import Master
  import MasterTheorems
  import MdcClock
  import Regulator
  import VregDriver

  datatype Mode = Mdio | Uart | I2c | Unknown
  datatype Rc = Ok | Einval | Enodev | Ebusy | Ealready | Eio | Etimedout | Other

  /** Which sub-steps of a mode switch fail; a pinctrl call that fails leaves the pins
      as they were. */
  datatype Faults = Faults(parkUart: bool, parkI2c: bool, uartGone: bool, i2cGone: bool,
                           applyUart: bool, applyI2c: bool)

  /** What happens around a transaction: the control ticks while the supply settles, the
      supply's voltage when it starts, and the detector's attempts while the line is held. */
  datatype World = World(naps: seq<seq<Regulator.Sample>>, vNow: Regulator.Code, frameMs: nat,
                         polls: seq<BusDetector.Sample>)
  {
    predicate Valid() { VregDriver.Naps(naps) }
  }

  /** What a transaction clocks out. */
  function WireBits(isWrite: bool, phy: nat, regad: nat, data: Word): (s: seq<Bit>)
    ensures |s| == 64
  {
    if isWrite then Master.Header(1, phy % 32, regad % 32) + BitsOf(2, 2) + BitsOf(data, 16)
    else Master.Header(2, phy % 32, regad % 32) + Master.Ones(18)
  }

  /** What it returns, given the levels on the line and the clocks before it. */
  function Answer(isWrite: bool, data: Word, line: nat -> Bit, base: nat, strict: bool): (Rc, Word) {
    if isWrite then (Rc.Ok, data)
    else
      var (c, v) := Master.ReadOutcome(line, base, strict);
      (if c == Master.Eio then Eio else Rc.Ok, v)
  }

  /** The 64 bits `bits` are the transaction asked for, told by whoever listens: 32 ones,
      then, as the capture path shifts in and decodes them, that write; or, on a line the
      target leaves alone until the last address bit, a read of that register. */
  ghost predicate IsTransaction(bits: seq<Bit>, isWrite: bool, phy: nat, regad: nat, data: Word) {
    && |bits| == 64 && (forall k :: 0 <= k < 32 ==> bits[k] == 1)
    && (isWrite ==> Decode(ShiftIn(bits[32..])) == Frame(1, phy % 32, regad % 32, data, 0))
    && (!isWrite ==>
          forall rise: nat -> Bit, base: nat :: MasterTheorems.QuietHeader(rise, base) ==>
            var f := Decode(ShiftIn(MasterTheorems.Heard(bits, rise, base)[32..]));
            f.op == 2 && f.phy == phy % 32 && f.reg == regad % 32 && f.err == 0)
  }

  /** `rc` and `value` are what the line said to a read whose first clock followed `base`
      others: the sixteen levels at the end of the high halves of clocks 48 to 63, most
      significant first; an error if clock 47 was high and it is strict or the value is
      all ones. */
  ghost predicate IsAnswer(rc: Rc, value: Word, line: nat -> Bit, base: nat, strict: bool) {
    && (forall k :: 0 <= k < 16 ==> BitsOf(value, 16)[k] == line(base + 48 + k))
    && rc == if line(base + 47) == 1 && (strict || value == 0xFFFF) then Eio else Rc.Ok
  }

  lemma WireBitsAre(isWrite: bool, phy: nat, regad: nat, data: Word)
    ensures IsTransaction(WireBits(isWrite, phy, regad, data), isWrite, phy, regad, data)
  {
    var bits := WireBits(isWrite, phy, regad, data);
    if isWrite {
      MasterTheorems.WriteRoundTrip(phy % 32, regad % 32, data);
      assert bits[..32] == Master.Ones(32);
    } else {
      MasterTheorems.AfterPreamble(2, phy % 32, regad % 32, Master.Ones(18));
      assert bits[..32] == Master.Ones(32);
      forall rise: nat -> Bit, base: nat | MasterTheorems.QuietHeader(rise, base)
        ensures var f := Decode(ShiftIn(MasterTheorems.Heard(bits, rise, base)[32..]));
                f.op == 2 && f.phy == phy % 32 && f.reg == regad % 32 && f.err == 0
      {
        MasterTheorems.ReadSeenByCapture(rise, rise, base, phy % 32, regad % 32, true);
      }
    }
    forall k | 0 <= k < 32 ensures bits[k] == 1 {
      assert bits[k] == bits[..32][k];
    }
  }

  lemma LastOfThem(before: seq<Bit>, wire: seq<Bit>, isWrite: bool, phy: nat, regad: nat, data: Word)
    requires wire == before + WireBits(isWrite, phy, regad, data)
    ensures before <= wire && IsTransaction(wire[|before|..], isWrite, phy, regad, data)
  {
    assert wire[|before|..] == WireBits(isWrite, phy, regad, data);
    WireBitsAre(isWrite, phy, regad, data);
  }

  /** A write answers with what it wrote, a read with what the line said. */
  ghost predicate IsReply(rc: Rc, value: Word, isWrite: bool, data: Word, line: nat -> Bit, base: nat, strict: bool) {
    if isWrite then rc == Rc.Ok && value == data else IsAnswer(rc, value, line, base, strict)
  }

  lemma ReplyIs(rc: Rc, value: Word, isWrite: bool, data: Word, line: nat -> Bit, base: nat, strict: bool)
    requires (rc, value) == Answer(isWrite, data, line, base, strict)
    ensures IsReply(rc, value, isWrite, data, line, base, strict)
  {
    if !isWrite {
      AnswerIs(line, base, data, strict);
    }
  }

  lemma AnswerIs(line: nat -> Bit, base: nat, data: Word, strict: bool)
    ensures var (rc, value) := Answer(false, data, line, base, strict); IsAnswer(rc, value, line, base, strict)
  {
    LevelsAre(line, base + 48);
  }

  lemma LevelsAre(line: nat -> Bit, first: nat)
    ensures var value := Pack(Master.Sampled(line, first, 16));
            value < 0x1_0000 && forall k :: 0 <= k < 16 ==> BitsOf(value, 16)[k] == line(first + k)
  {
    var levels := Master.Sampled(line, first, 16);
    PackBelow(levels);
    MasterTheorems.ShlWord(0);
    PackBitsOf(Pack(levels), 16);
    MasterTheorems.PackInjective(BitsOf(Pack(levels), 16), levels);
  }

  class Probe {
    const det: BusDetector.Detector
    const cap: CaptureSession.Session
    const reg: VregDriver.Vreg
    const pins: Master.Pins
    const clk: MdcClock.Clock
    const buffer: Linger.Buffer
    var mode: Mode
    var uartLive: bool          // the pins are in the driver's default state
    var i2cLive: bool
    var busDepth: int           // act_bus
    var strictTa: bool

    /** Before boot both serial drivers have taken their pins, the one they share with the
        master among them. */
    constructor (cap: CaptureSession.Session, clk: MdcClock.Clock)
      requires cap.Valid() && !cap.state.on && clk.Valid() && !clk.initialised
      requires clk.pins.Idle() && !clk.pins.enabled && clk.pins.lent
      ensures this.cap == cap && this.clk == clk && Parts()
      ensures mode == Mdio && uartLive && i2cLive && busDepth == 0 && !buffer.on && !cap.state.on && pins.lent
    {
      this.cap, this.clk, this.pins := cap, clk, clk.pins;
      det := new BusDetector.Detector();
      reg := new VregDriver.Vreg();
      buffer := new Linger.Buffer(0, clk.pins);
      mode, uartLive, i2cLive, busDepth, strictTa := Mdio, true, true, 0, true;
    }

    /** The master: one set of pins, set up before its buffer is ever on. */
    ghost predicate MasterOk()
      reads this, pins, clk, buffer
    {
      && clk.pins == pins && buffer.pins == pins && pins.Idle()
      && clk.Valid() && buffer.Valid() && !buffer.locked
      && (buffer.on ==> clk.initialised) && (clk.initialised ==> clk.slopeNum > 0)
    }

    /** Every part is in order by itself, and no call is under way. */
    ghost predicate Parts()
      reads this, det, cap, cap.ring, cap.ring.dma, cap.ring.dma.ring, reg, pins, clk, buffer
    {
      && det.Valid() && cap.Valid() && Regulator.Inv(reg.View()) && MasterOk()
    }

    /** A serial driver that is live has the pad it shares with the master. */
    predicate HasItsPad()
      reads this, pins
    {
      uartLive || i2cLive ==> pins.lent
    }

    /** Session safety: capture only in MDIO mode; the buffer only with both serial
        personalities parked; at most one personality live, the one the mode names; the
        pad lent to none but a live one; nothing held between calls. */
    ghost predicate Safe()
      reads this, det, cap, buffer, pins
    {
      && mode != Unknown
      && (uartLive ==> mode == Uart) && (i2cLive ==> mode == I2c)
      && (buffer.on ==> mode == Mdio && !uartLive && !i2cLive)
      && (cap.state.on ==> mode == Mdio)
      && (pins.lent ==> uartLive || i2cLive)
      && busDepth == 0 && det.inhibit == 0
    }

    /** mdioprobe_mdio_master_release. */
    method MasterRelease()
      requires MasterOk()
      modifies buffer, pins
      ensures MasterOk() && !buffer.on && pins.wire == old(pins.wire) && pins.steady == old(pins.steady)
      ensures !pins.lent
    {
      pins.MdcSet(false);
      buffer.HandBack();
      pins.HighZ();
    }

    /** mdioprobe_serial_set_mode. Entering MDIO mode sets the master up afresh, and times
        its bit loop doing so; with the buffer handed back none of those clocks gets out.
        The release takes the pad before anything is parked, so a driver that could not be
        parked is left live without it. */
    method SerialSetMode(want: Mode, f: Faults) returns (rc: Rc)
      requires MasterOk()
      modifies this`mode, this`uartLive, this`i2cLive, buffer, pins, clk
      ensures MasterOk() && !buffer.on && pins.wire == old(pins.wire) && pins.steady == old(pins.steady)
      ensures rc == Rc.Ok <==>
                && !f.parkUart && !f.parkI2c && want != Unknown
                && (want == Uart ==> !f.uartGone && !f.applyUart) && (want == I2c ==> !f.i2cGone && !f.applyI2c)
      ensures mode == if rc == Rc.Ok then want else old(mode)
      ensures rc == Rc.Ok ==> uartLive == (want == Uart) && i2cLive == (want == I2c)
      ensures rc != Rc.Ok ==> uartLive == (old(uartLive) && f.parkUart)
      ensures rc != Rc.Ok ==> i2cLive == (old(i2cLive) && (f.parkUart || f.parkI2c))
      ensures pins.lent == (rc == Rc.Ok && want != Mdio)
      ensures clk.khz == old(clk.khz) && clk.initialised == (old(clk.initialised) || (rc == Rc.Ok && want == Mdio))
    {
      MasterRelease();
      if f.parkUart {
        return Other;
      }
      uartLive := false;
      if f.parkI2c {
        return Other;
      }
      i2cLive := false;
      match want {
        case Mdio => clk.Init();
        case Uart =>
          if f.uartGone {
            return Enodev;
          }
          if f.applyUart {
            return Other;
          }
          uartLive := true;
          pins.Lend();
        case I2c =>
          if f.i2cGone {
            return Enodev;
          }
          if f.applyI2c {
            return Other;
          }
          i2cLive := true;
          pins.Lend();
        case Unknown => return Einval;
      }
      mode := want;
      return Rc.Ok;
    }

    /** mdioprobe_init ignores what serial_init says: the session is safe from the start
        exactly if both pin sets could be parked. */
    method Boot(f: Faults)
      requires Parts() && mode == Mdio && uartLive && i2cLive && busDepth == 0 && det.inhibit == 0
      modifies this, buffer, pins, clk
      ensures Parts() && (Safe() <==> !f.parkUart && !f.parkI2c)
    {
      var _ := SerialSetMode(Mdio, f);
    }

    /** capture_begin: six outcomes in this order. */
    method CaptureBegin(counted: bool, frames: nat) returns (rc: Rc)
      requires Parts() && Safe()
      modifies cap, cap.ring
      ensures Parts() && Safe()
      ensures rc == if !det.Ready() then Enodev
                    else if mode != Mdio then Ebusy
                    else if counted && frames == 0 then Einval
                    else if det.NominalMv() <= 0 then Enodev
                    else if old(cap.state.on) then Ealready
                    else Rc.Ok
      ensures cap.state == if rc == Rc.Ok then CaptureSession.Begun(counted, frames) else old(cap.state)
      ensures rc == Rc.Ok ==> cap.since == |cap.ring.log| && cap.ring.byteOffset == -1
      ensures cap.ring.log == old(cap.ring.log)
    {
      if !det.Ready() {
        return Enodev;
      }
      if mode != Mdio {
        return Ebusy;
      }
      if counted && frames == 0 {
        return Einval;
      }
      if det.NominalMv() <= 0 {
        return Enodev;
      }
      if cap.state.on {
        return Ealready;
      }
      cap.Begin(counted, frames);
      return Rc.Ok;
    }

    /** mdioprobe_capture_next keeps the session safe; its contract is the session's. */
    method CaptureNext(timeoutMs: int) returns (rc: CaptureSession.Rc, frame: Frame)
      requires Parts() && Safe()
      modifies cap, cap.ring, cap.ring.dma, cap.ring.dma.ring
      ensures Parts() && Safe()
      ensures (rc, cap.state) == CaptureSession.Next(old(cap.state), |cap.ring.log| > |old(cap.ring.log)|)
    {
      rc, frame := cap.CaptureNext(timeoutMs);
    }

    /** mdioprobe_connector_set_mode: leaving MDIO ends a capture, whether or not the
        switch then goes through. A driver left live has its pad exactly if it did. */
    method ConnectorSetMode(want: Mode, f: Faults) returns (rc: Rc)
      requires Parts() && Safe()
      modifies this, cap, buffer, pins, clk
      ensures Parts() && Safe() && !buffer.on && pins.wire == old(pins.wire)
      ensures mode == if rc == Rc.Ok then want else old(mode)
      ensures cap.state == if want == Mdio then old(cap.state) else CaptureSession.STOPPED
      ensures rc == Rc.Ok ==> uartLive == (want == Uart) && i2cLive == (want == I2c)
      ensures HasItsPad() <==> rc == Rc.Ok || !(uartLive || i2cLive)
      ensures clk.initialised == (old(clk.initialised) || (rc == Rc.Ok && want == Mdio))
      ensures rc == Rc.Ok <==>
                && !f.parkUart && !f.parkI2c && want != Unknown
                && (want == Uart ==> !f.uartGone && !f.applyUart) && (want == I2c ==> !f.i2cGone && !f.applyI2c)
    {
      if want != Mdio && cap.state.on {
        cap.Stop();
      }
      rc := SerialSetMode(want, f);
    }

    // ---- transactions -----------------------------------------------------------

    /** The guards of master_xfer that come before the supply. */
    function Refusal(): Rc
      reads this, det
    {
      if !det.Ready() then Enodev else if mode != Mdio then Ebusy
      else if det.NominalMv() <= 0 then Enodev else Rc.Ok
    }

    /** transact_frame, either way. */
    method SendFrame(isWrite: bool, phy: nat, regad: nat, data: Word) returns (rc: Rc, value: Word)
      requires pins.Idle()
      modifies pins
      ensures pins.Taken(WireBits(isWrite, phy, regad, data))
      ensures (rc, value) == Answer(isWrite, data, pins.high, old(pins.count), strictTa)
    {
      var c;
      if isWrite {
        c := pins.WriteFrame(phy, regad, data);
        value := data;
      } else {
        c, value := pins.ReadFrame(phy, regad, strictTa);
      }
      rc := if c == Master.Eio then Eio else Rc.Ok;
    }

    /** Exactly one frame went out on the wire, its answer is what the line says at its
        64 clocks, and the buffer has just begun to linger. */
    twostate predicate Sent(isWrite: bool, phy: nat, regad: nat, data: Word, rc: Rc, value: Word)
      reads this, pins, buffer
    {
      && buffer.on && buffer.now == buffer.lastFrame && pins.count >= 64 && !pins.lent
      && pins.wire == old(pins.wire) + WireBits(isWrite, phy, regad, data)
      && (rc, value) == Answer(isWrite, data, pins.high, pins.count - 64, strictTa)
    }

    /** The master set up if it is not yet, and the buffer brought up: no clock gets out. */
    method BufferUp()
      requires MasterOk()
      modifies buffer, pins, clk
      ensures clk.pins == pins && clk.Valid() && clk.initialised && clk.slopeNum > 0
      ensures buffer.pins == pins && buffer.Valid() && buffer.locked && buffer.on && pins.Idle()
      ensures pins.wire == old(pins.wire) && pins.steady == old(pins.steady)
    {
      if !clk.initialised {
        clk.Init();
      }
      buffer.Begin(reg.state == Regulator.Passthru);
    }

    /** The frame, and the end of the transaction. */
    method FrameOut(isWrite: bool, phy: nat, regad: nat, data: Word, frameMs: nat) returns (rc: Rc, value: Word)
      requires pins.Idle() && buffer.pins == pins && buffer.Valid() && buffer.locked && buffer.on
      modifies buffer, pins
      ensures pins.Idle() && buffer.Valid() && !buffer.locked
      ensures pins.steady == old(pins.steady) && Sent(isWrite, phy, regad, data, rc, value)
    {
      rc, value := SendFrame(isWrite, phy, regad, data);
      buffer.Frame(frameMs);
      buffer.End();
    }

    /** transact, with the detector's thread running alongside. */
    method Transact(isWrite: bool, phy: nat, regad: nat, data: Word, w: World) returns (rc: Rc, value: Word)
      requires det.Valid() && det.inhibit > 0 && MasterOk()
      modifies det, buffer, pins, clk
      ensures det.Valid() && det.inhibit == old(det.inhibit) && det.polls == old(det.polls)
      ensures det.NominalMv() == old(det.NominalMv()) && det.Ready() == old(det.Ready())
      ensures MasterOk() && pins.steady == old(pins.steady) && Sent(isWrite, phy, regad, data, rc, value)
    {
      BufferUp();
      PollWhileHeld(w.polls);
      rc, value := FrameOut(isWrite, phy, regad, data, w.frameMs);
    }

    method PollWhileHeld(polls: seq<BusDetector.Sample>)
      requires det.Valid() && det.inhibit > 0
      modifies det
      ensures det.Valid() && det.inhibit == old(det.inhibit) && det.polls == old(det.polls)
      ensures det.present == old(det.present) && det.NominalMv() == old(det.NominalMv())
      ensures det.Ready() == old(det.Ready())
    {
      for i := 0 to |polls|
        invariant det.Valid() && det.inhibit == old(det.inhibit) && det.polls == old(det.polls)
        invariant det.present == old(det.present) && det.NominalMv() == old(det.NominalMv())
        invariant det.forced == old(det.forced)
      {
        det.Poll(polls[i]);
      }
    }

    /** What master_xfer does, step by step. Refused, or with a supply that faults, nothing
        is clocked out. Otherwise the supply is armed at the bus rail before the frame,
        exactly one frame goes out, and detector and depths are as they were. */
    method Exchange(isWrite: bool, phy: nat, regad: nat, data: Word, w: World) returns (rc: Rc, value: Word)
      requires Parts() && Safe() && w.Valid()
      modifies this`busDepth, det, buffer, reg, pins, clk
      ensures Parts() && Safe()
      ensures det.polls == old(det.polls) && det.NominalMv() == old(det.NominalMv()) && det.Ready() == old(det.Ready())
      ensures old(Refusal()) != Rc.Ok ==> rc == old(Refusal()) && reg.View() == old(reg.View())
      ensures old(Refusal()) == Rc.Ok ==>
                if reg.state == Regulator.Fault then rc == Eio
                else Regulator.Armed(reg.View()) && reg.targetMv == det.NominalMv()
      ensures old(Refusal()) != Rc.Ok || reg.state == Regulator.Fault ==>
                pins.wire == old(pins.wire) && buffer.on == old(buffer.on)
      ensures old(Refusal()) == Rc.Ok && reg.state != Regulator.Fault ==>
                Sent(isWrite, phy, regad, data, rc, value)
    {
      value := 0;
      rc := Refusal();
      if rc == Rc.Ok {
        rc, value := Carry(isWrite, phy, regad, data, w);
      }
    }

    /** Past the guards. */
    method Carry(isWrite: bool, phy: nat, regad: nat, data: Word, w: World) returns (rc: Rc, value: Word)
      requires det.Valid() && det.inhibit == 0 && busDepth == 0 && MasterOk() && Regulator.Inv(reg.View())
      requires w.Valid() && Refusal() == Rc.Ok
      modifies this`busDepth, det, buffer, reg, pins, clk
      ensures det.Valid() && det.inhibit == 0 && busDepth == 0 && MasterOk() && Regulator.Inv(reg.View())
      ensures pins.lent ==> old(pins.lent)
      ensures det.polls == old(det.polls) && det.NominalMv() == old(det.NominalMv()) && det.Ready() == old(det.Ready())
      ensures if reg.state == Regulator.Fault
              then rc == Eio && pins.wire == old(pins.wire) && buffer.on == old(buffer.on)
              else && Regulator.Armed(reg.View()) && reg.targetMv == det.NominalMv()
                   && Sent(isWrite, phy, regad, data, rc, value)
    {
      value := 0;
      var ready := BringUp(w);
      if !ready {
        return Eio, value;
      }
      rc, value := Held(isWrite, phy, regad, data, w);
    }

    /** master_xfer, for reads and writes, told from outside. It is refused with no target,
        outside MDIO mode and with no rail, in this order; refused, or with a supply that
        faults, nothing reaches the wire. Otherwise the supply is armed at the bus rail,
        one transaction goes out on the wire, the one asked for, the answer is what the
        line says, and detector and depths are as they were. */
    method MasterXfer(isWrite: bool, phy: nat, regad: nat, data: Word, w: World) returns (rc: Rc, value: Word)
      requires Parts() && Safe() && w.Valid()
      modifies this`busDepth, det, buffer, reg, pins, clk
      ensures Parts() && Safe()
      ensures det.polls == old(det.polls) && det.NominalMv() == old(det.NominalMv()) && det.Ready() == old(det.Ready())
      ensures !det.Ready() ==> rc == Enodev
      ensures det.Ready() && mode != Mdio ==> rc == Ebusy
      ensures det.Ready() && mode == Mdio && det.NominalMv() <= 0 ==> rc == Enodev
      ensures old(Reaches()) ==>
                if reg.state == Regulator.Fault then rc == Eio
                else Regulator.Armed(reg.View()) && reg.targetMv == det.NominalMv()
      ensures !old(Reaches()) ==> reg.View() == old(reg.View())
      ensures !old(Reaches()) || reg.state == Regulator.Fault ==>
                pins.wire == old(pins.wire) && buffer.on == old(buffer.on)
      ensures old(Reaches()) && reg.state != Regulator.Fault ==>
                Understood(old(pins.wire), isWrite, phy, regad, data, rc, value)
    {
      ghost var before := pins.wire;
      rc, value := Exchange(isWrite, phy, regad, data, w);
      if old(Reaches()) && reg.state != Regulator.Fault {
        SentIsThat(before, isWrite, phy, regad, data, rc, value);
      }
    }

    /** No guard is in the way of a transaction. */
    predicate Reaches()
      reads this, det
    {
      det.Ready() && mode == Mdio && det.NominalMv() > 0
    }

    /** After `before` one transaction went out, the one asked for; a write answers with
        what it wrote, a read with the levels of its own clocks; and the buffer lingers. */
    ghost predicate Understood(before: seq<Bit>, isWrite: bool, phy: nat, regad: nat, data: Word, rc: Rc, value: Word)
      reads this, pins, buffer
    {
      && before <= pins.wire && IsTransaction(pins.wire[|before|..], isWrite, phy, regad, data)
      && pins.count >= 64 && buffer.on && buffer.now == buffer.lastFrame
      && IsReply(rc, value, isWrite, data, pins.high, pins.count - 64, strictTa)
    }

    lemma SentIsThat(before: seq<Bit>, isWrite: bool, phy: nat, regad: nat, data: Word, rc: Rc, value: Word)
      requires pins.wire == before + WireBits(isWrite, phy, regad, data)
      requires pins.count >= 64 && buffer.on && buffer.now == buffer.lastFrame
      requires (rc, value) == Answer(isWrite, data, pins.high, pins.count - 64, strictTa)
      ensures Understood(before, isWrite, phy, regad, data, rc, value)
    {
      LastOfThem(before, pins.wire, isWrite, phy, regad, data);
      ReplyIs(rc, value, isWrite, data, pins.high, pins.count - 64, strictTa);
    }

    /** supply_at_rail for the known rail. */
    method BringUp(w: World) returns (ready: bool)
      requires det.Valid() && det.NominalMv() > 0 && Regulator.Inv(reg.View()) && w.Valid()
      modifies reg
      ensures Regulator.Inv(reg.View()) && (ready <==> reg.state != Regulator.Fault)
      ensures ready ==> Regulator.Armed(reg.View()) && reg.targetMv == det.NominalMv()
    {
      det.RailKnown();
      var supply := VregDriver.SupplyAtRail(reg, det.NominalMv(), w.vNow, w.naps);
      ready := supply == VregDriver.Ready;
    }

    /** The transaction itself, with the bus layer up. */
    method Layered(isWrite: bool, phy: nat, regad: nat, data: Word, w: World) returns (rc: Rc, value: Word)
      requires det.Valid() && det.inhibit > 0 && busDepth == 0 && MasterOk()
      modifies this`busDepth, det, buffer, pins, clk
      ensures det.Valid() && det.inhibit == old(det.inhibit) && det.polls == old(det.polls) && busDepth == 0
      ensures det.NominalMv() == old(det.NominalMv()) && det.Ready() == old(det.Ready())
      ensures MasterOk() && pins.steady == old(pins.steady) && Sent(isWrite, phy, regad, data, rc, value)
    {
      busDepth := busDepth + 1;
      rc, value := Transact(isWrite, phy, regad, data, w);
      busDepth := CaptureSession.Session.ActivityEnd(busDepth);
    }

    /** And with the detector held off. */
    method Held(isWrite: bool, phy: nat, regad: nat, data: Word, w: World) returns (rc: Rc, value: Word)
      requires det.Valid() && det.inhibit == 0 && busDepth == 0 && MasterOk()
      modifies this`busDepth, det, buffer, pins, clk
      ensures det.Valid() && det.inhibit == 0 && busDepth == 0 && det.polls == old(det.polls)
      ensures det.NominalMv() == old(det.NominalMv()) && det.Ready() == old(det.Ready())
      ensures MasterOk() && pins.steady == old(pins.steady) && Sent(isWrite, phy, regad, data, rc, value)
    {
      det.Inhibit(true);
      rc, value := Layered(isWrite, phy, regad, data, w);
      det.Inhibit(false);
    }

    // ---- the other calls ------------------------------------------------------------

    /** mdioprobe_c22_set_clock. It looks at neither the mode nor the buffer: clocks reach
        the wire if and only if the rate is accepted, the master is set up and the buffer
        is on; and a live serial driver keeps its pad if and only if nothing is timed. */
    method SetClock(khz: nat) returns (rc: Rc)
      requires Parts() && Safe()
      modifies pins, clk
      ensures Parts() && Safe() && pins.steady == old(pins.steady)
      ensures rc == (if MdcClock.MIN_KHZ <= khz <= MdcClock.MAX_KHZ then Rc.Ok else Einval)
      ensures clk.khz == if rc == Rc.Ok then khz else old(clk.khz)
      ensures old(pins.wire) <= pins.wire
      ensures pins.wire == old(pins.wire) <==> rc == Einval || !clk.initialised || !buffer.on
      ensures old(HasItsPad()) ==>
                (HasItsPad() <==> !(uartLive || i2cLive) || rc == Einval || !clk.initialised)
      ensures clk.initialised == old(clk.initialised)
      ensures rc == Rc.Ok && clk.initialised ==>
                clk.Measured() >= 16 * MdcClock.Want(khz) && clk.WithinSpec() && clk.CloseEnough()
    {
      var c;
      ghost var timed;
      c, timed := clk.SetClock(khz);
      rc := if c == MdcClock.Einval then Einval else Rc.Ok;
    }

    method MeasureClock() returns (rate: nat)
      requires Parts() && Safe()
      modifies pins
      ensures Parts() && Safe() && pins.steady == old(pins.steady)
      ensures old(pins.wire) <= pins.wire
      ensures pins.wire == old(pins.wire) <==> !clk.initialised || !buffer.on
      ensures old(HasItsPad()) ==> (HasItsPad() <==> !(uartLive || i2cLive) || !clk.initialised)
    {
      rate := clk.MeasureClock();
    }

    /** Setting the clock `ms` after a transaction went through: its timing reaches the
        wire if and only if the rate is accepted and the buffer still lingers, which it
        does for 20 ms. */
    method SetClockAfterTransaction(isWrite: bool, phy: nat, regad: nat, data: Word, w: World,
                                    ms: nat, bytes: nat, s: Regulator.Sample, khz: nat)
      returns (sent: bool, ghost before: seq<Bit>)
      requires Parts() && Safe() && w.Valid()
      modifies this`busDepth, det, buffer, reg, pins, clk, cap.ring.dma, cap.ring.dma.ring
      ensures Parts() && Safe()
      ensures sent ==> before == old(pins.wire) + WireBits(isWrite, phy, regad, data)
      ensures sent ==> (pins.wire == before <==> !(MdcClock.MIN_KHZ <= khz <= MdcClock.MAX_KHZ) || ms >= Linger.LINGER)
    {
      var refused := Refusal() != Rc.Ok;
      var rc, value := Exchange(isWrite, phy, regad, data, w);
      before := pins.wire;
      sent := !refused && reg.state != Regulator.Fault;
      SetClockLater(ms, bytes, s, khz);
    }

    method SetClockLater(ms: nat, bytes: nat, s: Regulator.Sample, khz: nat)
      requires Parts() && Safe()
      modifies reg, buffer, pins, clk, cap.ring.dma, cap.ring.dma.ring
      ensures Parts() && Safe()
      ensures old(buffer.on) && old(buffer.now) == old(buffer.lastFrame) ==>
                (pins.wire == old(pins.wire)
                 <==> !(MdcClock.MIN_KHZ <= khz <= MdcClock.MAX_KHZ) || ms >= Linger.LINGER)
    {
      Quiet(ms, bytes, s);
      var _ := SetClock(khz);
    }

    /** A serial mode entered on a probe that has been in MDIO mode, and then the clock set:
        the driver loses its pad exactly if the rate is accepted. */
    method SetClockInSerialMode(want: Mode, f: Faults, khz: nat) returns (entered: bool)
      requires Parts() && Safe() && clk.initialised && (want == Uart || want == I2c)
      modifies this, cap, buffer, pins, clk
      ensures Parts() && Safe() && pins.wire == old(pins.wire)
      ensures entered ==> mode == want && uartLive == (want == Uart) && i2cLive == (want == I2c)
      ensures entered ==> (HasItsPad() <==> !(MdcClock.MIN_KHZ <= khz <= MdcClock.MAX_KHZ))
    {
      var rc := ConnectorSetMode(want, f);
      entered := rc == Rc.Ok;
      if entered {
        var _ := SetClock(khz);
      }
    }

    method CaptureStop()
      requires Parts() && Safe()
      modifies cap
      ensures Parts() && Safe() && cap.state == CaptureSession.STOPPED
    {
      cap.Stop();
    }

    /** mdioprobe_bus_force_level. */
    method ForceLevel(mv: int) returns (rc: BusDetector.Rc)
      requires Parts() && Safe()
      modifies det
      ensures Parts() && Safe() && (rc == BusDetector.Rc.Ok <==> mv == 0 || BusDetector.Rail(mv))
    {
      rc := det.ForceLevel(mv);
    }

    /** mdioprobe_vreg_set and mdioprobe_vreg_off. */
    method SupplySet(mv: Regulator.Uint32, vNow: Regulator.Code) returns (rc: Rc)
      requires Parts() && Safe()
      modifies reg
      ensures Parts() && Safe()
      ensures if mv < 1800 then rc == Einval && reg.View() == old(reg.View())
              else rc == Rc.Ok && reg.View() == Regulator.SetTarget(old(reg.View()), mv, vNow)
    {
      if mv < 1800 {
        return Einval;
      }
      Regulator.StepKeepsInv(reg.View(), Regulator.SetTargetEv(mv, vNow));
      reg.SetTargetMv(mv, vNow);
      return Rc.Ok;
    }

    method SupplyOff()
      requires Parts() && Safe()
      modifies reg
      ensures Parts() && Safe() && reg.state == Regulator.Off
    {
      reg.Shutdown();
    }

    // ---- between calls -----------------------------------------------------------

    method DetectorPoll(s: BusDetector.Sample)
      requires Parts() && Safe()
      modifies det
      ensures Parts() && Safe() && det.polls == old(det.polls) + [BusDetector.Verdict(s)]
    {
      det.Poll(s);
    }

    /** The buffer's share of quiet time. */
    method Lingers(ms: nat)
      requires MasterOk()
      modifies buffer, pins`enabled
      ensures MasterOk() && buffer.now == old(buffer.now) + ms && buffer.lastFrame == old(buffer.lastFrame)
      ensures buffer.on <==> old(buffer.on) && buffer.now < buffer.lastFrame + Linger.LINGER
    {
      var _ := buffer.Rest(ms);
    }

    /** The DMA and the control tick do not wait for anyone. */
    method RunsOn(bytes: nat, s: Regulator.Sample)
      requires cap.Valid() && Regulator.Inv(reg.View())
      modifies reg, cap.ring.dma, cap.ring.dma.ring
      ensures cap.Valid() && Regulator.Inv(reg.View())
    {
      cap.Elapse(bytes);
      reg.TickIsr(s);
    }

    /** Quiet time on the bus: the buffer lingers, the DMA and the control tick run on. */
    method Quiet(ms: nat, bytes: nat, s: Regulator.Sample)
      requires Parts() && Safe()
      modifies buffer, pins, reg, cap.ring.dma, cap.ring.dma.ring
      ensures Parts() && Safe() && pins.wire == old(pins.wire) && buffer.lastFrame == old(buffer.lastFrame)
      ensures pins.lent == old(pins.lent)
      ensures buffer.now == old(buffer.now) + ms
      ensures buffer.on <==> old(buffer.on) && buffer.now < buffer.lastFrame + Linger.LINGER
    {
      Lingers(ms);
      RunsOn(bytes, s);
    }
  }
}
