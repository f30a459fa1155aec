/** The capture session of the API (src/mdioprobe_api.c) on top of the capture ring:
    begin, next and stop, and the passive activity layer of src/mdioprobe_led.c they
    hold. */
module CaptureSession {
  import opened Clause22
  import opened CaptureRing

  datatype Rc = Ok | Eperm | Eagain

  datatype State = State(on: bool, counted: bool, remaining: nat)

  const STOPPED := State(false, false, 0)

  /** The state a begin that is let through leaves. */
  function Begun(counted: bool, frames: nat): State {
    State(true, counted, if counted then frames else 0)
  }

  /** mdioprobe_capture_next, given whether the ring had a frame in time. */
  function Next(c: State, got: bool): (Rc, State) {
    if !c.on then (Eperm, c)
    else if !got then (Eagain, c)
    else if c.counted && c.remaining == 1 then (Rc.Ok, STOPPED)
    else if c.counted && c.remaining > 0 then (Rc.Ok, c.(remaining := c.remaining - 1))
    else (Rc.Ok, c)
  }

  /** How many of a run of calls hand a frame over, and the state after them. */
  function Handed(c: State, tries: seq<bool>): nat
    decreases |tries|
  {
    if tries == [] then 0
    else Handed(Next(c, tries[0]).1, tries[1..]) + if Next(c, tries[0]).0 == Rc.Ok then 1 else 0
  }

  function After(c: State, tries: seq<bool>): State
    decreases |tries|
  {
    if tries == [] then c else After(Next(c, tries[0]).1, tries[1..])
  }

  function Trues(tries: seq<bool>): nat {
    if tries == [] then 0 else Trues(tries[1..]) + if tries[0] then 1 else 0
  }

  lemma {:induction false} StoppedHandsNothing(c: State, tries: seq<bool>)
    requires !c.on
    ensures Handed(c, tries) == 0 && After(c, tries) == c
    decreases |tries|
  {
    if tries != [] {
      StoppedHandsNothing(c, tries[1..]);
    }
  }

  /** A counted capture hands over exactly the frames asked for, however the ring's
      answers come, and then answers Eperm; short of that it is still on. */
  lemma {:induction false} CountedCaptureIsExact(n: nat, tries: seq<bool>)
    requires n > 0
    ensures Handed(Begun(true, n), tries) == if Trues(tries) < n then Trues(tries) else n
    ensures After(Begun(true, n), tries) == if Trues(tries) < n then Begun(true, n - Trues(tries)) else STOPPED
    decreases |tries|
  {
    if tries != [] {
      if !tries[0] {
        CountedCaptureIsExact(n, tries[1..]);
      } else if n == 1 {
        StoppedHandsNothing(STOPPED, tries[1..]);
      } else {
        CountedCaptureIsExact(n - 1, tries[1..]);
      }
    }
  }

  /** An uncounted one hands over every frame the ring has and never ends by itself. */
  lemma {:induction false} OpenCaptureIsUnbounded(tries: seq<bool>)
    ensures Handed(Begun(false, 0), tries) == Trues(tries) && After(Begun(false, 0), tries).on
  {
    if tries != [] {
      OpenCaptureIsUnbounded(tries[1..]);
    }
  }

  class Session {
    const ring: Capture
    var state: State
    var depth: int               // act_passive
    ghost var since: nat         // deliveries the ring had logged when the session began
    ghost var quota: nat

    constructor (ring: Capture)
      requires ring.Valid()
      ensures Valid() && this.ring == ring && state == STOPPED
    {
      this.ring, state, depth, since, quota := ring, STOPPED, 0, |ring.log|, 0;
    }

    /** The layer is held exactly while capturing, and a counted session has so many
        frames left as its quota exceeds what the ring delivered since it began. */
    ghost predicate Valid()
      reads this, ring, ring.dma, ring.dma.ring
    {
      && ring.Valid() && since <= |ring.log|
      && (!state.on ==> state == STOPPED) && depth == (if state.on then 1 else 0)
      && (state.on && state.counted ==>
            state.remaining > 0 && state.remaining + |ring.log| == quota + since)
    }

    /** mdioprobe_led_activity_end's guard against an unmatched end. */
    static function ActivityEnd(depth: int): int {
      if depth <= 0 then depth else depth - 1
    }

    /** capture_begin past its guards: from the live edge, with the alignment re-armed. */
    method Begin(counted: bool, frames: nat)
      requires Valid() && !state.on && (counted ==> frames > 0)
      modifies this, ring
      ensures Valid() && state == Begun(counted, frames) && ring.log == old(ring.log)
      ensures since == |ring.log| && quota == (if counted then frames else 0)
      ensures ring.byteOffset == -1 && ring.mark.Pos() <= |ring.dma.stream| <= ring.mark.Pos() + 3
    {
      ring.SkipToLatest();
      var _ := ring.SetByteOffset(-1);
      state := Begun(counted, frames);
      depth := depth + 1;
      since, quota := |ring.log|, if counted then frames else 0;
    }

    method Stop()
      requires Valid()
      modifies this`state, this`depth
      ensures Valid() && state == STOPPED
    {
      var wasOn := state.on;
      state := STOPPED;
      if wasOn {
        depth := ActivityEnd(depth);
      }
    }

    /** One more frame was handed over: a counted session stops with its last. */
    method CountDown()
      requires state.on && depth == 1 && (state.counted ==> state.remaining > 0)
      modifies this`state, this`depth
      ensures state == (if !old(state.counted) then old(state)
                        else if old(state.remaining) == 1 then STOPPED
                        else old(state).(remaining := old(state.remaining) - 1))
      ensures depth == if state.on then 1 else 0
    {
      var finished := false;
      if state.counted && state.remaining > 0 {
        state := state.(remaining := state.remaining - 1);
        finished := state.remaining == 0;
      }
      if finished {
        state := STOPPED;
        depth := ActivityEnd(depth);
      }
    }

    /** mdioprobe_capture_next: refused exactly with no session; a frame handed over is the
        decoding of one more genuine delivery of the ring and nothing is delivered
        otherwise; a complete window is not missed; and a session that hands a frame over
        ends with it exactly if it was counted and its quota is delivered since it began. */
    method CaptureNext(timeoutMs: int) returns (rc: Rc, frame: Frame)
      requires Valid()
      modifies this, ring, ring.dma, ring.dma.ring
      ensures Valid() && (rc, state) == Next(old(state), |ring.log| > |old(ring.log)|)
      ensures rc == Rc.Ok ==> |ring.log| > 0 && ring.log == old(ring.log) + [ring.log[|ring.log| - 1]]
                              && frame == Decode(ring.log[|ring.log| - 1].bytes)
      ensures rc != Rc.Ok ==> ring.log == old(ring.log) && state == old(state)
      ensures rc == Eperm <==> !old(state.on)
      ensures rc == Rc.Ok ==> (state.on <==> !old(state.counted) || |ring.log| < since + quota)
      ensures old(state.on)
              && Complete(old(ring.dma.stream), old(ring.mark).Pos(), old(ring.byteOffset), ring.dma.stream) ==>
                rc == Rc.Ok && ring.log[|ring.log| - 1].before == old(ring.mark)
      ensures old(state.on) && !state.on ==> |ring.log| == since + quota
      ensures since == old(since) && quota == old(quota)
    {
      frame := Frame(0, 0, 0, 0, 0);
      if !state.on {
        return Eperm, frame;
      }
      var ms := if timeoutMs < 0 then 0 else timeoutMs;
      var r, _, _ := ring.SniffOneTo(ms);
      if r.TimedOut? {
        return Eagain, frame;
      }
      frame := r.frame;
      CountDown();
      return Rc.Ok, frame;
    }

    /** The DMA runs between calls. */
    method Elapse(bytes: nat)
      requires Valid()
      modifies ring.dma, ring.dma.ring
      ensures Valid()
    {
      ring.Elapse(bytes);
    }
  }
}
