/** How long the MDC buffer stays on the bus (buffer_up, buffer_release and transact in
    src/mdioprobe_mdio_master.c). The work queue runs due work on time: the clock does
    not pass a due release while nobody holds the master lock. */
module Linger {
  import Master

  /** Milliseconds of quiet before the buffer is let go. */
  const LINGER := 20

  class Buffer {
    const pins: Master.Pins     // its enable pin among them
    var now: int                // k_uptime_get()
    var on: bool
    var lastUse: int
    var pending: bool           // the release work is scheduled, for `due`
    var due: int
    var locked: bool            // a transaction holds the master lock
    ghost var lastFrame: int    // when the last frame ended
    ghost var offs: nat         // how often the buffer was let go

    constructor (now: int, pins: Master.Pins)
      requires pins.Idle() && !pins.enabled
      ensures Valid() && !on && !locked && this.now == now && this.pins == pins && offs == 0
    {
      this.pins := pins;
      this.now, on, lastUse, pending, due, locked, lastFrame, offs := now, false, 0, false, 0, false, now, 0;
    }

    /** The flag says what the pin does; a release is pending exactly while the buffer is
        on; a frame only ever runs with it on; and outside a transaction the release
        comes at most 20 ms after the last frame ended. */
    ghost predicate Valid()
      reads this, pins
    {
      && on == pins.enabled && !pins.mdc && (on <==> pending)
      && (locked ==> on)
      && (on ==> lastUse <= now && due <= now + LINGER)
      && (on && !locked ==> lastUse == lastFrame && due <= lastUse + LINGER)
      && lastFrame <= now
    }

    /** The work queue is up to date: no release is overdue. */
    ghost predicate OnTime()
      reads this
    {
      pending ==> now <= due
    }

    /** buffer_up, at the start of a transaction. */
    method Begin(passthru: bool)
      requires Valid() && !locked
      modifies this, pins`enabled
      ensures Valid() && locked && on && lastFrame == old(lastFrame) && offs == old(offs)
      ensures old(on) ==> now == old(now) && due == old(due) && lastUse == old(lastUse)
      ensures !old(on) ==> now == old(now) + (if passthru then 0 else 1) && due == now + LINGER
    {
      locked := true;
      if on {
        return;
      }
      pins.BufferEnable(true);
      on := true;
      lastUse := now;
      if !passthru {
        now := now + 1;           // the settle, a busy wait of 1000 us
      }
      pending, due := true, now + LINGER;
    }

    /** The frame takes its time; a release that falls due waits for the lock. */
    method Frame(ms: nat)
      requires Valid() && locked
      modifies this`now
      ensures Valid() && now == old(now) + ms
    {
      now := now + ms;
    }

    method End()
      requires Valid() && locked
      modifies this
      ensures Valid() && !locked && on && lastUse == now == old(now) && lastFrame == now
      ensures due == old(due) && offs == old(offs)
    {
      lastUse := now;
      locked := false;
      lastFrame := now;
    }

    /** buffer_release, once due and holding the lock. */
    method Release()
      requires Valid() && !locked && pending && due <= now
      modifies this, pins`enabled
      ensures Valid() && OnTime() && !locked && now == old(now) && lastFrame == old(lastFrame)
      ensures on <==> now < lastFrame + LINGER
      ensures offs == old(offs) + if on then 0 else 1
      ensures on ==> due == lastFrame + LINGER
      ensures !on && old(due) == old(now) ==> now == lastFrame + LINGER
    {
      pending := false;
      if on {
        var idle := now - lastUse;
        if idle >= LINGER {
          pins.BufferEnable(false);
          on := false;
          offs := offs + 1;
        } else {
          pending, due := true, now + (LINGER - idle);
        }
      }
    }

    /** mdioprobe_mdio_master_release: the bus handed back at once, and the pending
        release cancelled. */
    method HandBack()
      requires Valid() && !locked
      modifies this, pins`enabled
      ensures Valid() && !on && !pending && !locked && now == old(now) && lastFrame == old(lastFrame)
    {
      pending := false;
      pins.BufferEnable(false);
      on := false;
    }

    /** Time passes with nobody on the bus, up to the next due release. */
    method Quiet(ms: nat)
      requires Valid() && OnTime() && !locked && (pending ==> now + ms <= due)
      modifies this`now
      ensures Valid() && OnTime() && now == old(now) + ms
      ensures on ==> now <= lastFrame + LINGER
    {
      now := now + ms;
    }

    /** `ms` of quiet, releases run as they fall due: the buffer is off at the end if and
        only if the last frame is at least 20 ms back, it went off exactly 20 ms after
        that frame, and it does not come on by itself. */
    method Rest(ms: nat) returns (ghost offAt: int)
      requires Valid() && !locked
      modifies this, pins`enabled
      ensures Valid() && OnTime() && !locked && now == old(now) + ms && lastFrame == old(lastFrame)
      ensures on <==> old(on) && now < lastFrame + LINGER
      ensures old(on) && !on && old(OnTime()) ==> offAt == lastFrame + LINGER
    {
      var left: nat := ms;
      offAt := now;
      ghost var late := !OnTime();
      while left > 0 || (pending && due <= now)
        invariant Valid() && !locked && lastFrame == old(lastFrame)
        invariant now + left == old(now) + ms
        invariant on ==> old(on)
        invariant !on && old(on) ==> now >= lastFrame + LINGER
        invariant !on && old(on) && old(OnTime()) ==> offAt == lastFrame + LINGER
        invariant !late ==> OnTime()
        invariant late == old(!OnTime()) || OnTime()
        decreases left, if pending && due <= now then 1 else 0
      {
        if pending && due <= now {
          Release();
          late := false;
          offAt := now;
        } else {
          var step := if pending && due - now < left then due - now else left;
          Quiet(step);
          left := left - step;
        }
      }
    }
  }
}
