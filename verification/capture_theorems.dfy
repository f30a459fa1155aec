/** What a caller of the capture ring may rely on over a whole session, whatever
    the DMA did and whenever it did it. Every reachable state of a
    `CaptureRing.Capture` satisfies `Valid`, so its log satisfies `History`. */
module CaptureTheorems {
  import opened Clause22
  import opened CaptureRing

  /** Any delivery of the session is four consecutive stream bytes, and the cursor
      went from it to the next only by skips, laps, overruns and restarts. */
  lemma {:induction false} DeliveriesAreGenuine(log: seq<Delivery>, s: seq<Byte>, now: Mark, i: nat)
    requires History(log, s, now) && i < |log|
    ensures Genuine(log[i], s)
    ensures Follows(log[i].After(), if i + 1 < |log| then log[i + 1].before else now)
    decreases |log|
  {
    if i + 1 < |log| {
      DeliveriesAreGenuine(log[..|log| - 1], s, log[|log| - 1].before, i);
    }
  }

  /** Conservation of slots between any two deliveries: each one delivered or
      skipped, 64 for each lap, at least 62 for each overrun; exactly so when
      nothing was resynchronised. */
  lemma {:induction false} SlotsAccountedFor(log: seq<Delivery>, s: seq<Byte>, now: Mark, i: nat, j: nat)
    requires History(log, s, now) && i <= j < |log|
    ensures var a, b := log[i].before, log[j].before;
            && b.slot >= a.slot + (j - i) + (b.skips - a.skips) + SLOTS * (b.laps - a.laps)
                         + RESYNC_GAP * (b.overruns - a.overruns)
            && a.skips <= b.skips && a.laps <= b.laps && a.overruns <= b.overruns && a.restarts <= b.restarts
            && (a.overruns == b.overruns && a.restarts == b.restarts ==>
                  b.slot == a.slot + (j - i) + (b.skips - a.skips) + SLOTS * (b.laps - a.laps))
    decreases j
  {
    if i < j {
      SlotsAccountedFor(log, s, now, i, j - 1);
      DeliveriesAreGenuine(log, s, now, j - 1);
    }
  }

  // ------------------------------------------------------------------
  // Streams of frames

  /** The frame a master sent: a write drives its turnaround 10. */
  datatype Sent = Sent(op: int, phy: int, reg: int, ta: int, data: int)
  {
    predicate Valid() {
      && 0 <= phy < 32 && 0 <= reg < 32 && 0 <= ta < 4 && 0 <= data < 0x1_0000
      && (op == 2 || (op == 1 && ta == 2))
    }

    function Seen(): Frame { Frame(op, phy, reg, data, 0) }
  }

  /** Frame `k` of a stream whose frames lie at residue `o`. */
  predicate FrameIs(s: seq<Byte>, o: nat, k: nat, f: Sent)
    requires f.Valid()
  {
    o + 4 * k + 4 <= |s| ==>
      Be32(Win(s, o + 4 * k)) == FrameWord(f.op, f.phy, f.reg, f.ta, f.data)
  }

  /** The stream is the frames `fs` back to back, after `o` stray bytes. */
  predicate Carries(s: seq<Byte>, o: nat, fs: seq<Sent>) {
    && o < 4 && |s| <= o + 4 * |fs| + 3
    && (forall k :: 0 <= k < |fs| ==> fs[k].Valid())
    && (forall k :: 0 <= k < |fs| ==> FrameIs(s, o, k, fs[k]))
  }

  lemma CarriedFrame(s: seq<Byte>, o: nat, fs: seq<Sent>, k: nat)
    requires Carries(s, o, fs) && o + 4 * k + 4 <= |s|
    ensures k < |fs| && Plausible(Win(s, o + 4 * k)) && Decode(Win(s, o + 4 * k)) == fs[k].Seen()
  {
    assert fs[k].Valid() && FrameIs(s, o, k, fs[k]);
    DecodeFrameWord(Win(s, o + 4 * k), fs[k].op, fs[k].phy, fs[k].reg, fs[k].ta, fs[k].data);
  }

  /** Alignment soundness. On a stream of frames at residue `o` the full scan
      settles on `o` or finds the slot ambiguous: no other offset, and never none. */
  lemma FullScanNeverMislocks(s: seq<Byte>, o: nat, fs: seq<Sent>, slot: nat)
    requires Carries(s, o, fs) && 4 * slot + 7 <= |s|
    ensures forall c :: OnlyPass(s, 4 * slot, c) ==> c == o
    ensures OnlyPass(s, 4 * slot, o) <==> !TwoPass(s, 4 * slot)
  {
    var p := 4 * slot;
    CarriedFrame(s, o, fs, slot);
    assert Passes(s, p, o);
    if !OnlyPass(s, p, o) {
      var d :| 0 <= d < 4 && d != o && Passes(s, p, d);
      assert if d < o then Passes(s, p, d) && Passes(s, p, o) else Passes(s, p, o) && Passes(s, p, d);
      assert TwoPass(s, p);
    }
  }

  /** Every slot ever passed over was ambiguous: on such a stream a slot that has one
      candidate is never lost. (`Unresolved` holds of each of them in every reachable
      state.) */
  lemma DroppedWasAmbiguous(s: seq<Byte>, o: nat, fs: seq<Sent>, slot: nat)
    requires Carries(s, o, fs) && Unresolved(s, slot)
    ensures TwoPass(s, 4 * slot) && Passes(s, 4 * slot, o)
  {
    FullScanNeverMislocks(s, o, fs, slot);
    CarriedFrame(s, o, fs, slot);
    assert !OnlyPass(s, 4 * slot, o);
  }

  /** A delivery at the right offset, however that offset was settled, is the frame its
      slot carries. */
  lemma DeliveryIsTheFrame(log: seq<Delivery>, s: seq<Byte>, now: Mark, i: nat, o: nat, fs: seq<Sent>)
    requires History(log, s, now) && i < |log| && log[i].off == o && Carries(s, o, fs)
    ensures log[i].before.slot < |fs|
    ensures |log[i].bytes| == 4 && Decode(log[i].bytes) == fs[log[i].before.slot].Seen()
  {
    DeliveriesAreGenuine(log, s, now, i);
    CarriedFrame(s, o, fs, log[i].before.slot);
  }

  /** When a detected offset is right: after a full scan always, after the fast path
      exactly on a stream aligned at 0. */
  lemma OffsetIsRight(log: seq<Delivery>, s: seq<Byte>, now: Mark, i: nat, o: nat, fs: seq<Sent>)
    requires History(log, s, now) && i < |log| && Carries(s, o, fs)
    requires log[i].lock == FullScan || log[i].lock == FastPath
    ensures log[i].off == o <==> log[i].lock == FullScan || o == 0
  {
    DeliveriesAreGenuine(log, s, now, i);
    if log[i].lock == FullScan {
      FullScanNeverMislocks(s, o, fs, log[i].lockAt);
    }
  }

  /** A capture that skipped nothing, overran nothing, was not lapped and was not
      restarted hands its caller the frames on the wire, in order and without a gap, as
      long as its offset is right. */
  lemma LosslessCapture(log: seq<Delivery>, s: seq<Byte>, now: Mark, i: nat, j: nat, o: nat, fs: seq<Sent>)
    requires History(log, s, now) && i <= j < |log| && Carries(s, o, fs)
    requires log[i].off == o && log[j].off == o
    requires log[j].before.(slot := log[i].before.slot) == log[i].before
    ensures log[i].before.slot + (j - i) < |fs|
    ensures |log[i].bytes| == 4 && Decode(log[i].bytes) == fs[log[i].before.slot].Seen()
    ensures |log[j].bytes| == 4 && Decode(log[j].bytes) == fs[log[i].before.slot + (j - i)].Seen()
  {
    SlotsAccountedFor(log, s, now, i, j);
    DeliveryIsTheFrame(log, s, now, i, o, fs);
    DeliveryIsTheFrame(log, s, now, j, o, fs);
  }

  // ------------------------------------------------------------------
  // The four-byte fast path

  /** With only the slot's own four to six bytes in, the detector settles on 0 or
      waits. When the frames are at 0 it always settles, so a lone frame on a sparse
      bus is delivered at once; when they are not, it settles wrongly exactly when
      the straddling window happens to look like a frame. */
  lemma FastPathExact(s: seq<Byte>, o: nat, fs: seq<Sent>, slot: nat, lastSkip: bool)
    requires Carries(s, o, fs) && 4 * slot + 4 <= |s| < 4 * slot + 7
    ensures o == 0 ==> Verdict(s, |s| - 4 * slot, -1, lastSkip) == Ready
    ensures o != 0 && Verdict(s, |s| - 4 * slot, -1, lastSkip) == Ready <==>
            o != 0 && Plausible(Win(s, 4 * slot))
  {
    if o == 0 {
      CarriedFrame(s, 0, fs, slot);
    }
  }

  /** The first byte of a frame: 01, the operation, and the upper four address bits. */
  function Top(f: Sent): int { 0x40 + 0x10 * f.op + f.phy / 2 }

  /** The second: the last address bit, the register and the turnaround. */
  function Middle(f: Sent): int { f.phy % 2 * 0x80 + f.reg * 4 + f.ta }

  /** The four bytes across the boundary of two frames at residue `o` look like a frame:
      by the low byte of the first one's data, its high byte, or its register, and for a
      write by what lies where a turnaround would. */
  predicate Straddles(o: nat, prev: Sent, next: Sent) {
    match o
    case 1 =>
      var low := prev.data % 0x100;
      0x60 <= low < 0x70 || (0x50 <= low < 0x60 && next.phy / 2 % 4 == 2)
    case 2 => 0x6000 <= prev.data < 0x7000 || (0x5000 <= prev.data < 0x6000 && prev.data % 4 == 2)
    case 3 =>
      prev.phy % 2 == 0 && (24 <= prev.reg < 28 || (20 <= prev.reg < 24 && prev.data / 0x100 % 4 == 2))
    case _ => false
  }

  /** On the frames: the fast path locks a wrong offset between two of them exactly when
      the one before it, and for a write the address of the one that has begun, spell a
      frame across the boundary. */
  lemma FastPathMislocksExactly(s: seq<Byte>, o: nat, fs: seq<Sent>, slot: nat, next: Sent, lastSkip: bool)
    requires Carries(s, o, fs) && o != 0 && slot > 0 && 4 * slot + 4 <= |s| < 4 * slot + 7
    requires next.Valid() && s[4 * slot + o] == Top(next)
    ensures slot <= |fs|
    ensures Verdict(s, |s| - 4 * slot, -1, lastSkip) == Ready <==> Straddles(o, fs[slot - 1], next)
  {
    CarriedFrame(s, o, fs, slot - 1);
    var f := fs[slot - 1];
    assert f.Valid() && FrameIs(s, o, slot - 1, f);
    FrameBytes(Win(s, o + 4 * (slot - 1)), f);
    FastPathExact(s, o, fs, slot, lastSkip);
    AcrossTheBoundary(Win(s, o + 4 * (slot - 1)), o, f, next, Win(s, 4 * slot));
  }

  lemma AcrossTheBoundary(rx: seq<Byte>, o: nat, f: Sent, next: Sent, w: seq<Byte>)
    requires f.Valid() && next.Valid() && |rx| == 4 && |w| == 4 && 0 < o < 4
    requires rx[1] == Middle(f) && rx[2] == f.data / 0x100 && rx[3] == f.data % 0x100
    requires w[0] == rx[4 - o] && w[1] == if o == 1 then Top(next) else rx[5 - o]
    ensures Plausible(w) <==> Straddles(o, f, next)
  {
    match o {
      case 1 => assert Top(next) % 4 == next.phy / 2 % 4;
      case 2 => assert f.data % 0x100 % 4 == f.data % 4;
      case 3 =>
    }
  }

  /** The bytes of a frame. */
  lemma FrameBytes(rx: seq<Byte>, f: Sent)
    requires f.Valid() && |rx| == 4 && Be32(rx) == FrameWord(f.op, f.phy, f.reg, f.ta, f.data)
    ensures rx[0] == Top(f) && rx[1] == Middle(f)
    ensures rx[2] == f.data / 0x100 && rx[3] == f.data % 0x100
  {
    var b0: int, b1: int, b2: int, b3: int := rx[0], rx[1], rx[2], rx[3];
    var c1, c2, c3 := Middle(f), f.data / 0x100, f.data % 0x100;
    assert b0 * 0x100_0000 + b1 * 0x1_0000 + b2 * 0x100 + b3
           == Top(f) * 0x100_0000 + c1 * 0x1_0000 + c2 * 0x100 + c3;
  }

  /** It does go wrong: a read of 0x0062 at residue 1, behind a stray byte 0x62, is
      handed up as a well-formed read that nobody sent. */
  lemma FastPathCanMislock()
    ensures var s: seq<Byte> := [0x62, 0x60, 0x82, 0x00, 0x62];
            var f := Sent(2, 1, 0, 2, 0x0062);
            && Carries(s, 1, [f]) && Verdict(s, 5, -1, false) == Ready
            && Plausible(Win(s, 0)) && Decode(Win(s, 0)).err == 0 && Decode(Win(s, 0)) != f.Seen()
  {
    var s: seq<Byte> := [0x62, 0x60, 0x82, 0x00, 0x62];
    var f := Sent(2, 1, 0, 2, 0x0062);
    assert Win(s, 1) == [0x60, 0x82, 0x00, 0x62];
    assert Be32(Win(s, 1)) == 0x6082_0062;
    assert Win(s, 0) == [0x62, 0x60, 0x82, 0x00];
    assert Be32(Win(s, 0)) == 0x6260_8200;
    assert Decode(Win(s, 0)).data == 0x8200;
    PlausibleDecodesClean(Win(s, 0));
    assert FrameIs(s, 1, 0, [f][0]);
  }

  // ------------------------------------------------------------------
  // Margins

  /** How long a slot stays readable: the byte at `p` is in the ring until the DMA
      is 256 past it, and from the next transfer on something else is. A frame at
      offset `off`, checked when the DMA was 248 ahead of its slot, therefore
      survives 8 + off more transfers and not one more. */
  lemma SlotLifetime(buf: seq<Byte>, s: seq<Byte>, p: nat)
    requires Mirrors(buf, s) && p < |s| <= p + 512
    ensures buf[p % RING] == if |s| <= p + RING then s[p] else s[p + RING]
  {
    if |s| <= p + RING {
      assert Holds(buf, s, p);
    } else {
      assert Holds(buf, s, p + RING);
      assert (p + RING) % RING == p % RING;
    }
  }

  /** How far the head is ahead of the cursor after `i` resyncs in a row, `passing(i)`
      transfers falling between one and the check that follows it. */
  function LeadAt(first: nat, passing: nat -> nat, i: nat): (lead: nat)
    requires first < 4
    ensures lead < 4
  {
    if i == 0 then first else (LeadAt(first, passing, i - 1) + passing(i - 1)) % 4
  }

  /** The check after resync `i` finds another overrun. */
  predicate Again(first: nat, passing: nat -> nat, i: nat)
    requires first < 4
  {
    (LeadAt(first, passing, i) + passing(i)) % RING > OVERRUN_AT
  }

  /** A schedule of at most `slack` transfers each time under which every check does. */
  ghost predicate ResyncsForEver(first: nat, passing: nat -> nat, slack: nat) {
    first < 4 && forall i: nat :: passing(i) <= slack && Again(first, passing, i)
  }

  /** `LeadAt` is what a resync does to the cursor: the next check is behind by the lead
      and the transfers since, and if it resynchronises its lead is that modulo a slot. */
  lemma LeadIsThat(s: seq<Byte>, now: Mark, lead: nat, passing: nat, byteOffset: int, lastSkip: bool)
    requires lead < 4 && |s| == now.Pos() + lead + passing
    ensures Verdict(s, Backlog(s, now), byteOffset, lastSkip) == Resynced <==> (lead + passing) % RING > OVERRUN_AT
    ensures |s| - |s| / 4 * 4 == (lead + passing) % 4
  {
  }

  /** The bound the wait loop is given is exact: some schedule of at most `slack` transfers
      after each resync keeps it resynchronising for ever if and only if `slack` is more. */
  lemma SlackIsExact(slack: nat)
    ensures (exists first: nat, passing: nat -> nat :: ResyncsForEver(first, passing, slack)) <==> slack > RESYNC_SLACK
  {
    if slack > RESYNC_SLACK {
      var passing: nat -> nat := _ => RESYNC_SLACK + 1;
      forall i: nat
        ensures passing(i) <= slack && Again(1, passing, i)
      {
        LeadStaysOne(passing, i);
      }
      assert ResyncsForEver(1, passing, slack);
    } else {
      forall first: nat, passing: nat -> nat
        ensures !ResyncsForEver(first, passing, slack)
      {
        if first < 4 && forall i: nat :: passing(i) <= slack {
          LeadRunsOut(first, passing);
        }
      }
    }
  }

  lemma {:induction false} LeadStaysOne(passing: nat -> nat, i: nat)
    requires forall k: nat :: passing(k) == RESYNC_SLACK + 1
    ensures LeadAt(1, passing, i) == 1
  {
    if i > 0 {
      LeadStaysOne(passing, i - 1);
    }
  }

  /** Within the bound a second resync in a row leaves less of a lead than the first, and
      takes one of two bytes at least. */
  lemma LeadFalls(first: nat, passing: nat -> nat, i: nat)
    requires first < 4 && passing(i) <= RESYNC_SLACK && Again(first, passing, i)
    ensures 2 <= LeadAt(first, passing, i) && LeadAt(first, passing, i + 1) < LeadAt(first, passing, i)
  {
    var lead, n := LeadAt(first, passing, i), passing(i);
    assert LeadAt(first, passing, i + 1) == (lead + n) % 4;
  }

  /** So at most two checks in a row resynchronise after the first. */
  lemma LeadRunsOut(first: nat, passing: nat -> nat)
    requires first < 4 && forall i: nat :: passing(i) <= RESYNC_SLACK
    ensures exists i: nat :: i < 3 && !Again(first, passing, i)
  {
    if Again(first, passing, 0) && Again(first, passing, 1) && Again(first, passing, 2) {
      LeadFalls(first, passing, 0);
      LeadFalls(first, passing, 1);
      LeadFalls(first, passing, 2);
      assert false;
    }
  }
}
