/** The passive-capture ring (src/mdioprobe_mdio_api.c): a DMA engine that never
    stops writes a circular 256-byte buffer, and a consumer that knows the write
    position only through a down-counter takes 4-byte frames out of it.

    A frame is 4 bytes, a slot holds one frame, the ring has 64 slots. The ghost
    field `stream` is every byte the DMA ever wrote. DMA steps are
    interleaved with the consumer's by the `Dma` calls, whose bytes and number
    are arbitrary within the stated bound. */
module CaptureRing {
  import opened Clause22

  /** The bytes of the ring, and its slots. */
  const RING := 256
  const SLOTS := 64

  /** An overrun moves the cursor on by at least this many slots. */
  const RESYNC_GAP := 62

  /** More unread bytes than this count as an overrun. */
  const OVERRUN_AT := RING - 8

  /** Transfers the DMA is taken to make at most between a resync and the next check: one
      more and the loop may resynchronise for ever (`CaptureTheorems.SlackIsExact`). */
  const RESYNC_SLACK := 247

  /** How the current byte offset was settled. */
  datatype Lock = Unlocked | FullScan | FastPath | Forced

  /** The read cursor, in slots of the stream since it began, with everything that
      moved it other than a delivery: slots skipped, whole laps the modular distance
      could not see, counted overruns, restarts from the live edge. */
  datatype Mark = Mark(slot: nat, skips: nat, laps: nat, overruns: nat, restarts: nat)
  {
    function Pos(): nat { 4 * slot }
  }

  /** One frame handed to the caller: the cursor it was read at, the offset used
      and how that offset was settled, and the four bytes. */
  datatype Delivery = Delivery(before: Mark, off: nat, lock: Lock, lockAt: nat, bytes: seq<Byte>)
  {
    function After(): Mark { before.(slot := before.slot + 1) }
    function Pos(): nat { before.Pos() + off }
  }

  /** What one look at the ring finds. */
  datatype Look = Ready | Resynced | Skipped | Nothing

  datatype Outcome = Delivered(frame: Frame) | TimedOut

  /** Four consecutive stream bytes. */
  function Win(s: seq<Byte>, p: nat): (w: seq<Byte>)
    requires p + 4 <= |s|
    ensures |w| == 4
  {
    [s[p], s[p + 1], s[p + 2], s[p + 3]]
  }

  /** Candidate `c` of the slot at `p` passes the window test. */
  predicate Passes(s: seq<Byte>, p: nat, c: int)
    requires 0 <= c < 4 && p + 7 <= |s|
  {
    Plausible(Win(s, p + c))
  }

  /** `c` is the only one of the four candidates that passes. */
  predicate OnlyPass(s: seq<Byte>, p: nat, c: int)
    requires p + 7 <= |s|
  {
    0 <= c < 4 && Passes(s, p, c) && forall d :: 0 <= d < 4 && d != c ==> !Passes(s, p, d)
  }

  /** Two different candidates pass. */
  predicate TwoPass(s: seq<Byte>, p: nat)
    requires p + 7 <= |s|
  {
    exists c, d :: 0 <= c < d < 4 && Passes(s, p, c) && Passes(s, p, d)
  }

  /** How far the cursor is behind, as far as the ring can tell. */
  function Backlog(s: seq<Byte>, now: Mark): (w: nat)
    requires now.Pos() <= |s|
    ensures w <= |s| && w < RING
  {
    (|s| - now.Pos()) % RING
  }

  /** What a look at the ring decides, `w` bytes behind. */
  ghost function Verdict(s: seq<Byte>, w: nat, byteOffset: int, lastSkip: bool): Look
    requires w <= |s|
  {
    if w > OVERRUN_AT then Resynced
    else if byteOffset >= 0 then (if w >= byteOffset + 4 then Ready else Nothing)
    else if w >= 7 then
      var p := |s| - w;
      if !(exists c :: OnlyPass(s, p, c)) && (TwoPass(s, p) || w >= 8) && !lastSkip
      then Skipped else Ready
    else if w >= 4 && Plausible(Win(s, |s| - w)) then Ready
    else Nothing
  }

  /** The evidence for passing a slot over: all four candidates testable, none the only
      one that passes, and either two pass or there is a whole slot more to go on. */
  ghost predicate Unresolved(s: seq<Byte>, slot: nat) {
    && 4 * slot + 7 <= |s| && (forall c :: !OnlyPass(s, 4 * slot, c))
    && (TwoPass(s, 4 * slot) || 4 * slot + 8 <= |s|)
  }

  /** A slot with no offset of its own that is handed up all the same: nothing to settle it
      by, and no spare byte to wait for or no slot left to pass over. */
  ghost predicate NoWayOn(s: seq<Byte>, p: nat, exhausted: bool) {
    && p + 7 <= |s| && (forall c :: !OnlyPass(s, p, c))
    && ((|s| == p + 7 && !TwoPass(s, p)) || exhausted)
  }

  predicate Holds(buf: seq<Byte>, s: seq<Byte>, p: int)
    requires |buf| == RING && p < |s|
  {
    0 <= p ==> buf[p % RING] == s[p]
  }

  /** The buffer holds the last 256 stream bytes, each at its position modulo
      256, and the zeros it was cleared to where nothing was written yet. */
  predicate Mirrors(buf: seq<Byte>, s: seq<Byte>) {
    && |buf| == RING
    && (forall p :: |s| - RING <= p < |s| ==> Holds(buf, s, p))
    && (forall i :: |s| <= i < RING ==> buf[i] == 0)
  }

  /** Nothing but skips, laps, overruns and restarts separates two cursors: each
      skip is one slot, each lap one ring, and each overrun at least 62 slots. */
  predicate Follows(a: Mark, b: Mark) {
    && a.skips <= b.skips && a.laps <= b.laps && a.overruns <= b.overruns && a.restarts <= b.restarts
    && b.slot >= a.slot + (b.skips - a.skips) + SLOTS * (b.laps - a.laps) + RESYNC_GAP * (b.overruns - a.overruns)
    && (a.overruns == b.overruns && a.restarts == b.restarts ==>
          b.slot == a.slot + (b.skips - a.skips) + SLOTS * (b.laps - a.laps))
  }

  /** The stream bytes that made the offset what it is. */
  predicate LockEvidence(lock: Lock, at: nat, off: nat, s: seq<Byte>) {
    match lock
    case Unlocked => off == 0
    case FullScan => 4 * at + 7 <= |s| && OnlyPass(s, 4 * at, off)
    case FastPath => off == 0 && 4 * at + 4 <= |s| && Plausible(Win(s, 4 * at))
    case Forced => off < 4
  }

  /** A delivery is four consecutive bytes of the stream: never a mixture of two
      passes over the ring, never a byte not yet written. */
  predicate Genuine(d: Delivery, s: seq<Byte>) {
    && d.off < 4 && d.Pos() + 4 <= |s| && d.bytes == Win(s, d.Pos())
    && LockEvidence(d.lock, d.lockAt, d.off, s)
  }

  /** Every delivery is genuine, and from each to the next, and from the last to
      now, the cursor moved only as `Follows` allows. */
  ghost predicate History(log: seq<Delivery>, s: seq<Byte>, now: Mark) {
    log == [] ||
    var d := log[|log| - 1];
    Genuine(d, s) && Follows(d.After(), now) && History(log[..|log| - 1], s, d.before)
  }

  lemma FollowsTransitive(a: Mark, b: Mark, c: Mark)
    requires Follows(a, b) && Follows(b, c)
    ensures Follows(a, c)
  {
  }

  /** A restart lands on the slot being written, never behind the cursor. */
  lemma RestartFollows(a: Mark, turns: nat, slot: nat, wraps: nat, head: nat)
    requires a.slot == SLOTS * turns + slot && head < RING && RING * wraps + head >= a.Pos()
    ensures head / 4 % SLOTS == head / 4
    ensures var to := SLOTS * wraps + head / 4;
            && Follows(a, a.(slot := to, restarts := a.restarts + 1))
            && a.slot <= to && 4 * to <= RING * wraps + head <= 4 * to + 3
  {
    assert head == 4 * (head / 4) + head % 4;
  }

  /** A resync lands on a slot boundary within 3 bytes of the head, at least 62
      slots ahead. */
  lemma ResyncFollows(a: Mark, turns: nat, slot: nat, wraps: nat, head: nat)
    requires a.slot == SLOTS * turns + slot && head < RING && RING * wraps + head > a.Pos() + OVERRUN_AT
    ensures head / 4 % SLOTS == head / 4
    ensures var to := SLOTS * wraps + head / 4;
            && Follows(a, a.(slot := to, overruns := a.overruns + 1))
            && a.slot + RESYNC_GAP <= to && 4 * to <= RING * wraps + head <= 4 * to + 3
  {
    assert head == 4 * (head / 4) + head % 4;
  }

  lemma EvidenceStable(lock: Lock, at: nat, off: nat, s: seq<Byte>, t: seq<Byte>)
    requires s <= t && LockEvidence(lock, at, off, s)
    ensures LockEvidence(lock, at, off, t)
  {
    if lock == FullScan {
      forall d | 0 <= d < 4 ensures Passes(t, 4 * at, d) == Passes(s, 4 * at, d) {
        assert Win(t, 4 * at + d) == Win(s, 4 * at + d);
      }
    } else if lock == FastPath {
      assert Win(t, 4 * at) == Win(s, 4 * at);
    }
  }

  /** What the scan finds of a slot does not change as the stream grows. */
  lemma ScanStable(s: seq<Byte>, t: seq<Byte>, p: nat)
    requires s <= t && p + 7 <= |s|
    ensures forall c :: OnlyPass(t, p, c) <==> OnlyPass(s, p, c)
    ensures TwoPass(t, p) <==> TwoPass(s, p)
  {
    forall d | 0 <= d < 4 ensures Passes(t, p, d) == Passes(s, p, d) {
      assert Win(t, p + d) == Win(s, p + d);
    }
    assert TwoPass(s, p) ==> TwoPass(t, p) by {
      if TwoPass(s, p) {
        var c, d :| 0 <= c < d < 4 && Passes(s, p, c) && Passes(s, p, d);
        assert Passes(t, p, c) && Passes(t, p, d);
      }
    }
    assert TwoPass(t, p) ==> TwoPass(s, p) by {
      if TwoPass(t, p) {
        var c, d :| 0 <= c < d < 4 && Passes(t, p, c) && Passes(t, p, d);
        assert Passes(s, p, c) && Passes(s, p, d);
      }
    }
  }

  lemma UnresolvedStable(s: seq<Byte>, t: seq<Byte>, slots: seq<nat>)
    requires s <= t && forall k :: k in slots ==> Unresolved(s, k)
    ensures forall k :: k in slots ==> Unresolved(t, k)
  {
    forall k | k in slots ensures Unresolved(t, k) {
      assert Unresolved(s, k);
      ScanStable(s, t, 4 * k);
    }
  }

  lemma GenuineTake(d: Delivery, s: seq<Byte>, t: seq<Byte>)
    requires s <= t && d.off < 4 && d.Pos() + 4 <= |s|
    requires d.bytes == Win(s, d.Pos()) && LockEvidence(d.lock, d.lockAt, d.off, t)
    ensures Genuine(d, t)
  {
    assert Win(t, d.Pos()) == Win(s, d.Pos());
  }

  lemma {:induction false} HistoryStable(log: seq<Delivery>, s: seq<Byte>, t: seq<Byte>, now: Mark)
    requires s <= t && History(log, s, now)
    ensures History(log, t, now)
  {
    if log != [] {
      var d := log[|log| - 1];
      EvidenceStable(d.lock, d.lockAt, d.off, s, t);
      assert Win(t, d.Pos()) == Win(s, d.Pos());
      HistoryStable(log[..|log| - 1], s, t, d.before);
    }
  }

  lemma HistoryMove(log: seq<Delivery>, s: seq<Byte>, now: Mark, to: Mark)
    requires History(log, s, now) && Follows(now, to)
    ensures History(log, s, to)
  {
  }

  lemma HistoryAppend(log: seq<Delivery>, s: seq<Byte>, d: Delivery)
    requires History(log, s, d.before) && Genuine(d, s)
    ensures History(log + [d], s, d.After())
  {
    assert (log + [d])[..|log|] == log;
  }

  /** The masked difference of head and slot is the distance modulo the ring. */
  lemma Distance(w: nat, wraps: nat, head: nat, turns: nat, base: nat)
    requires base < RING && head < RING && w == RING * wraps + head && RING * turns + base <= w
    ensures var d := w - (RING * turns + base);
            (head + RING - base) % RING == d % RING && d == RING * (d / RING) + d % RING
  {
    var d := w - (RING * turns + base);
    if head >= base {
      assert d == RING * (wraps - turns) + (head - base);
    } else {
      assert d == RING * (wraps - turns - 1) + (head + RING - base);
    }
  }

  lemma MirrorsStep(buf: seq<Byte>, s: seq<Byte>, rounds: nat, at: nat, b: Byte)
    requires Mirrors(buf, s) && at < RING && |s| == RING * rounds + at
    ensures Mirrors(buf[at := b], s + [b])
  {
    var t, buf' := s + [b], buf[at := b];
    assert |s| % RING == at;
    forall p | |t| - RING <= p < |t| ensures Holds(buf', t, p) {
      if p < |s| {
        assert Holds(buf, s, p);
        assert 0 <= p ==> p % RING != |s| % RING;
      }
    }
  }

  /** Reading `k` bytes past a slot finds the stream byte `k` past its position. */
  lemma RingRead(buf: seq<Byte>, s: seq<Byte>, turn: nat, p: nat, base: nat, k: nat)
    requires Mirrors(buf, s) && p == RING * turn + base
    requires p + k < |s| <= p + k + RING
    ensures buf[(base + k) % RING] == s[p + k]
  {
    var q, r := (base + k) / RING, (base + k) % RING;
    assert p + k == RING * (turn + q) + r;
    assert Holds(buf, s, p + k);
  }

  /** The DMA channel and the buffer it fills. */
  class Dma {
    const ring: array<Byte>
    var cndtr: nat          // the remaining-count register
    ghost var stream: seq<Byte>
    ghost var rounds: nat   // times the counter was reloaded

    ghost predicate Valid()
      reads this, ring
    {
      && ring.Length == RING
      && cndtr <= RING && |stream| == RING * rounds + RING - cndtr
      && Mirrors(ring[..], stream)
    }

    constructor ()
      ensures Valid() && fresh(ring) && stream == []
    {
      ring := new Byte[RING](_ => 0);
      cndtr, stream, rounds := RING, [], 0;
    }

    /** One transfer. The counter reloads on wrap; a reader may catch it at zero
        just before it does. */
    method Transfer(b: Byte)
      requires Valid()
      modifies this, ring
      ensures Valid() && stream == old(stream) + [b]
    {
      ghost var buf := ring[..];
      if cndtr == 0 {
        cndtr, rounds := RING, rounds + 1;
      }
      var at := RING - cndtr;
      ring[at] := b;
      cndtr := cndtr - 1;
      var reloaded: bool := *;
      if cndtr == 0 && reloaded {
        cndtr, rounds := RING, rounds + 1;
      }
      assert ring[..] == buf[at := b];
      MirrorsStep(buf, stream, old(rounds) + if old(cndtr) == 0 then 1 else 0, at, b);
      stream := stream + [b];
    }

    /** Any bytes, and any number of them up to `slack`. */
    method Run(slack: nat) returns (left: nat)
      requires Valid()
      modifies this, ring
      ensures Valid() && old(stream) <= stream && |stream| + left == |old(stream)| + slack
    {
      var more: bool := *;
      left := slack;
      while more && left > 0
        invariant Valid() && old(stream) <= stream && |stream| + left == |old(stream)| + slack
        decreases left
      {
        var b: Byte := *;
        Transfer(b);
        left, more := left - 1, *;
      }
    }

    method HeadBytes() returns (head: nat, ghost wraps: nat)
      requires Valid()
      ensures |stream| == RING * wraps + head && head < RING
    {
      head := (RING - cndtr) % RING;
      wraps := if cndtr == 0 then rounds + 1 else rounds;
    }

    /** Reads a frame while the DMA keeps writing, though not so far as to come
        round to the slot at stream position `p`. */
    method ReadFrameBytes(base: nat, off: nat, slack: nat, ghost turn: nat, ghost p: nat)
      returns (rx: seq<Byte>, left: nat)
      requires Valid() && off < 4 && p == RING * turn + base
      requires p + off + 4 <= |stream| && |stream| + slack <= p + RING
      modifies this, ring
      ensures Valid() && old(stream) <= stream && |stream| + left == |old(stream)| + slack
      ensures rx == Win(old(stream), p + off)
    {
      rx, left := [], slack;
      for i := 0 to 4
        invariant Valid() && old(stream) <= stream && |stream| + left == |old(stream)| + slack
        invariant |rx| == i && forall j :: 0 <= j < i ==> rx[j] == old(stream)[p + off + j]
      {
        left := Run(left);
        RingRead(ring[..], stream, turn, p, base, off + i);
        rx := rx + [ring[(base + off + i) % RING]];
      }
    }

    method WindowIsC22(base: nat, off: nat, slack: nat, ghost turn: nat, ghost p: nat) returns (ok: bool, left: nat)
      requires Valid() && off < 4 && p == RING * turn + base
      requires p + off + 4 <= |stream| && |stream| + slack <= p + RING
      modifies this, ring
      ensures Valid() && old(stream) <= stream && |stream| + left == |old(stream)| + slack
      ensures ok == Plausible(Win(old(stream), p + off))
    {
      var rx;
      rx, left := ReadFrameBytes(base, off, slack, turn, p);
      ok := Plausible(rx);
    }

    /** The four-candidate scan: an offset exactly when one candidate passes, with
        `ambiguous` telling two or more from none. */
    method DetectOffset(base: nat, slack: nat, ghost turn: nat, ghost p: nat)
      returns (found: int, ambiguous: bool, left: nat)
      requires Valid() && p == RING * turn + base
      requires p + 7 <= |stream| && |stream| + slack <= p + RING
      modifies this, ring
      ensures Valid() && old(stream) <= stream && |stream| + left == |old(stream)| + slack
      ensures found >= 0 ==> !ambiguous && OnlyPass(old(stream), p, found)
      ensures ambiguous <==> TwoPass(old(stream), p)
      ensures found < 0 ==> forall c :: !OnlyPass(old(stream), p, c)
    {
      found, ambiguous, left := -1, false, slack;
      for cand := 0 to 4
        invariant Valid() && old(stream) <= stream && |stream| + left == |old(stream)| + slack
        invariant -1 <= found < cand && !ambiguous
        invariant found >= 0 ==> Passes(old(stream), p, found)
        invariant forall c :: 0 <= c < cand && c != found ==> !Passes(old(stream), p, c)
      {
        assert Win(stream, p + cand) == Win(old(stream), p + cand);
        var ok;
        ok, left := WindowIsC22(base, cand, left, turn, p);
        if !ok {
          continue;
        }
        if found >= 0 {
          assert Passes(old(stream), p, found) && Passes(old(stream), p, cand);
          return -1, true, left;
        }
        found := cand;
      }
    }

    /** The newest bytes in wire order, zeros where nothing was written yet: those that
        were the newest when the head was read, except where the DMA, running on, has come
        round to them; `slack` transfers reach all but the last `RING - slack`. */
    method DumpRaw(nBytes: nat, slack: nat) returns (out: seq<Byte>)
      requires Valid()
      modifies this, ring
      ensures Valid() && old(stream) <= stream && |stream| <= |old(stream)| + slack
      ensures |out| == if nBytes > RING then RING else nBytes
      ensures forall i :: 0 <= i < |out| && |out| - i <= RING - slack ==>
                var p := |old(stream)| - |out| + i; out[i] == if p >= 0 then old(stream)[p] else 0
    {
      var n := if nBytes > RING then RING else nBytes;
      ghost var wasRounds := rounds;
      var was, left := cndtr, slack;
      var head := RING - was;
      out := [];
      for i := 0 to n
        invariant Valid() && old(stream) <= stream && |stream| + left == |old(stream)| + slack
        invariant |out| == i
        invariant forall j :: 0 <= j < i && n - j <= RING - slack ==>
                    var p := |old(stream)| - n + j; out[j] == if p >= 0 then old(stream)[p] else 0
      {
        left := Run(left);
        var idx := (head + RING - n + i) % RING;
        if n - i <= RING - slack {
          DumpIndex(ring[..], stream, old(stream), wasRounds, was, n, i);
        }
        out := out + [ring[idx]];
      }
    }
  }

  /** The backward index of the diagnostic dump finds the byte `n - i` before the head that
      was read, until the DMA has come round to it. */
  lemma DumpIndex(buf: seq<Byte>, s: seq<Byte>, was: seq<Byte>, rounds: nat, cndtr: nat, n: nat, i: nat)
    requires Mirrors(buf, s) && i < n <= RING && was <= s && |s| <= |was| - n + i + RING
    requires cndtr <= RING && |was| == RING * rounds + RING - cndtr
    ensures var p := |was| - n + i;
            buf[(RING - cndtr + RING - n + i) % RING] == if p >= 0 then was[p] else 0
  {
    var p, at := |was| - n + i, (RING - cndtr + RING - n + i) % RING;
    if p >= 0 {
      assert at == p % RING;
      assert Holds(buf, s, p);
    } else {
      assert at == RING + p;
    }
  }

  /** Resynchronised twice in a row, the cursor ends nearer to the head. */
  lemma LeadShrinks(n: nat, was: nat, slot: nat, lead: int, before: bool, again: bool)
    requires again ==> 4 * slot <= n <= 4 * slot + 3 && 4 * was <= n && (n - 4 * was) % RING > OVERRUN_AT
    requires before ==> 0 <= lead < 4 && n <= 4 * was + lead + RESYNC_SLACK
    ensures before && again ==> n - 4 * slot < lead
  {
  }

  /** A frame the reader cannot miss: with the cursor at `p` and offset `b`, `was` held all
      of its window, and until `now` the writer did not come within the overrun margin.
      With no offset yet: the scan had its one candidate, or the slot's own bytes were
      plausible and no more than the slot came in. */
  ghost predicate Complete(was: seq<Byte>, p: nat, b: int, now: seq<Byte>) {
    && |now| <= p + OVERRUN_AT
    && if b >= 0 then p + b + 4 <= |was|
       else (p + 7 <= |was| && exists c :: OnlyPass(was, p, c))
            || (p + 4 <= |was| && |now| < p + 7 && Plausible(Win(was, p)))
  }

  /** And at the offset it was known by, or the one it shows. */
  ghost predicate AtItsOffset(was: seq<Byte>, p: nat, b: int, off: int) {
    if b >= 0 then off == b
    else if p + 7 <= |was| then OnlyPass(was, p, off)
    else off == 0
  }

  lemma CompleteSooner(was: seq<Byte>, p: nat, b: int, mid: seq<Byte>, now: seq<Byte>)
    requires was <= mid <= now && Complete(was, p, b, now) && -1 <= b < 4
    ensures Complete(mid, p, b, mid) && Complete(was, p, b, mid)
    ensures forall off :: AtItsOffset(mid, p, b, off) ==> AtItsOffset(was, p, b, off)
  {
    if b == -1 {
      if p + 7 <= |was| {
        ScanStable(was, mid, p);
      } else {
        assert Win(mid, p) == Win(was, p);
      }
    }
  }

  class Capture {
    const dma: Dma
    var readSlot: nat
    var byteOffset: int     // -1 until detected
    var overruns: nat

    ghost var turns: nat    // whole rings behind the read slot
    ghost var mark: Mark
    ghost var lock: Lock
    ghost var lockAt: nat
    ghost var log: seq<Delivery>
    ghost var dropped: seq<nat>     // the slots passed over

    /** The offset frames are read at. */
    function Offset(): nat
      reads this`byteOffset
    {
      if byteOffset >= 0 then byteOffset else 0
    }

    ghost predicate CursorOk()
      reads this`readSlot, this`turns, this`mark, this`overruns, dma
    {
      && readSlot < SLOTS && mark.slot == SLOTS * turns + readSlot && mark.Pos() <= |dma.stream|
      && mark.overruns == overruns
    }

    ghost predicate OffsetOk()
      reads this`byteOffset, this`lock, this`lockAt, dma
    {
      && -1 <= byteOffset < 4 && (byteOffset == -1 <==> lock == Unlocked)
      && LockEvidence(lock, lockAt, Offset(), dma.stream)
    }

    ghost predicate LogOk()
      reads this`log, this`mark, dma
    {
      History(log, dma.stream, mark)
    }

    /** No slot was ever passed over without the evidence for it. */
    ghost predicate DroppedOk()
      reads this`dropped, this`mark, dma
    {
      |dropped| == mark.skips && forall k :: k in dropped ==> Unresolved(dma.stream, k)
    }

    ghost predicate Valid()
      reads this, dma, dma.ring
    {
      dma.Valid() && CursorOk() && OffsetOk() && LogOk() && DroppedOk()
    }

    constructor (dma: Dma)
      requires dma.Valid() && dma.stream == []
      ensures Valid() && this.dma == dma && log == [] && mark == Mark(0, 0, 0, 0, 0) && byteOffset == -1
    {
      this.dma, readSlot, byteOffset, overruns := dma, 0, -1, 0;
      turns, mark, lock, lockAt, log, dropped := 0, Mark(0, 0, 0, 0, 0), Unlocked, 0, [], [];
    }

    /** The stream grows; what was true of it stays. */
    twostate lemma Grown()
      requires old(OffsetOk()) && old(LogOk()) && old(DroppedOk())
      requires unchanged(this) && old(dma.stream) <= dma.stream
      ensures OffsetOk() && LogOk() && DroppedOk()
    {
      UnresolvedStable(old(dma.stream), dma.stream, dropped);
      EvidenceStable(lock, lockAt, Offset(), old(dma.stream), dma.stream);
      HistoryStable(log, old(dma.stream), dma.stream, mark);
    }

    /** The DMA runs while the consumer is elsewhere. */
    method Elapse(slack: nat)
      requires Valid()
      modifies dma, dma.ring
      ensures Valid() && old(dma.stream) <= dma.stream && |dma.stream| <= |old(dma.stream)| + slack
    {
      var left := dma.Run(slack);
      Grown();
    }

    /** The distance from the read slot to the DMA's position, which is all the
        code knows of how much is unread. A completed lap is invisible to it: the
        ghost cursor then moves to where the slot now points. */
    method Unread() returns (head: nat, written: nat, ghost wraps: nat)
      requires Valid()
      modifies this`mark, this`turns
      ensures Valid() && Follows(old(mark), mark)
      ensures mark == old(mark).(slot := mark.slot, laps := mark.laps)
      ensures mark.laps == old(mark).laps + (|dma.stream| - old(mark).Pos()) / RING
      ensures |dma.stream| == RING * wraps + head && head < RING
      ensures |dma.stream| == mark.Pos() + written
      ensures written == Backlog(dma.stream, old(mark)) == Backlog(dma.stream, mark)
    {
      head, wraps := dma.HeadBytes();
      var slotBase := readSlot * 4;
      written := (head + RING - slotBase) % RING;
      ghost var lapped := (|dma.stream| - mark.Pos()) / RING;
      Distance(|dma.stream|, wraps, head, turns, slotBase);
      AbsorbLaps(lapped);
    }

    ghost method AbsorbLaps(lapped: nat)
      requires LogOk() && CursorOk() && mark.Pos() + RING * lapped <= |dma.stream|
      modifies this`mark, this`turns
      ensures LogOk() && CursorOk() && Follows(old(mark), mark)
      ensures mark == old(mark).(slot := old(mark).slot + SLOTS * lapped, laps := old(mark).laps + lapped)
    {
      turns := turns + lapped;
      MoveTo(mark.(slot := mark.slot + SLOTS * lapped, laps := mark.laps + lapped));
    }

    /** The ghost cursor follows the read slot. */
    ghost method MoveTo(to: Mark)
      requires LogOk() && Follows(mark, to)
      modifies this`mark
      ensures mark == to && LogOk()
    {
      HistoryMove(log, dma.stream, mark, to);
      mark := to;
    }

    method NextSlot()
      requires readSlot < SLOTS
      modifies this`readSlot, this`turns
      ensures readSlot < SLOTS && SLOTS * turns + readSlot == old(SLOTS * turns + readSlot) + 1
    {
      turns := if readSlot == 63 then turns + 1 else turns;
      readSlot := (readSlot + 1) % SLOTS;
    }

    /** Starts over from the slot the DMA is filling now. */
    method SkipToLatest()
      requires Valid()
      modifies this`readSlot, this`turns, this`mark
      ensures Valid() && mark.Pos() <= |dma.stream| <= mark.Pos() + 3
      ensures mark == old(mark).(slot := mark.slot, restarts := old(mark).restarts + 1)
    {
      var head;
      ghost var wraps;
      head, wraps := dma.HeadBytes();
      RestartFollows(mark, turns, readSlot, wraps, head);
      readSlot, turns := head / 4 % SLOTS, wraps;
      MoveTo(mark.(slot := SLOTS * wraps + readSlot, restarts := mark.restarts + 1));
    }

    /** Forces an offset, or re-arms the detection. */
    method SetByteOffset(offset: int) returns (r: int)
      requires Valid()
      modifies this`byteOffset, this`lock, this`lockAt
      ensures Valid() && r == byteOffset
      ensures byteOffset == if offset < 0 then -1 else offset % 4
      ensures lock == if offset < 0 then Unlocked else Forced
    {
      byteOffset, lock := if offset < 0 then -1 else offset % 4, if offset < 0 then Unlocked else Forced;
      r := byteOffset;
    }

    /** Drops the slot at the cursor, on the evidence of the stream so far. */
    method SkipSlot()
      requires Valid() && Unresolved(dma.stream, mark.slot)
      modifies this`readSlot, this`turns, this`mark, this`dropped
      ensures Valid() && mark == old(mark).(slot := old(mark).slot + 1, skips := old(mark).skips + 1)
      ensures dropped == old(dropped) + [old(mark).slot]
    {
      NextSlot();
      dropped := dropped + [mark.slot];
      MoveTo(mark.(slot := mark.slot + 1, skips := mark.skips + 1));
    }

    /** Counts an overrun and resumes at the slot the DMA is filling now: always at
        least 62 slots further on. */
    method Resync(head: nat, ghost wraps: nat)
      requires Valid() && |dma.stream| == RING * wraps + head && head < RING
      requires |dma.stream| > mark.Pos() + OVERRUN_AT
      modifies this`overruns, this`readSlot, this`turns, this`mark
      ensures Valid() && overruns == old(overruns) + 1
      ensures mark == old(mark).(slot := mark.slot, overruns := old(mark).overruns + 1)
      ensures mark.slot >= old(mark).slot + RESYNC_GAP && mark.Pos() <= |dma.stream| <= mark.Pos() + 3
    {
      ResyncFollows(mark, turns, readSlot, wraps, head);
      overruns, readSlot := overruns + 1, head / 4 % SLOTS;
      turns := wraps;
      MoveTo(mark.(slot := SLOTS * wraps + readSlot, overruns := overruns));
    }

    /** The full scan, locking the offset it finds. */
    method ScanAndLock(slack: nat) returns (detected: int, ambiguous: bool, left: nat)
      requires Valid() && byteOffset == -1
      requires mark.Pos() + 7 <= |dma.stream| && |dma.stream| + slack <= mark.Pos() + RING
      modifies this`byteOffset, this`lock, this`lockAt, dma, dma.ring
      ensures Valid() && old(dma.stream) <= dma.stream && |dma.stream| + left == |old(dma.stream)| + slack
      ensures detected >= 0 ==> byteOffset == detected && lock == FullScan && lockAt == mark.slot
      ensures detected < 0 ==> byteOffset == -1 && forall c :: !OnlyPass(old(dma.stream), mark.Pos(), c)
      ensures detected >= 0 ==> OnlyPass(old(dma.stream), mark.Pos(), detected)
      ensures ambiguous <==> TwoPass(old(dma.stream), mark.Pos())
    {
      detected, ambiguous, left := dma.DetectOffset(readSlot * 4, slack, turns, mark.Pos());
      Grown();
      if detected >= 0 {
        byteOffset, lock, lockAt := detected, FullScan, mark.slot;
        EvidenceStable(FullScan, lockAt, detected, old(dma.stream), dma.stream);
      }
    }

    /** The fast path: with only the slot's own four bytes in, offset 0 is the one
        candidate that can be tested. */
    method TryOffsetZero(slack: nat) returns (ok: bool, left: nat)
      requires Valid() && byteOffset == -1
      requires mark.Pos() + 4 <= |dma.stream| && |dma.stream| + slack <= mark.Pos() + RING
      modifies this`byteOffset, this`lock, this`lockAt, dma, dma.ring
      ensures Valid() && old(dma.stream) <= dma.stream && |dma.stream| + left == |old(dma.stream)| + slack
      ensures ok == Plausible(Win(old(dma.stream), mark.Pos()))
      ensures ok ==> byteOffset == 0 && lock == FastPath && lockAt == mark.slot
      ensures !ok ==> byteOffset == -1
    {
      ok, left := dma.WindowIsC22(readSlot * 4, 0, slack, turns, mark.Pos());
      Grown();
      if ok {
        byteOffset, lock, lockAt := 0, FastPath, mark.slot;
        EvidenceStable(FastPath, lockAt, 0, old(dma.stream), dma.stream);
      }
    }

    /** The bytes of the frame at the cursor, copied while the DMA keeps writing. */
    method CopyFrame(slack: nat) returns (rx: seq<Byte>)
      requires Valid()
      requires mark.Pos() + Offset() + 4 <= |dma.stream| && |dma.stream| + slack <= mark.Pos() + RING
      modifies dma, dma.ring
      ensures Valid() && old(dma.stream) <= dma.stream && rx == Win(old(dma.stream), mark.Pos() + Offset())
    {
      var left;
      rx, left := dma.ReadFrameBytes(readSlot * 4, Offset(), slack, turns, mark.Pos());
      Grown();
    }

    /** Copies the frame at the cursor out and advances. */
    method Take(slack: nat) returns (rx: seq<Byte>)
      requires Valid()
      requires mark.Pos() + Offset() + 4 <= |dma.stream| && |dma.stream| + slack <= mark.Pos() + RING
      modifies this`readSlot, this`turns, this`mark, this`log, dma, dma.ring
      ensures Valid() && old(dma.stream) <= dma.stream && byteOffset == old(byteOffset)
      ensures log == old(log) + [Delivery(old(mark), old(Offset()), old(lock), old(lockAt), rx)]
      ensures mark == old(mark).(slot := old(mark).slot + 1)
    {
      rx := CopyFrame(slack);
      Advance(Delivery(mark, Offset(), lock, lockAt, rx), old(dma.stream));
    }

    method Advance(ghost d: Delivery, ghost s: seq<Byte>)
      requires Valid() && s <= dma.stream && mark.Pos() + Offset() + 4 <= |s|
      requires d == Delivery(mark, Offset(), lock, lockAt, Win(s, mark.Pos() + Offset()))
      modifies this`readSlot, this`turns, this`mark, this`log
      ensures Valid() && log == old(log) + [d] && mark == d.After()
    {
      NextSlot();
      Record(d, s);
    }

    ghost method Record(d: Delivery, s: seq<Byte>)
      requires LogOk() && OffsetOk() && s <= dma.stream && mark.Pos() + Offset() + 4 <= |s|
      requires d == Delivery(mark, Offset(), lock, lockAt, Win(s, mark.Pos() + Offset()))
      modifies this`mark, this`log
      ensures LogOk() && log == old(log) + [d] && mark == d.After()
    {
      GenuineTake(d, s, dma.stream);
      HistoryAppend(log, dma.stream, d);
      log, mark := log + [d], d.After();
    }

    /** With only `s` written so far there was no frame to hand up: of the bytes from the
        cursor to the head, as the ring sees them, too few for the offset in use, or with
        none yet fewer than a slot, or not a whole scan and a first window that is none. */
    ghost predicate TooFew(s: seq<Byte>)
      reads this`mark, this`byteOffset
    {
      && mark.Pos() <= |s|
      && var w := (|s| - mark.Pos()) % RING;
         if byteOffset >= 0 then w < byteOffset + 4
         else w < 4 || (w < 7 && !Plausible(Win(s, |s| - w)))
    }

    /** A look while the offset is still unknown. */
    method Settle(written: nat, lastSkip: bool) returns (found: Look, left: nat)
      requires Valid() && byteOffset == -1 && |dma.stream| == mark.Pos() + written && written <= OVERRUN_AT
      modifies this, dma, dma.ring
      ensures Valid() && log == old(log) && old(dma.stream) <= dma.stream
      ensures found == Verdict(old(dma.stream), written, -1, lastSkip)
      ensures found == Skipped ==> !lastSkip && mark == old(mark).(slot := mark.slot, skips := old(mark).skips + 1)
                                   && mark.slot == old(mark).slot + 1
      ensures found != Skipped ==> mark == old(mark)
      ensures found != Ready ==> byteOffset == -1 && lock == old(lock)
      ensures found == Ready && byteOffset == -1 ==> NoWayOn(old(dma.stream), old(mark).Pos(), lastSkip)
      ensures Complete(old(dma.stream), old(mark).Pos(), -1, old(dma.stream)) ==>
                && found == Ready && byteOffset >= 0
                && AtItsOffset(old(dma.stream), old(mark).Pos(), -1, byteOffset)
      ensures found == Ready ==> mark.Pos() + Offset() + 4 <= |dma.stream| && |dma.stream| + left <= mark.Pos() + RING
    {
      found, left := Nothing, 8;
      if written >= 3 + 4 {
        var detected, ambiguous;
        detected, ambiguous, left := ScanAndLock(left);
        found := Ready;
        if detected < 0 && (ambiguous || written >= 2 * 4) && !lastSkip {
          ScanStable(old(dma.stream), dma.stream, mark.Pos());
          SkipSlot();
          found := Skipped;
        }
      } else if written >= 4 {
        var ok;
        ok, left := TryOffsetZero(left);
        if ok {
          found := Ready;
        }
      }
    }

    /** The body of the wait loop up to the sleep: what one look at the ring finds. */
    method Look(lastSkip: bool) returns (found: Look, left: nat)
      requires Valid()
      modifies this, dma, dma.ring
      ensures Valid()
      ensures log == old(log) && Follows(old(mark), mark)
      ensures found == Verdict(old(dma.stream), Backlog(old(dma.stream), old(mark)), old(byteOffset), lastSkip)
      ensures found == Nothing ==> TooFew(old(dma.stream))
      ensures old(dma.stream) <= dma.stream
      ensures found != Ready || old(byteOffset) >= 0 ==> byteOffset == old(byteOffset) && lock == old(lock)
      ensures found == Ready && byteOffset == -1 ==> NoWayOn(old(dma.stream), mark.Pos(), lastSkip)
      ensures found == Ready || found == Nothing ==>
                (|old(dma.stream)| < old(mark).Pos() + RING ==> mark == old(mark))
      ensures mark.skips == old(mark).skips + if found == Skipped then 1 else 0
      ensures mark.restarts == old(mark).restarts
      ensures Complete(old(dma.stream), old(mark).Pos(), old(byteOffset), old(dma.stream)) ==>
                && found == Ready && mark == old(mark) && byteOffset >= 0
                && AtItsOffset(old(dma.stream), mark.Pos(), old(byteOffset), byteOffset)
      ensures found == Resynced ==> |dma.stream| <= mark.Pos() + 3 && mark.overruns == old(mark).overruns + 1
      ensures found == Resynced ==> dma.stream == old(dma.stream)
      ensures found == Skipped ==> !lastSkip
      ensures found == Ready ==> mark.Pos() + Offset() + 4 <= |dma.stream| && |dma.stream| + left <= mark.Pos() + RING
    {
      var head, written;
      ghost var wraps;
      head, written, wraps := Unread();
      left := 8;
      if written > OVERRUN_AT {
        Resync(head, wraps);
        return Resynced, left;
      }
      if byteOffset >= 0 {
        found := if written >= byteOffset + 4 then Ready else Nothing;
      } else {
        found, left := Settle(written, lastSkip);
      }
    }

    /** A wait of at most `timeoutMs` that slept so long: in full if nothing came, and in
        steps of 2 ms. */
    predicate WaitedFor(slept: nat, timeoutMs: int, inFull: bool) {
      (slept == 0 || slept < timeoutMs + 2) && (inFull ==> slept >= timeoutMs)
    }

    /** The bytes between cursor and head right after a resync; 4 at any other time. */
    ghost predicate LeadIs(lead: int, resynced: bool)
      reads this`mark, dma
    {
      lead == (if resynced then |dma.stream| - mark.Pos() else 4) && 0 <= lead <= 4 && (resynced ==> lead < 4)
    }

    /** One turn of the wait loop up to the sleep. If no other turn came before it, a
        window that was complete when the cursor stood at `from` is found. */
    method Turn(passing: nat, lastSkip: bool, resynced: bool, ghost was: seq<Byte>, ghost from: Mark, ghost b: int,
                ghost first: bool, ghost lead: int)
      returns (found: Look, left: nat, ghost seen: seq<Byte>, ghost next: int)
      requires Valid() && was <= dma.stream && -1 <= b < 4 && Follows(from, mark)
      requires first ==> mark == from && byteOffset == b
      requires LeadIs(lead, resynced) && (resynced ==> passing <= RESYNC_SLACK)
      modifies this, dma, dma.ring
      ensures Valid() && log == old(log) && Follows(from, mark)
      ensures old(dma.stream) <= seen <= dma.stream
      ensures LeadIs(next, found == Resynced) && (resynced && found == Resynced ==> next < lead)
      ensures found == Nothing ==> TooFew(seen)
      ensures found == Skipped ==> !lastSkip
      ensures mark.skips == old(mark).skips + if found == Skipped then 1 else 0
      ensures mark.restarts == old(mark).restarts
      ensures found != Ready || old(byteOffset) >= 0 ==> byteOffset == old(byteOffset)
      ensures found == Ready && byteOffset == -1 ==> NoWayOn(seen, mark.Pos(), lastSkip)
      ensures found == Ready ==> mark.Pos() + Offset() + 4 <= |dma.stream| && |dma.stream| + left <= mark.Pos() + RING
      ensures first && Complete(was, from.Pos(), b, dma.stream) ==>
                && found == Ready && mark == from && byteOffset >= 0
                && AtItsOffset(was, from.Pos(), b, byteOffset)
    {
      Elapse(passing);
      seen := dma.stream;
      found, left := Look(lastSkip);
      next := if found == Resynced then |dma.stream| - mark.Pos() else 4;
      FollowsTransitive(from, old(mark), mark);
      LeadShrinks(|seen|, old(mark).slot, mark.slot, lead, resynced, found == Resynced);
      if first && Complete(was, from.Pos(), b, dma.stream) {
        CompleteSooner(was, from.Pos(), b, seen, dma.stream);
      }
    }

    /** The wait loop: returns with all the bytes the chosen window needs present,
        or after the timeout. Between a check of the cursor and the end of the copy
        the DMA makes at most 8 transfers, and between a resync and the check that
        follows it at once at most 247; otherwise it makes any number at any time.
        Every path round the loop shrinks the time left, the slots left to skip, or the
        bytes a resync leaves between the cursor and the head. */
    method Await(timeoutMs: int) returns (ready: bool, left: nat, ghost seen: seq<Byte>, ghost slept: nat)
      requires Valid()
      modifies this, dma, dma.ring
      ensures Valid()
      ensures log == old(log) && Follows(old(mark), mark)
      ensures WaitedFor(slept, timeoutMs, !ready) && mark.restarts == old(mark).restarts
      ensures !ready || old(byteOffset) >= 0 ==> byteOffset == old(byteOffset)
      ensures old(dma.stream) <= seen <= dma.stream
      ensures !ready ==> TooFew(seen)
      ensures Complete(old(dma.stream), old(mark).Pos(), old(byteOffset), dma.stream) ==>
                && ready && mark == old(mark) && byteOffset >= 0
                && AtItsOffset(old(dma.stream), mark.Pos(), old(byteOffset), byteOffset)
      ensures ready && byteOffset == -1 ==>
                NoWayOn(seen, mark.Pos(), mark.skips == old(mark).skips + SLOTS - 1)
      ensures ready ==> mark.Pos() + Offset() + 4 <= |dma.stream| && |dma.stream| + left <= mark.Pos() + RING
    {
      slept := 0;
      var waitedMs, skipped, resynced := 0, 0, false;
      ghost var lead, first := 4, true;
      while true
        invariant Valid() && log == old(log) && Follows(old(mark), mark)
        invariant slept == waitedMs && (waitedMs == 0 || waitedMs < timeoutMs + 2)
        invariant 0 <= waitedMs && 0 <= skipped < SLOTS && mark.skips == old(mark).skips + skipped
        invariant old(dma.stream) <= dma.stream
        invariant mark.restarts == old(mark).restarts && byteOffset == old(byteOffset)
        invariant first ==> mark == old(mark)
        invariant !first ==> !Complete(old(dma.stream), old(mark).Pos(), old(byteOffset), dma.stream)
        invariant LeadIs(lead, resynced)
        decreases if waitedMs < timeoutMs then timeoutMs - waitedMs else 0, SLOTS - skipped, lead
      {
        var passing: nat := *;
        if resynced {
          passing := RESYNC_SLACK;
        }
        var found;
        found, left, seen, lead := Turn(passing, skipped + 1 >= SLOTS, resynced, old(dma.stream), old(mark),
                                        old(byteOffset), first, lead);
        first, resynced := false, found == Resynced;
        match found {
          case Ready => return true, left, seen, slept;
          case Resynced =>
          case Skipped => skipped := skipped + 1;
          case Nothing =>
            if waitedMs >= timeoutMs {
              return false, left, seen, slept;
            }
            slept := slept + 2;      // k_sleep
            waitedMs := waitedMs + 2;
        }
      }
    }

    /** Waits for the next frame and takes it; `seen` is the stream at the last look. A
        timeout means that too little lay between the cursor and the head then; a complete
        window the writer stays clear of is delivered, at the offset it is known by or
        shows; and what is handed up unsettled could not be passed over: there was no
        spare byte, or a whole ring but one slot had been passed over already. */
    method SniffOneTo(timeoutMs: int) returns (r: Outcome, ghost seen: seq<Byte>, ghost slept: nat)
      requires Valid()
      modifies this, dma, dma.ring
      ensures Valid() && old(dma.stream) <= seen <= dma.stream
      ensures WaitedFor(slept, timeoutMs, r.TimedOut?) && mark.restarts == old(mark).restarts
      ensures r.TimedOut? || old(byteOffset) >= 0 ==> byteOffset == old(byteOffset)
      ensures r.TimedOut? ==> log == old(log) && Follows(old(mark), mark) && TooFew(seen)
      ensures r.Delivered? ==>
                && |log| > 0 && log == old(log) + [log[|log| - 1]]
                && Follows(old(mark), log[|log| - 1].before) && mark == log[|log| - 1].After()
                && r.frame == Decode(log[|log| - 1].bytes)
      ensures Complete(old(dma.stream), old(mark).Pos(), old(byteOffset), dma.stream) ==>
                && r.Delivered? && log[|log| - 1].before == old(mark)
                && AtItsOffset(old(dma.stream), old(mark).Pos(), old(byteOffset), log[|log| - 1].off)
      ensures r.Delivered? && byteOffset == -1 ==>
                var d := log[|log| - 1].before;
                NoWayOn(seen, d.Pos(), d.skips == old(mark).skips + SLOTS - 1)
    {
      var ready, left;
      ready, left, seen, slept := Await(timeoutMs);
      if !ready {
        return TimedOut, seen, slept;
      }
      ghost var was, offset := dma.stream, Offset();
      var rx := Take(left);
      if Complete(old(dma.stream), old(mark).Pos(), old(byteOffset), dma.stream) {
        CompleteSooner(old(dma.stream), old(mark).Pos(), old(byteOffset), was, dma.stream);
      }
      return Delivered(Decode(rx)), seen, slept;
    }
  }
}
