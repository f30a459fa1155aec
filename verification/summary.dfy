/** The capture command's summary (src/python/cli/cmd_capture.py): the per-register
    tally with its two memory bounds, and the run-length folding of the listing. */
module Summary {
  import opened Clause22

  /** Registers with a line of their own, and values listed of each. */
  const MAX_REGS := 48
  const MAX_VALUES := 8

  type Key = (int, int)

  function KeyOf(f: Frame): Key { (f.phy, f.reg) }

  // ---- what the summary should say --------------------------------------------

  /** The registers of a capture in order of first appearance. */
  function Registers(fs: seq<Frame>): seq<Key> {
    if fs == [] then []
    else
      var ks, k := Registers(fs[..|fs| - 1]), KeyOf(fs[|fs| - 1]);
      if k in ks then ks else ks + [k]
  }

  /** The ones with a line of their own: the first 48. */
  function Kept(fs: seq<Frame>): (ks: seq<Key>)
    ensures |ks| <= MAX_REGS && ks <= Registers(fs)
  {
    var ks := Registers(fs);
    if |ks| <= MAX_REGS then ks else ks[..MAX_REGS]
  }

  function Frames(fs: seq<Frame>, k: Key, isRead: bool): nat {
    if fs == [] then 0
    else
      var f := fs[|fs| - 1];
      Frames(fs[..|fs| - 1], k, isRead) + if KeyOf(f) == k && (f.op == 2) == isRead then 1 else 0
  }

  /** The distinct values a register carried, in order of first appearance. */
  function Values(fs: seq<Frame>, k: Key): seq<int> {
    if fs == [] then []
    else
      var vs, f := Values(fs[..|fs| - 1], k), fs[|fs| - 1];
      if KeyOf(f) != k || f.data in vs then vs else vs + [f.data]
  }

  function Outside(fs: seq<Frame>, ks: seq<Key>): nat {
    if fs == [] then 0
    else Outside(fs[..|fs| - 1], ks) + if KeyOf(fs[|fs| - 1]) in ks then 0 else 1
  }

  /** Frames on any of the listed registers. */
  function Tallied(fs: seq<Frame>, ks: seq<Key>): nat {
    if ks == [] then 0
    else Tallied(fs, ks[..|ks| - 1]) + Frames(fs, ks[|ks| - 1], true) + Frames(fs, ks[|ks| - 1], false)
  }

  predicate Distinct(ks: seq<Key>) {
    forall i, j :: 0 <= i < j < |ks| ==> ks[i] != ks[j]
  }

  // ---- the tally -----------------------------------------------------------------

  datatype Entry = Entry(readCount: nat, writeCount: nat, values: seq<int>, overflowed: bool)

  /** What is kept of a register: its counts, its first 8 distinct values, and whether
      there were more. */
  function Summed(fs: seq<Frame>, k: Key): Entry {
    var vs := Values(fs, k);
    Entry(Frames(fs, k, true), Frames(fs, k, false),
          if |vs| <= MAX_VALUES then vs else vs[..MAX_VALUES], |vs| > MAX_VALUES)
  }

  class Tally {
    var byReg: map<Key, Entry>
    var dropped: nat
    ghost var frames: seq<Frame>

    constructor ()
      ensures Valid() && frames == []
    {
      byReg, dropped, frames := map[], 0, [];
    }

    /** The entries are what they should be for the registers that have one. */
    ghost predicate Sums()
      reads this
    {
      forall k :: k in byReg ==> byReg[k] == Summed(frames, k)
    }

    /** The tally is exactly the summary of the frames it was given. */
    ghost predicate Valid()
      reads this
    {
      && |byReg| == |Kept(frames)| && (forall k :: k in byReg <==> k in Kept(frames))
      && Sums() && dropped == Outside(frames, Kept(frames))
    }

    method Add(f: Frame)
      requires Valid()
      modifies this
      ensures Valid() && frames == old(frames) + [f]
    {
      var k := KeyOf(f);
      AddedKept(frames, f);
      if k !in byReg {
        if |byReg| >= MAX_REGS {
          Drop(f);
          return;
        }
        NewRegister(frames, k);
        byReg := byReg[k := Entry(0, 0, [], false)];
      }
      Bump(k, f);
    }

    method Drop(f: Frame)
      requires Sums() && KeyOf(f) !in byReg
      modifies this
      ensures Sums() && frames == old(frames) + [f] && byReg == old(byReg) && dropped == old(dropped) + 1
    {
      dropped := dropped + 1;
      AddedElsewhere(frames, f);
      frames := frames + [f];
    }

    method Bump(k: Key, f: Frame)
      requires Sums() && k == KeyOf(f) && k in byReg
      modifies this
      ensures Sums() && frames == old(frames) + [f] && dropped == old(dropped)
      ensures byReg.Keys == old(byReg.Keys) && |byReg| == |old(byReg)|
    {
      byReg := byReg[k := Counted(byReg[k], f)];
      AddedHere(frames, f);
      AddedElsewhere(frames, f);
      frames := frames + [f];
    }

    /** The entry's own update. */
    static function Counted(e: Entry, f: Frame): Entry {
      var e := if f.op == 2 then e.(readCount := e.readCount + 1) else e.(writeCount := e.writeCount + 1);
      if f.data in e.values then e
      else if |e.values| < MAX_VALUES then e.(values := e.values + [f.data])
      else e.(overflowed := true)
    }
  }

  lemma AddedKept(fs: seq<Frame>, f: Frame)
    ensures var k := KeyOf(f);
            Kept(fs + [f]) == if k in Kept(fs) || |Kept(fs)| == MAX_REGS then Kept(fs) else Kept(fs) + [k]
    ensures Outside(fs + [f], Kept(fs + [f])) == Outside(fs, Kept(fs)) + if KeyOf(f) in Kept(fs + [f]) then 0 else 1
  {
    assert (fs + [f])[..|fs|] == fs;
    var k := KeyOf(f);
    if k !in Kept(fs) && |Kept(fs)| < MAX_REGS {
      NewRegister(fs, k);
      WiderKept(fs, Kept(fs), k);
    }
  }

  /** A register not seen has no counts and no values, and keeping it drops nothing less. */
  lemma {:induction false} NewRegister(fs: seq<Frame>, k: Key)
    requires k !in Registers(fs)
    ensures Summed(fs, k) == Entry(0, 0, [], false)
    ensures forall i :: 0 <= i < |fs| ==> KeyOf(fs[i]) != k
  {
    if fs != [] {
      var init := fs[..|fs| - 1];
      NewRegister(init, k);
      assert k != KeyOf(fs[|fs| - 1]);
      forall i | 0 <= i < |fs|
        ensures KeyOf(fs[i]) != k
      {
        if i < |fs| - 1 {
          assert fs[i] == init[i];
        }
      }
    }
  }

  lemma {:induction false} WiderKept(fs: seq<Frame>, ks: seq<Key>, k: Key)
    requires forall i :: 0 <= i < |fs| ==> KeyOf(fs[i]) != k
    ensures Outside(fs, ks + [k]) == Outside(fs, ks)
  {
    if fs != [] {
      WiderKept(fs[..|fs| - 1], ks, k);
    }
  }

  lemma AddedElsewhere(fs: seq<Frame>, f: Frame)
    ensures forall k :: k != KeyOf(f) ==> Summed(fs + [f], k) == Summed(fs, k)
  {
    assert (fs + [f])[..|fs|] == fs;
  }

  lemma AddedHere(fs: seq<Frame>, f: Frame)
    ensures Summed(fs + [f], KeyOf(f)) == Tally.Counted(Summed(fs, KeyOf(f)), f)
  {
    assert (fs + [f])[..|fs|] == fs;
  }

  // ---- nothing is lost ---------------------------------------------------------------

  lemma {:induction false} RegistersAreThose(fs: seq<Frame>, k: Key)
    ensures Distinct(Registers(fs))
    ensures k in Registers(fs) <==> exists i :: 0 <= i < |fs| && KeyOf(fs[i]) == k
  {
    if fs != [] {
      var init := fs[..|fs| - 1];
      RegistersAreThose(init, k);
      RegistersAreThose(init, KeyOf(fs[|fs| - 1]));
      if k in Registers(init) {
        var i :| 0 <= i < |init| && KeyOf(init[i]) == k;
        assert KeyOf(fs[i]) == k;
      }
    }
  }

  lemma {:induction false} ValuesAreThose(fs: seq<Frame>, k: Key, v: int)
    ensures forall i, j :: 0 <= i < j < |Values(fs, k)| ==> Values(fs, k)[i] != Values(fs, k)[j]
    ensures v in Values(fs, k) <==> exists i :: 0 <= i < |fs| && KeyOf(fs[i]) == k && fs[i].data == v
  {
    if fs != [] {
      var init := fs[..|fs| - 1];
      ValuesAreThose(init, k, v);
      if v in Values(init, k) {
        var i :| 0 <= i < |init| && KeyOf(init[i]) == k && init[i].data == v;
        assert KeyOf(fs[i]) == k && fs[i].data == v;
      }
    }
  }

  lemma {:induction false} TalliedOneMore(fs: seq<Frame>, f: Frame, ks: seq<Key>)
    requires Distinct(ks)
    ensures Tallied(fs + [f], ks) == Tallied(fs, ks) + if KeyOf(f) in ks then 1 else 0
  {
    assert (fs + [f])[..|fs|] == fs;
    if ks != [] {
      TalliedOneMore(fs, f, ks[..|ks| - 1]);
      assert ks == ks[..|ks| - 1] + [ks[|ks| - 1]];
    }
  }

  lemma {:induction false} TalliedNone(ks: seq<Key>)
    ensures Tallied([], ks) == 0
  {
    if ks != [] {
      TalliedNone(ks[..|ks| - 1]);
    }
  }

  lemma {:induction false} TalliedOrOutside(fs: seq<Frame>, ks: seq<Key>)
    requires Distinct(ks)
    ensures Tallied(fs, ks) + Outside(fs, ks) == |fs|
  {
    if fs == [] {
      TalliedNone(ks);
    } else {
      var init := fs[..|fs| - 1];
      TalliedOrOutside(init, ks);
      TalliedOneMore(init, fs[|fs| - 1], ks);
      assert init + [fs[|fs| - 1]] == fs;
    }
  }

  /** The counts printed and the frames dropped make up every frame seen, and nothing is
      dropped exactly while there are at most 48 registers. */
  lemma NothingIsLost(fs: seq<Frame>)
    ensures Tallied(fs, Kept(fs)) + Outside(fs, Kept(fs)) == |fs|
    ensures Outside(fs, Kept(fs)) == 0 <==> |Registers(fs)| <= MAX_REGS
  {
    RegistersAreThose(fs, (0, 0));
    TalliedOrOutside(fs, Kept(fs));
    if |Registers(fs)| > MAX_REGS {
      var k := Registers(fs)[MAX_REGS];
      RegistersAreThose(fs, k);
      var i :| 0 <= i < |fs| && KeyOf(fs[i]) == k;
      OneOutside(fs, Kept(fs), i);
    } else {
      AllInside(fs, Kept(fs));
    }
  }

  lemma {:induction false} OneOutside(fs: seq<Frame>, ks: seq<Key>, i: nat)
    requires i < |fs| && KeyOf(fs[i]) !in ks
    ensures Outside(fs, ks) > 0
  {
    if i < |fs| - 1 {
      OneOutside(fs[..|fs| - 1], ks, i);
    }
  }

  lemma {:induction false} AllInside(fs: seq<Frame>, ks: seq<Key>)
    requires forall k :: k in Registers(fs) ==> k in ks
    ensures Outside(fs, ks) == 0
  {
    if fs != [] {
      AllInside(fs[..|fs| - 1], ks);
    }
  }

  // ---- the listing ------------------------------------------------------------------

  /** A printed line: the index of its first frame, the frame, how often it came. */
  datatype Line = Line(at: nat, frame: Frame, count: nat)

  function Repeat(f: Frame, n: nat): (s: seq<Frame>)
    ensures |s| == n
  {
    seq(n, _ => f)
  }

  function Expand(lines: seq<Line>): seq<Frame> {
    if lines == [] then []
    else Expand(lines[..|lines| - 1]) + Repeat(lines[|lines| - 1].frame, lines[|lines| - 1].count)
  }

  /** Lines number their first frame from 1, hold at least one frame, and no line could
      have been folded into the one before it. */
  predicate Folded(lines: seq<Line>) {
    lines == [] ||
    (var init, last := lines[..|lines| - 1], lines[|lines| - 1];
     && Folded(init) && last.count > 0 && last.at == |Expand(init)| + 1
     && (init != [] ==> init[|init| - 1].frame != last.frame))
  }

  function Bad(fs: seq<Frame>): nat {
    if fs == [] then 0 else Bad(fs[..|fs| - 1]) + if fs[|fs| - 1].err != 0 then 1 else 0
  }

  lemma FlushKeeps(lines: seq<Line>, l: Line)
    requires Folded(lines) && l.count > 0 && l.at == |Expand(lines)| + 1
    requires lines != [] ==> lines[|lines| - 1].frame != l.frame
    ensures Folded(lines + [l]) && Expand(lines + [l]) == Expand(lines) + Repeat(l.frame, l.count)
  {
    assert (lines + [l])[..|lines|] == lines;
  }

  lemma RepeatMore(before: seq<Frame>, f: Frame, n: nat)
    ensures before + Repeat(f, n) + [f] == before + Repeat(f, n + 1)
    ensures before + Repeat(f, 0) == before
  {
    assert Repeat(f, n + 1) == Repeat(f, n) + [f];
  }

  lemma LastIsRun(lines: seq<Line>, run: Frame, n: nat)
    ensures var fs := Expand(lines) + Repeat(run, n);
            n > 0 ==> fs != [] && fs[|fs| - 1] == run
  {
  }

  /** The run being folded and the lines printed so far. */
  class Listing {
    var lines: seq<Line>
    var run: Frame
    var runAt: nat
    var runLen: nat              // 0: no run yet
    ghost var frames: seq<Frame>

    constructor ()
      ensures Valid() && frames == []
    {
      lines, run, runAt, runLen, frames := [], Frame(0, 0, 0, 0, 0), 0, 0, [];
    }

    ghost predicate Valid()
      reads this
    {
      && Folded(lines) && frames == Expand(lines) + Repeat(run, runLen)
      && (runLen == 0 ==> frames == [] && lines == [])
      && (runLen > 0 ==> runAt == |Expand(lines)| + 1)
      && (runLen > 0 && lines != [] ==> lines[|lines| - 1].frame != run)
    }

    method Flush()
      requires Valid()
      modifies this`lines
      ensures Folded(lines) && Expand(lines) == frames
      ensures runLen > 0 ==> lines != [] && lines[|lines| - 1].frame == run
    {
      if runLen == 0 {
        assert Repeat(run, 0) == [];
        return;
      }
      FlushKeeps(lines, Line(runAt, run, runLen));
      lines := lines + [Line(runAt, run, runLen)];
    }

    /** One more frame, the `seen`-th; tells whether it only lengthened the run. */
    method Take(f: Frame, seen: nat) returns (same: bool)
      requires Valid() && seen == |frames| + 1
      modifies this
      ensures Valid() && frames == old(frames) + [f]
      ensures same <==> old(frames) != [] && f == old(frames)[|old(frames)| - 1]
    {
      LastIsRun(lines, run, runLen);
      if runLen > 0 && f == run {
        RepeatMore(Expand(lines), f, runLen);
        runLen := runLen + 1;
        frames := frames + [f];
        return true;
      }
      Flush();
      RepeatMore(frames, f, 0);
      run, runAt, runLen := f, seen, 1;
      frames := frames + [f];
      return false;
    }
  }

  /** Both have taken the frames `fs`. */
  ghost predicate Agree(tally: Tally, listing: Listing, fs: seq<Frame>)
    reads tally, listing
  {
    tally.Valid() && listing.Valid() && tally.frames == fs && listing.frames == fs
  }

  /** One turn of render's loop. */
  method Consume(tally: Tally, listing: Listing, f: Frame, seen: nat, ghost fs: seq<Frame>)
    returns (same: bool)
    requires Agree(tally, listing, fs) && seen == |fs| + 1
    modifies tally, listing
    ensures Agree(tally, listing, fs + [f])
    ensures same <==> fs != [] && f == fs[|fs| - 1]
  {
    tally.Add(f);
    same := listing.Take(f, seen);
  }

  /** The last of the frames `fs` starts a run. */
  predicate StartsRun(fs: seq<Frame>) {
    fs != [] && (|fs| == 1 || fs[|fs| - 1] != fs[|fs| - 2])
  }

  /** No run among the frames `fs` started with the volume full. */
  predicate Roomy(fs: seq<Frame>, full: nat -> bool) {
    fs == [] || (Roomy(fs[..|fs| - 1], full) && !(StartsRun(fs) && full(|fs|)))
  }

  lemma TakeNext(fs: seq<Frame>, f: Frame, rest: seq<Frame>)
    requires rest != [] && rest[0] == f
    ensures fs + [f] + rest[1..] == fs + rest
  {
    assert rest == [f] + rest[1..];
  }

  lemma OneMoreTaken(fs: seq<Frame>, f: Frame, full: nat -> bool)
    ensures Bad(fs + [f]) == Bad(fs) + if f.err != 0 then 1 else 0
    ensures StartsRun(fs + [f]) <==> !(fs != [] && f == fs[|fs| - 1])
    ensures Roomy(fs + [f], full) == (Roomy(fs, full) && !(StartsRun(fs + [f]) && full(|fs| + 1)))
  {
    assert (fs + [f])[..|fs|] == fs;
  }

  /** render: `input` is what the capture hands over until it ends or times out,
      `full` whether the volume has run out of room after so many frames. The lines
      expand to exactly the frames taken, in order, and the tally is theirs; only a run
      that starts with the volume full ends it early, and the first one does. */
  method Render(input: seq<Frame>, full: nat -> bool)
    returns (lines: seq<Line>, seen: nat, bad: nat, tally: Tally)
    ensures seen <= |input| && Expand(lines) == input[..seen] && Folded(lines)
    ensures if Roomy(input[..seen], full) then seen == |input|
            else seen > 0 && Roomy(input[..seen - 1], full)
    ensures bad == Bad(input[..seen])
    ensures tally.Valid() && tally.frames == input[..seen]
  {
    tally := new Tally();
    var listing := new Listing();
    ghost var fs;
    seen, bad, fs := Consumed(input, full, tally, listing);
    listing.Flush();
    lines := listing.lines;
    TakenSoFar(input, fs);
  }

  lemma TakenSoFar(input: seq<Frame>, fs: seq<Frame>)
    requires |fs| <= |input| && fs + input[|fs|..] == input
    ensures input[..|fs|] == fs
    ensures |fs| > 0 ==> input[..|fs| - 1] == fs[..|fs| - 1]
  {
    assert (fs + input[|fs|..])[..|fs|] == fs;
  }

  /** render's loop. */
  method Consumed(input: seq<Frame>, full: nat -> bool, tally: Tally, listing: Listing)
    returns (seen: nat, bad: nat, ghost fs: seq<Frame>)
    requires Agree(tally, listing, [])
    modifies tally, listing
    ensures Agree(tally, listing, fs) && |fs| == seen <= |input| && fs + input[seen..] == input && bad == Bad(fs)
    ensures if Roomy(fs, full) then seen == |input| else seen > 0 && Roomy(fs[..seen - 1], full)
  {
    fs := [];
    seen, bad := 0, 0;
    while seen < |input|
      invariant |fs| == seen <= |input| && fs + input[seen..] == input && bad == Bad(fs)
      invariant Agree(tally, listing, fs) && Roomy(fs, full)
    {
      var f := input[seen];
      TakeNext(fs, f, input[seen..]);
      OneMoreTaken(fs, f, full);
      if f.err != 0 {
        bad := bad + 1;
      }
      var same := Consume(tally, listing, f, seen + 1, fs);
      assert (fs + [f])[..seen] == fs;
      fs := fs + [f];
      seen := seen + 1;
      if !same && full(seen) {
        break;
      }
    }
  }
}
