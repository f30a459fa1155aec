/** The figures of the capture summary, told by the frames themselves rather than by how
    they are added up. */
module SummaryTheorems {
  import opened Clause22
  import opened Summary

  /** The frames on register `k` that are reads, or that are not. */
  function FramesOn(fs: seq<Frame>, k: Key, isRead: bool): (at: set<nat>) {
    set i: nat | i < |fs| && fs[i].phy == k.0 && fs[i].reg == k.1 && (fs[i].op == 2) == isRead
  }

  /** The read count is how many frames with operation 2 the register had, the write count
      how many others. */
  lemma {:induction false} CountsAreThose(fs: seq<Frame>, k: Key, isRead: bool)
    ensures Frames(fs, k, isRead) == |FramesOn(fs, k, isRead)|
  {
    if fs == [] {
      assert FramesOn(fs, k, isRead) == {};
    } else {
      var m := |fs| - 1;
      CountsAreThose(fs[..m], k, isRead);
      var rest := FramesOn(fs[..m], k, isRead);
      if KeyOf(fs[m]) == k && (fs[m].op == 2) == isRead {
        assert FramesOn(fs, k, isRead) == rest + {m};
      } else {
        assert FramesOn(fs, k, isRead) == rest;
      }
    }
  }

  /** Registers and values come in order of first appearance: what the first frames had is
      how the list of all of them starts. */
  lemma {:induction false} InOrderOfAppearance(fs: seq<Frame>, n: nat, k: Key)
    requires n <= |fs|
    ensures Registers(fs[..n]) <= Registers(fs) && Values(fs[..n], k) <= Values(fs, k)
  {
    if n < |fs| {
      var m := |fs| - 1;
      InOrderOfAppearance(fs[..m], n, k);
      assert fs[..m][..n] == fs[..n];
    } else {
      assert fs[..n] == fs;
    }
  }

  lemma {:induction false} DistinctCounts(vs: seq<int>)
    requires forall i, j :: 0 <= i < j < |vs| ==> vs[i] != vs[j]
    ensures |set v | v in vs| == |vs|
  {
    if vs == [] {
      assert (set v | v in vs) == {};
    } else {
      var m := |vs| - 1;
      DistinctCounts(vs[..m]);
      assert vs == vs[..m] + [vs[m]];
      assert (set v | v in vs) == (set v | v in vs[..m]) + {vs[m]};
      assert vs[m] !in vs[..m];
    }
  }

  /** The values register `k` carried. */
  function Carried(fs: seq<Frame>, k: Key): (vs: set<int>) {
    set i: nat | i < |fs| && fs[i].phy == k.0 && fs[i].reg == k.1 :: fs[i].data
  }

  /** What the tally holds of a register: its counts; its distinct values, all of them or
      the first eight to appear; and a mark exactly on more than eight. */
  lemma SummedIsThat(fs: seq<Frame>, k: Key)
    ensures var e := Summed(fs, k);
            && e.readCount == |FramesOn(fs, k, true)| && e.writeCount == |FramesOn(fs, k, false)|
            && (e.overflowed <==> |Carried(fs, k)| > 8)
            && e.values <= Values(fs, k) && |e.values| == (if e.overflowed then 8 else |Carried(fs, k)|)
            && (!e.overflowed ==> forall v :: v in e.values <==> v in Carried(fs, k))
  {
    CountsAreThose(fs, k, true);
    CountsAreThose(fs, k, false);
    var vs := Values(fs, k);
    ValuesAreThose(fs, k, 0);
    DistinctCounts(vs);
    forall v
      ensures v in vs <==> v in Carried(fs, k)
    {
      ValuesAreThose(fs, k, v);
    }
    assert (set v | v in vs) == Carried(fs, k);
  }

  /** So a tally that has taken the frames says of every register with a line of its own. */
  lemma TallySays(t: Tally, k: Key)
    requires t.Valid() && k in t.byReg
    ensures var (e, fs) := (t.byReg[k], t.frames);
            && e.readCount == |FramesOn(fs, k, true)| && e.writeCount == |FramesOn(fs, k, false)|
            && (e.overflowed <==> |Carried(fs, k)| > 8)
            && (!e.overflowed ==> forall v :: v in e.values <==> v in Carried(fs, k))
  {
    SummedIsThat(t.frames, k);
  }

  /** The bad frames are those with an error mark. */
  lemma {:induction false} BadAreThose(fs: seq<Frame>)
    ensures Bad(fs) == |set i: nat | i < |fs| && fs[i].err != 0|
  {
    var at := set i: nat | i < |fs| && fs[i].err != 0;
    if fs == [] {
      assert at == {};
    } else {
      var m := |fs| - 1;
      BadAreThose(fs[..m]);
      var rest := set i: nat | i < m && fs[..m][i].err != 0;
      assert at == if fs[m].err != 0 then rest + {m} else rest;
    }
  }

  /** After `n` frames a run has just begun and the volume is full. */
  predicate FullAtStart(fs: seq<Frame>, full: nat -> bool, n: nat) {
    0 < n <= |fs| && (n == 1 || fs[n - 1] != fs[n - 2]) && full(n)
  }

  /** Where the listing stops early: at the first such moment and nowhere else. */
  lemma {:induction false} RoomyIsThat(fs: seq<Frame>, full: nat -> bool)
    ensures Roomy(fs, full) <==> forall n: nat :: n <= |fs| ==> !FullAtStart(fs, full, n)
  {
    if fs != [] {
      var m := |fs| - 1;
      RoomyIsThat(fs[..m], full);
      forall n: nat | n <= m
        ensures FullAtStart(fs[..m], full, n) == FullAtStart(fs, full, n)
      {
      }
      assert (StartsRun(fs) && full(|fs|)) == FullAtStart(fs, full, |fs|);
    }
  }

  /** No two neighbouring lines could have been one, and none is empty. */
  lemma {:induction false} LinesDiffer(lines: seq<Line>, j: nat)
    requires Folded(lines) && j < |lines|
    ensures lines[j].count > 0 && (j > 0 ==> lines[j - 1].frame != lines[j].frame)
    decreases |lines|
  {
    if j < |lines| - 1 {
      LinesDiffer(lines[..|lines| - 1], j);
    }
  }

  /** The lines a listing may have: each says which frame of the input it starts at, and
      every frame it stands for is the one on it. */
  lemma {:induction false} LinesSay(lines: seq<Line>, j: nat, i: nat)
    requires Folded(lines) && j < |lines| && i < lines[j].count
    ensures var fs := Expand(lines);
            && 1 <= lines[j].at && lines[j].at - 1 + i < |fs| && fs[lines[j].at - 1 + i] == lines[j].frame
    decreases |lines|
  {
    var m := |lines| - 1;
    if j < m {
      LinesSay(lines[..m], j, i);
    }
  }
}
