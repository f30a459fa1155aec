/** Passive MDC frequency measurement, from the captured edge times on
    (src/mdioprobe_autocal.c): periods, upper median, outlier window, mean and rate.
    The library's qsort is any function that sorts. */
module Autocal {

  type U32 = x: int | 0 <= x < 0x1_0000_0000

  datatype Stats = Stats(captured: nat, total: nat, accepted: nat, avg: int, jitter: int, freqMilliHz: int)

  /** `DividesByZero`: the source divides by the sum of the accepted periods. */
  datatype Result = Measured(stats: Stats) | Eagain | Eio | DividesByZero

  // ---- specification ---------------------------------------------------------

  function Period(ts: seq<U32>, i: nat): U32
    requires i + 1 < |ts|
  {
    var now: int, before: int := ts[i + 1], ts[i];
    (now - before) % 0x1_0000_0000
  }

  predicate Sorted(s: seq<U32>) {
    forall i, j :: 0 <= i < j < |s| ==> s[i] <= s[j]
  }

  predicate Within(x: int, lo: int, hi: int) { lo <= x <= hi }

  function Count(s: seq<U32>, lo: int, hi: int): (n: nat)
    ensures n <= |s|
  {
    if s == [] then 0
    else Count(s[..|s| - 1], lo, hi) + if Within(s[|s| - 1], lo, hi) then 1 else 0
  }

  function Sum(s: seq<U32>, lo: int, hi: int): (t: nat) {
    if s == [] then 0
    else Sum(s[..|s| - 1], lo, hi) + if Within(s[|s| - 1], lo, hi) then s[|s| - 1] else 0
  }

  function Least(s: seq<U32>, lo: int, hi: int): U32 {
    if s == [] then 0xFFFF_FFFF
    else
      var rest, x := Least(s[..|s| - 1], lo, hi), s[|s| - 1];
      if Within(x, lo, hi) && x < rest then x else rest
  }

  function Most(s: seq<U32>, lo: int, hi: int): U32 {
    if s == [] then 0
    else
      var rest, x := Most(s[..|s| - 1], lo, hi), s[|s| - 1];
      if Within(x, lo, hi) && x > rest then x else rest
  }

  function Lo(median: U32): U32 { median - median / 4 }

  function Hi(median: U32): U32 { (median + median / 4) % 0x1_0000_0000 }

  function MilliHz(n: nat, timFreq: nat, sum: nat): int
    requires sum > 0
  {
    n * 1000 * timFreq / sum
  }

  // ---- the program --------------------------------------------------------------

  /** The periods, each the wrapped difference of neighbouring edges. */
  method Periods(ts: array<U32>, captured: nat, periods: array<U32>) returns (n: nat)
    requires 1 <= captured <= ts.Length && captured <= periods.Length && ts != periods
    modifies periods
    ensures n == captured - 1
    ensures forall i: nat :: i < n ==> periods[i] == Period(ts[..captured], i)
  {
    n := 0;
    for i := 1 to captured
      invariant n == i - 1
      invariant forall j: nat :: j < n ==> periods[j] == Period(ts[..captured], j)
    {
      var now: int, before: int := ts[i], ts[i - 1];
      periods[n] := (now - before) % 0x1_0000_0000;
      n := n + 1;
    }
  }

  /** The accept loop, and the figures it leaves. */
  method Accept(periods: array<U32>, n: nat, lo: U32, hi: U32)
    returns (sum: nat, accepted: nat, pmin: U32, pmax: U32)
    requires n <= periods.Length
    ensures sum == Sum(periods[..n], lo, hi) && accepted == Count(periods[..n], lo, hi)
    ensures pmin == Least(periods[..n], lo, hi) && pmax == Most(periods[..n], lo, hi)
  {
    sum, accepted, pmin, pmax := 0, 0, 0xFFFF_FFFF, 0;
    for i := 0 to n
      invariant sum == Sum(periods[..i], lo, hi) && accepted == Count(periods[..i], lo, hi)
      invariant pmin == Least(periods[..i], lo, hi) && pmax == Most(periods[..i], lo, hi)
    {
      assert periods[..i + 1][..i] == periods[..i];
      if periods[i] >= lo && periods[i] <= hi {
        sum := sum + periods[i];
        accepted := accepted + 1;
        if periods[i] < pmin {
          pmin := periods[i];
        }
        if periods[i] > pmax {
          pmax := periods[i];
        }
      }
    }
  }

  /** The second half of the measurement, given the window. */
  method Figures(periods: array<U32>, n: nat, lo: U32, hi: U32, timFreq: nat) returns (r: Result)
    requires n <= periods.Length
    ensures r == Reported(periods[..n], lo, hi, timFreq)
  {
    var sum, accepted, pmin, pmax := Accept(periods, n, lo, hi);
    if accepted < 2 {
      return Eio;
    }
    if sum == 0 {
      return DividesByZero;
    }
    var jitter: int := pmax as int - pmin as int;
    r := Measured(Stats(n + 1, n, accepted, sum / accepted, jitter, MilliHz(accepted, timFreq, sum)));
  }

  /** mdioprobe_measure_mdc_freq_passive, once the DMA has stored `captured` edges. */
  method Measure(ts: array<U32>, captured: nat, timFreq: nat, qsort: seq<U32> -> seq<U32>) returns (r: Result)
    requires captured <= ts.Length && captured <= 128 && Sorts(qsort)
    ensures r == if captured < 4 then Eagain else Outcome(PeriodsOf(ts[..captured]), timFreq)
  {
    if captured < 4 {
      return Eagain;
    }
    var periods := new U32[128];
    var n := Periods(ts, captured, periods);
    assert periods[..n] == PeriodsOf(ts[..captured]);
    var sorted := qsort(periods[..n]);
    SortsAreEqual(qsort, periods[..n]);
    var median := sorted[n / 2];
    r := Figures(periods, n, Lo(median), Hi(median), timFreq);
  }

  function PeriodsOf(ts: seq<U32>): (p: seq<U32>)
    requires |ts| >= 1
    ensures |p| == |ts| - 1
  {
    seq(|ts| - 1, i requires 0 <= i < |ts| - 1 => Period(ts, i))
  }

  function Insert(x: U32, s: seq<U32>): (r: seq<U32>)
    requires Sorted(s)
    ensures Sorted(r) && |r| == |s| + 1
    ensures forall k :: 0 <= k < |r| ==> r[k] <= x || (|s| > 0 && r[k] <= s[|s| - 1])
  {
    if s == [] || s[|s| - 1] <= x then s + [x]
    else Insert(x, s[..|s| - 1]) + [s[|s| - 1]]
  }

  /** The sorted permutation. */
  function SortedOf(s: seq<U32>): (r: seq<U32>)
    ensures Sorted(r) && |r| == |s|
  {
    if s == [] then [] else Insert(s[|s| - 1], SortedOf(s[..|s| - 1]))
  }

  lemma {:induction false} InsertKeeps(x: U32, s: seq<U32>)
    requires Sorted(s)
    ensures multiset(Insert(x, s)) == multiset(s) + multiset{x}
  {
    if s != [] && s[|s| - 1] > x {
      InsertKeeps(x, s[..|s| - 1]);
      assert s == s[..|s| - 1] + [s[|s| - 1]];
    }
  }

  lemma {:induction false} SortedOfKeeps(s: seq<U32>)
    ensures multiset(SortedOf(s)) == multiset(s)
  {
    if s != [] {
      SortedOfKeeps(s[..|s| - 1]);
      InsertKeeps(s[|s| - 1], SortedOf(s[..|s| - 1]));
      assert s == s[..|s| - 1] + [s[|s| - 1]];
    }
  }

  /** What the library promises of qsort: the same values in order. */
  ghost predicate Sorts(qsort: seq<U32> -> seq<U32>) {
    forall s: seq<U32> :: IsSorting(s, qsort(s))
  }

  predicate IsSorting(s: seq<U32>, r: seq<U32>) {
    Sorted(r) && multiset(r) == multiset(s)
  }

  lemma LastIsMost(s: seq<U32>, x: U32)
    requires Sorted(s) && x in s
    ensures x <= s[|s| - 1]
  {
    var i :| 0 <= i < |s| && s[i] == x;
  }

  lemma WithoutLast(s: seq<U32>)
    requires s != []
    ensures multiset(s[..|s| - 1]) == multiset(s) - multiset{s[|s| - 1]}
  {
    assert s == s[..|s| - 1] + [s[|s| - 1]];
  }

  lemma SameLast(a: seq<U32>, b: seq<U32>)
    requires Sorted(a) && Sorted(b) && multiset(a) == multiset(b) && a != [] && b != []
    ensures a[|a| - 1] == b[|b| - 1]
  {
    var x, y := a[|a| - 1], b[|b| - 1];
    assert x in multiset(a) && y in multiset(b);
    LastIsMost(b, x);
    LastIsMost(a, y);
  }

  /** There is only one sorting of a sequence. */
  lemma {:induction false} SortedIsUnique(a: seq<U32>, b: seq<U32>)
    requires Sorted(a) && Sorted(b) && multiset(a) == multiset(b)
    ensures a == b
  {
    if a == [] || b == [] {
      assert |multiset(a)| == |multiset(b)|;
    } else {
      SameLast(a, b);
      WithoutLast(a);
      WithoutLast(b);
      SortedIsUnique(a[..|a| - 1], b[..|b| - 1]);
      assert a == a[..|a| - 1] + [a[|a| - 1]] && b == b[..|b| - 1] + [b[|b| - 1]];
    }
  }

  lemma SortsAreEqual(qsort: seq<U32> -> seq<U32>, s: seq<U32>)
    requires Sorts(qsort)
    ensures qsort(s) == SortedOf(s)
  {
    assert IsSorting(s, qsort(s));
    SortedOfKeeps(s);
    SortedIsUnique(qsort(s), SortedOf(s));
  }

  /** The upper median. */
  function Median(p: seq<U32>): U32
    requires |p| > 0
  {
    SortedOf(p)[|p| / 2]
  }

  /** What is reported for periods `p` and a window. */
  function Reported(p: seq<U32>, lo: U32, hi: U32, timFreq: nat): Result {
    var n, sum := Count(p, lo, hi), Sum(p, lo, hi);
    if n < 2 then Eio
    else if sum == 0 then DividesByZero
    else Measured(Stats(|p| + 1, |p|, n, sum / n, Most(p, lo, hi) as int - Least(p, lo, hi) as int,
                        MilliHz(n, timFreq, sum)))
  }

  /** The outcome for given periods, at least three of them. */
  function Outcome(p: seq<U32>, timFreq: nat): Result
    requires |p| >= 3
  {
    Reported(p, Lo(Median(p)), Hi(Median(p)), timFreq)
  }
}
