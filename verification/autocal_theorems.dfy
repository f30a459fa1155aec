/** What the passive frequency measurement may be relied on for. */
module AutocalTheorems {
  import opened Arithmetic
  import opened Autocal

  // ---- counting in the sorted sequence ---------------------------------------

  lemma {:induction false} CountInsert(x: U32, s: seq<U32>, lo: int, hi: int)
    requires Sorted(s)
    ensures Count(Insert(x, s), lo, hi) == Count(s, lo, hi) + if Within(x, lo, hi) then 1 else 0
  {
    if s == [] || s[|s| - 1] <= x {
      assert (s + [x])[..|s|] == s;
    } else {
      var init, r := s[..|s| - 1], Insert(x, s[..|s| - 1]);
      CountInsert(x, init, lo, hi);
      assert (r + [s[|s| - 1]])[..|r|] == r;
    }
  }

  lemma {:induction false} CountSorted(p: seq<U32>, lo: int, hi: int)
    ensures Count(SortedOf(p), lo, hi) == Count(p, lo, hi)
  {
    if p != [] {
      CountSorted(p[..|p| - 1], lo, hi);
      CountInsert(p[|p| - 1], SortedOf(p[..|p| - 1]), lo, hi);
    }
  }

  lemma {:induction false} NoneWithin(s: seq<U32>, lo: int, hi: int)
    requires forall i :: 0 <= i < |s| ==> !Within(s[i], lo, hi)
    ensures Count(s, lo, hi) == 0 && Sum(s, lo, hi) == 0
  {
    if s != [] {
      NoneWithin(s[..|s| - 1], lo, hi);
    }
  }

  /** If the k-th smallest lies below the range, so do the ones before it. */
  lemma {:induction false} AboveK(s: seq<U32>, k: nat, lo: int, hi: int)
    requires Sorted(s) && k < |s| && s[k] < lo
    ensures Count(s, lo, hi) <= |s| - k - 1
    decreases |s|
  {
    if k == |s| - 1 {
      NoneWithin(s, lo, hi);
    } else {
      AboveK(s[..|s| - 1], k, lo, hi);
    }
  }

  lemma {:induction false} BelowK(s: seq<U32>, k: nat, lo: int, hi: int)
    requires Sorted(s) && k < |s| && s[k] > hi
    ensures Count(s, lo, hi) <= k
    decreases |s|
  {
    if k < |s| - 1 {
      BelowK(s[..|s| - 1], k, lo, hi);
    }
  }

  lemma {:induction false} UpToK(s: seq<U32>, k: nat, hi: int)
    requires Sorted(s) && k < |s| && s[k] <= hi
    ensures Count(s, 0, hi) >= k + 1
    decreases |s|
  {
    if k < |s| - 1 {
      UpToK(s[..|s| - 1], k, hi);
    } else if k > 0 {
      UpToK(s[..|s| - 1], k - 1, hi);
    }
  }

  lemma {:induction false} FromK(s: seq<U32>, k: nat, hi: int)
    requires Sorted(s) && k < |s| && forall i :: 0 <= i < |s| ==> s[i] <= hi
    ensures Count(s, s[k], hi) >= |s| - k
    decreases |s|
  {
    if k < |s| - 1 {
      FromK(s[..|s| - 1], k, hi);
    }
  }

  /** The upper median: a period such that more than half of them are no longer, and at
      least half, the odd one included, no shorter. */
  lemma MedianIsUpper(p: seq<U32>)
    requires |p| > 0
    ensures var m := Median(p);
            m in p && Count(p, 0, m) > |p| / 2 && Count(p, m, 0xFFFF_FFFF) >= |p| - |p| / 2
  {
    var s, m := SortedOf(p), Median(p);
    SortedOfKeeps(p);
    assert m in multiset(s);
    UpToK(s, |p| / 2, m);
    CountSorted(p, 0, m);
    FromK(s, |p| / 2, 0xFFFF_FFFF);
    CountSorted(p, m, 0xFFFF_FFFF);
  }

  /** More than half of the periods in a range puts the median there. */
  lemma MajorityHoldsMedian(p: seq<U32>, a: int, b: int)
    requires 2 * Count(p, a, b) > |p|
    ensures |p| > 0 && a <= Median(p) <= b
  {
    var s := SortedOf(p);
    CountSorted(p, a, b);
    if s[|p| / 2] < a {
      AboveK(s, |p| / 2, a, b);
    }
    if s[|p| / 2] > b {
      BelowK(s, |p| / 2, a, b);
    }
  }

  // ---- sums and means -----------------------------------------------------------

  lemma Regroup(a: nat, b: nat, c: nat)
    ensures a * (b * c) == b * (a * c)
  {
  }

  lemma {:induction false} SumBounds(s: seq<U32>, lo: nat, hi: int)
    ensures Count(s, lo, hi) * lo <= Sum(s, lo, hi)
    ensures hi >= 0 ==> Sum(s, lo, hi) <= Count(s, lo, hi) * hi
  {
    if s != [] {
      var init := s[..|s| - 1];
      SumBounds(init, lo, hi);
      OneMore(Count(init, lo, hi), lo);
      if hi >= 0 {
        OneMore(Count(init, lo, hi), hi);
      }
    }
  }

  lemma {:induction false} LeastAndMost(s: seq<U32>, lo: int, hi: int)
    requires Count(s, lo, hi) > 0
    ensures lo <= Least(s, lo, hi) <= Most(s, lo, hi) <= hi
    ensures forall i :: 0 <= i < |s| && Within(s[i], lo, hi) ==> Least(s, lo, hi) <= s[i] <= Most(s, lo, hi)
  {
    var init := s[..|s| - 1];
    if Count(init, lo, hi) > 0 {
      LeastAndMost(init, lo, hi);
    } else {
      NothingIn(init, lo, hi);
    }
    forall i | 0 <= i < |s| && Within(s[i], lo, hi)
      ensures Least(s, lo, hi) <= s[i] <= Most(s, lo, hi)
    {
      if i < |s| - 1 {
        assert s[i] == init[i];
      }
    }
  }

  lemma {:induction false} NothingIn(s: seq<U32>, lo: int, hi: int)
    requires Count(s, lo, hi) == 0
    ensures forall i :: 0 <= i < |s| ==> !Within(s[i], lo, hi)
    ensures Least(s, lo, hi) == 0xFFFF_FFFF && Most(s, lo, hi) == 0
  {
    if s != [] {
      NothingIn(s[..|s| - 1], lo, hi);
    }
  }

  /** The mean and the rate of `n` periods between `lo` and `hi`; `f` is the clock. */
  lemma MeanBounds(n: nat, sum: nat, lo: nat, hi: nat, f: nat)
    requires n > 0 && 0 < lo && n * lo <= sum <= n * hi
    ensures sum > 0 && hi > 0
    ensures lo <= sum / n <= hi
    ensures f / hi <= n * f / sum <= f / lo
  {
    Scale(1, n, lo);
    assert sum > 0;
    assert hi > 0;
    QuotientAtLeast(sum, n, lo);
    QuotientAtLeast(sum, n, sum / n);
    Cancel(n, sum / n, hi);
    RateAbove(n, sum, hi, f);
    RateBelow(n, sum, lo, f);
  }

  lemma Cancel(n: nat, x: nat, y: nat)
    requires n > 0 && x * n <= y * n
    ensures x <= y
  {
    if y < x {
      Scale(y + 1, x, n);
      OneMore(y, n);
    }
  }

  lemma RateBelow(n: nat, sum: nat, lo: nat, f: nat)
    requires n > 0 && lo > 0 && sum >= n * lo && sum > 0
    ensures n * f / sum <= f / lo
  {
    var q := n * f / sum;
    QuotientAtLeast(n * f, sum, q);
    Scale(n * lo, sum, q);
    Regroup(q, n, lo);
    assert (q * lo) * n <= f * n;
    Cancel(n, q * lo, f);
    QuotientAtLeast(f, lo, q);
  }

  lemma RateAbove(n: nat, sum: nat, hi: nat, f: nat)
    requires n > 0 && hi > 0 && 0 < sum <= n * hi
    ensures f / hi <= n * f / sum
  {
    var q := f / hi;
    QuotientAtLeast(f, hi, q);
    Scale(q * hi, f, n);
    Scale(sum, n * hi, q);
    Regroup(q, n, hi);
    assert q * sum <= n * f;
    QuotientAtLeast(n * f, sum, q);
  }

  // ---- the measurement -------------------------------------------------------------

  lemma HiFits(m: U32)
    requires m + m / 4 < 0x1_0000_0000
    ensures Hi(m) == m + m / 4
  {
  }

  lemma WindowMono(a: U32, m: U32, b: U32)
    requires a <= m <= b && b + b / 4 < 0x1_0000_0000
    ensures a - a / 4 <= Lo(m) <= Hi(m) <= b + b / 4
    ensures a > 0 ==> a - a / 4 > 0
  {
    HiFits(m);
  }

  /** A rate, in thousandths of a hertz, of a clock whose period is between `l` and `h`
      ticks of the timer. */
  predicate RateWithin(milliHz: int, l: int, h: int, timFreq: nat)
    requires 0 < l && 0 < h
  {
    1000 * timFreq / h <= milliHz <= 1000 * timFreq / l
  }

  lemma RateBounds(n: nat, sum: nat, lo: nat, hi: nat, timFreq: nat)
    requires n > 0 && 0 < lo && n * lo <= sum <= n * hi
    ensures sum > 0 && hi > 0 && lo <= sum / n <= hi && RateWithin(MilliHz(n, timFreq, sum), lo, hi, timFreq)
  {
    MeanBounds(n, sum, lo, hi, 1000 * timFreq);
    Thousand(n, timFreq);
  }

  lemma Thousand(n: nat, timFreq: nat)
    ensures n * 1000 * timFreq == n * (1000 * timFreq)
  {
  }

  lemma RateWidens(milliHz: int, l: nat, h: nat, l2: nat, h2: nat, timFreq: nat)
    requires 0 < l2 <= l && 0 < h <= h2 && RateWithin(milliHz, l, h, timFreq)
    ensures RateWithin(milliHz, l2, h2, timFreq)
  {
    DivMono(1000 * timFreq, l2, l);
    DivMono(1000 * timFreq, h, h2);
  }

  lemma DivMono(f: nat, a: nat, b: nat)
    requires 0 < a <= b
    ensures f / b <= f / a
  {
    QuotientAtLeast(f, b, f / b);
    Scale(a, b, f / b);
    QuotientAtLeast(f, a, f / b);
  }

  /** The figures reported fit a clock whose period is between `l` and `h` ticks. */
  predicate Bounded(st: Stats, l: int, h: int, timFreq: nat)
    requires 0 < l && 0 < h
  {
    l <= st.avg <= h && 0 <= st.jitter <= h - l && RateWithin(st.freqMilliHz, l, h, timFreq)
  }

  lemma BoundedInside(p: seq<U32>, lo: nat, hi: nat, timFreq: nat)
    requires Count(p, lo, hi) > 0 && lo > 0
    ensures Sum(p, lo, hi) > 0 && hi > 0
    ensures var n, sum := Count(p, lo, hi), Sum(p, lo, hi);
            Bounded(Stats(|p| + 1, |p|, n, sum / n, Most(p, lo, hi) as int - Least(p, lo, hi) as int,
                          MilliHz(n, timFreq, sum)), lo, hi, timFreq)
  {
    SumBounds(p, lo, hi);
    LeastAndMost(p, lo, hi);
    RateBounds(Count(p, lo, hi), Sum(p, lo, hi), lo, hi, timFreq);
  }

  /** Majority clock wins: with more than half of the periods in [a, b], whatever the
      rest are, a reported mean, jitter and rate are those of a clock between a - a/4
      and b + b/4. */
  lemma MajorityWins(p: seq<U32>, a: U32, b: U32, timFreq: nat)
    requires |p| >= 3 && 0 < a && b + b / 4 < 0x1_0000_0000 && 2 * Count(p, a, b) > |p|
    ensures a <= b && a <= Median(p) <= b
    ensures !Outcome(p, timFreq).DividesByZero?
    ensures Outcome(p, timFreq).Measured? ==>
              Bounded(Outcome(p, timFreq).stats, a - a / 4, b + b / 4, timFreq)
  {
    MajorityHoldsMedian(p, a, b);
    var m := Median(p);
    WindowMono(a, m, b);
    DividesByZeroExactly(p, timFreq);
    if Outcome(p, timFreq).Measured? {
      BoundedInside(p, Lo(m), Hi(m), timFreq);
      RateWidens(Outcome(p, timFreq).stats.freqMilliHz, Lo(m), Hi(m), a - a / 4, b + b / 4, timFreq);
    }
  }

  lemma {:induction false} CountWider(p: seq<U32>, a: int, b: int, lo: int, hi: int)
    requires lo <= a && b <= hi
    ensures Count(p, a, b) <= Count(p, lo, hi)
  {
    if p != [] {
      CountWider(p[..|p| - 1], a, b, lo, hi);
    }
  }

  /** And a majority within a quarter of itself is enough for the measurement to succeed,
      with every period of the majority accepted. */
  lemma TightMajoritySucceeds(p: seq<U32>, a: U32, b: U32, timFreq: nat)
    requires |p| >= 3 && 0 < a && b + b / 4 < 0x1_0000_0000 && 2 * Count(p, a, b) > |p|
    requires b - b / 4 <= a && b <= a + a / 4
    ensures Outcome(p, timFreq).Measured?
    ensures Outcome(p, timFreq).stats.accepted >= Count(p, a, b)
  {
    MajorityHoldsMedian(p, a, b);
    var m := Median(p);
    HiFits(m);
    assert Lo(m) <= a && b <= Hi(m);
    CountWider(p, a, b, Lo(m), Hi(m));
    DividesByZeroExactly(p, timFreq);
  }

  lemma ZeroMedian(p: seq<U32>)
    requires |p| >= 3 && Median(p) == 0
    ensures Count(p, 0, 0) >= 2 && Sum(p, 0, 0) == 0
  {
    UpToK(SortedOf(p), |p| / 2, 0);
    CountSorted(p, 0, 0);
    SumBounds(p, 0, 0);
  }

  lemma SumPositive(p: seq<U32>, lo: nat, hi: int)
    requires lo > 0 && Count(p, lo, hi) > 0
    ensures Sum(p, lo, hi) > 0
  {
    SumBounds(p, lo, hi);
    Scale(1, lo, Count(p, lo, hi));
  }

  /** The source divides by zero exactly when the median period is zero. */
  lemma DividesByZeroExactly(p: seq<U32>, timFreq: nat)
    requires |p| >= 3
    ensures Outcome(p, timFreq).DividesByZero? <==> Median(p) == 0
  {
    var m := Median(p);
    if m == 0 {
      ZeroMedian(p);
    } else {
      assert Lo(m) > 0;
      if Count(p, Lo(m), Hi(m)) >= 2 {
        SumPositive(p, Lo(m), Hi(m));
      }
    }
  }

  /** When the upper limit does not fit 32 bits it wraps below the lower one, nothing is
      accepted and the measurement fails. */
  lemma OverflowRejects(p: seq<U32>, timFreq: nat)
    requires |p| >= 3 && Median(p) + Median(p) / 4 >= 0x1_0000_0000
    ensures Outcome(p, timFreq) == Eio
  {
    var m := Median(p);
    assert Hi(m) < Lo(m);
    NoneWithin(p, Lo(m), Hi(m));
  }

  /** The wrap of the timer does not show: edges less than 2^32 ticks apart give their
      true distance. */
  lemma PeriodsAreWrapSafe(times: seq<nat>, ts: seq<U32>, i: nat)
    requires |times| == |ts| && i + 1 < |ts|
    requires forall k :: 0 <= k < |ts| ==> ts[k] == times[k] % 0x1_0000_0000
    requires times[i] <= times[i + 1] < times[i] + 0x1_0000_0000
    ensures Period(ts, i) == times[i + 1] - times[i]
  {
    var a, b := times[i], times[i + 1];
    assert a == a / 0x1_0000_0000 * 0x1_0000_0000 + ts[i];
    assert b == b / 0x1_0000_0000 * 0x1_0000_0000 + ts[i + 1];
  }

  // ---- the figures, told by the periods -------------------------------------------------

  /** The periods within a quarter of the median, the upper limit in 32 bits. */
  function Accepted(p: seq<U32>): (at: set<nat>)
    requires |p| > 0
  {
    var m := Median(p);
    set i: nat | i < |p| && m - m / 4 <= p[i] <= (m + m / 4) % 0x1_0000_0000
  }

  function InWindow(p: seq<U32>, lo: int, hi: int): (at: set<nat>) {
    set i: nat | i < |p| && lo <= p[i] <= hi
  }

  lemma {:induction false} CountIsThose(p: seq<U32>, lo: int, hi: int)
    ensures Count(p, lo, hi) == |InWindow(p, lo, hi)|
  {
    if p == [] {
      assert InWindow(p, lo, hi) == {};
    } else {
      var m := |p| - 1;
      CountIsThose(p[..m], lo, hi);
      var rest := InWindow(p[..m], lo, hi);
      assert InWindow(p, lo, hi) == if Within(p[m], lo, hi) then rest + {m} else rest;
    }
  }

  /** The least and the greatest accepted period are periods. */
  lemma {:induction false} ExtremesAreMet(p: seq<U32>, lo: int, hi: int) returns (x: nat, y: nat)
    requires Count(p, lo, hi) > 0
    ensures x in InWindow(p, lo, hi) && p[x] == Least(p, lo, hi)
    ensures y in InWindow(p, lo, hi) && p[y] == Most(p, lo, hi)
  {
    var m := |p| - 1;
    x, y := m, m;
    if Count(p[..m], lo, hi) > 0 {
      var a, b := ExtremesAreMet(p[..m], lo, hi);
      x := if Least(p, lo, hi) == Least(p[..m], lo, hi) then a else m;
      y := if Most(p, lo, hi) == Most(p[..m], lo, hi) then b else m;
    } else {
      NothingIn(p[..m], lo, hi);
    }
  }

  /** An error exactly with fewer than two accepted periods. */
  lemma TwoAreEnough(p: seq<U32>, timFreq: nat)
    requires |p| >= 3
    ensures |Accepted(p)| == Count(p, Lo(Median(p)), Hi(Median(p)))
    ensures Outcome(p, timFreq) == Eio <==> |Accepted(p)| < 2
  {
    var lo: int, hi: int := Lo(Median(p)), Hi(Median(p));
    assert Accepted(p) == InWindow(p, lo, hi);
    CountIsThose(p, lo, hi);
  }

  /** `q` is `x` over `d`, rounded down. */
  predicate IsQuotient(q: int, x: int, d: int) {
    q * d <= x < (q + 1) * d
  }

  /** What is reported: how many there were and how many passed, and the mean and the rate
      as the quotients of the sum of those that passed, rounded down. */
  lemma FiguresAreThose(p: seq<U32>, timFreq: nat)
    requires |p| >= 3 && Outcome(p, timFreq).Measured?
    ensures var st, sum := Outcome(p, timFreq).stats, Sum(p, Lo(Median(p)), Hi(Median(p)));
            && st.captured == |p| + 1 && st.total == |p| && st.accepted == |Accepted(p)| && sum > 0
            && IsQuotient(st.avg, sum, st.accepted)
            && IsQuotient(st.freqMilliHz, st.accepted * 1000 * timFreq, sum)
  {
    TwoAreEnough(p, timFreq);
    QuotientsAre(Count(p, Lo(Median(p)), Hi(Median(p))), Sum(p, Lo(Median(p)), Hi(Median(p))), timFreq);
  }

  lemma QuotientsAre(n: nat, sum: nat, timFreq: nat)
    requires n > 0 && sum > 0
    ensures IsQuotient(sum / n, sum, n) && IsQuotient(MilliHz(n, timFreq, sum), n * 1000 * timFreq, sum)
  {
    QuotientIs(sum, n);
    QuotientIs(n * 1000 * timFreq, sum);
  }

  /** The jitter is between the longest and the shortest accepted period. */
  lemma JitterIsThat(p: seq<U32>, timFreq: nat) returns (x: nat, y: nat)
    requires |p| >= 3 && Outcome(p, timFreq).Measured?
    ensures x in Accepted(p) && y in Accepted(p) && Outcome(p, timFreq).stats.jitter == p[y] as int - p[x] as int
    ensures forall i :: i in Accepted(p) ==> p[x] <= p[i] <= p[y]
  {
    var lo: int, hi: int := Lo(Median(p)), Hi(Median(p));
    assert Accepted(p) == InWindow(p, lo, hi);
    x, y := ExtremesAreMet(p, lo, hi);
    LeastAndMost(p, lo, hi);
  }

  lemma QuotientIs(x: nat, d: nat)
    requires d > 0
    ensures x / d * d <= x < (x / d + 1) * d
  {
    QuotientAtLeast(x, d, x / d);
    QuotientAtLeast(x, d, x / d + 1);
  }

  /** The sum is of the accepted periods: a period outside adds nothing, one inside its
      own length, wherever it stands. */
  lemma {:induction false} SumWithout(p: seq<U32>, i: nat, lo: int, hi: int)
    requires i < |p|
    ensures Sum(p, lo, hi) == Sum(p[..i] + p[i + 1..], lo, hi) + if lo <= p[i] <= hi then p[i] else 0
    decreases |p|
  {
    var m := |p| - 1;
    if i < m {
      SumWithout(p[..m], i, lo, hi);
      var rest := p[..i] + p[i + 1..];
      assert rest[..m - 1] == p[..m][..i] + p[..m][i + 1..] && rest[m - 1] == p[m];
    } else {
      assert p[..i] + p[i + 1..] == p[..m];
    }
  }

  lemma {:induction false} SortedConstant(p: seq<U32>, c: U32)
    requires forall i :: 0 <= i < |p| ==> p[i] == c
    ensures SortedOf(p) == p
  {
    SortedOfKeeps(p);
    SortedIsUnique(SortedOf(p), p);
  }

  lemma {:induction false} ConstantSum(p: seq<U32>, c: U32, lo: int, hi: int)
    requires (forall i :: 0 <= i < |p| ==> p[i] == c) && lo <= c <= hi
    ensures Count(p, lo, hi) == |p| && Sum(p, lo, hi) == |p| * c
    ensures |p| > 0 ==> Least(p, lo, hi) == c && Most(p, lo, hi) == c
  {
    if p != [] {
      ConstantSum(p[..|p| - 1], c, lo, hi);
      OneMore(|p| - 1, c);
    }
  }

  /** A steady clock is measured exactly: its period, no jitter, and its rate in
      thousandths of a hertz. */
  lemma SteadyClockIsExact(p: seq<U32>, c: U32, timFreq: nat)
    requires |p| >= 3 && 0 < c && c + c / 4 < 0x1_0000_0000 && forall i :: 0 <= i < |p| ==> p[i] == c
    ensures Outcome(p, timFreq) == Measured(Stats(|p| + 1, |p|, |p|, c, 0, 1000 * timFreq / c))
  {
    SortedConstant(p, c);
    HiFits(c);
    ConstantSum(p, c, Lo(c), Hi(c));
    var n := |p|;
    Scale(1, n, c);
    SameQuotient(n * c, n, c, 0);
    RateOfMany(n, c, timFreq);
  }

  lemma SameQuotient(x: nat, d: nat, q: nat, r: nat)
    requires d > 0 && x == d * q + r && r < d
    ensures x / d == q
  {
    OneMore(q, d);
    QuotientAtLeast(x, d, q);
    QuotientAtLeast(x, d, q + 1);
  }

  lemma RateOfMany(n: nat, c: nat, timFreq: nat)
    requires n > 0 && c > 0 && n * c > 0
    ensures n * 1000 * timFreq / (n * c) == 1000 * timFreq / c
  {
    Thousand(n, timFreq);
    RateBelow(n, n * c, c, 1000 * timFreq);
    RateAbove(n, n * c, c, 1000 * timFreq);
  }

  /** Longer periods, none of them leaving the window, are never reported as a shorter
      mean or a higher rate. */
  lemma {:induction false} SumIsMonotone(p: seq<U32>, q: seq<U32>, lo: int, hi: int)
    requires |p| == |q|
    requires forall i :: 0 <= i < |p| ==> p[i] <= q[i] && (lo <= p[i] <= hi <==> lo <= q[i] <= hi)
    ensures Sum(p, lo, hi) <= Sum(q, lo, hi) && Count(p, lo, hi) == Count(q, lo, hi)
  {
    if p != [] {
      SumIsMonotone(p[..|p| - 1], q[..|q| - 1], lo, hi);
    }
  }

  lemma SlowerIsReportedSlower(p: seq<U32>, q: seq<U32>, lo: U32, hi: U32, timFreq: nat)
    requires |p| == |q|
    requires forall i :: 0 <= i < |p| ==> p[i] <= q[i] && (lo <= p[i] <= hi <==> lo <= q[i] <= hi)
    requires Reported(p, lo, hi, timFreq).Measured?
    ensures var (a, b) := (Reported(p, lo, hi, timFreq), Reported(q, lo, hi, timFreq));
            b.Measured? && a.stats.avg <= b.stats.avg && a.stats.freqMilliHz >= b.stats.freqMilliHz
  {
    SumIsMonotone(p, q, lo, hi);
    var n, s, t := Count(p, lo, hi), Sum(p, lo, hi), Sum(q, lo, hi);
    QuotientAtLeast(s, n, s / n);
    QuotientAtLeast(t, n, s / n);
    DivMono(n * 1000 * timFreq, s, t);
  }
}
