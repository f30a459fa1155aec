/** The chip table: rendered by scripts/gen_chipdb.py as two fixed-width strings, read
    in place by src/python/cli/cmd_probe.py without splitting them. */
module ChipTable {
  import opened Arithmetic

  datatype Option<T> = None | Some(value: T)

  // ---- hexadecimal fields --------------------------------------------------

  function Digit(d: int): char
    requires 0 <= d < 16
  {
    "0123456789abcdef"[d]
  }

  function Value(c: char): int {
    if '0' <= c <= '9' then c as int - '0' as int
    else if 'a' <= c <= 'f' then c as int - 'a' as int + 10
    else -1
  }

  lemma DigitValue(d: int)
    requires 0 <= d < 16
    ensures Value(Digit(d)) == d && Digit(d) != '\n'
  {
  }

  /** The format `{:0wx}`: lower case, at least `w` digits. */
  function Hex(v: nat, w: nat): string
    decreases v, w
  {
    if v == 0 && w == 0 then [] else Hex(v / 16, if w == 0 then 0 else w - 1) + [Digit(v % 16)]
  }

  predicate IsHex(s: string) {
    forall i :: 0 <= i < |s| ==> Value(s[i]) >= 0
  }

  /** int(s, 16) on what the tables hold. */
  function Parse(s: string): nat
    requires IsHex(s)
  {
    if s == [] then 0 else 16 * Parse(s[..|s| - 1]) + Value(s[|s| - 1])
  }

  function Pow16(w: nat): (p: nat)
    ensures p >= 1
  {
    if w == 0 then 1 else 16 * Pow16(w - 1)
  }

  lemma {:induction false} ParseHex(v: nat, w: nat)
    ensures IsHex(Hex(v, w)) && Parse(Hex(v, w)) == v
    ensures forall i :: 0 <= i < |Hex(v, w)| ==> Hex(v, w)[i] != '\n' && Hex(v, w)[i] != '-'
    ensures v < Pow16(w) ==> |Hex(v, w)| == w
    ensures |Hex(v, w)| >= w
    decreases v, w
  {
    if v != 0 || w != 0 {
      var s := Hex(v / 16, if w == 0 then 0 else w - 1);
      ParseHex(v / 16, if w == 0 then 0 else w - 1);
      DigitValue(v % 16);
      assert Hex(v, w)[..|s|] == s;
    }
  }

  /** The digit `i` places from the right is that of sixteen to the `i`. */
  lemma {:induction false} HexIsPositional(v: nat, w: nat, i: nat)
    requires i < |Hex(v, w)|
    ensures Hex(v, w)[|Hex(v, w)| - 1 - i] == Digit(v / Pow16(i) % 16)
    decreases i
  {
    if i > 0 {
      HexIsPositional(v / 16, if w == 0 then 0 else w - 1, i - 1);
      DivideTwice(v, Pow16(i - 1));
    }
  }

  lemma DivideTwice(v: nat, p: nat)
    requires p > 0
    ensures v / 16 / p == v / (16 * p)
  {
    var q := v / 16 / p;
    QuotientAtLeast(v / 16, p, q);
    QuotientAtLeast(v / 16, p, q + 1);
    QuotientAtLeast(v, 16 * p, q);
    QuotientAtLeast(v, 16 * p, q + 1);
    assert q * p <= v / 16 < (q + 1) * p;
    assert q * (16 * p) == 16 * (q * p) && (q + 1) * (16 * p) == 16 * ((q + 1) * p);
  }

  /** Two numbers print the same only if they are the same. */
  lemma HexInjective(a: nat, b: nat, w: nat)
    ensures Hex(a, w) == Hex(b, w) <==> a == b
  {
    ParseHex(a, w);
    ParseHex(b, w);
  }

  // ---- bits -----------------------------------------------------------------

  function And(a: nat, b: nat): nat {
    if a == 0 || b == 0 then 0 else 2 * And(a / 2, b / 2) + if a % 2 == 1 && b % 2 == 1 then 1 else 0
  }

  function Xor(a: nat, b: nat): nat
    decreases a + b
  {
    if a == 0 && b == 0 then 0 else 2 * Xor(a / 2, b / 2) + if a % 2 != b % 2 then 1 else 0
  }

  function BitAt(v: nat, k: nat): (b: nat)
    ensures b < 2
  {
    if k == 0 then v % 2 else BitAt(v / 2, k - 1)
  }

  /** `_popcount`. */
  method PopCount(value: nat) returns (bits: nat)
    ensures bits == BitCount(value)
  {
    var v := value;
    bits := 0;
    while v != 0
      invariant bits + BitCount(v) == BitCount(value)
    {
      bits := bits + v % 2;
      v := v / 2;
    }
  }

  function BitCount(v: nat): nat {
    if v == 0 then 0 else BitCount(v / 2) + v % 2
  }

  /** The positions below `n` at which `v` has a one. */
  function OnesBelow(v: nat, n: nat): (ks: set<nat>) {
    set k: nat | k < n && BitAt(v, k) == 1
  }

  lemma OneMoreBit(v: nat, n: nat)
    ensures |OnesBelow(v, n + 1)| == |OnesBelow(v, n)| + BitAt(v, n)
  {
    if BitAt(v, n) == 1 {
      assert OnesBelow(v, n + 1) == OnesBelow(v, n) + {n};
    } else {
      assert OnesBelow(v, n + 1) == OnesBelow(v, n);
    }
  }

  lemma {:induction false} HalvedBits(v: nat, n: nat)
    ensures |OnesBelow(v, n + 1)| == |OnesBelow(v / 2, n)| + v % 2
  {
    OneMoreBit(v, n);
    if n == 0 {
      assert OnesBelow(v, 0) == {} && OnesBelow(v / 2, 0) == {};
    } else {
      HalvedBits(v, n - 1);
      OneMoreBit(v / 2, n - 1);
    }
  }

  /** `BitCount` is the number of ones, for any `n` past the last of them. */
  lemma {:induction false} BitCountIsTheOnes(v: nat, n: nat)
    requires forall k: nat :: k >= n ==> BitAt(v, k) == 0
    ensures BitCount(v) == |OnesBelow(v, n)|
    decreases n
  {
    if v == 0 {
      forall k: nat ensures BitAt(0, k) == 0 {
        ZeroBits(k);
      }
      assert OnesBelow(0, n) == {};
    } else {
      var k := NonZeroHasABit(v);
      forall k: nat | k >= n - 1
        ensures BitAt(v / 2, k) == 0
      {
        assert BitAt(v, k + 1) == BitAt(v / 2, k);
      }
      BitCountIsTheOnes(v / 2, n - 1);
      HalvedBits(v, n - 1);
    }
  }

  lemma {:induction false} ZeroBits(k: nat)
    ensures BitAt(0, k) == 0
  {
    if k > 0 {
      ZeroBits(k - 1);
    }
  }

  lemma AndHalves(a: nat, b: nat)
    ensures And(a, b) / 2 == And(a / 2, b / 2) && (And(a, b) % 2 == 1 <==> a % 2 == 1 && b % 2 == 1)
  {
  }

  lemma XorHalves(a: nat, b: nat)
    ensures Xor(a, b) / 2 == Xor(a / 2, b / 2) && (Xor(a, b) % 2 == 1 <==> a % 2 != b % 2)
  {
  }

  lemma {:induction false} AndBits(a: nat, b: nat, k: nat)
    ensures BitAt(And(a, b), k) == 1 <==> BitAt(a, k) == 1 && BitAt(b, k) == 1
    decreases k
  {
    AndHalves(a, b);
    if k > 0 {
      AndBits(a / 2, b / 2, k - 1);
    }
  }

  lemma {:induction false} XorBits(a: nat, b: nat, k: nat)
    ensures BitAt(Xor(a, b), k) == 1 <==> BitAt(a, k) != BitAt(b, k)
    decreases k
  {
    XorHalves(a, b);
    if k > 0 {
      XorBits(a / 2, b / 2, k - 1);
    }
  }

  lemma {:induction false} NonZeroHasABit(v: nat) returns (k: nat)
    requires v != 0
    ensures BitAt(v, k) == 1
  {
    if v % 2 == 1 {
      k := 0;
    } else {
      k := NonZeroHasABit(v / 2);
      k := k + 1;
    }
  }

  lemma DifferingBit(ident: nat, entry: nat, mask: nat, k: nat)
    ensures BitAt(And(Xor(ident, entry), mask), k) == 1
            <==> BitAt(ident, k) != BitAt(entry, k) && BitAt(mask, k) == 1
  {
    AndBits(Xor(ident, entry), mask, k);
    XorBits(ident, entry, k);
  }

  /** phy_id_compare's test is agreement on every bit of the mask. */
  lemma MatchIsAgreement(ident: nat, entry: nat, mask: nat)
    ensures And(Xor(ident, entry), mask) == 0
            <==> forall k: nat :: BitAt(mask, k) == 1 ==> BitAt(ident, k) == BitAt(entry, k)
  {
    var v := And(Xor(ident, entry), mask);
    if v == 0 {
      forall k: nat | BitAt(mask, k) == 1
        ensures BitAt(ident, k) == BitAt(entry, k)
      {
        DifferingBit(ident, entry, mask, k);
        ZeroBits(k);
      }
    } else {
      var k := NonZeroHasABit(v);
      DifferingBit(ident, entry, mask, k);
      assert BitAt(mask, k) == 1 && BitAt(ident, k) != BitAt(entry, k);
    }
  }

  // ---- lines ------------------------------------------------------------------

  /** The table a list of lines becomes. */
  function Table(lines: seq<string>): string {
    if lines == [] then [] else Table(lines[..|lines| - 1]) + lines[|lines| - 1] + ['\n']
  }

  /** str.find for one character. */
  function Find(s: string, c: char, from: nat): (r: int)
    requires from <= |s|
    ensures r == -1 || (from <= r < |s| && s[r] == c)
    decreases |s| - from
  {
    if from == |s| then -1 else if s[from] == c then from else Find(s, c, from + 1)
  }

  /** A line of a table: not empty, and without a line break. */
  predicate IsLine(l: string) {
    l != [] && '\n' !in l
  }

  lemma {:induction false} TablePrefix(lines: seq<string>, n: nat)
    requires n <= |lines|
    ensures Table(lines[..n]) <= Table(lines)
    decreases |lines|
  {
    if n < |lines| {
      var init := lines[..|lines| - 1];
      TablePrefix(init, n);
      assert init[..n] == lines[..n];
      assert Table(init) <= Table(lines);
    } else {
      assert lines[..n] == lines;
    }
  }

  /** A table is what comes before line `n`, the line, its break, and the rest. */
  lemma SplitAt(lines: seq<string>, n: nat) returns (rest: string)
    requires n < |lines|
    ensures Table(lines) == Table(lines[..n]) + lines[n] + ['\n'] + rest
    ensures |Table(lines[..n + 1])| == |Table(lines[..n])| + |lines[n]| + 1
  {
    assert lines[..n + 1][..n] == lines[..n];
    TablePrefix(lines, n + 1);
    rest := Table(lines)[|Table(lines[..n + 1])|..];
  }

  lemma {:induction false} FindAt(s: string, c: char, from: nat, stop: nat)
    requires from <= stop < |s| && s[stop] == c && c !in s[from..stop]
    ensures Find(s, c, from) == stop
    decreases stop - from
  {
    if from < stop {
      assert s[from] == s[from..stop][0];
      assert s[from..stop][1..] == s[from + 1..stop];
      FindAt(s, c, from + 1, stop);
    }
  }

  lemma Middle(a: string, l: string, rest: string)
    ensures (a + l + rest)[|a|..|a| + |l|] == l
  {
  }

  lemma FindBreak(a: string, l: string, rest: string)
    requires IsLine(l)
    ensures var t := a + l + ['\n'] + rest;
            && |a| < |a| + |l| < |t|
            && Find(t, '\n', |a|) == |a| + |l| && t[|a|..|a| + |l|] == l
  {
    var t := a + l + ['\n'] + rest;
    assert t == a + l + (['\n'] + rest);
    Middle(a, l, ['\n'] + rest);
    FindAt(t, '\n', |a|, |a| + |l|);
  }

  /** Where line `n` starts. */
  function Start(lines: seq<string>, n: nat): nat
    requires n <= |lines|
  {
    |Table(lines[..n])|
  }

  /** What the walk finds there. */
  lemma FoundLine(t: string, lines: seq<string>, n: nat)
    requires n < |lines| && IsLine(lines[n]) && t == Table(lines)
    ensures var p, l := Start(lines, n), |lines[n]|;
            && p < p + l < |t| && Find(t, '\n', p) == p + l && t[p..p + l] == lines[n]
            && Start(lines, n + 1) == p + l + 1
  {
    var rest := SplitAt(lines, n);
    var a, l := Table(lines[..n]), lines[n];
    assert t == a + l + ['\n'] + rest;
    FindBreak(a, l, rest);
  }

  lemma WalkEnds(lines: seq<string>, n: nat)
    requires n <= |lines|
    ensures Start(lines, n) <= |Table(lines)|
    ensures Start(lines, n) == |Table(lines)| <==> n == |lines|
  {
    assert lines[..|lines|] == lines;
    if n < |lines| {
      var _ := SplitAt(lines, n);
    }
  }

  /** Bounds that cut a table into its records. */
  predicate Cuts(table: string, bounds: seq<(nat, nat)>, lines: seq<string>) {
    && |bounds| == |lines|
    && forall i :: 0 <= i < |lines| ==>
         bounds[i].0 <= bounds[i].1 <= |table| && table[bounds[i].0..bounds[i].1] == lines[i]
  }

  /** `_walk`: the boundaries of the records of a table, found without splitting it. On a
      rendered table they are those of the lines that went in, in order. */
  method Walk(table: string, ghost lines: seq<string>) returns (bounds: seq<(nat, nat)>)
    requires table == Table(lines) && forall i :: 0 <= i < |lines| ==> IsLine(lines[i])
    ensures Cuts(table, bounds, lines)
  {
    bounds := [];
    var pos, end := 0, |table|;
    WalkEnds(lines, 0);
    while pos < end
      invariant |bounds| <= |lines| && pos == Start(lines, |bounds|) <= end
      invariant forall i :: 0 <= i < |bounds| ==>
                  bounds[i].0 <= bounds[i].1 <= |table| && table[bounds[i].0..bounds[i].1] == lines[i]
      decreases end - pos
    {
      WalkEnds(lines, |bounds|);
      FoundLine(table, lines, |bounds|);
      WalkEnds(lines, |bounds| + 1);
      var stop := Find(table, '\n', pos);
      if stop < 0 {
        stop := end;
      }
      if stop > pos {
        bounds := bounds + [(pos, stop)];
      }
      pos := stop + 1;
    }
    WalkEnds(lines, |bounds|);
  }

  // ---- PHY records ---------------------------------------------------------------

  datatype Phy = Phy(id: nat, mask: nat, name: string)

  /** The fields fit their columns, and the name is one line. */
  predicate FitsPhy(p: Phy) {
    p.id < Pow16(8) && p.mask < Pow16(8) && '\n' !in p.name
  }

  /** PHY_RECORD. */
  function PhyRecord(p: Phy): string {
    Hex(p.id, 8) + " " + Hex(p.mask, 8) + " " + p.name
  }

  function PhyLines(ps: seq<Phy>): (lines: seq<string>)
    ensures |lines| == |ps|
  {
    seq(|ps|, i requires 0 <= i < |ps| => PhyRecord(ps[i]))
  }

  /** A record's columns hold its fields. */
  lemma PhyColumns(p: Phy)
    requires FitsPhy(p)
    ensures var l := PhyRecord(p);
            && IsLine(l) && |l| >= 18
            && l[..8] == Hex(p.id, 8) && l[9..17] == Hex(p.mask, 8) && l[18..] == p.name
  {
    ParseHex(p.id, 8);
    ParseHex(p.mask, 8);
  }

  lemma PhyLinesAreLines(ps: seq<Phy>)
    requires forall i :: 0 <= i < |ps| ==> FitsPhy(ps[i])
    ensures forall i :: 0 <= i < |ps| ==> IsLine(PhyLines(ps)[i])
  {
    forall i | 0 <= i < |ps|
      ensures IsLine(PhyLines(ps)[i])
    {
      PhyColumns(ps[i]);
    }
  }

  predicate MatchesPhy(p: Phy, ident: nat) {
    And(Xor(ident, p.id), p.mask) == 0
  }

  /** An identifier is one of a record's: it has the record's bit wherever the mask is one. */
  ghost predicate Agrees(p: Phy, ident: nat) {
    forall k: nat :: BitAt(p.mask, k) == 1 ==> BitAt(ident, k) == BitAt(p.id, k)
  }

  /** Record `i` is the first of the most specific among the first `n` that match. */
  predicate Best(ps: seq<Phy>, n: nat, ident: nat, i: nat)
    requires n <= |ps|
  {
    && i < n && MatchesPhy(ps[i], ident)
    && forall j :: 0 <= j < n && MatchesPhy(ps[j], ident) ==>
                     && BitCount(ps[j].mask) <= BitCount(ps[i].mask)
                     && (j < i ==> BitCount(ps[j].mask) < BitCount(ps[i].mask))
  }

  lemma Within(t: string, start: nat, stop: nat, i: nat, j: nat)
    requires i <= j && start + j <= stop <= |t|
    ensures t[start..stop][i..j] == t[start + i..start + j]
  {
    var a := t[start..stop];
    assert forall k :: 0 <= k < j - i ==> a[i..j][k] == t[start + i..start + j][k];
  }

  /** The fields of one record, sliced out of the table. */
  method PhyFields(table: string, start: nat, stop: nat, ghost p: Phy) returns (entry: nat, mask: nat, name: string)
    requires FitsPhy(p) && start <= stop <= |table| && table[start..stop] == PhyRecord(p)
    ensures entry == p.id && mask == p.mask && name == p.name
  {
    PhyColumns(p);
    ParseHex(p.id, 8);
    ParseHex(p.mask, 8);
    Within(table, start, stop, 0, 8);
    Within(table, start, stop, 9, 17);
    Within(table, start, stop, 18, stop - start);
    entry := Parse(table[start..start + 8]);
    mask := Parse(table[start + 9..start + 17]);
    name := table[start + 18..stop];
  }

  lemma BestKeeps(ps: seq<Phy>, n: nat, ident: nat, i: nat)
    requires n < |ps| && Best(ps, n, ident, i)
    requires MatchesPhy(ps[n], ident) ==> BitCount(ps[n].mask) <= BitCount(ps[i].mask)
    ensures Best(ps, n + 1, ident, i)
  {
  }

  lemma BestMoves(ps: seq<Phy>, n: nat, ident: nat, i: nat, any: bool)
    requires n < |ps| && MatchesPhy(ps[n], ident)
    requires if any then Best(ps, n, ident, i) && BitCount(ps[n].mask) > BitCount(ps[i].mask)
             else forall j :: 0 <= j < n ==> !MatchesPhy(ps[j], ident)
    ensures Best(ps, n + 1, ident, n)
  {
  }

  /** lookup_phy's loop. */
  method ScanPhy(table: string, bounds: seq<(nat, nat)>, ident: nat, ghost ps: seq<Phy>)
    returns (best: Option<string>, ghost at: nat)
    requires Cuts(table, bounds, PhyLines(ps)) && forall i :: 0 <= i < |ps| ==> FitsPhy(ps[i])
    ensures best.Some? ==> Best(ps, |ps|, ident, at) && best.value == ps[at].name
    ensures best.None? ==> forall i :: 0 <= i < |ps| ==> !MatchesPhy(ps[i], ident)
  {
    best, at := None, 0;
    var bestBits: int := -1;
    for n := 0 to |bounds|
      invariant best.Some? ==> Best(ps, n, ident, at) && best.value == ps[at].name && bestBits == BitCount(ps[at].mask)
      invariant best.None? ==> bestBits == -1 && forall i :: 0 <= i < n ==> !MatchesPhy(ps[i], ident)
    {
      var entry, mask, name := PhyFields(table, bounds[n].0, bounds[n].1, ps[n]);
      if And(Xor(ident, entry), mask) != 0 {
        if best.Some? {
          BestKeeps(ps, n, ident, at);
        }
        continue;
      }
      var bits := PopCount(mask);
      if bits > bestBits {
        BestMoves(ps, n, ident, at, best.Some?);
        best, bestBits, at := Some(name), bits, n;
      } else {
        BestKeeps(ps, n, ident, at);
      }
    }
  }

  /** lookup_phy on a rendered table: of the records the identifier agrees with, one with
      the most ones in its mask, and the first of those; none exactly if it agrees with
      none. */
  method LookupPhy(table: string, ident: nat, ghost ps: seq<Phy>) returns (best: Option<string>, ghost at: nat)
    requires table == Table(PhyLines(ps)) && forall i :: 0 <= i < |ps| ==> FitsPhy(ps[i])
    ensures best.Some? ==>
              && at < |ps| && best.value == ps[at].name && Agrees(ps[at], ident)
              && forall j :: 0 <= j < |ps| && Agrees(ps[j], ident) ==>
                   && BitCount(ps[j].mask) <= BitCount(ps[at].mask)
                   && (j < at ==> BitCount(ps[j].mask) < BitCount(ps[at].mask))
    ensures best.None? <==> forall i :: 0 <= i < |ps| ==> !Agrees(ps[i], ident)
  {
    PhyLinesAreLines(ps);
    var bounds := Walk(table, PhyLines(ps));
    best, at := ScanPhy(table, bounds, ident, ps);
    MatchingAgrees(ps, ident);
  }

  lemma MatchingAgrees(ps: seq<Phy>, ident: nat)
    ensures forall i :: 0 <= i < |ps| ==> (MatchesPhy(ps[i], ident) <==> Agrees(ps[i], ident))
  {
    forall i | 0 <= i < |ps|
      ensures MatchesPhy(ps[i], ident) <==> Agrees(ps[i], ident)
    {
      MatchAgrees(ps[i], ident);
    }
  }

  lemma MatchAgrees(p: Phy, ident: nat)
    ensures MatchesPhy(p, ident) <==> Agrees(p, ident)
  {
    MatchIsAgreement(ident, p.id, p.mask);
    if MatchesPhy(p, ident) {
      forall k: nat | BitAt(p.mask, k) == 1
        ensures BitAt(ident, k) == BitAt(p.id, k)
      {
      }
    }
  }

  // ---- switch records ---------------------------------------------------------------

  datatype SwitchChip = SwitchChip(id: nat, prod: nat, rev: nat, addr: Option<nat>, reg: Option<nat>,
                                   access: string, family: string, name: string)

  /** `_hexish`, two digits wide. */
  function Hexish(v: Option<nat>): string {
    if v.None? then "--" else Hex(v.value, 2)
  }

  function Blanks(n: nat): (s: string)
    ensures |s| == n && forall i :: 0 <= i < n ==> s[i] == ' '
  {
    seq(n, _ => ' ')
  }

  /** The format `{:<w}`. */
  function PadRight(s: string, w: nat): string {
    if |s| >= w then s else s + Blanks(w - |s|)
  }

  function TrimRight(s: string): string {
    if s == [] || s[|s| - 1] != ' ' then s else TrimRight(s[..|s| - 1])
  }

  predicate FitsSwitch(c: SwitchChip) {
    && c.id < Pow16(8) && c.prod < Pow16(8) && c.rev < Pow16(8)
    && (c.addr.Some? ==> c.addr.value < 256) && (c.reg.Some? ==> c.reg.value < 256)
    && |c.access| <= 4 && |c.family| <= 10
    && '\n' !in c.access && '\n' !in c.family && '\n' !in c.name
    && (c.access != [] ==> c.access[|c.access| - 1] != ' ')
  }

  /** The columns of SWITCH_RECORD: three masks, then where to read, how, and what. */
  function Head(c: SwitchChip): string {
    Hex(c.id, 8) + " " + Hex(c.prod, 8) + " " + Hex(c.rev, 8) + " "
  }

  function Tail(c: SwitchChip): string {
    Hexish(c.addr) + " " + Hexish(c.reg) + " " + PadRight(c.access, 4) + " " + PadRight(c.family, 10) + " " + c.name
  }

  /** SWITCH_RECORD. */
  function SwitchRecord(c: SwitchChip): string {
    Head(c) + Tail(c)
  }

  function SwitchLines(cs: seq<SwitchChip>): (lines: seq<string>)
    ensures |lines| == |cs|
  {
    seq(|cs|, i requires 0 <= i < |cs| => SwitchRecord(cs[i]))
  }

  lemma HexishWidth(v: Option<nat>)
    requires v.Some? ==> v.value < 256
    ensures |Hexish(v)| == 2 && '\n' !in Hexish(v)
  {
    if v.Some? {
      assert Pow16(2) == 256;
      ParseHex(v.value, 2);
    }
  }

  /** A column equals a printed number exactly if it holds that number. */
  lemma HexishIs(v: Option<nat>, n: nat)
    ensures Hexish(v) == Hex(n, 2) <==> v == Some(n)
  {
    ParseHex(n, 2);
    if v.Some? {
      HexInjective(v.value, n, 2);
    } else {
      assert Hexish(v)[0] == '-';
    }
  }

  lemma HeadColumns(a: string, b: string, c: string)
    requires |a| == 8 && |b| == 8 && |c| == 8
    ensures var h := a + " " + b + " " + c + " ";
            |h| == 27 && h[..8] == a && h[9..17] == b && h[18..26] == c
  {
  }

  lemma TailColumns(d: string, e: string, f: string, g: string, n: string)
    requires |d| == 2 && |e| == 2 && |f| == 4 && |g| == 10
    ensures var t := d + " " + e + " " + f + " " + g + " " + n;
            |t| >= 22 && t[..2] == d && t[3..5] == e && t[6..10] == f && t[22..] == n
  {
  }

  lemma SwitchColumns(c: SwitchChip)
    requires FitsSwitch(c)
    ensures var l := SwitchRecord(c);
            && |l| >= 49 && l[..27] == Head(c) && l[27..] == Tail(c)
            && l[..8] == Hex(c.id, 8) && l[9..17] == Hex(c.prod, 8) && l[18..26] == Hex(c.rev, 8)
    ensures var t := Tail(c);
            && t[..2] == Hexish(c.addr) && t[3..5] == Hexish(c.reg)
            && t[6..10] == PadRight(c.access, 4) && t[22..] == c.name
  {
    ParseHex(c.id, 8);
    ParseHex(c.prod, 8);
    ParseHex(c.rev, 8);
    HexishWidth(c.addr);
    HexishWidth(c.reg);
    HeadColumns(Hex(c.id, 8), Hex(c.prod, 8), Hex(c.rev, 8));
    TailColumns(Hexish(c.addr), Hexish(c.reg), PadRight(c.access, 4), PadRight(c.family, 10), c.name);
    Within(SwitchRecord(c), 0, 27, 0, 8);
    Within(SwitchRecord(c), 0, 27, 9, 17);
    Within(SwitchRecord(c), 0, 27, 18, 26);
  }

  lemma SwitchIsLine(c: SwitchChip)
    requires FitsSwitch(c)
    ensures IsLine(SwitchRecord(c))
  {
    ParseHex(c.id, 8);
    ParseHex(c.prod, 8);
    ParseHex(c.rev, 8);
    HexishWidth(c.addr);
    HexishWidth(c.reg);
    assert '\n' !in Head(c);
    assert '\n' !in Tail(c);
  }

  lemma {:induction false} TrimPadded(s: string, n: nat)
    requires s != [] ==> s[|s| - 1] != ' '
    ensures TrimRight(s + Blanks(n)) == s
  {
    if n > 0 {
      TrimPadded(s, n - 1);
      assert (s + Blanks(n))[..|s| + n - 1] == s + Blanks(n - 1);
    } else {
      assert s + Blanks(0) == s;
    }
  }

  lemma SwitchLinesAreLines(cs: seq<SwitchChip>)
    requires forall i :: 0 <= i < |cs| ==> FitsSwitch(cs[i])
    ensures forall i :: 0 <= i < |cs| ==> IsLine(SwitchLines(cs)[i])
  {
    forall i | 0 <= i < |cs|
      ensures IsLine(SwitchLines(cs)[i])
    {
      SwitchIsLine(cs[i]);
    }
  }

  /** `value`, read at an address and register, fits a record a plain read can reach. */
  predicate Answers(c: SwitchChip, value: nat, address: nat, register: nat) {
    && c.access == "c22" && c.addr == Some(address) && c.reg == Some(register)
    && And(value, c.prod) == c.id
  }

  /** What a record that fits contributes: its name, and the revision where there is a mask. */
  function HitOf(c: SwitchChip, value: nat): (string, Option<nat>) {
    (c.name, if c.rev != 0 then Some(And(value, c.rev)) else None)
  }

  function Hit(c: SwitchChip, value: nat, address: nat, register: nat): seq<(string, Option<nat>)> {
    if Answers(c, value, address, register) then [HitOf(c, value)] else []
  }

  /** The first `n` records that fit, in order. */
  function Answering(cs: seq<SwitchChip>, n: nat, value: nat, address: nat, register: nat)
    : seq<(string, Option<nat>)>
    requires n <= |cs|
  {
    if n == 0 then []
    else Answering(cs, n - 1, value, address, register) + Hit(cs[n - 1], value, address, register)
  }

  /** The numbers of one record, sliced out of the table. */
  method SwitchNumbers(record: string, ghost c: SwitchChip) returns (entry: nat, prod: nat, rev: nat)
    requires FitsSwitch(c) && record == SwitchRecord(c)
    ensures entry == c.id && prod == c.prod && rev == c.rev
  {
    SwitchColumns(c);
    ParseHex(c.id, 8);
    ParseHex(c.prod, 8);
    ParseHex(c.rev, 8);
    entry, prod, rev := Parse(record[..8]), Parse(record[9..17]), Parse(record[18..26]);
  }

  /** Whether a record is one a plain read of this register can match, by its columns. */
  method Reachable(record: string, address: nat, register: nat, ghost c: SwitchChip)
    returns (yes: bool, name: string)
    requires FitsSwitch(c) && record == SwitchRecord(c)
    ensures yes <==> c.access == "c22" && c.addr == Some(address) && c.reg == Some(register)
    ensures name == c.name
  {
    SwitchColumns(c);
    HexishIs(c.addr, address);
    HexishIs(c.reg, register);
    TrimPadded(c.access, 4 - |c.access|);
    var tail := record[27..];
    yes := TrimRight(tail[6..10]) == "c22" && tail[..2] == Hex(address, 2) && tail[3..5] == Hex(register, 2);
    name := tail[22..];
  }

  /** One turn of lookup_switch's loop. */
  method TrySwitch(record: string, value: nat, address: nat, register: nat,
                   ghost cs: seq<SwitchChip>, ghost n: nat)
    returns (hit: seq<(string, Option<nat>)>)
    requires n < |cs| && FitsSwitch(cs[n]) && record == SwitchLines(cs)[n]
    ensures hit == Hit(cs[n], value, address, register)
  {
    ghost var c := cs[n];
    var yes, name := Reachable(record, address, register, c);
    if !yes {
      return [];
    }
    var entry, prod, rev := SwitchNumbers(record, c);
    if And(value, prod) != entry {
      return [];
    }
    hit := [(name, if rev != 0 then Some(And(value, rev)) else None)];
  }

  /** lookup_switch's loop. */
  method ScanSwitch(table: string, bounds: seq<(nat, nat)>, value: nat, address: nat, register: nat,
                    ghost cs: seq<SwitchChip>)
    returns (found: seq<(string, Option<nat>)>)
    requires Cuts(table, bounds, SwitchLines(cs)) && forall i :: 0 <= i < |cs| ==> FitsSwitch(cs[i])
    ensures found == Answering(cs, |cs|, value, address, register)
  {
    found := [];
    for n := 0 to |bounds|
      invariant found == Answering(cs, n, value, address, register)
    {
      var (start, stop) := bounds[n];
      var hit := TrySwitch(table[start..stop], value, address, register, cs, n);
      assert Answering(cs, n + 1, value, address, register)
             == Answering(cs, n, value, address, register) + Hit(cs[n], value, address, register);
      found := found + hit;
    }
  }

  /** The indices of the records that fit, among the first `n`. */
  function Fitting(cs: seq<SwitchChip>, n: nat, value: nat, address: nat, register: nat): (at: seq<nat>)
    requires n <= |cs|
  {
    if n == 0 then []
    else Fitting(cs, n - 1, value, address, register)
         + if Answers(cs[n - 1], value, address, register) then [n - 1] else []
  }

  /** What was found is told by where: strictly upwards through the records, each one read
      by a plain access of this address and register whose product mask takes the value
      to its identifier, none of those left out, with its name and masked revision. */
  ghost predicate FoundAt(cs: seq<SwitchChip>, n: nat, value: nat, address: nat, register: nat,
                          found: seq<(string, Option<nat>)>, at: seq<nat>)
    requires n <= |cs|
  {
    && |found| == |at|
    && (forall j, k :: 0 <= j < k < |at| ==> at[j] < at[k])
    && (forall j :: 0 <= j < |at| ==> at[j] < n)
    && (forall i :: 0 <= i < n ==>
          (i in at <==> && cs[i].access == "c22" && cs[i].addr == Some(address) && cs[i].reg == Some(register)
                        && And(value, cs[i].prod) == cs[i].id))
    && (forall j :: 0 <= j < |at| ==>
          && found[j].0 == cs[at[j]].name
          && found[j].1 == if cs[at[j]].rev != 0 then Some(And(value, cs[at[j]].rev)) else None)
  }

  lemma {:induction false} AnsweringIsFoundAt(cs: seq<SwitchChip>, n: nat, value: nat, address: nat, register: nat)
    requires n <= |cs|
    ensures FoundAt(cs, n, value, address, register, Answering(cs, n, value, address, register),
                    Fitting(cs, n, value, address, register))
  {
    if n > 0 {
      var m := n - 1;
      var at, found := Fitting(cs, m, value, address, register), Answering(cs, m, value, address, register);
      AnsweringIsFoundAt(cs, m, value, address, register);
      NextAnswer(cs, m, value, address, register);
      if Answers(cs[m], value, address, register) {
        OneMoreFound(cs, m, value, address, register, found, at, HitOf(cs[m], value));
      } else {
        NoMoreFound(cs, m, value, address, register, found, at);
      }
    }
  }

  lemma NextAnswer(cs: seq<SwitchChip>, n: nat, value: nat, address: nat, register: nat)
    requires n < |cs|
    ensures Answering(cs, n + 1, value, address, register)
            == Answering(cs, n, value, address, register)
               + if Answers(cs[n], value, address, register) then [HitOf(cs[n], value)] else []
  {
  }

  lemma OneMoreFound(cs: seq<SwitchChip>, n: nat, value: nat, address: nat, register: nat,
                     found: seq<(string, Option<nat>)>, at: seq<nat>, hit: (string, Option<nat>))
    requires n < |cs| && FoundAt(cs, n, value, address, register, found, at)
    requires Answers(cs[n], value, address, register)
    requires hit == HitOf(cs[n], value)
    ensures FoundAt(cs, n + 1, value, address, register, found + [hit], at + [n])
  {
    forall i | 0 <= i < n + 1
      ensures i in at + [n] <==> (i in at || i == n)
    {
    }
  }

  lemma NoMoreFound(cs: seq<SwitchChip>, n: nat, value: nat, address: nat, register: nat,
                    found: seq<(string, Option<nat>)>, at: seq<nat>)
    requires n < |cs| && FoundAt(cs, n, value, address, register, found, at)
    requires !Answers(cs[n], value, address, register)
    ensures FoundAt(cs, n + 1, value, address, register, found, at)
  {
  }

  /** lookup_switch on a rendered table: exactly the records that fit, in order. */
  method LookupSwitch(table: string, value: nat, address: nat, register: nat, ghost cs: seq<SwitchChip>)
    returns (found: seq<(string, Option<nat>)>, ghost at: seq<nat>)
    requires table == Table(SwitchLines(cs)) && forall i :: 0 <= i < |cs| ==> FitsSwitch(cs[i])
    ensures FoundAt(cs, |cs|, value, address, register, found, at)
  {
    SwitchLinesAreLines(cs);
    var bounds := Walk(table, SwitchLines(cs));
    found := ScanSwitch(table, bounds, value, address, register, cs);
    at := Fitting(cs, |cs|, value, address, register);
    AnsweringIsFoundAt(cs, |cs|, value, address, register);
  }
}
