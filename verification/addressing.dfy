/** Clause 22 addressing modes (src/python/cli/access.py), nested to any depth over
    a PHY on the wire or a PHY behind a switch (marvell.SwitchPhy, and the _Window
    and _SerdesWindow of scripts/lib/mv6390.py). */
module Addressing {
  import opened Clause22
  import opened SwitchHw
  import opened Tower

  /** The source's adapter objects: each wraps anything that can read and write. */
  datatype Bus =
    | PhyBus(phy: int)
    | SwitchPhy(sw: Switch, phy: int)
    | FuncWindow(sw: Switch, func: int, phy: int)
    | Paged(bus: Bus, page: int, sel: int)
    | ExtPage(bus: Bus, page: int)
    | Mmd(bus: Bus, devad: int)
    | Window(bus: Bus, addr: int, data: int)

  /** Mmd's function field for data without post-increment. */
  const DATA_MODE := 0x4000

  predicate Wraps(b: Bus) { b.Paged? || b.ExtPage? || b.Mmd? || b.Window? }

  // ---- what an access should come to --------------------------------------

  /** The PHY at the bottom of a nest. */
  datatype Target = OnWire(addr: Idx) | Behind(i: Idx128)

  function Route(b: Bus): Target {
    if Wraps(b) then Route(b.bus)
    else match b
      case PhyBus(phy) => OnWire(phy % 32)
      case SwitchPhy(_, phy) => Behind(At(0, phy))
      case FuncWindow(_, func, phy) => Behind(At(func % 4, phy))
  }

  /** An access told as a change to that PHY alone. */
  function AbsWrite(b: Bus, p: Phy, reg: int, v: int): Phy
    decreases b, 0
  {
    match b
    case Paged(bus, page, sel) => AbsWrite(bus, AbsWrite(bus, p, sel, page % 0x1_0000), reg, v)
    case ExtPage(bus, page) =>
      var p := AbsWrite(bus, AbsWrite(bus, p, 31, 7), 30, page % 256);
      AbsWrite(bus, AbsWrite(bus, p, reg, v), 31, 0)
    case Mmd(bus, devad) => AbsWrite(bus, AbsArm(bus, p, devad, reg), 14, v % 0x1_0000)
    case Window(bus, addr, data) =>
      AbsWrite(bus, AbsWrite(bus, p, addr, reg % 0x1_0000), data, v % 0x1_0000)
    case _ => PhyWrite(p, reg % 32, v % 0x1_0000)
  }

  /** Mmd's three arming writes. */
  function AbsArm(bus: Bus, p: Phy, devad: int, reg: int): Phy
    decreases bus, 1
  {
    var p := AbsWrite(bus, AbsWrite(bus, p, 13, devad % 32), 14, reg % 0x1_0000);
    AbsWrite(bus, p, 13, devad % 32 + DATA_MODE)
  }

  function AbsRead(b: Bus, p: Phy, reg: int): (Word, Phy) {
    match b
    case Paged(bus, page, sel) => AbsRead(bus, AbsWrite(bus, p, sel, page % 0x1_0000), reg)
    case ExtPage(bus, page) =>
      var (v, p) := AbsRead(bus, AbsWrite(bus, AbsWrite(bus, p, 31, 7), 30, page % 256), reg);
      (v, AbsWrite(bus, p, 31, 0))
    case Mmd(bus, devad) => AbsRead(bus, AbsArm(bus, p, devad, reg), 14)
    case Window(bus, addr, data) => AbsRead(bus, AbsWrite(bus, p, addr, reg % 0x1_0000), data)
    case _ => (PhyRead(p, reg % 32), p)
  }

  // ---- against the hardware -------------------------------------------------

  function Seen(h: Hw, t: Target): Phy {
    match t
    case OnWire(a) => h.wire[a]
    case Behind(i) => PhysOf(h)[i]
  }

  /** From one state of the hardware to the next, PHY `t` became `p` and nothing
      else moved but the window's own command and data. */
  ghost predicate Only(h: Hw, g: Hw, t: Target, p: Phy) {
    match t
    case OnWire(a) => g.wire == h.wire[a := p] && View(g) == View(h)
    case Behind(i) => g.wire == h.wire && Reached(h, g, i, p)
  }

  lemma OnlyThen(h: Hw, g: Hw, k: Hw, t: Target, p: Phy, q: Phy)
    requires Only(h, g, t, p) && Only(g, k, t, q)
    ensures Only(h, k, t, q) && Seen(g, t) == p
  {
    match t
    case OnWire(a) =>
    case Behind(i) =>
      assert Settled(View(g)) == View(g);
      assert PhysOf(g)[i := q] == PhysOf(h)[i := q];
  }

  lemma OnlySeen(h: Hw, g: Hw, t: Target, p: Phy)
    requires Only(h, g, t, p)
    ensures Seen(g, t) == p
  {
  }

  /** A switch named by the nest is the one on this wire, and a PHY named on the wire
      is not the switch itself. */
  ghost predicate Placed(b: Bus, m: Mdio, strap: Idx, owned: set<int>) {
    if Wraps(b) then Placed(b.bus, m, strap, owned)
    else match b
      case PhyBus(phy) => if strap != 0 then phy % 32 != strap else phy % 32 !in owned
      case SwitchPhy(sw, _) => sw.m == m && sw.addr == strap && (strap == 0 ==> 28 in owned)
      case FuncWindow(sw, func, _) =>
        sw.m == m && sw.addr == strap && (strap == 0 ==> 28 in owned) && 0 <= func < 4
  }

  ghost predicate Wrote(b: Bus, h: Hw, g: Hw, reg: int, v: int) {
    Only(h, g, Route(b), AbsWrite(b, Seen(h, Route(b)), reg, v))
  }

  ghost predicate Fetched(b: Bus, h: Hw, g: Hw, reg: int, v: Word) {
    var (x, p) := AbsRead(b, Seen(h, Route(b)), reg);
    v == x && Only(h, g, Route(b), p)
  }

  /** The PHY a nest stands on: on the wire the one at that address; behind the switch the
      internal one, which function 0 names, for a SwitchPhy, and for a window the one of
      the bus `func` names. */
  function Underneath(b: Bus, h: Hw): Phy {
    if Wraps(b) then Underneath(b.bus, h)
    else match b
      case PhyBus(phy) => h.wire[phy % 32]
      case SwitchPhy(_, phy) => PhysOf(h)[phy % 32]
      case FuncWindow(_, func, phy) => PhysOf(h)[func % 4 * 32 + phy % 32]
  }

  /** That PHY became `p`, and no other PHY moved, on the wire or behind the switch. */
  ghost predicate OnlyUnderneath(b: Bus, h: Hw, g: Hw, p: Phy) {
    if Wraps(b) then OnlyUnderneath(b.bus, h, g, p)
    else match b
      case PhyBus(phy) => g.wire == h.wire[phy % 32 := p] && PhysOf(g) == PhysOf(h)
      case SwitchPhy(_, phy) => PhysOf(g) == PhysOf(h)[phy % 32 := p] && g.wire == h.wire
      case FuncWindow(_, func, phy) => PhysOf(g) == PhysOf(h)[func % 4 * 32 + phy % 32 := p] && g.wire == h.wire
  }

  lemma {:induction false} RouteIsBottom(b: Bus, h: Hw, g: Hw, p: Phy)
    ensures Seen(h, Route(b)) == Underneath(b, h)
    ensures Only(h, g, Route(b), p) ==> OnlyUnderneath(b, h, g, p)
  {
    if Wraps(b) {
      RouteIsBottom(b.bus, h, g, p);
    }
  }

  // ---- accesses that fail -------------------------------------------------------

  /** What became of one write through a bottom bus: what its caller was told, and whether
      the PHY got it. Behind a switch a write that failed may have gone through. */
  datatype Try = Try(r: Result<()>, took: bool)
  {
    predicate Fair() { r.Ok? ==> took }
  }

  function Tried(b: Bus, p: Phy, reg: int, v: int, t: Try): Phy {
    if t.took then AbsWrite(b, p, reg, v) else p
  }

  /** From one state of the hardware to the next, one such write was tried. */
  ghost predicate Told(b: Bus, h: Hw, g: Hw, reg: int, v: int, t: Try) {
    t.Fair() && Seen(g, Route(b)) == Tried(b, Seen(h, Route(b)), reg, v, t)
  }

  ghost function TryOf(b: Bus, h: Hw, g: Hw, reg: int, v: int, r: Result<()>): Try {
    Try(r, r.Ok? || Seen(g, Route(b)) == AbsWrite(b, Seen(h, Route(b)), reg, v))
  }

  /** The four writes of ExtPage.write: two that arm it, the access, and the release. */
  datatype Tries = Tries(first: Try, second: Try, access: Try, release: Try)
  {
    predicate Fair() { first.Fair() && second.Fair() && access.Fair() && release.Fair() }
  }

  const NONE := Try(Err(OsError), false)

  /** What ExtPage.write comes to, given what becomes of them: nothing is released when
      arming fails; an OSError of the release is swallowed, and another error of it takes
      the place of whatever the access said. */
  function ExtRun(b: Bus, p: Phy, page: int, reg: int, v: int, t: Tries): (Result<()>, Phy) {
    var p1 := Tried(b, p, 31, 7, t.first);
    var p2 := Tried(b, p1, 30, page % 256, t.second);
    var p4 := Tried(b, Tried(b, p2, reg, v, t.access), 31, 0, t.release);
    if t.first.r.Err? then (t.first.r, p1)
    else if t.second.r.Err? then (t.second.r, p2)
    else (if t.release.r == Err(CommandError) then t.release.r else t.access.r, p4)
  }

  /** The same for ExtPage.read, whose access moves nothing. */
  function ExtReadRun(b: Bus, p: Phy, page: int, t: Tries): (Result<()>, Phy) {
    var p1 := Tried(b, p, 31, 7, t.first);
    var p2 := Tried(b, p1, 30, page % 256, t.second);
    if t.first.r.Err? then (t.first.r, p1)
    else if t.second.r.Err? then (t.second.r, p2)
    else (if t.release.r == Err(CommandError) then t.release.r else t.access.r, Tried(b, p2, 31, 0, t.release))
  }

  /** Whether an access succeeded, and with what error not, without its value. */
  function Status<T>(r: Result<T>): Result<()> {
    if r.Ok? then Ok(()) else Err(r.error)
  }

  // ---- the methods ------------------------------------------------------------

  lemma WroteOnWire(h: Hw, a: Idx, reg: Idx, v: Word)
    requires if h.strap != 0 then a != h.strap else a !in h.owned
    ensures var (r, g) := WireWrite(h, a, reg, v);
            && SameWiring(h, g) && (Calm(h) ==> r.Ok? && Calm(g))
            && (if r.Ok? then Only(h, g, OnWire(a), PhyWrite(h.wire[a], reg, v)) else g.wire == h.wire)
  {
  }

  lemma ReadOnWire(h: Hw, a: Idx, reg: Idx)
    requires if h.strap != 0 then a != h.strap else a !in h.owned
    ensures var (r, g) := WireRead(h, a, reg);
            && SameWiring(h, g) && (Calm(h) ==> r.Ok? && Calm(g))
            && (r.Ok? ==> r.value == PhyRead(h.wire[a], reg) && Only(h, g, OnWire(a), h.wire[a]))
            && g.wire == h.wire
  {
    assert h.wire[a := h.wire[a]] == h.wire;
  }

  method WireStore(m: Mdio, phy: int, reg: int, v: int) returns (r: Result<()>)
    requires Placed(PhyBus(phy), m, m.hw.strap, m.hw.owned)
    modifies m
    ensures SameWiring(old(m.hw), m.hw)
    ensures r.Ok? ==> Wrote(PhyBus(phy), old(m.hw), m.hw, reg, v)
    ensures Told(PhyBus(phy), old(m.hw), m.hw, reg, v, TryOf(PhyBus(phy), old(m.hw), m.hw, reg, v, r))
    ensures Calm(old(m.hw)) ==> r.Ok? && Calm(m.hw)
    ensures (r, m.hw) == WireWrite(old(m.hw), phy % 32, reg % 32, v % 0x1_0000)
  {
    WroteOnWire(m.hw, phy % 32, reg % 32, v % 0x1_0000);
    r := m.Write(phy % 32, reg % 32, v % 0x1_0000);
  }

  method WireFetch(m: Mdio, phy: int, reg: int) returns (r: Result<Word>)
    requires Placed(PhyBus(phy), m, m.hw.strap, m.hw.owned)
    modifies m
    ensures SameWiring(old(m.hw), m.hw)
    ensures r.Ok? ==> Fetched(PhyBus(phy), old(m.hw), m.hw, reg, r.value)
    ensures Seen(m.hw, Route(PhyBus(phy))) == Seen(old(m.hw), Route(PhyBus(phy)))
    ensures Calm(old(m.hw)) ==> r.Ok? && Calm(m.hw)
  {
    ReadOnWire(m.hw, phy % 32, reg % 32);
    r := m.Read(phy % 32, reg % 32);
  }

  lemma BehindWrote(sw: Switch, func: int, phy: int, reg: int, v: int, h: Hw, g: Hw)
    requires 0 <= func < 4 && g.wire == h.wire
    requires var i := At(func, phy);
             Reached(h, g, i, PhyWrite(PhysOf(h)[i], reg % 32, v % 0x1_0000))
    ensures Wrote(FuncWindow(sw, func, phy), h, g, reg, v)
  {
    assert func % 4 == func;
  }

  lemma BehindFetched(sw: Switch, func: int, phy: int, reg: int, v: Word, h: Hw, g: Hw)
    requires 0 <= func < 4 && g.wire == h.wire
    requires var i := At(func, phy);
             Reached(h, g, i, PhysOf(h)[i]) && v == PhyRead(PhysOf(h)[i], reg % 32)
    ensures Fetched(FuncWindow(sw, func, phy), h, g, reg, v)
  {
    assert func % 4 == func;
  }

  method WindowStore(m: Mdio, sw: Switch, func: int, phy: int, reg: int, v: int) returns (r: Result<()>)
    requires Placed(FuncWindow(sw, func, phy), m, m.hw.strap, m.hw.owned)
    modifies m
    ensures SameWiring(old(m.hw), m.hw)
    ensures r.Ok? ==> Wrote(FuncWindow(sw, func, phy), old(m.hw), m.hw, reg, v)
    ensures var b := FuncWindow(sw, func, phy);
            Told(b, old(m.hw), m.hw, reg, v, TryOf(b, old(m.hw), m.hw, reg, v, r))
    ensures Calm(old(m.hw)) ==> r.Ok? && Calm(m.hw)
  {
    r := sw.FuncWrite(func, phy, reg, v);
    if r.Ok? {
      BehindWrote(sw, func, phy, reg, v, old(m.hw), m.hw);
    }
  }

  method WindowFetch(m: Mdio, sw: Switch, func: int, phy: int, reg: int) returns (r: Result<Word>)
    requires Placed(FuncWindow(sw, func, phy), m, m.hw.strap, m.hw.owned)
    modifies m
    ensures SameWiring(old(m.hw), m.hw)
    ensures r.Ok? ==> Fetched(FuncWindow(sw, func, phy), old(m.hw), m.hw, reg, r.value)
    ensures Seen(m.hw, Route(FuncWindow(sw, func, phy))) == Seen(old(m.hw), Route(FuncWindow(sw, func, phy)))
    ensures Calm(old(m.hw)) ==> r.Ok? && Calm(m.hw)
  {
    r := sw.FuncRead(func, phy, reg);
    if r.Ok? {
      BehindFetched(sw, func, phy, reg, r.value, old(m.hw), m.hw);
    }
  }

  /** SwitchPhy, whose switch methods send function 0. */
  method SwitchStore(m: Mdio, sw: Switch, phy: int, reg: int, v: int) returns (r: Result<()>)
    requires Placed(SwitchPhy(sw, phy), m, m.hw.strap, m.hw.owned)
    modifies m
    ensures SameWiring(old(m.hw), m.hw)
    ensures r.Ok? ==> Wrote(SwitchPhy(sw, phy), old(m.hw), m.hw, reg, v)
    ensures Told(SwitchPhy(sw, phy), old(m.hw), m.hw, reg, v, TryOf(SwitchPhy(sw, phy), old(m.hw), m.hw, reg, v, r))
    ensures Calm(old(m.hw)) ==> r.Ok? && Calm(m.hw)
  {
    r := sw.PhyWrite(phy, reg, v);
  }

  method SwitchFetch(m: Mdio, sw: Switch, phy: int, reg: int) returns (r: Result<Word>)
    requires Placed(SwitchPhy(sw, phy), m, m.hw.strap, m.hw.owned)
    modifies m
    ensures SameWiring(old(m.hw), m.hw)
    ensures r.Ok? ==> Fetched(SwitchPhy(sw, phy), old(m.hw), m.hw, reg, r.value)
    ensures Seen(m.hw, Route(SwitchPhy(sw, phy))) == Seen(old(m.hw), Route(SwitchPhy(sw, phy)))
    ensures Calm(old(m.hw)) ==> r.Ok? && Calm(m.hw)
  {
    r := sw.PhyRead(phy, reg);
  }

  method WriteBase(m: Mdio, b: Bus, reg: int, v: int) returns (r: Result<()>)
    requires !Wraps(b) && Placed(b, m, m.hw.strap, m.hw.owned)
    modifies m
    ensures SameWiring(old(m.hw), m.hw)
    ensures r.Ok? ==> Wrote(b, old(m.hw), m.hw, reg, v)
    ensures Told(b, old(m.hw), m.hw, reg, v, TryOf(b, old(m.hw), m.hw, reg, v, r))
    ensures Calm(old(m.hw)) ==> r.Ok? && Calm(m.hw)
    ensures b.PhyBus? ==> (r, m.hw) == WireWrite(old(m.hw), b.phy % 32, reg % 32, v % 0x1_0000)
  {
    match b
    case PhyBus(phy) => r := WireStore(m, phy, reg, v);
    case SwitchPhy(sw, phy) => r := SwitchStore(m, sw, phy, reg, v);
    case FuncWindow(sw, func, phy) => r := WindowStore(m, sw, func, phy, reg, v);
  }

  method ReadBase(m: Mdio, b: Bus, reg: int) returns (r: Result<Word>)
    requires !Wraps(b) && Placed(b, m, m.hw.strap, m.hw.owned)
    modifies m
    ensures SameWiring(old(m.hw), m.hw)
    ensures r.Ok? ==> Fetched(b, old(m.hw), m.hw, reg, r.value)
    ensures Seen(m.hw, Route(b)) == Seen(old(m.hw), Route(b))
    ensures Calm(old(m.hw)) ==> r.Ok? && Calm(m.hw)
  {
    match b
    case PhyBus(phy) => r := WireFetch(m, phy, reg);
    case SwitchPhy(sw, phy) => r := SwitchFetch(m, sw, phy, reg);
    case FuncWindow(sw, func, phy) => r := WindowFetch(m, sw, func, phy, reg);
  }

  /** ExtPage.write on a PHY on the wire, failures included: the two arming writes,
      the access, and the closing write whatever became of the access. */
  function WirePair(h: Hw, a: Idx, reg0: Idx, v0: Word, reg1: Idx, v1: Word): (Result<()>, Hw) {
    var (r, g) := WireWrite(h, a, reg0, v0);
    if r.Err? then (r, g) else WireWrite(g, a, reg1, v1)
  }

  function WireFinally(h: Hw, a: Idx, reg: Idx, v: Word): (Result<()>, Hw) {
    var (r, g) := WireWrite(h, a, reg, v);
    (r, WireWrite(g, a, 31, 0).1)
  }

  function ExtOnWire(h: Hw, a: Idx, page: int, reg: Idx, v: Word): (Result<()>, Hw) {
    var (r, g) := WirePair(h, a, 31, 7, 30, page % 256);
    if r.Err? then (r, g) else WireFinally(g, a, reg, v)
  }

  /** The two arming writes, then the write and the release, are ExtPage's write. */
  lemma ExtWrote(b: Bus, h: Hw, g: Hw, k: Hw, page: int, reg: int, v: int)
    requires Only(h, g, Route(b), AbsWrite(b, AbsWrite(b, Seen(h, Route(b)), 31, 7), 30, page % 256))
    requires Only(g, k, Route(b), AbsWrite(b, AbsWrite(b, Seen(g, Route(b)), reg, v), 31, 0))
    ensures Wrote(ExtPage(b, page), h, k, reg, v)
  {
    var p := AbsWrite(b, AbsWrite(b, Seen(h, Route(b)), 31, 7), 30, page % 256);
    OnlySeen(h, g, Route(b), p);
    OnlyThen(h, g, k, Route(b), p, AbsWrite(b, AbsWrite(b, p, reg, v), 31, 0));
  }

  lemma ExtFetched(b: Bus, h: Hw, g: Hw, k: Hw, page: int, reg: int, v: Word)
    requires Only(h, g, Route(b), AbsWrite(b, AbsWrite(b, Seen(h, Route(b)), 31, 7), 30, page % 256))
    requires var (x, p) := AbsRead(b, Seen(g, Route(b)), reg);
             v == x && Only(g, k, Route(b), AbsWrite(b, p, 31, 0))
    ensures Fetched(ExtPage(b, page), h, k, reg, v)
  {
    var p := AbsWrite(b, AbsWrite(b, Seen(h, Route(b)), 31, 7), 30, page % 256);
    OnlySeen(h, g, Route(b), p);
    OnlyThen(h, g, k, Route(b), p, AbsWrite(b, AbsRead(b, p, reg).1, 31, 0));
  }

  /** A write through any nest: the PHY it stands on, and no other, is left as the nest's
      own sequence of accesses leaves it. `released` tells whether every ExtPage in the
      nest got its closing write through: the source swallows an OSError there. */
  method Write(m: Mdio, b: Bus, reg: int, v: int) returns (r: Result<()>, ghost released: bool)
    requires Placed(b, m, m.hw.strap, m.hw.owned)
    modifies m
    ensures SameWiring(old(m.hw), m.hw)
    ensures r.Ok? && released ==> Wrote(b, old(m.hw), m.hw, reg, v)
    ensures r.Ok? && released ==>
              OnlyUnderneath(b, old(m.hw), m.hw, AbsWrite(b, Underneath(b, old(m.hw)), reg, v))
    ensures !Wraps(b) ==> Told(b, old(m.hw), m.hw, reg, v, TryOf(b, old(m.hw), m.hw, reg, v, r))
    ensures Calm(old(m.hw)) ==> r.Ok? && released && Calm(m.hw)
    ensures b.PhyBus? ==> (r, m.hw) == WireWrite(old(m.hw), b.phy % 32, reg % 32, v % 0x1_0000)
    decreases b, 2
  {
    released := true;
    match b {
      case Paged(bus, page, sel) =>
        ghost var told;
        r, released, told := WritePair(m, bus, sel, page % 0x1_0000, reg, v);
      case Window(bus, addr, data) =>
        ghost var told;
        r, released, told := WritePair(m, bus, addr, reg % 0x1_0000, data, v % 0x1_0000);
      case ExtPage(bus, page) =>
        ghost var told;
        r, released, told := ExtWrite(m, bus, page, reg, v);
      case Mmd(bus, devad) => r, released := MmdWrite(m, bus, devad, reg, v);
      case _ => r := WriteBase(m, b, reg, v);
    }
    RouteIsBottom(b, old(m.hw), m.hw, AbsWrite(b, Underneath(b, old(m.hw)), reg, v));
  }

  method Read(m: Mdio, b: Bus, reg: int) returns (r: Result<Word>, ghost released: bool)
    requires Placed(b, m, m.hw.strap, m.hw.owned)
    modifies m
    ensures SameWiring(old(m.hw), m.hw)
    ensures r.Ok? && released ==> Fetched(b, old(m.hw), m.hw, reg, r.value)
    ensures r.Ok? && released ==>
              var (x, p) := AbsRead(b, Underneath(b, old(m.hw)), reg);
              r.value == x && OnlyUnderneath(b, old(m.hw), m.hw, p)
    ensures !Wraps(b) ==> Seen(m.hw, Route(b)) == Seen(old(m.hw), Route(b))
    ensures Calm(old(m.hw)) ==> r.Ok? && released && Calm(m.hw)
    decreases b, 2
  {
    released := true;
    match b {
      case Paged(bus, page, sel) => r, released := WriteThenRead(m, bus, sel, page % 0x1_0000, reg);
      case Window(bus, addr, data) => r, released := WriteThenRead(m, bus, addr, reg % 0x1_0000, data);
      case ExtPage(bus, page) =>
        ghost var told;
        r, released, told := ExtRead(m, bus, page, reg);
      case Mmd(bus, devad) => r, released := MmdRead(m, bus, devad, reg);
      case _ => r := ReadBase(m, b, reg);
    }
    RouteIsBottom(b, old(m.hw), m.hw, AbsRead(b, Underneath(b, old(m.hw)), reg).1);
  }

  /** Two writes in a row, told. */
  ghost predicate PairTold(b: Bus, h: Hw, g: Hw, reg0: int, v0: int, reg1: int, v1: int,
                           r: Result<()>, told: (Try, Try)) {
    && told.0.Fair() && told.1.Fair()
    && var p := Tried(b, Seen(h, Route(b)), reg0, v0, told.0);
       if told.0.r.Err? then r == told.0.r && Seen(g, Route(b)) == p
       else r == told.1.r && Seen(g, Route(b)) == Tried(b, p, reg1, v1, told.1)
  }

  /** Two writes, the second only if the first went through. */
  method WritePair(m: Mdio, b: Bus, reg0: int, v0: int, reg1: int, v1: int)
    returns (r: Result<()>, ghost released: bool, ghost told: (Try, Try))
    requires Placed(b, m, m.hw.strap, m.hw.owned)
    modifies m
    ensures SameWiring(old(m.hw), m.hw)
    ensures r.Ok? && released ==>
              var p := AbsWrite(b, Seen(old(m.hw), Route(b)), reg0, v0);
              Only(old(m.hw), m.hw, Route(b), AbsWrite(b, p, reg1, v1))
    ensures !Wraps(b) ==> PairTold(b, old(m.hw), m.hw, reg0, v0, reg1, v1, r, told)
    ensures Calm(old(m.hw)) ==> r.Ok? && released && Calm(m.hw)
    ensures b.PhyBus? ==>
              (r, m.hw) == WirePair(old(m.hw), b.phy % 32, reg0 % 32, v0 % 0x1_0000, reg1 % 32, v1 % 0x1_0000)
    decreases b, 3
  {
    released := false;
    ghost var first, a;
    r, a := Write(m, b, reg0, v0);
    ghost var g := m.hw;
    first := TryOf(b, old(m.hw), g, reg0, v0, r);
    told := (first, NONE);
    if r.Err? {
      return;
    }
    r, released := Write(m, b, reg1, v1);
    told := (first, TryOf(b, g, m.hw, reg1, v1, r));
    released := released && a;
    if r.Ok? && released {
      ghost var p := AbsWrite(b, Seen(old(m.hw), Route(b)), reg0, v0);
      OnlySeen(old(m.hw), g, Route(b), p);
      OnlyThen(old(m.hw), g, m.hw, Route(b), p, AbsWrite(b, p, reg1, v1));
    }
  }

  method WriteThenRead(m: Mdio, b: Bus, reg0: int, v0: int, reg1: int)
    returns (r: Result<Word>, ghost released: bool)
    requires Placed(b, m, m.hw.strap, m.hw.owned)
    modifies m
    ensures SameWiring(old(m.hw), m.hw)
    ensures r.Ok? && released ==>
              var (x, q) := AbsRead(b, AbsWrite(b, Seen(old(m.hw), Route(b)), reg0, v0), reg1);
              r.value == x && Only(old(m.hw), m.hw, Route(b), q)
    ensures Calm(old(m.hw)) ==> r.Ok? && released && Calm(m.hw)
    decreases b, 3
  {
    released := false;
    var _, a :- Write(m, b, reg0, v0);
    ghost var g := m.hw;
    r, released := Read(m, b, reg1);
    released := released && a;
    if r.Ok? && released {
      ghost var p := AbsWrite(b, Seen(old(m.hw), Route(b)), reg0, v0);
      OnlySeen(old(m.hw), g, Route(b), p);
      OnlyThen(old(m.hw), g, m.hw, Route(b), p, AbsRead(b, p, reg1).1);
    }
  }

  method MmdArm(m: Mdio, b: Bus, devad: int, reg: int) returns (r: Result<()>, ghost released: bool)
    requires Placed(b, m, m.hw.strap, m.hw.owned)
    modifies m
    ensures SameWiring(old(m.hw), m.hw)
    ensures r.Ok? && released ==>
              Only(old(m.hw), m.hw, Route(b), AbsArm(b, Seen(old(m.hw), Route(b)), devad, reg))
    ensures Calm(old(m.hw)) ==> r.Ok? && released && Calm(m.hw)
    decreases b, 4
  {
    released := false;
    var _, a, _ :- WritePair(m, b, 13, devad % 32, 14, reg % 0x1_0000);
    ghost var g := m.hw;
    r, released := Write(m, b, 13, devad % 32 + DATA_MODE);
    released := released && a;
    if r.Ok? && released {
      ghost var p := AbsWrite(b, AbsWrite(b, Seen(old(m.hw), Route(b)), 13, devad % 32), 14, reg % 0x1_0000);
      OnlySeen(old(m.hw), g, Route(b), p);
      OnlyThen(old(m.hw), g, m.hw, Route(b), p, AbsWrite(b, p, 13, devad % 32 + DATA_MODE));
    }
  }

  lemma MmdWrote(b: Bus, h: Hw, g: Hw, k: Hw, devad: int, reg: int, v: int)
    requires Only(h, g, Route(b), AbsArm(b, Seen(h, Route(b)), devad, reg))
    requires Wrote(b, g, k, 14, v % 0x1_0000)
    ensures Wrote(Mmd(b, devad), h, k, reg, v)
  {
    var p := AbsArm(b, Seen(h, Route(b)), devad, reg);
    OnlySeen(h, g, Route(b), p);
    OnlyThen(h, g, k, Route(b), p, AbsWrite(b, p, 14, v % 0x1_0000));
  }

  lemma MmdFetched(b: Bus, h: Hw, g: Hw, k: Hw, devad: int, reg: int, x: Word)
    requires Only(h, g, Route(b), AbsArm(b, Seen(h, Route(b)), devad, reg))
    requires Fetched(b, g, k, 14, x)
    ensures Fetched(Mmd(b, devad), h, k, reg, x)
  {
    var p := AbsArm(b, Seen(h, Route(b)), devad, reg);
    OnlySeen(h, g, Route(b), p);
    OnlyThen(h, g, k, Route(b), p, AbsRead(b, p, 14).1);
  }

  method MmdWrite(m: Mdio, b: Bus, devad: int, reg: int, v: int)
    returns (r: Result<()>, ghost released: bool)
    requires Placed(b, m, m.hw.strap, m.hw.owned)
    modifies m
    ensures SameWiring(old(m.hw), m.hw)
    ensures r.Ok? && released ==> Wrote(Mmd(b, devad), old(m.hw), m.hw, reg, v)
    ensures Calm(old(m.hw)) ==> r.Ok? && released && Calm(m.hw)
    decreases b, 5
  {
    released := false;
    var _, a :- MmdArm(m, b, devad, reg);
    ghost var g := m.hw;
    r, released := Write(m, b, 14, v % 0x1_0000);
    released := released && a;
    if r.Ok? && released {
      MmdWrote(b, old(m.hw), g, m.hw, devad, reg, v);
    }
  }

  method MmdRead(m: Mdio, b: Bus, devad: int, reg: int) returns (r: Result<Word>, ghost released: bool)
    requires Placed(b, m, m.hw.strap, m.hw.owned)
    modifies m
    ensures SameWiring(old(m.hw), m.hw)
    ensures r.Ok? && released ==> Fetched(Mmd(b, devad), old(m.hw), m.hw, reg, r.value)
    ensures Calm(old(m.hw)) ==> r.Ok? && released && Calm(m.hw)
    decreases b, 5
  {
    released := false;
    var _, a :- MmdArm(m, b, devad, reg);
    ghost var g := m.hw;
    r, released := Read(m, b, 14);
    released := released && a;
    if r.Ok? && released {
      MmdFetched(b, old(m.hw), g, m.hw, devad, reg, r.value);
    }
  }

  /** ExtPage's closing write: an OSError is swallowed, anything else raised. */
  method Release(m: Mdio, b: Bus) returns (raised: bool, ghost released: bool, ghost told: Try)
    requires Placed(b, m, m.hw.strap, m.hw.owned)
    modifies m
    ensures SameWiring(old(m.hw), m.hw)
    ensures !raised && released ==> Wrote(b, old(m.hw), m.hw, 31, 0)
    ensures raised <==> told.r == Err(CommandError)
    ensures !Wraps(b) ==> Told(b, old(m.hw), m.hw, 31, 0, told)
    ensures b.PhyBus? ==> !raised && m.hw == WireWrite(old(m.hw), b.phy % 32, 31, 0).1
    ensures Calm(old(m.hw)) ==> !raised && released && Calm(m.hw)
    decreases b, 3
  {
    var r, a := Write(m, b, 31, 0);
    raised := r.Err? && r.error == CommandError;
    released := r.Ok? && a;
    told := TryOf(b, old(m.hw), m.hw, 31, 0, r);
  }

  /** The try and finally of ExtPage.write. */
  method WriteAndRelease(m: Mdio, b: Bus, reg: int, v: int)
    returns (r: Result<()>, ghost released: bool, ghost told: (Try, Try))
    requires Placed(b, m, m.hw.strap, m.hw.owned)
    modifies m
    ensures SameWiring(old(m.hw), m.hw)
    ensures r.Ok? && released ==>
              var p := AbsWrite(b, Seen(old(m.hw), Route(b)), reg, v);
              Only(old(m.hw), m.hw, Route(b), AbsWrite(b, p, 31, 0))
    ensures r == if told.1.r == Err(CommandError) then told.1.r else told.0.r
    ensures !Wraps(b) ==>
              && told.0.Fair() && told.1.Fair()
              && Seen(m.hw, Route(b))
                 == Tried(b, Tried(b, Seen(old(m.hw), Route(b)), reg, v, told.0), 31, 0, told.1)
    ensures Calm(old(m.hw)) ==> r.Ok? && released && Calm(m.hw)
    ensures b.PhyBus? ==> (r, m.hw) == WireFinally(old(m.hw), b.phy % 32, reg % 32, v % 0x1_0000)
    decreases b, 4
  {
    var w, a := Write(m, b, reg, v);
    ghost var g := m.hw;
    ghost var c, last;
    var raised;
    raised, c, last := Release(m, b);
    told := (TryOf(b, old(m.hw), g, reg, v, w), last);
    r := if raised then Err(CommandError) else w;
    released := a && c;
    if r.Ok? && released {
      ghost var p := AbsWrite(b, Seen(old(m.hw), Route(b)), reg, v);
      OnlySeen(old(m.hw), g, Route(b), p);
      OnlyThen(old(m.hw), g, m.hw, Route(b), p, AbsWrite(b, p, 31, 0));
    }
  }

  method ReadAndRelease(m: Mdio, b: Bus, reg: int)
    returns (r: Result<Word>, ghost released: bool, ghost told: (Try, Try))
    requires Placed(b, m, m.hw.strap, m.hw.owned)
    modifies m
    ensures SameWiring(old(m.hw), m.hw)
    ensures r.Ok? && released ==>
              var (x, p) := AbsRead(b, Seen(old(m.hw), Route(b)), reg);
              r.value == x && Only(old(m.hw), m.hw, Route(b), AbsWrite(b, p, 31, 0))
    ensures Status(r) == if told.1.r == Err(CommandError) then told.1.r else told.0.r
    ensures !Wraps(b) ==>
              && told.0.Fair() && told.1.Fair()
              && Seen(m.hw, Route(b)) == Tried(b, Seen(old(m.hw), Route(b)), 31, 0, told.1)
    ensures Calm(old(m.hw)) ==> r.Ok? && released && Calm(m.hw)
    decreases b, 4
  {
    var w, a := Read(m, b, reg);
    ghost var g := m.hw;
    ghost var c, last;
    var raised;
    raised, c, last := Release(m, b);
    told := (Try(Status(w), w.Ok?), last);
    r := if raised then Err(CommandError) else w;
    released := a && c;
    if r.Ok? && released {
      ghost var p := AbsRead(b, Seen(old(m.hw), Route(b)), reg).1;
      OnlySeen(old(m.hw), g, Route(b), p);
      OnlyThen(old(m.hw), g, m.hw, Route(b), p, AbsWrite(b, p, 31, 0));
    }
  }

  /** The two arming writes come before the try: if one raises, nothing is released. */
  method ExtWrite(m: Mdio, b: Bus, page: int, reg: int, v: int)
    returns (r: Result<()>, ghost released: bool, ghost told: Tries)
    requires Placed(b, m, m.hw.strap, m.hw.owned)
    modifies m
    ensures SameWiring(old(m.hw), m.hw)
    ensures r.Ok? && released ==> Wrote(ExtPage(b, page), old(m.hw), m.hw, reg, v)
    ensures !Wraps(b) ==>
              && told.Fair()
              && (r, Seen(m.hw, Route(b))) == ExtRun(b, Seen(old(m.hw), Route(b)), page, reg, v, told)
    ensures Calm(old(m.hw)) ==> r.Ok? && released && Calm(m.hw)
    ensures b.PhyBus? ==> (r, m.hw) == ExtOnWire(old(m.hw), b.phy % 32, page, reg % 32, v % 0x1_0000)
    decreases b, 5
  {
    released := false;
    assert page % 256 % 0x1_0000 == page % 256;
    ghost var a, arms, rest;
    r, a, arms := WritePair(m, b, 31, 7, 30, page % 256);
    told := Tries(arms.0, arms.1, NONE, NONE);
    if r.Err? {
      return;
    }
    ghost var g := m.hw;
    r, released, rest := WriteAndRelease(m, b, reg, v);
    told := Tries(arms.0, arms.1, rest.0, rest.1);
    released := released && a;
    if r.Ok? && released {
      ExtWrote(b, old(m.hw), g, m.hw, page, reg, v);
    }
  }

  method ExtRead(m: Mdio, b: Bus, page: int, reg: int)
    returns (r: Result<Word>, ghost released: bool, ghost told: Tries)
    requires Placed(b, m, m.hw.strap, m.hw.owned)
    modifies m
    ensures SameWiring(old(m.hw), m.hw)
    ensures r.Ok? && released ==> Fetched(ExtPage(b, page), old(m.hw), m.hw, reg, r.value)
    ensures !Wraps(b) ==>
              && told.Fair()
              && (Status(r), Seen(m.hw, Route(b))) == ExtReadRun(b, Seen(old(m.hw), Route(b)), page, told)
    ensures Calm(old(m.hw)) ==> r.Ok? && released && Calm(m.hw)
    decreases b, 5
  {
    released := false;
    ghost var a, arms, rest;
    var armed;
    armed, a, arms := WritePair(m, b, 31, 7, 30, page % 256);
    told := Tries(arms.0, arms.1, NONE, NONE);
    if armed.Err? {
      return Err(armed.error), false, told;
    }
    ghost var g := m.hw;
    r, released, rest := ReadAndRelease(m, b, reg);
    told := Tries(arms.0, arms.1, rest.0, rest.1);
    released := released && a;
    if r.Ok? && released {
      ExtFetched(b, old(m.hw), g, m.hw, page, reg, r.value);
    }
  }

  /** mv6390's _SerdesWindow: register `reg` of the Clause 22 image at 0x2000 of device
      class 4, fetched by Clause 45. */
  method SerdesRead(sw: Switch, func: int, port: int, reg: int) returns (r: Result<Word>)
    requires sw.Reaches(28) && 0 <= func < 4
    modifies sw.m
    ensures OnlySwitch(old(sw.m.hw), sw.m.hw)
    ensures r.Ok? ==>
              var p := PhysOf(old(sw.m.hw))[At(func, port)];
              && r.value == Held(p, MmdReg(4, 0x2000 + reg % 32))
              && Reached(old(sw.m.hw), sw.m.hw, At(func, port), Latched(p, 4, 0x2000 + reg % 32))
    ensures Calm(old(sw.m.hw)) ==> r.Ok? && Calm(sw.m.hw)
  {
    r := sw.C45Read(func, port, 4, 0x2000 + reg % 32);
  }
}
