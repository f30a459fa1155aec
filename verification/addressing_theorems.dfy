/** What the addressing modes promise whoever uses them: the bus underneath does not
    matter, and an adapter over a PHY with the matching scheme is a register space of
    its own. */
module AddressingTheorems {
  import opened Clause22
  import opened SwitchHw
  import opened Tower
  import opened Addressing

  // ---- the bus underneath does not matter ---------------------------------

  /** The same nest over another bottom bus. */
  function Rebased(b: Bus, base: Bus): Bus {
    match b
    case Paged(bus, page, sel) => Paged(Rebased(bus, base), page, sel)
    case ExtPage(bus, page) => ExtPage(Rebased(bus, base), page)
    case Mmd(bus, devad) => Mmd(Rebased(bus, base), devad)
    case Window(bus, addr, data) => Window(Rebased(bus, base), addr, data)
    case _ => base
  }

  lemma {:induction false} RebasedWrite(b: Bus, base: Bus, p: Phy, reg: int, v: int)
    requires !Wraps(base)
    ensures AbsWrite(Rebased(b, base), p, reg, v) == AbsWrite(b, p, reg, v)
    decreases b, 0
  {
    match b
    case Paged(bus, page, sel) =>
      RebasedWrite(bus, base, p, sel, page % 0x1_0000);
      RebasedWrite(bus, base, AbsWrite(bus, p, sel, page % 0x1_0000), reg, v);
    case ExtPage(bus, page) =>
      RebasedWrite(bus, base, p, 31, 7);
      var p1 := AbsWrite(bus, p, 31, 7);
      RebasedWrite(bus, base, p1, 30, page % 256);
      var p2 := AbsWrite(bus, p1, 30, page % 256);
      RebasedWrite(bus, base, p2, reg, v);
      RebasedWrite(bus, base, AbsWrite(bus, p2, reg, v), 31, 0);
    case Mmd(bus, devad) =>
      RebasedArm(bus, base, p, devad, reg);
      RebasedWrite(bus, base, AbsArm(bus, p, devad, reg), 14, v % 0x1_0000);
    case Window(bus, addr, data) =>
      RebasedWrite(bus, base, p, addr, reg % 0x1_0000);
      RebasedWrite(bus, base, AbsWrite(bus, p, addr, reg % 0x1_0000), data, v % 0x1_0000);
    case _ =>
  }

  lemma {:induction false} RebasedArm(b: Bus, base: Bus, p: Phy, devad: int, reg: int)
    requires !Wraps(base)
    ensures AbsArm(Rebased(b, base), p, devad, reg) == AbsArm(b, p, devad, reg)
    decreases b, 1
  {
    RebasedWrite(b, base, p, 13, devad % 32);
    var p1 := AbsWrite(b, p, 13, devad % 32);
    RebasedWrite(b, base, p1, 14, reg % 0x1_0000);
    RebasedWrite(b, base, AbsWrite(b, p1, 14, reg % 0x1_0000), 13, devad % 32 + DATA_MODE);
  }

  lemma {:induction false} RebasedRead(b: Bus, base: Bus, p: Phy, reg: int)
    requires !Wraps(base)
    ensures AbsRead(Rebased(b, base), p, reg) == AbsRead(b, p, reg)
  {
    match b
    case Paged(bus, page, sel) =>
      RebasedWrite(bus, base, p, sel, page % 0x1_0000);
      RebasedRead(bus, base, AbsWrite(bus, p, sel, page % 0x1_0000), reg);
    case ExtPage(bus, page) =>
      RebasedWrite(bus, base, p, 31, 7);
      var p1 := AbsWrite(bus, p, 31, 7);
      RebasedWrite(bus, base, p1, 30, page % 256);
      var p2 := AbsWrite(bus, p1, 30, page % 256);
      RebasedRead(bus, base, p2, reg);
      RebasedWrite(bus, base, AbsRead(bus, p2, reg).1, 31, 0);
    case Mmd(bus, devad) =>
      RebasedArm(bus, base, p, devad, reg);
      RebasedRead(bus, base, AbsArm(bus, p, devad, reg), 14);
    case Window(bus, addr, data) =>
      RebasedWrite(bus, base, p, addr, reg % 0x1_0000);
      RebasedRead(bus, base, AbsWrite(bus, p, addr, reg % 0x1_0000), data);
    case _ =>
  }

  /** One nest over two bottoms, on two sets of hardware however each is strapped, that
      reach PHYs in the same state: every completed access returns the same and leaves
      the two PHYs in the same state. */
  lemma BaseIsTransparent(b: Bus, base: Bus, h1: Hw, g1: Hw, h2: Hw, g2: Hw, reg: int, v: int, x: Word, y: Word)
    requires !Wraps(base)
    requires var c := Rebased(b, base); Seen(h1, Route(b)) == Seen(h2, Route(c))
    ensures var c := Rebased(b, base);
            Wrote(b, h1, g1, reg, v) && Wrote(c, h2, g2, reg, v) ==> Seen(g1, Route(b)) == Seen(g2, Route(c))
    ensures var c := Rebased(b, base);
            Fetched(b, h1, g1, reg, x) && Fetched(c, h2, g2, reg, y) ==>
              x == y && Seen(g1, Route(b)) == Seen(g2, Route(c))
  {
    var c := Rebased(b, base);
    var p := Seen(h1, Route(b));
    RebasedWrite(b, base, p, reg, v);
    RebasedRead(b, base, p, reg);
    if Wrote(b, h1, g1, reg, v) && Wrote(c, h2, g2, reg, v) {
      OnlySeen(h1, g1, Route(b), AbsWrite(b, p, reg, v));
      OnlySeen(h2, g2, Route(c), AbsWrite(c, p, reg, v));
    }
    if Fetched(b, h1, g1, reg, x) && Fetched(c, h2, g2, reg, y) {
      OnlySeen(h1, g1, Route(b), AbsRead(b, p, reg).1);
      OnlySeen(h2, g2, Route(c), AbsRead(c, p, reg).1);
    }
  }

  // ---- what an adapter names --------------------------------------------------

  /** The registers a layout takes for itself are all different. */
  predicate Sound(p: Phy) {
    && (p.pages.PagesAt? ==>
          && !(p.mmd && (p.pages.sel == 13 || p.pages.sel == 14))
          && !(p.port.PortAt? && (p.pages.sel == p.port.addr || p.pages.sel == p.port.data))
          && (p.pages.ext ==>
                p.pages.sel == 31 && !(p.port.PortAt? && (p.port.addr == 30 || p.port.data == 30))))
    && (p.port.PortAt? ==>
          && p.port.addr != p.port.data
          && !(p.mmd && (p.port.addr == 13 || p.port.addr == 14 || p.port.data == 13 || p.port.data == 14)))
  }

  /** A register none of the layers uses. */
  predicate Ordinary(p: Phy, reg: int) {
    && !(p.mmd && (reg == 13 || reg == 14))
    && !(p.port.PortAt? && (reg == p.port.addr || reg == p.port.data))
    && !(p.pages.PagesAt? && (reg == p.pages.sel || (p.pages.ext && reg == 30)))
  }

  /** What holds data, as against the selectors and pointers on the way to it. */
  predicate Content(p: Phy, c: Cell) {
    !c.MmdPtr? && (c.Plain? ==> Ordinary(p, c.reg))
  }

  /** The adapter suits the PHY under it, or there is no adapter, and the number is not
      one of the selectors. */
  predicate Fits(b: Bus, p: Phy, reg: int) {
    && Sound(p) && (Wraps(b) ==> !Wraps(b.bus))
    && match b
       case Paged(_, page, sel) =>
         && p.pages.PagesAt? && p.pages.sel == sel % 32 && reg % 32 != sel % 32
         && !(p.pages.ext && page % 0x1_0000 == 7) && (page % 0x1_0000 == 0 ==> Ordinary(p, reg % 32))
       case ExtPage(_, _) => p.pages.PagesAt? && p.pages.ext && reg % 32 < 30
       case Mmd(_, _) => p.mmd
       case Window(_, addr, data) => p.port == PortAt(addr % 32, data % 32)
       case _ => Ordinary(p, reg % 32)
  }

  /** The cell a bus names, whatever is selected. */
  function Names(b: Bus, reg: int): Cell {
    match b
    case Paged(_, page, _) => if page % 0x1_0000 == 0 then Plain(reg % 32) else Bank(page % 0x1_0000, reg % 32)
    case ExtPage(_, page) => Ext(page % 256, reg % 32)
    case Mmd(_, devad) => MmdReg(devad % 32, reg % 0x1_0000)
    case Window(_, _, _) => PortReg(reg % 0x1_0000)
    case _ => Plain(reg % 32)
  }

  /** An adapter that selects its page at every access. */
  predicate SelfPaging(b: Bus) { b.Paged? || b.ExtPage? }

  /** It finds what it names: it selects its own page, or page 0 is showing. */
  predicate Clear(b: Bus, p: Phy) {
    SelfPaging(b) || Front(p) == 0
  }

  /** The page left showing: Paged leaves its own selected, ExtPage none. */
  function FrontAfter(b: Bus, p: Phy): Word {
    if p.pages.NoPages? then 0
    else match b
      case Paged(_, page, _) => page % 0x1_0000
      case ExtPage(_, _) => 0
      case _ => Front(p)
  }

  predicate SameLayout(p: Phy, q: Phy) {
    q.pages == p.pages && q.mmd == p.mmd && q.port == p.port && q.latch == p.latch
  }

  /** All content but what `c` names is the same. */
  ghost predicate OnlyMoved(p: Phy, q: Phy, c: Cell) {
    SameLayout(p, q) && forall d: Cell :: Content(p, d) && d != c ==> Held(q, d) == Held(p, d)
  }

  /** After Mmd's three writes register 14 is a window on the register they name. */
  lemma Armed(bus: Bus, p: Phy, devad: int, reg: int)
    requires !Wraps(bus) && p.mmd && Sound(p) && Front(p) == 0
    ensures AbsArm(bus, p, devad, reg)
            == p.(direct := p.direct[13 := devad % 32 + 0x4000],
                  cells := p.cells[MmdPtr(devad % 32) := reg % 0x1_0000])
  {
    var d := devad % 32;
    assert d % 32 == d && (d + DATA_MODE) % 32 == d;
    assert p.direct[13 := d][13 := d + DATA_MODE] == p.direct[13 := d + DATA_MODE];
  }

  // Closed forms, adapter by adapter.

  lemma MmdForm(b: Bus, p: Phy, reg: int, v: int)
    requires b.Mmd? && Fits(b, p, reg) && Clear(b, p)
    ensures AbsWrite(b, p, reg, v) == Put(AbsArm(b.bus, p, b.devad, reg), Names(b, reg), v % 0x1_0000)
    ensures AbsRead(b, p, reg) == (Held(p, Names(b, reg)), AbsArm(b.bus, p, b.devad, reg))
  {
    Armed(b.bus, p, b.devad, reg);
    assert (b.devad % 32 + DATA_MODE) % 32 == b.devad % 32 && v % 0x1_0000 % 0x1_0000 == v % 0x1_0000;
  }

  lemma PagedForm(b: Bus, p: Phy, reg: int, v: int)
    requires b.Paged? && Fits(b, p, reg)
    ensures var q := p.(direct := p.direct[b.sel % 32 := b.page % 0x1_0000]);
            && AbsWrite(b, p, reg, v) == Put(q, Names(b, reg), v % 0x1_0000)
            && AbsRead(b, p, reg) == (Held(p, Names(b, reg)), q)
  {
    assert AbsWrite(b.bus, p, b.sel, b.page % 0x1_0000) == p.(direct := p.direct[b.sel % 32 := b.page % 0x1_0000]);
  }

  lemma WindowForm(b: Bus, p: Phy, reg: int, v: int)
    requires b.Window? && Fits(b, p, reg) && Clear(b, p)
    ensures var q := p.(direct := p.direct[b.addr % 32 := reg % 0x1_0000]);
            && AbsWrite(b, p, reg, v) == Put(q, Names(b, reg), v % 0x1_0000)
            && AbsRead(b, p, reg) == (Held(p, Names(b, reg)), q)
  {
    assert reg % 0x1_0000 % 0x1_0000 == reg % 0x1_0000 && v % 0x1_0000 % 0x1_0000 == v % 0x1_0000;
    assert AbsWrite(b.bus, p, b.addr, reg % 0x1_0000) == p.(direct := p.direct[b.addr % 32 := reg % 0x1_0000]);
  }

  lemma ExtPageForm(b: Bus, p: Phy, reg: int, v: int)
    requires b.ExtPage? && Fits(b, p, reg)
    ensures var q := p.(direct := p.direct[31 := 7][30 := b.page % 256][31 := 0]);
            && AbsWrite(b, p, reg, v) == Put(q, Names(b, reg), v % 0x1_0000)
            && AbsRead(b, p, reg) == (Held(p, Names(b, reg)), q)
  {
    var e := AbsWrite(b.bus, AbsWrite(b.bus, p, 31, 7), 30, b.page % 256);
    assert e == p.(direct := p.direct[31 := 7][30 := b.page % 256]);
    assert AbsWrite(b.bus, e, reg, v) == Put(e, Names(b, reg), v % 0x1_0000);
  }

  lemma MmdLands(b: Bus, p: Phy, reg: int, v: int)
    requires b.Mmd? && Fits(b, p, reg) && Clear(b, p)
    ensures var q := AbsWrite(b, p, reg, v);
            Held(q, Names(b, reg)) == v % 0x1_0000 && OnlyMoved(p, q, Names(b, reg)) && Front(q) == FrontAfter(b, p)
    ensures var q := AbsRead(b, p, reg).1;
            && Held(q, Names(b, reg)) == Held(p, Names(b, reg))
            && OnlyMoved(p, q, Names(b, reg)) && Front(q) == FrontAfter(b, p)
  {
    MmdForm(b, p, reg, v);
    Armed(b.bus, p, b.devad, reg);
  }

  /** A write through a clear bus lands in the cell it names and moves no other content. */
  lemma WriteLands(b: Bus, p: Phy, reg: int, v: int)
    requires Fits(b, p, reg) && Clear(b, p)
    ensures var q := AbsWrite(b, p, reg, v);
            && Content(p, Names(b, reg)) && Held(q, Names(b, reg)) == v % 0x1_0000
            && OnlyMoved(p, q, Names(b, reg)) && Front(q) == FrontAfter(b, p)
  {
    match b
    case Mmd(_, _) => MmdLands(b, p, reg, v);
    case Paged(_, _, _) => PagedForm(b, p, reg, v);
    case ExtPage(_, _) => ExtPageForm(b, p, reg, v);
    case Window(_, _, _) => WindowForm(b, p, reg, v);
    case _ =>
  }

  /** A read through a clear bus returns it and moves no content at all. */
  lemma ReadLands(b: Bus, p: Phy, reg: int)
    requires Fits(b, p, reg) && Clear(b, p)
    ensures var (x, q) := AbsRead(b, p, reg);
            && x == Held(p, Names(b, reg)) && Held(q, Names(b, reg)) == x
            && OnlyMoved(p, q, Names(b, reg)) && Front(q) == FrontAfter(b, p)
  {
    match b
    case Mmd(_, _) =>
      MmdForm(b, p, reg, 0);
      MmdLands(b, p, reg, 0);
    case Paged(_, _, _) => PagedForm(b, p, reg, 0);
    case ExtPage(_, _) => ExtPageForm(b, p, reg, 0);
    case Window(_, _, _) => WindowForm(b, p, reg, 0);
    case _ =>
  }

  // ---- one kind of adapter after another ---------------------------------------------

  /** What a bus reads while some page is showing that it did not select. */
  function Astray(b: Bus, p: Phy, reg: int): Word {
    if b.Mmd? then reg % 0x1_0000
    else Held(p, Resolve(p, if b.Window? then b.data % 32 else reg % 32))
  }

  /** With another page showing Mmd reads back the register number it was asked for, an
      address/data pair and a plain read whatever that page holds there. */
  lemma ReadsAstray(b: Bus, p: Phy, reg: int)
    requires Fits(b, p, reg) && !Clear(b, p)
    ensures AbsRead(b, p, reg).0 == Astray(b, p, reg)
    ensures !Resolve(p, if b.Mmd? then 14 else if b.Window? then b.data % 32 else reg % 32).Plain?
  {
    if b.Mmd? {
      ArmedAstray(b.bus, p, b.devad, reg);
    }
  }

  /** Under another page the three writes land in that page's own registers 13 and 14. */
  lemma ArmedAstray(bus: Bus, p: Phy, devad: int, reg: int)
    requires !Wraps(bus) && p.mmd && Sound(p) && Front(p) != 0
    ensures var (q, c, e) := (AbsArm(bus, p, devad, reg), Resolve(p, 13), Resolve(p, 14));
            && q == Put(Put(Put(p, c, devad % 32), e, reg % 0x1_0000), c, devad % 32 + DATA_MODE)
            && !c.Plain? && !e.Plain? && c != e
            && q.direct == p.direct && SameLayout(p, q) && Resolve(q, 14) == e && PhyRead(q, 14) == reg % 0x1_0000
  {
    var d, n := devad % 32, reg % 0x1_0000;
    var c, e := Resolve(p, 13), Resolve(p, 14);
    assert !c.Plain? && !e.Plain? && c != e;
    assert d % 0x1_0000 == d && (d + DATA_MODE) % 0x1_0000 == d + DATA_MODE && n % 0x1_0000 == n;
    var p1 := Put(p, c, d);
    assert AbsWrite(bus, p, 13, d) == p1 && Resolve(p1, 14) == e;
    var p2 := Put(p1, e, n);
    assert AbsWrite(bus, p1, 14, n) == p2 && Resolve(p2, 13) == c;
    assert AbsArm(bus, p, devad, reg) == Put(p2, c, d + DATA_MODE);
  }

  lemma PutNamed(b: Bus, p: Phy, reg: int, x: Word)
    requires Fits(b, p, reg)
    ensures var q := Put(p, Names(b, reg), x);
            && Fits(b, q, reg) && SameLayout(p, q) && Front(q) == Front(p) && Held(q, Names(b, reg)) == x
            && OnlyMoved(p, q, Names(b, reg))
  {
  }

  /** A bus reads the cell it names, whatever that holds, if and only if it is clear. */
  lemma ReadsRightExactly(b: Bus, p: Phy, reg: int)
    requires Fits(b, p, reg)
    ensures (forall x: Word :: AbsRead(b, Put(p, Names(b, reg), x), reg).0 == x) <==> Clear(b, p)
  {
    if Clear(b, p) {
      forall x: Word
        ensures AbsRead(b, Put(p, Names(b, reg), x), reg).0 == x
      {
        PutNamed(b, p, reg, x);
        ReadLands(b, Put(p, Names(b, reg), x), reg);
      }
    } else {
      var other: Word := if Astray(b, p, reg) == 0 then 1 else 0;
      PutNamed(b, p, reg, other);
      ReadsAstray(b, Put(p, Names(b, reg), other), reg);
      StraysElsewhere(b, p, reg, other);
      assert AbsRead(b, Put(p, Names(b, reg), other), reg).0 != other;
    }
  }

  lemma StraysElsewhere(b: Bus, p: Phy, reg: int, x: Word)
    requires Fits(b, p, reg) && !Clear(b, p)
    ensures Astray(b, Put(p, Names(b, reg), x), reg) == Astray(b, p, reg)
  {
    PutNamed(b, p, reg, x);
  }

  lemma NamesContent(b: Bus, p: Phy, reg: int)
    requires Fits(b, p, reg)
    ensures Content(p, Names(b, reg))
  {
  }

  // ---- an access that goes astray ------------------------------------------------------

  /** What a write through a bus that is not clear leaves in the page showing, and where:
      in that page's own registers of the numbers the bus goes through. */
  function StrayWrites(b: Bus, p: Phy, reg: int, v: int): map<Cell, Word> {
    match b
    case Mmd(_, devad) => map[Resolve(p, 13) := devad % 32 + DATA_MODE, Resolve(p, 14) := v % 0x1_0000]
    case Window(_, addr, data) =>
      map[Resolve(p, addr % 32) := reg % 0x1_0000, Resolve(p, data % 32) := v % 0x1_0000]
    case _ => map[Resolve(p, reg % 32) := v % 0x1_0000]
  }

  /** A read through Mmd or a pair writes there too. */
  function StrayReads(b: Bus, p: Phy, reg: int): map<Cell, Word> {
    match b
    case Mmd(_, devad) => map[Resolve(p, 13) := devad % 32 + DATA_MODE, Resolve(p, 14) := reg % 0x1_0000]
    case Window(_, addr, _) => map[Resolve(p, addr % 32) := reg % 0x1_0000]
    case _ => map[]
  }

  function Overlaid(p: Phy, m: map<Cell, Word>): Phy {
    p.(cells := p.cells + m)
  }

  /** The whole effect of an access that goes astray. */
  lemma StrayForm(b: Bus, p: Phy, reg: int, v: int)
    requires Fits(b, p, reg) && !Clear(b, p)
    ensures AbsWrite(b, p, reg, v) == Overlaid(p, StrayWrites(b, p, reg, v))
    ensures AbsRead(b, p, reg) == (Astray(b, p, reg), Overlaid(p, StrayReads(b, p, reg)))
  {
    ReadsAstray(b, p, reg);
    if b.Mmd? {
      StrayMmd(b.bus, p, b.devad, reg, v);
    } else if b.Window? {
      StrayWindow(b.bus, p, b.addr, b.data, reg, v);
    } else {
      assert p.cells[Resolve(p, reg % 32) := v % 0x1_0000] == p.cells + StrayWrites(b, p, reg, v);
      assert p.cells + map[] == p.cells;
    }
  }

  lemma StrayMmd(bus: Bus, p: Phy, devad: int, reg: int, v: int)
    requires Fits(Mmd(bus, devad), p, reg) && !Clear(Mmd(bus, devad), p)
    ensures var b := Mmd(bus, devad);
            && AbsWrite(b, p, reg, v) == Overlaid(p, StrayWrites(b, p, reg, v))
            && AbsRead(b, p, reg).1 == Overlaid(p, StrayReads(b, p, reg))
  {
    var c, e, m, n, w := Resolve(p, 13), Resolve(p, 14), devad % 32 + DATA_MODE, reg % 0x1_0000, v % 0x1_0000;
    ArmedAstray(bus, p, devad, reg);
    var q := AbsArm(bus, p, devad, reg);
    ThreeThenOne(p.cells, c, e, devad % 32, n, m, w);
    assert Put(q, e, w % 0x1_0000) == AbsWrite(bus, q, 14, w);
  }

  lemma ThreeThenOne(cells: map<Cell, Word>, c: Cell, e: Cell, d: Word, n: Word, m: Word, w: Word)
    requires c != e
    ensures cells[c := d][e := n][c := m] == cells + map[c := m, e := n]
    ensures (cells + map[c := m, e := n])[e := w] == cells + map[c := m, e := w]
  {
  }

  lemma StrayWindow(bus: Bus, p: Phy, addr: int, data: int, reg: int, v: int)
    requires Fits(Window(bus, addr, data), p, reg) && !Clear(Window(bus, addr, data), p)
    ensures var b := Window(bus, addr, data);
            && AbsWrite(b, p, reg, v) == Overlaid(p, StrayWrites(b, p, reg, v))
            && AbsRead(b, p, reg).1 == Overlaid(p, StrayReads(b, p, reg))
  {
    var b := Window(bus, addr, data);
    var c, e, n, w := Resolve(p, addr % 32), Resolve(p, data % 32), reg % 0x1_0000, v % 0x1_0000;
    assert !c.Plain? && !e.Plain? && c != e && n % 0x1_0000 == n && w % 0x1_0000 == w;
    var q := Put(p, c, n);
    assert AbsWrite(bus, p, addr, n) == q && Resolve(q, data % 32) == e;
    assert p.cells[c := n] == p.cells + StrayReads(b, p, reg);
    assert p.cells[c := n][e := w] == p.cells + StrayWrites(b, p, reg, v);
  }

  /** What goes astray goes into other registers of the page showing: never the cell the
      bus names, and the selectors stay as they are. */
  lemma StrayMissesItsName(b: Bus, p: Phy, reg: int, v: int)
    requires Fits(b, p, reg) && !Clear(b, p)
    ensures forall c :: c in StrayWrites(b, p, reg, v) || c in StrayReads(b, p, reg) ==> c.Bank? || c.Ext?
    ensures Names(b, reg) !in StrayWrites(b, p, reg, v)
  {
  }

  /** A write lands where it is meant to if and only if the bus is clear. */
  lemma WritesRightExactly(b: Bus, p: Phy, reg: int)
    requires Fits(b, p, reg)
    ensures (forall v: Word :: Held(AbsWrite(b, p, reg, v), Names(b, reg)) == v) <==> Clear(b, p)
  {
    if Clear(b, p) {
      forall v: Word
        ensures Held(AbsWrite(b, p, reg, v), Names(b, reg)) == v
      {
        WriteLands(b, p, reg, v);
      }
    } else {
      var other: Word := if Held(p, Names(b, reg)) == 0 then 1 else 0;
      StrayForm(b, p, reg, other);
      StrayMissesItsName(b, p, reg, other);
      assert Held(AbsWrite(b, p, reg, other), Names(b, reg)) != other;
    }
  }

  // ---- when one bus disturbs another ----------------------------------------------------

  /** What a register that held `was` holds once `b` has written, wherever that went. */
  function HeldAfterWrite(b: Bus, p: Phy, reg: int, v: int, c: Cell, was: Word): Word {
    if Clear(b, p) then if c == Names(b, reg) then v % 0x1_0000 else was
    else
      var m := StrayWrites(b, p, reg, v);
      if c in m then m[c] else was
  }

  function HeldAfterRead(b: Bus, p: Phy, reg: int, c: Cell, was: Word): Word {
    var m := StrayReads(b, p, reg);
    if !Clear(b, p) && c in m then m[c] else was
  }

  /** It still finds its own registers: it selects its page, or page 0 shows. */
  predicate FindsItsWay(b2: Bus, b: Bus, p: Phy) {
    SelfPaging(b2) || FrontAfter(b, p) == 0
  }

  /** The same layout fits the same buses. */
  lemma FitsKept(b: Bus, p: Phy, q: Phy, reg: int)
    requires Fits(b, p, reg) && SameLayout(p, q)
    ensures Fits(b, q, reg)
  {
  }

  lemma ReadsOneWay(b: Bus, p: Phy, reg: int)
    requires Fits(b, p, reg)
    ensures AbsRead(b, p, reg).0 == if Clear(b, p) then Held(p, Names(b, reg)) else Astray(b, p, reg)
  {
    if Clear(b, p) {
      ReadLands(b, p, reg);
    } else {
      ReadsAstray(b, p, reg);
    }
  }

  /** The state a write through any bus leaves behind. */
  lemma WriteLeaves(b: Bus, p: Phy, reg: int, v: int, c: Cell)
    requires Fits(b, p, reg) && Content(p, c)
    ensures var q := AbsWrite(b, p, reg, v);
            && SameLayout(p, q) && Front(q) == FrontAfter(b, p)
            && Held(q, c) == HeldAfterWrite(b, p, reg, v, c, Held(p, c))
  {
    if Clear(b, p) {
      WriteLands(b, p, reg, v);
    } else {
      StrayForm(b, p, reg, v);
      StrayMissesItsName(b, p, reg, v);
    }
  }

  lemma ReadLeaves(b: Bus, p: Phy, reg: int, c: Cell)
    requires Fits(b, p, reg) && Content(p, c)
    ensures var q := AbsRead(b, p, reg).1;
            && SameLayout(p, q) && Front(q) == FrontAfter(b, p)
            && Held(q, c) == HeldAfterRead(b, p, reg, c, Held(p, c))
  {
    if Clear(b, p) {
      ReadLands(b, p, reg);
    } else {
      StrayForm(b, p, reg, 0);
      StrayMissesItsName(b, p, reg, 0);
    }
  }

  /** So what any bus reads after a write through any other. */
  lemma AfterWrite(b: Bus, p: Phy, reg: int, v: int, b2: Bus, reg2: int)
    requires Fits(b, p, reg) && Fits(b2, p, reg2)
    ensures var (q, c) := (AbsWrite(b, p, reg, v), Names(b2, reg2));
            && Fits(b2, q, reg2) && Front(q) == FrontAfter(b, p)
            && Held(q, c) == HeldAfterWrite(b, p, reg, v, c, Held(p, c))
            && AbsRead(b2, q, reg2).0 == if FindsItsWay(b2, b, p) then Held(q, c) else Astray(b2, q, reg2)
  {
    var q := AbsWrite(b, p, reg, v);
    NamesContent(b2, p, reg2);
    WriteLeaves(b, p, reg, v, Names(b2, reg2));
    FitsKept(b2, p, q, reg2);
    ReadsOneWay(b2, q, reg2);
  }

  lemma AfterRead(b: Bus, p: Phy, reg: int, b2: Bus, reg2: int)
    requires Fits(b, p, reg) && Fits(b2, p, reg2)
    ensures var (q, c) := (AbsRead(b, p, reg).1, Names(b2, reg2));
            && Fits(b2, q, reg2) && Front(q) == FrontAfter(b, p)
            && Held(q, c) == HeldAfterRead(b, p, reg, c, Held(p, c))
            && AbsRead(b2, q, reg2).0 == if FindsItsWay(b2, b, p) then Held(q, c) else Astray(b2, q, reg2)
  {
    var q := AbsRead(b, p, reg).1;
    NamesContent(b2, p, reg2);
    ReadLeaves(b, p, reg, Names(b2, reg2));
    FitsKept(b2, p, q, reg2);
    ReadsOneWay(b2, q, reg2);
  }

  /** `b2` reads the register it names after a write through `b`, whatever was in it and
      whatever is written: the value written if the write landed there, and what was in it
      before if not. */
  ghost predicate Undisturbed(b: Bus, p: Phy, reg: int, b2: Bus, reg2: int) {
    var c := Names(b2, reg2);
    forall x: Word, v: Word ::
      AbsRead(b2, AbsWrite(b, Put(p, c, x), reg, v), reg2).0
      == if Clear(b, p) && c == Names(b, reg) then v else x
  }

  ghost predicate UndisturbedByRead(b: Bus, p: Phy, reg: int, b2: Bus, reg2: int) {
    var c := Names(b2, reg2);
    forall x: Word :: AbsRead(b2, AbsRead(b, Put(p, c, x), reg).1, reg2).0 == x
  }

  /** Putting something in a register that holds content changes no selector. */
  lemma PutMovesNoSelector(p: Phy, c: Cell, x: Word, b: Bus, reg: int)
    requires Content(p, c) && Fits(b, p, reg)
    ensures var q := Put(p, c, x);
            && Fits(b, q, reg) && Front(q) == Front(p) && Clear(b, q) == Clear(b, p)
            && FrontAfter(b, q) == FrontAfter(b, p) && Held(q, c) == x
            && (p.pages.PagesAt? && p.pages.ext ==> q.direct[30] == p.direct[30])
  {
  }

  lemma PutStraysAlike(p: Phy, c: Cell, x: Word, b: Bus, reg: int, v: int)
    requires Content(p, c) && Fits(b, p, reg) && !Clear(b, p)
    ensures var q := Put(p, c, x);
            StrayWrites(b, q, reg, v) == StrayWrites(b, p, reg, v) && StrayReads(b, q, reg) == StrayReads(b, p, reg)
  {
    PutMovesNoSelector(p, c, x, b, reg);
  }

  /** What `b2` reads after a write, given what the register it names held before. */
  lemma ReadsAfterWrite(b: Bus, p: Phy, reg: int, v: int, b2: Bus, reg2: int, x: Word)
    requires Fits(b, p, reg) && Fits(b2, p, reg2)
    ensures var c := Names(b2, reg2);
            var q := AbsWrite(b, Put(p, c, x), reg, v);
            && Fits(b2, q, reg2) && Front(q) == FrontAfter(b, p)
            && AbsRead(b2, q, reg2).0 == if FindsItsWay(b2, b, p) then HeldAfterWrite(b, p, reg, v, c, x)
                                         else Astray(b2, q, reg2)
  {
    var c := Names(b2, reg2);
    NamesContent(b2, p, reg2);
    PutMovesNoSelector(p, c, x, b, reg);
    PutMovesNoSelector(p, c, x, b2, reg2);
    if !Clear(b, p) {
      PutStraysAlike(p, c, x, b, reg, v);
    }
    AfterWrite(b, Put(p, c, x), reg, v, b2, reg2);
  }

  lemma ReadsAfterRead(b: Bus, p: Phy, reg: int, b2: Bus, reg2: int, x: Word)
    requires Fits(b, p, reg) && Fits(b2, p, reg2)
    ensures var c := Names(b2, reg2);
            var q := AbsRead(b, Put(p, c, x), reg).1;
            && Fits(b2, q, reg2) && Front(q) == FrontAfter(b, p)
            && AbsRead(b2, q, reg2).0 == if FindsItsWay(b2, b, p) then HeldAfterRead(b, p, reg, c, x)
                                         else Astray(b2, q, reg2)
  {
    var c := Names(b2, reg2);
    NamesContent(b2, p, reg2);
    PutMovesNoSelector(p, c, x, b, reg);
    PutMovesNoSelector(p, c, x, b2, reg2);
    if !Clear(b, p) {
      PutStraysAlike(p, c, x, b, reg, 0);
    }
    AfterRead(b, Put(p, c, x), reg, b2, reg2);
  }

  /** The same page shows, with the same in it. */
  ghost predicate ShowsAlike(q: Phy, s: Phy) {
    && SameLayout(q, s) && Front(q) == Front(s)
    && (q.pages.PagesAt? && q.pages.ext ==> q.direct[30] == s.direct[30])
    && forall d: Cell :: d.Bank? || d.Ext? ==> Held(q, d) == Held(s, d)
  }

  lemma AstrayAlike(b: Bus, q: Phy, s: Phy, reg: int)
    requires Fits(b, q, reg) && !Clear(b, q) && ShowsAlike(q, s)
    ensures Astray(b, q, reg) == Astray(b, s, reg)
  {
  }

  /** A bus that leaves a page showing leaves it the same whatever a register outside of
      all pages holds. */
  lemma LeavesAlike(b: Bus, p: Phy, reg: int, v: int, c: Cell, x: Word)
    requires Fits(b, p, reg) && FrontAfter(b, p) != 0 && Content(p, c) && !c.Bank? && !c.Ext?
    ensures ShowsAlike(AbsWrite(b, p, reg, v), AbsWrite(b, Put(p, c, x), reg, v))
    ensures ShowsAlike(AbsRead(b, p, reg).1, AbsRead(b, Put(p, c, x), reg).1)
  {
    if Clear(b, p) {
      PagedLeavesAlike(b, p, reg, v, c, x);
    } else {
      StrayLeavesAlike(b, p, reg, v, c, x);
    }
  }

  lemma PagedLeavesAlike(b: Bus, p: Phy, reg: int, v: int, c: Cell, x: Word)
    requires Fits(b, p, reg) && b.Paged? && FrontAfter(b, p) != 0 && Content(p, c) && !c.Bank? && !c.Ext?
    ensures ShowsAlike(AbsWrite(b, p, reg, v), AbsWrite(b, Put(p, c, x), reg, v))
    ensures ShowsAlike(AbsRead(b, p, reg).1, AbsRead(b, Put(p, c, x), reg).1)
  {
    PutMovesNoSelector(p, c, x, b, reg);
    PagedForm(b, p, reg, v);
    PagedForm(b, Put(p, c, x), reg, v);
  }

  lemma StrayLeavesAlike(b: Bus, p: Phy, reg: int, v: int, c: Cell, x: Word)
    requires Fits(b, p, reg) && !Clear(b, p) && Content(p, c) && !c.Bank? && !c.Ext?
    ensures ShowsAlike(AbsWrite(b, p, reg, v), AbsWrite(b, Put(p, c, x), reg, v))
    ensures ShowsAlike(AbsRead(b, p, reg).1, AbsRead(b, Put(p, c, x), reg).1)
  {
    PutMovesNoSelector(p, c, x, b, reg);
    PutStraysAlike(p, c, x, b, reg, v);
    StrayForm(b, p, reg, v);
    StrayForm(b, Put(p, c, x), reg, v);
    StrayMissesItsName(b, p, reg, v);
    OverlaidAlike(p, c, x, StrayWrites(b, p, reg, v));
    OverlaidAlike(p, c, x, StrayReads(b, p, reg));
  }

  lemma OverlaidAlike(p: Phy, c: Cell, x: Word, m: map<Cell, Word>)
    requires Sound(p) && Content(p, c) && !c.Bank? && !c.Ext? && forall d :: d in m ==> d.Bank? || d.Ext?
    ensures ShowsAlike(Overlaid(p, m), Overlaid(Put(p, c, x), m))
  {
  }

  /** Where a write goes does not depend on what is written. */
  lemma StraysTheSame(b: Bus, p: Phy, reg: int, v: int, c: Cell)
    ensures c in StrayWrites(b, p, reg, v) <==> c in StrayWrites(b, p, reg, 0)
  {
  }

  lemma ReadsItsOwn(b: Bus, p: Phy, reg: int, v: Word, b2: Bus, reg2: int, x: Word)
    requires Fits(b, p, reg) && Fits(b2, p, reg2) && FindsItsWay(b2, b, p)
    requires Clear(b, p) || Names(b2, reg2) !in StrayWrites(b, p, reg, 0)
    ensures AbsRead(b2, AbsWrite(b, Put(p, Names(b2, reg2), x), reg, v), reg2).0
            == if Clear(b, p) && Names(b2, reg2) == Names(b, reg) then v else x
  {
    StraysTheSame(b, p, reg, v, Names(b2, reg2));
    ReadsAfterWrite(b, p, reg, v, b2, reg2, x);
  }

  /** Any two buses on one PHY, of the same kind or not, whatever page is showing: a write
      through the first leaves the second undisturbed if and only if the second finds its
      way and the first did not go astray into the register it names. */
  lemma UndisturbedExactly(b: Bus, p: Phy, reg: int, b2: Bus, reg2: int)
    requires Fits(b, p, reg) && Fits(b2, p, reg2)
    ensures Undisturbed(b, p, reg, b2, reg2)
            <==> FindsItsWay(b2, b, p) && (Clear(b, p) || Names(b2, reg2) !in StrayWrites(b, p, reg, 0))
  {
    if FindsItsWay(b2, b, p) && (Clear(b, p) || Names(b2, reg2) !in StrayWrites(b, p, reg, 0)) {
      forall x: Word, v: Word
        ensures AbsRead(b2, AbsWrite(b, Put(p, Names(b2, reg2), x), reg, v), reg2).0
                == if Clear(b, p) && Names(b2, reg2) == Names(b, reg) then v else x
      {
        ReadsItsOwn(b, p, reg, v, b2, reg2, x);
      }
    } else {
      Disturbed(b, p, reg, b2, reg2);
    }
  }

  lemma Disturbed(b: Bus, p: Phy, reg: int, b2: Bus, reg2: int)
    requires Fits(b, p, reg) && Fits(b2, p, reg2)
    requires !FindsItsWay(b2, b, p) || (!Clear(b, p) && Names(b2, reg2) in StrayWrites(b, p, reg, 0))
    ensures !Undisturbed(b, p, reg, b2, reg2)
  {
    var c := Names(b2, reg2);
    ReadsAfterWrite(b, p, reg, 0, b2, reg2, 0);
    ReadsAfterWrite(b, p, reg, 0, b2, reg2, 1);
    if !FindsItsWay(b2, b, p) {
      NamesContent(b2, p, reg2);
      LeavesAlike(b, p, reg, 0, c, 0);
      LeavesAlike(b, p, reg, 0, c, 1);
      var q := AbsWrite(b, p, reg, 0);
      AfterWrite(b, p, reg, 0, b2, reg2);
      AstrayAlike(b2, q, AbsWrite(b, Put(p, c, 0), reg, 0), reg2);
      AstrayAlike(b2, q, AbsWrite(b, Put(p, c, 1), reg, 0), reg2);
    }
    assert AbsRead(b2, AbsWrite(b, Put(p, c, 0), reg, 0), reg2).0 != 0
           || AbsRead(b2, AbsWrite(b, Put(p, c, 1), reg, 0), reg2).0 != 1;
  }

  /** The same after a read through the first, which writes selectors and goes astray as a
      write does. */
  lemma UndisturbedByReadExactly(b: Bus, p: Phy, reg: int, b2: Bus, reg2: int)
    requires Fits(b, p, reg) && Fits(b2, p, reg2)
    ensures UndisturbedByRead(b, p, reg, b2, reg2)
            <==> FindsItsWay(b2, b, p) && (Clear(b, p) || Names(b2, reg2) !in StrayReads(b, p, reg))
  {
    if FindsItsWay(b2, b, p) && (Clear(b, p) || Names(b2, reg2) !in StrayReads(b, p, reg)) {
      forall x: Word
        ensures AbsRead(b2, AbsRead(b, Put(p, Names(b2, reg2), x), reg).1, reg2).0 == x
      {
        ReadsAfterRead(b, p, reg, b2, reg2, x);
      }
    } else {
      DisturbedByRead(b, p, reg, b2, reg2);
    }
  }

  lemma DisturbedByRead(b: Bus, p: Phy, reg: int, b2: Bus, reg2: int)
    requires Fits(b, p, reg) && Fits(b2, p, reg2)
    requires !FindsItsWay(b2, b, p) || (!Clear(b, p) && Names(b2, reg2) in StrayReads(b, p, reg))
    ensures !UndisturbedByRead(b, p, reg, b2, reg2)
  {
    var c := Names(b2, reg2);
    ReadsAfterRead(b, p, reg, b2, reg2, 0);
    ReadsAfterRead(b, p, reg, b2, reg2, 1);
    if !FindsItsWay(b2, b, p) {
      NamesContent(b2, p, reg2);
      LeavesAlike(b, p, reg, 0, c, 0);
      LeavesAlike(b, p, reg, 0, c, 1);
      var q := AbsRead(b, p, reg).1;
      AfterRead(b, p, reg, b2, reg2);
      AstrayAlike(b2, q, AbsRead(b, Put(p, c, 0), reg).1, reg2);
      AstrayAlike(b2, q, AbsRead(b, Put(p, c, 1), reg).1, reg2);
    }
    assert AbsRead(b2, AbsRead(b, Put(p, c, 0), reg).1, reg2).0 != 0
           || AbsRead(b2, AbsRead(b, Put(p, c, 1), reg).1, reg2).0 != 1;
  }

  /** A concrete pair: a page left selected by Paged, and Mmd on the same PHY returns the
      register number instead of the register. */
  lemma PagedBlindsMmd(bus: Bus, p: Phy, page: int, sel: int, reg: int, v: int, devad: int, reg2: int)
    requires Fits(Paged(bus, page, sel), p, reg) && Fits(Mmd(bus, devad), p, reg2) && page % 0x1_0000 != 0
    ensures AbsRead(Mmd(bus, devad), AbsWrite(Paged(bus, page, sel), p, reg, v), reg2).0 == reg2 % 0x1_0000
  {
    AfterWrite(Paged(bus, page, sel), p, reg, v, Mmd(bus, devad), reg2);
  }

  /** And with that page showing, writing through Mmd destroys what it holds at 13 and 14,
      while the register it names keeps its value. */
  lemma MmdSpoilsPage(bus: Bus, p: Phy, page: int, sel: int, devad: int, reg: int, v: int)
    requires Fits(Paged(bus, page, sel), p, 13) && Fits(Paged(bus, page, sel), p, 14)
    requires Fits(Mmd(bus, devad), p, reg) && Front(p) == page % 0x1_0000 != 0
    ensures var (paged, mmd) := (Paged(bus, page, sel), Mmd(bus, devad));
            var q := AbsWrite(mmd, p, reg, v);
            && AbsRead(paged, q, 13).0 == devad % 32 + DATA_MODE && AbsRead(paged, q, 14).0 == v % 0x1_0000
            && Held(q, Names(mmd, reg)) == Held(p, Names(mmd, reg))
  {
    var paged, mmd := Paged(bus, page, sel), Mmd(bus, devad);
    AfterWrite(mmd, p, reg, v, paged, 13);
    AfterWrite(mmd, p, reg, v, paged, 14);
    StrayForm(mmd, p, reg, v);
  }

  /** Named at its own selector, Paged reads the page back: read after write holds
      there only for the page itself, and everywhere else always. */
  lemma PagedReadBack(bus: Bus, page: int, sel: int, p: Phy, reg: int, v: int)
    requires !Wraps(bus) && Sound(p) && p.pages.PagesAt? && p.pages.sel == sel % 32
    ensures AbsRead(Paged(bus, page, sel), AbsWrite(Paged(bus, page, sel), p, reg, v), reg).0 == v % 0x1_0000
            <==> reg % 32 != sel % 32 || v % 0x1_0000 == page % 0x1_0000
  {
    var q := p.(direct := p.direct[sel % 32 := page % 0x1_0000]);
    assert AbsWrite(bus, p, sel, page % 0x1_0000) == q;
    if reg % 32 != sel % 32 {
      HoldsWhatIsWritten(q, reg % 32, v % 0x1_0000);
      var r := PhyWrite(q, reg % 32, v % 0x1_0000);
      assert AbsWrite(bus, r, sel, page % 0x1_0000) == r;
    }
  }

  /** A register other than the page's own reads back what was written, on whatever layer
      that landed. */
  lemma HoldsWhatIsWritten(p: Phy, reg: Idx, v: Word)
    requires Sound(p) && p.pages.PagesAt? && reg != p.pages.sel
    ensures var q := PhyWrite(p, reg, v);
            PhyRead(q, reg) == v && SameLayout(p, q) && q.direct[p.pages.sel] == p.direct[p.pages.sel]
  {
    var c := Resolve(p, reg);
    assert Resolve(Put(p, c, v), reg) == c;
  }

  lemma ExtArmed(bus: Bus, p: Phy, page: int)
    requires !Wraps(bus) && Sound(p) && p.pages == PagesAt(31, true)
    ensures AbsWrite(bus, AbsWrite(bus, p, 31, 7), 30, page % 256)
            == p.(direct := p.direct[31 := 7][30 := page % 256])
  {
    assert AbsWrite(bus, p, 31, 7) == p.(direct := p.direct[31 := 7]);
  }

  /** Asked for its own selectors ExtPage reads what it has just written to them. */
  lemma ExtPageSelectors(bus: Bus, p: Phy, page: int, reg: int)
    requires !Wraps(bus) && Sound(p) && p.pages == PagesAt(31, true) && reg % 32 >= 30
    ensures AbsRead(ExtPage(bus, page), p, reg).0 == if reg % 32 == 31 then 7 else page % 256
  {
    ExtArmed(bus, p, page);
  }

  lemma {:induction false} LayoutKept(b: Bus, p: Phy, reg: int, v: int)
    requires b.ExtPage? && !Wraps(b.bus)
    ensures SameLayout(p, AbsWrite(b, p, reg, v))
  {
    var p1 := AbsWrite(b.bus, p, 31, 7);
    var p2 := AbsWrite(b.bus, p1, 30, b.page % 256);
    var p3 := AbsWrite(b.bus, p2, reg, v);
    assert SameLayout(p, p1) && SameLayout(p, p2) && SameLayout(p, p3);
  }

  /** ExtPage likewise at 0x1E, where it reads the page, and at 0x1F, where it reads 7. */
  lemma ExtPageReadBack(bus: Bus, page: int, p: Phy, reg: int, v: int)
    requires !Wraps(bus) && Sound(p) && p.pages == PagesAt(31, true)
    ensures AbsRead(ExtPage(bus, page), AbsWrite(ExtPage(bus, page), p, reg, v), reg).0 == v % 0x1_0000
            <==> reg % 32 < 30 || (reg % 32 == 30 && v % 0x1_0000 == page % 256)
                 || (reg % 32 == 31 && v % 0x1_0000 == 7)
  {
    var b := ExtPage(bus, page);
    if reg % 32 < 30 {
      AfterWrite(b, p, reg, v, b, reg);
    } else {
      LayoutKept(b, p, reg, v);
      ExtPageSelectors(bus, AbsWrite(b, p, reg, v), page, reg);
    }
  }

  // ---- Clause 45 both ways ------------------------------------------------------

  /** Written by a Clause 45 cycle through the switch's window, read by Mmd through
      Clause 22, and the other way round; the two name the same registers. */
  lemma Clause45BothWays(b: Bus, p: Phy, devad: int, reg: int, v: int, reg2: int)
    requires b.Mmd? && Fits(b, p, reg) && Clear(b, p) && b.devad % 32 == devad % 32
    ensures AbsRead(b, C45Written(p, devad, reg, v), reg2).0
            == if reg2 % 0x1_0000 == reg % 0x1_0000 then v % 0x1_0000 else AbsRead(b, p, reg2).0
    ensures var c := MmdReg(devad % 32, reg2 % 0x1_0000);
            Held(AbsWrite(b, p, reg, v), c) == if reg2 % 0x1_0000 == reg % 0x1_0000 then v % 0x1_0000 else Held(p, c)
  {
    ReadLands(b, C45Written(p, devad, reg, v), reg2);
    ReadLands(b, p, reg2);
    WriteLands(b, p, reg, v);
  }

  /** A Clause 45 write through the window, then a read of the same register or of any
      other, of any PHY behind the switch: the value written, or what was there before.
      On a calm wire both succeed, in either strapping. */
  method WriteThenReadClause45(sw: Switch, func: int, port: int, devad: int, reg: int, v: int,
                               func2: int, port2: int, devad2: int, reg2: int)
    returns (r: Result<Word>)
    requires sw.Reaches(28) && 0 <= func < 4 && 0 <= func2 < 4
    modifies sw.m
    ensures OnlySwitch(old(sw.m.hw), sw.m.hw)
    ensures r.Ok? ==>
              r.value == if At(func2, port2) == At(func, port) && devad2 % 32 == devad % 32
                            && reg2 % 0x1_0000 == reg % 0x1_0000 then v % 0x1_0000
                         else Held(PhysOf(old(sw.m.hw))[At(func2, port2)], MmdReg(devad2 % 32, reg2 % 0x1_0000))
    ensures Calm(old(sw.m.hw)) ==> r.Ok? && Calm(sw.m.hw)
  {
    var _ :- sw.C45Write(func, port, devad, reg, v);
    r := sw.C45Read(func2, port2, devad2, reg2);
  }

  // ---- ExtPage when the wire fails -------------------------------------------------

  /** Only a write to 0x1F changes it. */
  lemma SelectorWrites(p: Phy, reg: Idx, v: Word)
    requires Sound(p) && p.pages == PagesAt(31, true)
    ensures var q := PhyWrite(p, reg, v);
            Sound(q) && q.pages == p.pages && q.direct[31] == if reg == 31 then v else p.direct[31]
  {
  }

  /** A write through ExtPage to a PHY on the wire, from a deselected extension space:
      it reports success exactly if the two arming writes and the access went through,
      and it leaves the extension space selected exactly if the first arming write went
      through and either the second failed, which nothing releases, or the release did. */
  lemma ExtPageFailure(h: Hw, a: Idx, page: int, reg: Idx, v: Word)
    requires if h.strap != 0 then a != h.strap else a !in h.owned
    requires Sound(h.wire[a]) && h.wire[a].pages == PagesAt(31, true) && h.wire[a].direct[31] == 0 && reg != 31
    ensures var (r, g) := ExtOnWire(h, a, page, reg, v);
            var t := h.ticks;
            && (r.Ok? <==> !h.fails(t) && !h.fails(t + 1) && !h.fails(t + 2))
            && (g.wire[a].direct[31] != 0 <==> !h.fails(t) && (h.fails(t + 1) || h.fails(t + 3)))
  {
    var p, t := h.wire[a], h.ticks;
    var (_, g1) := WireWrite(h, a, 31, 7);
    TryOnWire(h, a, 31, 7);
    if !h.fails(t) {
      var (_, g2) := WireWrite(g1, a, 30, page % 256);
      TryOnWire(g1, a, 30, page % 256);
      if !h.fails(t + 1) {
        var (_, g3) := WireWrite(g2, a, reg, v);
        TryOnWire(g2, a, reg, v);
        TryOnWire(g3, a, 31, 0);
      }
    }
  }

  /** One write to that PHY, as far as its selector goes. */
  lemma TryOnWire(h: Hw, a: Idx, reg: Idx, v: Word)
    requires if h.strap != 0 then a != h.strap else a !in h.owned
    requires Sound(h.wire[a]) && h.wire[a].pages == PagesAt(31, true)
    ensures var (r, g) := WireWrite(h, a, reg, v);
            && g.ticks == h.ticks + 1 && g.fails == h.fails && g.strap == h.strap && g.owned == h.owned
            && (r.Ok? <==> !h.fails(h.ticks))
            && Sound(g.wire[a]) && g.wire[a].pages == PagesAt(31, true)
            && g.wire[a].direct[31]
               == if !h.fails(h.ticks) && reg == 31 then v else h.wire[a].direct[31]
  {
    SelectorWrites(h.wire[a], reg, v);
  }

  // ---- and over any bottom bus ---------------------------------------------------------

  /** One tried write, as far as the selector goes. */
  lemma TriedSelector(b: Bus, p: Phy, reg: int, v: int, t: Try)
    requires !Wraps(b) && Sound(p) && p.pages == PagesAt(31, true)
    ensures var q := Tried(b, p, reg, v, t);
            && Sound(q) && q.pages == p.pages
            && q.direct[31] == if t.took && reg % 32 == 31 then v % 0x1_0000 else p.direct[31]
  {
    SelectorWrites(p, reg % 32, v % 0x1_0000);
  }

  /** What ExtPage reports, given what becomes of its accesses. */
  predicate Reports(t: Tries, r: Result<()>) {
    && (r.Ok? <==> t.first.r.Ok? && t.second.r.Ok? && t.access.r.Ok? && t.release.r != Err(CommandError))
    && (r == Err(CommandError) <==>
          || t.first.r == Err(CommandError)
          || (t.first.r.Ok? && t.second.r == Err(CommandError))
          || (t.first.r.Ok? && t.second.r.Ok?
              && (t.access.r == Err(CommandError) || t.release.r == Err(CommandError))))
  }

  /** The selector it leaves. */
  function Leaves(t: Tries, before: Word): Word {
    if !t.first.took then before
    else if t.first.r.Err? || t.second.r.Err? || !t.release.took then 7
    else 0
  }

  lemma SilentlySelected(t: Tries, before: Word, r: Result<()>)
    requires t.Fair() && Reports(t, r) && r.Ok?
    ensures Leaves(t, before) != 0 <==> t.release == Try(Err(OsError), false)
  {
    if t.release.r.Err? {
      match t.release.r.error
      case OsError =>
      case CommandError =>
    }
  }

  /** A write through ExtPage over any bottom bus, behind a switch as on the wire, given
      what becomes of its four writes: when it reports success; when it raises a
      CommandError, also one of the release in place of what the access said; what the
      selector holds in the end; and that a success leaves the extension space selected
      exactly if the release failed with an OSError and did not go through. */
  lemma ExtPageOutcome(b: Bus, p: Phy, page: int, reg: int, v: int, t: Tries)
    requires !Wraps(b) && Sound(p) && p.pages == PagesAt(31, true) && reg % 32 != 31 && t.Fair()
    ensures var (r, q) := ExtRun(b, p, page, reg, v, t);
            && Reports(t, r) && q.direct[31] == Leaves(t, p.direct[31])
            && (r.Ok? ==> (q.direct[31] != 0 <==> t.release == Try(Err(OsError), false)))
  {
    TriedSelector(b, p, 31, 7, t.first);
    var p1 := Tried(b, p, 31, 7, t.first);
    TriedSelector(b, p1, 30, page % 256, t.second);
    var p2 := Tried(b, p1, 30, page % 256, t.second);
    TriedSelector(b, p2, reg, v, t.access);
    TriedSelector(b, Tried(b, p2, reg, v, t.access), 31, 0, t.release);
    var (r, _) := ExtRun(b, p, page, reg, v, t);
    if r.Ok? {
      SilentlySelected(t, p.direct[31], r);
    }
  }

  /** A read likewise, of any register. */
  lemma ExtPageReadOutcome(b: Bus, p: Phy, page: int, t: Tries)
    requires !Wraps(b) && Sound(p) && p.pages == PagesAt(31, true) && t.Fair()
    ensures var (r, q) := ExtReadRun(b, p, page, t);
            && Reports(t, r) && q.direct[31] == Leaves(t, p.direct[31])
            && (r.Ok? ==> (q.direct[31] != 0 <==> t.release == Try(Err(OsError), false)))
  {
    TriedSelector(b, p, 31, 7, t.first);
    var p1 := Tried(b, p, 31, 7, t.first);
    TriedSelector(b, p1, 30, page % 256, t.second);
    TriedSelector(b, Tried(b, p1, 30, page % 256, t.second), 31, 0, t.release);
    var (r, _) := ExtReadRun(b, p, page, t);
    if r.Ok? {
      SilentlySelected(t, p.direct[31], r);
    }
  }
}
