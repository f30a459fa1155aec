/** Adapters around adapters (src/python/cli/access.py): what a nest of two reads and
    writes. The inner one has the last word; only a nest over page 0 reaches what the
    outer one names. */
module NestingTheorems {
  import opened Clause22
  import opened SwitchHw
  import opened Addressing
  import opened AddressingTheorems

  /** An adapter on a bottom bus that suits the PHY and is clear. */
  predicate Stands(b: Bus, p: Phy) {
    && Wraps(b) && !Wraps(b.bus) && Sound(p) && Clear(b, p)
    && match b
       case Paged(_, page, sel) =>
         p.pages.PagesAt? && p.pages.sel == sel % 32 && !(p.pages.ext && page % 0x1_0000 == 7)
       case ExtPage(_, _) => p.pages.PagesAt? && p.pages.ext
       case Mmd(_, _) => p.mmd
       case Window(_, addr, data) => p.port == PortAt(addr % 32, data % 32)
  }

  /** A number the adapter either names content by, or one of its own selectors. */
  predicate Harmless(b: Bus, p: Phy, reg: int) {
    Fits(b, p, reg)
    || (SelfPaging(b) && p.pages.PagesAt? && (reg % 32 == p.pages.sel || (p.pages.ext && reg % 32 == 30)))
  }

  ghost predicate SameContent(p: Phy, q: Phy) {
    SameLayout(p, q) && forall d: Cell :: Content(p, d) ==> Held(q, d) == Held(p, d)
  }

  /** Writing a selector through an adapter that selects its own page moves no content. */
  lemma SelectorWrite(b: Bus, p: Phy, reg: int, v: int)
    requires Stands(b, p) && Harmless(b, p, reg) && !Fits(b, p, reg)
    ensures SameContent(p, AbsWrite(b, p, reg, v)) && Stands(b, AbsWrite(b, p, reg, v))
  {
    if b.Paged? {
      var p1 := p.(direct := p.direct[b.sel % 32 := b.page % 0x1_0000]);
      assert AbsWrite(b.bus, p, b.sel, b.page % 0x1_0000) == p1;
      assert AbsWrite(b, p, reg, v) == p1.(direct := p1.direct[reg % 32 := v % 0x1_0000]);
    } else {
      var p2 := p.(direct := p.direct[31 := 7][30 := b.page % 256]);
      ExtArmed(b.bus, p, b.page);
      var p3 := p2.(direct := p2.direct[reg % 32 := v % 0x1_0000]);
      assert AbsWrite(b.bus, p2, reg, v) == p3;
      assert AbsWrite(b.bus, p3, 31, 0) == p3.(direct := p3.direct[31 := 0]);
    }
  }

  /** So a write through it moves the cell it names or nothing. */
  lemma InnerWrite(b: Bus, p: Phy, reg: int, v: int)
    requires Stands(b, p) && Harmless(b, p, reg)
    ensures var q := AbsWrite(b, p, reg, v);
            && Stands(b, q) && SameLayout(p, q)
            && (if Fits(b, p, reg) then OnlyMoved(p, q, Names(b, reg)) && Held(q, Names(b, reg)) == v % 0x1_0000
                else SameContent(p, q))
  {
    if Fits(b, p, reg) {
      WriteLands(b, p, reg, v);
    } else {
      SelectorWrite(b, p, reg, v);
    }
  }

  /** A cell that a write under another name leaves alone. */
  lemma KeptByWrite(b: Bus, p: Phy, reg: int, v: int, c: Cell)
    requires Stands(b, p) && Harmless(b, p, reg) && Content(p, c)
    requires Fits(b, p, reg) ==> Names(b, reg) != c
    ensures var q := AbsWrite(b, p, reg, v);
            Stands(b, q) && SameLayout(p, q) && Held(q, c) == Held(p, c)
  {
    InnerWrite(b, p, reg, v);
  }

  // ---- over anything but page 0 the inner adapter wins --------------------------

  /** A pair around an adapter: the outer number selects nothing, the data port is the
      inner adapter's register of that number. */
  lemma WindowAround(inner: Bus, p: Phy, addr: int, data: int, reg: int, v: int)
    requires Stands(inner, p) && Harmless(inner, p, addr) && Fits(inner, p, data)
    requires Fits(inner, p, addr) ==> Names(inner, addr) != Names(inner, data)
    ensures var b := Window(inner, addr, data);
            && AbsRead(b, p, reg).0 == Held(p, Names(inner, data))
            && Held(AbsWrite(b, p, reg, v), Names(inner, data)) == v % 0x1_0000
            && Stands(inner, AbsWrite(b, p, reg, v)) && SameLayout(p, AbsWrite(b, p, reg, v))
  {
    NamesContent(inner, p, data);
    KeptByWrite(inner, p, addr, reg % 0x1_0000, Names(inner, data));
    var q := AbsWrite(inner, p, addr, reg % 0x1_0000);
    ReadLands(inner, q, data);
    InnerWrite(inner, q, data, v % 0x1_0000);
    assert v % 0x1_0000 % 0x1_0000 == v % 0x1_0000;
  }

  /** A page around an adapter: the inner adapter's register, whatever page is asked for. */
  lemma PagedAround(inner: Bus, p: Phy, page: int, sel: int, reg: int, v: int)
    requires Stands(inner, p) && Harmless(inner, p, sel) && Fits(inner, p, reg)
    requires Fits(inner, p, sel) ==> Names(inner, sel) != Names(inner, reg)
    ensures var b := Paged(inner, page, sel);
            && AbsRead(b, p, reg).0 == Held(p, Names(inner, reg))
            && Held(AbsWrite(b, p, reg, v), Names(inner, reg)) == v % 0x1_0000
            && Stands(inner, AbsWrite(b, p, reg, v)) && SameLayout(p, AbsWrite(b, p, reg, v))
  {
    NamesContent(inner, p, reg);
    KeptByWrite(inner, p, sel, page % 0x1_0000, Names(inner, reg));
    var q := AbsWrite(inner, p, sel, page % 0x1_0000);
    ReadLands(inner, q, reg);
    InnerWrite(inner, q, reg, v);
  }

  /** An extension page around an adapter likewise. */
  lemma ExtPageAround(inner: Bus, p: Phy, page: int, reg: int, v: int)
    requires Stands(inner, p) && Harmless(inner, p, 31) && Harmless(inner, p, 30) && Fits(inner, p, reg)
    requires Fits(inner, p, 31) ==> Names(inner, 31) != Names(inner, reg)
    requires Fits(inner, p, 30) ==> Names(inner, 30) != Names(inner, reg)
    ensures var b := ExtPage(inner, page);
            && AbsRead(b, p, reg).0 == Held(p, Names(inner, reg))
            && Held(AbsWrite(b, p, reg, v), Names(inner, reg)) == v % 0x1_0000
            && Stands(inner, AbsWrite(b, p, reg, v)) && SameLayout(p, AbsWrite(b, p, reg, v))
  {
    var c := Names(inner, reg);
    NamesContent(inner, p, reg);
    KeptByWrite(inner, p, 31, 7, c);
    var p1 := AbsWrite(inner, p, 31, 7);
    KeptByWrite(inner, p1, 30, page % 256, c);
    var p2 := AbsWrite(inner, p1, 30, page % 256);
    ReadLands(inner, p2, reg);
    InnerWrite(inner, p2, reg, v);
    KeptByWrite(inner, AbsWrite(inner, p2, reg, v), 31, 0, c);
  }

  /** The three arming writes leave the register number in the inner register 14. */
  lemma ArmedAround(inner: Bus, p: Phy, devad: int, reg: int)
    requires Stands(inner, p) && Fits(inner, p, 13) && Fits(inner, p, 14)
    ensures var q := AbsArm(inner, p, devad, reg);
            Stands(inner, q) && SameLayout(p, q) && Held(q, Names(inner, 14)) == reg % 0x1_0000
  {
    var d, n, c := devad % 32, reg % 0x1_0000, Names(inner, 14);
    assert Names(inner, 13) != c && n % 0x1_0000 == n;
    InnerWrite(inner, p, 13, d);
    var p1 := AbsWrite(inner, p, 13, d);
    InnerWrite(inner, p1, 14, n);
    var p2 := AbsWrite(inner, p1, 14, n);
    NamesContent(inner, p2, 14);
    KeptByWrite(inner, p2, 13, d + DATA_MODE, c);
  }

  /** Mmd around an adapter that does not show page 0 reads back the register number it
      was asked for, whatever was written before. */
  lemma MmdAround(inner: Bus, p: Phy, devad: int, reg: int)
    requires Stands(inner, p) && Fits(inner, p, 13) && Fits(inner, p, 14)
    ensures AbsRead(Mmd(inner, devad), p, reg).0 == reg % 0x1_0000
  {
    ArmedAround(inner, p, devad, reg);
    ReadLands(inner, AbsArm(inner, p, devad, reg), 14);
  }

  // ---- over page 0 the outer adapter finds what it names ------------------------------

  /** The PHY with page 0 showing. */
  function OnZero(p: Phy): Phy
    requires p.pages.PagesAt?
  {
    p.(direct := p.direct[p.pages.sel := 0])
  }

  /** An access through Paged with page 0 is a plain access once page 0 shows. */
  lemma PageZero(bus: Bus, sel: int, page: int, p: Phy, reg: int, v: int)
    requires !Wraps(bus) && Sound(p) && p.pages.PagesAt? && p.pages.sel == sel % 32 && page % 0x1_0000 == 0
    ensures AbsWrite(Paged(bus, page, sel), p, reg, v) == AbsWrite(bus, OnZero(p), reg, v)
    ensures AbsRead(Paged(bus, page, sel), p, reg) == AbsRead(bus, OnZero(p), reg)
    ensures reg % 32 != sel % 32 ==>
              var q := AbsWrite(bus, OnZero(p), reg, v);
              SameLayout(p, q) && OnZero(q) == q
  {
    assert AbsWrite(bus, p, sel, page % 0x1_0000) == OnZero(p);
  }

  /** So Mmd around page 0 is Mmd on the PHY with page 0 showing, whatever showed before;
      and an address/data pair likewise. */
  lemma AroundPageZero(bus: Bus, sel: int, page: int, p: Phy, devad: int, addr: int, data: int, reg: int, v: int)
    requires !Wraps(bus) && Sound(p) && p.pages.PagesAt? && p.pages.sel == sel % 32 && page % 0x1_0000 == 0
    ensures var inner := Paged(bus, page, sel);
            && (p.mmd ==>
                  && AbsRead(Mmd(inner, devad), p, reg) == AbsRead(Mmd(bus, devad), OnZero(p), reg)
                  && AbsWrite(Mmd(inner, devad), p, reg, v) == AbsWrite(Mmd(bus, devad), OnZero(p), reg, v))
            && (p.port == PortAt(addr % 32, data % 32) ==>
                  && AbsRead(Window(inner, addr, data), p, reg) == AbsRead(Window(bus, addr, data), OnZero(p), reg)
                  && AbsWrite(Window(inner, addr, data), p, reg, v)
                     == AbsWrite(Window(bus, addr, data), OnZero(p), reg, v))
  {
    if p.mmd {
      MmdAroundZero(bus, sel, page, p, devad, reg, v);
    }
    if p.port == PortAt(addr % 32, data % 32) {
      PageZero(bus, sel, page, p, addr, reg % 0x1_0000);
      var q := AbsWrite(bus, OnZero(p), addr, reg % 0x1_0000);
      PageZero(bus, sel, page, q, data, v % 0x1_0000);
    }
  }

  lemma MmdAroundZero(bus: Bus, sel: int, page: int, p: Phy, devad: int, reg: int, v: int)
    requires !Wraps(bus) && Sound(p) && p.pages.PagesAt? && p.pages.sel == sel % 32 && page % 0x1_0000 == 0
    requires p.mmd
    ensures var inner := Paged(bus, page, sel);
            && AbsRead(Mmd(inner, devad), p, reg) == AbsRead(Mmd(bus, devad), OnZero(p), reg)
            && AbsWrite(Mmd(inner, devad), p, reg, v) == AbsWrite(Mmd(bus, devad), OnZero(p), reg, v)
  {
    var d, n := devad % 32, reg % 0x1_0000;
    PageZero(bus, sel, page, p, 13, d);
    var p1 := AbsWrite(bus, OnZero(p), 13, d);
    PageZero(bus, sel, page, p1, 14, n);
    var p2 := AbsWrite(bus, p1, 14, n);
    PageZero(bus, sel, page, p2, 13, d + DATA_MODE);
    var p3 := AbsWrite(bus, p2, 13, d + DATA_MODE);
    assert p3 == AbsArm(bus, OnZero(p), devad, reg) == AbsArm(Paged(bus, page, sel), p, devad, reg);
    PageZero(bus, sel, page, p3, 14, v % 0x1_0000);
  }

  /** Mmd around page 0 on a PHY left on any page: read after write, and independence. */
  lemma MmdAroundPageZeroReadBack(bus: Bus, sel: int, page: int, p: Phy, devad: int, reg: int, v: int, reg2: int)
    requires !Wraps(bus) && Sound(p) && p.pages.PagesAt? && p.pages.sel == sel % 32 && page % 0x1_0000 == 0
    requires p.mmd
    ensures var b := Mmd(Paged(bus, page, sel), devad);
            AbsRead(b, AbsWrite(b, p, reg, v), reg2).0
            == if reg2 % 0x1_0000 == reg % 0x1_0000 then v % 0x1_0000 else AbsRead(b, p, reg2).0
  {
    var flat, z := Mmd(bus, devad), OnZero(p);
    MmdAroundZero(bus, sel, page, p, devad, reg, v);
    MmdAroundZero(bus, sel, page, p, devad, reg2, v);
    WriteLands(flat, z, reg, v);
    var q := AbsWrite(flat, z, reg, v);
    assert OnZero(q) == q;
    MmdAroundZero(bus, sel, page, q, devad, reg2, v);
    AfterWrite(flat, z, reg, v, flat, reg2);
    ReadLands(flat, z, reg2);
  }
}
