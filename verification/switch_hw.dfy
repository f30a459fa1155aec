/** The hardware the addressing tower talks to (what src/python/cli/marvell.py,
    src/python/cli/access.py and scripts/lib/mv6390.py rely on): PHYs with their
    own indirect registers, a Marvell switch with its Global2 windows, and the
    multi-chip command/data pair in front of it. Commands take as many polls as an
    arbitrary latency says; any wire access may fail. */
module SwitchHw {
  import opened Clause22

  type Idx = r: int | 0 <= r < 32
  type Regs32 = s: seq<Word> | |s| == 32 witness seq(32, _ => 0)
  type Regs1024 = s: seq<Word> | |s| == 1024 witness seq(1024, _ => 0)

  function Get<K>(m: map<K, Word>, k: K): Word {
    if k in m then m[k] else 0
  }

  // ---- a PHY ---------------------------------------------------------

  /** Where an access can land: one of the 32 registers, a register of a page or of an
      extension page, one behind an address/data pair, or a Clause 45 register and the
      pointer a device class keeps to its own. */
  datatype Cell =
    | Plain(reg: Idx)
    | Bank(page: int, at: int)
    | Ext(page: int, at: int)
    | PortReg(n: int)
    | MmdPtr(devad: int)
    | MmdReg(devad: int, at: int)

  /** A page register in front of all the others: 0 shows the registers themselves, and
      with `ext` 7 shows the extension space, whose page register 30 names. */
  datatype Pages = NoPages | PagesAt(sel: Idx, ext: bool)

  datatype Port = NoPort | PortAt(addr: Idx, data: Idx)

  /** What a PHY layers on its 32 registers, any of it at once: pages in front, and behind
      page 0 the Clause 45 registers of sections 22.2.4.3.11 and 22.2.4.3.12 of IEEE
      802.3 at 13 and 14, and an address/data pair. */
  datatype Phy = Phy(
    pages: Pages, mmd: bool, port: Port,
    direct: Regs32, cells: map<Cell, Word>,
    latch: map<int, Word>)           // Clause 45 address latches, one a device class

  /** The page that is showing. */
  function Front(p: Phy): Word {
    if p.pages.NoPages? then 0 else p.direct[p.pages.sel]
  }

  /** Where an access to a register lands as things stand. */
  function Resolve(p: Phy, reg: Idx): Cell {
    if Front(p) != 0 && reg != p.pages.sel then
      if !(p.pages.ext && Front(p) == 7) then Bank(Front(p), reg)
      else if reg == 30 then Plain(30) else Ext(p.direct[30], reg)
    else OnPageZero(p, reg)
  }

  /** The same with page 0 showing. */
  function OnPageZero(p: Phy, reg: Idx): Cell {
    var devad := p.direct[13] % 32;
    if p.mmd && reg == 14 then
      if p.direct[13] < 0x4000 then MmdPtr(devad) else MmdReg(devad, Get(p.cells, MmdPtr(devad)))
    else if p.port.PortAt? && reg == p.port.data then PortReg(p.direct[p.port.addr])
    else Plain(reg)
  }

  function Held(p: Phy, c: Cell): Word {
    if c.Plain? then p.direct[c.reg] else Get(p.cells, c)
  }

  function Put(p: Phy, c: Cell, v: Word): Phy {
    if c.Plain? then p.(direct := p.direct[c.reg := v]) else p.(cells := p.cells[c := v])
  }

  function PhyRead(p: Phy, reg: Idx): Word {
    Held(p, Resolve(p, reg))
  }

  function PhyWrite(p: Phy, reg: Idx, v: Word): Phy {
    Put(p, Resolve(p, reg), v)
  }

  const BARE := Phy(NoPages, false, NoPort, seq(32, _ => 0), map[], map[])

  // ---- the switch core -----------------------------------------------

  /** Global2 is device 28: command 24, data 25, scratch 26. */
  function Slot(dev: Idx, reg: Idx): nat { dev * 32 + reg }
  const G2_CMD := 920
  const G2_DATA := 921
  const G2_SCRATCH := 922

  type Phys = s: seq<Phy> | |s| == 128
    witness seq(128, _ => BARE)

  datatype Core = Core(
    regs: Regs1024,
    cmd: Word, busy: nat,            // the Global2 window: command, polls still to see busy
    phys: Phys,                      // by function and address
    scratch: map<int, Word>, sptr: Idx128,
    lat: nat -> nat, ops: nat)       // polls the n-th window command takes

  type Idx128 = i: int | 0 <= i < 128

  /** The PHY a window command addresses: function 0 internal, 1 external. */
  function PhyIndex(cmd: Word): (i: nat)
    ensures i < 128
  {
    cmd / 0x2000 % 4 * 32 + cmd / 32 % 32
  }

  /** What a window command does when it completes. Bit 12 set is Clause 22; clear,
      the low field is a device class and operation 0 latches a register number. */
  function Exec(c: Core): Core {
    var i, op, reg: Idx := PhyIndex(c.cmd), c.cmd / 0x400 % 4, c.cmd % 32;
    var p, data := c.phys[i], c.regs[G2_DATA];
    var at := MmdReg(reg, Get(p.latch, reg));
    if c.cmd / 0x1000 % 2 == 1 then
      if op == 2 then c.(regs := c.regs[G2_DATA := PhyRead(p, reg)])
      else if op == 1 then c.(phys := c.phys[i := PhyWrite(p, reg, data)])
      else c
    else
      if op == 0 then c.(phys := c.phys[i := p.(latch := p.latch[reg := data])])
      else if op == 1 then c.(phys := c.phys[i := Put(p, at, data)])
      else if op == 2 then c.(regs := c.regs[G2_DATA := Held(p, at)])
      else c
  }

  /** The core once its pending window command has completed. */
  function Settled(c: Core): Core {
    if c.busy > 0 then Exec(c).(busy := 0) else c
  }

  function CoreRead(c: Core, dev: Idx, reg: Idx): (Word, Core) {
    var k := Slot(dev, reg);
    if k == G2_CMD then
      if c.busy == 0 then (c.cmd % 0x8000, c)
      else (0x8000 + c.cmd % 0x8000, if c.busy == 1 then Settled(c) else c.(busy := c.busy - 1))
    else if k == G2_SCRATCH then (c.sptr * 256 + Get(c.scratch, c.sptr) % 256, c)
    else (c.regs[k], c)
  }

  function CoreWrite(c: Core, dev: Idx, reg: Idx, v: Word): Core {
    var k := Slot(dev, reg);
    if k == G2_CMD then
      if c.busy > 0 then c
      else if v < 0x8000 then c.(cmd := v)
      else
        var c := c.(cmd := v - 0x8000, busy := c.lat(c.ops), ops := c.ops + 1);
        if c.busy == 0 then Exec(c) else c
    else if k == G2_SCRATCH then
      var i: Idx128 := v / 256 % 128;
      if v >= 0x8000 then c.(sptr := i, scratch := c.scratch[i := v % 256]) else c.(sptr := i)
    else c.(regs := c.regs[k := v])
  }

  // ---- the wire ------------------------------------------------------

  datatype Error = OsError | CommandError
  datatype Result<T> = Ok(value: T) | Err(error: Error)
  {
    predicate IsFailure() { Err? }
    function PropagateFailure<U>(): Result<U>
      requires Err?
    {
      Err(error)
    }
    function Extract(): T
      requires Ok?
    {
      value
    }
  }

  type Wire = s: seq<Phy> | |s| == 32
    witness seq(32, _ => BARE)

  datatype Hw = Hw(
    strap: Idx,                      // 0: single-chip; else the one address the switch answers at
    owned: set<int>,                 // the addresses a single-chip switch answers at
    core: Core,
    sCmd: Word, sData: Word, sBusy: nat, sLat: nat -> nat, sOps: nat,   // the multi-chip pair
    wire: Wire,                      // PHYs on the wire itself
    fails: nat -> bool, ticks: nat,  // which wire accesses fail, how many there were,
    faults: nat)                     // and how many failed

  /** What a multi-chip command does when it completes; bit 12 set is Clause 22. */
  function SExec(h: Hw): Hw {
    var op, dev: Idx, reg: Idx := h.sCmd / 0x400 % 4, h.sCmd / 32 % 32, h.sCmd % 32;
    if h.sCmd / 0x1000 % 2 == 0 then h
    else if op == 2 then
      var (v, c) := CoreRead(h.core, dev, reg);
      h.(sData := v, core := c)
    else if op == 1 then h.(core := CoreWrite(h.core, dev, reg, h.sData))
    else h
  }

  function SSettled(h: Hw): Hw {
    if h.sBusy > 0 then SExec(h).(sBusy := 0) else h
  }

  function WireRead(h: Hw, addr: Idx, reg: Idx): (Result<Word>, Hw) {
    var h := h.(ticks := h.ticks + 1);
    if h.fails(h.ticks - 1) then (Err(OsError), h.(faults := h.faults + 1))
    else if h.strap != 0 && addr == h.strap then
      if reg == 0 then
        if h.sBusy == 0 then (Ok(h.sCmd % 0x8000), h)
        else (Ok(0x8000 + h.sCmd % 0x8000), if h.sBusy == 1 then SSettled(h) else h.(sBusy := h.sBusy - 1))
      else (Ok(if reg == 1 then h.sData else 0xFFFF), h)
    else if h.strap == 0 && addr in h.owned then
      var (v, c) := CoreRead(h.core, addr, reg);
      (Ok(v), h.(core := c))
    else (Ok(PhyRead(h.wire[addr], reg)), h)
  }

  function WireWrite(h: Hw, addr: Idx, reg: Idx, v: Word): (Result<()>, Hw) {
    var h := h.(ticks := h.ticks + 1);
    if h.fails(h.ticks - 1) then (Err(OsError), h.(faults := h.faults + 1))
    else if h.strap != 0 && addr == h.strap then
      if reg == 1 then (Ok(()), h.(sData := v))
      else if reg != 0 || h.sBusy > 0 then (Ok(()), h)
      else if v < 0x8000 then (Ok(()), h.(sCmd := v))
      else
        var h := h.(sCmd := v - 0x8000, sBusy := h.sLat(h.sOps), sOps := h.sOps + 1);
        (Ok(()), if h.sBusy == 0 then SExec(h) else h)
    else if h.strap == 0 && addr in h.owned then (Ok(()), h.(core := CoreWrite(h.core, addr, reg, v)))
    else (Ok(()), h.(wire := h.wire[addr := PhyWrite(h.wire[addr], reg, v)]))
  }

  // ---- what software above sees ---------------------------------------

  /** The switch's registers once whatever is in flight in the pair is done. */
  function View(h: Hw): Core {
    if h.strap != 0 then SSettled(h).core else h.core
  }

  /** The PHYs behind the switch once both windows are done. */
  function PhysOf(h: Hw): Phys {
    Settled(View(h)).phys
  }

  /** A switch that never answers busy to more than 15 polls in a row. */
  ghost predicate Prompt(h: Hw) {
    && (forall k :: h.sLat(k) <= 15) && (forall k :: h.core.lat(k) <= 15)
    && h.sBusy <= 15 && h.core.busy <= 15
  }

  /** And a wire that does not fail. */
  ghost predicate Calm(h: Hw) {
    (forall k :: !h.fails(k)) && Prompt(h)
  }

  /** What an error means: an OSError that one access on the wire failed, the last one, as
      nothing is tried after it; a CommandError that none did and a wait ran out, which a
      prompt switch never lets happen. */
  ghost predicate Blamed<T>(h: Hw, g: Hw, r: Result<T>) {
    && g.faults == h.faults + (if r.Err? && r.error == OsError then 1 else 0)
    && (Prompt(h) ==> Prompt(g) && !(r.Err? && r.error == CommandError))
  }

  /** What no access changes. */
  ghost predicate SameWiring(h: Hw, g: Hw) {
    && h.strap == g.strap && h.owned == g.owned && h.sLat == g.sLat && h.core.lat == g.core.lat
    && h.fails == g.fails
  }
}
