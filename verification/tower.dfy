/** Marvell addressing, the indirection and nothing above it
    (src/python/cli/marvell.py, and the window functions of
    scripts/lib/mv6390.py). Every contract speaks of `View` and `PhysOf`, which do
    not mention whether the switch is strapped single-chip or multi-chip: what a
    layer above gets is the same. */
module Tower {
  import opened Clause22
  import opened SwitchHw

  /** cli.transport: plain Clause 22 on the wire. */
  class Mdio {
    var hw: Hw

    constructor (hw: Hw)
      ensures this.hw == hw
    {
      this.hw := hw;
    }

    method Read(addr: Idx, reg: Idx) returns (r: Result<Word>)
      modifies this
      ensures (r, hw) == WireRead(old(hw), addr, reg)
    {
      var (v, h) := WireRead(hw, addr, reg);
      r, hw := v, h;
    }

    method Write(addr: Idx, reg: Idx, value: Word) returns (r: Result<()>)
      modifies this
      ensures (r, hw) == WireWrite(old(hw), addr, reg, value)
    {
      var (v, h) := WireWrite(hw, addr, reg, value);
      r, hw := v, h;
    }
  }

  /** The command words of the pair: operation, device, register. */
  function SmiWord(op: int, dev: Idx, reg: Idx): Word
    requires op == 1 || op == 2
  {
    0x9000 + op * 0x400 + dev * 32 + reg
  }

  /** The command words of the Global2 window. */
  function WinWord(func: int, c22: int, op: int, dev: Idx, reg: Idx): Word
    requires 0 <= func < 4 && 0 <= c22 < 2 && 0 <= op < 4
  {
    0x8000 + func * 0x2000 + c22 * 0x1000 + op * 0x400 + dev * 32 + reg
  }

  lemma SmiWordFields(op: int, dev: Idx, reg: Idx)
    requires op == 1 || op == 2
    ensures var w := SmiWord(op, dev, reg) - 0x8000;
            w / 0x1000 % 2 == 1 && w / 0x400 % 4 == op && w / 32 % 32 == dev && w % 32 == reg
  {
    var w := SmiWord(op, dev, reg) - 0x8000;
    assert w / 32 == 128 + op * 32 + dev;
    assert w / 0x400 == 4 + op;
    assert w / 0x1000 == 1;
  }

  lemma WinWordFields(func: int, c22: int, op: int, dev: Idx, reg: Idx)
    requires 0 <= func < 4 && 0 <= c22 < 2 && 0 <= op < 4
    ensures var w := WinWord(func, c22, op, dev, reg) - 0x8000;
            && w / 0x2000 % 4 == func && w / 0x1000 % 2 == c22 && w / 0x400 % 4 == op
            && w / 32 % 32 == dev && w % 32 == reg
  {
    var w := WinWord(func, c22, op, dev, reg) - 0x8000;
    assert w / 32 == func * 256 + c22 * 128 + op * 32 + dev;
    assert w / 0x400 == func * 8 + c22 * 4 + op;
    assert w / 0x1000 == func * 2 + c22;
    assert w / 0x2000 == func;
  }

  // ---- the multi-chip pair ---------------------------------------------

  /** Between two states of the wire only the switch's own state moved. */
  ghost predicate OnlySwitch(h: Hw, g: Hw) {
    SameWiring(h, g) && h.wire == g.wire
  }

  lemma SExecKeeps(h: Hw)
    ensures OnlySwitch(h, SExec(h)) && SExec(h).sBusy == h.sBusy
    ensures SExec(h).faults == h.faults && (Prompt(h) ==> Prompt(SExec(h)))
  {
  }

  /** Polling the pair changes nothing the layers above can see. */
  lemma PollPair(h: Hw)
    requires h.strap != 0
    ensures var (r, g) := WireRead(h, h.strap, 0);
            && OnlySwitch(h, g) && View(g) == View(h) && SSettled(g).sData == SSettled(h).sData
            && (r.Ok? && r.value < 0x8000 ==> g.sBusy == h.sBusy == 0)
            && (r.Ok? && r.value >= 0x8000 ==> g.sBusy == h.sBusy - 1)
            && Blamed(h, g, r) && (r.Ok? || r == Err(OsError))
            && (Calm(h) ==> r.Ok? && Calm(g))
  {
    SExecKeeps(h.(ticks := h.ticks + 1));
  }

  /** A command to an idle pair comes to the same whatever its latency. */
  lemma CommandPair(h: Hw, op: int, dev: Idx, reg: Idx)
    requires h.strap != 0 && h.sBusy == 0 && (op == 1 || op == 2)
    ensures var (r, g) := WireWrite(h, h.strap, 0, SmiWord(op, dev, reg));
            && OnlySwitch(h, g)
            && (r.Err? ==> View(g) == View(h))
            && (r.Ok? ==>
                  && View(g) == (if op == 2 then CoreRead(h.core, dev, reg).1
                                 else CoreWrite(h.core, dev, reg, h.sData))
                  && (op == 2 ==> SSettled(g).sData == CoreRead(h.core, dev, reg).0))
            && Blamed(h, g, r) && (r.Ok? || r == Err(OsError))
            && (Calm(h) ==> r.Ok? && Calm(g))
  {
    SmiWordFields(op, dev, reg);
    var g := h.(ticks := h.ticks + 1, sCmd := SmiWord(op, dev, reg) - 0x8000, sBusy := h.sLat(h.sOps),
                sOps := h.sOps + 1);
    SExecKeeps(g);
  }

  /** Single-chip access is the core's own. */
  lemma DirectRead(h: Hw, dev: Idx, reg: Idx)
    requires h.strap == 0 && dev in h.owned
    ensures var (r, g) := WireRead(h, dev, reg);
            && OnlySwitch(h, g) && Blamed(h, g, r) && (Calm(h) ==> r.Ok? && Calm(g))
            && (if r.Ok? then (r.value, View(g)) == CoreRead(View(h), dev, reg) else View(g) == View(h))
  {
  }

  lemma DirectWrite(h: Hw, dev: Idx, reg: Idx, v: Word)
    requires h.strap == 0 && dev in h.owned
    ensures var (r, g) := WireWrite(h, dev, reg, v);
            && OnlySwitch(h, g) && Blamed(h, g, r) && (Calm(h) ==> r.Ok? && Calm(g))
            && View(g) == if r.Ok? then CoreWrite(View(h), dev, reg, v) else View(h)
  {
  }

  // ---- the Global2 windows -----------------------------------------------

  /** Two cores differ at most in the window's command and data registers and the PHYs. */
  ghost predicate WindowOnly(c: Core, d: Core) {
    d.scratch == c.scratch && d.sptr == c.sptr && d.regs == c.regs[G2_DATA := d.regs[G2_DATA]]
  }

  lemma PromptView(h: Hw)
    requires Prompt(h)
    ensures View(h).busy <= 15
  {
    SExecKeeps(h);
  }

  lemma PollWindow(c: Core)
    ensures var (v, d) := CoreRead(c, 28, 24);
            && Settled(d) == Settled(c)
            && (if v < 0x8000 then d.busy == c.busy == 0 else d.busy == c.busy - 1)
  {
  }

  /** What a strobed command does to an idle core, whatever its latency. */
  function Strobed(c: Core, word: Word): Core
    requires word >= 0x8000
  {
    Exec(c.(cmd := word - 0x8000, ops := c.ops + 1, busy := 0))
  }

  /** A command does not look at how long it took. */
  lemma ExecTimeless(c: Core, n: nat)
    ensures Exec(c.(busy := n)) == Exec(c).(busy := n)
  {
  }

  lemma SettledAfter(d: Core, n: nat)
    requires d.busy == 0
    ensures Settled(d.(busy := n)) == if n == 0 then d else Exec(d)
  {
    ExecTimeless(d, n);
    ExecTimeless(d, 0);
    assert d.(busy := 0) == d;
  }

  /** The core right after the command is written. */
  lemma CommandWritten(c: Core, word: Word)
    requires c.busy == 0 && word >= 0x8000
    ensures var d, n := c.(cmd := word - 0x8000, ops := c.ops + 1, busy := 0), c.lat(c.ops);
            CoreWrite(c, 28, 24, word) == if n > 0 then d.(busy := n) else Exec(d)
  {
    assert Slot(28, 24) == G2_CMD;
  }

  lemma StrobeWindow(c: Core, word: Word)
    requires c.busy == 0 && word >= 0x8000
    ensures Settled(CoreWrite(c, 28 % 32, 24 % 32, word % 0x1_0000)) == Strobed(c, word)
  {
    var d := c.(cmd := word - 0x8000, ops := c.ops + 1, busy := 0);
    CommandWritten(c, word);
    SettledAfter(d, c.lat(c.ops));
    ExecTimeless(d, 0);
  }

  /** Which PHY a function and an address name. */
  function At(func: int, addr: int): (i: nat)
    requires 0 <= func < 4
    ensures i < 128
  {
    func * 32 + addr % 32
  }

  /** What one window command does to the PHY it addresses, and to the data register
      `v`: Clause 22 read and write, Clause 45 address cycle, write and read. */
  function CyclePhy(p: Phy, v: Word, c22: int, op: int, reg: Idx): Phy {
    if op == 2 then p
    else if c22 == 1 then PhyWrite(p, reg, v)
    else if op == 0 then p.(latch := p.latch[reg as int := v])
    else Put(p, MmdReg(reg, Get(p.latch, reg)), v)
  }

  function CycleData(p: Phy, v: Word, c22: int, op: int, reg: Idx): Word {
    if op != 2 then v
    else if c22 == 1 then PhyRead(p, reg)
    else Held(p, MmdReg(reg, Get(p.latch, reg)))
  }

  /** From one idle core to the next, only PHY `i` and the data register moved. */
  ghost predicate Acted(c: Core, d: Core, i: nat, p: Phy, v: Word)
    requires i < 128
  {
    d.busy == 0 && WindowOnly(c, d) && d.regs[G2_DATA] == v && d.phys == c.phys[i := p]
  }

  lemma StrobedEffect(c: Core, func: int, c22: int, op: int, addr: Idx, reg: Idx)
    requires 0 <= func < 4 && 0 <= c22 < 2 && 0 <= op < 3 && (c22 == 1 ==> op != 0)
    ensures Acted(c, Strobed(c, WinWord(func, c22, op, addr, reg)), At(func, addr),
                  CyclePhy(c.phys[At(func, addr)], c.regs[G2_DATA], c22, op, reg),
                  CycleData(c.phys[At(func, addr)], c.regs[G2_DATA], c22, op, reg))
  {
    WinWordFields(func, c22, op, addr, reg);
    var d := c.(cmd := WinWord(func, c22, op, addr, reg) - 0x8000, ops := c.ops + 1, busy := 0);
    assert PhyIndex(d.cmd) == At(func, addr);
    assert d.regs == d.regs[G2_DATA := d.regs[G2_DATA]];
    assert d.phys == d.phys[PhyIndex(d.cmd) := d.phys[PhyIndex(d.cmd)]];
  }

  /** The same for the write that starts the command. */
  lemma WindowCommand(c: Core, func: int, c22: int, op: int, addr: int, reg: int)
    requires c.busy == 0 && 0 <= func < 4 && 0 <= c22 < 2 && 0 <= op < 3 && (c22 == 1 ==> op != 0)
    ensures var word := WinWord(func, c22, op, addr % 32, reg % 32) % 0x1_0000;
            Acted(c, Settled(CoreWrite(c, 28 % 32, 24 % 32, word)), At(func, addr),
                  CyclePhy(c.phys[At(func, addr)], c.regs[G2_DATA], c22, op, reg % 32),
                  CycleData(c.phys[At(func, addr)], c.regs[G2_DATA], c22, op, reg % 32))
  {
    assert At(func, addr % 32) == At(func, addr);
    StrobeWindow(c, WinWord(func, c22, op, addr % 32, reg % 32));
    StrobedEffect(c, func, c22, op, addr % 32, reg % 32);
  }

  /** Clause 45 on a PHY: the address cycle, then the data cycle. */
  function Latched(p: Phy, devad: int, reg: int): Phy {
    p.(latch := p.latch[devad % 32 := reg % 0x1_0000])
  }

  function C45Written(p: Phy, devad: int, reg: int, value: int): Phy {
    Put(Latched(p, devad, reg), MmdReg(devad % 32, reg % 0x1_0000), value % 0x1_0000)
  }

  /** A window access, ended well or not, did `result` to PHY `i` or nothing to any. */
  ghost predicate DoneOrNot(h: Hw, g: Hw, i: nat, result: Phy)
    requires i < 128
  {
    PhysOf(g) == PhysOf(h) || PhysOf(g) == PhysOf(h)[i := result]
  }

  /** A window access that ended well did `result` to PHY `i` and nothing else to
      the switch but the window's own command and data. */
  ghost predicate Reached(h: Hw, g: Hw, i: nat, result: Phy)
    requires i < 128
  {
    && PhysOf(g) == PhysOf(h)[i := result] && View(g).busy == 0
    && WindowOnly(Settled(View(h)), View(g))
  }

  /** The window's data register, loaded. */
  function Loaded(c: Core, value: int): Core {
    c.(regs := c.regs[G2_DATA := value % 0x1_0000])
  }

  lemma C45Cycles(c: Core, a: Core, d: Core, i: nat, devad: Idx, reg: int, value: int)
    requires i < 128
    requires Acted(Loaded(c, reg), a, i, Latched(c.phys[i], devad, reg), reg % 0x1_0000)
    requires var l := Loaded(a, value);
             Acted(l, d, i, CyclePhy(l.phys[i], l.regs[G2_DATA], 0, 1, devad),
                   CycleData(l.phys[i], l.regs[G2_DATA], 0, 1, devad))
    ensures d.busy == 0 && WindowOnly(c, d)
    ensures d.phys == c.phys[i := C45Written(c.phys[i], devad, reg, value)]
  {
    assert a.phys[i] == Latched(c.phys[i], devad, reg);
  }

  lemma C45Done(h: Hw, a: Core, g: Hw, i: nat, devad: int, reg: int, value: int)
    requires i < 128
    requires var c := Settled(View(h));
             Acted(Loaded(c, reg), a, i, Latched(c.phys[i], devad, reg), reg % 0x1_0000)
    requires var l := Loaded(a, value);
             Acted(l, View(g), i, CyclePhy(l.phys[i], l.regs[G2_DATA], 0, 1, devad % 32),
                   CycleData(l.phys[i], l.regs[G2_DATA], 0, 1, devad % 32))
    ensures Reached(h, g, i, C45Written(PhysOf(h)[i], devad, reg, value))
  {
    var c, d := Settled(View(h)), View(g);
    assert devad % 32 % 32 == devad % 32;
    C45Cycles(c, a, d, i, devad % 32, reg, value);
  }

  /** Selecting a scratch index and reading it back; the top bit of an index of 0x80
      or more lands on the update bit of the selecting write. */
  /** Of the core only the scratch bytes moved, and their pointer, to the index. */
  ghost predicate OnlyScratch(c: Core, d: Core, index: int) {
    d == c.(sptr := index % 128, scratch := d.scratch)
  }

  /** The word that selects an index and, with bit 15, stores a zero there. */
  lemma ScratchWord(index: int)
    ensures var w := index % 256 * 256 % 0x1_0000;
            && w == index % 256 * 256 && w / 256 % 128 == index % 128 && w % 256 == 0
            && (w >= 0x8000 <==> index % 256 >= 128)
  {
    var w := index % 256 * 256;
    assert w / 256 == index % 256 && w % 256 == 0;
    assert index % 256 % 128 == index % 128;
  }

  lemma ScratchSelect(c: Core, index: int)
    ensures var d := CoreWrite(c, 28 % 32, 26 % 32, index % 256 * 256 % 0x1_0000);
            && d == c.(sptr := index % 128, scratch := d.scratch)
            && d.scratch == (if index % 256 < 128 then c.scratch else c.scratch[index % 128 := 0])
    ensures forall d: Core :: d.sptr == index % 128 ==>
              CoreRead(d, 28 % 32, 26 % 32).1 == d
              && CoreRead(d, 28 % 32, 26 % 32).0 % 256 == Get(d.scratch, index % 128) % 256
  {
    ScratchWord(index);
    assert Slot(28, 26) == G2_SCRATCH;
  }

  lemma ScratchStore(c: Core, index: int, value: int)
    ensures var d := CoreWrite(c, 28 % 32, 26 % 32, (0x8000 + index % 128 * 256 + value % 256) % 0x1_0000);
            d.scratch == c.scratch[index % 128 := value % 256] && OnlyScratch(c, d, index)
  {
    var w := 0x8000 + index % 128 * 256 + value % 256;
    assert w / 256 == 128 + index % 128 && w % 256 == value % 256;
  }

  class Switch {
    const m: Mdio
    const addr: Idx

    constructor (m: Mdio, addr: Idx)
      ensures this.m == m && this.addr == addr
    {
      this.m, this.addr := m, addr;
    }

    /** The address the object was given is the one the switch is strapped to, and
        in single-chip mode the device is one of the switch's own. */
    ghost predicate Reaches(dev: int)
      reads m
    {
      addr == m.hw.strap && (addr == 0 ==> dev % 32 in m.hw.owned)
    }

    method WaitPair() returns (r: Result<()>)
      requires addr != 0 && addr == m.hw.strap
      modifies m
      ensures OnlySwitch(old(m.hw), m.hw) && View(m.hw) == View(old(m.hw))
      ensures r.Ok? ==> m.hw.sBusy == 0 && m.hw.sData == SSettled(old(m.hw)).sData
      ensures r.Ok? ==> old(m.hw.sBusy) <= 15
      ensures r == Err(CommandError) ==> old(m.hw.sBusy) >= 16
      ensures Blamed(old(m.hw), m.hw, r) && (Calm(old(m.hw)) ==> r.Ok? && Calm(m.hw))
    {
      for i := 0 to 16
        invariant OnlySwitch(old(m.hw), m.hw) && View(m.hw) == View(old(m.hw))
        invariant SSettled(m.hw).sData == SSettled(old(m.hw)).sData
        invariant m.hw.faults == old(m.hw.faults)
        invariant m.hw.sBusy + i == old(m.hw.sBusy) && (Prompt(old(m.hw)) ==> Prompt(m.hw))
      {
        PollPair(m.hw);
        var v :- m.Read(addr, 0);
        if v < 0x8000 {
          return Ok(());
        }
      }
      return Err(CommandError);
    }

    /** The data register of an idle pair. */
    method ReadData() returns (r: Result<Word>)
      requires addr != 0 && addr == m.hw.strap && m.hw.sBusy == 0
      modifies m
      ensures OnlySwitch(old(m.hw), m.hw) && View(m.hw) == View(old(m.hw))
      ensures r.Ok? ==> r.value == old(m.hw.sData)
      ensures Blamed(old(m.hw), m.hw, r) && (Calm(old(m.hw)) ==> r.Ok? && Calm(m.hw))
    {
      r := m.Read(addr, 1);
    }

    method WriteData(value: Word) returns (r: Result<()>)
      requires addr != 0 && addr == m.hw.strap && m.hw.sBusy == 0
      modifies m
      ensures OnlySwitch(old(m.hw), m.hw) && View(m.hw) == View(old(m.hw)) && m.hw.sBusy == 0
      ensures r.Ok? ==> m.hw.sData == value
      ensures Blamed(old(m.hw), m.hw, r) && (Calm(old(m.hw)) ==> r.Ok? && Calm(m.hw))
    {
      r := m.Write(addr, 1, value);
    }

    /** A command to an idle pair. */
    method Command(op: int, dev: Idx, reg: Idx) returns (r: Result<()>)
      requires addr != 0 && addr == m.hw.strap && m.hw.sBusy == 0 && (op == 1 || op == 2)
      modifies m
      ensures OnlySwitch(old(m.hw), m.hw)
      ensures r.Err? ==> View(m.hw) == View(old(m.hw))
      ensures r.Ok? && op == 2 ==>
                (SSettled(m.hw).sData, View(m.hw)) == CoreRead(View(old(m.hw)), dev, reg)
      ensures r.Ok? && op == 1 ==> View(m.hw) == CoreWrite(View(old(m.hw)), dev, reg, old(m.hw.sData))
      ensures Blamed(old(m.hw), m.hw, r) && (Calm(old(m.hw)) ==> r.Ok? && Calm(m.hw))
    {
      CommandPair(m.hw, op, dev, reg);
      r := m.Write(addr, 0, SmiWord(op, dev, reg));
    }

    method Read(dev: int, reg: int) returns (r: Result<Word>)
      requires Reaches(dev)
      modifies m
      ensures OnlySwitch(old(m.hw), m.hw)
      ensures r.Ok? ==> (r.value, View(m.hw)) == CoreRead(View(old(m.hw)), dev % 32, reg % 32)
      ensures r.Err? ==> View(m.hw) == View(old(m.hw))
                         || View(m.hw) == CoreRead(View(old(m.hw)), dev % 32, reg % 32).1
      ensures Blamed(old(m.hw), m.hw, r) && (Calm(old(m.hw)) ==> r.Ok? && Calm(m.hw))
    {
      if addr == 0 {
        DirectRead(m.hw, dev % 32, reg % 32);
        r := m.Read(dev % 32, reg % 32);
        return;
      }
      var _ :- WaitPair();
      var _ :- Command(2, dev % 32, reg % 32);
      var _ :- WaitPair();
      r := ReadData();
    }

    method Write(dev: int, reg: int, value: int) returns (r: Result<()>)
      requires Reaches(dev)
      modifies m
      ensures OnlySwitch(old(m.hw), m.hw)
      ensures r.Ok? ==> View(m.hw) == CoreWrite(View(old(m.hw)), dev % 32, reg % 32, value % 0x1_0000)
      ensures r.Err? ==> View(m.hw) == View(old(m.hw))
                         || View(m.hw) == CoreWrite(View(old(m.hw)), dev % 32, reg % 32, value % 0x1_0000)
      ensures Blamed(old(m.hw), m.hw, r) && (Calm(old(m.hw)) ==> r.Ok? && Calm(m.hw))
    {
      if addr == 0 {
        DirectWrite(m.hw, dev % 32, reg % 32, value % 0x1_0000);
        r := m.Write(dev % 32, reg % 32, value % 0x1_0000);
        return;
      }
      var _ :- WaitPair();
      var _ :- WriteData(value % 0x1_0000);
      var _ :- Command(1, dev % 32, reg % 32);
      r := WaitPair();
    }

    // ---- PHYs behind the switch ------------------------------------------

    method PhyWait() returns (r: Result<()>)
      requires Reaches(28)
      modifies m
      ensures OnlySwitch(old(m.hw), m.hw) && Settled(View(m.hw)) == Settled(View(old(m.hw)))
      ensures r.Ok? ==> View(m.hw).busy == 0 && View(m.hw) == Settled(View(old(m.hw)))
      ensures r.Ok? ==> View(old(m.hw)).busy <= 15
      ensures Blamed(old(m.hw), m.hw, r) && (Calm(old(m.hw)) ==> r.Ok? && Calm(m.hw))
    {
      if Prompt(m.hw) {
        PromptView(m.hw);
      }
      for i := 0 to 16
        invariant OnlySwitch(old(m.hw), m.hw) && Settled(View(m.hw)) == Settled(View(old(m.hw)))
        invariant m.hw.faults == old(m.hw.faults)
        invariant View(m.hw).busy + i == View(old(m.hw)).busy && (Prompt(old(m.hw)) ==> Prompt(m.hw))
      {
        PollWindow(View(m.hw));
        var v :- Read(28, 24);
        if v < 0x8000 {
          return Ok(());
        }
      }
      return Err(CommandError);
    }

    /** The data register of an idle window. */
    method Load(value: int) returns (r: Result<()>)
      requires Reaches(28) && View(m.hw).busy == 0
      modifies m
      ensures OnlySwitch(old(m.hw), m.hw)
      ensures r.Ok? ==>
                View(m.hw) == Loaded(View(old(m.hw)), value)
      ensures PhysOf(m.hw) == PhysOf(old(m.hw))
      ensures Blamed(old(m.hw), m.hw, r) && (Calm(old(m.hw)) ==> r.Ok? && Calm(m.hw))
    {
      r := Write(28, 25, value % 0x1_0000);
    }

    /** A command to an idle window. */
    method Issue(func: int, c22: int, op: int, addr: int, reg: int) returns (r: Result<()>)
      requires Reaches(28) && View(m.hw).busy == 0
      requires 0 <= func < 4 && 0 <= c22 < 2 && 0 <= op < 3 && (c22 == 1 ==> op != 0)
      modifies m
      ensures OnlySwitch(old(m.hw), m.hw)
      ensures r.Ok? ==>
                var c := View(old(m.hw));
                var p, v := c.phys[At(func, addr)], c.regs[G2_DATA];
                Acted(c, Settled(View(m.hw)), At(func, addr), CyclePhy(p, v, c22, op, reg % 32),
                      CycleData(p, v, c22, op, reg % 32))
      ensures r.Err? ==>
                var c := View(old(m.hw));
                DoneOrNot(old(m.hw), m.hw, At(func, addr),
                          CyclePhy(c.phys[At(func, addr)], c.regs[G2_DATA], c22, op, reg % 32))
      ensures Blamed(old(m.hw), m.hw, r) && (Calm(old(m.hw)) ==> r.Ok? && Calm(m.hw))
    {
      WindowCommand(View(m.hw), func, c22, op, addr, reg);
      r := Write(28, 24, WinWord(func, c22, op, addr % 32, reg % 32));
    }

    /** A command to an idle window, and the wait for it. */
    method Strobe(func: int, c22: int, op: int, addr: int, reg: int) returns (r: Result<()>)
      requires Reaches(28) && View(m.hw).busy == 0
      requires 0 <= func < 4 && 0 <= c22 < 2 && 0 <= op < 3 && (c22 == 1 ==> op != 0)
      modifies m
      ensures OnlySwitch(old(m.hw), m.hw)
      ensures r.Ok? ==>
                var c := View(old(m.hw));
                var p, v := c.phys[At(func, addr)], c.regs[G2_DATA];
                Acted(c, View(m.hw), At(func, addr), CyclePhy(p, v, c22, op, reg % 32),
                      CycleData(p, v, c22, op, reg % 32))
      ensures r.Err? ==>
                var c := View(old(m.hw));
                DoneOrNot(old(m.hw), m.hw, At(func, addr),
                          CyclePhy(c.phys[At(func, addr)], c.regs[G2_DATA], c22, op, reg % 32))
      ensures Blamed(old(m.hw), m.hw, r) && (Calm(old(m.hw)) ==> r.Ok? && Calm(m.hw))
    {
      var _ :- Issue(func, c22, op, addr, reg);
      r := PhyWait();
    }

    method Fetch() returns (r: Result<Word>)
      requires Reaches(28)
      modifies m
      ensures OnlySwitch(old(m.hw), m.hw)
      ensures r.Ok? ==> View(m.hw) == View(old(m.hw)) && r.value == View(m.hw).regs[G2_DATA]
      ensures PhysOf(m.hw) == PhysOf(old(m.hw))
      ensures Blamed(old(m.hw), m.hw, r) && (Calm(old(m.hw)) ==> r.Ok? && Calm(m.hw))
    {
      r := Read(28, 25);
    }

    /** mv6390's phy_read: a Clause 22 read through the window, on the bus the
        function field selects. */
    method FuncRead(func: int, addr: int, reg: int) returns (r: Result<Word>)
      requires Reaches(28) && 0 <= func < 4
      modifies m
      ensures OnlySwitch(old(m.hw), m.hw)
      ensures r.Ok? ==>
                var p := PhysOf(old(m.hw))[At(func, addr)];
                Reached(old(m.hw), m.hw, At(func, addr), p) && r.value == SwitchHw.PhyRead(p, reg % 32)
      ensures PhysOf(m.hw) == PhysOf(old(m.hw))
      ensures Blamed(old(m.hw), m.hw, r) && (Calm(old(m.hw)) ==> r.Ok? && Calm(m.hw))
    {
      var _ :- PhyWait();
      var _ :- Strobe(func, 1, 2, addr, reg);
      r := Fetch();
    }

    /** mv6390's phy_write. */
    method FuncWrite(func: int, addr: int, reg: int, value: int) returns (r: Result<()>)
      requires Reaches(28) && 0 <= func < 4
      modifies m
      ensures OnlySwitch(old(m.hw), m.hw)
      ensures r.Ok? ==>
                var p := PhysOf(old(m.hw))[At(func, addr)];
                Reached(old(m.hw), m.hw, At(func, addr), SwitchHw.PhyWrite(p, reg % 32, value % 0x1_0000))
      ensures r.Err? ==>
                var p := PhysOf(old(m.hw))[At(func, addr)];
                DoneOrNot(old(m.hw), m.hw, At(func, addr), SwitchHw.PhyWrite(p, reg % 32, value % 0x1_0000))
      ensures Blamed(old(m.hw), m.hw, r) && (Calm(old(m.hw)) ==> r.Ok? && Calm(m.hw))
    {
      var _ :- PhyWait();
      var _ :- Load(value);
      r := Strobe(func, 1, 1, addr, reg);
    }

    /** marvell's own phy_read and phy_write send function 0. */
    method PhyRead(phy: int, reg: int) returns (r: Result<Word>)
      requires Reaches(28)
      modifies m
      ensures OnlySwitch(old(m.hw), m.hw)
      ensures r.Ok? ==>
                var p := PhysOf(old(m.hw))[phy % 32];
                Reached(old(m.hw), m.hw, phy % 32, p) && r.value == SwitchHw.PhyRead(p, reg % 32)
      ensures PhysOf(m.hw) == PhysOf(old(m.hw))
      ensures Blamed(old(m.hw), m.hw, r) && (Calm(old(m.hw)) ==> r.Ok? && Calm(m.hw))
    {
      r := FuncRead(0, phy, reg);
    }

    method PhyWrite(phy: int, reg: int, value: int) returns (r: Result<()>)
      requires Reaches(28)
      modifies m
      ensures OnlySwitch(old(m.hw), m.hw)
      ensures r.Ok? ==>
                var p := PhysOf(old(m.hw))[phy % 32];
                Reached(old(m.hw), m.hw, phy % 32, SwitchHw.PhyWrite(p, reg % 32, value % 0x1_0000))
      ensures r.Err? ==>
                var p := PhysOf(old(m.hw))[phy % 32];
                DoneOrNot(old(m.hw), m.hw, phy % 32, SwitchHw.PhyWrite(p, reg % 32, value % 0x1_0000))
      ensures Blamed(old(m.hw), m.hw, r) && (Calm(old(m.hw)) ==> r.Ok? && Calm(m.hw))
    {
      r := FuncWrite(0, phy, reg, value);
    }

    /** The address cycle both Clause 45 accesses start with. */
    method C45Address(func: int, port: int, devad: int, reg: int) returns (r: Result<()>)
      requires Reaches(28) && 0 <= func < 4
      modifies m
      ensures OnlySwitch(old(m.hw), m.hw)
      ensures r.Ok? ==>
                var c := Settled(View(old(m.hw)));
                Acted(Loaded(c, reg), View(m.hw), At(func, port),
                      Latched(c.phys[At(func, port)], devad, reg), reg % 0x1_0000)
      ensures Blamed(old(m.hw), m.hw, r) && (Calm(old(m.hw)) ==> r.Ok? && Calm(m.hw))
    {
      var _ :- PhyWait();
      var _ :- Load(reg);
      r := Strobe(func, 0, 0, port, devad);
    }

    /** mv6390's phy_read_c45: an address cycle, then a data cycle. */
    method C45Read(func: int, port: int, devad: int, reg: int) returns (r: Result<Word>)
      requires Reaches(28) && 0 <= func < 4
      modifies m
      ensures OnlySwitch(old(m.hw), m.hw)
      ensures r.Ok? ==>
                var p := PhysOf(old(m.hw))[At(func, port)];
                && Reached(old(m.hw), m.hw, At(func, port), Latched(p, devad, reg))
                && r.value == Held(p, MmdReg(devad % 32, reg % 0x1_0000))
      ensures Blamed(old(m.hw), m.hw, r) && (Calm(old(m.hw)) ==> r.Ok? && Calm(m.hw))
    {
      var _ :- C45Address(func, port, devad, reg);
      var _ :- Strobe(func, 0, 2, port, devad);
      r := Fetch();
    }

    /** mv6390's phy_write_c45. */
    method C45Write(func: int, port: int, devad: int, reg: int, value: int) returns (r: Result<()>)
      requires Reaches(28) && 0 <= func < 4
      modifies m
      ensures OnlySwitch(old(m.hw), m.hw)
      ensures r.Ok? ==>
                var p := PhysOf(old(m.hw))[At(func, port)];
                Reached(old(m.hw), m.hw, At(func, port), C45Written(p, devad, reg, value))
      ensures Blamed(old(m.hw), m.hw, r) && (Calm(old(m.hw)) ==> r.Ok? && Calm(m.hw))
    {
      var _ :- C45Address(func, port, devad, reg);
      ghost var a := View(m.hw);
      var _ :- Load(value);
      r := Strobe(func, 0, 1, port, devad);
      if r.Ok? {
        C45Done(old(m.hw), a, m.hw, At(func, port), devad, reg, value);
      }
    }

    // ---- scratch, one byte per index -------------------------------------

    method ScratchRead(index: int) returns (r: Result<int>)
      requires Reaches(28)
      modifies m
      ensures OnlySwitch(old(m.hw), m.hw)
      ensures r.Ok? ==> r.value == Get(View(m.hw).scratch, index % 128) % 256
      ensures r.Ok? ==> OnlyScratch(View(old(m.hw)), View(m.hw), index)
      ensures r.Ok? && index % 256 < 128 ==> View(m.hw).scratch == View(old(m.hw)).scratch
      ensures r.Ok? && index % 256 >= 128 ==>
                View(m.hw).scratch == View(old(m.hw)).scratch[index % 128 := 0]
      ensures Blamed(old(m.hw), m.hw, r) && (Calm(old(m.hw)) ==> r.Ok? && Calm(m.hw))
    {
      ScratchSelect(View(m.hw), index);
      var _ :- Write(28, 26, index % 256 * 256);
      var v :- Read(28, 26);
      r := Ok(v % 256);
    }

    method ScratchWrite(index: int, value: int) returns (r: Result<()>)
      requires Reaches(28)
      modifies m
      ensures OnlySwitch(old(m.hw), m.hw)
      ensures r.Ok? ==> View(m.hw).scratch == View(old(m.hw)).scratch[index % 128 := value % 256]
      ensures r.Ok? ==> OnlyScratch(View(old(m.hw)), View(m.hw), index)
      ensures Blamed(old(m.hw), m.hw, r) && (Calm(old(m.hw)) ==> r.Ok? && Calm(m.hw))
    {
      ScratchStore(View(m.hw), index, value);
      r := Write(28, 26, 0x8000 + index % 128 * 256 + value % 256);
    }
  }
}
