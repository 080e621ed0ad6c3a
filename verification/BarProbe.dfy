/**
  Sizing the base address registers of a PCI function by writing all ones to them, and cutting them out of the memory.
 */
module BarProbe {
  import opened Division
  import opened HoledRanges
  import opened MemoryHoles
  import opened MemoryRanges
  import opened PageTables

  const TWO32: nat := 0x1_0000_0000

  function Pow2(n: nat): (p: nat)
    ensures p > 0
  {
    if n == 0 then 1 else 2 * Pow2(n - 1)
  }

  lemma {:induction false} Pow2Divides(m: nat, n: nat)
    requires m <= n
    ensures Pow2(n) % Pow2(m) == 0 && Pow2(m) <= Pow2(n)
  {
    if m < n {
      Pow2Divides(m, n - 1);
      var q := Pow2(n - 1) / Pow2(m);
      assert Pow2(n) == Pow2(m) * (2 * q) by {
        assert Pow2(n - 1) == Pow2(m) * q;
      }
      DivMod(Pow2(n), Pow2(m), 2 * q, 0);
    } else {
      DivMod(Pow2(n), Pow2(m), 1, 0);
    }
  }

  lemma Pow2Values()
    ensures Pow2(2) == 4 && Pow2(4) == 16 && Pow2(32) == TWO32 && Pow2(64) == TWO64
  {
    assert Pow2(4) == 16 && Pow2(8) == 256 && Pow2(12) == 4096 && Pow2(16) == 65536;
    assert Pow2(20) == 0x10_0000 && Pow2(24) == 0x100_0000 && Pow2(28) == 0x1000_0000 && Pow2(32) == TWO32;
    assert Pow2(36) == 0x10_0000_0000 && Pow2(40) == 0x100_0000_0000 && Pow2(44) == 0x1000_0000_0000;
    assert Pow2(48) == 0x1_0000_0000_0000 && Pow2(52) == 0x10_0000_0000_0000 && Pow2(56) == 0x100_0000_0000_0000;
    assert Pow2(60) == 0x1000_0000_0000_0000 && Pow2(64) == TWO64;
  }

  // The device, after section 6.2.5.1 of the PCI Local Bus Specification 3.0

  /** What decodes an address: a memory register of `bits` bits has its four low bits wired to its type. */
  datatype Shape =
    | Unused
    | Io(bits: nat)
    | Memory32(bits: nat, kind: nat)
    | Memory64(bits: nat, kind: nat)

  predicate Possible(b: Shape) {
    match b
    case Unused => true
    case Io(bits) => 2 <= bits <= 32
    case Memory32(bits, kind) => 4 <= bits < 32 && kind < 16 && kind % 2 == 0 && (kind / 2) % 4 != 2
    case Memory64(bits, kind) => 4 <= bits < 64 && kind < 16 && kind % 2 == 0 && (kind / 2) % 4 == 2
  }

  /** One 32-bit register: the bits below `grain` are wired to `fixed`, the others are stored. */
  datatype Wiring = Wiring(grain: nat, fixed: nat) {
    predicate Possible() {
      0 < grain <= TWO32 && TWO32 % grain == 0 && fixed < grain
    }

    predicate Holds(value: nat) {
      value < TWO32 && (grain > 0 ==> value % grain == fixed)
    }

    function Stored(v: nat): nat
      requires grain > 0
    {
      v - v % grain + fixed
    }
  }

  function Wirings(b: Shape): seq<Wiring> {
    match b
    case Unused => [Wiring(TWO32, 0)]
    case Io(bits) => [Wiring(Pow2(bits), 1)]
    case Memory32(bits, kind) => [Wiring(Pow2(bits), kind)]
    case Memory64(bits, kind) =>
      if bits <= 32 then [Wiring(Pow2(bits), kind), Wiring(1, 0)] else [Wiring(TWO32, kind), Wiring(Pow2(bits - 32), 0)]
  }

  function AllWirings(shapes: seq<Shape>): seq<Wiring> {
    if shapes == [] then [] else Wirings(shapes[0]) + AllWirings(shapes[1..])
  }

  lemma StoringIsHolding(w: Wiring, v: nat)
    requires w.Possible() && v < TWO32
    ensures w.Holds(w.Stored(v))
  {
    assert w.grain * (TWO32 / w.grain) == TWO32 && w.grain * (v / w.grain) == v - v % w.grain;
    BlockBelow(v, w.grain, TWO32 / w.grain);
    DivMod(w.Stored(v), w.grain, v / w.grain, w.fixed);
  }

  /** Written with all ones, a register reads as the two's complement of its grain, with the wired bits. */
  lemma AllOnes(w: Wiring)
    requires w.Possible()
    ensures w.Stored(TWO32 - 1) == TWO32 - w.grain + w.fixed
  {
    var n := TWO32 / w.grain;
    assert w.grain * (n - 1) == w.grain * n - w.grain;
    DivMod(TWO32 - 1, w.grain, n - 1, w.grain - 1);
  }

  /** A register holds a multiple of its grain, and the block that starts there ends within 32 bits. */
  lemma NaturallyAligned(w: Wiring, v: nat)
    requires w.Possible() && w.Holds(v)
    ensures w.fixed <= v && v - w.fixed + w.grain <= TWO32
    ensures (v - w.fixed) % w.grain == 0
  {
    BlockBelow(v, w.grain, TWO32 / w.grain);
    DivMod(v - w.fixed, w.grain, v / w.grain, 0);
  }

  /**
    The command register as the set of its bits that are on; this bit makes the function answer to memory addresses.
   */
  const COMMAND_MEMORY: nat := 1

  /** A PCI function: its command register, and the base address registers from offset 0x10 on. */
  class PciFunction {
    const wiring: seq<Wiring>
    /** The command bits that can be written, and the values of the others. */
    const writable: set<nat>
    const wired: set<nat>
    var command: set<nat>
    var bar: seq<nat>

    constructor (wiring: seq<Wiring>, writable: set<nat>, wired: set<nat>, command: set<nat>, bar: seq<nat>)
      requires |bar| == |wiring| && forall i :: 0 <= i < |bar| ==> wiring[i].Possible() && wiring[i].Holds(bar[i])
      requires command - writable == wired && COMMAND_MEMORY !in wired
      ensures Valid() && this.wiring == wiring && this.bar == bar && this.command == command
    {
      this.wiring, this.writable, this.wired, this.command, this.bar := wiring, writable, wired, command, bar;
    }

    ghost predicate Valid()
      reads this
    {
      && |bar| == |wiring|
      && (forall i :: 0 <= i < |bar| ==> wiring[i].Possible() && wiring[i].Holds(bar[i]))
      && command - writable == wired && COMMAND_MEMORY !in wired
    }

    predicate HasRegister(offset: nat) {
      0x10 <= offset && offset % 4 == 0 && (offset - 0x10) / 4 < |wiring|
    }

    method Read(offset: nat) returns (v: nat)
      requires Valid() && HasRegister(offset)
      ensures v == bar[(offset - 0x10) / 4]
    {
      v := bar[(offset - 0x10) / 4];
    }

    /** A register is written only while the function does not answer to memory addresses. */
    method Write(offset: nat, v: nat)
      requires Valid() && HasRegister(offset) && v < TWO32
      requires COMMAND_MEMORY !in command
      modifies `bar
      ensures Valid() && bar == old(bar)[(offset - 0x10) / 4 := wiring[(offset - 0x10) / 4].Stored(v)]
    {
      StoringIsHolding(wiring[(offset - 0x10) / 4], v);
      bar := bar[(offset - 0x10) / 4 := wiring[(offset - 0x10) / 4].Stored(v)];
    }

    method WriteCommand(v: set<nat>)
      requires Valid()
      modifies `command
      ensures Valid()
      ensures v == {} ==> command == wired
      ensures v - writable == wired ==> command == v
    {
      command := (command - writable) + (v * writable);
    }
  }

  // The driver

  /** A list that the driver can cut the holes `todo` into: the array has room for what results. */
  ghost predicate Ready(info: MemoryInfo, todo: seq<Hole>)
    reads info, info.run
  {
    && info.Valid() && Sorted(info.Runs()) && Within(info.Runs(), 0, TWO64 - 1)
    && |InsertHoles(info.Runs(), todo)| <= info.run.Length
  }

  /** The next hole: the list keeps its shape, and fits the array because the final list does. */
  lemma NextHole(runs: seq<Run>, first: nat, last: nat, todo: seq<Hole>)
    requires Sorted(runs) && Within(runs, 0, TWO64 - 1) && first <= last
    ensures Sorted(Inserted(runs, first, last)) && Within(Inserted(runs, first, last), 0, TWO64 - 1)
    ensures InsertHoles(runs, [Rounded(first, last)]) == Inserted(runs, first, last)
    ensures InsertHoles(runs, [Rounded(first, last)] + todo) == InsertHoles(Inserted(runs, first, last), todo)
    ensures |Inserted(runs, first, last)| <= |InsertHoles(runs, [Rounded(first, last)] + todo)|
    ensures forall r :: r in runs ==> r.End() < TWO64
  {
    hide InsertHoles, InsertHole, Sorted;
    NoHoleIsEmpty(runs, first, last);
    ShapeIsKept(runs, PageStart(first), PageEnd(last), 0, TWO64 - 1);
    OneHole(runs, first, last);
    HolesOfTwoLists(runs, [Rounded(first, last)], todo);
    ListGrows(Inserted(runs, first, last), todo);
  }

  lemma OneHole(runs: seq<Run>, first: nat, last: nat)
    ensures InsertHoles(runs, [Rounded(first, last)]) == Inserted(runs, first, last)
  {
    NoHoleIsEmpty(runs, first, last);
    var h := Rounded(first, last);
    assert InsertHoles(InsertHole(runs, h.start, h.end), [h][1..]) == InsertHole(runs, h.start, h.end);
  }

  lemma NoHoles(runs: seq<Run>)
    ensures InsertHoles(runs, []) == runs
  {
  }

  predicate MemoryWiring(w: Wiring) {
    w.grain >= 16 && w.grain % 16 == 0 && w.fixed < 16
  }

  lemma MaskIsTheSize(w: Wiring, v: nat)
    requires w.Possible() && w.Holds(v) && MemoryWiring(w)
    ensures var m := TWO32 - w.grain + w.fixed; m - m % 16 == TWO32 - w.grain
    ensures v - v % 16 == v - w.fixed
  {
    NaturallyAligned(w, v);
    var q := w.grain / 16;
    assert w.grain == 16 * q;
    DivMod(TWO32 - w.grain + w.fixed, 16, 0x1000_0000 - q, w.fixed);
    var n := (v - w.fixed) / w.grain;
    assert v == 16 * (q * n) + w.fixed;
    DivMod(v, 16, q * n, w.fixed);
  }

  /** The arithmetic of the 32-bit probe: the block that starts where the register says ends where the mask says. */
  lemma Sized(w: Wiring, v: nat, ones: nat)
    requires w.Possible() && w.Holds(v) && MemoryWiring(w) && ones == w.Stored(TWO32 - 1)
    ensures v - v % 16 == v - w.fixed >= 0 && v - w.fixed + w.grain <= TWO32
    ensures ones < TWO32 && ones - ones % 16 == TWO32 - w.grain
    ensures (TWO32 - 1 - (TWO32 - w.grain) + (v - w.fixed)) % TWO32 == v - w.fixed + w.grain - 1
  {
    AllOnes(w);
    NaturallyAligned(w, v);
    MaskIsTheSize(w, v);
  }

  /** The configuration space of a function: its registers and its command word. */
  ghost function Config(f: PciFunction): (seq<nat>, set<nat>)
    reads f
  {
    (f.bar, f.command)
  }

  /** The reads and writes of the 32-bit probe. */
  method ProbeOne(f: PciFunction, offset: nat) returns (base: nat, ones: nat)
    requires f.Valid() && f.HasRegister(offset)
    modifies f
    ensures f.Valid() && Config(f) == old(Config(f))
    ensures base == f.bar[(offset - 0x10) / 4] && ones == f.wiring[(offset - 0x10) / 4].Stored(TWO32 - 1)
  {
    ghost var i := (offset - 0x10) / 4;
    base := f.Read(offset);
    var command := f.command;
    f.WriteCommand({});
    f.Write(offset, TWO32 - 1);
    ones := f.Read(offset);
    f.Write(offset, base);
    f.WriteCommand(command);
    assert f.bar == old(f.bar) by {
      assert f.wiring[i].Stored(base) == base;
    }
  }

  /** The hole of a 32-bit block: from the register without its low bits to the end of its size. */
  function Block32(w: Wiring, v: nat): Hole
    requires MemoryWiring(w)
  {
    Rounded(v - v % 16, v - v % 16 + w.grain - 1)
  }

  /**
    `DumpBaseAddressRegister32` reads the exact end of the block out
    of the mask, and leaves the configuration space as it was.
   */
  method DumpBaseAddressRegister32(f: PciFunction, offset: nat, info: MemoryInfo, ghost todo: seq<Hole>)
    requires f.Valid() && f.HasRegister(offset) && MemoryWiring(f.wiring[(offset - 0x10) / 4])
    requires Ready(info, [Block32(f.wiring[(offset - 0x10) / 4], f.bar[(offset - 0x10) / 4])] + todo)
    modifies f, info, info.run
    ensures f.Valid() && Config(f) == old(Config(f)) && Ready(info, todo)
    ensures var (w, v) := (f.wiring[(offset - 0x10) / 4], f.bar[(offset - 0x10) / 4]);
            && v - v % 16 + w.grain <= TWO32
            && info.Runs() == InsertHoles(old(info.Runs()), [Block32(w, v)])
  {
    hide Inserted, InsertHoles, Sorted, Within;
    ghost var i := (offset - 0x10) / 4;
    var base, mask := ProbeOne(f, offset);
    Sized(f.wiring[i], base, mask);
    mask := mask - mask % 16;
    base := base - base % 16;
    var end := (TWO32 - 1 - mask + base) % TWO32;
    NextHole(info.Runs(), base, end, todo);
    info.InsertMemoryHole(base, end);
  }

  /** The two registers of a 64-bit block: the upper one stores every bit unless the block is larger than 4 GB. */
  predicate PairWiring(low: Wiring, high: Wiring) {
    MemoryWiring(low) && high.grain > 0 && high.fixed == 0 && (low.grain < TWO32 ==> high.grain == 1)
  }

  function PairSize(low: Wiring, high: Wiring): (size: nat)
    requires PairWiring(low, high)
    ensures size > 0
  {
    low.grain + (high.grain - 1) * TWO32
  }

  function PairBase(value: nat, valueHigh: nat): nat {
    value - value % 16 + valueHigh * TWO32
  }

  /** The hole of a 64-bit block. */
  function Block64(low: Wiring, high: Wiring, value: nat, valueHigh: nat): Hole
    requires PairWiring(low, high)
  {
    Rounded(PairBase(value, valueHigh), PairBase(value, valueHigh) + PairSize(low, high) - 1)
  }

  /** The arithmetic of the 64-bit probe. */
  lemma PairSized(low: Wiring, high: Wiring, v: nat, vHigh: nat, ones: nat, onesHigh: nat)
    requires low.Possible() && high.Possible() && low.Holds(v) && high.Holds(vHigh) && PairWiring(low, high)
    requires ones == low.Stored(TWO32 - 1) && onesHigh == high.Stored(TWO32 - 1)
    ensures ones < TWO32 && ones - ones % 16 + onesHigh * TWO32 == TWO64 - PairSize(low, high) >= 0
    ensures PairBase(v, vHigh) + PairSize(low, high) <= TWO64
    ensures Wrap(TWO64 - 1 - (TWO64 - PairSize(low, high)) + PairBase(v, vHigh))
            == PairBase(v, vHigh) + PairSize(low, high) - 1
  {
    Sized(low, v, ones);
    AllOnes(high);
    NaturallyAligned(high, vHigh);
  }

  /** The reads and writes of the 64-bit probe: the lower word first, then the upper one. */
  method ProbePair(f: PciFunction, offset: nat) returns (base: nat, baseHigh: nat, ones: nat, onesHigh: nat)
    requires f.Valid() && f.HasRegister(offset) && f.HasRegister(offset + 4)
    modifies f
    ensures f.Valid() && Config(f) == old(Config(f))
    ensures var i := (offset - 0x10) / 4;
            && base == f.bar[i] && ones == f.wiring[i].Stored(TWO32 - 1)
            && baseHigh == f.bar[i + 1] && onesHigh == f.wiring[i + 1].Stored(TWO32 - 1)
  {
    ghost var i := (offset - 0x10) / 4;
    base := f.Read(offset);
    baseHigh := f.Read(offset + 4);
    var command := f.command;
    f.WriteCommand({});
    f.Write(offset, TWO32 - 1);
    ones := f.Read(offset);
    f.Write(offset, base);
    assert f.bar == old(f.bar) by {
      assert f.wiring[i].Stored(base) == base;
    }
    f.Write(offset + 4, TWO32 - 1);
    onesHigh := f.Read(offset + 4);
    f.Write(offset + 4, baseHigh);
    f.WriteCommand(command);
    assert f.bar == old(f.bar) by {
      assert f.wiring[i + 1].Stored(baseHigh) == baseHigh;
    }
  }

  /** `DumpBaseAddressRegister64` */
  method DumpBaseAddressRegister64(f: PciFunction, offset: nat, info: MemoryInfo, ghost todo: seq<Hole>)
    requires f.Valid() && f.HasRegister(offset) && f.HasRegister(offset + 4)
    requires PairWiring(f.wiring[(offset - 0x10) / 4], f.wiring[(offset - 0x10) / 4 + 1])
    requires var i := (offset - 0x10) / 4;
             Ready(info, [Block64(f.wiring[i], f.wiring[i + 1], f.bar[i], f.bar[i + 1])] + todo)
    modifies f, info, info.run
    ensures f.Valid() && Config(f) == old(Config(f)) && Ready(info, todo)
    ensures var i := (offset - 0x10) / 4;
            && PairBase(f.bar[i], f.bar[i + 1]) + PairSize(f.wiring[i], f.wiring[i + 1]) <= TWO64
            && info.Runs() == InsertHoles(old(info.Runs()),
                [Block64(f.wiring[i], f.wiring[i + 1], f.bar[i], f.bar[i + 1])])
  {
    hide Inserted, InsertHoles, Sorted, Within, PairSize, PairWiring, Wrap;
    ghost var i := (offset - 0x10) / 4;
    var base, baseHigh, mask, maskHigh := ProbePair(f, offset);
    PairSized(f.wiring[i], f.wiring[i + 1], base, baseHigh, mask, maskHigh);
    mask := mask - mask % 16;
    base := base - base % 16 + baseHigh * TWO32;
    var end := Wrap(TWO64 - 1 - (mask + maskHigh * TWO32) + base);
    NextHole(info.Runs(), base, end, todo);
    info.InsertMemoryHole(base, end);
  }

  // The walk over the registers of a standard header

  /** Whether the registers from `i` on are those of the blocks `shapes`. */
  predicate WiredAs(wiring: seq<Wiring>, i: nat, shapes: seq<Shape>) {
    i <= |wiring| && wiring[i..] == AllWirings(shapes) && forall b :: b in shapes ==> Possible(b)
  }

  /**
    The holes that block `b`, whose registers are at `i`, makes: none for one that reads as zero, which is not in use.
   */
  function BlockHoles(b: Shape, bar: seq<nat>, i: nat): seq<Hole>
    requires i + |Wirings(b)| <= |bar|
  {
    match b
    case Unused => []
    case Io(_) => []
    case Memory32(bits, kind) =>
      if bar[i] == 0 then []
      else
        var base := bar[i] - bar[i] % 16;
        [Rounded(base, base + Pow2(bits) - 1)]
    case Memory64(bits, kind) =>
      var base := bar[i] - bar[i] % 16 + bar[i + 1] * TWO32;
      [Rounded(base, base + Pow2(bits) - 1)]
  }

  function AllHoles(shapes: seq<Shape>, bar: seq<nat>, i: nat): seq<Hole>
    requires i + |AllWirings(shapes)| <= |bar|
    decreases |shapes|
  {
    if shapes == [] then []
    else BlockHoles(shapes[0], bar, i) + AllHoles(shapes[1..], bar, i + |Wirings(shapes[0])|)
  }

  lemma WiringOf(b: Shape)
    requires Possible(b)
    ensures var w := Wirings(b);
            match b
            case Unused => w[0].fixed == 0 && w[0].grain == TWO32
            case Io(_) => w[0].fixed == 1 && w[0].grain % 4 == 0
            case Memory32(bits, kind) => MemoryWiring(w[0]) && w[0].fixed == kind && w[0].grain == Pow2(bits)
            case Memory64(bits, kind) =>
              PairWiring(w[0], w[1]) && w[0].fixed == kind && PairSize(w[0], w[1]) == Pow2(bits)
  {
    hide Pow2;
    Pow2Values();
    match b
    case Unused =>
    case Io(bits) =>
      Pow2Divides(2, bits);
    case Memory32(bits, kind) =>
      Pow2Divides(4, bits);
    case Memory64(bits, kind) =>
      if bits <= 32 {
        Pow2Divides(4, bits);
        Pow2Divides(bits, 32);
      } else {
        Pow2Product(32, bits - 32);
      }
  }

  lemma {:induction false} Pow2Product(m: nat, n: nat)
    ensures Pow2(m + n) == Pow2(m) * Pow2(n)
  {
    if n > 0 {
      Pow2Product(m, n - 1);
    }
  }

  lemma LowBits(v: nat)
    ensures v % 2 == v % 16 % 2 && (v / 2) % 4 == (v % 16 / 2) % 4
  {
    var a, k := v / 16, v % 16;
    DivMod(v, 2, 8 * a + k / 2, k % 2);
    DivMod(v / 2, 4, 2 * a + k / 8, (k / 2) % 4);
  }

  lemma OddRegister(w: Wiring, v: nat)
    requires w.Possible() && w.grain % 4 == 0 && w.fixed == 1 && w.Holds(v)
    ensures v % 2 == 1
  {
    var n, q := v / w.grain, w.grain / 4;
    assert v == w.grain * n + 1;
    assert w.grain == 4 * q;
    assert v == 2 * (2 * (q * n)) + 1;
    DivMod(v, 2, 2 * (q * n), 1);
  }

  /** The type bits that the driver tests tell the shapes apart, whatever address a register holds. */
  lemma TypeBits(b: Shape, w: Wiring, v: nat)
    requires Possible(b) && w == Wirings(b)[0] && w.Possible() && w.Holds(v)
    ensures v % 2 == 1 <==> b.Io?
    ensures v % 2 == 0 ==> ((v / 2) % 4 == 2 <==> b.Memory64?)
    ensures v == 0 ==> b.Unused? || (b.Memory32? && b.kind == 0)
    ensures b.Unused? ==> v == 0
  {
    WiringOf(b);
    hide Pow2;
    if b.Io? {
      OddRegister(w, v);
    } else if !b.Unused? {
      MaskIsTheSize(w, v);
      LowBits(v);
    }
  }

  /** What `WiredAs` says of the next block. */
  lemma NextBlock(wiring: seq<Wiring>, i: nat, b: Shape, rest: seq<Shape>)
    requires WiredAs(wiring, i, [b] + rest)
    ensures i + |Wirings(b)| <= |wiring| && Possible(b) && WiredAs(wiring, i + |Wirings(b)|, rest)
    ensures forall k :: 0 <= k < |Wirings(b)| ==> wiring[i + k] == Wirings(b)[k]
  {
    assert ([b] + rest)[0] == b && ([b] + rest)[1..] == rest;
    forall k | 0 <= k < |Wirings(b)| ensures wiring[i + k] == Wirings(b)[k] {
      assert wiring[i..][k] == Wirings(b)[k];
    }
    assert wiring[i + |Wirings(b)|..] == wiring[i..][|Wirings(b)|..];
  }

  /** The hole of a block in use is that of its wiring and its registers, and is a number of pages. */
  lemma HoleIsTheBlock(b: Shape, wiring: seq<Wiring>, bar: seq<nat>, i: nat)
    requires Possible(b) && i + |Wirings(b)| <= |wiring| == |bar|
    requires forall k :: 0 <= k < |Wirings(b)| ==>
                           wiring[i + k] == Wirings(b)[k] && wiring[i + k].Possible() && wiring[i + k].Holds(bar[i + k])
    ensures forall h :: h in BlockHoles(b, bar, i) ==> Pages(h)
    ensures b.Unused? || b.Io? || bar[i] == 0 ==> BlockHoles(b, bar, i) == []
    ensures b.Memory32? && bar[i] != 0 ==>
              MemoryWiring(wiring[i]) && BlockHoles(b, bar, i) == [Block32(wiring[i], bar[i])]
    ensures b.Memory64? ==>
              PairWiring(wiring[i], wiring[i + 1])
              && BlockHoles(b, bar, i) == [Block64(wiring[i], wiring[i + 1], bar[i], bar[i + 1])]
  {
    hide Pow2, Pages, Rounded;
    WiringOf(b);
    assert wiring[i + 0] == Wirings(b)[0];
    TypeBits(b, wiring[i], bar[i]);
    NaturallyAligned(wiring[i], bar[i]);
    if !b.Unused? && !b.Io? {
      MaskIsTheSize(wiring[i], bar[i]);
      if b.Memory64? {
        assert wiring[i + 1] == Wirings(b)[1];
        BlockFits64(wiring[i], wiring[i + 1], bar[i], bar[i + 1]);
      }
      var first := bar[i] - bar[i] % 16 + if b.Memory64? then bar[i + 1] * TWO32 else 0;
      RoundedIsPages(first, first + Pow2(b.bits) - 1);
    }
  }

  lemma BlockFits64(low: Wiring, high: Wiring, v: nat, vHigh: nat)
    requires low.Possible() && high.Possible() && low.Holds(v) && high.Holds(vHigh) && PairWiring(low, high)
    ensures PairBase(v, vHigh) + PairSize(low, high) <= TWO64
  {
    NaturallyAligned(low, v);
    NaturallyAligned(high, vHigh);
    MaskIsTheSize(low, v);
  }

  /**
    `DumpBaseAddressRegister`: the block is recognized by its type bits, and the offset moves past all of its
    registers. The last branch of the original is never taken: a register that is not I/O space is memory space.
   */
  method DumpBaseAddressRegister(f: PciFunction, offset: nat, info: MemoryInfo, ghost b: Shape, ghost rest: seq<Shape>,
                                 ghost todo: seq<Hole>) returns (next: nat)
    requires f.Valid() && f.HasRegister(offset) && WiredAs(f.wiring, (offset - 0x10) / 4, [b] + rest)
    requires (offset - 0x10) / 4 + |Wirings(b)| <= |f.bar|
    requires Ready(info, BlockHoles(b, f.bar, (offset - 0x10) / 4) + todo)
    modifies f, info, info.run
    ensures f.Valid() && Config(f) == old(Config(f)) && Ready(info, todo)
    ensures next == offset + 4 * |Wirings(b)| && WiredAs(f.wiring, (next - 0x10) / 4, rest)
    ensures info.Runs() == InsertHoles(old(info.Runs()), BlockHoles(b, f.bar, (offset - 0x10) / 4))
  {
    hide Pow2, Inserted, Sorted, Within, AllWirings, InsertHoles, BlockHoles, PairSize, MemoryWiring, PairWiring,
         Block32,
         Block64;
    ghost var i := (offset - 0x10) / 4;
    NextBlock(f.wiring, i, b, rest);
    var base := f.Read(offset);
    assert f.wiring[i + 0] == Wirings(b)[0];
    TypeBits(b, f.wiring[i], base);
    HoleIsTheBlock(b, f.wiring, f.bar, i);
    NoHoles(info.Runs());
    assert [] + todo == todo;
    if base == 0 {
      return offset + 4;
    }
    if base % 2 == 1 {
      next := offset + 4;
    } else if (base / 2) % 4 == 2 {
      DumpBaseAddressRegister64(f, offset, info, todo);
      next := offset + 8;
    } else {
      DumpBaseAddressRegister32(f, offset, info, todo);
      next := offset + 4;
    }
  }
}
