/** The scan of the PCI buses, which turns the whole address space into a list of ranges without the devices' memory. */
module BusScan {
  import opened BarProbe
  import opened Bytes
  import opened DisjointHoles
  import opened Division
  import opened HoledRanges
  import opened MemoryHoles
  import opened MemoryRanges
  import opened PageTables

  lemma {:induction false} EveryBlockHasARegister(shapes: seq<Shape>)
    ensures |shapes| <= |AllWirings(shapes)|
  {
    if shapes != [] {
      EveryBlockHasARegister(shapes[1..]);
    }
  }

  /**
    The loops of `DumpStandardHeader`, up to register 0x24, and of `DumpPCIBridge`, up to 0x14: every
    block is looked at once, and no register in the middle of a block is taken for the start of one.
   */
  method DumpRegisters(f: PciFunction, last: nat, info: MemoryInfo, ghost shapes: seq<Shape>, ghost todo: seq<Hole>)
    requires f.Valid() && WiredAs(f.wiring, 0, shapes) && last == 0x10 + 4 * |f.wiring| - 4 && f.wiring != []
    requires |AllWirings(shapes)| <= |f.bar| && Ready(info, AllHoles(shapes, f.bar, 0) + todo)
    modifies f, info, info.run
    ensures f.Valid() && Config(f) == old(Config(f)) && Ready(info, todo)
    ensures info.Runs() == InsertHoles(old(info.Runs()), AllHoles(shapes, f.bar, 0))
  {
    hide BlockHoles, Wirings, Sorted, Within, InsertHoles;
    ghost var left := shapes;
    var offset := 0x10;
    while offset <= last
      invariant offset >= 0x10 && offset % 4 == 0 && WiredAs(f.wiring, (offset - 0x10) / 4, left)
      invariant f.Valid() && Config(f) == old(Config(f))
                && Ready(info, AllHoles(left, f.bar, (offset - 0x10) / 4) + todo)
      invariant InsertHoles(info.Runs(), AllHoles(left, f.bar, (offset - 0x10) / 4))
                == InsertHoles(old(info.Runs()), AllHoles(shapes, f.bar, 0))
      decreases |left|
    {
      ghost var b, rest, i := left[0], left[1..], (offset - 0x10) / 4;
      assert left == [b] + rest;
      ghost var later := AllHoles(rest, f.bar, i + |Wirings(b)|);
      HolesOfTwoLists(info.Runs(), BlockHoles(b, f.bar, i), later);
      Assoc(BlockHoles(b, f.bar, i), later, todo);
      offset := DumpBaseAddressRegister(f, offset, info, b, rest, later + todo);
      left := rest;
    }
    EveryBlockHasARegister(left);
    NoHoles(info.Runs());
    assert [] + todo == todo;
  }

  // The windows of a bridge

  /** Memory base and limit, prefetchable base and limit, and the upper halves of the latter two. */
  datatype Windows = Windows(memoryBase: nat, memoryLimit: nat, prefBase: nat, prefLimit: nat,
                             prefBaseUpper: nat, prefLimitUpper: nat) {
    predicate Valid() {
      && memoryBase < 0x1_0000 && memoryLimit < 0x1_0000 && prefBase < 0x1_0000 && prefLimit < 0x1_0000
      && prefBaseUpper < TWO32 && prefLimitUpper < TWO32
    }
  }

  /** Bitwise or. */
  function BitOr(a: nat, b: nat): nat {
    if a == 0 then b else 2 * BitOr(a / 2, b / 2) + (if a % 2 == 1 || b % 2 == 1 then 1 else 0)
  }

  lemma {:induction false} BitOrIsSmall(a: nat, b: nat, n: nat)
    requires a < Pow2(n) && b < Pow2(n)
    ensures BitOr(a, b) < Pow2(n)
  {
    if a > 0 {
      BitOrIsSmall(a / 2, b / 2, n - 1);
    }
  }

  /** `(register & 0xFFF0) << 20` */
  function Shifted(register: nat): nat {
    (register - register % 16) * 0x10_0000
  }

  /** `((register & 0xFFF0) << 20) | (upper << 32)`: the shifted value has four bits above the lower half. */
  function WithUpper(register: nat, upper: nat): nat {
    Shifted(register) % TWO32 + BitOr(Shifted(register) / TWO32, upper) * TWO32
  }

  function PrefAddress(register: nat, upper: nat): nat {
    if register % 16 == 0 then Shifted(register) else WithUpper(register, upper)
  }

  /** A bit of a number. */
  predicate Bit(x: nat, n: nat) {
    if n == 0 then x % 2 == 1 else Bit(x / 2, n - 1)
  }

  lemma {:induction false} BitOrBits(a: nat, b: nat, n: nat)
    ensures Bit(BitOr(a, b), n) <==> Bit(a, n) || Bit(b, n)
    decreases n
  {
    if n > 0 {
      BitOrBits(a / 2, b / 2, n - 1);
      BitOfHalf(a, b);
    }
  }

  lemma BitOfHalf(a: nat, b: nat)
    ensures BitOr(a, b) / 2 == BitOr(a / 2, b / 2)
  {
  }

  /**
    A window register holds twelve bits of an address above four bits that tell the width.
    The code takes them in units of 16 MB, and the upper half exactly if the four bits are not zero.
   */
  lemma AddressByFields(register: nat, upper: nat)
    requires register < 0x1_0000 && upper < TWO32
    ensures Shifted(register) == register / 16 * 0x100_0000
    ensures PrefAddress(register, upper)
         == if register % 16 == 0 then register / 16 * 0x100_0000
            else register / 16 % 256 * 0x100_0000 + BitOr(register / 16 / 256, upper) * 0x1_0000_0000
    ensures register / 16 < 256 && register % 16 != 0 ==>
              PrefAddress(register, upper) == register / 16 * 0x100_0000 + upper * 0x1_0000_0000
  {
    var address := register / 16;
    DivMod(address * 0x100_0000, TWO32, address / 256, address % 256 * 0x100_0000);
  }

  /**
    The windows of a bridge by the fields of its registers, as long as the twelve bits of a prefetchable address
    do not run into its upper half: a window is a hole if its base register is not zero and it is not empty.
   */
  lemma WindowsByFields(w: Windows)
    requires w.Valid() && w.prefBase / 16 < 256 && w.prefLimit / 16 < 256
    ensures var base, limit := w.memoryBase / 16, w.memoryLimit / 16;
            var from := w.prefBase / 16 * 0x100_0000
                        + if w.prefBase % 16 == 0 then 0 else w.prefBaseUpper * 0x1_0000_0000;
            var to := w.prefLimit / 16 * 0x100_0000
                      + if w.prefLimit % 16 == 0 then 0 else w.prefLimitUpper * 0x1_0000_0000;
            WindowHoles(w)
            == (if w.memoryBase != 0 && base <= limit then [Rounded(base * 0x100_0000, limit * 0x100_0000 + 0xFF_FFFF)]
                else [])
               + (if w.prefBase != 0 && from <= to then [Rounded(from, to + 0xFF_FFFF)] else [])
  {
    hide Window, PrefAddress, Shifted, Rounded;
    AddressByFields(w.memoryBase, 0);
    AddressByFields(w.memoryLimit, 0);
    AddressByFields(w.prefBase, w.prefBaseUpper);
    AddressByFields(w.prefLimit, w.prefLimitUpper);
    WindowOfUnits(w.memoryBase != 0, w.memoryBase / 16, w.memoryLimit / 16);
    WindowOfUnits(w.prefBase != 0,
                  w.prefBase / 16 + if w.prefBase % 16 == 0 then 0 else w.prefBaseUpper * 256,
                  w.prefLimit / 16 + if w.prefLimit % 16 == 0 then 0 else w.prefLimitUpper * 256);
  }

  lemma WindowOfUnits(used: bool, base: nat, limit: nat)
    ensures Window(used, base * 0x100_0000, limit * 0x100_0000 + 0xFF_FFFF)
         == if used && base <= limit then [Rounded(base * 0x100_0000, limit * 0x100_0000 + 0xFF_FFFF)] else []
  {
  }

  /**
    Section 3.2.5.8 of the PCI-to-PCI Bridge Architecture Specification gives the twelve bits in units of a megabyte,
    while the shift of the code takes them for units of sixteen: of the addresses that a bridge forwards, the hole
    takes out exactly those from the sixteenfold base on, which is never the first of them unless the base is zero.
   */
  lemma WindowIsMisplaced(w: Windows, a: nat)
    requires w.Valid() && w.memoryBase != 0
    requires w.memoryBase / 16 * 0x10_0000 <= a < (w.memoryLimit / 16 + 1) * 0x10_0000
    ensures var holes := Window(w.memoryBase != 0, Shifted(w.memoryBase), Shifted(w.memoryLimit) + 0xFF_FFFF);
            (exists h :: h in holes && h.start <= a <= h.end) <==> 16 * (w.memoryBase / 16 * 0x10_0000) <= a
  {
    AddressByFields(w.memoryBase, 0);
    AddressByFields(w.memoryLimit, 0);
    var base, limit := w.memoryBase / 16, w.memoryLimit / 16;
    var h := Rounded(base * 0x100_0000, limit * 0x100_0000 + 0xFF_FFFF);
    DivMod(base * 0x100_0000, PAGE, base * 0x1000, 0);
    assert h in Window(true, Shifted(w.memoryBase), Shifted(w.memoryLimit) + 0xFF_FFFF);
  }

  lemma PrefAddressFits(register: nat, upper: nat)
    requires register < 0x1_0000 && upper < TWO32
    ensures PrefAddress(register, upper) + 0xFF_FFFF < TWO64
  {
    var s := Shifted(register);
    assert s == register / 16 * 0x100_0000;
    Pow2Values();
    BitOrIsSmall(s / TWO32, upper, 32);
    var q, r := register / 16 / 256, register / 16 % 256;
    assert s == q * TWO32 + r * 0x100_0000;
    DivMod(s, TWO32, q, r * 0x100_0000);
  }

  /** The holes of `DumpPCIBridge`: a window that is in use and not empty. */
  function Window(used: bool, base: nat, limit: nat): seq<Hole> {
    if used && limit > base then [Rounded(base, limit)] else []
  }

  function WindowHoles(w: Windows): seq<Hole> {
    Window(w.memoryBase != 0, Shifted(w.memoryBase), Shifted(w.memoryLimit) + 0xFF_FFFF)
    + Window(w.prefBase != 0, PrefAddress(w.prefBase, w.prefBaseUpper),
        PrefAddress(w.prefLimit, w.prefLimitUpper) + 0xFF_FFFF)
  }

  /** The second half of `DumpPCIBridge`; reading the window registers changes nothing. */
  method DumpWindows(w: Windows, info: MemoryInfo, ghost todo: seq<Hole>)
    requires w.Valid() && Ready(info, WindowHoles(w) + todo)
    modifies info, info.run
    ensures Ready(info, todo) && info.Runs() == InsertHoles(old(info.Runs()), WindowHoles(w))
  {
    hide Shifted, PrefAddress, InsertHoles, Window, Sorted, Within;
    WindowBounds(w);
    var base, limit := w.memoryBase, Shifted(w.memoryLimit) + 0xFF_FFFF;
    ghost var first := Window(base != 0, Shifted(base), limit);
    ghost var second := Window(w.prefBase != 0, PrefAddress(w.prefBase, w.prefBaseUpper),
                               PrefAddress(w.prefLimit, w.prefLimitUpper) + 0xFF_FFFF);
    Assoc(first, second, todo);
    HolesOfTwoLists(info.Runs(), first, second);
    DumpWindow(base != 0, Shifted(base), limit, info, second + todo);
    base, limit := w.prefBase, PrefAddress(w.prefLimit, w.prefLimitUpper) + 0xFF_FFFF;
    DumpWindow(base != 0, PrefAddress(base, w.prefBaseUpper), limit, info, todo);
  }

  method DumpWindow(used: bool, base: nat, limit: nat, info: MemoryInfo, ghost todo: seq<Hole>)
    requires base < TWO64 && limit < TWO64 && Ready(info, Window(used, base, limit) + todo)
    modifies info, info.run
    ensures Ready(info, todo) && info.Runs() == InsertHoles(old(info.Runs()), Window(used, base, limit))
  {
    hide InsertHoles, Inserted, Sorted, Within;
    NoHoles(info.Runs());
    assert [] + todo == todo;
    if used {
      if limit > base {
        NextHole(info.Runs(), base, limit, todo);
        info.InsertMemoryHole(base, limit);
      }
    }
  }

  lemma WindowBounds(w: Windows)
    requires w.Valid()
    ensures Shifted(w.memoryBase) < TWO64 && Shifted(w.memoryLimit) + 0xFF_FFFF < TWO64
    ensures PrefAddress(w.prefBase, w.prefBaseUpper) < TWO64
    ensures PrefAddress(w.prefLimit, w.prefLimitUpper) + 0xFF_FFFF < TWO64
  {
    PrefAddressFits(w.prefBase, w.prefBaseUpper);
    PrefAddressFits(w.prefLimit, w.prefLimitUpper);
  }

  lemma WindowsArePages(w: Windows)
    requires w.Valid()
    ensures forall h :: h in WindowHoles(w) ==> Pages(h)
  {
    WindowBounds(w);
    forall base: nat, limit: nat | base <= limit < TWO64 ensures Pages(Rounded(base, limit)) {
      RoundedIsPages(base, limit);
    }
  }

  // The scan

  datatype Position = Position(bus: nat, slot: nat, func: nat)

  /** What is behind a function number. `bar` and `command` are its configuration space before the scan. */
  datatype Device = Device(f: PciFunction, headerType: nat, shapes: seq<Shape>, windows: Windows,
                           bar: seq<nat>, command: set<nat>) {
    predicate Standard() {
      headerType % 32 == 0
    }

    predicate Bridge() {
      headerType % 32 == 1
    }

    predicate MultiFunction() {
      headerType / 128 % 2 == 1
    }

    /** The configuration space is as it was before the scan, and its registers are those of the header type. */
    ghost predicate Fits()
      reads f
    {
      && f.Valid() && Config(f) == (bar, command)
      && (Standard() ==> |f.wiring| == 6) && (Bridge() ==> |f.wiring| == 2)
      && (Standard() || Bridge() ==> WiredAs(f.wiring, 0, shapes))
      && |AllWirings(shapes)| <= |bar| && windows.Valid()
    }
  }

  /** The header type is a layout of five bits, two bits that mean nothing here, and the bit for many functions. */
  lemma HeaderTypeByFields(d: Device, layout: nat, other: nat, many: nat)
    requires layout < 32 && other < 4 && many < 2 && d.headerType == layout + 32 * other + 128 * many
    ensures (d.Standard() <==> layout == 0) && (d.Bridge() <==> layout == 1) && (d.MultiFunction() <==> many == 1)
  {
    DivMod(d.headerType, 32, other + 4 * many, layout);
    DivMod(d.headerType, 128, many, layout + 32 * other);
  }

  /** The holes of a device that fits. */
  function DeviceHoles(d: Device): seq<Hole> {
    if |AllWirings(d.shapes)| > |d.bar| then []
    else if d.Standard() then AllHoles(d.shapes, d.bar, 0)
    else if d.Bridge() then AllHoles(d.shapes, d.bar, 0) + WindowHoles(d.windows)
    else []
  }

  /** `DumpStandardHeader` and `DumpPCIBridge`, by header type; other types are reported and left alone. */
  method DumpFunction(d: Device, info: MemoryInfo, ghost todo: seq<Hole>)
    requires d.Fits() && Ready(info, DeviceHoles(d) + todo)
    modifies d.f, info, info.run
    ensures d.Fits() && Config(d.f) == old(Config(d.f)) && Ready(info, todo)
    ensures info.Runs() == InsertHoles(old(info.Runs()), DeviceHoles(d))
  {
    hide AllHoles, WindowHoles, InsertHoles, Sorted, Within;
    if d.Standard() {
      DumpRegisters(d.f, 0x24, info, d.shapes, todo);
    } else if d.Bridge() {
      Assoc(AllHoles(d.shapes, d.bar, 0), WindowHoles(d.windows), todo);
      HolesOfTwoLists(info.Runs(), AllHoles(d.shapes, d.bar, 0), WindowHoles(d.windows));
      DumpRegisters(d.f, 0x14, info, d.shapes, WindowHoles(d.windows) + todo);
      DumpWindows(d.windows, info, todo);
    } else {
      NoHoles(info.Runs());
      assert [] + todo == todo;
    }
  }

  /** The number of functions on all buses, in the order of the scan. */
  const FUNCTIONS: nat := 65536

  function At(n: nat): Position {
    Position(n / 256, n / 8 % 32, n % 8)
  }

  /** A function is looked at unless function 0 of its slot is there and is not a multi-function device. */
  predicate Reached(devices: map<Position, Device>, p: Position) {
    && p in devices && p.bus < 256 && p.slot < 32 && p.func < 8
    && (p.func > 0 ==>
          var first := Position(p.bus, p.slot, 0);
          first in devices ==> devices[first].MultiFunction())
  }

  /** Every position has a number, and the numbers follow buses, slots and functions. */
  lemma NumberOf(bus: nat, slot: nat, func: nat)
    requires slot < 32 && func < 8
    ensures At(bus * 256 + slot * 8 + func) == Position(bus, slot, func)
  {
    var n := bus * 256 + slot * 8 + func;
    DivMod(n, 256, bus, slot * 8 + func);
    DivMod(n, 8, bus * 32 + slot, func);
    DivMod(bus * 32 + slot, 32, bus, slot);
  }

  ghost function Functions(devices: map<Position, Device>): set<PciFunction> {
    set p | p in devices :: devices[p].f
  }

  /** The holes of the functions with numbers from `m` up to `n` that are reached, in that order. */
  function HolesBetween(devices: map<Position, Device>, m: nat, n: nat): seq<Hole>
    decreases n - m
  {
    if m >= n then [] else HolesAt(devices, m) + HolesBetween(devices, m + 1, n)
  }

  function HolesAt(devices: map<Position, Device>, n: nat): seq<Hole> {
    if Reached(devices, At(n)) then DeviceHoles(devices[At(n)]) else []
  }

  function ScanHoles(devices: map<Position, Device>): seq<Hole> {
    HolesBetween(devices, 0, FUNCTIONS)
  }

  lemma {:induction false} HolesMeet(devices: map<Position, Device>, m: nat, k: nat, n: nat)
    requires m <= k <= n
    ensures HolesBetween(devices, m, n) == HolesBetween(devices, m, k) + HolesBetween(devices, k, n)
    decreases k - m
  {
    hide HolesAt;
    if m < k {
      HolesMeet(devices, m + 1, k, n);
      Assoc(HolesAt(devices, m), HolesBetween(devices, m + 1, k), HolesBetween(devices, k, n));
    } else {
      assert [] + HolesBetween(devices, k, n) == HolesBetween(devices, k, n);
    }
  }

  lemma {:induction false} NothingBetween(devices: map<Position, Device>, m: nat, n: nat)
    requires forall k :: m <= k < n ==> !Reached(devices, At(k))
    ensures HolesBetween(devices, m, n) == []
    decreases n - m
  {
    hide Reached;
    if m < n {
      NothingBetween(devices, m + 1, n);
    }
  }

  ghost predicate AllFit(devices: map<Position, Device>)
    reads Functions(devices)
  {
    forall p :: p in devices ==> devices[p].Fits()
  }

  /** The functions with numbers below `n` have been dealt with, and every one of them restored. */
  ghost predicate Scanned(devices: map<Position, Device>, n: nat, info: MemoryInfo)
    reads info, info.run, Functions(devices)
  {
    && n <= FUNCTIONS && AllFit(devices) && Ready(info, HolesBetween(devices, n, FUNCTIONS))
    && info.Runs() == InsertHoles(WHOLE_SPACE, HolesBetween(devices, 0, n))
  }

  lemma Skip(devices: map<Position, Device>, n: nat, next: nat, info: MemoryInfo)
    requires Scanned(devices, n, info) && n <= next <= FUNCTIONS
    requires forall k :: n <= k < next ==> !Reached(devices, At(k))
    ensures Scanned(devices, next, info)
  {
    hide Ready, Reached, HolesBetween, InsertHoles;
    NothingBetween(devices, n, next);
    HolesMeet(devices, n, next, FUNCTIONS);
    HolesMeet(devices, 0, n, next);
    var later, before := HolesBetween(devices, next, FUNCTIONS), HolesBetween(devices, 0, n);
    assert [] + later == later && before + [] == before;
  }

  /**
    `PCI_AddMemoryRanges`, for an array in which the final list finds room. The list starts as the whole
    address space, and the holes of the functions that are reached are inserted in order; whatever the
    devices, every configuration space ends up as it was. Blocks that do not overlap are all gone from the
    list exactly if none reaches the top of the address space and none ends just below one found before it.
   */
  method AddMemoryRangesOfBuses(devices: map<Position, Device>, info: MemoryInfo)
    requires AllFit(devices)
    requires |InsertHoles(WHOLE_SPACE, ScanHoles(devices))| <= info.run.Length
    modifies info, info.run, Functions(devices)
    ensures AllFit(devices)
    ensures info.Valid() && Sorted(info.Runs())
    ensures var holes := ScanHoles(devices);
            && info.Runs() == InsertHoles(WHOLE_SPACE, holes) && AllPages(holes)
            && (|holes| < PAGE - 2 && Apart(holes) ==>
                  ((forall h :: h in holes ==> Gone(info.Runs(), h)) <==> InGoodOrder(holes)))
  {
    hide Gone, InGoodOrder, AllPages, Apart, HolesBetween, InsertHoles, Scanned, Sorted, Within;
    ListGrows(WHOLE_SPACE, ScanHoles(devices));
    info.numberOfRuns := 1;
    info.run[0] := Run(0, TWO64 - 1);
    StartOfScan(devices, info);
    var bus := 0;
    while bus < 256
      invariant bus <= 256 && Scanned(devices, bus * 256, info)
    {
      var slot := 0;
      while slot < 32
        invariant slot <= 32 && Scanned(devices, bus * 256 + slot * 8, info)
      {
        ScanSlot(devices, bus, slot, info);
        slot := slot + 1;
      }
      bus := bus + 1;
    }
    EndOfScan(devices, info);
    HolesArePages(devices, 0, FUNCTIONS);
    BlocksAreGone(ScanHoles(devices));
  }

  /** What the scan asks of the array is what keeps it from writing past the end of one, and no more. */
  lemma ScanOverrunsExactlyWhen(devices: map<Position, Device>, capacity: nat)
    ensures var holes := ScanHoles(devices);
            (exists j :: 0 <= j <= |holes| && |InsertHoles(WHOLE_SPACE, holes[..j])| > capacity)
            <==> |InsertHoles(WHOLE_SPACE, holes)| > capacity
  {
    hide InsertHoles, ScanHoles;
    ArrayIsOverrunExactlyWhen(WHOLE_SPACE, ScanHoles(devices), capacity);
  }

  lemma BlocksAreGone(holes: seq<Hole>)
    requires forall h :: h in holes ==> Pages(h)
    ensures AllPages(holes)
    ensures |holes| < PAGE - 2 && Apart(holes) ==>
              ((forall h :: h in holes ==> Gone(InsertHoles(WHOLE_SPACE, holes), h)) <==> InGoodOrder(holes))
  {
    if |holes| < PAGE - 2 && Apart(holes) {
      AllGoneExactlyInGoodOrder(holes);
    }
  }

  lemma EndOfScan(devices: map<Position, Device>, info: MemoryInfo)
    requires Scanned(devices, FUNCTIONS, info)
    ensures AllFit(devices) && info.Valid() && Sorted(info.Runs())
    ensures info.Runs() == InsertHoles(WHOLE_SPACE, ScanHoles(devices))
  {
    hide HolesBetween, InsertHoles, Sorted, AllFit;
  }

  lemma StartOfScan(devices: map<Position, Device>, info: MemoryInfo)
    requires AllFit(devices)
    requires |InsertHoles(WHOLE_SPACE, ScanHoles(devices))| <= info.run.Length && info.run.Length > 0
    requires info.numberOfRuns == 1 && info.run[0] == Run(0, TWO64 - 1)
    ensures Scanned(devices, 0, info)
  {
    hide AllFit;
    assert info.Runs() == WHOLE_SPACE;
    NoHoles(WHOLE_SPACE);
  }

  method ScanSlot(devices: map<Position, Device>, bus: nat, slot: nat, info: MemoryInfo)
    requires bus < 256 && slot < 32 && Scanned(devices, bus * 256 + slot * 8, info)
    modifies info, info.run, Functions(devices)
    ensures Scanned(devices, bus * 256 + (slot + 1) * 8, info)
  {
    hide Scanned;
    ghost var start := bus * 256 + slot * 8;
    forall k | 0 <= k < 8 ensures At(start + k) == Position(bus, slot, k) {
      NumberOf(bus, slot, k);
    }
    var func := 0;
    while func < 8
      invariant func <= 8 && Scanned(devices, start + func, info)
      invariant func > 0 ==>
          var first := Position(bus, slot, 0);
          first in devices ==> devices[first].MultiFunction()
    {
      var here := Position(bus, slot, func);
      assert At(start + func) == here;
      if here !in devices {
        Skip(devices, start + func, start + func + 1, info);
        func := func + 1;
        continue;
      }
      Visit(devices, here, info, start + func);
      if func == 0 && !devices[here].MultiFunction() {
        OtherFunctionsAreNotReached(devices, bus, slot);
        Skip(devices, start + 1, start + 8, info);
        return;
      }
      func := func + 1;
    }
  }

  lemma OtherFunctionsAreNotReached(devices: map<Position, Device>, bus: nat, slot: nat)
    requires slot < 32 && Position(bus, slot, 0) in devices && !devices[Position(bus, slot, 0)].MultiFunction()
    ensures forall k :: bus * 256 + slot * 8 + 1 <= k < bus * 256 + slot * 8 + 8 ==> !Reached(devices, At(k))
  {
    forall k | bus * 256 + slot * 8 + 1 <= k < bus * 256 + slot * 8 + 8 ensures !Reached(devices, At(k)) {
      NumberOf(bus, slot, k - (bus * 256 + slot * 8));
    }
  }

  method Visit(devices: map<Position, Device>, here: Position, info: MemoryInfo, ghost n: nat)
    requires here in devices && Reached(devices, here) && n < FUNCTIONS && At(n) == here && Scanned(devices, n, info)
    modifies info, info.run, Functions(devices)
    ensures Scanned(devices, n + 1, info)
  {
    hide DeviceHoles, HolesBetween, Reached, AllFit, Ready, InsertHoles;
    HolesOfNext(devices, n);
    HolesOfTwoLists(WHOLE_SPACE, HolesBetween(devices, 0, n), HolesAt(devices, n));
    DumpAmong(devices, here, info, HolesBetween(devices, n + 1, FUNCTIONS));
  }

  lemma HolesOfNext(devices: map<Position, Device>, n: nat)
    requires n < FUNCTIONS
    ensures HolesBetween(devices, n, FUNCTIONS) == HolesAt(devices, n) + HolesBetween(devices, n + 1, FUNCTIONS)
    ensures HolesBetween(devices, 0, n + 1) == HolesBetween(devices, 0, n) + HolesAt(devices, n)
  {
    hide HolesAt;
    HolesMeet(devices, 0, n, n + 1);
    assert HolesBetween(devices, n + 1, n + 1) == [] && HolesAt(devices, n) + [] == HolesAt(devices, n);
  }

  method DumpAmong(devices: map<Position, Device>, here: Position, info: MemoryInfo, ghost todo: seq<Hole>)
    requires here in devices && AllFit(devices) && Ready(info, DeviceHoles(devices[here]) + todo)
    modifies info, info.run, Functions(devices)
    ensures AllFit(devices) && Ready(info, todo)
    ensures info.Runs() == InsertHoles(old(info.Runs()), DeviceHoles(devices[here]))
  {
    hide DeviceHoles, WiredAs, AllWirings, Ready;
    DumpFunction(devices[here], info, todo);
    forall p | p in devices ensures devices[p].Fits() {
      if devices[p].f == devices[here].f {
        assert Config(devices[p].f) == (devices[p].bar, devices[p].command);
      }
    }
  }

  // Every hole of a scan is a number of pages.

  lemma {:induction false} AllHolesArePages(wiring: seq<Wiring>, shapes: seq<Shape>, bar: seq<nat>, i: nat)
    requires WiredAs(wiring, i, shapes) && |wiring| == |bar|
    requires forall k :: 0 <= k < |bar| ==> wiring[k].Possible() && wiring[k].Holds(bar[k])
    ensures i + |AllWirings(shapes)| <= |bar| && forall h :: h in AllHoles(shapes, bar, i) ==> Pages(h)
    decreases |shapes|
  {
    hide Pages, BlockHoles, Wirings;
    assert |wiring[i..]| == |wiring| - i;
    if shapes != [] {
      var b, rest := shapes[0], shapes[1..];
      assert shapes == [b] + rest;
      NextBlock(wiring, i, b, rest);
      HoleIsTheBlock(b, wiring, bar, i);
      AllHolesArePages(wiring, rest, bar, i + |Wirings(b)|);
    }
  }

  lemma {:induction false} HolesArePages(devices: map<Position, Device>, m: nat, n: nat)
    requires AllFit(devices)
    ensures forall h :: h in HolesBetween(devices, m, n) ==> Pages(h)
    decreases n - m
  {
    hide Pages, AllHoles, WindowHoles, Reached;
    if m < n {
      HolesArePages(devices, m + 1, n);
      if Reached(devices, At(m)) {
        ReachedIsThere(devices, At(m));
        var d := devices[At(m)];
        assert d.Fits();
        if d.Standard() || d.Bridge() {
          AllHolesArePages(d.f.wiring, d.shapes, d.bar, 0);
          WindowsArePages(d.windows);
        }
      }
    }
  }

  lemma ReachedIsThere(devices: map<Position, Device>, p: Position)
    requires Reached(devices, p)
    ensures p in devices
  {
  }
}
