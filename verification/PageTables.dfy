/** Four-level page tables in physical memory: the entries, the walk of the processor and the walk of the driver. */
module PageTables {
  import opened Division
  import opened Bytes

  const PAGE: nat := 4096

  const TWO9: nat := 0x200
  const TWO40: nat := 0x100_0000_0000
  const TWO52: nat := 0x10_0000_0000_0000
  const TWO64: nat := 0x1_0000_0000_0000_0000

  type U64 = x: nat | x < TWO64

  /** Physical memory as 64-bit words; the key is the address divided by 8, and an absent word is zero. */
  type Memory = map<nat, U64>

  function Word(m: Memory, index: nat): U64 {
    if index in m then m[index] else 0
  }

  /** The 64-bit value at a physical address that is a multiple of 8. */
  function Load(m: Memory, p: nat): U64 {
    Word(m, p / 8)
  }

  function Store(m: Memory, p: nat, v: U64): Memory {
    m[p / 8 := v]
  }

  function Power256(i: nat): (p: nat)
    requires i < 8
    ensures p > 0
  {
    match i
    case 0 => 0x1
    case 1 => 0x100
    case 2 => 0x1_0000
    case 3 => 0x100_0000
    case 4 => 0x1_0000_0000
    case 5 => 0x100_0000_0000
    case 6 => 0x1_0000_0000_0000
    case 7 => 0x100_0000_0000_0000
  }

  /** The byte at a physical address. */
  function ByteAt(m: Memory, p: nat): Byte {
    (Word(m, p / 8) / Power256(p % 8) % 256) as Byte
  }

  // Bit fields.

  predicate Present(e: U64) {
    e % 2 == 1
  }

  /** Bit 7 of a PDPTE or PDE. */
  predicate PageSizeBit(e: U64) {
    e / 128 % 2 == 1
  }

  /** Bits 12 to 51. */
  function Frame(e: U64): (f: nat)
    ensures f < TWO40
  {
    e / PAGE % TWO40
  }

  function WithFrame(e: U64, f: nat): (r: U64)
    requires f < TWO40
  {
    e % PAGE + PAGE * f + e / TWO52 * TWO52
  }

  lemma LowBit(e: U64)
    ensures e % 2 == e % PAGE % 2
  {
    DivMod(e, 2, e / PAGE * 2048 + e % PAGE / 2, e % PAGE % 2);
  }

  /** Writing the frame field changes these forty bits and no others. */
  lemma WithFrameFields(e: U64, f: nat)
    requires f < TWO40
    ensures Frame(WithFrame(e, f)) == f
    ensures WithFrame(e, f) % PAGE == e % PAGE && WithFrame(e, f) / TWO52 == e / TWO52
    ensures Present(WithFrame(e, f)) == Present(e)
  {
    var high, low := e / TWO52, e % PAGE;
    var r := WithFrame(e, f);
    DivMod(r, PAGE, f + TWO40 * high, low);
    DivMod(f + TWO40 * high, TWO40, high, f);
    DivMod(r, TWO52, high, low + PAGE * f);
    LowBit(r);
    LowBit(e);
  }

  lemma WithFrameTwice(e: U64, f: nat, g: nat)
    requires f < TWO40 && g < TWO40
    ensures WithFrame(WithFrame(e, f), g) == WithFrame(e, g)
  {
    WithFrameFields(e, f);
  }

  /** An entry is determined by its frame and its other bits. */
  lemma WithOwnFrame(e: U64)
    ensures WithFrame(e, Frame(e)) == e
  {
    var high := e / PAGE / TWO40;
    DivMod(e, TWO52, high, Frame(e) * PAGE + e % PAGE);
  }

  // The walk of the processor.

  /** How much of the address space one entry of a table at this level covers. */
  function Span(level: nat): nat
    requires 1 <= level <= 4
  {
    match level
    case 1 => 0x1000
    case 2 => 0x20_0000
    case 3 => 0x4000_0000
    case 4 => 0x80_0000_0000
  }

  function EntryAddress(table: nat, va: nat, level: nat): nat
    requires 1 <= level <= 4
  {
    table + 8 * (va / Span(level) % TWO9)
  }

  /** No translation, or a page of `size` bytes at `base` that the entry at the physical address `entry` maps. */
  datatype Translation = Fault | Mapped(entry: nat, size: nat, base: nat)

  /** Linear-address translation with four-level paging, from the table at physical address `table`. */
  function Walk(m: Memory, table: nat, va: nat, level: nat): Translation
    requires 1 <= level <= 4
    decreases level
  {
    var p := EntryAddress(table, va, level);
    var e := Load(m, p);
    if !Present(e) then Fault
    else if level == 1 then Mapped(p, PAGE, Frame(e) * PAGE)
    else if level < 4 && PageSizeBit(e) then Mapped(p, Span(level), Frame(e) * PAGE / Span(level) * Span(level))
    else Walk(m, Frame(e) * PAGE, va, level - 1)
  }

  /** The words the walk reads before it comes to the last table. */
  function UpperWords(m: Memory, table: nat, va: nat, level: nat): set<nat>
    requires 1 <= level <= 4
    decreases level
  {
    if level == 1 then {} else
    var p := EntryAddress(table, va, level);
    var e := Load(m, p);
    {p / 8} + if !Present(e) || (level < 4 && PageSizeBit(e)) then {} else UpperWords(m, Frame(e) * PAGE, va, level - 1)
  }

  /** All the words the walk reads. */
  function Words(m: Memory, table: nat, va: nat, level: nat): set<nat>
    requires 1 <= level <= 4
    decreases level
  {
    var p := EntryAddress(table, va, level);
    var e := Load(m, p);
    {p / 8} + if level == 1 || !Present(e) || (level < 4 && PageSizeBit(e)) then {}
        else Words(m, Frame(e) * PAGE, va, level - 1)
  }

  /** A store to a word that the walk does not read changes neither the translation nor the words that are read. */
  lemma {:induction false} WalkAvoiding(m: Memory, table: nat, va: nat, level: nat, p: nat, v: U64)
    requires 1 <= level <= 4 && p / 8 !in Words(m, table, va, level)
    ensures Walk(Store(m, p, v), table, va, level) == Walk(m, table, va, level)
    ensures Words(Store(m, p, v), table, va, level) == Words(m, table, va, level)
    decreases level
  {
    var e := Load(m, EntryAddress(table, va, level));
    if level > 1 && Present(e) && !(level < 4 && PageSizeBit(e)) {
      WalkAvoiding(m, Frame(e) * PAGE, va, level - 1, p, v);
    }
  }

  /** A store to the last entry of a walk, which must not also be an upper entry of it. */
  lemma {:induction false} WalkThroughStore(m: Memory, table: nat, va: nat, level: nat, p: nat, v: U64)
    requires 1 <= level <= 4 && p / 8 !in UpperWords(m, table, va, level) && Present(v)
    requires Walk(m, table, va, level).Mapped? && Walk(m, table, va, level).size == PAGE
             && Walk(m, table, va, level).entry == p
    ensures Walk(Store(m, p, v), table, va, level) == Mapped(p, PAGE, Frame(v) * PAGE)
    ensures UpperWords(Store(m, p, v), table, va, level) == UpperWords(m, table, va, level)
    decreases level
  {
    var e := Load(m, EntryAddress(table, va, level));
    if level > 1 {
      WalkThroughStore(m, Frame(e) * PAGE, va, level - 1, p, v);
    }
  }

  /** The fields of `VIRT_ADDR` make up the 48 bits that are translated. */
  lemma FieldsRecombine(va: nat)
    ensures va % 0x1_0000_0000_0000
         == va / 0x80_0000_0000 % 512 * 0x80_0000_0000 + va / 0x4000_0000 % 512 * 0x4000_0000
          + va / 0x20_0000 % 512 * 0x20_0000 + va / 0x1000 % 512 * 0x1000 + va % 0x1000
  {
    var a := va / 0x1000;
    var b := a / 512;
    var c := b / 512;
    var d := c / 512;
    DivMod(va, 0x20_0000, b, a % 512 * 0x1000 + va % 0x1000);
    DivMod(va, 0x4000_0000, c, b % 512 * 0x20_0000 + a % 512 * 0x1000 + va % 0x1000);
    DivMod(va, 0x80_0000_0000, d, c % 512 * 0x4000_0000 + b % 512 * 0x20_0000 + a % 512 * 0x1000 + va % 0x1000);
    DivMod(va, 0x1_0000_0000_0000, d / 512,
           d % 512 * 0x80_0000_0000 + c % 512 * 0x4000_0000 + b % 512 * 0x20_0000 + a % 512 * 0x1000 + va % 0x1000);
  }

  // Remapping.

  /** `PAGE_TO_PFN`, cut to the forty bits of the field it is stored in. */
  function FrameOf(target: nat): (f: nat)
    ensures f < TWO40
  {
    target / PAGE % TWO40
  }

  /** `PFN_TO_PAGE` */
  function PageOf(frame: nat): nat {
    frame * PAGE
  }

  lemma FrameRoundTrip(e: U64)
    ensures FrameOf(PageOf(Frame(e))) == Frame(e)
  {
  }

  /** Memory after the page table entry at `pte` was made to point to `target`. */
  function Remap(m: Memory, pte: nat, target: nat): Memory {
    Store(m, pte, WithFrame(Load(m, pte), FrameOf(target)))
  }

  function RemapAll(m: Memory, pte: nat, targets: seq<nat>): Memory
    decreases |targets|
  {
    if targets == [] then m else Remap(RemapAll(m, pte, targets[..|targets| - 1]), pte, targets[|targets| - 1])
  }

  /** Of two remaps only the second shows. */
  lemma RemapTwice(m: Memory, pte: nat, t: nat, u: nat)
    ensures Remap(Remap(m, pte, t), pte, u) == Remap(m, pte, u)
  {
    WithFrameTwice(Load(m, pte), FrameOf(t), FrameOf(u));
  }

  /**
    `PTE_MMAP_OBJ` can work with this entry: it maps the rogue
    page, and no upper level of that mapping goes through it.
   */
  predicate MapsRoguePage(m: Memory, root: nat, page: nat, pte: nat) {
    && pte / 8 !in UpperWords(m, root, page, 4)
    && var t := Walk(m, root, page, 4);
       t.Mapped? && t.size == PAGE && t.entry == pte
  }

  /** After a remap the rogue page shows the page of the target, cut to 52 bits. */
  lemma RemapMaps(m: Memory, root: nat, page: nat, pte: nat, target: nat)
    requires MapsRoguePage(m, root, page, pte)
    ensures MapsRoguePage(Remap(m, pte, target), root, page, pte)
    ensures Walk(Remap(m, pte, target), root, page, 4) == Mapped(pte, PAGE, PageOf(FrameOf(target)))
  {
    var e := Load(m, pte);
    LastEntryIsPresent(m, root, page, 4);
    WithFrameFields(e, FrameOf(target));
    WalkThroughStore(m, root, page, 4, pte, WithFrame(e, FrameOf(target)));
  }

  lemma {:induction false} LastEntryIsPresent(m: Memory, table: nat, va: nat, level: nat)
    requires 1 <= level <= 4 && Walk(m, table, va, level).Mapped?
    ensures Present(Load(m, Walk(m, table, va, level).entry))
    decreases level
  {
    var e := Load(m, EntryAddress(table, va, level));
    if level > 1 && !(level < 4 && PageSizeBit(e)) {
      LastEntryIsPresent(m, Frame(e) * PAGE, va, level - 1);
    }
  }

  /** The page that is mapped is the one that was asked for exactly when the target is a page address below 2^52. */
  lemma RemapIsExact(target: nat)
    ensures PageOf(FrameOf(target)) == target <==> target % PAGE == 0 && target < TWO52
  {
  }

  /** Over any sequence of remaps no other word changes, and of the entry only its frame. */
  lemma {:induction false} RemapsAreContained(m: Memory, pte: nat, targets: seq<nat>)
    ensures var m' := RemapAll(m, pte, targets);
            && (forall i :: i != pte / 8 ==> Word(m', i) == Word(m, i))
            && (exists f: nat :: f < TWO40 && Load(m', pte) == WithFrame(Load(m, pte), f))
    decreases |targets|
  {
    if targets == [] {
      WithOwnFrame(Load(m, pte));
    } else {
      var front := targets[..|targets| - 1];
      RemapsAreContained(m, pte, front);
      var f: nat :| f < TWO40 && Load(RemapAll(m, pte, front), pte) == WithFrame(Load(m, pte), f);
      WithFrameTwice(Load(m, pte), f, FrameOf(targets[|targets| - 1]));
      assert Load(RemapAll(m, pte, targets), pte) == WithFrame(Load(m, pte), FrameOf(targets[|targets| - 1]));
    }
  }

  /** Over any sequence of remaps every address whose walk does not read the entry keeps its translation. */
  lemma {:induction false} OthersKeepTheirTranslation(m: Memory, pte: nat, targets: seq<nat>, root: nat, va: nat)
    requires pte / 8 !in Words(m, root, va, 4)
    ensures Walk(RemapAll(m, pte, targets), root, va, 4) == Walk(m, root, va, 4)
    ensures Words(RemapAll(m, pte, targets), root, va, 4) == Words(m, root, va, 4)
    decreases |targets|
  {
    if targets != [] {
      var before := RemapAll(m, pte, targets[..|targets| - 1]);
      OthersKeepTheirTranslation(m, pte, targets[..|targets| - 1], root, va);
      WalkAvoiding(before, root, va, 4, pte, WithFrame(Load(before, pte), FrameOf(targets[|targets| - 1])));
    }
  }

  /** Remapping to the address that was saved at the start puts every word of memory back. */
  lemma CleanupRestores(m: Memory, pte: nat, targets: seq<nat>)
    ensures var m' := Remap(RemapAll(m, pte, targets), pte, PageOf(Frame(Load(m, pte))));
            forall i :: Word(m', i) == Word(m, i)
  {
    RemapsAreContained(m, pte, targets);
    var e := Load(m, pte);
    var f: nat :| f < TWO40 && Load(RemapAll(m, pte, targets), pte) == WithFrame(e, f);
    FrameRoundTrip(e);
    WithFrameTwice(e, f, Frame(e));
    WithOwnFrame(e);
  }

  // What a read of physical memory through the rogue page delivers.

  /**
    The byte at address `a` at the moment it is read: the page of `a` is mapped then, which shows in the entry itself.
   */
  function Seen(m: Memory, pte: nat, a: nat): Byte {
    ByteAt(Remap(m, pte, a), a % TWO52)
  }

  lemma SeenIsStable(m: Memory, pte: nat, target: nat, a: nat)
    ensures Seen(Remap(m, pte, target), pte, a) == Seen(m, pte, a)
  {
    RemapTwice(m, pte, target, a);
  }

  /** Outside the eight bytes of the entry this is what memory holds. */
  lemma SeenIsMemory(m: Memory, pte: nat, a: nat)
    requires a % TWO52 / 8 != pte / 8
    ensures Seen(m, pte, a) == ByteAt(m, a % TWO52)
  {
  }

  /** The page that is mapped for an address, and the place of the address in it. */
  lemma AddressInPage(target: nat, a: nat)
    requires target % PAGE == 0 && target <= a < target + PAGE
    ensures FrameOf(target) == FrameOf(a) && PageOf(FrameOf(target)) + (a - target) == a % TWO52
  {
    DivMod(a, PAGE, target / PAGE, a - target);
    var q := a / PAGE;
    DivMod(a, TWO52, q / TWO40, q % TWO40 * PAGE + a % PAGE);
  }
}
