/** The bit fields of the page tables, and what a walk comes to in terms of them. */
module PageFields {
  import opened Division
  import opened PageTables

  type Bit = b: nat | b < 2

  /**
    `PML4E`, `PDPTE`, `PDE` and `PTE`, whose fields lie alike. In a `PML4E` the bits of `dirty` and
    `pageSize` mean nothing, in a `PTE` that of `pageSize` is `pat`.
   */
  datatype Fields = Fields(present: Bit, rw: Bit, user: Bit, writeThrough: Bit, cacheDisable: Bit, accessed: Bit,
                           dirty: Bit, pageSize: Bit, ignored: nat, frame: nat, ignored3: nat, xd: Bit) {
    ghost predicate Fit() {
      ignored < 16 && frame < 0x100_0000_0000 && ignored3 < 2048
    }

    /** The first field is the lowest. */
    function Value(): nat {
      present + 2 * rw + 4 * user + 8 * writeThrough + 16 * cacheDisable + 32 * accessed + 64 * dirty + 128 * pageSize
      + 256 * ignored + 0x1000 * frame + 0x10_0000_0000_0000 * ignored3 + 0x8000_0000_0000_0000 * xd
    }
  }

  /** `VIRT_ADDR` */
  datatype Address = Address(offset: nat, pt: nat, pd: nat, pdpt: nat, pml4: nat, reserved: nat) {
    ghost predicate Fit() {
      offset < 4096 && pt < 512 && pd < 512 && pdpt < 512 && pml4 < 512 && reserved < 0x1_0000
    }

    function Value(): nat {
      offset + 0x1000 * pt + 0x20_0000 * pd + 0x4000_0000 * pdpt + 0x80_0000_0000 * pml4 + 0x1_0000_0000_0000 * reserved
    }
  }

  /** `PTE_CR3` */
  datatype Cr3 = Cr3(ignored1: nat, writeThrough: Bit, cacheDisable: Bit, ignored2: nat, pml4: nat, reserved: nat) {
    ghost predicate Fit() {
      ignored1 < 8 && ignored2 < 128 && pml4 < 0x100_0000_0000 && reserved < 4096
    }

    function Value(): nat {
      ignored1 + 8 * writeThrough + 16 * cacheDisable + 32 * ignored2 + 0x1000 * pml4 + 0x10_0000_0000_0000 * reserved
    }
  }

  /** A field of a number, and the bits below it. */
  lemma FieldAbove(e: nat, k: nat, width: nat)
    requires k > 0 && width > 0
    ensures k * width > 0 && e % (k * width) == e % k + k * (e / k % width)
  {
    AtLeastOnce(k, width);
    var q, r := e / k, e % k;
    FieldOf(e, k, width, q, q / width, q % width, r);
  }

  lemma FieldOf(e: nat, k: nat, width: nat, q: nat, p: nat, s: nat, r: nat)
    requires r < k && s < width && k * width > 0 && q == width * p + s && e == k * q + r
    ensures e % (k * width) == r + k * s
  {
    var all := k * width;
    Distribute(k, width, p, s);
    AtLeastOnce(k, width - s);
    DivMod(e, all, p, r + k * s);
  }

  lemma Distribute(k: nat, width: nat, p: nat, s: nat)
    requires s < width
    ensures k * (width * p + s) == k * width * p + k * s
    ensures k * (width - s) == k * width - k * s
  {
  }

  /** Every word is an entry. */
  lemma EveryWordIsAnEntry(e: U64) returns (f: Fields)
    ensures f.Fit() && f.Value() == e
  {
    var high := e / 0x10_0000_0000_0000;
    f := Fields(e % 2, e / 2 % 2, e / 4 % 2, e / 8 % 2, e / 16 % 2, e / 32 % 2, e / 64 % 2, e / 128 % 2,
                e / 256 % 16, e / 0x1000 % 0x100_0000_0000, high % 2048, high / 2048);
    FieldAbove(e, 2, 2);
    FieldAbove(e, 4, 2);
    FieldAbove(e, 8, 2);
    FieldAbove(e, 16, 2);
    FieldAbove(e, 32, 2);
    FieldAbove(e, 64, 2);
    FieldAbove(e, 128, 2);
    FieldAbove(e, 256, 16);
    FieldAbove(e, 0x1000, 0x100_0000_0000);
  }

  /** The eight bytes of a word of memory, the lowest first. */
  lemma BytesOfWord(m: Memory, i: nat)
    ensures Word(m, i)
         == ByteAt(m, 8 * i) as nat + 0x100 * ByteAt(m, 8 * i + 1) as nat + 0x1_0000 * ByteAt(m, 8 * i + 2) as nat
          + 0x100_0000 * ByteAt(m, 8 * i + 3) as nat + 0x1_0000_0000 * ByteAt(m, 8 * i + 4) as nat
          + 0x100_0000_0000 * ByteAt(m, 8 * i + 5) as nat + 0x1_0000_0000_0000 * ByteAt(m, 8 * i + 6) as nat
          + 0x100_0000_0000_0000 * ByteAt(m, 8 * i + 7) as nat
  {
    hide ByteAt, Word;
    ByteOfWord(m, i, 0);
    ByteOfWord(m, i, 1);
    ByteOfWord(m, i, 2);
    ByteOfWord(m, i, 3);
    ByteOfWord(m, i, 4);
    ByteOfWord(m, i, 5);
    ByteOfWord(m, i, 6);
    ByteOfWord(m, i, 7);
    BytesRecombine(Word(m, i));
  }

  lemma ByteOfWord(m: Memory, i: nat, j: nat)
    requires j < 8
    ensures ByteAt(m, 8 * i + j) as nat == Word(m, i) / Power256(j) % 256
  {
    DivMod(8 * i + j, 8, i, j);
  }

  lemma BytesRecombine(w: U64)
    ensures w == w % 256 + 0x100 * (w / 0x100 % 256) + 0x1_0000 * (w / 0x1_0000 % 256)
               + 0x100_0000 * (w / 0x100_0000 % 256) + 0x1_0000_0000 * (w / 0x1_0000_0000 % 256)
               + 0x100_0000_0000 * (w / 0x100_0000_0000 % 256) + 0x1_0000_0000_0000 * (w / 0x1_0000_0000_0000 % 256)
               + 0x100_0000_0000_0000 * (w / 0x100_0000_0000_0000 % 256)
  {
    FieldAbove(w, 0x100, 256);
    FieldAbove(w, 0x1_0000, 256);
    FieldAbove(w, 0x100_0000, 256);
    FieldAbove(w, 0x1_0000_0000, 256);
    FieldAbove(w, 0x100_0000_0000, 256);
    FieldAbove(w, 0x1_0000_0000_0000, 256);
    FieldAbove(w, 0x100_0000_0000_0000, 256);
  }

  /** The bits of an entry that the walk looks at are the fields `present`, `page_size` and the frame. */
  lemma EntryFields(f: Fields)
    requires f.Fit()
    ensures f.Value() < TWO64
    ensures Present(f.Value()) <==> f.present == 1
    ensures PageSizeBit(f.Value()) <==> f.pageSize == 1
    ensures Frame(f.Value()) == f.frame
  {
    var flags := f.rw + 2 * f.user + 4 * f.writeThrough + 8 * f.cacheDisable + 16 * f.accessed + 32 * f.dirty;
    var top := f.ignored3 + 2048 * f.xd;
    var page := f.frame + TWO40 * top;
    var upper := f.pageSize + 2 * (f.ignored + 16 * page);
    var v := f.Value();
    DivMod(v, 2, flags + 64 * upper, f.present);
    DivMod(v, 128, upper, f.present + 2 * flags);
    DivMod(v, PAGE, page, f.present + 2 * flags + 128 * f.pageSize + 256 * f.ignored);
    DivMod(page, TWO40, top, f.frame);
  }

  /** A remap writes the frame and leaves the other fields alone. */
  lemma FrameIsWritten(f: Fields, frame: nat)
    requires f.Fit() && frame < TWO40
    ensures f.Value() < TWO64 && WithFrame(f.Value(), frame) == f.(frame := frame).Value()
  {
    EntryFields(f);
    var low := f.(frame := 0, ignored3 := 0, xd := 0).Value();
    var top := f.ignored3 + 2048 * f.xd;
    DivMod(f.Value(), PAGE, f.frame + TWO40 * top, low);
    DivMod(f.Value(), TWO52, top, low + PAGE * f.frame);
  }

  /** The index of the entry in a table, at each level. */
  function Index(a: Address, level: nat): nat
    requires 1 <= level <= 4
  {
    match level
    case 1 => a.pt
    case 2 => a.pd
    case 3 => a.pdpt
    case 4 => a.pml4
  }

  lemma AddressFields(a: Address, level: nat)
    requires a.Fit() && 1 <= level <= 4
    ensures a.Value() / Span(level) % 512 == Index(a, level)
  {
    var t4 := a.pml4 + 512 * a.reserved;
    var t3 := a.pdpt + 512 * t4;
    var t2 := a.pd + 512 * t3;
    var t1 := a.pt + 512 * t2;
    var v := a.Value();
    match level
    case 1 =>
      DivMod(v, 0x1000, t1, a.offset);
      DivMod(t1, 512, t2, a.pt);
    case 2 =>
      DivMod(v, 0x20_0000, t2, a.offset + 0x1000 * a.pt);
      DivMod(t2, 512, t3, a.pd);
    case 3 =>
      DivMod(v, 0x4000_0000, t3, a.offset + 0x1000 * a.pt + 0x20_0000 * a.pd);
      DivMod(t3, 512, t4, a.pdpt);
    case 4 =>
      DivMod(v, 0x80_0000_0000, t4, a.offset + 0x1000 * a.pt + 0x20_0000 * a.pd + 0x4000_0000 * a.pdpt);
      DivMod(t4, 512, a.reserved, a.pml4);
  }

  /** The top-level table. */
  lemma RootByFields(cr3: Cr3)
    requires cr3.Fit()
    ensures cr3.Value() < TWO64 && PageOf(Frame(cr3.Value())) == 4096 * cr3.pml4
  {
    var low := cr3.ignored1 + 8 * cr3.writeThrough + 16 * cr3.cacheDisable + 32 * cr3.ignored2;
    DivMod(cr3.Value(), PAGE, cr3.pml4 + TWO40 * cr3.reserved, low);
    DivMod(cr3.pml4 + TWO40 * cr3.reserved, TWO40, cr3.reserved, cr3.pml4);
  }

  /** One level of a walk, for the entry that lies there. */
  lemma WalkLevel(m: Memory, frame: nat, a: Address, level: nat, f: Fields)
    requires a.Fit() && f.Fit() && 1 <= level <= 4 && Word(m, 512 * frame + Index(a, level)) == f.Value()
    ensures Walk(m, 4096 * frame, a.Value(), level)
         == if f.present == 0 then Fault
            else if level == 1 then Mapped(4096 * frame + 8 * a.pt, 4096, 4096 * f.frame)
            else if level < 4 && f.pageSize == 1 then
              Mapped(4096 * frame + 8 * Index(a, level), Span(level), 4096 * f.frame / Span(level) * Span(level))
            else Walk(m, 4096 * f.frame, a.Value(), level - 1)
  {
    hide Fields.Value, Address.Value, Present, PageSizeBit, Frame, Span;
    EntryFields(f);
    AddressFields(a, level);
    var p := EntryAddress(4096 * frame, a.Value(), level);
    assert p == 4096 * frame + 8 * Index(a, level);
    DivMod(p, 8, 512 * frame + Index(a, level), 0);
  }

  /**
    Through the tables that CR3 and the frames of the entries lead to, the processor maps an address by a 4 KB page
    exactly if all four entries are present and neither of the middle ones maps a large page; and then by the entry of
    the last table, and to the frame in it.
   */
  lemma WalkByFields(m: Memory, cr3: Cr3, a: Address, e4: Fields, e3: Fields, e2: Fields, e1: Fields)
    requires cr3.Fit() && a.Fit() && e4.Fit() && e3.Fit() && e2.Fit() && e1.Fit()
    requires Word(m, 512 * cr3.pml4 + a.pml4) == e4.Value() && Word(m, 512 * e4.frame + a.pdpt) == e3.Value()
    requires Word(m, 512 * e3.frame + a.pd) == e2.Value() && Word(m, 512 * e2.frame + a.pt) == e1.Value()
    ensures cr3.Value() < TWO64
    ensures var t := Walk(m, PageOf(Frame(cr3.Value())), a.Value(), 4);
            && (t.Mapped? && t.size == 4096 <==>
                  e4.present == 1 && e3.present == 1 && e3.pageSize == 0 && e2.present == 1 && e2.pageSize == 0
                  && e1.present == 1)
            && (t.Mapped? && t.size == 4096 ==> t.entry == 4096 * e2.frame + 8 * a.pt && t.base == 4096 * e1.frame)
  {
    hide Walk, Frame, Word, Fields.Value, Address.Value, Cr3.Value;
    RootByFields(cr3);
    WalkLevel(m, cr3.pml4, a, 4, e4);
    WalkLevel(m, e4.frame, a, 3, e3);
    WalkLevel(m, e3.frame, a, 2, e2);
    WalkLevel(m, e2.frame, a, 1, e1);
  }

  /** Every 64-bit number is an address. */
  lemma EveryWordIsAnAddress(va: U64) returns (a: Address)
    ensures a.Fit() && a.Value() == va
  {
    a := Address(va % 0x1000, va / 0x1000 % 512, va / 0x20_0000 % 512, va / 0x4000_0000 % 512,
                 va / 0x80_0000_0000 % 512, va / 0x1_0000_0000_0000);
    FieldAbove(va, 0x1000, 512);
    FieldAbove(va, 0x20_0000, 512);
    FieldAbove(va, 0x4000_0000, 512);
    FieldAbove(va, 0x80_0000_0000, 512);
  }

  /** Every 64-bit number is a CR3. */
  lemma EveryWordIsACr3(v: U64) returns (c: Cr3)
    ensures c.Fit() && c.Value() == v
  {
    c := Cr3(v % 8, v / 8 % 2, v / 16 % 2, v / 32 % 128, v / 0x1000 % 0x100_0000_0000, v / 0x10_0000_0000_0000);
    FieldAbove(v, 8, 2);
    FieldAbove(v, 16, 2);
    FieldAbove(v, 32, 128);
    FieldAbove(v, 0x1000, 0x100_0000_0000);
  }

  /** So the fields say of every address, in every memory, what its walk comes to. */
  lemma EveryWalkByFields(m: Memory, cr3: U64, va: U64)
    returns (c: Cr3, a: Address, e4: Fields, e3: Fields, e2: Fields, e1: Fields)
    ensures c.Fit() && c.Value() == cr3 && a.Fit() && a.Value() == va
    ensures e4.Fit() && e4.Value() == Word(m, 512 * c.pml4 + a.pml4)
    ensures e3.Fit() && e3.Value() == Word(m, 512 * e4.frame + a.pdpt)
    ensures e2.Fit() && e2.Value() == Word(m, 512 * e3.frame + a.pd)
    ensures e1.Fit() && e1.Value() == Word(m, 512 * e2.frame + a.pt)
    ensures var t := Walk(m, PageOf(Frame(cr3)), va, 4);
            && (t.Mapped? && t.size == 4096 <==>
                  e4.present == 1 && e3.present == 1 && e3.pageSize == 0 && e2.present == 1 && e2.pageSize == 0
                  && e1.present == 1)
            && (t.Mapped? && t.size == 4096 ==> t.entry == 4096 * e2.frame + 8 * a.pt && t.base == 4096 * e1.frame)
  {
    hide Walk, Frame, Word, Fields.Value, Address.Value, Cr3.Value;
    c := EveryWordIsACr3(cr3);
    a := EveryWordIsAnAddress(va);
    e4 := EveryWordIsAnEntry(Word(m, 512 * c.pml4 + a.pml4));
    e3 := EveryWordIsAnEntry(Word(m, 512 * e4.frame + a.pdpt));
    e2 := EveryWordIsAnEntry(Word(m, 512 * e3.frame + a.pd));
    e1 := EveryWordIsAnEntry(Word(m, 512 * e2.frame + a.pt));
    WalkByFields(m, c, a, e4, e3, e2, e1);
  }
}
