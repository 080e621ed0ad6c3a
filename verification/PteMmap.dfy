/** The object that maps any physical page at one fixed virtual page by rewriting its page table entry. */
module PteMmap {
  import opened Bytes
  import opened PageTables

  /** One processor: physical memory, the register CR3 and the translations its TLB holds, by page of the address. */
  class Processor {
    var memory: Memory
    var tlb: map<nat, nat>
    const cr3: U64
    /** Where the kernel maps physical memory: `phys_to_virt_` is a faithful direct map. */
    const direct: nat

    constructor (memory: Memory, cr3: U64, direct: nat)
      ensures this.memory == memory && this.cr3 == cr3 && this.direct == direct && tlb == map[]
    {
      this.memory, this.cr3, this.direct, this.tlb := memory, cr3, direct, map[];
    }

    /** The physical address of the top-level table. */
    function Root(): nat {
      PageOf(Frame(cr3))
    }

    function PhysToVirt(p: nat): nat {
      direct + p
    }

    /** A 64-bit load through the direct map. */
    method Dereference(pointer: nat) returns (v: U64)
      requires direct <= pointer
      ensures v == Load(memory, pointer - direct)
    {
      v := Load(memory, pointer - direct);
    }

    /** `__invlpg` */
    method Invalidate(page: nat)
      modifies `tlb
      ensures tlb == old(tlb) - {page / PAGE}
    {
      tlb := tlb - {page / PAGE};
    }

    /** A translation is cached at most as the page tables have it now. */
    ghost predicate Fresh(page: nat)
      reads this
    {
      page / PAGE in tlb ==>
        var t := Walk(memory, Root(), page, 4);
        t.Mapped? && t.size == PAGE && tlb[page / PAGE] == t.base
    }

    /**
      A byte load at an address in a 4 KB page. The TLB may have lost the translation or loaded it at any time before;
      a translation that it holds is used, whatever the tables say.
     */
    method LoadByte(page: nat, offset: nat) returns (b: Byte)
      requires page % PAGE == 0 && offset < PAGE
      requires Walk(memory, Root(), page, 4).Mapped? && Walk(memory, Root(), page, 4).size == PAGE
      modifies `tlb
      ensures old(Fresh(page)) ==> Fresh(page) && b == ByteAt(memory, Walk(memory, Root(), page, 4).base + offset)
      ensures forall k :: k in tlb && k != page / PAGE ==> k in old(tlb) && tlb[k] == old(tlb)[k]
    {
      var evicted: bool := *;
      if evicted {
        tlb := tlb - {page / PAGE};
      }
      if page / PAGE !in tlb {
        tlb := tlb[page / PAGE := Walk(memory, Root(), page, 4).base];
      }
      b := ByteAt(memory, tlb[page / PAGE] + offset);
    }
  }

  class Mapper {
    const cpu: Processor
    /** The virtual address of the page whose entry is rewritten, 0 if there is none. */
    var roguePage: nat
    /** A pointer into the direct map. */
    var roguePte: nat
    var originalAddress: nat

    constructor (cpu: Processor)
      ensures this.cpu == cpu && roguePage == 0 && fresh(this)
    {
      this.cpu := cpu;
      roguePage, roguePte, originalAddress := 0, 0, 0;
    }

    /** The physical address of the rogue entry. */
    function Pte(): nat
      reads this
    {
      if cpu.direct <= roguePte then roguePte - cpu.direct else 0
    }

    /**
      The rogue page is a page, the pointer leads to its entry, and no table of its own mapping is reached through it.
     */
    ghost predicate Valid()
      reads this, cpu
    {
      && roguePage != 0 && roguePage % PAGE == 0
      && cpu.direct <= roguePte
      && MapsRoguePage(cpu.memory, cpu.Root(), roguePage, Pte())
    }

    /**
      `virt_find_pte` succeeds exactly for an address that the processor translates through a
      present 4 KB page, and then the pointer leads to the entry the processor uses.
     */
    method FindPte(va: nat) returns (ok: bool, pte: nat)
      ensures var t := Walk(cpu.memory, cpu.Root(), va, 4);
              && (ok <==> t.Mapped? && t.size == PAGE)
              && (ok ==> pte == cpu.PhysToVirt(t.entry))
    {
      // The fields of the address, pml4_index to pt_index.
      var i4, i3, i2, i1 := va / 0x80_0000_0000 % 512, va / 0x4000_0000 % 512, va / 0x20_0000 % 512, va / 0x1000 % 512;
      pte := 0;
      var pml4e := cpu.PhysToVirt(PageOf(Frame(cpu.cr3))) + 8 * i4;
      var e4 := cpu.Dereference(pml4e);
      if !Present(e4) {
        return false, pte;
      }
      var pdpte := cpu.PhysToVirt(PageOf(Frame(e4))) + 8 * i3;
      var e3 := cpu.Dereference(pdpte);
      if !Present(e3) {
        return false, pte;
      }
      if PageSizeBit(e3) {
        return false, pte;
      }
      var pde := cpu.PhysToVirt(PageOf(Frame(e3))) + 8 * i2;
      var e2 := cpu.Dereference(pde);
      if !Present(e2) {
        return false, pte;
      }
      if PageSizeBit(e2) {
        return false, pte;
      }
      pte := cpu.PhysToVirt(PageOf(Frame(e2))) + 8 * i1;
      var e1 := cpu.Dereference(pte);
      ghost var m := cpu.memory;
      assert Walk(m, PageOf(Frame(e2)), va, 1)
          == if Present(e1) then Mapped(pte - cpu.direct, PAGE, Frame(e1) * PAGE) else Fault;
      assert Walk(m, PageOf(Frame(e3)), va, 2) == Walk(m, PageOf(Frame(e2)), va, 1);
      assert Walk(m, PageOf(Frame(e4)), va, 3) == Walk(m, PageOf(Frame(e3)), va, 2);
      if !Present(e1) {
        return false, pte;
      }
      return true, pte;
    }

    /** `pte_mmap_windows_new` for a rogue page that was found and locked; fails if it has no 4 KB page table entry. */
    method Attach(page: nat) returns (ok: bool)
      requires page != 0 && page % PAGE == 0
      modifies this
      ensures ok <==> var t := Walk(cpu.memory, cpu.Root(), page, 4); t.Mapped? && t.size == PAGE
      ensures ok && old(Walk(cpu.memory, cpu.Root(), page, 4)).entry / 8
                    !in UpperWords(cpu.memory, cpu.Root(), page, 4) ==>
                Valid() && roguePage == page
      ensures ok ==> originalAddress == PageOf(Frame(Load(cpu.memory, Pte())))
    {
      roguePage := page;
      ok, roguePte := FindPte(page);
      if ok {
        var e := cpu.Dereference(roguePte);
        originalAddress := PageOf(Frame(e));
      }
    }

    /**
      `pte_remap_rogue_page`. The test for alignment applies the logical NOT to the target and so lets every target
      pass: the result only depends on the rogue page. Bits of the target that do not fit the frame field are dropped.
     */
    method RemapPage(target: nat) returns (ok: bool)
      requires roguePage != 0 ==> cpu.direct <= roguePte
      modifies cpu
      ensures ok <==> roguePage != 0 && roguePage % PAGE == 0
      ensures cpu.memory == if ok then Remap(old(cpu.memory), Pte(), target) else old(cpu.memory)
      ensures cpu.tlb == if ok then old(cpu.tlb) - {roguePage / PAGE} else old(cpu.tlb)
    {
      if roguePage == 0 {
        return false;
      }
      var negated := if target == 0 then 1 else 0;
      var masked := negated - negated % PAGE;
      if masked != 0 || roguePage % PAGE != 0 {
        return false;
      }
      var e := cpu.Dereference(roguePte);
      cpu.memory := Store(cpu.memory, roguePte - cpu.direct, WithFrame(e, FrameOf(target)));
      cpu.Invalidate(roguePage);
      return true;
    }

    /** `pte_mmap_cleanup` */
    method Cleanup()
      requires Valid()
      modifies cpu
      ensures cpu.memory == Remap(old(cpu.memory), Pte(), originalAddress)
    {
      var _ := RemapPage(originalAddress);
    }
  }

  /** A target that is not a page address is not refused: it is mapped as the page it lies in. */
  lemma UnalignedTargetIsAccepted(m: Memory, root: nat, page: nat, pte: nat)
    requires MapsRoguePage(m, root, page, pte)
    ensures Walk(Remap(m, pte, 0x1001), root, page, 4) == Mapped(pte, PAGE, 0x1000)
  {
    hide Walk, Remap;
    RemapMaps(m, root, page, pte, 0x1001);
  }
}
