/** The driver: its device extension, the three ways to read a page, and the loop that serves a read request. */
module DeviceRead {
  import opened Division
  import opened Bytes
  import opened PageTables
  import opened PteMmap

  const MODE_IOSPACE: nat := 0
  const MODE_PHYSICAL: nat := 1
  const MODE_PTE: nat := 2

  datatype Status =
    | Success
    | Unsuccessful
    | NotImplemented
    | InvalidParameter
    | InsufficientResources
    | IoDeviceError
    | AccessViolation

  datatype Handler = IoSpace | Physical | Pte

  /** What the driver asks the rest of the kernel for on behalf of a read. */
  datatype Request =
    | List
    | Lock
    | Address
    | Mapping
    | Copy
    | Probe

  /**
    The rest of the kernel: it grants or refuses what it is asked for, as it likes, and
    a copy or a probe that raises an exception is refused. The ghost fields keep account.
   */
  class Kernel {
    ghost var asked: seq<Request>
    /** How many requests were refused, and which one was the last of them. */
    ghost var refusals: nat
    ghost var latest: Request
    /** How often the section of physical memory could not be opened or mapped. */
    ghost var misses: nat

    constructor ()
      ensures asked == [] && refusals == misses == 0
    {
      asked, refusals, latest, misses := [], 0, List, 0;
    }

    method Grant(ghost what: Request) returns (ok: bool)
      modifies `asked, `refusals, `latest
      ensures asked == old(asked) + [what]
      ensures if ok then refusals == old(refusals) && latest == old(latest)
              else refusals == old(refusals) + 1 && latest == what
    {
      ok := *;
      asked := asked + [what];
      if !ok {
        refusals, latest := refusals + 1, what;
      }
    }

    /** `ZwOpenSection` and `ZwMapViewOfSection` */
    method GrantSection() returns (ok: bool)
      modifies `misses
      ensures misses == if ok then old(misses) else old(misses) + 1
    {
      ok := *;
      if !ok {
        misses := misses + 1;
      }
    }
  }

  /** The status of a read in which this was refused. */
  function StatusOf(refused: Request): Status {
    match refused
    case List => InsufficientResources
    case Lock => AccessViolation
    case Address => InsufficientResources
    case Mapping => IoDeviceError
    case Copy => IoDeviceError
    case Probe => Success
  }

  /** How many pages hold the bytes from `offset` to `offset + n`. */
  function PagesTouched(offset: nat, n: nat): nat {
    if n == 0 then 0 else (offset % PAGE + n - 1) / PAGE + 1
  }

  lemma OnePageMore(offset: nat, total: nat, n: nat)
    requires total == 0 || (offset + total) % PAGE == 0
    requires 0 < n <= PAGE - (offset + total) % PAGE
    ensures PagesTouched(offset, total + n) == PagesTouched(offset, total) + 1
  {
    var o := offset % PAGE;
    if total == 0 {
      DivMod(o + n - 1, PAGE, 0, o + n - 1);
    } else {
      var q := (offset + total) / PAGE - offset / PAGE;
      assert o + total == q * PAGE;
      DivMod(o + total - 1, PAGE, q - 1, PAGE - 1);
      DivMod(o + total + n - 1, PAGE, q, n - 1);
    }
  }

  class Extension {
    const cpu: Processor
    const kernel: Kernel
    /** Whether the section of physical memory is open. */
    var memoryHandle: bool
    var mode: nat
    var mapper: Mapper?
    /** Whether the fast mutex is held. */
    var held: bool
    /** Memory descriptor lists that are allocated, and those whose pages are locked. */
    var mdls: nat
    var locks: nat
    /** Memory when the driver was loaded. */
    ghost var pristine: Memory

    ghost predicate Valid()
      reads `mode, `mapper, `pristine, cpu, mapper
    {
      && mode <= 2 && (mode == MODE_PTE ==> mapper != null)
      && (mapper == null ==> cpu.memory == pristine)
      && (mapper != null ==>
            && mapper.cpu == cpu && mapper.Valid()
            && mapper.originalAddress == PageOf(Frame(Load(pristine, mapper.Pte())))
            && Borrowed(pristine, cpu.memory, mapper.Pte()))
    }

    /**
      `DriverEntry` after the device exists. The rogue page must have a page table entry of its
      own, through which none of its tables is reached; without one the driver does not load.
     */
    constructor (cpu: Processor, kernel: Kernel, mapper: Mapper)
      requires mapper.cpu == cpu && mapper.Valid()
               && mapper.originalAddress == PageOf(Frame(Load(cpu.memory, mapper.Pte())))
      ensures Valid() && mode == MODE_PHYSICAL && !memoryHandle && !held && mdls == locks == 0
      ensures this.cpu == cpu && this.kernel == kernel && this.mapper == mapper && pristine == cpu.memory
    {
      this.cpu, this.kernel, this.mapper := cpu, kernel, mapper;
      mode, memoryHandle, held, mdls, locks := MODE_PHYSICAL, false, false, 0, 0;
      pristine := cpu.memory;
    }

    /** What a page delivers at a physical address if nothing goes wrong. */
    ghost function Reading(h: Handler, a: nat): Byte
      reads `mapper, cpu, mapper
    {
      match h
      case Pte => if mapper != null then Seen(cpu.memory, mapper.Pte(), a) else 0
      case _ => ByteAt(cpu.memory, a)
    }

    /** A handler that maps the page itself delivers its window, or nothing if the mapping or the copy is refused. */
    ghost predicate AllOrNothing(n: nat, window: nat, refusals: nat)
      reads kernel
    {
      if kernel.refusals == refusals then n == window
      else n == 0 && kernel.refusals == refusals + 1 && kernel.latest in {Mapping, Copy}
    }

    /** There is nothing to map pages with. */
    predicate Unmappable(h: Handler)
      reads `mapper
    {
      h == Pte && mapper == null
    }

    /** A page is only missed by the handler of the section. */
    ghost predicate Missing(h: Handler, misses: nat)
      reads kernel
    {
      kernel.misses >= misses && (h != Physical ==> kernel.misses == misses)
    }

    /** `IOCTL_SET_MODE` */
    method SetMode(requested: nat) returns (status: Status)
      requires Valid()
      modifies `mode
      ensures Valid()
      ensures status == Success <==>
                requested == MODE_PHYSICAL || requested == MODE_IOSPACE || (requested == MODE_PTE && mapper != null)
      ensures mode == if status == Success then requested else old(mode)
      ensures status == if requested > 2 then InvalidParameter else if status == Success then Success else Unsuccessful
    {
      if requested == MODE_PHYSICAL {
        status, mode := Success, requested;
      } else if requested == MODE_IOSPACE {
        status, mode := Success, requested;
      } else if requested == MODE_PTE {
        if mapper == null {
          status := Unsuccessful;
        } else {
          status, mode := Success, requested;
        }
      } else {
        status := InvalidParameter;
      }
    }

    method EnsureExtensionHandle() returns (ok: bool)
      modifies `memoryHandle, kernel`misses
      ensures ok == memoryHandle && (old(memoryHandle) ==> ok)
      ensures kernel.misses == if ok then old(kernel.misses) else old(kernel.misses) + 1
    {
      if !memoryHandle {
        var success := kernel.GrantSection();
        memoryHandle := success;
        if !success {
          return false;
        }
      }
      return true;
    }

    /**
      `PhysicalMemoryPartialRead` reports all bytes as read even if there was nothing to copy them from: it leaves
      zeros if the page could not be mapped, and what was in the buffer if the section could not be opened.
     */
    method PhysicalPartialRead(offset: nat, buffer: array<Byte>, start: nat, count: nat) returns (n: nat)
      requires start + count <= buffer.Length
      modifies `memoryHandle, kernel`misses, buffer
      ensures n == Min(PAGE - offset % PAGE, count)
      ensures old(kernel.misses) <= kernel.misses <= old(kernel.misses) + 1
      ensures kernel.misses == old(kernel.misses) ==>
                forall k :: start <= k < start + n ==> buffer[k] == ByteAt(cpu.memory, offset + (k - start))
      ensures kernel.misses > old(kernel.misses) ==>
                forall k :: start <= k < start + n ==> buffer[k] == if memoryHandle then 0 else old(buffer[k])
      ensures forall i :: 0 <= i < buffer.Length && !(start <= i < start + n) ==> buffer[i] == old(buffer[i])
    {
      var pageOffset := offset % PAGE;
      n := Min(PAGE - pageOffset, count);
      var ok := EnsureExtensionHandle();
      if ok {
        var mapped := kernel.GrantSection();
        if mapped {
          forall k | start <= k < start + n {
            buffer[k] := ByteAt(cpu.memory, offset + (k - start));
          }
        } else {
          forall k | start <= k < start + n {
            buffer[k] := 0;
          }
        }
      }
    }

    /** `MapIOPagePartialRead`; a copy that faults may have written some bytes already. */
    method IoSpacePartialRead(offset: nat, buffer: array<Byte>, start: nat, count: nat) returns (n: nat)
      requires start + count <= buffer.Length
      modifies buffer, kernel`asked, kernel`refusals, kernel`latest
      ensures old(kernel.asked) <= kernel.asked
      ensures AllOrNothing(n, Min(PAGE - offset % PAGE, count), old(kernel.refusals))
      ensures forall k :: start <= k < start + n ==> buffer[k] == ByteAt(cpu.memory, offset + (k - start))
      ensures forall i :: 0 <= i < buffer.Length && !(start <= i < start + Min(PAGE - offset % PAGE, count)) ==>
                buffer[i] == old(buffer[i])
    {
      var pageOffset := offset % PAGE;
      var toRead := Min(PAGE - pageOffset, count);
      var viewBase := offset - pageOffset;
      var mapped := kernel.Grant(Mapping);
      if !mapped {
        return 0;
      }
      n := 0;
      while n < toRead
        invariant n <= toRead && kernel.refusals == old(kernel.refusals) && old(kernel.asked) <= kernel.asked
        invariant forall k :: start <= k < start + n ==> buffer[k] == ByteAt(cpu.memory, offset + (k - start))
        invariant forall i :: 0 <= i < buffer.Length && !(start <= i < start + toRead) ==> buffer[i] == old(buffer[i])
      {
        var copied := kernel.Grant(Copy);
        if !copied {
          return 0;
        }
        buffer[start + n] := ByteAt(cpu.memory, viewBase + pageOffset + n);
        n := n + 1;
      }
    }

    /** `PTEMmapPartialRead`: the page of the offset is mapped at the rogue page and copied from there. */
    method PtePartialRead(offset: nat, buffer: array<Byte>, start: nat, count: nat) returns (n: nat)
      requires start + count <= buffer.Length
      requires Valid()
      modifies buffer, cpu, kernel`asked, kernel`refusals, kernel`latest
      ensures Valid() && old(kernel.asked) <= kernel.asked
      ensures if mapper == null then n == 0 && kernel.refusals == old(kernel.refusals)
              else AllOrNothing(n, Min(PAGE - offset % PAGE, count), old(kernel.refusals))
      ensures forall k :: start <= k < start + n ==> buffer[k] == old(Reading(Pte, offset + (k - start)))
      ensures forall a :: Reading(Pte, a) == old(Reading(Pte, a))
      ensures forall i :: 0 <= i < buffer.Length && !(start <= i < start + Min(PAGE - offset % PAGE, count)) ==>
                buffer[i] == old(buffer[i])
    {
      hide Seen, Walk, Remap, MapsRoguePage, Borrowed, ByteAt;
      var pageOffset := offset % PAGE;
      var toRead := Min(PAGE - pageOffset, count);
      n := 0;
      if mapper != null {
        var target := offset - pageOffset;
        ghost var m, pte := cpu.memory, mapper.Pte();
        RemapForRead(pristine, m, cpu.Root(), mapper.roguePage, pte, target);
        var ok := mapper.RemapPage(target);
        if ok {
          assert cpu.Fresh(mapper.roguePage);
          n := CopyFromRoguePage(pageOffset, buffer, start, toRead);
        }
      }
    }

    /**
      `RtlCopyMemory` from the rogue page; it may fault. The page
      shows what its entry says as long as the TLB is fresh.
     */
    method CopyFromRoguePage(pageOffset: nat, buffer: array<Byte>, start: nat, count: nat) returns (n: nat)
      requires start + count <= buffer.Length && pageOffset + count <= PAGE
      requires mapper != null && mapper.cpu == cpu && mapper.Valid() && cpu.Fresh(mapper.roguePage)
      modifies buffer, cpu`tlb, kernel`asked, kernel`refusals, kernel`latest
      ensures old(kernel.asked) <= kernel.asked
      ensures AllOrNothing(n, count, old(kernel.refusals))
      ensures var base := Walk(cpu.memory, cpu.Root(), mapper.roguePage, 4).base;
              forall k :: start <= k < start + n ==> buffer[k] == ByteAt(cpu.memory, base + pageOffset + (k - start))
      ensures forall i :: 0 <= i < buffer.Length && !(start <= i < start + count) ==> buffer[i] == old(buffer[i])
    {
      ghost var base := Walk(cpu.memory, cpu.Root(), mapper.roguePage, 4).base;
      n := 0;
      while n < count
        invariant n <= count && cpu.Fresh(mapper.roguePage)
        invariant kernel.refusals == old(kernel.refusals) && old(kernel.asked) <= kernel.asked
        invariant forall k :: start <= k < start + n ==>
                    buffer[k] == ByteAt(cpu.memory, base + pageOffset + (k - start))
        invariant forall i :: 0 <= i < buffer.Length && !(start <= i < start + count) ==> buffer[i] == old(buffer[i])
      {
        var copied := kernel.Grant(Copy);
        if !copied {
          return 0;
        }
        var b := cpu.LoadByte(mapper.roguePage, pageOffset + n);
        buffer[start + n] := b;
        n := n + 1;
      }
    }

    /** Only the section handler never fails, and of the other two one needs the object that maps pages. */
    method CallHandler(h: Handler, offset: nat, buffer: array<Byte>, start: nat, count: nat) returns (n: nat)
      requires start + count <= buffer.Length && Valid()
      modifies `memoryHandle, buffer, cpu, kernel
      ensures Valid() && Missing(h, old(kernel.misses)) && old(kernel.asked) <= kernel.asked
      ensures if Unmappable(h) then n == 0 && kernel.refusals == old(kernel.refusals)
              else AllOrNothing(n, Min(PAGE - offset % PAGE, count), old(kernel.refusals))
      ensures h == Physical ==> kernel.refusals == old(kernel.refusals)
      ensures kernel.misses == old(kernel.misses) ==> forall k :: start <= k < start + n ==>
                buffer[k] == old(Reading(h, offset + (k - start)))
      ensures forall a :: Reading(h, a) == old(Reading(h, a))
      ensures forall i :: 0 <= i < buffer.Length && !(start <= i < start + Min(PAGE - offset % PAGE, count)) ==>
                buffer[i] == old(buffer[i])
    {
      match h {
        case IoSpace => n := IoSpacePartialRead(offset, buffer, start, count);
        case Physical => n := PhysicalPartialRead(offset, buffer, start, count);
        case Pte => n := PtePartialRead(offset, buffer, start, count);
      }
    }

    /** The first half of the loop of `DeviceRead`: a list for the window, which is locked and given an address. */
    method LockBuffer() returns (status: Status, noMdl: bool)
      modifies `mdls, `locks, kernel`asked, kernel`refusals, kernel`latest
      ensures status in {Success, AccessViolation, InsufficientResources}
      ensures mdls - old(mdls) == locks - old(locks) == if status == Success then 1 else 0
      ensures kernel.asked == old(kernel.asked)
                              + if noMdl then [List]
                                else if status == AccessViolation then [List, Lock] else [List, Lock, Address]
      ensures if status == Success then kernel.refusals == old(kernel.refusals)
              else kernel.refusals == old(kernel.refusals) + 1 && kernel.latest in {List, Lock, Address}
                   && status == StatusOf(kernel.latest)
      ensures noMdl <==> status != Success && kernel.latest == List
    {
      var granted := kernel.Grant(List);
      if !granted {
        return InsufficientResources, true;
      }
      mdls := mdls + 1;
      var accessible := kernel.Grant(Lock);
      if !accessible {
        mdls := mdls - 1;
        return AccessViolation, false;
      }
      locks := locks + 1;
      var addressable := kernel.Grant(Address);
      if !addressable {
        locks := locks - 1;
        mdls := mdls - 1;
        return InsufficientResources, false;
      }
      return Success, false;
    }

    /**
      The body of the loop of `DeviceRead`: at most one page, through a memory descriptor
      list of its own. On every way out the list is freed and its pages are unlocked.
     */
    method ReadWindow(h: Handler, offset: nat, user: array<Byte>, start: nat, window: nat)
      returns (status: Status, n: nat, noMdl: bool)
      requires Valid() && 0 < window && start + window <= user.Length
      modifies `memoryHandle, `mdls, `locks, user, cpu, kernel
      ensures Valid() && Missing(h, old(kernel.misses))
      ensures mdls == old(mdls) && locks == old(locks)
      ensures n == if status == Success then Min(PAGE - offset % PAGE, window) else 0
      ensures if status == Success then kernel.refusals == old(kernel.refusals) && !Unmappable(h)
              else Refused(h, status, noMdl, old(kernel.refusals))
      ensures noMdl ==> status == InsufficientResources
      ensures status in {Success, IoDeviceError} ==> old(kernel.asked) + [List, Lock, Address] <= kernel.asked
      ensures old(kernel.asked) <= kernel.asked
      ensures kernel.misses == old(kernel.misses) ==> forall k :: start <= k < start + n ==>
                user[k] == old(Reading(h, offset + (k - start)))
      ensures forall a :: Reading(h, a) == old(Reading(h, a))
      ensures forall i :: 0 <= i < user.Length && !(start <= i < start + Min(PAGE - offset % PAGE, window)) ==>
                user[i] == old(user[i])
    {
      hide Valid, Reading;
      n := 0;
      status, noMdl := LockBuffer();
      if status != Success {
        return;
      }
      n := CallHandler(h, offset, user, start, window);
      status := if n == 0 then IoDeviceError else Success;
      locks := locks - 1;
      mdls := mdls - 1;
    }

    /**
      Why a read ended with a status other than success: the kernel refused one thing that has this
      status, and a list exactly if `noMdl`; or there is nothing to map pages with.
     */
    ghost predicate Refused(h: Handler, status: Status, noMdl: bool, refusals: nat)
      reads `mapper, kernel
    {
      if kernel.refusals == refusals then Unmappable(h) && status == IoDeviceError && !noMdl
      else
        && kernel.refusals == refusals + 1 && kernel.latest != Probe && status == StatusOf(kernel.latest)
        && (noMdl <==> kernel.latest == List) && (h == Physical ==> kernel.latest in {List, Lock, Address})
    }

    /**
      `DeviceRead`. It succeeds exactly if the kernel refuses nothing and there is something to map pages with, and
      then every byte asked for was read. Otherwise the status tells what was refused: the pages before were read, the
      buffer behind the window in which it happened is as it was. Whatever happens, all memory descriptor lists are
      freed and all pages unlocked; the mutex is released unless a list could not be allocated (`noMdl`), and a
      handler is called as rarely as pages allow.
     */
    method Read(h: Handler, offset: nat, user: array<Byte>, length: nat)
      returns (status: Status, total: nat, noMdl: bool, ghost calls: nat)
      requires Valid() && !held && length <= user.Length
      modifies `memoryHandle, `mdls, `locks, `held, user, cpu, kernel
      ensures Valid() && Missing(h, old(kernel.misses)) && old(kernel.asked) <= kernel.asked
      ensures total <= length
      ensures status == Success <==> total == length
      ensures status == Success <==> kernel.refusals == old(kernel.refusals) && (length == 0 || !Unmappable(h))
      ensures status == Success || Refused(h, status, noMdl, old(kernel.refusals))
      ensures kernel.misses == old(kernel.misses) ==>
                forall k :: 0 <= k < total ==> user[k] == old(Reading(h, offset + k))
      ensures forall k :: total + Min(PAGE - (offset + total) % PAGE, length - total) <= k < user.Length ==>
                user[k] == old(user[k])
      ensures forall a :: Reading(h, a) == old(Reading(h, a))
      ensures mdls == old(mdls) && locks == old(locks)
      ensures held <==> noMdl
      ensures noMdl ==> status == InsufficientResources
      ensures calls == PagesTouched(offset, total)
      ensures total == 0 || total == length || (offset + total) % PAGE == 0
    {
      hide PagesTouched, Valid, Reading;
      status, total, noMdl, calls := Success, 0, false, 0;
      held := true;
      OnePage(offset);
      while total < length
        invariant total <= length && status == Success
        invariant Valid() && Missing(h, old(kernel.misses)) && kernel.refusals == old(kernel.refusals)
        invariant old(kernel.asked) <= kernel.asked
        invariant held && !noMdl && mdls == old(mdls) && locks == old(locks)
        invariant total > 0 ==> !Unmappable(h)
        invariant kernel.misses == old(kernel.misses) ==>
                    forall k :: 0 <= k < total ==> user[k] == old(Reading(h, offset + k))
        invariant forall k :: total <= k < user.Length ==> user[k] == old(user[k])
        invariant forall a :: Reading(h, a) == old(Reading(h, a))
        invariant total == 0 || total == length || (offset + total) % PAGE == 0
        invariant calls == PagesTouched(offset, total)
      {
        var window := Min(PAGE, length - total);
        var n, failed;
        ghost var asked := kernel.asked;
        failed, n, noMdl := ReadWindow(h, offset + total, user, total, window);
        AskedMore(old(kernel.asked), asked, kernel.asked);
        if noMdl {
          return failed, total, noMdl, calls;
        }
        if failed != Success {
          status := failed;
          break;
        }
        OnePageMore(offset, total, n);
        NextPage(offset + total, n);
        calls := calls + 1;
        total := total + n;
      }
      held := false;
    }

    lemma ModeIsKnown()
      requires Valid()
      ensures mode in {MODE_IOSPACE, MODE_PHYSICAL, MODE_PTE}
      ensures HandlerOf(0) == IoSpace && HandlerOf(1) == Physical && HandlerOf(2) == Pte
      ensures !Unmappable(HandlerOf(mode))
    {
    }

    /**
      `PmemRead`: the branch for an unknown mode is never taken. A buffer for which the
      probe raises an exception (`faulted`) is answered with success and no bytes.
     */
    method PmemRead(offset: nat, user: array?<Byte>, length: nat)
      returns (status: Status, total: nat, noMdl: bool, faulted: bool)
      requires Valid() && !held && (user != null ==> length <= user.Length)
      modifies `memoryHandle, `mdls, `locks, `held, user, cpu, kernel
      ensures Valid() && Missing(HandlerOf(mode), old(kernel.misses))
      ensures status == InvalidParameter <==> user == null || length == 0
      ensures status == InvalidParameter || faulted ==> total == 0 && !noMdl
      ensures status == InvalidParameter ==> !faulted && kernel.asked == old(kernel.asked)
      ensures faulted ==> status == Success && kernel.refusals == old(kernel.refusals) + 1 && kernel.latest == Probe
      ensures status == Success && !faulted ==> total == length
      ensures user != null && length > 0 ==>
                (status == Success && !faulted <==> kernel.refusals == old(kernel.refusals))
      ensures status in {Success, InvalidParameter}
              || Refused(HandlerOf(mode), status, noMdl, old(kernel.refusals))
      ensures kernel.asked == old(kernel.asked) || old(kernel.asked) + [Probe] <= kernel.asked
      ensures (held <==> noMdl) && (noMdl ==> status == InsufficientResources)
      ensures mdls == old(mdls) && locks == old(locks)
      ensures var h := HandlerOf(mode);
              && (kernel.misses == old(kernel.misses) && user != null ==>
                    total <= user.Length && forall k :: 0 <= k < total ==> user[k] == old(Reading(h, offset + k)))
              && (forall a :: Reading(h, a) == old(Reading(h, a)))
    {
      hide Valid, Reading;
      ModeIsKnown();
      total, noMdl, faulted := 0, false, false;
      if user == null {
        return InvalidParameter, 0, false, false;
      }
      if length == 0 {
        return InvalidParameter, 0, false, false;
      }
      var writable := kernel.Grant(Probe);
      if !writable {
        return Success, 0, false, true;
      }
      ghost var calls;
      if mode == MODE_PHYSICAL {
        status, total, noMdl, calls := Read(Physical, offset, user, length);
      } else if mode == MODE_IOSPACE {
        status, total, noMdl, calls := Read(IoSpace, offset, user, length);
      } else if mode == MODE_PTE {
        status, total, noMdl, calls := Read(Pte, offset, user, length);
      } else {
        status := NotImplemented;
      }
    }

    /** `wddClose` */
    method Close()
      requires Valid()
      modifies `memoryHandle
      ensures Valid() && !memoryHandle
    {
      memoryHandle := false;
    }

    /** `IoUnload`: every word of memory is as it was when the driver was loaded. */
    method Unload()
      requires Valid()
      modifies cpu
      ensures forall i :: Word(cpu.memory, i) == Word(pristine, i)
    {
      if mapper != null {
        ghost var m, pte := cpu.memory, mapper.Pte();
        if m == pristine {
          CleanupRestores(pristine, pte, []);
        } else {
          ghost var t: nat :| m == Remap(pristine, pte, t);
          CleanupRestores(pristine, pte, [t]);
          assert RemapAll(pristine, pte, [t]) == m;
        }
        mapper.Cleanup();
      }
    }
  }

  function HandlerOf(mode: nat): Handler {
    if mode == MODE_PHYSICAL then Physical else if mode == MODE_IOSPACE then IoSpace else Pte
  }

  lemma AskedMore(a: seq<Request>, b: seq<Request>, c: seq<Request>)
    requires a <= b <= c
    ensures a <= c
  {
  }

  lemma OnePage(offset: nat)
    ensures PagesTouched(offset, 0) == 0
  {
  }

  /** A handler that does not fill its window has come to the end of a page. */
  lemma NextPage(a: nat, n: nat)
    ensures n == PAGE - a % PAGE ==> (a + n) % PAGE == 0
  {
    if n == PAGE - a % PAGE {
      DivMod(a + n, PAGE, a / PAGE + 1, 0);
    }
  }

  /** What a remap means for a read: the page shows the bytes that are seen there, and nothing else becomes visible. */
  lemma RemapForRead(pristine: Memory, m: Memory, root: nat, page: nat, pte: nat, target: nat)
    requires MapsRoguePage(m, root, page, pte) && Borrowed(pristine, m, pte) && target % PAGE == 0
    ensures var m' := Remap(m, pte, target);
            && MapsRoguePage(m', root, page, pte) && Borrowed(pristine, m', pte)
            && (forall a :: Seen(m', pte, a) == Seen(m, pte, a))
            && Walk(m', root, page, 4).Mapped? && Walk(m', root, page, 4).size == PAGE
            && forall a :: target <= a < target + PAGE ==>
                 Seen(m, pte, a) == ByteAt(m', Walk(m', root, page, 4).base + (a - target))
  {
    hide Walk, MapsRoguePage, Seen, Remap;
    RemapMaps(m, root, page, pte, target);
    BorrowedAgain(pristine, m, pte, target);
    var m' := Remap(m, pte, target);
    forall a ensures Seen(m', pte, a) == Seen(m, pte, a) {
      SeenIsStable(m, pte, target, a);
    }
    forall a | target <= a < target + PAGE
      ensures Seen(m, pte, a) == ByteAt(m', PageOf(FrameOf(target)) + (a - target)) {
      SeenInPage(m, pte, target, a);
    }
  }

  lemma SeenInPage(m: Memory, pte: nat, target: nat, a: nat)
    requires target % PAGE == 0 && target <= a < target + PAGE
    ensures Seen(m, pte, a) == ByteAt(Remap(m, pte, target), PageOf(FrameOf(target)) + (a - target))
  {
    hide ByteAt, WithFrame, FrameOf;
    AddressInPage(target, a);
  }

  /** Memory is as it was, or differs in the frame of the one entry. */
  ghost predicate Borrowed(pristine: Memory, m: Memory, pte: nat) {
    m == pristine || exists t: nat :: m == Remap(pristine, pte, t)
  }

  lemma BorrowedAgain(pristine: Memory, m: Memory, pte: nat, target: nat)
    requires Borrowed(pristine, m, pte)
    ensures Borrowed(pristine, Remap(m, pte, target), pte)
  {
    if m != pristine {
      var t: nat :| m == Remap(pristine, pte, t);
      RemapTwice(pristine, pte, t, target);
    }
  }
}
