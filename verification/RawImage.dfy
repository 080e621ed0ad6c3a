/** The imager: padding, copying in chunks and the file that results from a list of memory ranges. */
module RawImage {
  import opened Bytes
  import opened DeviceRead
  import opened MemoryRanges
  import PageTables

  const BUFF_SIZE: nat := 16777216

  /** The image: memory where a run covers the address, zeros elsewhere, up to the end of the last run. */
  function Flat(ram: seq<Byte>, runs: seq<Run>): (image: seq<Byte>)
    ensures |image| == |ram|
  {
    seq(|ram|, a requires 0 <= a < |ram| => if Covered(runs, a) then ram[a] else 0)
  }

  /** In a sorted list no run goes beyond the end of the last one: the clamp cuts nothing. */
  lemma ClampCutsNothing(runs: seq<Run>, i: nat)
    requires Sorted(runs) && i < |runs|
    ensures runs[i].End() <= Top(runs)
  {
  }

  lemma GapIsZero(ram: seq<Byte>, runs: seq<Run>, i: nat, a: nat)
    requires Sorted(runs) && i < |runs| && a < |ram| && a < runs[i].base
    requires i > 0 ==> runs[i - 1].End() <= a
    ensures Flat(ram, runs)[a] == 0
  {
    forall j | 0 <= j < |runs| ensures !(runs[j].base <= a < runs[j].End()) {
      if j < i - 1 {
        assert runs[j].End() <= runs[i - 1].base;
      }
    }
  }

  lemma RunIsRam(ram: seq<Byte>, runs: seq<Run>, i: nat, a: nat)
    requires i < |runs| && runs[i].base <= a < runs[i].End() && a < |ram|
    ensures Flat(ram, runs)[a] == ram[a]
  {
  }

  /**
    A raw image: physical memory wherever a run covers an address, zeros elsewhere, up to
    the end of the last run; nothing is said of the eight bytes of the page table entry
    that the reads themselves rewrite, and of addresses with more than 52 bits.
   */
  ghost predicate IsMemoryImage(image: seq<Byte>, runs: seq<Run>, m: PageTables.Memory, pte: nat) {
    && |image| == Top(runs)
    && forall a :: 0 <= a < |image| && a < PageTables.TWO52 && a / 8 != pte / 8 ==>
         image[a] == if Covered(runs, a) then PageTables.ByteAt(m, a) else 0
  }

  lemma SeenImageIsMemoryImage(ram: seq<Byte>, runs: seq<Run>, m: PageTables.Memory, pte: nat)
    requires |ram| == Top(runs) && forall a :: 0 <= a < |ram| ==> ram[a] == PageTables.Seen(m, pte, a)
    ensures IsMemoryImage(Flat(ram, runs), runs, m, pte)
  {
    hide PageTables.Seen, PageTables.ByteAt;
    forall a | 0 <= a < |ram| && a < PageTables.TWO52 && a / 8 != pte / 8
      ensures ram[a] == PageTables.ByteAt(m, a)
    {
      assert a % PageTables.TWO52 == a;
      PageTables.SeenIsMemory(m, pte, a);
    }
  }

  lemma RunEnds(runs: seq<Run>, i: nat)
    requires Sorted(runs) && i < |runs|
    ensures Top(runs[..i]) <= runs[i].base && Top(runs[..i + 1]) == runs[i].End() <= Top(runs)
  {
  }

  /** What is written for one run, or the part that is written, is the part of the image that is due. */
  lemma PartOfImage(ram: seq<Byte>, runs: seq<Run>, i: nat, current: nat, part: seq<Byte>)
    requires Sorted(runs) && i < |runs| && |ram| == Top(runs) && current == Top(runs[..i])
    requires current <= runs[i].base && runs[i].End() <= |ram| && |part| <= runs[i].End() - current
    requires forall k :: 0 <= k < |part| ==> part[k] == if current + k < runs[i].base then 0 else ram[current + k]
    ensures part <= Flat(ram, runs)[current..runs[i].End()]
  {
    var image := Flat(ram, runs);
    forall k | 0 <= k < |part| ensures part[k] == image[current..runs[i].End()][k] {
      if current + k < runs[i].base {
        GapIsZero(ram, runs, i, current + k);
      } else {
        RunIsRam(ram, runs, i, current + k);
      }
    }
  }

  /** The image up to the end of one run is the image so far and the part for the run. */
  lemma ImageGrows(image: seq<Byte>, current: nat, end: nat, part: seq<Byte>)
    requires current <= end <= |image| && part <= image[current..end] && |part| == end - current
    ensures image[..current] + part == image[..end]
  {
    assert part == image[current..end];
    assert image[..current] + image[current..end] == image[..end];
  }

  function Joined(parts: seq<seq<Byte>>): seq<Byte> {
    if parts == [] then [] else Joined(parts[..|parts| - 1]) + parts[|parts| - 1]
  }

  /** One part for each run so far, a prefix of what the image has there. */
  ghost predicate InPlace(parts: seq<seq<Byte>>, image: seq<Byte>, runs: seq<Run>) {
    && |parts| <= |runs|
    && forall i :: 0 <= i < |parts| ==>
         Top(runs[..i]) <= runs[i].End() <= |image| && parts[i] <= image[Top(runs[..i])..runs[i].End()]
  }

  lemma NoParts(image: seq<Byte>, runs: seq<Run>)
    ensures InPlace([], image, runs) && Joined([]) == []
  {
  }

  lemma JoinedMore(parts: seq<seq<Byte>>, part: seq<Byte>)
    ensures Joined(parts + [part]) == Joined(parts) + part
  {
    assert (parts + [part])[..|parts|] == parts;
  }

  lemma InPlaceMore(parts: seq<seq<Byte>>, image: seq<Byte>, runs: seq<Run>, part: seq<Byte>)
    requires InPlace(parts, image, runs) && |parts| < |runs|
    requires Top(runs[..|parts|]) <= runs[|parts|].End() <= |image|
    requires part <= image[Top(runs[..|parts|])..runs[|parts|].End()]
    ensures InPlace(parts + [part], image, runs)
  {
  }

  class WinPmem {
    const device: Extension
    /** The content of the output file. */
    var output: seq<Byte>
    var outOpen: bool
    var outOffset: nat
    var maxPhysicalMemory: nat
    /** How many calls of the operating system, other than reads of the device, have failed. */
    ghost var failed: nat

    constructor (device: Extension)
      ensures this.device == device && output == [] && !outOpen && outOffset == 0 && maxPhysicalMemory == failed == 0
    {
      this.device := device;
      output, outOpen, outOffset, maxPhysicalMemory, failed := [], false, 0, 0, 0;
    }

    /** How often anything was refused so far, by the operating system or in the course of a read. */
    ghost function Setbacks(): nat
      reads this, device.kernel
    {
      failed + device.kernel.refusals
    }

    /** A call that has no other effect here: `SetFilePointerEx`, or the query for the ranges. */
    method Call() returns (ok: bool)
      modifies `failed
      ensures failed == if ok then old(failed) else old(failed) + 1
    {
      ok := *;
      if !ok {
        failed := failed + 1;
      }
    }

    /** `WriteFile`: everything is written, or only a part and the call fails. */
    method WriteFile(data: seq<Byte>) returns (written: nat)
      modifies `output, `failed
      ensures written <= |data| && output == old(output) + data[..written]
      ensures failed == if written == |data| then old(failed) else old(failed) + 1
    {
      written :| 0 <= written <= |data|;
      if written < |data| {
        failed := failed + 1;
      }
      output := output + data[..written];
    }

    /** `pad` */
    method Pad(length: nat) returns (ok: bool)
      modifies `output, `outOffset, `failed
      ensures failed >= old(failed) && (ok <==> failed == old(failed))
      ensures exists k: nat :: k <= length && output == old(output) + Zeros(k) && (ok <==> k == length)
      ensures ok ==> output == old(output) + Zeros(length) && outOffset == old(outOffset) + length
      ensures |old(output)| <= |output| && output[..|old(output)|] == old(output)
    {
      var left: nat := length;
      var zeros := Zeros(BUFF_SIZE);
      while left > 0
        invariant left <= length && failed == old(failed)
        invariant output == old(output) + Zeros(length - left) && outOffset == old(outOffset) + (length - left)
      {
        var toWrite := Min(BUFF_SIZE, left);
        var written := WriteFile(zeros[..toWrite]);
        assert output == old(output) + (Zeros(length - left) + zeros[..written]);
        assert Zeros(length - left) + zeros[..written] == Zeros(length - left + written);
        if written != toWrite {
          return false;
        }
        outOffset := outOffset + written;
        left := left - written;
      }
      assert Zeros(length - left) == Zeros(length);
      return true;
    }

    /** The handler that serves a read. */
    function Mode(): Handler
      reads device`mode
    {
      HandlerOf(device.mode)
    }

    /** `ram` is what the device delivers for the first addresses. */
    ghost predicate Serves(ram: seq<Byte>)
      reads device`mode, device`mapper, device.cpu, device.mapper
    {
      forall a :: 0 <= a < |ram| ==> ram[a] == device.Reading(Mode(), a)
    }

    /**
      `copy_memory`: what it writes is what the device delivers for the addresses from `start` to `end`, cut off at
      `max_physical_memory_`. A failed copy leaves the file short of that.
     */
    method CopyMemory(start: nat, end: nat, ghost ram: seq<Byte>) returns (ok: bool)
      requires device.Valid() && !device.held && Serves(ram) && end <= |ram|
      modifies `output, `outOffset, `failed, device`memoryHandle, device`mdls, device`locks, device`held,
               device.cpu, device.kernel
      ensures device.Valid() && device.kernel.misses >= old(device.kernel.misses)
      ensures device.mode != MODE_PHYSICAL ==> device.kernel.misses == old(device.kernel.misses)
      ensures |old(output)| <= |output| && output[..|old(output)|] == old(output)
      ensures Setbacks() >= old(Setbacks())
      ensures ok <==> start <= maxPhysicalMemory && Setbacks() == old(Setbacks())
      ensures ok ==> !device.held
      ensures ok ==> |output| - |old(output)| == outOffset - old(outOffset)
      ensures if start > maxPhysicalMemory then output == old(output)
              else
                && |output| - |old(output)| <= Extent(start, Min(end, maxPhysicalMemory))
                && (ok <==> |output| - |old(output)| == Extent(start, Min(end, maxPhysicalMemory)))
      ensures device.kernel.misses == old(device.kernel.misses) ==>
                forall k :: |old(output)| <= k < |output| ==> output[k] == ram[start + (k - |old(output)|)]
      ensures Serves(ram)
    {
      hide Extension.Valid, Serves;
      var buffer := new Byte[BUFF_SIZE](_ => 0);
      if start > maxPhysicalMemory {
        return false;
      }
      var stop := Min(end, maxPhysicalMemory);
      var here: nat := start;
      while here < stop
        invariant start <= here && (here <= stop || here == start)
        invariant device.Valid() && !device.held && Setbacks() == old(Setbacks())
        invariant device.kernel.misses >= old(device.kernel.misses)
        invariant device.mode != MODE_PHYSICAL ==> device.kernel.misses == old(device.kernel.misses)
        invariant |output| == |old(output)| + (here - start) && outOffset == old(outOffset) + (here - start)
        invariant output[..|old(output)|] == old(output)
        invariant device.kernel.misses == old(device.kernel.misses) ==>
                    forall k :: |old(output)| <= k < |output| ==> output[k] == ram[start + (k - |old(output)|)]
        invariant Serves(ram)
      {
        var chunk := CopyChunk(here, Min(BUFF_SIZE, stop - here), buffer, ram);
        if !chunk {
          return false;
        }
        here := here + Min(BUFF_SIZE, stop - here);
      }
      return true;
    }

    /** The body of the loop of `copy_memory`. */
    method CopyChunk(here: nat, toWrite: nat, buffer: array<Byte>, ghost ram: seq<Byte>) returns (ok: bool)
      requires device.Valid() && !device.held && 0 < toWrite <= buffer.Length && Serves(ram) && here + toWrite <= |ram|
      modifies `output, `outOffset, `failed, device`memoryHandle, device`mdls, device`locks, device`held,
               device.cpu, device.kernel, buffer
      ensures device.Valid() && device.kernel.misses >= old(device.kernel.misses) && (ok ==> !device.held)
      ensures device.mode != MODE_PHYSICAL ==> device.kernel.misses == old(device.kernel.misses)
      ensures |old(output)| <= |output| && output[..|old(output)|] == old(output)
      ensures Setbacks() >= old(Setbacks()) && (ok <==> Setbacks() == old(Setbacks()))
      ensures if ok then |output| == |old(output)| + toWrite && outOffset == old(outOffset) + toWrite
              else |output| < |old(output)| + toWrite
      ensures device.kernel.misses == old(device.kernel.misses) ==>
                forall k :: |old(output)| <= k < |output| ==> output[k] == ram[here + (k - |old(output)|)]
      ensures Serves(ram)
    {
      hide Extension.Valid, Extension.Reading;
      var sought := Call();
      if !sought {
        return false;
      }
      var status, count, _, _ := device.PmemRead(here, buffer, toWrite);
      if status != Success || count != toWrite {
        return false;
      }
      assert device.kernel.misses == old(device.kernel.misses) ==>
          forall k :: 0 <= k < toWrite ==> buffer[..toWrite][k] == ram[here + k];
      var written := WriteFile(buffer[..toWrite]);
      if written != toWrite {
        return false;
      }
      outOffset := outOffset + written;
      return true;
    }

    /** The effect of `print_memory_info` on the object: the last run determines the top of memory. */
    method PrintMemoryInfo(runs: seq<Run>)
      modifies `maxPhysicalMemory
      ensures maxPhysicalMemory == if runs == [] then old(maxPhysicalMemory) else Top(runs)
    {
      var i := 0;
      while i < |runs|
        invariant 0 <= i <= |runs|
        invariant maxPhysicalMemory == if i == 0 then old(maxPhysicalMemory) else runs[i - 1].End()
      {
        maxPhysicalMemory := runs[i].End();
        i := i + 1;
      }
    }

    /** What the device delivers for the first `n` addresses. */
    ghost function Ram(n: nat): (ram: seq<Byte>)
      reads device, device.cpu, device.mapper
      ensures |ram| == n && Serves(ram)
    {
      seq(n, a requires 0 <= a < n reads device, device.cpu, device.mapper => device.Reading(Mode(), a))
    }

    /**
      `write_raw_image` for the ranges the driver reports. A result of 1 says that all ranges were gone through; it
      does not say that they were copied, as the result of `copy_memory` is ignored: the file then holds a prefix of
      its part of the image for every range, one behind the other. All is well exactly if the file was open and no
      call and no read was refused anything; then the file has the length of the image, and it is the image of what
      the device serves; only in the mode of the physical memory device can a page have been missed without a failure.
      In PTE mode it is a raw image of physical memory. `blocked` is a read that waits for the mutex of an earlier one
      for ever.
     */
    method WriteRawImage(runs: seq<Run>)
      returns (status: int, blocked: bool, ghost failures: nat, ghost parts: seq<seq<Byte>>)
      requires device.Valid() && !device.held && Sorted(runs)
      modifies this, device`memoryHandle, device`mdls, device`locks, device`held, device.cpu, device.kernel
      ensures !old(outOpen) ==> status == -1 && output == old(output)
      ensures output == old(output) + Joined(parts)
      ensures device.kernel.misses == old(device.kernel.misses) ==>
                InPlace(parts, Flat(old(Ram(Top(runs))), runs), runs)
      ensures status == 1 && !blocked ==> |parts| == |runs|
      ensures status == 1 && !blocked && failures == 0 <==> old(outOpen) && Setbacks() == old(Setbacks())
      ensures status == 1 && !blocked && failures == 0 ==> outOffset - old(outOffset) == Top(runs)
      ensures status == 1 && !blocked ==> (|output| - |old(output)| == Top(runs) <==> failures == 0)
      ensures device.mode != MODE_PHYSICAL ==> device.kernel.misses == old(device.kernel.misses)
      ensures status == 1 && !blocked && failures == 0 && device.kernel.misses == old(device.kernel.misses) ==>
                output == old(output) + Flat(old(Ram(Top(runs))), runs)
      ensures status == 1 && !blocked && failures == 0 && device.mode == MODE_PTE ==>
                device.mapper != null
                && IsMemoryImage(output[|old(output)|..], runs, old(device.cpu.memory), device.mapper.Pte())
      ensures status == 1 || status == -1
      ensures !blocked ==> !outOpen
    {
      hide Extension.Valid, Serves, Flat, Sorted, Ram, InPlace;
      status, blocked, failures, parts := -1, false, 0, [];
      NoParts(Flat(Ram(Top(runs)), runs), runs);
      if !outOpen {
        return;
      }
      ghost var ram := Ram(Top(runs));
      PteRam(ram, runs);
      var answered := Call();
      if answered {
        status, blocked, failures, parts := WriteRuns(runs, ram);
        if blocked {
          return;
        }
      }
      outOpen := false;
      if status == 1 && failures == 0 && device.kernel.misses == old(device.kernel.misses) {
        assert output[|old(output)|..] == Flat(ram, runs);
      }
    }

    lemma PteRam(ram: seq<Byte>, runs: seq<Run>)
      requires device.Valid() && Serves(ram) && |ram| == Top(runs)
      ensures device.mode == MODE_PTE ==>
                device.mapper != null && IsMemoryImage(Flat(ram, runs), runs, device.cpu.memory, device.mapper.Pte())
    {
      hide PageTables.Seen;
      if device.mode == MODE_PTE {
        assert forall a :: 0 <= a < |ram| ==> ram[a] == device.Reading(Pte, a);
        SeenImageIsMemoryImage(ram, runs, device.cpu.memory, device.mapper.Pte());
      }
    }

    /** The body of its loop over the ranges: zeros up to the range, and the range. */
    method WriteRun(run: Run, current: nat, ghost ram: seq<Byte>)
      returns (padded: bool, blocked: bool, copied: bool, ghost part: seq<Byte>)
      requires device.Valid() && current <= run.base && run.End() <= maxPhysicalMemory && Serves(ram)
               && run.End() <= |ram|
      modifies `output, `outOffset, `failed, device`memoryHandle, device`mdls, device`locks, device`held,
               device.cpu, device.kernel
      ensures padded && !blocked ==> device.Valid()
      ensures device.kernel.misses >= old(device.kernel.misses) && output == old(output) + part
      ensures device.mode != MODE_PHYSICAL ==> device.kernel.misses == old(device.kernel.misses)
      ensures Setbacks() >= old(Setbacks()) && (Setbacks() == old(Setbacks()) ==> padded)
      ensures blocked <==> padded && old(device.held)
      ensures padded && !blocked ==> (copied <==> Setbacks() == old(Setbacks()))
      ensures |part| <= run.End() - current
      ensures padded && !blocked ==> (copied <==> |part| == run.End() - current)
      ensures padded && !blocked && copied ==> |part| == outOffset - old(outOffset) && !device.held
      ensures device.kernel.misses == old(device.kernel.misses) ==>
                forall k :: 0 <= k < |part| ==> part[k] == if current + k < run.base then 0 else ram[current + k]
      ensures Serves(ram)
    {
      hide Extension.Valid, Serves;
      padded, blocked, copied, part := true, false, false, [];
      var gap: nat := run.base - current;
      if run.base > current {
        padded := Pad(gap);
        part := output[|old(output)|..];
        if !padded {
          return;
        }
      }
      assert part == Zeros(gap);
      if device.held {
        blocked := true;
        return;
      }
      ghost var middle := output;
      copied := CopyMemory(run.base, run.End(), ram);
      part := part + output[|middle|..];
      assert output == middle + output[|middle|..] == old(output) + part;
      if device.kernel.misses == old(device.kernel.misses) {
        forall k | gap <= k < |part| ensures part[k] == ram[current + k] {
          var j: nat := |middle| + (k - gap);
          assert part[k] == output[j];
        }
      }
    }

    /** The part of `write_raw_image` that follows the query for the ranges. */
    method WriteRuns(runs: seq<Run>, ghost ram: seq<Byte>)
      returns (status: int, blocked: bool, ghost failures: nat, ghost parts: seq<seq<Byte>>)
      requires device.Valid() && !device.held && Sorted(runs) && Serves(ram) && |ram| == Top(runs)
      modifies `output, `outOffset, `maxPhysicalMemory, `failed,
               device`memoryHandle, device`mdls, device`locks, device`held, device.cpu, device.kernel
      ensures output == old(output) + Joined(parts)
      ensures device.kernel.misses == old(device.kernel.misses) ==> InPlace(parts, Flat(ram, runs), runs)
      ensures status == 1 && !blocked ==> |parts| == |runs|
      ensures status == 1 && !blocked && failures == 0 <==> Setbacks() == old(Setbacks())
      ensures status == 1 && !blocked && failures == 0 ==> outOffset - old(outOffset) == Top(runs)
      ensures status == 1 && !blocked ==> (|output| - |old(output)| == Top(runs) <==> failures == 0)
      ensures device.mode != MODE_PHYSICAL ==> device.kernel.misses == old(device.kernel.misses)
      ensures status == 1 && !blocked && failures == 0 && device.kernel.misses == old(device.kernel.misses) ==>
                output == old(output) + Flat(ram, runs)
      ensures status == 1 || status == -1
    {
      hide Extension.Valid, Serves, Flat, Sorted, Zeros, InPlace;
      status, blocked, failures, parts := -1, false, 0, [];
      PrintMemoryInfo(runs);
      ghost var image := Flat(ram, runs);
      NoParts(image, runs);
      var current: nat := 0;
      var i := 0;
      while i < |runs|
        invariant 0 <= i <= |runs| && current == Top(runs[..i]) <= Top(runs)
        invariant runs != [] ==> maxPhysicalMemory == Top(runs)
        invariant device.Valid() && device.kernel.misses >= old(device.kernel.misses)
        invariant device.mode != MODE_PHYSICAL ==> device.kernel.misses == old(device.kernel.misses)
        invariant output == old(output) + Joined(parts) && |parts| == i && |Joined(parts)| <= current
        invariant failures == 0 <==> |Joined(parts)| == current
        invariant failures == 0 ==> !device.held && outOffset - old(outOffset) == current
        invariant failures == 0 && device.kernel.misses == old(device.kernel.misses) ==>
                    Joined(parts) == image[..current]
        invariant device.kernel.misses == old(device.kernel.misses) ==> InPlace(parts, image, runs)
        invariant !blocked && Setbacks() >= old(Setbacks()) && (failures == 0 <==> Setbacks() == old(Setbacks()))
        invariant Serves(ram)
      {
        ClampCutsNothing(runs, i);
        RunEnds(runs, i);
        var padded, copied;
        ghost var part;
        padded, blocked, copied, part := WriteRun(runs[i], current, ram);
        ghost var before := parts;
        parts := parts + [part];
        JoinedMore(before, part);
        if device.kernel.misses == old(device.kernel.misses) {
          PartOfImage(ram, runs, i, current, part);
          InPlaceMore(before, image, runs, part);
        }
        if !padded || blocked {
          return;
        }
        if !copied {
          failures := failures + 1;
        }
        if failures == 0 && device.kernel.misses == old(device.kernel.misses) {
          ImageGrows(image, current, runs[i].End(), part);
        }
        current := runs[i].End();
        i := i + 1;
      }
      assert runs[..|runs|] == runs && image[..current] == image;
      status := 1;
    }
  }

  function Extent(start: nat, stop: nat): nat {
    if start < stop then stop - start else 0
  }
}
