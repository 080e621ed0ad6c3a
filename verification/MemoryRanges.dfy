/** Lists of physical memory ranges, as the driver reports them. */
module MemoryRanges {
  import opened Bytes

  const NUMBER_OF_RUNS: nat := 20

  datatype Run = Run(base: nat, length: nat) {
    function End(): nat {
      base + length
    }
  }

  predicate Sorted(runs: seq<Run>) {
    forall i, j :: 0 <= i < j < |runs| ==> runs[i].End() <= runs[j].base
  }

  /** `max_physical_memory_` after `print_memory_info`: where the last run ends. */
  function Top(runs: seq<Run>): nat {
    if runs == [] then 0 else runs[|runs| - 1].End()
  }

  predicate Covered(runs: seq<Run>, a: nat) {
    exists i :: 0 <= i < |runs| && runs[i].base <= a < runs[i].End()
  }

  /**
    `AddMemoryRanges`: the block of the system, if there is one, ends with a range that
    is zero and empty; a list that does not fit the information block is refused.
   */
  method AddMemoryRanges(system: Option<seq<Run>>) returns (ok: bool, runs: seq<Run>)
    requires system.Some? ==> Run(0, 0) in system.value
    ensures ok ==> system.Some?
    ensures system.Some? ==>
              exists n :: 0 <= n < |system.value| && system.value[n] == Run(0, 0) && Run(0, 0) !in system.value[..n]
                && (ok <==> n <= 20) && (ok ==> runs == system.value[..n])
    ensures !ok ==> runs == []
  {
    if system.None? {
      return false, [];
    }
    var block := system.value;
    ghost var last :| 0 <= last < |block| && block[last] == Run(0, 0);
    var n := 0;
    while block[n].base != 0 || block[n].length != 0
      invariant n <= last && Run(0, 0) !in block[..n]
      decreases |block| - n
    {
      assert block[n] != Run(0, 0);
      n := n + 1;
    }
    assert block[n] == Run(0, 0);
    if n > NUMBER_OF_RUNS {
      return false, [];
    }
    return true, block[..n];
  }
}
