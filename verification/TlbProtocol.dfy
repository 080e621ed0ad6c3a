/**
  Reads through the one rogue page from many threads on many processors. Every processor has a TLB of its own, which may
  load the current translation or lose it at any time; the driver only flushes the TLB of the processor it runs on.
 */
module TlbProtocol {
  import opened Division
  import opened Bytes
  import opened PageTables

  /** The tables' root, the rogue page, the physical address of its entry, and memory before the first read. */
  datatype Setup = Setup(root: nat, page: nat, pte: nat, start: Memory) {
    predicate Usable() {
      MapsRoguePage(start, root, page, pte)
    }
  }

  /** Where a thread is in `DeviceRead` and `PTEMmapPartialRead`. */
  datatype Pc =
    | Idle
    | Waiting                                // for the mutex
    | AtLoop                                 // holding the mutex, between two pages
    | Remapped(window: nat)                  // the entry is written, nothing is flushed
    | Copying(window: nat, copied: nat)      // the translation was flushed on this processor
    | Done                                   // everything was copied
    | Faulted                                // a copy raised an exception

  /** `sources[i]` is the physical address from which byte `i` of the buffer was loaded. */
  datatype Thread = Thread(pc: Pc, cpu: nat, offset: nat, length: nat, sources: seq<nat>, buffer: seq<Byte>)

  /** A TLB holds the physical page that it translates the rogue page to, or no translation of it. */
  datatype State = State(memory: Memory, tlbs: seq<Option<nat>>, mutex: Option<nat>, threads: seq<Thread>)

  datatype Event =
    | Request(t: nat, offset: nat, length: nat)
    | Acquire(t: nat)
    | Rewrite(t: nat)
    | Flush(t: nat)
    | CopyByte(t: nat)
    | Fault(t: nat)
    | Release(t: nat)
    | Migrate(t: nat, cpu: nat)
    | Refill(cpu: nat)
    | Evict(cpu: nat)

  /** The address of the next byte. */
  function Address(th: Thread): nat {
    th.offset + |th.sources|
  }

  function Window(th: Thread): nat
    requires |th.sources| < th.length
  {
    Min(PAGE - Address(th) % PAGE, Min(PAGE, th.length - |th.sources|))
  }

  /** What the page tables say of the rogue page. */
  function Current(u: Setup, m: Memory): nat {
    var t := Walk(m, u.root, u.page, 4);
    if t.Mapped? then t.base else 0
  }

  predicate ThreadPresent(s: State, e: Event) {
    match e
    case Refill(c) => c < |s.tlbs|
    case Evict(c) => c < |s.tlbs|
    case Migrate(t, c) => t < |s.threads| && c < |s.tlbs|
    case _ => e.t < |s.threads|
  }

  /** `steady`: no thread is moved to another processor between its flush and the end of its copy. */
  predicate Enabled(steady: bool, s: State, e: Event) {
    && ThreadPresent(s, e)
    && match e
       case Request(t, _, _) => s.threads[t].pc == Idle
       case Acquire(t) => s.threads[t].pc == Waiting && s.mutex == None
       case Rewrite(t) => s.threads[t].pc == AtLoop && |s.threads[t].sources| < s.threads[t].length
       case Flush(t) => s.threads[t].pc.Remapped? && s.threads[t].cpu < |s.tlbs|
       case CopyByte(t) =>
         var pc := s.threads[t].pc;
         pc.Copying? && pc.copied < pc.window && s.threads[t].cpu < |s.tlbs|
       case Fault(t) => s.threads[t].pc.Copying?
       case Release(t) => s.threads[t].pc == AtLoop && |s.threads[t].sources| >= s.threads[t].length
       case Migrate(t, _) => steady ==> !s.threads[t].pc.Copying?
       case Refill(_) => true
       case Evict(_) => true
  }

  function Update(s: State, t: nat, th: Thread): State
    requires t < |s.threads|
  {
    s.(threads := s.threads[t := th])
  }

  /** A byte is loaded from the page at `base`. */
  function Loaded(m: Memory, th: Thread, base: nat): Thread
    requires th.pc.Copying?
  {
    var source := base + Address(th) % PAGE;
    var pc := if th.pc.copied + 1 == th.pc.window then AtLoop else Copying(th.pc.window, th.pc.copied + 1);
    th.(pc := pc, sources := th.sources + [source], buffer := th.buffer + [ByteAt(m, source)])
  }

  function Next(u: Setup, steady: bool, s: State, e: Event): State
    requires Enabled(steady, s, e)
  {
    match e
    case Request(t, offset, length) => Update(s, t, Thread(Waiting, s.threads[t].cpu, offset, length, [], []))
    case Acquire(t) => Update(s, t, s.threads[t].(pc := AtLoop)).(mutex := Some(t))
    case Rewrite(t) =>
      var th := s.threads[t];
      var target := Address(th) - Address(th) % PAGE;
      Update(s, t, th.(pc := Remapped(Window(th)))).(memory := Remap(s.memory, u.pte, target))
    case Flush(t) =>
      var th := s.threads[t];
      Update(s, t, th.(pc := Copying(th.pc.window, 0))).(tlbs := s.tlbs[th.cpu := None])
    case CopyByte(t) =>
      var th := s.threads[t];
      var base := if s.tlbs[th.cpu].Some? then s.tlbs[th.cpu].value else Current(u, s.memory);
      Update(s, t, Loaded(s.memory, th, base)).(tlbs := s.tlbs[th.cpu := Some(base)])
    case Fault(t) => Update(s, t, s.threads[t].(pc := Faulted)).(mutex := None)
    case Release(t) => Update(s, t, s.threads[t].(pc := Done)).(mutex := None)
    case Migrate(t, c) => Update(s, t, s.threads[t].(cpu := c))
    case Refill(c) => s.(tlbs := s.tlbs[c := Some(Current(u, s.memory))])
    case Evict(c) => s.(tlbs := s.tlbs[c := None])
  }

  ghost predicate Reaches(u: Setup, steady: bool, s: State, es: seq<Event>, s': State)
    decreases es
  {
    if es == [] then s' == s
    else Enabled(steady, s, es[0]) && Reaches(u, steady, Next(u, steady, s, es[0]), es[1..], s')
  }

  /** Before the first read: nobody holds the mutex; the TLBs may hold anything. */
  predicate Init(u: Setup, s: State) {
    && u.Usable() && s.memory == u.start && s.mutex == None
    && forall t :: 0 <= t < |s.threads| ==>
         s.threads[t].pc == Idle && s.threads[t].sources == [] && s.threads[t].buffer == []
  }

  // The invariant

  predicate Holds(pc: Pc) {
    pc == AtLoop || pc.Remapped? || pc.Copying?
  }

  /** The rogue page can still be remapped, and everything that can be seen through it is as it was. */
  ghost predicate Kept(u: Setup, m: Memory) {
    MapsRoguePage(m, u.root, u.page, u.pte) && forall a: nat :: Seen(m, u.pte, a) == Seen(u.start, u.pte, a)
  }

  /** Every byte so far came from the address that was asked for, and is the byte that is seen there. */
  predicate Right(u: Setup, th: Thread) {
    && |th.buffer| == |th.sources|
    && forall i :: 0 <= i < |th.sources| ==>
         th.sources[i] == (th.offset + i) % TWO52 && th.buffer[i] == Seen(u.start, u.pte, th.offset + i)
  }

  /** No thread copies more than it was asked for, and one that is done has copied all of it. */
  predicate Measured(th: Thread) {
    match th.pc
    case Waiting => th.sources == []
    case AtLoop => |th.sources| <= th.length
    case Remapped(window) => |th.sources| + window <= th.length
    case Copying(window, copied) => copied < window && |th.sources| + (window - copied) <= th.length
    case Done => |th.sources| == th.length
    case _ => true
  }

  /** The rogue page shows the page of `a`: another remap to it would change nothing. */
  predicate Shows(u: Setup, m: Memory, a: nat) {
    Remap(m, u.pte, a) == m
  }

  /** The thread that holds the mutex finds the rogue page where it needs it. */
  predicate WellPlaced(u: Setup, s: State, th: Thread) {
    match th.pc
    case Remapped(window) =>
      && 0 < window && Address(th) % PAGE + window <= PAGE && Shows(u, s.memory, Address(th))
    case Copying(window, copied) =>
      && copied < window && Address(th) % PAGE + (window - copied) <= PAGE && Shows(u, s.memory, Address(th))
      && (th.cpu < |s.tlbs| ==> s.tlbs[th.cpu] == None || s.tlbs[th.cpu] == Some(Current(u, s.memory)))
    case _ => true
  }

  ghost predicate Invariant(u: Setup, s: State) {
    && Kept(u, s.memory)
    && forall t :: 0 <= t < |s.threads| ==>
         && Right(u, s.threads[t]) && Measured(s.threads[t]) && WellPlaced(u, s, s.threads[t])
         && (Holds(s.threads[t].pc) <==> s.mutex == Some(t))
  }

  /** The page that is shown is that of the address, and its byte is the one that is seen there. */
  lemma ShownIsSeen(u: Setup, m: Memory, a: nat)
    requires Kept(u, m) && Shows(u, m, a)
    ensures Current(u, m) == PageOf(FrameOf(a)) && Current(u, m) + a % PAGE == a % TWO52
    ensures ByteAt(m, a % TWO52) == Seen(u.start, u.pte, a)
  {
    hide Walk, MapsRoguePage, Remap, ByteAt, FrameOf, PageOf;
    RemapMaps(m, u.root, u.page, u.pte, a);
    DivMod(a - a % PAGE, PAGE, a / PAGE, 0);
    AddressInPage(a - a % PAGE, a);
    assert Seen(m, u.pte, a) == ByteAt(Remap(m, u.pte, a), a % TWO52);
  }

  /** The byte that is copied is right, and the next one is in the same page or the page is done. */
  lemma ByteIsRight(u: Setup, m: Memory, th: Thread)
    requires Kept(u, m) && th.pc.Copying? && Shows(u, m, Address(th)) && Right(u, th)
    requires th.pc.copied < th.pc.window && Address(th) % PAGE + (th.pc.window - th.pc.copied) <= PAGE
    ensures var th' := Loaded(m, th, Current(u, m));
            && Right(u, th')
            && (th.pc.copied + 1 < th.pc.window ==>
                  Address(th') % PAGE == Address(th) % PAGE + 1 && Shows(u, m, Address(th')))
  {
    hide Walk, MapsRoguePage, ByteAt, Seen, Kept, Current, WithFrame, PageOf;
    var a := Address(th);
    ShownIsSeen(u, m, a);
    if th.pc.copied + 1 < th.pc.window {
      DivMod(a + 1, PAGE, a / PAGE, a % PAGE + 1);
      assert FrameOf(a + 1) == FrameOf(a);
    }
  }

  /** A remap keeps what can be seen, and shows the page of every address in the target page. */
  lemma RewriteShows(u: Setup, m: Memory, a: nat)
    requires Kept(u, m)
    ensures var m' := Remap(m, u.pte, a - a % PAGE); Kept(u, m') && Shows(u, m', a)
  {
    hide Walk, MapsRoguePage, Seen, WithFrame;
    var target := a - a % PAGE;
    DivMod(target, PAGE, a / PAGE, 0);
    assert FrameOf(target) == FrameOf(a);
    RemapMaps(m, u.root, u.page, u.pte, target);
    RemapTwice(m, u.pte, target, a);
    forall b: nat ensures Seen(Remap(m, u.pte, target), u.pte, b) == Seen(u.start, u.pte, b) {
      SeenIsStable(m, u.pte, target, b);
    }
  }

  lemma WindowFits(th: Thread)
    requires |th.sources| < th.length
    ensures 0 < Window(th) && Address(th) % PAGE + Window(th) <= PAGE && |th.sources| + Window(th) <= th.length
  {
  }

  /** Only the thread that moves has to be looked at: no other one is in the middle of a page. */
  lemma OneMoves(u: Setup, s: State, t: nat, th: Thread, s': State)
    requires Invariant(u, s) && t < |s.threads| && s'.threads == s.threads[t := th] && Kept(u, s'.memory)
    requires s.mutex == Some(t) && (s'.mutex == Some(t) || s'.mutex == None)
    requires Right(u, th) && Measured(th) && WellPlaced(u, s', th) && (Holds(th.pc) <==> s'.mutex == Some(t))
    ensures Invariant(u, s')
  {
    hide Right, Kept, Shows, Current;
    forall v | 0 <= v < |s'.threads|
      ensures Right(u, s'.threads[v]) && Measured(s'.threads[v]) && WellPlaced(u, s', s'.threads[v])
      ensures Holds(s'.threads[v].pc) <==> s'.mutex == Some(v)
    {
      assert v != t ==> s'.threads[v] == s.threads[v];
    }
  }

  lemma StepKeepsInvariant(u: Setup, s: State, e: Event)
    requires Invariant(u, s) && Enabled(true, s, e)
    ensures Invariant(u, Next(u, true, s, e))
  {
    hide Right, Kept, Shows, Current, Loaded, Remap;
    var s' := Next(u, true, s, e);
    match e
    case Rewrite(t) =>
      WindowFits(s.threads[t]);
      RewriteShows(u, s.memory, Address(s.threads[t]));
      StillRight(u, s.threads[t], s'.threads[t]);
      OneMoves(u, s, t, s'.threads[t], s');
    case Flush(t) =>
      StillRight(u, s.threads[t], s'.threads[t]);
      OneMoves(u, s, t, s'.threads[t], s');
    case CopyByte(t) => CopyKeepsInvariant(u, s, t);
    case Fault(t) =>
      StillRight(u, s.threads[t], s'.threads[t]);
      OneMoves(u, s, t, s'.threads[t], s');
    case Release(t) =>
      StillRight(u, s.threads[t], s'.threads[t]);
      OneMoves(u, s, t, s'.threads[t], s');
    case _ => QuietStepKeepsInvariant(u, s, e);
  }

  lemma StillRight(u: Setup, th: Thread, th': Thread)
    requires Right(u, th) && th'.sources == th.sources && th'.buffer == th.buffer && th'.offset == th.offset
    ensures Right(u, th')
  {
  }

  /** Steps that nobody who holds the mutex takes, and what the TLBs do by themselves. */
  lemma QuietStepKeepsInvariant(u: Setup, s: State, e: Event)
    requires Invariant(u, s) && Enabled(true, s, e)
    requires e.Request? || e.Acquire? || e.Migrate? || e.Refill? || e.Evict?
    ensures Invariant(u, Next(u, true, s, e))
  {
    hide Kept, Shows, Current, Right;
    match e
    case Request(t, offset, length) =>
      NothingIsRight(u, Thread(Waiting, s.threads[t].cpu, offset, length, [], []));
    case Acquire(t) => StillRight(u, s.threads[t], s.threads[t].(pc := AtLoop));
    case Migrate(t, c) => StillRight(u, s.threads[t], s.threads[t].(cpu := c));
    case _ =>
  }

  lemma NothingIsRight(u: Setup, th: Thread)
    requires th.sources == [] && th.buffer == []
    ensures Right(u, th)
  {
  }

  lemma CopyKeepsInvariant(u: Setup, s: State, t: nat)
    requires Invariant(u, s) && Enabled(true, s, CopyByte(t))
    ensures Invariant(u, Next(u, true, s, CopyByte(t)))
  {
    hide Right, Kept, Shows, Current;
    var s' := Next(u, true, s, CopyByte(t));
    ByteIsRight(u, s.memory, s.threads[t]);
    OneMoves(u, s, t, s'.threads[t], s');
  }

  /**
    However threads, processors and TLBs behave: every byte of every read comes from the address that was asked for.
   */
  lemma {:induction false} EveryReadIsRight(u: Setup, s: State, es: seq<Event>, s': State)
    requires Invariant(u, s) && Reaches(u, true, s, es, s')
    ensures Invariant(u, s')
    decreases es
  {
    hide Invariant, Enabled;
    if es != [] {
      StepKeepsInvariant(u, s, es[0]);
      EveryReadIsRight(u, Next(u, true, s, es[0]), es[1..], s');
    }
  }

  /**
    Whatever the TLBs hold at the start: a read that is done has delivered as many
    bytes as it was asked for, and each of them is the byte that is seen at its
    address. Outside the rogue entry that is the byte of memory (`SeenIsMemory`).
   */
  lemma ReadsAreRight(u: Setup, s: State, es: seq<Event>, s': State, t: nat)
    requires Init(u, s) && Reaches(u, true, s, es, s') && t < |s'.threads|
    ensures Right(u, s'.threads[t])
    ensures s'.threads[t].pc == Done ==>
              var th := s'.threads[t];
              |th.buffer| == th.length && forall i :: 0 <= i < th.length ==>
                    th.buffer[i] == Seen(u.start, u.pte, th.offset + i)
    ensures Holds(s'.threads[t].pc) ==> s'.mutex == Some(t)
  {
    hide Seen, MapsRoguePage;
    EveryReadIsRight(u, s, es, s');
  }

  // No read waits for ever.

  /** Every thread runs on a processor, and the mutex is held by a thread. */
  predicate Placed(s: State) {
    && (forall t :: 0 <= t < |s.threads| ==> s.threads[t].cpu < |s.tlbs|)
    && (s.mutex.Some? ==> s.mutex.value < |s.threads|)
  }

  lemma StepKeepsPlaces(u: Setup, steady: bool, s: State, e: Event)
    requires Placed(s) && Enabled(steady, s, e)
    ensures Placed(Next(u, steady, s, e))
  {
    hide Current, Remap;
  }

  lemma {:induction false} PlacedOverRuns(u: Setup, s: State, es: seq<Event>, s': State)
    requires Placed(s) && Reaches(u, true, s, es, s')
    ensures Placed(s')
    decreases es
  {
    hide Placed, Enabled, Next;
    if es != [] {
      StepKeepsPlaces(u, true, s, es[0]);
      PlacedOverRuns(u, Next(u, true, s, es[0]), es[1..], s');
    }
  }

  /** A read has been requested and is not over. */
  predicate Reading(th: Thread) {
    th.pc == Waiting || Holds(th.pc)
  }

  /** A step of a thread that reads, and not a fault. */
  predicate Onward(e: Event) {
    e.Acquire? || e.Rewrite? || e.Flush? || e.CopyByte? || e.Release?
  }

  /** Whatever state has been reached: as long as a read is under way, some read can go on. */
  lemma SomeReadGoesOn(u: Setup, s: State, t: nat) returns (e: Event)
    requires Invariant(u, s) && Placed(s) && t < |s.threads| && Reading(s.threads[t])
    ensures Enabled(true, s, e) && Onward(e)
  {
    hide Kept, Right, WellPlaced;
    if s.mutex == None {
      return Acquire(t);
    }
    var v := s.mutex.value;
    var th := s.threads[v];
    assert Holds(th.pc) && Measured(th);
    match th.pc
    case AtLoop => e := if |th.sources| < th.length then Rewrite(v) else Release(v);
    case Remapped(_) => e := Flush(v);
    case Copying(_, _) => e := CopyByte(v);
  }

  /** An upper bound of the steps that a read still takes: at most three for a byte. */
  function Work(th: Thread): nat {
    var left := if |th.sources| < th.length then th.length - |th.sources| else 0;
    match th.pc
    case Waiting => 3 * left + 4
    case AtLoop => 3 * left + 3
    case Remapped(_) => 3 * left + 2
    case Copying(_, _) => 3 * left + 1
    case _ => 0
  }

  function TotalWork(threads: seq<Thread>): nat {
    if threads == [] then 0 else Work(threads[0]) + TotalWork(threads[1..])
  }

  lemma {:induction false} WorkOfOne(threads: seq<Thread>, t: nat, th: Thread)
    requires t < |threads| && Work(th) < Work(threads[t])
    ensures TotalWork(threads[t := th]) < TotalWork(threads)
  {
    hide Work;
    if t == 0 {
      assert threads[0 := th] == [th] + threads[1..];
    } else {
      WorkOfOne(threads[1..], t - 1, th);
      assert threads[t := th][1..] == threads[1..][t - 1 := th];
    }
  }

  /** It is the same read, which goes on or is done, or nothing happened to it. */
  predicate SameRead(th: Thread, th': Thread) {
    th' == th || (Reading(th) && (Reading(th') || th'.pc == Done) && th'.offset == th.offset && th'.length == th.length)
  }

  /** A read is done, and has delivered what was asked for. */
  predicate Finished(u: Setup, th: Thread, th': Thread) {
    && th'.pc == Done && th'.offset == th.offset && th'.length == th.length == |th'.buffer|
    && forall i :: 0 <= i < th.length ==> th'.buffer[i] == Seen(u.start, u.pte, th.offset + i)
  }

  lemma OnwardUsesWork(u: Setup, s: State, e: Event)
    requires Invariant(u, s) && Enabled(true, s, e) && Onward(e)
    ensures var s' := Next(u, true, s, e);
            && TotalWork(s'.threads) < TotalWork(s.threads) && |s'.threads| == |s.threads|
            && forall t :: 0 <= t < |s.threads| ==> SameRead(s.threads[t], s'.threads[t])
  {
    hide Kept, Right, WellPlaced, Current, Remap, TotalWork;
    var s' := Next(u, true, s, e);
    assert Measured(s.threads[e.t]);
    assert s'.threads == s.threads[e.t := s'.threads[e.t]];
    WorkOfOne(s.threads, e.t, s'.threads[e.t]);
  }

  /** Every read can be brought to its end, with the right bytes, and those that are over stay as they are. */
  lemma {:induction false} AllReadsCanFinish(u: Setup, s: State) returns (es: seq<Event>, s': State)
    requires Invariant(u, s) && Placed(s)
    ensures Reaches(u, true, s, es, s') && |s'.threads| == |s.threads| && |es| <= TotalWork(s.threads)
    ensures forall t :: 0 <= t < |s.threads| ==>
              if Reading(s.threads[t]) then Finished(u, s.threads[t], s'.threads[t]) else s'.threads[t] == s.threads[t]
    decreases TotalWork(s.threads)
  {
    hide Seen, Enabled, Kept, Work, TotalWork, WellPlaced, Next;
    if t: nat :| t < |s.threads| && Reading(s.threads[t]) {
      var e := SomeReadGoesOn(u, s, t);
      var next := Next(u, true, s, e);
      StepKeepsInvariant(u, s, e);
      StepKeepsPlaces(u, true, s, e);
      OnwardUsesWork(u, s, e);
      es, s' := AllReadsCanFinish(u, next);
      es := [e] + es;
    } else {
      es, s' := [], s;
    }
  }

  /** So no read waits for ever: whatever run has led to a state, from there all reads can be brought to their end. */
  lemma NoReadHangs(u: Setup, start: State, before: seq<Event>, s: State) returns (es: seq<Event>, s': State)
    requires Init(u, start) && Placed(start) && Reaches(u, true, start, before, s)
    ensures Reaches(u, true, s, es, s') && |s'.threads| == |s.threads|
    ensures forall t :: 0 <= t < |s.threads| ==>
              if Reading(s.threads[t]) then Finished(u, s.threads[t], s'.threads[t]) else s'.threads[t] == s.threads[t]
  {
    hide Finished, Enabled, Next, MapsRoguePage, Seen;
    EveryReadIsRight(u, start, before, s);
    PlacedOverRuns(u, start, before, s);
    es, s' := AllReadsCanFinish(u, s);
  }

  /**
    A thread that is moved in the middle of its copy keeps reading the right page exactly when the processor it comes to
    holds no translation of the rogue page, or the current one.
   */
  lemma MigrationIsHarmlessExactlyWhen(u: Setup, s: State, t: nat, c: nat)
    requires Invariant(u, s) && Enabled(false, s, Migrate(t, c)) && s.threads[t].pc.Copying?
    ensures Invariant(u, Next(u, false, s, Migrate(t, c)))
            <==> s.tlbs[c] == None || s.tlbs[c] == Some(Current(u, s.memory))
  {
    hide Right, Kept, Shows, Current;
    var s' := Next(u, false, s, Migrate(t, c));
    var th := s'.threads[t];
    if s.tlbs[c] == None || s.tlbs[c] == Some(Current(u, s.memory)) {
      StillRight(u, s.threads[t], th);
      OneMoves(u, s, t, th, s');
    } else {
      assert !WellPlaced(u, s', th);
    }
  }

  /** And if it holds another one, the next byte that is copied there comes from the wrong address. */
  lemma StaleTranslationIsUsed(u: Setup, s: State, t: nat, c: nat)
    requires Invariant(u, s) && Enabled(false, s, Migrate(t, c)) && s.threads[t].pc.Copying?
    requires s.tlbs[c].Some? && s.tlbs[c].value != Current(u, s.memory)
    ensures Enabled(false, Next(u, false, s, Migrate(t, c)), CopyByte(t))
    ensures !Right(u, Next(u, false, Next(u, false, s, Migrate(t, c)), CopyByte(t)).threads[t])
  {
    hide Kept, Current, Seen, ByteAt, Shows;
    var th, a := s.threads[t], Address(s.threads[t]);
    var s2 := Next(u, false, Next(u, false, s, Migrate(t, c)), CopyByte(t));
    ShownIsSeen(u, s.memory, a);
    var i := |th.sources|;
    assert s2.threads[t].sources[i] == s.tlbs[c].value + a % PAGE;
    assert (s2.threads[t].offset + i) % TWO52 == Current(u, s.memory) + a % PAGE;
  }

  // A run in which the hypothesis does not hold

  /** Page tables of four pages, which map page 0x1000 to physical page 0x7000; the first byte there is 1. */
  const TABLES: Memory := map[0x200 := 0x2001, 0x400 := 0x3001, 0x600 := 0x4001, 0x801 := 0x7001, 0xE00 := 1]

  const EXAMPLE: Setup := Setup(0x1000, 0x1000, 0x4008, TABLES)

  lemma WalkDown(m: Memory, table: nat, va: nat, level: nat, e: U64)
    requires 1 < level <= 4 && Load(m, EntryAddress(table, va, level)) == e && Present(e) && !PageSizeBit(e)
    ensures Walk(m, table, va, level) == Walk(m, Frame(e) * PAGE, va, level - 1)
    ensures UpperWords(m, table, va, level)
            == {EntryAddress(table, va, level) / 8} + UpperWords(m, Frame(e) * PAGE, va, level - 1)
  {
  }

  lemma ExampleIsUsable()
    ensures EXAMPLE.Usable()
  {
    hide Walk, UpperWords;
    WalkDown(TABLES, 0x1000, 0x1000, 4, 0x2001);
    WalkDown(TABLES, 0x2000, 0x1000, 3, 0x3001);
    WalkDown(TABLES, 0x3000, 0x1000, 2, 0x4001);
    ExampleEntry();
  }

  lemma ExampleEntry()
    ensures Walk(TABLES, 0x4000, 0x1000, 1) == Mapped(0x4008, PAGE, 0x7000)
            && UpperWords(TABLES, 0x4000, 0x1000, 1) == {}
  {
  }

  /** The hypothesis is needed: a thread that is moved after its flush may meet a translation that was never flushed. */
  lemma MigrationBreaksReads() returns (s: State, es: seq<Event>, s': State)
    ensures Init(EXAMPLE, s) && Reaches(EXAMPLE, false, s, es, s')
    ensures |s'.threads| == 1 && s'.threads[0].pc == Done
    ensures s'.threads[0].buffer == [1] && Seen(TABLES, EXAMPLE.pte, s'.threads[0].offset) == 0
  {
    hide Reaches, Seen, Remap, Enabled, Next;
    ExampleIsUsable();
    ExampleBytes();
    s := State(TABLES, [None, Some(0x7000)], None, [Thread(Idle, 0, 0, 0, [], [])]);
    var s2 := State(TABLES, [None, Some(0x7000)], Some(0), [Thread(AtLoop, 0, 0, 1, [], [])]);
    var s4 := s2.(memory := Remap(TABLES, 0x4008, 0), threads := [Thread(Copying(1, 0), 0, 0, 1, [], [])]);
    es, s' := MovedAfterFlush(s4);
    es := FlushedPage(s2, s4, es, s');
    es := FirstSteps(s, s2, es, s');
  }

  lemma FirstSteps(s: State, s2: State, es: seq<Event>, s': State) returns (all: seq<Event>)
    requires s == State(TABLES, [None, Some(0x7000)], None, [Thread(Idle, 0, 0, 0, [], [])])
    requires s2 == State(TABLES, [None, Some(0x7000)], Some(0), [Thread(AtLoop, 0, 0, 1, [], [])])
    requires Reaches(EXAMPLE, false, s2, es, s')
    ensures Reaches(EXAMPLE, false, s, all, s')
  {
    hide Reaches;
    var s1 := s.(threads := [Thread(Waiting, 0, 0, 1, [], [])]);
    all := Prepend(s1, Acquire(0), s2, es, s');
    all := Prepend(s, Request(0, 0, 1), s1, all, s');
  }

  lemma FlushedPage(s2: State, s4: State, es: seq<Event>, s': State) returns (all: seq<Event>)
    requires s2 == State(TABLES, [None, Some(0x7000)], Some(0), [Thread(AtLoop, 0, 0, 1, [], [])])
    requires s4 == s2.(memory := Remap(TABLES, 0x4008, 0), threads := [Thread(Copying(1, 0), 0, 0, 1, [], [])])
    requires Reaches(EXAMPLE, false, s4, es, s')
    ensures Reaches(EXAMPLE, false, s2, all, s')
  {
    hide Reaches, Remap;
    var s3 := s4.(threads := [Thread(Remapped(1), 0, 0, 1, [], [])]);
    assert s3.tlbs[0 := None] == s4.tlbs;
    all := Prepend(s3, Flush(0), s4, es, s');
    all := Prepend(s2, Rewrite(0), s3, all, s');
  }

  lemma ExampleBytes()
    ensures ByteAt(Remap(TABLES, 0x4008, 0), 0x7000) == 1 && Seen(TABLES, 0x4008, 0) == 0
  {
  }

  lemma MovedAfterFlush(s4: State) returns (es: seq<Event>, s': State)
    requires s4.memory == Remap(TABLES, 0x4008, 0) && s4.tlbs == [None, Some(0x7000)] && s4.mutex == Some(0)
    requires s4.threads == [Thread(Copying(1, 0), 0, 0, 1, [], [])]
    ensures Reaches(EXAMPLE, false, s4, es, s')
    ensures s'.threads == [Thread(Done, 1, 0, 1, [0x7000], [1])]
  {
    hide Reaches, Remap;
    var s5 := s4.(threads := [Thread(Copying(1, 0), 1, 0, 1, [], [])]);
    var s6 := s4.(threads := [Thread(AtLoop, 1, 0, 1, [0x7000], [1])]);
    s' := s4.(mutex := None, threads := [Thread(Done, 1, 0, 1, [0x7000], [1])]);
    es := Standstill(s');
    es := Prepend(s6, Release(0), s', es, s');
    StaleCopy(s5, s6);
    es := Prepend(s5, CopyByte(0), s6, es, s');
    es := Prepend(s4, Migrate(0, 1), s5, es, s');
  }

  lemma StaleCopy(s5: State, s6: State)
    requires s5.memory == Remap(TABLES, 0x4008, 0) && s5.tlbs == [None, Some(0x7000)]
    requires s5.threads == [Thread(Copying(1, 0), 1, 0, 1, [], [])]
    requires s6 == s5.(threads := [Thread(AtLoop, 1, 0, 1, [0x7000], [1])])
    ensures Enabled(false, s5, CopyByte(0)) && Next(EXAMPLE, false, s5, CopyByte(0)) == s6
  {
    hide Remap, ByteAt;
    ExampleBytes();
    var copied := Next(EXAMPLE, false, s5, CopyByte(0));
    assert copied.threads[0].sources == [0x7000] && copied.threads[0].buffer == [1];
    assert copied.threads == s6.threads && copied.tlbs == s6.tlbs;
  }

  lemma Standstill(s: State) returns (es: seq<Event>)
    ensures Reaches(EXAMPLE, false, s, es, s)
  {
    es := [];
  }

  lemma Prepend(s: State, e: Event, mid: State, es: seq<Event>, s': State) returns (all: seq<Event>)
    requires Enabled(false, s, e) && Next(EXAMPLE, false, s, e) == mid && Reaches(EXAMPLE, false, mid, es, s')
    ensures Reaches(EXAMPLE, false, s, all, s')
  {
    all := [e] + es;
    assert all[1..] == es;
  }
}
