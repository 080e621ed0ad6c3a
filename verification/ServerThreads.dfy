/** Several clients at once: the threads of the server share one disk, and do not get in each other's way. */
module ServerThreads {
  import opened Bytes
  import opened Wire
  import opened FileTree
  import opened Reception
  import opened StackMachine

  // The name of a client's directory.

  const UNDERSCORE: Byte := 95
  const PERIOD: Byte := 46

  datatype Address = Address(a: nat, b: nat, c: nat, d: nat, port: nat)

  /** inet_ntoa, an underscore and the port number. */
  function HomeName(x: Address): Name {
    Decimal(x.a) + [PERIOD] + (Decimal(x.b) + [PERIOD] + (Decimal(x.c) + [PERIOD]
    + (Decimal(x.d) + [UNDERSCORE] + Decimal(x.port))))
  }

  /** The name is a text of five numbers: the four bytes of the address between periods, an underscore and the port. */
  lemma HomeNameReads(x: Address) returns (a: seq<Byte>, b: seq<Byte>, c: seq<Byte>, d: seq<Byte>, port: seq<Byte>)
    ensures HomeName(x) == a + [46] + (b + [46] + (c + [46] + (d + [95] + port)))
    ensures Numeral(a, x.a) && Numeral(b, x.b) && Numeral(c, x.c) && Numeral(d, x.d) && Numeral(port, x.port)
  {
    hide Decimal, Numeral;
    a, b, c, d, port := Decimal(x.a), Decimal(x.b), Decimal(x.c), Decimal(x.d), Decimal(x.port);
    DecimalReads(x.a);
    DecimalReads(x.b);
    DecimalReads(x.c);
    DecimalReads(x.d);
    DecimalReads(x.port);
  }

  /** 10.0.0.12_50000 */
  lemma OneHomeName()
    ensures HomeName(Address(10, 0, 0, 12, 50000)) == [49, 48, 46, 48, 46, 48, 46, 49, 50, 95, 53, 48, 48, 48, 48]
  {
    assert Decimal(10) == [49, 48] && Decimal(12) == [49, 50] && Decimal(0) == [48];
    FiftyThousand();
  }

  lemma FiftyThousand()
    ensures Decimal(50000) == [53, 48, 48, 48, 48]
  {
    assert Decimal(50) == [53, 48];
    assert Decimal(500) == [53, 48, 48];
    assert Decimal(5000) == [53, 48, 48, 48];
  }

  /** Clients with different addresses or ports have different directories. */
  lemma HomeNameIsInjective(x: Address, y: Address)
    requires HomeName(x) == HomeName(y)
    ensures x == y
  {
    var x3, y3 := Decimal(x.d) + [UNDERSCORE] + Decimal(x.port), Decimal(y.d) + [UNDERSCORE] + Decimal(y.port);
    var x2, y2 := Decimal(x.c) + [PERIOD] + x3, Decimal(y.c) + [PERIOD] + y3;
    var x1, y1 := Decimal(x.b) + [PERIOD] + x2, Decimal(y.b) + [PERIOD] + y2;
    SplitIsUnique(Decimal(x.a), Decimal(y.a), PERIOD, x1, y1);
    SplitIsUnique(Decimal(x.b), Decimal(y.b), PERIOD, x2, y2);
    SplitIsUnique(Decimal(x.c), Decimal(y.c), PERIOD, x3, y3);
    SplitIsUnique(Decimal(x.d), Decimal(y.d), UNDERSCORE, Decimal(x.port), Decimal(y.port));
    DecimalIsInjective(x.a, y.a);
    DecimalIsInjective(x.b, y.b);
    DecimalIsInjective(x.c, y.c);
    DecimalIsInjective(x.d, y.d);
    DecimalIsInjective(x.port, y.port);
  }

  // Threads.

  datatype Thread = Thread(client: Name, status: Status, stack: seq<Task>, input: seq<Byte>)

  /**
    One step of `clientThread`: the next round, or the next
    complete buffer; a thread whose buffer is not complete waits.
   */
  function LocalStep(cwd: Path, th: Thread, fs: Fs): (Thread, Fs) {
    if th.status != Running then (th, fs)
    else if th.stack == [] then (th.(stack := [Magic(cwd, Some(th.client))]), fs)
    else
      var n := Demand(th.stack[0]);
      if |th.input| < n then (th, fs)
      else
        var m := Handle(th.stack, fs, th.input[..n]);
        (Thread(th.client, m.status, m.stack, th.input[n..]), m.fs)
  }

  /**
    The next buffer is a header that leads out of the directory of the client: that of a file at the top
    of a dump, which goes beside the directory, or one whose name is not a single path component.
   */
  predicate Strays(th: Thread) {
    && th.status == Running && th.stack != [] && th.stack[0].Header? && BOX <= |th.input|
    && var box := th.input[..BOX];
       !ValidName(BoxName(box)) || (th.stack[0].top.Some? && BoxKind(box) == FILE)
  }

  predicate TaskBelow(cwd: Path, client: Name, t: Task) {
    var home := cwd + [client];
    match t
    case Magic(dir, top) => if top.Some? then dir == cwd && top == Some(client) else home <= dir
    case Header(dir, top) => if top.Some? then dir == cwd && top == Some(client) else home <= dir
    case Body(p, _) => home <= p
    case Flag(dir) => home <= dir
  }

  predicate StaysBelow(cwd: Path, th: Thread) {
    forall t :: t in th.stack ==> TaskBelow(cwd, th.client, t)
  }

  /** The two disks agree on everything below a directory. */
  ghost predicate SameBelow(p: Path, fs: Fs, gs: Fs) {
    forall q :: p <= q ==> (q in fs <==> q in gs) && (q in fs ==> fs[q] == gs[q])
  }

  ghost predicate SameOutside(p: Path, fs: Fs, gs: Fs) {
    forall q :: !(p <= q) ==> (q in fs <==> q in gs) && (q in fs ==> fs[q] == gs[q])
  }

  /** From the disks `fs` and `gs` to `fs1` and `gs1`: the same changes, and only below `p`. */
  ghost predicate Alike(p: Path, fs: Fs, gs: Fs, fs1: Fs, gs1: Fs) {
    SameBelow(p, fs1, gs1) && SameOutside(p, fs, fs1) && SameOutside(p, gs, gs1)
  }

  lemma WriteIsAlike(p: Path, fs: Fs, gs: Fs, fs1: Fs, gs1: Fs, q: Path, e: Entry)
    requires Alike(p, fs, gs, fs1, gs1) && p <= q
    ensures Alike(p, fs, gs, fs1[q := e], gs1[q := e])
  {
  }

  /** What a thread looks at is below its own directory, or is the directory it all happens in. */
  lemma HeaderIsLocal(cwd: Path, client: Name, dir: Path, top: Option<Name>, rest: seq<Task>, buffer: seq<Byte>,
                      fs: Fs, gs: Fs)
    requires |buffer| == BOX && ValidName(BoxName(buffer))
    requires TaskBelow(cwd, client, Header(dir, top)) && forall t :: t in rest ==> TaskBelow(cwd, client, t)
    requires top.Some? ==> BoxKind(buffer) != FILE
    requires IsFolder(fs, cwd) && IsFolder(gs, cwd) && SameBelow(cwd + [client], fs, gs)
    ensures var stack := [Header(dir, top)] + rest;
            var (m, k) := (Handle(stack, fs, buffer), Handle(stack, gs, buffer));
            && m.status == k.status && m.stack == k.stack
            && (forall t :: t in m.stack ==> TaskBelow(cwd, client, t))
            && Alike(cwd + [client], fs, gs, m.fs, k.fs)
  {
    hide Alike;
    var home, name, below := cwd + [client], BoxName(buffer), Home(dir, top);
    var stack := [Header(dir, top)] + rest;
    assert stack[1..] == rest;
    assert home <= home && home <= below && home <= below + [name];
    NothingIsAlike(home, fs, gs);
    if BoxKind(buffer) == FILE {
      WriteIsAlike(home, fs, gs, fs, gs, below + [name], Blob([]));
    } else {
      HomeIsAlike(cwd, client, dir, top, fs, gs);
      var f1, g1 := MakeHome(fs, dir, top).value, MakeHome(gs, dir, top).value;
      WriteIsAlike(home, fs, gs, f1, g1, below + [name], Folder);
      BelowIsAlike(home, fs, gs, f1, g1, below);
      BelowIsAlike(home, fs, gs, f1, g1, below + [name]);
    }
  }

  lemma NothingIsAlike(p: Path, fs: Fs, gs: Fs)
    requires SameBelow(p, fs, gs)
    ensures Alike(p, fs, gs, fs, gs)
  {
  }

  lemma BelowIsAlike(p: Path, fs: Fs, gs: Fs, fs1: Fs, gs1: Fs, q: Path)
    requires Alike(p, fs, gs, fs1, gs1) && p <= q
    ensures (q in fs1 <==> q in gs1) && IsFolder(fs1, q) == IsFolder(gs1, q)
  {
  }

  lemma HomeIsAlike(cwd: Path, client: Name, dir: Path, top: Option<Name>, fs: Fs, gs: Fs)
    requires TaskBelow(cwd, client, Header(dir, top))
    requires IsFolder(fs, cwd) && IsFolder(gs, cwd) && SameBelow(cwd + [client], fs, gs)
    ensures MakeHome(fs, dir, top).Some? && MakeHome(gs, dir, top).Some?
    ensures Alike(cwd + [client], fs, gs, MakeHome(fs, dir, top).value, MakeHome(gs, dir, top).value)
  {
    var home := cwd + [client];
    assert home <= home;
    NothingIsAlike(home, fs, gs);
    WriteIsAlike(home, fs, gs, fs, gs, home, Folder);
  }

  lemma HandleIsLocal(cwd: Path, client: Name, stack: seq<Task>, buffer: seq<Byte>, fs: Fs, gs: Fs)
    requires stack != [] && |buffer| == Demand(stack[0]) && forall t :: t in stack ==> TaskBelow(cwd, client, t)
    requires stack[0].Header? ==> ValidName(BoxName(buffer)) && (stack[0].top.Some? ==> BoxKind(buffer) != FILE)
    requires IsFolder(fs, cwd) && IsFolder(gs, cwd) && SameBelow(cwd + [client], fs, gs)
    ensures var (m, k) := (Handle(stack, fs, buffer), Handle(stack, gs, buffer));
            && m.status == k.status && m.stack == k.stack
            && (forall t :: t in m.stack ==> TaskBelow(cwd, client, t))
            && Alike(cwd + [client], fs, gs, m.fs, k.fs)
  {
    var home, rest := cwd + [client], stack[1..];
    assert stack[0] in stack && forall t :: t in rest ==> t in stack;
    assert stack == [stack[0]] + rest;
    assert Alike(home, fs, gs, fs, gs);
    match stack[0]
    case Magic(dir, top) =>
    case Header(dir, top) => HeaderIsLocal(cwd, client, dir, top, rest, buffer, fs, gs);
    case Body(p, _) =>
      assert home <= p;
      WriteIsAlike(home, fs, gs, fs, gs, p, Append(fs, p, buffer)[p]);
    case Flag(dir) =>
  }

  /** A thread neither sees nor changes anything outside its own directory. */
  lemma StepIsLocal(cwd: Path, th: Thread, fs: Fs, gs: Fs)
    requires StaysBelow(cwd, th) && !Strays(th)
    requires IsFolder(fs, cwd) && IsFolder(gs, cwd) && SameBelow(cwd + [th.client], fs, gs)
    ensures var ((a, fs1), (b, gs1)) := (LocalStep(cwd, th, fs), LocalStep(cwd, th, gs));
            && a == b && StaysBelow(cwd, a) && a.client == th.client
            && Alike(cwd + [th.client], fs, gs, fs1, gs1)
  {
    hide Handle;
    if th.status == Running && th.stack != [] && Demand(th.stack[0]) <= |th.input| {
      HandleIsLocal(cwd, th.client, th.stack, th.input[..Demand(th.stack[0])], fs, gs);
    }
  }

  // Schedules.

  datatype System = System(threads: seq<Thread>, fs: Fs)

  /** `exit(1)` in one thread ends them all. */
  predicate Ended(s: System) {
    exists i :: 0 <= i < |s.threads| && s.threads[i].status == Gone
  }

  function Step(cwd: Path, s: System, i: nat): (s': System)
    ensures |s'.threads| == |s.threads|
  {
    if Ended(s) || |s.threads| <= i then s else
    var (th, fs) := LocalStep(cwd, s.threads[i], s.fs);
    System(s.threads[i := th], fs)
  }

  /** The threads take steps in the given order. */
  function Interleave(cwd: Path, s: System, order: seq<nat>): (s': System)
    ensures |s'.threads| == |s.threads|
    decreases |order|
  {
    if order == [] then s
    else Step(cwd, Interleave(cwd, s, order[..|order| - 1]), order[|order| - 1])
  }

  /** A thread on its own. */
  function Solo(cwd: Path, th: Thread, fs: Fs, steps: nat): (Thread, Fs) {
    if steps == 0 then (th, fs) else
    var (th1, fs1) := Solo(cwd, th, fs, steps - 1);
    LocalStep(cwd, th1, fs1)
  }

  function Turns(i: nat, order: seq<nat>): (n: nat)
    ensures n <= |order|
    decreases |order|
  {
    if order == [] then 0
    else Turns(i, order[..|order| - 1]) + (if order[|order| - 1] == i then 1 else 0)
  }

  /** On its own, each thread keeps to its directory and does not end the server. */
  ghost predicate WellBehaved(cwd: Path, s: System, steps: nat) {
    forall i, k :: 0 <= i < |s.threads| && 0 <= k <= steps ==>
      var th := Solo(cwd, s.threads[i], s.fs, k).0; !Strays(th) && th.status != Gone
  }

  ghost predicate ManyClients(cwd: Path, s: System) {
    && IsFolder(s.fs, cwd)
    && (forall i :: 0 <= i < |s.threads| ==> StaysBelow(cwd, s.threads[i]))
    && (forall i, j :: 0 <= i < j < |s.threads| ==> s.threads[i].client != s.threads[j].client)
  }

  function HomeOf(cwd: Path, s: System, i: nat): Path
    requires i < |s.threads|
  {
    cwd + [s.threads[i].client]
  }

  /** Thread `i` of `t` stands where it would stand alone, and below its directory so does the disk. */
  ghost predicate Stands(cwd: Path, s: System, order: seq<nat>, t: System, i: nat)
    requires i < |s.threads| == |t.threads|
  {
    var (th, fs) := Solo(cwd, s.threads[i], s.fs, Turns(i, order));
    && t.threads[i] == th && th.client == s.threads[i].client && StaysBelow(cwd, th)
    && IsFolder(fs, cwd) && SameBelow(HomeOf(cwd, s, i), t.fs, fs)
  }

  ghost predicate Outside(cwd: Path, s: System, q: Path) {
    forall i :: 0 <= i < |s.threads| ==> !(HomeOf(cwd, s, i) <= q)
  }

  /** `t` is `s` after every thread took as many steps on its own as it has turns in `order`. */
  ghost predicate AsIfAlone(cwd: Path, s: System, order: seq<nat>, t: System) {
    && |t.threads| == |s.threads|
    && (forall i :: 0 <= i < |s.threads| ==> Stands(cwd, s, order, t, i))
    && (forall q :: Outside(cwd, s, q) ==> (q in t.fs <==> q in s.fs) && (q in s.fs ==> t.fs[q] == s.fs[q]))
  }

  /** However the steps of the threads are interleaved, each thread and its directory end as if it had run alone. */
  lemma {:induction false} InterleavingIsAsIfAlone(cwd: Path, s: System, order: seq<nat>)
    requires ManyClients(cwd, s) && WellBehaved(cwd, s, |order|)
    ensures AsIfAlone(cwd, s, order, Interleave(cwd, s, order))
    decreases |order|
  {
    if order == [] {
      assert forall q :: q == cwd ==> forall i :: 0 <= i < |s.threads| ==> |HomeOf(cwd, s, i)| > |q|;
    } else {
      var front, i := order[..|order| - 1], order[|order| - 1];
      InterleavingIsAsIfAlone(cwd, s, front);
      TurnIsAsIfAlone(cwd, s, front, i, Interleave(cwd, s, front));
      assert front + [i] == order;
    }
  }

  lemma TurnIsAsIfAlone(cwd: Path, s: System, front: seq<nat>, i: nat, t: System)
    requires ManyClients(cwd, s) && WellBehaved(cwd, s, |front|) && AsIfAlone(cwd, s, front, t)
    ensures AsIfAlone(cwd, s, front + [i], Step(cwd, t, i))
  {
    hide LocalStep, Solo, StaysBelow;
    var order, t' := front + [i], Step(cwd, t, i);
    assert order[..|order| - 1] == front;
    forall j | 0 <= j < |s.threads| ensures t.threads[j].status != Gone {
      assert Stands(cwd, s, front, t, j);
    }
    if i < |s.threads| {
      ActorStands(cwd, s, front, i, t);
    }
    forall j | 0 <= j < |s.threads| ensures Stands(cwd, s, order, t', j) {
      assert Stands(cwd, s, front, t, j);
      if j != i {
        BystanderStands(cwd, s, front, i, t, t', j);
      }
    }
  }

  lemma ActorStands(cwd: Path, s: System, front: seq<nat>, i: nat, t: System)
    requires ManyClients(cwd, s) && WellBehaved(cwd, s, |front|) && AsIfAlone(cwd, s, front, t)
    requires i < |s.threads| && !Ended(t)
    ensures Stands(cwd, s, front + [i], Step(cwd, t, i), i)
    ensures SameOutside(HomeOf(cwd, s, i), t.fs, Step(cwd, t, i).fs)
  {
    hide LocalStep, StaysBelow;
    var order := front + [i];
    assert order[..|order| - 1] == front;
    var (th, fs) := Solo(cwd, s.threads[i], s.fs, Turns(i, front));
    assert Stands(cwd, s, front, t, i);
    var home := HomeOf(cwd, s, i);
    assert Outside(cwd, s, cwd);
    StepIsLocal(cwd, th, t.fs, fs);
    assert !(home <= cwd);
  }

  lemma BystanderStands(cwd: Path, s: System, front: seq<nat>, i: nat, t: System, t': System, j: nat)
    requires ManyClients(cwd, s) && j < |s.threads| == |t.threads| == |t'.threads| && i != j
    requires Stands(cwd, s, front, t, j) && t'.threads[j] == t.threads[j]
    requires t'.fs == t.fs || (i < |s.threads| && SameOutside(HomeOf(cwd, s, i), t.fs, t'.fs))
    ensures Stands(cwd, s, front + [i], t', j)
  {
    hide Solo, StaysBelow, SameBelow, SameOutside;
    var order := front + [i];
    assert order[..|order| - 1] == front;
    if t'.fs != t.fs {
      var fs := Solo(cwd, s.threads[j], s.fs, Turns(j, front)).1;
      ChangesElsewhere(cwd, s.threads[i].client, s.threads[j].client, t.fs, t'.fs, fs);
    }
  }

  /** A change below one client's directory does not show below another's. */
  lemma ChangesElsewhere(cwd: Path, a: Name, b: Name, fs: Fs, fs': Fs, gs: Fs)
    requires a != b && SameOutside(cwd + [a], fs, fs') && SameBelow(cwd + [b], fs, gs)
    ensures SameBelow(cwd + [b], fs', gs)
  {
    var home := cwd + [b];
    forall q | home <= q ensures (q in fs' <==> q in gs) && (q in fs' ==> fs'[q] == gs[q]) {
      SiblingsAreApart(cwd, b, a, q);
    }
  }

  /** Schedules that give every thread the same number of turns lead to the same state: threads do not interfere. */
  lemma OrderIsIrrelevant(cwd: Path, s: System, order: seq<nat>, other: seq<nat>)
    requires ManyClients(cwd, s) && WellBehaved(cwd, s, |order|) && WellBehaved(cwd, s, |other|)
    requires forall i :: 0 <= i < |s.threads| ==> Turns(i, order) == Turns(i, other)
    ensures Interleave(cwd, s, order) == Interleave(cwd, s, other)
  {
    var t, u := Interleave(cwd, s, order), Interleave(cwd, s, other);
    InterleavingIsAsIfAlone(cwd, s, order);
    InterleavingIsAsIfAlone(cwd, s, other);
    forall i | 0 <= i < |s.threads| ensures t.threads[i] == u.threads[i] && SameBelow(HomeOf(cwd, s, i), t.fs, u.fs) {
      assert Stands(cwd, s, order, t, i) && Stands(cwd, s, other, u, i);
    }
    assert t.threads == u.threads;
    forall q ensures (q in t.fs <==> q in u.fs) && (q in t.fs ==> t.fs[q] == u.fs[q]) {
      if !Outside(cwd, s, q) {
        var i :| 0 <= i < |s.threads| && HomeOf(cwd, s, i) <= q;
        assert SameBelow(HomeOf(cwd, s, i), t.fs, u.fs);
      }
    }
    assert t.fs == u.fs;
  }
}
