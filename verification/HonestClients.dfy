/**
  The threads of clients that send dumps: they keep to their
  directories, and every dump arrives whatever the others do.
 */
module HonestClients {
  import opened Bytes
  import opened Wire
  import opened FileTree
  import opened Reception
  import opened StackMachine
  import opened AwaitedStream
  import opened ServerThreads
  import Session

  lemma SomethingToSend(dumps: seq<Tree>)
    requires forall t :: t in dumps ==> WellFormed(t)
    ensures EncodeAll(dumps) == [] ==> dumps == []
  {
  }

  /** Between two rounds, waiting for the first box, waiting for the header of the dump, or inside the dump. */
  datatype Phase = Between | AtMagic | AtHeader | Inside(todo: seq<Item>)

  /**
    The thread of a client that has finished `done` of its dumps;
    `missing` is the part of the client's stream that never arrives.
   */
  ghost predicate InPhase(u: Session.Setup, dumps: seq<Tree>, missing: seq<Byte>, th: Thread, fs: Fs, done: nat,
                          phase: Phase)
    requires forall t :: t in dumps ==> WellFormed(t)
  {
    && th.status == Running && th.client == u.client && done <= |dumps|
    && var top := Some(u.client);
    match phase
    case Between =>
      && th.stack == [] && fs == Session.AllInstalled(u, dumps[..done])
      && th.input + missing == EncodeAll(dumps[done..])
    case AtMagic =>
      && th.stack == [Magic(u.cwd, top)] && fs == Session.AllInstalled(u, dumps[..done])
      && th.input + missing == EncodeAll(dumps[done..])
    case AtHeader =>
      && done < |dumps| && th.stack == [Header(u.cwd, top)] && fs == Session.AllInstalled(u, dumps[..done])
      && MessageBox(SUCCESS) + (th.input + missing) == EncodeAll(dumps[done..])
    case Inside(todo) =>
      && done < |dumps| && th.stack != []
      && Awaiting(th.stack, todo, th.input + missing, EncodeAll(dumps[done + 1..]))
      && Run(Machine(Running, th.stack, fs), th.input + missing)
         == (Machine(Running, [], Session.AllInstalled(u, dumps[..done + 1])), EncodeAll(dumps[done + 1..]))
  }

  lemma NextDump(u: Session.Setup, dumps: seq<Tree>, done: nat)
    requires Dumps(u.base, u.cwd, u.client, dumps) && done < |dumps|
    ensures var fs, t := Session.AllInstalled(u, dumps[..done]), dumps[done];
            && HomeUsable(fs, u.cwd, u.client) && Vacant(fs, u.cwd + [u.client] + [t.name])
            && Session.AllInstalled(u, dumps[..done + 1]) == InstallTop(fs, u.cwd, u.client, t)
            && EncodeAll(dumps[done..])
               == MessageBox(SUCCESS) + (HeaderOf(t) + (EncodeKids(t.kids) + EncodeAll(dumps[done + 1..])))
            && EncodeAll(dumps[done..]) == Encode(t) + EncodeAll(dumps[done + 1..])
  {
    var t := dumps[done];
    assert dumps[done..][1..] == dumps[done + 1..];
    assert dumps[..done + 1][..done] == dumps[..done];
    RoomForNext(u.base, u.cwd, u.client, dumps[..done], t.name);
    var rest := EncodeAll(dumps[done + 1..]);
    EncodeParts(t, rest);
    Assoc(MessageBox(SUCCESS), HeaderOf(t), EncodeKids(t.kids) + rest);
  }

  /** `buffer` is what the thread handles next; the stream goes on behind it. */
  lemma NextBuffer(input: seq<Byte>, missing: seq<Byte>, n: nat, front: seq<Byte>, later: seq<Byte>)
    requires n <= |input| && |front| == n && input + missing == front + later
    ensures input[..n] == front && input[n..] + missing == later
  {
    assert input + missing == input[..n] + (input[n..] + missing);
    SameSplit(input[..n], front, input[n..] + missing, later);
  }

  lemma PhaseStep(u: Session.Setup, dumps: seq<Tree>, missing: seq<Byte>, th: Thread, fs: Fs, done: nat, phase: Phase)
    returns (done': nat, phase': Phase)
    requires Dumps(u.base, u.cwd, u.client, dumps) && InPhase(u, dumps, missing, th, fs, done, phase)
    ensures !Strays(th)
    ensures var (th', fs') := LocalStep(u.cwd, th, fs); InPhase(u, dumps, missing, th', fs', done', phase')
  {
    done', phase' := done, phase;
    match phase
    case Between =>
      phase' := AtMagic;
    case AtMagic =>
      if BOX <= |th.input| {
        MagicStep(u, dumps, missing, th, fs, done);
        phase' := AtHeader;
      }
    case AtHeader =>
      HeaderStep(u, dumps, missing, th, fs, done);
      if BOX <= |th.input| {
        phase' := Inside([Kids(dumps[done].kids)]);
      }
    case Inside(todo) =>
      if Demand(th.stack[0]) <= |th.input| {
        done', phase' := InsideStep(u, dumps, missing, th, fs, done, todo);
      }
  }

  lemma MagicStep(u: Session.Setup, dumps: seq<Tree>, missing: seq<Byte>, th: Thread, fs: Fs, done: nat)
    requires Dumps(u.base, u.cwd, u.client, dumps) && InPhase(u, dumps, missing, th, fs, done, AtMagic)
             && BOX <= |th.input|
    ensures var (th', fs') := LocalStep(u.cwd, th, fs); InPhase(u, dumps, missing, th', fs', done, AtHeader)
  {
    assert dumps[done..] != [];
    NextDump(u, dumps, done);
    var t := dumps[done];
    NextBuffer(th.input, missing, BOX, MessageBox(SUCCESS),
        HeaderOf(t) + (EncodeKids(t.kids) + EncodeAll(dumps[done + 1..])));
  }

  lemma HeaderStep(u: Session.Setup, dumps: seq<Tree>, missing: seq<Byte>, th: Thread, fs: Fs, done: nat)
    requires Dumps(u.base, u.cwd, u.client, dumps) && InPhase(u, dumps, missing, th, fs, done, AtHeader)
    ensures !Strays(th)
    ensures var (th', fs') := LocalStep(u.cwd, th, fs);
            BOX <= |th.input| ==> InPhase(u, dumps, missing, th', fs', done, Inside([Kids(dumps[done].kids)]))
  {
    hide Handle, Awaiting, Run, Encode, InstallDumps;
    if BOX <= |th.input| {
      NextDump(u, dumps, done);
      var t, rest := dumps[done], EncodeAll(dumps[done + 1..]);
      var later := EncodeKids(t.kids) + rest;
      SameSplit(MessageBox(SUCCESS), MessageBox(SUCCESS), th.input + missing, HeaderOf(t) + later);
      NextBuffer(th.input, missing, BOX, HeaderOf(t), later);
      HeaderRoundTrip(KindOf(t), SizeOf(t), t.name);
      AfterBoxes(u, t, rest, fs);
      KidsAreAwaited(u.cwd + [u.client] + [t.name], t.kids, rest);
    }
  }

  lemma KidsAreAwaited(dir: Path, kids: seq<Tree>, rest: seq<Byte>)
    requires forall k :: k in kids ==> WellFormed(k)
    ensures Awaiting([Flag(dir)], [Kids(kids)], EncodeKids(kids) + rest, rest)
  {
    assert [] + rest == rest && [Flag(dir)] + [] == [Flag(dir)] && [Kids(kids)] + [] == [Kids(kids)];
    AwaitingMore(Flag(dir), Kids(kids), [], [], rest, rest);
  }

  /** The machine of a dump after its two boxes. */
  lemma AfterBoxes(u: Session.Setup, t: Tree, rest: seq<Byte>, fs: Fs)
    requires WellFormed(t) && t.Dir? && HomeUsable(fs, u.cwd, u.client) && Vacant(fs, u.cwd + [u.client] + [t.name])
    ensures var m := Handle([Header(u.cwd, Some(u.client))], fs, HeaderOf(t));
            && m.status == Running && m.stack == [Flag(u.cwd + [u.client] + [t.name])]
            && Run(m, EncodeKids(t.kids) + rest) == (Machine(Running, [], InstallTop(fs, u.cwd, u.client, t)), rest)
  {
    hide Handle, Run, Encode, InstallTop, HomeUsable, Vacant;
    var later := EncodeKids(t.kids) + rest;
    var magic, header := [Magic(u.cwd, Some(u.client))], [Header(u.cwd, Some(u.client))];
    DumpOnMachine(t, rest, fs, u.cwd, u.client);
    EncodeParts(t, rest);
    Assoc(MessageBox(SUCCESS), HeaderOf(t), later);
    TopBoxes(u, t, fs);
    OneBuffer(magic, fs, MessageBox(SUCCESS), HeaderOf(t) + later);
    OneBuffer(header, fs, HeaderOf(t), later);
  }

  lemma OneBuffer(stack: seq<Task>, fs: Fs, buffer: seq<Byte>, later: seq<Byte>)
    requires stack != [] && |buffer| == Demand(stack[0])
    ensures Run(Machine(Running, stack, fs), buffer + later) == Run(Handle(stack, fs, buffer), later)
  {
    hide Handle;
    assert (buffer + later)[..|buffer|] == buffer && (buffer + later)[|buffer|..] == later;
  }

  lemma TopBoxes(u: Session.Setup, t: Tree, fs: Fs)
    requires WellFormed(t) && t.Dir? && HomeUsable(fs, u.cwd, u.client) && Vacant(fs, u.cwd + [u.client] + [t.name])
    ensures var magic, header := [Magic(u.cwd, Some(u.client))], [Header(u.cwd, Some(u.client))];
            && Handle(magic, fs, MessageBox(SUCCESS)) == Machine(Running, header, fs)
            && var m := Handle(header, fs, HeaderOf(t));
               m.status == Running && m.stack == [Flag(u.cwd + [u.client] + [t.name])]
  {
    HeaderRoundTrip(KindOf(t), SizeOf(t), t.name);
    var home := u.cwd + [u.client];
    assert home + [t.name] <= home + [t.name];
    assert MakeHome(fs, u.cwd, Some(u.client)).Some?;
  }

  lemma InsideStep(u: Session.Setup, dumps: seq<Tree>, missing: seq<Byte>, th: Thread, fs: Fs, done: nat,
                   todo: seq<Item>)
    returns (done': nat, phase': Phase)
    requires Dumps(u.base, u.cwd, u.client, dumps) && InPhase(u, dumps, missing, th, fs, done, Inside(todo))
    requires Demand(th.stack[0]) <= |th.input|
    ensures !Strays(th)
    ensures var (th', fs') := LocalStep(u.cwd, th, fs); InPhase(u, dumps, missing, th', fs', done', phase')
  {
    hide Handle, Run, Awaiting, EncodeAll, InstallDumps;
    var n := Demand(th.stack[0]);
    var got, later, tail := th.input[..n], th.input[n..] + missing, EncodeAll(dumps[done + 1..]);
    assert th.input + missing == got + later;
    if th.stack[0].Header? {
      HeaderIsHonest(th.stack, todo, got, later, tail);
    }
    Session.BufferOnMachine(th.stack, fs, got, later);
    var todo' := AwaitingStep(th.stack, todo, fs, got, later, tail);
    var m := Handle(th.stack, fs, th.input[..n]);
    if m.stack == [] {
      done', phase' := done + 1, Between;
    } else {
      done', phase' := done, Inside(todo');
      assert m == Machine(Running, m.stack, m.fs);
    }
  }

  /** A client's thread on its own: always in some phase of some round. */
  lemma {:induction false} HonestAlone(u: Session.Setup, dumps: seq<Tree>, missing: seq<Byte>, th: Thread, steps: nat)
    returns (done: nat, phase: Phase)
    requires Dumps(u.base, u.cwd, u.client, dumps) && InPhase(u, dumps, missing, th, u.base, 0, Between)
    ensures var (th', fs') := Solo(u.cwd, th, u.base, steps);
            InPhase(u, dumps, missing, th', fs', done, phase) && !Strays(th') && th'.status == Running
    decreases steps
  {
    hide LocalStep, Dumps, Strays, Run, EncodeAll, Awaiting, InstallDumps;
    if steps == 0 {
      done, phase := 0, Between;
    } else {
      done, phase := HonestAlone(u, dumps, missing, th, steps - 1);
      var (th1, fs1) := Solo(u.cwd, th, u.base, steps - 1);
      done, phase := PhaseStep(u, dumps, missing, th1, fs1, done, phase);
    }
    var (th', fs') := Solo(u.cwd, th, u.base, steps);
    var _, _ := PhaseStep(u, dumps, missing, th', fs', done, phase);
  }

  // Many honest clients.

  /**
    Thread `i` serves a client that sends the dumps `all[i]`, of whose stream the bytes in the thread's input arrive.
   */
  ghost predicate Honest(cwd: Path, s: System, all: seq<seq<Tree>>, missing: seq<seq<Byte>>) {
    && |all| == |missing| == |s.threads| && IsFolder(s.fs, cwd)
    && (forall i :: 0 <= i < |all| ==> HonestThread(cwd, s, all[i], missing[i], i))
    && (forall i, j :: 0 <= i < j < |s.threads| ==> s.threads[i].client != s.threads[j].client)
  }

  function SetupOf(cwd: Path, s: System, i: nat): Session.Setup
    requires i < |s.threads|
  {
    Session.Setup(1, cwd, s.threads[i].client, s.fs)
  }

  ghost predicate HonestThread(cwd: Path, s: System, dumps: seq<Tree>, missing: seq<Byte>, i: nat)
    requires i < |s.threads|
  {
    && Dumps(s.fs, cwd, s.threads[i].client, dumps)
    && InPhase(SetupOf(cwd, s, i), dumps, missing, s.threads[i], s.fs, 0, Between)
  }

  /** Clients that send dumps satisfy what `InterleavingIsAsIfAlone` asks of a thread, for runs of any length. */
  lemma HonestIsWellBehaved(cwd: Path, s: System, all: seq<seq<Tree>>, missing: seq<seq<Byte>>, steps: nat)
    requires Honest(cwd, s, all, missing)
    ensures ManyClients(cwd, s) && WellBehaved(cwd, s, steps)
  {
    forall i, k | 0 <= i < |s.threads| && 0 <= k <= steps
      ensures var th := Solo(cwd, s.threads[i], s.fs, k).0; !Strays(th) && th.status != Gone
    {
      assert HonestThread(cwd, s, all[i], missing[i], i);
      var _, _ := HonestAlone(SetupOf(cwd, s, i), all[i], missing[i], s.threads[i], k);
    }
    forall i | 0 <= i < |s.threads| ensures StaysBelow(cwd, s.threads[i]) {
      assert HonestThread(cwd, s, all[i], missing[i], i);
    }
  }

  /**
    Whatever the interleaving with other clients: a thread whose client's stream arrived completely, and that has
    read all of it and is between two rounds, has left exactly the dumps of its client in the client's directory.
   */
  lemma AllDumpsArrive(cwd: Path, s: System, all: seq<seq<Tree>>, missing: seq<seq<Byte>>, order: seq<nat>, i: nat)
    requires Honest(cwd, s, all, missing) && i < |s.threads| && missing[i] == []
    requires var th := Interleave(cwd, s, order).threads[i];
             th.input == [] && (th.stack == [] || th.stack == [Magic(cwd, Some(th.client))])
    ensures SameBelow(HomeOf(cwd, s, i), Interleave(cwd, s, order).fs, Session.AllInstalled(SetupOf(cwd, s, i), all[i]))
  {
    hide InPhase, Solo, Interleave, WellBehaved, ManyClients, SameBelow, StaysBelow, InstallDumps, Strays;
    var u, dumps := SetupOf(cwd, s, i), all[i];
    HonestIsWellBehaved(cwd, s, all, missing, |order|);
    InterleavingIsAsIfAlone(cwd, s, order);
    var t := Interleave(cwd, s, order);
    assert Stands(cwd, s, order, t, i) && HonestThread(cwd, s, dumps, missing[i], i);
    var done, phase := HonestAlone(u, dumps, missing[i], s.threads[i], Turns(i, order));
    var (th, fs) := Solo(cwd, s.threads[i], s.fs, Turns(i, order));
    AllIsRead(u, dumps, th, fs, done, phase);
  }

  /** A thread that has read everything and is between two rounds has finished all dumps. */
  lemma AllIsRead(u: Session.Setup, dumps: seq<Tree>, th: Thread, fs: Fs, done: nat, phase: Phase)
    requires (forall t :: t in dumps ==> WellFormed(t)) && InPhase(u, dumps, [], th, fs, done, phase)
    requires th.input == [] && (th.stack == [] || th.stack == [Magic(u.cwd, Some(u.client))])
    ensures fs == Session.AllInstalled(u, dumps)
  {
    hide Run, InstallDumps, Awaiting, Encode;
    assert th.input + [] == [];
    if phase.Inside? {
      AwaitingTop(th.stack, phase.todo, th.input + [], EncodeAll(dumps[done + 1..]));
    }
    SomethingToSend(dumps[done..]);
    assert dumps[..|dumps|] == dumps;
  }
}
