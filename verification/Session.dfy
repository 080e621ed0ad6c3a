/**
  The session: the server asks for a dump, the client sends one, and so on. Two processes and two bounded byte
  channels; every transfer may move any positive number of bytes at any time.
 */
module Session {
  import opened Bytes
  import opened Wire
  import opened FileTree
  import opened Reception
  import opened StackMachine

  /** `room` is the capacity of each channel; `base` is the disk before the first round. */
  datatype Setup = Setup(room: Positive, cwd: Path, client: Name, base: Fs)

  datatype ServerPc =
    | Signalling(left: seq<Byte>)
    | Receiving(stack: seq<Task>, got: seq<Byte>)
    | ServerStopped

  datatype ClientPc =
    | Listening(got: seq<Byte>)
    | Uploading(owed: seq<Byte>)
    | ClientStopped

  /** `sent` lists the trees of all rounds the client has begun. */
  datatype State = State(server: ServerPc, client: ClientPc, down: seq<Byte>, up: seq<Byte>, fs: Fs, sent: seq<Tree>)

  datatype Event =
    | ServerSends(count: Positive)
    | ClientReceives(count: Positive)
    | ClientStarts(dump: Tree)
    | ClientGivesUp
    | ClientSends(count: Positive)
    | ServerReceives(count: Positive)

  function Signal(): (box: seq<Byte>)
    ensures |box| == BOX && CString(box) == DUMP
  {
    MessageBox(DUMP)
  }

  function Init(u: Setup): State {
    State(Signalling(Signal()), Listening([]), [], [], u.base, [])
  }

  /** A round's dump is a directory whose name was not used before. */
  ghost predicate Fresh(u: Setup, s: State, t: Tree) {
    && WellFormed(t) && t.Dir?
    && Vacant(u.base, u.cwd + [u.client] + [t.name])
    && forall v :: v in s.sent ==> v.name != t.name
  }

  ghost predicate Enabled(u: Setup, s: State, e: Event) {
    match e
    case ServerSends(n) => s.server.Signalling? && n <= |s.server.left| && |s.down| + n <= u.room
    case ClientReceives(n) => s.client.Listening? && n <= |s.down| && |s.client.got| + n <= BOX
    case ClientStarts(t) => s.client.Listening? && |s.client.got| == BOX && CString(s.client.got) == DUMP
        && Fresh(u, s, t)
    case ClientGivesUp => s.client.Listening? && |s.client.got| == BOX && CString(s.client.got) != DUMP
    case ClientSends(n) => s.client.Uploading? && n <= |s.client.owed| && |s.up| + n <= u.room
    case ServerReceives(n) =>
      && s.server.Receiving? && s.server.stack != []
      && n <= |s.up| && |s.server.got| + n <= Demand(s.server.stack[0])
  }

  /** The server after a complete buffer: on with the stack, or the next signal. */
  function AfterBuffer(m: Machine): ServerPc {
    if m.status != Running then ServerStopped
    else if m.stack == [] then Signalling(Signal())
    else Receiving(m.stack, [])
  }

  ghost function Next(u: Setup, s: State, e: Event): State
    requires Enabled(u, s, e)
  {
    match e
    case ServerSends(n) =>
      var left := s.server.left[n..];
      s.(server := if left == [] then Receiving([Magic(u.cwd, Some(u.client))], []) else Signalling(left),
         down := s.down + s.server.left[..n])
    case ClientReceives(n) =>
      s.(client := Listening(s.client.got + s.down[..n]), down := s.down[n..])
    case ClientStarts(t) =>
      s.(client := Uploading(Encode(t)), sent := s.sent + [t])
    case ClientGivesUp =>
      s.(client := ClientStopped)
    case ClientSends(n) =>
      var owed := s.client.owed[n..];
      s.(client := if owed == [] then Listening([]) else Uploading(owed), up := s.up + s.client.owed[..n])
    case ServerReceives(n) =>
      var got := s.server.got + s.up[..n];
      if |got| < Demand(s.server.stack[0]) then s.(server := Receiving(s.server.stack, got), up := s.up[n..])
      else
        var m := Handle(s.server.stack, s.fs, got);
        s.(server := AfterBuffer(m), fs := m.fs, up := s.up[n..])
  }

  ghost predicate Reaches(u: Setup, s: State, es: seq<Event>, s': State)
    decreases es
  {
    if es == [] then s' == s else Enabled(u, s, es[0]) && Reaches(u, Next(u, s, es[0]), es[1..], s')
  }

  // The disk after the first rounds.

  function AllInstalled(u: Setup, sent: seq<Tree>): Fs {
    InstallDumps(u.base, u.cwd, u.client, sent)
  }

  // The invariant.

  function Owed(c: ClientPc): seq<Byte> {
    if c.Uploading? then c.owed else []
  }

  function Heard(c: ClientPc): seq<Byte> {
    if c.Listening? then c.got else []
  }

  /** The signal is on its way, or has arrived; nothing travels upwards. */
  ghost predicate Idle(u: Setup, s: State, left: seq<Byte>) {
    && s.client.Listening? && s.up == []
    && s.client.got + s.down + left == Signal()
    && s.fs == AllInstalled(u, s.sent)
  }

  /**
    A dump is on its way: the server's machine, given the bytes it holds, the bytes in flight and the bytes the client
    still owes, will come to rest with the whole tree on disk, having used every one of them.
   */
  ghost predicate Busy(u: Setup, s: State, stack: seq<Task>, got: seq<Byte>) {
    && s.sent != [] && s.down == []
    && (s.client == Listening([]) || (s.client.Uploading? && s.client.owed != []))
    && stack != [] && |got| < Demand(stack[0])
    && StackMachine.Run(Machine(Running, stack, s.fs), got + s.up + Owed(s.client))
       == (Machine(Running, [], AllInstalled(u, s.sent)), [])
  }

  ghost predicate Invariant(u: Setup, s: State) {
    && |s.down| <= u.room && |s.up| <= u.room
    && (forall t :: t in s.sent ==> WellFormed(t))
    && match s.server
       case Signalling(left) => left != [] && Idle(u, s, left)
       case Receiving(stack, got) =>
         || (stack == [Magic(u.cwd, Some(u.client))] && got == [] && Idle(u, s, []))
         || Busy(u, s, stack, got)
       case ServerStopped => false
  }

  ghost predicate Ready(u: Setup) {
    HomeUsable(u.base, u.cwd, u.client)
  }

  lemma InitHolds(u: Setup)
    ensures Invariant(u, Init(u))
  {
    assert [] + [] + Signal() == Signal();
  }

  lemma ServerSendsKeeps(u: Setup, s: State, n: Positive)
    requires Ready(u) && Invariant(u, s) && Enabled(u, s, ServerSends(n))
    ensures Invariant(u, Next(u, s, ServerSends(n)))
  {
    var left := s.server.left;
    assert s.client.got + s.down + left == s.client.got + (s.down + left[..n]) + left[n..];
  }

  lemma ClientReceivesKeeps(u: Setup, s: State, n: Positive)
    requires Ready(u) && Invariant(u, s) && Enabled(u, s, ClientReceives(n))
    ensures Invariant(u, Next(u, s, ClientReceives(n)))
  {
    var left := if s.server.Signalling? then s.server.left else [];
    assert Idle(u, s, left);
    assert s.client.got + s.down + left == (s.client.got + s.down[..n]) + s.down[n..] + left;
  }

  lemma ClientStartsKeeps(u: Setup, s: State, t: Tree)
    requires Ready(u) && Invariant(u, s) && Enabled(u, s, ClientStarts(t))
    ensures Invariant(u, Next(u, s, ClientStarts(t)))
  {
    var left := if s.server.Signalling? then s.server.left else [];
    assert Idle(u, s, left);
    assert |s.client.got + s.down + left| == BOX;
    assert s.down == [] && left == [];
    RoomForNext(u.base, u.cwd, u.client, s.sent, t.name);
    DumpOnMachine(t, [], s.fs, u.cwd, u.client);
    var sent := s.sent + [t];
    assert sent[..|sent| - 1] == s.sent;
    assert AllInstalled(u, sent) == InstallTop(s.fs, u.cwd, u.client, t);
    var s' := Next(u, s, ClientStarts(t));
    assert s'.server.got + s'.up + Owed(s'.client) == Encode(t) + [];
    assert Busy(u, s', s'.server.stack, s'.server.got);
  }

  lemma ClientSendsKeeps(u: Setup, s: State, n: Positive)
    requires Ready(u) && Invariant(u, s) && Enabled(u, s, ClientSends(n))
    ensures Invariant(u, Next(u, s, ClientSends(n)))
  {
    var got, owed := s.server.got, s.client.owed;
    assert got + s.up + owed == got + (s.up + owed[..n]) + owed[n..];
  }

  lemma ServerReceivesKeeps(u: Setup, s: State, n: Positive)
    requires Ready(u) && Invariant(u, s) && Enabled(u, s, ServerReceives(n))
    ensures Invariant(u, Next(u, s, ServerReceives(n)))
  {
    hide Handle, StackMachine.Run, InstallDumps;
    var stack, got := s.server.stack, s.server.got + s.up[..n];
    var later := s.up[n..] + Owed(s.client);
    assert Busy(u, s, stack, s.server.got);
    assert s.server.got + s.up + Owed(s.client) == got + s.up[n..] + Owed(s.client) == got + later;
    if |got| < Demand(stack[0]) {
      assert Busy(u, Next(u, s, ServerReceives(n)), stack, got);
    } else {
      BufferOnMachine(stack, s.fs, got, later);
      var m := Handle(stack, s.fs, got);
      if m.stack == [] {
        assert [] + [] + Signal() == Signal();
      } else {
        assert later == [] + s.up[n..] + Owed(s.client);
        assert m == Machine(Running, m.stack, m.fs);
        assert Busy(u, Next(u, s, ServerReceives(n)), m.stack, []);
      }
    }
  }

  /** A machine that comes to rest has handled its next buffer and comes to rest on what follows. */
  lemma BufferOnMachine(stack: seq<Task>, fs: Fs, got: seq<Byte>, later: seq<Byte>)
    requires stack != [] && |got| == Demand(stack[0])
    requires StackMachine.Run(Machine(Running, stack, fs), got + later).0.status == Running
    ensures var m := Handle(stack, fs, got);
            && m.status == Running
            && StackMachine.Run(m, later) == StackMachine.Run(Machine(Running, stack, fs), got + later)
            && (m.stack == [] ==> StackMachine.Run(m, later) == (m, later))
  {
    hide Handle;
    var input := got + later;
    assert input[..|got|] == got && input[|got|..] == later;
  }

  lemma StepKeepsInvariant(u: Setup, s: State, e: Event)
    requires Ready(u) && Invariant(u, s) && Enabled(u, s, e)
    ensures Invariant(u, Next(u, s, e))
  {
    match e
    case ServerSends(n) => ServerSendsKeeps(u, s, n);
    case ClientReceives(n) => ClientReceivesKeeps(u, s, n);
    case ClientStarts(t) => ClientStartsKeeps(u, s, t);
    case ClientGivesUp => SignalIsUnderstood(u, s);
    case ClientSends(n) => ClientSendsKeeps(u, s, n);
    case ServerReceives(n) => ServerReceivesKeeps(u, s, n);
  }

  /** A client that has read a whole box has read the signal. */
  lemma SignalIsUnderstood(u: Setup, s: State)
    requires Invariant(u, s)
    ensures !Enabled(u, s, ClientGivesUp)
  {
    if s.client.Listening? && |s.client.got| == BOX {
      var left := if s.server.Signalling? then s.server.left else [];
      assert Idle(u, s, left);
      assert s.client.got == Signal();
    }
  }

  // Main results.

  /**
    In every reachable state the disk between two rounds is exactly the trees sent so far, and no byte is left over.
   */
  lemma {:induction false} SafeOverAllRuns(u: Setup, s: State, es: seq<Event>, s': State)
    requires Ready(u) && Invariant(u, s) && Reaches(u, s, es, s')
    ensures Invariant(u, s')
    decreases es
  {
    if es != [] {
      StepKeepsInvariant(u, s, es[0]);
      SafeOverAllRuns(u, Next(u, s, es[0]), es[1..], s');
    }
  }

  lemma RoundBoundary(u: Setup, es: seq<Event>, s: State)
    requires Ready(u) && Reaches(u, Init(u), es, s)
    ensures s.server != ServerStopped && s.client != ClientStopped
    ensures s.server.Signalling? ==> s.fs == AllInstalled(u, s.sent) && s.up == [] && s.client.Listening?
    ensures s.server == Signalling(Signal()) ==> s.down == [] && s.client == Listening([])
  {
    InitHolds(u);
    SafeOverAllRuns(u, Init(u), es, s);
    if s.server == Signalling(Signal()) {
      assert |s.client.got| + |s.down| + BOX == BOX;
    }
  }

  /** No reachable state is stuck: some transfer can happen, or the client holds the signal and may start a dump. */
  lemma NeverStuck(u: Setup, es: seq<Event>, s: State)
    requires Ready(u) && Reaches(u, Init(u), es, s)
    ensures || Enabled(u, s, ServerSends(1)) || Enabled(u, s, ClientReceives(1))
            || Enabled(u, s, ClientSends(1)) || Enabled(u, s, ServerReceives(1))
            || s.client == Listening(Signal())
    ensures s.client == Listening(Signal()) ==> forall t :: Fresh(u, s, t) ==> Enabled(u, s, ClientStarts(t))
  {
    hide Handle, InstallDumps, Fresh, Reaches;
    InitHolds(u);
    SafeOverAllRuns(u, Init(u), es, s);
    assert s.server.Receiving? ==> s.server.got + [] + [] == s.server.got;
    var left := if s.server.Signalling? then s.server.left else [];
    if s.client.Listening? && Idle(u, s, left) && s.server.Receiving? && s.down == [] {
      assert s.client.got == Signal();
    }
  }

  // Every round ends: the number of steps is bounded by the number of bytes to be moved.

  /** A dump is on its way. */
  predicate UnderWay(s: State) {
    s.server.Receiving? && s.down == [] && Heard(s.client) == []
  }

  /** Each byte is moved twice; a dump that is on its way is also charged for the signal that will follow it. */
  function Work(s: State): nat {
    2 * |Owed(s.client)| + |s.up| + |s.down|
    + (if s.server.Signalling? then 2 * |s.server.left| else 0)
    + (if UnderWay(s) then 2 * BOX else 0)
  }

  function Cost(sent: seq<Tree>): nat
    requires forall t :: t in sent ==> WellFormed(t)
  {
    if sent == [] then 0 else Cost(sent[..|sent| - 1]) + 2 * |Encode(sent[|sent| - 1])| + 2 * BOX + 1
  }

  /** Every step but the start of a round uses up work. */
  lemma StepUsesWork(u: Setup, s: State, e: Event)
    requires Ready(u) && Invariant(u, s) && Enabled(u, s, e)
    ensures var s' := Next(u, s, e);
            Work(s') + 1 + Cost(s.sent) <= Work(s) + Cost(s'.sent)
  {
    hide Handle, StackMachine.Run, InstallDumps, Encode, MessageBox;
    StepKeepsInvariant(u, s, e);
    var left := if s.server.Signalling? then s.server.left else [];
    if Idle(u, s, left) {
      assert |s.client.got| + |s.down| + |left| == BOX;
    }
    match e
    case ClientStarts(t) =>
      var sent := s.sent + [t];
      assert sent[..|sent| - 1] == s.sent;
    case ClientGivesUp =>
      SignalIsUnderstood(u, s);
    case ServerReceives(n) =>
      ReceiptUsesWork(u, s, n);
    case _ =>
  }

  lemma ReceiptUsesWork(u: Setup, s: State, n: Positive)
    requires Enabled(u, s, ServerReceives(n)) && Invariant(u, s) && Invariant(u, Next(u, s, ServerReceives(n)))
    ensures Work(Next(u, s, ServerReceives(n))) + 1 <= Work(s)
  {
    hide Handle, StackMachine.Run, InstallDumps, Encode, MessageBox;
  }

  /**
    Whatever the schedule and the sizes of the partial transfers, a run in which the rounds of `s.sent` were begun has
    at most this many steps: every round that begins comes to its end.
   */
  lemma {:induction false} RunsAreBounded(u: Setup, s: State, es: seq<Event>, s': State)
    requires Ready(u) && Invariant(u, s) && Reaches(u, s, es, s')
    ensures Invariant(u, s') && |es| + Work(s') + Cost(s.sent) <= Work(s) + Cost(s'.sent)
    decreases es
  {
    if es != [] {
      StepKeepsInvariant(u, s, es[0]);
      StepUsesWork(u, s, es[0]);
      RunsAreBounded(u, Next(u, s, es[0]), es[1..], s');
    }
  }

  lemma RoundsEnd(u: Setup, es: seq<Event>, s: State)
    requires Ready(u) && Reaches(u, Init(u), es, s)
    ensures (forall t :: t in s.sent ==> WellFormed(t)) && |es| <= 2 * BOX + Cost(s.sent)
  {
    InitHolds(u);
    RunsAreBounded(u, Init(u), es, s);
  }
}
