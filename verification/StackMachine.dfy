/**
  `writeDir` as a machine that is handed one complete buffer at a time, with the recursion on an explicit stack. Between
  two buffers a server thread may wait, which is where partial transfers and other threads come in.
 */
module StackMachine {
  import opened Bytes
  import opened Wire
  import opened FileTree
  import opened Reception

  type Positive = n: nat | n > 0 witness 1

  /** The `receiveAll` a thread is in, or will return to. */
  datatype Task =
    | Magic(dir: Path, top: Option<Name>)
    | Header(dir: Path, top: Option<Name>)
    | Body(path: Path, left: Positive)
    | Flag(dir: Path)

  function Demand(t: Task): (n: nat)
    ensures n > 0
  {
    match t
    case Magic(_, _) => BOX
    case Header(_, _) => BOX
    case Body(_, left) => Min(left, SIZE)
    case Flag(_) => FLAG
  }

  /** Broken: the thread gives up its connection; Gone: `exit(1)`. */
  datatype Status = Running | Broken | Gone

  datatype Machine = Machine(status: Status, stack: seq<Task>, fs: Fs)

  /** What a thread does with a complete buffer for what is on top of its stack. */
  function Handle(stack: seq<Task>, fs: Fs, buffer: seq<Byte>): Machine
    requires stack != [] && |buffer| == Demand(stack[0])
  {
    var rest := stack[1..];
    match stack[0]
    case Magic(dir, top) =>
      if CString(buffer) == SUCCESS then Machine(Running, [Header(dir, top)] + rest, fs)
      else if rest == [] then Machine(Broken, [], fs)
      else Machine(Running, rest, fs)
    case Header(dir, top) =>
      var name := BoxName(buffer);
      if BoxKind(buffer) == FILE then
        if !CanOpen(fs, dir, name) then Machine(Broken, [], fs)
        else
          var fs1 := fs[dir + [name] := Blob([])];
          if BoxSize(buffer) == 0 then Machine(Running, rest, fs1)
          else Machine(Running, [Body(dir + [name], BoxSize(buffer))] + rest, fs1)
      else
        var made := MakeHome(fs, dir, top);
        var home := Home(dir, top);
        if made.None? then Machine(Gone, [], fs)
        else if !CanMkdir(made.value, home, name) then Machine(Gone, [], made.value)
        else Machine(Running, [Flag(home + [name])] + rest, made.value[home + [name] := Folder])
    case Body(p, left) =>
      var fs1 := Append(fs, p, buffer);
      if left == |buffer| then Machine(Running, rest, fs1)
      else Machine(Running, [Body(p, left - |buffer|)] + rest, fs1)
    case Flag(dir) =>
      if FromLittleEndian(buffer) == 1 then Machine(Running, [Magic(dir, None)] + stack, fs)
      else Machine(Running, rest, fs)
  }

  /** The machine on all the bytes it will ever get: where it ends, or waits, and what is left unread. */
  function Run(m: Machine, input: seq<Byte>): (r: (Machine, seq<Byte>))
    ensures |r.1| <= |input|
    decreases |input|
  {
    if m.status != Running || m.stack == [] || |input| < Demand(m.stack[0]) then (m, input)
    else
      var n := Demand(m.stack[0]);
      Run(Handle(m.stack, m.fs, input[..n]), input[n..])
  }

  // The machine does what the recursion does.

  /** The thread has given up its connection, or waits for more bytes than will ever come. */
  predicate Stuck(m: Machine, left: seq<Byte>) {
    m.status == Broken || (m.status == Running && m.stack != [] && |left| < Demand(m.stack[0]))
  }

  lemma {:induction false} BodyOnMachine(c: Conn, p: Path, left: Positive, rest: seq<Task>)
    requires !c.closed
    ensures var (code, c') := RecvBody(c, p, left);
            var end := Run(Machine(Running, [Body(p, left)] + rest, c.fs), c.input);
            && (code == Ok ==> !c'.closed && end == Run(Machine(Running, rest, c'.fs), c'.input))
            && (code != Ok ==> code == Failed && c'.closed && end.0.fs == c'.fs && Stuck(end.0, end.1))
    decreases left
  {
    var n := Min(left, SIZE);
    var (chunk, c1) := Take(c, n);
    assert ([Body(p, left)] + rest)[1..] == rest;
    if chunk.Some? {
      var c2 := c1.(fs := Append(c1.fs, p, chunk.value));
      if n < left {
        BodyOnMachine(c2, p, left - n, rest);
      } else {
        assert RecvBody(c2, p, 0) == (Ok, c2);
      }
    }
  }

  /**
    How the machine ends if the recursion ends with `code` and `c'`: it goes on with
    the rest of its stack after a success, and after a failure that its caller ignores;
    it is gone when the server is; and else it is stuck. The disk is the same.
   */
  ghost predicate SameEnd(code: Code, c': Conn, rest: seq<Task>, end: (Machine, seq<Byte>)) {
    match code
    case Ok => !c'.closed && end == Run(Machine(Running, rest, c'.fs), c'.input)
    case Exited => end == (Machine(Gone, [], c'.fs), c'.input)
    case Failed =>
      if c'.closed then end.0.fs == c'.fs && Stuck(end.0, end.1)
      else if rest != [] then end == Run(Machine(Running, rest, c'.fs), c'.input)
      else end == (Machine(Broken, [], c'.fs), c'.input)
  }

  lemma {:induction false} TreeOnMachine(c: Conn, dir: Path, top: Option<Name>, rest: seq<Task>)
    requires !c.closed
    ensures var (code, c') := RecvTree(c, dir, top);
            SameEnd(code, c', rest, Run(Machine(Running, [Magic(dir, top)] + rest, c.fs), c.input))
    decreases |c.input|, 1
  {
    hide RecvKids, RecvBody;
    var (magic, c1) := Take(c, BOX);
    assert ([Magic(dir, top)] + rest)[1..] == rest;
    if magic.Some? && CString(magic.value) == SUCCESS {
      HeaderOnMachine(c1, dir, top, rest);
      var (header, c2) := Take(c1, BOX);
      if header.Some? && BoxKind(header.value) != FILE {
        var made, home, name := MakeHome(c2.fs, dir, top), Home(dir, top), BoxName(header.value);
        if made.Some? && CanMkdir(made.value, home, name) {
          KidsOnMachine(c2.(fs := made.value[home + [name] := Folder]), home + [name], rest);
        }
      }
    }
  }

  /** The part of the reception after the first box, without the children. */
  lemma HeaderOnMachine(c: Conn, dir: Path, top: Option<Name>, rest: seq<Task>)
    requires !c.closed
    ensures var end := Run(Machine(Running, [Header(dir, top)] + rest, c.fs), c.input);
            var (header, c') := Take(c, BOX);
            if header.None? then end.0.fs == c'.fs && Stuck(end.0, end.1)
            else
              var name := BoxName(header.value);
              if BoxKind(header.value) == FILE then
                var (code, c'') := RecvFile(c', dir, name, BoxSize(header.value));
                (code == Ok || code == Failed) && SameEnd(code, c'', rest, end) && (code == Failed ==> c''.closed)
              else
                var made, home := MakeHome(c'.fs, dir, top), Home(dir, top);
                if made.None? then end == (Machine(Gone, [], c'.fs), c'.input)
                else if !CanMkdir(made.value, home, name) then end == (Machine(Gone, [], made.value), c'.input)
                else
                  var fs := made.value[home + [name] := Folder];
                  end == Run(Machine(Running, [Flag(home + [name])] + rest, fs), c'.input)
  {
    hide RecvBody;
    var (header, c') := Take(c, BOX);
    assert ([Header(dir, top)] + rest)[1..] == rest;
    if header.Some? && BoxKind(header.value) == FILE && CanOpen(c'.fs, dir, BoxName(header.value)) {
      var p, size := dir + [BoxName(header.value)], BoxSize(header.value);
      var c2 := c'.(fs := c'.fs[p := Blob([])]);
      if size > 0 {
        BodyOnMachine(c2, p, size, rest);
      } else {
        NoBody(c2, p);
      }
    }
  }

  lemma NoBody(c: Conn, p: Path)
    ensures RecvBody(c, p, 0) == (Ok, c)
  {
  }

  lemma {:induction false} KidsOnMachine(c: Conn, dir: Path, rest: seq<Task>)
    requires !c.closed
    ensures var (code, c') := RecvKids(c, dir);
            && (code == Failed ==> c'.closed)
            && SameEnd(code, c', rest, Run(Machine(Running, [Flag(dir)] + rest, c.fs), c.input))
    decreases |c.input|, 0
  {
    hide RecvTree;
    var stack := [Flag(dir)] + rest;
    var (flag, c1) := Take(c, FLAG);
    assert stack[1..] == rest;
    if flag.Some? && FromLittleEndian(flag.value) == 1 {
      TreeOnMachine(c1, dir, None, stack);
      var (code, c2) := RecvTree(c1, dir, None);
      if code != Exited && !c2.closed {
        KidsOnMachine(c2, dir, rest);
      }
    }
  }

  /** A whole dump on the machine: it comes to rest with the tree on disk, and leaves what follows unread. */
  lemma DumpOnMachine(t: Tree, rest: seq<Byte>, fs: Fs, cwd: Path, client: Name)
    requires WellFormed(t) && t.Dir? && HomeUsable(fs, cwd, client) && Vacant(fs, cwd + [client] + [t.name])
    ensures Run(Machine(Running, [Magic(cwd, Some(client))], fs), Encode(t) + rest)
         == (Machine(Running, [], InstallTop(fs, cwd, client, t)), rest)
  {
    RoundTripTop(t, rest, fs, cwd, client);
    TreeOnMachine(Conn(Encode(t) + rest, false, fs), cwd, Some(client), []);
    assert [Magic(cwd, Some(client))] + [] == [Magic(cwd, Some(client))];
  }
}
