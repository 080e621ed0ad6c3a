/** What the stack of a thread still waits for, if its client sends dumps, and how each buffer brings it forward. */
module AwaitedStream {
  import opened Bytes
  import opened Wire
  import opened FileTree
  import opened Reception
  import opened StackMachine

  /** What a task on the stack of an honest client's thread still waits for. */
  datatype Item =
    | WholeTree(t: Tree)
    | AfterMagic(t: Tree)
    | Content(bytes: seq<Byte>)
    | Kids(kids: seq<Tree>)

  predicate Fits(task: Task, item: Item) {
    match task
    case Magic(_, top) => item.WholeTree? && WellFormed(item.t) && top.None?
    case Header(_, top) => item.AfterMagic? && WellFormed(item.t) && top.None?
    case Body(_, left) => item.Content? && left == |item.bytes|
    case Flag(_) => item.Kids? && forall k :: k in item.kids ==> WellFormed(k)
  }

  predicate Expects(stack: seq<Task>, todo: seq<Item>) {
    |stack| == |todo| && forall i :: 0 <= i < |stack| ==> Fits(stack[i], todo[i])
  }

  predicate Sound(item: Item) {
    match item
    case WholeTree(t) => WellFormed(t)
    case AfterMagic(t) => WellFormed(t)
    case Content(_) => true
    case Kids(kids) => forall k :: k in kids ==> WellFormed(k)
  }

  function Due(item: Item): seq<Byte>
    requires Sound(item)
  {
    match item
    case WholeTree(t) => Encode(t)
    case AfterMagic(t) => HeaderOf(t) + Payload(t)
    case Content(bytes) => bytes
    case Kids(kids) => EncodeKids(kids)
  }

  function Awaited(todo: seq<Item>): seq<Byte>
    requires forall i :: 0 <= i < |todo| ==> Sound(todo[i])
  {
    if todo == [] then [] else Due(todo[0]) + Awaited(todo[1..])
  }

  /** The stream goes on with what the stack waits for. */
  ghost predicate Awaiting(stack: seq<Task>, todo: seq<Item>, stream: seq<Byte>, tail: seq<Byte>) {
    && Expects(stack, todo)
    && (forall i :: 0 <= i < |todo| ==> Sound(todo[i]))
    && stream == Awaited(todo) + tail
  }

  lemma AwaitingTop(stack: seq<Task>, todo: seq<Item>, stream: seq<Byte>, tail: seq<Byte>)
    requires Awaiting(stack, todo, stream, tail) && stack != []
    ensures |todo| == |stack| && Fits(stack[0], todo[0]) && Sound(todo[0])
    ensures Awaiting(stack[1..], todo[1..], Awaited(todo[1..]) + tail, tail)
    ensures stream == Due(todo[0]) + (Awaited(todo[1..]) + tail)
  {
    Assoc(Due(todo[0]), Awaited(todo[1..]), tail);
    assert Expects(stack[1..], todo[1..]);
  }

  lemma AwaitingMore(task: Task, item: Item, stack: seq<Task>, todo: seq<Item>, stream: seq<Byte>, tail: seq<Byte>)
    requires Awaiting(stack, todo, stream, tail) && Fits(task, item) && Sound(item)
    ensures Awaiting([task] + stack, [item] + todo, Due(item) + stream, tail)
  {
    hide Fits, Due, Sound;
    var all := [item] + todo;
    assert all[0] == item && all[1..] == todo;
    assert forall i :: 0 < i < |all| ==> all[i] == todo[i - 1] && ([task] + stack)[i] == stack[i - 1];
    Assoc(Due(item), Awaited(todo), tail);
  }

  /** A header that an honest client's thread reads names a single path component. */
  lemma HeaderIsHonest(stack: seq<Task>, todo: seq<Item>, buffer: seq<Byte>, later: seq<Byte>, tail: seq<Byte>)
    requires Awaiting(stack, todo, buffer + later, tail) && stack != [] && stack[0].Header? && |buffer| == BOX
    ensures buffer == HeaderOf(todo[0].t) && ValidName(BoxName(buffer)) && stack[0].top.None?
    ensures BoxKind(buffer) == KindOf(todo[0].t) && BoxSize(buffer) == SizeOf(todo[0].t)
    ensures later == Payload(todo[0].t) + (Awaited(todo[1..]) + tail)
  {
    AwaitingTop(stack, todo, buffer + later, tail);
    var t, rest := todo[0].t, Awaited(todo[1..]) + tail;
    Assoc(HeaderOf(t), Payload(t), rest);
    SameSplit(buffer, HeaderOf(t), later, Payload(t) + rest);
    HeaderRoundTrip(KindOf(t), SizeOf(t), t.name);
  }

  /** After the next buffer the stack waits for what then follows. */
  lemma AwaitingStep(stack: seq<Task>, todo: seq<Item>, fs: Fs, buffer: seq<Byte>, later: seq<Byte>, tail: seq<Byte>)
    returns (todo': seq<Item>)
    requires Awaiting(stack, todo, buffer + later, tail) && stack != [] && |buffer| == Demand(stack[0])
    requires Handle(stack, fs, buffer).status == Running
    ensures Awaiting(Handle(stack, fs, buffer).stack, todo', later, tail)
  {
    hide Awaiting, Expects, Awaited, MakeHome, CanMkdir, CanOpen, Append;
    AwaitingTop(stack, todo, buffer + later, tail);
    var rest := Awaited(todo[1..]) + tail;
    match stack[0]
    case Magic(dir, top) => todo' := MagicStep(dir, top, stack, todo, buffer, later, rest, tail);
    case Header(dir, top) => todo' := HeaderStep(fs, stack, todo, buffer, later, rest, tail);
    case Body(p, left) => todo' := BodyStep(p, left, stack, todo, buffer, later, rest, tail);
    case Flag(dir) => todo' := FlagStep(stack, todo, buffer, later, rest, tail);
  }

  lemma MagicStep(dir: Path, top: Option<Name>, stack: seq<Task>, todo: seq<Item>, buffer: seq<Byte>, later: seq<Byte>,
                  rest: seq<Byte>, tail: seq<Byte>)
    returns (todo': seq<Item>)
    requires stack != [] && stack[0] == Magic(dir, top) && todo != [] && Fits(stack[0], todo[0])
    requires Awaiting(stack[1..], todo[1..], rest, tail)
    requires |buffer| == BOX && buffer + later == Due(todo[0]) + rest
    ensures buffer == MessageBox(SUCCESS) && Awaiting([Header(dir, top)] + stack[1..], todo', later, tail)
  {
    hide Awaiting;
    var t := todo[0].t;
    EncodeParts(t, []);
    Assoc(MessageBox(SUCCESS), HeaderOf(t), Payload(t));
    assert Encode(t) == MessageBox(SUCCESS) + (HeaderOf(t) + Payload(t));
    Assoc(MessageBox(SUCCESS), HeaderOf(t) + Payload(t), rest);
    SameSplit(buffer, MessageBox(SUCCESS), later, (HeaderOf(t) + Payload(t)) + rest);
    todo' := [AfterMagic(t)] + todo[1..];
    AwaitingMore(Header(dir, top), AfterMagic(t), stack[1..], todo[1..], rest, tail);
  }

  lemma HeaderStep(fs: Fs, stack: seq<Task>, todo: seq<Item>, buffer: seq<Byte>, later: seq<Byte>,
                   rest: seq<Byte>, tail: seq<Byte>)
    returns (todo': seq<Item>)
    requires Awaiting(stack, todo, buffer + later, tail) && stack != [] && stack[0].Header? && |buffer| == BOX
    requires Handle(stack, fs, buffer).status == Running
    requires Awaiting(stack[1..], todo[1..], rest, tail) && rest == Awaited(todo[1..]) + tail
    ensures Awaiting(Handle(stack, fs, buffer).stack, todo', later, tail)
  {
    hide Awaiting, MakeHome, CanMkdir, CanOpen;
    AwaitingTop(stack, todo, buffer + later, tail);
    HeaderIsHonest(stack, todo, buffer, later, tail);
    var t, dir, top := todo[0].t, stack[0].dir, stack[0].top;
    if t.Dir? {
      todo' := [Kids(t.kids)] + todo[1..];
      AwaitingMore(Flag(Home(dir, top) + [BoxName(buffer)]), Kids(t.kids), stack[1..], todo[1..], rest, tail);
    } else if t.content == [] {
      todo' := todo[1..];
      assert [] + rest == rest;
    } else {
      todo' := [Content(t.content)] + todo[1..];
      AwaitingMore(Body(dir + [BoxName(buffer)], |t.content|), Content(t.content), stack[1..], todo[1..], rest, tail);
    }
  }

  lemma BodyStep(p: Path, left: Positive, stack: seq<Task>, todo: seq<Item>, buffer: seq<Byte>, later: seq<Byte>,
                 rest: seq<Byte>, tail: seq<Byte>)
    returns (todo': seq<Item>)
    requires stack != [] && stack[0] == Body(p, left) && todo != [] && Fits(stack[0], todo[0])
    requires Awaiting(stack[1..], todo[1..], rest, tail)
    requires |buffer| == Min(left, SIZE) && buffer + later == Due(todo[0]) + rest
    ensures Awaiting(if left == |buffer| then stack[1..]
            else [Body(p, left - |buffer|)] + stack[1..], todo', later, tail)
  {
    hide Awaiting;
    var n, bytes := |buffer|, todo[0].bytes;
    assert bytes == bytes[..n] + bytes[n..];
    Assoc(bytes[..n], bytes[n..], rest);
    SameSplit(buffer, bytes[..n], later, bytes[n..] + rest);
    if n == |bytes| {
      todo' := todo[1..];
      assert bytes[n..] + rest == rest;
    } else {
      todo' := [Content(bytes[n..])] + todo[1..];
      AwaitingMore(Body(p, left - n), Content(bytes[n..]), stack[1..], todo[1..], rest, tail);
    }
  }

  lemma FlagStep(stack: seq<Task>, todo: seq<Item>, buffer: seq<Byte>, later: seq<Byte>, rest: seq<Byte>,
                 tail: seq<Byte>)
    returns (todo': seq<Item>)
    requires stack != [] && stack[0].Flag? && todo != [] && todo[0].Kids? && Fits(stack[0], todo[0])
    requires Awaiting(stack[1..], todo[1..], rest, tail)
    requires |buffer| == FLAG && buffer + later == EncodeKids(todo[0].kids) + rest
    ensures Awaiting(if FromLittleEndian(buffer) == 1 then [Magic(stack[0].dir, None)] + stack
            else stack[1..], todo', later, tail)
  {
    hide Awaiting;
    var kids, dir := todo[0].kids, stack[0].dir;
    EncodeKidsParts(kids, rest);
    SameSplit(buffer, NextFlag(kids), later, AfterFlag(kids, rest));
    if kids == [] {
      todo' := todo[1..];
    } else {
      var more := [Kids(kids[1..])] + todo[1..];
      AwaitingMore(Flag(dir), Kids(kids[1..]), stack[1..], todo[1..], rest, tail);
      assert [Flag(dir)] + stack[1..] == stack;
      todo' := [WholeTree(kids[0])] + more;
      AwaitingMore(Magic(dir, None), WholeTree(kids[0]), stack, more, EncodeKids(kids[1..]) + rest, tail);
    }
  }
}
