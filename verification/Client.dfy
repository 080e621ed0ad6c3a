/** The sending side of the transfer: the client's directory walk and its socket. */
module Client {
  import opened Bytes
  import opened Wire
  import opened FileTree

  /**
    The client's disk. `found` is what FindFirstFile and FindNextFile deliver, "." and ".." included;
    `normal` is the attribute FILE_ATTRIBUTE_NORMAL.
   */
  datatype Node =
    | FileNode(name: Name, content: seq<Byte>, normal: bool)
    | DirNode(name: Name, found: seq<Node>)

  predicate Hidden(n: Node) {
    n.name == DOT || n.name == DOTDOT
  }

  function Snapshot(n: Node): (t: Tree)
    ensures t.name == n.name
    decreases n, 1
  {
    match n
    case FileNode(name, content, _) => File(name, content)
    case DirNode(name, found) => Dir(name, SnapshotAll(found))
  }

  function SnapshotAll(found: seq<Node>): seq<Tree>
    decreases found, 0
  {
    if found == [] then []
    else if Hidden(found[0]) then SnapshotAll(found[1..])
    else [Snapshot(found[0])] + SnapshotAll(found[1..])
  }

  /** `kids` are the snapshots of the entries at `index`, in order: of all but those called "." or "..". */
  ghost predicate Shows(index: seq<nat>, found: seq<Node>, kids: seq<Tree>) {
    && |index| == |kids|
    && (forall i, j :: 0 <= i < j < |index| ==> index[i] < index[j])
    && (forall i :: 0 <= i < |index| ==> index[i] < |found| && kids[i] == Snapshot(found[index[i]]))
    && (forall j: nat :: j < |found| ==> (j in index <==> found[j].name != [46] && found[j].name != [46, 46]))
  }

  /** The snapshot of a directory shows its entries; that of a file is its name and its content. */
  lemma SnapshotShowsEntries(n: Node) returns (index: seq<nat>)
    ensures Snapshot(n).name == n.name
    ensures n.FileNode? ==> Snapshot(n) == File(n.name, n.content)
    ensures n.DirNode? ==> Snapshot(n).Dir? && Shows(index, n.found, Snapshot(n).kids)
  {
    index := [];
    if n.DirNode? {
      index := EntriesShown(n.found);
    }
  }

  lemma {:induction false} EntriesShown(found: seq<Node>) returns (index: seq<nat>)
    ensures Shows(index, found, SnapshotAll(found))
  {
    hide Shows;
    index := [];
    if found == [] {
      NothingShown();
    } else {
      var later := EntriesShown(found[1..]);
      var moved := Moved(later);
      assert found == [found[0]] + found[1..];
      if found[0].name == [46] || found[0].name == [46, 46] {
        DotInFront(later, found[0], found[1..], SnapshotAll(found[1..]));
        index := moved;
      } else {
        EntryInFront(later, found[0], found[1..], SnapshotAll(found[1..]));
        index := [0] + moved;
      }
    }
  }

  lemma NothingShown()
    ensures Shows([], [], [])
  {
  }

  function Moved(index: seq<nat>): (moved: seq<nat>)
    ensures |moved| == |index| && forall i :: 0 <= i < |index| ==> moved[i] == index[i] + 1
  {
    seq(|index|, i requires 0 <= i < |index| => index[i] + 1)
  }

  /** One more entry in front, which is not shown. */
  lemma DotInFront(index: seq<nat>, first: Node, later: seq<Node>, kids: seq<Tree>)
    requires Shows(index, later, kids) && (first.name == [46] || first.name == [46, 46])
    ensures Shows(Moved(index), [first] + later, kids)
  {
    hide Snapshot;
    var moved, found := Moved(index), [first] + later;
    forall i | 0 <= i < |kids| ensures moved[i] < |found| && kids[i] == Snapshot(found[moved[i]]) {
      EntryAt(index, first, later, kids, i + 1);
    }
    forall j: nat | j < |found|
      ensures j in moved <==> found[j].name != [46] && found[j].name != [46, 46] {
      MovedMembers(index);
      if j > 0 {
        assert found[j] == later[j - 1];
      }
    }
  }

  /** One more entry in front, which is shown. */
  lemma EntryInFront(index: seq<nat>, first: Node, later: seq<Node>, kids: seq<Tree>)
    requires Shows(index, later, kids) && first.name != [46] && first.name != [46, 46]
    ensures Shows([0] + Moved(index), [first] + later, [Snapshot(first)] + kids)
  {
    hide Snapshot;
    var moved, found, shown := [0] + Moved(index), [first] + later, [Snapshot(first)] + kids;
    MovedInOrder(index);
    forall i | 0 <= i < |shown| ensures moved[i] < |found| && shown[i] == Snapshot(found[moved[i]]) {
      EntryAt(index, first, later, kids, i);
    }
    forall j: nat | j < |found|
      ensures j in moved <==> found[j].name != [46] && found[j].name != [46, 46] {
      EntryIsShown(index, first, later, kids, j);
    }
  }

  lemma MovedInOrder(index: seq<nat>)
    requires forall i, j :: 0 <= i < j < |index| ==> index[i] < index[j]
    ensures var moved := [0] + Moved(index);
            forall i, j :: 0 <= i < j < |moved| ==> moved[i] < moved[j]
  {
    forall i, j | 0 <= i < j < |index| + 1 ensures ([0] + Moved(index))[i] < ([0] + Moved(index))[j] {
      if i > 0 {
        assert index[i - 1] < index[j - 1];
      }
    }
  }

  lemma EntryAt(index: seq<nat>, first: Node, later: seq<Node>, kids: seq<Tree>, i: nat)
    requires Shows(index, later, kids) && i <= |kids|
    ensures var moved, found := [0] + Moved(index), [first] + later;
            moved[i] < |found| && ([Snapshot(first)] + kids)[i] == Snapshot(found[moved[i]])
  {
    hide Snapshot;
    if i > 0 {
      var k := index[i - 1];
      assert kids[i - 1] == Snapshot(later[k]) && ([first] + later)[k + 1] == later[k];
    }
  }

  lemma EntryIsShown(index: seq<nat>, first: Node, later: seq<Node>, kids: seq<Tree>, j: nat)
    requires Shows(index, later, kids) && j <= |later| && first.name != [46] && first.name != [46, 46]
    ensures var found := [first] + later;
            j in [0] + Moved(index) <==> found[j].name != [46] && found[j].name != [46, 46]
  {
    MovedMembers(index);
    if j > 0 {
      assert ([first] + later)[j] == later[j - 1];
    }
  }

  lemma MovedMembers(index: seq<nat>)
    ensures forall j: nat :: j in Moved(index) <==> j > 0 && j - 1 in index
  {
    forall j: nat ensures j in Moved(index) <==> j > 0 && j - 1 in index {
      if j > 0 && j - 1 in index {
        var i :| 0 <= i < |index| && index[i] == j - 1;
        assert Moved(index)[i] == j;
      }
    }
  }

  /** No file that the walk visits carries FILE_ATTRIBUTE_NORMAL, and every directory lists something. */
  predicate Walkable(n: Node)
    decreases n, 1
  {
    match n
    case FileNode(_, _, normal) => !normal
    case DirNode(_, found) => found != [] && AllWalkable(found)
  }

  predicate AllWalkable(found: seq<Node>)
    decreases found, 0
  {
    found != [] ==> (Hidden(found[0]) || Walkable(found[0])) && AllWalkable(found[1..])
  }

  predicate Sendable(n: Node) {
    WellFormed(Snapshot(n))
  }

  predicate AllSendable(found: seq<Node>) {
    forall t :: t in SnapshotAll(found) ==> WellFormed(t)
  }

  lemma SendableParts(found: seq<Node>)
    requires found != [] && AllSendable(found)
    ensures AllSendable(found[1..])
    ensures Hidden(found[0]) || Sendable(found[0])
  {
    if !Hidden(found[0]) {
      assert SnapshotAll(found)[0] == Snapshot(found[0]);
      assert forall t :: t in SnapshotAll(found[1..]) ==> t in SnapshotAll(found);
    }
  }

  /**
    What the walk writes when nothing stops it but itself: a file with FILE_ATTRIBUTE_NORMAL is announced as a
    directory, which the walk then fails to enter; a directory in which nothing is found also ends it. `quiet` marks the
    bytes of file contents, whose sending nobody asks about.
   */
  datatype Performance = Script(bytes: seq<Byte>, quiet: seq<bool>, complete: bool)

  type Script = s: Performance | |s.quiet| == |s.bytes| witness Performance.Script([], [], true)

  function Loud(bytes: seq<Byte>, complete: bool): Script {
    Performance.Script(bytes, seq(|bytes|, _ => false), complete)
  }

  function Quiet(bytes: seq<Byte>): Script {
    Performance.Script(bytes, seq(|bytes|, _ => true), true)
  }

  function Then(s: Script, next: Script): Script {
    if s.complete then Performance.Script(s.bytes + next.bytes, s.quiet + next.quiet, next.complete) else s
  }

  function Stream(n: Node): (s: Script)
    requires Sendable(n)
    ensures |s.bytes| >= 2 * BOX
    decreases n, 1
  {
    match n
    case FileNode(name, content, normal) =>
      if normal then Loud(MessageBox(SUCCESS) + HeaderBox(DIR, 0, name), false)
      else Then(Loud(MessageBox(SUCCESS) + HeaderBox(FILE, |content|, name), true), Quiet(content))
    case DirNode(name, found) =>
      Then(Loud(MessageBox(SUCCESS) + HeaderBox(DIR, 0, name), found != []), StreamAll(found))
  }

  function StreamAll(found: seq<Node>): (s: Script)
    requires AllSendable(found)
    decreases found, 0
  {
    if found == [] then Loud(FlagBytes(0), true)
    else
      SendableParts(found);
      if Hidden(found[0]) then StreamAll(found[1..])
      else Then(EntryStream(found[0]), StreamAll(found[1..]))
  }

  /** A flag and the child it announces. */
  function EntryStream(n: Node): Script
    requires Sendable(n)
    decreases n, 2
  {
    Then(Loud(FlagBytes(1), true), Stream(n))
  }

  /** The walk gets through exactly when no file carries the attribute; then it writes the tree it saw. */
  lemma {:induction false} StreamIsEncode(n: Node)
    requires Sendable(n)
    ensures Stream(n).complete <==> Walkable(n)
    ensures Walkable(n) ==> Stream(n).bytes == Encode(Snapshot(n))
    decreases n, 1
  {
    if n.DirNode? {
      StreamAllIsEncodeKids(n.found);
    }
  }

  lemma {:induction false} StreamAllIsEncodeKids(found: seq<Node>)
    requires AllSendable(found)
    ensures StreamAll(found).complete <==> AllWalkable(found)
    ensures AllWalkable(found) ==> StreamAll(found).bytes == EncodeKids(SnapshotAll(found))
    decreases found, 0
  {
    if found != [] {
      SendableParts(found);
      StreamAllIsEncodeKids(found[1..]);
      if !Hidden(found[0]) {
        StreamIsEncode(found[0]);
        var kids := SnapshotAll(found);
        assert kids[0] == Snapshot(found[0]) && kids[1..] == SnapshotAll(found[1..]);
      }
    }
  }

  // The socket.

  /** SOCKET_ERROR as the unsigned 32-bit counters of the client hold it: no test for a negative result can fire. */
  const SOCKET_ERROR: nat := 0xFFFF_FFFF

  /**
    The client's end of the connection. `sent` was accepted by `send`, and `room` more bytes
    will be before the connection breaks; the first `send` after that reports 0 if `zero`, else
    SOCKET_ERROR. `input` will still arrive; `recv` then reports 0 if `polite`, else
    SOCKET_ERROR. A socket that the client has closed reports SOCKET_ERROR for everything.
   */
  datatype Link = Link(sent: seq<Byte>, room: nat, zero: bool, input: seq<Byte>, polite: bool)

  function Closed(o: Link): Link {
    o.(room := 0, zero := false, input := [], polite := false)
  }

  /**
    `bytes` are offered: what does not fit is lost, and the
    socket is closed only if a transfer of 0 bytes is reported.
   */
  function Emit(o: Link, bytes: seq<Byte>): Link {
    if |bytes| <= o.room then o.(sent := o.sent + bytes, room := o.room - |bytes|)
    else
      var o1 := o.(sent := o.sent + bytes[..o.room], room := 0);
      if o.zero then Closed(o1) else o1
  }

  lemma EmitTwice(o: Link, a: seq<Byte>, b: seq<Byte>)
    ensures Emit(Emit(o, a), b) == Emit(o, a + b)
  {
    if |a + b| <= o.room {
      assert o.sent + a + b == o.sent + (a + b);
    } else if |a| <= o.room {
      assert o.sent + a + b[..o.room - |a|] == o.sent + (a + b)[..o.room];
    } else {
      assert (a + b)[..o.room] == a[..o.room];
      assert o.sent + a[..o.room] + b[..0] == o.sent + a[..o.room];
    }
  }

  lemma EmitNothing(o: Link)
    ensures Emit(o, []) == o
  {
  }

  /** Of two offers the second only counts if the first had room: nothing goes out after a break. */
  lemma NothingAfterBreak(o: Link, bytes: seq<Byte>, more: seq<Byte>)
    requires o.room < |bytes|
    ensures Emit(o, bytes + more) == Emit(o, bytes)
    ensures o.zero ==> Closed(Emit(o, bytes)) == Emit(o, bytes)
  {
    assert (bytes + more)[..o.room] == bytes[..o.room];
  }

  class Socket {
    var sent: seq<Byte>
    var room: nat
    var zero: bool
    var input: seq<Byte>
    var polite: bool

    constructor (o: Link)
      ensures View() == o
    {
      sent, room, zero, input, polite := o.sent, o.room, o.zero, o.input, o.polite;
    }

    ghost function View(): Link
      reads this
    {
      Link(sent, room, zero, input, polite)
    }

    /** `send`: any positive number of the bytes offered, or the report of a connection that is gone. */
    method Send(data: seq<Byte>) returns (count: nat)
      requires data != []
      modifies `sent, `room
      ensures old(room) > 0 ==> 0 < count <= |data| && count <= old(room)
      ensures old(room) > 0 ==> sent == old(sent) + data[..count] && room == old(room) - count
      ensures old(room) == 0 ==> count == (if zero then 0 else SOCKET_ERROR) && sent == old(sent) && room == 0
    {
      if room == 0 {
        return if zero then 0 else SOCKET_ERROR;
      }
      count :| 1 <= count <= |data| && count <= room;
      sent, room := sent + data[..count], room - count;
    }

    /** `recv`: any positive number of the bytes asked for, or the report of a connection that is gone. */
    method Receive(n: nat) returns (count: nat, data: seq<Byte>)
      requires n > 0
      modifies `input
      ensures old(input) != [] ==> 0 < count <= n && count <= |old(input)|
      ensures old(input) != [] ==> data == old(input)[..count] && input == old(input)[count..]
      ensures old(input) == [] ==> count == (if polite then 0 else SOCKET_ERROR) && data == [] && input == []
    {
      data := [];
      if input == [] {
        return if polite then 0 else SOCKET_ERROR, [];
      }
      count :| 1 <= count <= n && count <= |input|;
      data, input := input[..count], input[count..];
    }

    method Close()
      modifies this
      ensures View() == Closed(old(View()))
    {
      room, zero, input, polite := 0, false, [], false;
    }
  }

  /** The client's counters have 32 bits. */
  function Sum32(a: nat, b: nat): nat {
    (a + b) % 0x1_0000_0000
  }

  /** SOCKET_ERROR counts down, and from 0 up to the largest number there is. */
  lemma Counting(a: nat, b: nat)
    ensures a + b <= SOCKET_ERROR ==> Sum32(a, b) == a + b
    ensures b == SOCKET_ERROR && 0 < a <= SOCKET_ERROR ==> Sum32(a, b) == a - 1
  {
  }

  /**
    However `send` splits the buffer, all of it goes out, or as much as the connection
    takes. A break is only reported if it shows as a transfer of 0 bytes: SOCKET_ERROR
    counts `total` down to 0 and then up past `n`, which passes for success.
   */
  method SendAll(src: array<Byte>, n: nat, s: Socket) returns (code: nat)
    requires n <= src.Length && n < SOCKET_ERROR
    modifies s
    ensures s.View() == Emit(old(s.View()), src[..n])
    ensures code == if old(s.room) < n && old(s.zero) then 1 else 0
  {
    hide Emit, Closed, Sum32;
    var total: nat := 0;
    ghost var o, all := s.View(), src[..n];
    ghost var reach: nat := 0;
    assert all[..0] == [];
    while total < n
      invariant all == src[..n] && reach <= n && reach <= o.room && s.View() == Part(o, all[..reach])
      invariant total == reach || (reach == o.room < n && !o.zero && (total < reach || total == SOCKET_ERROR))
      decreases n - reach, if total <= n then total + 1 else 0
    {
      var count := s.Send(src[total..n]);
      if count == 0 {
        BreakAt(o, all);
        s.Close();
        return 1;
      }
      if reach < o.room {
        PartGrows(o, all, total, count);
        reach := reach + count;
      }
      Counting(total, count);
      total := Sum32(total, count);
    }
    if reach < n {
      BreakAt(o, all);
    } else {
      assert all[..reach] == all;
      Fits(o, all);
    }
    return 0;
  }

  /** `done` has gone out. */
  function Part(o: Link, done: seq<Byte>): Link
    requires |done| <= o.room
  {
    o.(sent := o.sent + done, room := o.room - |done|)
  }

  lemma PartGrows(o: Link, all: seq<Byte>, total: nat, count: nat)
    requires total + count <= |all| && total + count <= o.room
    ensures Part(o, all[..total]).(sent := Part(o, all[..total]).sent + all[total..][..count],
                                   room := Part(o, all[..total]).room - count) == Part(o, all[..total + count])
  {
    assert all[..total + count] == all[..total] + all[total..][..count];
    assert o.sent + all[..total] + all[total..][..count] == o.sent + (all[..total] + all[total..][..count]);
  }

  lemma Fits(o: Link, bytes: seq<Byte>)
    requires |bytes| <= o.room
    ensures Emit(o, bytes) == Part(o, bytes)
  {
  }

  lemma BreakAt(o: Link, bytes: seq<Byte>)
    requires o.room < |bytes|
    ensures Emit(o, bytes) == if o.zero then Closed(Part(o, bytes[..o.room])) else Part(o, bytes[..o.room])
  {
  }

  /** `SendAll` for a record that is built on the spot. */
  method SendRecord(record: seq<Byte>, s: Socket) returns (code: nat)
    requires |record| < SOCKET_ERROR
    modifies s
    ensures s.View() == Emit(old(s.View()), record)
    ensures code == if old(s.room) < |record| && old(s.zero) then 1 else 0
  {
    var msg := new Byte[|record|](i requires 0 <= i < |record| => record[i]);
    assert msg[..|record|] == record;
    code := SendAll(msg, |record|, s);
  }

  /** The next chunk of a file, after which the connection has broken or has taken more of the file. */
  lemma NextChunk(o: Link, content: seq<Byte>, position: nat, n: nat)
    requires position + n <= |content|
    ensures var (before, chunk) := (Emit(o, content[..position]), content[position..position + n]);
            && Emit(before, chunk) == Emit(o, content[..position + n])
            && (before.room < n ==> Emit(before, chunk) == Emit(o, content))
  {
    hide Emit;
    var before, chunk, later := Emit(o, content[..position]), content[position..position + n], content[position + n..];
    EmitTwice(o, content[..position], chunk);
    assert content[..position] + chunk == content[..position + n];
    if before.room < n {
      NothingAfterBreak(before, chunk, later);
      EmitTwice(o, content[..position], chunk + later);
      assert content[..position] + (chunk + later) == content;
    }
  }

  /** `sendFile` returns nothing: whether the content went out is not reported. */
  method SendFile(content: seq<Byte>, s: Socket)
    modifies s
    ensures s.View() == Emit(old(s.View()), content)
  {
    hide Emit;
    var buffer := new Byte[SIZE](_ => 0);
    var position := 0;
    ghost var o := s.View();
    EmitNothing(o);
    assert content[..0] == [];
    while position < |content|
      invariant position <= |content|
      invariant s.View() == Emit(o, content[..position])
    {
      var n := Min(|content| - position, SIZE);
      forall i | 0 <= i < n {
        buffer[i] := content[position + i];
      }
      assert buffer[..n] == content[position..position + n];
      NextChunk(o, content, position, n);
      var failed := SendAll(buffer, n, s);
      if failed == 1 {
        return;
      }
      position := position + n;
    }
    assert content[..position] == content;
  }

  /** `strrchr(path, '\\') + 1` */
  function LastComponent(path: seq<Byte>): (name: seq<Byte>)
    decreases |path|
  {
    if path == [] || path[|path| - 1] == BACKSLASH then []
    else LastComponent(path[..|path| - 1]) + [path[|path| - 1]]
  }

  lemma {:induction false} LastComponentOfJoin(dir: seq<Byte>, name: seq<Byte>)
    requires 92 !in name
    ensures LastComponent(dir + [92] + name) == name
    decreases |name|
  {
    var path := dir + [BACKSLASH] + name;
    if name != [] {
      var front := name[..|name| - 1];
      assert path[|path| - 1] == name[|name| - 1] && name[|name| - 1] in name;
      assert path[..|path| - 1] == dir + [BACKSLASH] + front;
      LastComponentOfJoin(dir, front);
      assert name == front + [name[|name| - 1]];
    } else {
      assert path[|path| - 1] == BACKSLASH;
    }
  }

  ghost predicate PathOf(path: seq<Byte>, n: Node) {
    exists dir :: path == dir + [BACKSLASH] + n.name
  }

  lemma PathOfNames(path: seq<Byte>, n: Node)
    requires PathOf(path, n) && Sendable(n)
    ensures LastComponent(path) == n.name
  {
    var dir :| path == dir + [BACKSLASH] + n.name;
    LastComponentOfJoin(dir, n.name);
  }

  /** The outcome of a walk: what a complete script emits, or the part before the walk gave up and closed the socket. */
  function Performed(o: Link, s: Script): Link {
    if s.complete then Emit(o, s.bytes) else Closed(Emit(o, s.bytes))
  }

  /**
    When a walk reports success: it does not give up, and no break is announced by a
    transfer of 0 bytes in the middle of a box or a flag. Any other break goes unnoticed.
   */
  predicate Reported(o: Link, s: Script) {
    s.complete && (o.zero && o.room < |s.bytes| ==> s.quiet[o.room])
  }

  lemma ReportedThen(o: Link, s: Script, next: Script)
    requires s.complete
    ensures Reported(o, Then(s, next)) <==> Reported(o, s) && Reported(Emit(o, s.bytes), next)
    ensures Performed(o, Then(s, next)) == Performed(Emit(o, s.bytes), next)
  {
    EmitTwice(o, s.bytes, next.bytes);
  }

  /** A walk that has failed stops, and what it would have sent then would not have gone out. */
  lemma FailedThen(o: Link, s: Script, next: Script)
    requires !Reported(o, s)
    ensures !Reported(o, Then(s, next)) && Performed(o, Then(s, next)) == Performed(o, s)
  {
    if s.complete {
      NothingAfterBreak(o, s.bytes, next.bytes);
      NothingAfterBreak(o, s.bytes + next.bytes, []);
      assert s.bytes + next.bytes + [] == s.bytes + next.bytes;
    }
  }

  lemma LoudIsReported(o: Link, bytes: seq<Byte>)
    ensures Reported(o, Loud(bytes, true)) <==> !(o.room < |bytes| && o.zero)
    ensures Performed(o, Loud(bytes, true)) == Emit(o, bytes)
  {
  }

  class Walker {
    /** The current directory of the process. */
    var cwd: seq<Byte>

    constructor (cwd: seq<Byte>)
      ensures this.cwd == cwd
    {
      this.cwd := cwd;
    }

    /**
      The walk writes a prefix of its script, all of it if the connection holds, and reports success exactly when
      `Reported` says so.
     */
    method SendDir(path: seq<Byte>, n: Node, s: Socket) returns (code: nat)
      requires Sendable(n) && PathOf(path, n)
      modifies this, s
      ensures s.View() == Performed(old(s.View()), Stream(n))
      ensures code <= 1 && (code == 0 <==> Reported(old(s.View()), Stream(n)))
      ensures code == 0 ==> cwd == old(cwd)
      decreases n, 1
    {
      hide Emit, Reported, Performed, Loud, Quiet, Then, MessageBox, HeaderBox;
      PathOfNames(path, n);
      var name := LastComponent(path);
      var magic := MessageBox(SUCCESS);
      var header := HeaderBox(if n.FileNode? && !n.normal then FILE else DIR,
                              if n.FileNode? && !n.normal then |n.content| else 0, name);
      ghost var o := s.View();
      OpeningOfStream(o, n, magic, header);
      var failed := SendRecord(magic, s);
      if failed == 1 {
        return 1;
      }
      failed := SendRecord(header, s);
      if failed == 1 {
        return 1;
      }
      if n.FileNode? && !n.normal {
        SendFile(n.content, s);
        return 0;
      }
      if n.FileNode? {
        // SetCurrentDirectory fails for a file.
        s.Close();
        return 1;
      }
      var begin := cwd;
      cwd := path;
      if n.found == [] {
        // FindFirstFile fails.
        s.Close();
        return 1;
      }
      code := SendKids(path, n.found, s);
      if code == 0 {
        cwd := begin;
      }
    }

    /** The loop body for one child that is not hidden. */
    method SendEntry(path: seq<Byte>, n: Node, s: Socket) returns (code: nat)
      requires Sendable(n)
      modifies this, s
      ensures s.View() == Performed(old(s.View()), EntryStream(n))
      ensures code <= 1 && (code == 0 <==> Reported(old(s.View()), EntryStream(n)))
      ensures code == 0 ==> cwd == old(cwd)
      decreases n, 2
    {
      hide Emit, Reported, Performed, Loud, Then;
      ghost var o, flag := s.View(), Loud(FlagBytes(1), true);
      LoudIsReported(o, FlagBytes(1));
      LoudParts(FlagBytes(1), true);
      code := SendRecord(FlagBytes(1), s);
      if code == 1 {
        FailedThen(o, flag, Stream(n));
        return;
      }
      ReportedThen(o, flag, Stream(n));
      code := SendDir(path + [BACKSLASH] + n.name, n, s);
    }

    /** The loop of `sendDir` over what it finds, and the closing flag. */
    method SendKids(path: seq<Byte>, found: seq<Node>, s: Socket) returns (code: nat)
      requires AllSendable(found)
      modifies this, s
      ensures s.View() == Performed(old(s.View()), StreamAll(found))
      ensures code <= 1 && (code == 0 <==> Reported(old(s.View()), StreamAll(found)))
      ensures code == 0 ==> cwd == old(cwd)
      decreases found, 0
    {
      hide Emit, Reported, Performed, Loud, Then, Sendable;
      ghost var o, whole := s.View(), StreamAll(found);
      var i := 0;
      assert found[0..] == found;
      while i < |found|
        invariant i <= |found| && AllSendable(found[i..])
        invariant Performed(s.View(), StreamAll(found[i..])) == Performed(o, whole)
        invariant Reported(s.View(), StreamAll(found[i..])) <==> Reported(o, whole)
        invariant cwd == old(cwd)
      {
        assert found[i..][1..] == found[i + 1..];
        SendableParts(found[i..]);
        if !Hidden(found[i]) {
          ghost var before, entry, rest := s.View(), EntryStream(found[i]), StreamAll(found[i + 1..]);
          assert StreamAll(found[i..]) == Then(entry, rest);
          var failed := SendEntry(path, found[i], s);
          if failed == 1 {
            FailedThen(before, entry, rest);
            return 1;
          }
          ReportedIsComplete(before, entry);
          ReportedThen(before, entry, rest);
        }
        i := i + 1;
      }
      LoudIsReported(s.View(), FlagBytes(0));
      code := SendRecord(FlagBytes(0), s);
    }
  }

  lemma LoudParts(bytes: seq<Byte>, complete: bool)
    ensures Loud(bytes, complete).bytes == bytes && Loud(bytes, complete).complete == complete
  {
  }

  lemma ReportedIsComplete(o: Link, s: Script)
    requires Reported(o, s)
    ensures s.complete && Performed(o, s) == Emit(o, s.bytes)
  {
  }

  lemma TwoRecords(o: Link, a: seq<Byte>, b: seq<Byte>)
    ensures var (o1, boxes) := (Emit(o, a), Loud(a + b, true));
            var failed := (o.room < |a| && o.zero) || (o1.room < |b| && o1.zero);
            && Emit(o1, b) == Emit(o, a + b) == Performed(o, boxes)
            && (o.room < |a| && o.zero ==> o1 == Emit(o, a + b))
            && (failed ==> Closed(Emit(o, a + b)) == Emit(o, a + b))
            && (Reported(o, boxes) <==> !failed)
  {
    EmitTwice(o, a, b);
    LoudIsReported(o, a + b);
    if o.room < |a| {
      NothingAfterBreak(o, a, b);
    } else if o.room < |a + b| {
      NothingAfterBreak(o, a + b, []);
    }
  }

  /** The two boxes of an entry, sent one after the other, and what follows them. */
  lemma OpeningOfStream(o: Link, n: Node, magic: seq<Byte>, header: seq<Byte>)
    requires Sendable(n) && magic == MessageBox(SUCCESS)
    requires header == HeaderBox(if n.FileNode? && !n.normal then FILE else DIR,
                                 if n.FileNode? && !n.normal then |n.content| else 0, n.name)
    ensures var o1 := Emit(o, magic);
            var o2 := Emit(o1, header);
            var failed := (o.room < |magic| && o.zero) || (o1.room < |header| && o1.zero);
            && (o.room < |magic| && o.zero ==> Performed(o, Stream(n)) == o1)
            && (o1.room < |header| && o1.zero ==> Performed(o, Stream(n)) == o2)
            && (failed ==> !Reported(o, Stream(n)))
            && (!failed ==>
                  match n
                  case FileNode(_, content, normal) =>
                    if normal then Performed(o, Stream(n)) == Closed(o2) && !Reported(o, Stream(n))
                    else Performed(o, Stream(n)) == Emit(o2, content) && Reported(o, Stream(n))
                  case DirNode(_, found) =>
                    if found == [] then Performed(o, Stream(n)) == Closed(o2) && !Reported(o, Stream(n))
                    else
                      && Performed(o, Stream(n)) == Performed(o2, StreamAll(found))
                      && (Reported(o, Stream(n)) <==> Reported(o2, StreamAll(found))))
  {
    var boxes := Loud(magic + header, true);
    TwoRecords(o, magic, header);
    LoudParts(magic + header, false);
    var o2 := Emit(o, magic + header);
    if n.FileNode? && !n.normal {
      QuietIsReported(o2, n.content);
      if Reported(o, boxes) {
        ReportedThen(o, boxes, Quiet(n.content));
      } else {
        FailedThen(o, boxes, Quiet(n.content));
      }
    } else if n.DirNode? && n.found != [] {
      if Reported(o, boxes) {
        ReportedThen(o, boxes, StreamAll(n.found));
      } else {
        FailedThen(o, boxes, StreamAll(n.found));
      }
    }
  }

  lemma QuietIsReported(o: Link, bytes: seq<Byte>)
    ensures Reported(o, Quiet(bytes)) && Performed(o, Quiet(bytes)) == Emit(o, bytes)
  {
  }
}
