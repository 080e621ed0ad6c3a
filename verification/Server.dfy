/** The receiving side of the transfer: the server's threads, their sockets and the disk they share. */
module Server {
  import opened Bytes
  import opened Wire
  import opened FileTree
  import opened Reception

  class Disk {
    var fs: Fs

    constructor (fs: Fs)
      ensures this.fs == fs
    {
      this.fs := fs;
    }

    /** `mkdir`; `present` tells whether errno is EEXIST. */
    method Mkdir(dir: Path, name: Name) returns (ok: bool, present: bool)
      modifies this
      ensures ok == CanMkdir(old(fs), dir, name)
      ensures present == (dir + [name] in old(fs))
      ensures fs == if ok then old(fs)[dir + [name] := Folder] else old(fs)
    {
      present := dir + [name] in fs;
      ok := IsFolder(fs, dir) && !present;
      if ok {
        fs := fs[dir + [name] := Folder];
      }
    }

    /** `fopen` with mode "wb": an existing file is emptied. */
    method Open(dir: Path, name: Name) returns (ok: bool)
      modifies this
      ensures ok == CanOpen(old(fs), dir, name)
      ensures fs == if ok then old(fs)[dir + [name] := Blob([])] else old(fs)
    {
      ok := IsFolder(fs, dir) && !IsFolder(fs, dir + [name]);
      if ok {
        fs := fs[dir + [name] := Blob([])];
      }
    }

    /** `fwrite` of a whole buffer at the end of an open file. */
    method Write(p: Path, chunk: seq<Byte>)
      modifies this
      ensures fs == Append(old(fs), p, chunk)
    {
      var had: seq<Byte> := if p in fs && fs[p].Blob? then fs[p].content else [];
      fs := fs[p := Blob(had + chunk)];
    }
  }

  class Socket {
    /** What will still arrive before the peer disconnects or the connection breaks. */
    var input: seq<Byte>
    var closed: bool
    /** What was written to the peer, and how many more bytes can be before the connection breaks. */
    var output: seq<Byte>
    var room: nat

    constructor (input: seq<Byte>, room: nat)
      ensures this.input == input && !closed && output == [] && this.room == room
    {
      this.input, closed, output, this.room := input, false, [], room;
    }

    /** `write`: any positive number of the bytes offered, or 0 or -1 once the connection is gone. */
    method Write(data: seq<Byte>) returns (count: int)
      requires data != []
      modifies `output, `room
      ensures count <= 0 <==> closed || old(room) == 0
      ensures 0 < count ==> count <= |data| && count <= old(room)
      ensures 0 < count ==> output == old(output) + data[..count] && room == old(room) - count
      ensures count <= 0 ==> output == old(output) && room == old(room)
    {
      if closed || room == 0 {
        var broken: bool := *;
        return if broken then -1 else 0;
      }
      count :| 1 <= count <= |data| && count <= room;
      output, room := output + data[..count], room - count;
    }

    /** `read`: any positive number of the bytes asked for, 0 at the end of the stream or -1 for an error. */
    method Read(n: nat) returns (count: int, data: seq<Byte>)
      requires n > 0
      modifies `input
      ensures closed == old(closed)
      ensures count <= 0 <==> old(closed) || old(input) == []
      ensures 0 < count ==> count <= n && count <= |old(input)|
      ensures 0 < count ==> data == old(input)[..count] && input == old(input)[count..]
      ensures count <= 0 ==> input == old(input)
    {
      data := [];
      if closed {
        count := -1;
      } else if input == [] {
        var broken: bool := *;
        count := if broken then -1 else 0;
      } else {
        count :| 1 <= count <= n && count <= |input|;
        data, input := input[..count], input[count..];
      }
    }

    method Close()
      modifies `closed, `input
      ensures closed && input == []
    {
      closed, input := true, [];
    }
  }

  ghost function View(s: Socket, d: Disk): Conn
    reads s, d
  {
    Conn(s.input, s.closed, d.fs)
  }

  /** However `read` splits the stream, the buffer gets exactly the next `n` bytes, or the socket is closed. */
  method ReceiveAll(n: nat, dest: array<Byte>, s: Socket) returns (code: nat)
    requires 0 < n <= dest.Length
    modifies s`input, s`closed, dest
    ensures var (bytes, c) := Take(Conn(old(s.input), old(s.closed), map[]), n);
            && code == (if bytes.Some? then 0 else 1)
            && s.input == c.input && s.closed == c.closed
            && (bytes.Some? ==> dest[..n] == bytes.value)
  {
    var total := 0;
    ghost var input := s.input;
    while total < n
      invariant total <= n && total <= |input|
      invariant s.closed == old(s.closed) && s.input == input[total..]
      invariant s.closed ==> total == 0
      invariant dest[..total] == input[..total]
    {
      var count, data := s.Read(n - total);
      if count < 0 {
        s.Close();
        return 1;
      } else if count == 0 {
        s.Close();
        return 1;
      }
      forall i | 0 <= i < count {
        dest[total + i] := data[i];
      }
      assert dest[..total + count] == input[..total] + data == input[..total + count];
      total := total + count;
    }
    return 0;
  }

  method WriteFile(s: Socket, d: Disk, name: Name, size: nat, cwd: Path) returns (code: Code)
    modifies s`input, s`closed, d
    ensures (code, View(s, d)) == RecvFile(old(View(s, d)), cwd, name, size)
  {
    var canWrite := d.Open(cwd, name);
    if !canWrite {
      s.Close();
      return Failed;
    }
    var p := cwd + [name];
    var buffer := new Byte[SIZE](_ => 0);
    var left := size;
    while left > 0
      invariant RecvFile(old(View(s, d)), cwd, name, size) == RecvBody(View(s, d), p, left)
    {
      var n := Min(left, SIZE);
      var failed := ReceiveAll(n, buffer, s);
      if failed == 1 {
        return Failed;
      }
      d.Write(p, buffer[..n]);
      left := left - n;
    }
    return Ok;
  }

  /** What remains to be done in the loop of `WriteDir` after a flag was read. */
  function KidsFrom(flag: nat, c: Conn, dir: Path): (Code, Conn) {
    if flag != 1 then (Ok, c) else
    var (code, c') := RecvTree(c, dir, None);
    if code == Exited then (Exited, c') else RecvKids(c', dir)
  }

  /** `Exited` stands for `exit(1)`: every caller passes it on at once, as the process is gone. */
  method WriteDir(s: Socket, d: Disk, top: Option<Name>, cwd: Path) returns (code: Code)
    modifies s`input, s`closed, d
    ensures (code, View(s, d)) == RecvTree(old(View(s, d)), cwd, top)
    decreases |s.input|, 1
  {
    var msg := new Byte[BOX](_ => 0);
    var failed := ReceiveAll(BOX, msg, s);
    if failed == 1 {
      return Failed;
    }
    if CString(msg[..BOX]) != SUCCESS {
      return Failed;
    }
    failed := ReceiveAll(BOX, msg, s);
    if failed == 1 {
      return Failed;
    }
    var box := msg[..BOX];
    if BoxKind(box) == FILE {
      code := WriteFile(s, d, BoxName(box), BoxSize(box), cwd);
      return;
    }
    var home := cwd;
    if top.Some? {
      var made, present := d.Mkdir(cwd, top.value);
      if !made && !present {
        return Exited;
      }
      home := cwd + [top.value];
    }
    var ok, _ := d.Mkdir(home, BoxName(box));
    if !ok {
      return Exited;
    }
    code := WriteKids(s, d, home + [BoxName(box)]);
  }

  /** The last part of `writeDir`: children as long as the loop flag is 1. */
  method WriteKids(s: Socket, d: Disk, dir: Path) returns (code: Code)
    modifies s`input, s`closed, d
    ensures (code, View(s, d)) == RecvKids(old(View(s, d)), dir)
    decreases |s.input|, 0
  {
    var flag := new Byte[FLAG](_ => 0);
    var failed := ReceiveAll(FLAG, flag, s);
    if failed == 1 {
      return Failed;
    }
    var loopFlag := FromLittleEndian(flag[..FLAG]);
    while loopFlag == 1
      invariant RecvKids(old(View(s, d)), dir) == KidsFrom(loopFlag, View(s, d), dir)
      invariant |s.input| < |old(s.input)|
      decreases |s.input|
    {
      var childCode := WriteDir(s, d, None, dir);
      if childCode == Exited {
        return Exited;
      }
      failed := ReceiveAll(FLAG, flag, s);
      if failed == 1 {
        return Failed;
      }
      loopFlag := FromLittleEndian(flag[..FLAG]);
    }
    return Ok;
  }

  /** However `write` splits the buffer, all of it goes out; or what fits, and the socket is closed. */
  method SendAll(src: array<Byte>, s: Socket) returns (code: nat)
    requires !s.closed
    modifies s
    ensures code == if src.Length <= old(s.room) then 0 else 1
    ensures s.output == old(s.output) + src[..Min(src.Length, old(s.room))]
    ensures s.room == old(s.room) - Min(src.Length, old(s.room))
    ensures if code == 0 then s.input == old(s.input) && !s.closed else s.input == [] && s.closed
  {
    var total := 0;
    while total < src.Length
      invariant total <= src.Length && total <= old(s.room) && s.room == old(s.room) - total
      invariant s.input == old(s.input) && !s.closed
      invariant s.output == old(s.output) + src[..total]
    {
      var count := s.Write(src[total..]);
      if count < 0 {
        s.Close();
        return 1;
      } else if count == 0 {
        s.Close();
        return 1;
      }
      assert src[..total] + src[total..][..count] == src[..total + count];
      total := total + count;
    }
    return 0;
  }

  function Signals(rounds: nat): seq<Byte> {
    if rounds == 0 then [] else Signals(rounds - 1) + MessageBox(DUMP)
  }

  /** How a thread ends: its connection, the dumps it waited for, and whether it broke off in the middle of a signal. */
  datatype Service = Service(conn: Conn, rounds: nat, cut: bool)

  /** `clientThread` on a connection that takes `room` bytes. */
  function Serve(c: Conn, room: nat, cwd: Path, client: Name): (s: Service)
    ensures s.cut ==> s.rounds * BOX <= room < (s.rounds + 1) * BOX
    decreases |c.input|
  {
    if room < BOX then Service(c.(input := [], closed := true), 0, true)
    else
      var (code, c1) := RecvTree(c, cwd, Some(client));
      if code != Ok then Service(c1, 1, false)
      else
        var later := Serve(c1, room - BOX, cwd, client);
        later.(rounds := later.rounds + 1)
  }

  /**
    With room for all its signals a thread goes through the rounds
    of its stream; else through as many as it has signals.
   */
  lemma {:induction false} ServiceIsRounds(c: Conn, room: nat, cwd: Path, client: Name)
    ensures var (last, rounds) := RecvRounds(c, cwd, client);
            if rounds * BOX <= room then Serve(c, room, cwd, client) == Service(last, rounds, false)
            else
              var s := Serve(c, room, cwd, client);
              s.cut && s.conn.closed && s.rounds == room / BOX < rounds
    decreases |c.input|
  {
    hide RecvTree;
    var (code, c1) := RecvTree(c, cwd, Some(client));
    if room >= BOX && code == Ok {
      ServiceIsRounds(c1, room - BOX, cwd, client);
    }
  }

  /** What the thread will have done when it ends, after `rounds` rounds. */
  function ServiceFrom(running: bool, c: Conn, room: nat, rounds: nat, cwd: Path, client: Name): Service {
    if running then
      var later := Serve(c, room, cwd, client);
      later.(rounds := rounds + later.rounds)
    else Service(c, rounds, false)
  }

  /** One thread of the server: a signal and a dump, until a signal or a dump fails. */
  method ClientThread(s: Socket, d: Disk, client: Name, cwd: Path) returns (rounds: nat)
    requires !s.closed && s.output == []
    modifies s, d
    ensures var service := Serve(old(View(s, d)), old(s.room), cwd, client);
            && View(s, d) == service.conn && rounds == service.rounds && rounds * BOX <= old(s.room)
            && s.output == Signals(rounds) + if service.cut then MessageBox(DUMP)[..old(s.room) - rounds * BOX] else []
  {
    hide RecvTree, MessageBox;
    var msg := new Byte[BOX](i requires 0 <= i < BOX => MessageBox(DUMP)[i]);
    assert msg[..] == MessageBox(DUMP);
    rounds := 0;
    var running := true;
    ghost var goal := Serve(View(s, d), s.room, cwd, client);
    while running
      invariant msg[..] == MessageBox(DUMP) && s.output == Signals(rounds) && s.room == old(s.room) - rounds * BOX
      invariant running ==> !s.closed
      invariant goal == ServiceFrom(running, View(s, d), s.room, rounds, cwd, client)
      decreases running, |s.input|
    {
      ghost var before, room := View(s, d), s.room;
      var failed := SendAll(msg, s);
      if failed == 1 {
        assert msg[..Min(BOX, room)] == MessageBox(DUMP)[..room];
        return;
      }
      assert msg[..BOX] == msg[..];
      assert s.output == Signals(rounds) + MessageBox(DUMP) == Signals(rounds + 1);
      assert View(s, d) == before;
      var code := WriteDir(s, d, Some(client), cwd);
      running := code == Ok;
      rounds := rounds + 1;
    }
    assert Signals(rounds) + [] == Signals(rounds);
  }
}
