/** What the server makes of a byte stream: the meaning of `writeDir` and `writeFile`, and the round trip. */
module Reception {
  import opened Bytes
  import opened Wire
  import opened FileTree

  /** Ok and Failed are the return values 0 and 1; Exited is `exit(1)`, which ends the server. */
  datatype Code = Ok | Failed | Exited

  /**
    One connection seen from the server. `input` holds the bytes that will still arrive before the peer
    disconnects or an error occurs; a closed socket delivers nothing more.
   */
  datatype Conn = Conn(input: seq<Byte>, closed: bool, fs: Fs)

  /** `receiveAll`: all `n` bytes, or a closed socket. */
  function Take(c: Conn, n: nat): (r: (Option<seq<Byte>>, Conn))
    ensures r.0.Some? ==> n <= |c.input| && r.0.value == c.input[..n]
    ensures r.0.Some? ==> r.1.input == c.input[n..] && r.1.closed == c.closed
    ensures r.0.None? ==> r.1.closed && r.1.input == []
    ensures r.1.fs == c.fs
  {
    if !c.closed && n <= |c.input| then (Some(c.input[..n]), c.(input := c.input[n..]))
    else (None, c.(input := [], closed := true))
  }

  function Append(fs: Fs, p: Path, chunk: seq<Byte>): Fs {
    fs[p := Blob((if p in fs && fs[p].Blob? then fs[p].content else []) + chunk)]
  }

  /** The loop of `writeFile`: chunks of at most SIZE bytes until `left` bytes have arrived. */
  function RecvBody(c: Conn, p: Path, left: nat): (r: (Code, Conn))
    ensures |r.1.input| <= |c.input|
    ensures r.0 == Ok ==> r.1.closed == c.closed
    decreases left
  {
    if left == 0 then (Ok, c) else
      var n := Min(left, SIZE);
      var (chunk, c1) := Take(c, n);
      if chunk.None? then (Failed, c1) else
      RecvBody(c1.(fs := Append(c1.fs, p, chunk.value)), p, left - n)
  }

  function RecvFile(c: Conn, dir: Path, name: Name, size: nat): (r: (Code, Conn))
    ensures |r.1.input| <= |c.input|
    ensures r.0 == Ok ==> r.1.closed == c.closed
  {
    if !CanOpen(c.fs, dir, name) then (Failed, c.(closed := true, input := [])) else
    RecvBody(c.(fs := c.fs[dir + [name] := Blob([])]), dir + [name], size)
  }

  /** The directory an entry goes into: below the directory of the client when the entry is the top one. */
  function Home(cwd: Path, top: Option<Name>): Path {
    if top.Some? then cwd + [top.value] else cwd
  }

  /** `mkdir` of the client's own directory, for which EEXIST is not an error. */
  function MakeHome(fs: Fs, cwd: Path, top: Option<Name>): Option<Fs> {
    if top.None? || cwd + [top.value] in fs then Some(fs)
    else if IsFolder(fs, cwd) then Some(fs[cwd + [top.value] := Folder])
    else None
  }

  /** `writeDir`; `top` names the client's directory when the flag argument is 1. */
  function RecvTree(c: Conn, cwd: Path, top: Option<Name>): (r: (Code, Conn))
    ensures |r.1.input| <= |c.input|
    ensures c.closed ==> r == (Failed, c.(input := []))
    ensures r.0 == Ok ==> !r.1.closed && |r.1.input| < |c.input|
    decreases |c.input|, 1
  {
    var (magic, c1) := Take(c, BOX);
    if magic.None? then (Failed, c1) else
    if CString(magic.value) != SUCCESS then (Failed, c1) else
    var (header, c2) := Take(c1, BOX);
    if header.None? then (Failed, c2) else
    var name := BoxName(header.value);
    if BoxKind(header.value) == FILE then RecvFile(c2, cwd, name, BoxSize(header.value)) else
    var made := MakeHome(c2.fs, cwd, top);
    if made.None? then (Exited, c2) else
    var home := Home(cwd, top);
    if !CanMkdir(made.value, home, name) then (Exited, c2.(fs := made.value)) else
    RecvKids(c2.(fs := made.value[home + [name] := Folder]), home + [name])
  }

  /** The loop of `writeDir`: the return value of the call for a child is ignored. */
  function RecvKids(c: Conn, dir: Path): (r: (Code, Conn))
    ensures |r.1.input| <= |c.input|
    ensures c.closed ==> r == (Failed, c.(input := []))
    ensures r.0 == Ok ==> !r.1.closed && |r.1.input| < |c.input|
    decreases |c.input|, 0
  {
    var (flag, c1) := Take(c, FLAG);
    if flag.None? then (Failed, c1) else
    if FromLittleEndian(flag.value) != 1 then (Ok, c1) else
    var (code, c2) := RecvTree(c1, dir, None);
    if code == Exited then (Exited, c2) else RecvKids(c2, dir)
  }

  /** `clientThread`: rounds until one fails; `rounds` counts them, the failed one included. */
  function RecvRounds(c: Conn, cwd: Path, client: Name): (r: (Conn, nat))
    decreases |c.input|
  {
    var (code, c1) := RecvTree(c, cwd, Some(client));
    if code == Ok then
      var (c2, rounds) := RecvRounds(c1, cwd, client);
      (c2, rounds + 1)
    else (c1, 1)
  }

  // Streams that no client sends.

  /** A box that does not start with "success" ends a dump, with the disk as it was and the connection open. */
  lemma OtherBox(c: Conn, cwd: Path, top: Option<Name>)
    requires !c.closed && 16400 <= |c.input| && c.input[..8] != [115, 117, 99, 99, 101, 115, 115, 0]
    ensures RecvTree(c, cwd, top) == (Failed, c.(input := c.input[16400..]))
  {
    var box := c.input[..BOX];
    assert box[..8] == c.input[..8];
    TextOfBox(box);
  }

  /** Where a child is expected such a box is dropped, and the next flag is read; any flag but 1 ends the directory. */
  lemma OtherChild(c: Conn, dir: Path)
    requires !c.closed && 4 <= |c.input|
    ensures c.input[..4] != [1, 0, 0, 0] ==> RecvKids(c, dir) == (Ok, c.(input := c.input[4..]))
    ensures c.input[..4] == [1, 0, 0, 0] && 16404 <= |c.input|
            && c.input[4..12] != [115, 117, 99, 99, 101, 115, 115, 0] ==>
              RecvKids(c, dir) == RecvKids(c.(input := c.input[16404..]), dir)
  {
    FlagByByte(c.input[..4]);
    var c1 := c.(input := c.input[4..]);
    if c.input[..4] == [1, 0, 0, 0] && 16404 <= |c.input| {
      assert c1.input[..8] == c.input[4..12] && c1.input[16400..] == c.input[16404..];
      if c.input[4..12] != [115, 117, 99, 99, 101, 115, 115, 0] {
        OtherBox(c1, dir, None);
      }
    }
  }

  /** A file that cannot be opened closes the connection and leaves the disk alone. */
  lemma UnopenableFile(c: Conn, cwd: Path, top: Option<Name>)
    requires !c.closed && 32800 <= |c.input| && c.input[..8] == [115, 117, 99, 99, 101, 115, 115, 0]
    requires c.input[16400] == 0 && c.input[16401] == 0
    requires !CanOpen(c.fs, cwd, CString(c.input[16416..32800]))
    ensures RecvTree(c, cwd, top) == (Failed, Conn([], true, c.fs))
  {
    var magic, header := c.input[..BOX], c.input[BOX..][..BOX];
    assert magic[..8] == c.input[..8];
    TextOfBox(magic);
    assert header == c.input[16400..32800] && header[16..] == c.input[16416..32800];
    BoxByByte(header);
  }

  /** Every type other than 0 is that of a directory, whatever its size field says. */
  lemma OtherTypeIsDirectory(c: Conn, cwd: Path)
    requires !c.closed && 32800 <= |c.input| && c.input[..8] == [115, 117, 99, 99, 101, 115, 115, 0]
    requires c.input[16400] != 0 || c.input[16401] != 0
    ensures var name := CString(c.input[16416..32800]);
            RecvTree(c, cwd, None)
            == if IsFolder(c.fs, cwd) && cwd + [name] !in c.fs then
                 RecvKids(Conn(c.input[32800..], false, c.fs[cwd + [name] := Folder]), cwd + [name])
               else (Exited, c.(input := c.input[32800..]))
  {
    var magic, header := c.input[..BOX], c.input[BOX..][..BOX];
    assert magic[..8] == c.input[..8];
    TextOfBox(magic);
    assert header == c.input[16400..32800] && header[16..] == c.input[16416..32800];
    assert c.input[BOX..][BOX..] == c.input[32800..];
    BoxByByte(header);
  }

  // The round trip.

  lemma TakeFront(front: seq<Byte>, r: seq<Byte>, fs: Fs)
    ensures Take(Conn(front + r, false, fs), |front|) == (Some(front), Conn(r, false, fs))
  {
    assert (front + r)[..|front|] == front && (front + r)[|front|..] == r;
  }

  lemma {:induction false} RecvBodyOfContent(fs: Fs, p: Path, had: seq<Byte>, content: seq<Byte>, rest: seq<Byte>)
    requires p in fs && fs[p] == Blob(had)
    ensures RecvBody(Conn(content + rest, false, fs), p, |content|)
         == (Ok, Conn(rest, false, fs[p := Blob(had + content)]))
    decreases |content|
  {
    if content == [] {
      assert content + rest == rest && had + content == had;
      assert fs[p := Blob(had)] == fs;
    } else {
      var n := Min(|content|, SIZE);
      var chunk, later := content[..n], content[n..];
      assert content == chunk + later;
      Assoc(chunk, later, rest);
      Assoc(had, chunk, later);
      TakeFront(chunk, later + rest, fs);
      var fs1 := Append(fs, p, chunk);
      assert fs1 == fs[p := Blob(had + chunk)];
      RecvBodyOfContent(fs1, p, had + chunk, later, rest);
      assert fs1[p := Blob(had + content)] == fs[p := Blob(had + content)];
    }
  }

  /** Reading the two boxes of an entry. */
  lemma TakeOpening(t: Tree, y: seq<Byte>, fs: Fs)
    requires WellFormed(t)
    ensures var c := Conn(Opening(t) + y, false, fs);
            var (magic, c1) := Take(c, BOX);
            var (header, c2) := Take(c1, BOX);
            && magic == Some(MessageBox(SUCCESS))
            && header == Some(HeaderOf(t))
            && c2 == Conn(y, false, fs)
            && BoxKind(HeaderOf(t)) == KindOf(t) && BoxSize(HeaderOf(t)) == SizeOf(t) && BoxName(HeaderOf(t)) == t.name
  {
    HeaderRoundTrip(KindOf(t), SizeOf(t), t.name);
    var m, h := MessageBox(SUCCESS), HeaderOf(t);
    Assoc(m, h, y);
    TakeFront(m, h + y, fs);
    TakeFront(h, y, fs);
  }

  /** Past the boxes of an entry, its content or its children are read. */
  lemma PastOpening(t: Tree, y: seq<Byte>, fs: Fs, dir: Path)
    requires WellFormed(t) && IsFolder(fs, dir) && Vacant(fs, dir + [t.name])
    ensures RecvTree(Conn(Opening(t) + y, false, fs), dir, None) == (
              var p := dir + [t.name];
              if t.File? then RecvBody(Conn(y, false, fs[p := Blob([])]), p, |t.content|)
              else RecvKids(Conn(y, false, fs[p := Folder]), p))
  {
    TakeOpening(t, y, fs);
    assert dir + [t.name] <= dir + [t.name];
  }

  /** The same for the top entry of a dump, for which the directory of the client is made first. */
  lemma PastTopOpening(t: Tree, y: seq<Byte>, fs: Fs, cwd: Path, client: Name)
    requires WellFormed(t) && t.Dir? && HomeUsable(fs, cwd, client) && Vacant(fs, cwd + [client] + [t.name])
    ensures var home := cwd + [client];
            && IsFolder(fs[home := Folder], home) && Vacant(fs[home := Folder], home + [t.name])
            && RecvTree(Conn(Opening(t) + y, false, fs), cwd, Some(client))
            == RecvKids(Conn(y, false, fs[home := Folder][home + [t.name] := Folder]), home + [t.name])
  {
    TakeOpening(t, y, fs);
    var home := cwd + [client];
    assert home + [t.name] <= home + [t.name];
    var fs1 := fs[home := Folder];
    forall q | q in fs1 ensures !(home + [t.name] <= q) {
      assert q == home ==> |q| < |home + [t.name]|;
    }
    assert home in fs ==> fs[home := Folder] == fs;
  }

  /** Nothing is stored below a directory that has just been made. */
  lemma NewFolderIsEmpty(fs: Fs, p: Path, kids: seq<Tree>)
    requires Vacant(fs, p)
    ensures forall k :: k in kids ==> Vacant(fs[p := Folder], p + [k.name])
  {
    forall k | k in kids ensures Vacant(fs[p := Folder], p + [k.name]) {
      var fs1 := fs[p := Folder];
      forall q | q in fs1 ensures !(p + [k.name] <= q) {
        assert p <= p + [k.name];
        assert q == p ==> |q| < |p + [k.name]|;
      }
    }
  }

  /** Past a flag, the next child is read and then the others, or the directory is complete. */
  lemma PastFlag(kids: seq<Tree>, y: seq<Byte>, fs: Fs, dir: Path)
    ensures RecvKids(Conn(NextFlag(kids) + y, false, fs), dir)
         == if kids == [] then (Ok, Conn(y, false, fs)) else
            var (code, c) := RecvTree(Conn(y, false, fs), dir, None);
            if code == Exited then (Exited, c) else RecvKids(c, dir)
  {
    TakeFront(NextFlag(kids), y, fs);
  }

  /** After one child was installed, the places of the others are still free. */
  lemma PastKid(fs: Fs, dir: Path, kids: seq<Tree>)
    requires kids != [] && DistinctNames(kids)
    requires IsFolder(fs, dir) && forall k :: k in kids ==> Vacant(fs, dir + [k.name])
    ensures var fs1 := Install(fs, dir, kids[0]);
            && IsFolder(fs1, dir)
            && DistinctNames(kids[1..]) && forall k :: k in kids[1..] ==> Vacant(fs1, dir + [k.name])
  {
    InstallIsLocal(fs, dir, kids[0]);
    assert !(dir + [kids[0].name] <= dir);
    forall k | k in kids[1..] ensures Vacant(Install(fs, dir, kids[0]), dir + [k.name]) {
      assert k in kids;
      VacancyKept(fs, dir, kids[0], k.name);
    }
  }

  /** Every tree that is sent is rebuilt, and exactly the bytes that follow it stay unread. */
  lemma {:induction false} RoundTrip(t: Tree, rest: seq<Byte>, fs: Fs, dir: Path)
    requires WellFormed(t) && IsFolder(fs, dir) && Vacant(fs, dir + [t.name])
    ensures RecvTree(Conn(Encode(t) + rest, false, fs), dir, None) == (Ok, Conn(rest, false, Install(fs, dir, t)))
    decreases t, 1
  {
    EncodeParts(t, rest);
    PastOpening(t, Payload(t) + rest, fs, dir);
    var p := dir + [t.name];
    match t
    case File(name, content) =>
      var fs1 := fs[p := Blob([])];
      RecvBodyOfContent(fs1, p, [], content, rest);
      assert [] + content == content;
      assert fs1[p := Blob(content)] == fs[p := Blob(content)];
    case Dir(name, kids) =>
      NewFolderIsEmpty(fs, p, kids);
      RoundTripKids(kids, rest, fs[p := Folder], p);
  }

  lemma {:induction false} RoundTripKids(kids: seq<Tree>, rest: seq<Byte>, fs: Fs, dir: Path)
    requires DistinctNames(kids) && (forall k :: k in kids ==> WellFormed(k))
    requires IsFolder(fs, dir) && forall k :: k in kids ==> Vacant(fs, dir + [k.name])
    ensures RecvKids(Conn(EncodeKids(kids) + rest, false, fs), dir)
         == (Ok, Conn(rest, false, InstallKids(fs, dir, kids)))
    decreases kids, 0
  {
    EncodeKidsParts(kids, rest);
    PastFlag(kids, AfterFlag(kids, rest), fs, dir);
    if kids != [] {
      RoundTrip(kids[0], EncodeKids(kids[1..]) + rest, fs, dir);
      PastKid(fs, dir, kids);
      RoundTripKids(kids[1..], rest, Install(fs, dir, kids[0]), dir);
    }
  }

  /** The file system after the dump `t` of a client was received at the top of its directory. */
  function InstallTop(fs: Fs, cwd: Path, client: Name, t: Tree): Fs {
    Install(fs[cwd + [client] := Folder], cwd + [client], t)
  }

  /** The directory of a client exists as a directory, or not at all. */
  predicate HomeUsable(fs: Fs, cwd: Path, client: Name) {
    IsFolder(fs, cwd) && (cwd + [client] in fs ==> IsFolder(fs, cwd + [client]))
  }

  /** The same for a whole dump, which goes below the directory of its client. */
  lemma RoundTripTop(t: Tree, rest: seq<Byte>, fs: Fs, cwd: Path, client: Name)
    requires WellFormed(t) && t.Dir? && HomeUsable(fs, cwd, client) && Vacant(fs, cwd + [client] + [t.name])
    ensures RecvTree(Conn(Encode(t) + rest, false, fs), cwd, Some(client))
         == (Ok, Conn(rest, false, InstallTop(fs, cwd, client, t)))
  {
    var home := cwd + [client];
    EncodeParts(t, rest);
    PastTopOpening(t, Payload(t) + rest, fs, cwd, client);
    PastOpening(t, Payload(t) + rest, fs[home := Folder], home);
    RoundTrip(t, rest, fs[home := Folder], home);
  }

  // Several rounds.

  /** The streams of several rounds in a row. */
  function EncodeAll(dumps: seq<Tree>): seq<Byte>
    requires forall t :: t in dumps ==> WellFormed(t)
    decreases |dumps|
  {
    if dumps == [] then [] else Encode(dumps[0]) + EncodeAll(dumps[1..])
  }

  function InstallDumps(fs: Fs, cwd: Path, client: Name, dumps: seq<Tree>): Fs
    decreases |dumps|
  {
    if dumps == [] then fs
    else InstallTop(InstallDumps(fs, cwd, client, dumps[..|dumps| - 1]), cwd, client, dumps[|dumps| - 1])
  }

  lemma {:induction false} InstallDumpsFront(fs: Fs, cwd: Path, client: Name, dumps: seq<Tree>)
    requires dumps != []
    ensures InstallDumps(fs, cwd, client, dumps)
         == InstallDumps(InstallTop(fs, cwd, client, dumps[0]), cwd, client, dumps[1..])
    decreases |dumps|
  {
    if |dumps| > 1 {
      var front := dumps[..|dumps| - 1];
      InstallDumpsFront(fs, cwd, client, front);
      assert front[1..] == dumps[1..][..|dumps| - 2];
    }
  }

  /** The rounds of one client: directories with different names for which there is room on the disk. */
  ghost predicate Dumps(fs: Fs, cwd: Path, client: Name, dumps: seq<Tree>) {
    && HomeUsable(fs, cwd, client)
    && (forall t :: t in dumps ==> WellFormed(t) && t.Dir? && Vacant(fs, cwd + [client] + [t.name]))
    && DistinctNames(dumps)
  }

  lemma DumpsLater(fs: Fs, cwd: Path, client: Name, dumps: seq<Tree>)
    requires Dumps(fs, cwd, client, dumps) && dumps != []
    ensures Dumps(InstallTop(fs, cwd, client, dumps[0]), cwd, client, dumps[1..])
  {
    var home, t := cwd + [client], dumps[0];
    var before := fs[home := Folder];
    InstallIsLocal(before, home, t);
    assert !(home + [t.name] <= home) && !(home + [t.name] <= cwd);
    forall v | v in dumps[1..] ensures Vacant(Install(before, home, t), home + [v.name]) {
      assert v in dumps && !(home + [v.name] <= home);
      VacancyKept(before, home, t, v.name);
    }
  }

  /** After some dumps there is still room for one with another name. */
  lemma {:induction false} RoomForNext(fs: Fs, cwd: Path, client: Name, dumps: seq<Tree>, name: Name)
    requires HomeUsable(fs, cwd, client) && Vacant(fs, cwd + [client] + [name])
    requires forall v :: v in dumps ==> v.name != name
    ensures var after := InstallDumps(fs, cwd, client, dumps);
            HomeUsable(after, cwd, client) && Vacant(after, cwd + [client] + [name])
    decreases |dumps|
  {
    if dumps != [] {
      var front, last := dumps[..|dumps| - 1], dumps[|dumps| - 1];
      var home := cwd + [client];
      RoomForNext(fs, cwd, client, front, name);
      var before := InstallDumps(fs, cwd, client, front)[home := Folder];
      assert last in dumps;
      assert !(home + [name] <= home);
      assert Vacant(before, home + [name]);
      VacancyKept(before, home, last, name);
      InstallIsLocal(before, home, last);
      assert !(home + [last.name] <= home) && !(home + [last.name] <= cwd);
      assert cwd != home;
    }
  }

  /** Complete dumps at the front of what the server gets are rounds of their own. */
  lemma {:induction false} WholeRounds(dumps: seq<Tree>, rest: seq<Byte>, fs: Fs, cwd: Path, client: Name)
    requires Dumps(fs, cwd, client, dumps)
    ensures var (c, more) := RecvRounds(Conn(rest, false, InstallDumps(fs, cwd, client, dumps)), cwd, client);
            RecvRounds(Conn(EncodeAll(dumps) + rest, false, fs), cwd, client) == (c, |dumps| + more)
    decreases |dumps|
  {
    hide RecvTree, InstallTop, Encode;
    if dumps == [] {
      assert [] + rest == rest;
    } else {
      var first, later := dumps[0], EncodeAll(dumps[1..]) + rest;
      Assoc(Encode(first), EncodeAll(dumps[1..]), rest);
      RoundTripTop(first, later, fs, cwd, client);
      DumpsLater(fs, cwd, client, dumps);
      WholeRounds(dumps[1..], rest, InstallTop(fs, cwd, client, first), cwd, client);
      InstallDumpsFront(fs, cwd, client, dumps);
    }
  }
}
