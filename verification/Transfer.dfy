/** Both ends together: what the server holds after any walk of the client over any connection. */
module Transfer {
  import opened Bytes
  import opened Wire
  import opened FileTree
  import opened Reception
  import opened Client
  import opened CutStream

  /**
    The tree a walk announces. A file with FILE_ATTRIBUTE_NORMAL, or a directory in which nothing is found, is announced
    as an empty directory and is the last entry of the walk.
   */
  function Announced(n: Node): (t: Tree)
    ensures t.name == n.name
    decreases n, 1
  {
    match n
    case FileNode(name, content, normal) => if normal then Dir(name, []) else File(name, content)
    case DirNode(name, found) => Dir(name, AnnouncedAll(found))
  }

  function AnnouncedAll(found: seq<Node>): seq<Tree>
    decreases found, 0
  {
    if found == [] then []
    else if Hidden(found[0]) then AnnouncedAll(found[1..])
    else [Announced(found[0])] + (if Walkable(found[0]) then AnnouncedAll(found[1..]) else [])
  }

  /** The walk writes the stream of the tree it announces, and falls short of its end exactly when it gives up. */
  lemma {:induction false} StreamIsAnnounced(n: Node)
    requires Sendable(n)
    ensures WellFormed(Announced(n)) && Stream(n).bytes <= Encode(Announced(n))
    ensures if Walkable(n) then Announced(n) == Snapshot(n) && Stream(n).bytes == Encode(Announced(n))
            else |Stream(n).bytes| < |Encode(Announced(n))|
    decreases n, 1
  {
    if n.DirNode? {
      StreamAllIsAnnounced(n.found);
      StreamAllIsEncodeKids(n.found);
      var boxes := MessageBox(SUCCESS) + HeaderBox(DIR, 0, n.name);
      assert AnnouncedAll(n.found) == Announced(n).kids;
      if n.found != [] {
        PrefixUnder(boxes, StreamAll(n.found).bytes, EncodeKids(AnnouncedAll(n.found)));
      }
    }
  }

  lemma DistinctTail(trees: seq<Tree>)
    requires DistinctNames(trees) && trees != []
    ensures DistinctNames(trees[1..])
  {
  }

  /** Trees that have the names of distinct ones, or of the first of them. */
  lemma SameNames(names: seq<Tree>, first: Tree, later: seq<Tree>, kids: seq<Tree>)
    requires names != [] && first.name == names[0].name && DistinctNames(names) && |later| < |names|
    requires forall i :: 0 <= i < |later| ==> later[i].name == names[1..][i].name
    requires kids == [first] + later || kids == [first]
    ensures DistinctNames(kids) && |kids| <= |names| && forall i :: 0 <= i < |kids| ==> kids[i].name == names[i].name
  {
    assert forall i :: 0 < i < |kids| ==> kids[i] == later[i - 1] && names[i] == names[1..][i - 1];
  }

  lemma PrefixUnder(a: seq<Byte>, b: seq<Byte>, c: seq<Byte>)
    requires b <= c
    ensures a + b <= a + c
  {
  }

  lemma {:induction false} StreamAllIsAnnounced(found: seq<Node>)
    requires AllSendable(found) && DistinctNames(SnapshotAll(found))
    ensures var kids := AnnouncedAll(found);
            && DistinctNames(kids) && (forall k :: k in kids ==> WellFormed(k))
            && |kids| <= |SnapshotAll(found)|
            && (forall i :: 0 <= i < |kids| ==> kids[i].name == SnapshotAll(found)[i].name)
            && StreamAll(found).bytes <= EncodeKids(kids)
            && if AllWalkable(found) then kids == SnapshotAll(found) && StreamAll(found).bytes == EncodeKids(kids)
               else |StreamAll(found).bytes| < |EncodeKids(kids)|
    decreases found, 0
  {
    hide MessageBox, HeaderBox, FlagBytes, DistinctNames, Encode, Stream, Walkable, Sendable, Announced, WellFormed;
    if found != [] {
      SendableParts(found);
      var names := SnapshotAll(found);
      if Hidden(found[0]) {
        StreamAllIsAnnounced(found[1..]);
      } else {
        assert names[1..] == SnapshotAll(found[1..]);
        DistinctTail(names);
        StreamAllIsAnnounced(found[1..]);
        StreamIsAnnounced(found[0]);
        StreamIsEncode(found[0]);
        var first, later := Announced(found[0]), AnnouncedAll(found[1..]);
        var kids := AnnouncedAll(found);
        assert kids == [first] + if Walkable(found[0]) then later else [];
        assert kids[1..] == if Walkable(found[0]) then later else [];
        assert names == [names[0]] + names[1..];
        SameNames(names, first, later, kids);
        if Walkable(found[0]) {
          PrefixUnder(FlagBytes(1) + Encode(first), StreamAll(found[1..]).bytes, EncodeKids(later));
        } else {
          PrefixUnder(FlagBytes(1), Stream(found[0]).bytes, Encode(first));
        }
      }
    }
  }

  /** What goes out is a prefix of what the walk writes, all of it if there is room. */
  lemma SentBytes(o: Link, n: Node)
    requires Sendable(n)
    ensures Performed(o, Stream(n)).sent == o.sent + Stream(n).bytes[..Min(|Stream(n).bytes|, o.room)]
  {
    hide Stream;
    var bytes := Stream(n).bytes;
    if |bytes| <= o.room {
      assert bytes[..|bytes|] == bytes;
    }
  }

  /**
    The bytes `x` of a dump reached the server: all of it, so that it is accepted, or a pre-order truncation is left.
   */
  lemma DumpArrives(n: Node, o: Link, x: seq<Byte>, fs: Fs, cwd: Path, client: Name) returns (m: nat)
    requires n.DirNode? && Sendable(n) && o.sent == [] && x <= Performed(o, Stream(n)).sent
    requires HomeUsable(fs, cwd, client) && Vacant(fs, cwd + [client] + [n.name])
    ensures var (code, c) := RecvTree(Conn(x, false, fs), cwd, Some(client));
            var whole := Walkable(n) && x == Stream(n).bytes;
            && (code == Ok <==> whole)
            && (whole ==> c == Conn([], false, InstallTop(fs, cwd, client, Snapshot(n))))
            && (!whole ==>
                  var home := cwd + [client];
                  && WellFormed(Announced(n))
                  && var es := Layout(Announced(n), home, 0);
                  && c.fs == Replay(if |x| < 2 * BOX then fs else fs[home := Folder], es, |x|)
                  && PreorderTruncation(es, |x|, m, c.fs))
  {
    StreamIsEncode(n);
    StreamIsAnnounced(n);
    SentBytes(o, n);
    var bytes := Stream(n).bytes;
    assert [] + bytes[..Min(|bytes|, o.room)] == bytes[..Min(|bytes|, o.room)];
    assert x <= bytes;
    m := 0;
    if Walkable(n) && x == bytes {
      assert x == Encode(Snapshot(n)) + [];
      RoundTripTop(Snapshot(n), [], fs, cwd, client);
    } else {
      m := CutDump(x, Announced(n), fs, cwd, client);
    }
  }

  /**
    What the client's report is worth. A dump that the server accepts is reported as sent; one that
    it does not accept is reported as sent all the same, unless the walk gives up by itself, or the
    connection breaks in the middle of a box or a flag and says so by a transfer of 0 bytes.
   */
  lemma ReportIsRightExactlyWhen(n: Node, o: Link, x: seq<Byte>, fs: Fs, cwd: Path, client: Name)
    requires n.DirNode? && Sendable(n) && o.sent == [] && x <= Performed(o, Stream(n)).sent
    requires HomeUsable(fs, cwd, client) && Vacant(fs, cwd + [client] + [n.name])
    ensures var accepted := RecvTree(Conn(x, false, fs), cwd, Some(client)).0 == Ok;
            var s := Stream(n);
            && (accepted ==> Reported(o, s))
            && ((Reported(o, s) <==> accepted)
                <==> x == s.bytes || !Walkable(n) || (o.zero && o.room < |s.bytes| && !s.quiet[o.room]))
  {
    hide RecvTree, Stream, Encode;
    var _ := DumpArrives(n, o, x, fs, cwd, client);
    StreamIsEncode(n);
    SentBytes(o, n);
    assert [] + Stream(n).bytes[..Min(|Stream(n).bytes|, o.room)] == Stream(n).bytes[..Min(|Stream(n).bytes|, o.room)];
  }

  /** A reset connection: nothing at all goes out, the client reports success, and the server has received nothing. */
  lemma ResetIsTakenForSuccess() returns (n: Node, o: Link)
    ensures n.DirNode? && Sendable(n) && Walkable(n)
    ensures Reported(o, Stream(n)) && Performed(o, Stream(n)).sent == []
    ensures RecvTree(Conn([], false, map[[] := Folder]), [], Some([99])) == (Failed, Conn([], true, map[[] := Folder]))
  {
    hide Stream;
    n := DirNode([100], [DirNode(DOT, [])]);
    o := Link([], 0, false, [], false);
    assert SnapshotAll(n.found[1..]) == [] && SnapshotAll(n.found) == [];
    assert Snapshot(n) == Dir([100], []);
    assert Hidden(n.found[0]) && AllWalkable(n.found[1..]);
    StreamIsEncode(n);
    SentBytes(o, n);
  }
}
