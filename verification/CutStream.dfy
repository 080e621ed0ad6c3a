/** What is on the server's disk when the connection breaks after any number of bytes. */
module CutStream {
  import opened Bytes
  import opened Wire
  import opened FileTree
  import opened Reception

  /** What is kept of a file when `n` bytes after its header arrived: whole chunks only, unless it is complete. */
  function Kept(content: seq<Byte>, n: nat): (kept: seq<Byte>)
    ensures kept <= content
  {
    if |content| <= n then content else
      assert n / SIZE * SIZE <= n;
      content[..n / SIZE * SIZE]
  }

  /** The entries of a tree in the order of the stream, each with the offset at which its header ends. */
  datatype Placed = Placed(path: Path, node: Tree, at: nat) {
    function Size(): nat {
      SizeOf(node)
    }

    function Until(cut: nat): Entry
      requires at <= cut
    {
      if node.Dir? then Folder else Blob(Kept(node.content, cut - at))
    }
  }

  function Layout(t: Tree, dir: Path, start: nat): seq<Placed>
    requires WellFormed(t)
    decreases t, 1
  {
    var here := Placed(dir + [t.name], t, start + 2 * BOX);
    match t
    case File(_, _) => [here]
    case Dir(name, kids) => [here] + LayoutKids(kids, dir + [name], start + 2 * BOX)
  }

  function LayoutKids(kids: seq<Tree>, dir: Path, start: nat): seq<Placed>
    requires forall k :: k in kids ==> WellFormed(k)
    decreases kids, 0
  {
    if kids == [] then [] else
    Layout(kids[0], dir, start + FLAG) + LayoutKids(kids[1..], dir, start + FLAG + |Encode(kids[0])|)
  }

  /** The entries whose header ends at or before the cut, and of their contents what arrived before it. */
  function Replay(fs: Fs, entries: seq<Placed>, cut: nat): Fs
    decreases entries
  {
    if entries == [] then fs
    else if entries[0].at <= cut then Replay(fs[entries[0].path := entries[0].Until(cut)], entries[1..], cut)
    else Replay(fs, entries[1..], cut)
  }

  lemma {:induction false} ReplayConcat(fs: Fs, a: seq<Placed>, b: seq<Placed>, cut: nat)
    ensures Replay(fs, a + b, cut) == Replay(Replay(fs, a, cut), b, cut)
    decreases a
  {
    if a == [] {
      assert a + b == b;
    } else {
      assert (a + b)[0] == a[0] && (a + b)[1..] == a[1..] + b;
      ReplayConcat(if a[0].at <= cut then fs[a[0].path := a[0].Until(cut)] else fs, a[1..], b, cut);
    }
  }

  lemma {:induction false} ReplayBeyondCut(fs: Fs, entries: seq<Placed>, cut: nat)
    requires forall e :: e in entries ==> cut < e.at
    ensures Replay(fs, entries, cut) == fs
    decreases entries
  {
    if entries != [] {
      assert entries[0] in entries;
      ReplayBeyondCut(fs, entries[1..], cut);
    }
  }

  /** The entries of a tree lie one after the other inside its stream. */
  lemma {:induction false} LayoutIsOrdered(t: Tree, dir: Path, start: nat)
    requires WellFormed(t)
    ensures var es := Layout(t, dir, start);
            && (forall e :: e in es ==> start + 2 * BOX <= e.at && e.at + e.Size() <= start + |Encode(t)|)
            && (forall i, j :: 0 <= i < j < |es| ==> es[i].at + es[i].Size() < es[j].at)
    decreases t, 1
  {
    if t.Dir? {
      LayoutKidsIsOrdered(t.kids, dir + [t.name], start + 2 * BOX);
    }
  }

  lemma {:induction false} LayoutKidsIsOrdered(kids: seq<Tree>, dir: Path, start: nat)
    requires forall k :: k in kids ==> WellFormed(k)
    ensures var es := LayoutKids(kids, dir, start);
            && (forall e :: e in es ==> start + 2 * BOX < e.at && e.at + e.Size() <= start + |EncodeKids(kids)|)
            && (forall i, j :: 0 <= i < j < |es| ==> es[i].at + es[i].Size() < es[j].at)
    decreases kids, 0
  {
    if kids != [] {
      hide Encode, Layout, FlagBytes, WellFormed;
      LayoutIsOrdered(kids[0], dir, start + FLAG);
      LayoutKidsIsOrdered(kids[1..], dir, start + FLAG + |Encode(kids[0])|);
      JoinOrdered(Layout(kids[0], dir, start + FLAG), LayoutKids(kids[1..], dir, start + FLAG + |Encode(kids[0])|),
                  start + 2 * BOX, start + FLAG + |Encode(kids[0])|, start + |EncodeKids(kids)|);
    }
  }

  lemma JoinOrdered(a: seq<Placed>, b: seq<Placed>, low: nat, middle: nat, high: nat)
    requires low <= middle <= high
    requires forall e :: e in a ==> low < e.at && e.at + e.Size() <= middle
    requires forall e :: e in b ==> middle < e.at && e.at + e.Size() <= high
    requires forall i, j :: 0 <= i < j < |a| ==> a[i].at + a[i].Size() < a[j].at
    requires forall i, j :: 0 <= i < j < |b| ==> b[i].at + b[i].Size() < b[j].at
    ensures forall e :: e in a + b ==> low < e.at && e.at + e.Size() <= high
    ensures forall i, j :: 0 <= i < j < |a + b| ==> (a + b)[i].at + (a + b)[i].Size() < (a + b)[j].at
  {
    forall i, j | 0 <= i < j < |a + b| ensures (a + b)[i].at + (a + b)[i].Size() < (a + b)[j].at {
      assert i < |a| ==> (a + b)[i] in a;
      assert j >= |a| ==> (a + b)[j] in b;
    }
  }

  // The receiver on a prefix of the stream.

  lemma {:induction false} BodyCut(x: seq<Byte>, fs: Fs, p: Path, had: seq<Byte>, content: seq<Byte>)
    requires x <= content && |x| < |content|
    requires p in fs && fs[p] == Blob(had)
    ensures RecvBody(Conn(x, false, fs), p, |content|)
         == (Failed, Conn([], true, fs[p := Blob(had + Kept(content, |x|))]))
    decreases |content|
  {
    var n := Min(|content|, SIZE);
    if |x| < n {
      assert |x| / SIZE == 0;
      assert had + content[..0] == had;
      assert fs[p := Blob(had)] == fs;
    } else {
      var chunk, later, y := content[..n], content[n..], x[n..];
      var fs1 := Append(fs, p, chunk);
      assert x == chunk + y;
      TakeFront(chunk, y, fs);
      assert fs1 == fs[p := Blob(had + chunk)];
      BodyCut(y, fs1, p, had + chunk, later);
      KeptFromSecondChunk(content, |x|);
      Assoc(had, chunk, Kept(later, |y|));
      assert fs1[p := Blob(had + Kept(content, |x|))] == fs[p := Blob(had + Kept(content, |x|))];
    }
  }

  lemma KeptFromSecondChunk(content: seq<Byte>, n: nat)
    requires SIZE <= n < |content|
    ensures Kept(content, n) == content[..SIZE] + Kept(content[SIZE..], n - SIZE)
  {
    var q := n / SIZE;
    assert (n - SIZE) / SIZE == q - 1;
    assert content[..q * SIZE] == content[..SIZE] + content[SIZE..][..(q - 1) * SIZE];
  }

  /** A prefix of a concatenation lies in the first part or reaches into the second. */
  lemma PrefixOfConcat(x: seq<Byte>, a: seq<Byte>, b: seq<Byte>)
    requires x <= a + b
    ensures |x| < |a| ==> x <= a
    ensures |a| <= |x| ==> x == a + x[|a|..] && x[|a|..] <= b
  {
    if |x| < |a| {
      assert x == (a + b)[..|x|] == a[..|x|];
    } else {
      assert x == (a + b)[..|x|] == a + b[..|x| - |a|];
    }
  }

  /** A cut before the header of an entry ends leaves no trace of it. */
  lemma OpeningCut(x: seq<Byte>, t: Tree, fs: Fs, dir: Path, top: Option<Name>)
    requires WellFormed(t) && x <= Encode(t) && |x| < 2 * BOX
    ensures RecvTree(Conn(x, false, fs), dir, top) == (Failed, Conn([], true, fs))
  {
    if BOX <= |x| {
      var m := MessageBox(SUCCESS);
      EncodeParts(t, []);
      Assoc(m, HeaderOf(t), Payload(t));
      assert Encode(t) == m + (HeaderOf(t) + Payload(t));
      PrefixOfConcat(x, m, HeaderOf(t) + Payload(t));
      TakeFront(m, x[BOX..], fs);
    }
  }

  /**
    The receiver of a cut stream: exactly the entries that were announced before the cut, in the order of the stream.
   */
  lemma {:induction false} CutTree(x: seq<Byte>, t: Tree, fs: Fs, dir: Path, start: nat)
    requires WellFormed(t) && x <= Encode(t) && |x| < |Encode(t)|
    requires IsFolder(fs, dir) && Vacant(fs, dir + [t.name])
    ensures RecvTree(Conn(x, false, fs), dir, None)
         == (Failed, Conn([], true, Replay(fs, Layout(t, dir, start), start + |x|)))
    decreases t, 1
  {
    hide RecvTree, RecvKids, RecvBody, Replay, MessageBox, HeaderBox;
    if |x| < 2 * BOX {
      OpeningCut(x, t, fs, dir, None);
      LayoutIsOrdered(t, dir, start);
      ReplayBeyondCut(fs, Layout(t, dir, start), start + |x|);
    } else {
      var y := x[2 * BOX..];
      assert Encode(t) == Opening(t) + Payload(t);
      PrefixOfConcat(x, Opening(t), Payload(t));
      assert x == Opening(t) + y;
      if t.File? {
        CutContent(y, t, fs, dir, start);
      } else {
        CutPayload(y, t, fs, dir, start);
      }
    }
  }

  lemma {:induction false} CutPayload(y: seq<Byte>, t: Tree, fs: Fs, dir: Path, start: nat)
    requires t.Dir? && WellFormed(t) && y <= EncodeKids(t.kids) && |y| < |EncodeKids(t.kids)|
    requires IsFolder(fs, dir) && Vacant(fs, dir + [t.name])
    ensures RecvTree(Conn(Opening(t) + y, false, fs), dir, None)
         == (Failed, Conn([], true, Replay(fs, Layout(t, dir, start), start + 2 * BOX + |y|)))
    decreases t, 0
  {
    hide RecvTree, RecvKids, RecvBody, Replay, MessageBox, HeaderBox;
    var p := dir + [t.name];
    PastOpening(t, y, fs, dir);
    NewFolderIsEmpty(fs, p, t.kids);
    ReplayOfDir(t, fs, dir, start, start + 2 * BOX + |y|);
    CutKids(y, t.kids, fs[p := Folder], p, start + 2 * BOX);
  }

  lemma ReplayOfDir(t: Tree, fs: Fs, dir: Path, start: nat, cut: nat)
    requires t.Dir? && WellFormed(t) && start + 2 * BOX <= cut
    ensures Replay(fs, Layout(t, dir, start), cut)
         == Replay(fs[dir + [t.name] := Folder], LayoutKids(t.kids, dir + [t.name], start + 2 * BOX), cut)
  {
    var es := LayoutKids(t.kids, dir + [t.name], start + 2 * BOX);
    assert Layout(t, dir, start)[1..] == es;
  }

  lemma CutContent(y: seq<Byte>, t: Tree, fs: Fs, dir: Path, start: nat)
    requires t.File? && WellFormed(t) && y <= t.content && |y| < |t.content|
    requires IsFolder(fs, dir) && Vacant(fs, dir + [t.name])
    ensures RecvTree(Conn(Opening(t) + y, false, fs), dir, None)
         == (Failed, Conn([], true, Replay(fs, Layout(t, dir, start), start + 2 * BOX + |y|)))
  {
    var p := dir + [t.name];
    PastOpening(t, y, fs, dir);
    var fs1, kept := fs[p := Blob([])], Kept(t.content, |y|);
    BodyCut(y, fs1, p, [], t.content);
    assert [] + kept == kept;
    assert fs1[p := Blob(kept)] == fs[p := Blob(kept)];
    assert Layout(t, dir, start)[1..] == [];
  }

  lemma {:induction false} CutKids(x: seq<Byte>, kids: seq<Tree>, fs: Fs, dir: Path, start: nat)
    requires DistinctNames(kids) && forall k :: k in kids ==> WellFormed(k)
    requires x <= EncodeKids(kids) && |x| < |EncodeKids(kids)|
    requires IsFolder(fs, dir) && forall k :: k in kids ==> Vacant(fs, dir + [k.name])
    ensures RecvKids(Conn(x, false, fs), dir)
         == (Failed, Conn([], true, Replay(fs, LayoutKids(kids, dir, start), start + |x|)))
    decreases kids, 0, 1
  {
    hide RecvTree, RecvKids, RecvBody, Replay, MessageBox, HeaderBox, EncodeKids, AfterFlag, LayoutKids, Vacant;
    if |x| < FLAG {
      FlagCut(x, kids, fs, dir, start);
    } else {
      KidsWithoutRest(kids);
      PrefixOfConcat(x, NextFlag(kids), AfterFlag(kids, []));
      var y := x[FLAG..];
      assert x == NextFlag(kids) + y;
      PrefixOfConcat(y, Encode(kids[0]), EncodeKids(kids[1..]));
      if |y| < |Encode(kids[0])| {
        PastFlag(kids, y, fs, dir);
        CutTree(y, kids[0], fs, dir, start + FLAG);
        ReplayFirst(kids, fs, dir, start, start + |x|);
      } else {
        CutLaterKids(y[|Encode(kids[0])|..], kids, fs, dir, start);
      }
    }
  }

  /** A cut inside a flag: no child is announced. */
  lemma FlagCut(x: seq<Byte>, kids: seq<Tree>, fs: Fs, dir: Path, start: nat)
    requires |x| < FLAG && forall k :: k in kids ==> WellFormed(k)
    ensures RecvKids(Conn(x, false, fs), dir)
         == (Failed, Conn([], true, Replay(fs, LayoutKids(kids, dir, start), start + |x|)))
  {
    LayoutKidsIsOrdered(kids, dir, start);
    ReplayBeyondCut(fs, LayoutKids(kids, dir, start), start + |x|);
  }

  lemma {:induction false} CutLaterKids(z: seq<Byte>, kids: seq<Tree>, fs: Fs, dir: Path, start: nat)
    requires kids != [] && DistinctNames(kids) && forall k :: k in kids ==> WellFormed(k)
    requires z <= EncodeKids(kids[1..]) && |z| < |EncodeKids(kids[1..])|
    requires IsFolder(fs, dir) && forall k :: k in kids ==> Vacant(fs, dir + [k.name])
    ensures RecvKids(Conn(NextFlag(kids) + (Encode(kids[0]) + z), false, fs), dir)
         == (Failed, Conn([], true, Replay(fs, LayoutKids(kids, dir, start), start + FLAG + |Encode(kids[0])| + |z|)))
    decreases kids, 0, 0
  {
    hide RecvTree, RecvKids, RecvBody, Replay, MessageBox, HeaderBox;
    var here := start + FLAG + |Encode(kids[0])|;
    PastFlag(kids, Encode(kids[0]) + z, fs, dir);
    RoundTrip(kids[0], z, fs, dir);
    PastKid(fs, dir, kids);
    CutKids(z, kids[1..], Install(fs, dir, kids[0]), dir, here);
    ReplayPastFirst(kids, fs, dir, start, here + |z|);
  }

  /** A cut inside the first child: the others leave no trace. */
  lemma ReplayFirst(kids: seq<Tree>, fs: Fs, dir: Path, start: nat, cut: nat)
    requires kids != [] && forall k :: k in kids ==> WellFormed(k)
    requires cut < start + FLAG + |Encode(kids[0])|
    ensures Replay(fs, LayoutKids(kids, dir, start), cut) == Replay(fs, Layout(kids[0], dir, start + FLAG), cut)
  {
    hide Encode, Replay, Layout, WellFormed;
    var here := start + FLAG;
    var a, b := Layout(kids[0], dir, here), LayoutKids(kids[1..], dir, here + |Encode(kids[0])|);
    ReplayConcat(fs, a, b, cut);
    LayoutKidsIsOrdered(kids[1..], dir, here + |Encode(kids[0])|);
    ReplayBeyondCut(Replay(fs, a, cut), b, cut);
  }

  /** A cut behind the first child: it is complete. */
  lemma ReplayPastFirst(kids: seq<Tree>, fs: Fs, dir: Path, start: nat, cut: nat)
    requires kids != [] && forall k :: k in kids ==> WellFormed(k)
    requires start + FLAG + |Encode(kids[0])| <= cut
    ensures Replay(fs, LayoutKids(kids, dir, start), cut)
         == Replay(Install(fs, dir, kids[0]), LayoutKids(kids[1..], dir, start + FLAG + |Encode(kids[0])|), cut)
  {
    hide Encode, Replay, Layout, WellFormed;
    var here := start + FLAG;
    ReplayConcat(fs, Layout(kids[0], dir, here), LayoutKids(kids[1..], dir, here + |Encode(kids[0])|), cut);
    ReplayComplete(fs, kids[0], dir, here, cut);
  }

  lemma KidsWithoutRest(kids: seq<Tree>)
    requires forall k :: k in kids ==> WellFormed(k)
    ensures EncodeKids(kids) == NextFlag(kids) + AfterFlag(kids, [])
    ensures kids == [] ==> |EncodeKids(kids)| == FLAG
    ensures kids != [] ==> AfterFlag(kids, []) == Encode(kids[0]) + EncodeKids(kids[1..])
  {
    EncodeKidsParts(kids, []);
    assert EncodeKids(kids) + [] == EncodeKids(kids);
    if kids != [] {
      assert EncodeKids(kids[1..]) + [] == EncodeKids(kids[1..]);
    }
  }

  /** Past the end of a tree's stream, the entries are the tree. */
  lemma {:induction false} ReplayComplete(fs: Fs, t: Tree, dir: Path, start: nat, cut: nat)
    requires WellFormed(t) && start + |Encode(t)| <= cut
    ensures Replay(fs, Layout(t, dir, start), cut) == Install(fs, dir, t)
    decreases t, 1
  {
    if t.Dir? {
      ReplayOfDir(t, fs, dir, start, cut);
      ReplayKidsComplete(fs[dir + [t.name] := Folder], t.kids, dir + [t.name], start + 2 * BOX, cut);
    }
  }

  lemma {:induction false} ReplayKidsComplete(fs: Fs, kids: seq<Tree>, dir: Path, start: nat, cut: nat)
    requires (forall k :: k in kids ==> WellFormed(k)) && start + |EncodeKids(kids)| <= cut
    ensures Replay(fs, LayoutKids(kids, dir, start), cut) == InstallKids(fs, dir, kids)
    decreases kids, 0
  {
    if kids != [] {
      var a, b := Layout(kids[0], dir, start + FLAG), LayoutKids(kids[1..], dir, start + FLAG + |Encode(kids[0])|);
      ReplayConcat(fs, a, b, cut);
      ReplayComplete(fs, kids[0], dir, start + FLAG, cut);
      ReplayKidsComplete(Install(fs, dir, kids[0]), kids[1..], dir, start + FLAG + |Encode(kids[0])|, cut);
    }
  }

  /**
    `m` entries of the list lie before the cut: all but the last of them completely, the last one up to a whole number
    of chunks; no later entry has left a trace.
   */
  ghost predicate TruncatedAt(es: seq<Placed>, cut: nat, m: nat) {
    && m <= |es|
    && (forall i :: 0 <= i < m ==> es[i].at <= cut)
    && (forall i :: m <= i < |es| ==> cut < es[i].at)
    && (forall i :: 0 <= i < m - 1 ==> es[i].at + es[i].Size() <= cut)
  }

  /** What that means for the disk: each of the first `m` entries as far as it arrived, and none of the others. */
  ghost predicate PreorderTruncation(es: seq<Placed>, cut: nat, m: nat, disk: Fs) {
    && TruncatedAt(es, cut, m)
    && (forall i :: 0 <= i < m ==> es[i].path in disk && disk[es[i].path] == es[i].Until(cut))
    && (forall i :: m <= i < |es| ==> es[i].path !in disk)
  }

  /** All entries of a tree have different places, all of them at or below that of the tree. */
  lemma {:induction false} LayoutPaths(t: Tree, dir: Path, start: nat)
    requires WellFormed(t)
    ensures var es := Layout(t, dir, start);
            && (forall e :: e in es ==> dir + [t.name] <= e.path)
            && (forall i, j :: 0 <= i < j < |es| ==> es[i].path != es[j].path)
    decreases t, 1
  {
    hide Encode;
    if t.Dir? {
      var p, here := dir + [t.name], start + 2 * BOX;
      LayoutKidsPaths(t.kids, p, here);
      var es, ks := Layout(t, dir, start), LayoutKids(t.kids, p, here);
      assert es == [es[0]] + ks;
      PathsInFront(es[0], ks);
    }
  }

  lemma PathsInFront(first: Placed, later: seq<Placed>)
    requires forall e :: e in later ==> e.path != first.path
    requires forall i, j :: 0 <= i < j < |later| ==> later[i].path != later[j].path
    ensures var es := [first] + later; forall i, j :: 0 <= i < j < |es| ==> es[i].path != es[j].path
  {
    var es := [first] + later;
    forall i, j | 0 <= i < j < |es| ensures es[i].path != es[j].path {
      assert es[j] == later[j - 1] && later[j - 1] in later;
      assert i > 0 ==> es[i] == later[i - 1];
    }
  }

  predicate BelowKid(kids: seq<Tree>, dir: Path, q: Path) {
    exists k :: k in kids && dir + [k.name] <= q
  }

  lemma {:induction false} LayoutKidsPaths(kids: seq<Tree>, dir: Path, start: nat)
    requires DistinctNames(kids) && forall k :: k in kids ==> WellFormed(k)
    ensures var es := LayoutKids(kids, dir, start);
            && (forall e :: e in es ==> dir <= e.path && |dir| < |e.path| && BelowKid(kids, dir, e.path))
            && (forall i, j :: 0 <= i < j < |es| ==> es[i].path != es[j].path)
    decreases kids, 0
  {
    hide Encode, Layout;
    if kids != [] {
      var a, b := Layout(kids[0], dir, start + FLAG), LayoutKids(kids[1..], dir, start + FLAG + |Encode(kids[0])|);
      LayoutPaths(kids[0], dir, start + FLAG);
      LayoutKidsPaths(kids[1..], dir, start + FLAG + |Encode(kids[0])|);
      forall e | e in a ensures dir <= e.path && |dir| < |e.path| && BelowKid(kids, dir, e.path) {
        assert dir + [kids[0].name] <= e.path && kids[0] in kids;
      }
      forall e | e in b ensures BelowKid(kids, dir, e.path) && !(dir + [kids[0].name] <= e.path) {
        var k :| k in kids[1..] && dir + [k.name] <= e.path;
        assert k in kids && k.name != kids[0].name;
        SiblingsAreApart(dir, k.name, kids[0].name, e.path);
      }
      forall i, j | 0 <= i < j < |a + b| ensures (a + b)[i].path != (a + b)[j].path {
        if i < |a| <= j {
          assert a[i] in a && b[j - |a|] in b;
        }
      }
    }
  }

  /** A replay of entries with different places writes each of them once. */
  lemma {:induction false} ReplayIsPointwise(fs: Fs, es: seq<Placed>, cut: nat)
    requires forall i, j :: 0 <= i < j < |es| ==> es[i].path != es[j].path
    ensures var disk := Replay(fs, es, cut);
            && (forall i :: 0 <= i < |es| && es[i].at <= cut ==>
                  es[i].path in disk && disk[es[i].path] == es[i].Until(cut))
            && (forall q :: (forall i :: 0 <= i < |es| && es[i].at <= cut ==> es[i].path != q) ==>
                  (q in disk <==> q in fs) && (q in fs ==> disk[q] == fs[q]))
    decreases es
  {
    if es != [] {
      var e, later := es[0], es[1..];
      var fs1 := if e.at <= cut then fs[e.path := e.Until(cut)] else fs;
      ReplayIsPointwise(fs1, later, cut);
      assert forall i :: 0 <= i < |later| ==> later[i] == es[i + 1];
    }
  }

  /** The disk after a cut: the layout of the tree, replayed where there was nothing. */
  lemma ReplayOnVacantPlace(fs: Fs, t: Tree, dir: Path, start: nat, cut: nat, m: nat)
    requires WellFormed(t) && Vacant(fs, dir + [t.name]) && TruncatedAt(Layout(t, dir, start), cut, m)
    ensures PreorderTruncation(Layout(t, dir, start), cut, m, Replay(fs, Layout(t, dir, start), cut))
  {
    hide Layout, Replay;
    var es := Layout(t, dir, start);
    LayoutPaths(t, dir, start);
    ReplayIsPointwise(fs, es, cut);
    forall j | m <= j < |es| ensures es[j].path !in Replay(fs, es, cut) {
      assert es[j] in es;
      assert es[j].path !in fs;
    }
  }

  lemma {:induction false} SomeTruncation(es: seq<Placed>, cut: nat) returns (m: nat)
    requires forall i, j :: 0 <= i < j < |es| ==> es[i].at + es[i].Size() < es[j].at
    ensures TruncatedAt(es, cut, m)
  {
    m := 0;
    while m < |es| && es[m].at <= cut
      invariant m <= |es|
      invariant forall i :: 0 <= i < m ==> es[i].at <= cut
    {
      m := m + 1;
    }
    forall i | 0 <= i < m - 1 ensures es[i].at + es[i].Size() <= cut {
      assert es[i].at + es[i].Size() < es[m - 1].at;
    }
    forall i | m <= i < |es| ensures cut < es[i].at {
      assert m < i ==> es[m].at + es[m].Size() < es[i].at;
    }
  }

  /**
    The cut theorem for a dump: whatever the byte after which the connection breaks, the server is left with a
    pre-order truncation of the tree, and `writeDir` reports failure.
   */
  lemma CutDump(x: seq<Byte>, t: Tree, fs: Fs, cwd: Path, client: Name) returns (m: nat)
    requires WellFormed(t) && t.Dir? && x <= Encode(t) && |x| < |Encode(t)|
    requires HomeUsable(fs, cwd, client) && Vacant(fs, cwd + [client] + [t.name])
    ensures var home := cwd + [client];
            var es := Layout(t, home, 0);
            var fs1 := if |x| < 2 * BOX then fs else fs[home := Folder];
            && RecvTree(Conn(x, false, fs), cwd, Some(client)) == (Failed, Conn([], true, Replay(fs1, es, |x|)))
            && PreorderTruncation(es, |x|, m, Replay(fs1, es, |x|))
  {
    var home := cwd + [client];
    LayoutIsOrdered(t, home, 0);
    m := SomeTruncation(Layout(t, home, 0), |x|);
    assert !(home + [t.name] <= home);
    ReplayOnVacantPlace(if |x| < 2 * BOX then fs else fs[home := Folder], t, home, 0, |x|, m);
    if |x| < 2 * BOX {
      OpeningCut(x, t, fs, cwd, Some(client));
      ReplayBeyondCut(fs, Layout(t, home, 0), |x|);
    } else {
      assert Encode(t) == Opening(t) + Payload(t);
      PrefixOfConcat(x, Opening(t), Payload(t));
      PastTopOpening(t, x[2 * BOX..], fs, cwd, client);
      PastOpening(t, x[2 * BOX..], fs[home := Folder], home);
      CutTree(x, t, fs[home := Folder], home, 0);
    }
  }

  lemma NoMoreDumps(fs: Fs, cwd: Path, client: Name)
    ensures RecvRounds(Conn([], false, fs), cwd, client) == (Conn([], true, fs), 1)
  {
  }

  /** A prefix of the streams of several rounds is whole streams and a proper prefix of the next. */
  lemma {:induction false} WholeStreams(x: seq<Byte>, dumps: seq<Tree>) returns (done: nat, y: seq<Byte>)
    requires (forall t :: t in dumps ==> WellFormed(t)) && x <= EncodeAll(dumps)
    ensures done <= |dumps| && x == EncodeAll(dumps[..done]) + y
    ensures if done == |dumps| then y == [] else y <= Encode(dumps[done]) && |y| < |Encode(dumps[done])|
    decreases |dumps|
  {
    hide Encode;
    if dumps == [] {
      done, y := 0, [];
    } else {
      var first := dumps[0];
      PrefixOfConcat(x, Encode(first), EncodeAll(dumps[1..]));
      if |x| < |Encode(first)| {
        done, y := 0, x;
        assert dumps[..0] == [] && [] + x == x;
      } else {
        var later;
        later, y := WholeStreams(x[|Encode(first)|..], dumps[1..]);
        done := later + 1;
        assert dumps[..done][1..] == dumps[1..][..later];
        Assoc(Encode(first), EncodeAll(dumps[1..][..later]), y);
      }
    }
  }

  /**
    A connection that breaks after any number of bytes of any number of rounds: `done` dumps are complete, and the next
    one is a pre-order truncation of which `m` entries have left a trace.
   */
  lemma CutSession(x: seq<Byte>, dumps: seq<Tree>, fs: Fs, cwd: Path, client: Name)
    returns (done: nat, m: nat)
    requires Dumps(fs, cwd, client, dumps) && x <= EncodeAll(dumps)
    ensures done <= |dumps|
    ensures var (c, rounds) := RecvRounds(Conn(x, false, fs), cwd, client);
            var before := InstallDumps(fs, cwd, client, dumps[..done]);
            && rounds == done + 1
            && if done == |dumps| then x == EncodeAll(dumps) && c.fs == before
               else
                 var cut := |x| - |EncodeAll(dumps[..done])|;
                 var es := Layout(dumps[done], cwd + [client], 0);
                 && 0 <= cut < |Encode(dumps[done])|
                 && c.fs == Replay(if cut < 2 * BOX then before else before[cwd + [client] := Folder], es, cut)
                 && PreorderTruncation(es, cut, m, c.fs)
  {
    hide RecvTree, Replay, Layout, InstallDumps, Encode, EncodeAll, HomeUsable, Vacant, PreorderTruncation;
    var y;
    done, y := WholeStreams(x, dumps);
    var before := InstallDumps(fs, cwd, client, dumps[..done]);
    assert forall t :: t in dumps[..done] ==> t in dumps;
    WholeRounds(dumps[..done], y, fs, cwd, client);
    m := 0;
    if done == |dumps| {
      NoMoreDumps(before, cwd, client);
      assert dumps[..done] == dumps && EncodeAll(dumps) + [] == EncodeAll(dumps);
    } else {
      var t := dumps[done];
      assert t in dumps;
      RoomForNext(fs, cwd, client, dumps[..done], t.name);
      m := CutDump(y, t, before, cwd, client);
    }
  }
}
