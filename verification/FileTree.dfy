/** File trees, the byte stream that stands for one, and the file system a tree is rebuilt in. */
module FileTree {
  import opened Bytes
  import opened Wire

  type Name = seq<Byte>
  type Path = seq<Name>

  const SLASH: Byte := 47
  const BACKSLASH: Byte := 92
  const DOT: Name := [46]
  const DOTDOT: Name := [46, 46]

  datatype Tree =
    | File(name: Name, content: seq<Byte>)
    | Dir(name: Name, kids: seq<Tree>)

  /** A single path component that fits the data part of a box with its terminator. */
  predicate ValidName(n: Name) {
    0 < |n| < SIZE && 0 !in n && SLASH !in n && BACKSLASH !in n && n != DOT && n != DOTDOT
  }

  predicate DistinctNames(kids: seq<Tree>) {
    forall i, j :: 0 <= i < j < |kids| ==> kids[i].name != kids[j].name
  }

  /** A snapshot of a directory tree as a file system can hold it. */
  predicate WellFormed(t: Tree) {
    && ValidName(t.name)
    && match t {
       case File(_, content) => |content| < Pow256(8)
       case Dir(_, kids) => DistinctNames(kids) && forall k :: k in kids ==> WellFormed(k)
       }
  }

  // The byte stream of a tree.

  function Encode(t: Tree): (s: seq<Byte>)
    requires WellFormed(t)
    ensures |s| >= 2 * BOX
    decreases t, 1
  {
    match t
    case File(name, content) =>
      MessageBox(SUCCESS) + HeaderBox(FILE, |content|, name) + content
    case Dir(name, kids) =>
      MessageBox(SUCCESS) + HeaderBox(DIR, 0, name) + EncodeKids(kids)
  }

  function EncodeKids(kids: seq<Tree>): (s: seq<Byte>)
    requires forall k :: k in kids ==> WellFormed(k)
    ensures |s| >= FLAG
    decreases kids, 0
  {
    if kids == [] then FlagBytes(0) else FlagBytes(1) + Encode(kids[0]) + EncodeKids(kids[1..])
  }

  // The receiving file system.

  datatype Entry = Folder | Blob(content: seq<Byte>)

  type Fs = map<Path, Entry>

  predicate IsFolder(fs: Fs, p: Path) {
    p in fs && fs[p] == Folder
  }

  /** Nothing is stored at `p` or below it. */
  ghost predicate Vacant(fs: Fs, p: Path) {
    forall q :: q in fs ==> !(p <= q)
  }

  predicate CanMkdir(fs: Fs, dir: Path, name: Name) {
    IsFolder(fs, dir) && dir + [name] !in fs
  }

  predicate CanOpen(fs: Fs, dir: Path, name: Name) {
    IsFolder(fs, dir) && !IsFolder(fs, dir + [name])
  }

  /** The file system after the whole tree was written below `dir`. */
  function Install(fs: Fs, dir: Path, t: Tree): Fs
    decreases t, 1
  {
    match t
    case File(name, content) => fs[dir + [name] := Blob(content)]
    case Dir(name, kids) => InstallKids(fs[dir + [name] := Folder], dir + [name], kids)
  }

  function InstallKids(fs: Fs, dir: Path, kids: seq<Tree>): Fs
    decreases kids, 0
  {
    if kids == [] then fs else InstallKids(Install(fs, dir, kids[0]), dir, kids[1..])
  }

  /** Installing a tree below `dir` touches nothing outside the place of the tree. */
  lemma {:induction false} InstallIsLocal(fs: Fs, dir: Path, t: Tree)
    ensures var fs' := Install(fs, dir, t);
            && fs.Keys <= fs'.Keys
            && dir + [t.name] in fs'
            && forall q :: q in fs' && !(dir + [t.name] <= q) ==> q in fs && fs'[q] == fs[q]
    decreases t, 1
  {
    match t
    case File(_, _) =>
    case Dir(name, kids) =>
      InstallKidsIsLocal(fs[dir + [name] := Folder], dir + [name], kids);
  }

  lemma {:induction false} InstallKidsIsLocal(fs: Fs, dir: Path, kids: seq<Tree>)
    ensures var fs' := InstallKids(fs, dir, kids);
            && fs.Keys <= fs'.Keys
            && forall q :: q in fs' && (forall k :: k in kids ==> !(dir + [k.name] <= q)) ==> q in fs && fs'[q] == fs[q]
    decreases kids, 0
  {
    if kids != [] {
      InstallIsLocal(fs, dir, kids[0]);
      InstallKidsIsLocal(Install(fs, dir, kids[0]), dir, kids[1..]);
      var fs' := InstallKids(fs, dir, kids);
      forall q | q in fs' && (forall k :: k in kids ==> !(dir + [k.name] <= q)) ensures q in fs && fs'[q] == fs[q] {
        assert kids[0] in kids;
        assert forall k :: k in kids[1..] ==> k in kids;
      }
    }
  }

  /** Two places below one directory that differ in the next component share no path. */
  lemma SiblingsAreApart(dir: Path, a: Name, b: Name, q: Path)
    requires a != b && dir + [a] <= q
    ensures !(dir + [b] <= q)
  {
    assert q[|dir|] == (dir + [a])[|dir|] == a;
    assert (dir + [b])[|dir|] == b;
  }

  /** A place that was free for several siblings stays free for the others after one was installed. */
  lemma VacancyKept(fs: Fs, dir: Path, t: Tree, other: Name)
    requires other != t.name && Vacant(fs, dir + [other])
    ensures Vacant(Install(fs, dir, t), dir + [other])
  {
    InstallIsLocal(fs, dir, t);
    forall q | q in Install(fs, dir, t) ensures !(dir + [other] <= q) {
      if dir + [t.name] <= q {
        SiblingsAreApart(dir, t.name, other, q);
      }
    }
  }

  // Self-delimitation.

  function KindOf(t: Tree): nat {
    if t.File? then FILE else DIR
  }

  function SizeOf(t: Tree): nat {
    if t.File? then |t.content| else 0
  }

  function HeaderOf(t: Tree): (box: seq<Byte>)
    requires WellFormed(t)
    ensures |box| == BOX
  {
    HeaderBox(KindOf(t), SizeOf(t), t.name)
  }

  /** The two boxes in front of every entry. */
  function Opening(t: Tree): (s: seq<Byte>)
    requires WellFormed(t)
    ensures |s| == 2 * BOX
  {
    MessageBox(SUCCESS) + HeaderOf(t)
  }

  function Payload(t: Tree): seq<Byte>
    requires WellFormed(t)
  {
    match t case File(_, content) => content case Dir(_, kids) => EncodeKids(kids)
  }

  lemma EncodeParts(t: Tree, r: seq<Byte>)
    requires WellFormed(t)
    ensures Encode(t) + r == Opening(t) + (Payload(t) + r)
  {
    Assoc(Opening(t), Payload(t), r);
  }

  /** The loop flag in front of the children still to come, and what follows it. */
  function NextFlag(kids: seq<Tree>): (s: seq<Byte>)
    ensures |s| == FLAG && FromLittleEndian(s) == if kids == [] then 0 else 1
  {
    FlagBytes(if kids == [] then 0 else 1)
  }

  function AfterFlag(kids: seq<Tree>, r: seq<Byte>): seq<Byte>
    requires forall k :: k in kids ==> WellFormed(k)
  {
    if kids == [] then r else Encode(kids[0]) + (EncodeKids(kids[1..]) + r)
  }

  lemma EncodeKidsParts(kids: seq<Tree>, r: seq<Byte>)
    requires forall k :: k in kids ==> WellFormed(k)
    ensures EncodeKids(kids) + r == NextFlag(kids) + AfterFlag(kids, r)
  {
    if kids != [] {
      Assoc(FlagBytes(1), Encode(kids[0]), EncodeKids(kids[1..]));
      Assoc(FlagBytes(1), Encode(kids[0]) + EncodeKids(kids[1..]), r);
      Assoc(Encode(kids[0]), EncodeKids(kids[1..]), r);
    }
  }

  lemma OpeningIsInjective(t: Tree, u: Tree)
    requires WellFormed(t) && WellFormed(u) && Opening(t) == Opening(u)
    ensures KindOf(t) == KindOf(u) && SizeOf(t) == SizeOf(u) && t.name == u.name
  {
    HeaderRoundTrip(KindOf(t), SizeOf(t), t.name);
    HeaderRoundTrip(KindOf(u), SizeOf(u), u.name);
    SameSplit(MessageBox(SUCCESS), MessageBox(SUCCESS), HeaderOf(t), HeaderOf(u));
  }

  /** A stream tells which tree it holds and where it ends: no two streams start alike. */
  lemma {:induction false} EncodeIsSelfDelimiting(t: Tree, u: Tree, r: seq<Byte>, s: seq<Byte>)
    requires WellFormed(t) && WellFormed(u)
    requires Encode(t) + r == Encode(u) + s
    ensures t == u && r == s
    decreases t, 1
  {
    EncodeParts(t, r);
    EncodeParts(u, s);
    SameSplit(Opening(t), Opening(u), Payload(t) + r, Payload(u) + s);
    OpeningIsInjective(t, u);
    if t.File? {
      SameSplit(t.content, u.content, r, s);
    } else {
      EncodeKidsIsSelfDelimiting(t.kids, u.kids, r, s);
    }
  }

  lemma {:induction false} EncodeKidsIsSelfDelimiting(ts: seq<Tree>, us: seq<Tree>, r: seq<Byte>, s: seq<Byte>)
    requires (forall k :: k in ts ==> WellFormed(k)) && forall k :: k in us ==> WellFormed(k)
    requires EncodeKids(ts) + r == EncodeKids(us) + s
    ensures ts == us && r == s
    decreases ts, 0
  {
    EncodeKidsParts(ts, r);
    EncodeKidsParts(us, s);
    SameSplit(NextFlag(ts), NextFlag(us), AfterFlag(ts, r), AfterFlag(us, s));
    if ts != [] {
      EncodeIsSelfDelimiting(ts[0], us[0], EncodeKids(ts[1..]) + r, EncodeKids(us[1..]) + s);
      EncodeKidsIsSelfDelimiting(ts[1..], us[1..], r, s);
      assert ts == [ts[0]] + ts[1..] && us == [us[0]] + us[1..];
    }
  }
}
