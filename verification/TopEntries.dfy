/** What the entry at the top of a dump may do to the server: end it, or go beside the directory of its client. */
module TopEntries {
  import opened Bytes
  import opened FileTree
  import opened Reception

  /** Everything on the disk is in a directory. */
  ghost predicate Rooted(fs: Fs) {
    forall q :: q in fs && q != [] ==> IsFolder(fs, q[..|q| - 1])
  }

  lemma {:induction false} FrontIsThere(fs: Fs, q: Path, k: nat)
    requires Rooted(fs) && q in fs && k <= |q|
    ensures q[..k] in fs && (k < |q| ==> IsFolder(fs, q[..k]))
    decreases |q| - k
  {
    if k < |q| {
      FrontIsThere(fs, q, k + 1);
      assert q[..k + 1][..k] == q[..k];
    } else {
      assert q[..k] == q;
    }
  }

  lemma NothingBelowNothing(fs: Fs, p: Path)
    requires Rooted(fs) && p !in fs
    ensures Vacant(fs, p)
  {
    forall q | q in fs ensures !(p <= q) {
      if |p| <= |q| {
        FrontIsThere(fs, q, |p|);
        assert p <= q <==> q[..|p|] == p;
      }
    }
  }

  /** What stands in the way of a dump: its directory exists, or that of its client is a file. */
  predicate Taken(fs: Fs, cwd: Path, client: Name, name: Name) {
    var home := cwd + [client];
    home in fs && (!IsFolder(fs, home) || home + [name] in fs)
  }

  /**
    A dump of a well-formed tree ends the whole server if and only
    if its directory cannot be made; else it is received.
   */
  lemma DumpEndsServerExactlyWhen(t: Tree, rest: seq<Byte>, fs: Fs, cwd: Path, client: Name)
    requires WellFormed(t) && t.Dir? && Rooted(fs) && IsFolder(fs, cwd)
    ensures var (code, c) := RecvTree(Conn(Encode(t) + rest, false, fs), cwd, Some(client));
            && (code == Exited <==> Taken(fs, cwd, client, t.name))
            && (code != Exited ==> code == Ok && c == Conn(rest, false, InstallTop(fs, cwd, client, t)))
  {
    var home := cwd + [client];
    if Taken(fs, cwd, client, t.name) {
      EncodeParts(t, rest);
      TakeOpening(t, Payload(t) + rest, fs);
    } else {
      assert (home + [t.name])[..|home|] == home;
      if home + [t.name] in fs {
        FrontIsThere(fs, home + [t.name], |home|);
      }
      NothingBelowNothing(fs, home + [t.name]);
      RoundTripTop(t, rest, fs, cwd, client);
    }
  }

  const C: Name := [99]
  const D: Name := [100]
  const TOP: Path := []

  /** A second dump with the name of the first: the server is gone. */
  lemma ReusedNameEndsServer()
    ensures var fs: Fs := map[TOP := Folder, [C] := Folder, [C, D] := Folder];
            WellFormed(Dir(D, [])) && RecvTree(Conn(Encode(Dir(D, [])), false, fs), TOP, Some(C)).0 == Exited
  {
    var fs: Fs := map[TOP := Folder, [C] := Folder, [C, D] := Folder];
    assert TOP + [C] == [C] && [C] + [D] == [C, D] && [C][..0] == TOP && [C, D][..1] == [C];
    forall q | q in fs && q != [] ensures IsFolder(fs, q[..|q| - 1]) {
      assert q == [C] || q == [C, D];
    }
    DumpEndsServerExactlyWhen(Dir(D, []), [], fs, TOP, C);
    assert Encode(Dir(D, [])) + [] == Encode(Dir(D, []));
  }

  /** A file at the top is written into the directory of the server, whichever client sends it. */
  lemma TopFileGoesBeside(t: Tree, rest: seq<Byte>, fs: Fs, cwd: Path, client: Name)
    requires WellFormed(t) && t.File? && CanOpen(fs, cwd, t.name)
    ensures RecvTree(Conn(Encode(t) + rest, false, fs), cwd, Some(client))
         == (Ok, Conn(rest, false, fs[cwd + [t.name] := Blob(t.content)]))
  {
    var p := cwd + [t.name];
    EncodeParts(t, rest);
    TakeOpening(t, Payload(t) + rest, fs);
    var fs1 := fs[p := Blob([])];
    RecvBodyOfContent(fs1, p, [], t.content, rest);
    assert [] + t.content == t.content;
    assert fs1[p := Blob(t.content)] == fs[p := Blob(t.content)];
  }

  /** One client's file replaces another's, though both have directories of their own. */
  lemma OneClientOverwritesAnother(other: Name)
    ensures var fs: Fs := map[TOP := Folder];
            var (first, second) := (File(D, [1]), File(D, [2]));
            && WellFormed(first) && WellFormed(second)
            && var c := RecvTree(Conn(Encode(first), false, fs), TOP, Some(C)).1;
               RecvTree(Conn(Encode(second), false, c.fs), TOP, Some(other)).1.fs == fs[[D] := Blob([2])]
  {
    var fs: Fs := map[TOP := Folder];
    var first, second := File(D, [1]), File(D, [2]);
    assert Pow256(8) >= Pow256(7) >= 256 * Pow256(6);
    TopFileGoesBeside(first, [], fs, TOP, C);
    var fs1 := fs[[D] := Blob([1])];
    assert TOP + [D] == [D] && [D] != TOP;
    TopFileGoesBeside(second, [], fs1, TOP, other);
    assert Encode(first) + [] == Encode(first) && Encode(second) + [] == Encode(second);
    assert fs1[[D] := Blob([2])] == fs[[D] := Blob([2])];
  }
}
