/** There is always a new name for the directory of the next round. */
module FreshNames {
  import opened Bytes
  import opened FileTree
  import opened Session

  function Pow10(n: nat): (p: nat)
    ensures p > 0
  {
    if n == 0 then 1 else 10 * Pow10(n - 1)
  }

  lemma {:induction false} DecimalIsShort(n: nat, k: nat)
    requires 0 < k && n < Pow10(k)
    ensures |Decimal(n)| <= k
  {
    if n >= 10 {
      DecimalIsShort(n / 10, k - 1);
    }
  }

  lemma {:induction false} SmallerSet<T>(a: set<T>, b: set<T>)
    requires a <= b
    ensures |a| <= |b|
    decreases |b|
  {
    if x :| x in a {
      SmallerSet(a - {x}, b - {x});
    }
  }

  function NamesAt(keys: set<Path>, depth: nat): set<Name> {
    set p | p in keys && depth < |p| :: p[depth]
  }

  lemma {:induction false} NotMoreNamesThanPaths(keys: set<Path>, depth: nat)
    ensures |NamesAt(keys, depth)| <= |keys|
    decreases |keys|
  {
    if p :| p in keys {
      NotMoreNamesThanPaths(keys - {p}, depth);
      var fewer := NamesAt(keys - {p}, depth);
      if depth < |p| {
        SmallerSet(NamesAt(keys, depth), fewer + {p[depth]});
      } else {
        SmallerSet(NamesAt(keys, depth), fewer);
      }
    }
  }

  function NamesOf(trees: seq<Tree>): set<Name> {
    set t | t in trees :: t.name
  }

  lemma {:induction false} NotMoreNamesThanTrees(trees: seq<Tree>)
    ensures |NamesOf(trees)| <= |trees|
    decreases |trees|
  {
    if trees != [] {
      NotMoreNamesThanTrees(trees[1..]);
      SmallerSet(NamesOf(trees), NamesOf(trees[1..]) + {trees[0].name});
    }
  }

  /** Of the first numbers, one more than there are names in use, one is free as a name. */
  lemma SomeNumberIsFree(used: set<Name>) returns (n: nat)
    ensures n <= |used| && Decimal(n) !in used
  {
    n := 0;
    var seen: set<Name> := {};
    while Decimal(n) in used
      invariant seen <= used && |seen| == n
      invariant seen == set i | 0 <= i < n :: Decimal(i)
      decreases |used| - n
    {
      forall i | 0 <= i < n ensures Decimal(i) != Decimal(n) {
        if Decimal(i) == Decimal(n) {
          DecimalIsInjective(i, n);
        }
      }
      assert (set i | 0 <= i < n + 1 :: Decimal(i)) == seen + {Decimal(n)};
      seen := seen + {Decimal(n)};
      SmallerSet(seen, used);
      n := n + 1;
    }
    SmallerSet(seen, used);
  }

  /**
    A client that holds the signal can start a round: as long as the paths on the disk and the rounds so far are
    fewer than the numbers of `k` digits, with `k` below the length of a name, some number is a new name.
   */
  lemma SomeRoundCanStart(u: Setup, s: State, k: nat) returns (t: Tree)
    requires 0 < k < SIZE && |u.base| + |s.sent| < Pow10(k)
    ensures Fresh(u, s, t)
    ensures s.client == Listening(Signal()) ==> Enabled(u, s, ClientStarts(t))
  {
    var home := u.cwd + [u.client];
    var taken, sent := NamesAt(u.base.Keys, |home|), NamesOf(s.sent);
    NotMoreNamesThanPaths(u.base.Keys, |home|);
    NotMoreNamesThanTrees(s.sent);
    var n := SomeNumberIsFree(taken + sent);
    DecimalIsShort(n, k);
    var name := Decimal(n);
    t := Dir(name, []);
    assert name[0] in name && ValidName(name);
    assert forall q :: q in u.base && |home| < |q| ==> q[|home|] in taken;
    forall q | home + [name] <= q ensures q !in u.base {
      assert q[|home|] == (home + [name])[|home|] == name;
    }
    forall v | v in s.sent ensures v.name != name {
      assert v.name in sent;
    }
  }
}
