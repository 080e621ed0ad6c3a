/** Bytes, C strings and the little-endian integers that both ends of the transfer put on the wire. */
module Bytes {

  newtype Byte = b: int | 0 <= b < 256

  datatype Option<+T> = None | Some(value: T)

  /** The buffers of the transfer are 16 KB long, and so is the data part of a box. */
  const SIZE: nat := 16384

  function Min(a: nat, b: nat): nat {
    if a < b then a else b
  }

  function Zeros(n: nat): (z: seq<Byte>)
    ensures |z| == n
    ensures forall i :: 0 <= i < n ==> z[i] == 0
  {
    seq(n, _ => 0)
  }

  function Padded(text: seq<Byte>, n: nat): (p: seq<Byte>)
    requires |text| <= n
    ensures |p| == n
    ensures p[..|text|] == text
  {
    text + Zeros(n - |text|)
  }

  /** What a C function sees of a buffer: the bytes before the first NUL. */
  function CString(s: seq<Byte>): (text: seq<Byte>)
    ensures |text| <= |s| && 0 !in text
  {
    if s == [] || s[0] == 0 then [] else [s[0]] + CString(s[1..])
  }

  lemma {:induction false} CStringOfTerminated(text: seq<Byte>, n: nat)
    requires 0 !in text
    ensures CString(text + Zeros(n)) == text
  {
    var s := text + Zeros(n);
    if text == [] {
      assert n > 0 ==> s[0] == 0;
    } else {
      assert s[0] == text[0] && s[0] in text;
      assert s[1..] == text[1..] + Zeros(n);
      CStringOfTerminated(text[1..], n);
    }
  }

  function Pow256(n: nat): (p: nat)
    ensures p > 0
  {
    if n == 0 then 1 else 256 * Pow256(n - 1)
  }

  function LittleEndian(v: nat, n: nat): (s: seq<Byte>)
    ensures |s| == n
  {
    if n == 0 then [] else [(v % 256) as Byte] + LittleEndian(v / 256, n - 1)
  }

  function FromLittleEndian(s: seq<Byte>): nat {
    if s == [] then 0 else s[0] as nat + 256 * FromLittleEndian(s[1..])
  }

  lemma {:induction false} LittleEndianRoundTrip(v: nat, n: nat)
    requires v < Pow256(n)
    ensures FromLittleEndian(LittleEndian(v, n)) == v
  {
    if n > 0 {
      LittleEndianRoundTrip(v / 256, n - 1);
      var s := LittleEndian(v, n);
      assert s[1..] == LittleEndian(v / 256, n - 1);
    }
  }

  /** A separator that neither left part contains splits a string in one way only. */
  lemma SplitIsUnique(x: seq<Byte>, y: seq<Byte>, sep: Byte, u: seq<Byte>, v: seq<Byte>)
    requires sep !in x && sep !in y
    requires x + [sep] + u == y + [sep] + v
    ensures x == y && u == v
  {
    var l, r := x + [sep] + u, y + [sep] + v;
    assert l[|x|] == sep && r[|y|] == sep;
    assert forall i :: 0 <= i < |x| ==> l[i] == x[i] != sep;
    assert forall i :: 0 <= i < |y| ==> r[i] == y[i] != sep;
    SameSplit(x + [sep], y + [sep], u, v);
    assert x == (x + [sep])[..|x|] == (y + [sep])[..|y|] == y;
  }

  lemma Assoc<T>(a: seq<T>, b: seq<T>, c: seq<T>)
    ensures (a + b) + c == a + (b + c)
  {
  }

  lemma SameSplit<T>(a: seq<T>, b: seq<T>, c: seq<T>, d: seq<T>)
    requires |a| == |b| && a + c == b + d
    ensures a == b && c == d
  {
    assert a == (a + c)[..|a|] == (b + d)[..|b|] == b;
    assert c == (a + c)[|a|..] == (b + d)[|b|..] == d;
  }

  /** The decimal digits of a number, as text. */
  function Decimal(n: nat): (s: seq<Byte>)
    ensures s != [] && forall d :: d in s ==> 48 <= d <= 57
  {
    var digit: seq<Byte> := [(48 + n % 10) as Byte];
    if n < 10 then digit else Decimal(n / 10) + digit
  }

  predicate Digits(s: seq<Byte>) {
    forall i :: 0 <= i < |s| ==> 48 <= s[i] <= 57
  }

  /** The number that is read from digits, from left to right, after those that made up `before`. */
  function ReadNumber(before: nat, s: seq<Byte>): nat
    requires Digits(s)
    decreases |s|
  {
    if s == [] then before else ReadNumber(10 * before + (s[0] as nat - 48), s[1..])
  }

  lemma {:induction false} ReadNumberOneMore(before: nat, s: seq<Byte>, d: Byte)
    requires Digits(s) && 48 <= d <= 57
    ensures Digits(s + [d])
    ensures ReadNumber(before, s + [d]) == 10 * ReadNumber(before, s) + (d as nat - 48)
    decreases |s|
  {
    if s != [] {
      assert (s + [d])[1..] == s[1..] + [d];
      ReadNumberOneMore(10 * before + (s[0] as nat - 48), s[1..], d);
    }
  }

  /** A text of digits that reads as `n`, without needless zeros in front. */
  predicate Numeral(s: seq<Byte>, n: nat) {
    s != [] && Digits(s) && ReadNumber(0, s) == n && (s[0] == 48 ==> s == [48])
  }

  lemma {:induction false} DecimalReads(n: nat)
    ensures Numeral(Decimal(n), n)
    ensures n > 0 ==> Decimal(n)[0] != 48
  {
    if n < 10 {
      OneDigit(n);
    } else {
      var front := Decimal(n / 10);
      DecimalReads(n / 10);
      ReadNumberOneMore(0, front, (48 + n % 10) as Byte);
      assert Decimal(n) == front + [(48 + n % 10) as Byte] && Decimal(n)[0] == front[0];
    }
  }

  lemma OneDigit(n: nat)
    requires n < 10
    ensures ReadNumber(0, [(48 + n) as Byte]) == n
  {
    assert [(48 + n) as Byte][1..] == [];
  }

  lemma DecimalIsInjective(m: nat, n: nat)
    requires Decimal(m) == Decimal(n)
    ensures m == n
  {
    DecimalReads(m);
    DecimalReads(n);
  }
}
