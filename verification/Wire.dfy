/** The fixed-size records of the transfer: `struct box` as both compilers lay it out, and the loop flags. */
module Wire {
  import opened Bytes

  /** A two-byte type, six bytes of padding, an eight-byte size and the data. */
  const BOX: nat := 16400

  const FLAG: nat := 4

  const FILE: nat := 0
  const DIR: nat := 1

  const SUCCESS: seq<Byte> := [115, 117, 99, 99, 101, 115, 115]
  const DUMP: seq<Byte> := [100, 117, 109, 112]

  function MessageBox(text: seq<Byte>): (box: seq<Byte>)
    requires |text| < BOX && 0 !in text
    ensures |box| == BOX && CString(box) == text
  {
    CStringOfTerminated(text, BOX - |text|);
    Padded(text, BOX)
  }

  function HeaderBox(kind: nat, size: nat, name: seq<Byte>): (box: seq<Byte>)
    requires |name| < SIZE
    ensures |box| == BOX
  {
    LittleEndian(kind, 2) + Zeros(6) + LittleEndian(size, 8) + Padded(name, SIZE)
  }

  function BoxKind(box: seq<Byte>): nat
    requires |box| == BOX
  {
    FromLittleEndian(box[..2])
  }

  function BoxSize(box: seq<Byte>): nat
    requires |box| == BOX
  {
    FromLittleEndian(box[8..16])
  }

  function BoxName(box: seq<Byte>): (name: seq<Byte>)
    requires |box| == BOX
    ensures 0 !in name && |name| <= SIZE
  {
    CString(box[16..])
  }

  lemma HeaderRoundTrip(kind: nat, size: nat, name: seq<Byte>)
    requires kind < 65536 && size < Pow256(8)
    requires |name| < SIZE && 0 !in name
    ensures var box := HeaderBox(kind, size, name);
            BoxKind(box) == kind && BoxSize(box) == size && BoxName(box) == name
  {
    var box := HeaderBox(kind, size, name);
    assert Pow256(2) == 65536;
    LittleEndianRoundTrip(kind, 2);
    LittleEndianRoundTrip(size, 8);
    CStringOfTerminated(name, SIZE - |name|);
    assert box[..2] == LittleEndian(kind, 2);
    assert box[8..16] == LittleEndian(size, 8);
    assert box[16..] == Padded(name, SIZE);
  }

  function FlagBytes(flag: nat): (s: seq<Byte>)
    requires flag < 2
    ensures |s| == FLAG && FromLittleEndian(s) == flag
  {
    assert Pow256(1) == 256;
    assert Pow256(2) == 65536;
    assert Pow256(4) == 65536 * Pow256(2);
    LittleEndianRoundTrip(flag, FLAG);
    LittleEndian(flag, FLAG)
  }

  // The same byte by byte.

  /** What the receiver reads out of any box. */
  lemma BoxByByte(box: seq<Byte>)
    requires |box| == 16400
    ensures BoxKind(box) == FILE <==> box[0] == 0 && box[1] == 0
    ensures BoxSize(box)
         == box[8] as nat + 0x100 * box[9] as nat + 0x1_0000 * box[10] as nat + 0x100_0000 * box[11] as nat
          + 0x1_0000_0000 * box[12] as nat + 0x100_0000_0000 * box[13] as nat
          + 0x1_0000_0000_0000 * box[14] as nat + 0x100_0000_0000_0000 * box[15] as nat
    ensures CString(box) == SUCCESS <==> box[..8] == [115, 117, 99, 99, 101, 115, 115, 0]
  {
    TwoInFront(box[..2]);
    FourInFront(box[8..16]);
    FourInFront(box[12..16]);
    assert box[8..16][4..] == box[12..16];
    TextOfBox(box);
  }

  lemma TwoInFront(s: seq<Byte>)
    requires 2 <= |s|
    ensures FromLittleEndian(s) == s[0] as nat + 0x100 * s[1] as nat + 0x1_0000 * FromLittleEndian(s[2..])
  {
    assert s[1..][1..] == s[2..];
    assert FromLittleEndian(s[1..]) == s[1] as nat + 256 * FromLittleEndian(s[2..]);
  }

  lemma FourInFront(s: seq<Byte>)
    requires 4 <= |s|
    ensures FromLittleEndian(s)
         == s[0] as nat + 0x100 * s[1] as nat + 0x1_0000 * s[2] as nat + 0x100_0000 * s[3] as nat
          + 0x1_0000_0000 * FromLittleEndian(s[4..])
  {
    TwoInFront(s);
    TwoInFront(s[2..]);
    assert s[2..][2..] == s[4..];
  }

  /** The text in front of the first NUL. */
  lemma {:induction false} CStringIs(s: seq<Byte>, text: seq<Byte>)
    requires 0 !in text && |text| < |s|
    ensures CString(s) == text <==> s[..|text| + 1] == text + [0]
    decreases |text|
  {
    if text == [] {
      assert s[..1] == [s[0]];
    } else {
      var rest := text[1..];
      assert text == [text[0]] + rest;
      assert s == [s[0]] + s[1..];
      CStringIs(s[1..], rest);
      assert s[..|text| + 1] == [s[0]] + s[1..][..|rest| + 1];
      assert text + [0] == [text[0]] + (rest + [0]);
    }
  }

  lemma TextOfBox(box: seq<Byte>)
    requires |box| == 16400
    ensures CString(box) == SUCCESS <==> box[..8] == [115, 117, 99, 99, 101, 115, 115, 0]
  {
    CStringIs(box, SUCCESS);
  }

  /** Of all flags only these four bytes announce an entry, and the sender uses these and four zeros. */
  lemma FlagByByte(s: seq<Byte>)
    requires |s| == 4
    ensures FromLittleEndian(s) == 1 <==> s == [1, 0, 0, 0]
    ensures FlagBytes(1) == [1, 0, 0, 0] && FlagBytes(0) == [0, 0, 0, 0]
  {
    FourInFront(s);
    FourInFront(FlagBytes(1));
    FourInFront(FlagBytes(0));
  }

  /** What the sender writes for an entry of the tree: type 0 for a file and 1 for a directory. */
  lemma HeaderByByte(file: bool, size: nat, name: seq<Byte>)
    requires |name| < 16384
    ensures var box := HeaderBox(if file then FILE else DIR, size, name);
            && |box| == 16400 && box[..8] == [if file then 0 else 1, 0, 0, 0, 0, 0, 0, 0]
            && box[16..16 + |name|] == name && forall k :: 16 + |name| <= k < 16400 ==> box[k] == 0
  {
    var kind := if file then FILE else DIR;
    assert LittleEndian(kind, 2) == [(kind % 256) as Byte, 0];
    var box := HeaderBox(kind, size, name);
    assert box[..8] == LittleEndian(kind, 2) + Zeros(6);
    assert box[16..] == Padded(name, SIZE);
    assert box[16..16 + |name|] == Padded(name, SIZE)[..|name|];
  }

  /** The messages "success" and "dump". */
  lemma MessageByByte()
    ensures |MessageBox(SUCCESS)| == |MessageBox(DUMP)| == 16400
    ensures MessageBox(SUCCESS)[..7] == [115, 117, 99, 99, 101, 115, 115]
    ensures MessageBox(DUMP)[..4] == [100, 117, 109, 112]
    ensures forall k :: 7 <= k < 16400 ==> MessageBox(SUCCESS)[k] == 0
    ensures forall k :: 4 <= k < 16400 ==> MessageBox(DUMP)[k] == 0
  {
  }
}
