/** Little-endian integers and byte buffers. */
module Bytes {
  import opened Base

  function Pow256(n: nat): (p: nat)
    ensures p > 0
  {
    if n == 0 then 1 else 256 * Pow256(n - 1)
  }

  /** The low `width` bytes of `v`, least significant first. */
  function PutInt(v: nat, width: nat): (b: seq<byte>)
    ensures |b| == width
    decreases width
  {
    if width == 0 then [] else [v % 256] + PutInt(v / 256, width - 1)
  }

  function GetInt(b: seq<byte>): (v: nat) {
    if b == [] then 0 else b[0] + 256 * GetInt(b[1..])
  }

  lemma {:induction false} GetPut(v: nat, width: nat)
    requires v < Pow256(width)
    ensures GetInt(PutInt(v, width)) == v
    decreases width
  {
    if width > 0 {
      assert v / 256 < Pow256(width - 1);
      GetPut(v / 256, width - 1);
      assert PutInt(v, width)[1..] == PutInt(v / 256, width - 1);
    }
  }

  lemma Powers()
    ensures Pow256(1) == 0x100 && Pow256(2) == 0x1_0000 && Pow256(4) == 0x1_0000_0000
    ensures Pow256(8) == 0x1_0000_0000_0000_0000
  {
    assert Pow256(3) == 0x100_0000;
    assert Pow256(5) == 0x100_0000_0000;
    assert Pow256(6) == 0x1_0000_0000_0000;
    assert Pow256(7) == 0x100_0000_0000_0000;
  }

  /** The four bytes from `i` on as an unsigned number, the first byte counting least. */
  function Word(b: seq<byte>, i: nat): nat
    requires i + 4 <= |b|
  {
    var b0: int, b1: int, b2: int, b3: int := b[i], b[i + 1], b[i + 2], b[i + 3];
    b0 + 0x100 * b1 + 0x1_0000 * b2 + 0x100_0000 * b3
  }

  /** The two bytes from `i` on, likewise. */
  function HalfWord(b: seq<byte>, i: nat): nat
    requires i + 2 <= |b|
  {
    var b0: int, b1: int := b[i], b[i + 1];
    b0 + 0x100 * b1
  }

  lemma WordIs(b: seq<byte>, i: nat)
    requires i + 4 <= |b|
    ensures GetInt(b[i..i + 4]) == Word(b, i) < 0x1_0000_0000
  {
    hide GetInt;
    NextByte(b, i, i + 4);
    NextByte(b, i + 1, i + 4);
    NextByte(b, i + 2, i + 4);
    NextByte(b, i + 3, i + 4);
    assert GetInt(b[i + 4..i + 4]) == 0 by { NoBytes(b[i + 4..i + 4]); }
  }

  lemma HalfWordIs(b: seq<byte>, i: nat)
    requires i + 2 <= |b|
    ensures GetInt(b[i..i + 2]) == HalfWord(b, i) < 0x1_0000
  {
    hide GetInt;
    NextByte(b, i, i + 2);
    NextByte(b, i + 1, i + 2);
    assert GetInt(b[i + 2..i + 2]) == 0 by { NoBytes(b[i + 2..i + 2]); }
  }

  lemma DoubleWordIs(b: seq<byte>, i: nat)
    requires i + 8 <= |b|
    ensures GetInt(b[i..i + 8]) == Word(b, i) + 0x1_0000_0000 * Word(b, i + 4) < 0x1_0000_0000_0000_0000
  {
    hide GetInt;
    NextByte(b, i, i + 8);
    NextByte(b, i + 1, i + 8);
    NextByte(b, i + 2, i + 8);
    NextByte(b, i + 3, i + 8);
    WordIs(b, i + 4);
    assert b[i + 4..i + 4 + 4] == b[i + 4..i + 8];
    WordIs(b, i);
  }

  lemma NextByte(b: seq<byte>, i: nat, j: nat)
    requires i < j <= |b|
    ensures GetInt(b[i..j]) == b[i] + 256 * GetInt(b[i + 1..j])
  {
    assert b[i..j][1..] == b[i + 1..j];
  }

  lemma NoBytes(b: seq<byte>)
    requires b == []
    ensures GetInt(b) == 0
  {
  }

  /** Two's complement: the sign is the topmost bit. */
  function Signed32(u: nat): int { if u < 0x8000_0000 then u else u - 0x1_0000_0000 }

  function Signed64(u: nat): int { if u < 0x8000_0000_0000_0000 then u else u - 0x1_0000_0000_0000_0000 }

  predicate Int32(v: int) { -0x8000_0000 <= v < 0x8000_0000 }

  /** Two's complement, four bytes, least significant first. */
  function PutInt32(v: int): (b: seq<byte>)
    ensures |b| == 4
  {
    PutInt(v % 0x1_0000_0000, 4)
  }

  function GetInt32(b: seq<byte>): (v: int)
    requires |b| == 4
  {
    var u := GetInt(b);
    if u < 0x8000_0000 then u else u - 0x1_0000_0000
  }

  lemma Int32RoundTrip(v: int)
    requires Int32(v)
    ensures GetInt32(PutInt32(v)) == v
  {
    hide PutInt, GetInt, Pow256;
    Powers();
    GetPut(v % 0x1_0000_0000, 4);
  }

  /** `d` with the bytes at `off` replaced by `s`. */
  function Splice(d: seq<byte>, off: nat, s: seq<byte>): (r: seq<byte>)
    requires off + |s| <= |d|
    ensures |r| == |d| && r[off..off + |s|] == s
    ensures forall i :: 0 <= i < |d| && !(off <= i < off + |s|) ==> r[i] == d[i]
  {
    d[..off] + s + d[off + |s|..]
  }

  /** Block copy into a buffer. */
  method CopyInto(a: array<byte>, off: nat, s: seq<byte>)
    requires off + |s| <= a.Length
    modifies a
    ensures a[..] == Splice(old(a[..]), off, s)
  {
    for i := 0 to |s|
      invariant forall j :: 0 <= j < a.Length ==> a[j] == if off <= j < off + i then s[j - off] else old(a[j])
    {
      a[off + i] := s[i];
    }
    ghost var was := old(a[..]);
    assert forall j :: 0 <= j < a.Length ==> a[..][j] == Splice(was, off, s)[j];
  }
}
