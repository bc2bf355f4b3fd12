/** Little-endian integers in byte buffers, as the modelled machine stores them. */
module Bytes {

  newtype Byte = x: int | 0 <= x < 256

  function Unsigned(b: seq<Byte>): nat {
    if b == [] then 0 else b[0] as int + 256 * Unsigned(b[1..])
  }

  function Encode(n: nat, width: nat): (b: seq<Byte>)
    ensures |b| == width
  {
    if width == 0 then [] else [(n % 256) as Byte] + Encode(n / 256, width - 1)
  }

  function Pow256(width: nat): nat {
    if width == 0 then 1 else 256 * Pow256(width - 1)
  }

  lemma {:induction false} UnsignedEncode(n: nat, width: nat)
    requires n < Pow256(width)
    ensures Unsigned(Encode(n, width)) == n
  {
    if width == 0 {
    } else {
      UnsignedEncode(n / 256, width - 1);
      assert Encode(n, width)[1..] == Encode(n / 256, width - 1);
    }
  }

  lemma {:induction false} UnsignedFits(b: seq<Byte>)
    ensures Unsigned(b) < Pow256(|b|)
  {
    if b == [] {
    } else {
      UnsignedFits(b[1..]);
    }
  }

  lemma UnsignedSmall(n: nat, width: nat)
    requires n < 256 && 0 < width
    ensures Unsigned(Encode(n, width)) == n
  {
    PowPositive(width - 1);
    UnsignedEncode(n, width);
  }

  lemma {:induction false} PowPositive(width: nat)
    ensures 1 <= Pow256(width)
  {
    if width == 0 {
    } else {
      PowPositive(width - 1);
    }
  }

  /** The value of a 32-bit two's complement integer. */
  function Signed32(b: seq<Byte>): int
    requires |b| == 4
  {
    var u := Unsigned(b);
    if u < 0x8000_0000 then u else u - 0x1_0000_0000
  }

  lemma Signed32Encode(n: nat)
    requires n < 0x8000_0000
    ensures Signed32(Encode(n, 4)) == n
  {
    assert Pow256(4) == 256 * Pow256(3) == 256 * (256 * Pow256(2)) == 0x1_0000_0000;
    UnsignedEncode(n, 4);
  }

  /** The 32-bit two's complement of a number. */
  function Word(n: int): nat
    requires -0x8000_0000 <= n < 0x8000_0000
  {
    if n < 0 then n + 0x1_0000_0000 else n
  }

  lemma Signed32Word(n: int)
    requires -0x8000_0000 <= n < 0x8000_0000
    ensures Signed32(Encode(Word(n), 4)) == n
  {
    assert Pow256(4) == 256 * Pow256(3) == 256 * (256 * Pow256(2)) == 0x1_0000_0000;
    UnsignedEncode(Word(n), 4);
  }

  // -------------------------------------------------------------------------- pieces

  lemma Piece(a: seq<Byte>, b: seq<Byte>, c: seq<Byte>)
    ensures (a + b + c)[|a|..|a| + |b|] == b
  {
  }

  lemma PieceOfPiece(s: seq<Byte>, at: nat, n: nat, i: nat, j: nat)
    requires i <= j <= n && at + n <= |s|
    ensures s[at..at + n][i..j] == s[at + i..at + j]
  {
    var a, b := s[at..at + n][i..j], s[at + i..at + j];
    assert |a| == |b| == j - i;
    forall k | 0 <= k < j - i ensures a[k] == b[k] {
      assert a[k] == s[at..at + n][i + k] == s[at + i + k];
    }
  }

  // ------------------------------------------------------------- NUL-terminated text

  predicate HasNul(m: seq<Byte>) {
    exists i :: 0 <= i < |m| && m[i] == 0
  }

  /** The bytes before the first NUL, or all of them: what strnlen measures. */
  function Text(m: seq<Byte>): (t: seq<Byte>)
    ensures |t| <= |m|
  {
    if m == [] || m[0] == 0 then [] else [m[0]] + Text(m[1..])
  }

  /** strcmp(m, s) == 0; the scan stays inside m because m holds a NUL. */
  predicate StringEquals(m: seq<Byte>, s: seq<Byte>)
    requires HasNul(m)
  {
    Text(m) == s
  }

  lemma {:induction false} TextFacts(m: seq<Byte>)
    ensures forall i :: 0 <= i < |Text(m)| ==> Text(m)[i] == m[i] && m[i] != 0
    ensures |Text(m)| < |m| ==> m[|Text(m)|] == 0
  {
    if m == [] || m[0] == 0 {
    } else {
      TextFacts(m[1..]);
    }
  }

  lemma {:induction false} TextIsUnique(m: seq<Byte>, t: seq<Byte>)
    requires |t| < |m| && m[|t|] == 0
    requires forall i :: 0 <= i < |t| ==> t[i] == m[i] && t[i] != 0
    ensures Text(m) == t
  {
    if t == [] {
    } else {
      TextIsUnique(m[1..], t[1..]);
    }
  }

  lemma NulBoundsText(m: seq<Byte>)
    ensures HasNul(m) <==> |Text(m)| < |m|
  {
    TextFacts(m);
  }

  /** Text that ends inside a does not depend on what follows a. */
  lemma TextStopsInside(a: seq<Byte>, b: seq<Byte>)
    requires HasNul(a)
    ensures HasNul(a + b) && Text(a + b) == Text(a)
  {
    NulBoundsText(a);
    TextFacts(a);
    assert (a + b)[|Text(a)|] == 0;
    TextIsUnique(a + b, Text(a));
  }
}
