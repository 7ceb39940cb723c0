/**
 * Bytes, little-endian integers and the 32-bit wrap-around of C#'s unchecked
 * arithmetic: the vocabulary every XEF record and output file is written in.
 */
module Bytes {

  newtype Byte = b: int | 0 <= b < 0x100

  /** A System.Guid as the 16 bytes Guid(byte[]) takes and ToByteArray gives back. */
  type Guid = s: seq<Byte> | |s| == 16 witness [0, 0, 0, 0, 0, 0, 0, 0, 0, 0, 0, 0, 0, 0, 0, 0]

  const Int16Min: int := -0x8000
  const Int16Max: int := 0x7FFF
  const Int32Min: int := -0x8000_0000
  const Int32Max: int := 0x7FFF_FFFF
  const Two32: int := 0x1_0000_0000

  function Pow256(n: nat): (r: nat)
    ensures r >= 1
  {
    if n == 0 then 1 else 256 * Pow256(n - 1)
  }

  /** The unsigned value of a little-endian byte string. */
  function LeUint(s: seq<Byte>): nat
  {
    if s == [] then 0 else s[0] as nat + 256 * LeUint(s[1..])
  }

  /** The n-byte little-endian encoding of v, keeping v's low n bytes. */
  function LeBytes(v: nat, n: nat): (r: seq<Byte>)
    ensures |r| == n
  {
    if n == 0 then [] else [(v % 256) as Byte] + LeBytes(v / 256, n - 1)
  }

  lemma {:induction false} LeUintBound(s: seq<Byte>)
    ensures LeUint(s) < Pow256(|s|)
  {
    if s != [] {
      LeUintBound(s[1..]);
    }
  }

  /** Encoding then decoding gives back any value that fits in n bytes. */
  lemma {:induction false} LeUintOfLeBytes(v: nat, n: nat)
    requires v < Pow256(n)
    ensures LeUint(LeBytes(v, n)) == v
  {
    if n > 0 {
      LeUintOfLeBytes(v / 256, n - 1);
      assert LeBytes(v, n)[1..] == LeBytes(v / 256, n - 1);
    }
  }

  /** Decoding then re-encoding at the same width gives back the bytes. */
  lemma {:induction false} LeBytesOfLeUint(s: seq<Byte>)
    ensures LeBytes(LeUint(s), |s|) == s
  {
    if s != [] {
      LeBytesOfLeUint(s[1..]);
      assert LeUint(s) % 256 == s[0] as nat;
      assert LeUint(s) / 256 == LeUint(s[1..]);
    }
  }

  /** Reading the n bytes at i as a little-endian unsigned value. */
  function UintAt(s: seq<Byte>, i: nat, n: nat): (r: nat)
    requires i + n <= |s|
    ensures r < Pow256(n)
  {
    LeUintBound(s[i..i + n]);
    LeUint(s[i..i + n])
  }

  /** Two's complement reading of an n-byte unsigned value. */
  function ToSigned(v: nat, n: nat): (r: int)
    requires 0 < n && v < Pow256(n)
    ensures -(Pow256(n) / 2) <= r < Pow256(n) / 2
    ensures r == v || r == v - Pow256(n)
  {
    assert Pow256(n) / 2 == 128 * Pow256(n - 1);
    if v < Pow256(n) / 2 then v else v - Pow256(n)
  }

  /** The n-byte two's complement bit pattern of a value in the signed n-byte range. */
  function FromSigned(x: int, n: nat): (r: nat)
    requires 0 < n && -(Pow256(n) / 2) <= x < Pow256(n) / 2
    ensures r < Pow256(n)
    ensures r == x || r == x + Pow256(n)
  {
    assert Pow256(n) / 2 == 128 * Pow256(n - 1);
    if x < 0 then x + Pow256(n) else x
  }

  /** The signed reading undoes the signed encoding. */
  lemma ToSignedOfFromSigned(x: int, n: nat)
    requires 0 < n && -(Pow256(n) / 2) <= x < Pow256(n) / 2
    ensures ToSigned(FromSigned(x, n), n) == x
  {
  }

  lemma Pow256Values()
    ensures Pow256(2) == 0x1_0000 && Pow256(4) == Two32 && Pow256(8) == 0x1_0000_0000_0000_0000
  {
    assert Pow256(2) == 0x1_0000;
    assert Pow256(4) == Two32;
  }

  function I16At(s: seq<Byte>, i: nat): (r: int)
    requires i + 2 <= |s|
    ensures Int16Min <= r <= Int16Max
  {
    Pow256Values();
    ToSigned(UintAt(s, i, 2), 2)
  }

  function U16At(s: seq<Byte>, i: nat): (r: nat)
    requires i + 2 <= |s|
    ensures r < 0x1_0000
  {
    Pow256Values();
    UintAt(s, i, 2)
  }

  function I32At(s: seq<Byte>, i: nat): (r: int)
    requires i + 4 <= |s|
    ensures Int32Min <= r <= Int32Max
  {
    Pow256Values();
    ToSigned(UintAt(s, i, 4), 4)
  }

  function U32At(s: seq<Byte>, i: nat): (r: nat)
    requires i + 4 <= |s|
    ensures r < Two32
  {
    Pow256Values();
    UintAt(s, i, 4)
  }

  function I64At(s: seq<Byte>, i: nat): int
    requires i + 8 <= |s|
  {
    ToSigned(UintAt(s, i, 8), 8)
  }

  function U64At(s: seq<Byte>, i: nat): (r: nat)
    requires i + 8 <= |s|
    ensures r < 0x1_0000_0000_0000_0000
  {
    Pow256Values();
    UintAt(s, i, 8)
  }

  /** C#'s unchecked conversion to int: the value congruent to x modulo 2^32 in int's range. */
  function Wrap32(x: int): (r: int)
    ensures Int32Min <= r <= Int32Max
    ensures (r - x) % Two32 == 0
    ensures Int32Min <= x <= Int32Max ==> r == x
  {
    (x - Int32Min) % Two32 + Int32Min
  }

  /** C#'s unchecked uint arithmetic. */
  function WrapU32(x: int): (r: nat)
    ensures r < Two32
    ensures (r - x) % Two32 == 0
    ensures 0 <= x < Two32 ==> r == x
  {
    x % Two32
  }

  /** Wrapping once more changes nothing: uint arithmetic may wrap at every step or only at the end. */
  lemma WrapU32Add(x: int, n: int)
    ensures (x % Two32 + n) % Two32 == (x + n) % Two32
  {
    ModAddMod(x, n, Two32);
  }

  lemma ModAddMod(x: int, n: int, m: int)
    requires m > 0
    ensures (x % m + n) % m == (x + n) % m
  {
    var y := x % m + n;
    assert x == m * (x / m) + x % m;
    assert y == m * (y / m) + y % m;
    MulAdd(m, x / m, y / m);
    ModUnique(x + n, m, x / m + y / m, y % m);
  }

  lemma MulAdd(m: int, a: int, b: int)
    ensures m * a + m * b == m * (a + b)
  {
  }

  lemma ModUnique(x: int, m: int, q: int, r: int)
    requires m > 0 && x == m * q + r && 0 <= r < m
    ensures x % m == r
  {
    var k := q - x / m;
    MulSub(m, q, x / m);
    assert m * k == x % m - r;
    if k >= 1 {
      MulAtLeast(m, k);
    } else if k <= -1 {
      MulAtLeast(m, -k);
    }
  }

  lemma MulSub(m: int, a: int, b: int)
    ensures m * a - m * b == m * (a - b)
  {
  }

  lemma MulAtLeast(m: int, k: int)
    requires m > 0 && k >= 1
    ensures m * k >= m
  {
  }

  const Two64: int := 0x1_0000_0000_0000_0000
  const Int64Min: int := -0x8000_0000_0000_0000
  const Int64Max: int := 0x7FFF_FFFF_FFFF_FFFF

  /** C#'s unchecked long arithmetic. */
  function Wrap64(x: int): (r: int)
    ensures Int64Min <= r <= Int64Max
    ensures (r - x) % Two64 == 0
    ensures Int64Min <= x <= Int64Max ==> r == x
  {
    (x - Int64Min) % Two64 + Int64Min
  }

  /** The n bytes at p, or as many as remain: what BinaryReader.ReadBytes returns. */
  function Take(s: seq<Byte>, p: nat, n: nat): (r: seq<Byte>)
    requires p <= |s|
    ensures |r| == if p + n <= |s| then n else |s| - p
    ensures r == s[p..p + |r|]
  {
    if p + n <= |s| then s[p..p + n] else s[p..]
  }

  /** A write of b over s at offset at, as a seek-and-write on a file does. */
  function Overwrite(s: seq<Byte>, at: nat, b: seq<Byte>): (r: seq<Byte>)
    requires at + |b| <= |s|
    ensures |r| == |s|
  {
    s[..at] + b + s[at + |b|..]
  }

  /** The write puts b at offset at and leaves every other byte as it was. */
  lemma OverwriteEffect(s: seq<Byte>, at: nat, b: seq<Byte>)
    requires at + |b| <= |s|
    ensures Overwrite(s, at, b)[at..at + |b|] == b
    ensures forall i :: 0 <= i < |s| && !(at <= i < at + |b|) ==> Overwrite(s, at, b)[i] == s[i]
  {
  }

  /** Wrapping twice is wrapping once. */
  lemma Wrap64Add(x: int, n: int)
    ensures Wrap64(Wrap64(x) + n) == Wrap64(x + n)
  {
    ModAddMod(x - Int64Min, n, Two64);
    assert Wrap64(x) + n - Int64Min == (x - Int64Min) % Two64 + n;
  }

  /** x + 1 on a long: long.MaxValue wraps round to long.MinValue. */
  function Inc64(x: int): (r: int)
    requires Int64Min <= x <= Int64Max
    ensures Int64Min <= r <= Int64Max
  {
    if x == Int64Max then Int64Min else x + 1
  }

  /** The increment is long arithmetic's x + 1. */
  lemma Inc64Wraps(x: int)
    requires Int64Min <= x <= Int64Max
    ensures Inc64(x) == Wrap64(x + 1)
  {
    if x == Int64Max {
      assert x + 1 - Int64Min == Two64;
    }
  }

  /** Concatenation of byte sequences regroups freely. */
  lemma AppendAssoc(a: seq<Byte>, b: seq<Byte>, c: seq<Byte>)
    ensures a + (b + c) == (a + b) + c
  {
  }
}
