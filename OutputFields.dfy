/**
 * What the extractors write with a BinaryWriter: runs of bytes one after
 * another. A fixed-width header is a run of fields, each an integer written
 * at its width, little-endian; it is later patched in place by seeking to a
 * field's offset and writing a new value of the same width.
 */
module OutputFields {
  import opened Bytes

  /** Byte runs written one after another. */
  function Joined(parts: seq<seq<Byte>>): seq<Byte>
  {
    if parts == [] then [] else Joined(parts[..|parts| - 1]) + parts[|parts| - 1]
  }

  lemma JoinedSnoc(parts: seq<seq<Byte>>, p: seq<Byte>)
    ensures Joined(parts + [p]) == Joined(parts) + p
  {
    assert (parts + [p])[..|parts|] == parts;
  }

  lemma {:induction false} JoinedAppend(a: seq<seq<Byte>>, b: seq<seq<Byte>>)
    ensures Joined(a + b) == Joined(a) + Joined(b)
    decreases |b|
  {
    if b == [] {
      assert a + b == a;
    } else {
      var init, last := b[..|b| - 1], b[|b| - 1];
      calc {
        Joined(a + b);
        { assert (a + b)[..|a + b| - 1] == a + init; }
        Joined(a + init) + last;
        { JoinedAppend(a, init); }
        Joined(a) + Joined(init) + last;
      }
    }
  }

  /** Runs of n bytes each join to n times as many bytes. */
  lemma {:induction false} JoinedLength(parts: seq<seq<Byte>>, n: nat)
    requires forall k :: 0 <= k < |parts| ==> |parts[k]| == n
    ensures |Joined(parts)| == n * |parts|
    decreases |parts|
  {
    if parts != [] {
      JoinedLength(parts[..|parts| - 1], n);
      assert n * |parts| == n * (|parts| - 1) + n;
    }
  }

  /** Run k sits between the runs before it and the runs after it. */
  lemma JoinedSplit(parts: seq<seq<Byte>>, k: nat)
    requires k < |parts|
    ensures Joined(parts) == Joined(parts[..k]) + parts[k] + Joined(parts[k + 1..])
  {
    var a, p, c := parts[..k], parts[k], parts[k + 1..];
    calc {
      Joined(parts);
      { SplitAround(parts, k); }
      Joined((a + [p]) + c);
      { JoinedAppend(a + [p], c); }
      Joined(a + [p]) + Joined(c);
      { JoinedSnoc(a, p); }
      Joined(a) + p + Joined(c);
    }
  }

  lemma SplitAround<T>(s: seq<T>, k: nat)
    requires k < |s|
    ensures s == (s[..k] + [s[k]]) + s[k + 1..]
  {
    assert s[..k + 1] == s[..k] + [s[k]];
    assert s == s[..k + 1] + s[k + 1..];
  }

  /** Writing over a run, at its start and at its length, replaces that run. */
  lemma OverwriteMiddle(a: seq<Byte>, p: seq<Byte>, c: seq<Byte>, b: seq<Byte>)
    requires |b| == |p|
    ensures Overwrite(a + p + c, |a|, b) == a + b + c
  {
    assert (a + p + c)[..|a|] == a;
    assert (a + p + c)[|a| + |b|..] == c;
  }

  /**
   * The low n bytes of x in two's complement, little-endian: what a
   * BinaryWriter writes for a signed value of an n-byte type.
   */
  function SignedBytes(x: int, n: nat): (r: seq<Byte>)
    ensures |r| == n
  {
    seq(n, i requires 0 <= i < n => ((x / Pow256(i)) % 256) as Byte)
  }

  /** The first byte is the lowest; the rest are the encoding of x / 256. */
  lemma SignedBytesCons(x: int, n: nat)
    requires n > 0
    ensures SignedBytes(x, n) == [(x % 256) as Byte] + SignedBytes(x / 256, n - 1)
  {
    var a, b := SignedBytes(x, n), [(x % 256) as Byte] + SignedBytes(x / 256, n - 1);
    forall i | 0 <= i < n
      ensures a[i] == b[i]
    {
      if i > 0 {
        DivDiv(x, 256, Pow256(i - 1));
      }
    }
  }

  /** Dividing by a and then by b is dividing by a * b. */
  lemma DivDiv(x: int, a: int, b: int)
    requires a > 0 && b > 0
    ensures x / (a * b) == (x / a) / b
  {
    var q, r := x / a, x % a;
    var q2, r2 := q / b, q % b;
    assert x == (a * b) * q2 + (a * r2 + r) by {
      assert x == a * q + r;
      assert q == b * q2 + r2;
      MulAdd(a, b * q2, r2);
    }
    assert 0 <= a * r2 + r < a * b by {
      assert r2 <= b - 1;
      MulSub(a, b, 1);
      MulMono(a, r2, b - 1);
    }
    DivUnique(x, a * b, q2, a * r2 + r);
  }

  lemma MulMono(a: int, x: int, y: int)
    requires a > 0 && 0 <= x <= y
    ensures 0 <= a * x <= a * y
  {
  }

  /** The quotient is the q of any x == m * q + r with 0 <= r < m. */
  lemma DivUnique(x: int, m: int, q: int, r: int)
    requires m > 0 && x == m * q + r && 0 <= r < m
    ensures x / m == q
  {
    ModUnique(x, m, q, r);
    assert m * (x / m) == m * q;
    MulCancel(m, x / m, q);
  }

  lemma MulCancel(m: int, a: int, b: int)
    requires m > 0 && m * a == m * b
    ensures a == b
  {
    MulSub(m, a, b);
  }

  /** Read back as an unsigned number, the bytes are x modulo 256^n. */
  lemma {:induction false} SignedBytesValue(x: int, n: nat)
    ensures LeUint(SignedBytes(x, n)) == x % Pow256(n)
    decreases n
  {
    if n > 0 {
      SignedBytesValue(x / 256, n - 1);
      SignedBytesCons(x, n);
      assert SignedBytes(x, n)[1..] == SignedBytes(x / 256, n - 1);
      ModSplit(x, Pow256(n - 1));
    } else {
      assert SignedBytes(x, n) == [];
    }
  }

  lemma ModSplit(x: int, p: nat)
    requires p > 0
    ensures x % 256 + 256 * ((x / 256) % p) == x % (256 * p)
  {
    var q, r := x / 256, x % 256;
    var q2, r2 := q / p, q % p;
    assert x == 256 * p * q2 + (256 * r2 + r) by {
      assert x == 256 * q + r;
      assert q == p * q2 + r2;
    }
    assert 0 <= 256 * r2 + r < 256 * p;
    ModUnique(x, 256 * p, q2, 256 * r2 + r);
  }

  /**
   * A signed reading of the bytes gives x back whenever x fits an n-byte
   * signed type: the encoding is the one BinaryReader decodes.
   */
  lemma SignedBytesRead(x: int, n: nat)
    requires 0 < n && -(Pow256(n) / 2) <= x < Pow256(n) / 2
    ensures LeUint(SignedBytes(x, n)) < Pow256(n)
    ensures ToSigned(LeUint(SignedBytes(x, n)), n) == x
  {
    SignedBytesValue(x, n);
    if x < 0 {
      ModUnique(x, Pow256(n), -1, x + Pow256(n));
    } else {
      ModUnique(x, Pow256(n), 0, x);
    }
  }

  /** A long written at offset o reads back there as that long. */
  lemma I64Read(s: seq<Byte>, o: nat, x: int)
    requires o + 8 <= |s| && s[o..o + 8] == SignedBytes(x, 8)
    requires Int64Min <= x <= Int64Max
    ensures I64At(s, o) == x
  {
    Pow256Values();
    SignedBytesRead(x, 8);
  }

  /** The first m bytes of an n-byte encoding are the m-byte encoding: BitConverter's int cut to three bytes. */
  lemma SignedBytesPrefix(x: int, n: nat, m: nat)
    requires m <= n
    ensures SignedBytes(x, n)[..m] == SignedBytes(x, m)
  {
  }

  /** An integer written at a fixed width: its low `width` bytes, little-endian. */
  datatype Field = Field(value: nat, width: nat)

  /** Every field's value fits its width. */
  predicate Fits(fs: seq<Field>)
  {
    forall k :: 0 <= k < |fs| ==> fs[k].value < Pow256(fs[k].width)
  }

  /** The total width of the fields. */
  function Width(fs: seq<Field>): nat
  {
    if fs == [] then 0 else Width(fs[..|fs| - 1]) + fs[|fs| - 1].width
  }

  /** Each field's bytes. */
  function FieldParts(fs: seq<Field>): (r: seq<seq<Byte>>)
    ensures |r| == |fs|
  {
    seq(|fs|, k requires 0 <= k < |fs| => LeBytes(fs[k].value, fs[k].width))
  }

  /** The fields as written, one after another. */
  function FieldBytes(fs: seq<Field>): seq<Byte>
  {
    Joined(FieldParts(fs))
  }

  /** The byte offset of field k: the widths of the fields before it. */
  function FieldOffset(fs: seq<Field>, k: nat): nat
    requires k <= |fs|
  {
    Width(fs[..k])
  }

  lemma FieldOffsetStep(fs: seq<Field>, k: nat)
    requires k < |fs|
    ensures FieldOffset(fs, k + 1) == FieldOffset(fs, k) + fs[k].width
  {
    assert fs[..k + 1][..k] == fs[..k];
  }

  /** The fields take as many bytes as their widths add up to. */
  lemma {:induction false} FieldBytesLength(fs: seq<Field>)
    ensures |FieldBytes(fs)| == Width(fs)
    decreases |fs|
  {
    if fs != [] {
      var n := |fs| - 1;
      assert FieldParts(fs)[..n] == FieldParts(fs[..n]);
      FieldBytesLength(fs[..n]);
    }
  }

  /** Field k's bytes sit at its offset. */
  lemma FieldSlice(fs: seq<Field>, k: nat)
    requires k < |fs|
    ensures FieldOffset(fs, k) + fs[k].width <= |FieldBytes(fs)|
    ensures FieldBytes(fs)[FieldOffset(fs, k)..FieldOffset(fs, k) + fs[k].width] == LeBytes(fs[k].value, fs[k].width)
  {
    JoinedSplit(FieldParts(fs), k);
    assert FieldParts(fs)[..k] == FieldParts(fs[..k]);
    FieldBytesLength(fs[..k]);
  }

  /** Reading field k back at its offset gives its value. */
  lemma FieldRead(fs: seq<Field>, k: nat)
    requires Fits(fs) && k < |fs|
    ensures FieldOffset(fs, k) + fs[k].width <= |FieldBytes(fs)|
    ensures UintAt(FieldBytes(fs), FieldOffset(fs, k), fs[k].width) == fs[k].value
  {
    FieldSlice(fs, k);
    LeUintOfLeBytes(fs[k].value, fs[k].width);
  }

  /** Field k read at its offset o. */
  lemma FieldReadAt(fs: seq<Field>, k: nat, o: nat)
    requires Fits(fs) && k < |fs| && FieldOffset(fs, k) == o
    ensures o + fs[k].width <= |FieldBytes(fs)| && UintAt(FieldBytes(fs), o, fs[k].width) == fs[k].value
  {
    FieldRead(fs, k);
  }

  /** Seeking to field k and writing a new value at its width gives the fields with that one replaced. */
  lemma FieldPatch(fs: seq<Field>, k: nat, v: nat)
    requires k < |fs|
    ensures FieldOffset(fs, k) + fs[k].width <= |FieldBytes(fs)|
    ensures Overwrite(FieldBytes(fs), FieldOffset(fs, k), LeBytes(v, fs[k].width))
         == FieldBytes(fs[k := Field(v, fs[k].width)])
  {
    var gs := fs[k := Field(v, fs[k].width)];
    var ps, qs := FieldParts(fs), FieldParts(gs);
    JoinedSplit(ps, k);
    JoinedSplit(qs, k);
    assert qs[..k] == ps[..k];
    assert qs[k + 1..] == ps[k + 1..];
    assert ps[..k] == FieldParts(fs[..k]);
    FieldBytesLength(fs[..k]);
    OverwriteMiddle(Joined(ps[..k]), ps[k], Joined(ps[k + 1..]), qs[k]);
  }
}
