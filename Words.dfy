/**
 * 32-bit little-endian words: the unit the body and audio payloads are laid
 * out in. A word is the bit pattern of an int, a uint or a float; floats
 * stay uninterpreted.
 */
module Words {
  import opened Bytes

  type Word = w: nat | w < Two32

  /** The n words at byte offset i. */
  function WordsAt(s: seq<Byte>, i: nat, n: nat): (r: seq<Word>)
    requires i + 4 * n <= |s|
    ensures |r| == n
  {
    seq(n, k requires 0 <= k < n => U32At(s, i + 4 * k))
  }

  /** The words as bytes, each in little-endian order. */
  function WordBytes(ws: seq<Word>): (r: seq<Byte>)
    ensures |r| == 4 * |ws|
  {
    if ws == [] then [] else LeBytes(ws[0], 4) + WordBytes(ws[1..])
  }

  /** The signed int a word holds. */
  function Int32Of(w: Word): (r: int)
    ensures Int32Min <= r <= Int32Max
  {
    Pow256Values();
    ToSigned(w, 4)
  }

  /** The word holding a signed int. */
  function WordOf(x: int): (w: Word)
    requires Int32Min <= x <= Int32Max
    ensures Int32Of(w) == x
  {
    Pow256Values();
    FromSigned(x, 4)
  }

  /** A ulong laid out as two words, low word first. */
  function U64Of(lo: Word, hi: Word): (r: nat)
    ensures r < 0x1_0000_0000_0000_0000
  {
    lo + Two32 * hi
  }

  /** A ulong's two words, low word first: the inverse of U64Of. */
  function U64Words(x: nat): (r: seq<Word>)
    requires x < 0x1_0000_0000_0000_0000
    ensures |r| == 2 && U64Of(r[0], r[1]) == x
  {
    [x % 0x1_0000_0000, x / 0x1_0000_0000]
  }

  lemma WordAt(s: seq<Byte>, i: nat, n: nat, k: nat)
    requires i + 4 * n <= |s| && k < n
    ensures WordsAt(s, i, n)[k] == U32At(s, i + 4 * k)
  {
  }

  /** A run of words inside a run of words read at the same place. */
  lemma WordsAtSlice(s: seq<Byte>, i: nat, n: nat, j: nat, m: nat)
    requires i + 4 * n <= |s| && j + m <= n
    ensures WordsAt(s, i, n)[j..j + m] == WordsAt(s, i + 4 * j, m)
  {
  }

  /** Splitting a little-endian number: the low bytes, then the high bytes shifted. */
  lemma {:induction false} LeUintAppend(a: seq<Byte>, b: seq<Byte>)
    ensures LeUint(a + b) == LeUint(a) + Pow256(|a|) * LeUint(b)
  {
    if a != [] {
      assert (a + b)[1..] == a[1..] + b;
      LeUintAppend(a[1..], b);
      var p, x, y := Pow256(|a| - 1), LeUint(a[1..]), LeUint(b);
      calc {
        LeUint(a + b);
        a[0] as nat + 256 * LeUint(a[1..] + b);
        a[0] as nat + 256 * (x + p * y);
        a[0] as nat + 256 * x + 256 * (p * y);
        { ScaleProduct(p, y); }
        a[0] as nat + 256 * x + (256 * p) * y;
        LeUint(a) + Pow256(|a|) * LeUint(b);
      }
    } else {
      assert a + b == b;
    }
  }

  lemma ScaleProduct(p: int, y: int)
    ensures 256 * (p * y) == (256 * p) * y
  {
  }

  /** A ulong read at i is the two words at i, low word first. */
  lemma U64AtWords(s: seq<Byte>, i: nat)
    requires i + 8 <= |s|
    ensures U64At(s, i) == U64Of(U32At(s, i), U32At(s, i + 4))
  {
    assert s[i..i + 8] == s[i..i + 4] + s[i + 4..i + 8];
    LeUintAppend(s[i..i + 4], s[i + 4..i + 8]);
    Pow256Values();
  }

  /** The i-th word's bytes within the encoding. */
  lemma {:induction false} WordBytesSlice(ws: seq<Word>, k: nat)
    requires k < |ws|
    ensures WordBytes(ws)[4 * k..4 * k + 4] == LeBytes(ws[k], 4)
  {
    if k > 0 {
      WordBytesSlice(ws[1..], k - 1);
      assert WordBytes(ws)[4..] == WordBytes(ws[1..]);
    }
  }

  /** Reading back the words of an encoding gives the words. */
  lemma WordsOfWordBytes(ws: seq<Word>)
    ensures WordsAt(WordBytes(ws), 0, |ws|) == ws
  {
    Pow256Values();
    forall k | 0 <= k < |ws|
      ensures WordsAt(WordBytes(ws), 0, |ws|)[k] == ws[k]
    {
      WordBytesSlice(ws, k);
      LeUintOfLeBytes(ws[k], 4);
    }
  }

  /** w is what reading words from the start of d gives, word by word. */
  ghost predicate WordsOf(d: seq<Byte>, w: seq<Word>)
    decreases |w|
  {
    4 * |w| <= |d| && (w != [] ==> WordsOf(d, w[..|w| - 1]) && w[|w| - 1] == U32At(d, 4 * (|w| - 1)))
  }

  lemma {:induction false} WordOfWordsOf(d: seq<Byte>, w: seq<Word>, k: nat)
    requires WordsOf(d, w) && k < |w|
    ensures w[k] == U32At(d, 4 * k)
    decreases |w|
  {
    if k < |w| - 1 {
      WordOfWordsOf(d, w[..|w| - 1], k);
    }
  }

  lemma {:induction false} WordsAtWordsOf(d: seq<Byte>, n: nat)
    requires 4 * n <= |d|
    ensures WordsOf(d, WordsAt(d, 0, n))
  {
    if n > 0 {
      WordsAtSlice(d, 0, n, 0, n - 1);
      assert WordsAt(d, 0, n)[..n - 1] == WordsAt(d, 0, n)[0..n - 1];
      WordsAtWordsOf(d, n - 1);
    }
  }

  /** Runs of words laid one after another. */
  function Flatten(parts: seq<seq<Word>>): (r: seq<Word>)
  {
    if parts == [] then [] else parts[0] + Flatten(parts[1..])
  }

  /** With every run n words long, word c of run k sits at n * k + c. */
  lemma {:induction false} FlattenIndex(parts: seq<seq<Word>>, n: nat, k: nat, c: nat)
    requires forall j :: 0 <= j < |parts| ==> |parts[j]| == n
    requires k < |parts| && c < n
    ensures n * k + c < |Flatten(parts)| && Flatten(parts)[n * k + c] == parts[k][c]
    decreases k
  {
    var rest := parts[1..];
    assert Flatten(parts) == parts[0] + Flatten(rest);
    if k > 0 {
      FlattenIndex(rest, n, k - 1, c);
      assert rest[k - 1] == parts[k];
      assert n * k + c == n + (n * (k - 1) + c);
    }
  }

  lemma {:induction false} FlattenLength(parts: seq<seq<Word>>, n: nat)
    requires forall j :: 0 <= j < |parts| ==> |parts[j]| == n
    ensures |Flatten(parts)| == n * |parts|
    decreases |parts|
  {
    if parts != [] {
      FlattenLength(parts[1..], n);
      assert n * |parts| == n + n * (|parts| - 1);
    }
  }

  /** u sits in w from word i on. */
  ghost predicate Placed(w: seq<Word>, i: nat, u: seq<Word>)
  {
    i + |u| <= |w| && forall c :: 0 <= c < |u| ==> w[i + c] == u[c]
  }

  lemma PlacedSplit(w: seq<Word>, i: nat, a: seq<Word>, b: seq<Word>)
    requires Placed(w, i, a + b)
    ensures Placed(w, i, a) && Placed(w, i + |a|, b)
  {
    forall c | 0 <= c < |a|
      ensures w[i + c] == a[c]
    {
      assert (a + b)[c] == a[c];
    }
    forall c | 0 <= c < |b|
      ensures w[i + |a| + c] == b[c]
    {
      assert (a + b)[|a| + c] == b[c];
    }
  }

  lemma PlacedSplit4(w: seq<Word>, i: nat, a: seq<Word>, b: seq<Word>, c: seq<Word>, d: seq<Word>)
    requires Placed(w, i, a + (b + (c + d)))
    ensures Placed(w, i, a) && Placed(w, i + |a|, b) && Placed(w, i + |a| + |b|, c)
    ensures Placed(w, i + |a| + |b| + |c|, d)
  {
    PlacedSplit(w, i, a, b + (c + d));
    PlacedSplit(w, i + |a|, b, c + d);
    PlacedSplit(w, i + |a| + |b|, c, d);
  }

  /** With every run n words long, run k of runs laid from word i on sits at i + n * k. */
  lemma RunPlaced(w: seq<Word>, i: nat, runs: seq<seq<Word>>, n: nat, k: nat)
    requires forall j :: 0 <= j < |runs| ==> |runs[j]| == n
    requires Placed(w, i, Flatten(runs)) && k < |runs|
    ensures Placed(w, i + n * k, runs[k])
  {
    if n > 0 {
      FlattenIndex(runs, n, k, n - 1);
    }
    forall c | 0 <= c < |runs[k]|
      ensures w[i + n * k + c] == runs[k][c]
    {
      FlattenIndex(runs, n, k, c);
    }
  }

  lemma {:induction false} WordBytesAppend(a: seq<Word>, b: seq<Word>)
    ensures WordBytes(a + b) == WordBytes(a) + WordBytes(b)
    decreases |a|
  {
    if a != [] {
      assert (a + b)[1..] == a[1..] + b;
      WordBytesAppend(a[1..], b);
    } else {
      assert a + b == b;
    }
  }

  /** The bytes of words a up to b within an encoding are those words' encoding. */
  lemma WordBytesRange(ws: seq<Word>, a: nat, b: nat)
    requires a <= b <= |ws|
    ensures WordBytes(ws)[4 * a..4 * b] == WordBytes(ws[a..b])
  {
    var x, y, z := ws[..a], ws[a..b], ws[b..];
    SplitAt3(ws, a, b);
    WordBytesAppend(x, y + z);
    WordBytesAppend(y, z);
    MiddleSlice(WordBytes(ws), WordBytes(x), WordBytes(y), WordBytes(z), 4 * a, 4 * b);
  }

  lemma SplitAt3<T>(s: seq<T>, a: nat, b: nat)
    requires a <= b <= |s|
    ensures s == s[..a] + (s[a..b] + s[b..])
  {
    assert s[..b] == s[..a] + s[a..b];
    assert s == s[..b] + s[b..];
  }

  lemma MiddleSlice<T>(s: seq<T>, x: seq<T>, y: seq<T>, z: seq<T>, p: nat, q: nat)
    requires s == x + (y + z) && |x| == p && p + |y| == q
    ensures s[p..q] == y
  {
    forall i | 0 <= i < |y|
      ensures s[p..q][i] == y[i]
    {
      assert s[p + i] == (y + z)[i];
    }
  }

  /** Reading n words off 4 * n bytes and writing them back gives the bytes. */
  lemma {:induction false} WordBytesOfWordsAt(s: seq<Byte>, n: nat)
    requires |s| == 4 * n
    ensures WordBytes(WordsAt(s, 0, n)) == s
    decreases n
  {
    if n > 0 {
      var ws := WordsAt(s, 0, n);
      forall k | 0 <= k < n - 1
        ensures ws[1..][k] == WordsAt(s[4..], 0, n - 1)[k]
      {
        assert s[4..][4 * k..4 * k + 4] == s[4 + 4 * k..4 + 4 * k + 4];
      }
      assert ws[1..] == WordsAt(s[4..], 0, n - 1);
      WordBytesOfWordsAt(s[4..], n - 1);
      LeBytesOfLeUint(s[0..4]);
      assert s == s[0..4] + s[4..];
    }
  }

  /** Placed words are the slice of w they sit in. */
  lemma PlacedSlice(w: seq<Word>, i: nat, u: seq<Word>)
    requires Placed(w, i, u)
    ensures w[i..i + |u|] == u
  {
  }
}
