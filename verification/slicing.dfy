/** Consecutive fixed-size slices of a sequence, as both pipelines build them
    with a loop `for (i = 0; i < s.length; i += n) ... s.slice(i, i + n)`. */
module Slicing {

  function Min(a: int, b: int): int {
    if a < b then a else b
  }

  /** The number of slices of size `n` needed to cover `a` elements. */
  function CeilDiv(a: nat, n: nat): nat
    requires n > 0
  {
    (a + n - 1) / n
  }

  /** `Array.prototype.slice(start, end)` for non-negative bounds: both bounds
      are clamped to the length, and an empty slice results when the clamped
      start is not before the clamped end. */
  function JsSlice<T>(s: seq<T>, start: nat, end: nat): (r: seq<T>)
    ensures start <= end ==> |r| == Min(end, |s|) - Min(start, |s|)
    ensures start > end ==> r == []
    ensures forall k :: 0 <= k < |r| ==> start + k < |s| && r[k] == s[start + k]
  {
    if Min(start, |s|) <= Min(end, |s|) then s[Min(start, |s|)..Min(end, |s|)] else []
  }

  /** Concatenation of the slices, in order. */
  function Flatten<T>(ss: seq<seq<T>>): seq<T> {
    if ss == [] then [] else Flatten(ss[..|ss| - 1]) + ss[|ss| - 1]
  }

  /** The slicing of `s` into pieces of size `n`: piece `j` is `s.slice(j*n, j*n + n)`. */
  function Chunks<T>(s: seq<T>, n: nat): seq<seq<T>>
    requires n > 0
  {
    seq(CeilDiv(|s|, n), j requires 0 <= j < CeilDiv(|s|, n) => JsSlice(s, j * n, j * n + n))
  }

  /** Independent description of a slicing: the pieces cover `s` exactly and in
      order, none is empty, none is longer than `n`, and all but the last are
      exactly `n` long. */
  ghost predicate IsChunking<T>(ss: seq<seq<T>>, s: seq<T>, n: nat) {
    && Flatten(ss) == s
    && forall j :: 0 <= j < |ss| ==> 0 < |ss[j]| <= n && (j < |ss| - 1 ==> |ss[j]| == n)
  }

  /** Extending a slice by one element. */
  lemma AppendSlice<T>(s: seq<T>, a: nat, b: nat, prefix: seq<T>)
    requires a <= b < |s| && prefix == s[a..b]
    ensures prefix + [s[b]] == s[a..b + 1]
  {
  }

  lemma CeilDivBounds(a: nat, n: nat)
    requires n > 0
    ensures CeilDiv(a, n) * n >= a
    ensures CeilDiv(a, n) > 0 ==> (CeilDiv(a, n) - 1) * n < a
  {
    var q, r := (a + n - 1) / n, (a + n - 1) % n;
    assert a + n - 1 == q * n + r && 0 <= r < n;
    assert q * n == (q - 1) * n + n;
  }

  /** `CeilDiv(a, n)` is the one count `c` with `(c - 1) * n < a <= c * n`. */
  lemma CeilDivUnique(a: nat, n: nat, c: nat)
    requires n > 0
    requires c * n >= a
    requires c > 0 ==> (c - 1) * n < a
    ensures CeilDiv(a, n) == c
  {
    var q := CeilDiv(a, n);
    CeilDivBounds(a, n);
    if q < c {
      MulMonotone(q, c - 1, n);
    } else if q > c {
      MulMonotone(c, q - 1, n);
    }
  }

  lemma MulSucc(x: nat, n: nat)
    ensures (x + 1) * n == x * n + n
  {
  }

  lemma MulMonotone(x: nat, y: nat, n: nat)
    requires x <= y
    ensures x * n <= y * n
  {
    assert y * n == x * n + (y - x) * n;
  }

  lemma {:induction false} FlattenLength<T>(ss: seq<seq<T>>, n: nat)
    requires forall j :: 0 <= j < |ss| ==> |ss[j]| == n
    ensures |Flatten(ss)| == |ss| * n
  {
    if ss != [] {
      FlattenLength(ss[..|ss| - 1], n);
      assert |ss| * n == (|ss| - 1) * n + n;
    }
  }

  /** Flattening a prefix of the pieces gives a prefix of the whole. */
  lemma {:induction false} FlattenPrefix<T>(ss: seq<seq<T>>, j: nat)
    requires j <= |ss|
    ensures |Flatten(ss[..j])| <= |Flatten(ss)|
    ensures Flatten(ss)[..|Flatten(ss[..j])|] == Flatten(ss[..j])
  {
    if j < |ss| {
      FlattenPrefix(ss[..|ss| - 1], j);
      assert ss[..|ss| - 1][..j] == ss[..j];
      if j == |ss| - 1 {
        assert ss[..j] == ss[..|ss| - 1];
      }
    } else {
      assert ss[..j] == ss;
    }
  }

  /** Piece `j` of any slicing sits at offset `j * n` of the whole. */
  lemma {:induction false} ChunkingPiece<T>(ss: seq<seq<T>>, s: seq<T>, n: nat, j: nat)
    requires n > 0 && IsChunking(ss, s, n) && j < |ss|
    ensures ss[j] == JsSlice(s, j * n, j * n + n)
  {
    var before := ss[..j];
    FlattenLength(before, n);
    FlattenPrefix(ss, j + 1);
    assert ss[..j + 1][..j] == before;
    assert Flatten(ss[..j + 1]) == Flatten(before) + ss[j];
    assert |Flatten(before)| == j * n;
    assert (j + 1) * n == j * n + n;
    if j < |ss| - 1 {
      assert s[j * n..j * n + n] == ss[j];
    } else {
      assert ss[..j + 1] == ss;
      assert s[j * n..] == ss[j];
    }
  }

  /** The pieces of `Chunks` form a slicing, and a slicing has exactly
      `CeilDiv(|s|, n)` pieces and is therefore `Chunks` itself. */
  lemma {:induction false} ChunksIsChunking<T>(s: seq<T>, n: nat)
    requires n > 0
    ensures IsChunking(Chunks(s, n), s, n)
    ensures |Chunks(s, n)| == CeilDiv(|s|, n)
  {
    var cs := Chunks(s, n);
    var c := |cs|;
    CeilDivBounds(|s|, n);
    forall j | 0 <= j < c
      ensures 0 < |cs[j]| <= n && (j < c - 1 ==> |cs[j]| == n)
    {
      MulMonotone(j, c - 1, n);
      if j < c - 1 {
        MulMonotone(j + 1, c - 1, n);
      }
      assert (j + 1) * n == j * n + n;
    }
    FlattenChunks(s, n, c);
    assert cs[..c] == cs;
  }

  lemma {:induction false} FlattenChunks<T>(s: seq<T>, n: nat, k: nat)
    requires n > 0 && k <= CeilDiv(|s|, n)
    ensures Flatten(Chunks(s, n)[..k]) == s[..Min(k * n, |s|)]
  {
    if k > 0 {
      var lo, hi := ChunkBounds(|s|, n, k - 1);
      var cs := Chunks(s, n);
      assert s[..hi] == s[..lo] + s[lo..hi];
      FlattenChunks(s, n, k - 1);
      assert cs[..k][..k - 1] == cs[..k - 1];
      assert Flatten(cs[..k]) == Flatten(cs[..k - 1]) + cs[k - 1];
    }
  }

  /** Piece `j` of a slicing into `CeilDiv(len, n)` pieces starts inside the
      sequence, at `lo`, and ends at `hi`. */
  lemma ChunkBounds(len: nat, n: nat, j: nat) returns (lo: nat, hi: nat)
    requires n > 0 && j < CeilDiv(len, n)
    ensures lo == j * n && hi == Min(j * n + n, len) && hi == Min((j + 1) * n, len)
    ensures lo < hi <= len
  {
    CeilDivBounds(len, n);
    MulMonotone(j, CeilDiv(len, n) - 1, n);
    lo, hi := j * n, Min(j * n + n, len);
    assert (j + 1) * n == j * n + n;
  }

  /** The slice a loop `for (i = 0; i < |s|; i += n)` cuts at offset
      `i = b * n` is piece `b` of `Chunks(s, n)`. */
  lemma NextChunk<T>(s: seq<T>, n: nat, done: seq<seq<T>>, i: nat)
    requires n > 0 && i == |done| * n && i < |s|
    requires |done| <= CeilDiv(|s|, n) && done == Chunks(s, n)[..|done|]
    ensures |done| < CeilDiv(|s|, n)
    ensures done + [JsSlice(s, i, i + n)] == Chunks(s, n)[..|done| + 1]
  {
    var c, b := CeilDiv(|s|, n), |done|;
    CeilDivBounds(|s|, n);
    if b >= c {
      MulMonotone(c, b, n);
    }
  }

  /** When that loop stops, the pieces it cut are all of `Chunks(s, n)`. */
  lemma AllChunks<T>(s: seq<T>, n: nat, done: seq<seq<T>>, i: nat)
    requires n > 0 && i == |done| * n && |s| <= i && i - n < |s|
    requires |done| <= CeilDiv(|s|, n) && done == Chunks(s, n)[..|done|]
    ensures |done| == CeilDiv(|s|, n) && done == Chunks(s, n)
  {
    if |done| > 0 {
      assert (|done| - 1) * n == i - n;
    }
    CeilDivUnique(|s|, n, |done|);
  }

  /** A slicing is unique: any sequence of pieces with the shape of
      `IsChunking` is exactly `Chunks(s, n)`. */
  lemma {:induction false} ChunkingUnique<T>(ss: seq<seq<T>>, s: seq<T>, n: nat)
    requires n > 0 && IsChunking(ss, s, n)
    ensures ss == Chunks(s, n)
  {
    var c := |ss|;
    if c > 0 {
      var last := ss[c - 1];
      FlattenLength(ss[..c - 1], n);
      assert Flatten(ss) == Flatten(ss[..c - 1]) + last;
      assert |s| == (c - 1) * n + |last|;
      assert c * n == (c - 1) * n + n;
    }
    CeilDivUnique(|s|, n, c);
    forall j | 0 <= j < c
      ensures ss[j] == Chunks(s, n)[j]
    {
      ChunkingPiece(ss, s, n, j);
    }
  }
}
