/**
 * `chunk(arr, n)` of website/js/batch.js: split a sequence into consecutive
 * pieces of at most `n` elements, `Math.ceil(|arr| / n)` of them, piece `i`
 * being the slice `arr[i*n .. i*n + n]` (clamped at the end, as `slice` is).
 */
module Chunking {

  /** Integer ceiling of `a / n`, standing for `Math.ceil(arr.length / n)`. */
  function CeilDiv(a: nat, n: nat): (q: nat)
    requires n >= 1
    ensures a <= q * n < a + n
  {
    (a + n - 1) / n
  }

  function Min(a: int, b: int): int {
    if a <= b then a else b
  }

  /** The pieces of `arr`, as `Array.from(Array(ceil), (_, i) => arr.slice(i*n, i*n+n))`. */
  function Chunk<T>(arr: seq<T>, n: nat): (pieces: seq<seq<T>>)
    requires n >= 1
    ensures |pieces| == CeilDiv(|arr|, n)
  {
    var count := CeilDiv(|arr|, n);
    seq(count, i requires 0 <= i < count =>
      PieceStartInside(|arr|, n, count, i);
      arr[i * n .. Min(i * n + n, |arr|)])
  }

  /** Concatenation of a sequence of pieces, in order. */
  function Flatten<T>(pieces: seq<seq<T>>): seq<T> {
    if pieces == [] then [] else Flatten(pieces[..|pieces| - 1]) + pieces[|pieces| - 1]
  }

  /** There are ceil(|arr| / n) pieces: enough to hold `arr`, and one fewer would not be. */
  lemma ChunkCount<T>(arr: seq<T>, n: nat)
    requires n >= 1
    ensures |arr| <= |Chunk(arr, n)| * n
    ensures |Chunk(arr, n)| == 0 || (|Chunk(arr, n)| - 1) * n < |arr|
    ensures arr == [] <==> Chunk(arr, n) == []
  {
    var q := |Chunk(arr, n)|;
    assert q * n - n == (q - 1) * n;
  }

  /**
   * Piece `i` is non-empty, holds at most `n` elements, exactly `n` unless it
   * is the last, and its element `k` is `arr[i*n + k]`.
   */
  lemma ChunkPiece<T>(arr: seq<T>, n: nat, i: nat)
    requires n >= 1
    requires i < |Chunk(arr, n)|
    ensures 1 <= |Chunk(arr, n)[i]| <= n
    ensures i < |Chunk(arr, n)| - 1 ==> |Chunk(arr, n)[i]| == n
    ensures i * n + |Chunk(arr, n)[i]| <= |arr|
    ensures i == |Chunk(arr, n)| - 1 ==> i * n + |Chunk(arr, n)[i]| == |arr|
    ensures forall k :: 0 <= k < |Chunk(arr, n)[i]| ==>
      i * n + k < |arr| && Chunk(arr, n)[i][k] == arr[i * n + k]
  {
    var q := |Chunk(arr, n)|;
    ChunkCount(arr, n);
    PieceStartInside(|arr|, n, q, i);
    if i < q - 1 {
      assert (i + 1) * n <= (q - 1) * n by { MulMono(i + 1, q - 1, n); }
    }
  }

  /** Element `j` of `arr` sits in piece `j / n` at offset `j % n`. */
  lemma ChunkLocate<T>(arr: seq<T>, n: nat, j: nat)
    requires n >= 1
    requires j < |arr|
    ensures j / n < |Chunk(arr, n)|
    ensures j % n < |Chunk(arr, n)[j / n]|
    ensures Chunk(arr, n)[j / n][j % n] == arr[j]
  {
    var q := |Chunk(arr, n)|;
    ChunkCount(arr, n);
    var i, r := DivMod(j, n, q);
    ChunkPiece(arr, n, i);
  }

  /** The elements are pairwise different. */
  predicate Distinct<T(==)>(arr: seq<T>) {
    forall i, j :: 0 <= i < j < |arr| ==> arr[i] != arr[j]
  }

  /** Of distinct elements, each lands at one position of one piece only. */
  lemma ChunkPositionsDistinct<T>(arr: seq<T>, n: nat, i: nat, k: nat, i': nat, k': nat)
    requires n >= 1 && Distinct(arr)
    requires i < |Chunk(arr, n)| && k < |Chunk(arr, n)[i]|
    requires i' < |Chunk(arr, n)| && k' < |Chunk(arr, n)[i']|
    requires Chunk(arr, n)[i][k] == Chunk(arr, n)[i'][k']
    ensures i == i' && k == k'
  {
    ChunkPiece(arr, n, i);
    ChunkPiece(arr, n, i');
    var a, b := i * n + k, i' * n + k';
    assert arr[a] == arr[b];
    DistinctAt(arr, a, b);
    SamePosition(i, k, i', k', n);
  }

  lemma DistinctAt<T>(arr: seq<T>, a: nat, b: nat)
    requires Distinct(arr) && a < |arr| && b < |arr| && arr[a] == arr[b]
    ensures a == b
  {
  }

  /** A position `i * n + k` with `k < n` determines `i` and `k`. */
  lemma SamePosition(i: nat, k: nat, i': nat, k': nat, n: nat)
    requires k < n && k' < n
    requires i * n + k == i' * n + k'
    ensures i == i' && k == k'
  {
    if i < i' {
      MulMono(i + 1, i', n);
    } else if i' < i {
      MulMono(i' + 1, i, n);
    }
  }

  /** Quotient and remainder of `j` by `n`, for `j` below `q * n`. */
  lemma DivMod(j: nat, n: nat, q: nat) returns (i: nat, r: nat)
    requires n >= 1 && j < q * n
    ensures i == j / n && r == j % n
    ensures j == i * n + r && r < n && i < q
  {
    i, r := j / n, j % n;
    if i >= q {
      MulMono(q, i, n);
    }
  }

  /** Concatenating the pieces gives back `arr`, in its original order. */
  lemma ChunkFlatten<T>(arr: seq<T>, n: nat)
    requires n >= 1
    ensures Flatten(Chunk(arr, n)) == arr
  {
    var pieces := Chunk(arr, n);
    ChunkCount(arr, n);
    FlattenPrefix(arr, n, |pieces|);
    assert pieces[..|pieces|] == pieces;
  }

  /** The first `k` pieces concatenate to the first `min(k*n, |arr|)` elements. */
  lemma {:induction false} FlattenPrefix<T>(arr: seq<T>, n: nat, k: nat)
    requires n >= 1
    requires k <= |Chunk(arr, n)|
    ensures Flatten(Chunk(arr, n)[..k]) == arr[..Min(k * n, |arr|)]
  {
    var pieces := Chunk(arr, n);
    if k > 0 {
      FlattenPrefix(arr, n, k - 1);
      assert pieces[..k][..k - 1] == pieces[..k - 1];
      ChunkCount(arr, n);
      PieceStartInside(|arr|, n, |pieces|, k - 1);
      assert (k - 1) * n + n == k * n;
      assert arr[..(k - 1) * n] + arr[(k - 1) * n .. Min(k * n, |arr|)] == arr[..Min(k * n, |arr|)];
    }
  }

  /** Piece `i < q` starts inside `arr`, when `q` is the piece count. */
  lemma PieceStartInside(len: nat, n: nat, q: nat, i: nat)
    requires n >= 1 && i < q
    requires q * n < len + n
    ensures i * n < len
  {
    MulMono(i + 1, q, n);
  }

  lemma MulMono(a: nat, b: nat, n: nat)
    requires a <= b
    ensures a * n <= b * n
  {
  }
}
