/**
 * `for i in range(0, len(s), size): batch = s[i:i + size]` -- the batch
 * partition shared by the embedding client and both ingestion scripts.
 */
module Batching {

  function Min(a: int, b: int): int {
    if a <= b then a else b
  }

  /** Concatenation of a sequence of sequences. */
  function Flatten<T>(ss: seq<seq<T>>): seq<T> {
    if ss == [] then [] else ss[0] + Flatten(ss[1..])
  }

  /** The second components in order: `[b for _, b in pairs]`. */
  function Seconds<A, B>(pairs: seq<(A, B)>): (r: seq<B>)
    ensures |r| == |pairs| && forall i :: 0 <= i < |pairs| ==> r[i] == pairs[i].1
  {
    seq(|pairs|, i requires 0 <= i < |pairs| => pairs[i].1)
  }

  /** The batches visited by `range(0, len(s), size)`. */
  function Chunks<T>(s: seq<T>, size: nat): seq<seq<T>>
    requires size > 0
    decreases |s|
  {
    if s == [] then []
    else
      var m := Min(size, |s|);
      [s[..m]] + Chunks(s[m..], size)
  }

  /** The batches are non-empty, at most `size` long (all but the last
      exactly `size`), and concatenate back to `s`: no item is dropped,
      duplicated or reordered. */
  lemma {:induction false} ChunksPartition<T>(s: seq<T>, size: nat)
    requires size > 0
    ensures var r := Chunks(s, size);
      && Flatten(r) == s
      && (forall k :: 0 <= k < |r| ==> 0 < |r[k]| <= size)
      && (forall k :: 0 <= k < |r| - 1 ==> |r[k]| == size)
    decreases |s|
  {
    if s != [] {
      var m := Min(size, |s|);
      ChunksPartition(s[m..], size);
      var r := Chunks(s, size);
      assert r[1..] == Chunks(s[m..], size);
      assert s == s[..m] + s[m..];
    }
  }

  /** Start of batch `k`, written as repeated addition so that the slice
      lemma below needs no non-linear arithmetic. */
  function Offset(k: nat, size: nat): nat {
    if k == 0 then 0 else Offset(k - 1, size) + size
  }

  /** The start of batch `k` is `k * size`. */
  lemma {:induction false} OffsetIsProduct(k: nat, size: nat)
    ensures Offset(k, size) == k * size
  {
    if k > 0 {
      OffsetIsProduct(k - 1, size);
      MulSucc(k - 1, size);
    }
  }

  /** Batch `k` is the slice `s[k*size : k*size + size]`. */
  lemma {:induction false} ChunkIsSlice<T>(s: seq<T>, size: nat, k: nat)
    requires size > 0 && k < |Chunks(s, size)|
    ensures Offset(k, size) < |s|
    ensures Chunks(s, size)[k] == s[Offset(k, size)..Min(Offset(k, size) + size, |s|)]
    decreases |s|
  {
    var m := Min(size, |s|);
    var t := s[m..];
    assert Chunks(s, size) == [s[..m]] + Chunks(t, size);
    if k > 0 {
      ChunkIsSlice(t, size, k - 1);
      var j := Offset(k - 1, size);
      ShiftSlice(s, size, j, Chunks(t, size)[k - 1]);
    }
  }

  lemma ShiftSlice<T>(s: seq<T>, size: nat, j: nat, c: seq<T>)
    requires size < |s| && j < |s| - size
    requires c == s[size..][j..Min(j + size, |s| - size)]
    ensures c == s[j + size..Min(j + size + size, |s|)]
  {
    SliceOfSuffix(s, size, j, Min(j + size, |s| - size));
  }

  lemma SliceOfSuffix<T>(s: seq<T>, m: nat, j: nat, e: nat)
    requires m <= |s| && j <= e <= |s| - m
    ensures s[m..][j..e] == s[m + j..m + e]
  {
  }

  /** The number of batches is `ceil(len(s) / size)`, the source's
      `(len(s) + size - 1) // size`. */
  lemma {:induction false} ChunkCount<T>(s: seq<T>, size: nat)
    requires size > 0
    ensures |Chunks(s, size)| == (|s| + size - 1) / size
    decreases |s|
  {
    var c := |Chunks(s, size)|;
    ChunkBounds(s, size);
    DivUnique(|s| + size - 1, size, c);
  }

  lemma {:induction false} ChunkBounds<T>(s: seq<T>, size: nat)
    requires size > 0
    ensures var c := |Chunks(s, size)|;
      c * size <= |s| + size - 1 < c * size + size
    decreases |s|
  {
    if |s| > size {
      ChunkBounds(s[size..], size);
      var c := |Chunks(s[size..], size)|;
      assert (c + 1) * size == c * size + size;
    }
  }

  lemma DivUnique(x: int, d: nat, c: int)
    requires d > 0 && c * d <= x < c * d + d
    ensures x / d == c
  {
    var q := x / d;
    assert q * d <= x < q * d + d;
    MulStep(q, c, d);
    MulStep(c, q, d);
  }

  lemma MulStep(a: int, b: int, d: nat)
    requires d > 0
    ensures a < b ==> a * d + d <= b * d
  {
    if a < b {
      MulGrows(b - a - 1, d);
      MulDistrib(b - a, a, d);
    }
  }

  lemma MulSucc(k: int, d: int)
    ensures (k + 1) * d == k * d + d
  {
  }

  lemma MulDistrib(x: int, y: int, d: int)
    ensures (x + y) * d == x * d + y * d
  {
  }

  lemma {:induction false} MulGrows(n: nat, d: nat)
    ensures (n + 1) * d >= d
  {
    if n > 0 {
      MulGrows(n - 1, d);
      MulSucc(n, d);
    }
  }
}
