/** The fixed-size chunker of the upload page (app.py, line 61):
    `[file_text[i:i+chunk_size] for i in range(0, len(file_text), chunk_size)]`. */
module Chunker {
  import Text

  function Min(a: int, b: int): int
  {
    if a <= b then a else b
  }

  /** Python's slice `s[lo:hi]` for non-negative bounds: both bounds are
      clamped to the length of `s`, and the slice is empty when they cross. */
  function Slice(s: string, lo: nat, hi: nat): (r: string)
    ensures lo <= hi <= |s| ==> r == s[lo..hi]
    ensures lo <= |s| <= hi ==> r == s[lo..]
    ensures |s| <= lo ==> r == []
  {
    var a, b := Min(lo, |s|), Min(hi, |s|);
    if a <= b then s[a..b] else []
  }

  /** Python's `range(start, stop, step)` for a positive step. */
  function Range(start: nat, stop: nat, step: nat): seq<nat>
    requires step > 0
    decreases stop - start
  {
    if start >= stop then [] else [start] + Range(start + step, stop, step)
  }

  /** `range(start, stop, step)` yields `start + k * step` for exactly the
      `k` that keep it below `stop`. */
  lemma {:induction false} RangeShape(start: nat, stop: nat, step: nat)
    requires step > 0
    ensures var r := Range(start, stop, step);
      && (forall k :: 0 <= k < |r| ==> r[k] == start + k * step)
      && (forall k: nat :: k < |r| <==> start + k * step < stop)
    decreases stop - start
  {
    var r := Range(start, stop, step);
    if start < stop {
      RangeShape(start + step, stop, step);
      var tail := Range(start + step, stop, step);
      forall k | 0 <= k < |r|
        ensures r[k] == start + k * step
      {
        if k > 0 {
          assert r[k] == tail[k - 1];
          assert start + k * step == start + step + (k - 1) * step;
        }
      }
      forall k: nat
        ensures k < |r| <==> start + k * step < stop
      {
        if k > 0 {
          assert start + k * step == start + step + (k - 1) * step;
          assert k < |r| <==> k - 1 < |tail|;
        }
      }
    }
  }

  /** The chunk list of `text` for chunk size `size`, written as the source's
      list comprehension over `range(0, len(text), size)`. */
  function Chunks(text: string, size: nat): seq<string>
    requires size > 0
  {
    var starts := Range(0, |text|, size);
    seq(|starts|, k requires 0 <= k < |starts| => Slice(text, starts[k], starts[k] + size))
  }

  /** The least `k` with `k * d >= n`, i.e. ceil(n / d). */
  function CeilDiv(n: nat, d: nat): nat
    requires d > 0
  {
    (n + d - 1) / d
  }

  lemma CeilDivIsLeast(n: nat, d: nat, k: nat)
    requires d > 0
    ensures (k * d >= n && (k == 0 || (k - 1) * d < n)) <==> k == CeilDiv(n, d)
  {
    var q, r := (n + d - 1) / d, (n + d - 1) % d;
    assert n + d - 1 == q * d + r && 0 <= r < d;
    assert q * d >= n;
    assert q == 0 || (q - 1) * d < n by {
      if q > 0 { assert (q - 1) * d == q * d - d; }
    }
    if k * d >= n && (k == 0 || (k - 1) * d < n) {
      if k < q {
        MulMonotone(k, q - 1, d);
      } else if k > q {
        MulMonotone(q, k - 1, d);
      }
    }
  }

  lemma MulMonotone(a: nat, b: nat, d: nat)
    requires a <= b
    ensures a * d <= b * d
  {
  }

  /** Chunk `k` is the text between `k * size` and `(k + 1) * size`, cut
      short by the end of the text. */
  lemma ChunkAt(text: string, size: nat, k: nat)
    requires size > 0 && k < |Chunks(text, size)|
    ensures k * size < |text|
    ensures Chunks(text, size)[k] == text[k * size..Min((k + 1) * size, |text|)]
  {
    RangeShape(0, |text|, size);
    assert (k + 1) * size == k * size + size;
  }

  /** There are exactly ceil(|text| / size) chunks; none for an empty text. */
  lemma ChunkCount(text: string, size: nat)
    requires size > 0
    ensures |Chunks(text, size)| == CeilDiv(|text|, size)
    ensures Chunks(text, size) == [] <==> text == []
  {
    var n := |Chunks(text, size)|;
    RangeShape(0, |text|, size);
    assert n * size >= |text| by {
      assert !(0 + n * size < |text|);
    }
    if n > 0 {
      assert 0 + (n - 1) * size < |text|;
    }
    CeilDivIsLeast(|text|, size, n);
    if text != [] {
      assert 0 + 0 * size < |text|;
    }
  }

  /** Every chunk but the last holds exactly `size` characters; the last
      holds between 1 and `size`. */
  lemma ChunkLengths(text: string, size: nat)
    requires size > 0
    ensures var c := Chunks(text, size);
      && (forall k :: 0 <= k < |c| - 1 ==> |c[k]| == size)
      && (c != [] ==> 1 <= |c[|c| - 1]| <= size)
  {
    var c := Chunks(text, size);
    forall k | 0 <= k < |c| - 1
      ensures |c[k]| == size
    {
      ChunkFull(text, size, k);
    }
    if c != [] {
      var k := |c| - 1;
      ChunkAt(text, size, k);
      MulSucc(k, size);
    }
  }

  lemma ChunkFull(text: string, size: nat, k: nat)
    requires size > 0 && k + 1 < |Chunks(text, size)|
    ensures |Chunks(text, size)[k]| == size
  {
    ChunkAt(text, size, k);
    ChunkAt(text, size, k + 1);
    var b, c := k * size, (k + 1) * size;
    MulSucc(k, size);
    assert c == b + size && c < |text|;
    assert Min(c, |text|) == c;
  }

  lemma MulSucc(k: nat, d: nat)
    ensures (k + 1) * d == k * d + d
  {
  }

  /** A text longer than `size` has one chunk more than what follows its
      first `size` characters. */
  lemma UnfoldCount(text: string, size: nat)
    requires size > 0 && |text| > size
    ensures |Chunks(text, size)| == |Chunks(text[size..], size)| + 1
  {
    var m := |Chunks(text[size..], size)|;
    ChunkCount(text, size);
    ChunkCount(text[size..], size);
    CeilDivIsLeast(|text| - size, size, m);
    MulSucc(m, size);
    CeilDivIsLeast(|text|, size, m + 1);
  }

  lemma UnfoldAt(text: string, size: nat, k: nat)
    requires size > 0 && |text| > size
    requires 0 < k < |Chunks(text, size)| && k - 1 < |Chunks(text[size..], size)|
    ensures Chunks(text, size)[k] == Chunks(text[size..], size)[k - 1]
  {
    var rest := text[size..];
    ChunkAt(text, size, k);
    ChunkAt(rest, size, k - 1);
    var a, b, c := (k - 1) * size, k * size, (k + 1) * size;
    MulSucc(k - 1, size);
    MulSucc(k, size);
    assert b == a + size && c == b + size;
    assert Min(c, |text|) == size + Min(b, |rest|);
    SuffixSlice(text, size, a, Min(b, |rest|));
  }

  lemma SuffixSlice(t: string, d: nat, a: nat, b: nat)
    requires d <= |t| && a <= b <= |t| - d
    ensures t[d..][a..b] == t[d + a..d + b]
  {
  }

  /** Peeling off the first chunk leaves the chunks of the rest of the text. */
  lemma ChunksUnfold(text: string, size: nat)
    requires size > 0 && |text| > size
    ensures Chunks(text, size) == [text[..size]] + Chunks(text[size..], size)
  {
    var c, rest := Chunks(text, size), Chunks(text[size..], size);
    UnfoldCount(text, size);
    ChunkAt(text, size, 0);
    forall k | 0 < k < |c|
      ensures c[k] == rest[k - 1]
    {
      UnfoldAt(text, size, k);
    }
  }

  /** Joining the chunks in order gives back the text: nothing is lost and
      nothing is repeated. */
  lemma {:induction false} ChunksConcat(text: string, size: nat)
    requires size > 0
    ensures Text.Join(Chunks(text, size), "") == text
    decreases |text|
  {
    if |text| == 0 {
      ChunkCount(text, size);
    } else if |text| <= size {
      ChunkCount(text, size);
      CeilDivIsLeast(|text|, size, 1);
      ChunkAt(text, size, 0);
    } else {
      ChunksUnfold(text, size);
      ChunksConcat(text[size..], size);
      ChunkCount(text[size..], size);
      Text.JoinPrepend(text[..size], Chunks(text[size..], size), "");
      assert text == text[..size] + text[size..];
    }
  }

  /** The worked example: ten characters in chunks of four. */
  lemma ChunksExample()
    ensures Chunks("ABCDEFGHIJ", 4) == ["ABCD", "EFGH", "IJ"]
  {
    ChunksUnfold("ABCDEFGHIJ", 4);
    assert "ABCDEFGHIJ"[..4] == "ABCD" && "ABCDEFGHIJ"[4..] == "EFGHIJ";
    ChunksUnfold("EFGHIJ", 4);
    assert "EFGHIJ"[..4] == "EFGH" && "EFGHIJ"[4..] == "IJ";
    ChunkCount("IJ", 4);
    CeilDivIsLeast(2, 4, 1);
    ChunkAt("IJ", 4, 0);
    assert Chunks("IJ", 4) == ["IJ"];
  }
}
