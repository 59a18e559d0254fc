/** The text chunker: `chunk_text` cuts the extracted case text at fixed
    offsets into pieces of at most `max_chars` characters. Boundaries may
    fall anywhere, mid-word included. */
module Chunker {
  import opened Text

  /** The default `max_chars`. */
  const DefaultMaxChars: nat := 8000

  /** `ceil(n / k)` in integer arithmetic: `(n + k - 1) // k`. */
  function PieceCount(n: nat, k: nat): nat
    requires k > 0
  {
    (n + k - 1) / k
  }

  /** The loop of `chunk_text` from offset `start` on: while `start` is
      inside the text, take `text[start:start + k]` and move `start` to
      `start + k`. As in the source, `start` is not clamped, so it may step
      past the end, which ends the loop. */
  function ChunksFrom(text: string, k: nat, start: nat): (r: seq<string>)
    requires k > 0
    ensures start >= |text| <==> r == []
    decreases |text| - start
  {
    if start < |text| then [Slice(text, start, start + k)] + ChunksFrom(text, k, start + k)
    else []
  }

  /** From `start` inside the text, the first piece is the slice at
      `start` and the others are the pieces from `start + k` on. */
  lemma ChunksFromHead(text: string, k: nat, start: nat)
    requires k > 0 && start < |text|
    ensures ChunksFrom(text, k, start) == [Slice(text, start, start + k)] + ChunksFrom(text, k, start + k)
  {
  }

  /** The pieces from `start` on are non-empty, at most `k` long, and
      exactly `k` long except the last. */
  lemma {:induction false} ChunkSizes(text: string, k: nat, start: nat)
    requires k > 0
    ensures forall i :: 0 <= i < |ChunksFrom(text, k, start)| ==> 0 < |ChunksFrom(text, k, start)[i]| <= k
    ensures forall i :: 0 <= i < |ChunksFrom(text, k, start)| - 1 ==> |ChunksFrom(text, k, start)[i]| == k
    decreases |text| - start
  {
    if start < |text| {
      var r := ChunksFrom(text, k, start);
      var rest := ChunksFrom(text, k, start + k);
      ChunkSizes(text, k, start + k);
      ChunksFromHead(text, k, start);
      forall i | 0 <= i < |r|
        ensures 0 < |r[i]| <= k && (i < |r| - 1 ==> |r[i]| == k)
      {
        if i > 0 {
          assert r[i] == rest[i - 1];
        } else if i < |r| - 1 {
          assert start + k < |text|;
        }
      }
    }
  }

  /** The pieces from `start` on spell the rest of the text. */
  lemma {:induction false} ChunksSpell(text: string, k: nat, start: nat)
    requires k > 0
    ensures start < |text| ==> Join("", ChunksFrom(text, k, start)) == text[start..]
    decreases |text| - start
  {
    if start >= |text| { return; }
    var end := start + k;
    var piece := Slice(text, start, end);
    var rest := ChunksFrom(text, k, end);
    ChunksFromHead(text, k, start);
    if end < |text| {
      ChunksSpell(text, k, end);
      var r := [piece] + rest;
      assert r[1..] == rest;
      assert Join("", r) == piece + "" + Join("", rest);
      assert piece == text[start..end];
      assert text[start..] == text[start..end] + text[end..];
    } else {
      assert [piece] + rest == [piece];
    }
  }

  /** `chunk_text(text, k)`. A non-positive `k` never advances `start`, so
      the source loops forever on non-empty text; `k > 0` is required. */
  function Chunks(text: string, k: nat): (r: seq<string>)
    requires k > 0
    ensures Join("", r) == text
    ensures |r| == 0 <==> |text| == 0
    ensures forall i :: 0 <= i < |r| ==> 0 < |r[i]| <= k
    ensures forall i :: 0 <= i < |r| - 1 ==> |r[i]| == k
  {
    ChunkSizes(text, k, 0);
    ChunksSpell(text, k, 0);
    ChunksFrom(text, k, 0)
  }

  /** `(i + 1) * k` unfolded, so that offsets step by `k`. */
  lemma MulStep(i: nat, k: nat)
    ensures (i + 1) * k == i * k + k
  {
  }

  /** Integer division is determined by a quotient/remainder decomposition. */
  lemma DivUnique(n: nat, k: nat, q: nat, m: nat)
    requires k > 0 && m < k && n == q * k + m
    ensures n / k == q && n % k == m
  {
    var d := n / k;
    if d > q {
      MulStep(q, k);
      MulMono(q + 1, d, k);
    } else if d < q {
      MulStep(d, k);
      MulMono(d + 1, q, k);
    }
  }

  lemma MulMono(a: nat, b: nat, k: nat)
    requires a <= b
    ensures a * k <= b * k
  {
    assert b * k == a * k + (b - a) * k;
  }

  /** From `start` on there are `c` pieces with `(c - 1) * k < n <= c * k`,
      `n` the length still to cut: the least `c` whose `c` pieces of `k`
      cover `n`. */
  lemma {:induction false} ChunksFromBounds(text: string, k: nat, start: nat)
    requires k > 0 && start < |text|
    ensures var c := |ChunksFrom(text, k, start)|;
      c > 0 && (c - 1) * k < |text| - start <= c * k
    decreases |text| - start
  {
    if start + k < |text| {
      ChunksFromBounds(text, k, start + k);
      var c' := |ChunksFrom(text, k, start + k)|;
      MulStep(c', k);
      MulStep(c' - 1, k);
    } else {
      assert ChunksFrom(text, k, start + k) == [];
    }
  }

  /** `len(chunk_text(text, k)) == ceil(len(text) / k)`. */
  lemma ChunkCount(text: string, k: nat)
    requires k > 0
    ensures |Chunks(text, k)| == PieceCount(|text|, k)
  {
    var n := |text|;
    if n == 0 {
      DivUnique(k - 1, k, 0, k - 1);
    } else {
      ChunksFromBounds(text, k, 0);
      var c := |Chunks(text, k)|;
      MulStep(c - 1, k);
      DivUnique(n + k - 1, k, c, n - 1 - (c - 1) * k);
    }
  }

  /** `i * k`, by repeated addition. */
  function Offset(i: nat, k: nat): nat
  {
    if i == 0 then 0 else Offset(i - 1, k) + k
  }

  lemma {:induction false} OffsetIsProduct(i: nat, k: nat)
    ensures Offset(i, k) == i * k
  {
    if i > 0 {
      OffsetIsProduct(i - 1, k);
      MulStep(i - 1, k);
    }
  }

  /** Piece `i` (counted from `start`) is the clamped slice
      `text[start + i*k : start + i*k + k]`. */
  lemma {:induction false} ChunksFromAt(text: string, k: nat, start: nat, i: nat)
    requires k > 0 && i < |ChunksFrom(text, k, start)|
    ensures start + Offset(i, k) < |text|
    ensures ChunksFrom(text, k, start)[i] == Slice(text, start + Offset(i, k), start + Offset(i, k) + k)
    decreases i
  {
    ChunksFromHead(text, k, start);
    if i > 0 {
      ChunksFromAt(text, k, start + k, i - 1);
      assert start + k + Offset(i - 1, k) == start + Offset(i, k);
      assert ChunksFrom(text, k, start)[i] == ChunksFrom(text, k, start + k)[i - 1];
    }
  }

  /** Piece `i` of `chunk_text(text, k)` is `text[i*k : (i+1)*k]`. */
  lemma ChunkAt(text: string, k: nat, i: nat)
    requires k > 0 && i < |Chunks(text, k)|
    ensures i * k < |text|
    ensures Chunks(text, k)[i] == Slice(text, i * k, i * k + k)
  {
    ChunksFromAt(text, k, 0, i);
    OffsetIsProduct(i, k);
  }

  /** The last piece carries the remainder `len(text) mod k`, or a full `k`
      when `k` divides the length. */
  lemma LastChunkLength(text: string, k: nat)
    requires k > 0 && text != []
    ensures var r := Chunks(text, k);
      |r[|r| - 1]| == (if |text| % k == 0 then k else |text| % k)
  {
    var r := Chunks(text, k);
    var c := |r|;
    var n := |text|;
    ChunksFromBounds(text, k, 0);
    ChunkAt(text, k, c - 1);
    MulStep(c - 1, k);
    if n == c * k {
      DivUnique(n, k, c, 0);
    } else {
      DivUnique(n, k, c - 1, n - (c - 1) * k);
    }
  }

  /** The loop of `chunk_text` as written: append `text[start:end]`, move
      `start` to `end`, until `start` reaches the length. */
  method ChunkLoop(text: string, k: nat) returns (chunks: seq<string>)
    requires k > 0
    ensures chunks == Chunks(text, k)
    ensures Join("", chunks) == text
  {
    chunks := [];
    var start: nat := 0;
    while start < |text|
      invariant chunks + ChunksFrom(text, k, start) == ChunksFrom(text, k, 0)
      decreases |text| - start
    {
      var end := start + k;
      var piece := Slice(text, start, end);
      AppendPiece(text, k, start, chunks);
      chunks := chunks + [piece];
      start := end;
    }
    assert ChunksFrom(text, k, start) == [];
    assert chunks == ChunksFrom(text, k, 0);
  }

  /** One turn of the loop moves one piece from what is left to what is done. */
  lemma AppendPiece(text: string, k: nat, start: nat, done: seq<string>)
    requires k > 0 && start < |text|
    ensures (done + [Slice(text, start, start + k)]) + ChunksFrom(text, k, start + k)
      == done + ChunksFrom(text, k, start)
  {
  }
}
