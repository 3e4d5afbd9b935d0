/**
 Overlapping token chunks (apps/core/neuromem_core/chunking.py:29-57). Tokens are given; a chunk
 holds the tokens its text decodes from.
 */
module Chunking {
  import opened Wrappers

  datatype Chunk<T> = Chunk(ordinal: nat, tokens: seq<T>, start: nat, end: nat)

  function Overlap(maxTokens: int, ratio: real): int {
    (maxTokens as real * ratio).Floor
  }

  lemma ProductBounds(m: real, ratio: real, product: real)
    requires m >= 1.0 && 0.0 <= ratio < 0.5 && product == m * ratio
    ensures 0.0 <= product && product + product < m
  {
    var left := 1.0 - 2.0 * ratio;
    assert m * left > 0.0;
    assert m * left == m - 2.0 * product;
  }

  lemma FloorSmall(product: real, n: int)
    requires 0.0 <= product && product + product < n as real
    ensures 0 <= 2 * product.Floor < n
  {
  }

  lemma OverlapSmall(maxTokens: int, ratio: real)
    requires maxTokens >= 1 && 0.0 <= ratio < 0.5
    ensures 0 <= 2 * Overlap(maxTokens, ratio) < maxTokens
  {
    var product := maxTokens as real * ratio;
    ProductBounds(maxTokens as real, ratio, product);
    FloorSmall(product, maxTokens);
  }

  /** The chunks cover the tokens in order, each but the last full, neighbours sharing exactly the overlap. */
  ghost predicate Chunked<T>(chunks: seq<Chunk<T>>, tokens: seq<T>, maxTokens: nat, overlap: nat) {
    && chunks != [] && chunks[0].start == 0 && chunks[|chunks| - 1].end == |tokens|
    && (forall i | 0 <= i < |chunks| :: Piece(chunks[i], i, tokens, maxTokens))
    && forall i | 0 <= i < |chunks| - 1 ::
         chunks[i].end - chunks[i].start == maxTokens && chunks[i + 1].start == chunks[i].end - overlap && chunks[i].end < chunks[i + 1].end
  }

  ghost predicate Piece<T>(c: Chunk<T>, i: nat, tokens: seq<T>, maxTokens: nat) {
    c.ordinal == i && c.start < c.end <= |tokens| && c.end - c.start <= maxTokens && c.tokens == tokens[c.start..c.end]
  }

  /** The chunks made before the last token is reached. */
  ghost predicate Prefix<T>(chunks: seq<Chunk<T>>, tokens: seq<T>, maxTokens: nat, overlap: nat) {
    && (forall i | 0 <= i < |chunks| :: Piece(chunks[i], i, tokens, maxTokens) && chunks[i].end - chunks[i].start == maxTokens && chunks[i].end < |tokens|)
    && (chunks != [] ==> chunks[0].start == 0)
    && forall i | 0 <= i < |chunks| - 1 :: chunks[i + 1].start == chunks[i].end - overlap
  }

  /** Where the next chunk starts. */
  function NextStart<T>(chunks: seq<Chunk<T>>, overlap: nat): int {
    if chunks == [] then 0 else chunks[|chunks| - 1].end - overlap
  }

  lemma FullChunk<T>(chunks: seq<Chunk<T>>, tokens: seq<T>, maxTokens: nat, overlap: nat, c: Chunk<T>)
    requires Prefix(chunks, tokens, maxTokens, overlap) && Piece(c, |chunks|, tokens, maxTokens)
    requires c.start == NextStart(chunks, overlap) && c.end - c.start == maxTokens && c.end < |tokens|
    ensures Prefix(chunks + [c], tokens, maxTokens, overlap) && NextStart(chunks + [c], overlap) == c.end - overlap
  {
  }

  lemma LastChunk<T>(chunks: seq<Chunk<T>>, tokens: seq<T>, maxTokens: nat, overlap: nat, c: Chunk<T>)
    requires Prefix(chunks, tokens, maxTokens, overlap) && Piece(c, |chunks|, tokens, maxTokens)
    requires c.start == NextStart(chunks, overlap) && c.end == |tokens|
    ensures Chunked(chunks + [c], tokens, maxTokens, overlap)
  {
  }

  method ChunkText<T>(blank: bool, tokens: seq<T>, maxTokens: int, ratio: real) returns (r: Result<seq<Chunk<T>>, string>)
    ensures blank ==> r == Ok([])
    ensures !blank && (maxTokens < 1 || !(0.0 <= ratio < 0.5)) ==> r.Err?
    ensures !blank && maxTokens >= 1 && 0.0 <= ratio < 0.5 ==>
              r.Ok? && 0 <= Overlap(maxTokens, ratio)
              && if tokens == [] then r.value == [] else Chunked(r.value, tokens, maxTokens, Overlap(maxTokens, ratio))
  {
    if blank {
      return Ok([]);
    }
    if maxTokens < 1 {
      return Err("max_tokens must be positive");
    }
    if !(0.0 <= ratio < 0.5) {
      return Err("overlap_ratio must be in [0, 0.5)");
    }
    OverlapSmall(maxTokens, ratio);
    if tokens == [] {
      return Ok([]);
    }
    var overlap := Overlap(maxTokens, ratio);
    var step := maxTokens - overlap;
    var chunks: seq<Chunk<T>> := [];
    var start := 0;
    while start < |tokens|
      invariant 0 <= start < |tokens|  // the range never runs out: the loop ends by its break
      invariant Prefix(chunks, tokens, maxTokens, overlap)
      invariant start == NextStart(chunks, overlap)
      decreases |tokens| - start
    {
      var end := if start + maxTokens < |tokens| then start + maxTokens else |tokens|;
      var chunk := Chunk(|chunks|, tokens[start..end], start, end);
      if end == |tokens| {
        LastChunk(chunks, tokens, maxTokens, overlap, chunk);
      } else {
        FullChunk(chunks, tokens, maxTokens, overlap, chunk);
      }
      chunks := chunks + [chunk];
      if end == |tokens| {
        break;
      }
      start := start + step;
    }
    r := Ok(chunks);
  }

  /** Dropping the overlap of every chunk but the first puts the tokens back together. */
  function Rebuilt<T>(chunks: seq<Chunk<T>>, overlap: nat): seq<T>
    requires forall i | 0 < i < |chunks| :: |chunks[i].tokens| >= overlap
  {
    if chunks == [] then []
    else if |chunks| == 1 then chunks[0].tokens
    else Rebuilt(chunks[..|chunks| - 1], overlap) + chunks[|chunks| - 1].tokens[overlap..]
  }

  lemma Longer<T>(chunks: seq<Chunk<T>>, tokens: seq<T>, maxTokens: nat, overlap: nat)
    requires Chunked(chunks, tokens, maxTokens, overlap)
    ensures forall i | 0 < i < |chunks| :: |chunks[i].tokens| > overlap
  {
    forall i | 0 < i < |chunks| ensures |chunks[i].tokens| > overlap {
      assert chunks[i].start == chunks[i - 1].end - overlap && chunks[i - 1].end < chunks[i].end;
      assert Piece(chunks[i], i, tokens, maxTokens);
    }
  }

  lemma {:induction false} RebuiltUpTo<T>(chunks: seq<Chunk<T>>, tokens: seq<T>, maxTokens: nat, overlap: nat, n: nat)
    requires Chunked(chunks, tokens, maxTokens, overlap) && 0 < n <= |chunks|
    requires forall i | 0 < i < |chunks| :: |chunks[i].tokens| > overlap
    ensures Rebuilt(chunks[..n], overlap) == tokens[..chunks[n - 1].end]
    decreases n
  {
    var c := chunks[n - 1];
    assert Piece(c, n - 1, tokens, maxTokens);
    if n > 1 {
      RebuiltUpTo(chunks, tokens, maxTokens, overlap, n - 1);
      assert chunks[..n][..n - 1] == chunks[..n - 1];
      var previous := chunks[n - 2];
      assert Piece(previous, n - 2, tokens, maxTokens) && c.start == previous.end - overlap && previous.end < c.end;
      Continues(tokens, c.start, previous.end, c.end, overlap);
    }
  }

  lemma Continues<T>(tokens: seq<T>, start: nat, middle: nat, end: nat, overlap: nat)
    requires start + overlap == middle <= end <= |tokens|
    ensures tokens[..middle] + tokens[start..end][overlap..] == tokens[..end]
  {
  }

  lemma ChunksRebuildTokens<T>(chunks: seq<Chunk<T>>, tokens: seq<T>, maxTokens: nat, overlap: nat)
    requires Chunked(chunks, tokens, maxTokens, overlap)
    ensures forall i | 0 < i < |chunks| :: |chunks[i].tokens| > overlap
    ensures Rebuilt(chunks, overlap) == tokens
  {
    Longer(chunks, tokens, maxTokens, overlap);
    RebuiltUpTo(chunks, tokens, maxTokens, overlap, |chunks|);
    assert chunks[..|chunks|] == chunks && tokens[..|tokens|] == tokens;
  }

  /** With a ratio below one half no token is in three chunks. */
  lemma NoTripleOverlap<T>(chunks: seq<Chunk<T>>, tokens: seq<T>, maxTokens: nat, ratio: real, i: nat)
    requires maxTokens >= 1 && 0.0 <= ratio < 0.5 && Overlap(maxTokens, ratio) >= 0
    requires Chunked(chunks, tokens, maxTokens, Overlap(maxTokens, ratio)) && i + 2 < |chunks|
    ensures chunks[i].end <= chunks[i + 2].start
  {
    OverlapSmall(maxTokens, ratio);
    assert chunks[i + 2].start == chunks[i + 1].end - Overlap(maxTokens, ratio);
    assert chunks[i + 1].end - chunks[i + 1].start == maxTokens && chunks[i + 1].start == chunks[i].end - Overlap(maxTokens, ratio);
  }
}
