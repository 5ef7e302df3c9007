// Packing generated catalog blocks, in order, into as few policy fragments as
// the expression limit and the packing target allow.
module CatalogPacking {
  import opened Wrappers

  const EXPRESSION_MAX_CHARS := 32_768
  const CHUNK_TARGET_CHARS := 24_000
  const FRAGMENT_COUNT := 12

  type Block = string

  const OPENING: string := "@{\n        return new JObject(\n"
  const SEPARATOR: string := ",\n\n"
  const CLOSING: string := "\n        );\n    }"
  const EMPTY_CATALOG: string := "@{\n        return new JObject();\n    }"

  function Join(blocks: seq<Block>): string {
    if blocks == [] then ""
    else if |blocks| == 1 then blocks[0]
    else Join(blocks[..|blocks|-1]) + SEPARATOR + blocks[|blocks|-1]
  }

  function CatalogExpression(blocks: seq<Block>): string {
    if blocks == [] then EMPTY_CATALOG else OPENING + Join(blocks) + CLOSING
  }

  // The rendered length, without rendering.
  function Size(blocks: seq<Block>): nat {
    if blocks == [] then 38 else 45 + Weight(blocks)
  }

  // Each block with the separator, or the rest of the frame, after it.
  function Weight(blocks: seq<Block>): nat {
    if blocks == [] then 0 else Weight(blocks[..|blocks|-1]) + |blocks[|blocks|-1]| + 3
  }

  lemma {:induction false} JoinLength(blocks: seq<Block>)
    requires blocks != []
    ensures |Join(blocks)| + 3 == Weight(blocks)
  {
    if |blocks| > 1 {
      JoinLength(blocks[..|blocks|-1]);
    } else {
      assert blocks[..0] == [];
    }
  }

  lemma SizeIsLength(blocks: seq<Block>)
    ensures Size(blocks) == |CatalogExpression(blocks)|
  {
    if blocks != [] {
      JoinLength(blocks);
    }
  }

  // ----- Splits

  function Flatten(chunks: seq<seq<Block>>): seq<Block> {
    if chunks == [] then [] else Flatten(chunks[..|chunks|-1]) + chunks[|chunks|-1]
  }

  // The blocks in order, in chunks that are not empty.
  ghost predicate Splits(chunks: seq<seq<Block>>, blocks: seq<Block>) {
    Flatten(chunks) == blocks && forall c :: c in chunks ==> c != []
  }

  // A chunk is a single block or renders within the target.
  predicate Fits(chunk: seq<Block>) {
    |chunk| == 1 || Size(chunk) <= CHUNK_TARGET_CHARS
  }

  ghost predicate FittingSplit(chunks: seq<seq<Block>>, blocks: seq<Block>) {
    Splits(chunks, blocks) && forall c :: c in chunks ==> Fits(c)
  }

  ghost predicate Fewest(chunks: seq<seq<Block>>, blocks: seq<Block>) {
    forall other :: FittingSplit(other, blocks) ==> |chunks| <= |other|
  }

  predicate Oversized(block: Block) {
    Size([block]) >= EXPRESSION_MAX_CHARS
  }

  // ----- Sizes

  lemma {:induction false} WeightConcat(a: seq<Block>, b: seq<Block>)
    ensures Weight(a + b) == Weight(a) + Weight(b)
  {
    if b == [] {
      assert a + b == a;
    } else {
      WeightConcat(a, b[..|b|-1]);
      assert (a + b)[..|a + b|-1] == a + b[..|b|-1];
    }
  }

  // A longer stretch of the same blocks is at least as large.
  lemma SizeMonotone(blocks: seq<Block>, i: nat, i': nat, j': nat, j: nat)
    requires i <= i' < j' <= j <= |blocks|
    ensures Size(blocks[i'..j']) <= Size(blocks[i..j])
  {
    var a, b, c := blocks[i..i'], blocks[i'..j'], blocks[j'..j];
    assert blocks[i..j] == a + b + c;
    WeightConcat(a + b, c);
    WeightConcat(a, b);
  }

  // ----- The greedy split stays ahead

  // No fitting split has placed more blocks in its first k chunks.
  ghost predicate Ahead(chunks: seq<seq<Block>>, blocks: seq<Block>) {
    forall other :: FittingSplit(other, blocks) ==> AheadOf(chunks, other)
  }

  ghost predicate AheadOf(chunks: seq<seq<Block>>, other: seq<seq<Block>>) {
    forall k :: 0 <= k <= |chunks| && k <= |other| ==> |Flatten(other[..k])| <= |Flatten(chunks[..k])|
  }

  lemma {:induction false} FlattenPrefix(chunks: seq<seq<Block>>, k: nat)
    requires k <= |chunks|
    ensures Flatten(chunks[..k]) <= Flatten(chunks)
    decreases |chunks|
  {
    if k == |chunks| {
      assert chunks[..k] == chunks;
    } else {
      FlattenPrefix(chunks[..|chunks|-1], k);
      assert chunks[..|chunks|-1][..k] == chunks[..k];
    }
  }

  // The chunk of another split that passes both ends of a closed chunk and the
  // block it was closed for would not fit.
  lemma ClosedAhead(other: seq<seq<Block>>, blocks: seq<Block>, m: nat, p: nat, q: nat)
    requires FittingSplit(other, blocks) && m < |other|
    requires |Flatten(other[..m])| <= p < q < |blocks|
    requires Size(blocks[p..q+1]) > CHUNK_TARGET_CHARS
    ensures |Flatten(other[..m+1])| <= q
  {
    var before, after := Flatten(other[..m]), Flatten(other[..m+1]);
    assert other[..m+1][..m] == other[..m] && after == before + other[m];
    FlattenPrefix(other, m + 1);
    assert other[m] in other && Fits(other[m]);
    if |after| > q {
      assert other[m] == blocks[|before|..|after|];
      SizeMonotone(blocks, |before|, p, q + 1, |after|);
    }
  }

  lemma CloseChunk(chunks: seq<seq<Block>>, current: seq<Block>, blocks: seq<Block>, i: nat)
    requires i < |blocks| && current != [] && Flatten(chunks) + current == blocks[..i]
    requires Ahead(chunks, blocks) && Size(current + [blocks[i]]) > CHUNK_TARGET_CHARS
    ensures Ahead(chunks + [current], blocks)
  {
    var p := |Flatten(chunks)|;
    assert blocks[p..i] == current && blocks[p..i+1] == current + [blocks[i]];
    forall other | FittingSplit(other, blocks)
      ensures AheadOf(chunks + [current], other)
    {
      CloseChunkOf(chunks, current, blocks, i, other);
    }
  }

  lemma CloseChunkOf(chunks: seq<seq<Block>>, current: seq<Block>, blocks: seq<Block>, i: nat, other: seq<seq<Block>>)
    requires i < |blocks| && current != [] && Flatten(chunks) + current == blocks[..i]
    requires FittingSplit(other, blocks) && AheadOf(chunks, other)
    requires Size(blocks[|Flatten(chunks)|..i+1]) > CHUNK_TARGET_CHARS
    ensures AheadOf(chunks + [current], other)
  {
    var closed, m := chunks + [current], |chunks|;
    assert closed[..m] == chunks && chunks[..m] == chunks && closed[..m+1] == closed;
    if m < |other| {
      ClosedAhead(other, blocks, m, |Flatten(chunks)|, i);
    }
    assert |Flatten(closed)| == i;
    forall k | 0 <= k <= |closed| && k <= |other|
      ensures |Flatten(other[..k])| <= |Flatten(closed[..k])|
    {
      if k <= m {
        assert closed[..k] == chunks[..k];
      } else {
        assert k == m + 1;
      }
    }
  }

  lemma AheadIsFewest(chunks: seq<seq<Block>>, current: seq<Block>, blocks: seq<Block>)
    requires current != [] && Flatten(chunks) + current == blocks && Ahead(chunks, blocks)
    ensures Fewest(chunks + [current], blocks)
  {
    forall other | FittingSplit(other, blocks)
      ensures |chunks| < |other|
    {
      assert other[..|other|] == other;
      if |other| <= |chunks| {
        FlattenPrefix(chunks, |other|);
      }
    }
  }

  // Splits the blocks in order into chunks that fit, using the fewest; refuses
  // exactly when some single block already exceeds the expression limit.
  method ChunkCatalog(blocks: seq<Block>) returns (r: Result<seq<seq<Block>>, Block>)
    ensures r.Ok? ==> FittingSplit(r.value, blocks) && Fewest(r.value, blocks)
    ensures r.Ok? ==> forall c :: c in r.value ==> Size(c) < EXPRESSION_MAX_CHARS
    ensures r.Ok? <==> forall b :: b in blocks ==> !Oversized(b)
    ensures r.Err? ==> r.error in blocks && Oversized(r.error)
  {
    var chunks: seq<seq<Block>> := [];
    var current: seq<Block> := [];
    for i := 0 to |blocks|
      invariant Flatten(chunks) + current == blocks[..i]
      invariant i > 0 ==> current != []
      invariant forall c :: c in chunks ==> c != [] && Fits(c) && Size(c) < EXPRESSION_MAX_CHARS
      invariant current != [] ==> Fits(current) && Size(current) < EXPRESSION_MAX_CHARS
      invariant forall b :: b in blocks[..i] ==> !Oversized(b)
      invariant Ahead(chunks, blocks)
    {
      var block := blocks[i];
      assert block in blocks && blocks[..i+1] == blocks[..i] + [block];
      var candidate := current + [block];
      if current != [] && Size(candidate) > CHUNK_TARGET_CHARS {
        CloseChunk(chunks, current, blocks, i);
        ghost var before := chunks;
        chunks := chunks + [current];
        assert chunks[..|before|] == before;
        current := [block];
      } else {
        SizeMonotone(candidate, 0, |current|, |candidate|, |candidate|);
        assert candidate[0..] == candidate && candidate[|current|..] == [block];
        current := candidate;
      }
      assert Size(current) > CHUNK_TARGET_CHARS ==> current == [block];
      if Size(current) >= EXPRESSION_MAX_CHARS {
        return Err(block);
      }
    }
    assert blocks[..|blocks|] == blocks;
    if current != [] {
      AheadIsFewest(chunks, current, blocks);
      assert (chunks + [current])[..|chunks|] == chunks;
      chunks := chunks + [current];
    }
    return Ok(chunks);
  }

  datatype Refusal = EntryTooLarge | TooManyFragments(needed: nat)

  // The chunks of the fixed number of fragments: refused only when a block is
  // too large by itself or no fitting split is small enough.
  method FragmentChunks(blocks: seq<Block>) returns (r: Result<seq<seq<Block>>, Refusal>)
    ensures r.Ok? ==>
      && |r.value| == FRAGMENT_COUNT && Flatten(r.value) == blocks
      && forall c :: c in r.value ==> Size(c) < EXPRESSION_MAX_CHARS
    ensures r.Ok? <==>
      && (forall b :: b in blocks ==> !Oversized(b))
      && exists other :: FittingSplit(other, blocks) && |other| <= FRAGMENT_COUNT
  {
    var packed := ChunkCatalog(blocks);
    if packed.Err? {
      return Err(EntryTooLarge);
    }
    var chunks := packed.value;
    if |chunks| > FRAGMENT_COUNT {
      return Err(TooManyFragments(|chunks|));
    }
    while |chunks| < FRAGMENT_COUNT
      invariant |chunks| <= FRAGMENT_COUNT && Flatten(chunks) == blocks
      invariant forall c :: c in chunks ==> Size(c) < EXPRESSION_MAX_CHARS
    {
      assert (chunks + [[]])[..|chunks|] == chunks;
      chunks := chunks + [[]];
    }
    return Ok(chunks);
  }
}
