/**
 * The chunker of the ingestion script: a page's text is cut into consecutive,
 * non-overlapping windows of 800 characters, the last one possibly shorter,
 * by `[text[j:j+800] for j in range(0, len(text), 800)]`.
 */
module Chunker {
  import opened Text

  const ChunkSize: nat := 800

  /** The number of windows: ceil(|text| / 800). */
  function ChunkCount(len: nat): nat {
    (len + ChunkSize - 1) / ChunkSize
  }

  /** Window `idx` as the comprehension computes it: `text[800*idx : 800*idx+800]`,
      where Python clips the end of the slice to the length of the text. */
  function ChunkAt(text: string, idx: nat): (chunk: string)
    requires idx < ChunkCount(|text|)
    ensures 0 < |chunk| <= ChunkSize
    ensures idx + 1 < ChunkCount(|text|) ==> |chunk| == ChunkSize
  {
    var start := ChunkSize * idx;
    var end := if start + ChunkSize <= |text| then start + ChunkSize else |text|;
    text[start..end]
  }

  /** The chunks of a page, first window first. */
  function Chunks(text: string): (cs: seq<string>)
    ensures |cs| == ChunkCount(|text|)
    ensures forall k :: 0 <= k < |cs| ==> 0 < |cs[k]| <= ChunkSize
    ensures forall k :: 0 <= k < |cs| - 1 ==> |cs[k]| == ChunkSize
    decreases |text|
  {
    if |text| == 0 then []
    else if |text| <= ChunkSize then [text]
    else [text[..ChunkSize]] + Chunks(text[ChunkSize..])
  }

  /** Chunk `idx` is exactly the comprehension's slice `text[800*idx : 800*idx+800]`. */
  lemma {:induction false} ChunksAt(text: string, idx: nat)
    requires idx < ChunkCount(|text|)
    ensures Chunks(text)[idx] == ChunkAt(text, idx)
    decreases |text|
  {
    if |text| > ChunkSize && idx > 0 {
      var rest := text[ChunkSize..];
      ChunksAt(rest, idx - 1);
      var start := ChunkSize * (idx - 1);
      assert ChunkSize * idx == start + ChunkSize;
      var end := if start + ChunkSize <= |rest| then start + ChunkSize else |rest|;
      assert ChunkAt(rest, idx - 1) == rest[start..end];
      SliceOfSuffix(text, ChunkSize, start, end);
      assert Chunks(text)[idx] == Chunks(rest)[idx - 1];
    }
  }

  /** Joining the chunks of a page in order, with nothing between them,
      gives back the page's text exactly. */
  lemma {:induction false} ChunksConcat(text: string)
    ensures Join("", Chunks(text)) == text
    decreases |text|
  {
    if |text| > ChunkSize {
      var rest := text[ChunkSize..];
      ChunksConcat(rest);
      assert Chunks(text)[1..] == Chunks(rest);
      assert text == text[..ChunkSize] + rest;
    }
  }

  /** An empty text has no chunks and a non-empty text has at least one. */
  lemma ChunksEmptyIff(text: string)
    ensures Chunks(text) == [] <==> text == []
  {
  }
}
