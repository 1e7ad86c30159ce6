/**
 * The ingestion script: every page's OCR text is cut into chunks, every chunk
 * is embedded, and one record per chunk is collected, in page order and then
 * chunk order, for a single upsert into the vector index.
 *
 * The OCR text of the pages is given as input and the embedder is a function
 * parameter; the index calls themselves are outside the model.
 */
module Ingest {
  import opened Text
  import opened Chunker
  import opened Embeddings

  const Namespace := "notes"

  /** A record's metadata: the file it came from, its 1-based page number,
      its 0-based chunk index and the chunk's text. */
  datatype Metadata = Metadata(source: string, page: nat, chunk: nat, text: string)

  /** One vector-index record: `{"id", "values", "metadata"}`. */
  datatype Record = Record(id: string, values: Embedding, metadata: Metadata)

  /** `f"{pdf_file}-page-{page}-chunk-{chunk}"` */
  function RecordId(pdfFile: string, page: nat, chunk: nat): (id: string)
  {
    pdfFile + "-page-" + NatToString(page) + "-chunk-" + NatToString(chunk)
  }

  /** Two numbers printed in front of a dash: the digits end where the dash
      starts, so equal texts mean equal numbers. */
  lemma DigitsBeforeDash(a1: string, r1: string, a2: string, r2: string)
    requires AllDigits(a1) && AllDigits(a2)
    requires |r1| > 0 && r1[0] == '-' && |r2| > 0 && r2[0] == '-'
    requires a1 + r1 == a2 + r2
    ensures a1 == a2 && r1 == r2
  {
    var t := a1 + r1;
    assert forall k :: 0 <= k < |a1| ==> IsDigit(t[k]);
    assert forall k :: 0 <= k < |a2| ==> IsDigit(t[k]);
    assert t[|a1|] == '-' && t[|a2|] == '-';
    assert |a1| == |a2|;
    assert a1 == t[..|a1|] == a2;
  }

  /** Records of one file with different page or chunk numbers have different ids. */
  lemma RecordIdInjective(pdfFile: string, p1: nat, c1: nat, p2: nat, c2: nat)
    requires RecordId(pdfFile, p1, c1) == RecordId(pdfFile, p2, c2)
    ensures p1 == p2 && c1 == c2
  {
    var a1, b1 := NatToString(p1), NatToString(c1);
    var a2, b2 := NatToString(p2), NatToString(c2);
    var n := |pdfFile| + |"-page-"|;
    var t1 := a1 + ("-chunk-" + b1);
    var t2 := a2 + ("-chunk-" + b2);
    assert t1 == t2 by {
      assert RecordId(pdfFile, p1, c1) == (pdfFile + "-page-") + t1;
      assert RecordId(pdfFile, p2, c2) == (pdfFile + "-page-") + t2;
      assert t1 == RecordId(pdfFile, p1, c1)[n..];
      assert t2 == RecordId(pdfFile, p2, c2)[n..];
    }
    DigitsBeforeDash(a1, "-chunk-" + b1, a2, "-chunk-" + b2);
    assert b1 == b2 by {
      assert b1 == ("-chunk-" + b1)[7..];
      assert b2 == ("-chunk-" + b2)[7..];
    }
    NatToStringInjective(p1, p2);
    NatToStringInjective(c1, c2);
  }

  /** The record the loop body appends for chunk `chunk` of page `page`. */
  function MakeRecord(pdfFile: string, page: nat, chunk: nat, text: string, embed: string -> Embedding): (r: Record)
    ensures r.metadata.text == text && r.values == embed(r.metadata.text)
    ensures r.id == RecordId(r.metadata.source, r.metadata.page, r.metadata.chunk)
    ensures r.metadata.source == pdfFile && r.metadata.page == page && r.metadata.chunk == chunk
  {
    Record(RecordId(pdfFile, page, chunk), embed(text), Metadata(pdfFile, page, chunk, text))
  }

  /** The records of the page at 0-based position `i`: none for a blank page,
      else one per chunk, numbered from 0. */
  function PageRecords(pdfFile: string, i: nat, text: string, embed: string -> Embedding): (rs: seq<Record>)
  {
    if IsBlank(text) then []
    else
      var cs := Chunks(text);
      seq(|cs|, idx requires 0 <= idx < |cs| => MakeRecord(pdfFile, i + 1, idx, cs[idx], embed))
  }

  /** The records of all pages, in page order. */
  function AllRecords(pdfFile: string, pages: seq<string>, embed: string -> Embedding): (rs: seq<Record>)
    decreases |pages|
  {
    if |pages| == 0 then []
    else AllRecords(pdfFile, pages[..|pages| - 1], embed)
         + PageRecords(pdfFile, |pages| - 1, pages[|pages| - 1], embed)
  }

  /** How many chunks the non-blank pages have together. */
  function TotalChunks(pages: seq<string>): nat
    decreases |pages|
  {
    if |pages| == 0 then 0
    else
      var last := pages[|pages| - 1];
      TotalChunks(pages[..|pages| - 1]) + (if IsBlank(last) then 0 else ChunkCount(|last|))
  }

  lemma PageRecordsLength(pdfFile: string, i: nat, text: string, embed: string -> Embedding)
    ensures |PageRecords(pdfFile, i, text, embed)| == if IsBlank(text) then 0 else ChunkCount(|text|)
  {
  }

  lemma PageRecordAt(pdfFile: string, i: nat, text: string, embed: string -> Embedding, idx: nat)
    requires idx < |PageRecords(pdfFile, i, text, embed)|
    ensures !IsBlank(text) && idx < ChunkCount(|text|)
    ensures PageRecords(pdfFile, i, text, embed)[idx] == MakeRecord(pdfFile, i + 1, idx, ChunkAt(text, idx), embed)
  {
    ChunksAt(text, idx);
  }

  lemma AllRecordsPrefix(pdfFile: string, pages: seq<string>, embed: string -> Embedding, i: nat)
    requires i < |pages|
    ensures AllRecords(pdfFile, pages[..i + 1], embed)
         == AllRecords(pdfFile, pages[..i], embed) + PageRecords(pdfFile, i, pages[i], embed)
  {
    assert pages[..i + 1][..i] == pages[..i];
  }

  /** The records of a page up to chunk `idx` extend those before it by the
      record of that chunk. */
  lemma PageRecordsStep(pdfFile: string, i: nat, text: string, embed: string -> Embedding, idx: nat)
    requires !IsBlank(text) && idx < |Chunks(text)|
    ensures var rs := PageRecords(pdfFile, i, text, embed);
      && idx < |rs|
      && rs[..idx + 1] == rs[..idx] + [MakeRecord(pdfFile, i + 1, idx, Chunks(text)[idx], embed)]
  {
    var rs := PageRecords(pdfFile, i, text, embed);
    assert idx < |rs| && rs[idx] == MakeRecord(pdfFile, i + 1, idx, Chunks(text)[idx], embed);
    PrefixStep(rs, idx);
  }

  lemma PrefixStep<T>(s: seq<T>, k: nat)
    requires k < |s|
    ensures s[..k + 1] == s[..k] + [s[k]]
  {
  }

  lemma PageRecordsAll(pdfFile: string, i: nat, text: string, embed: string -> Embedding)
    requires !IsBlank(text)
    ensures var rs := PageRecords(pdfFile, i, text, embed);
      rs[..|Chunks(text)|] == rs
  {
    var rs := PageRecords(pdfFile, i, text, embed);
    assert |rs| == |Chunks(text)|;
  }

  /** The loop of the ingestion script: for every page that is not blank, for
      every chunk of it, embed the chunk and append its record. */
  method BuildRecords(pdfFile: string, pages: seq<string>, embed: string -> Embedding)
    returns (vectors: seq<Record>)
    ensures vectors == AllRecords(pdfFile, pages, embed)
  {
    vectors := [];
    var i := 0;
    while i < |pages|
      invariant 0 <= i <= |pages|
      invariant vectors == AllRecords(pdfFile, pages[..i], embed)
    {
      var text := pages[i];
      AllRecordsPrefix(pdfFile, pages, embed, i);
      if !IsBlank(text) {
        var chunks := Chunks(text);
        var idx := 0;
        while idx < |chunks|
          invariant 0 <= idx <= |chunks|
          invariant vectors == AllRecords(pdfFile, pages[..i], embed) + PageRecords(pdfFile, i, text, embed)[..idx]
        {
          var chunk := chunks[idx];
          var embedding := embed(chunk);
          PageRecordsStep(pdfFile, i, text, embed, idx);
          vectors := vectors + [Record(RecordId(pdfFile, i + 1, idx), embedding, Metadata(pdfFile, i + 1, idx, chunk))];
          idx := idx + 1;
        }
        PageRecordsAll(pdfFile, i, text, embed);
      }
      i := i + 1;
    }
    assert pages[..i] == pages;
  }

  /** The start of the closing console line, before the record count. */
  const UploadedPrefix := "\U{2705} Uploaded "

  /** A count printed between two texts can be read back from where it was put. */
  lemma CountReadsBack(before: string, count: nat, after: string)
    ensures var s := before + NatToString(count) + after;
      var d := |NatToString(count)|;
      && |before| + d <= |s| && s[..|before|] == before
      && AllDigits(s[|before|..|before| + d]) && StringToNat(s[|before|..|before| + d]) == count
      && s[|before| + d..] == after
  {
    var digits := NatToString(count);
    assert (before + digits + after)[|before|..|before| + |digits|] == digits;
    assert (before + digits + after)[|before| + |digits|..] == after;
    NatToStringRoundTrip(count);
  }

  /** The closing console line: `✅ Uploaded {n} chunks from {pdf_file} into Pinecone (namespace: notes)!`.
      It starts with the prefix, the digits after it read back as the count, and
      the rest of the line, which starts with a space, follows them. */
  function UploadMessage(count: nat, pdfFile: string): (m: string)
    ensures var d := |NatToString(count)|;
      && |UploadedPrefix| + d <= |m| && m[..|UploadedPrefix|] == UploadedPrefix
      && AllDigits(m[|UploadedPrefix|..|UploadedPrefix| + d])
      && StringToNat(m[|UploadedPrefix|..|UploadedPrefix| + d]) == count
    ensures m[|UploadedPrefix| + |NatToString(count)|..]
      == " chunks from " + pdfFile + " into Pinecone (namespace: " + Namespace + ")!"
  {
    var rest := " chunks from " + pdfFile + " into Pinecone (namespace: " + Namespace + ")!";
    CountReadsBack(UploadedPrefix, count, rest);
    UploadedPrefix + NatToString(count) + rest
  }

  /** The ingestion run: build the records (their upsert is an index call) and
      report how many there are, which is the number of chunks of the
      non-blank pages. */
  method Upload(pdfFile: string, pages: seq<string>, embed: string -> Embedding)
    returns (vectors: seq<Record>, message: string)
    ensures vectors == AllRecords(pdfFile, pages, embed)
    ensures |vectors| == TotalChunks(pages)
    ensures message == UploadMessage(TotalChunks(pages), pdfFile)
  {
    vectors := BuildRecords(pdfFile, pages, embed);
    AllRecordsCount(pdfFile, pages, embed);
    message := UploadMessage(|vectors|, pdfFile);
  }

  // ---- properties of the record list ----

  /** There are exactly as many records as chunks of non-blank pages. */
  lemma {:induction false} AllRecordsCount(pdfFile: string, pages: seq<string>, embed: string -> Embedding)
    ensures |AllRecords(pdfFile, pages, embed)| == TotalChunks(pages)
    decreases |pages|
  {
    if |pages| > 0 {
      AllRecordsCount(pdfFile, pages[..|pages| - 1], embed);
    }
  }

  /** A file whose pages are all blank yields no records. */
  lemma {:induction false} AllBlankNoRecords(pdfFile: string, pages: seq<string>, embed: string -> Embedding)
    requires forall p :: 0 <= p < |pages| ==> IsBlank(pages[p])
    ensures AllRecords(pdfFile, pages, embed) == []
    decreases |pages|
  {
    if |pages| > 0 {
      var front := pages[..|pages| - 1];
      assert forall p :: 0 <= p < |front| ==> front[p] == pages[p];
      AllBlankNoRecords(pdfFile, front, embed);
      assert IsBlank(pages[|pages| - 1]);
    }
  }

  /** Record `r` is the record of chunk `r.metadata.chunk` of the non-blank
      page numbered `r.metadata.page` (1-based): its text is that chunk, its
      vector is the embedding of that text, and its id and source are derived
      from the file name, page number and chunk index. */
  ghost predicate FromPage(pdfFile: string, pages: seq<string>, embed: string -> Embedding, r: Record) {
    && 1 <= r.metadata.page <= |pages|
    && !IsBlank(pages[r.metadata.page - 1])
    && r.metadata.chunk < ChunkCount(|pages[r.metadata.page - 1]|)
    && r.metadata.text == ChunkAt(pages[r.metadata.page - 1], r.metadata.chunk)
    && r.metadata.source == pdfFile
    && r.id == RecordId(pdfFile, r.metadata.page, r.metadata.chunk)
    && r.values == embed(r.metadata.text)
  }

  lemma FromPageExtend(pdfFile: string, pages: seq<string>, embed: string -> Embedding, r: Record)
    requires |pages| > 0 && FromPage(pdfFile, pages[..|pages| - 1], embed, r)
    ensures FromPage(pdfFile, pages, embed, r)
  {
    assert pages[..|pages| - 1][r.metadata.page - 1] == pages[r.metadata.page - 1];
  }

  /** Every record is the record of one chunk of one non-blank page. */
  lemma {:induction false} RecordAt(pdfFile: string, pages: seq<string>, embed: string -> Embedding, k: nat)
    requires k < |AllRecords(pdfFile, pages, embed)|
    ensures FromPage(pdfFile, pages, embed, AllRecords(pdfFile, pages, embed)[k])
    decreases |pages|
  {
    var n := |pages|;
    var front := pages[..n - 1];
    var before := AllRecords(pdfFile, front, embed);
    var last := PageRecords(pdfFile, n - 1, pages[n - 1], embed);
    assert AllRecords(pdfFile, pages, embed) == before + last;
    if k < |before| {
      RecordAt(pdfFile, front, embed, k);
      FromPageExtend(pdfFile, pages, embed, before[k]);
    } else {
      PageRecordAt(pdfFile, n - 1, pages[n - 1], embed, k - |before|);
    }
  }

  /** Records come in ascending page order and, within a page, in ascending
      chunk order. */
  lemma {:induction false} RecordsOrdered(pdfFile: string, pages: seq<string>, embed: string -> Embedding, a: nat, b: nat)
    requires a < b < |AllRecords(pdfFile, pages, embed)|
    ensures var ma, mb := AllRecords(pdfFile, pages, embed)[a].metadata, AllRecords(pdfFile, pages, embed)[b].metadata;
      ma.page < mb.page || (ma.page == mb.page && ma.chunk < mb.chunk)
    decreases |pages|
  {
    var n := |pages|;
    var front := pages[..n - 1];
    var before := AllRecords(pdfFile, front, embed);
    var last := PageRecords(pdfFile, n - 1, pages[n - 1], embed);
    assert AllRecords(pdfFile, pages, embed) == before + last;
    if b < |before| {
      RecordsOrdered(pdfFile, front, embed, a, b);
    } else if a < |before| {
      RecordAt(pdfFile, front, embed, a);
      PageRecordAt(pdfFile, n - 1, pages[n - 1], embed, b - |before|);
    } else {
      PageRecordAt(pdfFile, n - 1, pages[n - 1], embed, a - |before|);
      PageRecordAt(pdfFile, n - 1, pages[n - 1], embed, b - |before|);
    }
  }

  /** No two records of one run share an id. */
  lemma RecordIdsDistinct(pdfFile: string, pages: seq<string>, embed: string -> Embedding, a: nat, b: nat)
    requires a < |AllRecords(pdfFile, pages, embed)| && b < |AllRecords(pdfFile, pages, embed)|
    requires a != b
    ensures AllRecords(pdfFile, pages, embed)[a].id != AllRecords(pdfFile, pages, embed)[b].id
  {
    var rs := AllRecords(pdfFile, pages, embed);
    RecordAt(pdfFile, pages, embed, a);
    RecordAt(pdfFile, pages, embed, b);
    if a < b {
      RecordsOrdered(pdfFile, pages, embed, a, b);
    } else {
      RecordsOrdered(pdfFile, pages, embed, b, a);
    }
    if rs[a].id == rs[b].id {
      RecordIdInjective(pdfFile, rs[a].metadata.page, rs[a].metadata.chunk, rs[b].metadata.page, rs[b].metadata.chunk);
    }
  }

  /** A record of the pages before the last one keeps its position. */
  lemma RecordKept(pdfFile: string, pages: seq<string>, embed: string -> Embedding, k: nat)
    requires |pages| > 0 && k < |AllRecords(pdfFile, pages[..|pages| - 1], embed)|
    ensures k < |AllRecords(pdfFile, pages, embed)|
    ensures AllRecords(pdfFile, pages, embed)[k] == AllRecords(pdfFile, pages[..|pages| - 1], embed)[k]
  {
  }

  /** A record of the first `m` pages keeps its position in the records of all pages. */
  lemma {:induction false} RecordKeptFrom(pdfFile: string, pages: seq<string>, embed: string -> Embedding, m: nat, k: nat)
    requires m <= |pages| && k < |AllRecords(pdfFile, pages[..m], embed)|
    ensures k < |AllRecords(pdfFile, pages, embed)|
    ensures AllRecords(pdfFile, pages, embed)[k] == AllRecords(pdfFile, pages[..m], embed)[k]
    decreases |pages|
  {
    if m == |pages| {
      assert pages[..m] == pages;
    } else {
      var front := pages[..|pages| - 1];
      assert front[..m] == pages[..m];
      RecordKeptFrom(pdfFile, front, embed, m, k);
      RecordKept(pdfFile, pages, embed, k);
    }
  }

  /** Position `k` of `rs` holds the record of chunk `chunk` of page `page`. */
  ghost predicate HasRecordAt(rs: seq<Record>, k: nat, page: nat, chunk: nat) {
    k < |rs| && rs[k].metadata.page == page && rs[k].metadata.chunk == chunk
  }

  /** The records of the last page follow those of the pages before it. */
  lemma {:induction false} RecordsCompleteLast(pdfFile: string, pages: seq<string>, embed: string -> Embedding, p: nat, idx: nat)
    requires p + 1 == |pages| && !IsBlank(pages[p])
    requires idx < ChunkCount(|pages[p]|)
    ensures HasRecordAt(AllRecords(pdfFile, pages, embed), TotalChunks(pages[..p]) + idx, p + 1, idx)
  {
    var front := pages[..p];
    var before := AllRecords(pdfFile, front, embed);
    var last := PageRecords(pdfFile, p, pages[p], embed);
    var k := TotalChunks(front) + idx;
    assert |before| == TotalChunks(front) by {
      AllRecordsCount(pdfFile, front, embed);
    }
    assert idx < |last| && last[idx].metadata.page == p + 1 && last[idx].metadata.chunk == idx by {
      PageRecordsLength(pdfFile, p, pages[p], embed);
      PageRecordAt(pdfFile, p, pages[p], embed, idx);
    }
    assert AllRecords(pdfFile, pages, embed) == before + last;
    assert AllRecords(pdfFile, pages, embed)[k] == last[idx];
  }

  /** Every chunk of every non-blank page has its record, and it sits after
      the records of all earlier pages. */
  lemma RecordsComplete(pdfFile: string, pages: seq<string>, embed: string -> Embedding, p: nat, idx: nat)
    requires p < |pages| && !IsBlank(pages[p])
    requires idx < ChunkCount(|pages[p]|)
    ensures HasRecordAt(AllRecords(pdfFile, pages, embed), TotalChunks(pages[..p]) + idx, p + 1, idx)
  {
    var upTo := pages[..p + 1];
    assert upTo[..p] == pages[..p] && upTo[p] == pages[p];
    RecordsCompleteLast(pdfFile, upTo, embed, p, idx);
    RecordKeptFrom(pdfFile, pages, embed, p + 1, TotalChunks(pages[..p]) + idx);
  }

  lemma NotFromBlankPage(pdfFile: string, pages: seq<string>, embed: string -> Embedding, r: Record, p: nat)
    requires p < |pages| && IsBlank(pages[p])
    requires FromPage(pdfFile, pages, embed, r)
    ensures r.metadata.page != p + 1
  {
  }

  /** A blank page contributes no record. */
  lemma BlankPageHasNoRecords(pdfFile: string, pages: seq<string>, embed: string -> Embedding, p: nat, k: nat)
    requires p < |pages| && IsBlank(pages[p])
    requires k < |AllRecords(pdfFile, pages, embed)|
    ensures AllRecords(pdfFile, pages, embed)[k].metadata.page != p + 1
  {
    RecordAt(pdfFile, pages, embed, k);
    NotFromBlankPage(pdfFile, pages, embed, AllRecords(pdfFile, pages, embed)[k], p);
  }

  /** Ingesting the same pages again yields the same ids and metadata in the
      same order, whatever vectors the embedder produces, so a second upsert
      overwrites the first record for record. */
  lemma {:induction false} ReingestSameIds(pdfFile: string, pages: seq<string>, e1: string -> Embedding, e2: string -> Embedding, k: nat)
    ensures |AllRecords(pdfFile, pages, e1)| == |AllRecords(pdfFile, pages, e2)|
    ensures k < |AllRecords(pdfFile, pages, e1)| ==>
      AllRecords(pdfFile, pages, e1)[k].id == AllRecords(pdfFile, pages, e2)[k].id &&
      AllRecords(pdfFile, pages, e1)[k].metadata == AllRecords(pdfFile, pages, e2)[k].metadata
    decreases |pages|
  {
    if |pages| > 0 {
      ReingestSameIds(pdfFile, pages[..|pages| - 1], e1, e2, k);
    }
  }
}
