# PARHLO study assistant: ingestion records and answer prompts in Dafny

PARHLO is a retrieval-augmented study assistant made of two scripts.
`upload.py` runs OCR on a PDF. It cuts every page's text into 800-character chunks, embeds each chunk and upserts one record per chunk into a vector index.
`main.py` is a one-field web page. It embeds the question and fetches the five nearest chunks. It then joins their texts into a context block and asks a chat model to answer from it.

This project models the deterministic logic between those external calls:

- `Text`: Python's `str.strip()` (only whether the result is empty is used), `str(n)` and `sep.join(xs)`.
- `Chunker`: the 800-character windows of a page (`upload.py:42`).
- `Ingest`: the blank-page filter and the nested loop that builds the record list, with ids `<file>-page-<n>-chunk-<k>` and metadata `{source, page, chunk, text}`, plus the closing console line (`upload.py:37-59`). The loop is a method with loop invariants. It is proved equal to the function `AllRecords`, and the lemmas about the record list are proved about that function.
- `Answer`: context extraction, the five-context cut, the join, the user turn, the two-message conversation, `perform_rag`'s failure propagation and the "Get Answer" handler (`main.py:48-95`).
- `Embeddings`: the type of an embedding vector, which is never inspected.
- `Wrappers`: `Option` and `Result`.

External services are modelled as function parameters:

- The page texts that OCR produces are an input sequence of strings.
- The embedder is a parameter: `string -> Embedding` for ingestion, and `string -> Result<Embedding, string>` for the query.
- The index query is a parameter from the vector, `top_k`, the namespace and the `include_metadata` flag to the matches, or a failure. The model always passes `top_k = 5`, namespace `notes` and `include_metadata = True` (`main.py:53-58`).
- The chat model is a parameter from the model name and the messages to the reply, or a failure.

A failure carries the text Python would print for the exception (`str(e)`).

## Model

| member | source | states |
|---|---|---|
| Text.TrimStartSpec | upload.py:41 | `lstrip` keeps a suffix, removes only whitespace and stops at the first non-whitespace character |
| Text.TrimEndSpec | upload.py:41 | `rstrip` keeps a prefix, removes only whitespace and stops at the last non-whitespace character |
| Text.BlankIffAllSpace | upload.py:41 | `text.strip()` is empty exactly when every character is whitespace (both directions) |
| Text.NatToString | upload.py:46 | `str(n)` is a non-empty string of decimal digits with no leading zero |
| Text.NatToStringRoundTrip | upload.py:46 | reading the digits of `str(n)` back gives `n` |
| Text.NatToStringInjective | upload.py:46 | distinct page or chunk numbers print differently |
| Text.JoinLength | main.py:62 | a join is as long as its pieces plus one separator between each two neighbours |
| Text.JoinAppend | main.py:62 | joining one more piece appends a separator and that piece |
| Text.JoinPieceAt | main.py:62 | every piece appears unchanged at its offset in the join |
| Text.JoinSeparatorAfter | main.py:62 | a separator follows every piece but the last |
| Text.JoinFirstPiece | main.py:62 | a join starts with its first piece |
| Chunker.ChunkAt | upload.py:42 | window `idx` is 1 to 800 characters long, and exactly 800 unless it is the last |
| Chunker.Chunks | upload.py:42 | ceil(len/800) chunks, each 1 to 800 characters long, all but the last exactly 800 |
| Chunker.ChunksAt | upload.py:42 | chunk `idx` is `text[800*idx : 800*idx+800]`, with the end clipped to the text's length |
| Chunker.ChunksConcat | upload.py:42 | the chunks concatenated in order give back the page's text exactly |
| Chunker.ChunksEmptyIff | upload.py:42 | a page has no chunk exactly when its text is empty |
| Ingest.RecordIdInjective | upload.py:46 | two ids of the same file are equal only if their page numbers and chunk indices are equal |
| Ingest.MakeRecord | upload.py:44-53 | a record's vector is the embedding of its own text; its id is built from its source, page and chunk; source, page, chunk and text are the values given |
| Ingest.PageRecordsLength | upload.py:41-43 | a blank page yields no record; any other page yields one record per chunk |
| Ingest.PageRecordAt | upload.py:43-53 | record `idx` of a page carries id `<file>-page-<i+1>-chunk-<idx>`, the embedding of chunk `idx`, and metadata source, page `i+1`, chunk `idx` and the chunk text |
| Ingest.BuildRecords | upload.py:37-54 | the nested loop's list is exactly `AllRecords`: pages in order, blank ones skipped, chunks in order |
| Ingest.Upload | upload.py:37-59 | the run builds those records; the number it prints is the total chunk count of the non-blank pages |
| Ingest.AllRecordsCount | upload.py:39-54 | the number of records is the sum of ceil(len/800) over non-blank pages |
| Ingest.RecordAt | upload.py:39-54 | every record comes from a non-blank page (1-based) and one of its chunks (0-based); its text is that chunk, its vector is that chunk's embedding, and its id and source come from the file name, page and chunk |
| Ingest.RecordsOrdered | upload.py:39-54 | records are in ascending page order, then ascending chunk order |
| Ingest.RecordIdsDistinct | upload.py:46 | no two records of one run share an id |
| Ingest.RecordsComplete | upload.py:39-54 | every chunk of every non-blank page has its record, placed after all records of earlier pages |
| Ingest.BlankPageHasNoRecords | upload.py:41 | no record carries the number of a blank page |
| Ingest.AllBlankNoRecords | upload.py:41 | a file whose pages are all blank yields an empty record list |
| Ingest.RecordKeptFrom | upload.py:37-54 | records are only appended: each record of the first `m` pages keeps its position in the final list |
| Ingest.UploadMessage | upload.py:59 | the console line is `"✅ Uploaded "`, then the digits of the record count, which read back as that count, then exactly `" chunks from <file> into Pinecone (namespace: notes)!"`; the space after the digits ends the number |
| Ingest.ReingestSameIds | upload.py:44-53 | ingesting the same pages again gives the same count, ids and metadata in the same order, whatever the embedder returns |
| Answer.ContextOf | main.py:61 | a match's context is its metadata `text`; without one, its `id`; without that, `""`; a match without metadata raises `KeyError('metadata')` |
| Answer.Contexts | main.py:61 | the comprehension succeeds exactly when every match has metadata, and then gives one context per match; otherwise it fails with `KeyError('metadata')` |
| Answer.ContextsSpec | main.py:61 | on success, context `i` is the context of match `i`, so match order is kept |
| Answer.FirstContexts | main.py:62 | `contexts[:5]` is the first `min(len, 5)` contexts, unchanged |
| Answer.ContextText | main.py:62 | the block starts with the first context |
| Answer.ContextTextPieces | main.py:62 | at most the first five contexts are used, in order; each appears unchanged in the block, separated by `"\n\n-------\n\n"`, and the block has no other text |
| Answer.ContextTextIgnoresRest | main.py:62 | contexts after the fifth never change the block |
| Answer.ContextTextSmall | main.py:62 | no context gives `""`; one context gives its text with no separator |
| Answer.AugmentedQuery | main.py:65 | the user turn is `"Context:\n"`, the block, `"\n\nQuestion: "` and the question exactly as typed |
| Answer.Conversation | main.py:70-73 | the conversation has exactly two messages: the system prompt with role `system`, then the user turn built from the block and the question with role `user` |
| Answer.PerformRag | main.py:48-76 | `perform_rag` returns only if the embedder and the index query succeeded and every match had metadata |
| Answer.PerformRagAnswer | main.py:48-76 | once embedding, query and metadata succeed, `perform_rag` returns or raises exactly what the chat model returns or raises for the conversation built from the matches of a top-5 query, with metadata, in the `notes` namespace |
| Answer.PerformRagNoMatches | main.py:61-76 | with zero matches the model is still asked, with user turn `"Context:\n\n\nQuestion: " + query` |
| Answer.PerformRagPropagates | main.py:50-58 | an embedder or index failure is what `perform_rag` raises |
| Answer.PerformRagMissingMetadata | main.py:61-62 | a match without metadata makes `perform_rag` raise, even a match after the fifth |
| Answer.HandleGetAnswer | main.py:85-95 | the warning exactly for a blank question; otherwise the heading `"✅ Explanation:"` over the answer `perform_rag` returned for the unstripped question, or `"❌ Error: "` plus the exception's description |
| Answer.BlankQuestionNotAsked | main.py:85-95 | for a whitespace-only question the outcome is the warning, whatever `perform_rag` would do |
| Answer.ErrorMessageParts | main.py:92-93 | the error text is the prefix `"❌ Error: "` followed by the exception's description |
| Answer.Page | main.py:85-95 | the page wired to `perform_rag`: the warning exactly for a blank question; otherwise the heading and `perform_rag`'s answer when it returns, or the error text built from what it raised |

## Left out

- OCR (`pdf2image`, `pytesseract`, `upload.py:35,40`) and `text.py`, which only runs OCR and prints pages: the page texts are an input.
- Embedding computation (`upload.py:44`, `main.py:50`): a neural model over floats. It is a function parameter. The 384-dimension size is configuration, kept only as the unused constant `Embeddings.Dimension`.
- Index creation and the index name (`upload.py:20-26`), `upsert` (`upload.py:57`) and `query` (`main.py:53-58`): network calls. Similarity ordering and the top-k bound are promises of the index service. The model does not assume them, which is why the five-context cut is proved on its own.
- The chat completion (`main.py:68-76`): a network call, modelled as a parameter from the model name and messages to the reply. A reply whose content is `None` is not modelled.
- Streamlit rendering, the spinner, page configuration, `.env` loading and API keys (`main.py:9-11,79-84`, `upload.py:8-11`).
- Ingest.BuildRecords: the ingestion embedder is total, so an exception during ingestion, which aborts the whole batch, is not modelled.
- Ingest.Upload: the upsert (`upload.py:57`) is assumed to succeed. A failed upsert raises before the console line is printed (`upload.py:59`), and that case is not modelled: `Upload` always returns the message.
- Answer.ContextOf: metadata `text` values are strings. A non-string `text` would make `join` raise, and that is not modelled. A match without metadata is modelled as a plain `KeyError('metadata')`, whose description is `'metadata'`. The index client's own behaviour for a missing metadata field is not part of this model.
