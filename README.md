# Co-Pilot core, modelled in Dafny

Co-Pilot is a small-business sales and support assistant. It answers from the business's
own documents through retrieval-augmented generation, and it gathers sales leads along
the way. This project models its deterministic core and proves properties of it:

- **Ingestion** (`ingestion.dfy`). Document text is normalised: carriage returns become
  newlines, lines are stripped and blank lines dropped. The text is then cut into
  overlapping fixed-size windows. Each non-empty stripped window becomes a chunk with the
  id `source::p<page or 0>::c<k>`. Chunks are gathered over files and PDF pages, and
  embedded with the model or with the byte-based fallback. The index and the chunk list
  are then written out.
- **Retrieval** (`retrieval.dfy`). The vector store holds an index, a chunk list and an
  embedding width. It loads them from the artifact directory. A search embeds the query,
  asks the nearest-neighbour search for candidates, and keeps the in-range candidates
  whose similarity `max(0, 1 - d)` reaches the threshold, in order.
- **Answer composition** (`rag_chain.dfy`). Questions are rewritten by stripping them.
  The system prompt holds the question and one `[id] (source, page p)` block per
  retrieved chunk. The language model is called; when that call fails, the answer
  becomes an apology followed by a 250-character excerpt per chunk.
- **Sales agent** (`agent.dfy`). Intents are classified by keyword priority. The four
  lead slots are filled by heuristic extraction on every turn. On a sales turn the agent
  captures the interest, then either completes and resets the lead or asks for the first
  missing slot.
- **Analytics** (`analytics.dfy`). An append-only log of answered questions, with counts
  per intent and a placeholder evaluation.

The supporting modules are:

- `text.dfy`: the Python `str` operations used above (`isspace`, `strip`, `lower`,
  `in`/`find`, `splitlines`, `join`, `str(int)`).
- `utf8.dfy`: the UTF-8 encoder of section 3 of RFC 3629.
- `config.dfy`: the retrieval settings (`top_k = 5`, `score_threshold = 0.35`,
  `chunk_size_chars = 1200`, `chunk_overlap_chars = 250`).
- `wrappers.dfy`: `Option`.

The outside world appears only as parameters:

- the sentence-embedding model is an `Encoder` value;
- faiss search is a function `knn` over an index, a query vector and a count;
- the language model is a function returning `Generated(text)` or `Failed`;
- a file on disk is a `SourceFile` snapshot of what reading it returns;
- the two persisted artifacts are the fields of an `ArtifactDir` object;
- the clock's timestamp is an argument of `AddRecord`.

Two behaviours of the code are worth stating plainly:

- Extraction of lead details runs on every turn (rag_pipeline/agent.py:126). Only the
  lead push is limited to sales turns (rag_pipeline/agent.py:132-133).
- The e-mail test `"@gmail.com" in text or "@" in text` comes down to `"@" in text`
  (`Agent.LooksLikeEmailIff`).

## Model

| member | source | states |
|---|---|---|
| Text.Strip | rag_pipeline/ingestion.py:87 | `str.strip()`: the result is no longer than its input, has no whitespace at either end, and is empty exactly when the input is all whitespace |
| Text.StripSlice | rag_pipeline/ingestion.py:97 | the stripped string is the slice between the leading and the trailing whitespace, and both of those are all whitespace |
| Text.StripIdempotent | rag_pipeline/rag_chain.py:28 | stripping twice is stripping once |
| Text.Lower | rag_pipeline/agent.py:45 | `str.lower()` (ASCII letters): same length, no upper-case letter left |
| Text.LowerSpec | rag_pipeline/agent.py:45 | each upper-case ASCII letter becomes its lower-case letter and every other character is kept |
| Text.Find | rag_pipeline/agent.py:94 | the least index at which the pattern occurs; `None` exactly when it occurs nowhere |
| Text.ContainsIff | rag_pipeline/agent.py:46 | `pat in s` holds exactly when `pat` occurs at some index of `s` |
| Text.SplitLines | rag_pipeline/ingestion.py:87 | `str.splitlines()`: no piece holds a line break |
| Text.SplitLinesJoin | rag_pipeline/ingestion.py:87 | splitting non-empty, break-free lines joined by "\n" gives the lines back |
| Text.SplitLinesNonBlank | rag_pipeline/ingestion.py:87 | text with a non-whitespace character has a line with one |
| Text.StripNoBreak | rag_pipeline/ingestion.py:87 | stripping a line without line breaks leaves a string without line breaks |
| Text.JoinHasPart | rag_pipeline/rag_chain.py:39 | every part occurs in the joined string |
| Text.NatToString | rag_pipeline/ingestion.py:99 | the decimal rendering of a natural number is a non-empty run of digits, one digit exactly below 10 |
| Text.IntToString | rag_pipeline/ingestion.py:99 | the rendering of an integer starts with "-" exactly when it is negative |
| Text.NatToStringInjective | rag_pipeline/ingestion.py:99 | different numbers render differently |
| Utf8.EncodeChar | rag_pipeline/ingestion.py:129 | a scalar value takes 1, 2, 3 or 4 bytes by range; only a 1-byte encoding is below 0x80; every byte after the first is a continuation byte and the first is not |
| Utf8.DecodeEncodeChar | rag_pipeline/ingestion.py:129 | decoding the bytes of one character gives the character back |
| Utf8.Encode | rag_pipeline/ingestion.py:129 | a string encodes to at least as many bytes as it has characters |
| Utf8.EncodeAppend | rag_pipeline/ingestion.py:129 | encoding distributes over concatenation |
| Utf8.EncodeAscii | rag_pipeline/ingestion.py:129 | an ASCII string encodes to its own code points, one byte each |
| Ingestion.ReplaceCR | rag_pipeline/ingestion.py:86 | replacing "\r" by "\n" keeps the length and leaves no "\r" |
| Ingestion.CleanLines | rag_pipeline/ingestion.py:87 | the kept lines are stripped, non-empty, and no more than the input lines |
| Ingestion.CleanLinesAppend | rag_pipeline/ingestion.py:87 | cleaning goes line by line in order: the cleaned lines of `a + b` are those of `a` followed by those of `b` |
| Ingestion.CleanLinesKeeps | rag_pipeline/ingestion.py:87 | every line that is not blank survives cleaning as its stripped form |
| Ingestion.Normalize | rag_pipeline/ingestion.py:86-87 | the normal form is stripped, and it is non-empty when some line survives cleaning |
| Ingestion.JoinStripped | rag_pipeline/ingestion.py:87 | joining stripped non-empty lines with "\n" gives a stripped text, non-empty when there is a line |
| Ingestion.NormalizeSpec | rag_pipeline/ingestion.py:86-87 | after normalisation the lines are exactly the cleaned input lines, each non-empty and stripped; no "\r" remains; the whole text is stripped |
| Ingestion.NormalizeBlank | rag_pipeline/ingestion.py:86-87 | text normalises to the empty string exactly when it is empty or whitespace only |
| Ingestion.WindowStart | rag_pipeline/ingestion.py:93-96 | window j starts at or after offset j |
| Ingestion.WindowStartIsMultiple | rag_pipeline/ingestion.py:93-110 | window j starts at offset j·(size − overlap) |
| Ingestion.WindowStartMono | rag_pipeline/ingestion.py:110 | later windows start later |
| Ingestion.Window | rag_pipeline/ingestion.py:96-97 | a window holds at most `size` characters |
| Ingestion.Windows | rag_pipeline/ingestion.py:95-97 | one window per possible start, as many as there are characters |
| Ingestion.WindowsCover | rag_pipeline/ingestion.py:95-110 | with a non-negative overlap every position of the text lies in window p / (size − overlap), at its offset there |
| Ingestion.WindowsPastEnd | rag_pipeline/ingestion.py:95 | once a window starts at or past the end, it and every later window are empty |
| Ingestion.Contents | rag_pipeline/ingestion.py:97-98 | the kept contents are non-empty, stripped, and no more than the windows |
| Ingestion.ContentsBounded | rag_pipeline/ingestion.py:96-98 | each kept content holds between 1 and `size` characters |
| Ingestion.ContentsEmptyTail | rag_pipeline/ingestion.py:95 | empty windows after position j add no content |
| Ingestion.Numbered | rag_pipeline/ingestion.py:99-109 | one chunk record per kept content |
| Ingestion.PageOrZero | rag_pipeline/ingestion.py:99 | `page or 0`: the page number when there is one, else 0 (used by `ChunkId`, whose ids `ChunkIdInjective` separates) |
| Ingestion.CutStart | rag_pipeline/ingestion.py:92-94 | before the first window the loop has emitted nothing and starts at offset 0 |
| Ingestion.CutStep | rag_pipeline/ingestion.py:95-110 | one more window keeps the loop state: its stripped text is emitted with the next counter exactly when it is not empty, and the next window starts one stride later |
| Ingestion.CutDone | rag_pipeline/ingestion.py:95-111 | when the next window starts at or past the end, the emitted chunks are the numbered kept contents of all windows |
| Ingestion.ChunksOfShape | rag_pipeline/ingestion.py:96-107 | the k-th chunk has id `source::p<page or 0>::c<k>`, the given source and page, no section, and a stripped content of 1 to `size` characters |
| Ingestion.ChunkId | rag_pipeline/ingestion.py:99 | the id starts with the source name followed by `::p` |
| Ingestion.ChunksOf | rag_pipeline/ingestion.py:85-111 | what `_chunk_text` returns: the k-th chunk has id `source::p<page or 0>::c<k>`, the given source and page, no section, and a non-empty stripped content |
| Ingestion.ChunkIdInjective | rag_pipeline/ingestion.py:99 | ids that differ in the counter differ |
| Ingestion.ChunksOfDistinctIds | rag_pipeline/ingestion.py:94-109 | the ids of one call are pairwise distinct |
| Ingestion.ChunksOfBlank | rag_pipeline/ingestion.py:93-98 | text yields no chunk exactly when it is empty or whitespace only, so a document with a non-space character yields at least one |
| Ingestion.ContentsNonEmpty | rag_pipeline/ingestion.py:97-98 | a window that does not strip to nothing gives at least one chunk content |
| Ingestion.ChunksOfShort | tests/test_ingestion.py:8-15 | non-empty normalised text of at most size − overlap characters yields exactly one chunk, the whole normalised text, counter 0 |
| Ingestion.FallbackVector | rag_pipeline/ingestion.py:126-131 | the fallback vector has `dim` entries, each between 0 and 1 |
| Ingestion.FallbackVectorSeparates | rag_pipeline/ingestion.py:129-130 | texts whose encodings differ below `dim` get different vectors |
| Ingestion.FallbackVectorAscii | rag_pipeline/ingestion.py:128-130 | an ASCII text is spelled out as code/255 and then padded with zeros |
| Ingestion.FillFallback | rag_pipeline/ingestion.py:128-130 | filling a fresh zeroed array byte by byte gives the fallback vector |
| Ingestion.IngestionEngine.Embed | rag_pipeline/ingestion.py:120-130 | one text's vector: the model's, or the byte fallback at `embedding_dim` (its properties: `IngestionEngine.Embeddings`, `IngestionEngine.EmbedTexts`, `FallbackVector`) |
| Ingestion.IngestionEngine.Embeddings | rag_pipeline/ingestion.py:115-132 | one vector per text |
| Ingestion.ContentsOfChunks | rag_pipeline/ingestion.py:173 | one text per chunk |
| Ingestion.IsPdf | rag_pipeline/ingestion.py:148-152 | the lower-cased suffix is ".pdf" (with `IsTextLike`, it chooses the branch of `FileChunks`; see `PdfChunksPages`, `SkippedFiles`) |
| Ingestion.IsTextLike | rag_pipeline/ingestion.py:148-162 | the lower-cased suffix is ".txt" or ".md" (see `TextFileChunks`, `SkippedFiles`) |
| Ingestion.PdfChunks | rag_pipeline/ingestion.py:153-161 | the chunks of a PDF's pages in page order, page p numbered p + 1 (its properties: `PdfChunksPages`) |
| Ingestion.FileChunks | rag_pipeline/ingestion.py:143-166 | what one input path contributes: its PDF pages' chunks, its text's unpaged chunks, or nothing (its properties: `SkippedFiles`, `PdfChunksPages`, `TextFileChunks`) |
| Ingestion.AllChunks | rag_pipeline/ingestion.py:141-164 | the chunks the file loop gathers, those of each file in file order (its properties: `AllChunksSources`, `AllChunksAppend`) |
| Ingestion.FileChunksSource | rag_pipeline/ingestion.py:143-166 | only a file that exists contributes chunks, and each of them names the file |
| Ingestion.AllChunksSources | rag_pipeline/ingestion.py:141-164 | every chunk of the file loop names a file of the input list that exists |
| Ingestion.AllChunksAppend | rag_pipeline/ingestion.py:141-164 | ingesting two lists of files concatenates their chunks in order |
| Ingestion.SkippedFiles | rag_pipeline/ingestion.py:143-166 | a missing file, or one whose lower-cased suffix is not .pdf/.txt/.md, contributes no chunk |
| Ingestion.PdfChunksPages | rag_pipeline/ingestion.py:153-161 | every chunk of a PDF names the file and a page between 1 and the page count |
| Ingestion.TextFileChunks | rag_pipeline/ingestion.py:162-164 | a text or markdown file gives unpaged chunks named after the file |
| Ingestion.ArtifactDir.constructor | rag_pipeline/ingestion.py:64-65 | the artifact directory holds the given index and chunk list |
| Ingestion.IngestionEngine.constructor | rag_pipeline/ingestion.py:36-62 | the width is that of the model's vector for "test", or 768 without a model |
| Ingestion.IngestionEngine.ChunkText | rag_pipeline/ingestion.py:85-111 | the result is exactly the numbered stripped non-empty windows of the normalised text |
| Ingestion.IngestionEngine.CutWindows | rag_pipeline/ingestion.py:89-111 | the while loop over the normalised text emits the numbered kept contents of all its windows |
| Ingestion.IngestionEngine.EmitWindow | rag_pipeline/ingestion.py:96-110 | one pass of the loop body moves the loop state from window j to window j + 1 |
| Ingestion.IngestionEngine.EmbedTexts | rag_pipeline/ingestion.py:115-132 | one vector per text in input order; with the fallback each has `embedding_dim` entries |
| Ingestion.IngestionEngine.IngestFiles | rag_pipeline/ingestion.py:136-188 | returns the chunk count of all files in order; with no chunks writes nothing, otherwise writes the chunk list and an index of their embeddings in the same order |
| Retrieval.Similarity | rag_pipeline/retrieval.py:103 | the score is max(0, 1 − d): never negative, at most 1 for a non-negative distance |
| Retrieval.SimilarityAntitone | rag_pipeline/retrieval.py:103 | a greater distance never gives a greater score |
| Retrieval.Kept | rag_pipeline/retrieval.py:99-104 | a candidate survives when its position is inside the chunk list and its similarity reaches the threshold (its use: `KeptPositionsSpec`, `FilteredAtKeptPositions`) |
| Retrieval.Filtered | rag_pipeline/retrieval.py:99-106 | no more results than candidates, each at or above the threshold and taken from the chunk list |
| Retrieval.KeptPositions | rag_pipeline/retrieval.py:99-105 | every listed position holds a candidate that survives the filter |
| Retrieval.KeptPositionsSpec | rag_pipeline/retrieval.py:99-105 | the kept positions increase, and a position is kept exactly when its candidate is in range and reaches the threshold |
| Retrieval.FilteredAtKeptPositions | rag_pipeline/retrieval.py:99-106 | the k-th result is `chunks[idx]` scored max(0, 1 − d) for the k-th surviving candidate: an order-preserving subsequence |
| Retrieval.VectorStore.constructor | rag_pipeline/retrieval.py:33-58 | a new store has no index, no chunks, width 768, and is not ready |
| Retrieval.VectorStore.Load | rag_pipeline/retrieval.py:60-69 | succeeds exactly when both artifacts exist; on failure nothing changes; on success it takes the index, its dimension and the chunk list |
| Retrieval.VectorStore.QueryDim | rag_pipeline/retrieval.py:80 | `embedding_dim or 768`: positive, the stored width when that is not 0 |
| Retrieval.VectorStore.EmbedQuery | rag_pipeline/retrieval.py:74-84 | the model's vector, or the fallback vector of width `embedding_dim or 768` |
| Retrieval.VectorStore.IsReady | rag_pipeline/retrieval.py:71-72 | ready exactly when an index is loaded and the chunk list is not empty |
| Retrieval.VectorStore.SearchResult | rag_pipeline/retrieval.py:86-109 | what `search` returns: empty when the store is not ready, otherwise results that each reach the threshold and come from the chunk list |
| Retrieval.VectorStore.Search | rag_pipeline/retrieval.py:86-109 | empty when not ready; otherwise the filtered candidates of the search with `top_k` defaulting to the configured value, each at or above the threshold and from the chunk list |
| Retrieval.SearchBounded | rag_pipeline/retrieval.py:91-106 | with a search that returns at most k candidates of non-negative distance, at most `top_k` results, each scored at most 1 |
| Retrieval.VectorStore.QueryEmbedding | rag_pipeline/retrieval.py:74-84 | the vector `_embed_query` returns: the model's, or the byte fallback at `embedding_dim or 768` (its properties: `FallbackQueryMatchesIngestion`, `EmbedQuery`) |
| Retrieval.FallbackQueryMatchesIngestion | rag_pipeline/retrieval.py:79-84 | without a model, a query is embedded exactly as ingestion embeds a text of the same width |
| RagChain.RewriteQuestion | rag_pipeline/rag_chain.py:26-28 | the rewritten question is stripped and no longer than the question; it is empty exactly when the question is all whitespace |
| RagChain.RewriteIdempotent | rag_pipeline/rag_chain.py:26-28 | rewriting a rewritten question changes nothing |
| RagChain.PageLabel | rag_pipeline/rag_chain.py:35-36 | the `, page p` label is present exactly when the page is set and not 0 |
| RagChain.SourceLabel | rag_pipeline/rag_chain.py:34-36 | the label starts with the source, and is the source alone exactly when the page is unset or 0 |
| RagChain.ContextBlock | rag_pipeline/rag_chain.py:34-37 | the block `[id] (label)` newline content of one chunk (its properties: `BlockHasIdAndContent`) |
| RagChain.BlockHasIdAndContent | rag_pipeline/rag_chain.py:37 | a context block holds the chunk id right after "[" and ends with the chunk content |
| RagChain.ContextLines | rag_pipeline/rag_chain.py:31-37 | one context block per retrieved chunk |
| RagChain.DistinctSources | rag_pipeline/rag_chain.py:40 | no more sources than chunks |
| RagChain.DistinctSourcesSpec | rag_pipeline/rag_chain.py:40 | the listed sources are pairwise distinct and are exactly the set of sources of the retrieved chunks |
| RagChain.LayoutParts | rag_pipeline/rag_chain.py:42-54 | the question sits right after the introduction and the context right after the sources header |
| RagChain.LayoutHasPart | rag_pipeline/rag_chain.py:39-48 | every block joined into the context occurs in the prompt |
| RagChain.Snippet | rag_pipeline/rag_chain.py:91 | `content[:250]`: a prefix of the content, the whole content when short, exactly 250 characters otherwise |
| RagChain.FallbackLine | rag_pipeline/rag_chain.py:88-91 | the line `- label: excerpt...` of one chunk (its properties: `FallbackLineShape`) |
| RagChain.FallbackLineShape | rag_pipeline/rag_chain.py:86-91 | a fallback line is "- ", the label, ": ", a prefix of at most 250 characters of the content, then "...\n" |
| RagChain.Excerpts | rag_pipeline/rag_chain.py:86-91 | what the failure branch appends, chunk by chunk (its properties: `ExcerptsAreLines`, `FailedReply`) |
| RagChain.ExcerptsAreLines | rag_pipeline/rag_chain.py:86-91 | the excerpt text is one fallback line per retrieved chunk, in order |
| RagChain.RagChain.constructor | rag_pipeline/rag_chain.py:20-22 | the chain keeps the model and the store, with the fixed prompt, apology and no-index texts |
| RagChain.RagChain.Messages | rag_pipeline/rag_chain.py:76 | two messages: the system prompt, then the original unstripped question from the user |
| RagChain.RagChain.SystemPrompt | rag_pipeline/rag_chain.py:30-54 | the prompt `_build_system_prompt` returns: the intro, the question, the source list, the context blocks and the rules, laid out in that order |
| RagChain.RagChain.Reply | rag_pipeline/rag_chain.py:76-91 | the model's text when the call succeeds, else the apology followed by the excerpts |
| RagChain.RagChain.BuildSystemPrompt | rag_pipeline/rag_chain.py:30-54 | the loop builds the prompt of the question, the source list and the blocks of the chunks joined by blank lines |
| RagChain.RagChain.Fallback | rag_pipeline/rag_chain.py:80-91 | the string grown line by line is the apology followed by the excerpts of the chunks |
| RagChain.RagChain.Answer | rag_pipeline/rag_chain.py:58-93 | not ready: the no-index text and two empty lists. Ready: the results of searching for the stripped question, the model's reply (or the fallback), and the ids aligned one to one with the results |
| RagChain.PromptHasQuestion | rag_pipeline/rag_chain.py:47 | the rewritten question occurs in the prompt right after the introduction |
| RagChain.PromptHasChunk | rag_pipeline/rag_chain.py:31-48 | every retrieved chunk's block, id and content occur in the prompt |
| RagChain.AnswerBounded | rag_pipeline/rag_chain.py:71 | with the default settings and a well-behaved search, an answer draws on at most 5 chunks, each scored at most 1 |
| RagChain.FailedReply | rag_pipeline/rag_chain.py:80-91 | when the model fails, the reply is the apology followed by exactly one line per chunk |
| RagChain.GeneratedReply | rag_pipeline/rag_chain.py:78-79 | when the model answers, the reply is its text verbatim |
| Agent.Intent.Value | rag_pipeline/agent.py:11-15 | the four intent values "sales", "support", "general", "chit-chat" |
| Agent.ValueInjective | rag_pipeline/agent.py:11-15 | different intents have different values |
| Agent.AnyIn | rag_pipeline/agent.py:46 | true exactly when some listed word occurs in the text |
| Agent.Classify | rag_pipeline/agent.py:44-52 | sales exactly when a sales keyword occurs in the lower-cased message; support exactly when none does and a support keyword does; chit-chat exactly when neither does and a greeting does |
| Agent.SalesMessageLength | rag_pipeline/agent.py:18-32 | a sales message has at least 4 characters, the length of the shortest sales keyword |
| Agent.ClassifyIgnoresCase | rag_pipeline/agent.py:45 | lower-casing a message does not change its intent |
| Agent.ClassifyPriceQuestion | tests/test_agent.py:5-7 | "What is the price of your membership plans?" is a sales message |
| Agent.ClassifySubstringGreeting | rag_pipeline/agent.py:50 | keywords match inside words: "this" holds "hi" and counts as small talk |
| Agent.NextQuestion | rag_pipeline/agent.py:100-109 | the question for the first unset slot in the order name, email, phone, interest; none exactly when all four are set |
| Agent.NoQuestionIffComplete | rag_pipeline/agent.py:62-63 | when no set slot is empty, there is no next question exactly when the lead is complete |
| Agent.LooksLikeEmailIff | rag_pipeline/agent.py:84 | the e-mail test holds exactly when the text contains "@" |
| Agent.NameAfterIs | rag_pipeline/agent.py:94-95 | a name taken after "is" is non-empty and stripped |
| Agent.Truthy | rag_pipeline/agent.py:87-134 | a slot Python treats as true, set and not "" (its use: `Agent.ExtractRules`, `SalesInterest`, `Agent.LeadState.IsComplete`) |
| Agent.LeadState.IsComplete | rag_pipeline/agent.py:62-63 | a complete lead has all four slots set, and none of them empty |
| Agent.WithEmail | rag_pipeline/agent.py:84-85 | the e-mail step of extraction (its properties: `LooksLikeEmailIff`, `ExtractEmail`, `Agent.Extract`) |
| Agent.IsDigit | rag_pipeline/agent.py:87 | `ch.isdigit()` on ASCII digits (its use: `Agent.ExtractRules`) |
| Agent.HasDigit | rag_pipeline/agent.py:87 | `any(ch.isdigit() for ch in text)`: some character is a digit (its use: `Agent.ExtractRules`) |
| Agent.WithPhone | rag_pipeline/agent.py:87-88 | the phone step of extraction (its properties: `Agent.ExtractRules`, `ExtractSlots`) |
| Agent.WithName | rag_pipeline/agent.py:90-98 | the name step of extraction (its properties: `Agent.ExtractRules`, `ExtractNeedsLetterM`, `ExtractNameExample`) |
| Agent.Extract | rag_pipeline/agent.py:77-98 | extraction never touches the interest; each other slot either stays or takes the value read from the stripped message, and the phone only when none is held |
| Agent.ExtractRules | rag_pipeline/agent.py:82-98 | on the stripped message: the e-mail changes only, and always, when the message holds "@"; the phone changes only, and always, when none is held and the message has a digit and at least 8 characters; the name changes only when the lower-cased message says "my name is", then becomes the stripped text after the first "is" when that is non-empty, and never changes when there is no such text |
| Agent.ExtractSlots | rag_pipeline/agent.py:82-98 | extraction never touches the interest, never clears a slot, keeps a non-empty phone, and keeps every set slot non-empty |
| Agent.ExtractEmail | rag_pipeline/agent.py:84-85 | a stripped message containing "@" always becomes the e-mail |
| Agent.ExtractNameExample | rag_pipeline/agent.py:90-96 | "My name is Ana" sets the name "Ana" |
| Agent.NameAfterIsExample | rag_pipeline/agent.py:94 | the stripped text after the first "is" of "My name is Ana" is "Ana" |
| Agent.ExtractNameNeedsLowerCaseIs | rag_pipeline/agent.py:92-98 | "MY NAME IS ANA" has no lower-case "is": the name is left as it was and no error escapes |
| Agent.ExtractNeedsLetterM | rag_pipeline/agent.py:91-92 | a message without the letter m never changes the name |
| Agent.Payload | rag_pipeline/agent.py:140-145 | the payload maps exactly the four slot names to their values, "" for an unset slot |
| Agent.SalesSlots | rag_pipeline/agent.py:126-136 | the slots of a sales turn: extraction, then the message as the interest unless one is held (its properties: `SalesInterest`, `AskingTurn`) |
| Agent.Turn | rag_pipeline/agent.py:111-157 | the intent is the classification of the message; a turn completes exactly when it returns a payload, and only a sales turn completes, resetting the lead |
| Agent.NonSalesTurn | rag_pipeline/agent.py:123-133 | a non-sales turn only extracts: the answer is unchanged, nothing completes and there is no payload |
| Agent.SalesInterest | rag_pipeline/agent.py:133-136 | on a sales turn the interest becomes the raw message only when it is unset or empty; it is never overwritten otherwise, and is non-empty afterwards |
| Agent.CompletingTurn | rag_pipeline/agent.py:138-151 | a turn completes exactly when it is a sales turn whose slots are complete; it then hands over the payload, appends the closing note and resets the lead; a payload is present exactly when the lead completed |
| Agent.AskingTurn | rag_pipeline/agent.py:152-155 | a sales turn that leaves the lead incomplete appends exactly the question for the first unset slot and keeps the slots |
| Agent.TurnKeepsNoEmptySlot | rag_pipeline/agent.py:84-136 | every turn keeps the invariant that a set slot is never empty |
| Agent.SalesTurnAsksName | rag_pipeline/agent.py:152-155 | a sales turn that leaves the name unknown asks for the name and completes nothing |
| Agent.FirstPackageQuestionAsksName | tests/test_agent.py:10-17 | a first message about packages is a sales message and is answered with the name question appended |
| Agent.PackageMessageIsSales | tests/test_agent.py:10-14 | the message about packages is a sales message |
| Agent.PackageMessageNamesNoOne | tests/test_agent.py:10-17 | the message about packages sets no name |
| Agent.Agent.constructor | rag_pipeline/agent.py:74-75 | a new agent holds an empty lead, which has no empty slot |
| Agent.Agent.UpdateFromUserMessage | rag_pipeline/agent.py:77-98 | the slots become the extraction of the message from the old slots (so the rules of `Agent.Extract`, `Agent.ExtractRules` and `Agent.ExtractEmail` hold of the new lead: the e-mail changes exactly when the message holds "@", the phone and name by their triggers), and a lead without empty slots keeps none |
| Agent.Agent.ProcessTurn | rag_pipeline/agent.py:111-157 | the answer, intent, completed flag, payload and new slots are those of the turn function on the old slots, and a lead without empty slots keeps none |
| Analytics.Intents | services/analytics.py:43-44 | the intents that occur in some record |
| Analytics.CountOf | services/analytics.py:43-44 | a count never exceeds the number of records |
| Analytics.CountOfPositive | services/analytics.py:43-44 | an intent is counted at least once exactly when some record carries it |
| Analytics.IntentCounts | services/analytics.py:43-44 | every count is positive and at most the number of records |
| Analytics.IntentCountsSpec | services/analytics.py:43-44 | the counter's keys are exactly the intents that occur, each mapped to its positive number of records |
| Analytics.DistinctIntentsSpec | services/analytics.py:44 | the counter's key order lists every occurring intent exactly once |
| Analytics.SumUpdate | services/analytics.py:44 | changing one count changes the sum over distinct keys by the difference |
| Analytics.CountsSumToLength | services/analytics.py:43-44 | the counts add up to the number of records |
| Analytics.AnalyticsStore.constructor | services/analytics.py:23-24 | a new store holds no records |
| Analytics.AnalyticsStore.AddRecord | services/analytics.py:26-41 | exactly one record is appended, carrying the given fields; the earlier records are unchanged |
| Analytics.AnalyticsStore.GetIntentCounts | services/analytics.py:43-44 | the keys are exactly the intents of the records, each mapped to its positive number of records |
| Analytics.AnalyticsStore.EvaluateResponse | services/analytics.py:46-52 | the score map is `{"dummy_score": 1.0}` for every record |
| Analytics.AddRecordCounts | services/analytics.py:33-44 | after appending a record, its intent's count is one more and every other count is unchanged |

## Left out

- Logging calls have no effect on the results and are not modelled.
- The Streamlit UI, the upload handling, the per-turn glue in app/main_app.py, the lead
  CSV store and the styling are not part of this model.
- app/config.py is taken as the constants of `Config`. Environment variables and
  directory creation are not modelled.
- Calls into code that is not visible become parameters whose behaviour is assumed:
  - SentenceTransformer, faiss (build, search, read and write), pickle and pypdf;
  - the language-model client (`services/llm_client.py`).
- Exceptions from the language model are the `Failed` reply. Other exceptions (I/O
  errors, faiss errors) are not modelled.
- Retrieval.SearchBounded: the bound holds only for a nearest-neighbour search that
  returns at most k candidates with distances of at least 0 (`HonestKnn`). faiss is not
  part of this model.
- Floating point: vectors, distances and scores are `real`. float32 rounding is not
  modelled.
- Text.Lower: `str.lower()` is modelled on ASCII letters only. Other cased letters keep
  their case.
- Agent.IsDigit: `str.isdigit()` is modelled on ASCII digits only.
- Text.SplitLines: it is modelled for text without "\r", which is all it is used on
  after the carriage-return replacement. The "\r\n" pair is not handled.
- Ingestion.IngestionEngine.ChunkText: it requires `0 < size` and `overlap < size`.
  With `overlap >= size` the loop of the source does not end on non-empty text. With
  `size <= 0` the slice `text[start:start + size]` ends before it starts, or counts from
  the end of the text, which the model does not capture. The configured 1200/250 meets
  both conditions, so no caller of the source is excluded.
- Ingestion.IngestionEngine.EmbedTexts: it requires a non-empty list. `np.vstack`
  raises on an empty one, and the only caller never passes one.
- The embedding model's output is one vector per text. Its width and values are
  whatever the `Encoder` returns.
- RagChain.DistinctSources: Python builds the source list from a set, whose iteration
  order is not specified. The model lists the sources in first-occurrence order, and
  proves only that the listed sources are exactly the set, each once.
- RagChain.RagChain.Answer: the fixed texts (prompt introduction, rules, apology,
  no-index message) are fields that the constructor sets to the source's literals.
- RagChain.RagChain.Answer: the failure-branch loop is a separate method,
  `RagChain.RagChain.Fallback`.
- The chat history argument is accepted and ignored, as the source ignores it.
- Agent.LeadState: it is a value that `UpdateFromUserMessage` and `ProcessTurn`
  reassign slot by slot. Python's `LeadState` is a mutable object updated field by
  field, and nothing else holds a reference to it.
- Analytics.AnalyticsStore.AddRecord: `datetime.utcnow().isoformat()` is the
  `timestamp` argument. The stored id list is a value, so aliasing with the caller's
  list is not modelled.
