/**
 * Document ingestion (rag_pipeline/ingestion.py): text normalisation, cutting the
 * normalised text into overlapping fixed-size windows, the byte-based fallback
 * embedding, and the aggregation of chunks over files and PDF pages before the
 * index and the metadata list are written out.
 *
 * The sentence-embedding model, pypdf, file reads and faiss are outside the model:
 * a loaded model is an `Encoder` value, a file on disk is a `SourceFile` snapshot of
 * what reading it returns, and the two persisted artifacts are the fields of an
 * `ArtifactDir` object.
 */
module Ingestion {
  import opened Wrappers
  import opened Text
  import Utf8
  import Config

  /** One retrievable chunk of a document (`ChunkMetadata`). */
  datatype ChunkMetadata = ChunkMetadata(
    id: string,
    content: string,
    source: string,
    page: Option<int>,
    section: Option<string>)

  /** A loaded sentence-embedding model: one vector per text. */
  datatype Encoder = Encoder(encode: string -> seq<real>)

  /** The flat L2 index as written to disk: its dimension and its vectors, in insertion order. */
  datatype FlatIndex = FlatIndex(dim: nat, vectors: seq<seq<real>>)

  /**
   * What the file system holds for one input path: its final name, its suffix as
   * `Path.suffix` gives it, whether it exists, the text pypdf extracts from each page
   * (an empty string for a page without text), and what reading it as UTF-8 text returns.
   */
  datatype SourceFile = SourceFile(
    name: string,
    suffix: string,
    present: bool,
    pages: seq<string>,
    text: string)

  function Min(a: int, b: int): int {
    if a <= b then a else b
  }

  // ----- normalisation (ingestion.py:86-87) -----

  /** `text.replace("\r", "\n")`. */
  function ReplaceCR(text: string): (r: string)
    ensures |r| == |text| && '\r' !in r
  {
    seq(|text|, k requires 0 <= k < |text| => if text[k] == '\r' then '\n' else text[k])
  }

  /** `line.strip()` of every line whose stripped form is not empty, in order. */
  function CleanLines(lines: seq<string>): (r: seq<string>)
    ensures |r| <= |lines|
    ensures forall k | 0 <= k < |r| :: r[k] != [] && IsStripped(r[k])
  {
    if lines == [] then []
    else
      var s := Strip(lines[0]);
      (if s != [] then [s] else []) + CleanLines(lines[1..])
  }

  /** The lines the normalised text is made of. */
  function NormalizedLines(text: string): seq<string> {
    CleanLines(SplitLines(ReplaceCR(text)))
  }

  /** The normalised text: the stripped non-blank lines joined by single newlines. */
  function Normalize(text: string): (r: string)
    ensures IsStripped(r)
    ensures NormalizedLines(text) != [] ==> r != []
  {
    JoinStripped(NormalizedLines(text));
    Join(NormalizedLines(text), "\n")
  }

  /** Cleaning works line by line: the cleaned lines of `a + b` are those of `a`, then those of `b`. */
  lemma {:induction false} CleanLinesAppend(a: seq<string>, b: seq<string>)
    ensures CleanLines(a + b) == CleanLines(a) + CleanLines(b)
  {
    if a != [] {
      assert (a + b)[0] == a[0] && (a + b)[1..] == a[1..] + b;
      CleanLinesAppend(a[1..], b);
      var s := Strip(a[0]);
      AppendAssoc(if s != [] then [s] else [], CleanLines(a[1..]), CleanLines(b));
    } else {
      assert a + b == b;
    }
  }

  /** A line that is not blank survives cleaning as its stripped form. */
  lemma {:induction false} CleanLinesKeeps(lines: seq<string>, k: nat)
    requires k < |lines| && !AllSpace(lines[k])
    ensures Strip(lines[k]) in CleanLines(lines)
  {
    if k > 0 {
      CleanLinesKeeps(lines[1..], k - 1);
      assert lines[1..][k - 1] == lines[k];
    }
  }

  lemma {:induction false} CleanLinesNoBreak(lines: seq<string>)
    requires forall k | 0 <= k < |lines| :: NoLineBreak(lines[k])
    ensures forall k | 0 <= k < |CleanLines(lines)| :: NoLineBreak(CleanLines(lines)[k])
  {
    if lines != [] {
      StripNoBreak(lines[0]);
      CleanLinesNoBreak(lines[1..]);
    }
  }

  lemma {:induction false} CleanLinesBlank(lines: seq<string>)
    requires forall k | 0 <= k < |lines| :: AllSpace(lines[k])
    ensures CleanLines(lines) == []
  {
    if lines != [] {
      CleanLinesBlank(lines[1..]);
    }
  }

  lemma {:induction false} JoinStripped(parts: seq<string>)
    requires forall k | 0 <= k < |parts| :: parts[k] != [] && IsStripped(parts[k])
    ensures IsStripped(Join(parts, "\n"))
    ensures parts != [] ==> Join(parts, "\n") != []
  {
    if |parts| > 1 {
      JoinStripped(parts[1..]);
      var rest := Join(parts[1..], "\n");
      assert Join(parts, "\n") == parts[0] + ("\n" + rest);
    }
  }

  /**
   * After normalisation every line is non-empty and stripped, the lines are exactly
   * the cleaned input lines, no carriage return is left, and the whole text is stripped.
   */
  lemma NormalizeSpec(text: string)
    ensures SplitLines(Normalize(text)) == NormalizedLines(text)
    ensures forall k | 0 <= k < |SplitLines(Normalize(text))| ::
      SplitLines(Normalize(text))[k] != [] && IsStripped(SplitLines(Normalize(text))[k])
    ensures '\r' !in Normalize(text)
    ensures IsStripped(Normalize(text))
  {
    var lines := NormalizedLines(text);
    CleanLinesNoBreak(SplitLines(ReplaceCR(text)));
    SplitLinesJoin(lines);
    assert forall k | 0 <= k < |lines| :: '\r' !in lines[k] by {
      forall k | 0 <= k < |lines| ensures '\r' !in lines[k] {
        assert NoLineBreak(lines[k]);
      }
    }
    JoinAvoids(lines, "\n", '\r');
    JoinStripped(lines);
  }

  /** Text normalises to the empty string exactly when it is empty or whitespace only. */
  lemma NormalizeBlank(text: string)
    ensures Normalize(text) == [] <==> AllSpace(text)
  {
    var t := ReplaceCR(text);
    if AllSpace(text) {
      assert AllSpace(t);
      SplitLinesAllSpace(t);
      CleanLinesBlank(SplitLines(t));
    } else {
      var m :| 0 <= m < |text| && !IsSpace(text[m]);
      assert t[m] == text[m];
      SplitLinesNonBlank(t);
      var lines := SplitLines(t);
      var k :| 0 <= k < |lines| && !AllSpace(lines[k]);
      CleanLinesKeeps(lines, k);
      JoinStripped(NormalizedLines(text));
    }
  }

  // ----- windows and chunk ids (ingestion.py:89-111) -----

  /** The chunking settings the loop terminates for: a positive width and a positive stride. */
  predicate ValidChunking(size: int, overlap: int) {
    0 < size && overlap < size
  }

  /** Offset of window `j`: window 0 starts at 0 and each next one a stride further. */
  function WindowStart(j: nat, size: int, overlap: int): (s: nat)
    requires ValidChunking(size, overlap)
    ensures s >= j
  {
    if j == 0 then 0 else WindowStart(j - 1, size, overlap) + (size - overlap)
  }

  /** Window `j` starts at offset `j * (size - overlap)`. */
  lemma {:induction false} WindowStartIsMultiple(j: nat, size: int, overlap: int)
    requires ValidChunking(size, overlap)
    ensures WindowStart(j, size, overlap) == j * (size - overlap)
  {
    if j > 0 {
      WindowStartIsMultiple(j - 1, size, overlap);
      assert (j - 1) * (size - overlap) + (size - overlap) == j * (size - overlap);
    }
  }

  /** Later windows start later. */
  lemma {:induction false} WindowStartMono(j: nat, k: nat, size: int, overlap: int)
    requires ValidChunking(size, overlap) && j <= k
    ensures WindowStart(j, size, overlap) <= WindowStart(k, size, overlap)
    decreases k
  {
    if j < k {
      WindowStartMono(j, k - 1, size, overlap);
    }
  }

  /** `text[start:start + size]` for window `j`, clamped to the text as Python slicing is. */
  function Window(text: string, size: int, overlap: int, j: nat): (w: string)
    requires ValidChunking(size, overlap)
    ensures |w| <= size
  {
    var start := WindowStart(j, size, overlap);
    text[Min(start, |text|)..Min(start + size, |text|)]
  }

  /**
   * Windows 0 .. |text|-1. Every window that starts inside the text is among them,
   * since the stride is at least one; the ones starting past the end are empty.
   */
  function Windows(text: string, size: int, overlap: int): (ws: seq<string>)
    requires ValidChunking(size, overlap)
    ensures |ws| == |text|
  {
    seq(|text|, j requires 0 <= j < |text| => Window(text, size, overlap, j))
  }

  /** The stripped windows that are not empty, in window order. */
  function Contents(windows: seq<string>): (r: seq<string>)
    ensures |r| <= |windows|
    ensures forall k | 0 <= k < |r| :: r[k] != [] && IsStripped(r[k])
  {
    if windows == [] then []
    else
      var c := Strip(windows[|windows| - 1]);
      Contents(windows[..|windows| - 1]) + (if c == [] then [] else [c])
  }

  /** `page or 0`: a missing page and page 0 both render as 0. */
  function PageOrZero(page: Option<int>): int {
    if page.Some? then page.value else 0
  }

  /** The id `source::p<page or 0>::c<k>` of the `k`-th chunk emitted for one page. */
  function ChunkId(source: string, page: Option<int>, k: nat): (r: string)
    ensures |source| + 3 < |r| && r[..|source| + 3] == source + "::p"
  {
    source + "::p" + IntToString(PageOrZero(page)) + "::c" + NatToString(k)
  }

  /** The chunk records for the given contents, numbered from 0 in order. */
  function Numbered(contents: seq<string>, source: string, page: Option<int>): (r: seq<ChunkMetadata>)
    ensures |r| == |contents|
  {
    seq(|contents|, k requires 0 <= k < |contents| =>
      ChunkMetadata(ChunkId(source, page, k), contents[k], source, page, None))
  }

  /** What `_chunk_text(text, source, page)` returns. */
  function ChunksOf(text: string, source: string, page: Option<int>, size: int, overlap: int): (r: seq<ChunkMetadata>)
    requires ValidChunking(size, overlap)
    ensures forall k | 0 <= k < |r| ::
      && r[k].id == ChunkId(source, page, k) && r[k].source == source && r[k].page == page
      && r[k].section == None && r[k].content != [] && IsStripped(r[k].content)
  {
    Numbered(Contents(Windows(Normalize(text), size, overlap)), source, page)
  }

  /** Taking one more window appends its stripped form, numbered next, when it is not empty. */
  lemma NumberedContentsStep(ws: seq<string>, j: nat, w: string, prev: seq<ChunkMetadata>, source: string, page: Option<int>)
    requires j < |ws| && ws[j] == w
    requires prev == Numbered(Contents(ws[..j]), source, page)
    ensures Strip(w) == [] ==> Numbered(Contents(ws[..j + 1]), source, page) == prev
    ensures Strip(w) != [] ==>
      Numbered(Contents(ws[..j + 1]), source, page)
        == prev + [ChunkMetadata(ChunkId(source, page, |prev|), Strip(w), source, page, None)]
  {
    var cs := Contents(ws[..j]);
    assert Contents(ws[..j + 1]) == cs + (if Strip(w) == [] then [] else [Strip(w)]) by {
      assert ws[..j + 1][..j] == ws[..j];
    }
    if Strip(w) == [] {
      assert cs + [] == cs;
    } else {
      NumberedAppend(cs, Strip(w), source, page);
    }
  }

  /** Numbering one more content appends its record with the next counter. */
  lemma NumberedAppend(contents: seq<string>, c: string, source: string, page: Option<int>)
    ensures Numbered(contents + [c], source, page)
      == Numbered(contents, source, page) + [ChunkMetadata(ChunkId(source, page, |contents|), c, source, page, None)]
  {
  }

  /** The state of the loop of `_chunk_text` after its first `j` windows. */
  ghost predicate CutState(t: string, size: int, overlap: int, source: string, page: Option<int>, j: nat, start: int, chunks: seq<ChunkMetadata>, idx: int)
    requires ValidChunking(size, overlap)
  {
    && j <= |t|
    && start == WindowStart(j, size, overlap)
    && chunks == Numbered(Contents(Windows(t, size, overlap)[..j]), source, page)
    && idx == |chunks|
  }

  /** Before the first window nothing is emitted. */
  lemma CutStart(t: string, size: int, overlap: int, source: string, page: Option<int>)
    requires ValidChunking(size, overlap)
    ensures CutState(t, size, overlap, source, page, 0, 0, [], 0)
  {
    assert Windows(t, size, overlap)[..0] == [];
  }

  /** A window that strips to `chunk` moves the loop to the next window, emitting `chunk` when it is not empty. */
  lemma CutStep(t: string, size: int, overlap: int, source: string, page: Option<int>, j: nat, start: int,
                chunks: seq<ChunkMetadata>, idx: int, chunk: string)
    requires ValidChunking(size, overlap)
    requires CutState(t, size, overlap, source, page, j, start, chunks, idx) && start < |t|
    requires chunk == Strip(t[start..Min(start + size, |t|)])
    ensures chunk == [] ==> CutState(t, size, overlap, source, page, j + 1, start + size - overlap, chunks, idx)
    ensures chunk != [] ==> CutState(t, size, overlap, source, page, j + 1, start + size - overlap,
                                     chunks + [ChunkMetadata(ChunkId(source, page, idx), chunk, source, page, None)], idx + 1)
  {
    var ws := Windows(t, size, overlap);
    WindowsIndexAll(t, size, overlap);
    NumberedContentsStep(ws, j, t[start..Min(start + size, |t|)], chunks, source, page);
  }

  /** Once the next window starts at or past the end, the loop has emitted the numbered contents of all windows. */
  lemma CutDone(t: string, size: int, overlap: int, source: string, page: Option<int>, j: nat, start: int, chunks: seq<ChunkMetadata>, idx: int)
    requires ValidChunking(size, overlap)
    requires CutState(t, size, overlap, source, page, j, start, chunks, idx) && start >= |t|
    ensures chunks == Numbered(Contents(Windows(t, size, overlap)), source, page)
  {
    WindowsPastEnd(t, size, overlap, j);
    ContentsEmptyTail(Windows(t, size, overlap), j);
  }

  lemma WindowsIndexAll(t: string, size: int, overlap: int)
    requires ValidChunking(size, overlap)
    ensures forall k | 0 <= k < |t| :: Windows(t, size, overlap)[k] == Window(t, size, overlap, k)
  {
  }

  lemma {:induction false} ContentsEmptyTail(ws: seq<string>, j: nat)
    requires j <= |ws|
    requires forall k | j <= k < |ws| :: ws[k] == []
    ensures Contents(ws) == Contents(ws[..j])
    decreases |ws|
  {
    if |ws| > j {
      assert Strip(ws[|ws| - 1]) == [];
      assert ws[..|ws| - 1][..j] == ws[..j];
      ContentsEmptyTail(ws[..|ws| - 1], j);
    } else {
      assert ws[..j] == ws;
    }
  }

  /** Window `j` and every later one is empty once window `j` starts at or past the end. */
  lemma WindowsPastEnd(text: string, size: int, overlap: int, j: nat)
    requires ValidChunking(size, overlap)
    requires WindowStart(j, size, overlap) >= |text|
    ensures forall k | j <= k < |text| :: Windows(text, size, overlap)[k] == []
  {
    forall k | j <= k < |text| ensures Windows(text, size, overlap)[k] == [] {
      WindowStartMono(j, k, size, overlap);
    }
  }

  /** Every chunk's content is non-empty, stripped and at most `size` characters long. */
  lemma {:induction false} ContentsBounded(ws: seq<string>, size: int)
    requires forall k | 0 <= k < |ws| :: |ws[k]| <= size
    ensures forall k | 0 <= k < |Contents(ws)| :: 0 < |Contents(ws)[k]| <= size
  {
    if ws != [] {
      ContentsBounded(ws[..|ws| - 1], size);
    }
  }

  /**
   * Each emitted chunk has a non-empty, stripped content of at most `size` characters,
   * carries the given source and page, has no section, and its id is
   * `source::p<page or 0>::c<k>` for its position `k` in the result.
   */
  lemma ChunksOfShape(text: string, source: string, page: Option<int>, size: int, overlap: int)
    requires ValidChunking(size, overlap)
    ensures forall k | 0 <= k < |ChunksOf(text, source, page, size, overlap)| ::
      var c := ChunksOf(text, source, page, size, overlap)[k];
      && c.id == ChunkId(source, page, k)
      && c.source == source && c.page == page && c.section == None
      && 0 < |c.content| <= size && IsStripped(c.content)
  {
    ContentsBounded(Windows(Normalize(text), size, overlap), size);
  }

  /** Ids that differ in the chunk counter differ, so the ids of one call are pairwise distinct. */
  lemma ChunkIdInjective(source: string, page: Option<int>, a: nat, b: nat)
    requires ChunkId(source, page, a) == ChunkId(source, page, b)
    ensures a == b
  {
    var prefix := source + "::p" + IntToString(PageOrZero(page)) + "::c";
    assert ChunkId(source, page, a) == prefix + NatToString(a);
    assert ChunkId(source, page, b) == prefix + NatToString(b);
    assert NatToString(a) == ChunkId(source, page, a)[|prefix|..];
    assert NatToString(b) == ChunkId(source, page, b)[|prefix|..];
    NatToStringInjective(a, b);
  }

  /** The ids within the result of one call are pairwise distinct. */
  lemma ChunksOfDistinctIds(text: string, source: string, page: Option<int>, size: int, overlap: int)
    requires ValidChunking(size, overlap)
    ensures var cs := ChunksOf(text, source, page, size, overlap);
      forall i, j | 0 <= i < j < |cs| :: cs[i].id != cs[j].id
  {
    var cs := ChunksOf(text, source, page, size, overlap);
    forall i, j | 0 <= i < j < |cs| ensures cs[i].id != cs[j].id {
      if cs[i].id == cs[j].id {
        ChunkIdInjective(source, page, i, j);
      }
    }
  }

  /**
   * When the overlap is not negative the windows cover the text: every position lies in
   * the window whose start is the largest multiple of the stride not above it.
   */
  lemma WindowsCover(text: string, size: int, overlap: int, p: nat)
    requires ValidChunking(size, overlap) && 0 <= overlap
    requires p < |text|
    ensures var j := p / (size - overlap);
      j < |text| && WindowStart(j, size, overlap) <= p < WindowStart(j, size, overlap) + size
      && Windows(text, size, overlap)[j][p - WindowStart(j, size, overlap)] == text[p]
  {
    var step := size - overlap;
    var j := p / step;
    assert j * step + p % step == p;
    WindowStartIsMultiple(j, size, overlap);
  }

  /** Text yields no chunk exactly when it is empty or whitespace only. */
  lemma ChunksOfBlank(text: string, source: string, page: Option<int>, size: int, overlap: int)
    requires ValidChunking(size, overlap)
    ensures ChunksOf(text, source, page, size, overlap) == [] <==> AllSpace(text)
  {
    NormalizeBlank(text);
    var t := Normalize(text);
    if !AllSpace(text) {
      NormalizeSpec(text);
      var w := Window(t, size, overlap, 0);
      assert w == t[0..Min(size, |t|)] && w[0] == t[0];
      assert !AllSpace(w);
      ContentsNonEmpty(Windows(t, size, overlap), 0);
    }
  }

  /** A window that does not strip to nothing gives at least one content. */
  lemma {:induction false} ContentsNonEmpty(ws: seq<string>, j: nat)
    requires j < |ws| && Strip(ws[j]) != []
    ensures Contents(ws) != []
  {
    if j < |ws| - 1 {
      ContentsNonEmpty(ws[..|ws| - 1], j);
      assert ws[..|ws| - 1][j] == ws[j];
    }
  }

  /**
   * Text whose normalised form is not empty and fits in one stride yields exactly one
   * chunk, holding the whole normalised text, with counter 0.
   */
  lemma ChunksOfShort(text: string, source: string, page: Option<int>, size: int, overlap: int)
    requires ValidChunking(size, overlap) && 0 <= overlap
    requires 0 < |Normalize(text)| <= size - overlap
    ensures ChunksOf(text, source, page, size, overlap)
      == [ChunkMetadata(ChunkId(source, page, 0), Normalize(text), source, page, None)]
  {
    var t := Normalize(text);
    var ws := Windows(t, size, overlap);
    NormalizeSpec(text);
    WindowsPastEnd(t, size, overlap, 1);
    ContentsEmptyTail(ws, 1);
    assert ws[0] == t;
    StripStripped(t);
    assert ws[..1] == [t];
    assert Contents([t]) == Contents([]) + [t];
  }

  // ----- fallback embedding (ingestion.py:124-132) -----

  /**
   * The byte-based fallback vector of `t` at width `dim`: position i holds byte i of the
   * UTF-8 encoding over 255 while there are bytes, and 0.0 after that.
   */
  function FallbackVector(t: string, dim: nat): (v: seq<real>)
    ensures |v| == dim
    ensures forall i | 0 <= i < dim :: 0.0 <= v[i] <= 1.0
  {
    var b := Utf8.Encode(t);
    seq(dim, i requires 0 <= i < dim => if i < |b| then b[i] as real / 255.0 else 0.0)
  }

  /** Texts whose encodings differ at a position below `dim` get different fallback vectors. */
  lemma FallbackVectorSeparates(t1: string, t2: string, dim: nat, i: nat)
    requires i < dim && i < |Utf8.Encode(t1)| && i < |Utf8.Encode(t2)|
    requires Utf8.Encode(t1)[i] != Utf8.Encode(t2)[i]
    ensures FallbackVector(t1, dim) != FallbackVector(t2, dim)
  {
    assert FallbackVector(t1, dim)[i] != FallbackVector(t2, dim)[i];
  }

  /** An ASCII text shorter than `dim` is spelled out, character code over 255, then zero padded. */
  lemma FallbackVectorAscii(t: string, dim: nat)
    requires Utf8.IsAscii(t)
    ensures forall i | 0 <= i < dim ::
      FallbackVector(t, dim)[i] == if i < |t| then (t[i] as int) as real / 255.0 else 0.0
  {
    Utf8.EncodeAscii(t);
  }

  /** Fills a zeroed array of width `dim` with the fallback vector of `t`, byte by byte. */
  method FillFallback(t: string, dim: nat) returns (arr: array<real>)
    ensures fresh(arr)
    ensures arr[..] == FallbackVector(t, dim)
  {
    arr := new real[dim](_ => 0.0);
    var bytes := Utf8.Encode(t);
    var n := Min(|bytes|, dim);
    for i := 0 to n
      invariant forall k | 0 <= k < i :: arr[k] == bytes[k] as real / 255.0
      invariant forall k | i <= k < dim :: arr[k] == 0.0
    {
      arr[i] := bytes[i] as real / 255.0;
    }
  }

  // ----- aggregation over files and pages (ingestion.py:136-188) -----

  /** The chunks of a PDF's pages in page order, pages numbered from 1. */
  function PdfChunks(pages: seq<string>, name: string, size: int, overlap: int): seq<ChunkMetadata>
    requires ValidChunking(size, overlap)
  {
    if pages == [] then []
    else
      PdfChunks(pages[..|pages| - 1], name, size, overlap)
        + ChunksOf(pages[|pages| - 1], name, Some(|pages|), size, overlap)
  }

  /** `path.suffix.lower()` is ".pdf". */
  predicate IsPdf(f: SourceFile) {
    Lower(f.suffix) == ".pdf"
  }

  /** `path.suffix.lower()` is ".txt" or ".md". */
  predicate IsTextLike(f: SourceFile) {
    Lower(f.suffix) == ".txt" || Lower(f.suffix) == ".md"
  }

  /** What one input path contributes: nothing when missing or of another type. */
  function FileChunks(f: SourceFile, size: int, overlap: int): seq<ChunkMetadata>
    requires ValidChunking(size, overlap)
  {
    if !f.present then []
    else if IsPdf(f) then PdfChunks(f.pages, f.name, size, overlap)
    else if IsTextLike(f) then ChunksOf(f.text, f.name, None, size, overlap)
    else []
  }

  /** The chunks of all files, in file order. */
  function AllChunks(files: seq<SourceFile>, size: int, overlap: int): seq<ChunkMetadata>
    requires ValidChunking(size, overlap)
  {
    if files == [] then []
    else AllChunks(files[..|files| - 1], size, overlap) + FileChunks(files[|files| - 1], size, overlap)
  }

  /** Every chunk of the file loop names a file of the input list that exists. */
  lemma {:induction false} AllChunksSources(files: seq<SourceFile>, size: int, overlap: int)
    requires ValidChunking(size, overlap)
    ensures forall c | c in AllChunks(files, size, overlap) :: exists f | f in files :: f.present && c.source == f.name
  {
    if files != [] {
      var init := files[..|files| - 1];
      var last := files[|files| - 1];
      AllChunksSources(init, size, overlap);
      FileChunksSource(last, size, overlap);
      forall c | c in AllChunks(files, size, overlap) ensures exists f | f in files :: f.present && c.source == f.name {
        if c in AllChunks(init, size, overlap) {
          var f :| f in init && f.present && c.source == f.name;
          assert f in files;
        } else {
          assert c in FileChunks(last, size, overlap);
          assert last in files;
        }
      }
    }
  }

  lemma AllChunksStep(files: seq<SourceFile>, i: nat, size: int, overlap: int)
    requires ValidChunking(size, overlap) && i < |files|
    ensures AllChunks(files[..i + 1], size, overlap) == AllChunks(files[..i], size, overlap) + FileChunks(files[i], size, overlap)
  {
    assert files[..i + 1][..i] == files[..i];
  }

  lemma PdfChunksStep(pages: seq<string>, p: nat, name: string, size: int, overlap: int)
    requires ValidChunking(size, overlap) && p < |pages|
    ensures PdfChunks(pages[..p + 1], name, size, overlap)
      == PdfChunks(pages[..p], name, size, overlap) + ChunksOf(pages[p], name, Some(p + 1), size, overlap)
  {
    assert pages[..p + 1][..p] == pages[..p];
  }

  /** Ingesting two lists of files one after the other concatenates their chunks in order. */
  lemma {:induction false} AllChunksAppend(a: seq<SourceFile>, b: seq<SourceFile>, size: int, overlap: int)
    requires ValidChunking(size, overlap)
    ensures AllChunks(a + b, size, overlap) == AllChunks(a, size, overlap) + AllChunks(b, size, overlap)
    decreases |b|
  {
    if b == [] {
      assert a + b == a;
    } else {
      var ab := a + b;
      var b' := b[..|b| - 1];
      var x := FileChunks(b[|b| - 1], size, overlap);
      assert AllChunks(ab, size, overlap) == AllChunks(a + b', size, overlap) + x by {
        assert ab[..|ab| - 1] == a + b';
        assert ab[|ab| - 1] == b[|b| - 1];
      }
      assert AllChunks(b, size, overlap) == AllChunks(b', size, overlap) + x;
      AllChunksAppend(a, b', size, overlap);
      AppendAssoc(AllChunks(a, size, overlap), AllChunks(b', size, overlap), x);
    }
  }

  /** Missing files and unsupported extensions contribute no chunk. */
  lemma SkippedFiles(f: SourceFile, size: int, overlap: int)
    requires ValidChunking(size, overlap)
    requires !f.present || !(IsPdf(f) || IsTextLike(f))
    ensures AllChunks([f], size, overlap) == []
  {
    assert [f][..0] == [];
  }

  /** Every chunk of a PDF names the file and a page between 1 and the page count. */
  lemma {:induction false} PdfChunksPages(pages: seq<string>, name: string, size: int, overlap: int)
    requires ValidChunking(size, overlap)
    ensures forall c | c in PdfChunks(pages, name, size, overlap) ::
      c.source == name && c.page.Some? && 1 <= c.page.value <= |pages|
  {
    if pages != [] {
      PdfChunksPages(pages[..|pages| - 1], name, size, overlap);
      ChunksOfShape(pages[|pages| - 1], name, Some(|pages|), size, overlap);
    }
  }

  /** Only a file that exists contributes chunks, and each of them names the file. */
  lemma FileChunksSource(f: SourceFile, size: int, overlap: int)
    requires ValidChunking(size, overlap)
    ensures forall c | c in FileChunks(f, size, overlap) :: f.present && c.source == f.name
  {
    if f.present && IsPdf(f) {
      PdfChunksPages(f.pages, f.name, size, overlap);
    } else if f.present && IsTextLike(f) {
      TextFileChunks(f, size, overlap);
    }
  }

  /** A text or markdown file gives unpaged chunks named after the file. */
  lemma TextFileChunks(f: SourceFile, size: int, overlap: int)
    requires ValidChunking(size, overlap)
    requires f.present && IsTextLike(f)
    ensures forall c | c in FileChunks(f, size, overlap) :: c.source == f.name && c.page == None
  {
    ChunksOfShape(f.text, f.name, None, size, overlap);
  }

  function ContentsOfChunks(chunks: seq<ChunkMetadata>): (texts: seq<string>)
    ensures |texts| == |chunks|
  {
    seq(|chunks|, k requires 0 <= k < |chunks| => chunks[k].content)
  }

  /** The two persisted artifacts, `index.faiss` and `chunks.pkl`; `None` when the file is absent. */
  class ArtifactDir {
    var index: Option<FlatIndex>
    var chunks: Option<seq<ChunkMetadata>>

    constructor (index: Option<FlatIndex>, chunks: Option<seq<ChunkMetadata>>)
      ensures this.index == index && this.chunks == chunks
    {
      this.index := index;
      this.chunks := chunks;
    }
  }

  /** `IngestionEngine`: reads files, cuts chunks, embeds them and writes the index. */
  class IngestionEngine {
    const cfg: Config.RagConfig
    /** The sentence-embedding model when it loaded, `None` when the fallback is in use. */
    const encoder: Option<Encoder>
    const embeddingDim: nat

    /**
     * `model` is what loading the sentence-embedding model gave, `None` when it failed.
     * The dimension is that of the model's vector for "test", or 768 for the fallback.
     */
    constructor (cfg: Config.RagConfig, model: Option<Encoder>)
      ensures this.cfg == cfg && encoder == model
      ensures embeddingDim == if model.Some? then |model.value.encode("test")| else Config.FallbackEmbeddingDim
    {
      this.cfg := cfg;
      encoder := model;
      embeddingDim := if model.Some? then |model.value.encode("test")| else Config.FallbackEmbeddingDim;
    }

    /** The embedding of one text: the model's vector, or the fallback at `embeddingDim`. */
    function Embed(t: string): seq<real> {
      match encoder
      case Some(e) => e.encode(t)
      case None => FallbackVector(t, embeddingDim)
    }

    /** The embeddings of the texts, in input order. */
    function Embeddings(texts: seq<string>): (vs: seq<seq<real>>)
      ensures |vs| == |texts|
    {
      seq(|texts|, k requires 0 <= k < |texts| => Embed(texts[k]))
    }

    /** `_chunk_text`: normalise, then cut windows at multiples of the stride. */
    method ChunkText(text: string, source: string, page: Option<int>) returns (chunks: seq<ChunkMetadata>)
      requires ValidChunking(cfg.chunkSizeChars, cfg.chunkOverlapChars)
      ensures chunks == ChunksOf(text, source, page, cfg.chunkSizeChars, cfg.chunkOverlapChars)
    {
      var t := Normalize(text);
      chunks := CutWindows(t, source, page);
    }

    /** The window loop of `_chunk_text` over the normalised text `t`. */
    method CutWindows(t: string, source: string, page: Option<int>) returns (chunks: seq<ChunkMetadata>)
      requires ValidChunking(cfg.chunkSizeChars, cfg.chunkOverlapChars)
      ensures chunks == Numbered(Contents(Windows(t, cfg.chunkSizeChars, cfg.chunkOverlapChars)), source, page)
    {
      var size, overlap := cfg.chunkSizeChars, cfg.chunkOverlapChars;
      chunks := [];
      var start: nat := 0;
      var idx: nat := 0;
      ghost var j: nat := 0;
      CutStart(t, size, overlap, source, page);
      while start < |t|
        invariant CutState(t, size, overlap, source, page, j, start, chunks, idx)
        decreases |t| - start
      {
        chunks, idx := EmitWindow(t, start, source, page, chunks, idx, j);
        start := start + size - overlap;
        j := j + 1;
      }
      CutDone(t, size, overlap, source, page, j, start, chunks, idx);
    }

    /**
     * One pass of the loop of `_chunk_text`: the window of `t` at `start` is stripped and,
     * when something is left, emitted with counter `idx`.
     */
    method EmitWindow(t: string, start: nat, source: string, page: Option<int>, chunks: seq<ChunkMetadata>, idx: nat, ghost j: nat)
      returns (chunks': seq<ChunkMetadata>, idx': nat)
      requires ValidChunking(cfg.chunkSizeChars, cfg.chunkOverlapChars)
      requires CutState(t, cfg.chunkSizeChars, cfg.chunkOverlapChars, source, page, j, start, chunks, idx) && start < |t|
      ensures CutState(t, cfg.chunkSizeChars, cfg.chunkOverlapChars, source, page, j + 1,
                       start + cfg.chunkSizeChars - cfg.chunkOverlapChars, chunks', idx')
    {
      var end := start + cfg.chunkSizeChars;
      var chunk := Strip(t[start..Min(end, |t|)]);
      CutStep(t, cfg.chunkSizeChars, cfg.chunkOverlapChars, source, page, j, start, chunks, idx, chunk);
      chunks', idx' := chunks, idx;
      if chunk != [] {
        chunks' := chunks + [ChunkMetadata(ChunkId(source, page, idx), chunk, source, page, None)];
        idx' := idx + 1;
      }
    }

    /**
     * `_embed_texts`: one vector per text in input order. `np.vstack` rejects an empty
     * list, and the only caller never passes one.
     */
    method EmbedTexts(texts: seq<string>) returns (vectors: seq<seq<real>>)
      requires |texts| > 0
      ensures vectors == Embeddings(texts)
      ensures encoder.None? ==> forall k | 0 <= k < |texts| :: |vectors[k]| == embeddingDim
    {
      if encoder.Some? {
        var encode := encoder.value.encode;
        vectors := seq(|texts|, k requires 0 <= k < |texts| => encode(texts[k]));
        return;
      }
      vectors := [];
      for k := 0 to |texts|
        invariant |vectors| == k
        invariant forall m | 0 <= m < k :: vectors[m] == FallbackVector(texts[m], embeddingDim)
      {
        var arr := FillFallback(texts[k], embeddingDim);
        vectors := vectors + [arr[..]];
      }
    }

    /**
     * `ingest_files`: the chunks of all files in order; when there is at least one, the
     * index of their embeddings (aligned with them position by position) and the chunk list
     * are written to `dir`, otherwise nothing is written. Returns the chunk count.
     */
    method IngestFiles(files: seq<SourceFile>, dir: ArtifactDir) returns (n: nat)
      requires ValidChunking(cfg.chunkSizeChars, cfg.chunkOverlapChars)
      modifies dir
      ensures var all := AllChunks(files, cfg.chunkSizeChars, cfg.chunkOverlapChars);
        && n == |all|
        && (n == 0 ==> dir.index == old(dir.index) && dir.chunks == old(dir.chunks))
        && (n > 0 ==>
              var vectors := Embeddings(ContentsOfChunks(all));
              dir.index == Some(FlatIndex(|vectors[0]|, vectors)) && dir.chunks == Some(all))
    {
      var size, overlap := cfg.chunkSizeChars, cfg.chunkOverlapChars;
      var allChunks: seq<ChunkMetadata> := [];
      for i := 0 to |files|
        invariant allChunks == AllChunks(files[..i], size, overlap)
        invariant dir.index == old(dir.index) && dir.chunks == old(dir.chunks)
      {
        var f := files[i];
        AllChunksStep(files, i, size, overlap);
        ghost var before := allChunks;
        if !f.present {
          continue;
        }
        var ext := Lower(f.suffix);
        if ext == ".pdf" {
          var p := 0;
          while p < |f.pages|
            invariant p <= |f.pages|
            invariant allChunks == before + PdfChunks(f.pages[..p], f.name, size, overlap)
            invariant dir.index == old(dir.index) && dir.chunks == old(dir.chunks)
          {
            var pageChunks := ChunkText(f.pages[p], f.name, Some(p + 1));
            PdfChunksStep(f.pages, p, f.name, size, overlap);
            AppendAssoc(before, PdfChunks(f.pages[..p], f.name, size, overlap), pageChunks);
            allChunks := allChunks + pageChunks;
            p := p + 1;
          }
          assert f.pages[..|f.pages|] == f.pages;
          assert allChunks == before + FileChunks(f, size, overlap);
        } else if ext == ".txt" || ext == ".md" {
          var textChunks := ChunkText(f.text, f.name, None);
          allChunks := allChunks + textChunks;
          assert allChunks == before + FileChunks(f, size, overlap);
        } else {
          assert before + FileChunks(f, size, overlap) == before;
        }
      }
      assert files[..|files|] == files;
      if allChunks == [] {
        return 0;
      }
      var texts := ContentsOfChunks(allChunks);
      var embs := EmbedTexts(texts);
      var dim := |embs[0]|;
      dir.index := Some(FlatIndex(dim, embs));
      dir.chunks := Some(allChunks);
      n := |allChunks|;
    }
  }
}
