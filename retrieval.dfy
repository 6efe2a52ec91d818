/**
 * The local vector store (rag_pipeline/retrieval.py): the loaded index, the chunk list
 * and the embedding width as the state of a `VectorStore` object, loading them from the
 * artifact directory, the query embedding, and the post-filter that turns the
 * nearest-neighbour candidates into scored chunks.
 *
 * faiss is outside the model: its `search` is the function `knn`, which for an index, a
 * query vector and a count returns the (distance, index) pairs of the first result row.
 */
module Retrieval {
  import opened Wrappers
  import opened Ingestion
  import Config

  /** A chunk returned by `search`, with its similarity score (`RetrievedChunk`). */
  datatype RetrievedChunk = RetrievedChunk(metadata: ChunkMetadata, score: real)

  /** One pair of the search result: an L2 distance and a position in the chunk list (-1 for none). */
  datatype Candidate = Candidate(distance: real, idx: int)

  /** `max(0.0, 1.0 - d)`: the pseudo-similarity of a distance. */
  function Similarity(d: real): (s: real)
    ensures s >= 0.0 && s >= 1.0 - d
    ensures s == 0.0 || s == 1.0 - d
    ensures d >= 0.0 ==> s <= 1.0
  {
    if 1.0 - d > 0.0 then 1.0 - d else 0.0
  }

  /** A greater distance never gives a greater score. */
  lemma SimilarityAntitone(d1: real, d2: real)
    requires d1 <= d2
    ensures Similarity(d2) <= Similarity(d1)
  {
  }

  /** A candidate survives the filter: its position is in the chunk list and its score reaches the threshold. */
  predicate Kept(c: Candidate, n: int, threshold: real) {
    0 <= c.idx < n && Similarity(c.distance) >= threshold
  }

  /** The scored chunks of the surviving candidates, in candidate order. */
  function Filtered(cands: seq<Candidate>, chunks: seq<ChunkMetadata>, threshold: real): (r: seq<RetrievedChunk>)
    ensures |r| <= |cands|
    ensures forall k | 0 <= k < |r| :: r[k].score >= threshold && r[k].metadata in chunks
  {
    if cands == [] then []
    else
      var c := cands[|cands| - 1];
      var prev := Filtered(cands[..|cands| - 1], chunks, threshold);
      if Kept(c, |chunks|, threshold) then prev + [RetrievedChunk(chunks[c.idx], Similarity(c.distance))] else prev
  }

  /** The positions of the surviving candidates, in increasing order. */
  function KeptPositions(cands: seq<Candidate>, n: int, threshold: real): (ps: seq<nat>)
    ensures forall k | 0 <= k < |ps| :: ps[k] < |cands| && Kept(cands[ps[k]], n, threshold)
  {
    if cands == [] then []
    else
      var prev := KeptPositions(cands[..|cands| - 1], n, threshold);
      if Kept(cands[|cands| - 1], n, threshold) then prev + [|cands| - 1] else prev
  }

  /** The kept positions are increasing, and a position is kept exactly when its candidate survives. */
  lemma {:induction false} KeptPositionsSpec(cands: seq<Candidate>, n: int, threshold: real)
    ensures var ps := KeptPositions(cands, n, threshold);
      && (forall k, l | 0 <= k < l < |ps| :: ps[k] < ps[l])
      && (forall i | 0 <= i < |cands| :: Kept(cands[i], n, threshold) <==> i in ps)
  {
    if cands != [] {
      var init := cands[..|cands| - 1];
      KeptPositionsSpec(init, n, threshold);
      var prev := KeptPositions(init, n, threshold);
      assert forall i | 0 <= i < |init| :: cands[i] == init[i];
    }
  }

  /**
   * The filter keeps the surviving candidates and only those, in order: its k-th result
   * is `chunks[idx]` scored `max(0, 1 - d)` for the k-th surviving candidate `(d, idx)`.
   */
  lemma {:induction false} FilteredAtKeptPositions(cands: seq<Candidate>, chunks: seq<ChunkMetadata>, threshold: real)
    ensures var ps := KeptPositions(cands, |chunks|, threshold); var r := Filtered(cands, chunks, threshold);
      && |r| == |ps|
      && forall k | 0 <= k < |ps| ::
           r[k] == RetrievedChunk(chunks[cands[ps[k]].idx], Similarity(cands[ps[k]].distance))
  {
    if cands != [] {
      var init := cands[..|cands| - 1];
      FilteredAtKeptPositions(init, chunks, threshold);
      assert forall i | 0 <= i < |init| :: cands[i] == init[i];
    }
  }

  /** What the nearest-neighbour search is assumed to return: at most `k` pairs, distances at least 0, positions in [-1, n). */
  ghost predicate HonestKnn(knn: (FlatIndex, seq<real>, int) -> seq<Candidate>) {
    forall ix: FlatIndex, q: seq<real>, k: int ::
      |knn(ix, q, k)| <= (if k < 0 then 0 else k)
      && forall c | c in knn(ix, q, k) :: c.distance >= 0.0 && -1 <= c.idx < |ix.vectors|
  }

  /** `VectorStore`: the index, the chunk list and the embedding width, with search over them. */
  class VectorStore {
    const cfg: Config.RagConfig
    /** The sentence-embedding model when it loaded, `None` when the fallback is in use. */
    const encoder: Option<Encoder>
    /** faiss `index.search` for one query row. */
    const knn: (FlatIndex, seq<real>, int) -> seq<Candidate>
    var index: Option<FlatIndex>
    var chunks: seq<ChunkMetadata>
    var embeddingDim: nat

    /** A new store holds no index and no chunks, and assumes 768 dimensions. */
    constructor (cfg: Config.RagConfig, model: Option<Encoder>, knn: (FlatIndex, seq<real>, int) -> seq<Candidate>)
      ensures this.cfg == cfg && encoder == model && this.knn == knn
      ensures index == None && chunks == [] && embeddingDim == Config.FallbackEmbeddingDim
      ensures !IsReady()
    {
      this.cfg := cfg;
      encoder := model;
      this.knn := knn;
      index := None;
      chunks := [];
      embeddingDim := Config.FallbackEmbeddingDim;
    }

    /** `is_ready`: an index is loaded and there is at least one chunk. */
    predicate IsReady()
      reads this
    {
      index.Some? && |chunks| > 0
    }

    /**
     * `load`: when either artifact is missing, fails and changes nothing; otherwise takes
     * the index, its dimension and the chunk list from `dir`.
     */
    method Load(dir: ArtifactDir) returns (ok: bool)
      modifies this
      ensures ok <==> dir.index.Some? && dir.chunks.Some?
      ensures !ok ==> index == old(index) && chunks == old(chunks) && embeddingDim == old(embeddingDim)
      ensures ok ==> index == dir.index && embeddingDim == dir.index.value.dim && chunks == dir.chunks.value
    {
      if dir.index.None? || dir.chunks.None? {
        return false;
      }
      index := dir.index;
      embeddingDim := index.value.dim;
      chunks := dir.chunks.value;
      return true;
    }

    /** The width of the fallback query vector: `embedding_dim or 768`. */
    function QueryDim(): (d: nat)
      reads this
      ensures d > 0
      ensures embeddingDim > 0 ==> d == embeddingDim
    {
      if embeddingDim == 0 then Config.FallbackEmbeddingDim else embeddingDim
    }

    /** The query vector: the model's, or the byte-based fallback at `QueryDim()`. */
    function QueryEmbedding(query: string): seq<real>
      reads this
    {
      match encoder
      case Some(e) => e.encode(query)
      case None => FallbackVector(query, QueryDim())
    }

    /** `_embed_query`. */
    method EmbedQuery(query: string) returns (v: seq<real>)
      ensures v == QueryEmbedding(query)
      ensures encoder.None? ==> |v| == QueryDim()
    {
      if encoder.Some? {
        v := encoder.value.encode(query);
        return;
      }
      var arr := FillFallback(query, QueryDim());
      v := arr[..];
    }

    /** What `search(query, top_k)` returns on the current state. */
    function SearchResult(query: string, topK: Option<int>): (r: seq<RetrievedChunk>)
      reads this
      ensures !IsReady() ==> r == []
      ensures forall k | 0 <= k < |r| :: r[k].score >= cfg.scoreThreshold && r[k].metadata in chunks
    {
      if !IsReady() then []
      else Filtered(knn(index.value, QueryEmbedding(query), topK.GetOr(cfg.topK)), chunks, cfg.scoreThreshold)
    }

    /**
     * `search`: nothing when the store is not ready; otherwise the candidates of the
     * nearest-neighbour search for the query vector, filtered in order.
     */
    method Search(query: string, topK: Option<int>) returns (results: seq<RetrievedChunk>)
      ensures results == SearchResult(query, topK)
      ensures !IsReady() ==> results == []
      ensures forall k | 0 <= k < |results| :: results[k].score >= cfg.scoreThreshold && results[k].metadata in chunks
    {
      if !IsReady() {
        return [];
      }
      var k := topK.GetOr(cfg.topK);
      var q := EmbedQuery(query);
      var cands := knn(index.value, q, k);
      results := [];
      for i := 0 to |cands|
        invariant results == Filtered(cands[..i], chunks, cfg.scoreThreshold)
      {
        var c := cands[i];
        assert cands[..i + 1][..i] == cands[..i];
        if c.idx < 0 || c.idx >= |chunks| {
          continue;
        }
        var sim := Similarity(c.distance);
        if sim < cfg.scoreThreshold {
          continue;
        }
        results := results + [RetrievedChunk(chunks[c.idx], sim)];
      }
      assert cands[..|cands|] == cands;
    }
  }

  /** With an honest search, a store returns at most `top_k` results, each scored at most 1. */
  lemma SearchBounded(vs: VectorStore, query: string, topK: Option<int>)
    requires HonestKnn(vs.knn)
    ensures var k := topK.GetOr(vs.cfg.topK);
      |vs.SearchResult(query, topK)| <= (if k < 0 then 0 else k)
    ensures forall r | r in vs.SearchResult(query, topK) :: r.score <= 1.0
  {
    if vs.IsReady() {
      var ix, q, kk := vs.index.value, vs.QueryEmbedding(query), topK.GetOr(vs.cfg.topK);
      var cands := vs.knn(ix, q, kk);
      assert forall c | c in cands :: c.distance >= 0.0;
      var r := Filtered(cands, vs.chunks, vs.cfg.scoreThreshold);
      FilteredAtKeptPositions(cands, vs.chunks, vs.cfg.scoreThreshold);
      var ps := KeptPositions(cands, |vs.chunks|, vs.cfg.scoreThreshold);
      forall x | x in r ensures x.score <= 1.0 {
        var k :| 0 <= k < |r| && r[k] == x;
        var c := cands[ps[k]];
        assert c in cands;
        assert c.distance >= 0.0;
        assert x.score == Similarity(c.distance);
      }
    }
  }

  /** Without a model, a query is embedded exactly as ingestion embeds a chunk of the same width. */
  lemma FallbackQueryMatchesIngestion(vs: VectorStore, engine: IngestionEngine, query: string)
    requires vs.encoder.None? && engine.encoder.None?
    requires vs.embeddingDim == engine.embeddingDim > 0
    ensures vs.QueryEmbedding(query) == engine.Embed(query)
  {
  }
}
