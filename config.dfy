/**
 * The retrieval settings of `RAGConfig` (app/config.py), taken as constants.
 * Environment-variable reads and directory creation around them are not modelled.
 */
module Config {

  /** Number of nearest neighbours asked of the index when the caller gives none. */
  const TopK: int := 5

  /** Minimum similarity a retrieved chunk must reach to be kept. */
  const ScoreThreshold: real := 0.35

  /** Width of a chunking window, in characters. */
  const ChunkSizeChars: int := 1200

  /** Characters shared by two consecutive windows. */
  const ChunkOverlapChars: int := 250

  /** Width of the fallback embedding when no model could be loaded. */
  const FallbackEmbeddingDim: nat := 768

  /** The settings record the ingestion engine and the vector store read. */
  datatype RagConfig = RagConfig(
    topK: int,
    scoreThreshold: real,
    chunkSizeChars: int,
    chunkOverlapChars: int)

  const Default: RagConfig := RagConfig(TopK, ScoreThreshold, ChunkSizeChars, ChunkOverlapChars)
}
