/** The sentence-embedding model both scripts load
    (sentence-transformers/all-MiniLM-L6-v2). Its vectors are 384 floats; the
    model never looks inside them, it only passes them from the embedder to the
    vector index. */
module Embeddings {

  type Embedding = seq<real>

  /** The dimension the ingestion script creates the index with. */
  const Dimension: nat := 384
}
