/** Embedding providers (src/embeddings/provider.ts), reduced to the one
    thing the rest of the system relies on: a text either gets a vector or
    the call throws. */
module Embeddings {
  import opened Wrappers

  /** An embedding provider's `embed`: the vector for a text, or None when
      the call throws. */
  type Embedder = string -> Option<seq<real>>

  /** The local provider (src/embeddings/local.ts) is a stub that throws on
      every call. */
  const LocalEmbedder: Embedder := text => None
}
