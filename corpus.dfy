/** The learned state of server.js: the records of `documentVectors`. */
module Corpus {
  import opened Similarity

  /** One record `{content, vector}` of `documentVectors`. */
  datatype DocVector = DocVector(content: string, vector: Vector)

  /** The length of a `text-embedding-3-small` vector. */
  const Dimension: nat := 1536

  /** Every stored vector came from the embedding oracle and so has its length. */
  predicate WellFormed(docs: seq<DocVector>)
  {
    forall i :: 0 <= i < |docs| ==> |docs[i].vector| == Dimension
  }
}
