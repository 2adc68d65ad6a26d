/** The external collaborators of server.js, as parameters: the OpenAI
    embedding and chat endpoints and the text extractor. `None` stands for a
    call that threw. */
module Oracles {
  import opened Wrappers
  import opened Similarity
  import opened Corpus

  /** `openai.embeddings.create({input})`: one vector per input string. */
  type Embedder = seq<string> -> Option<seq<Vector>>

  /** `openai.chat.completions.create` with a system and a user message,
      giving the answer text. */
  type Chat = (string, string) -> Option<string>

  /** The uploaded file: the display name (already re-encoded from latin1 to
      UTF-8), the MIME type and the bytes. */
  datatype Upload = Upload(displayName: string, mimetype: string, bytes: seq<bv8>)

  /** `pdf-parse` for `application/pdf`, UTF-8 decoding otherwise. */
  type Extractor = Upload -> Option<string>

  /** The embedding oracle answers, in order, one vector of the model's
      dimension per input. */
  ghost predicate ValidEmbedder(embed: Embedder)
  {
    forall batch :: embed(batch).Some? ==>
      |embed(batch).value| == |batch| &&
      forall j :: 0 <= j < |embed(batch).value| ==> |embed(batch).value[j]| == Dimension
  }
}
