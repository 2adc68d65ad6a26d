/** The module-level state of server.js (`documentVectors`, `learnedFilename`)
    and the two routes that use it. */
module Server {
  import opened Wrappers
  import opened Numeric
  import opened Similarity
  import opened Corpus
  import opened Oracles
  import opened Http
  import opened Chunker
  import opened Ingestion
  import Query

  const NoFileMessage: string := "파일이 업로드되지 않았습니다."
  const NoTextMessage: string := "파일에서 텍스트를 추출할 수 없습니다."
  const TrainErrorMessage: string := "문서 학습 중 API 오류가 발생했습니다. 오류 로그를 확인하세요."

  function TrainedMessage(name: string): string
  {
    "'" + name + "' 학습 및 임베딩 완료!"
  }

  class DocumentServer {
    var documentVectors: seq<DocVector>
    var learnedFilename: Option<string>

    ghost predicate Valid()
      reads this
    {
      WellFormed(documentVectors)
    }

    /** The state at start-up: nothing learned. */
    constructor ()
      ensures Valid() && documentVectors == [] && learnedFilename == None
    {
      documentVectors := [];
      learnedFilename := None;
    }

    /** The `/api/train` route. The upload, extraction and empty-text checks
        leave the state alone; from then on `documentVectors` is emptied and
        refilled batch by batch, and `learnedFilename` is set only once every
        batch has been embedded. An embedding failure ends the route with
        whatever records the earlier batches produced. */
    method Train(file: Option<Upload>, extract: Extractor, embed: Embedder) returns (reply: Reply)
      requires Valid() && ValidEmbedder(embed)
      modifies this
      ensures Valid()
      ensures file.None? ==>
                reply == Reply(400, Message(NoFileMessage)) && unchanged(this)
      ensures file.Some? && extract(file.value).None? ==>
                reply == Reply(500, Message(TrainErrorMessage)) && unchanged(this)
      ensures file.Some? && extract(file.value) == Some("") ==>
                reply == Reply(400, Message(NoTextMessage)) && unchanged(this)
      ensures file.Some? && extract(file.value).Some? && extract(file.value).value != "" ==>
                var chunks := Chunks(extract(file.value).value, DefaultChunkSize, DefaultOverlap);
                var (docs, ok) := EmbedBatches(Batches(chunks), embed);
                documentVectors == docs &&
                (ok ==> learnedFilename == Some(file.value.displayName) &&
                        reply == Reply(200, Message(TrainedMessage(file.value.displayName)))) &&
                (!ok ==> learnedFilename == old(learnedFilename) &&
                         reply == Reply(500, Message(TrainErrorMessage)))
    {
      if file.None? {
        return Reply(400, Message(NoFileMessage));
      }
      var name := file.value.displayName;
      var extracted := extract(file.value);
      if extracted.None? {
        return Reply(500, Message(TrainErrorMessage));
      }
      var text := extracted.value;
      if text == "" {
        return Reply(400, Message(NoTextMessage));
      }
      var chunks := ChunkText(text, DefaultChunkSize, DefaultOverlap);
      var ok := EmbedChunks(chunks, embed);
      if !ok {
        return Reply(500, Message(TrainErrorMessage));
      }
      learnedFilename := Some(name);
      reply := Reply(200, Message(TrainedMessage(name)));
    }

    /** The batch loop: empty `documentVectors`, then append the records of
        each batch of 100 chunks in turn, stopping at the first embedding
        call that throws. */
    method EmbedChunks(chunks: seq<string>, embed: Embedder) returns (ok: bool)
      requires ValidEmbedder(embed)
      modifies this`documentVectors
      ensures WellFormed(documentVectors)
      ensures (documentVectors, ok) == EmbedBatches(Batches(chunks), embed)
    {
      ghost var outcome := EmbedBatches(Batches(chunks), embed);
      documentVectors := [];
      var i := 0;
      while i < |chunks|
        invariant 0 <= i
        invariant WellFormed(documentVectors)
        invariant var rest := EmbedBatches(Batches(chunks[Min(i, |chunks|)..]), embed);
                  documentVectors + rest.0 == outcome.0 && rest.1 == outcome.1
        decreases |chunks| - i
      {
        var end := Min(i + BatchSize, |chunks|);
        var batch := chunks[i..end];
        EmbedBatchesStep(chunks, i, embed);
        var response := embed(batch);
        if response.None? {
          assert documentVectors + [] == documentVectors;
          return false;
        }
        RecordsWellFormed(batch, embed);
        ghost var rest := EmbedBatches(Batches(chunks[end..]), embed);
        assert documentVectors + (Records(batch, response.value) + rest.0) ==
               (documentVectors + Records(batch, response.value)) + rest.0;
        documentVectors := documentVectors + Records(batch, response.value);
        i := i + BatchSize;
      }
      assert Min(i, |chunks|) == |chunks| && chunks[|chunks|..] == [];
      assert Batches(chunks[|chunks|..]) == [];
      assert documentVectors + [] == documentVectors;
      ok := true;
    }

    /** The `/api/ask` route, reading the current state. */
    method Ask(question: Option<string>, embed: Embedder, chat: Chat, normalise: Normaliser) returns (reply: Reply)
      requires Valid() && ValidEmbedder(embed)
      ensures reply == Query.Ask(question, documentVectors, learnedFilename, embed, chat, normalise)
    {
      reply := Query.Ask(question, documentVectors, learnedFilename, embed, chat, normalise);
    }
  }

  /** Training is not atomic: when the very first embedding call throws, the
      previously learned records are gone although the route failed and the
      old filename stays. */
  lemma FirstBatchFailureEmptiesCorpus(chunks: seq<string>, embed: Embedder)
    requires ValidEmbedder(embed)
    requires |chunks| > 0 && embed(chunks[..Min(BatchSize, |chunks|)]).None?
    ensures EmbedBatches(Batches(chunks), embed) == ([], false)
  {
    assert Batches(chunks)[0] == chunks[..Min(BatchSize, |chunks|)];
  }
}
