/** The batching of the training handler in server.js: the chunks go to the
    embedding oracle in consecutive slices of at most 100, and each answer is
    zipped with its slice into `{content, vector}` records. */
module Ingestion {
  import opened Wrappers
  import opened Numeric
  import opened Similarity
  import opened Corpus
  import opened Oracles

  const BatchSize: nat := 100

  /** `chunks.slice(i, i + 100)` for i = 0, 100, 200, ... while i < |chunks|. */
  function Batches(chunks: seq<string>): seq<seq<string>>
    decreases |chunks|
  {
    if |chunks| == 0 then []
    else
      var m := Min(BatchSize, |chunks|);
      [chunks[..m]] + Batches(chunks[m..])
  }

  /** `embeddingResponse.data.map((embedding, j) => ({content: batch[j], vector: embedding.embedding}))`. */
  function Records(batch: seq<string>, vectors: seq<Vector>): (r: seq<DocVector>)
    requires |batch| == |vectors|
    ensures |r| == |batch|
    ensures forall j :: 0 <= j < |r| ==> r[j] == DocVector(batch[j], vectors[j])
  {
    seq(|batch|, j requires 0 <= j < |batch| => DocVector(batch[j], vectors[j]))
  }

  /** What the batch loop appends, batch after batch, and whether it got to the
      end: the first batch whose embedding call throws ends the loop, keeping
      the records of the batches before it. */
  function EmbedBatches(batches: seq<seq<string>>, embed: Embedder): (seq<DocVector>, bool)
    requires ValidEmbedder(embed)
    decreases |batches|
  {
    if |batches| == 0 then ([], true)
    else
      match embed(batches[0])
      case None => ([], false)
      case Some(vectors) =>
        var rest := EmbedBatches(batches[1..], embed);
        (Records(batches[0], vectors) + rest.0, rest.1)
  }

  /** One turn of the batch loop at offset i: the slice `chunks.slice(i, i + 100)`
      is embedded, and on success its records come before those of the rest. */
  lemma EmbedBatchesStep(chunks: seq<string>, i: nat, embed: Embedder)
    requires ValidEmbedder(embed) && i < |chunks|
    ensures var end := Min(i + BatchSize, |chunks|);
            var batch := chunks[i..end];
            var rest := EmbedBatches(Batches(chunks[end..]), embed);
            EmbedBatches(Batches(chunks[i..]), embed) ==
              match embed(batch)
              case None => ([], false)
              case Some(vectors) => (Records(batch, vectors) + rest.0, rest.1)
  {
    var end := Min(i + BatchSize, |chunks|);
    assert chunks[i..][..end - i] == chunks[i..end];
    assert chunks[i..][end - i..] == chunks[end..];
  }

  /** Records built from an answer of a valid oracle are well formed. */
  lemma RecordsWellFormed(batch: seq<string>, embed: Embedder)
    requires ValidEmbedder(embed) && embed(batch).Some?
    ensures WellFormed(Records(batch, embed(batch).value))
  {
  }

  function Concat(batches: seq<seq<string>>): seq<string>
    decreases |batches|
  {
    if |batches| == 0 then [] else batches[0] + Concat(batches[1..])
  }

  /** The batches are non-empty, at most 100 long, and cover the chunks
      exactly once, in order. */
  lemma {:induction false} BatchesPartition(chunks: seq<string>)
    ensures Concat(Batches(chunks)) == chunks
    ensures forall j :: 0 <= j < |Batches(chunks)| ==> 0 < |Batches(chunks)[j]| <= BatchSize
    decreases |chunks|
  {
    if |chunks| > 0 {
      var m := Min(BatchSize, |chunks|);
      BatchesPartition(chunks[m..]);
      assert chunks == chunks[..m] + chunks[m..];
    }
  }

  /** Batch j is the slice from 100 * j, 100 long or cut at the end. */
  lemma {:induction false} BatchAt(chunks: seq<string>, j: nat)
    requires j < |Batches(chunks)|
    ensures BatchSize * j < |chunks|
    ensures Batches(chunks)[j] == chunks[BatchSize * j..Min(BatchSize * j + BatchSize, |chunks|)]
    decreases |chunks|
  {
    var m := Min(BatchSize, |chunks|);
    BatchesUnfold(chunks);
    if j > 0 {
      var rest := chunks[m..];
      BatchAt(rest, j - 1);
      var a := BatchSize * (j - 1);
      var b := Min(a + BatchSize, |rest|);
      assert m == BatchSize;
      assert BatchSize * j == a + m;
      assert m + b == Min(BatchSize * j + BatchSize, |chunks|);
      SliceOfSuffix(chunks, m, a, b);
    }
  }


  /** The first batch is the first min(100, n) chunks, and the others are
      the batches of what follows it. */
  lemma BatchesUnfold(chunks: seq<string>)
    requires |chunks| > 0
    ensures var m := Min(BatchSize, |chunks|);
            Batches(chunks) == [chunks[..m]] + Batches(chunks[m..]) &&
            Batches(chunks)[0] == chunks[..m] && Batches(chunks)[1..] == Batches(chunks[m..])
  {
  }

  /** What the batch loop leaves in `documentVectors`: record k holds chunk k,
      every vector has the model's dimension, and there are never more records
      than chunks. */
  lemma {:induction false} EmbedBatchesContents(chunks: seq<string>, embed: Embedder)
    requires ValidEmbedder(embed)
    ensures var docs := EmbedBatches(Batches(chunks), embed).0;
            WellFormed(docs) && |docs| <= |chunks| &&
            forall k :: 0 <= k < |docs| ==> docs[k].content == chunks[k]
    decreases |chunks|
  {
    if |chunks| > 0 {
      var m := Min(BatchSize, |chunks|);
      BatchesUnfold(chunks);
      var first := chunks[..m];
      if embed(first).Some? {
        EmbedBatchesContents(chunks[m..], embed);
        RecordsWellFormed(first, embed);
        var head: seq<DocVector> := Records(first, embed(first).value);
        var tail: seq<DocVector> := EmbedBatches(Batches(chunks[m..]), embed).0;
        assert EmbedBatches(Batches(chunks), embed).0 == head + tail;
        forall k: int | m <= k < m + |tail| ensures (head + tail)[k].content == chunks[k] {
          assert (head + tail)[k] == tail[k - m];
        }
      }
    }
  }

  /** The vector of record k is the one the oracle returned at position
      k % 100 of its answer for batch k / 100. */
  lemma {:induction false} EmbedBatchesVectors(chunks: seq<string>, embed: Embedder, k: nat)
    requires ValidEmbedder(embed)
    requires k < |EmbedBatches(Batches(chunks), embed).0|
    ensures k / BatchSize < |Batches(chunks)|
    ensures k % BatchSize < |Batches(chunks)[k / BatchSize]|
    ensures embed(Batches(chunks)[k / BatchSize]).Some?
    ensures EmbedBatches(Batches(chunks), embed).0[k].vector ==
            embed(Batches(chunks)[k / BatchSize]).value[k % BatchSize]
    decreases |chunks|
  {
    var m := Min(BatchSize, |chunks|);
    BatchesUnfold(chunks);
    var first, rest := chunks[..m], chunks[m..];
    var head: seq<DocVector> := Records(first, embed(first).value);
    var tail: seq<DocVector> := EmbedBatches(Batches(rest), embed).0;
    assert EmbedBatches(Batches(chunks), embed).0 == head + tail;
    if k < m {
      assert k / BatchSize == 0 && k % BatchSize == k;
    } else {
      assert m == BatchSize;
      EmbedBatchesVectors(rest, embed, k - m);
      assert k / BatchSize == (k - m) / BatchSize + 1;
      assert k % BatchSize == (k - m) % BatchSize;
      assert (head + tail)[k] == tail[k - m];
    }
  }

  /** The loop either gets through every batch, leaving one record per
      chunk, or stops at the first batch whose call threw, leaving the
      records of the whole batches before it: fewer than all chunks, a
      multiple of 100, and the next 100 chunks are the batch that failed. */
  lemma {:induction false} EmbedBatchesOutcome(chunks: seq<string>, embed: Embedder)
    requires ValidEmbedder(embed)
    ensures EmbedBatches(Batches(chunks), embed).1 ==>
              |EmbedBatches(Batches(chunks), embed).0| == |chunks|
    ensures !EmbedBatches(Batches(chunks), embed).1 ==>
              var n := |EmbedBatches(Batches(chunks), embed).0|;
              n < |chunks| && n % BatchSize == 0 &&
              embed(chunks[n..Min(n + BatchSize, |chunks|)]).None?
    decreases |chunks|
  {
    if |chunks| > 0 {
      var m := Min(BatchSize, |chunks|);
      BatchesUnfold(chunks);
      var first, rest := chunks[..m], chunks[m..];
      if embed(first).Some? {
        EmbedBatchesOutcome(rest, embed);
        var tail: seq<DocVector> := EmbedBatches(Batches(rest), embed).0;
        var head: seq<DocVector> := Records(first, embed(first).value);
        assert EmbedBatches(Batches(chunks), embed).0 == head + tail;
        assert EmbedBatches(Batches(chunks), embed).1 == EmbedBatches(Batches(rest), embed).1;
        if !EmbedBatches(Batches(rest), embed).1 {
          var t := |tail|;
          assert m == BatchSize;
          assert (m + t) % BatchSize == t % BatchSize;
          var e := Min(t + BatchSize, |rest|);
          assert m + e == Min(m + t + BatchSize, |chunks|);
          SliceOfSuffix(chunks, m, t, e);
        }
      }
    }
  }

  lemma SliceOfSuffix(s: seq<string>, m: nat, a: nat, b: nat)
    requires m <= |s| && a <= b <= |s| - m
    ensures s[m..][a..b] == s[m + a..m + b]
  {
  }
}
