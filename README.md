# Retrieval bookkeeping and IP allow-list, modelled in Dafny

This project models the logic of a small retrieval-augmented question-answering
service: an Express server (`server.js`) and a Cloudflare Pages middleware
(`functions/_middleware.js`). The model covers these parts:

- **Chunking** (`chunkText`). A `while` loop cuts the document text into windows of
  `chunkSize` characters. Each window starts `chunkSize - overlap` characters after
  the one before it. The training route uses the defaults 1000 and 100.
- **Similarity** (`cosineSimilarity`). The exact parts are modelled: the dot product,
  the two sums of squares and the zero-magnitude branch. The square roots and the
  final division are a parameter `normalise`, which receives those three numbers.
- **Training** (`/api/train`). The module-level state `documentVectors` /
  `learnedFilename` is a class, `Server.DocumentServer`. Its `Train` method runs
  the route: the upload and extraction checks, chunking, then the batch loop. The
  loop empties `documentVectors` and appends one `{content, vector}` record per chunk,
  embedding 100 chunks per oracle call. `learnedFilename` is set only after the
  loop finishes.
- **Asking** (`/api/ask`). The route rejects a missing question and answers "no
  document learned" when nothing is stored. Otherwise it embeds the question and
  scores every stored chunk. It sorts the scores in descending order with a stable
  sort, keeps the first three and joins their contents with `"\n---\n"`. The
  result goes into the two chat prompts.
- **IP allow-list** (`onRequest`). `ALLOWED_IPS` is split on `,` and each entry
  is trimmed. When the variable is unset the list is `["*"]`. A wildcard lets
  every request through. Otherwise a request passes only when its
  `CF-Connecting-IP` header is present and listed. Every other request gets a
  403 whose text contains the header value.

The embedding oracle, the chat oracle and the text extractor are function
parameters (`Oracles.Embedder`, `Oracles.Chat`, `Oracles.Extractor`). `None`
stands for a call that threw. `Oracles.ValidEmbedder` states the embedding
oracle's contract: as many vectors as inputs, each 1536 long
(`text-embedding-3-small`). That vector j belongs to input j is the pairing
`Ingestion.Records` makes, not part of `ValidEmbedder`. The JavaScript built-ins the code relies on are
defined in `JsStrings`: `substring`, which clamps and swaps its indices;
`split` on one character; `trim` with the ECMAScript whitespace set; and
`join`.

Facts about `server.js` that the model keeps as written:

- retrieval keeps the 3 best chunks (server.js:128); the Cloudflare variant
  functions/api/[[path]].js keeps 5 (line 120) and is not part of this model;
- the stride is `chunkSize - overlap` (server.js:29), so with the defaults a
  3000-character text gives 4 windows, starting at 0, 900, 1800 and 2700
  (`Chunker.DefaultsOn3000Characters`);
- `chunkText` has no check that `overlap < chunkSize` (server.js:29), so
  termination is a `requires` of `Chunker.ChunkText` and not an error result;
- ingestion is not atomic: `documentVectors` is emptied (server.js:71) before the
  first embedding call, and `learnedFilename` is set only at the end
  (server.js:91), so a failed batch leaves partial records next to the old
  filename (`Server.FirstBatchFailureEmptiesCorpus`);
- `server.js` has no language or intent classification and no summary path.

## Model

| member | source | states |
|---|---|---|
| `Chunker.ChunkText` | server.js:24-32 | the loop returns exactly `Chunks(text, chunkSize, overlap)`: window k is `substring(k*stride, k*stride + chunkSize)`, and there are ceil(len(text) / stride) windows; requires `overlap < chunkSize`, which the loop needs to terminate |
| `Chunker.OffsetIsProduct` | server.js:26-29 | after k turns of `i += chunkSize - overlap` the offset is k * stride |
| `Chunker.StartInsideText` | server.js:27-29 | a window's start lies inside the text exactly when its index is below the window count, which is why the loop stops there |
| `Chunker.CeilingBounds` | server.js:27-29 | the loop's window count c for n characters satisfies (c - 1) * stride < n <= c * stride |
| `Chunker.ChunkCountIsCeiling` | server.js:27-29 | the window count c is the least with len(text) <= c * stride: (c - 1) * stride < len(text) when c > 0 |
| `Chunker.ChunkIsSlice` | server.js:28 | window k is `text[k*stride .. min(k*stride + chunkSize, len(text))]` and starts inside the text; it is at most `chunkSize` long and non-empty when `chunkSize > 0` |
| `Chunker.ChunksBounded` | server.js:28 | every window has length <= `chunkSize` |
| `Chunker.EmptyAndFirstChunk` | server.js:26-28 | the empty text has no windows and any other text has at least one; the first window is the prefix of length min(chunkSize, len(text)) |
| `Chunker.ConsecutiveChunksOverlap` | server.js:28-29 | window k+1 begins with the last min(overlap, len(text) - start of window k+1) characters of window k |
| `Chunker.ChunksReassemble` | server.js:24-31 | the first window followed by each later window minus its first `overlap` characters gives back the text |
| `Chunker.ReassemblePrefix` | server.js:24-31 | reassembling the first k windows gives the text up to the end of window k-1 |
| `Chunker.DefaultsOn3000Characters` | server.js:24-30 | with 1000/100, a 3000-character text gives 4 windows starting at 0, 900, 1800 and 2700; the last is 300 long |
| `Similarity.CosineSimilarity` | server.js:34-40 | 0 when either sum of squares is 0; otherwise the normaliser applied to the dot product and both sums of squares |
| `Similarity.SumOfSquaresZero` | server.js:36-38 | a sum of squares is 0 exactly when every component is 0, so the zero branch fires exactly for all-zero vectors |
| `Similarity.ZeroVectorScoresZero` | server.js:38 | the similarity with an all-zero vector, on either side, is 0 |
| `Similarity.DotSymmetric` | server.js:35 | the dot product of two equal-length vectors is symmetric |
| `Similarity.DotPrefix` | server.js:35 | the dot product reads only the first len(a) components of b |
| `Similarity.DotSelf` | server.js:35-36 | a vector's dot product with itself is its sum of squares |
| `Similarity.CosineSymmetric` | server.js:34-40 | for a normaliser symmetric in the two magnitudes, the similarity is symmetric |
| `Similarity.SelfSimilarity` | server.js:34-40 | a vector against itself scores 0 if it is all zeros, else normalise(S, S, S) for its sum of squares S |
| `Ranking.ScoreAll` | server.js:121-124 | one score per stored record, in order; each holds the record's content and the similarity of the question vector to the record's vector |
| `Ranking.InsertSorted` | server.js:126-127 | inserting into a non-increasing sequence keeps it non-increasing |
| `Ranking.InsertPermutes` | server.js:126-127 | an insertion adds exactly the inserted element to the multiset of scores |
| `Ranking.InsertStable` | server.js:127 | an insertion puts the new element before the existing elements that share its similarity |
| `Ranking.SortSorts` | server.js:126-127 | the sort yields non-increasing similarities and is a permutation of its input |
| `Ranking.SortStable` | server.js:127 | the sort is stable: for each similarity value, the elements with that value keep their input order |
| `Ranking.SortLength` | server.js:126-127 | the sort keeps the length |
| `Ranking.WithSimilarityAppend` | server.js:127-128 | selecting one similarity value distributes over concatenation |
| `Ranking.PrefixBeatsSuffix` | server.js:126-128 | in a non-increasing sequence no element after position k scores above one before it |
| `Ranking.TopScoredShape` | server.js:126-128 | `slice(0, 3)` of the sorted scores keeps min(3, n) of them, in non-increasing order, drawn from the input |
| `Ranking.TopScoredBest` | server.js:126-128 | no score left out of the top three beats a kept one |
| `Ranking.TopScoredStable` | server.js:126-128 | for every similarity value, the kept scores are the earliest in storage order that have it |
| `Ranking.TopContextsSpec` | server.js:121-130 | the context joins, with `"\n---\n"`, the contents of min(3, n) top scores, each the content of a stored record |
| `Query.Ask` | server.js:104-153 | status 400 exactly when the question is missing or empty; with no stored records, the fixed "nothing learned" answer; every 500 carries the answer-error message |
| `Query.MissingQuestionRejectedFirst` | server.js:107-109 | a missing or empty question gets the 400 reply, whatever the state and the oracles |
| `Query.NothingLearnedIgnoresOracles` | server.js:110-112 | with nothing stored the reply is the same for every embedding and chat oracle, so neither is consulted |
| `Query.AnswerFromRetrievedContext` | server.js:114-153 | with a question and stored records, a throw from the question's embedding call gives the 500 error; otherwise the answer is the chat oracle's reply to the prompts built from the filename, the top-3 context and the question, and a throw from the chat call gives the 500 error |
| `Query.UserPromptCarriesContextAndQuestion` | server.js:141 | the user prompt holds the context right after the fixed heading, then the fixed question heading, then the question at the end |
| `Query.SystemPromptNamesFile` | server.js:137 | the system prompt names the learned file between single quotes, as "null" before any training has completed |
| `Ingestion.Records` | server.js:83-86 | record j pairs chunk j of the batch with vector j of the oracle's answer |
| `Ingestion.RecordsWellFormed` | server.js:78-86 | records built from a valid oracle's answer all have the model's dimension |
| `Ingestion.EmbedBatchesStep` | server.js:74-88 | one turn at offset i embeds `chunks.slice(i, i + 100)`; on success its records come before those of the remaining turns, and on failure the loop ends |
| `Ingestion.BatchesPartition` | server.js:74-75 | the batches are non-empty, at most 100 long, and concatenate to the chunks exactly once, in order |
| `Ingestion.BatchAt` | server.js:74-75 | batch j is the slice from 100*j, 100 long or cut at the end of the chunks |
| `Ingestion.EmbedBatchesContents` | server.js:71-88 | after the batch loop, record k holds chunk k, every vector has the model's dimension, and there are never more records than chunks |
| `Ingestion.EmbedBatchesVectors` | server.js:78-87 | the vector of record k is the one the oracle returned at position k % 100 of its answer for batch k / 100 |
| `Ingestion.EmbedBatchesOutcome` | server.js:74-88 | on success there is one record per chunk; on failure the record count n is a multiple of 100 below the chunk count, and the oracle threw on the 100 chunks from n |
| `Server.DocumentServer.constructor` | server.js:15-16 | the start-up state: no records and no filename |
| `Server.DocumentServer.EmbedChunks` | server.js:71-88 | the loop empties `documentVectors`, then leaves exactly the records `EmbedBatches` describes; `ok` says whether every batch succeeded |
| `Server.DocumentServer.Train` | server.js:42-102 | a missing file (400), an extraction failure (500) or empty text (400) leaves the state unchanged; otherwise `documentVectors` holds the batch loop's records; `learnedFilename` becomes the upload's name with a 200 only when every batch succeeded, and on failure it keeps its old value and the reply is 500 |
| `Server.DocumentServer.Ask` | server.js:104-154 | the route's reply is `Query.Ask` on the current `documentVectors` and `learnedFilename` |
| `Server.FirstBatchFailureEmptiesCorpus` | server.js:71-88 | when the first embedding call throws, the previously learned records are gone |
| `JsStrings.Substring` | server.js:28 | `substring` with in-order indices is the slice between the indices, each clamped to the length |
| `JsStrings.SplitHasNoSeparator` | functions/_middleware.js:15 | no piece of a split contains the separator |
| `JsStrings.JoinSplit` | functions/_middleware.js:15 | joining the pieces of a split with the separator gives back the string |
| `JsStrings.SplitJoin` | functions/_middleware.js:15 | splitting a join of separator-free pieces gives back the pieces |
| `JsStrings.Trim` | functions/_middleware.js:15 | the trimmed string has no whitespace at either end and is no longer than its input |
| `JsStrings.TrimSpec` | functions/_middleware.js:15 | the input is some whitespace, then the trimmed string, then some more whitespace |
| `JsStrings.TrimKeepsCharacters` | functions/_middleware.js:15 | every character of a trimmed string is a character of its input, so trimming a comma-free piece leaves it comma-free |
| `JsStrings.TrimIdempotent` | functions/_middleware.js:15 | trimming twice is trimming once |
| `Middleware.TrimAll` | functions/_middleware.js:15 | entry i of the list is piece i of the split, trimmed |
| `Middleware.IpListSpec` | functions/_middleware.js:6-15 | a non-empty `ALLOWED_IPS` gives one trimmed, comma-free entry per comma-separated piece; unset or empty gives `["*"]` |
| `Middleware.WildcardAllowsEveryone` | functions/_middleware.js:18-21 | a list containing `*` passes every request, with or without a client IP |
| `Middleware.DefaultAllowsEveryone` | functions/_middleware.js:6-21 | without `ALLOWED_IPS`, or with it empty, every request passes |
| `Middleware.AllowedIffListed` | functions/_middleware.js:24-32 | without a wildcard, a request passes if and only if the header is present, non-empty and equal to a list entry |
| `Middleware.MissingHeaderDenied` | functions/_middleware.js:24-32 | a missing header is refused when there is no wildcard, with "null" in the message |
| `Middleware.EmptyHeaderNeverMatches` | functions/_middleware.js:27-32 | an empty header is falsy and is refused, even when a trailing comma put an empty entry in the list |
| `Middleware.DenialShape` | functions/_middleware.js:30-32 | every refusal is a 403 whose text is the fixed head, the header value, then the fixed tail |
| `Middleware.SingleEntry` | functions/_middleware.js:15 | a value without commas is a one-entry list, trimmed |
| `Middleware.TrailingComma` | functions/_middleware.js:15 | a trailing comma after one entry adds an empty entry |
| `Middleware.LeadingSpaceEntryMatches` | functions/_middleware.js:15-29 | a setting that is one trimmed, comma-free address after a space, such as `" 1.2.3.4"`, becomes the one-entry list of that address and admits a client with it |

## Left out

- Express, multer, static file serving and `app.listen` (server.js:1-22, 156-158) are routing and I/O set-up. The route handlers are modelled as functions and methods over their inputs.
- PDF extraction with `pdf-parse` and UTF-8 decoding of the upload (server.js:54-62) are the `Extractor` parameter. A PDF parse that throws gives `None` and so a 500.
- The latin1 to UTF-8 re-encoding of the filename (server.js:49) is Node `Buffer` behaviour. The upload's display name is taken as already re-encoded.
- The OpenAI embedding and chat calls (server.js:78-81, 115-119, 132-147) are oracle parameters. The model name, the temperature and the answer text they produce are not modelled.
- The question is embedded as the one-element batch `[question]`. The source passes the bare string, for which the oracle also returns one vector.
- `Math.sqrt` and the floating-point division of `cosineSimilarity` (server.js:36-39) are the `normalise` parameter. Vector components are exact integers, so the claim that scores lie in [-1, 1] is not made.
- Strings are sequences of Unicode code points, while JavaScript counts UTF-16 code units. For text outside the Basic Multilingual Plane, `length`, `substring` and the window boundaries differ from the model.
- The `question` body field is a string or absent. Non-string JSON values, which JavaScript would test for truthiness, are not modelled.
- Two requests running at once can share the globals. That concurrency is not modelled; each route runs alone against the state.
- Console logging is not modelled.
- public/main.js, main.js and api.js are browser UI or a pass-through to the chat API. functions/api/[[path]].js is a Cloudflare variant of the two routes (KV storage, language and intent classification, a summary path, top-5 retrieval). Only server.js and functions/_middleware.js are modelled.
- The embedding oracle is a function of its input: two calls with the same batch get the same answer, so a transient failure (a rate limit, a time-out) after an identical batch succeeded is not represented.
- The chat oracle is a function of the two prompts, while the source samples at temperature 0.5 (server.js:144): the same prompts can get different answers there, and only one answer per prompt pair is represented here.
- `context.next()` is abstracted to the decision `Next`, and the 403 `Response` to `Deny(403, text)`.
