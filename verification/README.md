# Labkafe equipment matcher: a Dafny model of its core

The system turns a customer's enquiry (a photo, PDF, spreadsheet or Word
file) into quotation line items and suggests catalogue SKUs for each item.
A suggestion blends two signals:

- how often the same requirement text was mapped to a SKU before (the
  `sku_mapping_history` table);
- how close the requirement's embedding is to each catalogue item's
  embedding (an in-memory vector cache).

This project models the deterministic logic of that pipeline as pure Dafny
functions and a few methods with loops, and proves what each part
promises. Every external service is a parameter or an input value: the
OpenAI embedding and chat calls, Google Document AI and Vision, SQLite,
MySQL and Postgres queries, pickle, and Python's `hash`.

The modules follow the source files:

| module | file | models |
|---|---|---|
| `Wrappers` | `wrappers.dfy` | `Option` and `Result` (a raised exception is a `Failure`) |
| `Text` | `text.dfy` | `str.strip`, `' '.join(s.split())`, ASCII `lower`, `in`, `split(sep)[-1]` |
| `Batching` | `batching.dfy` | the `range(0, n, BATCH_SIZE)` slicing shared by four loops |
| `Ranker` | `ranker.dfy` | `normalize_frequencies` and the combine, sort and cut of `calculate_hybrid_score` (api/matcher.py) |
| `Suggestions` | `suggestions.dfy` | steps 2-3 of `calculate_hybrid_score` and `get_suggestions` (api/matcher.py) |
| `EmbeddingClient` | `embedding_client.dfy` | `generate_embeddings_batch` of api/matcher.py |
| `VectorStore` | `vector_store.dfy` | the globals, cache load, cosine guard, top-k search and bulk lookups of api/database.py |
| `SuggestRoute` | `suggest_route.dfy` | the `/suggest` route of api/routes.py |
| `Ingestion` | `ingestion.dfy` | scripts/generate_vectors.py: embedding fill, `update_vector` retries, worker counting, `main` |
| `SetupRun` | `setup_run.dfy` | setup_embeddings.py: `process_batch` and the sequential `main` |
| `CacheBuild` | `cache_build.dfy` | scripts/load_vectors_to_memory.py |
| `MappingHistory` | `mapping_history.dfy` | scripts/create_sku_mapping_history.py |
| `Extractor` | `extractor.dfy` | api/extractor.py |
| `FileTypes` | `file_types.dfy` | api/ocr.py: type detection, MIME map, extractor dispatch |
| `CloneSchema` | `clone_schema.dfy` | scripts/clone_database.py |
| `Models` | `models.dfy` | the pydantic field constraints of api/models.py |

Python dicts become sequences of key/value pairs with distinct keys, so
insertion order is kept. Scores and similarities are `real`. Where a Python
loop can raise part-way, the model returns a `Result` and says which
partial effects remain.

Where the design description of the system and the code disagree, the
model follows the code:

- Ties in the final score keep the order in which the `combined_scores`
  dict was filled: history SKUs first, then new vector SKUs in result
  order. Python's `sorted` is stable. The code has no lexical tie-break on
  the SKU (`Ranker.TopKStable`).
- `np.argsort` gives no tie order, so top-k search is specified as any
  descending selection. There is no tie-break by row index
  (`VectorStore.IsTopK`).
- Loading the vector cache assigns the module globals one by one. There is
  no atomic snapshot swap (first finding below).
- The run-wide `succeeded + failed == total` identity does not hold. A
  worker that raises returns `(0, len(batch))` without touching the global
  counters. The model proves only the bound `<=`
  (`Ingestion.GenerateBound`).

## Model

| member | source | states |
|---|---|---|
| Text.Strip | api/routes.py:147-150 | `s.strip()` is empty exactly when `s` is whitespace only; otherwise it neither starts nor ends with a whitespace character |
| Text.StripFactor | api/routes.py:150 | the stripped text is a contiguous factor of the input, and everything cut off on either side is whitespace |
| Text.Collapse | api/extractor.py:150-151 | `' '.join(s.split())` is the words of `s.split()` joined by single spaces; so it has plain spaces only between words, no leading or trailing space, the same non-whitespace characters in order, and is empty iff the input is blank |
| Text.WordsShape | api/extractor.py:150-151 | `s.split()` returns only non-empty runs without whitespace, and none exactly when `s` is blank |
| Text.SqueezeWords | api/extractor.py:150-151 | the whitespace scanner prints the words of its input joined by single spaces, with one leading space only after an earlier word |
| Text.CollapseIdempotent | api/extractor.py:150-151 | normalising whitespace twice equals normalising it once |
| Text.CollapseFixesCollapsed | api/extractor.py:150-151 | a string already in collapsed form is left unchanged |
| Text.Lower | api/ocr.py:30 | lower-casing keeps the length and maps each character on its own |
| Text.AfterLast | api/ocr.py:30 | `s.split(sep)[-1]` is a suffix of `s` without `sep`, preceded by `sep` whenever it is shorter than `s` |
| Batching.ChunksPartition | scripts/generate_vectors.py:284-289 | the batches are non-empty, at most `BATCH_SIZE` long, all but the last exactly `BATCH_SIZE`, and concatenate back to the item list |
| Batching.ChunkIsSlice | api/matcher.py:69-70 | batch `k` is the slice starting at `k * BATCH_SIZE` |
| Batching.ChunkCount | api/matcher.py:66 | the number of batches is `(n + BATCH_SIZE - 1) // BATCH_SIZE` |
| EmbeddingClient.SortByIndexFacts | api/matcher.py:87-90 | sorting the answer by `index` keeps the same data, sorts the indices ascending, and keeps distinct indices distinct |
| EmbeddingClient.ChunkEmbeddings | api/matcher.py:87-94 | a failed request gives exactly `len(batch)` `None`s; an answered one gives one embedding per datum returned |
| EmbeddingClient.ChunkAligned | api/matcher.py:87-91 | with one datum per text labelled 0 .. len-1, the embedding labelled `j` lands at position `j` of the batch |
| EmbeddingClient.ChunkOutputs | api/matcher.py:69-94 | batch `k` is sent with number `k + 1` and contributes the output of its own request |
| EmbeddingClient.GenerateEmbeddingsBatch | api/matcher.py:32-96 | a missing or empty key raises before any request; a `BATCH_SIZE` of 0 raises `ZeroDivisionError` in the batch count; a negative one gives an empty `range`, so no request and no output; otherwise the requests are the batches in order and the output is the batches' outputs in order |
| EmbeddingClient.SendChunks | api/matcher.py:66-96 | for a positive batch size the loop sends one request per batch, `(n + BATCH_SIZE - 1) // BATCH_SIZE` of them, and concatenates the batches' outputs |
| EmbeddingClient.LoopStep | api/matcher.py:69-94 | each turn of the loop takes batch `k` at offset `k * BATCH_SIZE` with number `k + 1`, and extends the requests and the output by that batch's own entries |
| EmbeddingClient.BatchAt | api/matcher.py:69-93 | the slice taken at loop offset `k * BATCH_SIZE` is batch `k`, and its logged batch number is `k + 1` |
| EmbeddingClient.OutputLengths | api/matcher.py:87-94 | when every request fails or is answered completely, each batch's output has the batch's length and the whole output has one entry per text |
| EmbeddingClient.Aligned | api/matcher.py:69-96 | under complete-or-failed answers the output has one entry per text, and batch `k`'s output, of the batch's own length, sits at position `k * BATCH_SIZE` onward |
| EmbeddingClient.LabelledAt | api/matcher.py:87-91 | under the same answers, the embedding labelled `j` in batch `k`'s answer sits at position `k * BATCH_SIZE + j` of the output |
| Ranker.MaxFreq | api/matcher.py:104 | the maximum bounds every count and is attained by one |
| Ranker.Ratio | api/matcher.py:105-108 | a zero maximum gives 0.0; otherwise the value times the maximum is the count |
| Ranker.NormalizeFrequencies | api/matcher.py:99-108 | same SKUs in the same order, each count divided by the maximum count, or 0.0 when the maximum is 0 |
| Ranker.NormalizeInUnit | api/matcher.py:104-108 | with non-negative counts every normalised value lies in [0, 1] |
| Ranker.NormalizeTop | api/matcher.py:104-108 | unless every count is 0, some SKU gets exactly 1.0 |
| Ranker.NormalizeBounds | api/matcher.py:101-108 | keys kept in order, values in [0, 1], the top SKU at 1.0, and all values 0.0 when the maximum is 0 |
| Ranker.WithSimilarity | api/matcher.py:185-192 | recording a similarity overwrites the vector part, keeps the historical part and frequency, and the final score is the sum of the two parts |
| Ranker.SimilarityOverwrites | api/matcher.py:185-192 | a later similarity for the same SKU replaces an earlier one and nothing accumulates |
| Ranker.HistoryRecords | api/matcher.py:166-173 | one record per history SKU in dict order; record `i` has history score and final score `0.7 * norm[i]`, the SKU's raw frequency (0 when absent), and vector score and similarity 0 |
| Ranker.FromHistory | api/matcher.py:167-173 | a history record carries its SKU and raw frequency, history score `0.7 * norm`, no vector part, and a final score equal to its history score |
| Ranker.LastSimilarity | api/matcher.py:176-192 | a SKU has a last similarity exactly when it occurs in the vector results |
| Ranker.UpsertValues | api/matcher.py:176-192 | one vector result updates the existing records in place and appends a record with no historical part for a new SKU |
| Ranker.AddVectorScoresSpec | api/matcher.py:176-192 | existing records keep their places and take the last similarity reported for them; each unseen SKU is appended once, in first-appearance order, with no historical part and its last similarity |
| Ranker.CombineSpec | api/matcher.py:163-192 | history SKUs first, then new vector SKUs, each once; every record equals the one described directly from the two inputs, and final = historical + vector |
| Ranker.CombineOrigin | api/matcher.py:163-192 | every combined record is about a SKU from the history or from the vector results |
| Ranker.ScoreBounds | api/matcher.py:166-192 | with counts >= 0 and similarities in [0, 1], every final score lies in [0, HISTORY_WEIGHT + VECTOR_WEIGHT] |
| Ranker.SortByScoreSpec | api/matcher.py:195-198 | the sort is a permutation, non-increasing in final score, and stable: the records of each score keep their order |
| Ranker.TopKBeats | api/matcher.py:195-199 | the first `top_k` records come from the input and none left out scores above one kept |
| Ranker.TopKStable | api/matcher.py:195-199 | among kept records with equal score, the order is the input order, and they are the first of that score |
| Ranker.TopKSpec | api/matcher.py:195-199 | the result has `min(top_k, n)` records, is sorted, is drawn from the input, beats everything left out, and keeps ties in input order |
| Ranker.RankSpec | api/matcher.py:163-206 | `calculate_hybrid_score` returns `min(top_k, n)` combined records in non-increasing score, all from history or vector SKUs, beating every record it drops, with ties in insertion order |
| Suggestions.ResolveHits | api/matcher.py:142-160 | given results are used as they are; otherwise the given query vector, or else a freshly generated embedding, is searched for `2 * top_k` neighbours; a search that raises gives no results, and so does an embedding that raises |
| Suggestions.HybridScore | api/matcher.py:135-206 | the ranking fails only when reading the history fails, and returns at most `top_k` records |
| Suggestions.MakeSuggestion | api/matcher.py:242-252 | the suggestion dict carries the record's SKU, final score as confidence, and both parts; without an item the name, image and price are `None` |
| Suggestions.Format | api/matcher.py:233-253 | the loop emits at most one suggestion per ranked record |
| Suggestions.GetSuggestions | api/matcher.py:224-261 | at most `top_k` suggestions, and the empty list when the history read raises |
| Suggestions.FormatKeepsAll | api/matcher.py:236-253 | with a cache or with lookups skipped, one suggestion per ranked record, in order, confidence equal to its final score |
| Suggestions.FormatDropsMissing | api/matcher.py:237-240 | looking items up, the suggestions are exactly the ranked records whose item exists, in order, each built from that item |
| Suggestions.FormatFailure | api/matcher.py:236-240 | a lookup that raises on any ranked record fails the whole loop |
| Suggestions.GetSuggestionsSkipLookup | api/matcher.py:224-257 | with `skip_item_lookup`, one suggestion per ranked record, in order, confidence = final score, no item name |
| Suggestions.GetSuggestionsLookup | api/matcher.py:224-261 | looking items up, any raising lookup empties the answer; otherwise the answer is the ranked records whose item exists |
| Suggestions.FormatConfidence | api/matcher.py:236-253 | every confidence emitted lies within any bounds that hold for the ranked final scores |
| Suggestions.GetSuggestionsConfidence | api/matcher.py:224-257 | with counts >= 0 and similarities in [0, 1], every confidence lies in [0, 1], the range the `Suggestion` model accepts |
| Suggestions.RankedInUnitRange | api/matcher.py:163-206 | with counts >= 0 and similarities in [0, 1], every ranked final score lies in [0, 1] |
| VectorStore.SkuIndex | api/database.py:58 | the index has exactly the loaded SKUs as keys and sends each to a position holding that SKU |
| VectorStore.LoadAsWritten | api/database.py:35-65 | as written: a missing file changes nothing and a successful load leaves coherent globals |
| VectorStore.OldFormatTearsState | api/database.py:48-54 | an old-format cache raises with `_vectors_cache` set and `_item_skus` still `None` |
| VectorStore.LoadVectorsToMemory | api/database.py:35-65 | corrected: a failed load leaves the globals as they were; a successful one sets all four, the index built from the SKUs |
| VectorStore.LoadsAgreeOnSuccess | api/database.py:35-65 | the corrected load raises exactly when the original does, and agrees with it on every successful load |
| VectorStore.GetVectors | api/database.py:68-72 | raises exactly when no vectors are loaded; from coherent globals it returns SKUs and names too |
| VectorStore.Cosine | api/database.py:183-192 | a zero norm on either side gives 0.0 |
| VectorStore.CosineSelf | api/database.py:183-192 | a vector of positive norm has similarity exactly 1 with itself |
| VectorStore.SafeNorm | api/database.py:235-238 | the substituted norm is positive and equals the norm whenever that is non-zero |
| VectorStore.BatchSimilarity | api/database.py:235-243 | a batch entry never divides by zero and equals the cosine whenever both norms are non-zero |
| VectorStore.SelectTopK | api/database.py:209 | the picked positions are `min(k, n)` distinct rows in non-increasing similarity, and no row left out scores above a picked one |
| VectorStore.SearchVectors | api/database.py:195-218 | raises when nothing is loaded; otherwise a top-k selection, each result the picked row's SKU and similarity |
| VectorStore.Similarities | api/database.py:204-206 | one similarity per cache row, in row order |
| VectorStore.Pair | api/database.py:212-216 | each picked position becomes its SKU and score, and a full SKU list never raises |
| VectorStore.SearchVectorsBatch | api/database.py:221-252 | raises when nothing is loaded, `[]` for no queries, and otherwise exactly one top-k list per query |
| VectorStore.ItemsBySkus | api/database.py:89-100 | no SKUs gives `{}` without a query; otherwise the result fails exactly when the query does, and on success is the query's rows keyed by their `sku` |
| VectorStore.RowsBySku | api/database.py:98 | each entry is a returned row under its own `sku` value |
| VectorStore.RowsBySkuSpec | api/database.py:98 | every returned row's `sku` is a key, and a row no later row shares its `sku` with is the entry for it: the last duplicate wins |
| VectorStore.PlaceSpec | api/database.py:173-177 | placing a requested row keeps the keys and keeps every list the limited prefix of its SKU's rows |
| VectorStore.GroupQuotesSpec | api/database.py:172-177 | each requested SKU gets the first `limit_per_sku` of its rows, in row order, and no other key appears |
| VectorStore.QuoteHistoryBulkSpec | api/database.py:154-180 | `{}` for no SKUs; otherwise a key per requested SKU, each list at most `limit_per_sku` long and the first of its rows |
| SuggestRoute.Collect | api/routes.py:145-150 | the collect loop keeps at most one entry per line item |
| SuggestRoute.CollectSound | api/routes.py:146-150 | every collected pair is an input item with `description or text` non-blank, stripped |
| SuggestRoute.CollectComplete | api/routes.py:146-150 | every item with a non-blank requirement is collected |
| SuggestRoute.CollectAppend | api/routes.py:146-150 | collecting commutes with concatenation, so items keep their input order |
| SuggestRoute.Valid | api/routes.py:161 | the compacted embeddings are never more than the embeddings |
| SuggestRoute.ValidLength | api/routes.py:161 | the number of compacted embeddings is the number present |
| SuggestRoute.ValidAt | api/routes.py:161-173 | the `k`-th present embedding is the `k`-th query of the batch |
| SuggestRoute.Scatter | api/routes.py:168-175 | one entry per embedding; `None` gets `[]`; the `k`-th present one gets result `k`; too few results raise |
| SuggestRoute.VectorResults | api/routes.py:159-175 | with no present embedding the search is not called and every item gets `[]`; otherwise results scatter back and a failed search raises |
| SuggestRoute.RankItem | api/routes.py:181-189 | each item is ranked with `top_k=3` from its own vector results |
| SuggestRoute.AllSkusSpec | api/routes.py:193-197 | `all_skus` holds every suggested SKU and nothing else |
| SuggestRoute.Caches | api/routes.py:198-199 | no suggested SKU means empty caches and no query; otherwise both queries run and either may raise |
| SuggestRoute.QuoteItem | api/routes.py:208-217 | each quote field falls back to its alternative column, the date to `""` |
| SuggestRoute.QuoteItems | api/routes.py:208-217 | one quote item per row, in order |
| SuggestRoute.Enrich | api/routes.py:205-227 | the record builds exactly when the confidence is in [0, 1] and the item row's `name` is not NULL; it keeps SKU and score, takes the row's name when the column exists and otherwise the suggestion's name or "Unknown", the row's image, and the SKU's quotes |
| SuggestRoute.EnrichAll | api/routes.py:204-227 | one record per suggestion when the loop succeeds |
| SuggestRoute.EnrichAllSpec | api/routes.py:204-227 | the records build iff every suggestion passes validation, and record `i` is suggestion `i` enriched |
| SuggestRoute.EnrichAllInRange | api/routes.py:204-227 | every built record has its confidence in [0, 1] |
| SuggestRoute.Assemble | api/routes.py:203-229 | every ranked item's id is a key of the response dict |
| SuggestRoute.AssembleSucceeds | api/routes.py:203-227 | the dict builds iff every suggestion of every item can be enriched |
| SuggestRoute.AssembleKeys | api/routes.py:228-229 | the dict's keys are exactly the ranked items' ids |
| SuggestRoute.AssembleLastWins | api/routes.py:228-229 | a later item with the same id overwrites an earlier one, so an id's entry is its last item's records |
| SuggestRoute.AssembleValid | api/routes.py:203-229 | every record in the dict passed the confidence check |
| SuggestRoute.RankAll | api/routes.py:180-189 | `zip` pairs each collected item with the ranking of its own vector results and stops at the shorter list |
| SuggestRoute.SuggestForItems | api/routes.py:140-262 | the collected items are the line items with a non-blank requirement; a failed embedding call (a missing key included) fails the request; on success the per-item results are the scattered batch search results, the ranked items are their zip with the collected items, the keys are exactly the ranked items' ids, each id holds its last item's records enriched from the item and quote caches fetched for the ranked SKUs, every record passed the confidence check, and with one embedding per requirement every collected item has a key |
| Ingestion.EmbedOrNone | scripts/generate_vectors.py:101-118 | a failed call gives exactly one `None` per name; a successful one gives the returned vectors in order |
| Ingestion.TallyConserves | scripts/generate_vectors.py:203-212 | every zipped pair is counted exactly once, as success or failure |
| Ingestion.TallyExtremes | scripts/generate_vectors.py:203-212 | with no embeddings every pair fails; with all present and written every pair succeeds |
| Ingestion.CountWrites | scripts/generate_vectors.py:203-212 | the loop stops at the shorter list and success + failed is its length |
| Ingestion.WaitBounds | scripts/generate_vectors.py:152 | every wait is positive, at most 2.0 seconds, and never shorter than the one before |
| Ingestion.UpdateFromWaits | scripts/generate_vectors.py:133-162 | one wait per retried lock, each the capped wait of its attempt, and a success comes right after them |
| Ingestion.UpdateFromSpec | scripts/generate_vectors.py:133-162 | from a given attempt on, the update succeeds iff some later allowed attempt succeeds after nothing but locks |
| Ingestion.UpdateVectorSpec | scripts/generate_vectors.py:121-162 | `True` iff some attempt within `retries` succeeds after nothing but locks; at most `retries - 1` waits, capped at 2.0 and non-decreasing |
| Ingestion.WorkerAsWritten | scripts/generate_vectors.py:165-255 | as written: counts stay within the batch, and an uncounted worker reports `(0, len(batch))` |
| Ingestion.BatchCountsBound | scripts/generate_vectors.py:194-212 | a failed embedding call fails the whole batch; otherwise success + failed is the zipped length |
| Ingestion.RolledBackStillCounted | scripts/generate_vectors.py:216-241 | a batch whose commit fails twice reports a success although nothing stayed in the database |
| Ingestion.Worker | scripts/generate_vectors.py:165-255 | corrected: a reported success is an update that stayed; the worker raises iff client creation or the loop fails; counts follow the embedding answer |
| Ingestion.WorkersAgreeOnCommit | scripts/generate_vectors.py:215-241 | both workers agree unless the batch was rolled back, and they always report the same number of items |
| Ingestion.CountedBound | scripts/generate_vectors.py:239-241 | the global counters never exceed the number of items in the batches |
| Ingestion.BatchNumber | scripts/generate_vectors.py:284-287 | the batch starting at `k * BATCH_SIZE` carries number `k + 1` |
| Ingestion.Generate | scripts/generate_vectors.py:258-329 | a missing key raises; no items returns before counting; a zero batch size raises and a negative one counts nothing; otherwise each batch goes to a worker with its number and the counters are the sum of the counted reports |
| Ingestion.GenerateBound | scripts/generate_vectors.py:239-252 | with workers that stay within their batches, the counters never exceed the number of items, however many batches raised |
| SetupRun.ProcessBatch | setup_embeddings.py:117-147 | a failed call fails the whole batch; otherwise success + failed is the zipped length |
| SetupRun.ProcessedSpec | setup_embeddings.py:190 | `processed` never exceeds the total, grows from batch to batch, and reaches the total on the last batch |
| SetupRun.TotalBatches | setup_embeddings.py:180-181 | `total_batches` is the number of batches the loop visits |
| SetupRun.Setup | setup_embeddings.py:150-207 | a missing key raises; no items returns early; a zero batch size raises and a negative one visits no batch; otherwise every batch is processed in order, with its progress figure, and the totals are the sums of the per-batch counts |
| SetupRun.RunBatches | setup_embeddings.py:178-195 | the loop counts each batch in order, reports its progress figure, and sums the counts |
| SetupRun.TotalsBound | setup_embeddings.py:185-187 | the totals never exceed the items, and equal them when every batch is fully counted |
| CacheBuild.LoadItemsAndVectors | scripts/load_vectors_to_memory.py:53-95 | three lists of equal length, never longer than the rows, every vector 1536 wide |
| CacheBuild.LoadAligned | scripts/load_vectors_to_memory.py:61-83 | entry `i` of each list comes from the `i`-th usable row: aligned, in row order, nothing else kept |
| CacheBuild.UsableMembers | scripts/load_vectors_to_memory.py:64-83 | a row is kept iff its vector decodes with width 1536 |
| CacheBuild.UsableAppend | scripts/load_vectors_to_memory.py:61-83 | the kept rows of a concatenation are the kept rows of each part, in order |
| CacheBuild.LoadEmpty | scripts/load_vectors_to_memory.py:85-87 | no usable row gives three empty lists |
| CacheBuild.CacheData | scripts/load_vectors_to_memory.py:100-106 | the dict records `num_items = len(item_skus)` and the vector width, or 1536 when empty |
| CacheBuild.SaveCacheAsWritten | scripts/load_vectors_to_memory.py:98-112 | as written: the file holds the dict described above |
| CacheBuild.EmptySaveRaises | scripts/load_vectors_to_memory.py:105-112 | saving an empty cache writes the file and then raises |
| CacheBuild.SaveCache | scripts/load_vectors_to_memory.py:98-112 | corrected: every cache, the empty one included, is written without error, as the original does for a non-empty one |
| CacheBuild.LoadCache | scripts/load_vectors_to_memory.py:115-131 | a missing file raises FileNotFoundError; a cache without `item_skus` raises the old-format error; success needs the file and `num_items` |
| CacheBuild.SaveLoadRoundTrip | scripts/load_vectors_to_memory.py:98-131 | reading back what was saved gives the same three lists |
| CacheBuild.RunRebuildCache | scripts/load_vectors_to_memory.py:134-166 | zero SKUs raises before anything is written; otherwise the saved dict has `num_items > 0` and width 1536 |
| CacheBuild.RebuildThenServe | api/database.py:48-58 | a rebuilt cache loads into the API's globals whole and coherent |
| MappingHistory.PairsSpec | scripts/create_sku_mapping_history.py:100-107 | the counted pairs are exactly the stripped pairs of the rows whose stripped requirement and SKU are both non-empty |
| MappingHistory.BumpSkuSpec | scripts/create_sku_mapping_history.py:107 | one increment raises that SKU's count by 1 and no other, keeps keys unique and counts positive |
| MappingHistory.BumpSpec | scripts/create_sku_mapping_history.py:107 | one increment raises that pair's frequency by 1 and no other, and keeps the mappings well formed |
| MappingHistory.AggregateSpec | scripts/create_sku_mapping_history.py:100-110 | each pair's frequency is its number of occurrences, every frequency is >= 1, and the total is the number of pairs counted |
| MappingHistory.AggregateKeys | scripts/create_sku_mapping_history.py:100-109 | the requirements counted are exactly those of the pairs |
| MappingHistory.EntryRows | scripts/create_sku_mapping_history.py:132-134 | one row per SKU of a requirement, carrying its frequency |
| MappingHistory.InsertAllSpec | scripts/create_sku_mapping_history.py:36-43 | under UNIQUE(requirement_string, sku) the inserts succeed iff no two rows clash, and the table gains them in order |
| MappingHistory.InsertRowsSpec | scripts/create_sku_mapping_history.py:132-135 | rows from well-formed mappings never clash and each carries its pair's frequency, >= 1 |
| MappingHistory.BuildHistory | scripts/create_sku_mapping_history.py:71-138 | whatever the table held, it ends with one row per distinct pair, none clashing, each with its number of occurrences, and `total_inserted` is the row count |
| Extractor.ToLineItem | api/extractor.py:108-116 | only a dict element becomes an item, and it gets the given id |
| Extractor.ToLineItemSpec | api/extractor.py:110-116 | text defaults to `""`, description to the text, an explicit description is kept, and an empty dict gives an item with both empty |
| Extractor.Convert | api/extractor.py:107-120 | the loop keeps at most one item per element |
| Extractor.ConvertSound | api/extractor.py:107-120 | each kept item was built from the element at its id's position |
| Extractor.ConvertOrdered | api/extractor.py:107-120 | every kept item has an id above the start position, and the ids strictly increase |
| Extractor.ConvertComplete | api/extractor.py:107-120 | every element that converts is kept under its position's id |
| Extractor.Iterate | api/extractor.py:107-120 | a list yields ordered items; a dict or string yields none; a scalar cannot be iterated |
| Extractor.ItemsData | api/extractor.py:84-90 | a list is used as is, a dict's `items` member is used, anything else gives no items |
| Extractor.Bracketed | api/extractor.py:95-98 | the greedy match runs from the first `[` to the last `]` after it |
| Extractor.Fallback | api/extractor.py:125-134 | one item with id 1 whose text and description are the first 200 characters of the input |
| Extractor.ExtractLineItems | api/extractor.py:22-134 | a missing or empty key raises; a failed call falls back; every successful result has ordered ids |
| Extractor.ExtractWellFormed | api/extractor.py:79-123 | a reply that is an array of complete objects yields exactly those items, ids 1, 2, ... |
| Extractor.EncodeRoundTrip | api/extractor.py:110-116 | an item written as JSON and converted back with its own id is the same item |
| Extractor.ConvertEncoded | api/extractor.py:107-120 | converting the encodings of items numbered from `start + 1` gives those items back |
| Extractor.Clean | api/extractor.py:150-151 | cleaning sets both text fields to their words joined by single spaces, keeps their visible characters and the other fields, and keeps whether the item is blank |
| Extractor.CleanAndFilter | api/extractor.py:137-156 | the result is never longer than the input |
| Extractor.CleanAndFilterSound | api/extractor.py:142-153 | every output item is a kept input item, cleaned |
| Extractor.CleanAndFilterComplete | api/extractor.py:144-153 | every item with a non-blank description is in the output, cleaned |
| Extractor.CleanAndFilterSpec | api/extractor.py:142-153 | the output is exactly the cleaned non-blank items, each with normalised description and text |
| Extractor.CleanAndFilterIdempotent | api/extractor.py:146-151 | cleaning and filtering twice equals doing it once |
| Extractor.CleanAndFilterAppend | api/extractor.py:142-153 | the filter commutes with concatenation, so output order is input order |
| FileTypes.Extension | api/ocr.py:30 | the extension holds no dot and is never longer than the name |
| FileTypes.ExtensionOfName | api/ocr.py:30 | the extension of `stem.ext` is the lower-cased `ext`, whatever the stem holds |
| FileTypes.NoDotName | api/ocr.py:30 | a name without a dot is its own lower-cased extension |
| FileTypes.DetectByExtension | api/ocr.py:28-44 | each of image, pdf, excel, word, csv is returned iff the extension is one of its listed ones, in any case, and unknown otherwise |
| FileTypes.DetectIgnoresCase | api/ocr.py:30 | lower-casing a name first does not change its type |
| FileTypes.DocIsUnknown | api/ocr.py:39-44 | a `.doc` file is unknown |
| FileTypes.ImageMimeTypeSpec | api/ocr.py:127-137 | each image extension maps to `image/<ext>`, except jpg, which maps to `image/jpeg`; anything else defaults to `image/jpeg` |
| FileTypes.VisionText | api/ocr.py:154-162 | an error message raises; no annotations gives `""`; otherwise the first annotation |
| FileTypes.ImageText | api/ocr.py:118-166 | Document AI's text when it is enabled, configured and succeeds; the Vision result otherwise |
| FileTypes.PdfText | api/ocr.py:169-201 | Document AI with `application/pdf`, and Vision when that fails |
| FileTypes.ProcessFile | api/ocr.py:256-280 | an unknown type raises before any extractor runs; otherwise the type's extractor decides success, and the text comes with the type name |
| CloneSchema.IntegerFirst | scripts/clone_database.py:75-78 | any type mentioning `int`, in any case, is INTEGER |
| CloneSchema.CaseInsensitive | scripts/clone_database.py:75 | lower-casing the type first changes nothing |
| CloneSchema.TextFallback | scripts/clone_database.py:73-88 | TEXT exactly when the type mentions no integer or real word and either a text word or no binary word: dates, times and unknown types included |
| CloneSchema.SpecOf | scripts/clone_database.py:97-109 | PRIMARY KEY iff Key is PRI or the name is the primary key; AUTOINCREMENT only on a primary key whose Extra mentions auto_increment; NOT NULL iff Null is NO |
| CloneSchema.WordsRoundTrip | scripts/clone_database.py:99-111 | the words of a column definition determine its affinity and flags |
| CloneSchema.CreateTableSql | scripts/clone_database.py:91-114 | one definition per column, in schema order |
| CloneSchema.CreateTableSpec | scripts/clone_database.py:97-111 | AUTOINCREMENT only on primary keys, the named primary key always marked, and every definition readable back |
| CloneSchema.Bind | scripts/clone_database.py:153-160 | `None` stays NULL, bytes stay bytes, anything else becomes its string |
| CloneSchema.BindRoundTrip | scripts/clone_database.py:153-160 | reading a bound value back gives the original value |
| CloneSchema.ConvertRow | scripts/clone_database.py:149-161 | one value per column, in column order, each reading back as the row's value |
| CloneSchema.CloneTable | scripts/clone_database.py:120-170 | the table ends with every row converted once, in order, whatever the batch size; the count is the number of rows |
| CloneSchema.AddVectorColumn | scripts/clone_database.py:173-184 | a duplicate-column error is swallowed, any other error is raised |
| CloneSchema.DuplicateRecognised | scripts/clone_database.py:181 | SQLite's duplicate-column message is recognised |
| CloneSchema.AddVectorColumnIdempotent | scripts/clone_database.py:173-184 | after one call the column exists, and a second call succeeds without change |
| Models.NewLineItem | api/models.py:18-24 | a line item builds iff text and description are given; id, quantity and unit are optional |
| Models.LineItemRoundTrip | api/models.py:18-24 | every line item rebuilds from its own fields; only the two required fields can make a build fail |
| Models.NewSuggestion | api/models.py:56-65 | a suggestion builds iff the confidence lies in [0, 1]; the quote list defaults to empty |
| Models.NewQuoteHistoryRequest | api/models.py:81-84 | the limit defaults to 3 and a request builds iff it lies in [1, 10] |

## Left out

- Network and database I/O. These are parameters or input values:
  - the OpenAI, Document AI and Vision calls;
  - SQLite, MySQL and Postgres queries;
  - pickling and unpickling.
- Floating point. Norms, `sqrt` and dot products are function parameters. Scores are exact reals. NaN and infinity are not modelled.
- VectorStore.SearchVectors: the unguarded division of api/database.py:204-206 is hidden inside the `similarity` parameter, so a zero norm there is not modelled.
- VectorStore.CosineSelf: requires `dot(v, v) > 0` and the norm to be its square root. A norm is a parameter here, so the identity needs those facts.
- Concurrency. The thread pool of scripts/generate_vectors.py is a sequential fold in batch order, and the lock around the counters is a plain sum. `asyncio` in setup_embeddings.py is sequential too.
- `time.sleep`. Waits are returned as values, and the fixed 0.1 s and 0.5 s sleeps are left out.
- Timing dicts, the `X-Suggest-Timing` header and logging.
- Upload, extract, quote-history and submit handlers, and the FastAPI app. The excel, word and csv readers of api/ocr.py:204-253 are inputs to `FileTypes.ProcessFile`.
- The Document AI request itself (api/ocr.py:47-116). Its answer is an input.
- Python's `hash` of a description is a parameter.
- `np.stack` and array shapes. Vectors are sequences.
- Text.Lower: maps ASCII letters only, not full Unicode case folding.
- SuggestRoute.QuoteItem: `quantity` and `price` stay database strings, because pydantic's float coercion is not modelled.
- Models.NewSuggestion: `price` stays a string, for the same reason.
- CloneSchema.CloneTable: requires a positive batch size; `fetchmany(0)` is not modelled.
- Extractor.ToLineItem: pydantic's coercion of numeric strings and booleans to the `quantity` float (api/models.py:22) is not modelled; an element with such a quantity is skipped rather than kept.
- `top_k` is a `nat`: every caller passes a positive constant. `BATCH_SIZE` is an `int` in `EmbeddingClient.GenerateEmbeddingsBatch` and in the two `main`s, where 0 and negative values are modelled.
- Ingestion.GenerateBound: requires a positive batch size, the only case in which batches are sent.
- scripts/sync.py, scripts/1_setup.py and scripts/2_update_items.py are orchestration only and are not part of this model.
- `get_item_by_sku`, `get_quote_history` and `get_all_historical_mappings` are single queries. Their answers are parameters.

## Findings

| source | as written | input that shows it | evidently intended | confidence | as-written member | corrected member |
|---|---|---|---|---|---|---|
| api/database.py:48-54 | `_vectors_cache` is assigned before the `item_skus` check raises | a cache file holding `vectors` and `item_names` but no `item_skus` | a failed load leaves the globals untouched, so `search_vectors` keeps reporting "not loaded" | not executed; high | VectorStore.LoadAsWritten, VectorStore.OldFormatTearsState | VectorStore.LoadVectorsToMemory |
| scripts/generate_vectors.py:216-228 | after a failed commit retry or another operational error the batch is rolled back, yet `success_count` is still returned and added to the counters | a one-item batch whose update succeeds and whose commit fails twice | rolled-back updates are reported as failures | not executed; medium | Ingestion.WorkerAsWritten, Ingestion.RolledBackStillCounted | Ingestion.Worker |
| scripts/load_vectors_to_memory.py:105-112 | line 105 guards the empty array, but the log line 112 reads `vectors.shape[1]`, which raises after the file is written | `save_cache(np.array([]), [], [])` | the log reports the width the dict saved | not executed; medium (`run_rebuild_cache` never saves an empty cache) | CacheBuild.SaveCacheAsWritten, CacheBuild.EmptySaveRaises | CacheBuild.SaveCache |
