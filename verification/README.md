# cursor-brain memory core in Dafny

This project models the memory engine of cursor-brain. The engine is a
store of memories (session, long-term and project memories). It retrieves
them for a query by fusing a full-text search with a vector search, and
packs the winners into a token-budgeted context text. Ingestion derives a
summary and an embedding for each memory. The tool layer validates
requests and dispatches them, turning every failure into an error response.

Modules, one file each:

- `Wrappers` (wrappers.dfy): `Option` and `Result`.
- `Seqs` (seqs.dfy): distinctness, `slice`/`LIMIT` semantics, filtering.
- `Text` (text.dfy): `trim`, quote stripping and `join`, on JavaScript
  strings. A `char` is one Unicode scalar value.
- `MemoryTypes` (memory_types.dfy): the three kinds, the record and the
  ingestion request.
- `Ranking` (ranking.dfy): scored ids, a stable insertion sort, and the
  "ORDER BY score LIMIT n" selection.
- `MemoryStore` (memory_store.dfy): the `memories` table as a map from id
  to record. The table also keeps its row order and a full-text index,
  which is a view derived from the records. The module covers insert,
  lookup, bulk fetch, bulk delete, the two searches and the statistics.
- `Embeddings` (embeddings.dfy): an embedding provider is a function that
  may fail. The local provider always fails.
- `Hybrid` (hybrid.dfy): min-max normalisation, JavaScript `Map`
  semantics, fusion, ranking and `retrieveRelevantMemory`.
- `FetchOrder` (fetch_order.dfy): a two-record store, computed through the
  whole retrieval pipeline. It shows the order in which results come back.
- `KindFilter` (kind_filter.dfy): a one-record store on which a kind filter
  hides the record from the vector search.
- `Compress` (compress.dfy): the greedy context packer, as a function and
  as the loop the source runs.
- `Ingestion` (ingestion.dfy): `summaryFromRaw` and `addMemory`.
- `Engine` (engine.dfy): `validateAddMemory`.
- `Tools` (tools.dfy): `callTool` with its four tools.

The search engine's internals are parameters of type
`MemoryStore.SearchBackend`:

- whether the full-text engine accepts a query;
- the BM25 rank of a matching row;
- the cosine distance between two vectors, which may fail.

The embedder is an `Embeddings.Embedder`, `string -> Option<seq<real>>`.
`None` stands for a provider that throws. The id and the timestamp of a
new memory are parameters.

Four behaviours of the source are easy to misread. The model follows
the source in each.

- **Result order.** `retrieveRelevantMemory` sorts the fused candidates by
  descending score, cuts them with `slice`, and returns
  `getAllByIds(db, topIds)`. That query has no `ORDER BY`, so its rows come
  in the order the engine yields them, not in the requested order; the
  model takes rowid order. The ranking decides which records come back but
  not their order. See "## Findings". `Tools.Search` packs the order as
  written; `Tools.SearchRanked` is the same tool over the corrected
  retrieval.
- **Embedding dimensions.** No code checks that stored embeddings share
  one length.
- **Mismatched query embedding.** A query embedding whose length differs
  from a stored one makes the distance computation throw. That throw is
  inside the `try` of `retrieveRelevantMemory`, so retrieval falls back to
  lexical results only. This is `Hybrid.VectorUnavailable` and
  `Hybrid.DegradesToLexical`.
- **Kind filter on the vector search.** `vectorSearch` passes its values
  as kinds, then the query blob, then the limit. SQLite binds anonymous
  `?` parameters in the order they appear in the statement, where the
  distance operand comes first and the kind list second. So a filtered
  search takes its distance against the first kind's name and looks for
  the blob among the kinds. With one kind it finds nothing; with more it
  fails as soon as a record of a later-listed kind has an embedding. In
  both cases retrieval falls back to lexical results.
  `MemoryStore.VectorSearch` models the binding as written;
  `MemoryStore.VectorSearchBound` binds in statement order. See
  "## Findings".

## Model

| member | source | states |
|---|---|---|
| MemoryStore.InsertMemory | src/memory/store.ts:83-100 | An insert fails with DuplicateId when the id is present and with InvalidType when the kind name is not one of the three. It succeeds otherwise. On success the keys grow by exactly the id, other records are unchanged, and the new record holds exactly the given fields. |
| MemoryStore.InsertPreservesValid | src/memory/store.ts:30-32 | The insert trigger keeps the full-text index equal to the summary/raw/tags of the current records. Row order stays duplicate-free and covers exactly the stored ids. |
| MemoryStore.InsertThenGet | src/memory/store.ts:83-107 | Round trip: a record read back by `getById` after a successful insert equals the inserted one in every field. |
| MemoryStore.GetById | src/memory/store.ts:104-107 | `getById` returns a record exactly when the id is stored, and that record is the stored one. Otherwise it returns null. |
| MemoryStore.DeleteByIds | src/memory/store.ts:109-114 | An empty list returns 0 and leaves the store alone. Otherwise exactly the listed ids that are present are removed, and other records are unchanged. The change count is the number of distinct present ids listed, which is also the drop in record count. |
| MemoryStore.DeletePreservesValid | src/memory/store.ts:33-35 | The delete trigger keeps the full-text index in step with the remaining records. |
| MemoryStore.DeleteMissing | src/memory/store.ts:109-114 | Deleting only absent ids reports 0 changes and leaves the store exactly as it was. |
| MemoryStore.DeleteTwice | src/memory/store.ts:109-114 | Deleting a present id reports 1. Deleting it again reports 0. |
| MemoryStore.SanitizeQuery | src/memory/store.ts:117 | The sanitised query is the quote-stripped query with its surrounding whitespace cut off: the stripped text is whitespace, then the result, then whitespace, and the result neither starts nor ends with whitespace (`Text.TrimmedFromUnique` shows only the trim fits this). It holds no quote, and it is empty exactly when the stripped text is all whitespace. |
| MemoryStore.FtsSearch | src/memory/store.ts:116-134 | A query that is blank after sanitising yields [] without consulting the engine. An unparseable query fails. Results come in ascending rank order, without repeated ids, at most `limit` of them. Each result is a stored record that passes the kind filter and matches with that rank. Every matching record is returned, unless `limit` rows all ranked at least as well. |
| MemoryStore.VectorSearch | src/memory/store.ts:136-152 | As the source binds its parameters. Without a kind filter it is `MemoryStore.VectorSearchBound`. With a non-empty filter it fails exactly when a record of a kind listed after the first has an embedding, and otherwise returns nothing. Whatever it returns has an embedding and passes the filter. |
| MemoryStore.KindValuesMember | src/memory/store.ts:138-141 | A kind's name is among the bound kind names exactly when the kind is listed. |
| MemoryStore.BindVector | src/memory/store.ts:141-150 | The values are bound to the placeholders in statement order: the first to the distance operand, the last to `LIMIT`, the ones between to the `IN` list exactly when there is one. |
| MemoryStore.RunVectorStatement | src/memory/store.ts:142-151 | For any binding: the statement fails exactly when some selected row's distance fails. Results come in ascending distance order, without repeated ids, at most `LIMIT` of them, each a selected row with its own distance. Every selected row is returned unless `LIMIT` rows are all at least as near. |
| MemoryStore.ShiftedSearch | src/memory/store.ts:141-147 | As bound in the source, a filtered search fails exactly when a record of a kind listed after the first has an embedding, and otherwise returns the empty list. |
| MemoryStore.ShiftedSelection | src/memory/store.ts:141-145 | As bound in the source, the filtered statement keeps exactly the rows with an embedding whose kind is listed after the first. |
| MemoryStore.BoundSelection | src/memory/store.ts:138-145 | Bound in statement order, the statement keeps exactly the records that have an embedding and pass the kind filter. |
| MemoryStore.VectorSearchBound | src/memory/store.ts:136-152 | Bound in statement order: the search fails exactly when some scanned record's distance fails. Results come in ascending distance order, without repeated ids, at most `limit` of them. Only records with an embedding that pass the kind filter appear, each with its own distance. Every scanned record is returned, unless `limit` rows are all at least as near. |
| MemoryStore.GetAllByIds | src/memory/store.ts:154-159 | An empty list returns []. Otherwise the result is exactly the stored records whose id is listed, each once. Their order is the order the engine yields, taken as rowid order restricted to the listed ids, not the order of the list. |
| MemoryStore.FetchDistinct | src/memory/store.ts:157-158 | A fetch over a duplicate-free rowid order yields no record twice. |
| MemoryStore.GetStats | src/memory/store.ts:161-167 | `total` is the number of records. `byType` has a key exactly for each kind that has a record, with that kind's count. |
| MemoryStore.StatsSumToTotal | src/memory/store.ts:161-167 | The per-kind counts add up to the total. |
| MemoryStore.DeleteReducesTotal | src/memory/store.ts:109-114 | After a delete, the statistics total drops by exactly the reported change count. |
| Seqs.SliceTo | src/retrieval/hybrid.ts:62 | JavaScript `slice(0, n)` returns a prefix: min(n, length) elements for n >= 0, and n counted back from the end for negative n. |
| Seqs.SqlLimit | src/memory/store.ts:129 | SQLite `LIMIT n` returns a prefix of min(n, length) elements, or everything for negative n. |
| Text.Trim | src/memory/store.ts:117 | `trim` returns a slice of its input with only whitespace before and after it, and the slice neither starts nor ends with whitespace. The result is empty exactly for all-whitespace input. |
| Text.TrimmedFromUnique | src/memory/store.ts:117 | That description determines the result: any text it fits is the trim. |
| Text.StripQuotes | src/memory/store.ts:117 | Removing quotes leaves no quote, keeps every other character with its count, and leaves quote-free text unchanged. |
| Text.StripQuotesChar | src/memory/store.ts:117 | A single character is dropped exactly when it is a double or a single quote. |
| Text.StripQuotesAppend | src/memory/store.ts:117 | Removing quotes works piecewise over concatenation, so the kept characters stay in their original order. |
| MemoryTypes.ParseType | src/memory/store.ts:13 | Exactly the three kind names are accepted, each as the kind it names. |
| MemoryTypes.ParseTypeName | src/memory/types.ts:1 | Round trip: parsing a kind's name gives the kind back. |
| Ranking.Sort | src/retrieval/hybrid.ts:61 | The sort returns a permutation of its input, sorted in the chosen direction. |
| Ranking.SortIsStable | src/retrieval/hybrid.ts:61 | Stability: elements of equal score keep their input order. |
| Ranking.Top | src/memory/store.ts:128-129 | `ORDER BY score LIMIT n` over the scored rows: sorted ascending, at most n rows, each with its own score. Rows left out score no better than any row kept. |
| Ranking.Ranked | src/retrieval/hybrid.ts:61-62 | Sorting then `slice(0, limit)` gives a sorted prefix of the sorted input. It has at most `limit` entries, or all of them when they fit, and no new ids. |
| Ranking.RankedKeepsBest | src/retrieval/hybrid.ts:61-62 | Nothing cut off by the limit is ahead of anything kept. |
| Hybrid.EffectiveLimit | src/retrieval/hybrid.ts:26 | The limit is 10 when none is given, the given limit when at most 50, and 50 otherwise. |
| Hybrid.MinMaxNorm | src/retrieval/hybrid.ts:12-18 | The output has the input's length, and every value lies in [0,1]. With `reverse`, the minimum maps to 1 and, when max > min, the maximum maps to 0. All-equal scores map to 1 when reversed, else 0. |
| Hybrid.MinMaxNormOrder | src/retrieval/hybrid.ts:12-18 | `minMaxNorm` keeps the order of any two scores, or reverses it with `reverse`. |
| Hybrid.NormalizeEnds | src/retrieval/hybrid.ts:14-17 | The minimum maps to the bottom end, and the maximum to the top end when the range is non-zero. |
| Hybrid.NormalizeOrder | src/retrieval/hybrid.ts:17 | Normalisation is monotone, and antitone with `reverse`. |
| Hybrid.MapSet | src/retrieval/hybrid.ts:39 | `Map.set`: the key set gains the key. A new key is appended at the end. Distinct keys stay distinct. |
| Hybrid.MapFromDistinct | src/retrieval/hybrid.ts:38-41 | Entries with distinct new ids pass through a Map unchanged and in order. |
| Hybrid.LookupDistinct | src/retrieval/hybrid.ts:56-57 | `Map.get` of a key of a duplicate-free map returns that entry's value. |
| Hybrid.Normalized | src/retrieval/hybrid.ts:47-52 | Each side keeps its ids in order, with reversed normalised scores in [0,1]. The best rank or distance gets 1, and the worst gets 0 when they differ. A better (lower) rank or distance never gets a lower normalised score. |
| Hybrid.UnionIds | src/retrieval/hybrid.ts:43 | `new Set([...a, ...b])` holds exactly the ids of either side, starts with `a`, and has no duplicates. |
| Hybrid.SideScore | src/retrieval/hybrid.ts:56-57 | A side's score for an id lies in [0,1], and is 0 for an id absent from that side. On a side without repeated ids, it is that candidate's own normalised score. |
| Hybrid.SideScoreOrder | src/retrieval/hybrid.ts:47-57 | On a side without repeated ids, a better (lower) rank or distance never gives a lower side score. |
| Hybrid.Candidates | src/retrieval/hybrid.ts:54-60 | The candidates are the union of lexical and vector ids, in union order, each once. Each score is (f+v)/2 with 0 for a missing side, and lies in [0,1]. |
| Hybrid.FusedRanking | src/retrieval/hybrid.ts:61-62 | The top ids are sorted by descending fused score, without duplicates, at most `limit` of them, all drawn from the candidates. |
| Hybrid.FusedTiesKeepUnionOrder | src/retrieval/hybrid.ts:43-61 | Among equal fused scores the ranking keeps union order: lexical ids in lexical order, then vector-only ids. |
| Hybrid.FusedRankingContents | src/retrieval/hybrid.ts:54-62 | Every ranked score lies in [0,1] and is the mean of the id's two side scores. Every ranked id comes from a side, and when all candidates fit, exactly the ids of either side are ranked. |
| Hybrid.FusedRankingKeepsBest | src/retrieval/hybrid.ts:61-62 | No candidate cut off by the limit scores above one that was kept. |
| Hybrid.VectorSide | src/retrieval/hybrid.ts:27-36 | When the embedder or the vector search throws, the vector side is empty. When both succeed, it is exactly the vector search's result. Under a non-empty kind filter it is empty. Every vector candidate is a stored record that has an embedding and passes the kind filter, each listed once. |
| Hybrid.FusedTop | src/retrieval/hybrid.ts:26-62 | Retrieval fails exactly when the lexical search fails. Both searches are asked for 2*limit, and the top list is the fused ranking of their results cut to `limit`. It is sorted descending, duplicate-free and at most `limit` long. Each id is a stored record that passes the kind filter and either matches the query or has an embedding. Without a vector side, each id is a lexical match. Every fused score lies in [0,1]. |
| Hybrid.FusedTopKeepsMatches | src/retrieval/hybrid.ts:29-62 | When all candidates fit under a positive limit, every record that matches a non-blank query and passes the kind filter is in the top list, and so is every vector hit. |
| Hybrid.FusedTopTiesKeepUnionOrder | src/retrieval/hybrid.ts:43-62 | Among top ids of equal fused score, the order is the candidates' union order: lexical hits first, in rank order, then vector-only hits. |
| Hybrid.FusedTopScores | src/retrieval/hybrid.ts:54-62 | Each returned score is the mean of the id's normalised lexical and vector scores, with 0 for a side it is missing from. |
| Hybrid.RetrieveRelevantMemory | src/retrieval/hybrid.ts:20-66 | As written: the records of the top ids, in rowid order restricted to those ids rather than in rank order, each a stored record. |
| Hybrid.RetrieveRanked | src/retrieval/hybrid.ts:20-66 | Corrected: the records of the top ids, in fused-rank order. |
| Hybrid.RankedHasSameRecords | src/retrieval/hybrid.ts:63-65 | The as-written and the corrected retrieval return the same records. Only the order differs. |
| Hybrid.DegradesToLexical | src/retrieval/hybrid.ts:27-36 | When no query embedding or vector search is available, or a kind filter is given, every record returned matches the query lexically. |
| Hybrid.EmptyStoreRetrievesNothing | src/retrieval/hybrid.ts:63-65 | An empty store retrieves nothing. |
| FetchOrder.RetrievalListsRowidOrder | src/retrieval/hybrid.ts:65 | Concretely, with records a then b where b ranks first, the as-written retrieval lists a before b. |
| FetchOrder.RowidOrderWins | src/retrieval/hybrid.ts:61-65 | For any store holding a before b in rowid order and any backend whose fused ranking is b then a, the as-written retrieval lists a before b. |
| FetchOrder.RankedListsRankOrder | src/retrieval/hybrid.ts:61-62 | For the same input, the corrected retrieval lists b before a. |
| KindFilter.OneKindFindsNothing | src/memory/store.ts:141-147 | On a store of one session memory with an embedding whose distance succeeds, the search filtered on session memories returns nothing as the source binds it, and returns that record when bound in statement order. |
| KindFilter.TwoKindsFail | src/memory/store.ts:141-147 | On the same store, filtering on project and session memories makes the search as bound in the source fail, while the search bound in statement order returns the record. |
| KindFilter.NoTextMatchNoResult | src/retrieval/hybrid.ts:27-65 | Under a kind filter, with an engine that accepts every query and matches no text, retrieval returns nothing, whatever the embeddings say. |
| KindFilter.TypedRetrievalMissesRecord | src/retrieval/hybrid.ts:27-65 | On the same store, a retrieval filtered on session memories with a query that matches no text returns nothing, although the record is a session memory within reach of the vector search. |
| FetchOrder.FetchIgnoresRankOrder | src/memory/store.ts:154-159 | `getAllByIds(["b","a"])` lists a before b. |
| Compress.Cost | src/retrieval/compress.ts:14 | The cost of a text is ceil(length/4). |
| Compress.PackCount | src/retrieval/compress.ts:10-17 | The packed count k is the unique count such that the first entry is kept whenever there is one. Two or more kept entries cost at most the budget. Packing stops exactly at the first entry that would overflow. |
| Compress.PackingUnique | src/retrieval/compress.ts:10-17 | At most one count satisfies the packing conditions. |
| Compress.CompressForContext | src/retrieval/compress.ts:6-20 | The loop, with its early break, produces exactly the renderings of the packed prefix joined by a blank line. |
| Compress.ContextText | src/retrieval/compress.ts:6-20 | The context is the renderings of the first k entries joined by a blank line, for a k that meets the packing conditions: the first entry kept whenever there is one, two or more only within the budget, and a stop exactly at the first overflow. `Compress.PackingUnique` shows this k is unique. An empty entry list gives "". |
| Compress.FirstEntryKept | src/retrieval/compress.ts:15 | The first entry's rendering always opens the context. |
| Compress.OversizedFirstStandsAlone | src/retrieval/compress.ts:15 | A first entry that alone exceeds the budget is the whole context. |
| Compress.ContextEmptyIff | src/retrieval/compress.ts:10-19 | The context is empty exactly when there are no entries. |
| Compress.LargerBudgetKeepsMore | src/retrieval/compress.ts:15 | A larger budget never packs fewer entries. |
| Ingestion.SummaryFromRaw | src/ingestion/index.ts:12-15 | The summary is a prefix of the trimmed explicit summary if that has text, else of the trimmed raw content. Its length is min(length, 500). It is empty exactly when both are blank. |
| Ingestion.EmbeddingInput | src/ingestion/index.ts:30 | The embedding input is raw when the summary is at least as long. Otherwise it is a prefix of summary, newline and raw, of length min(total, 8191). |
| Ingestion.AddMemory | src/ingestion/index.ts:17-42 | One insert: it fails only on a duplicate id. The keys grow by exactly the new id, and other records are unchanged. The stored raw is the content, tags and file refs default to [], the summary is derived, and the embedding is the embedder's result or absent. |
| Ingestion.AddPreservesValid | src/ingestion/index.ts:40 | Adding keeps the store invariant. |
| Ingestion.AddWithoutEmbedding | src/ingestion/index.ts:31-38 | A provider that throws still gets the record inserted, without an embedding and in the full-text index. |
| Ingestion.ShortContentEmbeddedAsIs | src/ingestion/index.ts:30 | Short unpadded content with no explicit summary becomes its own summary and its own embedding input. |
| Engine.ValidateAddMemory | src/mcp/engine.ts:33-40 | A request passes exactly when the content has at most 100000 characters and the tags are absent or at most 50. The content error is reported first. TooManyTags is reported exactly when the content is fine and more than 50 tags are given. |
| Tools.ParseTypes | src/mcp/tools.ts:112 | A list of kind names parses exactly when every name is a kind, to the kinds they name. |
| Tools.ParseTypeNames | src/mcp/tools.ts:112 | Round trip: parsing the names of kinds gives the kinds back. |
| Tools.ParseSearch | src/mcp/tools.ts:108-114 | The search arguments parse exactly when there is a query, the limit is absent or in [1,50], and the kinds are valid. The query and limit are kept, and the kinds are the ones the names denote, or none when no list was given. |
| Tools.ParseAdd | src/mcp/tools.ts:137-144 | The add arguments parse exactly when the kind is one of the three and there is content. |
| Tools.DeleteTargets | src/mcp/tools.ts:166 | A non-empty `id` gives `[id]`. Otherwise the targets are `ids`, or none. |
| Tools.Search | src/mcp/tools.ts:115-133 | Search never changes the store. It is an error carrying the store's error exactly when `retrieveRelevantMemory` fails. Otherwise it replies with the default-budget context of the retrieved entries, in the order retrieval returned them, or with "No relevant memories found." when nothing was retrieved. |
| Tools.SearchReply | src/mcp/tools.ts:129-133 | A failed retrieval is an error reply. A successful one replies with non-empty text: the packed context, or the fixed sentence exactly when there are no entries. |
| Tools.SearchRanked | src/mcp/tools.ts:120-133 | The same tool over the corrected retrieval fails exactly when the as-written search fails. It packs the same records, in fused-rank order. |
| Tools.Add | src/mcp/tools.ts:145-156 | Validation runs first, and a rejected request stores nothing. Success comes exactly when validation passes and the id is new. It replies with that id after inserting exactly it. |
| Tools.Delete | src/mcp/tools.ts:166-175 | No targets is an error that leaves the store alone. Otherwise the targets are removed and their count is reported. |
| Tools.CallTool | src/mcp/tools.ts:98-190 | Every error response leaves the store unchanged. Only `memory_add` and `memory_delete` change it, and the store invariant is kept. An unknown name is an error naming the tool. `memory_stats` replies with the statistics. `memory_search` replies as `Tools.Search` on the parsed arguments, or with the schema error. `memory_add` replies as `Tools.Add` on the parsed arguments, or with the validation error. `memory_delete` replies as `Tools.Delete` on its `id` and `ids`. |
| Tools.SearchLimitRejected | src/mcp/tools.ts:108-114 | A search limit outside [1,50] is an error response and the store is untouched. |
| Tools.SearchLimitDefault | src/mcp/tools.ts:115 | Leaving the limit out behaves exactly as limit 10. |
| Tools.NoResultsReply | src/mcp/tools.ts:129-133 | A successful search replies "No relevant memories found.", not as an error, exactly when nothing was retrieved. |
| Tools.DeleteWithoutIds | src/mcp/tools.ts:166-169 | No non-empty `id` and no `ids` gives the error "Either id or ids required", and nothing is deleted. |
| Tools.DeletePrefersId | src/mcp/tools.ts:166 | A non-empty `id` wins over `ids`: only that record goes, and the count is 1 or 0. |
| Tools.OversizeAddRejected | src/mcp/tools.ts:145-152 | Content over 100000 characters is rejected with "Content too long (max 100000 chars)" before anything is stored. |
| Tools.AddInsertsOnce | src/mcp/tools.ts:145-156 | A valid add with a new id stores exactly one record under the reported id. Its raw text is the content, its timestamp is the call's, and its embedding is the embedder's. Other records are unchanged. |

## Left out

- SQLite internals: BM25 scoring, `vec_distance_cosine` and FTS5 tokenisation/`MATCH` are the parameters of `SearchBackend`. Ties in `ORDER BY` and the row order of `IN (...)` fetches follow rowid (insertion) order, which SQLite does not promise; for `id IN (...)` it may instead walk the primary-key index in ascending id order. In the example of "## Findings" both orders list a before b.
- Float32 and `Buffer` layout, and the JSON encoding of `tags` and `file_refs`: embeddings are sequences of reals, and lists are sequences, assumed to round-trip.
- Embedding providers (OpenAI over the network, the local stub) and `dimensions()`: an embedder is a function that may fail. The extra `embeddingDim` argument `addMemory` passes is ignored by `insertMemory` and is not modelled.
- `generateId` and `Date.now`: the id and timestamp of a new memory are parameters of `Ingestion.AddMemory` and `Tools.CallTool`. A colliding id is modelled as the store's DuplicateId error.
- `ensureDir`, `getDbPath`, `openStore` and the schema setup: file system work.
- The `memories_fts_update` trigger: no update operation exists.
- The editor extension, the stdio server, configuration loading, `createEngine` and `getStoragePath`: host plumbing.
- `listTools`, `log` output and zod's own machinery. Arguments are modelled already typed: a wrongly typed JSON value is not represented. A fractional search limit is not represented either, because the limit is an integer.
- Serialising replies with `JSON.stringify`: a reply is a datatype (`Tools.Reply`), and the text of errors thrown by zod or SQLite is not modelled.
- `options.projectScope`: declared but never read by retrieval.
- Concurrency and `async` scheduling: each call is one sequential step.
- Characters outside the Basic Multilingual Plane: a `char` is one Unicode scalar value, so a string holding such a character (two UTF-16 code units, `length` 2 in JavaScript) is not represented. For every other string `|s|` is `s.length`.
- Hybrid.MinMaxNorm: states bounds, ends and the all-equal case (order preservation is `Hybrid.MinMaxNormOrder`), not the exact affine formula of every value.
- Floating point: scores, ranks and distances are exact reals, not IEEE doubles. Rounding in the normalisation and the mean can create or break a tie between fused scores, which changes the stable order and so which ids make the limit. A NaN distance (cosine against a zero vector, say) is not represented: `SearchBackend.distance` returns a real or fails.
- The binding of the vector statement: a kind name is not a vector `vec_distance_cosine` can read, so the call fails on every row it is evaluated for. A stored kind is text and never equals a blob in `IN (...)`. Both are assumptions about SQLite and sqlite-vec.

## Findings

| source | as written | input that shows it | evidently intended | confidence | as-written member | corrected member |
|---|---|---|---|---|---|---|
| src/retrieval/hybrid.ts:61-65 | The fused ids are sorted by descending score, then handed to `getAllByIds`, whose result order is returned. That query has no `ORDER BY`, so the rows come in the order the engine yields them, not the requested order (the model takes rowid order), and the ranking is lost. | A store holding record a, then record b, where b ranks better lexically and no vector side is available. Fusion ranks b (0.5) above a (0.0), but retrieval returns [a, b]. | Return the fetched records in fused-rank order. The code sorts the candidates before `slice`, and the context packer always keeps the first entry and drops from the end, so both rely on the best record coming first. | not executed | FetchOrder.RetrievalListsRowidOrder | FetchOrder.RankedListsRankOrder |
| src/memory/store.ts:141-147 | The values are passed as kinds, then the query blob, then the limit. The statement's placeholders are the distance operand, then the kind list, then the limit. So the distance is taken against the first kind's name, and the `IN` list holds the remaining kinds and the blob. | One session memory with an embedding whose distance succeeds. Filtered on session memories, the search returns nothing. Filtered on project and session memories, it fails, and retrieval silently falls back to lexical results. | Bind the query blob first, then the kinds, then the limit, so that a filtered search returns the nearest records of the listed kinds. | not executed | KindFilter.OneKindFindsNothing | MemoryStore.VectorSearchBound |
