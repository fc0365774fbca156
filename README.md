# Knowledge retrieval and customer-service core, in Dafny

This project models the core of an e-commerce customer-service assistant.
The assistant answers questions from a knowledge base by keyword and vector
retrieval, hands conversations over to human agents, and gives operators a
workbench. The model covers the retrieval engine and the smaller
self-contained parts around it. Each part is written in the form of its
source: classes whose methods update fields in place where the source
mutates state, and functions and lemmas where it computes values.

Modules, one per source file or concern:

- `KnowledgeText`, `QueryText`, `KnowledgeIndex`, `KnowledgeBase`,
  `Retrieval` and `SharedData` model `core/shared_data.py`:
  - `KnowledgeText`: text truncation, history trimming, chunking and the
    composite chunk ids `K001#chunk_2`.
  - `QueryText`: query rewriting and token extraction.
  - `KnowledgeIndex`: the token-to-item inverted index and its
    incremental patches.
  - `KnowledgeBase`: the item list with its index and the generation of
    fresh `K###` ids.
  - `Retrieval`: keyword scoring, result merging and the clamped
    confidence.
  - `SharedData`: the `KnowledgeStore` class, which ties these together
    with a `VectorStore`.
- `VectorIndex` (`core/vector_store.py`): the `VectorStore` class with its
  id maps, id counter, automatic index type, IVF training state machine
  with its buffer of pending vectors, removal by id and by prefix, search
  guards and rebuild.
- `Validators` (`core/validators.py`): the field validators and the
  product and knowledge record validators.
- `Permissions` (`core/permissions.py`): the role-based permission algebra
  and the `PermissionManager` user registry.
- `Search` (`core/search.py`): the generic filtered and ranked search.
- `Conversations` (`core/conversation.py`): messages, the human hand-over
  status machine, the dictionary round trip, and the manager with its
  paging.
- `Auth` (`ui/login_dialog.py`): `AuthManager`'s weak-password rule,
  failed-login lockout and the validation order of login, registration and
  password change.
- `Performance` (`core/performance.py`): the bounded metric buffer, its
  counters and its statistics.
- `RateLimit` (`core/rate_limiter.py`): the token bucket and the limiter's
  buckets.
- `UiUtils` (`core/ui_utils.py`): the progress throttler, the batch updater
  and the throttled progress callback.
- `ConfigWatch` (`core/config_watcher.py`): configuration diffs and the
  callback registry and dispatch.
- `Embedding` (`core/embedding.py`): batch splitting of `embed_texts`,
  `embed_text` and the model name lookup.
- `Workbench` (`ui/workbench_interface.py`): the query/trace pairing fold,
  the session summary and the session-list filter.
- Helper modules:
  - `PyText`: the Python `str` operations the code relies on.
  - `JsonValue`: JSON values and Python's `==` on them.
  - `Ranking`: Python's stable sort.
  - `RealSeq`: `sum`, `min`, `max` and `sorted` on floats.
  - `Wrappers`: `Option`.

Conventions:

- Clock readings, fresh uuids and configuration values (chunk size,
  overlap, top-k, thresholds, limits) are parameters.
- The embedding service, the native FAISS index's search and training,
  and password verification are oracles passed in as functions or
  abstract values.
- Python floats are reals.
- Where Python would raise, the model returns `None`.

## Model

| member | source | states |
|---|---|---|
| KnowledgeText.TruncateText | core/shared_data.py:29-37 | a missing or empty text gives ""; a missing or non-positive limit, or a text within the limit, keeps the text; otherwise the result is the prefix of exactly `max_chars` characters |
| KnowledgeText.Normalize | core/shared_data.py:44-52 | the normalised history keeps only dict messages whose role is user or assistant and whose content is non-empty, and is never longer than the input |
| KnowledgeText.SuffixFitWithin | core/shared_data.py:63-77 | the messages kept by the newest-first walk together fit in `max_chars` |
| KnowledgeText.SuffixFitMaximal | core/shared_data.py:63-77 | the walk keeps the longest fitting suffix: adding the next older message would exceed `max_chars` |
| KnowledgeText.TrimmedFits | core/shared_data.py:63-80 | the trimmed history, including a truncated single newest message when nothing fits whole, stays within `max_chars` characters |
| KnowledgeText.TrimHistory | core/shared_data.py:40-80 | `trim_history`: an empty normalised history gives []; the history is limited to the last `max_messages`; without a positive `max_chars` it is returned as is, otherwise the newest fitting suffix in chronological order |
| KnowledgeText.PickNewest | core/shared_data.py:63-80 | the reversed walk with its running total yields exactly the newest fitting suffix, back in chronological order |
| KnowledgeText.ReverseReverse | core/shared_data.py:80 | reversing the picked list twice restores it, so the walk's reversal keeps chronological order |
| KnowledgeText.ChunkText | core/shared_data.py:515-531 | a text no longer than the chunk size is one chunk; otherwise the loop produces the chunks starting every `size - overlap` characters |
| KnowledgeText.LoopNeverEnds | core/shared_data.py:524-529 | as written, with an overlap of at least the chunk size, `start` never passes 0, so for a text longer than the chunk size the loop test holds after every round |
| KnowledgeText.LoopStartStrides | core/shared_data.py:524-529 | after n rounds `start` is `n * (chunk_size - chunk_overlap)` |
| KnowledgeText.ChunkLoopEnds | core/shared_data.py:524-531 | with an overlap below the chunk size the loop runs once per chunk: every round starts inside the text and the round after the last chunk starts past its end |
| KnowledgeText.ChunkAt | core/shared_data.py:524-529 | chunk i is the slice `text[i*(size-overlap) : i*(size-overlap)+size]` and starts inside the text |
| KnowledgeText.ChunkCountBounds | core/shared_data.py:524-529 | the number of chunks k is the least with `(k-1)*step < len(text) <= k*step`, so the loop terminates |
| KnowledgeText.ChunksBounded | core/shared_data.py:524-529 | no chunk is longer than the chunk size |
| KnowledgeText.ChunksCoverText | core/shared_data.py:524-529 | every character of the text lies in some chunk's stride |
| KnowledgeText.FirstDigitRun | core/shared_data.py:680 | the regular expression `(\d+)` finds the leftmost maximal non-empty digit run, and finds nothing exactly when there is no digit |
| KnowledgeText.SplitMakeChunkId | core/shared_data.py:669-687 | splitting the composite id `id#chunk_i` gives back `(id, i)` for a non-empty, stripped, '#'-free id and any i >= 0 |
| KnowledgeText.SplitAtFirstHash | core/shared_data.py:676-677 | `split("#", 1)` of a composite id cuts at the first '#', recovering the item id and the rest |
| KnowledgeText.FirstRunAfterPrefix | core/shared_data.py:680-684 | after the digit-free prefix `chunk_`, the first digit run is the whole index |
| QueryText.Runs | core/shared_data.py:697-698 | `re.findall` of a character class with `{2,}` yields only runs of at least two class characters |
| QueryText.Bigrams | core/shared_data.py:702-707 | a CJK segment contributes its first `min(len-1, 12)` two-character pieces, in order |
| QueryText.SegmentTokensBounded | core/shared_data.py:699-707 | each CJK segment emits itself and at most 12 bigrams, each a two-character piece at its position |
| QueryText.Uniq | core/shared_data.py:709-716 | the de-duplication pass has no duplicates, holds at most 40 tokens, keeps only non-empty seen tokens, and keeps every token when it stops short of 40 (order: `UniqInOrder`, `UniqEarliest`) |
| QueryText.UniqInOrder | core/shared_data.py:709-716 | the tokens the pass adds appear in the order of their first occurrence in the raw token list |
| QueryText.UniqEarliest | core/shared_data.py:709-716 | a usable token that first occurs before a kept token is kept too, so the pass keeps the first 40 distinct tokens |
| QueryText.ExtractTokens | core/shared_data.py:689-717 | `_extract_tokens` returns [] for blank text, no duplicates, at most 40 tokens, all drawn from the raw token list, and all of them when fewer than 40 |
| QueryText.RawTokensNonEmpty | core/shared_data.py:697-707 | every raw token is at least two characters long |
| QueryText.CleanWith | core/shared_data.py:584-593 | the stop phrases are removed one after the other in their listed order, whitespace is collapsed and stripped, and the length test is made on that cleaned text: under two characters gives back the raw query, otherwise the cleaned text |
| QueryText.RemovePhrasesAppend | core/shared_data.py:584-586 | removing a list of phrases removes the first part's phrases, then the second part's, each in its order |
| QueryText.RemovePhrasesOne | core/shared_data.py:586 | one phrase is removed by `str.replace(phrase, " ")` |
| QueryText.Expand | core/shared_data.py:595-601 | the expanded terms have no duplicates; each is the search term of a user term found in the raw query and not already in the cleaned query; every such term is added |
| QueryText.RewriteWith | core/shared_data.py:533-609 | `_rewrite_query` returns the cleaned query, followed by a space and the expanded terms exactly when there are any; each expanded term occurs once, comes from a synonym matched in the raw query and is not already in the cleaned query |
| KnowledgeIndex.IndexTerms | core/shared_data.py:485-497 | the terms an item is indexed under (stripped lowered keywords, category, the lowered first ten question tokens) never include the empty string |
| KnowledgeIndex.AppendOnce | core/shared_data.py:510-513 | appending an id to a posting only when absent puts it there, adds nothing else, and keeps the posting free of repeats |
| KnowledgeIndex.RemoveFirst | core/shared_data.py:503-504 | `list.remove` shortens the posting by one and, on a repeat-free posting, removes exactly that id |
| KnowledgeIndex.RemoveFirstCount | core/shared_data.py:503-504 | `list.remove` takes away exactly one occurrence |
| KnowledgeIndex.RemoveFirstCuts | core/shared_data.py:503-504 | `list.remove` cuts out the first occurrence and keeps everything else in order |
| KnowledgeIndex.AddPostingsFacts | core/shared_data.py:507-513 | the adding branch creates missing postings, puts `item.id` into every term's posting, and leaves every other term's posting untouched |
| KnowledgeIndex.AddPostingsOnce | core/shared_data.py:507-513 | after the adding branch every term of the item holds `item.id` exactly once |
| KnowledgeIndex.RemovePostingsFacts | core/shared_data.py:500-506 | the removing branch takes `item.id` out of each of its terms' postings, deletes postings that become empty, and leaves the postings of other terms untouched |
| KnowledgeIndex.BuildAgrees | core/shared_data.py:445-477 | the built index agrees with the items: no empty or repeating posting, every entry is an item carrying the term, every term of every item leads to it |
| KnowledgeIndex.AddAgrees | core/shared_data.py:479-513 | indexing one appended item keeps the index in agreement with the item list |
| KnowledgeIndex.RemoveAgrees | core/shared_data.py:479-513 | removing an item's postings before deleting it keeps the index in agreement with the remaining items |
| KnowledgeIndex.RemoveSound | core/shared_data.py:500-506 | after the removing branch every posting entry still names a remaining item carrying the term |
| KnowledgeIndex.RemoveComplete | core/shared_data.py:500-506 | after the removing branch every term of every remaining item still leads to it |
| KnowledgeIndex.UpdateAgrees | core/shared_data.py:1258-1277 | on a built index, removing the old terms and adding the new ones keeps the index in agreement with the updated item list |
| KnowledgeIndex.WithoutMembers | core/shared_data.py:1238-1256 | deleting the item at a position leaves exactly the other items, with ids still unique |
| KnowledgeIndex.AppendUnique | core/shared_data.py:1159-1183 | appending an item with a fresh id keeps ids unique |
| KnowledgeBase.LoadedCoherent | core/shared_data.py:324-351 | loading builds the index for a read file and for the defaults, but a modification-time cache hit returns before building; with unique ids the loaded store is coherent |
| KnowledgeBase.FirstIndex | core/shared_data.py:1078-1083 | the position of the first item with the id, or -1 exactly when no item has it |
| KnowledgeBase.FindItemFacts | core/shared_data.py:1078-1083 | `get_item_by_id` finds an item exactly when one has the id, returns an item with that id, and with unique ids returns that very item |
| KnowledgeBase.MaxStep | core/shared_data.py:1167-1172 | one pass of the id loop keeps `max(max_id, num)`, which bounds both |
| KnowledgeBase.MaxId | core/shared_data.py:1167-1172 | the loop's `max_id` bounds the parseable numeric suffix of every id and is at least 0 |
| KnowledgeBase.MaxStepSwap | core/shared_data.py:1167-1172 | the loop's steps commute, so the maximum does not depend on the item order |
| KnowledgeBase.NewIdTail | core/shared_data.py:1173 | the tail of `f"K{n:03d}"` parses back to n |
| KnowledgeBase.NewIdFresh | core/shared_data.py:1166-1173 | the generated id `K` + 3-digit(max+1) differs from every existing id |
| KnowledgeBase.AddedCoherent | core/shared_data.py:1159-1192 | `add_item` appends exactly one item under a fresh id and keeps ids unique and the index in agreement |
| KnowledgeBase.DeletedCoherent | core/shared_data.py:1238-1256 | `delete_item` reports whether an item had the id, removes exactly that item and keeps the store coherent (with the unbuilt-index correction below) |
| KnowledgeBase.DeletedAsWrittenWhenBuilt | core/shared_data.py:1238-1256 | on a built index the corrected deletion is the deletion as written |
| KnowledgeBase.DeletedAsWritten | core/shared_data.py:1238-1256 | `delete_item` as written fails and changes nothing exactly when no item has the id; otherwise one item fewer remains and the index is marked built |
| KnowledgeBase.DeleteUnbuiltLeavesStale | core/shared_data.py:481-483 | as written, deleting the only item after a cache-hit load leaves a built index that still lists the deleted item |
| KnowledgeBase.Apply | core/shared_data.py:1265-1267 | setting the given fields never changes the item's id |
| KnowledgeBase.UpdatedCoherent | core/shared_data.py:1258-1277 | `update_item` reports whether an item had the id, replaces exactly that item by its updated version and keeps the store coherent (with the unbuilt-index correction below) |
| KnowledgeBase.UpdatedAsWrittenWhenBuilt | core/shared_data.py:1258-1277 | on a built index the corrected update is the update as written |
| KnowledgeBase.UpdatedAsWrittenUnbuilt | core/shared_data.py:1258-1271 | as written, an update on an unbuilt index builds the index from the old items and then adds the new terms, so the old terms stay |
| KnowledgeBase.UpdatedAsWritten | core/shared_data.py:1258-1271 | `update_item` as written fails and changes nothing exactly when no item has the id; otherwise the first item with the id takes the passed fields, the count is kept and the index is marked built |
| KnowledgeBase.UpdateUnbuiltLeavesStale | core/shared_data.py:481-483 | as written, an update after a cache-hit load that drops a keyword leaves the item listed under the dropped keyword |
| KnowledgeBase.KeywordIndexed | core/shared_data.py:485-489 | a non-blank keyword is an index term of its item |
| KnowledgeBase.BlankItemUnindexed | core/shared_data.py:485-497 | an item with empty question and category and no keywords has no index terms |
| Retrieval.Clamp01 | core/shared_data.py:645-648 | `max(0.0, min(x, 1.0))` lies in [0, 1] and is the identity on [0, 1] |
| Retrieval.KeywordHits | core/shared_data.py:1045-1048 | the keyword hit count never exceeds the number of keywords |
| Retrieval.SearchTokens | core/shared_data.py:1018-1020 | the keyword search always has at least one token: the query's tokens, or the stripped query itself |
| Retrieval.ItemScore | core/shared_data.py:1043-1066 | an item's raw score (capped keyword hits, token shares of question and answer, whole-query bonuses) lies in [0, 1.26] |
| Retrieval.IndexHits | core/shared_data.py:1026-1030 | every index hit is listed in the index under some lowered query token |
| Retrieval.Candidates | core/shared_data.py:1025-1035 | the candidate set falls back to all items when the index is unbuilt, empty, or lists none of the tokens |
| Retrieval.Scored | core/shared_data.py:1037-1071 | the scoring loop keeps exactly the candidates whose raw score reaches the threshold, each with its score clamped to 1 |
| Retrieval.KeywordSearchFacts | core/shared_data.py:1011-1076 | `_keyword_search` returns [] for a blank query, a list sorted by descending score, at most `top_k` long, of items with score at most 1 and, for a threshold at most 1, at least the threshold; a scored candidate left out means `top_k` items were kept, each scoring at least as high |
| Retrieval.KeywordFallbackComplete | core/shared_data.py:1032-1035 | when the built index lists none of the tokens, every item scoring at least the threshold is scored |
| Retrieval.PoolHits | core/shared_data.py:729-732 | the number of tokens found in the pool never exceeds the number of tokens |
| Retrieval.CoverageScore | core/shared_data.py:719-741 | `_keyword_coverage_score` lies in [0, 1] and is 0 when the query has no tokens |
| Retrieval.CoverageOfQuestion | core/shared_data.py:719-741 | when every query token occurs in the question the coverage score is at least 0.75 |
| Retrieval.PoolHitsAll | core/shared_data.py:729-732 | tokens that all occur in some non-empty text of the pool are all counted |
| Retrieval.KeywordCover | core/shared_data.py:632-638 | the keyword cover of the top item is a share in [0, 1] |
| Retrieval.Confidence | core/shared_data.py:623-651 | `_compute_confidence` is 0 for no results and always lies in [0, 1] |
| Retrieval.ConfidenceMonotone | core/shared_data.py:623-651 | the confidence does not decrease when the top-1 score rises, with the item, the other scores and the result count fixed |
| Retrieval.ConfidenceOfSingle | core/shared_data.py:623-651 | a single result whose item has no keywords gets its own score as confidence |
| Retrieval.Concat | core/shared_data.py:613-614 | the merge loop visits exactly the entries of all result sets |
| Retrieval.KeepFacts | core/shared_data.py:615-617 | one merge step keeps ids distinct, takes entries only from the old list or the new entry, and keeps an entry for the new id at least as good |
| Retrieval.KeepDominates | core/shared_data.py:615-617 | one merge step never loses the best score already seen for an id |
| Retrieval.BestPerIdFacts | core/shared_data.py:612-617 | the best-per-id map holds distinct ids, only visited entries, and for every visited entry one with the same id and at least its score |
| Retrieval.MergeResultsFacts | core/shared_data.py:611-621 | `_merge_results` returns at most `limit` entries drawn from the inputs, each id once with its best score, sorted by descending score; it has `min(limit, number of ids)` entries, counting ids by the best-per-id list |
| Retrieval.MergeKeepsBest | core/shared_data.py:611-621 | the merge keeps the best ids: an id of the lists left out means `limit` entries were kept, each scoring at least as high as every entry of that id |
| Ranking.SortDesc | core/shared_data.py:619 | the descending sort by score is a permutation of its input and is sorted by descending score |
| SharedData.NonEmptyChunks | core/shared_data.py:1212 | the chunk filter keeps exactly the non-empty chunks, in order |
| SharedData.ChunkLimit | core/shared_data.py:1211-1212 | the per-item chunk limit `max(1, int(max_chunks or 6))` is at least 1 |
| SharedData.ItemChunks | core/shared_data.py:1209-1214 | an item whose text chunks without looping forever (`ChunkingEnds`) is embedded from at most the chunk limit of chunks, none of them empty |
| SharedData.AddChunkVectorsFacts | core/shared_data.py:1220-1233 | adding the chunk vectors keeps the vector maps consistent and loses no id; on success every non-empty vector is stored under `id#chunk_i`; a refused add stops the loop with the store's `add_vector` error recorded |
| SharedData.ReindexedFacts | core/shared_data.py:1194-1236 | for an item whose text chunking ends (`ChunkingEnds`), `_add_to_vector_index` keeps the vector maps consistent; without an available embedding client it changes nothing; the item's old vector and chunk vectors are removed first; on success every non-empty chunk vector is stored under its chunk id; any recorded error comes from `add_vector` |
| SharedData.Jaccard | core/shared_data.py:1110-1125 | `simple_similarity` lies in [0, 1] and is 0 when either lowered string is empty |
| SharedData.JaccardSelf | core/shared_data.py:1110-1125 | a non-empty string is fully similar to itself |
| SharedData.JaccardSymmetric | core/shared_data.py:1110-1125 | the similarity is symmetric |
| SharedData.FirstExact | core/shared_data.py:1104-1107 | the exact step finds the first item whose stripped lowered question equals the normalised question, or -1 exactly when none does |
| SharedData.MostSimilar | core/shared_data.py:1127-1134 | the best similarity bounds every item's similarity, is the chosen item's and is positive when an item is chosen, and is 0 when none is |
| SharedData.BeforeHashOfChunkId | core/shared_data.py:1151 | `split("#")[0]` of a chunk id is its item id |
| SharedData.DuplicateFound | core/shared_data.py:1089-1157 | `check_duplicate` reports nothing for a blank question; a reported item belongs to the store, with similarity 1 for an exact match and at least the threshold otherwise. The vector step uses the corrected search of the first two "## Findings" rows. |
| SharedData.DuplicateExact | core/shared_data.py:1104-1107 | a stored item with the same normalised question is always reported with similarity 1 |
| SharedData.DuplicateProbeLast | core/shared_data.py:1099-1157 | when an earlier step decides, the vector step's hit makes no difference; when none does, the answer is the vector step's report. The vector step uses the corrected search of the first two "## Findings" rows. |
| SharedData.KnowledgeStore.constructor | core/shared_data.py:264-351 | the store starts with the loaded items and index and no vector-index error, and is valid when the loaded ids are unique; the chunk settings are not constrained here, only for the item being embedded |
| SharedData.KnowledgeStore.BuildInvertedIndex | core/shared_data.py:445-477 | the index is rebuilt from the items and marked built, nothing else changes |
| SharedData.KnowledgeStore.UpdateInvertedIndex | core/shared_data.py:479-513 | `_update_inverted_index` builds an unbuilt index, otherwise removes or adds the item's postings |
| SharedData.KnowledgeStore.GetItemById | core/shared_data.py:1078-1083 | the loop returns the first item with the id, or none |
| SharedData.KnowledgeStore.KeywordSearch | core/shared_data.py:1011-1076 | the method's result is the keyword search specification over the current items and index |
| SharedData.KnowledgeStore.ScoreItems | core/shared_data.py:1037-1071 | the scoring loop yields the scored candidates in item order |
| SharedData.KnowledgeStore.CandidateIds | core/shared_data.py:1025-1035 | the candidate loop yields the index hits, or all ids as the fallback |
| SharedData.KnowledgeStore.CheckDuplicate | core/shared_data.py:1089-1157 | the result is the duplicate specification; the vector store is searched only when the exact and similarity steps decide nothing. The vector step uses the corrected search of the first two "## Findings" rows. |
| SharedData.KnowledgeStore.LocalDuplicate | core/shared_data.py:1099-1137 | the blank, exact and similarity steps decide whether the vector step is reached and, when it is not, give the duplicate answer |
| SharedData.KnowledgeStore.ExactItem | core/shared_data.py:1104-1107 | the exact-match loop finds the first exact question |
| SharedData.KnowledgeStore.VectorDuplicate | core/shared_data.py:1139-1155 | the vector step reports the item of the best hit's base id when that hit reaches the threshold and the item exists. The hits come from the corrected search of the first two "## Findings" rows. |
| SharedData.KnowledgeStore.MostSimilarItem | core/shared_data.py:1127-1134 | the similarity loop keeps the first item with the strictly best similarity |
| SharedData.KnowledgeStore.AddToVectorIndex | core/shared_data.py:1194-1236 | for an item whose text chunking ends (`ChunkingEnds`), the vector store and the recorded error become the reindexing specification's, and the store stays valid |
| SharedData.KnowledgeStore.AddChunks | core/shared_data.py:1220-1233 | the chunk loop adds vectors in order and stops at the first refusal, recording its error |
| SharedData.KnowledgeStore.MaxItemId | core/shared_data.py:1166-1172 | the loop computes the largest parseable id suffix |
| SharedData.KnowledgeStore.AddItem | core/shared_data.py:1159-1192 | `add_item` returns the new item, appends it, updates the index and reindexes its vectors, keeping the store valid; only the new item's chunking must end (`ChunkingEnds`) |
| SharedData.KnowledgeStore.Position | core/shared_data.py:1240-1241 | the loop finds the first position holding the id |
| SharedData.KnowledgeStore.DeleteItem | core/shared_data.py:1238-1256 | `delete_item` is the corrected deletion; on success the item's vector and chunk vectors are removed from the vector store, otherwise it is untouched |
| SharedData.KnowledgeStore.UpdateItem | core/shared_data.py:1258-1277 | `update_item` is the corrected update; on success the updated item is reindexed, otherwise neither the vector store nor the recorded error changes; only the updated item's chunking must end (`ChunkingEnds`) |
| SharedData.KnowledgeStore.ReplaceItem | core/shared_data.py:1260-1271 | the item is replaced; a built index is reposted, an unbuilt one built from the updated items |
| VectorIndex.Get | core/vector_store.py:479 | `dict.get` finds a value exactly when the key is present, and returns the stored one |
| VectorIndex.SelectKind | core/vector_store.py:110-116 | the automatic index type is HNSW from 50000 expected vectors, IVF from 1000, flat below |
| VectorIndex.ISqrt | core/vector_store.py:135 | `int(sqrt(n))` is the largest r with r*r <= n |
| VectorIndex.NList | core/vector_store.py:135 | the IVF cluster count lies in [16, 256] |
| VectorIndex.CreatedFacts | core/vector_store.py:93-151 | `_create_index` sets the dimension, empties the native index and the pending buffer, chooses the type automatically unless one is requested, leaves only an IVF index untrained, keeps the id maps, and keeps the store consistent |
| VectorIndex.DropIds | core/vector_store.py:384-386 | `remove_ids` keeps exactly the stored vectors whose label is not removed |
| VectorIndex.DropInternal | core/vector_store.py:393-394 | filtering the pending buffer keeps exactly the entries with another internal id |
| VectorIndex.RemovedFacts | core/vector_store.py:368-399 | `remove_vector` returns False and changes nothing for an unknown id; otherwise it removes the id from both maps and the pending buffer, keeps the counter, and keeps the maps mutual inverses |
| VectorIndex.RemovedAllConsistent | core/vector_store.py:401-410 | removing any set of known ids one by one keeps the store consistent |
| VectorIndex.RemovedAllStep | core/vector_store.py:405-409 | the prefix loop removes each listed key once, so every `remove_vector` in it succeeds |
| VectorIndex.RemovedByPrefixFacts | core/vector_store.py:401-410 | `remove_vectors_by_prefix` changes nothing and returns 0 for an empty prefix; otherwise it removes exactly the keys starting with the prefix and returns their number |
| VectorIndex.DropInternalTwice | core/vector_store.py:393-394 | filtering the pending buffer twice is filtering once by both id sets, so removal order does not matter |
| VectorIndex.AdmittedFacts | core/vector_store.py:265-316 | an accepted vector gets the old counter as internal id; the counter grows by 1; an old record of the id is removed first; a new dimension recreates a flat index first; an untrained IVF index buffers the vector; the maps stay mutual inverses |
| VectorIndex.AddVectorFacts | core/vector_store.py:251-316 | `add_vector` fails for an empty vector, and for a mismatched dimension on a non-empty index, where it records `dimension_mismatch{expected, actual}` and leaves the maps, counter and vectors unchanged; it succeeds otherwise, keeping the store consistent |
| VectorIndex.Flushed | core/vector_store.py:352-355 | the buffered vectors are added in order at the next positions |
| VectorIndex.TrainedFacts | core/vector_store.py:318-366 | `train_index` returns True unchanged for a non-IVF or trained index; an untrained IVF index succeeds exactly when the vectors given, or else the buffered ones, number at least `max(nlist, 39)`; a failure leaves it untrained; on success it is trained, the buffer is empty and every buffered vector is in the index |
| VectorIndex.Collect | core/vector_store.py:467-477 | the result loop returns at most `top_k` results and extends what it already had |
| VectorIndex.PendingScores | core/vector_store.py:510-514 | the pending scan scores only buffered vectors with a non-empty knowledge id |
| VectorIndex.SearchFacts | core/vector_store.py:412-517 | `search` returns at most `top_k` results; a query of the wrong length returns [] and records `dimension_mismatch`; only the error may change; an untrained IVF index ranks its buffer by descending score. These are facts of the corrected search of the first two "## Findings" rows, not of `search` as written. |
| VectorIndex.SearchAsWritten | core/vector_store.py:412-517 | `search` as written returns at most `top_k` results, and nothing at all while the native index is empty, whatever the pending buffer holds |
| VectorIndex.PendingPathUnreachable | core/vector_store.py:436-441 | as written, an untrained IVF index has no native vectors, so the empty-index guard returns [] before the pending-buffer path |
| VectorIndex.PendingPathReached | core/vector_store.py:439-517 | with the pending path taken first, an untrained IVF index whose buffer holds a mapped vector finds something |
| VectorIndex.ClearedFacts | core/vector_store.py:524-533 | `clear` empties both maps, the buffer and the index, resets the counter to 0, clears the last error, keeps the dimension, and leaves a consistent store |
| VectorIndex.AddAllFacts | core/vector_store.py:673-686 | the adding loop of `rebuild_index` numbers the vectors 0, 1, ... in order, and fails exactly when some vector's length differs from the dimension |
| VectorIndex.RebuildBaseFacts | core/vector_store.py:639-652 | the rebuild starts from cleared maps and a new empty index, chosen for the data's count or else the current number of ids |
| VectorIndex.RebuiltFacts | core/vector_store.py:628-693 | after `rebuild_index` the store is consistent with no error or buffer; on success the i-th data id has internal id i and is stored; an IVF rebuild with fewer than 39 vectors fails after its first vector |
| VectorIndex.RebuiltConsistent | core/vector_store.py:628-693 | a rebuild from data with distinct ids always leaves a consistent store |
| VectorIndex.OptimizeAgreesWithCreate | core/vector_store.py:695-713 | `optimize_index` advises a change exactly when the type differs from the automatic choice for the current count, so an index created automatically for that count needs none |
| VectorIndex.RebuildCheck | core/vector_store.py:573-597 | `needs_rebuild` is true exactly when the native index is empty while ids remain, or is non-empty and either a mismatch is recorded or both the current and the built model names are set, non-empty and different; the model-change reason is reported exactly in the last case, naming both models |
| VectorIndex.CompatibleAfterAdd | core/vector_store.py:556-571 | after a successful add, the index is compatible with the added vector's dimension |
| VectorIndex.ResolveFlatAgrees | core/vector_store.py:470-475 | for the flat index the label is the internal id, so the lookup as written is right |
| VectorIndex.ResolveAlignedAgrees | core/vector_store.py:470-475 | for IVF and HNSW the lookup as written is right only while every stored position equals its internal id |
| VectorIndex.MisattributedAfterTraining | core/vector_store.py:470-475 | as written, after a removal from the IVF buffer and training, a hit on position 1 is reported as "b" although the vector there was added as "c" |
| VectorIndex.VectorStore.constructor | core/vector_store.py:57-77 | a new store has dimension 1024, a flat index, empty maps, counter 0, no error and no buffer, and is valid |
| VectorIndex.VectorStore.CreateIndex | core/vector_store.py:93-151 | the store becomes the `_create_index` specification's |
| VectorIndex.VectorStore.AddVector | core/vector_store.py:251-316 | the store and the result become the `add_vector` specification's, and the store stays valid |
| VectorIndex.VectorStore.TrainIndex | core/vector_store.py:318-366 | the store and the result become the `train_index` specification's, and the store stays valid |
| VectorIndex.VectorStore.RemoveVector | core/vector_store.py:368-399 | the store and the result become the `remove_vector` specification's |
| VectorIndex.VectorStore.RemoveVectorsByPrefix | core/vector_store.py:401-410 | the loop over the keys removes what the prefix specification removes and counts it |
| VectorIndex.VectorStore.RemoveNext | core/vector_store.py:407-409 | removing a matching id not yet removed always succeeds and removes exactly that id from what the earlier steps left |
| VectorIndex.VectorStore.SearchPendingVectors | core/vector_store.py:501-517 | the scan of the buffer returns the pending-search specification |
| VectorIndex.VectorStore.Search | core/vector_store.py:412-499 | the store and the result become the corrected search specification's |
| VectorIndex.VectorStore.Clear | core/vector_store.py:524-533 | the store becomes the cleared store, and stays valid |
| VectorIndex.VectorStore.RebuildIndex | core/vector_store.py:628-693 | the store and the result become the rebuild specification's, and the store is valid for data with distinct ids |
| Validators.ValidateStock | core/validators.py:65-80 | `validate_stock` is valid exactly when `int(value)` succeeds and lies in [0, 9999999], returning that integer; a failed conversion reports an invalid integer |
| Validators.ValidateText | core/validators.py:82-101 | `validate_text` is invalid for None when required, for an empty (stripped) text when required, and for a text longer than `max_length`; otherwise it is valid with "" for None or the (stripped) text |
| Validators.ValidateName | core/validators.py:104-107 | `validate_text` with a limit of 200 and the name label |
| Validators.ValidateDescription | core/validators.py:109-112 | `validate_text` with a limit of 5000 and the description label |
| Validators.ValidateQuestion | core/validators.py:114-117 | `validate_text` with a limit of 500 and the question label |
| Validators.ValidateAnswer | core/validators.py:119-122 | `validate_text` with a limit of 10000 and the answer label |
| Validators.ValidateCategory | core/validators.py:150-161 | `validate_category` never rejects a value for missing from the allowed list: it is valid exactly when the stripped text is non-empty and at most 50 long |
| Validators.Split | core/validators.py:130 | `str.split(",")` gives at least one piece, none holding a comma |
| Validators.SplitJoin | core/validators.py:130 | joining the comma pieces with commas gives back the string |
| Validators.StrippedNonEmpty | core/validators.py:130 | at most one keyword per comma piece |
| Validators.StrippedNonEmptySound | core/validators.py:130 | each kept keyword is a non-empty stripped piece |
| Validators.StrippedNonEmptyKeeps | core/validators.py:130 | every piece that strips to something is kept, stripped |
| Validators.StrippedNonEmptyAppend | core/validators.py:130 | the comprehension works piece by piece: the keywords of two runs of pieces are the first run's followed by the second's, so order and repeats are kept |
| Validators.StrippedNonEmptyOne | core/validators.py:130 | one piece gives its stripped text when that is non-empty, and nothing otherwise |
| Validators.ShortOnes | core/validators.py:141-146 | keywords longer than 50 characters are silently dropped; a keyword is kept exactly when it has at most 50 characters |
| Validators.ShortOnesAppend | core/validators.py:141-146 | the filter works keyword by keyword: two runs give the first run's kept keywords followed by the second's, so order and repeats are kept |
| Validators.ShortOnesOne | core/validators.py:141-146 | one keyword is kept exactly when it has at most 50 characters |
| Validators.ValidateKeywords | core/validators.py:123-148 | `validate_keywords`: None is valid with []; a string or list is valid exactly when it yields at most 20 keywords; the result holds at most 20 keywords of at most 50 characters and every yielded keyword of at most 50 characters |
| Validators.DigitsMatch | core/validators.py:185 | `\d{n}` anchored matches exactly the strings of n digits |
| Validators.MobilePatternExact | core/validators.py:185 | the pattern `^1[3-9]\d{9}$` matches exactly eleven digits starting with 1 then 3 to 9 |
| Validators.ValidatePhone | core/validators.py:177-190 | `validate_phone` accepts a falsy value as "" and otherwise exactly a stripped mainland mobile number, which it returns |
| Validators.StripTags | core/validators.py:199 | the result holds no match of `<[^>]+>` (no `<` followed by a non-`>` character with a `>` later), introduces no character, and starts with the text's first character when that is not `<` |
| Validators.TagRemoved | core/validators.py:199 | a tag, `<`, a non-empty run without `>`, then `>`, is removed whole |
| Validators.StripTagsPlainPrefix | core/validators.py:199 | text without `<` is kept as it is in front of whatever follows |
| Validators.SanitizeHtml | core/validators.py:193-208 | `sanitize_html` returns "" for "", and otherwise strips the tags and then replaces `&`, `<`, `>`, `"` and `'` by their entities, `&` first (its properties are `SanitizeHtmlSafe` and `SanitizePlain`) |
| Validators.ReplaceChar | core/validators.py:202-206 | replacing a character removes it when the replacement lacks it and introduces only the replacement's characters |
| Validators.SanitizeHtmlSafe | core/validators.py:192-208 | the output of `sanitize_html` contains no `<`, `>`, `"` or `'` |
| Validators.SanitizePlain | core/validators.py:192-208 | a text without markup characters or `&` passes through unchanged |
| Validators.CollectKeys | core/validators.py:221-311 | the accumulated `cleaned` holds a key exactly when some check for it passed |
| Validators.CollectErrors | core/validators.py:221-311 | the error list is empty exactly when every check passed |
| Validators.CollectDistinct | core/validators.py:221-311 | with distinct field names each field is cleaned exactly when its own check passed |
| Validators.CollectKnowledgeFacts | core/validators.py:272-313 | `KnowledgeValidator.validate` is valid exactly when the error list is empty, exactly when all four checks passed; `cleaned` holds each field exactly when its check passed, and no other key |
| Validators.ValidateKnowledge | core/validators.py:276-313 | `KnowledgeValidator.validate` checks question and answer as required texts, then keywords and category, in this order (its properties are `CollectKnowledgeFacts`) |
| Validators.CollectProductFacts | core/validators.py:211-269 | `ProductValidator.validate` passes `specifications` through unchanged, is valid exactly when all six checks passed, and holds stock and price exactly when they passed |
| Validators.ValidateProduct | core/validators.py:215-269 | `ProductValidator.validate` checks name, price, stock, category, description and keywords in this order, with stock defaulting to 0, the price check given as its result and the specifications passed through (its properties are `CollectProductFacts`) |
| Permissions.PermissionValue | core/permissions.py:17-48 | each permission's string value reads back as that permission, so the values are distinct |
| Permissions.RoleOf | core/permissions.py:51-54 | `Role(s)` is ADMIN exactly for "admin" and CUSTOMER_SERVICE exactly for "cs" |
| Permissions.RolePermissions | core/permissions.py:58-73 | CUSTOMER_SERVICE holds exactly 7 permissions, without user management or knowledge editing |
| Permissions.AdminHoldsAll | core/permissions.py:58-73 | ADMIN holds every permission |
| Permissions.AddAllUnion | core/permissions.py:244-248 | the loop over custom permissions adds exactly the valid ones |
| Permissions.DiscardAllMinus | core/permissions.py:250-254 | the loop over denied permissions removes exactly the valid ones |
| Permissions.GrantedAlgebra | core/permissions.py:231-258 | a user's permissions are (role set ∪ valid custom) − valid denied, so a denial wins over a custom grant, and an unknown role contributes nothing |
| Permissions.Pages | core/permissions.py:343-370 | an admin sees the 8 pages; any other role sees human service and product |
| Permissions.Changed | core/permissions.py:205-216 | every passed field takes the passed value and every field not passed keeps its value, for all ten fields |
| Permissions.ChangedNothing | core/permissions.py:211-213 | passing no field changes nothing |
| Permissions.ChangedTwice | core/permissions.py:211-213 | passing the same fields twice is the same as passing them once |
| Permissions.User.constructor | core/permissions.py:77-89 | a user record holds the given fields |
| Permissions.PermissionManager.constructor | core/permissions.py:103-111 | a new manager has no users and no current user |
| Permissions.PermissionManager.UserPermissions | core/permissions.py:231-258 | an unknown or absent user has no permissions; otherwise the set is (role set ∪ valid custom) − valid denied |
| Permissions.PermissionManager.HasPermission | core/permissions.py:260-263 | a permission is held exactly when the user exists, the role or a custom entry grants it, and no denial names it |
| Permissions.PermissionManager.IsAdmin | core/permissions.py:336-341 | `is_admin` is true exactly for an existing user whose role is "admin" |
| Permissions.PermissionManager.VisiblePages | core/permissions.py:343-370 | no user sees []; a user sees the pages of the role |
| Permissions.PermissionManager.SetCurrentUser | core/permissions.py:163-168 | the current user is set exactly when the name is known, and unchanged otherwise |
| Permissions.PermissionManager.ClearCurrentUser | core/permissions.py:174-176 | there is no current user afterwards |
| Permissions.PermissionManager.CreateUser | core/permissions.py:186-203 | `create_user` returns False and changes nothing for an existing name; otherwise adds exactly one fresh active user with no custom or denied permissions, the display name defaulting to the username |
| Permissions.PermissionManager.UpdateUser | core/permissions.py:205-216 | `update_user` returns False for an unknown user; otherwise it sets exactly the passed fields |
| Permissions.PermissionManager.SetUserRole | core/permissions.py:227-229 | only the role of an existing user changes |
| Permissions.PermissionManager.DeleteUser | core/permissions.py:218-225 | `delete_user` returns whether the user existed and removes exactly that key |
| Permissions.PermissionManager.AddCustomPermission | core/permissions.py:275-284 | the permission's value is appended to the custom list only when absent; False only for an unknown user |
| Permissions.PermissionManager.RemoveCustomPermission | core/permissions.py:286-295 | the value is removed from the custom list when present; False only for an unknown user |
| Permissions.PermissionManager.DenyPermission | core/permissions.py:297-306 | the value is appended to the denied list only when absent; False only for an unknown user |
| Permissions.PermissionManager.AllowPermission | core/permissions.py:308-317 | the value is removed from the denied list when present; False only for an unknown user |
| Permissions.Discarded | core/permissions.py:286-317 | removing when present leaves a list without the value unchanged, and takes the value out of a repeat-free list |
| Permissions.AddIdempotent | core/permissions.py:280-306 | adding a custom or denied permission twice is adding it once, and never creates a duplicate |
| Permissions.DenyThenAllow | core/permissions.py:231-317 | a denied permission is never granted, and allowing it again restores the permissions held before the denial |
| Search.MatchTextFacts | core/search.py:69-117 | empty text or query never matches; EXACT, PREFIX and SUFFIX compare case-insensitively and score 1.0, 0.9 and 0.8; CONTAINS matches exactly on a case-insensitive substring and then scores between 0.5 and 1.0 |
| Search.ApplyFilterFacts | core/search.py:119-143 | the ordering operators reject a missing value, an unknown operator lets every item through, and so does `contains` on a value that is neither a string nor a list; `eq` is equality with the field's value |
| Search.ApplyFilter | core/search.py:119-143 | `_apply_filter` operator by operator; an ordering between values Python cannot order raises (None) |
| Search.Less | core/search.py:127-134 | Python's `<`: numbers by value, strings and same-kind lists or tuples lexicographically; any other pairing raises |
| Search.LessAsymmetric | core/search.py:127-134 | wherever `a < b` holds, `b < a` is defined and false |
| Search.ListGreaterThanPrefix | core/search.py:127-128 | a `gt` filter with list value `["a"]` keeps an item whose list is `["a", "b"]` |
| Search.PassesAllEach | core/search.py:188-190 | an item is kept exactly when every filter accepts it |
| Search.TextElems | core/search.py:210-212 | the texts offered by a list or tuple are exactly its string elements |
| Search.ScanTextsFacts | core/search.py:210-223 | the best score is at least every matching text's score, a raised score comes from a real match and records the field, and the matched fields stay distinct |
| Search.ScanFieldsFacts | core/search.py:202-223 | over all searched fields, the best score bounds every matching text's score and the matched fields stay distinct searched fields |
| Search.Ordered | core/search.py:231-235 | the sort is a permutation of the collected results |
| Search.CollectedFacts | core/search.py:187-229 | each result is an item that passed every filter; with a query it has a non-empty, repeat-free list of matched fields and a score of at least `min_score`; without one it scores 1.0 with no matched fields |
| Search.QueryKeepsMatching | core/search.py:196-229 | a non-empty query returns exactly the items that pass every filter, had some field raise their score and reach the minimum, in order, each with its best score and matched fields |
| Search.MatchQualifies | core/search.py:202-227 | an item passing the filters with a searched text that matches at a positive score of at least the minimum is returned |
| Search.EmptyQueryKeepsFiltered | core/search.py:196-199 | an empty query returns exactly the items that pass the filters, in order, each scoring 1.0 |
| Search.OrderedByScore | core/search.py:234-235 | without a sort key the results come in descending score order |
| Search.NoneStays | core/search.py:187-190 | a filter that raises on one item makes the whole search raise |
| Search.AdvancedSearch.constructor | core/search.py:49-59 | a new search holds its items and fields, with no filters and no sort key |
| Search.AdvancedSearch.AddFilter | core/search.py:145-157 | `filter` appends exactly one filter |
| Search.AdvancedSearch.SetSort | core/search.py:159-171 | `sort` sets the key and the direction |
| Search.AdvancedSearch.ClearFilters | core/search.py:249-252 | `clear_filters` empties the filters and keeps the sort |
| Search.AdvancedSearch.Reset | core/search.py:254-259 | `reset` clears the filters, the sort key and the direction |
| Search.AdvancedSearch.Run | core/search.py:173-238 | `search` returns the filtered, matched and sorted results of the specification above |
| Search.SearchSpec | core/search.py:173-238 | `search`: the item loop (raising when a filter raises), then the stable sort |
| Conversations.MessageRoundTrip | core/conversation.py:27-47 | `Message.from_dict(m.to_dict())` gives back every message that has a timestamp, including a missing confidence or trace |
| Conversations.MessagesToDicts | core/conversation.py:104 | the messages are serialised one by one, in order |
| Conversations.MessagesRoundTrip | core/conversation.py:100-122 | a list of timestamped messages survives serialisation and parsing unchanged |
| Conversations.ParsedCons | core/conversation.py:116 | parsing a list extends the parse of its tail by its parsed head |
| Conversations.ConversationRoundTrip | core/conversation.py:100-122 | `Conversation.from_dict(c.to_dict())` gives back the id, title, messages, timestamps, status and agent of every conversation with an id whose messages carry timestamps |
| Conversations.ReadBack | core/conversation.py:111-122 | a dictionary holding each field of a conversation parses to that conversation |
| Conversations.TitleFor | core/conversation.py:74-75 | the title is the content when it has at most 20 characters, else its first 20 characters followed by "..." |
| Conversations.TitleKept | core/conversation.py:74-75 | a conversation whose title is no longer "新对话" keeps its title whatever is added |
| Conversations.TitleFromFirstUser | core/conversation.py:68-76 | after any run of `add_message` calls, a new conversation's title comes from the first user message, or stays "新对话" when there is none |
| Conversations.Conversation.constructor | core/conversation.py:59-66 | a new conversation is empty, titled "新对话", in the normal status, with no agent, created and updated now |
| Conversations.Conversation.Load | core/conversation.py:111-122 | a loaded conversation holds exactly the parsed fields |
| Conversations.Conversation.AddMessage | core/conversation.py:68-76 | the message is appended at the end with the time now; the update time becomes now and the title is set from the first user message |
| Conversations.Conversation.TransferToHuman | core/conversation.py:78-81 | the status becomes pending_human and nothing but the update time also changes |
| Conversations.Conversation.AcceptByHuman | core/conversation.py:83-87 | the status becomes human_handling with the given agent |
| Conversations.Conversation.CloseHumanService | core/conversation.py:89-92 | the status becomes human_closed |
| Conversations.Conversation.BackToAi | core/conversation.py:94-98 | the status returns to normal and the agent is cleared |
| Conversations.PageFacts | core/conversation.py:259-276 | for a page size of at least 1, the page count is the ceiling of count over size, page `p` is the slice `[(p-1)*size, p*size)`, and a page is non-empty exactly when `p` is at most the count |
| Conversations.PagesPrefix | core/conversation.py:270-276 | the first `k` pages together are the first `k*size` conversations |
| Conversations.PagesCover | core/conversation.py:270-276 | the pages 1 to the page count together list every conversation exactly once, in order |
| Conversations.ConversationManager.constructor | core/conversation.py:139-144 | a new manager holds no conversations and no current one |
| Conversations.ConversationManager.Keyed | core/conversation.py:253-257 | each listed id is paired with its conversation and its update time |
| Conversations.ConversationManager.AllConversations | core/conversation.py:251-257 | `get_all_conversations` lists every conversation once |
| Conversations.ConversationManager.AllConversationsSorted | core/conversation.py:251-257 | the list is in descending order of update time |
| Conversations.ConversationManager.AllConversationsComplete | core/conversation.py:251-257 | the list holds exactly the stored conversations |
| Conversations.ConversationManager.Get | core/conversation.py:217-219 | `get_conversation` returns the stored conversation, or None for an unknown id |
| Conversations.ConversationManager.CreateConversation | core/conversation.py:209-215 | a fresh, empty conversation is stored under its id and becomes the current one |
| Conversations.ConversationManager.DeleteConversation | core/conversation.py:221-234 | `delete_conversation` returns whether the id was stored, removes exactly that id, takes the first occurrence of it out of the order list and keeps the rest of the list in order, and clears the current conversation when it was the deleted one |
| Conversations.ConversationManager.SetCurrentConversation | core/conversation.py:282-287 | a known id becomes the current conversation; an unknown one leaves it unchanged and returns None |
| Conversations.ConversationManager.AddMessage | core/conversation.py:289-299 | with no current conversation nothing changes and None is returned; otherwise the stored conversation under the current id replaces a stale current one and the message is added to it |
| Auth.WeakIgnoresSpaces | ui/login_dialog.py:124-125 | only the stripped password is judged, so surrounding whitespace never turns a weak password into an acceptable one |
| Auth.StrongPassword | ui/login_dialog.py:124-143 | an accepted password has at least 8 characters after stripping, differs from the username ignoring case, is not in the weak list, and is not all digits unless longer than 10 |
| Auth.DefaultAdminIsWeak | ui/login_dialog.py:214-216 | the default administrator's password "admin123" is weak, so logging in with it always requires a change |
| Auth.Recent | ui/login_dialog.py:157 | the attempts kept are exactly those at most 300 seconds old |
| Auth.RecentAppend | ui/login_dialog.py:157 | the 300-second filter distributes over concatenation |
| Auth.RecentOfRecent | ui/login_dialog.py:157 | the filter keeps a list whose attempts are all recent |
| Auth.AttemptsKept | ui/login_dialog.py:154-161 | failures spread over at most 300 seconds are all still on the attempt list after the last of them |
| Auth.FiveFailuresLock | ui/login_dialog.py:154-161 | five failures within 300 seconds leave at least five attempts on the list, the lock threshold |
| Auth.RegisterOrder | ui/login_dialog.py:221-264 | `register` accepts exactly a complete form with a username of at least 3 characters, a strong password, a matching confirmation, and a username neither registered nor pending; a weak password is reported before a mismatch |
| Auth.ChangeOrder | ui/login_dialog.py:266-297 | `change_password` succeeds exactly for a known user with a current-format record whose old password verifies, with a matching, non-empty and strong new password |
| Auth.AuthManager.constructor | ui/login_dialog.py:40-65 | with no users file the only account is the default administrator, who must change the password; no failures or locks are recorded |
| Auth.AuthManager.IsLocked | ui/login_dialog.py:145-152 | a user is locked exactly while now is before the lock time, and then the whole seconds left are reported; an expired lock is removed |
| Auth.AuthManager.MarkFailed | ui/login_dialog.py:154-161 | the failure is appended to the attempts of the last 300 seconds, and a fifth recent attempt locks the user for 300 seconds |
| Auth.AuthManager.ClearFailed | ui/login_dialog.py:163-165 | the user's attempts and lock are removed |
| Auth.AuthManager.Login | ui/login_dialog.py:181-219 | each outcome happens exactly in its case, in the source's order: missing credentials, a lock, an unknown user, a missing or non-dictionary record, a password the record rejects, success; the first two record no failure, a lock reports the whole seconds left on it, the next three record one (and lock at the fifth recent failure), and success clears the user's failures and lock |
| Auth.AuthManager.Register | ui/login_dialog.py:221-264 | an accepted application is filed under the username with the role and the apply time; a refused one changes nothing |
| Auth.AuthManager.ChangePassword | ui/login_dialog.py:266-297 | a successful change stores the new record and clears the must-change flag; a refused one changes nothing |
| Workbench.Queries | ui/workbench_interface.py:561-563 | the queries of the entries, one per entry, in order |
| Workbench.QueriesAppend | ui/workbench_interface.py:561-563 | the queries of joined entry lists are the joined queries |
| Workbench.PairedQueries | ui/workbench_interface.py:542-561 | pairing yields exactly one entry per user message, in order, whatever else the messages hold; every attached trace is truthy, and the query still waiting has none |
| Workbench.PairedTraces | ui/workbench_interface.py:544-561 | the i-th entry holds the content of the i-th user message and the first truthy `rag_trace` of an assistant message after it and before the next user message, or none |
| Workbench.ScanSnoc | ui/workbench_interface.py:546-558 | one more message only affects a trace search that had run off the end of the conversation |
| Workbench.PairStep | ui/workbench_interface.py:546-558 | one message of the pairing loop (its properties are `PairedQueries` and `PairedTraces`) |
| Workbench.Paired | ui/workbench_interface.py:544-558 | the pairing loop over the messages (its properties are `PairedQueries` and `PairedTraces`) |
| Workbench.Asked | ui/workbench_interface.py:563 | the filter keeps at most the entries it is given |
| Workbench.AskedKeeps | ui/workbench_interface.py:563 | when the filter does not raise, an entry is kept exactly when it is given and its query is a non-blank string, and any two kept entries stand in the order of two given ones (repeats are fixed by `AskedAppend` with `AskedOne`) |
| Workbench.AskedOne | ui/workbench_interface.py:563 | one entry: kept when its query is a non-blank string, skipped when it is blank or falsy (`or ""`), and the filter raises when it is truthy but not a string |
| Workbench.AskedAppend | ui/workbench_interface.py:563 | the filter of two runs is the first run's kept entries followed by the second's, and raises when either does; with `AskedOne` this fixes the result, repeats included |
| Workbench.AskedNone | ui/workbench_interface.py:563 | the filter raises exactly when some query is truthy but not a string |
| Workbench.LoadTrace | ui/workbench_interface.py:530-563 | `load_trace` pairs the user messages with the traces of the answers that follow them and keeps those with a non-blank query |
| Workbench.SessionStatus | ui/workbench_interface.py:216-222 | waiting for or served by an agent shows "转人工", closed shows "已解决", any other status the label stored for the session |
| Workbench.SessionOf | ui/workbench_interface.py:202-230 | a conversation without messages has no session entry; otherwise the entry carries its id, update time, status label and the mean answer confidence |
| Workbench.ConfidencesFromAnswers | ui/workbench_interface.py:206-209 | every confidence averaged comes from an assistant message that carries it |
| Workbench.SessionConfidenceBounded | ui/workbench_interface.py:206-214 | when every message's confidence lies in [0, 1], so does the session's, the 0.5 default included |
| Workbench.Shown | ui/workbench_interface.py:270-282 | the list shows exactly the sessions whose status equals the filter, or every session under "全部" |
| Workbench.ShownAppend | ui/workbench_interface.py:276-277 | the filter keeps the sessions' order |
| Performance.Appended | core/performance.py:36-61 | a full bounded deque drops its oldest record; the result is the newest `max_records` of the old records plus the new one |
| Performance.Window | core/performance.py:84-87 | a positive `last_n` selects the newest `last_n` records; None or 0 selects every record |
| Performance.Durations | core/performance.py:102 | the durations of the records, in order |
| Performance.Successes | core/performance.py:103 | the number of successful records is at most the number of records |
| Performance.PercentilesOrdered | core/performance.py:105-117 | on sorted durations, first <= p50 <= p95 <= p99 <= last |
| Performance.StatsOrdered | core/performance.py:77-120 | `get_stats` reports zeros and no totals for no records; otherwise a success rate in [0, 1], min <= p50 <= p95 <= p99 <= max, and an average between min and max |
| Performance.StatsOf | core/performance.py:77-120 | `get_stats` on the selected records (its properties are `StatsOrdered`) |
| Performance.MetricCollector.GetStats | core/performance.py:77-87 | `get_stats(last_n)` is `StatsOf` on the window `last_n` selects |
| Performance.MetricCollector.constructor | core/performance.py:36-44 | a new collector is empty with zero counters |
| Performance.MetricCollector.Record | core/performance.py:47-61 | the record is appended to the bounded deque, the call count grows by one, the success count by one exactly on success, and the total duration by the duration |
| Performance.MetricCollector.Clear | core/performance.py:122-128 | the records and all counters are reset |
| Performance.PerformanceMonitor.constructor | core/performance.py:139-155 | the monitor starts with exactly the six named, empty collectors |
| Performance.PerformanceMonitor.GetCollector | core/performance.py:160-164 | the same collector is returned for a known name; an unknown name gets a new, empty collector that is then kept |
| Performance.PerformanceMonitor.Record | core/performance.py:173-176 | the record goes to the named collector, created empty on first use: it is appended to that collector's bounded deque, the call count grows by one, the success count by one exactly on success, the total duration by the duration; every other collector is the same object, unchanged |
| RealSeq.AverageBounds | core/performance.py:112 | the average lies between any lower and upper bound of the values |
| RealSeq.MinOf | core/performance.py:113 | `min` is one of the values and at most each of them |
| RealSeq.MaxOf | core/performance.py:114 | `max` is one of the values and at least each of them |
| RealSeq.SortAsc | core/performance.py:105 | `sorted` is an ascending permutation of the values |
| RealSeq.SortedEnds | core/performance.py:105-114 | the ends of the sorted list are the minimum and the maximum |
| RateLimit.Trunc | core/rate_limiter.py:149-159 | Python's `int` on a float truncates toward zero: for a non-negative float the result is the whole number at or below it, less than one below; for a negative float the whole number at or above it, less than one above |
| RateLimit.Refilled | core/rate_limiter.py:31-36 | a refill never exceeds the capacity and never lowers a balance that is within it |
| RateLimit.RefilledMonotone | core/rate_limiter.py:31-36 | more elapsed time never yields fewer tokens, and a full bucket stays full |
| RateLimit.GrantedTwice | core/rate_limiter.py:31-63 | two grants in a row need at least as many tokens after the first refill as the two requests together |
| RateLimit.EmbeddingTokens | core/rate_limiter.py:133-146 | an embedding request costs at least one token |
| RateLimit.EmbeddingTokensCeil | core/rate_limiter.py:133-146 | a batch costs the ceiling of its size over 32 tokens, and one token up to 32 texts |
| RateLimit.ConfiguredCapacity | core/rate_limiter.py:149-159 | the configured capacity is at least the floor (5 for chat, 10 for embeddings) and otherwise `int(rate * 3)` |
| RateLimit.TokenBucket.constructor | core/rate_limiter.py:24-29 | the rate is at least 0.1, the capacity at least 1, and the bucket starts with the requested capacity as its balance |
| RateLimit.TokenBucket.Refill | core/rate_limiter.py:31-36 | the balance grows by rate times elapsed time up to the capacity, and the clock moves to now |
| RateLimit.TokenBucket.TryAcquire | core/rate_limiter.py:38-80 | a non-positive request is granted untouched; otherwise after a refill the request is granted exactly when the balance covers it, and then exactly that many tokens are taken |
| RateLimit.TokenBucket.AvailableTokens | core/rate_limiter.py:82-87 | the balance after a refill, never above the capacity |
| RateLimit.RateLimiter.constructor | core/rate_limiter.py:111-127 | chat 2/s with 5 tokens, embeddings 3/s with 10, general 5/s with 15, each bucket full |
| RateLimit.RateLimiter.TryAcquireEmbedding | core/rate_limiter.py:144-147 | the embedding bucket grants the batch's token cost exactly when its refilled balance covers it |
| RateLimit.RateLimiter.TryAcquireChat | core/rate_limiter.py:140-142 | the chat bucket grants one token exactly when its refilled balance holds one |
| RateLimit.RateLimiter.Configure | core/rate_limiter.py:149-159 | a given rate replaces that bucket with a full new one of the clamped rate and the configured capacity; an absent rate keeps the bucket; the general bucket never changes |
| UiUtils.UpdatedFacts | core/ui_utils.py:51-94 | a stage change or a completed count always fires; otherwise the callback fires exactly when the interval has passed and the progress moved by at least the minimum change; a fired update remembers what it sent and clears the pending update, a suppressed one keeps the last send and holds the update as pending |
| UiUtils.RepeatSuppressed | core/ui_utils.py:79-83 | the same unfinished update repeated within the interval is suppressed |
| UiUtils.SameProgressSuppressed | core/ui_utils.py:81-83 | an unfinished update that repeats the progress just sent is suppressed at any later time when the minimum change is positive |
| UiUtils.Flushed | core/ui_utils.py:96-100 | `finish` sends something exactly when an update is pending |
| UiUtils.LastUpdateDelivered | core/ui_utils.py:51-100 | an update is either sent at once or sent by the following `finish`, so the last update is never lost |
| UiUtils.ProgressThrottler.constructor | core/ui_utils.py:34-49 | a new throttler has sent nothing, remembers no stage, a progress of -1 and no pending update |
| UiUtils.ProgressThrottler.Update | core/ui_utils.py:51-94 | without a callback nothing changes and nothing fires; with one the state and the decision follow the throttling rule above and a fired update is delivered |
| UiUtils.ProgressThrottler.Finish | core/ui_utils.py:96-100 | with a callback the pending update is delivered and cleared |
| UiUtils.ProgressThrottler.Reset | core/ui_utils.py:102-107 | the throttling state returns to its initial values |
| UiUtils.ProgressThrottler.ThrottledCallback | core/ui_utils.py:319-340 | the throttled callback updates, and a completed count is always delivered and leaves nothing pending |
| UiUtils.BatchUpdater.constructor | core/ui_utils.py:121-137 | a new updater has nothing pending and has run nothing |
| UiUtils.BatchUpdater.RequestUpdate | core/ui_utils.py:139-144 | an update becomes pending |
| UiUtils.BatchUpdater.DoUpdate | core/ui_utils.py:146-160 | any number of requests merge into one run of the update function, which happens only when one is pending; afterwards nothing is pending |
| UiUtils.BatchUpdater.Cancel | core/ui_utils.py:162-166 | the pending update is dropped without running |
| ConfigWatch.Distinct | core/config_watcher.py:37 | the union of the key lists holds each key once |
| ConfigWatch.DistinctMembers | core/config_watcher.py:37 | removing repeats keeps exactly the same keys |
| ConfigWatch.ChangedAmong | core/config_watcher.py:38-43 | the changed keys come from the keys examined, without repeats |
| ConfigWatch.ChangedAmongMembers | core/config_watcher.py:38-43 | a key is reported exactly when it is examined and its two `.get` values differ |
| ConfigWatch.ChangedKeys | core/config_watcher.py:34-44 | `changed_keys` holds each key once |
| ConfigWatch.KeysListed | core/config_watcher.py:37 | a reading's listed keys are exactly its keys |
| ConfigWatch.ChangedKeysMeaning | core/config_watcher.py:34-44 | a key is changed exactly when one of the readings has it and its old and new values differ |
| ConfigWatch.IsChanged | core/config_watcher.py:54-56 | `is_changed` is membership in the changed keys, both directions |
| ConfigWatch.UnchangedFile | core/config_watcher.py:34-44 | re-reading identical contents changes no key |
| ConfigWatch.ChangedKeysSymmetric | core/config_watcher.py:34-44 | swapping the old and the new reading changes the same keys |
| ConfigWatch.NullMatchesMissing | core/config_watcher.py:40-42 | a key set to null and a missing key read the same, and `True == 1` in Python, so neither counts as a change |
| JsonValue.PyEqReflexive | core/config_watcher.py:42 | every value equals itself under Python's `==` |
| JsonValue.PyEqSymmetric | core/config_watcher.py:42 | Python's `==` on JSON values is symmetric |
| ConfigWatch.GlobalCalls | core/config_watcher.py:234-239 | each global callback is called once with the event, in registration order |
| ConfigWatch.CallsFor | core/config_watcher.py:249-255 | each callback of the key is called once with the key's old and new value, in registration order |
| ConfigWatch.KeyCallsSound | core/config_watcher.py:241-255 | every keyed call is made for a changed key, by a callback registered under it, with that key's old and new value |
| ConfigWatch.KeyCallsComplete | core/config_watcher.py:241-255 | every callback registered under a changed key is called with that key's values |
| ConfigWatch.NotifiedFacts | core/config_watcher.py:220-248 | an unchanged file calls nothing; otherwise the global callbacks come first with the event, and every keyed call, and only those, goes to a callback of a changed key with its old and new value |
| ConfigWatch.Notified | core/config_watcher.py:220-248 | the calls one change makes: none without changed keys, else the global callbacks, then the keyed ones (its properties are `NotifiedFacts`) |
| ConfigWatch.Handled | core/config_watcher.py:204-218 | `_handle_file_change` on the cached readings: an unwatched or unreadable path changes nothing, otherwise the new reading replaces the old and the change is reported |
| ConfigWatch.Processed | core/config_watcher.py:196-202 | the queued paths handled in order (its properties are `ProcessedStep` and `ProcessedReadings`) |
| ConfigWatch.ProcessedStep | core/config_watcher.py:196-202 | processing one more queued path continues from the state the earlier ones left |
| ConfigWatch.ProcessedReadings | core/config_watcher.py:196-216 | after processing, every watched path that was queued and read successfully holds its new reading, every other one keeps its old reading, and no path is added or dropped |
| ConfigWatch.ConfigWatcher.constructor | core/config_watcher.py:75-95 | a new watcher watches nothing and has no callbacks and nothing queued |
| ConfigWatch.ConfigWatcher.Watch | core/config_watcher.py:97-125 | a missing file is refused; an already watched path is accepted unchanged; otherwise the path is kept with its reading (an empty one when unreadable) exactly when the file system watch is added |
| ConfigWatch.ConfigWatcher.Unwatch | core/config_watcher.py:127-137 | `unwatch` returns whether the path was watched and removes exactly it |
| ConfigWatch.ConfigWatcher.RegisterCallback | core/config_watcher.py:165-172 | the callback is appended to the global list, or to the key's list (created when missing) |
| ConfigWatch.ConfigWatcher.UnregisterCallback | core/config_watcher.py:174-181 | the first occurrence of the callback is removed from the chosen list when it is there; otherwise nothing changes |
| ConfigWatch.ConfigWatcher.OnFileChanged | core/config_watcher.py:183-194 | the path is queued once; the file-system watcher is asked to hold it again only when it no longer does, and holds it when it accepts |
| ConfigWatch.ConfigWatcher.NotifyGlobals | core/config_watcher.py:234-239 | the global callbacks are called in order with the event |
| ConfigWatch.ConfigWatcher.NotifyKey | core/config_watcher.py:249-255 | the key's callbacks are called in order with the key's old and new value |
| ConfigWatch.ConfigWatcher.NotifyKeys | core/config_watcher.py:241-255 | the keyed callbacks are called changed key by changed key |
| ConfigWatch.ConfigWatcher.HandleFileChange | core/config_watcher.py:204-255 | an unwatched path or an unreadable file changes nothing; otherwise the cached reading is replaced and the callbacks are called as stated by the dispatch |
| ConfigWatch.ConfigWatcher.Dispatch | core/config_watcher.py:220-255 | a change with changed keys calls the global callbacks, then the keyed ones |
| ConfigWatch.ConfigWatcher.ProcessPendingChanges | core/config_watcher.py:196-202 | the queue is emptied and each queued path is handled in order |
| Embedding.ModelName | core/embedding.py:39-72 | the model name is always one of the two served models, and the default one for a missing or unknown setting |
| Embedding.EmbedTexts | core/embedding.py:89-148 | `embed_texts` returns [] for no texts, None without an API key, the single answer for at most 32 texts, and otherwise the batched result of the specification |
| Embedding.EmbedSpec | core/embedding.py:89-148 | `embed_texts` as a value: [] for no texts, nothing without a key, one call for at most 32 texts, else the batches in order (its properties are `EmbedAligned`, `AllBatchesFailed` and `NothingSucceeded`) |
| Embedding.PlaceBatch | core/embedding.py:138-139 | the vectors of a batch land at their texts' positions, and the placing stops exactly when a vector falls past the end of the list |
| Embedding.EmbedText | core/embedding.py:74-87 | `embed_text` gives None without an API key, and otherwise the first vector of the answer for the one-text list, or None when that answer is missing or empty |
| Embedding.OverflowStays | core/embedding.py:135-138 | once an answer writes past the end of the result list, the call raises whatever later batches answer |
| Embedding.SlotAligned | core/embedding.py:120-140 | when every answer has its batch's length, text `j`'s slot holds vector `j mod 32` of batch `j div 32`, or None when that batch failed |
| Embedding.EmbedAligned | core/embedding.py:111-148 | with answers of the right length the batched path never raises, and a result has one slot per text holding its own batch's vector, None for failed batches |
| Embedding.NothingSucceeded | core/embedding.py:132-140 | when every batch fails nothing is counted as a success |
| Embedding.AllBatchesFailed | core/embedding.py:143-146 | when every batch fails the batched path returns None |
| Retrieval.Clamp01Monotone | core/shared_data.py:645-648 | clamping to [0, 1] keeps the order of scores |
| KnowledgeBase.StaleTermKept | core/shared_data.py:507-513 | adding postings never removes a posting, so a term the item no longer has keeps naming it |
| SharedData.KnowledgeStore.RepostItem | core/shared_data.py:1266-1271 | on a built index the old item's postings are removed and the updated item's added |
| Ranking.SortTextDesc | core/conversation.py:253-257 | the descending sort by update time is a permutation and is sorted |
| VectorIndex.VectorStore.Admit | core/vector_store.py:265-316 | the accepting part of `add_vector` becomes the admission specification's, and the store stays valid |
| VectorIndex.VectorStore.ResetIndex | core/vector_store.py:639-652 | the rebuild clears the maps, the counter, the buffer and the error, then creates the new index |
| VectorIndex.VectorStore.AddVectors | core/vector_store.py:673-686 | the adding loop of `rebuild_index` becomes the adding specification's |
| VectorIndex.RebuiltIvfEmpty | core/vector_store.py:628-652 | a rebuild as IVF without data leaves an empty, untrained IVF index with empty maps and counter 0 |
| VectorIndex.RebuiltAdded | core/vector_store.py:673-686 | adding distinct ids to a trained, empty index keeps it consistent and, on success, stores the i-th vector under internal id i |

## Left out

- Persistence and file I/O are not modelled:
  - the JSON load and save of items, products, users, pending registrations and conversations;
  - the modification-time cache of the knowledge file (a cache-hit load is the parameter of `KnowledgeBase.Loaded`);
  - `_load_index`/`_save_index` of the vector store;
  - the session-status file (`_load_session_status` is the parameter `stored`);
  - file locks.
- Threads, locks and singletons are not modelled: the calls are sequential, and each singleton is an object passed in.
- Qt timers, signals and widgets are not modelled:
  - the debounce timer of the configuration watcher (`_on_file_changed` only queues the path);
  - the `BatchUpdater` timer (`flush` is `DoUpdate`);
  - `DeferredUpdater`, `FontPointSizeNormalizer` and the throttle and debounce decorators;
  - `force_reload`, `get_watched_files` and the variant of the configuration watcher without Qt.
- `TokenBucket.acquire` with a timeout waits in a sleep loop; only the non-waiting path (`timeout=None`, used by `try_acquire`) is modelled, as are the `try_acquire_*` calls. `acquire_chat`, `acquire_embedding` and `acquire_general` wait and are left out; the token cost of `acquire_embedding` is `RateLimit.EmbeddingTokens`.
- `MetricCollector.measure`, `PerformanceMonitor.measure` and `get_all_stats` are left out: they need a clock around a code block, or only map `get_stats` over the collectors. The total duration is kept but never read.
- The FAISS numerics are oracles:
  - index construction beyond its type and cluster count;
  - `normalize_L2`;
  - the training itself;
  - native search (its hits are a parameter);
  - the numpy fallback path.
- Network clients are not modelled: `_embed_batch_with_retry` (retries, backoff and dimension tracking) is the oracle `embed`, and `is_available` is a parameter.
- PBKDF2 hashing is abstract: a password record is an opaque value and verification is the oracle `Verifier`.
- Character classes are ASCII: `lower`, `isdigit` and `\d` act on ASCII only, and there is no Unicode case folding.
- The FUZZY and REGEX search modes come from `difflib` and `re` and are an oracle. `validate_price` rounds floats, so its result is a parameter of the product validator.
- `ProductStore`, prompt assembly (`build_system_prompt`/`build_messages`), the vector-search orchestration of the knowledge store (`_vector_search*`, `search`, `rebuild_vector_index`, `_average_vectors`) and `get_conversation_count` are outside the modelled core.
- Conversations.ConversationManager: its `_conversation_ids` bookkeeping is filled only when loading from disk and is not modelled. `from_dict` on a value of a type the class does not hold gives `None`.
- KnowledgeText.ChunkText: requires `chunk_size - chunk_overlap > 0` for a text longer than `chunk_size` (`ChunkingEnds`). Otherwise the source's loop never ends; see "## Findings". The knowledge store asks this only of the item it embeds, not of its settings as a whole.
- Ranking.SortDesc: the order of tied scores is not stated. Python's sort is stable, so tied items keep their input order. The same holds of Ranking.SortTextDesc for tied update times.
- SharedData.KnowledgeStore.AddItem: the performance records of the knowledge store (`perf.record("knowledge_add", ...)`) are not modelled.
- ConfigWatch.ChangedKeys: Python iterates the set of changed keys in hash order. The model lists the keys of the old reading first, then the keys only the new reading has, so the order of keyed callbacks across keys is this order. For duplicate JSON keys the first occurrence is used, and configurations are assumed to be JSON objects.
- UiUtils.ProgressThrottler.Update, UiUtils.ProgressThrottler.Finish: a callback that raises is not modelled. The source does not catch it there, so the exception reaches the caller before the throttler records the send; the model's callbacks always return. The batch updater catches and logs such an exception and goes on, which the model matches by recording the run.
- ConfigWatch.ConfigWatcher.HandleFileChange: callbacks are recorded, not run, so a callback that re-enters the watcher is not modelled.
- Search.Ordered: with a sort key, only the permutation is stated, not the order by the key. The order by descending score is stated (`Search.OrderedByScore`).
- Performance.Window: for a negative `last_n` only the slice expression is modelled; no property of it is stated.
- KnowledgeBase.Apply: `update_item` also accepts `id` as a field to set; the model keeps the id fixed, so renaming an item through `update_item` is not modelled.
- Embedding.EmbedAligned: assumes every batch answer has its batch's length. A longer answer overwrites slots of the next batch, or raises at the end of the list. `Embedding.EmbedTexts` models both, but for the overwriting case no lemma states the slot contents.

## Findings

| source | as written | input that shows it | evidently intended | confidence | as-written member | corrected member |
|---|---|---|---|---|---|---|
| core/vector_store.py:436-441 | `search` returns [] when the native index is empty before it checks for an untrained IVF index, and an untrained IVF index never holds native vectors, so the pending-buffer search is dead code | an untrained IVF index whose buffer holds vectors, and any query of the right length | search the pending buffer of an untrained IVF index before the empty-index guard | not executed | VectorIndex.PendingPathUnreachable | VectorIndex.PendingPathReached |
| core/vector_store.py:470-475 | a FAISS label of an IVF or HNSW index is a position in the index, but it is looked up in the id map as an internal id | rebuild as IVF without data; add "a", "b", "c"; remove "a"; train on a given list of at least 256 vectors; a native hit at position 1 is reported as "b" although it is the vector of "c" | map a position to the internal id stored there | not executed | VectorIndex.MisattributedAfterTraining | VectorIndex.ResolveAlignedAgrees |
| core/shared_data.py:1238-1245 | after a cache-hit load the index is unbuilt; `delete_item` calls `_update_inverted_index` before removing the item, and on an unbuilt index that call builds the index from the list still holding the item and returns, so the item's postings are never removed | a cache hit holding one item with keyword k; delete that item | the deleted item appears in no posting | not executed | KnowledgeBase.DeleteUnbuiltLeavesStale | KnowledgeBase.DeletedCoherent |
| core/shared_data.py:1258-1271 | on an unbuilt index the first `_update_inverted_index` call of `update_item` builds the index from the old item and returns, then the second adds the new terms, so removed terms keep the item | a cache hit holding one item with keyword k; update it with keywords without k | the item is listed exactly under its new terms | not executed | KnowledgeBase.UpdateUnbuiltLeavesStale | KnowledgeBase.UpdatedCoherent |
| core/shared_data.py:524-529 | `_chunk_text` advances `start` by `chunk_size - chunk_overlap` and trusts the configuration to keep that positive; the settings page allows a chunk size from 100 and an overlap up to 500 (ui/knowledge_interface.py:544, 553) | `chunk_size` 100 and `chunk_overlap` 100, and a text of 101 characters: `start` stays at 0 and the loop never ends | an overlap below the chunk size, so that each round moves forward and the loop ends | not executed | KnowledgeText.LoopNeverEnds | KnowledgeText.ChunkLoopEnds |
