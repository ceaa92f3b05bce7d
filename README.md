# Memory stores of orchestrai, modelled in Dafny

This project models the four conversation-memory stores of orchestrai and
proves what their operations promise. Every store offers `add(key, value,
metadata)`, `query(query, top_k)` and `summarize()`.

- **RollingBufferStore** keeps the last `max_size` turns in a bounded deque.
  Appending to a full deque drops the oldest entry.
- **SummarizingMemoryStore** wraps a rolling buffer. After each `add` it reads
  back `threshold + 1` entries. When more than `threshold` come back, it
  summarizes the first `chunk_size` of them with a chat-completion call, pops
  `chunk_size` entries off the front of the inner deque and appends the
  summary as a `"system"` entry.
- **VectorMemoryStore** embeds each value and appends the vector to a flat
  nearest-neighbour index. It also appends `(key, metadata or {"content":
  value})` to a side list. A query keeps only the side-list entries whose
  search positions are in range.
- **CompositeMemoryStore** sends every `add` to a recency store and then to a
  semantic store. A query returns the semantic hits followed by the recent
  turns, keeping the first entry seen for each key.

Each store is a Dafny `class` whose methods update its fields in place. Each
method is proved against a specification function: `RollingBuffer.Push`,
`Summarizing.AddSpec` / `Summarizing.Compact`, `VectorMemory.AddOutcome` /
`VectorMemoryStore.QueryResult`, and `Composite.MergeResult` / `Composite.Dedup`.
Lemmas state the properties of those functions.

External services are parameters of the stores:

- The summarizer is `string -> Option<string>`. `None` means the call raised.
- The embedder is `string -> Option<seq<real>>`.
- The index search is `(query vector, indexed vectors, top_k) -> seq<int>`.

Python slicing with negative or oversized bounds is modelled exactly
(`MemoryCore.SliceFrom`, `MemoryCore.SliceTo`). So is `metadata or default`
(`MemoryCore.OrDefault`): `None` and `{}` both select the default.

Files: `memory_core.dfy` (shared types, slicing), `rolling_buffer.dfy`,
`summarizing_memory.dfy`, `vector_memory.dfy`, `composite_memory.dfy`.

## Model

| member | source | states |
|---|---|---|
| MemoryCore.SliceFrom | src/orchestrai/memory/stores/rolling_buffer.py:28-29 | `items[-top_k:]` semantics: a non-negative bound drops that many leading items; a negative bound keeps the last min(-bound, len) items |
| MemoryCore.SliceTo | src/orchestrai/memory/stores/summarizing_memory.py:35 | `entries[:chunk_size]`: a non-negative bound keeps the first min(bound, len) items; a negative bound drops that many trailing items |
| MemoryCore.OrDefault | src/orchestrai/memory/stores/rolling_buffer.py:21 | `metadata or default`: `None` gives the default, a non-empty dictionary is kept, an empty one gives the default |
| RollingBuffer.Push | src/orchestrai/memory/stores/rolling_buffer.py:16-21 | the deque append with `maxlen`: the result is the newest min(len+1, cap) entries of `old + [e]`; below capacity it is `old + [e]`; when full it is `old[1:] + [e]`, dropping exactly the oldest |
| RollingBuffer.Fill | src/orchestrai/memory/stores/rolling_buffer.py:13-21 | a run of adds never leaves more than `max_size` entries |
| RollingBuffer.FillKeepsNewest | src/orchestrai/memory/stores/rolling_buffer.py:13-21 | after any run of adds the buffer is exactly the newest `max_size` entries of everything seen, in arrival order |
| RollingBuffer.LastAddsSurvive | src/orchestrai/memory/stores/rolling_buffer.py:13-21 | after M adds to an empty buffer of capacity N it holds exactly the last min(M, N) added entries, in insertion order |
| RollingBuffer.RollingBufferStore.constructor | src/orchestrai/memory/stores/rolling_buffer.py:13-14 | a new store is empty with capacity `max_size`; a negative size (rejected by `deque`) is excluded |
| RollingBuffer.RollingBufferStore.Add | src/orchestrai/memory/stores/rolling_buffer.py:16-21 | the buffer becomes `Push(old, max_size, (key, value, metadata or {}))` and stays within `max_size` |
| RollingBuffer.RollingBufferStore.Query | src/orchestrai/memory/stores/rolling_buffer.py:23-29 | returns `items[-top_k:]`: for `top_k > 0` the last min(top_k, len) entries oldest first, for `top_k == 0` the whole buffer, for `top_k < 0` all but the first -top_k; the store is not modified |
| RollingBuffer.RollingBufferStore.PopLeft | src/orchestrai/memory/stores/summarizing_memory.py:54-56 | `popleft` removes and returns the oldest entry, and raises on an empty buffer |
| RollingBuffer.RollingBufferStore.Summarize | src/orchestrai/memory/stores/rolling_buffer.py:31-35 | changes nothing |
| Summarizing.Compact | src/orchestrai/memory/stores/summarizing_memory.py:32-59 | steps 2-5 of `add` never leave more entries than the inner capacity |
| Summarizing.AddSpec | src/orchestrai/memory/stores/summarizing_memory.py:27-59 | `add` is `inner.add(key, value, metadata)` followed by the compaction, and stays within capacity |
| Summarizing.Line | src/orchestrai/memory/stores/summarizing_memory.py:37 | one `f"{role}: {content}"` line: its length is the role's plus 2 plus the content's, it starts with the role, the two characters after the role are `": "` and the rest is the content |
| Summarizing.Transcript | src/orchestrai/memory/stores/summarizing_memory.py:36-38 | the `"\n".join` of the lines: empty exactly when there are no entries, and it starts with the oldest entry's line |
| Summarizing.Window | src/orchestrai/memory/stores/summarizing_memory.py:32 | `inner.query("", top_k=threshold + 1)` right after the add: for `threshold >= 0` the last min(threshold + 1, len) entries; for -1 the whole buffer; below -1 all but the first -(threshold + 1) |
| Summarizing.Triggers | src/orchestrai/memory/stores/summarizing_memory.py:33 | compaction fires exactly when the threshold is negative or the buffer holding the new entry is longer than the threshold |
| Summarizing.SummarizerInput | src/orchestrai/memory/stores/summarizing_memory.py:32-38 | for non-negative threshold and chunk, the text is the transcript of the first min(chunk_size, w) of the last w = min(threshold + 1, len) entries |
| Summarizing.PopCount | src/orchestrai/memory/stores/summarizing_memory.py:55 | `range(chunk_size)` runs chunk_size times, and not at all for a negative chunk_size |
| Summarizing.NoCompactionWithinThreshold | src/orchestrai/memory/stores/summarizing_memory.py:32-33 | with at most `threshold` entries in view, nothing happens after the inner add |
| Summarizing.SummarizerFailureRemovesNothing | src/orchestrai/memory/stores/summarizing_memory.py:46-56 | the summarizer runs before any pop, so when it fails the buffer keeps the new entry and loses nothing |
| Summarizing.CompactionReplacesOldest | src/orchestrai/memory/stores/summarizing_memory.py:54-59 | a triggered compaction on L >= chunk_size entries with spare capacity gives `old[chunk_size:] + [("system", summary, {})]`, of length L - chunk_size + 1, with the summary newest |
| Summarizing.ChunkBeyondBufferEmptiesIt | src/orchestrai/memory/stores/summarizing_memory.py:54-56 | when `chunk_size` exceeds the buffer, the pop loop raises after emptying the buffer and the summary is never added |
| Summarizing.SuccessfulAddStaysWithinThreshold | src/orchestrai/memory/stores/summarizing_memory.py:32-59 | with `chunk_size >= 2`, a store holding at most `threshold` entries still holds at most `threshold` after a successful add |
| Summarizing.ThresholdAtCapacityNeverCompacts | src/orchestrai/memory/stores/summarizing_memory.py:29-33 | a threshold at or above the inner capacity never fires: `add` is exactly the inner `add` |
| Summarizing.AddWithinThresholdAppends | src/orchestrai/memory/stores/summarizing_memory.py:29-33 | while the grown buffer stays within threshold and capacity, `add` only appends `(key, value, metadata or {})` |
| Summarizing.AddPastThresholdCompacts | src/orchestrai/memory/stores/summarizing_memory.py:29-59 | an add that takes the buffer past the threshold, with an answering summarizer, leaves `(old + [new])[chunk_size:]` followed by the summary |
| Summarizing.FourTurnsCompactOnce | tests/test_summarizing_memory.py:13-36 | with threshold 3, chunk_size 2 and capacity 10, the fourth add leaves exactly the third and fourth turns and the summary |
| Summarizing.FourTurnsSummarizerInput | src/orchestrai/memory/stores/summarizing_memory.py:35-38 | in that scenario the summarized text is `"role1: content1\nrole2: content2"`, the two oldest turns |
| Summarizing.TranscriptAppend | src/orchestrai/memory/stores/summarizing_memory.py:36-38 | the summarizer input joins the `"role: content"` lines with `"\n"`, oldest first |
| Summarizing.SummarizerInputOfWholeWindow | src/orchestrai/memory/stores/summarizing_memory.py:32-38 | when the read-back window is the whole buffer, the summarizer input is the transcript of the first `chunk_size` entries of the buffer |
| Summarizing.IntendedCompact | src/orchestrai/memory/stores/summarizing_memory.py:35-59 | corrected compaction that summarizes the oldest `chunk_size` entries of the whole buffer, i.e. the ones it pops; stays within capacity |
| Summarizing.IntendedSummarizesWhatItRemoves | src/orchestrai/memory/stores/summarizing_memory.py:35-59 | in the corrected compaction the removed prefix is exactly what is summarized; it succeeds iff the summarizer answers for that text |
| Summarizing.AsWrittenMatchesIntendedOnWholeWindow | src/orchestrai/memory/stores/summarizing_memory.py:32-59 | whenever the buffer holding the new entry has at most threshold + 1 entries, the code's compaction and the corrected one agree; this holds after every successful add with `chunk_size >= 2` that starts from at most `threshold` entries, but not after a failed add (nor after any later add with `chunk_size == 2`, see SkewPersistsWithChunkTwo) or with `chunk_size == 1` |
| Summarizing.ChunkOfOneSecondAdd | src/orchestrai/memory/stores/summarizing_memory.py:29-59 | threshold 1, chunk_size 1: adding a1 to [u1] leaves a1 followed by the summary of u1 |
| Summarizing.ChunkOfOneWindowOfTwo | src/orchestrai/memory/stores/summarizing_memory.py:32-38 | with two entries and threshold 1 the summarizer reads the older one |
| Summarizing.ChunkOfOneWindowSkipsOldest | src/orchestrai/memory/stores/summarizing_memory.py:32-38 | with three entries and threshold 1, the summarizer reads the middle entry, not the oldest |
| Summarizing.ChunkOfOneDropsUnsummarizedEntry | src/orchestrai/memory/stores/summarizing_memory.py:32-59 | as written, the third add summarizes the previous summary but pops a1, so a1 leaves the store unsummarized |
| Summarizing.ChunkOfOneIntendedSummarizesOldest | src/orchestrai/memory/stores/summarizing_memory.py:35-59 | the corrected compaction of the same buffer summarizes a1, the entry it pops |
| Summarizing.FailedAddLeavesThresholdPlusOne | src/orchestrai/memory/stores/summarizing_memory.py:29-51 | when the summarizer raises on the add that crosses the threshold, the new entry stays and the buffer holds threshold + 1 entries |
| Summarizing.RetryWindowSkipsOldest | src/orchestrai/memory/stores/summarizing_memory.py:32-38 | with five entries, threshold 3 and chunk_size 2, the summarizer reads the second and third entries |
| Summarizing.RetryAfterFailureSkipsOldest | src/orchestrai/memory/stores/summarizing_memory.py:29-59 | as written, the add after a failed one (threshold 3, chunk_size 2) pops the first two entries but summarizes the second and third: the first is never summarized, the third is summarized and kept |
| Summarizing.RetryIntendedSummarizesOldest | src/orchestrai/memory/stores/summarizing_memory.py:35-59 | the corrected compaction of the same five entries summarizes the first two, the ones it pops |
| Summarizing.SkewPersistsWithChunkTwo | src/orchestrai/memory/stores/summarizing_memory.py:29-59 | with `chunk_size == 2`, an add that starts from `threshold + 1` entries and whose summarizer call returns succeeds and again leaves `threshold + 1` entries, so once a failed add has left one entry too many the window never again covers the whole buffer |
| Summarizing.SummarizingMemoryStore.constructor | src/orchestrai/memory/stores/summarizing_memory.py:10-25 | records the inner store, threshold, chunk size and summarizer; a valid inner store gives a valid wrapper |
| Summarizing.SummarizingMemoryStore.Add | src/orchestrai/memory/stores/summarizing_memory.py:27-59 | the outcome and new inner buffer are exactly `AddSpec` of the old buffer; the inner capacity bound is kept |
| Summarizing.SummarizingMemoryStore.CompactInner | src/orchestrai/memory/stores/summarizing_memory.py:32-59 | reading back `threshold + 1` entries, summarizing, popping and re-adding yields exactly `Compact` of the buffer |
| Summarizing.SummarizingMemoryStore.PopOldest | src/orchestrai/memory/stores/summarizing_memory.py:54-56 | `range(chunk_size)` pops remove the first max(chunk_size, 0) entries, or raise after emptying the buffer when there are fewer |
| Summarizing.SummarizingMemoryStore.Query | src/orchestrai/memory/stores/summarizing_memory.py:61-62 | returns exactly the inner store's `query` |
| Summarizing.SummarizingMemoryStore.Summarize | src/orchestrai/memory/stores/summarizing_memory.py:64-66 | changes nothing |
| VectorMemory.StoredMeta | src/orchestrai/memory/stores/vector_memory.py:32 | the stored metadata is never empty: `None` or `{}` give `{"content": value}`, anything else is kept |
| VectorMemory.Resolve | src/orchestrai/memory/stores/vector_memory.py:45-48 | no more hits than search positions; an empty side list yields no hits whatever the search returns |
| VectorMemory.ResolveAppend | src/orchestrai/memory/stores/vector_memory.py:43-48 | hits keep the order of the search output |
| VectorMemory.ResolveMembership | src/orchestrai/memory/stores/vector_memory.py:45-48 | a hit is returned iff some search position is in range and names it; the -1 sentinel and out-of-range positions contribute nothing |
| VectorMemory.ResolveIgnoresOutOfRange | src/orchestrai/memory/stores/vector_memory.py:45-48 | when no position is in range the result is empty |
| VectorMemory.AddOutcome | src/orchestrai/memory/stores/vector_memory.py:22-31 | `add` succeeds iff the embedding call answers with a vector of the index's dimension |
| VectorMemory.VectorMemoryStore.constructor | src/orchestrai/memory/stores/vector_memory.py:12-20 | a new store has an empty index and side list of the given dimension |
| VectorMemory.VectorMemoryStore.Add | src/orchestrai/memory/stores/vector_memory.py:22-32 | on success exactly one vector and one `(key, metadata or {"content": value})` are appended, earlier entries untouched, index and side list stay aligned; on failure nothing changes |
| VectorMemory.VectorMemoryStore.QueryResult | src/orchestrai/memory/stores/vector_memory.py:34-49 | an embedding failure or wrong dimension is an error; otherwise no more hits than search positions, and none on an empty store |
| VectorMemory.VectorMemoryStore.Query | src/orchestrai/memory/stores/vector_memory.py:34-49 | the loop over search positions returns exactly `QueryResult`, modifying neither index nor side list |
| VectorMemory.VectorMemoryStore.Summarize | src/orchestrai/memory/stores/vector_memory.py:51-53 | changes nothing |
| Composite.FromHit | src/orchestrai/memory/stores/composite_memory.py:26-28 | an entry keeps the hit's key and metadata and takes its content from `meta.get("text", "")` |
| Composite.FromHits | src/orchestrai/memory/stores/composite_memory.py:24-29 | one entry per hit, in order |
| Composite.DefaultMetadataReadsAsEmpty | src/orchestrai/memory/stores/composite_memory.py:27 | a value stored with default metadata `{"content": value}` comes back with content `""` |
| Composite.Dedup | src/orchestrai/memory/stores/composite_memory.py:45-58 | the first-seen-key filter never lengthens its input |
| Composite.DedupOnlyUnseen | src/orchestrai/memory/stores/composite_memory.py:49-52 | every returned entry is from the input and its key was not seen before |
| Composite.DedupDistinctKeys | src/orchestrai/memory/stores/composite_memory.py:46-58 | no two returned entries share a key |
| Composite.DedupIsSubsequence | src/orchestrai/memory/stores/composite_memory.py:48-58 | the result is a subsequence of the input, in original order |
| Composite.DedupKeepsEveryKey | src/orchestrai/memory/stores/composite_memory.py:48-58 | the keys returned are exactly the input's keys minus those already seen |
| Composite.DedupReturnsFirstOccurrences | src/orchestrai/memory/stores/composite_memory.py:49-52 | every returned entry is the first input entry carrying its key |
| Composite.DedupReturnsEveryFirstOccurrence | src/orchestrai/memory/stores/composite_memory.py:49-52 | every first occurrence of an unseen key is returned |
| Composite.DedupKeepsFirstOccurrences | src/orchestrai/memory/stores/composite_memory.py:48-58 | an entry is returned iff its key was unseen and it is the first input entry with that key: it is dropped only when its key appeared earlier |
| Composite.DedupAppend | src/orchestrai/memory/stores/composite_memory.py:45-58 | two loops sharing `seen_keys` equal one filter over the concatenation |
| Composite.DedupOfDistinctIsIdentity | src/orchestrai/memory/stores/composite_memory.py:45-60 | entries with distinct unseen keys all pass, so the merge is not truncated to `top_k` |
| Composite.SemanticEntries | src/orchestrai/memory/stores/composite_memory.py:22-29 | `query_semantic` on the semantic store's outcome: its error is passed on; otherwise one `FromHit` entry per hit, in order |
| Composite.MergeResult | src/orchestrai/memory/stores/composite_memory.py:45-60 | `query`'s answer: the semantic error when the semantic part is on and fails; otherwise a list with distinct keys, no longer than the enabled parts together |
| Composite.MergeShape | src/orchestrai/memory/stores/composite_memory.py:45-60 | the merge is the filtered semantic part then the recent entries with new keys; keys are distinct; length is at most the sum of both parts; with both sources off it is `[]` |
| Composite.AppendUnseen | src/orchestrai/memory/stores/composite_memory.py:49-52 | one for-loop appends exactly `Dedup(items, seen)` and adds every item's key to `seen_keys` |
| Composite.CompositeMemoryStore.constructor | src/orchestrai/memory/stores/composite_memory.py:8-16 | records the recency and semantic stores; valid stores give a valid composite |
| Composite.CompositeMemoryStore.Add | src/orchestrai/memory/stores/composite_memory.py:18-20 | `recency.add` then `semantic.add` with the same arguments; a recency failure skips the semantic add |
| Composite.CompositeMemoryStore.QuerySemantic | src/orchestrai/memory/stores/composite_memory.py:22-29 | returns each semantic hit translated by `FromHit`, in order, or the semantic store's error |
| Composite.CompositeMemoryStore.QueryRecency | src/orchestrai/memory/stores/composite_memory.py:31-33 | returns exactly `recency.query("", top_k)` |
| Composite.CompositeMemoryStore.Query | src/orchestrai/memory/stores/composite_memory.py:35-60 | returns exactly `MergeResult` of the two sub-queries, each skipped when its flag is off; keys are distinct |

## Left out

- The `MemoryStore` interface (src/orchestrai/memory/core.py) is not a Dafny type. Each class except CompositeMemoryStore (whose `summarize` is missing) has its own `Add`/`Query`/`Summarize` with the same contract shape.
- SummarizingMemoryStore is modelled over a RollingBufferStore, the only store with a `buffer`. The `hasattr(self.inner, "buffer")` branch that skips popping for other inner stores is not modelled.
- The composite's recency store is a SummarizingMemoryStore and its semantic store a VectorMemoryStore, as examples/composite_memory_conversation.py wires them. Other combinations are not modelled.
- The composite's `kv_store` is stored but never used, so it is not modelled; key_value_store.py, the OpenAI adapter and the example scripts are out of scope.
- The chat-completion and embedding calls, numpy and the FAISS index are parameters. Their failures are modelled as `None`, and the model name and sampling options are not modelled. Similarity ranking and float32 arithmetic are not modelled: vectors are `seq<real>`.
- VectorMemory.VectorMemoryStore.QueryResult: FAISS's own check on `k` is dropped. `search` returns a list and cannot fail, so a non-positive `top_k` gives a successful result in the model where FAISS raises.
- Composite.CompositeMemoryStore.constructor: as written the class cannot be instantiated. `MemoryStore` declares `summarize` abstract (src/orchestrai/memory/core.py:14-16) and composite_memory.py does not define it, so `CompositeMemoryStore(...)` raises TypeError. The model describes the methods as if construction succeeded.
- RollingBuffer.RollingBufferStore.constructor: a negative `max_size`, for which `deque` raises ValueError, is excluded by a precondition instead of being modelled as an error.
- Metadata values are modelled as strings (`map<string, string>`). The stores only test metadata for emptiness and read the "text" key, so other value types are not modelled.
- Python default arguments (max_size=50, top_k=5, threshold=20, chunk_size=5, dim=1536, use_semantic=True, use_recency=True) are not modelled: every argument is passed explicitly.
- VectorMemory.VectorMemoryStore.Add: the index's dimension assertion is modelled as a `DimensionMismatch` error rather than an `AssertionError`.
- Summarizing.FourTurnsCompactOnce: stated for arbitrary turns rather than the test's literal turns; the first three adds are covered by Summarizing.AddWithinThresholdAppends.
- Concurrency and timeouts do not exist in the code and are not modelled.

## Findings

| source | as written | input that shows it | evidently intended | confidence | as-written member | corrected member |
|---|---|---|---|---|---|---|
| src/orchestrai/memory/stores/summarizing_memory.py:32-56 | summarizes the first `chunk_size` entries of the last `threshold + 1`, but pops the first `chunk_size` entries of the whole buffer; once the buffer exceeds `threshold + 1` (with `chunk_size == 1`, or after any failed add) these differ | threshold 1, chunk_size 1, adding u1, a1, u2: the third add summarizes the earlier summary and pops a1, which no summary covers | the entries popped are the entries summarized | not executed | Summarizing.ChunkOfOneDropsUnsummarizedEntry | Summarizing.IntendedCompact |
| src/orchestrai/memory/stores/summarizing_memory.py:29-56 | an add whose summarizer call raises keeps its new entry, leaving `threshold + 1` entries; the next add then sees `threshold + 2`, summarizes entries 2 to chunk_size + 1 and pops entries 1 to chunk_size | threshold 3, chunk_size 2, capacity 10: the fourth add fails in the summarizer, a fifth add follows; the first entry is popped unsummarized and the third is summarized and kept ; with chunk_size 2 the skew is permanent, since every later successful add again leaves `threshold + 1` entries (Summarizing.SkewPersistsWithChunkTwo) | the entries popped are the entries summarized | not executed | Summarizing.RetryAfterFailureSkipsOldest | Summarizing.IntendedCompact |

The store classes keep the code's behaviour as written.
Summarizing.AsWrittenMatchesIntendedOnWholeWindow proves that it coincides
with the corrected Summarizing.IntendedCompact whenever the buffer holds at
most `threshold + 1` entries. That holds after every successful add with
`chunk_size >= 2` that starts from at most `threshold` entries
(Summarizing.SuccessfulAddStaysWithinThreshold). It fails with
`chunk_size == 1` and after an add whose summarizer call raised
(Summarizing.FailedAddLeavesThresholdPlusOne).
