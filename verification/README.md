# Hit lists of the HMMER daemon, modelled in Dafny

The HMMER search daemon splits a database search over worker threads. Each worker
scans regions of the database in ascending object-ID order. It collects the hits it
finds in a private *hit chunk* (`P7_HIT_CHUNK`), a doubly-linked run of entries
sorted by object ID that caches the IDs of its first and last entries. When a worker
finishes a region, it hands its chunk to the node's *hit list* (`P7_HITLIST`). The
hit list keeps two things:

- the global run of hits, sorted by object ID, with the cached IDs of its first and
  last hits;
- the sequence of chunks, also sorted, whose closed ID ranges never overlap.

Adding a chunk means finding its place among the chunks, splicing it in there, and
splicing its hits into the global run at the matching point.

This project models that structure functionally:

- Sequences replace the linked lists. A hit-list entry is represented by the hit it
  wraps, and its prev/next links by positions in a sequence.
- `Hits` (`hits.dfy`) defines the hit as an unsigned 64-bit object ID, a name and an
  accession, together with the ascending order (`Sorted`).
- `Chunks` (`chunk.dfy`) holds the chunk, its invariant `WellFormed`, and the
  chunk operations.
- `HitLists` (`hitlist.dfy`) holds the following:
  - the hit list and its invariant `Valid`: the chunks are well formed, non-empty
    and strictly ordered; the global run is the in-order concatenation of their
    entries; the cached bounds are the run's first and last IDs;
  - the addition of a chunk, written twice: as a pure function (`AddChunk`) and as
    the bidirectional scan (`Merge`) that searches from whichever cached end is
    closer;
  - the lemmas about adding one chunk or a batch of chunks.
- `Reporting` (`reporting.dfy`) holds the longest-name and longest-accession scans.
- `Scenarios` (`scenarios.dfy`) holds worked examples: chunks [1,5], [11,15] and
  [6,10] merged out of order with an empty chunk handed over among them, and a chunk
  [3,8] rejected because its range overlaps [1,5].

The model follows `src/daemon/p7_hitlist.h`. The header documents only `eslOK` as
the result of `p7_hitlist_add_Chunk` (p7_hitlist.h:145). It also requires that the
chunks of a hit list have non-overlapping ranges (p7_hitlist.h:11), but does not say
what happens to a chunk that breaks this. The model reports such a chunk as
`Err(OverlappingRange)`: `AddChunk` fails exactly when the new chunk's range overlaps
a chunk already present. The list is a value, so a rejected addition leaves the
caller's list as it was.

A worker that finishes a region with no hits still hands over its chunk
(p7_hitlist.h:6-8), but an empty chunk has no range. The model merges an empty chunk
as a no-op: the list comes back unchanged.

## Model

| member | source | states |
|---|---|---|
| Chunks.Create | src/daemon/p7_hitlist.h:103-104 | a new chunk has no entries and satisfies the chunk invariant |
| Chunks.AddEntry | src/daemon/p7_hitlist.h:110-114 | appending a hit whose ID is at least the chunk's end ID keeps the chunk sorted with its cached bounds equal to its first and last IDs; the old entries stay as a prefix, the new hit is last, and a non-empty chunk keeps its start ID |
| Chunks.AddEntries | src/daemon/p7_hitlist.h:6-7 | a worker appending a run of hits in ascending order, one at a time, gets exactly the old entries followed by the run; the start ID is the first entry's, the end ID the last's, and start <= end |
| Chunks.BuildFromEmpty | src/daemon/p7_hitlist.h:32-44 | from an empty chunk, traversal after the appends yields the hits in append order, and the bounds are the first and last appended IDs |
| Chunks.GetHits | src/daemon/p7_hitlist.h:116-118 | traversal from the first entry yields the entries in order; they are sorted, begin at the start ID and end at the end ID |
| Chunks.GetStartId | src/daemon/p7_hitlist.h:121-123 | for a non-empty chunk the first entry's ID, and a lower bound on every entry's ID |
| Chunks.GetEndId | src/daemon/p7_hitlist.h:125-127 | for a non-empty chunk the last entry's ID, and an upper bound on every entry's ID |
| HitLists.Create | src/daemon/p7_hitlist.h:135-136 | a new hit list has no hits and no chunks and satisfies the hit-list invariant |
| HitLists.Slot | src/daemon/p7_hitlist.h:13 | the insertion point for a chunk starting at s: every chunk before it ends below s, and the chunk at it (if any) ends at or above s |
| HitLists.SlotDecidesOverlap | src/daemon/p7_hitlist.h:11-13 | the new chunk overlaps some chunk present exactly when it overlaps the chunk at its insertion point |
| HitLists.AddChunk | src/daemon/p7_hitlist.h:142-146 | an empty chunk leaves the list unchanged; adding a chunk with hits succeeds exactly when its range overlaps no chunk present; otherwise the error is OverlappingRange; on success the hit-list invariant holds again |
| HitLists.Merge | src/daemon/p7_hitlist.h:13-14 | scanning for the insertion point from whichever cached end is numerically closer gives the same result as AddChunk, both on success and on rejection |
| HitLists.ScanForward | src/daemon/p7_hitlist.h:13 | walking the ordered chunks from the first, past every chunk that ends before s, stops exactly at the insertion point |
| HitLists.ScanBackward | src/daemon/p7_hitlist.h:13 | walking the ordered chunks back from the last, past every chunk that ends at or after s, stops exactly at the insertion point |
| HitLists.ValidInvariants | src/daemon/p7_hitlist.h:10-11 | in a valid hit list the global run is sorted and no two chunks have overlapping ranges |
| HitLists.FlattenSorted | src/daemon/p7_hitlist.h:10 | concatenating ordered well-formed chunks gives a sorted run that lies between the first chunk's start ID and the last chunk's end ID |
| HitLists.ValidEnds | src/daemon/p7_hitlist.h:58-68 | the cached first and last IDs of a non-empty valid hit list are the first chunk's start ID and the last chunk's end ID; a list is empty exactly when it has no chunks |
| HitLists.AddChunkPreservesValid | src/daemon/p7_hitlist.h:10-14 | adding a non-overlapping chunk succeeds; the result is valid with pairwise disjoint chunk ranges; its chunks are the old chunks plus the new one, which occurs exactly once |
| HitLists.AddChunkSplicesHits | src/daemon/p7_hitlist.h:13-14 | the new hits are spliced into the global run at a single point; every hit before that point lies below the chunk's start ID and every hit after it lies above the chunk's end ID |
| HitLists.AddChunkHits | src/daemon/p7_hitlist.h:58-68 | after a successful add the global run is sorted and holds exactly the old hits plus the chunk's; the cached start and end IDs are those of its first and last hits |
| HitLists.AddChunkContents | src/daemon/p7_hitlist.h:10-14 | a successful add holds exactly the old hits plus the chunk's, and exactly the old chunks plus the new one |
| HitLists.NoOverlapAfterAdd | src/daemon/p7_hitlist.h:11-12 | a chunk that overlaps neither the chunks present nor a newly added chunk still overlaps nothing after that add |
| HitLists.AddTwice | src/daemon/p7_hitlist.h:11-12 | two mutually non-overlapping chunks that overlap nothing present can both be added; the result is valid and holds the old chunks plus both |
| HitLists.OrderedUnique | src/daemon/p7_hitlist.h:10-11 | two ordered sequences of well-formed chunks that hold the same chunks are equal |
| HitLists.SameChunksSameList | src/daemon/p7_hitlist.h:10-11 | a non-empty valid hit list is determined by the chunks it holds |
| HitLists.AddChunkCommutes | src/daemon/p7_hitlist.h:11-12 | two compatible chunks can be added in either order, and both orders give the same hit list |
| HitLists.AddAll | src/daemon/p7_hitlist.h:6-8 | handing chunks to the hit list one after another, stopping at the first rejection, keeps the hit-list invariant on success |
| HitLists.Occupied | src/daemon/p7_hitlist.h:6-8 | the chunks of a batch that hold hits: each is one of the batch's chunks and is non-empty |
| HitLists.AddAllSkipsEmpty | src/daemon/p7_hitlist.h:6-8 | empty chunks handed over by workers that found no hits change nothing: a batch merges exactly as the batch of its non-empty chunks |
| HitLists.RestStillApart | src/daemon/p7_hitlist.h:11-12 | after the first chunk of a compatible batch is added, the remaining chunks are still compatible with the grown list |
| HitLists.AddAllHits | src/daemon/p7_hitlist.h:6-14 | merging a batch of chunks whose non-empty ranges overlap neither each other nor anything present succeeds; the global run is then sorted and holds exactly the old hits plus every chunk's hits, and the chunk sequence holds exactly the old chunks plus the non-empty new ones |
| Reporting.Longest | src/daemon/p7_hitlist.h:148-150 | the reference definition of the longest field: at least every hit's field length, equal to some hit's when there are hits, 0 when there are none |
| Reporting.LongestConcat | src/daemon/p7_hitlist.h:148-150 | the longest field of two runs together is the larger of the two runs' longest |
| Reporting.MaxFieldLength | src/daemon/p7_hitlist.h:148-158 | a single linear scan over the hits computes the reference longest field |
| Reporting.GetMaxNameLength | src/daemon/p7_hitlist.h:148-150 | the result is no shorter than any hit's name and equals some hit's name length; an empty list gives 0 |
| Reporting.GetMaxAccessionLength | src/daemon/p7_hitlist.h:156-158 | the result is no shorter than any hit's accession and equals some hit's accession length; an empty list gives 0 |
| Reporting.LongestAfterAdd | src/daemon/p7_hitlist.h:148-150 | after a chunk is added, the longest field is the larger of the list's previous longest and the chunk's longest |
| Scenarios.MergeSteps | src/daemon/p7_hitlist.h:6-14 | three chunks with ranges a < c < b, merged in the order a, b, c, leave the chunks in the order a, c, b and the hits of a, then c, then b |
| Scenarios.MergeWithEmpty | src/daemon/p7_hitlist.h:6-8 | an empty chunk handed over between the chunks of a batch leaves the merged list as it is without it |
| Scenarios.MergeOutOfOrder | src/daemon/p7_hitlist.h:6-14 | chunks [1,5], [11,15], an empty chunk and [6,10], merged in that order, leave the chunk order [1,5], [6,10], [11,15] and the hit IDs 1 to 15 in ascending order |
| Scenarios.OverlapRejected | src/daemon/p7_hitlist.h:11-12 | with chunk [1,5] present, adding a chunk [3,8] is rejected as OverlappingRange |

## Left out

- The mutex of the hit list (`src/daemon/p7_hitlist.h:55-56`) is left out. Concurrency is not modelled, so each addition is one atomic step.
- Memory management is left out because values replace pointers. This covers `p7_hitlist_entry_Create`, `p7_hitlist_entry_pool_Create`, `p7_hitlist_entry_Destroy`, `p7_hit_chunk_Destroy`, `p7_hitlist_Destroy` and the pool size `HITLIST_POOL_SIZE`. Allocation failure is left out with them.
- `p7_hitlist_TabularTargets` is left out because it writes formatted output to a stream.
- `p7_hitlist_GetMaxPositionLength` is left out because the positions belong to the internals of `P7_HIT`, which are not modelled. A hit is reduced to its object ID, name and accession.
- Reporting.GetMaxNameLength: returns an unbounded `nat`, not a `uint32_t`. It does not model truncation of lengths of 2^32 or more.
- Reporting.GetMaxAccessionLength: returns an unbounded `nat`, not a `uint32_t`, for the same reason.
- Chunks.Create: the header says only that the chunk is created empty. The model sets its cached bounds to 0; the chunk invariant does not constrain the bounds of an empty chunk, and no contract depends on them.
- HitLists.Create: the header says only that the list is created empty. The model sets its cached bounds to 0; the hit-list invariant does not constrain the bounds of an empty list.
- HitLists.AddChunk: the header does not say what merging an empty chunk does. Treating it as a no-op is the model's choice.
- Chunks.AddEntry: the header documents `eslOK` on success and that failure ends the program, without naming the failure. The model makes ascending order (the new hit's ID at least the chunk's end ID, p7_hitlist.h:3) a precondition and leaves out the abort.
- Reporting.GetMaxNameLength: counts a name's length in Dafny characters. The C function measures a `char*` string, whose length is in bytes, so the two differ for non-ASCII names. The same holds for Reporting.GetMaxAccessionLength.
- HitLists.AddAllHits: states that the global run is non-decreasing, not strictly ascending. The append precondition is `>=`, so one chunk may hold several hits with the same object ID. The order is strict between chunks.
