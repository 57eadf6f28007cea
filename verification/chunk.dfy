/** P7_HIT_CHUNK: a run of hits, sorted by ascending object ID, that one worker
    builds privately while it scans one region of the database, together with the
    cached IDs of its first and last entries. The start/end entry pointers become
    the first and last positions of `entries`; the prev/next chunk links are only
    used once the chunk sits in a hit list, where its position in the chunk
    sequence replaces them. */
module Chunks {
  import opened Hits

  datatype Chunk = Chunk(entries: seq<Hit>, startId: ObjectId, endId: ObjectId)

  /** The chunk invariant: entries ascend, and the cached bounds are the IDs of the
      first and last entries. The bounds of an empty chunk are not yet defined. */
  ghost predicate WellFormed(c: Chunk) {
    && Sorted(c.entries)
    && (|c.entries| > 0 ==>
          c.startId == c.entries[0].objectId && c.endId == Last(c.entries).objectId)
  }

  /** p7_hit_chunk_Create: an empty chunk. */
  function Create(): (c: Chunk)
    ensures WellFormed(c)
    ensures |c.entries| == 0
  {
    Chunk([], 0, 0)
  }

  /** The caller's obligation for p7_add_entry_to_chunk: the chunk is empty, or the
      new hit's ID is at least the chunk's current end ID. */
  predicate CanAdd(h: Hit, c: Chunk) {
    |c.entries| == 0 || c.endId <= h.objectId
  }

  /** p7_add_entry_to_chunk: attach the entry after the current last entry. */
  function AddEntry(h: Hit, c: Chunk): (r: Chunk)
    requires WellFormed(c) && CanAdd(h, c)
    ensures WellFormed(r)
    ensures |r.entries| == |c.entries| + 1
    ensures r.entries[..|c.entries|] == c.entries
    ensures Last(r.entries) == h
    ensures |c.entries| > 0 ==> r.startId == c.startId
  {
    var entries := c.entries + [h];
    assert entries[..|c.entries|] == c.entries;
    Chunk(entries, if |c.entries| == 0 then h.objectId else c.startId, h.objectId)
  }

  /** A worker adding the hits of `hs` one at a time, in order, with
      p7_add_entry_to_chunk. */
  function AddEntries(c: Chunk, hs: seq<Hit>): (r: Chunk)
    requires WellFormed(c) && Sorted(c.entries + hs)
    ensures WellFormed(r)
    ensures r.entries == c.entries + hs
    ensures |r.entries| > 0 ==>
              && r.startId == r.entries[0].objectId
              && r.endId == Last(r.entries).objectId
              && r.startId <= r.endId
    decreases |hs|
  {
    if |hs| == 0 then
      assert c.entries + hs == c.entries;
      c
    else
      assert |c.entries| > 0 ==>
        (c.entries + hs)[|c.entries| - 1] == Last(c.entries) && (c.entries + hs)[|c.entries|] == hs[0];
      var c' := AddEntry(hs[0], c);
      assert c'.entries == c.entries + [hs[0]];
      assert c.entries + hs == c'.entries + hs[1..];
      AddEntries(c', hs[1..])
  }

  /** p7_get_hits_from_chunk: the chunk's entries, in order, starting from the first. */
  function GetHits(c: Chunk): (r: seq<Hit>)
    requires WellFormed(c)
    ensures r == c.entries
    ensures Sorted(r)
    ensures |r| > 0 ==> r[0].objectId == c.startId && Last(r).objectId == c.endId
  {
    c.entries
  }

  /** p7_get_hit_chunk_start_id: for a non-empty chunk, the lowest ID in it. */
  function GetStartId(c: Chunk): (r: ObjectId)
    requires WellFormed(c)
    ensures |c.entries| > 0 ==> r == c.entries[0].objectId
    ensures forall i :: 0 <= i < |c.entries| ==> r <= c.entries[i].objectId
  {
    c.startId
  }

  /** p7_get_hit_chunk_end_id: for a non-empty chunk, the highest ID in it. */
  function GetEndId(c: Chunk): (r: ObjectId)
    requires WellFormed(c)
    ensures |c.entries| > 0 ==> r == Last(c.entries).objectId
    ensures forall i :: 0 <= i < |c.entries| ==> c.entries[i].objectId <= r
  {
    c.endId
  }

  /** Every entry of a well-formed chunk lies within its cached bounds. */
  lemma {:induction false} EntriesWithinBounds(c: Chunk)
    requires WellFormed(c)
    ensures forall i :: 0 <= i < |c.entries| ==> c.startId <= c.entries[i].objectId <= c.endId
  {
  }

  /** Building a chunk from empty by successive adds: the traversal yields the hits
      in the order they were added, and the bounds are the first and last IDs. */
  lemma {:induction false} BuildFromEmpty(hs: seq<Hit>)
    requires Sorted(hs)
    ensures var c := AddEntries(Create(), hs);
      && GetHits(c) == hs
      && (|hs| > 0 ==>
            GetStartId(c) == hs[0].objectId && GetEndId(c) == Last(hs).objectId
            && GetStartId(c) <= GetEndId(c))
  {
    assert Create().entries + hs == hs;
  }
}
