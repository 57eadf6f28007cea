/** Worked examples: three workers' chunks [1,5], [11,15] and [6,10] merged out of
    order, with a worker's empty chunk handed over among them, and a chunk [3,8] whose range
    overlaps one already present. The merge steps are proved for any three chunks
    whose ranges lie in the order a < c < b; the concrete chunks are one instance. */
module Scenarios {
  import opened Hits
  import opened Chunks
  import opened HitLists

  /** A worker's chunk holding one hit for each ID from `lo` to `hi`. */
  function Span(lo: nat, hi: nat): (c: Chunk)
    requires lo <= hi < ObjectIdLimit
    ensures WellFormed(c) && |c.entries| == hi - lo + 1
    ensures c.startId == lo && c.endId == hi
    ensures forall i :: 0 <= i < |c.entries| ==> c.entries[i].objectId == lo + i
  {
    var hs := seq(hi - lo + 1, i requires 0 <= i <= hi - lo => Hit(lo + i, [], []));
    Chunk(hs, lo, hi)
  }

  /** The first chunk into the empty list becomes its only chunk. */
  lemma {:induction false} AddFirst(a: Chunk)
    requires Mergeable(a)
    ensures AddChunk(HitLists.Create(), a) == Ok(HitList(a.entries, a.startId, a.endId, [a]))
  {
    var l0 := HitLists.Create();
    assert Slot(l0.chunks, a.startId) == 0;
    assert l0.chunks[..0] == [] && Flatten(l0.chunks[..0]) == [];
    assert l0.chunks[..0] + [a] + l0.chunks[0..] == [a];
    assert l0.hits[..0] + a.entries + l0.hits[0..] == a.entries;
  }

  /** A chunk whose range lies above the only chunk present goes after it. */
  lemma {:induction false} AddAbove(a: Chunk, b: Chunk)
    requires Mergeable(a) && Mergeable(b) && a.endId < b.startId
    ensures AddChunk(HitList(a.entries, a.startId, a.endId, [a]), b)
         == Ok(HitList(a.entries + b.entries, a.startId, b.endId, [a, b]))
  {
    var l1 := HitList(a.entries, a.startId, a.endId, [a]);
    var p := |a.entries|;
    EntriesWithinBounds(a);
    EntriesWithinBounds(b);
    FlattenSingle(a);
    assert Slot([a], b.startId) == 1 by {
      assert [a][1..] == [];
    }
    assert Flatten([a][..1]) == a.entries by {
      assert [a][..1] == [a];
    }
    assert [a][..1] + [b] + [a][1..] == [a, b];
    assert l1.hits[..p] + b.entries + l1.hits[p..] == a.entries + b.entries;
  }

  /** A chunk whose range lies between the two chunks present goes between them. */
  lemma {:induction false} AddBetween(a: Chunk, b: Chunk, c: Chunk)
    requires Mergeable(a) && Mergeable(b) && Mergeable(c)
    requires a.endId < c.startId && c.endId < b.startId
    requires Valid(HitList(a.entries + b.entries, a.startId, b.endId, [a, b]))
    ensures AddChunk(HitList(a.entries + b.entries, a.startId, b.endId, [a, b]), c)
         == Ok(HitList(a.entries + c.entries + b.entries, a.startId, b.endId, [a, c, b]))
  {
    var l2 := HitList(a.entries + b.entries, a.startId, b.endId, [a, b]);
    var p := |a.entries|;
    EntriesWithinBounds(a);
    EntriesWithinBounds(b);
    EntriesWithinBounds(c);
    FlattenSingle(a);
    assert Slot([a, b], c.startId) == 1 by {
      assert [a, b][1..] == [b];
    }
    assert Flatten([a, b][..1]) == a.entries by {
      assert [a, b][..1] == [a];
    }
    assert [a, b][..1] + [c] + [a, b][1..] == [a, c, b];
    assert l2.hits[..p] == a.entries;
    assert l2.hits[p..] == b.entries;
  }

  /** Merging a, b and c in that order, when their ranges lie in the order a < c < b,
      leaves the chunks in the order a, c, b and the hits of a, then c, then b. */
  lemma {:induction false} MergeSteps(a: Chunk, b: Chunk, c: Chunk)
    requires Mergeable(a) && Mergeable(b) && Mergeable(c)
    requires a.endId < c.startId && c.endId < b.startId
    ensures AllWellFormed([a, b, c])
    ensures AddAll(HitLists.Create(), [a, b, c])
         == Ok(HitList(a.entries + c.entries + b.entries, a.startId, b.endId, [a, c, b]))
  {
    AddFirst(a);
    AddAbove(a, b);
    AddBetween(a, b, c);
    var l0 := HitLists.Create();
    var l1 := HitList(a.entries, a.startId, a.endId, [a]);
    var l2 := HitList(a.entries + b.entries, a.startId, b.endId, [a, b]);
    var l3 := HitList(a.entries + c.entries + b.entries, a.startId, b.endId, [a, c, b]);
    AddAllStep(l0, [a, b, c], l1);
    assert [a, b, c][1..] == [b, c];
    AddAllStep(l1, [b, c], l2);
    assert [b, c][1..] == [c];
    AddAllStep(l2, [c], l3);
    assert [c][1..] == [];
  }

  /** A worker that found no hits in its region hands over an empty chunk; merged
      between b and c, it changes nothing. */
  lemma {:induction false} MergeWithEmpty(a: Chunk, b: Chunk, c: Chunk)
    requires Mergeable(a) && Mergeable(b) && Mergeable(c)
    requires a.endId < c.startId && c.endId < b.startId
    ensures AllWellFormed([a, b, Chunks.Create(), c])
    ensures AddAll(HitLists.Create(), [a, b, Chunks.Create(), c]) == AddAll(HitLists.Create(), [a, b, c])
  {
    AddFirst(a);
    AddAbove(a, b);
    var e := Chunks.Create();
    var l0 := HitLists.Create();
    var l1 := HitList(a.entries, a.startId, a.endId, [a]);
    var l2 := HitList(a.entries + b.entries, a.startId, b.endId, [a, b]);
    AddBetween(a, b, c);
    assert AddChunk(l2, e) == Ok(l2);
    AddAllStep(l0, [a, b, e, c], l1);
    AddAllStep(l0, [a, b, c], l1);
    assert [a, b, e, c][1..] == [b, e, c];
    assert [a, b, c][1..] == [b, c];
    AddAllStep(l1, [b, e, c], l2);
    AddAllStep(l1, [b, c], l2);
    assert [b, e, c][1..] == [e, c];
    AddAllStep(l2, [e, c], l2);
    assert [e, c][1..] == [c];
  }

  /** Chunks A = [1,5], B = [11,15] and C = [6,10] merged in the order A, B, C, with
      an empty chunk handed over before C, give the chunk order A, C, B and the hits
      1 to 15 in ascending order. */
  lemma {:induction false} MergeOutOfOrder()
    ensures var a, b, c := Span(1, 5), Span(11, 15), Span(6, 10);
      && AddAll(HitLists.Create(), [a, b, Chunks.Create(), c]).Ok?
      && AddAll(HitLists.Create(), [a, b, Chunks.Create(), c]).value.chunks == [a, c, b]
      && Ids(AddAll(HitLists.Create(), [a, b, Chunks.Create(), c]).value.hits) == seq(15, i => i + 1)
  {
    var a, b, c := Span(1, 5), Span(11, 15), Span(6, 10);
    MergeSteps(a, b, c);
    MergeWithEmpty(a, b, c);
    IdsOfSpans(a, b, c);
  }

  /** The hits of [1,5], [6,10] and [11,15] in that order carry the IDs 1 to 15. */
  lemma {:induction false} IdsOfSpans(a: Chunk, b: Chunk, c: Chunk)
    requires a == Span(1, 5) && b == Span(11, 15) && c == Span(6, 10)
    ensures Ids(a.entries + c.entries + b.entries) == seq(15, i => i + 1)
  {
    var hs := a.entries + c.entries + b.entries;
    var ids := Ids(hs);
    forall i | 0 <= i < 15 ensures ids[i] == i + 1 {
      if i < 5 {
        assert hs[i] == a.entries[i];
      } else if i < 10 {
        assert hs[i] == c.entries[i - 5];
      } else {
        assert hs[i] == b.entries[i - 10];
      }
    }
  }

  /** With chunk A = [1,5] present, a chunk [3,8] is rejected as overlapping. */
  lemma {:induction false} OverlapRejected()
    ensures var a := Span(1, 5);
      && AddChunk(HitLists.Create(), a).Ok?
      && AddChunk(AddChunk(HitLists.Create(), a).value, Span(3, 8)) == Err(OverlappingRange)
  {
    var a := Span(1, 5);
    AddFirst(a);
    assert Overlap(a, Span(3, 8));
  }
}
