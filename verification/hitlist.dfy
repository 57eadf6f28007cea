/** P7_HITLIST: the node-wide merge of the workers' chunks.

    The hit list keeps the global run of hits sorted by object ID, with the cached IDs
    of its first and last hits, and the sequence of chunks, also sorted by object ID,
    whose ID ranges never overlap. The doubly-linked lists become sequences; the
    mutex that serialises additions is left out, so adding a chunk is one atomic
    step. The global run is a real field, kept equal to the in-order concatenation
    of the chunks' entries by the invariant `Valid`. */
module HitLists {
  import opened Hits
  import opened Chunks

  datatype Error = OverlappingRange

  datatype Result<T> = Ok(value: T) | Err(error: Error)

  datatype HitList = HitList(hits: seq<Hit>, startId: ObjectId, endId: ObjectId, chunks: seq<Chunk>)

  /** The entries of the chunks, read chunk by chunk in order. */
  function Flatten(cs: seq<Chunk>): seq<Hit> {
    if |cs| == 0 then [] else cs[0].entries + Flatten(cs[1..])
  }

  /** The closed ranges [startId, endId] of two chunks share an ID. */
  ghost predicate Overlap(a: Chunk, b: Chunk) {
    a.startId <= b.endId && b.startId <= a.endId
  }

  ghost predicate OverlapsAny(cs: seq<Chunk>, c: Chunk) {
    exists i :: 0 <= i < |cs| && Overlap(cs[i], c)
  }

  /** A chunk as a hit list holds it: well formed, with at least one hit. */
  ghost predicate Mergeable(c: Chunk) {
    WellFormed(c) && |c.entries| > 0
  }

  /** Chunks in a hit list are well formed and hold at least one hit. */
  ghost predicate ChunksWellFormed(cs: seq<Chunk>) {
    forall i :: 0 <= i < |cs| ==> Mergeable(cs[i])
  }

  /** Each chunk's range ends strictly before the next one's begins. */
  ghost predicate ChunksOrdered(cs: seq<Chunk>) {
    forall i, j :: 0 <= i < j < |cs| ==> cs[i].endId < cs[j].startId
  }

  ghost predicate ChunksDisjoint(cs: seq<Chunk>) {
    forall i, j :: 0 <= i < |cs| && 0 <= j < |cs| && i != j ==> !Overlap(cs[i], cs[j])
  }

  /** The hit-list invariant. */
  ghost predicate Valid(l: HitList) {
    && ChunksWellFormed(l.chunks)
    && ChunksOrdered(l.chunks)
    && l.hits == Flatten(l.chunks)
    && (|l.hits| > 0 ==> l.startId == l.hits[0].objectId && l.endId == Last(l.hits).objectId)
  }

  /** p7_hitlist_Create: no hits and no chunks. */
  function Create(): (l: HitList)
    ensures Valid(l)
    ensures |l.hits| == 0 && |l.chunks| == 0
  {
    HitList([], 0, 0, [])
  }

  /** The place of a chunk starting at `s` in the chunk sequence: the number of
      leading chunks that end before `s`, found by a scan from the front. */
  function Slot(cs: seq<Chunk>, s: ObjectId): (k: nat)
    ensures k <= |cs|
    ensures forall i :: 0 <= i < k ==> cs[i].endId < s
    ensures k < |cs| ==> s <= cs[k].endId
  {
    if |cs| == 0 || s <= cs[0].endId then 0 else 1 + Slot(cs[1..], s)
  }

  /** Where the new chunk's entries go in the global run: after the entries of the
      chunks that precede it. */
  function SplicePoint(l: HitList, c: Chunk): nat {
    var k := Slot(l.chunks, c.startId);
    |Flatten(l.chunks[..k])|
  }

  /** Link `c` in as chunk number `k`, splice its entries into the global run at the
      matching point, and extend the cached bounds if it extends either end. */
  function Splice(l: HitList, c: Chunk, k: nat): HitList
    requires k <= |l.chunks| && l.hits == Flatten(l.chunks)
  {
    FlattenSplit(l.chunks, k);
    var p := |Flatten(l.chunks[..k])|;
    var startId := if |l.hits| == 0 || c.startId < l.startId then c.startId else l.startId;
    var endId := if |l.hits| == 0 || l.endId < c.endId then c.endId else l.endId;
    HitList(l.hits[..p] + c.entries + l.hits[p..], startId, endId,
            l.chunks[..k] + [c] + l.chunks[k..])
  }

  /** p7_hitlist_add_Chunk: find the chunk's place, reject it if its range overlaps
      a chunk already present, otherwise splice it in. A chunk without hits, from a
      region where the worker found nothing, has no range and leaves the list as it is. */
  function AddChunk(l: HitList, c: Chunk): (r: Result<HitList>)
    requires Valid(l) && WellFormed(c)
    ensures |c.entries| == 0 ==> r == Ok(l)
    ensures |c.entries| > 0 ==> (r.Ok? <==> !OverlapsAny(l.chunks, c))
    ensures r.Err? ==> r.error == OverlappingRange
    ensures r.Ok? ==> Valid(r.value)
  {
    if |c.entries| == 0 then Ok(l)
    else
      SlotDecidesOverlap(l.chunks, c);
      var k := Slot(l.chunks, c.startId);
      if k < |l.chunks| && l.chunks[k].startId <= c.endId then Err(OverlappingRange)
      else
        SpliceValid(l, c, k);
        Ok(Splice(l, c, k))
  }

  /** The same operation as an algorithm: the insertion point is searched for from
      whichever cached end of the hit list is numerically closer to the new chunk. */
  method Merge(l: HitList, c: Chunk) returns (r: Result<HitList>)
    requires Valid(l) && WellFormed(c)
    ensures r == AddChunk(l, c)
  {
    if |c.entries| == 0 {
      return Ok(l);
    }
    var cs := l.chunks;
    var s := c.startId;
    var k: nat;
    if |l.hits| > 0 && s - l.startId < l.endId - s {
      k := ScanForward(cs, s);
    } else {
      k := ScanBackward(cs, s);
    }
    if k < |cs| && cs[k].startId <= c.endId {
      r := Err(OverlappingRange);
    } else {
      r := Ok(Splice(l, c, k));
    }
  }

  /** Walk the chunks from the first, past every chunk that ends before `s`. */
  method ScanForward(cs: seq<Chunk>, s: ObjectId) returns (k: nat)
    requires ChunksWellFormed(cs) && ChunksOrdered(cs)
    ensures k == Slot(cs, s)
  {
    k := 0;
    while k < |cs| && cs[k].endId < s
      invariant k <= |cs|
      invariant forall i :: 0 <= i < k ==> cs[i].endId < s
    {
      k := k + 1;
    }
    SlotUnique(cs, s, k);
  }

  /** Walk the chunks back from the last, past every chunk that ends at or after `s`. */
  method ScanBackward(cs: seq<Chunk>, s: ObjectId) returns (k: nat)
    requires ChunksWellFormed(cs) && ChunksOrdered(cs)
    ensures k == Slot(cs, s)
  {
    k := |cs|;
    while k > 0 && s <= cs[k - 1].endId
      invariant k <= |cs|
      invariant forall j :: k <= j < |cs| ==> s <= cs[j].endId
    {
      k := k - 1;
    }
    forall i | 0 <= i < k ensures cs[i].endId < s {
      if i < k - 1 {
        assert cs[i].endId < cs[k - 1].startId;
        EntriesWithinBounds(cs[k - 1]);
      }
    }
    SlotUnique(cs, s, k);
  }

  // ---------------------------------------------------------------------------
  // Lemmas about Flatten

  lemma {:induction false} FlattenConcat(a: seq<Chunk>, b: seq<Chunk>)
    ensures Flatten(a + b) == Flatten(a) + Flatten(b)
    decreases |a|
  {
    if |a| == 0 {
      assert a + b == b;
    } else {
      assert (a + b)[1..] == a[1..] + b;
      FlattenConcat(a[1..], b);
    }
  }

  lemma {:induction false} FlattenSplit(cs: seq<Chunk>, k: nat)
    requires k <= |cs|
    ensures Flatten(cs) == Flatten(cs[..k]) + Flatten(cs[k..])
  {
    assert cs == cs[..k] + cs[k..];
    FlattenConcat(cs[..k], cs[k..]);
  }

  lemma {:induction false} FlattenSingle(c: Chunk)
    ensures Flatten([c]) == c.entries
  {
    assert [c][1..] == [];
  }

  /** The run of non-empty chunks is empty exactly when there are no chunks; otherwise
      it starts with the first chunk's first entry and ends with the last chunk's last. */
  lemma {:induction false} FlattenEnds(cs: seq<Chunk>)
    requires ChunksWellFormed(cs)
    ensures |cs| == 0 <==> |Flatten(cs)| == 0
    ensures |cs| > 0 ==>
              && Flatten(cs)[0] == cs[0].entries[0]
              && Last(Flatten(cs)) == Last(Last(cs).entries)
    decreases |cs|
  {
    if |cs| > 0 {
      var rest := cs[1..];
      FlattenEnds(rest);
      assert Flatten(cs) == cs[0].entries + Flatten(rest);
      if |rest| > 0 {
        assert Last(rest) == Last(cs);
      }
    }
  }

  /** The concatenation of well-formed, ordered chunks is sorted and lies within the
      first chunk's start ID and the last chunk's end ID. */
  lemma {:induction false} FlattenSorted(cs: seq<Chunk>)
    requires ChunksWellFormed(cs) && ChunksOrdered(cs)
    ensures Sorted(Flatten(cs))
    ensures forall i :: 0 <= i < |Flatten(cs)| ==>
              |cs| > 0 && cs[0].startId <= Flatten(cs)[i].objectId <= Last(cs).endId
    decreases |cs|
  {
    if |cs| > 0 {
      var rest := cs[1..];
      var head := cs[0].entries;
      FlattenSorted(rest);
      EntriesWithinBounds(cs[0]);
      assert Flatten(cs) == head + Flatten(rest);
      if |rest| == 0 {
        assert Flatten(cs) == head;
      } else {
        assert cs[0].endId < rest[0].startId by { assert rest[0] == cs[1]; }
        assert AllBefore(head, Flatten(rest));
        SortedConcat(head, Flatten(rest));
        assert Last(rest) == Last(cs);
        assert cs[0].startId <= cs[0].endId < Last(cs).startId <= Last(cs).endId by {
          assert cs[0].endId < cs[|cs| - 1].startId;
          EntriesWithinBounds(Last(cs));
        }
      }
    }
  }

  /** In a valid hit list the cached bounds are the first chunk's start and the last
      chunk's end. */
  lemma {:induction false} ValidEnds(l: HitList)
    requires Valid(l)
    ensures |l.hits| == 0 <==> |l.chunks| == 0
    ensures |l.chunks| > 0 ==>
              l.startId == l.chunks[0].startId && l.endId == Last(l.chunks).endId
  {
    FlattenEnds(l.chunks);
  }

  lemma {:induction false} ValidFromEnds(l: HitList)
    requires ChunksWellFormed(l.chunks) && ChunksOrdered(l.chunks)
    requires l.hits == Flatten(l.chunks)
    requires |l.chunks| > 0
    requires l.startId == l.chunks[0].startId && l.endId == Last(l.chunks).endId
    ensures Valid(l)
  {
    FlattenEnds(l.chunks);
  }

  /** Well-formed ordered chunks have pairwise disjoint ranges and a sorted global run. */
  lemma {:induction false} ValidInvariants(l: HitList)
    requires Valid(l)
    ensures Sorted(l.hits)
    ensures ChunksDisjoint(l.chunks)
  {
    FlattenSorted(l.chunks);
    forall i, j | 0 <= i < |l.chunks| && 0 <= j < |l.chunks| && i != j
      ensures !Overlap(l.chunks[i], l.chunks[j])
    {
      EntriesWithinBounds(l.chunks[i]);
      EntriesWithinBounds(l.chunks[j]);
    }
  }

  // ---------------------------------------------------------------------------
  // Finding the slot

  /** The slot is the only index before which every chunk ends below `s` and at
      which the chunk (if any) ends at or above `s`. */
  lemma {:induction false} SlotUnique(cs: seq<Chunk>, s: ObjectId, k: nat)
    requires k <= |cs|
    requires forall i :: 0 <= i < k ==> cs[i].endId < s
    requires k < |cs| ==> s <= cs[k].endId
    ensures k == Slot(cs, s)
  {
    var k' := Slot(cs, s);
    assert !(k < k') && !(k' < k);
  }

  /** At its slot, a new chunk overlaps an existing one exactly when it overlaps the
      chunk found at the slot. */
  lemma {:induction false} SlotDecidesOverlap(cs: seq<Chunk>, c: Chunk)
    requires ChunksWellFormed(cs) && ChunksOrdered(cs)
    ensures var k := Slot(cs, c.startId);
      (k < |cs| && cs[k].startId <= c.endId) <==> OverlapsAny(cs, c)
  {
    var k := Slot(cs, c.startId);
    if k < |cs| && cs[k].startId <= c.endId {
      assert Overlap(cs[k], c);
    } else {
      forall i | 0 <= i < |cs| ensures !Overlap(cs[i], c) {
        if k < i {
          assert cs[k].endId < cs[i].startId;
          EntriesWithinBounds(cs[k]);
        }
      }
    }
  }

  // ---------------------------------------------------------------------------
  // Splicing preserves the invariant

  /** Inserting `c` at position `k` keeps the elements before it and shifts the rest. */
  lemma {:induction false} InsertAt(cs: seq<Chunk>, c: Chunk, k: nat)
    requires k <= |cs|
    ensures var cs' := cs[..k] + [c] + cs[k..];
      && |cs'| == |cs| + 1
      && cs'[k] == c
      && (forall i :: 0 <= i < k ==> cs'[i] == cs[i])
      && (forall i :: k < i < |cs'| ==> cs'[i] == cs[i - 1])
  {
  }

  lemma {:induction false} InsertMultiset(cs: seq<Chunk>, c: Chunk, k: nat)
    requires k <= |cs|
    ensures multiset(cs[..k] + [c] + cs[k..]) == multiset(cs) + multiset{c}
  {
    assert cs == cs[..k] + cs[k..];
  }

  lemma {:induction false} SpliceWellFormed(cs: seq<Chunk>, c: Chunk, k: nat)
    requires ChunksWellFormed(cs) && k <= |cs|
    requires WellFormed(c) && |c.entries| > 0
    ensures ChunksWellFormed(cs[..k] + [c] + cs[k..])
  {
    var cs' := cs[..k] + [c] + cs[k..];
    InsertAt(cs, c, k);
    forall i | 0 <= i < |cs'| ensures WellFormed(cs'[i]) && |cs'[i].entries| > 0 {
      if i < k {
        assert cs'[i] == cs[i];
      } else if k < i {
        assert cs'[i] == cs[i - 1];
      }
    }
  }

  lemma {:induction false} SpliceOrdered(cs: seq<Chunk>, c: Chunk, k: nat)
    requires ChunksWellFormed(cs) && ChunksOrdered(cs)
    requires WellFormed(c) && |c.entries| > 0
    requires k == Slot(cs, c.startId)
    requires !(k < |cs| && cs[k].startId <= c.endId)
    ensures ChunksOrdered(cs[..k] + [c] + cs[k..])
  {
    var cs' := cs[..k] + [c] + cs[k..];
    InsertAt(cs, c, k);
    forall i, j | 0 <= i < j < |cs'| ensures cs'[i].endId < cs'[j].startId {
      if j < k {
        assert cs'[i] == cs[i] && cs'[j] == cs[j];
      } else if j == k {
        assert cs'[i] == cs[i];
      } else if i < k {
        assert cs'[i] == cs[i] && cs'[j] == cs[j - 1];
      } else if i == k {
        assert cs'[j] == cs[j - 1];
        if k < j - 1 {
          assert cs[k].endId < cs[j - 1].startId;
          EntriesWithinBounds(cs[k]);
        }
      } else {
        assert cs'[i] == cs[i - 1] && cs'[j] == cs[j - 1];
      }
    }
  }

  lemma {:induction false} SpliceHits(l: HitList, c: Chunk, k: nat)
    requires Valid(l) && k <= |l.chunks|
    ensures var r := Splice(l, c, k);
      && r.hits == Flatten(r.chunks)
      && |Flatten(l.chunks[..k])| <= |l.hits|
      && l.hits[..|Flatten(l.chunks[..k])|] == Flatten(l.chunks[..k])
      && l.hits[|Flatten(l.chunks[..k])|..] == Flatten(l.chunks[k..])
  {
    var a := l.chunks[..k];
    var b := l.chunks[k..];
    FlattenSplit(l.chunks, k);
    FlattenConcat(a + [c], b);
    FlattenConcat(a, [c]);
    FlattenSingle(c);
  }

  /** After the splice, the cached bounds are the first chunk's start and the last
      chunk's end. */
  lemma {:induction false} SpliceEnds(l: HitList, c: Chunk, k: nat)
    requires Valid(l) && WellFormed(c) && |c.entries| > 0
    requires k == Slot(l.chunks, c.startId)
    requires !(k < |l.chunks| && l.chunks[k].startId <= c.endId)
    ensures var r := Splice(l, c, k);
      && |r.chunks| > 0
      && r.startId == r.chunks[0].startId
      && r.endId == Last(r.chunks).endId
  {
    var cs := l.chunks;
    var r := Splice(l, c, k);
    var cs' := r.chunks;
    ValidEnds(l);
    InsertAt(cs, c, k);
    EntriesWithinBounds(c);
    if |cs| > 0 {
      EntriesWithinBounds(cs[0]);
      EntriesWithinBounds(Last(cs));
      if k > 0 {
        assert cs'[0] == cs[0];
        assert cs[0].endId < c.startId;
      }
      if k < |cs| {
        assert Last(cs') == Last(cs);
        if k < |cs| - 1 {
          assert cs[k].endId < Last(cs).startId;
          EntriesWithinBounds(cs[k]);
        }
      }
    }
  }

  lemma {:induction false} SpliceValid(l: HitList, c: Chunk, k: nat)
    requires Valid(l) && WellFormed(c) && |c.entries| > 0
    requires k == Slot(l.chunks, c.startId)
    requires !(k < |l.chunks| && l.chunks[k].startId <= c.endId)
    ensures Valid(Splice(l, c, k))
  {
    SpliceWellFormed(l.chunks, c, k);
    SpliceOrdered(l.chunks, c, k);
    SpliceHits(l, c, k);
    SpliceEnds(l, c, k);
    ValidFromEnds(Splice(l, c, k));
  }

  // ---------------------------------------------------------------------------
  // Properties of adding a chunk

  /** Adding a chunk that overlaps no chunk present succeeds and keeps the invariant:
      the chunks stay ordered with disjoint ranges and are exactly the old chunks
      plus the new one, which appears once. */
  lemma {:induction false} AddChunkPreservesValid(l: HitList, c: Chunk)
    requires Valid(l) && WellFormed(c) && |c.entries| > 0
    requires !OverlapsAny(l.chunks, c)
    ensures AddChunk(l, c).Ok?
    ensures var r := AddChunk(l, c).value;
      && Valid(r)
      && ChunksDisjoint(r.chunks)
      && multiset(r.chunks) == multiset(l.chunks) + multiset{c}
      && multiset(r.chunks)[c] == 1
  {
    var k := Slot(l.chunks, c.startId);
    var r := AddChunk(l, c).value;
    assert r.chunks == l.chunks[..k] + [c] + l.chunks[k..];
    ValidInvariants(r);
    InsertMultiset(l.chunks, c, k);
    EntriesWithinBounds(c);
    assert c !in l.chunks by {
      forall i | 0 <= i < |l.chunks| ensures l.chunks[i] != c {
        assert !Overlap(l.chunks[i], c);
      }
    }
  }

  /** Adding a non-overlapping chunk splices its hits into the global run at the one
      point where every earlier hit has a smaller ID than the chunk's start and every
      later hit a larger ID than its end. */
  lemma {:induction false} AddChunkSplicesHits(l: HitList, c: Chunk)
    requires Valid(l) && WellFormed(c) && |c.entries| > 0
    requires !OverlapsAny(l.chunks, c)
    ensures AddChunk(l, c).Ok?
    ensures var r := AddChunk(l, c).value;
      var p := SplicePoint(l, c);
      && p <= |l.hits|
      && r.hits == l.hits[..p] + c.entries + l.hits[p..]
      && (forall i :: 0 <= i < p ==> l.hits[i].objectId < c.startId)
      && (forall i :: p <= i < |l.hits| ==> c.endId < l.hits[i].objectId)
  {
    var k := Slot(l.chunks, c.startId);
    assert AddChunk(l, c).value == Splice(l, c, k);
    SplicePointSeparates(l, c);
  }

  /** After a non-overlapping chunk is added, the global run is sorted, holds exactly
      the old hits plus the chunk's, and the cached bounds are its first and last IDs. */
  lemma {:induction false} AddChunkHits(l: HitList, c: Chunk)
    requires Valid(l) && WellFormed(c) && |c.entries| > 0
    requires !OverlapsAny(l.chunks, c)
    ensures AddChunk(l, c).Ok?
    ensures var r := AddChunk(l, c).value;
      && Sorted(r.hits)
      && multiset(r.hits) == multiset(l.hits) + multiset(c.entries)
      && r.startId == r.hits[0].objectId
      && r.endId == Last(r.hits).objectId
  {
    AddChunkSplicesHits(l, c);
    var r := AddChunk(l, c).value;
    var p := SplicePoint(l, c);
    ValidInvariants(r);
    assert l.hits == l.hits[..p] + l.hits[p..];
  }

  /** Every hit of ordered chunks that all end before `s` lies below `s`. */
  lemma {:induction false} FlattenBelow(cs: seq<Chunk>, s: ObjectId)
    requires ChunksWellFormed(cs) && ChunksOrdered(cs)
    requires |cs| > 0 ==> Last(cs).endId < s
    ensures forall i :: 0 <= i < |Flatten(cs)| ==> Flatten(cs)[i].objectId < s
  {
    FlattenSorted(cs);
  }

  /** Every hit of ordered chunks that all start after `e` lies above `e`. */
  lemma {:induction false} FlattenAbove(cs: seq<Chunk>, e: ObjectId)
    requires ChunksWellFormed(cs) && ChunksOrdered(cs)
    requires |cs| > 0 ==> e < cs[0].startId
    ensures forall i :: 0 <= i < |Flatten(cs)| ==> e < Flatten(cs)[i].objectId
  {
    FlattenSorted(cs);
  }

  /** The hits before the splice point lie below the new chunk's range and the hits
      after it lie above. */
  lemma {:induction false} SplicePointSeparates(l: HitList, c: Chunk)
    requires Valid(l) && WellFormed(c) && |c.entries| > 0
    requires !OverlapsAny(l.chunks, c)
    ensures var p := SplicePoint(l, c);
      && p <= |l.hits|
      && (forall i :: 0 <= i < p ==> l.hits[i].objectId < c.startId)
      && (forall i :: p <= i < |l.hits| ==> c.endId < l.hits[i].objectId)
  {
    var cs := l.chunks;
    var k := Slot(cs, c.startId);
    var a := cs[..k];
    var b := cs[k..];
    FlattenSplit(cs, k);
    SlotDecidesOverlap(cs, c);
    FlattenBelow(a, c.startId);
    FlattenAbove(b, c.endId);
    SeparatedConcat(Flatten(a), Flatten(b), c.startId, c.endId);
  }

  /** A run whose first part lies below `s` and whose second part lies above `e`. */
  lemma {:induction false} SeparatedConcat(x: seq<Hit>, y: seq<Hit>, s: ObjectId, e: ObjectId)
    requires forall i :: 0 <= i < |x| ==> x[i].objectId < s
    requires forall i :: 0 <= i < |y| ==> e < y[i].objectId
    ensures forall i :: 0 <= i < |x| ==> (x + y)[i].objectId < s
    ensures forall i :: |x| <= i < |x + y| ==> e < (x + y)[i].objectId
  {
    forall i | |x| <= i < |x + y| ensures e < (x + y)[i].objectId {
      assert (x + y)[i] == y[i - |x|];
    }
  }

  /** A chunk that overlaps no existing chunk, nor `a`, still overlaps nothing once `a`
      has been added. */
  lemma {:induction false} NoOverlapAfterAdd(l: HitList, a: Chunk, b: Chunk)
    requires Valid(l) && WellFormed(a) && |a.entries| > 0
    requires !OverlapsAny(l.chunks, a) && !OverlapsAny(l.chunks, b) && !Overlap(a, b)
    ensures AddChunk(l, a).Ok?
    ensures !OverlapsAny(AddChunk(l, a).value.chunks, b)
  {
    var k := Slot(l.chunks, a.startId);
    var cs := AddChunk(l, a).value.chunks;
    assert cs == l.chunks[..k] + [a] + l.chunks[k..];
    InsertAt(l.chunks, a, k);
    forall i | 0 <= i < |cs| ensures !Overlap(cs[i], b) {
      if i < k {
        assert !Overlap(l.chunks[i], b);
      } else if k < i {
        assert !Overlap(l.chunks[i - 1], b);
      }
    }
  }

  /** In well-formed ordered chunks, the first chunk starts strictly before every other. */
  lemma {:induction false} FirstStartsFirst(cs: seq<Chunk>)
    requires ChunksWellFormed(cs) && ChunksOrdered(cs)
    ensures forall i :: 0 < i < |cs| ==> cs[0].startId < cs[i].startId
  {
    if |cs| > 0 {
      EntriesWithinBounds(cs[0]);
    }
  }

  /** Two non-empty sequences of well-formed ordered chunks holding the same chunks
      begin with the same chunk. */
  lemma {:induction false} SameFirst(a: seq<Chunk>, b: seq<Chunk>)
    requires ChunksWellFormed(a) && ChunksOrdered(a)
    requires ChunksWellFormed(b) && ChunksOrdered(b)
    requires multiset(a) == multiset(b) && |a| > 0
    ensures |b| > 0 && a[0] == b[0]
  {
    assert a[0] in multiset(b);
    assert b[0] in multiset(a);
    var j :| 0 <= j < |b| && b[j] == a[0];
    var i :| 0 <= i < |a| && a[i] == b[0];
    FirstStartsFirst(a);
    FirstStartsFirst(b);
    assert a[0].startId <= b[0].startId;
    assert b[0].startId <= a[0].startId;
    assert j == 0;
  }

  /** Dropping the first chunk keeps the chunk invariants and removes exactly that
      chunk from the multiset. */
  lemma {:induction false} DropFirst(cs: seq<Chunk>)
    requires ChunksWellFormed(cs) && ChunksOrdered(cs) && |cs| > 0
    ensures ChunksWellFormed(cs[1..]) && ChunksOrdered(cs[1..])
    ensures multiset(cs[1..]) == multiset(cs) - multiset{cs[0]}
  {
    assert cs == [cs[0]] + cs[1..];
  }

  /** Two sequences of well-formed ordered chunks holding the same chunks are equal. */
  lemma {:induction false} OrderedUnique(a: seq<Chunk>, b: seq<Chunk>)
    requires ChunksWellFormed(a) && ChunksOrdered(a)
    requires ChunksWellFormed(b) && ChunksOrdered(b)
    requires multiset(a) == multiset(b)
    ensures a == b
    decreases |a|
  {
    if |a| == 0 {
      assert |multiset(b)| == 0;
    } else {
      SameFirst(a, b);
      DropFirst(a);
      DropFirst(b);
      OrderedUnique(a[1..], b[1..]);
      assert a == [a[0]] + a[1..];
      assert b == [b[0]] + b[1..];
    }
  }

  /** A non-empty valid hit list is determined by the chunks it holds. */
  lemma {:induction false} SameChunksSameList(x: HitList, y: HitList)
    requires Valid(x) && Valid(y)
    requires multiset(x.chunks) == multiset(y.chunks)
    requires |x.chunks| > 0
    ensures x == y
  {
    OrderedUnique(x.chunks, y.chunks);
    ValidEnds(x);
    ValidEnds(y);
  }

  /** Adding two compatible chunks one after the other yields a valid list holding
      exactly the old chunks and the two new ones. */
  lemma {:induction false} AddTwice(l: HitList, a: Chunk, b: Chunk)
    requires Valid(l)
    requires WellFormed(a) && |a.entries| > 0 && WellFormed(b) && |b.entries| > 0
    requires !OverlapsAny(l.chunks, a) && !OverlapsAny(l.chunks, b) && !Overlap(a, b)
    ensures AddChunk(l, a).Ok?
    ensures AddChunk(AddChunk(l, a).value, b).Ok?
    ensures var r := AddChunk(AddChunk(l, a).value, b).value;
      && Valid(r)
      && |r.chunks| > 0
      && multiset(r.chunks) == multiset(l.chunks) + multiset{a, b}
  {
    NoOverlapAfterAdd(l, a, b);
    AddChunkPreservesValid(l, a);
    var la := AddChunk(l, a).value;
    AddChunkPreservesValid(la, b);
  }

  /** Merging is order-independent: two chunks that overlap neither each other nor
      anything present can be added in either order with the same final hit list. */
  lemma {:induction false} AddChunkCommutes(l: HitList, a: Chunk, b: Chunk)
    requires Valid(l)
    requires WellFormed(a) && |a.entries| > 0 && WellFormed(b) && |b.entries| > 0
    requires !OverlapsAny(l.chunks, a) && !OverlapsAny(l.chunks, b) && !Overlap(a, b)
    ensures AddChunk(l, a).Ok? && AddChunk(l, b).Ok?
    ensures AddChunk(AddChunk(l, a).value, b).Ok?
    ensures AddChunk(AddChunk(l, b).value, a).Ok?
    ensures AddChunk(AddChunk(l, a).value, b).value == AddChunk(AddChunk(l, b).value, a).value
  {
    AddTwice(l, a, b);
    AddTwice(l, b, a);
    assert multiset{a, b} == multiset{b, a};
    SameChunksSameList(AddChunk(AddChunk(l, a).value, b).value, AddChunk(AddChunk(l, b).value, a).value);
  }

  // ---------------------------------------------------------------------------
  // A sequence of merges

  /** Every chunk of a batch is well formed; some may hold no hits. */
  ghost predicate AllWellFormed(cs: seq<Chunk>) {
    forall i :: 0 <= i < |cs| ==> WellFormed(cs[i])
  }

  /** The chunks of a batch that hold at least one hit, in order. */
  function Occupied(cs: seq<Chunk>): (r: seq<Chunk>)
    ensures |r| <= |cs|
    ensures forall i :: 0 <= i < |r| ==> r[i] in cs && |r[i].entries| > 0
  {
    if |cs| == 0 then []
    else (if |cs[0].entries| > 0 then [cs[0]] else []) + Occupied(cs[1..])
  }

  /** Pairwise, the ranges of the chunks that hold hits do not overlap. */
  ghost predicate PairwiseApart(cs: seq<Chunk>) {
    forall i, j ::
      (0 <= i < |cs| && 0 <= j < |cs| && i != j && |cs[i].entries| > 0 && |cs[j].entries| > 0)
        ==> !Overlap(cs[i], cs[j])
  }

  /** No chunk of the batch that holds hits overlaps a chunk already in `l`. */
  ghost predicate ApartFrom(l: HitList, cs: seq<Chunk>) {
    forall i :: 0 <= i < |cs| && |cs[i].entries| > 0 ==> !OverlapsAny(l.chunks, cs[i])
  }

  /** The workers' chunks handed to p7_hitlist_add_Chunk one after another, stopping
      at the first rejected one. */
  function AddAll(l: HitList, cs: seq<Chunk>): (r: Result<HitList>)
    requires Valid(l) && AllWellFormed(cs)
    ensures r.Ok? ==> Valid(r.value)
    decreases |cs|
  {
    if |cs| == 0 then Ok(l)
    else
      match AddChunk(l, cs[0])
      case Err(e) => Err(e)
      case Ok(l') => AddAll(l', cs[1..])
  }

  /** One step of a batch merge: when the first chunk is accepted, the batch continues
      from the grown list with the rest. */
  lemma {:induction false} AddAllStep(l: HitList, cs: seq<Chunk>, l': HitList)
    requires Valid(l) && AllWellFormed(cs) && |cs| > 0
    requires AddChunk(l, cs[0]) == Ok(l')
    ensures Valid(l') && AllWellFormed(cs[1..])
    ensures AddAll(l, cs) == AddAll(l', cs[1..])
  {
  }

  /** Regions without hits do not matter: a batch merges exactly as its chunks that
      hold hits would on their own, both when it succeeds and when it is rejected. */
  lemma {:induction false} AddAllSkipsEmpty(l: HitList, cs: seq<Chunk>)
    requires Valid(l) && AllWellFormed(cs)
    ensures AllWellFormed(Occupied(cs))
    ensures AddAll(l, cs) == AddAll(l, Occupied(cs))
    decreases |cs|
  {
    var occ := Occupied(cs);
    forall i | 0 <= i < |occ| ensures WellFormed(occ[i]) {
      var j :| 0 <= j < |cs| && cs[j] == occ[i];
    }
    if |cs| > 0 {
      var c := cs[0];
      var rest := cs[1..];
      assert AllWellFormed(rest) by {
        forall i | 0 <= i < |rest| ensures WellFormed(rest[i]) {
          assert rest[i] == cs[i + 1];
        }
      }
      if |c.entries| == 0 {
        assert occ == Occupied(rest);
        AddAllSkipsEmpty(l, rest);
      } else {
        assert occ == [c] + Occupied(rest);
        assert occ[0] == c && occ[1..] == Occupied(rest);
        match AddChunk(l, c)
        case Err(e) =>
        case Ok(l') =>
          AddAllSkipsEmpty(l', rest);
      }
    }
  }

  /** After the first chunk of a compatible batch is added, the rest of the batch is
      still compatible with the grown list. */
  lemma {:induction false} RestStillApart(l: HitList, cs: seq<Chunk>)
    requires Valid(l) && AllWellFormed(cs) && PairwiseApart(cs) && ApartFrom(l, cs) && |cs| > 0
    ensures AddChunk(l, cs[0]).Ok?
    ensures var l' := AddChunk(l, cs[0]).value;
      AllWellFormed(cs[1..]) && PairwiseApart(cs[1..]) && ApartFrom(l', cs[1..])
  {
    var rest := cs[1..];
    var l' := AddChunk(l, cs[0]).value;
    forall i | 0 <= i < |rest| && |rest[i].entries| > 0
      ensures !OverlapsAny(l'.chunks, rest[i])
    {
      assert rest[i] == cs[i + 1];
      if |cs[0].entries| > 0 {
        NoOverlapAfterAdd(l, cs[0], rest[i]);
      }
    }
    forall i | 0 <= i < |rest| ensures WellFormed(rest[i]) {
      assert rest[i] == cs[i + 1];
    }
    forall i, j |
      0 <= i < |rest| && 0 <= j < |rest| && i != j && |rest[i].entries| > 0 && |rest[j].entries| > 0
      ensures !Overlap(rest[i], rest[j])
    {
      assert rest[i] == cs[i + 1] && rest[j] == cs[j + 1];
    }
  }

  /** What a successful addition holds: the old hits and chunks plus the new ones. */
  lemma {:induction false} AddChunkContents(l: HitList, c: Chunk)
    requires Valid(l) && WellFormed(c) && |c.entries| > 0
    requires !OverlapsAny(l.chunks, c)
    ensures AddChunk(l, c).Ok?
    ensures var r := AddChunk(l, c).value;
      && multiset(r.hits) == multiset(l.hits) + multiset(c.entries)
      && multiset(r.chunks) == multiset(l.chunks) + multiset{c}
  {
    AddChunkPreservesValid(l, c);
    AddChunkHits(l, c);
  }

  /** A batch is its first chunk followed by the rest. */
  lemma {:induction false} SplitFirst(cs: seq<Chunk>)
    requires |cs| > 0
    ensures Flatten(cs) == cs[0].entries + Flatten(cs[1..])
    ensures Occupied(cs) == (if |cs[0].entries| > 0 then [cs[0]] else []) + Occupied(cs[1..])
  {
    assert cs == [cs[0]] + cs[1..];
  }

  /** One step of a compatible batch: the first chunk is accepted, the rest stays
      compatible with the grown list, and what the grown list and the rest hold
      together is what the old list and the whole batch hold. */
  lemma {:induction false} AddAllHitsStep(l: HitList, cs: seq<Chunk>)
    requires Valid(l) && AllWellFormed(cs) && PairwiseApart(cs) && ApartFrom(l, cs) && |cs| > 0
    ensures AddChunk(l, cs[0]).Ok?
    ensures var l' := AddChunk(l, cs[0]).value;
      && AllWellFormed(cs[1..]) && PairwiseApart(cs[1..]) && ApartFrom(l', cs[1..])
      && AddAll(l, cs) == AddAll(l', cs[1..])
      && multiset(l'.hits) + multiset(Flatten(cs[1..])) == multiset(l.hits) + multiset(Flatten(cs))
      && multiset(l'.chunks) + multiset(Occupied(cs[1..]))
         == multiset(l.chunks) + multiset(Occupied(cs))
  {
    var c := cs[0];
    RestStillApart(l, cs);
    SplitFirst(cs);
    if |c.entries| == 0 {
      assert c.entries == [];
    } else {
      AddChunkContents(l, c);
    }
  }

  /** Merging chunks whose ranges overlap neither each other nor anything present
      succeeds, and the hit list then holds exactly the old hits plus all the chunks'
      hits, in ascending order, and exactly the old chunks plus the new ones that hold
      hits. */
  lemma {:induction false} AddAllHits(l: HitList, cs: seq<Chunk>)
    requires Valid(l) && AllWellFormed(cs) && PairwiseApart(cs) && ApartFrom(l, cs)
    ensures AddAll(l, cs).Ok?
    ensures var r := AddAll(l, cs).value;
      && Sorted(r.hits)
      && multiset(r.hits) == multiset(l.hits) + multiset(Flatten(cs))
      && multiset(r.chunks) == multiset(l.chunks) + multiset(Occupied(cs))
    decreases |cs|
  {
    if |cs| == 0 {
      ValidInvariants(l);
    } else {
      AddAllHitsStep(l, cs);
      AddAllHits(AddChunk(l, cs[0]).value, cs[1..]);
    }
  }
}
