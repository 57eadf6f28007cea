/** Hits and the ascending object-ID order that every structure of the hit list keeps.

    The hit record itself (P7_HIT) belongs to the search pipeline; here it is abstract:
    an unsigned 64-bit object ID, which is the sort key, and the name and accession
    strings that the reporting scans measure. A hit-list entry is a hit plus its
    prev/next links; the links are replaced by positions in a sequence, so an entry
    is represented by the hit it wraps. */
module Hits {

  /** The object IDs are `uint64_t` values. */
  const ObjectIdLimit: int := 0x1_0000_0000_0000_0000

  type ObjectId = x: int | 0 <= x < ObjectIdLimit

  datatype Hit = Hit(objectId: ObjectId, name: string, accession: string)

  function Last<T>(s: seq<T>): T
    requires |s| > 0
  {
    s[|s| - 1]
  }

  /** Entries appear in non-decreasing order of object ID. */
  ghost predicate Sorted(hs: seq<Hit>) {
    forall i, j :: 0 <= i < j < |hs| ==> hs[i].objectId <= hs[j].objectId
  }

  /** Every hit of `a` comes no later, by object ID, than every hit of `b`. */
  ghost predicate AllBefore(a: seq<Hit>, b: seq<Hit>) {
    forall i, j :: 0 <= i < |a| && 0 <= j < |b| ==> a[i].objectId <= b[j].objectId
  }

  /** A concatenation is sorted exactly when both halves are and the first precedes the second. */
  lemma {:induction false} SortedConcat(a: seq<Hit>, b: seq<Hit>)
    ensures Sorted(a + b) <==> Sorted(a) && Sorted(b) && AllBefore(a, b)
  {
    if Sorted(a + b) {
      forall i, j | 0 <= i < j < |a| ensures a[i].objectId <= a[j].objectId {
        assert a[i] == (a + b)[i] && a[j] == (a + b)[j];
      }
      forall i, j | 0 <= i < j < |b| ensures b[i].objectId <= b[j].objectId {
        assert b[i] == (a + b)[|a| + i] && b[j] == (a + b)[|a| + j];
      }
      forall i, j | 0 <= i < |a| && 0 <= j < |b| ensures a[i].objectId <= b[j].objectId {
        assert a[i] == (a + b)[i] && b[j] == (a + b)[|a| + j];
      }
    }
  }

  /** The object IDs of a run of hits, in order. */
  function Ids(hs: seq<Hit>): (r: seq<ObjectId>)
    ensures |r| == |hs|
    ensures forall i :: 0 <= i < |hs| ==> r[i] == hs[i].objectId
  {
    if |hs| == 0 then [] else [hs[0].objectId] + Ids(hs[1..])
  }
}
