/** The reporting scans over a hit list: the length of the longest name and of the
    longest accession among its hits, used to size the columns of the output. */
module Reporting {
  import opened Hits
  import opened Chunks
  import opened HitLists

  /** The string field of a hit that a scan measures. */
  datatype Field = Name | Accession

  function FieldOf(h: Hit, f: Field): string {
    match f
    case Name => h.name
    case Accession => h.accession
  }

  function Max(a: nat, b: nat): nat {
    if a < b then b else a
  }

  /** The length of the longest field among `hs`, or 0 when there are none:
      an upper bound on every hit's field length, reached by one of them. */
  function Longest(hs: seq<Hit>, f: Field): (r: nat)
    ensures forall i :: 0 <= i < |hs| ==> |FieldOf(hs[i], f)| <= r
    ensures |hs| > 0 ==> exists i :: 0 <= i < |hs| && |FieldOf(hs[i], f)| == r
    ensures |hs| == 0 ==> r == 0
  {
    if |hs| == 0 then 0
    else
      var init := hs[..|hs| - 1];
      assert forall i :: 0 <= i < |init| ==> init[i] == hs[i];
      Max(Longest(init, f), |FieldOf(Last(hs), f)|)
  }

  /** The longest field is the only length that bounds every hit's field and is
      reached by one of them. */
  lemma {:induction false} LongestUnique(hs: seq<Hit>, f: Field, m: nat)
    requires forall i :: 0 <= i < |hs| ==> |FieldOf(hs[i], f)| <= m
    requires |hs| > 0 ==> exists i :: 0 <= i < |hs| && |FieldOf(hs[i], f)| == m
    requires |hs| == 0 ==> m == 0
    ensures Longest(hs, f) == m
  {
    if |hs| > 0 {
      var i :| 0 <= i < |hs| && |FieldOf(hs[i], f)| == m;
      var j :| 0 <= j < |hs| && |FieldOf(hs[j], f)| == Longest(hs, f);
    }
  }

  /** The longest field of a concatenation is the longer of the two halves' longest. */
  lemma {:induction false} LongestConcat(a: seq<Hit>, b: seq<Hit>, f: Field)
    ensures Longest(a + b, f) == Max(Longest(a, f), Longest(b, f))
  {
    var ab := a + b;
    var m := Max(Longest(a, f), Longest(b, f));
    forall i | 0 <= i < |ab| ensures |FieldOf(ab[i], f)| <= m {
      if i < |a| {
        assert ab[i] == a[i];
      } else {
        assert ab[i] == b[i - |a|];
      }
    }
    if |b| > 0 && Longest(a, f) <= Longest(b, f) {
      var j :| 0 <= j < |b| && |FieldOf(b[j], f)| == Longest(b, f);
      assert ab[|a| + j] == b[j];
    } else if |a| > 0 {
      var i :| 0 <= i < |a| && |FieldOf(a[i], f)| == Longest(a, f);
      assert ab[i] == a[i];
    }
    LongestUnique(ab, f, m);
  }

  /** Extending a prefix by one hit takes the longer of the two. */
  lemma {:induction false} LongestExtend(hs: seq<Hit>, i: nat, f: Field)
    requires i < |hs|
    ensures Longest(hs[..i + 1], f) == Max(Longest(hs[..i], f), |FieldOf(hs[i], f)|)
  {
    assert hs[..i + 1][..i] == hs[..i];
  }

  /** The scan itself: walk the hits from the lowest ID to the highest, keeping the
      longest length seen so far. */
  method MaxFieldLength(hs: seq<Hit>, f: Field) returns (r: nat)
    ensures r == Longest(hs, f)
  {
    r := 0;
    var i := 0;
    while i < |hs|
      invariant 0 <= i <= |hs|
      invariant r == Longest(hs[..i], f)
    {
      var n := |FieldOf(hs[i], f)|;
      LongestExtend(hs, i, f);
      if r < n {
        r := n;
      }
      i := i + 1;
    }
    assert hs[..|hs|] == hs;
  }

  /** p7_hitlist_GetMaxNameLength: no hit's name is longer than the result, and some
      hit's name has exactly that length; an empty list gives 0. */
  method GetMaxNameLength(l: HitList) returns (r: nat)
    ensures forall i :: 0 <= i < |l.hits| ==> |l.hits[i].name| <= r
    ensures |l.hits| > 0 ==> exists i :: 0 <= i < |l.hits| && |l.hits[i].name| == r
    ensures |l.hits| == 0 ==> r == 0
  {
    r := MaxFieldLength(l.hits, Name);
  }

  /** p7_hitlist_GetMaxAccessionLength: the same scan over the accessions. */
  method GetMaxAccessionLength(l: HitList) returns (r: nat)
    ensures forall i :: 0 <= i < |l.hits| ==> |l.hits[i].accession| <= r
    ensures |l.hits| > 0 ==> exists i :: 0 <= i < |l.hits| && |l.hits[i].accession| == r
    ensures |l.hits| == 0 ==> r == 0
  {
    r := MaxFieldLength(l.hits, Accession);
  }

  /** Inserting `mid` anywhere into a run changes the longest field only by the
      longest field of `mid`. */
  lemma {:induction false} LongestInsert(pre: seq<Hit>, mid: seq<Hit>, post: seq<Hit>, f: Field)
    ensures Longest(pre + mid + post, f) == Max(Longest(pre + post, f), Longest(mid, f))
  {
    assert pre + mid + post == pre + (mid + post);
    LongestConcat(pre, mid + post, f);
    LongestConcat(mid, post, f);
    LongestConcat(pre, post, f);
  }

  /** After a chunk is merged in, the longest field of the hit list is the longer of
      the list's previous longest and the chunk's longest: where the chunk's hits land
      in the global run does not matter. */
  lemma {:induction false} LongestAfterAdd(l: HitList, c: Chunk, f: Field)
    requires Valid(l) && WellFormed(c) && |c.entries| > 0
    requires !OverlapsAny(l.chunks, c)
    ensures AddChunk(l, c).Ok?
    ensures Longest(AddChunk(l, c).value.hits, f) == Max(Longest(l.hits, f), Longest(c.entries, f))
  {
    AddChunkSplicesHits(l, c);
    var p := SplicePoint(l, c);
    assert l.hits == l.hits[..p] + l.hits[p..];
    LongestInsert(l.hits[..p], c.entries, l.hits[p..], f);
  }
}
