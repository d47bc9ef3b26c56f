/** _merge_ranges of keyword_rules.py and keyword_highlight.py: the canonical form of a set of positions. */
module Ranges {

  /** The half-open range lo..hi; empty when lo >= hi. */
  datatype Range = Range(lo: int, hi: int) {
    predicate Has(p: int) {
      lo <= p < hi
    }
  }

  ghost predicate Covers(ranges: seq<Range>, p: int) {
    exists k :: 0 <= k < |ranges| && ranges[k].Has(p)
  }

  ghost predicate SameCover(a: seq<Range>, b: seq<Range>) {
    forall p :: Covers(a, p) <==> Covers(b, p)
  }

  /** Sorted, non-empty, and strictly separated: neighbours neither overlap nor touch. */
  ghost predicate Canonical(ranges: seq<Range>) {
    && (forall k :: 0 <= k < |ranges| ==> ranges[k].lo < ranges[k].hi)
    && (forall i, j :: 0 <= i < j < |ranges| ==> ranges[i].hi < ranges[j].lo)
  }

  ghost predicate Within(ranges: seq<Range>, n: nat) {
    forall k :: 0 <= k < |ranges| ==> 0 <= ranges[k].lo <= ranges[k].hi <= n
  }

  lemma CoveredWithin(ranges: seq<Range>, n: nat)
    requires Within(ranges, n)
    ensures forall p :: Covers(ranges, p) ==> 0 <= p < n
  {
  }

  /** A canonical list of positions below n stays within n. */
  lemma CanonicalWithin(ranges: seq<Range>, n: nat)
    requires Canonical(ranges)
    requires forall p :: Covers(ranges, p) ==> 0 <= p < n
    ensures Within(ranges, n)
  {
    forall k | 0 <= k < |ranges| ensures 0 <= ranges[k].lo <= ranges[k].hi <= n {
      assert ranges[k].Has(ranges[k].lo) && ranges[k].Has(ranges[k].hi - 1);
      assert Covers(ranges, ranges[k].lo) && Covers(ranges, ranges[k].hi - 1);
    }
  }

  /** The tuple order of Python. */
  predicate Before(a: Range, b: Range) {
    a.lo < b.lo || (a.lo == b.lo && a.hi <= b.hi)
  }

  ghost predicate Ordered(ranges: seq<Range>) {
    forall i, j :: 0 <= i < j < |ranges| ==> Before(ranges[i], ranges[j])
  }

  function Insert(r: Range, sorted: seq<Range>): (s: seq<Range>)
    ensures forall x :: x in s <==> x == r || x in sorted
    ensures Ordered(sorted) ==> Ordered(s)
  {
    if sorted == [] then [r]
    else if Before(r, sorted[0]) then [r] + sorted
    else
      var rest := Insert(r, sorted[1..]);
      assert Ordered(sorted) ==> forall k :: 0 <= k < |rest| ==> rest[k] in rest && Before(sorted[0], rest[k]);
      [sorted[0]] + rest
  }

  /** sorted(ranges) */
  function Sort(ranges: seq<Range>): (s: seq<Range>)
    ensures forall x :: x in s <==> x in ranges
    ensures Ordered(s)
  {
    if ranges == [] then [] else Insert(ranges[0], Sort(ranges[1..]))
  }

  lemma SortKeepsCover(ranges: seq<Range>)
    ensures SameCover(Sort(ranges), ranges)
  {
    var s := Sort(ranges);
    forall p ensures Covers(s, p) <==> Covers(ranges, p) {
      if Covers(s, p) {
        var k :| 0 <= k < |s| && s[k].Has(p);
        assert s[k] in ranges;
      }
      if Covers(ranges, p) {
        var k :| 0 <= k < |ranges| && ranges[k].Has(p);
        assert ranges[k] in s;
      }
    }
  }

  lemma CoversAppend(ranges: seq<Range>, r: Range, p: int)
    ensures Covers(ranges + [r], p) <==> Covers(ranges, p) || r.Has(p)
  {
    var all := ranges + [r];
    if Covers(ranges, p) {
      var k :| 0 <= k < |ranges| && ranges[k].Has(p);
      assert all[k].Has(p);
    }
    if r.Has(p) {
      assert all[|ranges|].Has(p);
    }
  }

  /** Merges overlapping or touching ranges into the canonical form of the same positions. */
  method MergeRanges(ranges: seq<Range>) returns (merged: seq<Range>)
    ensures Canonical(merged)
    ensures SameCover(merged, ranges)
  {
    var sorted := Sort(ranges);
    merged := [];
    for i := 0 to |sorted|
      invariant Canonical(merged)
      invariant merged != [] ==> i > 0 && merged[|merged| - 1].lo <= sorted[i - 1].lo
      invariant SameCover(merged, sorted[..i])
    {
      var r := sorted[i];
      assert sorted[..i + 1] == sorted[..i] + [r];
      assert i > 0 ==> Before(sorted[i - 1], r);
      forall p ensures Covers(sorted[..i + 1], p) <==> Covers(merged, p) || r.Has(p) {
        CoversAppend(sorted[..i], r, p);
      }
      if r.lo >= r.hi {
        continue;
      }
      if merged == [] || r.lo > merged[|merged| - 1].hi {
        forall p ensures Covers(merged + [r], p) <==> Covers(merged, p) || r.Has(p) {
          CoversAppend(merged, r, p);
        }
        merged := merged + [r];
        continue;
      }
      var previous := merged[|merged| - 1];
      var front := merged[..|merged| - 1];
      var grown := Range(previous.lo, if previous.hi > r.hi then previous.hi else r.hi);
      assert merged == front + [previous];
      forall p ensures Covers(front + [grown], p) <==> Covers(merged, p) || r.Has(p) {
        CoversAppend(front, previous, p);
        CoversAppend(front, grown, p);
      }
      merged := front + [grown];
    }
    assert sorted[..|sorted|] == sorted;
    SortKeepsCover(ranges);
  }

  /** The first range of a canonical list starts no later than any covered position. */
  lemma FirstStart(a: seq<Range>, b: seq<Range>)
    requires Canonical(a) && Canonical(b) && SameCover(a, b) && a != []
    ensures b != [] && b[0].lo <= a[0].lo
  {
    assert a[0].Has(a[0].lo);
    assert Covers(a, a[0].lo);
    assert Covers(b, a[0].lo);
  }

  /** Its end is the first gap. */
  lemma FirstEnd(a: seq<Range>, b: seq<Range>)
    requires Canonical(a) && Canonical(b) && SameCover(a, b) && a != [] && b != [] && a[0].lo == b[0].lo
    ensures b[0].hi <= a[0].hi
  {
    assert !Covers(a, a[0].hi);
    assert !Covers(b, a[0].hi);
    assert !b[0].Has(a[0].hi);
  }

  /** Main result: the canonical form is unique, so equal covers merge to equal lists, in whatever order and
      with whatever overlaps the ranges come, and merging a merged list changes nothing. */
  lemma {:induction false} CanonicalIsUnique(a: seq<Range>, b: seq<Range>)
    requires Canonical(a) && Canonical(b) && SameCover(a, b)
    ensures a == b
  {
    if a == [] {
      if b != [] {
        FirstStart(b, a);
      }
    } else {
      FirstStart(a, b);
      FirstStart(b, a);
      FirstEnd(a, b);
      FirstEnd(b, a);
      forall p ensures Covers(a[1..], p) <==> Covers(b[1..], p) {
        CoversTail(a, p);
        CoversTail(b, p);
      }
      CanonicalTail(a);
      CanonicalTail(b);
      CanonicalIsUnique(a[1..], b[1..]);
      assert a == [a[0]] + a[1..] && b == [b[0]] + b[1..];
    }
  }

  lemma CanonicalTail(a: seq<Range>)
    requires Canonical(a) && a != []
    ensures Canonical(a[1..])
  {
    var rest := a[1..];
    assert forall k :: 0 <= k < |rest| ==> rest[k] == a[k + 1];
  }

  lemma CoversTail(a: seq<Range>, p: int)
    requires Canonical(a) && a != []
    ensures Covers(a[1..], p) <==> Covers(a, p) && !a[0].Has(p)
  {
    if Covers(a[1..], p) {
      var k :| 0 <= k < |a[1..]| && a[1..][k].Has(p);
      assert a[k + 1].Has(p);
    }
    if Covers(a, p) && !a[0].Has(p) {
      var k :| 0 <= k < |a| && a[k].Has(p);
      assert a[1..][k - 1].Has(p);
    }
  }
}
