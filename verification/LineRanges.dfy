/** Lists of inclusive line ranges (scripts/prettier-check-changed.js, `overlaps`, `intersect`
    and the fold over bases in `main`). */
module LineRanges {
  import opened HunkHeaders

  predicate Contains(r: Range, line: int) {
    r.first <= line <= r.last
  }

  ghost predicate Covers(ranges: seq<Range>, line: int) {
    exists i :: 0 <= i < |ranges| && Contains(ranges[i], line)
  }

  ghost predicate NonEmpty(ranges: seq<Range>) {
    forall i :: 0 <= i < |ranges| ==> ranges[i].first <= ranges[i].last
  }

  /** Non-empty, in order and without overlap, as git prints hunks. */
  ghost predicate SortedDisjoint(ranges: seq<Range>) {
    NonEmpty(ranges) && forall i, j :: 0 <= i < j < |ranges| ==> ranges[i].last < ranges[j].first
  }

  predicate Meet(a: Range, b: Range) {
    a.first <= b.last && b.first <= a.last
  }

  predicate Overlaps(a: seq<Range>, b: seq<Range>) {
    exists i, j :: 0 <= i < |a| && 0 <= j < |b| && Meet(a[i], b[j])
  }

  lemma OverlapsIffSharedLine(a: seq<Range>, b: seq<Range>)
    requires NonEmpty(a) && NonEmpty(b)
    ensures Overlaps(a, b) <==> exists line :: Covers(a, line) && Covers(b, line)
  {
    if Overlaps(a, b) {
      var i, j :| 0 <= i < |a| && 0 <= j < |b| && Meet(a[i], b[j]);
      var line := if a[i].first < b[j].first then b[j].first else a[i].first;
      assert Contains(a[i], line) && Contains(b[j], line);
      assert Covers(a, line) && Covers(b, line);
    }
    forall line | Covers(a, line) && Covers(b, line)
      ensures Overlaps(a, b)
    {
      var i :| 0 <= i < |a| && Contains(a[i], line);
      var j :| 0 <= j < |b| && Contains(b[j], line);
      assert Meet(a[i], b[j]);
    }
  }

  // ---- intersection --------------------------------------------------------

  function Common(a: Range, b: Range): seq<Range> {
    var lo := if a.first < b.first then b.first else a.first;
    var hi := if a.last < b.last then a.last else b.last;
    if lo <= hi then [Range(lo, hi)] else []
  }

  /** What `r` shares with the first `j` ranges of `b`. */
  function Row(r: Range, b: seq<Range>, j: nat): seq<Range>
    requires j <= |b|
  {
    if j == 0 then [] else Row(r, b, j - 1) + Common(r, b[j - 1])
  }

  /** What the first `i` ranges of `a` share with `b`. */
  function Rows(a: seq<Range>, b: seq<Range>, i: nat): seq<Range>
    requires i <= |a|
  {
    if i == 0 then [] else Rows(a, b, i - 1) + Row(a[i - 1], b, |b|)
  }

  function Intersection(a: seq<Range>, b: seq<Range>): seq<Range> {
    Rows(a, b, |a|)
  }

  method Intersect(a: seq<Range>, b: seq<Range>) returns (out: seq<Range>)
    ensures out == Intersection(a, b)
  {
    hide Rows;
    hide Row;
    out := [];
    RowsStart(a, b);
    for i := 0 to |a|
      invariant out == Rows(a, b, i)
    {
      RowStarts(a, b, i);
      for j := 0 to |b|
        invariant out == Rows(a, b, i) + Row(a[i], b, j)
      {
        RowGrows(a, b, i, j);
        var lo := if a[i].first < b[j].first then b[j].first else a[i].first;
        var hi := if a[i].last < b[j].last then a[i].last else b[j].last;
        if lo <= hi {
          out := out + [Range(lo, hi)];
        }
      }
    }
  }

  lemma RowsStart(a: seq<Range>, b: seq<Range>)
    ensures Rows(a, b, 0) == []
  {
  }

  /** A row starts where the rows before it end, and ends where the next one starts. */
  lemma RowStarts(a: seq<Range>, b: seq<Range>, i: nat)
    requires i < |a|
    ensures Rows(a, b, i) + Row(a[i], b, 0) == Rows(a, b, i)
    ensures Rows(a, b, i) + Row(a[i], b, |b|) == Rows(a, b, i + 1)
  {
  }

  lemma RowGrows(a: seq<Range>, b: seq<Range>, i: nat, j: nat)
    requires i < |a| && j < |b|
    ensures Rows(a, b, i) + Row(a[i], b, j + 1) == Rows(a, b, i) + Row(a[i], b, j) + Common(a[i], b[j])
  {
  }

  lemma CoversConcat(a: seq<Range>, b: seq<Range>, line: int)
    ensures Covers(a + b, line) <==> Covers(a, line) || Covers(b, line)
  {
    if Covers(a, line) {
      var i :| 0 <= i < |a| && Contains(a[i], line);
      assert Contains((a + b)[i], line);
    }
    if Covers(b, line) {
      var i :| 0 <= i < |b| && Contains(b[i], line);
      assert Contains((a + b)[|a| + i], line);
    }
  }

  lemma {:induction false} RowCovers(r: Range, b: seq<Range>, j: nat, line: int)
    requires j <= |b|
    ensures Covers(Row(r, b, j), line) <==> Contains(r, line) && Covers(b[..j], line)
  {
    if j == 0 {
    } else {
      RowCovers(r, b, j - 1, line);
      CoversConcat(Row(r, b, j - 1), Common(r, b[j - 1]), line);
      assert b[..j] == b[..j - 1] + [b[j - 1]];
      CoversConcat(b[..j - 1], [b[j - 1]], line);
      assert Covers(Common(r, b[j - 1]), line) <==> Contains(r, line) && Contains(b[j - 1], line) by {
        if Contains(r, line) && Contains(b[j - 1], line) {
          assert Contains(Common(r, b[j - 1])[0], line);
        }
      }
      assert Covers([b[j - 1]], line) <==> Contains(b[j - 1], line) by {
        assert [b[j - 1]][0] == b[j - 1];
      }
    }
  }

  lemma {:induction false} RowsCover(a: seq<Range>, b: seq<Range>, i: nat, line: int)
    requires i <= |a|
    ensures Covers(Rows(a, b, i), line) <==> Covers(a[..i], line) && Covers(b, line)
  {
    if i == 0 {
    } else {
      RowsCover(a, b, i - 1, line);
      CoversConcat(Rows(a, b, i - 1), Row(a[i - 1], b, |b|), line);
      RowCovers(a[i - 1], b, |b|, line);
      assert b[..|b|] == b;
      assert a[..i] == a[..i - 1] + [a[i - 1]];
      CoversConcat(a[..i - 1], [a[i - 1]], line);
      assert Covers([a[i - 1]], line) <==> Contains(a[i - 1], line) by {
        assert [a[i - 1]][0] == a[i - 1];
      }
    }
  }

  /** The intersection covers exactly the lines both lists cover. */
  lemma IntersectionCovers(a: seq<Range>, b: seq<Range>, line: int)
    ensures Covers(Intersection(a, b), line) <==> Covers(a, line) && Covers(b, line)
  {
    RowsCover(a, b, |a|, line);
    assert a[..|a|] == a;
  }

  /** A sorted list can be extended by a sorted list that starts behind its end. */
  lemma SortedConcat(a: seq<Range>, b: seq<Range>, bound: int)
    requires SortedDisjoint(a) && SortedDisjoint(b)
    requires forall i :: 0 <= i < |a| ==> a[i].last <= bound
    requires forall i :: 0 <= i < |b| ==> bound < b[i].first
    ensures SortedDisjoint(a + b)
  {
  }

  /** A row stays inside its range and behind the part of `b` it has not seen. */
  lemma {:induction false} RowWithin(r: Range, b: seq<Range>, j: nat)
    requires j <= |b| && SortedDisjoint(b)
    ensures forall i :: 0 <= i < |Row(r, b, j)| ==> r.first <= Row(r, b, j)[i].first && Row(r, b, j)[i].last <= r.last
    ensures forall i :: 0 <= i < |Row(r, b, j)| ==> j > 0 && Row(r, b, j)[i].last <= b[j - 1].last
  {
    if j == 0 {
    } else {
      RowWithin(r, b, j - 1);
    }
  }

  lemma {:induction false} RowSorted(r: Range, b: seq<Range>, j: nat)
    requires j <= |b| && SortedDisjoint(b)
    ensures SortedDisjoint(Row(r, b, j))
  {
    if j == 0 {
    } else {
      RowSorted(r, b, j - 1);
      RowWithin(r, b, j - 1);
      if j > 1 {
        SortedConcat(Row(r, b, j - 1), Common(r, b[j - 1]), b[j - 2].last);
      }
    }
  }

  lemma {:induction false} RowsSorted(a: seq<Range>, b: seq<Range>, i: nat)
    requires i <= |a| && SortedDisjoint(a) && SortedDisjoint(b)
    ensures SortedDisjoint(Rows(a, b, i))
    ensures forall k :: 0 <= k < |Rows(a, b, i)| ==> i > 0 && Rows(a, b, i)[k].last <= a[i - 1].last
  {
    if i == 0 {
    } else {
      RowsSorted(a, b, i - 1);
      RowSorted(a[i - 1], b, |b|);
      RowWithin(a[i - 1], b, |b|);
      if i > 1 {
        SortedConcat(Rows(a, b, i - 1), Row(a[i - 1], b, |b|), a[i - 2].last);
      }
    }
  }

  /** Nothing from range `i` of `a` on meets anything before range `q` of `b`. */
  ghost predicate Past(a: seq<Range>, b: seq<Range>, i: nat, q: nat) {
    forall p, r :: i <= p < |a| && 0 <= r < q && r < |b| ==> !Meet(a[p], b[r])
  }

  /** A row has at most one piece per range of `b` from `q` on, and reports the last one it met. */
  lemma {:induction false} RowBound(r: Range, b: seq<Range>, q: nat, j: nat) returns (last: nat)
    requires j <= |b|
    requires forall k :: 0 <= k < q && k < |b| ==> !Meet(r, b[k])
    ensures |Row(r, b, j)| <= if j < q then 0 else j - q
    ensures q <= last && |Row(r, b, j)| <= last - q + 1
    ensures last == q || (last < j && Meet(r, b[last]))
  {
    last := q;
    if j == 0 {
    } else {
      var before := RowBound(r, b, q, j - 1);
      last := if Meet(r, b[j - 1]) then j - 1 else before;
    }
  }

  /** Walking both lists in step: each piece advances one of the two positions. */
  lemma {:induction false} RowsBound(a: seq<Range>, b: seq<Range>, i: nat) returns (q: nat)
    requires i <= |a| && b != [] && SortedDisjoint(a) && SortedDisjoint(b)
    ensures |Rows(a, b, i)| <= i + q && q < |b| && Past(a, b, i, q)
  {
    q := 0;
    if i == 0 {
    } else {
      var before := RowsBound(a, b, i - 1);
      q := RowBound(a[i - 1], b, before, |b|);
      forall p, r | i <= p < |a| && 0 <= r < q && r < |b|
        ensures !Meet(a[p], b[r])
      {
        if q > before {
          assert a[i - 1].last < a[p].first && b[r].last < b[q].first;
        }
      }
    }
  }

  /** Intersecting keeps lists sorted and disjoint, with fewer ranges than the two had together. */
  lemma IntersectionSorted(a: seq<Range>, b: seq<Range>)
    requires SortedDisjoint(a) && SortedDisjoint(b)
    ensures SortedDisjoint(Intersection(a, b))
    ensures a != [] || b != [] ==> |Intersection(a, b)| <= |a| + |b| - 1
  {
    RowsSorted(a, b, |a|);
    if b != [] {
      var q := RowsBound(a, b, |a|);
    } else {
      NothingInCommon(a, |a|);
    }
  }

  lemma {:induction false} NothingInCommon(a: seq<Range>, i: nat)
    requires i <= |a|
    ensures Rows(a, [], i) == []
  {
    if i == 0 {
    } else {
      NothingInCommon(a, i - 1);
    }
  }

  /** A range is only kept when it has a line. */
  lemma {:induction false} RowsAreNonEmpty(a: seq<Range>, b: seq<Range>, i: nat)
    requires i <= |a|
    ensures NonEmpty(Rows(a, b, i))
  {
    if i == 0 {
    } else {
      RowsAreNonEmpty(a, b, i - 1);
      RowIsNonEmpty(a[i - 1], b, |b|);
    }
  }

  lemma {:induction false} RowIsNonEmpty(r: Range, b: seq<Range>, j: nat)
    requires j <= |b|
    ensures NonEmpty(Row(r, b, j))
  {
    if j == 0 {
    } else {
      RowIsNonEmpty(r, b, j - 1);
    }
  }

  /** Line `line` is one of those this hunk has on this side. */
  predicate Has(h: Hunk, side: Side, line: int) {
    match side
    case Old => h.os <= line < h.os + h.oc
    case New => h.ns <= line < h.ns + h.nc
  }

  /** The ranges of a list of hunks cover exactly the lines its hunks have on that side. */
  lemma {:induction false} RangesCover(hunks: seq<Hunk>, side: Side, line: int)
    ensures Covers(RangesOf(hunks, side), line) <==> exists h :: h in hunks && Has(h, side, line)
  {
    if hunks == [] {
    } else {
      RangesCover(hunks[1..], side, line);
      CoversConcat(RangeOf(hunks[0], side), RangesOf(hunks[1..], side), line);
      OwnRangeCovers(hunks[0], side, line);
      hide RangeOf;
      hide Has;
      assert hunks == [hunks[0]] + hunks[1..];
    }
  }

  lemma OwnRangeCovers(h: Hunk, side: Side, line: int)
    ensures Covers(RangeOf(h, side), line) <==> Has(h, side, line)
  {
    if Has(h, side, line) {
      assert Contains(RangeOf(h, side)[0], line);
    }
  }

  // ---- the fold over bases ---------------------------------------------------

  ghost predicate AllSorted(bases: seq<seq<Range>>) {
    forall k :: 0 <= k < |bases| ==> SortedDisjoint(bases[k])
  }

  ghost predicate AllNonEmpty(bases: seq<seq<Range>>) {
    forall k :: 0 <= k < |bases| ==> NonEmpty(bases[k])
  }

  ghost predicate InEveryBase(bases: seq<seq<Range>>, line: int) {
    forall k :: 0 <= k < |bases| ==> Covers(bases[k], line)
  }

  /** The first base's ranges, narrowed by every further base. */
  function WrittenIn(bases: seq<seq<Range>>): seq<Range>
    requires bases != []
  {
    if |bases| == 1 then bases[0] else Intersection(WrittenIn(bases[..|bases| - 1]), bases[|bases| - 1])
  }

  /** Main result: the lines a change wrote are those in every base's ranges; they stay sorted
      and disjoint where the bases are, and non-empty in any case. */
  lemma {:induction false} WrittenCovers(bases: seq<seq<Range>>)
    requires bases != []
    ensures forall line :: Covers(WrittenIn(bases), line) <==> InEveryBase(bases, line)
    ensures AllSorted(bases) ==> SortedDisjoint(WrittenIn(bases))
    ensures AllNonEmpty(bases) ==> NonEmpty(WrittenIn(bases))
  {
    hide Covers;
    hide SortedDisjoint;
    hide NonEmpty;
    hide Intersection;
    if |bases| == 1 {
    } else {
      var front, last := bases[..|bases| - 1], bases[|bases| - 1];
      WrittenCovers(front);
      forall line
        ensures Covers(WrittenIn(bases), line) <==> InEveryBase(bases, line)
      {
        IntersectionCovers(WrittenIn(front), last, line);
        assert InEveryBase(bases, line) <==> InEveryBase(front, line) && Covers(last, line);
      }
      if AllSorted(bases) {
        IntersectionSorted(WrittenIn(front), last);
      }
      IntersectionIsNonEmpty(WrittenIn(front), last);
    }
  }

  lemma IntersectionIsNonEmpty(a: seq<Range>, b: seq<Range>)
    ensures NonEmpty(Intersection(a, b))
  {
    RowsAreNonEmpty(a, b, |a|);
  }
}
