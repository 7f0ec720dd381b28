/** One file, start to finish (scripts/prettier-check-changed.js, the body of the loop over files
    in `main`): read the diffs, find the lines the change wrote, report or rewrite. */
module ChangedFile {
  import opened Wrappers
  import opened Text
  import opened HunkHeaders
  import opened LineRanges
  import opened ChangedLines

  /** What the change wrote relative to one base: a file that is not there, or whose diff
      cannot be had, counts as written in full. */
  function BaseRanges(source: string, diff: Option<string>): seq<Range> {
    if diff.Some? then RangesOf(HunksOf(diff.value), New) else [Range(1, |Split(source, {'\n'})|)]
  }

  function AllBaseRanges(source: string, diffs: seq<Option<string>>): seq<seq<Range>> {
    seq(|diffs|, k requires 0 <= k < |diffs| => BaseRanges(source, diffs[k]))
  }

  /** Every base counts this line as written. */
  ghost predicate WrittenAgainstAll(source: string, diffs: seq<Option<string>>, line: int) {
    forall k :: 0 <= k < |diffs| ==> Covers(BaseRanges(source, diffs[k]), line)
  }

  /** The lines this change wrote; None while no base has been looked at. */
  method WrittenLines(source: string, diffs: seq<Option<string>>) returns (written: Option<seq<Range>>)
    ensures written == if diffs == [] then None else Some(WrittenIn(AllBaseRanges(source, diffs)))
    ensures written.Some? ==> NonEmpty(written.value)
    ensures written.Some? ==> forall line :: Covers(written.value, line) <==> WrittenAgainstAll(source, diffs, line)
    ensures written.Some? && AllSorted(AllBaseRanges(source, diffs)) ==> SortedDisjoint(written.value)
  {
    hide BaseRanges;
    hide Intersection;
    hide Covers;
    hide NonEmpty;
    hide WrittenAgainstAll;
    written := None;
    for n := 0 to |diffs|
      invariant written == if n == 0 then None else Some(WrittenIn(AllBaseRanges(source, diffs[..n])))
    {
      var ranges := RangesAgainst(source, diffs[n]);
      AllBaseRangesStep(source, diffs, n);
      if written.None? {
        written := Some(ranges);
      } else {
        var narrowed := Intersect(written.value, ranges);
        written := Some(narrowed);
      }
    }
    assert diffs[..|diffs|] == diffs;
    if diffs != [] {
      WrittenIsInEveryBase(source, diffs);
    }
  }

  lemma WrittenIsInEveryBase(source: string, diffs: seq<Option<string>>)
    requires diffs != []
    ensures var written := WrittenIn(AllBaseRanges(source, diffs));
            && NonEmpty(written)
            && (AllSorted(AllBaseRanges(source, diffs)) ==> SortedDisjoint(written))
            && forall line :: Covers(written, line) <==> WrittenAgainstAll(source, diffs, line)
  {
    hide BaseRanges;
    hide Covers;
    hide NonEmpty;
    hide WrittenIn;
    var bases := AllBaseRanges(source, diffs);
    WrittenCovers(bases);
    BaseRangesAreNonEmpty(source, diffs);
    forall line
      ensures InEveryBase(bases, line) <==> WrittenAgainstAll(source, diffs, line)
    {
      assert forall k :: 0 <= k < |diffs| ==> bases[k] == BaseRanges(source, diffs[k]);
    }
  }

  method RangesAgainst(source: string, diff: Option<string>) returns (ranges: seq<Range>)
    ensures ranges == BaseRanges(source, diff)
  {
    if diff.Some? {
      ranges := HunkRanges(diff.value, New);
    } else {
      ranges := [Range(1, |Split(source, {'\n'})|)];
    }
  }

  lemma AllBaseRangesStep(source: string, diffs: seq<Option<string>>, n: nat)
    requires n < |diffs|
    ensures AllBaseRanges(source, diffs[..n + 1]) == AllBaseRanges(source, diffs[..n]) + [BaseRanges(source, diffs[n])]
  {
    hide BaseRanges;
  }

  lemma BaseRangesAreNonEmpty(source: string, diffs: seq<Option<string>>)
    ensures AllNonEmpty(AllBaseRanges(source, diffs))
  {
    hide RangesOf;
    hide HunksOf;
    forall k | 0 <= k < |diffs|
      ensures NonEmpty(BaseRanges(source, diffs[k]))
    {
      if diffs[k].Some? {
        RangesAreNonEmpty(HunksOf(diffs[k].value), New);
      }
    }
  }

  datatype Outcome = Passed | Fixed(text: string) | Reported(hits: seq<Range>)

  /** `fdiff` is the diff from the file to its formatted text. */
  method Process(source: string, formatted: string, diffs: seq<Option<string>>, fdiff: string, fix: bool)
    returns (outcome: Outcome)
    ensures outcome == Processed(source, formatted, diffs, fdiff, fix)
  {
    hide RangesOf;
    hide HunksOf;
    hide WrittenIn;
    hide FixedText;
    NoHitsOnNothing(RangesOf(HunksOf(fdiff), Old));
    if formatted == source {
      return Passed;
    }
    var written := WrittenLines(source, diffs);
    if written.None? || written.value == [] {
      return Passed;
    }
    var hits := Check(fdiff, written.value);
    if hits == [] {
      return Passed;
    }
    if fix {
      var fixed := Fix(source, formatted, fdiff, written.value);
      return Fixed(fixed);
    }
    return Reported(hits);
  }

  function Processed(source: string, formatted: string, diffs: seq<Option<string>>, fdiff: string, fix: bool): Outcome {
    if formatted == source || diffs == [] then Passed
    else
      var written := WrittenIn(AllBaseRanges(source, diffs));
      var hits := Hits(RangesOf(HunksOf(fdiff), Old), written);
      if hits == [] then Passed
      else if fix then Fixed(FixedText(source, formatted, HunksOf(fdiff), written))
      else Reported(hits)
  }

  lemma {:induction false} NoHitsOnNothing(wanted: seq<Range>)
    ensures Hits(wanted, []) == []
  {
    if wanted == [] {
    } else {
      NoHitsOnNothing(wanted[1..]);
    }
  }

  // ---- the file as a whole -----------------------------------------------------------

  /** A well-formed printed diff without stray headers. */
  ghost predicate CleanDiff(lines: seq<DiffLine>) {
    lines != [] && AllPlain(lines) && forall i :: 0 <= i < |lines| ==> lines[i].Valid()
  }

  /** The formatter's hunks that replace a line the change wrote. */
  function Kept(source: string, diffs: seq<Option<string>>, lines: seq<DiffLine>): seq<Hunk>
    requires diffs != []
  {
    Keep(HeaderHunks(lines), WrittenIn(AllBaseRanges(source, diffs)))
  }

  /** Main result: a hunk of the printed diff is kept if and only if some line it replaces is
      written relative to every base. Check mode reports the kept hunks, fix mode rewrites
      them, and both pass the file when there are none. */
  lemma RewrittenIffInEveryBase(source: string, formatted: string, diffs: seq<Option<string>>, lines: seq<DiffLine>,
                                h: Hunk)
    requires CleanDiff(lines) && diffs != [] && formatted != source
    ensures h in Kept(source, diffs, lines) <==>
            && h in HeaderHunks(lines)
            && exists line :: h.os <= line < h.os + h.oc && WrittenAgainstAll(source, diffs, line)
    ensures var kept := Kept(source, diffs, lines);
            && Processed(source, formatted, diffs, Printed(lines), false)
               == (if kept == [] then Passed else Reported(RangesOf(kept, Old)))
            && Processed(source, formatted, diffs, Printed(lines), true)
               == (if kept == [] then Passed
                   else Fixed(JoinLines(FixedLines(Split(source, {'\n'}), Split(formatted, {'\n'}), kept))))
  {
    hide HunksOf;
    hide WrittenAgainstAll;
    hide WrittenIn;
    hide Covers;
    hide NonEmpty;
    hide IsKept;
    hide Keep;
    hide FixedLines;
    hide Split;
    hide Hits;
    hide RangesOf;
    var written := WrittenIn(AllBaseRanges(source, diffs));
    HunksUndoPrinting(lines);
    WrittenIsInEveryBase(source, diffs);
    KeepFilters(HeaderHunks(lines), written, h);
    KeptIffWritten(h, written);
    CheckReportsWhatFixRewrites(HeaderHunks(lines), written);
    KeptRangesRemain(HeaderHunks(lines), written);
  }

  lemma {:induction false} KeepFilters(hunks: seq<Hunk>, written: seq<Range>, h: Hunk)
    ensures h in Keep(hunks, written) <==> h in hunks && IsKept(h, written)
  {
    hide IsKept;
    if hunks == [] {
    } else {
      KeepFilters(hunks[1..], written, h);
    }
  }

  /** A kept hunk replaces something, so its range is reported. */
  lemma {:induction false} KeptRangesRemain(hunks: seq<Hunk>, written: seq<Range>)
    ensures Keep(hunks, written) == [] <==> RangesOf(Keep(hunks, written), Old) == []
  {
    hide Overlaps;
    if hunks == [] {
    } else {
      KeptRangesRemain(hunks[1..], written);
      KeepStep(hunks, written);
      assert IsKept(hunks[0], written) ==> RangeOf(hunks[0], Old) != [];
    }
  }

  /** Main result: relative to a base that has the file, the written lines are those the diff
      adds, on its new side; relative to one that has not, they are all of the file's. */
  lemma WrittenAgainstIs(source: string, lines: seq<DiffLine>, line: int)
    requires CleanDiff(lines)
    ensures Covers(BaseRanges(source, Some(Printed(lines))), line) <==>
            exists h :: h in HeaderHunks(lines) && h.ns <= line < h.ns + h.nc
    ensures Covers(BaseRanges(source, None), line) <==> 1 <= line <= |Split(source, {'\n'})|
  {
    hide HunksOf;
    hide Split;
    HunksUndoPrinting(lines);
    RangesCover(HeaderHunks(lines), New, line);
    assert forall h: Hunk :: Has(h, New, line) <==> h.ns <= line < h.ns + h.nc;
    var all := BaseRanges(source, None);
    assert all[0] == Range(1, |Split(source, {'\n'})|);
  }

  /** What check mode reports of a kept hunk are the lines it replaces. */
  lemma {:induction false} ReportedAre(hunks: seq<Hunk>, written: seq<Range>, i: nat)
    requires i < |Keep(hunks, written)|
    ensures |RangesOf(Keep(hunks, written), Old)| == |Keep(hunks, written)|
    ensures var h := Keep(hunks, written)[i];
            RangesOf(Keep(hunks, written), Old)[i] == Range(h.os, h.os + h.oc - 1)
  {
    hide Overlaps;
    KeepFiltersAll(hunks, written);
    RangePerHunk(Keep(hunks, written), i);
  }

  lemma {:induction false} KeepFiltersAll(hunks: seq<Hunk>, written: seq<Range>)
    ensures forall h :: h in Keep(hunks, written) ==> h.oc > 0
  {
    hide Overlaps;
    if hunks == [] {
    } else {
      KeepFiltersAll(hunks[1..], written);
    }
  }

  lemma {:induction false} RangePerHunk(hunks: seq<Hunk>, i: nat)
    requires i < |hunks| && forall h :: h in hunks ==> h.oc > 0
    ensures |RangesOf(hunks, Old)| == |hunks|
    ensures RangesOf(hunks, Old)[i] == Range(hunks[i].os, hunks[i].os + hunks[i].oc - 1)
  {
    assert hunks[0] in hunks;
    if |hunks| == 1 {
      assert hunks[1..] == [];
    } else {
      RangePerHunk(hunks[1..], if i == 0 then 0 else i - 1);
    }
  }

  // ---- a file that is written in full --------------------------------------------------

  /** Where all lines are written, everything the formatter replaces is. */
  lemma {:induction false} AllLinesWritten<T>(src: seq<T>, dst: seq<T>, hunks: seq<Hunk>, written: seq<Range>,
                                              p: int, q: int)
    requires Describes(src, dst, hunks, p, q) && NonEmpty(written)
    requires forall line :: 1 <= line <= |src| ==> Covers(written, line)
    ensures AllReplacementsWritten(hunks, written)
    decreases |hunks|
  {
    hide IsKept;
    hide Covers;
    hide NonEmpty;
    if hunks == [] {
    } else {
      KeptIffWritten(hunks[0], written);
      if hunks[0].oc > 0 {
        assert Covers(written, hunks[0].os);
      }
      AllLinesWritten(src, dst, hunks[1..], written, OldEnd(hunks[0]), NewEnd(hunks[0]));
    }
  }

  /** Main result: a file written in full, say a new one, becomes the formatted text if and
      only if the formatter inserts no lines of its own and both texts end alike, or nothing is left. */
  lemma FullyWrittenFileIsFormattedIff(source: string, formatted: string, diffs: seq<Option<string>>,
                                       lines: seq<DiffLine>)
    requires CleanDiff(lines) && diffs != [] && formatted != source
    requires Describes(Body(source), Body(formatted), HeaderHunks(lines), 0, 0)
    requires forall line :: 1 <= line <= |Body(source)| ==> WrittenAgainstAll(source, diffs, line)
    ensures Processed(source, formatted, diffs, Printed(lines), true) == Fixed(formatted) <==>
            && NoPureInsertions(HeaderHunks(lines))
            && (NewlineTerminated(source) == NewlineTerminated(formatted) || formatted == "")
  {
    hide HunksOf;
    hide WrittenAgainstAll;
    hide WrittenIn;
    hide Covers;
    hide NonEmpty;
    hide Describes;
    hide Body;
    hide Keep;
    hide Split;
    hide Hits;
    hide RangesOf;
    hide NewlineTerminated;
    hide NoPureInsertions;
    hide AllReplacementsWritten;
    var written, hunks := WrittenIn(AllBaseRanges(source, diffs)), HeaderHunks(lines);
    WrittenIsInEveryBase(source, diffs);
    AllLinesWritten(Body(source), Body(formatted), hunks, written, 0, 0);
    FixReachesFormattedIff(source, formatted, hunks, written);
    RewrittenIffInEveryBase(source, formatted, diffs, lines, Hunk(0, 0, 0, 0));
    JoinUndoesSplit(source, '\n');
  }
}
