/** Rewriting only the hunks a change wrote (scripts/prettier-check-changed.js, the check and
    `--fix` branches of `main`). */
module ChangedLines {
  import opened Text
  import opened HunkHeaders
  import opened LineRanges

  // ---- which hunks ---------------------------------------------------------

  function HitOn(range: Range, written: seq<Range>): seq<Range> {
    if Overlaps([range], written) then [range] else []
  }

  /** The ranges check mode reports. */
  function Hits(wanted: seq<Range>, written: seq<Range>): seq<Range> {
    if wanted == [] then [] else HitOn(wanted[0], written) + Hits(wanted[1..], written)
  }

  predicate IsKept(h: Hunk, written: seq<Range>) {
    h.oc > 0 && Overlaps([Range(h.os, h.os + h.oc - 1)], written)
  }

  /** The hunks fix mode rewrites. */
  function Keep(hunks: seq<Hunk>, written: seq<Range>): seq<Hunk> {
    if hunks == [] then []
    else (if IsKept(hunks[0], written) then [hunks[0]] else []) + Keep(hunks[1..], written)
  }

  lemma {:induction false} HitsConcat(a: seq<Range>, b: seq<Range>, written: seq<Range>)
    ensures Hits(a + b, written) == Hits(a, written) + Hits(b, written)
  {
    hide HitOn;
    if a == [] {
      assert a + b == b;
    } else {
      assert (a + b)[1..] == a[1..] + b;
      HitsConcat(a[1..], b, written);
    }
  }

  /** Main result: check mode reports a hunk exactly when fix mode rewrites it, in the same order. */
  lemma {:induction false} CheckReportsWhatFixRewrites(hunks: seq<Hunk>, written: seq<Range>)
    ensures Hits(RangesOf(hunks, Old), written) == RangesOf(Keep(hunks, written), Old)
  {
    hide Overlaps;
    if hunks == [] {
    } else {
      CheckReportsWhatFixRewrites(hunks[1..], written);
      HitsConcat(RangeOf(hunks[0], Old), RangesOf(hunks[1..], Old), written);
      var kept := if IsKept(hunks[0], written) then [hunks[0]] else [];
      RangesOfConcat(kept, Keep(hunks[1..], written), Old);
      assert RangesOf(kept, Old) == if kept == [] then [] else RangeOf(kept[0], Old);
      assert Hits(RangeOf(hunks[0], Old), written) == RangesOf(kept, Old);
    }
  }

  /** A hunk is rewritten exactly when it replaces some line the change wrote. */
  lemma KeptIffWritten(h: Hunk, written: seq<Range>)
    requires NonEmpty(written)
    ensures IsKept(h, written) <==> h.oc > 0 && exists line :: h.os <= line < h.os + h.oc && Covers(written, line)
  {
    if h.oc > 0 {
      var own := [Range(h.os, h.os + h.oc - 1)];
      OverlapsIffSharedLine(own, written);
      forall line
        ensures Covers(own, line) <==> h.os <= line < h.os + h.oc
      {
        assert own[0] == Range(h.os, h.os + h.oc - 1);
      }
    }
  }

  method Check(diff: string, written: seq<Range>) returns (hits: seq<Range>)
    ensures hits == Hits(RangesOf(HunksOf(diff), Old), written)
  {
    hide Overlaps;
    hide RangesOf;
    hide HunksOf;
    var wanted := HunkRanges(diff, Old);
    hits := [];
    for i := 0 to |wanted|
      invariant hits == Hits(wanted[..i], written)
    {
      assert wanted[..i + 1] == wanted[..i] + [wanted[i]];
      HitsConcat(wanted[..i], [wanted[i]], written);
      assert Hits([wanted[i]], written) == HitOn(wanted[i], written) + Hits([], written);
      if Overlaps([wanted[i]], written) {
        hits := hits + [wanted[i]];
      }
    }
    assert wanted[..|wanted|] == wanted;
  }

  // ---- splicing ------------------------------------------------------------

  function Clamp(k: int, length: nat): (r: nat)
    ensures r <= length
  {
    if k < 0 then (if k + length < 0 then 0 else k + length) else if k > length then length else k
  }

  /** `s.splice(start, deleteCount, ...items)` */
  function Splice<T>(s: seq<T>, start: int, deleteCount: nat, items: seq<T>): seq<T> {
    var from := Clamp(start, |s|);
    var to := if from + deleteCount > |s| then |s| else from + deleteCount;
    s[..from] + items + s[to..]
  }

  /** `s.slice(start, end)` */
  function Slice<T>(s: seq<T>, start: int, end: int): seq<T> {
    var from, to := Clamp(start, |s|), Clamp(end, |s|);
    if from <= to then s[from..to] else []
  }

  /** The new text of a hunk. */
  function Replacement<T>(dst: seq<T>, h: Hunk): seq<T> {
    Slice(dst, h.ns - 1, h.ns - 1 + h.nc)
  }

  /** All hunks spliced in one after the other, the last one first. */
  function FixedLines<T>(src: seq<T>, dst: seq<T>, keep: seq<Hunk>): seq<T> {
    if keep == [] then src
    else Splice(FixedLines(src, dst, keep[1..]), keep[0].os - 1, keep[0].oc, Replacement(dst, keep[0]))
  }

  function FixedText(source: string, formatted: string, hunks: seq<Hunk>, written: seq<Range>): string {
    JoinLines(FixedLines(Split(source, {'\n'}), Split(formatted, {'\n'}), Keep(hunks, written)))
  }

  function JoinLines(lines: seq<string>): string {
    if lines == [] then "" else Join(lines, '\n')
  }

  method Fix(source: string, formatted: string, diff: string, written: seq<Range>) returns (fixed: string)
    ensures fixed == FixedText(source, formatted, HunksOf(diff), written)
  {
    hide Split;
    hide Splice;
    hide Slice;
    hide HunksIn;
    var src := Split(source, {'\n'});
    var dst := Split(formatted, {'\n'});
    var all := ReadHunks(diff);
    var keep := KeepWritten(all, written);
    var i := |keep|;
    assert keep[i..] == [];
    while i > 0
      invariant 0 <= i <= |keep|
      invariant src == FixedLines(Split(source, {'\n'}), dst, keep[i..])
    {
      i := i - 1;
      var h := keep[i];
      assert keep[i..][1..] == keep[i + 1..] && keep[i..][0] == h;
      src := Splice(src, h.os - 1, h.oc, Slice(dst, h.ns - 1, h.ns - 1 + h.nc));
    }
    assert keep[0..] == keep;
    fixed := JoinLines(src);
  }

  method ReadHunks(diff: string) returns (all: seq<Hunk>)
    ensures all == HunksOf(diff)
  {
    all := [];
    var lines := Split(diff, LINE_TERMINATORS);
    for i := 0 to |lines|
      invariant all == HunksIn(lines[..i])
    {
      OneMoreHeader(lines, i);
      all := all + HeaderOn(lines[i]);
    }
    assert lines[..|lines|] == lines;
  }

  lemma OneMoreHeader(lines: seq<string>, i: nat)
    requires i < |lines|
    ensures HunksIn(lines[..i + 1]) == HunksIn(lines[..i]) + HeaderOn(lines[i])
  {
    hide HeaderOn;
    assert lines[..i + 1] == lines[..i] + [lines[i]];
    HunksInConcat(lines[..i], [lines[i]]);
    assert HunksIn([lines[i]]) == HeaderOn(lines[i]) + HunksIn([]);
  }

  method KeepWritten(all: seq<Hunk>, written: seq<Range>) returns (keep: seq<Hunk>)
    ensures keep == Keep(all, written)
  {
    keep := [];
    assert all[0..] == all;
    for i := 0 to |all|
      invariant keep + Keep(all[i..], written) == Keep(all, written)
    {
      assert all[i..][1..] == all[i + 1..];
      if IsKept(all[i], written) {
        keep := keep + [all[i]];
      }
    }
  }

  // ---- the simple form: replace all hunks at once ------------------------------

  /** Zero-based start of a hunk's lines: a hunk with none names the line before. */
  function OldAt(h: Hunk): int {
    if h.oc == 0 then h.os else h.os - 1
  }

  function NewAt(h: Hunk): int {
    if h.nc == 0 then h.ns else h.ns - 1
  }

  function OldEnd(h: Hunk): int {
    OldAt(h) + h.oc
  }

  function NewEnd(h: Hunk): int {
    NewAt(h) + h.nc
  }

  ghost predicate Fits<T>(src: seq<T>, dst: seq<T>, h: Hunk) {
    0 <= OldAt(h) && OldEnd(h) <= |src| && 0 <= NewAt(h) && NewEnd(h) <= |dst|
  }

  /** The hunks replace lines that exist, one after the other, from line `pos` on. */
  ghost predicate Placed<T>(src: seq<T>, dst: seq<T>, hunks: seq<Hunk>, pos: int)
    decreases |hunks|
  {
    && 0 <= pos <= |src|
    && (hunks != [] ==>
          && hunks[0].oc > 0 && pos <= OldAt(hunks[0]) && Fits(src, dst, hunks[0])
          && Placed(src, dst, hunks[1..], OldEnd(hunks[0])))
  }

  function NewLines<T>(dst: seq<T>, h: Hunk): seq<T>
    requires 0 <= NewAt(h) && NewEnd(h) <= |dst|
  {
    dst[NewAt(h)..NewEnd(h)]
  }

  /** The text from line `pos` on with every hunk's old lines replaced by its new ones. */
  ghost function Patched<T>(src: seq<T>, dst: seq<T>, hunks: seq<Hunk>, pos: int): seq<T>
    requires Placed(src, dst, hunks, pos)
    decreases |hunks|
  {
    if hunks == [] then src[pos..]
    else
      var h := hunks[0];
      src[pos..OldAt(h)] + (NewLines(dst, h) + Patched(src, dst, hunks[1..], OldEnd(h)))
  }

  lemma ReplacementIsNewLines<T>(dst: seq<T>, h: Hunk)
    requires 0 <= NewAt(h) && NewEnd(h) <= |dst|
    ensures Replacement(dst, h) == NewLines(dst, h)
  {
  }

  /** One splice behind an untouched front. */
  lemma SpliceBehindFront<T>(src: seq<T>, rest: seq<T>, h: Hunk, items: seq<T>)
    requires h.oc > 0 && 0 <= OldAt(h) && OldEnd(h) <= |src|
    ensures Splice(src[..OldEnd(h)] + rest, h.os - 1, h.oc, items) == src[..OldAt(h)] + (items + rest)
  {
    var s := src[..OldEnd(h)] + rest;
    assert s[..OldAt(h)] == src[..OldAt(h)];
    assert s[OldEnd(h)..] == rest;
  }

  lemma {:induction false} FixedIsPatched<T>(src: seq<T>, dst: seq<T>, hunks: seq<Hunk>, pos: int)
    requires Placed(src, dst, hunks, pos)
    ensures FixedLines(src, dst, hunks) == src[..pos] + Patched(src, dst, hunks, pos)
    decreases |hunks|
  {
    if hunks == [] {
      assert src == src[..pos] + src[pos..];
    } else {
      var h, rest := hunks[0], hunks[1..];
      FixedIsPatched(src, dst, rest, OldEnd(h));
      var tail := Patched(src, dst, rest, OldEnd(h));
      ReplacementIsNewLines(dst, h);
      SpliceBehindFront(src, tail, h, NewLines(dst, h));
      FrontJoins(src, pos, OldAt(h), NewLines(dst, h) + tail);
    }
  }

  lemma FrontJoins<T>(src: seq<T>, from: int, to: int, rest: seq<T>)
    requires 0 <= from <= to <= |src|
    ensures src[..to] + rest == src[..from] + (src[from..to] + rest)
  {
  }

  /** Main result: splicing the hunks in place, last one first, replaces them all at once. */
  lemma {:induction false} FixReplacesAtOnce<T>(src: seq<T>, dst: seq<T>, keep: seq<Hunk>)
    requires Placed(src, dst, keep, 0)
    ensures FixedLines(src, dst, keep) == Patched(src, dst, keep, 0)
  {
    FixedIsPatched(src, dst, keep, 0);
    assert src[..0] == [];
  }

  // ---- what survives -----------------------------------------------------------

  /** No hunk replaces line `k`. */
  predicate Untouched(hunks: seq<Hunk>, k: int) {
    hunks != [] ==> !(OldAt(hunks[0]) <= k < OldEnd(hunks[0])) && Untouched(hunks[1..], k)
  }

  /** How far the hunks before line `k` move it. */
  function Shift(hunks: seq<Hunk>, k: int): int {
    if hunks == [] || k < OldAt(hunks[0]) then 0
    else hunks[0].nc - hunks[0].oc + Shift(hunks[1..], k)
  }

  function Growth(hunks: seq<Hunk>): int {
    if hunks == [] then 0 else hunks[0].nc - hunks[0].oc + Growth(hunks[1..])
  }

  /** The length changes by exactly the sum of the hunks' differences. */
  lemma {:induction false} PatchedLength<T>(src: seq<T>, dst: seq<T>, hunks: seq<Hunk>, pos: int)
    requires Placed(src, dst, hunks, pos)
    ensures |Patched(src, dst, hunks, pos)| == |src| - pos + Growth(hunks)
    decreases |hunks|
  {
    if hunks == [] {
    } else {
      PatchedLength(src, dst, hunks[1..], OldEnd(hunks[0]));
    }
  }

  /** Every line outside the hunks is still there, moved by the hunks before it. */
  lemma {:induction false} OtherLinesSurvive<T>(src: seq<T>, dst: seq<T>, hunks: seq<Hunk>, pos: int, k: int)
    requires Placed(src, dst, hunks, pos) && pos <= k < |src| && Untouched(hunks, k)
    ensures var at := k - pos + Shift(hunks, k);
            0 <= at < |Patched(src, dst, hunks, pos)| && Patched(src, dst, hunks, pos)[at] == src[k]
    decreases |hunks|
  {
    hide NewLines;
    hide Fits;
    if hunks == [] {
    } else {
      var h := hunks[0];
      PatchedFirst(src, dst, hunks, pos);
      var front, middle, rest := src[pos..OldAt(h)], NewLines(dst, h), Patched(src, dst, hunks[1..], OldEnd(h));
      if k < OldAt(h) {
        IndexBefore(front, middle + rest, k - pos);
      } else {
        OtherLinesSurvive(src, dst, hunks[1..], OldEnd(h), k);
        IndexBehind(front, middle, rest, k - OldEnd(h) + Shift(hunks[1..], k));
      }
    }
  }

  /** The text up to the first hunk, its new lines, and the rest. */
  lemma PatchedFirst<T>(src: seq<T>, dst: seq<T>, hunks: seq<Hunk>, pos: int)
    requires hunks != [] && Placed(src, dst, hunks, pos)
    ensures var h := hunks[0];
            && 0 <= pos <= OldAt(h) <= OldEnd(h) <= |src| && 0 <= NewAt(h) <= NewEnd(h) <= |dst|
            && |NewLines(dst, h)| == h.nc
            && Patched(src, dst, hunks, pos)
               == src[pos..OldAt(h)] + (NewLines(dst, h) + Patched(src, dst, hunks[1..], OldEnd(h)))
  {
  }

  lemma IndexBefore<T>(a: seq<T>, b: seq<T>, at: int)
    requires 0 <= at < |a|
    ensures (a + b)[at] == a[at]
  {
  }

  lemma IndexBehind<T>(a: seq<T>, b: seq<T>, c: seq<T>, at: int)
    requires 0 <= at < |c|
    ensures (a + (b + c))[|a| + |b| + at] == c[at]
  {
  }

  /** Surviving lines keep their order. */
  lemma {:induction false} OtherLinesKeepOrder<T>(src: seq<T>, dst: seq<T>, hunks: seq<Hunk>, pos: int, k: int, l: int)
    requires Placed(src, dst, hunks, pos) && pos <= k < l < |src|
    requires Untouched(hunks, k) && Untouched(hunks, l)
    ensures k + Shift(hunks, k) < l + Shift(hunks, l)
    decreases |hunks|
  {
    if hunks == [] {
    } else {
      var h := hunks[0];
      if k >= OldAt(h) {
        OtherLinesKeepOrder(src, dst, hunks[1..], OldEnd(h), k, l);
      } else if l >= OldAt(h) {
        ShiftBounded(src, dst, hunks[1..], OldEnd(h), l);
      }
    }
  }

  /** Nothing behind a hunk can be pulled in front of it. */
  lemma {:induction false} ShiftBounded<T>(src: seq<T>, dst: seq<T>, hunks: seq<Hunk>, pos: int, l: int)
    requires Placed(src, dst, hunks, pos) && pos <= l < |src| && Untouched(hunks, l)
    ensures l + Shift(hunks, l) >= pos
    decreases |hunks|
  {
    if hunks == [] || l < OldAt(hunks[0]) {
    } else {
      ShiftBounded(src, dst, hunks[1..], OldEnd(hunks[0]), l);
    }
  }

  // ---- when the result is the formatted text -------------------------------------

  /** The hunks are a diff from `src`, from line `p` on, to `dst`, from line `q` on: between
      them the texts agree, and no hunk is empty. */
  ghost predicate Describes<T>(src: seq<T>, dst: seq<T>, hunks: seq<Hunk>, p: int, q: int)
    decreases |hunks|
  {
    && 0 <= p <= |src| && 0 <= q <= |dst|
    && if hunks == [] then src[p..] == dst[q..]
       else
         var h := hunks[0];
         && h.oc + h.nc > 0 && Fits(src, dst, h)
         && p <= OldAt(h) && q <= NewAt(h)
         && src[p..OldAt(h)] == dst[q..NewAt(h)]
         && Describes(src, dst, hunks[1..], OldEnd(h), NewEnd(h))
  }

  ghost predicate NoPureInsertions(hunks: seq<Hunk>) {
    hunks != [] ==> hunks[0].oc > 0 && NoPureInsertions(hunks[1..])
  }

  /** The change wrote some line of everything the formatter wants to replace. */
  ghost predicate AllReplacementsWritten(hunks: seq<Hunk>, written: seq<Range>) {
    hunks != [] ==>
      && (hunks[0].oc > 0 ==> IsKept(hunks[0], written))
      && AllReplacementsWritten(hunks[1..], written)
  }

  lemma PlacedEarlier<T>(src: seq<T>, dst: seq<T>, hunks: seq<Hunk>, pos: int, earlier: int)
    requires Placed(src, dst, hunks, pos) && 0 <= earlier <= pos
    ensures Placed(src, dst, hunks, earlier)
    ensures Patched(src, dst, hunks, earlier) == src[earlier..pos] + Patched(src, dst, hunks, pos)
  {
    if hunks == [] {
      assert src[earlier..] == src[earlier..pos] + src[pos..];
    } else {
      var h := hunks[0];
      SliceJoins(src, earlier, pos, OldAt(h), NewLines(dst, h) + Patched(src, dst, hunks[1..], OldEnd(h)));
    }
  }

  lemma SliceJoins<T>(src: seq<T>, from: int, mid: int, to: int, rest: seq<T>)
    requires 0 <= from <= mid <= to <= |src|
    ensures src[from..to] + rest == src[from..mid] + (src[mid..to] + rest)
  {
  }

  /** The hunks fix mode keeps are always well placed. */
  lemma {:induction false} KeptArePlaced<T>(
    src: seq<T>, dst: seq<T>, hunks: seq<Hunk>, written: seq<Range>, p: int, q: int)
    requires Describes(src, dst, hunks, p, q)
    ensures Placed(src, dst, Keep(hunks, written), p)
    decreases |hunks|
  {
    if hunks == [] {
    } else {
      var h, rest := hunks[0], Keep(hunks[1..], written);
      KeptArePlaced(src, dst, hunks[1..], written, OldEnd(h), NewEnd(h));
      KeepStep(hunks, written);
      hide IsKept;
      hide Keep;
      if !IsKept(h, written) {
        PlacedEarlier(src, dst, rest, OldEnd(h), p);
      }
    }
  }

  lemma KeepStep(hunks: seq<Hunk>, written: seq<Range>)
    requires hunks != []
    ensures var rest := Keep(hunks[1..], written);
            if IsKept(hunks[0], written)
            then hunks[0].oc > 0 && Keep(hunks, written) != []
                 && Keep(hunks, written)[0] == hunks[0] && Keep(hunks, written)[1..] == rest
            else Keep(hunks, written) == rest
  {
    hide Overlaps;
    var rest := Keep(hunks[1..], written);
    assert ([hunks[0]] + rest)[1..] == rest;
    assert [] + rest == rest;
  }

  /** When everything is written, patching gives the formatted lines if no hunk is a pure
      insertion, and too few lines otherwise. */
  lemma {:induction false} PatchedReachesFormatted<T>(
    src: seq<T>, dst: seq<T>, hunks: seq<Hunk>, written: seq<Range>, p: int, q: int)
    requires Describes(src, dst, hunks, p, q) && AllReplacementsWritten(hunks, written)
    ensures Placed(src, dst, Keep(hunks, written), p)
    ensures var result := Patched(src, dst, Keep(hunks, written), p);
            if NoPureInsertions(hunks) then result == dst[q..] else |result| < |dst| - q
    decreases |hunks|
  {
    KeptArePlaced(src, dst, hunks, written, p, q);
    if hunks == [] {
    } else {
      var h, rest := hunks[0], hunks[1..];
      PatchedReachesFormatted(src, dst, rest, written, OldEnd(h), NewEnd(h));
      KeepStep(hunks, written);
      hide Keep;
      hide IsKept;
      if h.oc == 0 {
        PlacedEarlier(src, dst, Keep(rest, written), OldEnd(h), p);
      } else {
        SliceJoins(dst, q, NewAt(h), NewEnd(h), dst[NewEnd(h)..]);
        assert dst[q..] == dst[q..NewEnd(h)] + dst[NewEnd(h)..];
      }
    }
  }

  // ---- the same on whole files -----------------------------------------------------

  /** The text is empty or ends in a newline. */
  predicate NewlineTerminated(text: string) {
    var lines := Split(text, {'\n'});
    lines[|lines| - 1] == ""
  }

  /** The lines a diff numbers: without the empty piece behind a final newline. */
  function Body(text: string): seq<string> {
    var lines := Split(text, {'\n'});
    if NewlineTerminated(text) then lines[..|lines| - 1] else lines
  }

  function Tail(text: string): seq<string> {
    if NewlineTerminated(text) then [""] else []
  }

  lemma BodyAndTail(text: string)
    ensures Split(text, {'\n'}) == Body(text) + Tail(text)
    ensures Body(text) == [] ==> text == ""
  {
    JoinUndoesSplit(text, '\n');
  }

  /** Lines behind the last hunk stay behind. */
  lemma {:induction false} PatchedKeepsTail<T>(
    src: seq<T>, dst: seq<T>, hunks: seq<Hunk>, pos: int, t: seq<T>, u: seq<T>)
    requires Placed(src, dst, hunks, pos)
    ensures Placed(src + t, dst + u, hunks, pos)
    ensures Patched(src + t, dst + u, hunks, pos) == Patched(src, dst, hunks, pos) + t
    decreases |hunks|
  {
    if hunks == [] {
      assert (src + t)[pos..] == src[pos..] + t;
    } else {
      var h := hunks[0];
      PatchedKeepsTail(src, dst, hunks[1..], OldEnd(h), t, u);
      assert (src + t)[pos..OldAt(h)] == src[pos..OldAt(h)];
      assert NewLines(dst + u, h) == NewLines(dst, h);
      AppendBehind(src[pos..OldAt(h)], NewLines(dst, h), Patched(src, dst, hunks[1..], OldEnd(h)), t);
    }
  }

  lemma AppendBehind<T>(a: seq<T>, b: seq<T>, c: seq<T>, t: seq<T>)
    ensures a + (b + (c + t)) == a + (b + c) + t
  {
  }

  lemma {:induction false} PatchedElements<T>(src: seq<T>, dst: seq<T>, hunks: seq<Hunk>, pos: int, x: T)
    requires Placed(src, dst, hunks, pos)
    ensures x in Patched(src, dst, hunks, pos) ==> x in src || x in dst
    decreases |hunks|
  {
    if hunks == [] {
    } else {
      PatchedElements(src, dst, hunks[1..], OldEnd(hunks[0]), x);
    }
  }

  lemma {:induction false} NothingToInsert<T>(src: seq<T>, dst: seq<T>, hunks: seq<Hunk>, p: int, q: int)
    requires Describes(src, dst, hunks, p, q) && dst == []
    ensures NoPureInsertions(hunks)
    decreases |hunks|
  {
    if hunks == [] {
    } else {
      NothingToInsert(src, dst, hunks[1..], OldEnd(hunks[0]), NewEnd(hunks[0]));
    }
  }

  /** Joined lines are a given text exactly when they are its lines. */
  lemma JoinedIsTextIff(lines: seq<string>, text: string)
    requires forall line :: line in lines ==> Free(line, {'\n'})
    ensures JoinLines(lines) == text <==> lines == Split(text, {'\n'}) || (lines == [] && text == "")
  {
    JoinUndoesSplit(text, '\n');
    if lines != [] {
      SplitUndoesJoin(lines, '\n');
    }
  }

  /** The fixed file's lines: the patched body, and the source's own ending. */
  lemma FixedFileLines(source: string, formatted: string, keep: seq<Hunk>)
    requires Placed(Body(source), Body(formatted), keep, 0)
    ensures var lines := FixedLines(Split(source, {'\n'}), Split(formatted, {'\n'}), keep);
            && lines == Patched(Body(source), Body(formatted), keep, 0) + Tail(source)
            && forall line :: line in lines ==> Free(line, {'\n'})
  {
    hide Body;
    hide Tail;
    hide Free;
    var src, dst := Split(source, {'\n'}), Split(formatted, {'\n'});
    BodyAndTail(source);
    BodyAndTail(formatted);
    PatchedKeepsTail(Body(source), Body(formatted), keep, 0, Tail(source), Tail(formatted));
    FixReplacesAtOnce(src, dst, keep);
    SplitPiecesAreFree(source, {'\n'});
    SplitPiecesAreFree(formatted, {'\n'});
    forall line | line in Patched(src, dst, keep, 0)
      ensures Free(line, {'\n'})
    {
      PatchedElements(src, dst, keep, 0, line);
    }
  }

  /** Main result, whatever was written: a line no kept hunk replaces is still in the file,
      moved by the kept hunks before it, and the file grows by what those hunks add. */
  lemma FixKeepsOtherLines(source: string, formatted: string, hunks: seq<Hunk>, written: seq<Range>, k: int)
    requires Describes(Body(source), Body(formatted), hunks, 0, 0)
    requires 0 <= k < |Split(source, {'\n'})| && Untouched(Keep(hunks, written), k)
    ensures var keep := Keep(hunks, written);
            var src := Split(source, {'\n'});
            var lines := FixedLines(src, Split(formatted, {'\n'}), keep);
            && |lines| == |src| + Growth(keep)
            && 0 <= k + Shift(keep, k) < |lines|
            && lines[k + Shift(keep, k)] == src[k]
  {
    hide Split;
    hide Body;
    hide Tail;
    hide Keep;
    hide Describes;
    hide Placed;
    hide Patched;
    hide FixedLines;
    hide Untouched;
    hide Shift;
    hide Growth;
    var src, dst, keep := Split(source, {'\n'}), Split(formatted, {'\n'}), Keep(hunks, written);
    KeptArePlaced(Body(source), Body(formatted), hunks, written, 0, 0);
    BodyAndTail(source);
    BodyAndTail(formatted);
    PatchedKeepsTail(Body(source), Body(formatted), keep, 0, Tail(source), Tail(formatted));
    FixReplacesAtOnce(src, dst, keep);
    PatchedLength(src, dst, keep, 0);
    OtherLinesSurvive(src, dst, keep, 0, k);
  }

  /** Main result: when the change wrote every hunk the formatter replaces, fixing turns the
      file into the formatted one if and only if the formatter inserts no lines of its own and
      both texts end alike, or nothing is left at all. */
  lemma FixReachesFormattedIff(source: string, formatted: string, hunks: seq<Hunk>, written: seq<Range>)
    requires Describes(Body(source), Body(formatted), hunks, 0, 0) && AllReplacementsWritten(hunks, written)
    ensures FixedText(source, formatted, hunks, written) == formatted <==>
            NoPureInsertions(hunks) && (NewlineTerminated(source) == NewlineTerminated(formatted) || formatted == "")
  {
    hide Describes;
    hide AllReplacementsWritten;
    hide Keep;
    hide Placed;
    hide Patched;
    var src, dst, keep := Body(source), Body(formatted), Keep(hunks, written);
    PatchedReachesFormatted(src, dst, hunks, written, 0, 0);
    FixedFileLines(source, formatted, keep);
    BodyAndTail(formatted);
    if dst == [] {
      NothingToInsert(src, dst, hunks, 0, 0);
    }
    var body := Patched(src, dst, keep, 0);
    assert dst[0..] == dst;
    JoinedIsTextIff(body + Tail(source), formatted);
    EndingsAgreeIff(source, formatted, body, NoPureInsertions(hunks));
  }

  lemma EndingsAgreeIff(source: string, formatted: string, body: seq<string>, complete: bool)
    requires if complete then body == Body(formatted) else |body| < |Body(formatted)|
    ensures var lines := body + Tail(source);
            (lines == Split(formatted, {'\n'}) || (lines == [] && formatted == "")) <==>
            complete && (NewlineTerminated(source) == NewlineTerminated(formatted) || formatted == "")
  {
    hide Split;
    hide Body;
    BodyAndTail(formatted);
    LastPiece(formatted);
    var lines, pieces := body + Tail(source), Split(formatted, {'\n'});
    if formatted == "" {
      NothingInNothing();
    } else if Tail(source) == Tail(formatted) {
      assert body == Body(formatted) ==> lines == pieces;
      assert lines == pieces ==> |body| == |Body(formatted)|;
    } else if NewlineTerminated(source) {
      assert lines[|lines| - 1] == "";
    } else {
      assert lines == body && |pieces| == |Body(formatted)| + 1;
    }
  }

  lemma LastPiece(text: string)
    ensures !NewlineTerminated(text) ==> Body(text) != [] && Body(text)[|Body(text)| - 1] != ""
  {
  }

  lemma NothingInNothing()
    ensures Body("") == [] && NewlineTerminated("")
  {
    SplitOfFree("", {'\n'});
  }

  // ---- what fix mode cannot do -------------------------------------------------------

  lemma TerminatedLines(front: string, last: string)
    requires Free(last, {'\n'})
    ensures Split(front + ['\n'] + (last + ['\n']), {'\n'}) == Split(front, {'\n'}) + [last, ""]
    ensures Split(last + ['\n'], {'\n'}) == [last, ""]
    ensures Split(last, {'\n'}) == [last]
  {
    assert last + ['\n'] == last + ['\n'] + "";
    SplitOfConcat(last, '\n', "", {'\n'});
    SplitOfFree(last, {'\n'});
    SplitOfFree("", {'\n'});
    SplitOfConcat(front, '\n', last + ['\n'], {'\n'});
  }

  lemma BodyOfLine(line: string)
    requires Free(line, {'\n'})
    ensures Body(line + ['\n']) == [line] && NewlineTerminated(line + ['\n'])
    ensures line != "" ==> Body(line) == [line] && !NewlineTerminated(line)
  {
    TerminatedLines("", line);
    BodyAndTail(line + ['\n']);
    BodyAndTail(line);
    var pieces := Split(line + ['\n'], {'\n'});
    assert |pieces| == 2 && pieces[1] == "" && pieces[..1] == [line];
  }

  /** What fails: the formatter adds a line behind the only one, which the change wrote, and fix
      mode leaves the file without it. */
  lemma PureInsertionIsDropped(line: string, added: string)
    requires Free(line, {'\n'}) && Free(added, {'\n'})
    ensures var source, formatted := line + ['\n'], line + ['\n'] + (added + ['\n']);
            var hunks, written := [Hunk(1, 0, 2, 1)], [Range(1, 1)];
            && Describes(Body(source), Body(formatted), hunks, 0, 0) && AllReplacementsWritten(hunks, written)
            && FixedText(source, formatted, hunks, written) != formatted
  {
    hide Split;
    hide FixedText;
    var source, formatted := line + ['\n'], line + ['\n'] + (added + ['\n']);
    TerminatedLines("", line);
    TerminatedLines(line, added);
    assert Split(formatted, {'\n'}) == [line, added, ""];
    assert Body(source) == [line] && Body(formatted) == [line, added];
    FixReachesFormattedIff(source, formatted, [Hunk(1, 0, 2, 1)], [Range(1, 1)]);
  }

  /** What fails: the formatter ends the only line, which the change wrote, with a newline, and
      fix mode rewrites the line without it. */
  lemma MissingNewlineStays(line: string)
    requires line != "" && Free(line, {'\n'})
    ensures var source, formatted := line, line + ['\n'];
            var hunks, written := [Hunk(1, 1, 1, 1)], [Range(1, 1)];
            && Describes(Body(source), Body(formatted), hunks, 0, 0) && AllReplacementsWritten(hunks, written)
            && NoPureInsertions(hunks)
            && FixedText(source, formatted, hunks, written) != formatted
  {
    hide FixedText;
    hide Split;
    hide Body;
    hide NewlineTerminated;
    var source, formatted := line, line + ['\n'];
    BodyOfLine(line);
    var written := [Range(1, 1)];
    assert Meet(written[0], written[0]);
    FixReachesFormattedIff(source, formatted, [Hunk(1, 1, 1, 1)], written);
  }
}
