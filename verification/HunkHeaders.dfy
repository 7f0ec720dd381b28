/** Unified-diff hunk headers, as the formatting check reads them
    (scripts/prettier-check-changed.js). */
module HunkHeaders {
  import opened Wrappers
  import opened Text

  /** One `@@ -os,oc +ns,nc @@` header. */
  datatype Hunk = Hunk(os: nat, oc: nat, ns: nat, nc: nat)

  /** Inclusive line numbers. */
  datatype Range = Range(first: int, last: int)

  datatype Side = Old | New

  /** Where `^` matches under a regular expression's multiline flag. */
  const LINE_TERMINATORS: set<char> := {'\n', '\r', '\U{2028}', '\U{2029}'}

  datatype Parsed = Parsed(start: nat, count: nat, rest: string)

  /** `(\d+)(?:,(\d+))?`, with a missing count read as 1. */
  function ParseRange(s: string): Option<Parsed> {
    var k := LeadingDigits(s);
    if k == 0 then None
    else
      var rest := s[k..];
      var m := if "," <= rest then LeadingDigits(rest[1..]) else 0;
      if m == 0 then Some(Parsed(NumberOf(s[..k]), 1, rest))
      else Some(Parsed(NumberOf(s[..k]), NumberOf(rest[1..][..m]), rest[1..][m..]))
  }

  /** `/^@@ -(\d+)(?:,(\d+))? \+(\d+)(?:,(\d+))? @@/` on one line. */
  function ParseHeader(line: string): Option<Hunk> {
    if !("@@ -" <= line) then None
    else
      var before := ParseRange(line[4..]);
      if before.None? || !(" +" <= before.value.rest) then None
      else
        var after := ParseRange(before.value.rest[2..]);
        if after.None? || !(" @@" <= after.value.rest) then None
        else Some(Hunk(before.value.start, before.value.count, after.value.start, after.value.count))
  }

  function HeaderOn(line: string): seq<Hunk> {
    var header := ParseHeader(line);
    if header.Some? then [header.value] else []
  }

  function HunksIn(lines: seq<string>): seq<Hunk> {
    if lines == [] then [] else HeaderOn(lines[0]) + HunksIn(lines[1..])
  }

  function HunksOf(text: string): seq<Hunk> {
    HunksIn(Split(text, LINE_TERMINATORS))
  }

  function RangeOf(hunk: Hunk, side: Side): seq<Range> {
    var start, count := if side.New? then hunk.ns else hunk.os, if side.New? then hunk.nc else hunk.oc;
    if count > 0 then [Range(start, start + count - 1)] else []
  }

  function RangesOf(hunks: seq<Hunk>, side: Side): seq<Range> {
    if hunks == [] then [] else RangeOf(hunks[0], side) + RangesOf(hunks[1..], side)
  }

  /** What one line adds to the list: nothing unless it is a header with lines on this side. */
  function RangesOn(line: string, side: Side): seq<Range> {
    RangesOf(HeaderOn(line), side)
  }

  method PushRange(ranges: seq<Range>, line: string, side: Side) returns (out: seq<Range>)
    ensures out == ranges + RangesOn(line, side)
  {
    out := ranges;
    var m := ParseHeader(line);
    hide ParseHeader;
    if m.Some? {
      var start := if side.New? then m.value.ns else m.value.os;
      var count := if side.New? then m.value.nc else m.value.oc;
      if count > 0 {
        out := out + [Range(start, start + count - 1)];
      }
      assert RangesOf([m.value], side) == RangeOf(m.value, side) + RangesOf([], side);
    }
  }

  method HunkRanges(diff: string, side: Side) returns (out: seq<Range>)
    ensures out == RangesOf(HunksOf(diff), side)
  {
    out := [];
    var lines := Split(diff, LINE_TERMINATORS);
    for i := 0 to |lines|
      invariant out == RangesOf(HunksIn(lines[..i]), side)
    {
      OneMoreLine(lines, i, side);
      out := PushRange(out, lines[i], side);
    }
    assert lines[..|lines|] == lines;
  }

  lemma OneMoreLine(lines: seq<string>, i: nat, side: Side)
    requires i < |lines|
    ensures RangesOf(HunksIn(lines[..i + 1]), side) == RangesOf(HunksIn(lines[..i]), side) + RangesOn(lines[i], side)
  {
    hide ParseHeader;
    var header := HeaderOn(lines[i]);
    assert lines[..i + 1] == lines[..i] + [lines[i]];
    HunksInConcat(lines[..i], [lines[i]]);
    assert HunksIn([lines[i]]) == header + HunksIn([]) == header;
    RangesOfConcat(HunksIn(lines[..i]), header, side);
  }

  // ---- printing and reading back ---------------------------------------------

  /** A count of 1 is left out ('Diff -u or -U Output Format' in the POSIX.1-2008 `diff` utility). */
  function PrintRange(start: nat, count: nat): string {
    Decimal(start) + if count == 1 then "" else "," + Decimal(count)
  }

  function PrintHeader(hunk: Hunk): string {
    "@@ -" + PrintRange(hunk.os, hunk.oc) + " +" + PrintRange(hunk.ns, hunk.nc) + " @@"
  }

  /** Digits read back as the number they print, whatever follows. */
  lemma ReadNumber(n: nat, rest: string)
    requires rest == "" || !IsDigit(rest[0])
    ensures var s, k := Decimal(n) + rest, LeadingDigits(Decimal(n) + rest);
            k == |Decimal(n)| && NumberOf(s[..k]) == n && s[k..] == rest
  {
    NumberOfDecimal(n);
    LeadingDigitsOf(Decimal(n), rest);
    var s := Decimal(n) + rest;
    assert s[..|Decimal(n)|] == Decimal(n);
  }

  lemma ParsePrintedRange(start: nat, count: nat, rest: string)
    requires " " <= rest
    ensures ParseRange(PrintRange(start, count) + rest) == Some(Parsed(start, count, rest))
  {
    hide Decimal;
    hide NumberOf;
    hide LeadingDigits;
    if count == 1 {
      assert PrintRange(start, count) + rest == Decimal(start) + rest;
      ReadNumber(start, rest);
    } else {
      var more := Decimal(count) + rest;
      assert PrintRange(start, count) + rest == Decimal(start) + ("," + more);
      ReadNumber(start, "," + more);
      assert ("," + more)[1..] == more;
      ReadNumber(count, rest);
    }
  }

  lemma ParsePrintedHeader(hunk: Hunk, tail: string)
    ensures ParseHeader(PrintHeader(hunk) + tail) == Some(hunk)
  {
    hide ParseRange;
    hide PrintRange;
    var line := PrintHeader(hunk) + tail;
    var rest := " @@" + tail;
    var middle := " +" + (PrintRange(hunk.ns, hunk.nc) + rest);
    assert line == "@@ -" + (PrintRange(hunk.os, hunk.oc) + middle);
    assert line[4..] == PrintRange(hunk.os, hunk.oc) + middle;
    ParsePrintedRange(hunk.os, hunk.oc, middle);
    assert middle[2..] == PrintRange(hunk.ns, hunk.nc) + rest;
    ParsePrintedRange(hunk.ns, hunk.nc, rest);
  }

  // ---- which lines are headers -------------------------------------------------------------

  /** A line number, and a count behind a comma, or 1 where there is none. */
  ghost predicate Writes(s: string, start: nat, count: nat) {
    || (s != "" && AllDigits(s) && start == NumberOf(s) && count == 1)
    || (exists a, b :: s == a + "," + b && a != "" && b != "" && AllDigits(a) && AllDigits(b)
                       && start == NumberOf(a) && count == NumberOf(b))
  }

  /** `@@ -` and the old range, ` +` and the new one, ` @@` and anything. */
  ghost predicate IsHeader(line: string, hunk: Hunk, oldRange: string, newRange: string, tail: string) {
    && Writes(oldRange, hunk.os, hunk.oc) && Writes(newRange, hunk.ns, hunk.nc)
    && line == "@@ -" + oldRange + " +" + newRange + " @@" + tail
  }

  lemma ReadDigits(digits: string, rest: string)
    requires AllDigits(digits) && (rest == "" || !IsDigit(rest[0]))
    ensures var k := LeadingDigits(digits + rest);
            k == |digits| && (digits + rest)[..k] == digits && (digits + rest)[k..] == rest
  {
    LeadingDigitsOf(digits, rest);
  }

  /** A written range is read back, whatever follows the blank behind it. */
  lemma ParseWritten(s: string, start: nat, count: nat, rest: string)
    requires Writes(s, start, count) && " " <= rest
    ensures ParseRange(s + rest) == Some(Parsed(start, count, rest))
  {
    hide LeadingDigits;
    hide NumberOf;
    if s != "" && AllDigits(s) && start == NumberOf(s) && count == 1 {
      ReadDigits(s, rest);
    } else {
      var a, b :| s == a + "," + b && a != "" && b != "" && AllDigits(a) && AllDigits(b)
                  && start == NumberOf(a) && count == NumberOf(b);
      var more := b + rest;
      assert s + rest == a + ("," + more);
      ReadDigits(a, "," + more);
      assert ("," + more)[1..] == more;
      ReadDigits(b, rest);
    }
  }

  /** What is read as a range was written as one. */
  lemma ParsedIsWritten(s: string) returns (w: string)
    requires ParseRange(s).Some?
    ensures var p := ParseRange(s).value;
            Writes(w, p.start, p.count) && s == w + p.rest
  {
    hide NumberOf;
    hide LeadingDigits;
    hide Writes;
    var k := LeadingDigits(s);
    var a, rest := s[..k], s[k..];
    var m := if "," <= rest then LeadingDigits(rest[1..]) else 0;
    if m == 0 {
      w := a;
      WritesOne(a);
    } else {
      var b, tail := rest[1..][..m], rest[1..][m..];
      w := a + "," + b;
      WritesBoth(a, b);
      JoinAtComma(s, k, m);
    }
  }

  lemma WritesOne(a: string)
    requires a != "" && AllDigits(a)
    ensures Writes(a, NumberOf(a), 1)
  {
  }

  lemma WritesBoth(a: string, b: string)
    requires a != "" && b != "" && AllDigits(a) && AllDigits(b)
    ensures Writes(a + "," + b, NumberOf(a), NumberOf(b))
  {
    hide NumberOf;
  }

  lemma JoinAtComma(s: string, k: nat, m: nat)
    requires k <= |s| && "," <= s[k..] && m <= |s[k..][1..]|
    ensures s == s[..k] + "," + s[k..][1..][..m] + s[k..][1..][m..]
  {
  }

  /** Main result: a line is read as this hunk's header if and only if it is written as one. */
  lemma HeaderIff(line: string, hunk: Hunk)
    ensures ParseHeader(line) == Some(hunk) <==>
            exists oldRange, newRange, tail :: IsHeader(line, hunk, oldRange, newRange, tail)
  {
    if ParseHeader(line) == Some(hunk) {
      ParsedIsHeader(line, hunk);
    }
    forall oldRange, newRange, tail | IsHeader(line, hunk, oldRange, newRange, tail)
      ensures ParseHeader(line) == Some(hunk)
    {
      HeaderIsParsed(line, hunk, oldRange, newRange, tail);
    }
    hide ParseHeader;
    hide IsHeader;
  }

  lemma HeaderIsParsed(line: string, hunk: Hunk, oldRange: string, newRange: string, tail: string)
    requires IsHeader(line, hunk, oldRange, newRange, tail)
    ensures ParseHeader(line) == Some(hunk)
  {
    hide ParseRange;
    hide Writes;
    var rest := " @@" + tail;
    var middle := " +" + (newRange + rest);
    assert line == "@@ -" + (oldRange + middle);
    assert line[4..] == oldRange + middle;
    ParseWritten(oldRange, hunk.os, hunk.oc, middle);
    assert middle[2..] == newRange + rest;
    ParseWritten(newRange, hunk.ns, hunk.nc, rest);
  }

  lemma ParsedIsHeader(line: string, hunk: Hunk)
    requires ParseHeader(line) == Some(hunk)
    ensures exists oldRange, newRange, tail :: IsHeader(line, hunk, oldRange, newRange, tail)
  {
    hide ParseRange;
    hide Writes;
    var before := ParseRange(line[4..]).value;
    var oldRange := ParsedIsWritten(line[4..]);
    var after := ParseRange(before.rest[2..]).value;
    var newRange := ParsedIsWritten(before.rest[2..]);
    assert line == "@@ -" + line[4..] && before.rest == " +" + before.rest[2..];
    assert after.rest == " @@" + after.rest[3..];
    assert IsHeader(line, hunk, oldRange, newRange, after.rest[3..]);
  }

  /** A zero-context diff: headers, each with whatever git prints after the second `@@`, and
      other lines, which start with `+`, `-`, a backslash or a file-header word. */
  datatype DiffLine = Header(hunk: Hunk, tail: string) | Other(text: string)
  {
    function Text(): string {
      match this
      case Header(hunk, tail) => PrintHeader(hunk) + tail
      case Other(text) => text
    }

    predicate Valid() {
      Other? && text != "" ==> text[0] != '@'
    }

    function Hunks(): seq<Hunk> {
      if Header? then [hunk] else []
    }

    /** Headers in the middle of a line: after a carriage return, say, inside changed text. */
    function Strays(): seq<Hunk> {
      HunksIn(Split(Text(), LINE_TERMINATORS)[1..])
    }
  }

  function Texts(diff: seq<DiffLine>): seq<string> {
    seq(|diff|, i requires 0 <= i < |diff| => diff[i].Text())
  }

  function Printed(diff: seq<DiffLine>): string
    requires diff != []
  {
    Join(Texts(diff), '\n')
  }

  function HeaderHunks(diff: seq<DiffLine>): seq<Hunk> {
    if diff == [] then [] else diff[0].Hunks() + HeaderHunks(diff[1..])
  }

  lemma {:induction false} HunksInConcat(a: seq<string>, b: seq<string>)
    ensures HunksIn(a + b) == HunksIn(a) + HunksIn(b)
  {
    hide HeaderOn;
    if a == [] {
      assert a + b == b;
    } else {
      assert (a + b)[1..] == a[1..] + b;
      HunksInConcat(a[1..], b);
    }
  }

  lemma {:induction false} RangesOfConcat(a: seq<Hunk>, b: seq<Hunk>, side: Side)
    ensures RangesOf(a + b, side) == RangesOf(a, side) + RangesOf(b, side)
  {
    if a == [] {
      assert a + b == b;
    } else {
      assert (a + b)[1..] == a[1..] + b;
      RangesOfConcat(a[1..], b, side);
    }
  }

  lemma NotAHeader(line: string)
    requires line != "" ==> line[0] != '@'
    ensures HeaderOn(line) == []
  {
  }

  /** One line yields its own header, if it is one, and then any strays. */
  lemma LineHunks(line: DiffLine)
    requires line.Valid()
    ensures HunksOf(line.Text()) == line.Hunks() + line.Strays()
  {
    hide PrintHeader;
    hide ParseHeader;
    var text := line.Text();
    var k := FirstSeparator(text, LINE_TERMINATORS);
    var pieces := Split(text, LINE_TERMINATORS);
    assert pieces[0] == text[..k];
    assert HeaderOn(text[..k]) == line.Hunks() by {
      if line.Header? {
        FirstPieceOfHeader(line.hunk, line.tail);
        ParsePrintedHeader(line.hunk, text[|PrintHeader(line.hunk)|..k]);
      } else {
        NotAHeader(text[..k]);
      }
    }
  }

  lemma FirstPieceOfHeader(hunk: Hunk, tail: string)
    ensures var header := PrintHeader(hunk);
            var text := header + tail;
            var k := FirstSeparator(text, LINE_TERMINATORS);
            |header| <= k && text[..k] == header + text[|header|..k]
  {
    PrintedHeaderIsOneLine(hunk);
    hide PrintHeader;
    var header := PrintHeader(hunk);
    var text := header + tail;
    assert forall i :: 0 <= i < |header| ==> text[i] == header[i];
  }

  lemma PrintedHeaderIsOneLine(hunk: Hunk)
    ensures Free(PrintHeader(hunk), LINE_TERMINATORS)
  {
    PrintedRangeIsOneLine(hunk.os, hunk.oc);
    PrintedRangeIsOneLine(hunk.ns, hunk.nc);
    FreeConcat("@@ -", PrintRange(hunk.os, hunk.oc));
    FreeConcat("@@ -" + PrintRange(hunk.os, hunk.oc), " +");
    FreeConcat("@@ -" + PrintRange(hunk.os, hunk.oc) + " +", PrintRange(hunk.ns, hunk.nc));
    FreeConcat("@@ -" + PrintRange(hunk.os, hunk.oc) + " +" + PrintRange(hunk.ns, hunk.nc), " @@");
  }

  lemma PrintedRangeIsOneLine(start: nat, count: nat)
    ensures Free(PrintRange(start, count), LINE_TERMINATORS)
  {
    assert Free(Decimal(start), LINE_TERMINATORS);
    assert Free(Decimal(count), LINE_TERMINATORS);
    FreeConcat(",", Decimal(count));
    FreeConcat(Decimal(start), if count == 1 then "" else "," + Decimal(count));
  }

  lemma FreeConcat(a: string, b: string)
    requires Free(a, LINE_TERMINATORS) && Free(b, LINE_TERMINATORS)
    ensures Free(a + b, LINE_TERMINATORS)
  {
  }

  lemma {:induction false} HunksOfPrinted(diff: seq<DiffLine>)
    requires diff != []
    ensures HunksOf(Printed(diff)) == HunksOf(diff[0].Text()) + if |diff| == 1 then [] else HunksOf(Printed(diff[1..]))
  {
    if |diff| > 1 {
      assert Texts(diff)[1..] == Texts(diff[1..]);
      SplitOfConcat(diff[0].Text(), '\n', Printed(diff[1..]), LINE_TERMINATORS);
      HunksInConcat(Split(diff[0].Text(), LINE_TERMINATORS), Split(Printed(diff[1..]), LINE_TERMINATORS));
    }
  }

  ghost predicate NoStrays(diff: seq<DiffLine>, side: Side) {
    forall i :: 0 <= i < |diff| ==> RangesOf(diff[i].Strays(), side) == []
  }

  function RestOfPrinted(diff: seq<DiffLine>): seq<Hunk>
    requires diff != []
  {
    if |diff| == 1 then [] else HunksOf(Printed(diff[1..]))
  }

  lemma PrintedRangesStep(diff: seq<DiffLine>, side: Side)
    requires diff != [] && diff[0].Valid()
    ensures RangesOf(HunksOf(Printed(diff)), side) ==
            (RangesOf(diff[0].Hunks(), side) + RangesOf(diff[0].Strays(), side)) + RangesOf(RestOfPrinted(diff), side)
    ensures RangesOf(HeaderHunks(diff), side) ==
            RangesOf(diff[0].Hunks(), side) + RangesOf(HeaderHunks(diff[1..]), side)
  {
    HunksOfPrinted(diff);
    LineHunks(diff[0]);
    var own, strays := diff[0].Hunks(), diff[0].Strays();
    RangesOfConcat(own, HeaderHunks(diff[1..]), side);
    hide HunksOf;
    hide HunksIn;
    hide Split;
    hide RangesOf;
    assert HunksOf(Printed(diff)) == (own + strays) + RestOfPrinted(diff);
    RangesOfConcat(own + strays, RestOfPrinted(diff), side);
    RangesOfConcat(own, strays, side);
  }

  lemma NoStraysStep(diff: seq<DiffLine>, side: Side)
    requires diff != []
    ensures NoStrays(diff, side) <==> RangesOf(diff[0].Strays(), side) == [] && NoStrays(diff[1..], side)
  {
    hide RangesOf;
    hide HunksIn;
    assert forall i :: 0 <= i < |diff[1..]| ==> diff[1..][i] == diff[i + 1];
  }

  /** Without strays nothing but the headers is found; with them, strictly more ranges are. */
  ghost predicate FoundAsMeant(diff: seq<DiffLine>, found: seq<Hunk>, side: Side) {
    if NoStrays(diff, side) then RangesOf(found, side) == RangesOf(HeaderHunks(diff), side)
    else |RangesOf(found, side)| > |RangesOf(HeaderHunks(diff), side)|
  }

  lemma {:induction false} PrintedRanges(diff: seq<DiffLine>, side: Side)
    requires diff != [] && forall i :: 0 <= i < |diff| ==> diff[i].Valid()
    ensures FoundAsMeant(diff, HunksOf(Printed(diff)), side)
  {
    hide FoundAsMeant;
    hide HunksOf;
    var others, rest := diff[1..], RestOfPrinted(diff);
    PrintedRangesStep(diff, side);
    assert FoundAsMeant(others, rest, side) by {
      if |diff| > 1 {
        PrintedRanges(others, side);
      } else {
        NothingFoundInNothing(side);
      }
    }
    FoundStep(diff, HunksOf(Printed(diff)), rest, side);
  }

  lemma NothingFoundInNothing(side: Side)
    ensures FoundAsMeant([], [], side)
  {
  }

  lemma FoundStep(diff: seq<DiffLine>, found: seq<Hunk>, rest: seq<Hunk>, side: Side)
    requires diff != [] && FoundAsMeant(diff[1..], rest, side)
    requires RangesOf(found, side) ==
             (RangesOf(diff[0].Hunks(), side) + RangesOf(diff[0].Strays(), side)) + RangesOf(rest, side)
    requires RangesOf(HeaderHunks(diff), side) ==
             RangesOf(diff[0].Hunks(), side) + RangesOf(HeaderHunks(diff[1..]), side)
    ensures FoundAsMeant(diff, found, side)
  {
    NoStraysStep(diff, side);
    hide RangesOf;
    hide HeaderHunks;
    hide NoStrays;
    var own, strays := RangesOf(diff[0].Hunks(), side), RangesOf(diff[0].Strays(), side);
    if strays == [] {
      assert own + strays == own;
    }
  }

  /** Main result: reading a printed diff returns exactly the non-empty ranges of the chosen
      side in order, if and only if no line hides another header behind a carriage return or
      a Unicode line separator. */
  lemma HunkRangesUndoPrinting(diff: seq<DiffLine>, side: Side)
    requires diff != [] && forall i :: 0 <= i < |diff| ==> diff[i].Valid()
    ensures RangesOf(HunksOf(Printed(diff)), side) == RangesOf(HeaderHunks(diff), side) <==> NoStrays(diff, side)
  {
    PrintedRanges(diff, side);
  }

  /** No line hides a header of any kind. */
  ghost predicate AllPlain(diff: seq<DiffLine>) {
    forall i :: 0 <= i < |diff| ==> diff[i].Strays() == []
  }

  /** Without strays exactly the headers are found; with them, strictly more hunks are. */
  ghost predicate HunksAsMeant(diff: seq<DiffLine>, found: seq<Hunk>) {
    if AllPlain(diff) then found == HeaderHunks(diff) else |found| > |HeaderHunks(diff)|
  }

  lemma {:induction false} PrintedHunks(diff: seq<DiffLine>)
    requires diff != [] && forall i :: 0 <= i < |diff| ==> diff[i].Valid()
    ensures HunksAsMeant(diff, HunksOf(Printed(diff)))
  {
    hide HunksOf;
    hide HunksIn;
    hide HunksAsMeant;
    HunksOfPrinted(diff);
    LineHunks(diff[0]);
    var others, rest := diff[1..], RestOfPrinted(diff);
    if |diff| == 1 {
      assert others == [];
      NoHunksInNothing();
    } else {
      PrintedHunks(others);
    }
    HunksAsMeantStep(diff, HunksOf(Printed(diff)), rest);
  }

  lemma NoHunksInNothing()
    ensures HunksAsMeant([], [])
  {
  }

  lemma HunksAsMeantStep(diff: seq<DiffLine>, found: seq<Hunk>, rest: seq<Hunk>)
    requires diff != [] && HunksAsMeant(diff[1..], rest)
    requires found == (diff[0].Hunks() + diff[0].Strays()) + rest
    ensures HunksAsMeant(diff, found)
  {
    hide AllPlain;
    hide HunksIn;
    AllPlainStep(diff);
    var own, strays := diff[0].Hunks(), diff[0].Strays();
    if strays == [] {
      assert own + strays == own;
    }
  }

  lemma AllPlainStep(diff: seq<DiffLine>)
    requires diff != []
    ensures AllPlain(diff) <==> diff[0].Strays() == [] && AllPlain(diff[1..])
  {
    hide HunksIn;
    assert forall i :: 0 <= i < |diff[1..]| ==> diff[1..][i] == diff[i + 1];
  }

  /** The same for the hunks themselves, as fix mode reads them. */
  lemma HunksUndoPrinting(diff: seq<DiffLine>)
    requires diff != [] && forall i :: 0 <= i < |diff| ==> diff[i].Valid()
    ensures HunksOf(Printed(diff)) == HeaderHunks(diff) <==> AllPlain(diff)
  {
    PrintedHunks(diff);
  }

  /** Whatever the text, the ranges read from it are not empty. */
  lemma {:induction false} RangesAreNonEmpty(hunks: seq<Hunk>, side: Side)
    ensures forall i :: 0 <= i < |RangesOf(hunks, side)| ==>
                          RangesOf(hunks, side)[i].first <= RangesOf(hunks, side)[i].last
  {
    if hunks == [] {
    } else {
      RangesAreNonEmpty(hunks[1..], side);
    }
  }

  /** What fails: a line whose text carries a header behind a carriage return makes the
      script see a hunk that is not there. */
  lemma CarriageReturnHidesHeader(text: string, hidden: Hunk)
    requires Free(text, LINE_TERMINATORS)
    ensures Other(text + ['\r'] + PrintHeader(hidden)).Strays() == [hidden]
  {
    var header := PrintHeader(hidden);
    PrintedHeaderIsOneLine(hidden);
    ParsePrintedHeader(hidden, "");
    hide PrintHeader;
    hide ParseHeader;
    assert header + "" == header;
    SplitOfConcat(text, '\r', header, LINE_TERMINATORS);
    SplitOfFree(text, LINE_TERMINATORS);
    SplitOfFree(header, LINE_TERMINATORS);
    assert ([text] + [header])[1..] == [header];
    assert HunksIn([header]) == HeaderOn(header) + HunksIn([]);
  }
}
