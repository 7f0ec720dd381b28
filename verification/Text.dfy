/** The string operations the plugin relies on: split, join, and decimal numerals. */
module Text {

  ghost predicate Free(s: string, separators: set<char>) {
    forall i :: 0 <= i < |s| ==> s[i] !in separators
  }

  /** Where the first separator stands, or the length when there is none. */
  function FirstSeparator(s: string, separators: set<char>): (k: nat)
    ensures k <= |s| && Free(s[..k], separators)
    ensures k < |s| ==> s[k] in separators
  {
    if s == "" || s[0] in separators then 0
    else
      var k := FirstSeparator(s[1..], separators);
      assert s[..1 + k] == [s[0]] + s[1..][..k];
      1 + k
  }

  /** `s.split(/[...]/)`: always at least one piece. */
  function Split(s: string, separators: set<char>): (pieces: seq<string>)
    ensures |pieces| > 0
  {
    var k := FirstSeparator(s, separators);
    if k == |s| then [s] else [s[..k]] + Split(s[k + 1..], separators)
  }

  /** `pieces.join(separator)` */
  function Join(pieces: seq<string>, separator: char): string
    requires |pieces| > 0
  {
    if |pieces| == 1 then pieces[0]
    else pieces[0] + [separator] + Join(pieces[1..], separator)
  }

  lemma {:induction false} JoinUndoesSplit(s: string, c: char)
    ensures Join(Split(s, {c}), c) == s
  {
    hide Join;
    var k := FirstSeparator(s, {c});
    if k == |s| {
      JoinOne(s, c);
    } else {
      JoinUndoesSplit(s[k + 1..], c);
      JoinFirst(s[..k], Split(s[k + 1..], {c}), c);
    }
  }

  lemma JoinOne(piece: string, c: char)
    ensures Join([piece], c) == piece
  {
  }

  lemma JoinFirst(first: string, rest: seq<string>, c: char)
    requires |rest| > 0
    ensures Join([first] + rest, c) == first + [c] + Join(rest, c)
  {
    assert ([first] + rest)[1..] == rest;
  }

  /** No piece contains a separator. */
  lemma {:induction false} SplitPiecesAreFree(s: string, separators: set<char>)
    ensures forall piece :: piece in Split(s, separators) ==> Free(piece, separators)
  {
    var k := FirstSeparator(s, separators);
    if k == |s| {
      assert s[..k] == s;
    } else {
      SplitPiecesAreFree(s[k + 1..], separators);
    }
  }

  lemma FirstSeparatorIs(s: string, separators: set<char>, k: nat)
    requires k <= |s| && Free(s[..k], separators)
    requires k < |s| ==> s[k] in separators
    ensures FirstSeparator(s, separators) == k
  {
    var found := FirstSeparator(s, separators);
    assert forall i :: 0 <= i < k ==> s[..k][i] == s[i];
    assert forall i :: 0 <= i < found ==> s[..found][i] == s[i];
  }

  lemma SplitOfFree(s: string, separators: set<char>)
    requires Free(s, separators)
    ensures Split(s, separators) == [s]
  {
    FirstSeparatorIs(s, separators, |s|);
  }

  lemma SplitAtFirst(s: string, separators: set<char>, k: nat)
    requires k < |s| && Free(s[..k], separators) && s[k] in separators
    ensures Split(s, separators) == [s[..k]] + Split(s[k + 1..], separators)
  {
    FirstSeparatorIs(s, separators, k);
  }

  lemma {:induction false} SplitOfConcat(a: string, c: char, b: string, separators: set<char>)
    requires c in separators
    ensures Split(a + [c] + b, separators) == Split(a, separators) + Split(b, separators)
    decreases |a|
  {
    hide Split;
    hide FirstSeparator;
    var whole, k := a + [c] + b, FirstSeparator(a, separators);
    assert whole[..k] == a[..k];
    SplitAtFirst(whole, separators, k);
    if k == |a| {
      assert whole[k + 1..] == b;
      assert a[..k] == a;
      SplitOfFree(a, separators);
    } else {
      assert whole[k + 1..] == a[k + 1..] + [c] + b;
      SplitAtFirst(a, separators, k);
      SplitOfConcat(a[k + 1..], c, b, separators);
    }
  }

  lemma {:induction false} SplitUndoesJoin(pieces: seq<string>, c: char)
    requires |pieces| > 0
    requires forall piece :: piece in pieces ==> Free(piece, {c})
    ensures Split(Join(pieces, c), {c}) == pieces
  {
    assert pieces == [pieces[0]] + pieces[1..];
    assert pieces[0] in pieces;
    SplitOfFree(pieces[0], {c});
    if |pieces| == 1 {
    } else {
      SplitUndoesJoin(pieces[1..], c);
      SplitOfConcat(pieces[0], c, Join(pieces[1..], c), {c});
    }
  }

  // ---- decimal numerals -------------------------------------------------

  predicate IsDigit(c: char) {
    '0' <= c <= '9'
  }

  function DigitOf(d: nat): (c: char)
    requires d < 10
    ensures IsDigit(c) && DigitValue(c) == d
  {
    ('0' as int + d) as char
  }

  function DigitValue(c: char): (d: nat)
    requires IsDigit(c)
    ensures d < 10
  {
    c as int - '0' as int
  }

  predicate AllDigits(s: string) {
    forall i :: 0 <= i < |s| ==> IsDigit(s[i])
  }

  /** The template literal `${n}`. */
  function Decimal(n: nat): (s: string)
    ensures |s| > 0 && AllDigits(s)
  {
    if n < 10 then [DigitOf(n)] else Decimal(n / 10) + [DigitOf(n % 10)]
  }

  /** `Number(s)` on a string of digits. */
  function NumberOf(s: string): nat
    requires AllDigits(s)
  {
    if s == "" then 0 else 10 * NumberOf(s[..|s| - 1]) + DigitValue(s[|s| - 1])
  }

  lemma {:induction false} NumberOfDecimal(n: nat)
    ensures NumberOf(Decimal(n)) == n
  {
    if n >= 10 {
      NumberOfDecimal(n / 10);
      var s := Decimal(n);
      assert s[..|s| - 1] == Decimal(n / 10);
    } else {
      assert Decimal(n)[..0] == "";
    }
  }

  lemma {:induction false} DecimalInjective(m: nat, n: nat)
    ensures Decimal(m) == Decimal(n) ==> m == n
  {
    NumberOfDecimal(m);
    NumberOfDecimal(n);
  }

  /** The longest run of digits at the front of `s`, as `\d*` matches it. */
  function LeadingDigits(s: string): (k: nat)
    ensures k <= |s| && AllDigits(s[..k])
    ensures k < |s| ==> !IsDigit(s[k])
  {
    if s == "" || !IsDigit(s[0]) then 0
    else
      var k := LeadingDigits(s[1..]);
      assert s[..1 + k] == [s[0]] + s[1..][..k];
      1 + k
  }

  lemma {:induction false} LeadingDigitsOf(digits: string, rest: string)
    requires AllDigits(digits) && (rest == "" || !IsDigit(rest[0]))
    ensures LeadingDigits(digits + rest) == |digits|
  {
    var s := digits + rest;
    var k := LeadingDigits(s);
    assert forall i :: 0 <= i < |digits| ==> s[i] == digits[i];
    assert rest != "" ==> s[|digits|] == rest[0];
    assert forall i :: 0 <= i < k ==> s[..k][i] == s[i];
  }
}
