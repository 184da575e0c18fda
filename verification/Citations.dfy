/** Citations of source line ranges: printing, parsing and overlap. */
module Citations {
  import opened Wrappers

  datatype SourceReference = SourceReference(sourceId: string, startLine: int, endLine: int)

  //
  // Decimal numbers.
  //

  predicate IsDigit(c: char) { '0' <= c <= '9' }

  predicate AllDigits(s: string) { forall i :: 0 <= i < |s| ==> IsDigit(s[i]) }

  function DigitChar(d: nat): (c: char)
    requires d < 10
    ensures IsDigit(c) && c as int == '0' as int + d
  {
    ('0' as int + d) as char
  }

  function DigitValue(c: char): nat { if IsDigit(c) then c as int - '0' as int else 0 }

  /** At least `w` digits, with leading zeros. */
  function Padded(n: nat, w: nat): (s: string)
    ensures |s| >= w && AllDigits(s)
    decreases n + w
  {
    if n == 0 && w == 0 then ""
    else Padded(n / 10, if w == 0 then 0 else w - 1) + [DigitChar(n % 10)]
  }

  /** `int` of a digit string. */
  function Value(s: string): nat {
    if s == "" then 0 else Value(s[..|s|-1]) * 10 + DigitValue(s[|s|-1])
  }

  function Pow10(w: nat): nat { if w == 0 then 1 else 10 * Pow10(w - 1) }

  lemma {:induction false} ValueOfPadded(n: nat, w: nat)
    ensures Value(Padded(n, w)) == n
    decreases n + w
  {
    if n != 0 || w != 0 {
      var v := if w == 0 then 0 else w - 1;
      ValueOfPadded(n / 10, v);
      var s := Padded(n, w);
      assert s[..|s|-1] == Padded(n / 10, v);
    }
  }

  lemma {:induction false} ValueBelow(s: string)
    ensures Value(s) < Pow10(|s|)
  {
    if s != "" { ValueBelow(s[..|s|-1]); }
  }

  lemma {:induction false} PaddedLength(n: nat, w: nat)
    requires n < Pow10(w)
    ensures |Padded(n, w)| == w
    decreases w
  {
    if w > 0 { PaddedLength(n / 10, w - 1); }
  }

  lemma {:induction false} PaddedOfValue(s: string)
    requires AllDigits(s)
    ensures Padded(Value(s), |s|) == s
  {
    if s != "" {
      var front, last := s[..|s|-1], s[|s|-1];
      PaddedOfValue(front);
      assert Value(s) / 10 == Value(front) && Value(s) % 10 == DigitValue(last);
      assert s == front + [last];
    }
  }

  lemma Pow10Of6()
    ensures Pow10(6) == 1000000
  {
    assert Pow10(1) == 10 && Pow10(2) == 100 && Pow10(3) == 1000;
    assert Pow10(4) == 10000 && Pow10(5) == 100000;
  }

  //
  // Printing and parsing.
  //

  /** `{n:06d}`: the sign counts towards the width. */
  function SixWide(n: int): string {
    if n >= 0 then Padded(n, 6) else "-" + Padded(-n, 5)
  }

  function Print(r: SourceReference): string {
    if r.startLine == r.endLine
    then r.sourceId + ":L" + SixWide(r.startLine)
    else r.sourceId + ":L" + SixWide(r.startLine) + "-L" + SixWide(r.endLine)
  }

  predicate IsSourceId(s: string) {
    |s| == 7 && s[..4] in {"SRC-", "GOV-"} && AllDigits(s[4..])
  }

  /** A source id is SRC- or GOV- and three digits. */
  lemma SourceIds(s: string)
    ensures IsSourceId(s) <==> exists n :: 0 <= n < 1000 && (s == "SRC-" + Padded(n, 3) || s == "GOV-" + Padded(n, 3))
  {
    assert Pow10(3) == 1000 by { assert Pow10(1) == 10 && Pow10(2) == 100; }
    if IsSourceId(s) {
      var digits := s[4..];
      PaddedOfValue(digits);
      ValueBelow(digits);
      assert s == s[..4] + Padded(Value(digits), 3);
    }
    if n :| 0 <= n < 1000 && (s == "SRC-" + Padded(n, 3) || s == "GOV-" + Padded(n, 3)) {
      PaddedLength(n, 3);
      assert s[4..] == Padded(n, 3);
      assert s[..4] == "SRC-" || s[..4] == "GOV-";
    }
  }

  /** A source id and one line. */
  predicate OneEnded(v: string) {
    |v| == 15 && IsSourceId(v[..7]) && v[7..9] == ":L" && AllDigits(v[9..15])
  }

  /** A source id and a first and a last line. */
  predicate TwoEnded(v: string) {
    && |v| == 23 && IsSourceId(v[..7]) && v[7..9] == ":L" && AllDigits(v[9..15])
    && v[15..17] == "-L" && AllDigits(v[17..])
  }

  function Parse(v: string): Option<SourceReference> {
    if !OneEnded(v) && !TwoEnded(v) then None
    else
      var start := Value(v[9..15]);
      var end := if TwoEnded(v) then Value(v[17..]) else start;
      if start < 1 || end < start then None else Some(SourceReference(v[..7], start, end))
  }

  lemma PrintParts(id: string, start: nat, end: nat)
    requires |id| == 7 && start <= 999999 && end <= 999999
    ensures var v := id + ":L" + SixWide(start);
            |v| == 15 && v[..7] == id && v[7..9] == ":L" && v[9..15] == Padded(start, 6)
    ensures var v := id + ":L" + SixWide(start) + "-L" + SixWide(end);
            && |v| == 23 && v[..7] == id && v[7..9] == ":L" && v[9..15] == Padded(start, 6)
            && v[15..17] == "-L" && v[17..] == Padded(end, 6)
  {
    Pow10Of6();
    PaddedLength(start, 6);
    PaddedLength(end, 6);
  }

  /** Printing then parsing gives the reference back exactly for a well-formed source id and
      1 <= start <= end <= 999999. */
  lemma ParseOfPrint(r: SourceReference)
    ensures Parse(Print(r)) == Some(r) <==> IsSourceId(r.sourceId) && 1 <= r.startLine <= r.endLine <= 999999
  {
    if IsSourceId(r.sourceId) && 1 <= r.startLine <= r.endLine <= 999999 {
      PrintParts(r.sourceId, r.startLine, r.endLine);
      ValueOfPadded(r.startLine, 6);
      ValueOfPadded(r.endLine, 6);
    }
    if Parse(Print(r)) == Some(r) {
      ParsedInRange(Print(r));
    }
  }

  lemma ParsedInRange(v: string)
    requires Parse(v).Some?
    ensures var r := Parse(v).value; IsSourceId(r.sourceId) && 1 <= r.startLine <= r.endLine <= 999999
  {
    Pow10Of6();
    ValueBelow(v[9..15]);
    if TwoEnded(v) { ValueBelow(v[17..]); }
  }

  /** Parse, print, parse again: the same reference, for every accepted string. */
  lemma ParsePrintParse(v: string)
    requires Parse(v).Some?
    ensures Parse(Print(Parse(v).value)) == Parse(v)
  {
    ParsedInRange(v);
    ParseOfPrint(Parse(v).value);
  }

  /** Printing restores the very text except for a two-ended citation of a single line. */
  lemma PrintOfParse(v: string)
    requires Parse(v).Some?
    ensures Print(Parse(v).value) == v <==> OneEnded(v) || Parse(v).value.startLine != Parse(v).value.endLine
  {
    var r := Parse(v).value;
    PaddedOfValue(v[9..15]);
    if TwoEnded(v) {
      PaddedOfValue(v[17..]);
      assert v == v[..7] + ":L" + v[9..15] + "-L" + v[17..] by {
        assert v == v[..7] + v[7..9] + v[9..15] + v[15..17] + v[17..];
      }
      ParsedInRange(v);
      PrintParts(r.sourceId, r.startLine, r.endLine);
    } else {
      assert v == v[..7] + ":L" + v[9..15] by { assert v == v[..7] + v[7..9] + v[9..15]; }
    }
  }

  //
  // Overlap.
  //

  predicate ReferencesOverlap(a: SourceReference, b: SourceReference) {
    a.sourceId == b.sourceId && a.startLine <= b.endLine && b.startLine <= a.endLine
  }

  predicate Cites(r: SourceReference, line: int) { r.startLine <= line <= r.endLine }

  /** Two proper ranges overlap exactly when they cite a common line of the same source. */
  lemma OverlapIsCommonLine(a: SourceReference, b: SourceReference)
    requires a.startLine <= a.endLine && b.startLine <= b.endLine
    ensures ReferencesOverlap(a, b) <==> a.sourceId == b.sourceId && exists n :: Cites(a, n) && Cites(b, n)
  {
    var n := if a.startLine < b.startLine then b.startLine else a.startLine;
    if ReferencesOverlap(a, b) { assert Cites(a, n) && Cites(b, n); }
  }

  /** The repair script's own grammar: SRC sources with both ends, in any order. */
  predicate ScriptCitation(v: string) { TwoEnded(v) && v[..4] == "SRC-" }

  /** The repair script's overlap, on the citation texts. */
  predicate ScriptOverlaps(left: string, right: string) {
    && ScriptCitation(left) && ScriptCitation(right)
    && left[..7] == right[..7]
    && Value(left[9..15]) <= Value(right[17..]) && Value(left[17..]) >= Value(right[9..15])
  }

  /** On parsable citations the script agrees with the library exactly where both are two-ended
      SRC citations, and says no everywhere else. */
  lemma ScriptAgrees(left: string, right: string)
    requires Parse(left).Some? && Parse(right).Some?
    ensures ScriptOverlaps(left, right) <==>
              && ScriptCitation(left) && ScriptCitation(right)
              && ReferencesOverlap(Parse(left).value, Parse(right).value)
  {
  }

  /** So for two-ended SRC citations the script finds exactly the common lines. */
  lemma ScriptOverlapIsCommonLine(left: string, right: string)
    requires Parse(left).Some? && Parse(right).Some? && ScriptCitation(left) && ScriptCitation(right)
    ensures ScriptOverlaps(left, right) <==>
              && Parse(left).value.sourceId == Parse(right).value.sourceId
              && exists n :: Cites(Parse(left).value, n) && Cites(Parse(right).value, n)
  {
    ScriptAgrees(left, right);
    OverlapIsCommonLine(Parse(left).value, Parse(right).value);
  }

  /** A citation overlaps itself exactly when it is a two-ended SRC citation in order. */
  lemma SelfOverlap(v: string)
    ensures ScriptOverlaps(v, v) <==> ScriptCitation(v) && Value(v[9..15]) <= Value(v[17..])
    ensures Parse(v).Some? ==> (ScriptOverlaps(v, v) <==> ScriptCitation(v))
  {
  }
}
