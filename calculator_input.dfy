/**
 * The text-mode form of the calculator: each line of the text is a form row
 * with an owed and a paid field. Covers the line codec, the numeric sanitiser,
 * the per-row error and lock rules, and the two field-change handlers, which
 * return the new text handed to `onChange`.
 */
module CalculatorInput {
  import opened Options
  import opened JsStrings
  import opened ChangeCalculator

  /** The owed and paid fields of one form row. */
  datatype Fields = Fields(owed: string, paid: string)

  /** The server results a row is flagged with. */
  const ERROR_RESULTS: seq<string> := [INVALID_LINE, INVALID_AMOUNTS, INSUFFICIENT_PAYMENT]

  // ===========================================================================
  // parseLine / formatLine

  /** `parseLine`: the first two comma fields, trimmed; a missing one is empty. */
  function ParseLine(line: string): (f: Fields)
    ensures IsTrimmed(f.owed) && IsTrimmed(f.paid)
    ensures ',' !in f.owed && ',' !in f.paid
    ensures forall c :: (c in f.owed || c in f.paid) ==> c in line
  {
    var pieces := Split(line, ',');
    var parts := MapTrim(pieces);
    SplitChars(line, ',', 0);
    assert pieces[0] in pieces;
    if |parts| >= 2 then
      SplitChars(line, ',', 1);
      assert pieces[1] in pieces;
      Fields(parts[0], parts[1])
    else
      Fields(parts[0], "")
  }

  /** `formatLine`. */
  function FormatLine(f: Fields): string {
    f.owed + "," + f.paid
  }

  /** Formatting then parsing gives the fields back when they are trimmed and
      free of commas. */
  lemma ParseFormatLine(f: Fields)
    requires IsTrimmed(f.owed) && IsTrimmed(f.paid)
    requires ',' !in f.owed && ',' !in f.paid
    ensures ParseLine(FormatLine(f)) == f
  {
    assert FormatLine(f) == f.owed + [','] + f.paid;
    SplitPair(f.owed, ',', f.paid);
    TrimOfTrimmed(f.owed);
    TrimOfTrimmed(f.paid);
  }

  /** A row without a comma has an empty paid field. */
  lemma ParseLineWithoutComma(line: string)
    requires ',' !in line
    ensures ParseLine(line) == Fields(Trim(line), "")
  {
    SplitAvoiding(line, ',');
  }

  /** Parsing is a fixed point of format-then-parse: a formatted row reads back
      as the row it was formatted from. */
  lemma ParseLineStable(line: string)
    ensures ParseLine(FormatLine(ParseLine(line))) == ParseLine(line)
  {
    ParseFormatLine(ParseLine(line));
  }

  // ===========================================================================
  // isErrorResult / isValidLine

  /** `isErrorResult`. */
  predicate IsErrorResult(result: string) {
    result in ERROR_RESULTS
  }

  /** The four status literals differ from each other and none starts with a digit. */
  lemma StatusLiteralsDistinct()
    ensures INVALID_LINE != INVALID_AMOUNTS && INVALID_LINE != INSUFFICIENT_PAYMENT
    ensures INVALID_AMOUNTS != INSUFFICIENT_PAYMENT
    ensures NO_CHANGE != INVALID_LINE && NO_CHANGE != INVALID_AMOUNTS && NO_CHANGE != INSUFFICIENT_PAYMENT
    ensures !IsDigit(INVALID_LINE[0]) && !IsDigit(INVALID_AMOUNTS[0])
    ensures !IsDigit(INSUFFICIENT_PAYMENT[0]) && !IsDigit(NO_CHANGE[0])
  {
    assert INVALID_LINE[8] != INVALID_AMOUNTS[8];
    assert INVALID_LINE[0] != INSUFFICIENT_PAYMENT[1];
    assert INVALID_AMOUNTS[2] != INSUFFICIENT_PAYMENT[2];
    assert NO_CHANGE[0] != INVALID_LINE[0];
    assert NO_CHANGE[0] != INVALID_AMOUNTS[0];
    assert NO_CHANGE[0] != INSUFFICIENT_PAYMENT[0];
  }

  /** "No change" and change texts are not flagged. */
  lemma NotErrorResult(r: string)
    requires r == NO_CHANGE || (r != [] && IsDigit(r[0]))
    ensures !IsErrorResult(r)
  {
    StatusLiteralsDistinct();
    if r != NO_CHANGE {
      assert r[0] != INVALID_LINE[0] && r[0] != INVALID_AMOUNTS[0] && r[0] != INSUFFICIENT_PAYMENT[0];
    }
  }

  /** A server result is flagged exactly when the line did not give two amounts
      or the payment did not cover the amount owed; change texts and
      "No change" never are. */
  lemma ErrorResultOfLine(line: string, rand: nat -> Fraction, cursor: nat)
    ensures var r := ProcessLine(line, rand, cursor).text;
      var f := MapTrim(Split(line, ','));
      var owed := if |f| >= 2 then ParseToCents(f[0]) else None;
      var paid := if |f| >= 2 then ParseToCents(f[1]) else None;
      IsErrorResult(r) <==> !(owed.Some? && paid.Some? && paid.value >= owed.value)
  {
    ProcessLineClassified(line, rand, cursor);
    SplitHasSecond(line, ',');
    var r := ProcessLine(line, rand, cursor).text;
    var f := MapTrim(Split(line, ','));
    var owed := if |f| >= 2 then ParseToCents(f[0]) else None;
    var paid := if |f| >= 2 then ParseToCents(f[1]) else None;
    if owed.Some? && paid.Some? && paid.value >= owed.value {
      NotErrorResult(r);
    } else if ',' !in line {
      assert r == INVALID_LINE;
    } else if owed.None? || paid.None? {
      assert r == INVALID_AMOUNTS;
    } else {
      assert r == INSUFFICIENT_PAYMENT;
    }
  }

  /** `isValidLine`: both fields are non-negative amounts. */
  predicate IsValidLine(f: Fields) {
    ParseToCents(f.owed).Some? && ParseToCents(f.paid).Some?
  }

  /** The server never answers "Invalid line" or "Invalid amounts" for a row the
      form counts as valid. */
  lemma ValidLineAccepted(line: string, rand: nat -> Fraction, cursor: nat)
    requires IsValidLine(ParseLine(line))
    ensures ProcessLine(line, rand, cursor).text != INVALID_LINE
    ensures ProcessLine(line, rand, cursor).text != INVALID_AMOUNTS
  {
    ProcessLineClassified(line, rand, cursor);
    assert ParseLine(line).paid != [];
    SplitHasSecond(line, ',');
    StatusLiteralsDistinct();
  }

  // ===========================================================================
  // sanitizeNumeric

  /** `sanitizeNumeric`: keep digits and dots; with several dots, keep the first
      and drop the others; with one dot, cut the fraction to two digits. */
  function SanitizeNumeric(value: string): (r: string)
    ensures AllNumeric(r) && AtMostOneDot(r)
  {
    var cleaned := KeepNumeric(value);
    var parts := Split(cleaned, '.');
    SplitNumeric(cleaned);
    assert parts[0] in parts;
    if |parts| > 2 then
      ConcatAvoids(parts[1..], '.');
      ConcatNumeric(parts[1..]);
      OneDotJoin(parts[0], Concat(parts[1..]));
      parts[0] + "." + Concat(parts[1..])
    else if |parts| == 2 && |parts[1]| > 2 then
      assert parts[1] in parts;
      assert '.' !in parts[1][..2] by {
        assert forall c :: c in parts[1][..2] ==> c in parts[1];
      }
      OneDotJoin(parts[0], parts[1][..2]);
      parts[0] + "." + parts[1][..2]
    else
      JoinSplit(cleaned, '.');
      if |parts| == 2 then
        assert parts[1] in parts;
        OneDotJoin(parts[0], parts[1]);
        cleaned
      else
        cleaned
  }

  /** When the cleaned text has exactly one dot, at most two digits follow it. */
  lemma SanitizeOneDot(value: string)
    requires |Split(KeepNumeric(value), '.')| == 2
    ensures ShortFraction(SanitizeNumeric(value))
  {
    var cleaned := KeepNumeric(value);
    var parts := Split(cleaned, '.');
    assert parts[0] in parts && parts[1] in parts;
    if |parts[1]| > 2 {
      assert '.' !in parts[1][..2] by {
        assert forall c :: c in parts[1][..2] ==> c in parts[1];
      }
      OneDotJoin(parts[0], parts[1][..2]);
    } else {
      JoinSplit(cleaned, '.');
      OneDotJoin(parts[0], parts[1]);
    }
  }

  /** A well-formed amount passes through unchanged. */
  lemma SanitizeOfAmount(value: string)
    requires AllNumeric(value) && AtMostOneDot(value) && ShortFraction(value)
    ensures SanitizeNumeric(value) == value
  {
    KeepNumericOfNumeric(value);
    SplitOneDot(value);
  }

  /** With two dots the second one is dropped and the fraction is not cut. */
  lemma SanitizeDropsSecondDot(a: string, b: string, c: string)
    requires AllDigits(a) && AllDigits(b) && AllDigits(c)
    ensures SanitizeNumeric(a + "." + b + "." + c) == a + "." + b + c
  {
    var tail := b + "." + c;
    var s := a + "." + tail;
    assert s == a + "." + b + "." + c;
    NumericDotJoin(b, c);
    NumericDotJoin(a, tail);
    KeepNumericOfNumeric(s);
    DigitsAvoid(a, '.');
    DigitsAvoid(b, '.');
    DigitsAvoid(c, '.');
    SplitPair(b, '.', c);
    SplitCons(a, '.', tail);
    var parts := Split(s, '.');
    assert parts == [a, b, c];
    assert parts[1..] == [b, c];
    assert Concat([c]) == c;
  }

  /** With one dot and more than two digits after it, the fraction is cut to
      its first two digits. */
  lemma SanitizeCutsFraction(a: string, d: string)
    requires AllDigits(a) && AllDigits(d) && |d| > 2
    ensures SanitizeNumeric(a + "." + d) == a + "." + d[..2]
  {
    var s := a + "." + d;
    NumericDotJoin(a, d);
    KeepNumericOfNumeric(s);
    DigitsAvoid(a, '.');
    DigitsAvoid(d, '.');
    assert s == a + ['.'] + d;
    SplitPair(a, '.', d);
  }

  /** Sanitising is not idempotent: a two-dot value keeps its whole fraction on
      the first pass, and the second pass cuts it ("1.2.345" gives "1.2345",
      then "1.23"). */
  lemma SanitizeNotIdempotent(a: string, b: string, c: string)
    requires AllDigits(a) && AllDigits(b) && AllDigits(c) && |b| + |c| > 2
    ensures SanitizeNumeric(SanitizeNumeric(a + "." + b + "." + c)) != SanitizeNumeric(a + "." + b + "." + c)
  {
    SanitizeDropsSecondDot(a, b, c);
    assert AllDigits(b + c) by {
      forall i | 0 <= i < |b + c| ensures IsDigit((b + c)[i]) {
        if i >= |b| {
          assert (b + c)[i] == c[i - |b|];
        }
      }
    }
    SanitizeCutsFraction(a, b + c);
    assert a + "." + b + c == a + "." + (b + c);
  }

  // ===========================================================================
  // getLineError and the lock rule

  /** A row with something in either field. */
  predicate HasLineContent(f: Fields) {
    Trim(f.owed) != [] || Trim(f.paid) != []
  }

  /** `getLineError(formIndex)`: the server result for this row, found by
      counting the rows with content before it, when it is an error literal. */
  function GetLineError(parsed: seq<Fields>, outputLines: seq<string>, formIndex: nat): (e: Option<string>)
    requires formIndex < |parsed|
    ensures e.Some? ==> IsErrorResult(e.value) && HasLineContent(parsed[formIndex])
  {
    var submittedIndex := |Filter(parsed[..formIndex], HasLineContent)|;
    if !HasLineContent(parsed[formIndex]) || submittedIndex >= |outputLines| then None
    else
      var result := outputLines[submittedIndex];
      if IsErrorResult(result) then Some(result) else None
  }

  /** The error shown on a row is the output at that row's position among the
      rows with content. */
  lemma LineErrorPosition(parsed: seq<Fields>, outputLines: seq<string>, formIndex: nat)
    requires formIndex < |parsed| && GetLineError(parsed, outputLines, formIndex).Some?
    ensures var k := |Filter(parsed[..formIndex], HasLineContent)|;
      && k < |Filter(parsed, HasLineContent)|
      && Filter(parsed, HasLineContent)[k] == parsed[formIndex]
      && GetLineError(parsed, outputLines, formIndex) == Some(outputLines[k])
  {
    FilterRank(parsed, HasLineContent, formIndex);
  }

  /** The lock rule: a valid row is locked while fewer than `computedCount`
      valid rows come before it. */
  predicate IsLocked(parsed: seq<Fields>, i: nat, computedCount: int)
    requires i < |parsed|
  {
    computedCount > 0 && IsValidLine(parsed[i]) && |Filter(parsed[..i], IsValidLine)| < computedCount
  }

  /** The locked rows are the first `computedCount` valid rows: a locked row is
      the valid row at its rank, and that rank is below the count. */
  lemma LockedRowsAreFirstValid(parsed: seq<Fields>, i: nat, computedCount: int)
    requires i < |parsed|
    ensures IsLocked(parsed, i, computedCount) <==>
      && IsValidLine(parsed[i])
      && var k := |Filter(parsed[..i], IsValidLine)|;
         && k < computedCount && k < |Filter(parsed, IsValidLine)|
         && Filter(parsed, IsValidLine)[k] == parsed[i]
  {
    var k := |Filter(parsed[..i], IsValidLine)|;
    if IsValidLine(parsed[i]) {
      FilterRank(parsed, IsValidLine, i);
      assert IsLocked(parsed, i, computedCount) <==> k < computedCount;
    }
  }

  // ===========================================================================
  // handleOwedChange / handlePaidChange

  /** The rows of a text: `value.split(/\r?\n/).map(parseLine)`. */
  function ParsedRows(value: string): (rows: seq<Fields>)
    ensures |rows| == |SplitLines(value)|
    ensures forall i :: 0 <= i < |rows| ==> rows[i] == ParseLine(SplitLines(value)[i])
  {
    var lines := SplitLines(value);
    seq(|lines|, i requires 0 <= i < |lines| => ParseLine(lines[i]))
  }

  function FormattedRows(rows: seq<Fields>): (lines: seq<string>)
    ensures |lines| == |rows|
    ensures forall i :: 0 <= i < |rows| ==> lines[i] == FormatLine(rows[i])
  {
    seq(|rows|, i requires 0 <= i < |rows| => FormatLine(rows[i]))
  }

  /** `handleOwedChange`: the row at `lineIndex` takes the sanitised owed value
      and keeps its paid field; the new text is every row formatted again. */
  function HandleOwedChange(value: string, lineIndex: nat, owed: string): string
    requires lineIndex < |SplitLines(value)|
  {
    var parsed := ParsedRows(value);
    var next := parsed[lineIndex := Fields(SanitizeNumeric(owed), parsed[lineIndex].paid)];
    Join(FormattedRows(next), '\n')
  }

  /** `handlePaidChange`: the same for the paid field. */
  function HandlePaidChange(value: string, lineIndex: nat, paid: string): string
    requires lineIndex < |SplitLines(value)|
  {
    var parsed := ParsedRows(value);
    var next := parsed[lineIndex := Fields(parsed[lineIndex].owed, SanitizeNumeric(paid))];
    Join(FormattedRows(next), '\n')
  }

  /** A sanitised field is trimmed and holds no comma or line feed. */
  lemma SanitizedField(value: string)
    ensures var s := SanitizeNumeric(value);
      IsTrimmed(s) && ',' !in s && '\n' !in s
  {
    var s := SanitizeNumeric(value);
    if s != [] {
      assert IsNumericChar(s[0]) && IsNumericChar(s[|s| - 1]);
    }
    forall c | c in s ensures c != ',' && c != '\n' {
      var i :| 0 <= i < |s| && s[i] == c;
      assert IsNumericChar(s[i]);
    }
  }

  /** Rows whose fields are clean survive being joined and split into lines. */
  lemma RowsRoundTrip(rows: seq<Fields>)
    requires |rows| >= 1
    requires forall i :: 0 <= i < |rows| ==>
      IsTrimmed(rows[i].paid) && '\n' !in rows[i].owed && '\n' !in rows[i].paid
    ensures SplitLines(Join(FormattedRows(rows), '\n')) == FormattedRows(rows)
  {
    var lines := FormattedRows(rows);
    forall l | l in lines ensures '\n' !in l {
      var i :| 0 <= i < |lines| && lines[i] == l;
      assert l == rows[i].owed + [','] + rows[i].paid;
    }
    SplitJoin(lines, '\n');
    forall p | p in Split(Join(lines, '\n'), '\n') ensures p == [] || p[|p| - 1] != '\r' {
      var i :| 0 <= i < |lines| && lines[i] == p;
      var f := rows[i];
      assert p == f.owed + [','] + f.paid;
      if f.paid != [] {
        assert p[|p| - 1] == f.paid[|f.paid| - 1];
      }
    }
    SplitLinesNoCr(Join(lines, '\n'));
  }

  /** Editing the owed field keeps the number of rows; the edited row holds the
      sanitised value and its old paid field, and every other row is its own
      parse formatted again. */
  lemma OwedChangeRows(value: string, lineIndex: nat, owed: string)
    requires lineIndex < |SplitLines(value)|
    ensures var lines := SplitLines(HandleOwedChange(value, lineIndex, owed));
      var old_ := SplitLines(value);
      && |lines| == |old_|
      && lines[lineIndex] == FormatLine(Fields(SanitizeNumeric(owed), ParseLine(old_[lineIndex]).paid))
      && forall j :: 0 <= j < |lines| && j != lineIndex ==> lines[j] == FormatLine(ParseLine(old_[j]))
  {
    var parsed := ParsedRows(value);
    var next := parsed[lineIndex := Fields(SanitizeNumeric(owed), parsed[lineIndex].paid)];
    SanitizedField(owed);
    forall i | 0 <= i < |next|
      ensures IsTrimmed(next[i].paid) && '\n' !in next[i].owed && '\n' !in next[i].paid
    {
      assert '\n' !in SplitLines(value)[i];
    }
    RowsRoundTrip(next);
  }

  /** The same for the paid field. */
  lemma PaidChangeRows(value: string, lineIndex: nat, paid: string)
    requires lineIndex < |SplitLines(value)|
    ensures var lines := SplitLines(HandlePaidChange(value, lineIndex, paid));
      var old_ := SplitLines(value);
      && |lines| == |old_|
      && lines[lineIndex] == FormatLine(Fields(ParseLine(old_[lineIndex]).owed, SanitizeNumeric(paid)))
      && forall j :: 0 <= j < |lines| && j != lineIndex ==> lines[j] == FormatLine(ParseLine(old_[j]))
  {
    var parsed := ParsedRows(value);
    var next := parsed[lineIndex := Fields(parsed[lineIndex].owed, SanitizeNumeric(paid))];
    SanitizedField(paid);
    forall i | 0 <= i < |next|
      ensures IsTrimmed(next[i].paid) && '\n' !in next[i].owed && '\n' !in next[i].paid
    {
      assert '\n' !in SplitLines(value)[i];
    }
    RowsRoundTrip(next);
  }
}
