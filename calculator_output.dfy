/**
 * The output panel: each server result line is read back into (count, unit)
 * chips, and a chip is drawn as a bill when its unit is a dollar label.
 */
module CalculatorOutput {
  import opened Options
  import opened JsStrings
  import opened Denominations
  import opened ChangeCalculator

  /** One chip: a count and the unit text after it. */
  datatype DenomPart = DenomPart(count: nat, unit: string)

  // ===========================================================================
  // The segment pattern `^(\d+)\s+(.+)$`

  /** The length of the run of digits at the front. */
  function LeadingDigits(s: string): (n: nat)
    ensures n <= |s|
    ensures forall i :: 0 <= i < n ==> IsDigit(s[i])
    ensures n < |s| ==> !IsDigit(s[n])
  {
    if s != [] && IsDigit(s[0]) then 1 + LeadingDigits(s[1..]) else 0
  }

  /** The length of the run of white space at the front. */
  function LeadingSpaces(s: string): (n: nat)
    ensures n <= |s|
    ensures forall i :: 0 <= i < n ==> IsSpace(s[i])
    ensures n < |s| ==> !IsSpace(s[n])
  {
    if s != [] && IsSpace(s[0]) then 1 + LeadingSpaces(s[1..]) else 0
  }

  lemma {:induction false} LeadingDigitsOf(d: string, rest: string)
    requires AllDigits(d) && (rest == [] || !IsDigit(rest[0]))
    ensures LeadingDigits(d + rest) == |d|
  {
    if d != [] {
      assert (d + rest)[1..] == d[1..] + rest;
      LeadingDigitsOf(d[1..], rest);
    } else {
      assert d + rest == rest;
    }
  }

  /** Whether `seg` matches `^(\d+)\s+(.+)$`, and the count and unit it captures.
      `\d+` must take every leading digit; `\s+` takes every following space
      unless that leaves `.+` nothing, in which case it gives the last one back;
      `.+` takes the rest, which must hold no line terminator. */
  function MatchSegment(seg: string): Option<DenomPart> {
    var d := LeadingDigits(seg);
    var w := LeadingSpaces(seg[d..]);
    var tail := seg[d + w..];
    if d == 0 || w == 0 then None
    else if tail != [] then
      if forall i :: 0 <= i < |tail| ==> !IsLineTerminator(tail[i]) then
        Some(DenomPart(DigitsToNat(seg[..d]), tail))
      else None
    else if w >= 2 && !IsLineTerminator(seg[d + w - 1]) then
      Some(DenomPart(DigitsToNat(seg[..d]), [seg[d + w - 1]]))
    else None
  }

  /** A match starts with a digit, and its unit is a non-empty tail of the
      segment holding no line terminator. */
  lemma MatchSegmentShape(seg: string)
    ensures var m := MatchSegment(seg);
      m.Some? ==>
        && seg != [] && IsDigit(seg[0])
        && m.value.unit != [] && |m.value.unit| <= |seg|
        && m.value.unit == seg[|seg| - |m.value.unit|..]
        && forall i :: 0 <= i < |m.value.unit| ==> !IsLineTerminator(m.value.unit[i])
  {
    var d := LeadingDigits(seg);
    var w := LeadingSpaces(seg[d..]);
    if d > 0 && w >= 2 && d + w == |seg| {
      assert [seg[d + w - 1]] == seg[|seg| - 1..];
    }
  }

  /** A count rendered in decimal, one space and a printable label match the
      pattern, and the match captures that count and label. */
  lemma MatchPiece(n: nat, text: string)
    requires PrintableLabel(text)
    ensures MatchSegment(NatToString(n) + " " + text) == Some(DenomPart(n, text))
  {
    var d := NatToString(n);
    var seg := d + " " + text;
    CountThenRest(d, " " + text);
    assert seg == d + (" " + text);
    SpaceThenLabel(text);
    assert seg[|d| + 1..] == text;
    DigitsOfNatToString(n);
  }

  /** The digits of a count followed by text that starts with a non-digit split
      into exactly those digits and that text. */
  lemma CountThenRest(d: string, rest: string)
    requires d != [] && AllDigits(d) && rest != [] && !IsDigit(rest[0])
    ensures LeadingDigits(d + rest) == |d|
    ensures (d + rest)[|d|..] == rest && (d + rest)[..|d|] == d
  {
    LeadingDigitsOf(d, rest);
  }

  /** One space before a label is the whole run of white space. */
  lemma SpaceThenLabel(text: string)
    requires PrintableLabel(text)
    ensures LeadingSpaces(" " + text) == 1 && (" " + text)[1..] == text
  {
    assert (" " + text)[1..] == text;
  }

  /** A segment whose first character is not a digit never matches. */
  lemma MatchNeedsDigit(seg: string)
    requires seg == [] || !IsDigit(seg[0])
    ensures MatchSegment(seg) == None
  {
  }

  // ===========================================================================
  // parseChangeLine

  /** `line.split(',').map((s) => s.trim()).filter(Boolean)`. */
  function Segments(line: string): seq<string> {
    Compact(MapTrim(Split(line, ',')))
  }

  /** The match of every segment, in order. */
  function Matches(segs: seq<string>): (ms: seq<Option<DenomPart>>)
    ensures |ms| == |segs|
    ensures forall j :: 0 <= j < |segs| ==> ms[j] == MatchSegment(segs[j])
  {
    seq(|segs|, j requires 0 <= j < |segs| => MatchSegment(segs[j]))
  }

  /** The chips of the matches that succeeded, in order. */
  function Somes(ms: seq<Option<DenomPart>>): (parts: seq<DenomPart>)
    ensures |parts| <= |ms|
  {
    if ms == [] then []
    else
      var init := Somes(ms[..|ms| - 1]);
      match ms[|ms| - 1]
      case Some(p) => init + [p]
      case None => init
  }

  /** The chips of the matching segments, in order. */
  function ParsedParts(segs: seq<string>): seq<DenomPart> {
    Somes(Matches(segs))
  }

  /** What `parseChangeLine(line)` returns: null for a blank line or one with
      no matching segment, otherwise the chips. */
  function ChangeLineParts(line: string): (r: Option<seq<DenomPart>>)
    ensures r.Some? ==> r.value != [] && Trim(line) != []
  {
    if Trim(line) == [] then None
    else
      var parts := ParsedParts(Segments(line));
      if parts == [] then None else Some(parts)
  }

  /** `parseChangeLine`: a pass over the segments pushing a chip per match. */
  method ParseChangeLine(line: string) returns (r: Option<seq<DenomPart>>)
    ensures r == ChangeLineParts(line)
  {
    if Trim(line) == [] {
      return None;
    }
    var segments := Segments(line);
    ghost var ms := Matches(segments);
    var parts: seq<DenomPart> := [];
    for i := 0 to |segments|
      invariant parts == Somes(ms[..i])
    {
      assert ms[..i + 1][..i] == ms[..i];
      var m := MatchSegment(segments[i]);
      assert m == ms[i];
      if m.Some? {
        parts := parts + [m.value];
      }
    }
    assert ms[..|segments|] == ms;
    if |parts| > 0 {
      r := Some(parts);
    } else {
      r := None;
    }
  }

  /** No failed match yields a chip. */
  lemma {:induction false} SomesNone(ms: seq<Option<DenomPart>>)
    requires forall j :: 0 <= j < |ms| ==> ms[j].None?
    ensures Somes(ms) == []
  {
    if ms != [] {
      SomesNone(ms[..|ms| - 1]);
    }
  }

  /** No segment that starts with a non-digit yields a chip. */
  lemma ParsedPartsNone(segs: seq<string>)
    requires forall s :: s in segs ==> s == [] || !IsDigit(s[0])
    ensures ParsedParts(segs) == []
  {
    var ms := Matches(segs);
    forall j | 0 <= j < |ms| ensures ms[j].None? {
      assert segs[j] in segs;
      MatchNeedsDigit(segs[j]);
    }
    SomesNone(ms);
  }

  /** A one-segment line that does not start with a digit gives null. */
  lemma PlainLineHasNoChips(line: string)
    requires ',' !in line && line != [] && IsTrimmed(line) && !IsDigit(line[0])
    ensures ChangeLineParts(line) == None
  {
    SplitAvoiding(line, ',');
    TrimOfTrimmed(line);
    assert MapTrim(Split(line, ',')) == [line];
    assert Segments(line) == [line];
    ParsedPartsNone([line]);
  }

  /** The status results of the server give no chips. */
  lemma NoChangeHasNoChips()
    ensures ChangeLineParts(NO_CHANGE) == None
  {
    PlainLineHasNoChips(NO_CHANGE);
  }

  lemma InvalidLineHasNoChips()
    ensures ChangeLineParts(INVALID_LINE) == None
  {
    PlainLineHasNoChips(INVALID_LINE);
  }

  lemma InvalidAmountsHasNoChips()
    ensures ChangeLineParts(INVALID_AMOUNTS) == None
  {
    PlainLineHasNoChips(INVALID_AMOUNTS);
  }

  lemma InsufficientPaymentHasNoChips()
    ensures ChangeLineParts(INSUFFICIENT_PAYMENT) == None
  {
    PlainLineHasNoChips(INSUFFICIENT_PAYMENT);
  }

  /** The chips the formatter's entries stand for. */
  function EntryParts(es: seq<Entry>): (parts: seq<DenomPart>)
    ensures |parts| == |es|
    ensures forall j :: 0 <= j < |es| ==> parts[j] == DenomPart(es[j].count, es[j].text)
  {
    seq(|es|, j requires 0 <= j < |es| => DenomPart(es[j].count, es[j].text))
  }

  /** Matches that each succeed with an entry's chip give those chips. */
  lemma {:induction false} SomesAll(ms: seq<Option<DenomPart>>, es: seq<Entry>)
    requires |ms| == |es|
    requires forall j :: 0 <= j < |ms| ==> ms[j] == Some(DenomPart(es[j].count, es[j].text))
    ensures Somes(ms) == EntryParts(es)
  {
    if ms != [] {
      var k := |ms| - 1;
      SomesAll(ms[..k], es[..k]);
      assert EntryParts(es) == EntryParts(es[..k]) + [DenomPart(es[k].count, es[k].text)];
    }
  }

  /** The formatter's pieces parse back to the chips of its entries. */
  lemma ParsedPieces(es: seq<Entry>)
    requires forall e :: e in es ==> PrintableLabel(e.text)
    ensures ParsedParts(Pieces(es)) == EntryParts(es)
  {
    var segs := Pieces(es);
    var ms := Matches(segs);
    forall j | 0 <= j < |ms|
      ensures ms[j] == Some(DenomPart(es[j].count, es[j].text))
    {
      assert es[j] in es;
      MatchPiece(es[j].count, es[j].text);
    }
    SomesAll(ms, es);
  }

  /** Reading back a formatted change line recovers, in table order, the count
      and label of every denomination with a positive count. */
  lemma ParseFormattedLine(table: seq<Denomination>, counts: seq<int>)
    requires PrintableLabels(table)
    requires Entries(table, counts, |table|) != []
    ensures ChangeLineParts(Format(table, counts)) == Some(EntryParts(Entries(table, counts, |table|)))
  {
    var es := Entries(table, counts, |table|);
    var line := Format(table, counts);
    FormatSplits(table, counts);
    FormatStartsWithDigit(table, counts);
    TrimKeepsFirst(line);
    EntryLabelsPrintable(table, counts, |table|);
    var pieces := Pieces(es);
    forall j | 0 <= j < |pieces| ensures Trim(pieces[j]) == pieces[j] && pieces[j] != [] {
      assert es[j] in es;
      PiecePrintable(es[j]);
      PieceShape(es[j]);
      TrimOfTrimmed(pieces[j]);
    }
    assert MapTrim(pieces) == pieces;
    CompactOfNonEmpty(pieces);
    ParsedPieces(es);
  }

  // ===========================================================================
  // isDollar

  /** `isDollar`: the unit is one of the two dollar labels. */
  predicate IsDollar(unit: string) {
    unit == "dollar" || unit == "dollars"
  }

  /** On the US table a chip is drawn as a bill exactly for the 100-cent
      denomination, whatever its count. */
  lemma DollarChipsAreBills(i: nat, count: int)
    requires i < |US_DENOMINATIONS|
    ensures IsDollar(LabelFor(US_DENOMINATIONS[i], count)) <==> US_DENOMINATIONS[i].valueCents == 100
  {
    var d := US_DENOMINATIONS[i];
    if i > 0 {
      assert d.labelSingular[0] != 'd' || d.labelSingular[1] != 'o';
      assert d.labelPlural[0] != 'd' || d.labelPlural[1] != 'o';
    }
  }
}
