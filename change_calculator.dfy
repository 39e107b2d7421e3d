/**
 * The server's change engine: amount parsing, the random-change policy, the
 * greedy and the random allocator, formatting, and the per-line batch processor.
 *
 * Amounts are exact: `parseFloat`, `Math.round(num * 100)` are replaced by a
 * decimal grammar mapped to whole cents. `Math.random()` is an oracle: an
 * infinite stream `rand` of fractions in [0, 1) read at a cursor, one draw per
 * call the source makes.
 */
module ChangeCalculator {
  import opened Options
  import opened JsStrings
  import opened Denominations

  const INSUFFICIENT_PAYMENT: string := "Insufficient payment"
  const NO_CHANGE: string := "No change"
  const INVALID_LINE: string := "Invalid line"
  const INVALID_AMOUNTS: string := "Invalid amounts"

  // ===========================================================================
  // parseToCents

  /** Cents written by zero, one or two fraction digits (".5" is 50 cents). */
  function FractionCents(frac: string): (c: nat)
    requires AllDigits(frac) && |frac| <= 2
    ensures c < 100
  {
    if |frac| == 0 then 0
    else if |frac| == 1 then DigitValue(frac[0]) * 10
    else DigitValue(frac[0]) * 10 + DigitValue(frac[1])
  }

  /** An unsigned decimal: digits, optionally one '.', at most two fraction
      digits, at least one digit in all; its value in cents. */
  function ParseUnsigned(s: string): Option<nat> {
    var parts := Split(s, '.');
    if |parts| == 1 then
      if s != [] && AllDigits(s) then Some(DigitsToNat(s) * 100) else None
    else if |parts| == 2 && AllDigits(parts[0]) && AllDigits(parts[1])
         && |parts[1]| <= 2 && |parts[0]| + |parts[1]| > 0 then
      Some(DigitsToNat(parts[0]) * 100 + FractionCents(parts[1]))
    else None
  }

  /** The exact stand-in for `parseFloat` followed by the `num < 0` test: an
      optional sign, then an unsigned decimal. A negative value fails; minus zero
      is zero, as `-0 < 0` is false. */
  function ParseDecimal(s: string): Option<nat> {
    if s != [] && s[0] == '+' then ParseUnsigned(s[1..])
    else if s != [] && s[0] == '-' then
      if ParseUnsigned(s[1..]) == Some(0) then Some(0) else None
    else ParseUnsigned(s)
  }

  /** `parseToCents`: trim, refuse blank text, then parse; `None` stands for NaN. */
  function ParseToCents(amount: string): (r: Option<nat>)
    ensures Trim(amount) == [] ==> r == None
    ensures r.Some? ==> ParseDecimal(Trim(amount)) == r
  {
    var t := Trim(amount);
    if t == [] then None else ParseDecimal(t)
  }

  /** Dollars and cents written the usual way, e.g. 212 as "2.12". */
  function CentsText(cents: nat): (s: string)
    ensures s != [] && IsDigit(s[0]) && IsDigit(s[|s| - 1])
  {
    NatToString(cents / 100) + "." + [DigitChar(cents % 100 / 10), DigitChar(cents % 10)]
  }

  /** The unsigned grammar reads a dollars-and-cents text back to its cents. */
  lemma ParseUnsignedCentsText(cents: nat)
    ensures ParseUnsigned(CentsText(cents)) == Some(cents)
  {
    var whole := NatToString(cents / 100);
    var frac := [DigitChar(cents % 100 / 10), DigitChar(cents % 10)];
    assert CentsText(cents) == whole + ['.'] + frac;
    DigitsAvoid(whole, '.');
    assert '.' !in frac;
    SplitPair(whole, '.', frac);
    DigitsOfNatToString(cents / 100);
    assert FractionCents(frac) == cents % 100;
  }

  /** Parsing a dollars-and-cents text gives its cents back. */
  lemma ParseCentsText(cents: nat)
    ensures ParseToCents(CentsText(cents)) == Some(cents)
  {
    var s := CentsText(cents);
    assert IsTrimmed(s);
    TrimOfTrimmed(s);
    ParseUnsignedCentsText(cents);
    assert s[0] != '+' && s[0] != '-';
  }

  /** A negative amount is refused. */
  lemma ParseNegativeFails(cents: nat)
    requires cents > 0
    ensures ParseToCents("-" + CentsText(cents)) == None
  {
    var t := CentsText(cents);
    var s := "-" + t;
    assert s[0] == '-' && s[1..] == t && s[|s| - 1] == t[|t| - 1];
    assert IsTrimmed(s);
    TrimOfTrimmed(s);
    ParseUnsignedCentsText(cents);
    assert ParseDecimal(s) == None;
  }

  /** Blank or white-space-only text is refused. */
  lemma ParseBlankFails(amount: string)
    requires forall i :: 0 <= i < |amount| ==> IsSpace(amount[i])
    ensures ParseToCents(amount) == None
  {
    TrimEmpty(amount);
  }

  // ===========================================================================
  // shouldUseRandomChange

  /** `shouldUseRandomChange`: the owed amount, counted in cents, is a positive
      multiple of the random divisor. */
  function ShouldUseRandomChange(owedCents: int): (b: bool)
    ensures b ==> owedCents >= RANDOM_DIVISOR
  {
    owedCents > 0 && owedCents % RANDOM_DIVISOR == 0
  }

  /** The rule holds exactly for the positive multiples of three cents. */
  lemma RandomRuleMultiples(owedCents: int)
    ensures ShouldUseRandomChange(owedCents) <==> exists k: nat :: k > 0 && owedCents == 3 * k
  {
    if ShouldUseRandomChange(owedCents) {
      var k: nat := owedCents / 3;
      assert owedCents == 3 * k;
    }
  }

  /** The test is on cents, not dollars: $1.50 qualifies, $1.00 and $0.00 do not. */
  lemma RandomRuleOnCents()
    ensures ShouldUseRandomChange(150)
    ensures !ShouldUseRandomChange(100)
    ensures !ShouldUseRandomChange(0)
  {
  }

  // ===========================================================================
  // formatChange

  /** One `"<count> <label>"` piece of a formatted change line. */
  datatype Entry = Entry(count: nat, text: string)

  /** `counts[i] ?? 0`. */
  function CountAt(counts: seq<int>, i: nat): int {
    if i < |counts| then counts[i] else 0
  }

  function LabelFor(d: Denomination, count: int): string {
    if count == 1 then d.labelSingular else d.labelPlural
  }

  /** The pieces the formatter emits for the first `n` denominations: a positive
      count only, in table order, singular label for a count of one. */
  function Entries(table: seq<Denomination>, counts: seq<int>, n: nat): (es: seq<Entry>)
    requires n <= |table|
    ensures |es| <= n
    ensures forall e :: e in es ==> e.count > 0
  {
    if n == 0 then []
    else
      var es := Entries(table, counts, n - 1);
      var c := CountAt(counts, n - 1);
      if c <= 0 then es else es + [Entry(c, LabelFor(table[n - 1], c))]
  }

  function Piece(e: Entry): string {
    NatToString(e.count) + " " + e.text
  }

  function Pieces(es: seq<Entry>): (ps: seq<string>)
    ensures |ps| == |es|
    ensures forall j :: 0 <= j < |es| ==> ps[j] == Piece(es[j])
  {
    seq(|es|, j requires 0 <= j < |es| => Piece(es[j]))
  }

  /** What `formatChange(counts, table)` returns. */
  function Format(table: seq<Denomination>, counts: seq<int>): string {
    var es := Entries(table, counts, |table|);
    if |es| > 0 then Join(Pieces(es), ',') else NO_CHANGE
  }

  /** `formatChange`: one pass over the table pushing a piece per positive count. */
  method FormatChange(counts: seq<int>, table: seq<Denomination>) returns (s: string)
    ensures s == Format(table, counts)
  {
    var parts: seq<string> := [];
    for i := 0 to |table|
      invariant parts == Pieces(Entries(table, counts, i))
    {
      var count := if i < |counts| then counts[i] else 0;
      if count <= 0 {
        continue;
      }
      var d := table[i];
      var lbl := if count == 1 then d.labelSingular else d.labelPlural;
      ghost var es := Entries(table, counts, i);
      assert Entries(table, counts, i + 1) == es + [Entry(count, lbl)];
      assert Pieces(es + [Entry(count, lbl)]) == Pieces(es) + [Piece(Entry(count, lbl))];
      parts := parts + [NatToString(count) + " " + lbl];
    }
    s := if |parts| > 0 then Join(parts, ',') else NO_CHANGE;
  }

  lemma {:induction false} EntriesEmpty(table: seq<Denomination>, counts: seq<int>, n: nat)
    requires n <= |table|
    ensures Entries(table, counts, n) == [] <==> forall i :: 0 <= i < n ==> CountAt(counts, i) <= 0
  {
    if n > 0 {
      EntriesEmpty(table, counts, n - 1);
    }
  }

  /** A formatted piece starts with a digit and ends with its label's last character. */
  lemma PieceShape(e: Entry)
    ensures Piece(e) != [] && IsDigit(Piece(e)[0])
    ensures e.text != [] ==> Piece(e)[|Piece(e)| - 1] == e.text[|e.text| - 1]
  {
  }

  /** A formatted line that is not "No change" starts with a count's first digit. */
  lemma FormatStartsWithDigit(table: seq<Denomination>, counts: seq<int>)
    requires Entries(table, counts, |table|) != []
    ensures Format(table, counts) != [] && IsDigit(Format(table, counts)[0])
  {
    var es := Entries(table, counts, |table|);
    PieceShape(es[0]);
    JoinFirst(Pieces(es), ',');
  }

  /** "No change" comes out exactly when no denomination has a positive count. */
  lemma FormatNoChange(table: seq<Denomination>, counts: seq<int>)
    ensures Format(table, counts) == NO_CHANGE <==> forall i :: 0 <= i < |table| ==> CountAt(counts, i) <= 0
  {
    EntriesEmpty(table, counts, |table|);
    if Entries(table, counts, |table|) != [] {
      FormatStartsWithDigit(table, counts);
    }
  }

  /** The labels in the entries come from the table. */
  lemma {:induction false} EntryLabelsPrintable(table: seq<Denomination>, counts: seq<int>, n: nat)
    requires n <= |table| && PrintableLabels(table)
    ensures forall e :: e in Entries(table, counts, n) ==> PrintableLabel(e.text)
  {
    if n > 0 {
      EntryLabelsPrintable(table, counts, n - 1);
    }
  }

  /** A piece with a printable label holds no comma and no white space at either end. */
  lemma PiecePrintable(e: Entry)
    requires PrintableLabel(e.text)
    ensures ',' !in Piece(e) && IsTrimmed(Piece(e))
  {
    var d := NatToString(e.count);
    DigitsAvoid(d, ',');
    assert Piece(e) == d + " " + e.text;
    PieceShape(e);
  }

  /** Splitting a formatted line on commas gives one piece per positive count,
      in table order. */
  lemma FormatSplits(table: seq<Denomination>, counts: seq<int>)
    requires PrintableLabels(table)
    requires Entries(table, counts, |table|) != []
    ensures Split(Format(table, counts), ',') == Pieces(Entries(table, counts, |table|))
  {
    var es := Entries(table, counts, |table|);
    EntryLabelsPrintable(table, counts, |table|);
    forall p | p in Pieces(es) ensures ',' !in p {
      var j :| 0 <= j < |es| && Pieces(es)[j] == p;
      assert es[j] in es;
      PiecePrintable(es[j]);
    }
    SplitJoin(Pieces(es), ',');
  }

  // ===========================================================================
  // Allocations

  /** The value in cents of an allocation: the sum of count times value. */
  function Value(table: seq<Denomination>, counts: seq<nat>): nat
    requires |counts| == |table|
  {
    if table == [] then 0 else counts[0] * table[0].valueCents + Value(table[1..], counts[1..])
  }

  /** The number of coins and bills in an allocation. */
  function PieceCount(counts: seq<nat>): nat {
    if counts == [] then 0 else counts[0] + PieceCount(counts[1..])
  }

  /** Adding `x` pieces at slot `i` adds `x` times that slot's value. */
  lemma {:induction false} ValueAdd(table: seq<Denomination>, counts: seq<nat>, i: nat, x: nat)
    requires |counts| == |table| && i < |table|
    ensures Value(table, counts[i := counts[i] + x]) == Value(table, counts) + x * table[i].valueCents
  {
    if i > 0 {
      ValueAdd(table[1..], counts[1..], i - 1, x);
      assert counts[i := counts[i] + x][1..] == counts[1..][i - 1 := counts[i] + x];
    } else {
      assert counts[i := counts[i] + x][1..] == counts[1..];
    }
  }

  lemma DivModUnique(r: nat, v: nat, q: nat, t: nat)
    requires v > 0 && t < v && r == q * v + t
    ensures r / v == q && r % v == t
  {
    var q', t' := r / v, r % v;
    assert r == q' * v + t';
    if q' < q {
      MulLe(q' + 1, q, v);
      assert false;
    } else if q < q' {
      MulLe(q + 1, q', v);
      assert false;
    }
  }

  lemma MulLe(a: nat, b: nat, v: nat)
    requires a <= b
    ensures a * v <= b * v
  {
  }

  // ===========================================================================
  // minimumChange

  /** The greedy allocation: at each denomination, as many as fit in what remains. */
  function Greedy(table: seq<Denomination>, remaining: nat): (counts: seq<nat>)
    requires PositiveValues(table)
    ensures |counts| == |table|
  {
    if table == [] then []
    else
      var v := table[0].valueCents;
      [remaining / v] + Greedy(table[1..], remaining % v)
  }

  /** What the greedy pass leaves unallocated. */
  function GreedyLeftover(table: seq<Denomination>, remaining: nat): nat
    requires PositiveValues(table)
  {
    if table == [] then remaining else GreedyLeftover(table[1..], remaining % table[0].valueCents)
  }

  /** `minimumChange`: the greedy pass over the table, then `formatChange`. */
  method MinimumChange(changeCents: nat, table: seq<Denomination>) returns (s: string)
    requires PositiveValues(table)
    ensures s == Format(table, Greedy(table, changeCents))
  {
    var counts := new nat[|table|](_ => 0);
    var remaining := changeCents;
    for i := 0 to |table|
      invariant counts[..i] + Greedy(table[i..], remaining) == Greedy(table, changeCents)
    {
      var v := table[i].valueCents;
      GreedyStep(table, i, remaining);
      ghost var before := counts[..i];
      counts[i] := remaining / v;
      assert counts[..i + 1] == before + [counts[i]];
      remaining := remaining - counts[i] * v;
    }
    assert table[|table|..] == [];
    assert Greedy(table[|table|..], remaining) == [];
    assert counts[..] == counts[..|table|];
    assert counts[..] == Greedy(table, changeCents);
    s := FormatChange(counts[..], table);
  }

  /** One step of the greedy pass from slot `i`. */
  lemma GreedyStep(table: seq<Denomination>, i: nat, remaining: nat)
    requires PositiveValues(table) && i < |table|
    ensures PositiveValues(table[i..]) && PositiveValues(table[i + 1..])
    ensures var v := table[i].valueCents;
      && remaining - remaining / v * v == remaining % v
      && Greedy(table[i..], remaining) == [remaining / v] + Greedy(table[i + 1..], remaining % v)
  {
    assert table[i..][1..] == table[i + 1..];
  }

  /** The greedy allocation accounts for every cent: its value plus what is left
      over is the amount, and the leftover is below the smallest denomination. */
  lemma {:induction false} GreedyAccounts(table: seq<Denomination>, remaining: nat)
    requires PositiveValues(table)
    ensures Value(table, Greedy(table, remaining)) + GreedyLeftover(table, remaining) == remaining
    ensures table != [] ==> GreedyLeftover(table, remaining) < table[|table| - 1].valueCents
  {
    if table != [] {
      var v := table[0].valueCents;
      GreedyAccounts(table[1..], remaining % v);
      assert remaining == remaining / v * v + remaining % v;
      if |table| == 1 {
        assert GreedyLeftover(table[1..], remaining % v) == remaining % v;
      }
    }
  }

  /** With a one-cent denomination last, the greedy allocation is exact. */
  lemma GreedyExact(table: seq<Denomination>, remaining: nat)
    requires PositiveValues(table) && EndsWithUnit(table)
    ensures Value(table, Greedy(table, remaining)) == remaining
  {
    GreedyAccounts(table, remaining);
  }

  /** Every tail of the allocation, from slot i+1 on, is worth less than one
      piece of denomination i. */
  ghost predicate TailsBelow(table: seq<Denomination>, counts: seq<nat>)
    requires |counts| == |table|
  {
    forall i :: 0 <= i < |table| ==> Value(table[i + 1..], counts[i + 1..]) < table[i].valueCents
  }

  /** After taking as many of denomination i as fit, what remains is below its value. */
  lemma {:induction false} GreedyTails(table: seq<Denomination>, remaining: nat)
    requires PositiveValues(table)
    ensures TailsBelow(table, Greedy(table, remaining))
  {
    if table != [] {
      var v := table[0].valueCents;
      var g := Greedy(table, remaining);
      var rest := Greedy(table[1..], remaining % v);
      GreedyTails(table[1..], remaining % v);
      GreedyAccounts(table[1..], remaining % v);
      forall i | 0 <= i < |table|
        ensures Value(table[i + 1..], g[i + 1..]) < table[i].valueCents
      {
        if i == 0 {
          assert g[1..] == rest;
        } else {
          assert table[i + 1..] == table[1..][i..];
          assert g[i + 1..] == rest[i..];
          assert table[i] == table[1..][i - 1];
        }
      }
    }
  }

  /** The greedy allocation is the only one that is exact and whose every tail is
      worth less than the denomination before it. */
  lemma {:induction false} GreedyUnique(table: seq<Denomination>, remaining: nat, counts: seq<nat>)
    requires PositiveValues(table) && |counts| == |table|
    requires Value(table, counts) == remaining
    requires TailsBelow(table, counts)
    ensures counts == Greedy(table, remaining)
  {
    if table != [] {
      var v := table[0].valueCents;
      var tail := Value(table[1..], counts[1..]);
      assert tail < v;
      DivModUnique(remaining, v, counts[0], tail);
      forall i | 0 <= i < |table[1..]|
        ensures Value(table[1..][i + 1..], counts[1..][i + 1..]) < table[1..][i].valueCents
      {
        assert table[1..][i + 1..] == table[i + 2..];
        assert counts[1..][i + 1..] == counts[i + 2..];
      }
      GreedyUnique(table[1..], remaining % v, counts[1..]);
      assert counts == [counts[0]] + counts[1..];
    }
  }

  // ===========================================================================
  // randomChange

  /** A value of `Math.random()`. */
  type Fraction = r: real | 0.0 <= r < 1.0

  /** `Math.floor(Math.random() * (maxCount + 1))`. */
  function ScaledDraw(r: Fraction, maxCount: nat): (count: nat)
    ensures count <= maxCount
  {
    var m := (maxCount + 1) as real;
    assert 0.0 <= r * m < m by {
      assert r * m <= 1.0 * m || r * m < m;
    }
    (r * m).Floor
  }

  /** Every count from 0 to `maxCount` is drawn for some value of the oracle. */
  lemma ScaledDrawReaches(count: nat, maxCount: nat)
    requires count <= maxCount
    ensures ScaledDraw(count as real / (maxCount + 1) as real, maxCount) == count
  {
    var m := (maxCount + 1) as real;
    var r := count as real / m;
    assert r * m == count as real;
  }

  /** The counts drawn, the cents not yet allocated, and the next unread draw. */
  datatype Draw = Draw(counts: seq<nat>, leftover: nat, cursor: nat)

  /** The count drawn for a denomination worth `v` when `remaining` cents are
      left: zero without reading the oracle when none fits, otherwise a draw. */
  function DrawCount(remaining: nat, v: nat, rand: nat -> Fraction, cursor: nat): (count: nat)
    requires v > 0
    ensures count <= remaining / v
    ensures count * v <= remaining
  {
    var maxCount := remaining / v;
    var count := if maxCount == 0 then 0 else ScaledDraw(rand(cursor), maxCount);
    MulLe(count, maxCount, v);
    count
  }

  /** The oracle is read only when at least one piece fits. */
  function CursorAfter(remaining: nat, v: nat, cursor: nat): nat
    requires v > 0
  {
    if remaining / v == 0 then cursor else cursor + 1
  }

  /** The random pass of `randomChange` over the table: at each denomination a
      count drawn from [0, maxCount], reading the oracle only when maxCount > 0. */
  function RandomPass(table: seq<Denomination>, remaining: nat, rand: nat -> Fraction, cursor: nat): (d: Draw)
    requires PositiveValues(table)
    ensures |d.counts| == |table| && d.cursor >= cursor
  {
    if table == [] then Draw([], remaining, cursor)
    else
      var v := table[0].valueCents;
      var count := DrawCount(remaining, v, rand, cursor);
      var rest := RandomPass(table[1..], remaining - count * v, rand, CursorAfter(remaining, v, cursor));
      Draw([count] + rest.counts, rest.leftover, rest.cursor)
  }

  /** One step of the random pass from slot `i`: the first count is the draw
      there, and the rest is the pass from slot i+1 on what the draw leaves. */
  lemma RandomStep(table: seq<Denomination>, i: nat, remaining: nat, rand: nat -> Fraction, cursor: nat)
    requires PositiveValues(table) && i < |table|
    ensures PositiveValues(table[i..]) && PositiveValues(table[i + 1..])
    ensures var v := table[i].valueCents;
      var p := RandomPass(table[i..], remaining, rand, cursor);
      var count := DrawCount(remaining, v, rand, cursor);
      && p.counts[0] == count
      && RandomPass(table[i + 1..], remaining - count * v, rand, CursorAfter(remaining, v, cursor))
         == Draw(p.counts[1..], p.leftover, p.cursor)
  {
    assert table[i..][1..] == table[i + 1..];
    var v := table[i].valueCents;
    var count := DrawCount(remaining, v, rand, cursor);
    var rest := RandomPass(table[i + 1..], remaining - count * v, rand, CursorAfter(remaining, v, cursor));
    assert ([count] + rest.counts)[1..] == rest.counts;
  }

  /** `findIndex((d) => d.valueCents === 1)`. */
  function PennyIndex(table: seq<Denomination>): (i: int)
    ensures -1 <= i < |table|
    ensures i >= 0 ==> table[i].valueCents == 1 && forall j :: 0 <= j < i ==> table[j].valueCents != 1
    ensures i < 0 ==> forall j :: 0 <= j < |table| ==> table[j].valueCents != 1
  {
    if table == [] then -1
    else if table[0].valueCents == 1 then 0
    else
      var k := PennyIndex(table[1..]);
      if k < 0 then -1 else k + 1
  }

  /** What `randomChange` allocates: the random pass, then any leftover added to
      the first one-cent slot when the table has one. */
  function RandomAllocation(table: seq<Denomination>, changeCents: nat, rand: nat -> Fraction, cursor: nat): (d: Draw)
    requires PositiveValues(table)
    ensures |d.counts| == |table|
  {
    var p := RandomPass(table, changeCents, rand, cursor);
    var pi := PennyIndex(table);
    if p.leftover > 0 && pi >= 0 then Draw(p.counts[pi := p.counts[pi] + p.leftover], 0, p.cursor)
    else p
  }

  /** The loop of `randomChange`: fills `counts` with the drawn counts and returns
      what is left unallocated and the next unread position of the oracle. */
  method DrawCounts(counts: array<nat>, changeCents: nat, table: seq<Denomination>, rand: nat -> Fraction, cursor: nat)
    returns (remaining: nat, next: nat)
    requires PositiveValues(table) && counts.Length == |table|
    modifies counts
    ensures var whole := RandomPass(table, changeCents, rand, cursor);
      counts[..] == whole.counts && remaining == whole.leftover && next == whole.cursor
  {
    remaining := changeCents;
    next := cursor;
    ghost var whole := RandomPass(table, changeCents, rand, cursor);
    for i := 0 to |table|
      invariant counts[..i] == whole.counts[..i]
      invariant RandomPass(table[i..], remaining, rand, next) == Draw(whole.counts[i..], whole.leftover, whole.cursor)
    {
      var v := table[i].valueCents;
      RandomStepOf(table, i, remaining, rand, next, whole);
      ghost var drawn := DrawCount(remaining, v, rand, next);
      ghost var cursorAfter := CursorAfter(remaining, v, next);
      var maxCount := remaining / v;
      var count := 0;
      if maxCount > 0 {
        count := ScaledDraw(rand(next), maxCount);
        next := next + 1;
      }
      assert count == drawn && next == cursorAfter;
      assert count * v <= remaining;
      counts[i] := count;
      assert counts[..i + 1] == whole.counts[..i + 1];
      remaining := remaining - count * v;
    }
    assert counts[..] == counts[..|table|];
  }

  /** The step of the random pass at slot i, read off the whole pass. */
  lemma RandomStepOf(table: seq<Denomination>, i: nat, remaining: nat, rand: nat -> Fraction, cursor: nat, whole: Draw)
    requires PositiveValues(table) && i < |table| && |whole.counts| == |table|
    requires RandomPass(table[i..], remaining, rand, cursor) == Draw(whole.counts[i..], whole.leftover, whole.cursor)
    ensures var v := table[i].valueCents;
      var count := DrawCount(remaining, v, rand, cursor);
      && whole.counts[i] == count
      && RandomPass(table[i + 1..], remaining - count * v, rand, CursorAfter(remaining, v, cursor))
         == Draw(whole.counts[i + 1..], whole.leftover, whole.cursor)
  {
    RandomStep(table, i, remaining, rand, cursor);
    assert whole.counts[i..][1..] == whole.counts[i + 1..];
  }

  /** `randomChange`: the random pass, the penny top-up, then `formatChange`.
      Returns the next unread position of the oracle. */
  method RandomChange(changeCents: nat, table: seq<Denomination>, rand: nat -> Fraction, cursor: nat)
    returns (s: string, next: nat)
    requires PositiveValues(table)
    ensures s == Format(table, RandomAllocation(table, changeCents, rand, cursor).counts)
    ensures next == RandomAllocation(table, changeCents, rand, cursor).cursor
  {
    var counts := new nat[|table|](_ => 0);
    var remaining;
    remaining, next := DrawCounts(counts, changeCents, table, rand, cursor);
    ghost var drawnCounts := counts[..];
    ghost var handedBack := RandomAllocation(table, changeCents, rand, cursor).counts;
    if remaining > 0 {
      var pennyIndex := PennyIndex(table);
      if pennyIndex >= 0 {
        counts[pennyIndex] := counts[pennyIndex] + remaining;
        assert counts[..] == drawnCounts[pennyIndex := drawnCounts[pennyIndex] + remaining];
      }
    }
    assert counts[..] == handedBack;
    s := FormatChange(counts[..], table);
  }

  /** The random pass accounts for every cent. */
  lemma {:induction false} RandomPassAccounts(table: seq<Denomination>, remaining: nat, rand: nat -> Fraction, cursor: nat)
    requires PositiveValues(table)
    ensures Value(table, RandomPass(table, remaining, rand, cursor).counts)
            + RandomPass(table, remaining, rand, cursor).leftover == remaining
  {
    if table != [] {
      var v := table[0].valueCents;
      var count := DrawCount(remaining, v, rand, cursor);
      RandomPassAccounts(table[1..], remaining - count * v, rand, CursorAfter(remaining, v, cursor));
    }
  }

  /** Each drawn count fits in what the earlier slots left: the running remainder
      never goes negative. */
  lemma {:induction false} RandomPassFits(table: seq<Denomination>, remaining: nat, rand: nat -> Fraction, cursor: nat, i: nat)
    requires PositiveValues(table) && i < |table|
    ensures var c := RandomPass(table, remaining, rand, cursor).counts;
      Value(table[..i], c[..i]) + c[i] * table[i].valueCents <= remaining
  {
    var v := table[0].valueCents;
    var count := DrawCount(remaining, v, rand, cursor);
    var c := RandomPass(table, remaining, rand, cursor).counts;
    var rest := RandomPass(table[1..], remaining - count * v, rand, CursorAfter(remaining, v, cursor)).counts;
    assert c == [count] + rest;
    if i > 0 {
      RandomPassFits(table[1..], remaining - count * v, rand, CursorAfter(remaining, v, cursor), i - 1);
      assert table[..i][1..] == table[1..][..i - 1];
      assert c[..i][1..] == rest[..i - 1];
      assert Value(table[..i], c[..i]) == count * v + Value(table[1..][..i - 1], rest[..i - 1]);
      assert table[i] == table[1..][i - 1] && c[i] == rest[i - 1];
    } else {
      assert Value(table[..0], c[..0]) == 0;
    }
  }

  /** With a one-cent denomination in the table, the random allocation is exact
      whatever the oracle draws. */
  lemma RandomExact(table: seq<Denomination>, changeCents: nat, rand: nat -> Fraction, cursor: nat)
    requires PositiveValues(table) && PennyIndex(table) >= 0
    ensures Value(table, RandomAllocation(table, changeCents, rand, cursor).counts) == changeCents
    ensures RandomAllocation(table, changeCents, rand, cursor).leftover == 0
  {
    var p := RandomPass(table, changeCents, rand, cursor);
    RandomPassAccounts(table, changeCents, rand, cursor);
    var pi := PennyIndex(table);
    if p.leftover > 0 {
      ValueAdd(table, p.counts, pi, p.leftover);
    }
  }

  /** Without a one-cent denomination the leftover is dropped: the allocation is
      worth the amount minus what the random pass left. */
  lemma RandomWithoutPenny(table: seq<Denomination>, changeCents: nat, rand: nat -> Fraction, cursor: nat)
    requires PositiveValues(table) && PennyIndex(table) < 0
    ensures var d := RandomAllocation(table, changeCents, rand, cursor);
      Value(table, d.counts) + d.leftover == changeCents
  {
    RandomPassAccounts(table, changeCents, rand, cursor);
  }

  // ===========================================================================
  // computeChangeForLine

  /** The result text of one line and the next unread oracle position. */
  datatype LineResult = LineResult(text: string, cursor: nat)

  /** The allocation handed back for a positive change: random when the policy
      says so, greedy otherwise. */
  function Allocation(owedCents: nat, changeCents: nat, table: seq<Denomination>, rand: nat -> Fraction, cursor: nat): Draw
    requires PositiveValues(table)
  {
    if ShouldUseRandomChange(owedCents) then RandomAllocation(table, changeCents, rand, cursor)
    else Draw(Greedy(table, changeCents), GreedyLeftover(table, changeCents), cursor)
  }

  /** What `computeChangeForLine` returns. */
  function ChangeForLine(owedCents: nat, paidCents: nat, table: seq<Denomination>, rand: nat -> Fraction, cursor: nat): LineResult
    requires PositiveValues(table)
  {
    var change := paidCents - owedCents;
    if change < 0 then LineResult(INSUFFICIENT_PAYMENT, cursor)
    else if change == 0 then LineResult(NO_CHANGE, cursor)
    else
      var d := Allocation(owedCents, change, table, rand, cursor);
      LineResult(Format(table, d.counts), d.cursor)
  }

  /** `computeChangeForLine`. */
  method ComputeChangeForLine(owedCents: nat, paidCents: nat, table: seq<Denomination>, rand: nat -> Fraction, cursor: nat)
    returns (s: string, next: nat)
    requires PositiveValues(table)
    ensures LineResult(s, next) == ChangeForLine(owedCents, paidCents, table, rand, cursor)
  {
    var changeCents := paidCents - owedCents;
    if changeCents < 0 {
      return INSUFFICIENT_PAYMENT, cursor;
    }
    if changeCents == 0 {
      return NO_CHANGE, cursor;
    }
    if ShouldUseRandomChange(owedCents) {
      s, next := RandomChange(changeCents, table, rand, cursor);
      return;
    }
    s := MinimumChange(changeCents, table);
    next := cursor;
  }

  /** An exact allocation of a positive amount has a positive count somewhere. */
  lemma {:induction false} PositiveValueHasCount(table: seq<Denomination>, counts: seq<nat>)
    requires |counts| == |table| && Value(table, counts) > 0
    ensures exists i :: 0 <= i < |table| && CountAt(counts, i) > 0
  {
    if counts[0] == 0 {
      PositiveValueHasCount(table[1..], counts[1..]);
      var i :| 0 <= i < |table[1..]| && CountAt(counts[1..], i) > 0;
      assert CountAt(counts, i + 1) > 0;
    } else {
      assert CountAt(counts, 0) > 0;
    }
  }

  /** The outcome of one transaction on a table with a penny: "Insufficient
      payment" when paid < owed, "No change" when paid == owed, and otherwise
      the text of an allocation worth exactly paid - owed, greedy unless the
      owed cents are a positive multiple of three. */
  lemma ChangeForLineOutcome(owedCents: nat, paidCents: nat, table: seq<Denomination>, rand: nat -> Fraction, cursor: nat)
    requires WellFormedTable(table)
    ensures var r := ChangeForLine(owedCents, paidCents, table, rand, cursor);
      && (paidCents < owedCents ==> r.text == INSUFFICIENT_PAYMENT)
      && (paidCents == owedCents ==> r.text == NO_CHANGE)
      && (paidCents > owedCents ==>
            var d := Allocation(owedCents, paidCents - owedCents, table, rand, cursor);
            && Value(table, d.counts) == paidCents - owedCents
            && (!ShouldUseRandomChange(owedCents) ==> d.counts == Greedy(table, paidCents - owedCents))
            && r.text == Format(table, d.counts))
  {
    if paidCents > owedCents {
      AllocationExact(owedCents, paidCents - owedCents, table, rand, cursor);
    }
  }

  /** A positive change is allocated exactly, greedily unless the policy picks
      the random pass. */
  lemma AllocationExact(owedCents: nat, change: nat, table: seq<Denomination>, rand: nat -> Fraction, cursor: nat)
    requires WellFormedTable(table) && change > 0
    ensures var d := Allocation(owedCents, change, table, rand, cursor);
      && Value(table, d.counts) == change
      && (!ShouldUseRandomChange(owedCents) ==> d.counts == Greedy(table, change))
  {
    assert PennyIndex(table) >= 0 by {
      assert table[|table| - 1].valueCents == 1;
    }
    if ShouldUseRandomChange(owedCents) {
      RandomExact(table, change, rand, cursor);
    } else {
      GreedyExact(table, change);
    }
  }

  /** The text of a positive change starts with a digit, so it is never one of
      the status messages. */
  lemma ChangeTextStartsWithDigit(owedCents: nat, paidCents: nat, table: seq<Denomination>, rand: nat -> Fraction, cursor: nat)
    requires WellFormedTable(table) && paidCents > owedCents
    ensures var r := ChangeForLine(owedCents, paidCents, table, rand, cursor);
      r.text != [] && IsDigit(r.text[0])
  {
    var counts := Allocation(owedCents, paidCents - owedCents, table, rand, cursor).counts;
    AllocationExact(owedCents, paidCents - owedCents, table, rand, cursor);
    DigitOfPositiveValue(table, counts);
  }

  /** Counts worth a positive value format to a text starting with a digit. */
  lemma DigitOfPositiveValue(table: seq<Denomination>, counts: seq<nat>)
    requires PositiveValues(table) && |counts| == |table| && Value(table, counts) > 0
    ensures Format(table, counts) != [] && IsDigit(Format(table, counts)[0])
  {
    PositiveValueHasCount(table, counts);
    EntriesEmpty(table, counts, |table|);
    FormatStartsWithDigit(table, counts);
  }

  // ===========================================================================
  // processInputLines

  /** The result for one trimmed, non-empty input line. */
  function ProcessLine(line: string, rand: nat -> Fraction, cursor: nat): LineResult {
    var parts := MapTrim(Split(line, ','));
    if |parts| < 2 then LineResult(INVALID_LINE, cursor)
    else
      var owed := ParseToCents(parts[0]);
      var paid := ParseToCents(parts[1]);
      if owed.None? || paid.None? then LineResult(INVALID_AMOUNTS, cursor)
      else
        UsTableWellFormed();
        ChangeForLine(owed.value, paid.value, US_DENOMINATIONS, rand, cursor)
  }

  /** The results of a batch of lines and the next unread oracle position. */
  datatype Batch = Batch(results: seq<string>, cursor: nat)

  function ProcessLines(lines: seq<string>, rand: nat -> Fraction, cursor: nat): (b: Batch)
    ensures |b.results| == |lines|
  {
    if lines == [] then Batch([], cursor)
    else
      var r := ProcessLine(lines[0], rand, cursor);
      var rest := ProcessLines(lines[1..], rand, r.cursor);
      Batch([r.text] + rest.results, rest.cursor)
  }

  /** One step of a batch from line `i`. */
  lemma ProcessLinesStep(lines: seq<string>, i: nat, rand: nat -> Fraction, cursor: nat)
    requires i < |lines|
    ensures var b := ProcessLines(lines[i..], rand, cursor);
      var r := ProcessLine(lines[i], rand, cursor);
      && b.results[0] == r.text
      && ProcessLines(lines[i + 1..], rand, r.cursor) == Batch(b.results[1..], b.cursor)
  {
    assert lines[i..][1..] == lines[i + 1..];
    var r := ProcessLine(lines[i], rand, cursor);
    var rest := ProcessLines(lines[i + 1..], rand, r.cursor);
    assert ([r.text] + rest.results)[1..] == rest.results;
  }

  /** `processInputLines`: split into non-blank trimmed lines, then one result per
      line, in order: "Invalid line" without a second field, "Invalid amounts"
      when a field does not parse, otherwise `computeChangeForLine`. */
  method ProcessInputLines(text: string, rand: nat -> Fraction, cursor: nat) returns (results: seq<string>, next: nat)
    ensures Batch(results, next) == ProcessLines(NonBlankLines(text), rand, cursor)
  {
    var lines := NonBlankLines(text);
    UsTableWellFormed();
    results := [];
    next := cursor;
    ghost var whole := ProcessLines(lines, rand, cursor);
    for i := 0 to |lines|
      invariant results == whole.results[..i]
      invariant ProcessLines(lines[i..], rand, next) == Batch(whole.results[i..], whole.cursor)
    {
      var line := lines[i];
      ProcessLinesStep(lines, i, rand, next);
      assert whole.results[i..][1..] == whole.results[i + 1..];
      ghost var expected := ProcessLine(line, rand, next);
      var parts := MapTrim(Split(line, ','));
      var r: string;
      if |parts| < 2 {
        r := INVALID_LINE;
      } else {
        var owedCents := ParseToCents(parts[0]);
        var paidCents := ParseToCents(parts[1]);
        if owedCents.None? || paidCents.None? {
          r := INVALID_AMOUNTS;
        } else {
          r, next := ComputeChangeForLine(owedCents.value, paidCents.value, US_DENOMINATIONS, rand, next);
        }
      }
      assert r == expected.text && next == expected.cursor;
      assert whole.results[i..][0] == whole.results[i];
      assert whole.results[..i + 1] == whole.results[..i] + [whole.results[i]];
      results := results + [r];
    }
    assert results == whole.results;
  }

  /** Where the oracle stands when line `i` of a batch is processed. */
  function CursorBefore(lines: seq<string>, rand: nat -> Fraction, cursor: nat, i: nat): nat
    requires i <= |lines|
  {
    if i == 0 then cursor else CursorBefore(lines[1..], rand, ProcessLine(lines[0], rand, cursor).cursor, i - 1)
  }

  /** Result `i` of a batch is the result of line `i`, in input order. */
  lemma {:induction false} ProcessLinesAt(lines: seq<string>, rand: nat -> Fraction, cursor: nat, i: nat)
    requires i < |lines|
    ensures ProcessLines(lines, rand, cursor).results[i]
            == ProcessLine(lines[i], rand, CursorBefore(lines, rand, cursor, i)).text
  {
    var r := ProcessLine(lines[0], rand, cursor);
    var rest := ProcessLines(lines[1..], rand, r.cursor);
    assert ProcessLines(lines, rand, cursor).results == [r.text] + rest.results;
    if i > 0 {
      ProcessLinesAt(lines[1..], rand, r.cursor, i - 1);
      assert lines[1..][i - 1] == lines[i];
    }
  }

  /** How one line is classified: "Invalid line" exactly when it has no comma,
      "Invalid amounts" exactly when it has one but a field does not parse,
      "Insufficient payment" and "No change" exactly when both parse and paid is
      below or equal to owed; otherwise a change text starting with a digit. */
  lemma ProcessLineClassified(line: string, rand: nat -> Fraction, cursor: nat)
    ensures var r := ProcessLine(line, rand, cursor).text;
      var f := MapTrim(Split(line, ','));
      var owed := if |f| >= 2 then ParseToCents(f[0]) else None;
      var paid := if |f| >= 2 then ParseToCents(f[1]) else None;
      && (r == INVALID_LINE <==> ',' !in line)
      && (r == INVALID_AMOUNTS <==> ',' in line && (owed.None? || paid.None?))
      && (r == INSUFFICIENT_PAYMENT <==> owed.Some? && paid.Some? && paid.value < owed.value)
      && (r == NO_CHANGE <==> owed.Some? && paid.Some? && paid.value == owed.value)
      && (owed.Some? && paid.Some? && paid.value > owed.value ==> r != [] && IsDigit(r[0]))
  {
    SplitHasSecond(line, ',');
    var f := MapTrim(Split(line, ','));
    if |f| >= 2 {
      var owed := ParseToCents(f[0]);
      var paid := ParseToCents(f[1]);
      if owed.Some? && paid.Some? {
        UsTableWellFormed();
        ChangeForLineOutcome(owed.value, paid.value, US_DENOMINATIONS, rand, cursor);
        if paid.value > owed.value {
          ChangeTextStartsWithDigit(owed.value, paid.value, US_DENOMINATIONS, rand, cursor);
        }
      }
    }
  }

  /** Fields after the second one are ignored. */
  lemma ProcessLineIgnoresExtraFields(line: string, rand: nat -> Fraction, cursor: nat)
    requires |Split(line, ',')| >= 2
    ensures var f := Split(line, ',');
      ProcessLine(line, rand, cursor) == ProcessLine(f[0] + "," + f[1], rand, cursor)
  {
    var f := Split(line, ',');
    assert f[0] in f && f[1] in f;
    SplitPair(f[0], ',', f[1]);
    assert f[0] + "," + f[1] == f[0] + [','] + f[1];
  }

  /** A line that the policy sends to the greedy allocator gives the same text
      whatever the oracle: only random change depends on `Math.random`. */
  lemma GreedyLinesIgnoreOracle(owedCents: nat, paidCents: nat, rand1: nat -> Fraction, rand2: nat -> Fraction, cursor: nat)
    requires !ShouldUseRandomChange(owedCents)
    ensures PositiveValues(US_DENOMINATIONS)
    ensures ChangeForLine(owedCents, paidCents, US_DENOMINATIONS, rand1, cursor)
            == ChangeForLine(owedCents, paidCents, US_DENOMINATIONS, rand2, cursor)
  {
    UsTableWellFormed();
  }

  /** The seeded transactions' expected change, computed by the greedy path. */
  lemma GreedyExample88()
    ensures PositiveValues(US_DENOMINATIONS)
    ensures Format(US_DENOMINATIONS, Greedy(US_DENOMINATIONS, 88)) == "3 quarters,1 dime,3 pennies"
  {
    GreedyCounts88();
    FormatExample88();
  }

  lemma GreedyCounts88()
    ensures PositiveValues(US_DENOMINATIONS)
    ensures Greedy(US_DENOMINATIONS, 88) == [0, 3, 1, 0, 3]
  {
    UsTableWellFormed();
    var t := US_DENOMINATIONS;
    assert Greedy(t[4..], 3) == [3];
    assert Greedy(t[3..], 3) == [0, 3];
    assert Greedy(t[2..], 13) == [1, 0, 3];
    assert Greedy(t[1..], 88) == [3, 1, 0, 3];
  }

  lemma FormatExample88()
    ensures Format(US_DENOMINATIONS, [0, 3, 1, 0, 3]) == "3 quarters,1 dime,3 pennies"
  {
    EntriesExample88();
    PiecesExample88();
  }

  lemma EntriesExample88()
    ensures Entries(US_DENOMINATIONS, [0, 3, 1, 0, 3], 5)
            == [Entry(3, "quarters"), Entry(1, "dime"), Entry(3, "pennies")]
  {
    var t := US_DENOMINATIONS;
    var counts := [0, 3, 1, 0, 3];
    assert Entries(t, counts, 1) == [];
    assert Entries(t, counts, 2) == [Entry(3, "quarters")];
    assert Entries(t, counts, 3) == [Entry(3, "quarters"), Entry(1, "dime")];
    assert Entries(t, counts, 4) == [Entry(3, "quarters"), Entry(1, "dime")];
  }

  lemma PiecesExample88()
    ensures Join(Pieces([Entry(3, "quarters"), Entry(1, "dime"), Entry(3, "pennies")]), ',')
            == "3 quarters,1 dime,3 pennies"
  {
    var es := [Entry(3, "quarters"), Entry(1, "dime"), Entry(3, "pennies")];
    PieceExamples();
    var ps := Pieces(es);
    assert ps[0] == "3 quarters" && ps[1] == "1 dime" && ps[2] == "3 pennies";
    assert ps == [ps[0], ps[1], ps[2]];
    JoinThree("3 quarters", "1 dime", "3 pennies", ',');
    Spelled88();
  }

  lemma Spelled88()
    ensures "3 quarters" + [','] + "1 dime" + [','] + "3 pennies" == "3 quarters,1 dime,3 pennies"
  {
  }

  lemma PieceExamples()
    ensures Piece(Entry(3, "quarters")) == "3 quarters"
    ensures Piece(Entry(1, "dime")) == "1 dime"
    ensures Piece(Entry(3, "pennies")) == "3 pennies"
  {
    assert DigitChar(3) == '3' && DigitChar(1) == '1';
    assert NatToString(3) == "3" && NatToString(1) == "1";
  }

  /** The seeded 0.01 owed, 1.00 paid: 99 cents of change. */
  lemma GreedyExample99()
    ensures PositiveValues(US_DENOMINATIONS)
    ensures Format(US_DENOMINATIONS, Greedy(US_DENOMINATIONS, 99)) == "3 quarters,2 dimes,4 pennies"
  {
    GreedyCounts99();
    FormatExample99();
  }

  lemma GreedyCounts99()
    ensures PositiveValues(US_DENOMINATIONS)
    ensures Greedy(US_DENOMINATIONS, 99) == [0, 3, 2, 0, 4]
  {
    UsTableWellFormed();
    var t := US_DENOMINATIONS;
    assert Greedy(t[4..], 4) == [4];
    assert Greedy(t[3..], 4) == [0, 4];
    assert Greedy(t[2..], 24) == [2, 0, 4];
    assert Greedy(t[1..], 99) == [3, 2, 0, 4];
  }

  lemma FormatExample99()
    ensures Format(US_DENOMINATIONS, [0, 3, 2, 0, 4]) == "3 quarters,2 dimes,4 pennies"
  {
    EntriesExample99();
    PiecesExample99();
  }

  lemma EntriesExample99()
    ensures Entries(US_DENOMINATIONS, [0, 3, 2, 0, 4], 5)
            == [Entry(3, "quarters"), Entry(2, "dimes"), Entry(4, "pennies")]
  {
    var t := US_DENOMINATIONS;
    var counts := [0, 3, 2, 0, 4];
    assert Entries(t, counts, 1) == [];
    assert Entries(t, counts, 2) == [Entry(3, "quarters")];
    assert Entries(t, counts, 3) == [Entry(3, "quarters"), Entry(2, "dimes")];
    assert Entries(t, counts, 4) == [Entry(3, "quarters"), Entry(2, "dimes")];
  }

  lemma PiecesExample99()
    ensures Join(Pieces([Entry(3, "quarters"), Entry(2, "dimes"), Entry(4, "pennies")]), ',')
            == "3 quarters,2 dimes,4 pennies"
  {
    var es := [Entry(3, "quarters"), Entry(2, "dimes"), Entry(4, "pennies")];
    assert NatToString(3) == "3" && NatToString(2) == "2" && NatToString(4) == "4";
    var ps := Pieces(es);
    assert ps[0] == "3 quarters" && ps[1] == "2 dimes" && ps[2] == "4 pennies";
    assert ps == [ps[0], ps[1], ps[2]];
    JoinThree("3 quarters", "2 dimes", "4 pennies", ',');
    Spelled99();
  }

  lemma Spelled99()
    ensures "3 quarters" + [','] + "2 dimes" + [','] + "4 pennies" == "3 quarters,2 dimes,4 pennies"
  {
  }

  /** The seeded 12.34 owed, 15.00 paid: 266 cents of change, one piece of
      every denomination but with two dollars and two quarters. */
  lemma GreedyExample266()
    ensures PositiveValues(US_DENOMINATIONS)
    ensures Format(US_DENOMINATIONS, Greedy(US_DENOMINATIONS, 266))
            == "2 dollars,2 quarters,1 dime,1 nickel,1 penny"
  {
    GreedyCounts266();
    FormatExample266();
  }

  lemma GreedyCounts266()
    ensures PositiveValues(US_DENOMINATIONS)
    ensures Greedy(US_DENOMINATIONS, 266) == [2, 2, 1, 1, 1]
  {
    UsTableWellFormed();
    var t := US_DENOMINATIONS;
    assert Greedy(t[4..], 1) == [1];
    assert Greedy(t[3..], 6) == [1, 1];
    assert Greedy(t[2..], 16) == [1, 1, 1];
    assert Greedy(t[1..], 66) == [2, 1, 1, 1];
  }

  lemma FormatExample266()
    ensures Format(US_DENOMINATIONS, [2, 2, 1, 1, 1]) == "2 dollars,2 quarters,1 dime,1 nickel,1 penny"
  {
    EntriesExample266();
    PiecesExample266();
    JoinExample266();
  }

  lemma EntriesExample266()
    ensures Entries(US_DENOMINATIONS, [2, 2, 1, 1, 1], 5)
            == [Entry(2, "dollars"), Entry(2, "quarters"), Entry(1, "dime"), Entry(1, "nickel"), Entry(1, "penny")]
  {
    var t := US_DENOMINATIONS;
    var counts := [2, 2, 1, 1, 1];
    assert Entries(t, counts, 1) == [Entry(2, "dollars")];
    assert Entries(t, counts, 2) == [Entry(2, "dollars"), Entry(2, "quarters")];
    assert Entries(t, counts, 3) == [Entry(2, "dollars"), Entry(2, "quarters"), Entry(1, "dime")];
    assert Entries(t, counts, 4)
        == [Entry(2, "dollars"), Entry(2, "quarters"), Entry(1, "dime"), Entry(1, "nickel")];
  }

  lemma PiecesExample266()
    ensures Pieces([Entry(2, "dollars"), Entry(2, "quarters"), Entry(1, "dime"), Entry(1, "nickel"), Entry(1, "penny")])
            == ["2 dollars", "2 quarters", "1 dime", "1 nickel", "1 penny"]
  {
    var es := [Entry(2, "dollars"), Entry(2, "quarters"), Entry(1, "dime"), Entry(1, "nickel"), Entry(1, "penny")];
    assert NatToString(2) == "2" && NatToString(1) == "1";
    var ps := Pieces(es);
    assert ps[0] == "2 dollars" && ps[1] == "2 quarters" && ps[2] == "1 dime";
    assert ps[3] == "1 nickel" && ps[4] == "1 penny";
    assert ps == [ps[0], ps[1], ps[2], ps[3], ps[4]];
  }

  lemma JoinExample266()
    ensures Join(["2 dollars", "2 quarters", "1 dime", "1 nickel", "1 penny"], ',')
            == "2 dollars,2 quarters,1 dime,1 nickel,1 penny"
  {
    var ps := ["2 dollars", "2 quarters", "1 dime", "1 nickel", "1 penny"];
    JoinThree("1 dime", "1 nickel", "1 penny", ',');
    assert ps[2..] == ["1 dime", "1 nickel", "1 penny"];
    assert ps[1..][1..] == ps[2..];
    assert Join(ps[1..], ',') == "2 quarters" + [','] + Join(ps[2..], ',');
    assert Join(ps, ',') == "2 dollars" + [','] + Join(ps[1..], ',');
    Spelled266();
  }

  lemma Spelled266()
    ensures "2 dollars" + [','] + ("2 quarters" + [','] + ("1 dime" + [','] + "1 nickel" + [','] + "1 penny"))
            == "2 dollars,2 quarters,1 dime,1 nickel,1 penny"
  {
  }

  /** The seeded lines that the policy sends to the greedy allocator give their
      stored outputs whatever `Math.random` returns: 2.12/3.00, 0.01/1.00 and
      12.34/15.00 (the owed cents 212, 1 and 1234 are not multiples of three). */
  lemma SeedGreedyLines(rand: nat -> Fraction, cursor: nat)
    ensures PositiveValues(US_DENOMINATIONS)
    ensures ChangeForLine(212, 300, US_DENOMINATIONS, rand, cursor).text == "3 quarters,1 dime,3 pennies"
    ensures ChangeForLine(1, 100, US_DENOMINATIONS, rand, cursor).text == "3 quarters,2 dimes,4 pennies"
    ensures ChangeForLine(1234, 1500, US_DENOMINATIONS, rand, cursor).text
            == "2 dollars,2 quarters,1 dime,1 nickel,1 penny"
  {
    UsTableWellFormed();
    assert !ShouldUseRandomChange(212) && !ShouldUseRandomChange(1) && !ShouldUseRandomChange(1234);
    GreedyExample88();
    GreedyExample99();
    GreedyExample266();
  }

  // ===========================================================================
  // The greedy allocation is optimal for the US table

  /** The value of every tail of a US allocation, in closed form. */
  lemma UsTailValues(c: seq<nat>)
    requires |c| == 5
    ensures Value(US_DENOMINATIONS[5..], c[5..]) == 0
    ensures Value(US_DENOMINATIONS[4..], c[4..]) == c[4]
    ensures Value(US_DENOMINATIONS[3..], c[3..]) == 5 * c[3] + c[4]
    ensures Value(US_DENOMINATIONS[2..], c[2..]) == 10 * c[2] + 5 * c[3] + c[4]
    ensures Value(US_DENOMINATIONS[1..], c[1..]) == 25 * c[1] + 10 * c[2] + 5 * c[3] + c[4]
    ensures Value(US_DENOMINATIONS, c) == 100 * c[0] + 25 * c[1] + 10 * c[2] + 5 * c[3] + c[4]
  {
    var t := US_DENOMINATIONS;
    assert t[5..] == [] && c[5..] == [];
    assert t[4..][1..] == t[5..] && c[4..][1..] == c[5..];
    assert t[3..][1..] == t[4..] && c[3..][1..] == c[4..];
    assert t[2..][1..] == t[3..] && c[2..][1..] == c[3..];
    assert t[1..][1..] == t[2..] && c[1..][1..] == c[2..];
  }

  lemma PieceCountFive(c: seq<nat>)
    requires |c| == 5
    ensures PieceCount(c) == c[0] + c[1] + c[2] + c[3] + c[4]
  {
    assert c[4..][1..] == [] && PieceCount(c[4..]) == c[4];
    assert c[3..][1..] == c[4..] && PieceCount(c[3..]) == c[3] + c[4];
    assert c[2..][1..] == c[3..] && PieceCount(c[2..]) == c[2] + c[3] + c[4];
    assert c[1..][1..] == c[2..] && PieceCount(c[1..]) == c[1] + c[2] + c[3] + c[4];
  }

  /** No exchange applies: fewer than five pennies, two nickels, three dimes or
      four quarters, and not two dimes with a nickel. */
  predicate Canonical(c: seq<nat>)
    requires |c| == 5
  {
    c[4] < 5 && c[3] < 2 && c[2] < 3 && !(c[2] == 2 && c[3] == 1) && c[1] < 4
  }

  /** A canonical US allocation is the greedy one. */
  lemma CanonicalIsGreedy(c: seq<nat>)
    requires |c| == 5 && Canonical(c)
    ensures PositiveValues(US_DENOMINATIONS)
    ensures c == Greedy(US_DENOMINATIONS, Value(US_DENOMINATIONS, c))
  {
    UsTableWellFormed();
    CanonicalTailBounds(c);
    var t := US_DENOMINATIONS;
    forall i | 0 <= i < |t|
      ensures Value(t[i + 1..], c[i + 1..]) < t[i].valueCents
    {
      assert i == 0 || i == 1 || i == 2 || i == 3 || i == 4;
    }
    GreedyUnique(t, Value(t, c), c);
  }

  /** In a canonical US allocation every tail is worth less than the coin
      before it. */
  lemma CanonicalTailBounds(c: seq<nat>)
    requires |c| == 5 && Canonical(c)
    ensures Value(US_DENOMINATIONS[1..], c[1..]) < 100
    ensures Value(US_DENOMINATIONS[2..], c[2..]) < 25
    ensures Value(US_DENOMINATIONS[3..], c[3..]) < 10
    ensures Value(US_DENOMINATIONS[4..], c[4..]) < 5
    ensures Value(US_DENOMINATIONS[5..], c[5..]) < 1
  {
    UsTailValues(c);
  }

  /** Each exchange keeps the value of a non-canonical allocation and lowers its
      number of pieces. */
  lemma Exchange(c: seq<nat>) returns (c': seq<nat>)
    requires |c| == 5 && !Canonical(c)
    ensures |c'| == 5
    ensures Value(US_DENOMINATIONS, c') == Value(US_DENOMINATIONS, c)
    ensures PieceCount(c') < PieceCount(c)
  {
    UsTailValues(c);
    PieceCountFive(c);
    var a, q, d, n, p := c[0], c[1], c[2], c[3], c[4];
    if p >= 5 {
      c' := [a, q, d, n + 1, p - 5];
    } else if n >= 2 {
      c' := [a, q, d + 1, n - 2, p];
    } else if d >= 2 && n == 1 {
      c' := [a, q + 1, d - 2, 0, p];
    } else if d >= 3 {
      c' := [a, q + 1, d - 3, n + 1, p];
    } else {
      c' := [a + 1, q - 4, d, n, p];
    }
    UsTailValues(c');
    PieceCountFive(c');
  }

  /** For the US table, the greedy allocation uses the fewest coins and bills
      among all allocations of the same amount. */
  lemma {:induction false} GreedyFewestPieces(c: seq<nat>)
    requires |c| == 5
    ensures PositiveValues(US_DENOMINATIONS)
    ensures PieceCount(Greedy(US_DENOMINATIONS, Value(US_DENOMINATIONS, c))) <= PieceCount(c)
    decreases PieceCount(c)
  {
    UsTableWellFormed();
    if Canonical(c) {
      CanonicalIsGreedy(c);
    } else {
      var c' := Exchange(c);
      GreedyFewestPieces(c');
    }
  }

  /** The same, stated for an amount: no allocation of `cents` has fewer pieces
      than the greedy one. */
  lemma GreedyIsMinimal(cents: nat, c: seq<nat>)
    requires |c| == 5 && Value(US_DENOMINATIONS, c) == cents
    ensures PositiveValues(US_DENOMINATIONS)
    ensures Value(US_DENOMINATIONS, Greedy(US_DENOMINATIONS, cents)) == cents
    ensures PieceCount(Greedy(US_DENOMINATIONS, cents)) <= PieceCount(c)
  {
    UsTableWellFormed();
    GreedyExact(US_DENOMINATIONS, cents);
    GreedyFewestPieces(c);
  }
}
