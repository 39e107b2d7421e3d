/**
 * The US denomination table and the random-change rule: configuration data
 * shared read-only by both allocators.
 */
module Denominations {
  import opened JsStrings

  /** One coin or bill: its value in cents and its two display labels. */
  datatype Denomination = Denomination(valueCents: nat, labelSingular: string, labelPlural: string)

  /** Dollar, quarter, dime, nickel, penny, largest first. */
  const US_DENOMINATIONS: seq<Denomination> := [
    Denomination(100, "dollar", "dollars"),
    Denomination(25, "quarter", "quarters"),
    Denomination(10, "dime", "dimes"),
    Denomination(5, "nickel", "nickels"),
    Denomination(1, "penny", "pennies")
  ]

  /** When the owed amount in cents is divisible by this, change is drawn at random. */
  const RANDOM_DIVISOR: nat := 3

  /** Every value can divide: what the allocators' `Math.floor(remaining / valueCents)` needs. */
  predicate PositiveValues(table: seq<Denomination>) {
    forall i :: 0 <= i < |table| ==> table[i].valueCents > 0
  }

  predicate StrictlyDescending(table: seq<Denomination>) {
    forall i, j :: 0 <= i < j < |table| ==> table[i].valueCents > table[j].valueCents
  }

  /** The last entry is the indivisible unit, so every amount is representable. */
  predicate EndsWithUnit(table: seq<Denomination>) {
    |table| > 0 && table[|table| - 1].valueCents == 1
  }

  /** A label that survives being written as `"<count> <label>"`, joined with commas
      and read back by the output parser: non-empty, no comma, no white space at
      either end and no line terminator. */
  predicate PrintableLabel(text: string) {
    && text != []
    && ',' !in text
    && IsTrimmed(text)
    && (forall i :: 0 <= i < |text| ==> !IsLineTerminator(text[i]))
  }

  predicate PrintableLabels(table: seq<Denomination>) {
    forall i :: 0 <= i < |table| ==>
      PrintableLabel(table[i].labelSingular) && PrintableLabel(table[i].labelPlural)
  }

  predicate WellFormedTable(table: seq<Denomination>) {
    PositiveValues(table) && StrictlyDescending(table) && EndsWithUnit(table) && PrintableLabels(table)
  }

  /** The US table is well formed: positive values, strictly descending, a penny
      at the end, and labels that print and parse back. */
  lemma UsTableWellFormed()
    ensures WellFormedTable(US_DENOMINATIONS)
    ensures |US_DENOMINATIONS| == 5
    ensures forall i :: 0 <= i < |US_DENOMINATIONS| ==>
      US_DENOMINATIONS[i].labelSingular != US_DENOMINATIONS[i].labelPlural
  {
    UsValuesDescend();
    UsLabelsPrintable();
  }

  lemma UsValuesDescend()
    ensures PositiveValues(US_DENOMINATIONS) && StrictlyDescending(US_DENOMINATIONS)
    ensures EndsWithUnit(US_DENOMINATIONS)
  {
  }

  lemma UsLabelsPrintable()
    ensures PrintableLabels(US_DENOMINATIONS)
  {
    forall i | 0 <= i < |US_DENOMINATIONS|
      ensures PrintableLabel(US_DENOMINATIONS[i].labelSingular)
      ensures PrintableLabel(US_DENOMINATIONS[i].labelPlural)
    {
      LettersPrintable(US_DENOMINATIONS[i].labelSingular);
      LettersPrintable(US_DENOMINATIONS[i].labelPlural);
    }
  }

  /** A non-empty word of lower-case ASCII letters is a printable label. */
  lemma LettersPrintable(word: string)
    requires word != [] && forall i :: 0 <= i < |word| ==> 'a' <= word[i] <= 'z'
    ensures PrintableLabel(word)
  {
  }

  /** Dividing by the random divisor is defined. */
  lemma RandomDivisorPositive()
    ensures RANDOM_DIVISOR == 3 && RANDOM_DIVISOR > 0
  {
  }
}
