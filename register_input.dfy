/**
 * The keypad register: amounts are typed into `currentAmount`, Enter or the
 * owed button moves them into `owedAmount`, the paid step records an
 * (owed, paid) transaction, and compute submits every transaction as one
 * "owed,paid" line each.
 *
 * Each handler is a transition on a `RegisterState` value; the `Register`
 * class holds the same three fields and its methods are proved to make exactly
 * those transitions.
 */
module RegisterInput {
  import opened Options
  import opened JsStrings
  import opened ChangeCalculator
  import opened CalculatorInput

  /** One recorded transaction, amounts kept as typed. */
  datatype TransactionPair = TransactionPair(owed: string, paid: string)

  // ===========================================================================
  // formatAmount

  /** `formatAmount`: keep digits and dots; with several dots, drop all but the
      first and format again; with one dot, cut the fraction to two digits; an
      empty result becomes "0". */
  function FormatAmount(s: string): (r: string)
    ensures r != [] && AllNumeric(r) && AtMostOneDot(r) && ShortFraction(r)
    decreases |Split(KeepNumeric(s), '.')|
  {
    var cleaned := KeepNumeric(s);
    var parts := Split(cleaned, '.');
    SplitNumeric(cleaned);
    assert parts[0] in parts;
    if |parts| > 2 then
      var joined := parts[0] + "." + Concat(parts[1..]);
      ConcatAvoids(parts[1..], '.');
      ConcatNumeric(parts[1..]);
      OneDotJoin(parts[0], Concat(parts[1..]));
      KeepNumericOfNumeric(joined);
      SplitOneDot(joined);
      FormatAmount(joined)
    else if |parts| == 2 && |parts[1]| > 2 then
      assert parts[1] in parts;
      assert '.' !in parts[1][..2] by {
        assert forall c :: c in parts[1][..2] ==> c in parts[1];
      }
      OneDotJoin(parts[0], parts[1][..2]);
      parts[0] + "." + parts[1][..2]
    else if cleaned == [] then
      "0"
    else
      JoinSplit(cleaned, '.');
      if |parts| == 2 then
        assert parts[1] in parts;
        OneDotJoin(parts[0], parts[1]);
        cleaned
      else
        cleaned
  }

  /** A well-formed amount is already formatted. */
  lemma FormatAmountOfAmount(s: string)
    requires s != [] && AllNumeric(s) && AtMostOneDot(s) && ShortFraction(s)
    ensures FormatAmount(s) == s
  {
    KeepNumericOfNumeric(s);
    SplitOneDot(s);
    JoinSplit(s, '.');
  }

  /** Formatting twice is formatting once. */
  lemma FormatAmountIdempotent(s: string)
    ensures FormatAmount(FormatAmount(s)) == FormatAmount(s)
  {
    FormatAmountOfAmount(FormatAmount(s));
  }

  /** With one dot and more than two digits after it, the fraction is cut to
      its first two digits. */
  lemma FormatAmountCutsFraction(whole: string, f: string)
    requires AllDigits(whole) && AllDigits(f) && |f| > 2
    ensures FormatAmount(whole + "." + f) == whole + "." + f[..2]
  {
    var s := whole + "." + f;
    NumericDotJoin(whole, f);
    KeepNumericOfNumeric(s);
    DigitsAvoid(whole, '.');
    DigitsAvoid(f, '.');
    assert s == whole + ['.'] + f;
    SplitPair(whole, '.', f);
  }

  /** Once two fraction digits are typed, a further digit is dropped. */
  lemma FormatAmountFullFraction(whole: string, fraction: string, d: char)
    requires AllDigits(whole) && AllDigits(fraction) && |fraction| == 2 && IsDigit(d)
    ensures FormatAmount(whole + "." + fraction + [d]) == whole + "." + fraction
  {
    var f := fraction + [d];
    assert AllDigits(f);
    FormatAmountCutsFraction(whole, f);
    assert whole + "." + fraction + [d] == whole + "." + f;
    assert f[..2] == fraction;
  }

  /** A second dot typed after an amount that has one is dropped. */
  lemma FormatAmountSecondDot(whole: string, fraction: string)
    requires AllDigits(whole) && AllDigits(fraction) && |fraction| <= 2
    ensures FormatAmount(whole + "." + fraction + ".") == whole + "." + fraction
  {
    var amount := whole + "." + fraction;
    var s := amount + ".";
    var tail := fraction + ".";
    assert s == whole + ['.'] + tail;
    assert tail == fraction + ['.'] + "";
    DigitsAvoid(whole, '.');
    DigitsAvoid(fraction, '.');
    NumericDotJoin(fraction, "");
    NumericDotJoin(whole, tail);
    KeepNumericOfNumeric(s);
    SplitPair(fraction, '.', "");
    SplitCons(whole, '.', tail);
    var parts := Split(s, '.');
    assert parts == [whole, fraction, ""];
    assert parts[1..] == [fraction, ""];
    assert Concat([""]) == "";
    assert Concat(parts[1..]) == fraction;
    OneDotJoin(whole, fraction);
    NumericDotJoin(whole, fraction);
    FormatAmountOfAmount(amount);
  }

  // ===========================================================================
  // The register state and its transitions

  /** `parseAmount(s) > 0`. On text of digits with at most one dot (all the
      register ever holds) `parseFloat` is positive exactly when some digit is
      not zero; text with no digit reads as NaN, taken as 0. */
  predicate AmountPositive(s: string) {
    exists i :: 0 <= i < |s| && IsDigit(s[i]) && s[i] != '0'
  }

  /** `s || '0'`. */
  function OrZero(s: string): (r: string)
    ensures r != []
  {
    if s == [] then "0" else s
  }

  /** A non-null, non-empty owed amount: the truthiness test `if (owedAmount)`. */
  predicate HasOwed(owedAmount: Option<string>) {
    owedAmount.Some? && owedAmount.value != []
  }

  /** Text the keypad can hold: digits with at most one dot. */
  predicate AmountText(s: string) {
    AllNumeric(s) && AtMostOneDot(s)
  }

  /** A field that survives the "owed,paid" line format: trimmed, with no comma
      and no line feed. Both the keypad and the text mode record only these. */
  predicate CleanField(s: string) {
    IsTrimmed(s) && ',' !in s && '\n' !in s
  }

  predicate CleanPair(t: TransactionPair) {
    CleanField(t.owed) && CleanField(t.paid)
  }

  /** The keypad's fields and the transaction list it edits. */
  datatype RegisterState = RegisterState(
    currentAmount: string,
    owedAmount: Option<string>,
    transactions: seq<TransactionPair>)

  /** What the handlers keep true: amounts are amount text, a set owed amount
      is non-empty, and every transaction is clean. */
  predicate ValidState(st: RegisterState) {
    && AmountText(st.currentAmount)
    && (st.owedAmount.Some? ==> st.owedAmount.value != [] && AmountText(st.owedAmount.value))
    && (forall i :: 0 <= i < |st.transactions| ==> CleanPair(st.transactions[i]))
  }

  /** `handleKeyPress(key)`: "backspace" drops the last character; any other key
      is appended and the result formatted. */
  function KeyPress(st: RegisterState, key: string): (next: RegisterState)
    ensures next.owedAmount == st.owedAmount && next.transactions == st.transactions
  {
    if key == "backspace" then
      var c := st.currentAmount;
      st.(currentAmount := if c == [] then [] else c[..|c| - 1])
    else
      st.(currentAmount := FormatAmount(st.currentAmount + key))
  }

  /** `handleOwed`: a positive amount (empty reads as "0") becomes the owed
      amount and the entry is cleared; otherwise nothing changes. */
  function Owed(st: RegisterState): RegisterState {
    var amount := OrZero(st.currentAmount);
    if AmountPositive(amount) then st.(owedAmount := Some(amount), currentAmount := "")
    else st
  }

  /** `handleClearOwed`: the owed amount goes back into the entry. */
  function ClearOwed(st: RegisterState): RegisterState {
    if HasOwed(st.owedAmount) then st.(currentAmount := st.owedAmount.value, owedAmount := None)
    else st
  }

  /** `handlePaid`: when either amount is positive, record the pair (each
      defaulting to "0") and clear both fields; otherwise nothing changes. */
  function Paid(st: RegisterState): RegisterState {
    var paid := OrZero(st.currentAmount);
    var owed := if HasOwed(st.owedAmount) then st.owedAmount.value else "0";
    if AmountPositive(owed) || AmountPositive(paid) then
      RegisterState("", None, st.transactions + [TransactionPair(owed, paid)])
    else st
  }

  /** `handleRemoveTransaction(index)`: `transactions.filter((_, i) => i !== index)`. */
  function RemoveTransaction(st: RegisterState, index: int): RegisterState {
    st.(transactions := RemoveAt(st.transactions, index))
  }

  /** One "owed,paid" line per transaction. */
  function PairLines(ts: seq<TransactionPair>): (lines: seq<string>)
    ensures |lines| == |ts|
    ensures forall i :: 0 <= i < |ts| ==> lines[i] == ts[i].owed + "," + ts[i].paid
  {
    seq(|ts|, i requires 0 <= i < |ts| => ts[i].owed + "," + ts[i].paid)
  }

  /** `transactions.map((t) => `${t.owed},${t.paid}`).join('\n')`. */
  function PairsText(ts: seq<TransactionPair>): string {
    Join(PairLines(ts), '\n')
  }

  /** `handleCompute`: nothing on an empty list, otherwise the text submitted. */
  function ComputeText(st: RegisterState): Option<string> {
    if |st.transactions| == 0 then None else Some(PairsText(st.transactions))
  }

  /** Enter: record the paid step when an owed amount is set, else take the
      entry as owed when there is one, else compute when there are
      transactions. */
  function Enter(st: RegisterState): (RegisterState, Option<string>) {
    if HasOwed(st.owedAmount) then (Paid(st), None)
    else if st.currentAmount != [] then (Owed(st), None)
    else if |st.transactions| > 0 then (st, ComputeText(st))
    else (st, None)
  }

  /** `handleKeyDown`: Enter, Backspace, and the single keys 0-9 and '.'; other
      keys change nothing. */
  function KeyDown(st: RegisterState, key: string): (RegisterState, Option<string>) {
    if key == "Enter" then Enter(st)
    else if key == "Backspace" then (KeyPress(st, "backspace"), None)
    else if |key| == 1 && IsNumericChar(key[0]) then (KeyPress(st, key), None)
    else (st, None)
  }

  // ===========================================================================
  // Properties of the transitions

  lemma AmountTextPrefix(s: string, n: nat)
    requires AmountText(s) && n <= |s|
    ensures AmountText(s[..n])
  {
  }

  /** A key press keeps the state valid: the entry is either a prefix of amount
      text or the output of `formatAmount`. */
  lemma KeyPressKeepsValid(st: RegisterState, key: string)
    requires ValidState(st)
    ensures ValidState(KeyPress(st, key))
  {
    var c := st.currentAmount;
    if c != [] {
      AmountTextPrefix(c, |c| - 1);
    }
  }

  /** Setting the owed amount keeps the state valid. */
  lemma OwedKeepsValid(st: RegisterState)
    requires ValidState(st)
    ensures ValidState(Owed(st))
  {
  }

  /** Moving the owed amount back into the entry keeps the state valid. */
  lemma ClearOwedKeepsValid(st: RegisterState)
    requires ValidState(st)
    ensures ValidState(ClearOwed(st))
  {
  }

  /** Recording a pair keeps the state valid: both amounts are clean fields. */
  lemma PaidKeepsValid(st: RegisterState)
    requires ValidState(st)
    ensures ValidState(Paid(st))
  {
    var owed := if HasOwed(st.owedAmount) then st.owedAmount.value else "0";
    PairFieldsClean(owed);
    PairFieldsClean(OrZero(st.currentAmount));
  }

  /** Removing a transaction keeps the state valid. */
  lemma RemoveTransactionKeepsValid(st: RegisterState, index: int)
    requires ValidState(st)
    ensures ValidState(RemoveTransaction(st, index))
  {
    RemoveAtIndex(st.transactions, index);
  }

  /** Every key the register handles keeps its state valid. */
  lemma KeyDownKeepsValid(st: RegisterState, key: string)
    requires ValidState(st)
    ensures ValidState(KeyDown(st, key).0)
  {
    if key == "Enter" {
      if HasOwed(st.owedAmount) {
        PaidKeepsValid(st);
      } else if st.currentAmount != [] {
        OwedKeepsValid(st);
      }
    } else {
      KeyPressKeepsValid(st, "backspace");
      KeyPressKeepsValid(st, key);
    }
  }

  /** Amount text is a clean field. */
  lemma PairFieldsClean(s: string)
    requires AmountText(s)
    ensures CleanField(s)
  {
    DigitsOrDotAvoid(s, ',');
    DigitsOrDotAvoid(s, '\n');
    if s != [] {
      assert IsNumericChar(s[0]) && IsNumericChar(s[|s| - 1]);
    }
  }

  lemma DigitsOrDotAvoid(s: string, c: char)
    requires AllNumeric(s) && !IsNumericChar(c)
    ensures c !in s
  {
    forall i | 0 <= i < |s| ensures s[i] != c {
      assert IsNumericChar(s[i]);
    }
  }

  /** Typing a character that the amount accepts as it is, then backspace,
      gives the state back. */
  lemma KeyThenBackspace(st: RegisterState, d: char)
    requires var t := st.currentAmount + [d];
      AllNumeric(t) && AtMostOneDot(t) && ShortFraction(t)
    ensures KeyPress(st, [d]) == st.(currentAmount := st.currentAmount + [d])
    ensures KeyPress(KeyPress(st, [d]), "backspace") == st
  {
    var t := st.currentAmount + [d];
    FormatAmountOfAmount(t);
    assert [d] != "backspace";
    assert t[..|t| - 1] == st.currentAmount;
  }

  /** Clearing the owed amount undoes setting it. */
  lemma ClearOwedUndoesOwed(st: RegisterState)
    requires st.owedAmount == None && AmountPositive(st.currentAmount)
    ensures Owed(st).owedAmount == Some(st.currentAmount)
    ensures ClearOwed(Owed(st)) == st
  {
  }

  /** The paid step records exactly one pair when either amount is positive,
      and leaves the state alone otherwise. */
  lemma PaidRecordsOnePair(st: RegisterState)
    ensures var owed := if HasOwed(st.owedAmount) then st.owedAmount.value else "0";
      var paid := OrZero(st.currentAmount);
      var next := Paid(st);
      && (|next.transactions| == |st.transactions| + 1 <==> AmountPositive(owed) || AmountPositive(paid))
      && next.transactions[..|st.transactions|] == st.transactions
      && (next != st ==> next.transactions[|st.transactions|] == TransactionPair(owed, paid))
      && (AmountPositive(owed) || AmountPositive(paid) ==> next.currentAmount == "" && next.owedAmount == None)
      && (!(AmountPositive(owed) || AmountPositive(paid)) ==> next == st)
  {
    var next := Paid(st);
    assert (st.transactions + [TransactionPair("", "")])[..|st.transactions|] == st.transactions;
  }

  /** Removing the pair just recorded gives the old list back. */
  lemma RemoveUndoesPaid(st: RegisterState)
    requires Paid(st) != st
    ensures RemoveTransaction(Paid(st), |st.transactions|).transactions == st.transactions
  {
    var ts := Paid(st).transactions;
    RemoveAtIndex(ts, |st.transactions|);
    assert ts[..|st.transactions|] == st.transactions;
  }

  /** `handleRemoveTransaction(i)` drops exactly entry `i` and keeps the others
      in order; an index out of range leaves the list unchanged. */
  lemma RemoveTransactionExact(st: RegisterState, index: int)
    ensures var ts := RemoveTransaction(st, index).transactions;
      && (0 <= index < |st.transactions| ==>
            |ts| == |st.transactions| - 1
            && ts == st.transactions[..index] + st.transactions[index + 1..])
      && (!(0 <= index < |st.transactions|) ==> ts == st.transactions)
  {
    RemoveAtIndex(st.transactions, index);
  }

  /** The text submitted by compute reads back, line by line, as the
      transactions in order: the server sees one line per transaction, and each
      line's fields are that transaction's amounts. */
  lemma ComputeSendsEachPair(ts: seq<TransactionPair>)
    requires forall i :: 0 <= i < |ts| ==> CleanPair(ts[i])
    ensures NonBlankLines(PairsText(ts)) == PairLines(ts)
    ensures forall i :: 0 <= i < |ts| ==> ParseLine(PairLines(ts)[i]) == Fields(ts[i].owed, ts[i].paid)
  {
    var lines := PairLines(ts);
    forall l | l in lines ensures l != [] && IsTrimmed(l) && '\n' !in l {
      var i :| 0 <= i < |ts| && lines[i] == l;
      var t := ts[i];
      assert CleanPair(t);
      assert l == t.owed + [','] + t.paid;
      if t.owed != [] {
        assert l[0] == t.owed[0];
      }
      if t.paid != [] {
        assert l[|l| - 1] == t.paid[|t.paid| - 1];
      }
    }
    NonBlankLinesOfJoin(lines);
    forall i | 0 <= i < |ts| ensures ParseLine(lines[i]) == Fields(ts[i].owed, ts[i].paid) {
      assert CleanPair(ts[i]);
      ParseFormatLine(Fields(ts[i].owed, ts[i].paid));
    }
  }

  /** Enter on a positive entry sets it as owed; Enter again after the paid
      amount is typed records the pair and clears both fields. */
  lemma EnterTwiceRecordsPair(st: RegisterState, paid: string)
    requires st.owedAmount == None && AmountPositive(st.currentAmount)
    ensures var afterOwed := Enter(st).0;
      && afterOwed == st.(owedAmount := Some(st.currentAmount), currentAmount := "")
      && Enter(afterOwed.(currentAmount := paid)).0
           == RegisterState("", None, st.transactions + [TransactionPair(st.currentAmount, OrZero(paid))])
  {
  }

  // ===========================================================================
  // The component

  /** The register's state fields, updated in place by its handlers. */
  class Register {
    var currentAmount: string
    var owedAmount: Option<string>
    var transactions: seq<TransactionPair>

    function State(): RegisterState
      reads this
    {
      RegisterState(currentAmount, owedAmount, transactions)
    }

    /** The handlers' invariant: amounts are amount text and every
        transaction is clean. */
    ghost predicate Valid()
      reads this
    {
      ValidState(State())
    }

    /** A fresh register over the parent's transactions; it starts valid
        exactly when those transactions are clean. */
    constructor (transactions: seq<TransactionPair>)
      ensures State() == RegisterState("", None, transactions)
      ensures Valid() <==> forall i :: 0 <= i < |transactions| ==> CleanPair(transactions[i])
    {
      currentAmount := "";
      owedAmount := None;
      this.transactions := transactions;
    }

    method HandleKeyPress(key: string)
      modifies this
      ensures State() == KeyPress(old(State()), key)
      ensures old(Valid()) ==> Valid()
    {
      if Valid() {
        KeyPressKeepsValid(State(), key);
      }
      if key == "backspace" {
        if currentAmount != [] {
          currentAmount := currentAmount[..|currentAmount| - 1];
        }
        return;
      }
      currentAmount := FormatAmount(currentAmount + key);
    }

    method HandleOwed()
      modifies this
      ensures State() == Owed(old(State()))
      ensures old(Valid()) ==> Valid()
    {
      if Valid() {
        OwedKeepsValid(State());
      }
      var amount := if currentAmount == [] then "0" else currentAmount;
      if AmountPositive(amount) {
        owedAmount := Some(amount);
        currentAmount := "";
      }
    }

    method HandleClearOwed()
      modifies this
      ensures State() == ClearOwed(old(State()))
      ensures old(Valid()) ==> Valid()
    {
      if Valid() {
        ClearOwedKeepsValid(State());
      }
      if owedAmount.Some? && owedAmount.value != [] {
        currentAmount := owedAmount.value;
        owedAmount := None;
      }
    }

    method HandlePaid()
      modifies this
      ensures State() == Paid(old(State()))
      ensures old(Valid()) ==> Valid()
    {
      if Valid() {
        PaidKeepsValid(State());
      }
      var paid := if currentAmount == [] then "0" else currentAmount;
      var owed := if owedAmount.Some? && owedAmount.value != [] then owedAmount.value else "0";
      if AmountPositive(owed) || AmountPositive(paid) {
        transactions := transactions + [TransactionPair(owed, paid)];
        owedAmount := None;
        currentAmount := "";
      }
    }

    method HandleRemoveTransaction(index: int)
      modifies this
      ensures State() == RemoveTransaction(old(State()), index)
      ensures old(Valid()) ==> Valid()
    {
      if Valid() {
        RemoveTransactionKeepsValid(State(), index);
      }
      transactions := RemoveAt(transactions, index);
    }

    /** `handleCompute`: returns the text handed to `onSubmit`, if any. */
    method HandleCompute() returns (submitted: Option<string>)
      ensures submitted == ComputeText(State())
    {
      if |transactions| == 0 {
        return None;
      }
      submitted := Some(PairsText(transactions));
    }

    method HandleKeyDown(key: string) returns (submitted: Option<string>)
      modifies this
      ensures (State(), submitted) == KeyDown(old(State()), key)
      ensures old(Valid()) ==> Valid()
    {
      if Valid() {
        KeyDownKeepsValid(State(), key);
      }
      submitted := None;
      if key == "Enter" {
        if owedAmount.Some? && owedAmount.value != [] {
          HandlePaid();
        } else if currentAmount != [] {
          HandleOwed();
        } else if |transactions| > 0 {
          submitted := HandleCompute();
        }
        return;
      }
      if key == "Backspace" {
        HandleKeyPress("backspace");
        return;
      }
      if |key| == 1 && IsNumericChar(key[0]) {
        HandleKeyPress(key);
      }
    }
  }
}
