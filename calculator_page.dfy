/**
 * The calculator page: it owns the text the user edits, the transactions the
 * keypad records, and the input and output lines on display. Submitting hands
 * the valid lines, joined as `toSend`, to the request and merges the answer
 * into the display, keeping the earlier output of every line that did not
 * change. As written, the request posts an object holding `toSend` rather than
 * the text itself (see `PostedBodyAsWritten`).
 */
module CalculatorPage {
  import opened Options
  import opened JsStrings
  import opened ChangeCalculator
  import opened CalculatorInput
  import opened RegisterInput

  // ===========================================================================
  // textToTransactions / transactionsToText

  /** One text line as a transaction: the first two comma fields, trimmed; a
      missing paid field becomes "0". */
  function LineToTransaction(line: string): (t: TransactionPair)
    requires '\n' !in line
    ensures CleanPair(t)
  {
    var f := ParseLine(line);
    if |Split(line, ',')| >= 2 then
      TransactionPair(f.owed, f.paid)
    else
      ZeroIsClean();
      TransactionPair(f.owed, "0")
  }

  lemma ZeroIsClean()
    ensures CleanField("0")
  {
    assert "0" == ['0'];
  }

  /** `textToTransactions`: the non-empty lines of the trimmed text, each read
      as a transaction. Every transaction it yields is clean. */
  function TextToTransactions(text: string): (ts: seq<TransactionPair>)
    ensures forall i :: 0 <= i < |ts| ==> CleanPair(ts[i])
  {
    var lines := Compact(Split(Trim(text), '\n'));
    assert forall l :: l in lines ==> '\n' !in l;
    seq(|lines|, i requires 0 <= i < |lines| => LineToTransaction(lines[i]))
  }

  /** The lines of a transaction text, with the fields of each. */
  lemma PairLinesClean(ts: seq<TransactionPair>)
    requires forall i :: 0 <= i < |ts| ==> CleanPair(ts[i])
    ensures forall l :: l in PairLines(ts) ==> l != [] && '\n' !in l && ',' in l
  {
    forall l | l in PairLines(ts) ensures l != [] && '\n' !in l && ',' in l {
      var i :| 0 <= i < |ts| && PairLines(ts)[i] == l;
      assert CleanPair(ts[i]);
      assert l == ts[i].owed + [','] + ts[i].paid;
      assert l[|ts[i].owed|] == ',';
    }
  }

  /** The text of clean transactions has no white space at either end. */
  lemma PairsTextTrimmed(ts: seq<TransactionPair>)
    requires ts != []
    requires forall i :: 0 <= i < |ts| ==> CleanPair(ts[i])
    ensures IsTrimmed(PairsText(ts))
  {
    var lines := PairLines(ts);
    var first := lines[0];
    var last := lines[|lines| - 1];
    var t0 := ts[0];
    var tn := ts[|ts| - 1];
    assert CleanPair(t0) && CleanPair(tn);
    assert first == t0.owed + [','] + t0.paid;
    assert last == tn.owed + [','] + tn.paid;
    if t0.owed != [] {
      assert first[0] == t0.owed[0];
    }
    if tn.paid != [] {
      assert last[|last| - 1] == tn.paid[|tn.paid| - 1];
    }
    assert first != [] && last != [];
    JoinFirst(lines, '\n');
    JoinLast(lines, '\n');
  }

  /** A clean pair's line reads back as the pair. */
  lemma LineOfPair(t: TransactionPair)
    requires CleanPair(t)
    ensures '\n' !in t.owed + "," + t.paid
    ensures LineToTransaction(t.owed + "," + t.paid) == t
  {
    var line := t.owed + "," + t.paid;
    assert line == t.owed + [','] + t.paid;
    SplitPair(t.owed, ',', t.paid);
    ParseFormatLine(Fields(t.owed, t.paid));
  }

  /** Clean transactions survive being written as text and read back. */
  lemma TextTransactionsRoundTrip(ts: seq<TransactionPair>)
    requires forall i :: 0 <= i < |ts| ==> CleanPair(ts[i])
    ensures TextToTransactions(PairsText(ts)) == ts
  {
    var lines := PairLines(ts);
    var text := PairsText(ts);
    if ts == [] {
      assert text == "";
      assert Split("", '\n') == [""];
    } else {
      PairsTextTrimmed(ts);
      TrimOfTrimmed(text);
      PairLinesClean(ts);
      SplitJoin(lines, '\n');
      CompactOfNonEmpty(lines);
      assert Compact(Split(Trim(text), '\n')) == lines;
      forall i | 0 <= i < |ts| ensures LineToTransaction(lines[i]) == ts[i] {
        LineOfPair(ts[i]);
      }
    }
  }

  /** Reading a text twice through the transactions changes nothing more. */
  lemma TextToTransactionsStable(text: string)
    ensures TextToTransactions(PairsText(TextToTransactions(text))) == TextToTransactions(text)
  {
    TextTransactionsRoundTrip(TextToTransactions(text));
  }

  // ===========================================================================
  // handleSubmit: the line filter and the output merge

  /** The line filter: two fields that both parse as non-negative amounts. */
  predicate Submittable(line: string) {
    IsValidLine(ParseLine(line))
  }

  /** `validLines`: the trimmed non-empty lines of the trimmed input that pass
      the filter, in order. */
  function ValidLines(inputText: string): (lines: seq<string>)
    ensures forall l :: l in lines ==> l != [] && IsTrimmed(l) && '\n' !in l && Submittable(l)
  {
    Filter(NonBlankLines(Trim(inputText)), Submittable)
  }

  /** `toSend`. */
  function SubmitText(inputText: string): string {
    Join(ValidLines(inputText), '\n')
  }

  /** The server reads the submitted text as exactly the valid lines. */
  lemma SubmitSendsValidLines(inputText: string)
    ensures NonBlankLines(SubmitText(inputText)) == ValidLines(inputText)
    ensures SubmitText(inputText) == [] <==> ValidLines(inputText) == []
  {
    NonBlankLinesOfJoin(ValidLines(inputText));
    var lines := ValidLines(inputText);
    if lines != [] {
      assert lines[0] in lines;
      JoinFirst(lines, '\n');
    }
  }

  /** The server answers one result per valid line and never refuses one of
      them as an invalid line or invalid amounts. */
  lemma ServerAcceptsSubmitted(inputText: string, rand: nat -> Fraction, cursor: nat)
    ensures var valid := ValidLines(inputText);
      var b := ProcessLines(NonBlankLines(SubmitText(inputText)), rand, cursor);
      && |b.results| == |valid|
      && forall i :: 0 <= i < |valid| ==> b.results[i] != INVALID_LINE && b.results[i] != INVALID_AMOUNTS
  {
    SubmitSendsValidLines(inputText);
    var valid := ValidLines(inputText);
    forall i | 0 <= i < |valid|
      ensures ProcessLines(valid, rand, cursor).results[i] != INVALID_LINE
      ensures ProcessLines(valid, rand, cursor).results[i] != INVALID_AMOUNTS
    {
      assert valid[i] in valid;
      ProcessLinesAt(valid, rand, cursor, i);
      ValidLineAccepted(valid[i], rand, CursorBefore(valid, rand, cursor, i));
    }
  }

  // ---------------------------------------------------------------------------
  // The request body as written

  /** The text `fetch` posts when handed a plain object as its body: the
      object's `toString`. */
  const OBJECT_TEXT: string := "[object Object]"

  /** The body a submit posts as the page is written: `handleSubmit` hands the
      mutation the object `{ inputText: toSend, randomDivisor }`, and the
      mutation posts its argument itself as the body. Every submit therefore
      posts the same single line, without a comma, whatever lines are valid. */
  function PostedBodyAsWritten(inputText: string): (body: string)
    ensures NonBlankLines(body) == [body]
    ensures ',' !in body
  {
    ObjectTextPlain();
    assert Join([OBJECT_TEXT], '\n') == OBJECT_TEXT;
    NonBlankLinesOfJoin([OBJECT_TEXT]);
    OBJECT_TEXT
  }

  /** The object's text is one trimmed line without a comma. */
  lemma ObjectTextPlain()
    ensures OBJECT_TEXT != [] && IsTrimmed(OBJECT_TEXT)
    ensures '\n' !in OBJECT_TEXT && ',' !in OBJECT_TEXT
  {
    assert OBJECT_TEXT[0] == '[' && OBJECT_TEXT[|OBJECT_TEXT| - 1] == ']';
  }

  /** As written, the server answers every submit with a single "Invalid line". */
  lemma ServerAnswerAsWritten(inputText: string, rand: nat -> Fraction, cursor: nat)
    ensures ProcessLines(NonBlankLines(PostedBodyAsWritten(inputText)), rand, cursor).results == [INVALID_LINE]
  {
    SplitAvoiding(PostedBodyAsWritten(inputText), ',');
  }

  /** As written, a submit that sends something displays every valid line but
      only one output, and on a page with nothing on display that output is
      "Invalid line". */
  lemma SubmitAsWritten(st: PageState, inputText: string, rand: nat -> Fraction, cursor: nat)
    requires SubmitText(inputText) != []
    ensures var response := ProcessLines(NonBlankLines(PostedBodyAsWritten(inputText)), rand, cursor).results;
      var next := Submit(st, inputText, Some(response)).next;
      && next.displayedInputLines == ValidLines(inputText)
      && |next.displayedOutputLines| == 1
      && (st.displayedInputLines == [] ==> next.displayedOutputLines == [INVALID_LINE])
  {
    ServerAnswerAsWritten(inputText, rand, cursor);
    StatusLiteralsDistinct();
    SubmitOneResult(st, inputText, INVALID_LINE);
  }

  /** A one-result answer other than "Insufficient payment" displays every
      valid line with that single output, or the output kept in slot 0. */
  lemma SubmitOneResult(st: PageState, inputText: string, r: string)
    requires SubmitText(inputText) != [] && r != INSUFFICIENT_PAYMENT
    ensures var next := Submit(st, inputText, Some([r])).next;
      && next.displayedInputLines == ValidLines(inputText)
      && |next.displayedOutputLines| == 1
      && (st.displayedInputLines == [] ==> next.displayedOutputLines == [r])
  {
  }

  /** A line of two one-digit amounts passes the submit filter. */
  lemma DigitLineSubmittable(a: char, b: char)
    requires IsDigit(a) && IsDigit(b)
    ensures Submittable([a, ',', b])
  {
    ParseFormatLine(Fields([a], [b]));
    assert FormatLine(Fields([a], [b])) == [a, ',', b];
    forall d | IsDigit(d) ensures ParseToCents([d]).Some? {
      TrimOfTrimmed([d]);
      SplitAvoiding([d], '.');
    }
  }

  /** Two lines of one-digit amounts read as those two lines. */
  lemma DigitLines(a: char, b: char, c: char, d: char)
    requires IsDigit(a) && IsDigit(b) && IsDigit(c) && IsDigit(d)
    ensures NonBlankLines(Trim([a, ',', b, '\n', c, ',', d])) == [[a, ',', b], [c, ',', d]]
  {
    var lines := [[a, ',', b], [c, ',', d]];
    assert Join(lines, '\n') == [a, ',', b, '\n', c, ',', d];
    TrimOfTrimmed([a, ',', b, '\n', c, ',', d]);
    NonBlankLinesOfJoin(lines);
  }

  /** Two lines of one-digit amounts are both valid. */
  lemma DigitLinesValid(a: char, b: char, c: char, d: char)
    requires IsDigit(a) && IsDigit(b) && IsDigit(c) && IsDigit(d)
    ensures ValidLines([a, ',', b, '\n', c, ',', d]) == [[a, ',', b], [c, ',', d]]
  {
    var lines := [[a, ',', b], [c, ',', d]];
    DigitLines(a, b, c, d);
    assert ValidLines([a, ',', b, '\n', c, ',', d]) == Filter(lines, Submittable);
    DigitLineSubmittable(a, b);
    DigitLineSubmittable(c, d);
    assert forall i :: 0 <= i < |lines| ==> Submittable(lines[i]);
    FilterAll(lines, Submittable);
  }

  /** As written, submitting "1,2\n3,4" on a fresh page displays both lines
      with the one output "Invalid line": the second line shows no output, and
      the first shows an error although both lines are valid. */
  lemma SubmitAsWrittenExample(rand: nat -> Fraction, cursor: nat)
    ensures var text := "1,2\n3,4";
      var response := ProcessLines(NonBlankLines(PostedBodyAsWritten(text)), rand, cursor).results;
      var next := Submit(PageState([], [], false, "text", "", []), text, Some(response)).next;
      && next.displayedInputLines == ["1,2", "3,4"]
      && next.displayedOutputLines == [INVALID_LINE]
  {
    var text := "1,2\n3,4";
    DigitLinesValid('1', '2', '3', '4');
    SubmitSendsValidLines(text);
    SubmitAsWritten(PageState([], [], false, "text", "", []), text, rand, cursor);
  }

  // ---------------------------------------------------------------------------
  // The keypad's compute through the filter

  /** A transaction whose line passes the submit filter. */
  predicate PairSubmittable(t: TransactionPair) {
    IsValidLine(Fields(t.owed, t.paid))
  }

  /** The lines of two lists of transactions, one after the other. */
  lemma PairLinesAppend(a: seq<TransactionPair>, b: seq<TransactionPair>)
    ensures PairLines(a + b) == PairLines(a) + PairLines(b)
  {
    var lhs := PairLines(a + b);
    var rhs := PairLines(a) + PairLines(b);
    assert |lhs| == |rhs|;
    forall i | 0 <= i < |lhs| ensures lhs[i] == rhs[i] {
      if i < |a| {
        assert (a + b)[i] == a[i];
      } else {
        assert (a + b)[i] == b[i - |a|];
      }
    }
  }

  /** Filtering the lines of clean transactions keeps the lines of exactly the
      transactions that pass, in order. */
  lemma {:induction false} FilterPairLines(ts: seq<TransactionPair>)
    requires forall i :: 0 <= i < |ts| ==> CleanPair(ts[i])
    ensures Filter(PairLines(ts), Submittable) == PairLines(Filter(ts, PairSubmittable))
  {
    if ts != [] {
      var t := ts[0];
      var rest := ts[1..];
      var line := t.owed + "," + t.paid;
      assert CleanPair(t);
      assert Submittable(line) == PairSubmittable(t) by {
        ParseFormatLine(Fields(t.owed, t.paid));
      }
      var lines := PairLines(ts);
      assert lines[0] == line;
      assert lines[1..] == PairLines(rest);
      FilterPairLines(rest);
      var head := if PairSubmittable(t) then [t] else [];
      assert Filter(ts, PairSubmittable) == head + Filter(rest, PairSubmittable);
      PairLinesAppend(head, Filter(rest, PairSubmittable));
      assert PairLines(head) == if Submittable(line) then [line] else [];
    }
  }

  /** Compute on the keypad submits its text through `handleSubmit`, whose
      filter keeps the lines of exactly the transactions whose amounts pass
      it, in order. */
  lemma ComputeValidLines(ts: seq<TransactionPair>)
    requires forall i :: 0 <= i < |ts| ==> CleanPair(ts[i])
    ensures ValidLines(PairsText(ts)) == PairLines(Filter(ts, PairSubmittable))
  {
    if ts != [] {
      PairsTextTrimmed(ts);
    }
    TrimOfTrimmed(PairsText(ts));
    ComputeSendsEachPair(ts);
    FilterPairLines(ts);
  }

  /** The server answers a keypad compute with one accepted result for each
      transaction that passes the filter, in order; a transaction that fails
      the filter is not sent and gets no result. */
  lemma ComputeSubmitsValidPairs(ts: seq<TransactionPair>, rand: nat -> Fraction, cursor: nat)
    requires forall i :: 0 <= i < |ts| ==> CleanPair(ts[i])
    ensures ValidLines(PairsText(ts)) == PairLines(Filter(ts, PairSubmittable))
    ensures var sent := Filter(ts, PairSubmittable);
      var b := ProcessLines(NonBlankLines(SubmitText(PairsText(ts))), rand, cursor);
      && |b.results| == |sent|
      && forall i :: 0 <= i < |sent| ==> b.results[i] != INVALID_LINE && b.results[i] != INVALID_AMOUNTS
  {
    ComputeValidLines(ts);
    ServerAcceptsSubmitted(PairsText(ts), rand, cursor);
  }

  /** When every transaction passes the filter, compute sends every pair. */
  lemma ComputeSendsEveryValidPair(ts: seq<TransactionPair>)
    requires forall i :: 0 <= i < |ts| ==> CleanPair(ts[i]) && PairSubmittable(ts[i])
    ensures ValidLines(PairsText(ts)) == PairLines(ts)
  {
    ComputeValidLines(ts);
    FilterAll(ts, PairSubmittable);
  }

  /** A valid keypad can record a pair the submit filter drops: with "." typed
      after an owed amount of 5, the paid step records ("5", "."), and compute
      then sends nothing. */
  lemma ComputeDropsUnparsablePair()
    ensures var st := RegisterState(".", Some("5"), []);
      && ValidState(st)
      && Paid(st).transactions == [TransactionPair("5", ".")]
      && ValidLines(PairsText(Paid(st).transactions)) == []
  {
    var t := TransactionPair("5", ".");
    DotPairRecorded();
    DotPairFiltered();
    assert Filter([t], PairSubmittable) == [];
    ComputeValidLines([t]);
  }

  /** The keypad records ("5", ".") from a valid state. */
  lemma DotPairRecorded()
    ensures var st := RegisterState(".", Some("5"), []);
      && ValidState(st)
      && Paid(st).transactions == [TransactionPair("5", ".")]
  {
    assert AmountPositive("5") by {
      assert IsDigit("5"[0]) && "5"[0] != '0';
    }
  }

  /** The pair ("5", ".") is clean, but "." is not an amount. */
  lemma DotPairFiltered()
    ensures CleanPair(TransactionPair("5", ".")) && !PairSubmittable(TransactionPair("5", "."))
  {
    TrimOfTrimmed(".");
    assert "" + ['.'] + "" == ".";
    SplitPair("", '.', "");
  }



  /** Whether slot `i` keeps its earlier output: the line at `i` is the one
      displayed there before, and that line had an output. */
  predicate KeepsOutput(validLines: seq<string>, prevInputs: seq<string>, prevOutputs: seq<string>, i: nat) {
    i < |prevInputs| && i < |validLines| && validLines[i] == prevInputs[i] && i < |prevOutputs|
  }

  /** The merged output: one slot per result. */
  function Merge(validLines: seq<string>, prevInputs: seq<string>, prevOutputs: seq<string>, results: seq<string>): (merged: seq<string>)
    ensures |merged| == |results|
  {
    seq(|results|, i requires 0 <= i < |results| =>
      if KeepsOutput(validLines, prevInputs, prevOutputs, i) then prevOutputs[i] else results[i])
  }

  /** Merging one more result adds one slot. */
  lemma MergeStep(validLines: seq<string>, prevInputs: seq<string>, prevOutputs: seq<string>, results: seq<string>, i: nat)
    requires i < |results|
    ensures Merge(validLines, prevInputs, prevOutputs, results[..i + 1])
      == Merge(validLines, prevInputs, prevOutputs, results[..i])
         + [if KeepsOutput(validLines, prevInputs, prevOutputs, i) then prevOutputs[i] else results[i]]
  {
  }

  /** Resubmitting the lines on display keeps every output on display, even
      when the server's answer differs (random change). */
  lemma MergeResubmit(lines: seq<string>, outputs: seq<string>, results: seq<string>)
    requires |outputs| == |lines| && |results| == |lines|
    ensures Merge(lines, lines, outputs, results) == outputs
  {
  }

  /** Adding lines after those on display keeps their outputs and takes the
      server's results for the new lines. */
  lemma MergeAppend(prev: seq<string>, extra: seq<string>, outputs: seq<string>, results: seq<string>)
    requires |outputs| == |prev| && |results| == |prev| + |extra|
    ensures Merge(prev + extra, prev, outputs, results) == outputs + results[|prev|..]
  {
  }

  /** A line that differs from the one displayed in its slot takes the new
      result; so do slots past the earlier display. */
  lemma MergeChangedLine(validLines: seq<string>, prevInputs: seq<string>, prevOutputs: seq<string>, results: seq<string>, i: nat)
    requires i < |results|
    requires i >= |prevInputs| || i >= |validLines| || validLines[i] != prevInputs[i]
    ensures Merge(validLines, prevInputs, prevOutputs, results)[i] == results[i]
  {
  }

  // ===========================================================================
  // The page state and its transitions

  datatype PageState = PageState(
    displayedInputLines: seq<string>,
    displayedOutputLines: seq<string>,
    insufficientPaymentError: bool,
    mode: string,
    textInput: string,
    transactions: seq<TransactionPair>)

  /** The state after a submit, and `toSend` when it was handed to the mutation.
      As written, the mutation posts the object holding it, not the text
      itself (see `PostedBodyAsWritten`). */
  datatype Submission = Submission(next: PageState, sent: Option<string>)

  /** `handleSubmit(inputText)` together with the server's answer: the error
      flag is cleared; nothing is sent when no line is valid; an answer with
      "Insufficient payment" in it sets the flag and leaves the display alone;
      any other answer is merged into the display. Also gives `toSend` when
      it is handed to the mutation. */
  function Submit(st: PageState, inputText: string, response: Option<seq<string>>): Submission {
    var cleared := st.(insufficientPaymentError := false);
    var valid := ValidLines(inputText);
    var toSend := Join(valid, '\n');
    if toSend == [] then Submission(cleared, None)
    else if response.None? then Submission(cleared, Some(toSend))
    else if INSUFFICIENT_PAYMENT in response.value then Submission(cleared.(insufficientPaymentError := true), Some(toSend))
    else
      var merged := Merge(valid, st.displayedInputLines, st.displayedOutputLines, response.value);
      Submission(cleared.(displayedOutputLines := merged, displayedInputLines := valid), Some(toSend))
  }

  /** `handleAddLine`. */
  function AddLine(st: PageState): PageState {
    st.(textInput := st.textInput + "\n")
  }

  /** `handleDeleteLine(formIndex)`. */
  function DeleteLine(st: PageState, formIndex: int): PageState {
    st.(textInput := Join(RemoveAt(SplitLines(st.textInput), formIndex), '\n'))
  }

  /** `handleClearOutput`. */
  function ClearOutput(st: PageState): PageState {
    st.(displayedInputLines := [], displayedOutputLines := [], insufficientPaymentError := false,
        textInput := "", transactions := [])
  }

  /** `handleKeypadTransactionsChange(tx)`. */
  function KeypadTransactionsChange(st: PageState, tx: seq<TransactionPair>): PageState {
    st.(textInput := PairsText(tx), transactions := tx)
  }

  /** `handleModeChange(nextMode)`: entering text mode writes the transactions
      out as text; entering keypad mode reads a non-blank text back as
      transactions when it yields any. */
  function ModeChange(st: PageState, nextMode: string): PageState {
    var synced :=
      if nextMode == "text" && |st.transactions| > 0 then
        st.(textInput := PairsText(st.transactions))
      else if nextMode == "keypad" && Trim(st.textInput) != [] then
        var parsed := TextToTransactions(st.textInput);
        if |parsed| > 0 then st.(transactions := parsed) else st
      else st;
    synced.(mode := nextMode)
  }

  // ===========================================================================
  // Properties of the transitions

  /** Submitting the same text again, with any answer of the same length,
      keeps the outputs on display. */
  lemma SubmitTwiceKeepsOutputs(st: PageState, inputText: string, first: seq<string>, second: seq<string>)
    requires SubmitText(inputText) != []
    requires INSUFFICIENT_PAYMENT !in first && INSUFFICIENT_PAYMENT !in second
    requires |first| == |ValidLines(inputText)| && |second| == |first|
    ensures var once := Submit(st, inputText, Some(first)).next;
      Submit(once, inputText, Some(second)).next.displayedOutputLines == once.displayedOutputLines
  {
    var once := Submit(st, inputText, Some(first)).next;
    MergeResubmit(ValidLines(inputText), once.displayedOutputLines, second);
  }

  /** An answer with "Insufficient payment" leaves the display as it was. */
  lemma InsufficientKeepsDisplay(st: PageState, inputText: string, response: seq<string>)
    requires INSUFFICIENT_PAYMENT in response
    ensures var next := Submit(st, inputText, Some(response)).next;
      && next.displayedInputLines == st.displayedInputLines
      && next.displayedOutputLines == st.displayedOutputLines
      && (next.insufficientPaymentError <==> SubmitText(inputText) != [])
  {
  }

  /** After a successful answer the display shows the valid lines, one output
      each when the server answered one result per line. */
  lemma SubmitDisplaysValidLines(st: PageState, inputText: string, rand: nat -> Fraction, cursor: nat)
    requires SubmitText(inputText) != []
    ensures var response := ProcessLines(NonBlankLines(SubmitText(inputText)), rand, cursor).results;
      INSUFFICIENT_PAYMENT !in response ==>
        var next := Submit(st, inputText, Some(response)).next;
        && next.displayedInputLines == ValidLines(inputText)
        && |next.displayedOutputLines| == |next.displayedInputLines|
  {
    ServerAcceptsSubmitted(inputText, rand, cursor);
  }

  /** Adding a line appends one empty line to the text. */
  lemma AddLineAppendsEmpty(st: PageState)
    ensures Split(AddLine(st).textInput, '\n') == Split(st.textInput, '\n') + [""]
  {
    assert st.textInput + "\n" == st.textInput + ['\n'];
    SplitSnocSeparator(st.textInput, '\n');
  }

  /** Deleting a line removes exactly that line and keeps the others in order. */
  lemma DeleteLineExact(st: PageState, formIndex: int)
    requires |SplitLines(st.textInput)| >= 2 && 0 <= formIndex < |SplitLines(st.textInput)|
    ensures var lines := SplitLines(st.textInput);
      Split(DeleteLine(st, formIndex).textInput, '\n') == lines[..formIndex] + lines[formIndex + 1..]
  {
    var lines := SplitLines(st.textInput);
    RemoveAtIndex(lines, formIndex);
    var kept := lines[..formIndex] + lines[formIndex + 1..];
    forall l | l in kept ensures '\n' !in l {
      assert l in lines;
    }
    SplitJoin(kept, '\n');
  }

  /** Deleting an index that is not a line only normalises the line breaks. */
  lemma DeleteLineOutOfRange(st: PageState, formIndex: int)
    requires !(0 <= formIndex < |SplitLines(st.textInput)|)
    ensures DeleteLine(st, formIndex).textInput == Join(SplitLines(st.textInput), '\n')
  {
    RemoveAtIndex(SplitLines(st.textInput), formIndex);
  }

  /** After the keypad changes the transactions, the text reads back as them. */
  lemma KeypadChangeInSync(st: PageState, tx: seq<TransactionPair>)
    requires forall i :: 0 <= i < |tx| ==> CleanPair(tx[i])
    ensures var next := KeypadTransactionsChange(st, tx);
      TextToTransactions(next.textInput) == next.transactions
  {
    TextTransactionsRoundTrip(tx);
  }

  /** Switching to text mode and back to the keypad keeps the transactions. */
  lemma ModeRoundTrip(st: PageState)
    requires |st.transactions| > 0
    requires forall i :: 0 <= i < |st.transactions| ==> CleanPair(st.transactions[i])
    ensures var back := ModeChange(ModeChange(st, "text"), "keypad");
      back.transactions == st.transactions && back.mode == "keypad"
  {
    var ts := st.transactions;
    TextTransactionsRoundTrip(ts);
    PairLinesClean(ts);
    assert Split([], '\n') == [""];
    assert Compact([""]) == [];
  }

  /** The merge loop of `handleSubmit`: one pushed slot per result. */
  method MergeOutputs(validLines: seq<string>, prevInputs: seq<string>, prevOutputs: seq<string>, results: seq<string>)
    returns (merged: seq<string>)
    ensures merged == Merge(validLines, prevInputs, prevOutputs, results)
  {
    merged := [];
    for i := 0 to |results|
      invariant merged == Merge(validLines, prevInputs, prevOutputs, results[..i])
    {
      MergeStep(validLines, prevInputs, prevOutputs, results, i);
      var inputMatchesPrev := i < |prevInputs| && i < |validLines| && validLines[i] == prevInputs[i];
      if inputMatchesPrev && i < |prevOutputs| {
        merged := merged + [prevOutputs[i]];
      } else {
        merged := merged + [results[i]];
      }
    }
    assert results[..|results|] == results;
  }

  /** The steps of `handleSubmit` on a page state: clear the error, filter
      the lines, hand `toSend` to the mutation, then either raise the error or
      merge the results with the push loop. */
  method SubmitStep(st: PageState, inputText: string, response: Option<seq<string>>)
    returns (next: PageState, sent: Option<string>)
    ensures next == Submit(st, inputText, response).next
    ensures sent == Submit(st, inputText, response).sent
    ensures next.mode == st.mode && next.textInput == st.textInput && next.transactions == st.transactions
  {
    next := st.(insufficientPaymentError := false);
    var validLines := ValidLines(inputText);
    var toSend := Join(validLines, '\n');
    if toSend == [] {
      return next, None;
    }
    sent := Some(toSend);
    if response.None? {
      return;
    }
    var lines := response.value;
    if INSUFFICIENT_PAYMENT in lines {
      next := next.(insufficientPaymentError := true);
      return;
    }
    var merged := MergeOutputs(validLines, st.displayedInputLines, st.displayedOutputLines, lines);
    next := next.(displayedOutputLines := merged, displayedInputLines := validLines);
  }

  // ===========================================================================
  // The component

  class Page {
    var displayedInputLines: seq<string>
    var displayedOutputLines: seq<string>
    var insufficientPaymentError: bool
    var mode: string
    var textInput: string
    var transactions: seq<TransactionPair>

    function State(): PageState
      reads this
    {
      PageState(displayedInputLines, displayedOutputLines, insufficientPaymentError, mode, textInput, transactions)
    }

    /** The initial state: nothing displayed, text mode, empty text. */
    constructor ()
      ensures State() == PageState([], [], false, "text", "", [])
    {
      displayedInputLines := [];
      displayedOutputLines := [];
      insufficientPaymentError := false;
      mode := "text";
      textInput := "";
      transactions := [];
    }

    /** `handleSubmit`, with the server's answer passed in (`None` when the
        request does not succeed). Returns `toSend` when it is handed to the
        mutation. */
    method HandleSubmit(inputText: string, response: Option<seq<string>>) returns (sent: Option<string>)
      modifies this
      ensures State() == Submit(old(State()), inputText, response).next
      ensures sent == Submit(old(State()), inputText, response).sent
    {
      var next;
      next, sent := SubmitStep(State(), inputText, response);
      displayedInputLines, displayedOutputLines, insufficientPaymentError :=
        next.displayedInputLines, next.displayedOutputLines, next.insufficientPaymentError;
    }

    method HandleAddLine()
      modifies this
      ensures State() == AddLine(old(State()))
    {
      textInput := textInput + "\n";
    }

    method HandleDeleteLine(formIndex: int)
      modifies this
      ensures State() == DeleteLine(old(State()), formIndex)
    {
      var lines := SplitLines(textInput);
      textInput := Join(RemoveAt(lines, formIndex), '\n');
    }

    method HandleClearOutput()
      modifies this
      ensures State() == ClearOutput(old(State()))
    {
      displayedInputLines := [];
      displayedOutputLines := [];
      insufficientPaymentError := false;
      textInput := "";
      transactions := [];
    }

    method HandleKeypadTransactionsChange(tx: seq<TransactionPair>)
      modifies this
      ensures State() == KeypadTransactionsChange(old(State()), tx)
    {
      textInput := PairsText(tx);
      transactions := tx;
    }

    method HandleModeChange(nextMode: string)
      modifies this
      ensures State() == ModeChange(old(State()), nextMode)
    {
      if nextMode == "text" && |transactions| > 0 {
        textInput := PairsText(transactions);
      } else if nextMode == "keypad" && Trim(textInput) != [] {
        var parsed := TextToTransactions(textInput);
        if |parsed| > 0 {
          transactions := parsed;
        }
      }
      mode := nextMode;
    }
  }
}
