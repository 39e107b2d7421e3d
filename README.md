# CashRegister change engine, in Dafny

This project models the change-making core of the CashRegister application.
It also proves properties of that model.

- **Server engine** (`server/src/services/changeCalculator.js`, `server/src/config/denominations.js`):
  - `processInputLines` splits a text into trimmed, non-blank lines and classifies each one.
  - A line without a second field is `Invalid line`.
  - A line whose amounts do not parse is `Invalid amounts`.
  - Otherwise `computeChangeForLine` answers `Insufficient payment`, `No change`, or a change text such as `3 quarters,1 dime,3 pennies`.
  - The allocation behind a change text is normally greedy (`minimumChange`).
  - When the owed amount in cents is a positive multiple of 3, the allocation is random (`randomChange`). It draws every count at random and tops up any remainder in pennies.
- **Front end** (`components/`):
  - The text form: line codec, numeric sanitiser, per-row error and lock rules, field handlers.
  - The output panel's parser of change texts.
  - The calculator page: submit and merge of results, add and delete of lines, mode switch between text and keypad.
  - The keypad register.

Modules:

- `Options` (`options.dfy`): the optional value shared by every module (`None` for `null`, `undefined` or NaN).
- `JsStrings` (`js_strings.dfy`): the JavaScript string built-ins the core relies on: `trim`, `split`, `join`, `split(/\r?\n/)`, `filter(Boolean)`, `${n}`, `parseInt`, the `[^\d.]` strip, `filter`.
- `Denominations` (`denominations.dfy`): the US table and `CHANGE_RULES`.
- `ChangeCalculator` (`change_calculator.dfy`): `parseToCents`, `shouldUseRandomChange`, `formatChange`, `minimumChange`, `randomChange`, `computeChangeForLine`, `processInputLines`.
- `CalculatorInput` (`calculator_input.dfy`): `ChangeCalculatorInput.tsx`.
- `CalculatorOutput` (`calculator_output.dfy`): `parseChangeLine` and `isDollar` of `ChangeCalculatorOutput.tsx`.
- `CalculatorPage` (`calculator_page.dfy`): the handlers of `ChangeCalculator/index.tsx`, as a class `Page`.
- `RegisterInput` (`register_input.dfy`): the handlers of `RegisterInput.tsx`, as a class `Register`.

How the model is built:

- **Loops:** code that loops in the source is a method with a loop, proved equal to a specification function. This covers `formatChange`, `minimumChange`, the loop of `randomChange` (over an `array`, as in the source), `processInputLines`, `parseChangeLine` and the merge loop of `handleSubmit`.
- **Component state:** component state that the handlers update is a class whose fields match the source's `useState` variables.
  - Each handler is a method that changes the fields in place.
  - Its contract says the new state is a pure transition of the old state.
  - The lemmas state properties of those transitions.
- **Randomness:** `Math.random()` is an oracle `rand: nat -> Fraction` read at a cursor. The model reads it only where the source calls it, so one oracle position is consumed per call.
- **Amounts:** amounts are exact whole cents, and integers are unbounded.

Main results:

- **Exact change:**
  - The greedy allocation accounts for every cent and is the only exact allocation whose every tail is worth less than the coin before it.
  - On the US table it uses the fewest coins and bills.
  - With a penny in the table, the random allocation is exact whatever the oracle draws.
- **Line classification:** every line is classified exactly ("Invalid line" exactly when the line has no comma, and so on). Results come one per non-blank line, in input order.
- **Parsing back:** a formatted change line parses back, through the output panel's regular expression, to one (count, label) chip per positive count.
- **Round trips:**
  - Text to transactions and back gives the transactions.
  - `formatLine` followed by `parseLine` gives the fields back.
  - With `toSend` as the request body, the server reads exactly the valid lines and answers one result per line without refusing any. As written, the page posts an object instead, and every submit gets the single answer "Invalid line" (see "## Findings").
- **Page and keypad behaviour:**
  - Resubmitting the same lines keeps the outputs on display.
  - Typing a key that the amount keeps as typed, and then backspace, undoes the key. A key that `formatAmount` drops, such as a third fraction digit or a second dot, is not undone: backspace then removes an earlier character.
  - `formatAmount` is idempotent, while `sanitizeNumeric` is not (`"1.2.345"` gives `"1.2345"`, then `"1.23"`).

The design notes this model was checked against describe two rules differently from the code. The model follows the code:

- **Random-change rule:** the design notes describe a rule on whole-dollar owed and paid amounts, with a configurable divisor and no randomisation below one dollar of change. The code tests only the owed amount in cents, against the constant divisor 3 (`changeCalculator.js:20-22`).
- **Random allocation:** the design notes describe a seeded generator with counts scaled into [0.4, 1.0] and a nickel that absorbs the remainder. The code draws each count uniformly from [0, maxCount] with `Math.random()` and adds any remainder to the pennies (`changeCalculator.js:57-73`).

## Model

| member | source | states |
|---|---|---|
| `JsStrings.Trim` | server/src/services/changeCalculator.js:9 | `trim` leaves no white space at either end, never lengthens the text and adds no character |
| `JsStrings.TrimStartSuffix` | server/src/services/changeCalculator.js:9 | the leading trim only drops characters from the front: its result is a suffix of the text |
| `JsStrings.TrimEndPrefix` | server/src/services/changeCalculator.js:9 | the trailing trim only drops characters from the back: its result is a prefix of the text |
| `JsStrings.TrimEmpty` | server/src/services/changeCalculator.js:9-10 | a text trims to the empty string exactly when every character is white space |
| `JsStrings.TrimOfTrimmed` | server/src/services/changeCalculator.js:9 | trimming text without white space at either end changes nothing |
| `JsStrings.Split` | server/src/services/changeCalculator.js:95 | `split(sep)` gives at least one piece and no piece holds the separator |
| `JsStrings.SplitAvoiding` | server/src/services/changeCalculator.js:95 | a text without the separator splits into itself alone |
| `JsStrings.SplitJoin` | components/ChangeCalculator/index.tsx:30-32 | splitting a join on the same separator gives the pieces back when no piece holds it |
| `JsStrings.JoinSplit` | server/src/services/changeCalculator.js:95 | joining the pieces of a split gives the text back |
| `JsStrings.SplitHasSecond` | server/src/services/changeCalculator.js:95-96 | a split has a second piece exactly when the text holds the separator |
| `JsStrings.SplitPair` | server/src/services/changeCalculator.js:95 | two separator-free parts around one separator split into exactly those two parts |
| `JsStrings.SplitSnocSeparator` | components/ChangeCalculator/index.tsx:94 | a separator appended at the end adds one empty piece |
| `JsStrings.JoinAvoids` | components/ChangeCalculator/index.tsx:63 | a join holds no character, other than the separator, that its pieces avoid |
| `JsStrings.SplitLines` | server/src/services/changeCalculator.js:92 | `split(/\r?\n/)` gives as many pieces as the split on line feeds, none holding a line feed |
| `JsStrings.SplitLinesNoCr` | server/src/services/changeCalculator.js:92 | without carriage returns before line feeds, `split(/\r?\n/)` is the split on line feeds |
| `JsStrings.MapTrim` | server/src/services/changeCalculator.js:95 | `map((p) => p.trim())` trims every piece and keeps their number and order |
| `JsStrings.Compact` | server/src/services/changeCalculator.js:92 | `filter(Boolean)` keeps exactly the non-empty strings |
| `JsStrings.CompactOfNonEmpty` | server/src/services/changeCalculator.js:92 | `filter(Boolean)` keeps a list without empty strings as it is |
| `JsStrings.NonBlankLines` | server/src/services/changeCalculator.js:92 | every line the split-trim-filter pipeline yields is non-empty, trimmed and free of line feeds |
| `JsStrings.NonBlankLinesOfJoin` | server/src/services/changeCalculator.js:92 | clean lines joined by line feeds come back unchanged from that pipeline |
| `JsStrings.NatToString` | server/src/services/changeCalculator.js:34 | `${count}` is a non-empty digit string without a leading zero |
| `JsStrings.DigitsOfNatToString` | components/ChangeCalculatorOutput.tsx:40 | `parseInt` of a count's decimal text gives the count back |
| `JsStrings.DigitsPositive` | components/RegisterInput.tsx:34-37 | a digit string reads as a positive number exactly when it has a digit other than 0 |
| `JsStrings.KeepNumeric` | components/ChangeCalculatorInput.tsx:29 | `replace(/[^\d.]/g, '')` leaves only digits and dots and never lengthens the text |
| `JsStrings.KeepNumericOfNumeric` | components/ChangeCalculatorInput.tsx:29 | text of digits and dots passes through the strip unchanged |
| `JsStrings.KeepNumericKeeps` | components/ChangeCalculatorInput.tsx:29 | a digit or dot survives the strip exactly when it occurs in the text |
| `JsStrings.SplitOneDot` | components/ChangeCalculatorInput.tsx:30 | text with at most one dot splits on '.' into at most two pieces, the second short when the fraction is |
| `JsStrings.OneDotJoin` | components/ChangeCalculatorInput.tsx:31 | two dot-free pieces around one dot have one dot, and a short fraction when the second piece is short |
| `JsStrings.RemoveAt` | components/ChangeCalculator/index.tsx:99 | `filter((_, i) => i !== k)` never lengthens the list |
| `JsStrings.RemoveAtIndex` | components/ChangeCalculator/index.tsx:99 | that filter drops exactly the element at k when k is an index, and nothing otherwise |
| `JsStrings.Filter` | components/ChangeCalculator/index.tsx:56 | `filter(p)` keeps only elements of the list that pass `p` |
| `JsStrings.FilterExactly` | components/ChangeCalculator/index.tsx:56-62 | an element is in the filtered list exactly when it is in the list and passes |
| `JsStrings.FilterAppend` | components/ChangeCalculatorInput.tsx:62-64 | filtering a concatenation is concatenating the filtered parts |
| `JsStrings.FilterRank` | components/ChangeCalculatorInput.tsx:62-64 | an element that passes sits in the filtered list at the count of passing elements before it |
| `JsStrings.FilterAll` | components/ChangeCalculator/index.tsx:56-62 | a filter that every element passes keeps the list as it is |
| `Denominations.UsTableWellFormed` | server/src/config/denominations.js:5-11 | the US table has five entries with positive, strictly descending values, ends with the one-cent penny, and has printable labels whose singular and plural differ |
| `Denominations.UsValuesDescend` | server/src/config/denominations.js:5-11 | the US values are positive, strictly descending and end with 1 |
| `Denominations.UsLabelsPrintable` | server/src/config/denominations.js:5-11 | every US label is non-empty, comma-free, trimmed and free of line terminators |
| `Denominations.RandomDivisorPositive` | server/src/config/denominations.js:17-20 | the random divisor is 3, so the rule's `%` is defined |
| `ChangeCalculator.FractionCents` | server/src/services/changeCalculator.js:11-13 | at most two fraction digits stand for fewer than 100 cents |
| `ChangeCalculator.ParseUnsigned` | server/src/services/changeCalculator.js:11-13 | the unsigned reading of an amount; `ParseUnsignedCentsText` proves it reads every `d.cc` text back to its cents |
| `ChangeCalculator.ParseDecimal` | server/src/services/changeCalculator.js:11-13 | the signed reading with the `num < 0` test; `ParseCentsText` proves it gives the cents of a `d.cc` text, `ParseNegativeFails` that a negative amount is refused |
| `ChangeCalculator.ParseToCents` | server/src/services/changeCalculator.js:8-14 | blank text is NaN (`None`); any other result is the decimal reading of the trimmed text |
| `ChangeCalculator.ParseUnsignedCentsText` | server/src/services/changeCalculator.js:11-13 | the unsigned grammar reads `d.cc` back to its cents |
| `ChangeCalculator.ParseCentsText` | server/src/services/changeCalculator.js:8-14 | `parseToCents` of a dollars-and-cents text is exactly its cents |
| `ChangeCalculator.ParseNegativeFails` | server/src/services/changeCalculator.js:12 | a negative amount is NaN |
| `ChangeCalculator.ParseBlankFails` | server/src/services/changeCalculator.js:9-10 | blank or white-space-only text is NaN |
| `ChangeCalculator.ShouldUseRandomChange` | server/src/services/changeCalculator.js:20-22 | the rule only fires from the divisor upwards |
| `ChangeCalculator.RandomRuleMultiples` | server/src/services/changeCalculator.js:20-22 | the rule fires exactly for positive multiples of three cents |
| `ChangeCalculator.RandomRuleOnCents` | server/src/services/changeCalculator.js:20-22 | the rule is on cents: 150 fires, 100 and 0 do not |
| `ChangeCalculator.Entries` | server/src/services/changeCalculator.js:29-35 | at most one piece per denomination, each with a positive count |
| `ChangeCalculator.Pieces` | server/src/services/changeCalculator.js:34 | one `"<count> <label>"` text per entry, in order |
| `ChangeCalculator.Format` | server/src/services/changeCalculator.js:27-37 | the value of `formatChange`; `FormatChange` proves the loop computes it, `FormatNoChange` that it is "No change" exactly when no count is positive, `FormatSplits` that a comma split gives its pieces back, and `CalculatorOutput.ParseFormattedLine` that the output panel parses it back to its counts |
| `ChangeCalculator.FormatChange` | server/src/services/changeCalculator.js:27-37 | the formatting loop returns the comma join of the pieces, or "No change" without any |
| `ChangeCalculator.EntriesEmpty` | server/src/services/changeCalculator.js:29-36 | no piece is pushed exactly when no count (`?? 0`) is positive |
| `ChangeCalculator.PieceShape` | server/src/services/changeCalculator.js:34 | a piece starts with a digit and ends with its label's last character |
| `ChangeCalculator.FormatStartsWithDigit` | server/src/services/changeCalculator.js:34-36 | with any piece, the formatted text starts with a digit |
| `ChangeCalculator.FormatNoChange` | server/src/services/changeCalculator.js:36 | the text is "No change" exactly when no count is positive |
| `ChangeCalculator.EntryLabelsPrintable` | server/src/services/changeCalculator.js:32-33 | when the table's labels are printable, so is every label the formatter uses |
| `ChangeCalculator.PiecePrintable` | server/src/services/changeCalculator.js:34 | a piece with a printable label holds no comma and is trimmed |
| `ChangeCalculator.FormatSplits` | server/src/services/changeCalculator.js:36 | splitting the formatted text on commas gives back exactly the pieces |
| `ChangeCalculator.ValueAdd` | server/src/services/changeCalculator.js:70 | adding x pieces at one slot adds x times its value to the allocation |
| `ChangeCalculator.Greedy` | server/src/services/changeCalculator.js:45-49 | the greedy pass gives one count per denomination |
| `ChangeCalculator.MinimumChange` | server/src/services/changeCalculator.js:42-51 | the greedy loop's text is the format of the greedy allocation |
| `ChangeCalculator.GreedyStep` | server/src/services/changeCalculator.js:46-48 | one greedy step takes `floor(remaining / v)` and leaves `remaining % v` |
| `ChangeCalculator.GreedyAccounts` | server/src/services/changeCalculator.js:45-49 | greedy value plus leftover is the amount, and the leftover is below the smallest value |
| `ChangeCalculator.GreedyExact` | server/src/services/changeCalculator.js:42-51 | with a one-cent denomination last, the greedy allocation is worth exactly the amount |
| `ChangeCalculator.GreedyTails` | server/src/services/changeCalculator.js:47-48 | after each greedy step the rest of the allocation is worth less than that step's coin |
| `ChangeCalculator.GreedyUnique` | server/src/services/changeCalculator.js:45-49 | any exact allocation whose tails are each below the coin before them is the greedy one |
| `ChangeCalculator.ScaledDraw` | server/src/services/changeCalculator.js:63 | `floor(random * (maxCount + 1))` lies in [0, maxCount] |
| `ChangeCalculator.ScaledDrawReaches` | server/src/services/changeCalculator.js:63 | every count in [0, maxCount] is drawn for some value of `Math.random()` |
| `ChangeCalculator.DrawCount` | server/src/services/changeCalculator.js:62-63 | a drawn count fits in what remains |
| `ChangeCalculator.RandomPass` | server/src/services/changeCalculator.js:60-66 | the random pass gives one count per denomination and never moves the oracle back |
| `ChangeCalculator.RandomStep` | server/src/services/changeCalculator.js:60-66 | the pass's first count is the draw at that slot and the rest is the pass on what it leaves |
| `ChangeCalculator.PennyIndex` | server/src/services/changeCalculator.js:69 | `findIndex` gives the first one-cent slot, or -1 when there is none |
| `ChangeCalculator.RandomAllocation` | server/src/services/changeCalculator.js:58-71 | the random allocation gives one count per denomination |
| `ChangeCalculator.DrawCounts` | server/src/services/changeCalculator.js:58-66 | the array loop fills exactly the random pass's counts, leftover and oracle position |
| `ChangeCalculator.RandomChange` | server/src/services/changeCalculator.js:57-73 | `randomChange` returns the format of the random allocation and the next oracle position |
| `ChangeCalculator.RandomPassAccounts` | server/src/services/changeCalculator.js:60-66 | the random pass's value plus its leftover is the amount |
| `ChangeCalculator.RandomPassFits` | server/src/services/changeCalculator.js:62-65 | each count plus everything before it fits in the amount, so `remaining` never goes negative |
| `ChangeCalculator.RandomExact` | server/src/services/changeCalculator.js:67-71 | with a penny in the table, the random allocation is exact for every oracle and leaves nothing |
| `ChangeCalculator.RandomWithoutPenny` | server/src/services/changeCalculator.js:68-70 | without a penny, the leftover is dropped from the allocation |
| `ChangeCalculator.Allocation` | server/src/services/changeCalculator.js:82-85 | the allocation behind a positive change: random when the rule fires, else greedy; `AllocationExact` proves it exact, and greedy when the rule does not fire |
| `ChangeCalculator.ChangeForLine` | server/src/services/changeCalculator.js:78-86 | the value of `computeChangeForLine`; `ChangeForLineOutcome` proves insufficient / no change / exact allocation by the comparison of paid and owed, `ChangeTextStartsWithDigit` that change text is never a status message |
| `ChangeCalculator.ComputeChangeForLine` | server/src/services/changeCalculator.js:78-86 | `computeChangeForLine` gives the line's result and the next oracle position |
| `ChangeCalculator.ChangeForLineOutcome` | server/src/services/changeCalculator.js:78-86 | paid < owed gives "Insufficient payment", paid == owed "No change", otherwise the text of an exact allocation, greedy unless the rule fires |
| `ChangeCalculator.AllocationExact` | server/src/services/changeCalculator.js:82-85 | the allocation of positive change is exact, and greedy when the rule does not fire |
| `ChangeCalculator.ChangeTextStartsWithDigit` | server/src/services/changeCalculator.js:82-85 | a positive change's text starts with a digit, so it is never a status message |
| `ChangeCalculator.DigitOfPositiveValue` | server/src/services/changeCalculator.js:34-36 | counts of positive value format to text starting with a digit |
| `ChangeCalculator.ProcessLine` | server/src/services/changeCalculator.js:95-106 | the result for one line; `ProcessLineClassified` proves each outcome holds exactly in its case, `ProcessLineIgnoresExtraFields` that fields after the second do not matter |
| `ChangeCalculator.ProcessLines` | server/src/services/changeCalculator.js:93-108 | one result per line |
| `ChangeCalculator.ProcessLinesStep` | server/src/services/changeCalculator.js:94-107 | the first result of a batch is its first line's and the rest continue from its oracle position |
| `ChangeCalculator.ProcessInputLines` | server/src/services/changeCalculator.js:91-109 | the loop's results are the batch over the non-blank trimmed lines |
| `ChangeCalculator.ProcessLinesAt` | server/src/services/changeCalculator.js:94-108 | result i is the result of line i, in input order |
| `ChangeCalculator.ProcessLineClassified` | server/src/services/changeCalculator.js:95-106 | "Invalid line" iff no comma; "Invalid amounts" iff a comma but a field fails; "Insufficient payment"/"No change" iff paid below/equal owed; otherwise a text starting with a digit |
| `ChangeCalculator.ProcessLineIgnoresExtraFields` | server/src/services/changeCalculator.js:95-101 | fields after the second one do not affect a line's result |
| `ChangeCalculator.GreedyLinesIgnoreOracle` | server/src/services/changeCalculator.js:82-85 | a line the rule does not send to the random allocator gives the same result whatever `Math.random` gives |
| `ChangeCalculator.GreedyExample88` | server/src/db/seed.js:8-13 | 2.12 owed and 3.00 paid (88 cents) give "3 quarters,1 dime,3 pennies" |
| `ChangeCalculator.GreedyCounts88` | server/src/services/changeCalculator.js:45-49 | the greedy counts for 88 cents are 0, 3, 1, 0, 3 |
| `ChangeCalculator.FormatExample88` | server/src/services/changeCalculator.js:27-37 | the counts 0, 3, 1, 0, 3 format as "3 quarters,1 dime,3 pennies" |
| `ChangeCalculator.GreedyExample99` | server/src/db/seed.js:42-45 | 0.01 owed and 1.00 paid (99 cents) give "3 quarters,2 dimes,4 pennies" |
| `ChangeCalculator.GreedyCounts99` | server/src/services/changeCalculator.js:45-49 | the greedy counts for 99 cents are 0, 3, 2, 0, 4 |
| `ChangeCalculator.FormatExample99` | server/src/services/changeCalculator.js:27-37 | the counts 0, 3, 2, 0, 4 format as "3 quarters,2 dimes,4 pennies" |
| `ChangeCalculator.GreedyExample266` | server/src/db/seed.js:29-31 | 12.34 owed and 15.00 paid (266 cents) give "2 dollars,2 quarters,1 dime,1 nickel,1 penny" |
| `ChangeCalculator.GreedyCounts266` | server/src/services/changeCalculator.js:45-49 | the greedy counts for 266 cents are 2, 2, 1, 1, 1 |
| `ChangeCalculator.FormatExample266` | server/src/services/changeCalculator.js:27-37 | the counts 2, 2, 1, 1, 1 format as "2 dollars,2 quarters,1 dime,1 nickel,1 penny" |
| `ChangeCalculator.SeedGreedyLines` | server/src/services/changeCalculator.js:78-86 | the seeded lines 2.12/3.00, 0.01/1.00 and 12.34/15.00, whose owed cents are not multiples of three, give their stored outputs for every value of `Math.random` |
| `ChangeCalculator.CanonicalIsGreedy` | server/src/services/changeCalculator.js:40-51 | a canonical US allocation (no exchange applies) is the greedy one |
| `ChangeCalculator.Exchange` | server/src/services/changeCalculator.js:40 | a US allocation that is not canonical can be exchanged for one of equal value and fewer pieces |
| `ChangeCalculator.GreedyFewestPieces` | server/src/services/changeCalculator.js:40-51 | on the US table the greedy allocation of a value has no more pieces than any allocation of that value |
| `ChangeCalculator.GreedyIsMinimal` | server/src/services/changeCalculator.js:39-51 | `minimumChange` is what its comment says: exact, with the fewest coins and bills, on the US table |
| `CalculatorInput.ParseLine` | components/ChangeCalculatorInput.tsx:8-11 | `parseLine` gives two trimmed, comma-free fields made of the line's characters |
| `CalculatorInput.FormatLine` | components/ChangeCalculatorInput.tsx:13-15 | `owed,paid`; `ParseFormatLine` proves `parseLine` inverts it on trimmed, comma-free fields |
| `CalculatorInput.ParseFormatLine` | components/ChangeCalculatorInput.tsx:8-15 | `parseLine(formatLine(o, p))` gives (o, p) back for trimmed, comma-free fields |
| `CalculatorInput.ParseLineWithoutComma` | components/ChangeCalculatorInput.tsx:10 | a line without a comma has its trimmed text as owed and an empty paid field |
| `CalculatorInput.ParseLineStable` | components/ChangeCalculatorInput.tsx:8-15 | parsing a formatted parse gives the same parse |
| `CalculatorInput.StatusLiteralsDistinct` | components/ChangeCalculatorInput.tsx:4 | the four status literals are distinct and none starts with a digit |
| `CalculatorInput.IsErrorResult` | components/ChangeCalculatorInput.tsx:17-19 | membership in the three error literals; `ErrorResultOfLine` proves a server result is one exactly when its line lacks two amounts or paid < owed, `NotErrorResult` that change texts and "No change" are not |
| `CalculatorInput.NotErrorResult` | components/ChangeCalculatorInput.tsx:17-19 | "No change" and change texts are never flagged |
| `CalculatorInput.ErrorResultOfLine` | components/ChangeCalculatorInput.tsx:17-19 | a server result is flagged exactly when its line lacks two parsable amounts or paid < owed |
| `CalculatorInput.IsValidLine` | components/ChangeCalculatorInput.tsx:21-25 | both fields read as non-negative amounts; `ValidLineAccepted` proves the server never answers "Invalid line" or "Invalid amounts" for such a row |
| `CalculatorInput.ValidLineAccepted` | components/ChangeCalculatorInput.tsx:21-25 | a row the form calls valid never gets "Invalid line" or "Invalid amounts" from the server |
| `CalculatorInput.SanitizeNumeric` | components/ChangeCalculatorInput.tsx:27-34 | the result has only digits and dots, with at most one dot |
| `CalculatorInput.SanitizeOneDot` | components/ChangeCalculatorInput.tsx:32 | with exactly one dot, at most two digits follow it |
| `CalculatorInput.SanitizeOfAmount` | components/ChangeCalculatorInput.tsx:28-34 | a well-formed amount passes through unchanged |
| `CalculatorInput.SanitizeDropsSecondDot` | components/ChangeCalculatorInput.tsx:31 | with two dots, the second is dropped and the fraction is not cut |
| `CalculatorInput.SanitizeCutsFraction` | components/ChangeCalculatorInput.tsx:32 | with one dot, the fraction is cut to two digits |
| `CalculatorInput.SanitizeNotIdempotent` | components/ChangeCalculatorInput.tsx:31-32 | a two-dot value with a long fraction changes again on a second pass |
| `CalculatorInput.GetLineError` | components/ChangeCalculatorInput.tsx:61-69 | an error is shown only on a row with content, and only an error literal |
| `CalculatorInput.LineErrorPosition` | components/ChangeCalculatorInput.tsx:61-69 | the error shown is the output at the row's rank among rows with content. The page's outputs are indexed by valid lines (`ChangeCalculator/index.tsx`, lines 56-62 and 77), so an invalid row with content before this one shifts which output is read: it need not be this row's result |
| `CalculatorInput.IsLocked` | components/ChangeCalculatorInput.tsx:101-107 | a valid row with fewer than `computedCount` valid rows before it; `LockedRowsAreFirstValid` proves the locked rows are exactly the first `computedCount` valid rows |
| `CalculatorInput.LockedRowsAreFirstValid` | components/ChangeCalculatorInput.tsx:101-107 | a row is locked exactly when it is valid and its rank among valid rows is below the computed count |
| `CalculatorInput.ParsedRows` | components/ChangeCalculatorInput.tsx:57-58 | one parsed row per line of the text |
| `CalculatorInput.FormattedRows` | components/ChangeCalculatorInput.tsx:75 | one formatted line per row |
| `CalculatorInput.HandleOwedChange` | components/ChangeCalculatorInput.tsx:71-76 | the text after an owed edit; `OwedChangeRows` proves it keeps the row count, sets the edited row and reformats the others |
| `CalculatorInput.HandlePaidChange` | components/ChangeCalculatorInput.tsx:78-83 | the text after a paid edit; `PaidChangeRows` proves the same for the paid field |
| `CalculatorInput.SanitizedField` | components/ChangeCalculatorInput.tsx:74 | a sanitised field is trimmed and free of commas and line feeds |
| `CalculatorInput.RowsRoundTrip` | components/ChangeCalculatorInput.tsx:75 | formatted rows joined by line feeds split back into the same lines |
| `CalculatorInput.OwedChangeRows` | components/ChangeCalculatorInput.tsx:71-76 | editing owed keeps the row count, puts the sanitised owed and old paid in the edited row, and reformats the others |
| `CalculatorInput.PaidChangeRows` | components/ChangeCalculatorInput.tsx:78-83 | the same for the paid field |
| `CalculatorOutput.LeadingDigits` | components/ChangeCalculatorOutput.tsx:38 | `\d+` takes the whole run of leading digits |
| `CalculatorOutput.LeadingSpaces` | components/ChangeCalculatorOutput.tsx:38 | `\s+` takes the whole run of leading white space |
| `CalculatorOutput.MatchSegment` | components/ChangeCalculatorOutput.tsx:38 | `^(\d+)\s+(.+)$` with its backtracking; `MatchSegmentShape`, `MatchPiece` and `MatchNeedsDigit` prove what it accepts and captures |
| `CalculatorOutput.MatchSegmentShape` | components/ChangeCalculatorOutput.tsx:38 | a match starts with a digit, and its unit is a non-empty, line-terminator-free tail of the segment |
| `CalculatorOutput.MatchPiece` | components/ChangeCalculatorOutput.tsx:38-40 | `"<count> <label>"` matches and captures exactly that count and label |
| `CalculatorOutput.MatchNeedsDigit` | components/ChangeCalculatorOutput.tsx:38 | a segment that does not start with a digit never matches |
| `CalculatorOutput.Matches` | components/ChangeCalculatorOutput.tsx:37-38 | one match attempt per segment, in order |
| `CalculatorOutput.Somes` | components/ChangeCalculatorOutput.tsx:39-41 | no more chips than segments |
| `CalculatorOutput.Segments` | components/ChangeCalculatorOutput.tsx:36 | `split(',').map(trim).filter(Boolean)`; its pieces are the non-empty trimmed comma fields (`JsStrings.Compact`, `JsStrings.MapTrim`) |
| `CalculatorOutput.ParsedParts` | components/ChangeCalculatorOutput.tsx:37-41 | the chips of the matching segments; `ParsedPieces` proves the formatter's pieces give back their entries, `ParsedPartsNone` that segments without a leading digit give none |
| `CalculatorOutput.ChangeLineParts` | components/ChangeCalculatorOutput.tsx:33-44 | a non-null result is a non-empty chip list from a non-blank line |
| `CalculatorOutput.ParseChangeLine` | components/ChangeCalculatorOutput.tsx:33-44 | the segment loop returns exactly the chips of the matching segments, or null |
| `CalculatorOutput.SomesNone` | components/ChangeCalculatorOutput.tsx:39-43 | failed matches push no chip |
| `CalculatorOutput.ParsedPartsNone` | components/ChangeCalculatorOutput.tsx:37-43 | segments that do not start with a digit yield no chip |
| `CalculatorOutput.PlainLineHasNoChips` | components/ChangeCalculatorOutput.tsx:33-44 | a comma-free trimmed line not starting with a digit gives null |
| `CalculatorOutput.NoChangeHasNoChips` | components/ChangeCalculatorOutput.tsx:43 | "No change" gives null |
| `CalculatorOutput.InvalidLineHasNoChips` | components/ChangeCalculatorOutput.tsx:43 | "Invalid line" gives null |
| `CalculatorOutput.InvalidAmountsHasNoChips` | components/ChangeCalculatorOutput.tsx:43 | "Invalid amounts" gives null |
| `CalculatorOutput.InsufficientPaymentHasNoChips` | components/ChangeCalculatorOutput.tsx:43 | "Insufficient payment" gives null |
| `CalculatorOutput.SomesAll` | components/ChangeCalculatorOutput.tsx:39-41 | matches that all succeed push every chip, in order |
| `CalculatorOutput.IsDollar` | components/ChangeCalculatorOutput.tsx:46-48 | the unit is "dollar" or "dollars"; `DollarChipsAreBills` proves this picks exactly the 100-cent denomination of the US table |
| `CalculatorOutput.ParsedPieces` | components/ChangeCalculatorOutput.tsx:36-43 | the formatter's pieces parse back to their entries' chips |
| `CalculatorOutput.ParseFormattedLine` | components/ChangeCalculatorOutput.tsx:33-44 | a formatted change line parses back to (count, label) for every positive count, in table order |
| `CalculatorOutput.DollarChipsAreBills` | components/ChangeCalculatorOutput.tsx:46-48 | on the US table a chip is a bill exactly for the 100-cent denomination |
| `CalculatorPage.LineToTransaction` | components/ChangeCalculator/index.tsx:24-26 | a text line gives a clean transaction |
| `CalculatorPage.TextToTransactions` | components/ChangeCalculator/index.tsx:19-28 | every transaction read from text is clean |
| `CalculatorPage.PairsTextTrimmed` | components/ChangeCalculator/index.tsx:30-32 | the text of clean transactions has no white space at either end |
| `CalculatorPage.LineOfPair` | components/ChangeCalculator/index.tsx:24-26 | a clean pair's line reads back as the pair |
| `CalculatorPage.TextTransactionsRoundTrip` | components/ChangeCalculator/index.tsx:19-32 | `textToTransactions(transactionsToText(tx))` is `tx` for clean transactions |
| `CalculatorPage.TextToTransactionsStable` | components/ChangeCalculator/index.tsx:19-32 | reading text as transactions is stable under writing them back |
| `CalculatorPage.Submittable` | components/ChangeCalculator/index.tsx:56-62 | the submit filter: two fields that both read as non-negative amounts; `ServerAcceptsSubmitted` proves the server refuses none of the lines that pass it |
| `CalculatorPage.ValidLines` | components/ChangeCalculator/index.tsx:51-62 | the valid lines, those of `toSend`, are non-empty, trimmed, free of line feeds, and pass the filter |
| `CalculatorPage.SubmitText` | components/ChangeCalculator/index.tsx:63-64 | `toSend`; `SubmitSendsValidLines` proves the server reads it back as exactly the valid lines, and that it is empty exactly when none is valid |
| `CalculatorPage.SubmitSendsValidLines` | components/ChangeCalculator/index.tsx:63-64 | the server's line pipeline applied to `toSend` gives exactly the valid lines; `toSend` is empty exactly when none is valid |
| `CalculatorPage.ServerAcceptsSubmitted` | components/ChangeCalculator/index.tsx:56-65 | with `toSend` as the body (the corrected request), the server answers one result per valid line and refuses none as invalid |
| `CalculatorPage.Merge` | components/ChangeCalculator/index.tsx:74-85 | the merged output has one slot per result |
| `CalculatorPage.MergeStep` | components/ChangeCalculator/index.tsx:76-83 | each slot keeps the earlier output when its line is unchanged and had one, else takes the result |
| `CalculatorPage.MergeResubmit` | components/ChangeCalculator/index.tsx:77-79 | resubmitting the displayed lines keeps every displayed output |
| `CalculatorPage.MergeAppend` | components/ChangeCalculator/index.tsx:74-85 | lines appended after the display keep the old outputs and take the new results |
| `CalculatorPage.MergeChangedLine` | components/ChangeCalculator/index.tsx:80-82 | a changed line, or one past the earlier display, takes the new result |
| `CalculatorPage.PostedBodyAsWritten` | components/ChangeCalculator/index.tsx:65 | as written, the posted body is one line without a comma, whatever lines are valid, because the object `{ inputText, randomDivisor }` is posted in place of `toSend` |
| `CalculatorPage.ServerAnswerAsWritten` | components/ChangeCalculator/index.tsx:65 | as written, the server answers every submit with the single result "Invalid line" |
| `CalculatorPage.SubmitAsWritten` | components/ChangeCalculator/index.tsx:65-86 | as written, a submit that sends something displays every valid line but one output, and "Invalid line" on a page with nothing displayed |
| `CalculatorPage.SubmitOneResult` | components/ChangeCalculator/index.tsx:74-86 | a one-result answer shows every valid line with one output: the kept output or that result |
| `CalculatorPage.SubmitAsWrittenExample` | components/ChangeCalculator/index.tsx:65-86 | as written, submitting "1,2\n3,4" on a fresh page shows both lines with the single output "Invalid line" |
| `CalculatorPage.DigitLinesValid` | components/ChangeCalculator/index.tsx:51-63 | two lines of one-digit amounts both pass the submit filter |
| `CalculatorPage.PairSubmittable` | components/ChangeCalculator/index.tsx:56-62 | a keypad transaction whose line passes the submit filter; `FilterPairLines` and `ComputeValidLines` prove the filter keeps exactly these |
| `CalculatorPage.FilterPairLines` | components/ChangeCalculator/index.tsx:56-62 | filtering the lines of clean transactions gives the lines of exactly the passing transactions, in order |
| `CalculatorPage.ComputeValidLines` | components/RegisterInput.tsx:95-101 | compute's text goes through the page's filter, which keeps the lines of exactly the passing transactions, in order |
| `CalculatorPage.ComputeSubmitsValidPairs` | components/RegisterInput.tsx:95-101 | with `toSend` as the body, compute gets one accepted result per passing transaction; a failing transaction is not sent |
| `CalculatorPage.ComputeSendsEveryValidPair` | components/RegisterInput.tsx:95-101 | when every transaction passes the filter, compute sends every pair |
| `CalculatorPage.ComputeDropsUnparsablePair` | components/RegisterInput.tsx:78-101 | a valid register can record ("5", ".") after "." is typed, and compute then sends nothing |
| `CalculatorPage.Submit` | components/ChangeCalculator/index.tsx:48-91 | the submit transition; `SubmitTwiceKeepsOutputs`, `InsufficientKeepsDisplay` and `SubmitDisplaysValidLines` prove what it keeps and shows, and `Page.HandleSubmit` that the handler makes it |
| `CalculatorPage.AddLine` | components/ChangeCalculator/index.tsx:93-95 | the add-line transition; `AddLineAppendsEmpty` proves it appends one empty line |
| `CalculatorPage.DeleteLine` | components/ChangeCalculator/index.tsx:97-100 | the delete-line transition; `DeleteLineExact` and `DeleteLineOutOfRange` prove it removes exactly that line, or only rejoins the lines |
| `CalculatorPage.ClearOutput` | components/ChangeCalculator/index.tsx:102-109 | the clear transition; `Page.HandleClearOutput` states the reset of display, flag, text and transactions with the mode kept |
| `CalculatorPage.KeypadTransactionsChange` | components/ChangeCalculator/index.tsx:111-114 | the keypad-change transition; `KeypadChangeInSync` proves the text then reads back as the transactions |
| `CalculatorPage.ModeChange` | components/ChangeCalculator/index.tsx:116-129 | the mode-change transition; `ModeRoundTrip` proves text mode and back keeps the transactions |
| `CalculatorPage.SubmitTwiceKeepsOutputs` | components/ChangeCalculator/index.tsx:74-86 | submitting the same text twice keeps the first outputs, whatever the second answer, given that both answers have one result per valid line and neither contains "Insufficient payment" |
| `CalculatorPage.InsufficientKeepsDisplay` | components/ChangeCalculator/index.tsx:67-73 | an "Insufficient payment" answer leaves the display and raises the flag exactly when `toSend` is non-empty |
| `CalculatorPage.SubmitDisplaysValidLines` | components/ChangeCalculator/index.tsx:74-86 | with the server's answer to `toSend` (the corrected request), a successful answer shows the valid lines with one output each |
| `CalculatorPage.AddLineAppendsEmpty` | components/ChangeCalculator/index.tsx:93-95 | adding a line appends one empty line |
| `CalculatorPage.DeleteLineExact` | components/ChangeCalculator/index.tsx:97-100 | deleting a line removes exactly that line and keeps the rest in order |
| `CalculatorPage.DeleteLineOutOfRange` | components/ChangeCalculator/index.tsx:97-100 | deleting a non-existent line only rejoins the lines with line feeds |
| `CalculatorPage.KeypadChangeInSync` | components/ChangeCalculator/index.tsx:111-114 | after a keypad change the text reads back as the transactions |
| `CalculatorPage.ModeRoundTrip` | components/ChangeCalculator/index.tsx:116-129 | switching to text mode and back keeps the transactions |
| `CalculatorPage.MergeOutputs` | components/ChangeCalculator/index.tsx:75-84 | the push loop builds exactly the merged output |
| `CalculatorPage.SubmitStep` | components/ChangeCalculator/index.tsx:48-91 | the submit steps reach the submit transition and return its `toSend`, the text handed to the mutation (as written it is posted inside an object; see "## Findings"); mode, text and transactions are untouched |
| `CalculatorPage.Page.constructor` | components/ChangeCalculator/index.tsx:39-45 | nothing on display, no error, text mode, empty text, no transactions |
| `CalculatorPage.Page.HandleSubmit` | components/ChangeCalculator/index.tsx:48-91 | the fields become the submit transition of the old state; returns `toSend`, the text `handleSubmit` hands the mutation (as written it is posted inside an object; see "## Findings") |
| `CalculatorPage.Page.HandleAddLine` | components/ChangeCalculator/index.tsx:93-95 | the fields become the add-line transition |
| `CalculatorPage.Page.HandleDeleteLine` | components/ChangeCalculator/index.tsx:97-100 | the fields become the delete-line transition |
| `CalculatorPage.Page.HandleClearOutput` | components/ChangeCalculator/index.tsx:102-109 | the fields become the clear transition: display, flag, text and transactions reset, mode kept |
| `CalculatorPage.Page.HandleKeypadTransactionsChange` | components/ChangeCalculator/index.tsx:111-114 | the fields become the keypad-change transition |
| `CalculatorPage.Page.HandleModeChange` | components/ChangeCalculator/index.tsx:116-129 | the fields become the mode-change transition |
| `RegisterInput.FormatAmount` | components/RegisterInput.tsx:26-32 | the result is non-empty, digits and dots only, at most one dot, at most two fraction digits |
| `RegisterInput.FormatAmountOfAmount` | components/RegisterInput.tsx:26-32 | a well-formed amount is returned unchanged |
| `RegisterInput.FormatAmountIdempotent` | components/RegisterInput.tsx:26-32 | formatting twice is formatting once |
| `RegisterInput.FormatAmountCutsFraction` | components/RegisterInput.tsx:30 | a long fraction is cut to two digits |
| `RegisterInput.FormatAmountFullFraction` | components/RegisterInput.tsx:30 | a digit typed after two fraction digits is dropped |
| `RegisterInput.FormatAmountSecondDot` | components/RegisterInput.tsx:29 | a second dot is dropped |
| `RegisterInput.KeyPress` | components/RegisterInput.tsx:55-61 | a key press changes only the current amount |
| `RegisterInput.AmountPositive` | components/RegisterInput.tsx:34-37 | `parseAmount(s) > 0` on register text; `JsStrings.DigitsPositive` proves a digit string is positive exactly when a digit is not 0 |
| `RegisterInput.Owed` | components/RegisterInput.tsx:63-69 | the owed transition; `ClearOwedUndoesOwed` proves clearing undoes it, `OwedKeepsValid` that it keeps the state valid |
| `RegisterInput.ClearOwed` | components/RegisterInput.tsx:71-76 | the clear-owed transition; `ClearOwedUndoesOwed` and `ClearOwedKeepsValid` |
| `RegisterInput.Paid` | components/RegisterInput.tsx:78-86 | the paid transition; `PaidRecordsOnePair` proves it appends exactly the pair iff either amount is positive, `PaidKeepsValid` that it keeps the state valid |
| `RegisterInput.RemoveTransaction` | components/RegisterInput.tsx:88-93 | the removal transition; `RemoveTransactionExact` proves it drops exactly entry i, `RemoveUndoesPaid` that it undoes the paid step |
| `RegisterInput.PairLines` | components/RegisterInput.tsx:97-98 | one `owed,paid` line per transaction, in order |
| `RegisterInput.PairsText` | components/RegisterInput.tsx:97-99 | the submitted text; `ComputeSendsEachPair` proves the server reads it as one line per transaction with that transaction's amounts |
| `RegisterInput.ComputeText` | components/RegisterInput.tsx:95-101 | nothing on an empty list, else the pairs text; `CalculatorPage.ComputeSubmitsValidPairs` proves which transactions the page's filter sends and how many results come back |
| `RegisterInput.Enter` | components/RegisterInput.tsx:105-115 | Enter records the pair when owed is set, else sets owed from the entry, else computes; `EnterTwiceRecordsPair` proves the two-press sequence |
| `RegisterInput.KeyDown` | components/RegisterInput.tsx:103-127 | the key-down transition; `KeyDownKeepsValid` proves every key keeps the state valid |
| `RegisterInput.KeyDownKeepsValid` | components/RegisterInput.tsx:103-127 | every key keeps the amounts as digit-and-dot text and every transaction clean |
| `RegisterInput.KeyPressKeepsValid` | components/RegisterInput.tsx:55-61 | a key press keeps the entry amount text, whatever the key |
| `RegisterInput.OwedKeepsValid` | components/RegisterInput.tsx:63-69 | setting owed keeps the state valid: the owed amount is non-empty amount text |
| `RegisterInput.ClearOwedKeepsValid` | components/RegisterInput.tsx:71-76 | clearing owed keeps the state valid |
| `RegisterInput.PaidKeepsValid` | components/RegisterInput.tsx:78-86 | recording a pair keeps every transaction clean |
| `RegisterInput.RemoveTransactionKeepsValid` | components/RegisterInput.tsx:88-93 | removing a transaction keeps every remaining one clean |
| `RegisterInput.KeyThenBackspace` | components/RegisterInput.tsx:55-61 | a key the amount accepts as typed, followed by backspace, gives the state back |
| `RegisterInput.ClearOwedUndoesOwed` | components/RegisterInput.tsx:63-76 | clearing the owed amount undoes setting it |
| `RegisterInput.PaidRecordsOnePair` | components/RegisterInput.tsx:78-86 | the paid step appends exactly the (owed, paid) pair iff either is positive, keeping the earlier pairs; recording clears the entry and the owed amount; otherwise the state is unchanged |
| `RegisterInput.RemoveUndoesPaid` | components/RegisterInput.tsx:78-93 | removing the pair just recorded gives the old list back |
| `RegisterInput.RemoveTransactionExact` | components/RegisterInput.tsx:88-93 | removal drops exactly entry i, or nothing for an index out of range |
| `RegisterInput.ComputeSendsEachPair` | components/RegisterInput.tsx:95-101 | the server reads the submitted text as one line per transaction with that transaction's amounts |
| `RegisterInput.EnterTwiceRecordsPair` | components/RegisterInput.tsx:105-114 | Enter on an amount sets it as owed; Enter after the paid amount records the pair and clears both |
| `RegisterInput.Register.constructor` | components/RegisterInput.tsx:46-47 | an empty entry, no owed amount, the given transactions; valid exactly when those transactions are clean |
| `RegisterInput.Register.HandleKeyPress` | components/RegisterInput.tsx:55-61 | the fields become the key-press transition; a valid register stays valid |
| `RegisterInput.Register.HandleOwed` | components/RegisterInput.tsx:63-69 | the fields become the owed transition; a valid register stays valid |
| `RegisterInput.Register.HandleClearOwed` | components/RegisterInput.tsx:71-76 | the fields become the clear-owed transition; a valid register stays valid |
| `RegisterInput.Register.HandlePaid` | components/RegisterInput.tsx:78-86 | the fields become the paid transition; a valid register stays valid |
| `RegisterInput.Register.HandleRemoveTransaction` | components/RegisterInput.tsx:88-93 | the fields become the removal transition; a valid register stays valid |
| `RegisterInput.Register.HandleCompute` | components/RegisterInput.tsx:95-101 | returns nothing on an empty list, else the text of the transactions; changes nothing |
| `RegisterInput.Register.HandleKeyDown` | components/RegisterInput.tsx:103-127 | the fields and the text submitted are the key-down transition's; a valid register stays valid |

## Left out

- **Network, storage and presentation:** the HTTP server, database, React rendering, query and mutation hooks, and seed script are left out. The server's answer to a submit is a parameter of `CalculatorPage.Page.HandleSubmit` (`None` when the request fails).
- ChangeCalculator.ParseToCents: `parseFloat` followed by `Math.round(num * 100)` is replaced by an exact decimal grammar.
  - The grammar accepts an optional sign, digits, at most one dot and at most two fraction digits, with at least one digit.
  - Texts that `parseFloat` reads by prefix or in other notations are failures in the model. Examples: `"2abc"`, `"1e2"`, `"Infinity"`, and `"1.234"`, which JavaScript rounds to whole cents.
  - `"-0"` reads as 0, as in the source.
- CalculatorInput.IsValidLine uses the same grammar for `parseFloat(x) >= 0`, so the differences listed for `ChangeCalculator.ParseToCents` apply to the form's validity rule. The same holds for the submit filter (`CalculatorPage.ValidLines`).
- RegisterInput.AmountPositive replaces `parseFloat(s) > 0`. It holds when some digit is not zero, which matches `parseFloat` on the digit-and-dot text the register holds. It is not claimed for other text.
- **`Math.random`:** it is an oracle of fractions in [0, 1). No claim is made about the distribution of the random change, only about what holds for every draw.
- **`randomDivisor`:** the page state `randomDivisor` (`index.tsx:43`) is left out. `handleSubmit` puts it in the object it hands the mutation, but the server's `processInputLines` never reads it and always uses the constant divisor.
- ServerAcceptsSubmitted: takes the request body to be `toSend`, the evident intent of the mutation's `inputText: string` parameter. `index.tsx:65` passes `{ inputText, randomDivisor }` instead, and the mutation posts that object as the body (`hooks/calculatorMutations.ts:10-15`). The as-written behaviour is proved in `CalculatorPage.SubmitAsWritten` (see "## Findings").
- SubmitDisplaysValidLines: takes the server's answer to be its answer to `toSend`, for the same reason.
- ComputeSubmitsValidPairs: takes the request body to be `toSend`, for the same reason.
- **Number widths:** JavaScript numbers are doubles. The model's counts, cents and `parseInt` results are unbounded integers, so precision loss above 2^53 is not modelled.
- **Timing of `handleSubmit`:**
  - The model applies the server's answer in the same step as the submit; the source applies it later, in a callback.
  - The source's callback reads the displayed input lines from the time of the submit. That equals the model when no other handler runs in between.
  - `CalculatorPage.Page.HandleSubmit` computes the new state with `CalculatorPage.SubmitStep` and copies it into its fields, rather than setting each field in turn.
- **`mutation.reset()` in `handleClearOutput`:** it clears the request state, which is not modelled.
- **Transactions in the register:** `transactions` is a prop of `RegisterInput`. The class `Register` keeps it as a field and updates it where the source calls `onTransactionsChange`.
- **`formatInputLabel`:** it relies on `toFixed(2)` on floating-point numbers, and it is display text only.
- **Chip colours and the rest of `DenomChip`:** these are presentation. Only `isDollar` is modelled.
- **`hasContent`, the download and copy buttons, and the other JSX:** these are presentation.
- **The denomination table:** the allocators are modelled over any table with positive values, as the source's default parameters allow. Exactness results require a penny at the end, which the US table has.

## Findings

| source | as written | input that shows it | evidently intended | confidence | as-written member | corrected member |
|---|---|---|---|---|---|---|
| components/ChangeCalculator/index.tsx:65 | `mutation.mutate({ inputText: toSend, randomDivisor }, …)` hands the mutation an object, and the mutation posts its argument as the `fetch` body (`hooks/calculatorMutations.ts:10-15`). `fetch` turns a plain object into the text "[object Object]", which the server reads as one line without a comma. | submitting "1,2\n3,4" on a fresh page: the answer is ["Invalid line"], and the page shows two input lines with one output, "Invalid line" | post `toSend` as the body, so the server answers one result per valid line | not executed; the TypeScript checker would also reject the argument's type | `CalculatorPage.SubmitAsWrittenExample` | `CalculatorPage.ServerAcceptsSubmitted` |
