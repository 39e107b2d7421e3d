/**
 * The JavaScript string built-ins the change engine and its front end lean on:
 * `trim`, `split` on one character, `split(/\r?\n/)`, `join`, `filter(Boolean)`,
 * decimal rendering of a count (`${count}`) and `parseInt(digits, 10)`.
 * Strings are sequences of Unicode scalar values.
 */
module JsStrings {

  /** The code points ECMAScript counts as WhiteSpace or LineTerminator:
      what the regular-expression class `\s` matches and what `trim` removes. */
  predicate IsSpace(c: char) {
    || c == '\t' || c == '\n' || c == '\U{000B}' || c == '\U{000C}' || c == '\r' || c == ' '
    || c == '\U{00A0}' || c == '\U{1680}' || ('\U{2000}' <= c <= '\U{200A}')
    || c == '\U{2028}' || c == '\U{2029}' || c == '\U{202F}' || c == '\U{205F}'
    || c == '\U{3000}' || c == '\U{FEFF}'
  }

  /** The code points the regular-expression `.` refuses to match. */
  predicate IsLineTerminator(c: char) {
    c == '\n' || c == '\r' || c == '\U{2028}' || c == '\U{2029}'
  }

  /** `\d`: an ASCII decimal digit. */
  predicate IsDigit(c: char) {
    '0' <= c <= '9'
  }

  predicate AllDigits(s: string) {
    forall i :: 0 <= i < |s| ==> IsDigit(s[i])
  }

  /** A run of digits holds no other character. */
  lemma DigitsAvoid(s: string, c: char)
    requires AllDigits(s) && !IsDigit(c)
    ensures c !in s
  {
    forall i | 0 <= i < |s| ensures s[i] != c {
      assert IsDigit(s[i]);
    }
  }

  function DigitValue(c: char): (d: nat)
    requires IsDigit(c)
    ensures d < 10
  {
    c as int - '0' as int
  }

  function DigitChar(d: nat): (c: char)
    requires d < 10
    ensures IsDigit(c) && DigitValue(c) == d
  {
    ('0' as int + d) as char
  }

  // ---------------------------------------------------------------------------
  // trim

  /** A string with no white space at either end: what `trim` returns. */
  predicate IsTrimmed(s: string) {
    s == [] || (!IsSpace(s[0]) && !IsSpace(s[|s| - 1]))
  }

  function TrimStart(s: string): (r: string)
    ensures |r| <= |s|
    ensures r == [] || !IsSpace(r[0])
    ensures forall i :: 0 <= i < |s| - |r| ==> IsSpace(s[i])
  {
    if s != [] && IsSpace(s[0]) then TrimStart(s[1..]) else s
  }

  function TrimEnd(s: string): (r: string)
    ensures |r| <= |s|
    ensures r == [] || !IsSpace(r[|r| - 1])
    ensures forall i :: |r| <= i < |s| ==> IsSpace(s[i])
  {
    if s != [] && IsSpace(s[|s| - 1]) then TrimEnd(s[..|s| - 1]) else s
  }

  /** `s.trim()`: the longest infix of `s` that neither starts nor ends with white space. */
  function Trim(s: string): (r: string)
    ensures IsTrimmed(r)
    ensures |r| <= |s|
    ensures forall c :: c in r ==> c in s
  {
    var t := TrimStart(s);
    var r := TrimEnd(t);
    TrimStartSuffix(s);
    TrimEndPrefix(t);
    assert forall c :: c in r ==> c in t;
    r
  }

  /** `TrimStart` only drops characters from the front. */
  lemma {:induction false} TrimStartSuffix(s: string)
    ensures TrimStart(s) == s[|s| - |TrimStart(s)|..]
  {
    if s != [] && IsSpace(s[0]) {
      TrimStartSuffix(s[1..]);
    }
  }

  /** `TrimEnd` only drops characters from the back. */
  lemma {:induction false} TrimEndPrefix(s: string)
    ensures TrimEnd(s) == s[..|TrimEnd(s)|]
  {
    if s != [] && IsSpace(s[|s| - 1]) {
      TrimEndPrefix(s[..|s| - 1]);
    }
  }

  lemma TrimOfTrimmed(s: string)
    requires IsTrimmed(s)
    ensures Trim(s) == s
  {
  }

  /** Text that trims to nothing is made of white space only. */
  lemma TrimEmpty(s: string)
    ensures Trim(s) == [] <==> forall i :: 0 <= i < |s| ==> IsSpace(s[i])
  {
    var t := TrimStart(s);
    if Trim(s) == [] {
      assert TrimEnd(t) == [];
      assert t == [];
    } else if forall i :: 0 <= i < |s| ==> IsSpace(s[i]) {
      TrimStartAllSpace(s);
    }
  }

  lemma TrimStartAllSpace(s: string)
    requires forall i :: 0 <= i < |s| ==> IsSpace(s[i])
    ensures TrimStart(s) == []
  {
  }

  /** Trimming never moves text across a character that is not white space:
      a string whose first character is not white space keeps it. */
  lemma TrimKeepsFirst(s: string)
    requires s != [] && !IsSpace(s[0])
    ensures Trim(s) != [] && Trim(s)[0] == s[0]
  {
    assert TrimStart(s) == s;
    TrimEndPrefix(s);
  }

  // ---------------------------------------------------------------------------
  // split / join on a single character

  /** `s.split(sep)` for a one-character separator: always at least one piece,
      and no piece contains the separator. */
  function Split(s: string, sep: char): (parts: seq<string>)
    ensures |parts| >= 1
    ensures forall p :: p in parts ==> sep !in p
  {
    if s == [] then [""]
    else
      var rest := Split(s[1..], sep);
      if s[0] == sep then [""] + rest
      else [[s[0]] + rest[0]] + rest[1..]
  }

  /** `parts.join(sep)`. */
  function Join(parts: seq<string>, sep: char): string {
    if |parts| == 0 then ""
    else if |parts| == 1 then parts[0]
    else parts[0] + [sep] + Join(parts[1..], sep)
  }

  /** `parts.join('')`. */
  function Concat(parts: seq<string>): string {
    if parts == [] then "" else parts[0] + Concat(parts[1..])
  }

  lemma {:induction false} ConcatAvoids(parts: seq<string>, c: char)
    requires forall p :: p in parts ==> c !in p
    ensures c !in Concat(parts)
  {
    if parts != [] {
      ConcatAvoids(parts[1..], c);
    }
  }

  lemma {:induction false} SplitAvoiding(s: string, sep: char)
    requires sep !in s
    ensures Split(s, sep) == [s]
  {
    if s != [] {
      SplitAvoiding(s[1..], sep);
      assert [s[0]] + s[1..] == s;
    }
  }

  lemma {:induction false} SplitCons(p: string, sep: char, rest: string)
    requires sep !in p
    ensures Split(p + [sep] + rest, sep) == [p] + Split(rest, sep)
  {
    if p == [] {
      assert p + [sep] + rest == [sep] + rest;
      assert ([sep] + rest)[1..] == rest;
    } else {
      var s := p + [sep] + rest;
      assert s[1..] == p[1..] + [sep] + rest;
      SplitCons(p[1..], sep, rest);
      assert [p[0]] + p[1..] == p;
    }
  }

  /** Splitting a join gives the pieces back when none of them holds the separator. */
  lemma {:induction false} SplitJoin(parts: seq<string>, sep: char)
    requires |parts| >= 1
    requires forall p :: p in parts ==> sep !in p
    ensures Split(Join(parts, sep), sep) == parts
  {
    if |parts| == 1 {
      SplitAvoiding(parts[0], sep);
    } else {
      SplitJoin(parts[1..], sep);
      SplitCons(parts[0], sep, Join(parts[1..], sep));
      assert [parts[0]] + parts[1..] == parts;
    }
  }

  /** Joining a split gives the text back. */
  lemma {:induction false} JoinSplit(s: string, sep: char)
    ensures Join(Split(s, sep), sep) == s
  {
    if s != [] {
      JoinSplit(s[1..], sep);
      var rest := Split(s[1..], sep);
      if s[0] != sep {
        var parts := [[s[0]] + rest[0]] + rest[1..];
        if |rest| > 1 {
          assert parts[1..] == rest[1..];
          assert Join(rest, sep) == rest[0] + [sep] + Join(rest[1..], sep);
        }
        assert [s[0]] + s[1..] == s;
      } else {
        assert [s[0]] + s[1..] == s;
      }
    }
  }

  /** The text has a second piece exactly when it holds the separator. */
  lemma {:induction false} SplitHasSecond(s: string, sep: char)
    ensures |Split(s, sep)| >= 2 <==> sep in s
  {
    if s != [] {
      SplitHasSecond(s[1..], sep);
      assert sep in s <==> s[0] == sep || sep in s[1..];
    }
  }

  /** Split of `a + [sep] + b` when neither part holds the separator. */
  lemma SplitPair(a: string, sep: char, b: string)
    requires sep !in a && sep !in b
    ensures Split(a + [sep] + b, sep) == [a, b]
  {
    SplitCons(a, sep, b);
    SplitAvoiding(b, sep);
  }

  /** Joining one more piece adds a separator and the piece. */
  lemma {:induction false} JoinSnoc(parts: seq<string>, x: string, sep: char)
    requires |parts| >= 1
    ensures Join(parts + [x], sep) == Join(parts, sep) + [sep] + x
  {
    if |parts| > 1 {
      assert (parts + [x])[1..] == parts[1..] + [x];
      JoinSnoc(parts[1..], x, sep);
    }
  }

  /** A separator at the end of a text adds one empty piece. */
  lemma SplitSnocSeparator(s: string, sep: char)
    ensures Split(s + [sep], sep) == Split(s, sep) + [""]
  {
    var parts := Split(s, sep);
    JoinSplit(s, sep);
    JoinSnoc(parts, "", sep);
    assert s + [sep] == Join(parts + [""], sep);
    SplitJoin(parts + [""], sep);
  }

  /** The join of pieces that avoid a character avoids it too, except for the separators. */
  lemma {:induction false} JoinAvoids(parts: seq<string>, sep: char, c: char)
    requires c != sep
    requires forall p :: p in parts ==> c !in p
    ensures c !in Join(parts, sep)
  {
    if |parts| > 1 {
      JoinAvoids(parts[1..], sep, c);
    }
  }

  /** Joining three parts puts the separator between each two. */
  lemma JoinThree(a: string, b: string, c: string, sep: char)
    ensures Join([a, b, c], sep) == a + [sep] + b + [sep] + c
  {
    assert [b, c][1..] == [c];
    assert Join([b, c], sep) == b + [sep] + c;
    assert [a, b, c][1..] == [b, c];
    assert a + [sep] + (b + [sep] + c) == a + [sep] + b + [sep] + c;
  }

  /** The first character of a join is that of its first non-empty piece. */
  lemma JoinFirst(parts: seq<string>, sep: char)
    requires |parts| >= 1 && parts[0] != []
    ensures Join(parts, sep) != [] && Join(parts, sep)[0] == parts[0][0]
  {
  }

  /** The last character of a join is that of its last non-empty piece. */
  lemma {:induction false} JoinLast(parts: seq<string>, sep: char)
    requires |parts| >= 1 && parts[|parts| - 1] != []
    ensures Join(parts, sep) != []
    ensures Join(parts, sep)[|Join(parts, sep)| - 1] == parts[|parts| - 1][|parts[|parts| - 1]| - 1]
  {
    if |parts| > 1 {
      JoinLast(parts[1..], sep);
    }
  }

  // ---------------------------------------------------------------------------
  // split(/\r?\n/), map(trim), filter(Boolean)

  function DropCr(p: string): (r: string)
    ensures r == p || (p == r + ['\r'])
    ensures forall c :: c in r ==> c in p
  {
    if p != [] && p[|p| - 1] == '\r' then p[..|p| - 1] else p
  }

  /** `s.split(/\r?\n/)`: pieces end at every line feed, and a carriage return
      directly before a line feed belongs to the separator. */
  function SplitLines(s: string): (lines: seq<string>)
    ensures |lines| == |Split(s, '\n')| >= 1
    ensures forall i :: 0 <= i < |lines| ==> '\n' !in lines[i]
  {
    var pieces := Split(s, '\n');
    seq(|pieces|, i requires 0 <= i < |pieces| =>
      if i < |pieces| - 1 then DropCr(pieces[i]) else pieces[i])
  }

  /** Text without carriage returns splits into lines exactly as on a line feed. */
  lemma SplitLinesNoCr(s: string)
    requires forall p :: p in Split(s, '\n') ==> p == [] || p[|p| - 1] != '\r'
    ensures SplitLines(s) == Split(s, '\n')
  {
  }

  /** `xs.map((x) => x.trim())`. */
  function MapTrim(xs: seq<string>): (r: seq<string>)
    ensures |r| == |xs|
    ensures forall i :: 0 <= i < |xs| ==> r[i] == Trim(xs[i])
  {
    seq(|xs|, i requires 0 <= i < |xs| => Trim(xs[i]))
  }

  /** `xs.filter(Boolean)` on strings: drop the empty ones, keep the order. */
  function Compact(xs: seq<string>): (r: seq<string>)
    ensures |r| <= |xs|
    ensures forall x :: x in r <==> x in xs && x != []
  {
    if xs == [] then []
    else if xs[0] == [] then Compact(xs[1..])
    else [xs[0]] + Compact(xs[1..])
  }

  lemma {:induction false} CompactOfNonEmpty(xs: seq<string>)
    requires forall x :: x in xs ==> x != []
    ensures Compact(xs) == xs
  {
    if xs != [] {
      assert xs[0] in xs;
      assert forall x :: x in xs[1..] ==> x in xs;
      CompactOfNonEmpty(xs[1..]);
      assert [xs[0]] + xs[1..] == xs;
    }
  }

  /** The non-blank lines of a text, each trimmed, in order:
      `text.split(/\r?\n/).map((l) => l.trim()).filter(Boolean)`. */
  function NonBlankLines(text: string): (lines: seq<string>)
    ensures forall l :: l in lines ==> l != [] && IsTrimmed(l) && '\n' !in l
  {
    var all := MapTrim(SplitLines(text));
    assert forall l :: l in all ==> '\n' !in l by {
      forall l | l in all ensures '\n' !in l {
        var i :| 0 <= i < |all| && all[i] == l;
        assert '\n' !in SplitLines(text)[i];
      }
    }
    Compact(all)
  }

  /** Lines that are already trimmed, non-empty and free of line feeds survive a
      join on line feeds followed by the split-trim-filter pipeline unchanged. */
  lemma NonBlankLinesOfJoin(lines: seq<string>)
    requires forall l :: l in lines ==> l != [] && IsTrimmed(l) && '\n' !in l
    ensures NonBlankLines(Join(lines, '\n')) == lines
  {
    if lines == [] {
      assert Split("", '\n') == [""];
      assert MapTrim(SplitLines("")) == [""];
    } else {
      SplitJoin(lines, '\n');
      var pieces := Split(Join(lines, '\n'), '\n');
      assert pieces == lines;
      forall p | p in pieces ensures p == [] || p[|p| - 1] != '\r' {
        assert p in lines;
      }
      SplitLinesNoCr(Join(lines, '\n'));
      assert MapTrim(lines) == lines by {
        forall i | 0 <= i < |lines| ensures Trim(lines[i]) == lines[i] {
          assert lines[i] in lines;
          TrimOfTrimmed(lines[i]);
        }
      }
      CompactOfNonEmpty(lines);
    }
  }

  // ---------------------------------------------------------------------------
  // numbers as text

  /** `${n}` for a non-negative integer: its decimal digits, no leading zero. */
  function NatToString(n: nat): (s: string)
    ensures s != [] && AllDigits(s)
    ensures |s| > 1 ==> s[0] != '0'
    decreases n
  {
    if n < 10 then [DigitChar(n)] else NatToString(n / 10) + [DigitChar(n % 10)]
  }

  /** `parseInt(s, 10)` for a string of decimal digits (leading zeros allowed). */
  function DigitsToNat(s: string): nat
    requires AllDigits(s)
  {
    if s == [] then 0 else DigitsToNat(s[..|s| - 1]) * 10 + DigitValue(s[|s| - 1])
  }

  /** Reading the decimal rendering of a count gives the count back. */
  lemma {:induction false} DigitsOfNatToString(n: nat)
    ensures DigitsToNat(NatToString(n)) == n
    decreases n
  {
    var s := NatToString(n);
    if n >= 10 {
      DigitsOfNatToString(n / 10);
      assert s[..|s| - 1] == NatToString(n / 10);
    }
  }

  /** A digit string stands for a positive number exactly when one of its digits is not '0'. */
  lemma {:induction false} DigitsPositive(s: string)
    requires AllDigits(s)
    ensures DigitsToNat(s) > 0 <==> exists i :: 0 <= i < |s| && s[i] != '0'
  {
    if s != [] {
      var init := s[..|s| - 1];
      DigitsPositive(init);
      if exists i :: 0 <= i < |init| && init[i] != '0' {
        var i :| 0 <= i < |init| && init[i] != '0';
        assert s[i] != '0';
      }
      if exists i :: 0 <= i < |s| && s[i] != '0' {
        var i :| 0 <= i < |s| && s[i] != '0';
        if i < |s| - 1 {
          assert init[i] != '0';
        }
      }
    }
  }

  // ---------------------------------------------------------------------------
  // value.replace(/[^\d.]/g, '') and the shape of decimal text

  predicate IsNumericChar(c: char) {
    IsDigit(c) || c == '.'
  }

  predicate AllNumeric(s: string) {
    forall i :: 0 <= i < |s| ==> IsNumericChar(s[i])
  }

  /** Two numeric texts joined by a dot are numeric. */
  lemma NumericDotJoin(a: string, b: string)
    requires AllNumeric(a) && AllNumeric(b)
    ensures AllNumeric(a + "." + b)
  {
    var s := a + "." + b;
    forall i | 0 <= i < |s| ensures IsNumericChar(s[i]) {
      if i < |a| {
        assert s[i] == a[i];
      } else if i > |a| {
        assert s[i] == b[i - |a| - 1];
      }
    }
  }

  /** Every character of a split piece comes from the split text. */
  lemma SplitChars(s: string, sep: char, i: nat)
    requires i < |Split(s, sep)|
    ensures forall c :: c in Split(s, sep)[i] ==> c in s
  {
    if s != [] {
      if s[0] == sep {
        if i > 0 {
          SplitChars(s[1..], sep, i - 1);
        }
      } else if i == 0 {
        SplitChars(s[1..], sep, 0);
      } else {
        SplitChars(s[1..], sep, i);
      }
    }
  }

  lemma {:induction false} ConcatNumeric(parts: seq<string>)
    requires forall p :: p in parts ==> AllNumeric(p)
    ensures AllNumeric(Concat(parts))
  {
    if parts != [] {
      assert parts[0] in parts;
      ConcatNumeric(parts[1..]);
    }
  }

  /** The pieces of a split of numeric text are numeric. */
  lemma SplitNumeric(s: string)
    requires AllNumeric(s)
    ensures forall p :: p in Split(s, '.') ==> AllNumeric(p)
  {
    forall p | p in Split(s, '.') ensures AllNumeric(p) {
      var i :| 0 <= i < |Split(s, '.')| && Split(s, '.')[i] == p;
      SplitChars(s, '.', i);
      forall k | 0 <= k < |p| ensures IsNumericChar(p[k]) {
        assert p[k] in p;
      }
    }
  }

  /** `s.replace(/[^\d.]/g, '')`: keep the digits and dots, in order. */
  function KeepNumeric(s: string): (r: string)
    ensures AllNumeric(r)
    ensures |r| <= |s|
  {
    if s == [] then []
    else (if IsNumericChar(s[0]) then [s[0]] else []) + KeepNumeric(s[1..])
  }

  /** Text made only of digits and dots passes through unchanged. */
  lemma {:induction false} KeepNumericOfNumeric(s: string)
    requires AllNumeric(s)
    ensures KeepNumeric(s) == s
  {
    if s != [] {
      KeepNumericOfNumeric(s[1..]);
      assert [s[0]] + s[1..] == s;
    }
  }

  /** Only what was typed survives, whatever else is removed: a digit or dot is
      kept exactly when it occurs. */
  lemma {:induction false} KeepNumericKeeps(s: string, c: char)
    requires IsNumericChar(c)
    ensures c in KeepNumeric(s) <==> c in s
  {
    if s != [] {
      KeepNumericKeeps(s[1..], c);
      assert c in s <==> c == s[0] || c in s[1..];
    }
  }

  /** No two dots. */
  predicate AtMostOneDot(s: string) {
    forall i, j :: 0 <= i < j < |s| && s[i] == '.' ==> s[j] != '.'
  }

  /** At most two characters after a dot. */
  predicate ShortFraction(s: string) {
    forall i :: 0 <= i < |s| && s[i] == '.' ==> |s| - i <= 3
  }

  /** Two dot-free pieces around one dot. */
  lemma OneDotJoin(a: string, b: string)
    requires '.' !in a && '.' !in b
    ensures AtMostOneDot(a + "." + b)
    ensures |b| <= 2 ==> ShortFraction(a + "." + b)
  {
    var s := a + "." + b;
    forall i | 0 <= i < |s| && i != |a|
      ensures s[i] != '.'
    {
      if i < |a| {
        assert s[i] == a[i] && a[i] in a;
      } else {
        assert s[i] == b[i - |a| - 1] && b[i - |a| - 1] in b;
      }
    }
  }

  /** A text with at most one dot splits on '.' into one piece, or into the
      pieces before and after its dot. */
  lemma SplitOneDot(s: string)
    requires AtMostOneDot(s)
    ensures |Split(s, '.')| <= 2
    ensures |Split(s, '.')| == 2 && ShortFraction(s) ==> |Split(s, '.')[1]| <= 2
  {
    if '.' !in s {
      SplitAvoiding(s, '.');
    } else {
      var i :| 0 <= i < |s| && s[i] == '.';
      var before, after := s[..i], s[i + 1..];
      forall k | 0 <= k < |before| ensures before[k] != '.' {
        assert before[k] == s[k];
      }
      forall k | 0 <= k < |after| ensures after[k] != '.' {
        assert after[k] == s[i + 1 + k];
      }
      assert s == s[..i] + ['.'] + s[i + 1..];
      SplitPair(s[..i], '.', s[i + 1..]);
    }
  }

  // ---------------------------------------------------------------------------
  // array filters

  /** `xs.filter((_, i) => i !== k)`. */
  function RemoveAt<T>(xs: seq<T>, k: int): (r: seq<T>)
    ensures |r| <= |xs|
  {
    if xs == [] then []
    else (if k == 0 then [] else [xs[0]]) + RemoveAt(xs[1..], k - 1)
  }

  /** Removing index k drops exactly that element and keeps the others in
      order; an index out of range removes nothing. */
  lemma {:induction false} RemoveAtIndex<T>(xs: seq<T>, k: int)
    ensures 0 <= k < |xs| ==> RemoveAt(xs, k) == xs[..k] + xs[k + 1..]
    ensures !(0 <= k < |xs|) ==> RemoveAt(xs, k) == xs
  {
    if xs != [] {
      RemoveAtIndex(xs[1..], k - 1);
      if k == 0 {
        assert xs[..0] + xs[1..] == xs[1..];
      } else if 0 < k < |xs| {
        assert xs[..k] == [xs[0]] + xs[1..][..k - 1];
        assert xs[k + 1..] == xs[1..][k..];
      } else {
        assert [xs[0]] + xs[1..] == xs;
      }
    }
  }

  /** `xs.filter(p)`. */
  function Filter<T>(xs: seq<T>, p: T -> bool): (r: seq<T>)
    ensures |r| <= |xs|
    ensures forall x :: x in r ==> x in xs && p(x)
  {
    if xs == [] then [] else (if p(xs[0]) then [xs[0]] else []) + Filter(xs[1..], p)
  }

  lemma {:induction false} FilterAppend<T>(a: seq<T>, b: seq<T>, p: T -> bool)
    ensures Filter(a + b, p) == Filter(a, p) + Filter(b, p)
  {
    if a != [] {
      var head := if p(a[0]) then [a[0]] else [];
      assert (a + b)[0] == a[0] && (a + b)[1..] == a[1..] + b;
      assert Filter(a + b, p) == head + Filter(a[1..] + b, p);
      FilterAppend(a[1..], b, p);
      assert head + (Filter(a[1..], p) + Filter(b, p)) == (head + Filter(a[1..], p)) + Filter(b, p);
    } else {
      assert a + b == b;
    }
  }

  /** An element that passes the filter sits in the filtered array at the index
      given by how many elements before it pass. */
  lemma FilterRank<T>(xs: seq<T>, p: T -> bool, i: nat)
    requires i < |xs| && p(xs[i])
    ensures |Filter(xs[..i], p)| < |Filter(xs, p)|
    ensures Filter(xs, p)[|Filter(xs[..i], p)|] == xs[i]
  {
    assert xs == xs[..i] + [xs[i]] + xs[i + 1..];
    FilterAppend(xs[..i] + [xs[i]], xs[i + 1..], p);
    FilterAppend(xs[..i], [xs[i]], p);
    assert Filter([xs[i]], p) == [xs[i]];
  }

  /** Every element of a filter passes it and every passing element is kept. */
  lemma {:induction false} FilterExactly<T>(xs: seq<T>, p: T -> bool)
    ensures forall x :: x in Filter(xs, p) <==> x in xs && p(x)
  {
    if xs != [] {
      FilterExactly(xs[1..], p);
      assert forall x :: x in xs <==> x == xs[0] || x in xs[1..];
    }
  }

  /** A filter every element passes keeps the sequence as it is. */
  lemma {:induction false} FilterAll<T>(xs: seq<T>, p: T -> bool)
    requires forall i :: 0 <= i < |xs| ==> p(xs[i])
    ensures Filter(xs, p) == xs
  {
    if xs != [] {
      FilterAll(xs[1..], p);
    }
  }
}
