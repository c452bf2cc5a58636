/** String literals: what a scanner has to compute, one code point at a time. */
module StringLiterals {
  import opened Utf8

  const LEX_CHAR_NULL: bv32 := 0x00
  const LEX_CHAR_BS: bv32 := 0x08
  const LEX_CHAR_TAB: bv32 := 0x09
  const LEX_CHAR_LF: bv32 := 0x0A
  const LEX_CHAR_VT: bv32 := 0x0B
  const LEX_CHAR_FF: bv32 := 0x0C
  const LEX_CHAR_CR: bv32 := 0x0D
  const LEX_CHAR_DOUBLE_QUOTE: bv32 := 0x22
  const LEX_CHAR_DOLLAR_SIGN: bv32 := 0x24
  const LEX_CHAR_SINGLE_QUOTE: bv32 := 0x27
  const LEX_CHAR_0: bv32 := 0x30
  const LEX_CHAR_9: bv32 := 0x39
  const LEX_CHAR_UPPERCASE_A: bv32 := 0x41
  const LEX_CHAR_UPPERCASE_F: bv32 := 0x46
  const LEX_CHAR_BACKSLASH: bv32 := 0x5C
  const LEX_CHAR_BACK_TICK: bv32 := 0x60
  const LEX_CHAR_LOWERCASE_A: bv32 := 0x61
  const LEX_CHAR_LOWERCASE_B: bv32 := 0x62
  const LEX_CHAR_LOWERCASE_F: bv32 := 0x66
  const LEX_CHAR_LOWERCASE_N: bv32 := 0x6E
  const LEX_CHAR_LOWERCASE_R: bv32 := 0x72
  const LEX_CHAR_LOWERCASE_T: bv32 := 0x74
  const LEX_CHAR_LOWERCASE_U: bv32 := 0x75
  const LEX_CHAR_LOWERCASE_V: bv32 := 0x76
  const LEX_CHAR_LOWERCASE_X: bv32 := 0x78
  const LEX_CHAR_LEFT_BRACE: bv32 := 0x7B
  const LEX_CHAR_RIGHT_BRACE: bv32 := 0x7D
  const LEX_CHAR_LS: bv32 := 0x2028
  const LEX_CHAR_PS: bv32 := 0x2029

  predicate IsQuote(c: CodePoint) {
    c == LEX_CHAR_DOUBLE_QUOTE || c == LEX_CHAR_SINGLE_QUOTE || c == LEX_CHAR_BACK_TICK
  }

  predicate IsDecimalDigit(c: bv32) {
    LEX_CHAR_0 <= c <= LEX_CHAR_9
  }

  predicate IsHexDigit(c: bv32) {
    IsDecimalDigit(c) || LEX_CHAR_UPPERCASE_A <= c <= LEX_CHAR_UPPERCASE_F ||
      LEX_CHAR_LOWERCASE_A <= c <= LEX_CHAR_LOWERCASE_F
  }

  /** A value, the position after it, and the line terminators on the way; or a syntax error. */
  datatype Outcome<T> = Done(value: T, next: nat, lines: nat) | Failed

  // ---- What a string means, one code point at a time.

  function DigitValue(c: CodePoint): bv32 {
    if IsDecimalDigit(c) then c - LEX_CHAR_0
    else if c >= LEX_CHAR_LOWERCASE_A then c - LEX_CHAR_LOWERCASE_A + 10
    else c - LEX_CHAR_UPPERCASE_A + 10
  }

  function AppendDigit(code: bv32, digit: bv32): bv32 {
    code * 16 + digit
  }

  predicate DigitAt(cps: seq<CodePoint>, i: nat) {
    i < |cps| && IsHexDigit(cps[i])
  }

  /** Exactly `n` hexadecimal digits. */
  function HexMeaning(cps: seq<CodePoint>, i: nat, n: nat, code: bv32): Outcome<seq<CodePoint>>
    decreases n
  {
    if n == 0 then Done([code], i, 0)
    else if DigitAt(cps, i) then HexMeaning(cps, i + 1, n - 1, AppendDigit(code, DigitValue(cps[i])))
    else Failed
  }

  /** Any number of hexadecimal digits up to a brace, with a code point as value at every digit. */
  function CodePointMeaning(cps: seq<CodePoint>, i: nat, code: bv32): Outcome<seq<CodePoint>>
    decreases |cps| - i
  {
    if DigitAt(cps, i) then
      var more := AppendDigit(code, DigitValue(cps[i]));
      if more > CODE_POINT_MAX then Failed else CodePointMeaning(cps, i + 1, more)
    else if i < |cps| && cps[i] == LEX_CHAR_RIGHT_BRACE then Done([code], i + 1, 0)
    else Failed
  }

  predicate At(cps: seq<CodePoint>, i: nat, c: CodePoint) {
    i < |cps| && cps[i] == c
  }

  /** The escape sequence after a backslash. */
  function EscapeMeaning(cps: seq<CodePoint>, i: nat): Outcome<seq<CodePoint>> {
    if i >= |cps| then Failed
    else if cps[i] == LEX_CHAR_CR then Done([], if At(cps, i + 1, LEX_CHAR_LF) then i + 2 else i + 1, 1)
    else if cps[i] == LEX_CHAR_LF || cps[i] == LEX_CHAR_LS || cps[i] == LEX_CHAR_PS then Done([], i + 1, 1)
    else if cps[i] == LEX_CHAR_LOWERCASE_X then HexMeaning(cps, i + 1, 2, 0)
    else if cps[i] == LEX_CHAR_LOWERCASE_U then
      if At(cps, i + 1, LEX_CHAR_LEFT_BRACE) then CodePointMeaning(cps, i + 2, 0) else HexMeaning(cps, i + 1, 4, 0)
    else if IsDecimalDigit(cps[i]) then
      if cps[i] == LEX_CHAR_0 && !(i + 1 < |cps| && IsDecimalDigit(cps[i + 1])) then Done([LEX_CHAR_NULL], i + 1, 0)
        else Failed
    else Done([SingleEscape(cps[i])], i + 1, 0)
  }

  function SingleEscape(c: CodePoint): CodePoint {
    if c == LEX_CHAR_LOWERCASE_B then LEX_CHAR_BS
    else if c == LEX_CHAR_LOWERCASE_T then LEX_CHAR_TAB
    else if c == LEX_CHAR_LOWERCASE_N then LEX_CHAR_LF
    else if c == LEX_CHAR_LOWERCASE_V then LEX_CHAR_VT
    else if c == LEX_CHAR_LOWERCASE_F then LEX_CHAR_FF
    else if c == LEX_CHAR_LOWERCASE_R then LEX_CHAR_CR
    else c
  }

  function Prepend(v: seq<CodePoint>, lines: nat, r: Outcome<seq<CodePoint>>): Outcome<seq<CodePoint>> {
    match r
    case Failed => Failed
    case Done(value, next, more) => Done(v + value, next, lines + more)
  }

  /** From `i` up to the closing quote, or to the `${` of a template. */
  function StringMeaning(cps: seq<CodePoint>, i: nat, quote: CodePoint): Outcome<seq<CodePoint>>
    decreases |cps| - i
  {
    if i >= |cps| then
      Failed
    else if cps[i] == LEX_CHAR_CR || cps[i] == LEX_CHAR_LF then
      if quote != LEX_CHAR_BACK_TICK then Failed
      else
        var next := if cps[i] == LEX_CHAR_CR && At(cps, i + 1, LEX_CHAR_LF) then i + 2 else i + 1;
        Prepend([LEX_CHAR_LF], 1, StringMeaning(cps, next, quote))
    else if cps[i] == LEX_CHAR_BACKSLASH then
      match EscapeMeaning(cps, i + 1)
      case Failed => Failed
      case Done(v, next, lines) =>
        EscapeAdvances(cps, i + 1);
        Prepend(v, lines, StringMeaning(cps, next, quote))
    else if cps[i] == quote ||
      (quote == LEX_CHAR_BACK_TICK && cps[i] == LEX_CHAR_DOLLAR_SIGN && At(cps, i + 1, LEX_CHAR_LEFT_BRACE)) then
      Done([], i, 0)
    else
      Prepend([cps[i]], 0, StringMeaning(cps, i + 1, quote))
  }

  // ---- Values are code points.

  lemma {:induction false} HexAdvances(cps: seq<CodePoint>, i: nat, n: nat, code: bv32)
    requires i <= |cps|
    ensures var r := HexMeaning(cps, i, n, code); r.Done? ==> i + n == r.next <= |cps| && |r.value| == 1
    decreases n
  {
    hide DigitValue, IsHexDigit, AppendDigit;
    if n > 0 && DigitAt(cps, i) {
      HexAdvances(cps, i + 1, n - 1, AppendDigit(code, DigitValue(cps[i])));
    }
  }

  lemma {:induction false} CodePointAdvances(cps: seq<CodePoint>, i: nat, code: bv32)
    requires i <= |cps|
    ensures var r := CodePointMeaning(cps, i, code); r.Done? ==> i < r.next <= |cps|
    decreases |cps| - i
  {
    hide DigitValue, IsHexDigit, AppendDigit;
    if DigitAt(cps, i) {
      CodePointAdvances(cps, i + 1, AppendDigit(code, DigitValue(cps[i])));
    }
  }

  lemma EscapeAdvances(cps: seq<CodePoint>, i: nat)
    ensures var r := EscapeMeaning(cps, i); r.Done? ==> i < r.next <= |cps|
  {
    hide DigitValue, IsHexDigit, AppendDigit;
    if i < |cps| && cps[i] == LEX_CHAR_LOWERCASE_X {
      HexAdvances(cps, i + 1, 2, 0);
    } else if i < |cps| && cps[i] == LEX_CHAR_LOWERCASE_U {
      if At(cps, i + 1, LEX_CHAR_LEFT_BRACE) {
        CodePointAdvances(cps, i + 2, 0);
      } else {
        HexAdvances(cps, i + 1, 4, 0);
      }
    }
  }

  // ---- Where a string ends.

  /** The character `quote` closes the string at `i`; in a template, so does `${`. */
  predicate Closes(cps: seq<CodePoint>, i: nat, quote: CodePoint) {
    && i < |cps|
    && (cps[i] == quote ||
          (quote == LEX_CHAR_BACK_TICK && cps[i] == LEX_CHAR_DOLLAR_SIGN && At(cps, i + 1, LEX_CHAR_LEFT_BRACE)))
  }

  lemma {:induction false} StringCloses(cps: seq<CodePoint>, i: nat, quote: CodePoint)
    ensures var r := StringMeaning(cps, i, quote); r.Done? ==> i <= r.next && Closes(cps, r.next, quote)
    decreases |cps| - i
  {
    hide EscapeMeaning;
    if i >= |cps| {
    } else if cps[i] == LEX_CHAR_CR || cps[i] == LEX_CHAR_LF {
      if quote == LEX_CHAR_BACK_TICK {
        StringCloses(cps, if cps[i] == LEX_CHAR_CR && At(cps, i + 1, LEX_CHAR_LF) then i + 2 else i + 1, quote);
      }
    } else if cps[i] == LEX_CHAR_BACKSLASH {
      EscapeAdvances(cps, i + 1);
      if EscapeMeaning(cps, i + 1).Done? {
        StringCloses(cps, EscapeMeaning(cps, i + 1).next, quote);
      }
    } else if !Closes(cps, i, quote) {
      StringCloses(cps, i + 1, quote);
    }
  }

  lemma OrdinaryMeaning(cps: seq<CodePoint>, i: nat, quote: CodePoint)
    requires i < |cps| && cps[i] !in {LEX_CHAR_CR, LEX_CHAR_LF, LEX_CHAR_BACKSLASH} && !Closes(cps, i, quote)
    ensures StringMeaning(cps, i, quote) == Prepend([cps[i]], 0, StringMeaning(cps, i + 1, quote))
  {
  }

  lemma SpecialMeaning(cps: seq<CodePoint>, i: nat, quote: CodePoint)
    requires IsQuote(quote)
    ensures i >= |cps| ==> StringMeaning(cps, i, quote).Failed?
    ensures Closes(cps, i, quote) ==> StringMeaning(cps, i, quote) == Done([], i, 0)
    ensures i < |cps| && cps[i] in {LEX_CHAR_CR, LEX_CHAR_LF} ==>
      var next := if cps[i] == LEX_CHAR_CR && At(cps, i + 1, LEX_CHAR_LF) then i + 2 else i + 1;
      StringMeaning(cps, i, quote) ==
      if quote != LEX_CHAR_BACK_TICK then Failed else Prepend([LEX_CHAR_LF], 1, StringMeaning(cps, next, quote))
    ensures i < |cps| && cps[i] == LEX_CHAR_BACKSLASH ==>
      var e := EscapeMeaning(cps, i + 1);
      StringMeaning(cps, i, quote) == if e.Failed? then Failed
        else Prepend(e.value, e.lines, StringMeaning(cps, e.next, quote))
  {
    hide EscapeMeaning;
    EscapeAdvances(cps, i + 1);
  }

  // ---- The number an escape denotes.

  function LastDigit(code: bv32): bv32 {
    code & 0xF
  }

  function OtherDigits(code: bv32): bv32 {
    code >> 4
  }

  /** Taking hexadecimal digits off `code` from the right gives the digits between `i` and `j`, then zeros. */
  predicate Denotes(cps: seq<CodePoint>, i: nat, j: nat, code: bv32)
    requires i <= j <= |cps|
    decreases j - i
  {
    if i == j then
      code == 0
    else
      && IsHexDigit(cps[j - 1]) && LastDigit(code) == DigitValue(cps[j - 1])
      && Denotes(cps, i, j - 1, OtherDigits(code))
  }

  lemma DigitIsNibble(c: CodePoint)
    requires IsHexDigit(c)
    ensures DigitValue(c) < 16
  {
  }

  lemma NibbleAppended(code: bv32, d: bv32)
    requires code < 0x1000_0000 && d < 16
    ensures LastDigit(AppendDigit(code, d)) == d && OtherDigits(AppendDigit(code, d)) == code
  {
  }

  lemma NibbleFits(code: bv32, d: bv32, limit: bv32)
    requires limit <= 0x1000 && code < limit && d < 16
    ensures AppendDigit(code, d) < limit * 16 && code < 0x1000
  {
  }

  /** What stays below this fits in 16 bits after `n` more hexadecimal digits. */
  function Room(n: nat): bv32 {
    if n == 0 then 0x1_0000 else if n == 1 then 0x1000 else if n == 2 then 0x100 else if n == 3 then 0x10 else 1
  }

  lemma {:induction false} HexDenotes(cps: seq<CodePoint>, from: nat, i: nat, n: nat, code: bv32)
    requires from <= i <= |cps| && Denotes(cps, from, i, code)
    requires n <= 4 && code < Room(n)
    ensures var r := HexMeaning(cps, i, n, code);
      r.Done? ==>
        && r.next == i + n <= |cps| && |r.value| == 1 && r.value[0] < 0x1_0000
        && Denotes(cps, from, i + n, r.value[0])
    decreases n
  {
    hide DigitValue, IsHexDigit, AppendDigit, LastDigit, OtherDigits;
    if n > 0 && DigitAt(cps, i) {
      DigitIsNibble(cps[i]);
      NibbleFits(code, DigitValue(cps[i]), Room(n));
      NibbleAppended(code, DigitValue(cps[i]));
      HexDenotes(cps, from, i + 1, n - 1, AppendDigit(code, DigitValue(cps[i])));
    }
  }

  lemma {:induction false} CodePointDenotes(cps: seq<CodePoint>, from: nat, i: nat, code: bv32)
    requires from <= i <= |cps| && Denotes(cps, from, i, code) && code <= CODE_POINT_MAX
    ensures var r := CodePointMeaning(cps, i, code);
      r.Done? ==>
        && i < r.next <= |cps| && |r.value| == 1 && r.value[0] <= CODE_POINT_MAX
        && Denotes(cps, from, r.next - 1, r.value[0])
    decreases |cps| - i
  {
    hide DigitValue, IsHexDigit, AppendDigit, LastDigit, OtherDigits;
    if DigitAt(cps, i) {
      DigitIsNibble(cps[i]);
      NibbleAppended(code, DigitValue(cps[i]));
      if AppendDigit(code, DigitValue(cps[i])) <= CODE_POINT_MAX {
        CodePointDenotes(cps, from, i + 1, AppendDigit(code, DigitValue(cps[i])));
      }
    }
  }

  lemma {:induction false} BraceCloses(cps: seq<CodePoint>, i: nat, code: bv32)
    ensures var r := CodePointMeaning(cps, i, code); r.Done? ==>
      0 < r.next && At(cps, r.next - 1, LEX_CHAR_RIGHT_BRACE) && r.lines == 0
    decreases |cps| - i
  {
    hide DigitValue, IsHexDigit, AppendDigit;
    if DigitAt(cps, i) {
      BraceCloses(cps, i + 1, AppendDigit(code, DigitValue(cps[i])));
    }
  }

  lemma HexWritten(cps: seq<CodePoint>, i: nat, n: nat)
    requires i <= |cps| && n <= 4
    ensures var r := HexMeaning(cps, i, n, 0);
      r.Done? ==>
        && r.next == i + n <= |cps| && |r.value| == 1 && r.value[0] <= CODE_POINT_MAX
        && Denotes(cps, i, i + n, r.value[0])
  {
    hide HexMeaning;
    HexDenotes(cps, i, i, n, 0);
  }

  lemma CodePointWritten(cps: seq<CodePoint>, i: nat)
    requires i <= |cps|
    ensures var r := CodePointMeaning(cps, i, 0);
      r.Done? ==>
        && i < r.next <= |cps| && At(cps, r.next - 1, LEX_CHAR_RIGHT_BRACE)
        && |r.value| == 1 && r.value[0] <= CODE_POINT_MAX && Denotes(cps, i, r.next - 1, r.value[0])
  {
    hide CodePointMeaning, At;
    CodePointDenotes(cps, i, i, 0);
    BraceCloses(cps, i, 0);
  }

  /** `\xHH`, `\uHHHH` and `\u{H..}` stand for the number their digits write out, and it is a code point. */
  lemma NumericEscapeDenotes(cps: seq<CodePoint>, i: nat)
    requires At(cps, i, LEX_CHAR_LOWERCASE_X) || At(cps, i, LEX_CHAR_LOWERCASE_U)
    ensures var r := EscapeMeaning(cps, i);
      var braced := At(cps, i, LEX_CHAR_LOWERCASE_U) && At(cps, i + 1, LEX_CHAR_LEFT_BRACE);
      r.Done? ==>
        && |r.value| == 1 && r.value[0] <= CODE_POINT_MAX && r.next <= |cps|
        && if braced then
             && i + 2 < r.next && At(cps, r.next - 1, LEX_CHAR_RIGHT_BRACE)
             && Denotes(cps, i + 2, r.next - 1, r.value[0])
           else
             && r.next == i + (if At(cps, i, LEX_CHAR_LOWERCASE_X) then 3 else 5)
             && Denotes(cps, i + 1, r.next, r.value[0])
  {
    hide HexMeaning, CodePointMeaning, Denotes, DigitValue, IsHexDigit, IsDecimalDigit, SingleEscape;
    if At(cps, i, LEX_CHAR_LOWERCASE_X) {
      HexWritten(cps, i + 1, 2);
    } else if At(cps, i + 1, LEX_CHAR_LEFT_BRACE) {
      CodePointWritten(cps, i + 2);
    } else {
      HexWritten(cps, i + 1, 4);
    }
  }

  /**
   * Between accepted braces stands a digit if and only if one follows the opening brace.  The grammar asks for one;
   * without any, the escape stands for U+0000.
   */
  lemma BracesWithoutDigits(cps: seq<CodePoint>, i: nat)
    requires At(cps, i, LEX_CHAR_LOWERCASE_U) && At(cps, i + 1, LEX_CHAR_LEFT_BRACE)
    ensures var r := EscapeMeaning(cps, i);
      && (r.Done? ==> (i + 3 < r.next <==> DigitAt(cps, i + 2)))
      && (r.Done? && !DigitAt(cps, i + 2) <==> At(cps, i + 2, LEX_CHAR_RIGHT_BRACE))
      && (At(cps, i + 2, LEX_CHAR_RIGHT_BRACE) ==> r == Done([LEX_CHAR_NULL], i + 3, 0))
  {
    hide DigitValue, AppendDigit;
    if DigitAt(cps, i + 2) {
      BraceCloses(cps, i + 3, AppendDigit(0, DigitValue(cps[i + 2])));
      CodePointAdvances(cps, i + 3, AppendDigit(0, DigitValue(cps[i + 2])));
    }
  }

  /** The shortest such escape. */
  lemma EmptyBracesAccepted()
    ensures EscapeMeaning([LEX_CHAR_LOWERCASE_U, LEX_CHAR_LEFT_BRACE, LEX_CHAR_RIGHT_BRACE], 0) ==
      Done([LEX_CHAR_NULL], 3, 0)
  {
    BracesWithoutDigits([LEX_CHAR_LOWERCASE_U, LEX_CHAR_LEFT_BRACE, LEX_CHAR_RIGHT_BRACE], 0);
  }

  lemma {:induction false} HexLines(cps: seq<CodePoint>, i: nat, n: nat, code: bv32)
    ensures var r := HexMeaning(cps, i, n, code); r.Done? ==> r.lines == 0 && |r.value| == 1
    decreases n
  {
    hide DigitValue, IsHexDigit, AppendDigit;
    if n > 0 && DigitAt(cps, i) {
      HexLines(cps, i + 1, n - 1, AppendDigit(code, DigitValue(cps[i])));
    }
  }
}
