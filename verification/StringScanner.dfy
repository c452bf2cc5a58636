/** Lexer::ScanString: the scanner that copies the text between escapes segment by segment. */
module StringScanner {
  import opened Utf8
  import opened StringLiterals

  // ---- What Peek shows of encoded text.

  /** An ASCII character is seen as itself, any other one as a value no character constant has. */
  predicate Seen(peeked: CodePoint, cp: CodePoint) {
    if cp < UTF8_1BYTE_LIMIT then peeked == cp else 0xFFFF_FF80 <= peeked < INVALID_CP
  }

  function FirstByte(cp: CodePoint): Byte {
    Utf8Encode(cp)[0]
  }

  lemma FirstByteSeen(cp: CodePoint)
    requires cp <= CODE_POINT_MAX
    ensures Seen(SignExtended(FirstByte(cp)), cp)
    ensures |Utf8Encode(cp)| == 1 <==> cp < UTF8_1BYTE_LIMIT
  {
  }

  lemma PeekAt(cps: seq<CodePoint>, i: nat)
    requires i < |cps| && AreCodePoints(cps)
    ensures var s, pos := EncodeAll(cps), Offset(cps, i);
      && pos < |s| && Seen(SignExtended(s[pos]), cps[i])
      && (cps[i] < UTF8_1BYTE_LIMIT ==> Offset(cps, i + 1) == pos + 1)
      && Offset(cps, i + 1) == pos + Width(s[pos]) <= |s| && Readable(s, pos) && Decode(s, pos) == cps[i]
  {
    hide Utf8Encode, Decode, Width, SignExtended, Seen;
    OffsetsAdvance(cps, i);
    DecodeAt(cps, i);
    FirstByteSeen(cps[i]);
    assert EncodeAll(cps)[Offset(cps, i) + 0] == Utf8Encode(cps[i])[0];
  }

  lemma PastEnd(s: seq<Byte>, pos: nat)
    ensures pos >= |s| ==> Readable(s, pos) && Decode(s, pos) == INVALID_CP
  {
  }

  /** The bytes of a segment are the encoding of its code points. */
  lemma Segment(cps: seq<CodePoint>, i: nat, j: nat)
    requires i <= j <= |cps|
    ensures Offset(cps, i) <= Offset(cps, j) <= |EncodeAll(cps)|
    ensures EncodeAll(cps)[Offset(cps, i)..Offset(cps, j)] == EncodeAll(cps[i..j])
  {
    hide Utf8Encode;
    assert cps == cps[..j] + cps[j..] && cps[..j] == cps[..i] + cps[i..j];
    EncodeConcat(cps[..j], cps[j..]);
    EncodeConcat(cps[..i], cps[i..j]);
  }

  lemma EncodeNone()
    ensures EncodeAll([]) == []
  {
  }

  lemma EncodeOne(cp: CodePoint)
    ensures EncodeAll([cp]) == Utf8Encode(cp)
  {
    hide Utf8Encode;
    assert [cp][1..] == [];
  }

  function HexValue(ch: CodePoint): bv32 {
    if ch < LEX_CHAR_UPPERCASE_A then ch - LEX_CHAR_0 else (ch - LEX_CHAR_UPPERCASE_A + 10) & 0xF
  }

  /** Masking serves upper and lower case at once. */
  lemma HexValueIsDigitValue(ch: CodePoint)
    requires IsHexDigit(ch)
    ensures HexValue(ch) == DigitValue(ch)
  {
  }

  lemma SeenDigit(peeked: CodePoint, cp: CodePoint)
    requires Seen(peeked, cp)
    ensures IsHexDigit(peeked) == IsHexDigit(cp) && IsDecimalDigit(peeked) == IsDecimalDigit(cp)
    ensures IsHexDigit(cp) ==> HexValue(peeked) == DigitValue(cp) && cp < UTF8_1BYTE_LIMIT
    ensures IsDecimalDigit(cp) ==> cp < UTF8_1BYTE_LIMIT
  {
    hide HexValue, DigitValue;
    if IsHexDigit(cp) {
      HexValueIsDigitValue(cp);
    }
  }

  class Lexer {
    const input: Iterator
    var line: nat
    var hasEscape: bool
    var src: seq<Byte>

    ghost const cps: seq<CodePoint>

    constructor (source: seq<Byte>, ghost cps: seq<CodePoint>)
      requires source == EncodeAll(cps) && AreCodePoints(cps)
      ensures Valid() && AtCp(0) && fresh(input) && this.cps == cps
    {
      input := new Iterator(source);
      line, hasEscape, src := 0, false, [];
      this.cps := cps;
    }

    ghost predicate Valid() {
      input.sv == EncodeAll(cps) && AreCodePoints(cps)
    }

    /** The input stands before code point `i`. */
    ghost predicate AtCp(i: nat)
      reads input
    {
      i <= |cps| && input.iter == Offset(cps, i)
    }

    lemma Peeked(i: nat)
      requires Valid() && AtCp(i)
      ensures Readable(input.sv, input.iter)
      ensures i == |cps| ==> !input.HasNext() && input.Peek() == INVALID_CP && input.PeekCp() == (INVALID_CP, 0)
      ensures i < |cps| ==>
        && input.HasNext() && Seen(input.Peek(), cps[i])
        && (cps[i] < UTF8_1BYTE_LIMIT ==> Offset(cps, i + 1) == input.iter + 1)
        && input.PeekCp() == (cps[i], Offset(cps, i + 1) - input.iter) && cps[i] != INVALID_CP
    {
      hide Seen, SignExtended, Decode, Width, Utf8Encode;
      if i < |cps| {
        PeekAt(cps, i);
      } else {
        OffsetEnds(cps);
        PastEnd(input.sv, input.iter);
      }
    }

    method ScanHexEscape(n: nat, ghost i: nat) returns (ok: bool, code: CodePoint)
      requires Valid() && AtCp(i)
      modifies input
      ensures var r := HexMeaning(cps, i, n, 0);
        && ok == r.Done?
        && (ok ==> r.value == [code] && AtCp(r.next))
    {
      hide Seen, IsHexDigit, IsDecimalDigit, HexValue, DigitValue, AppendDigit;
      code := 0;
      for k := 0 to n
        invariant AtCp(i + k)
        invariant HexMeaning(cps, i, n, 0) == HexMeaning(cps, i + k, n - k, code)
      {
        Peeked(i + k);
        var cp := input.Peek();
        input.iter := input.iter + 1;
        if i + k < |cps| {
          SeenDigit(cp, cps[i + k]);
        } else {
          InvalidIsNoDigit();
        }
        if !IsHexDigit(cp) {
          return false, code;
        }
        code := AppendDigit(code, HexValue(cp));
      }
      ok := true;
    }

    method ScanUnicodeCodePointEscape(ghost i: nat) returns (ok: bool, code: CodePoint)
      requires Valid() && AtCp(i)
      modifies input
      ensures var r := CodePointMeaning(cps, i, 0);
        && ok == r.Done?
        && (ok ==> r.value == [code] && AtCp(r.next))
    {
      hide Seen, IsHexDigit, IsDecimalDigit, HexValue, DigitValue, AppendDigit;
      code := 0;
      var cp: CodePoint;
      ghost var j := i;
      while true
        invariant AtCp(j)
        invariant CodePointMeaning(cps, i, 0) == CodePointMeaning(cps, j, code)
        decreases |cps| - j
      {
        Peeked(j);
        cp := input.Peek();
        if j < |cps| {
          SeenDigit(cp, cps[j]);
          SeenAs(cp, cps[j], LEX_CHAR_RIGHT_BRACE);
        } else {
          InvalidIsNoDigit();
        }
        if !IsHexDigit(cp) {
          break;
        }
        input.iter := input.iter + 1;
        code := AppendDigit(code, HexValue(cp));
        if code > CODE_POINT_MAX {
          return false, code;
        }
        j := j + 1;
      }
      if cp != LEX_CHAR_RIGHT_BRACE {
        return false, code;
      }
      input.iter := input.iter + 1;
      ok := true;
    }

    method ScanUnicodeEscapeSequence(ghost i: nat) returns (ok: bool, code: CodePoint)
      requires Valid() && AtCp(i) && At(cps, i, LEX_CHAR_LOWERCASE_U)
      modifies input
      ensures var r := EscapeMeaning(cps, i);
        && ok == r.Done?
        && (ok ==> r.value == [code] && r.lines == 0 && AtCp(r.next))
    {
      hide Seen, IsHexDigit, IsDecimalDigit, HexMeaning, CodePointMeaning;
      Peeked(i);
      input.iter := input.iter + 1;
      Peeked(i + 1);
      if i + 1 < |cps| {
        SeenAs(input.Peek(), cps[i + 1], LEX_CHAR_LEFT_BRACE);
      }
      HexLines(cps, i + 1, 4, 0);
      BraceCloses(cps, i + 2, 0);
      if input.Peek() == LEX_CHAR_LEFT_BRACE {
        input.iter := input.iter + 1;
        ok, code := ScanUnicodeCodePointEscape(i + 2);
      } else {
        ok, code := ScanHexEscape(4, i + 1);
      }
    }

    /** The escape after a backslash: what it stands for is appended to `str`. */
    method ScanStringUnicodePart(str: seq<Byte>, ghost i: nat) returns (ok: bool, more: seq<Byte>)
      requires Valid() && AtCp(i)
      modifies this`line, input
      ensures var r := EscapeMeaning(cps, i);
        && ok == r.Done?
        && (ok ==> more == str + EncodeAll(r.value) && line == old(line) + r.lines && AtCp(r.next))
    {
      hide Seen, IsHexDigit, HexMeaning, CodePointMeaning, Utf8Encode, Decode, Width, SignExtended, EncodeAll;
      EncodeNone();
      more := str;
      Peeked(i);
      var (cp, cpSize) := input.PeekCp();
      if cp == INVALID_CP {
        return false, more;
      }
      if cp == LEX_CHAR_CR {
        input.iter := input.iter + 1;
        Peeked(i + 1);
        if i + 1 < |cps| {
          SeenAs(input.Peek(), cps[i + 1], LEX_CHAR_LF);
        }
        if input.Peek() != LEX_CHAR_LF {
          input.iter := input.iter - 1;
        }
        line := line + 1;
        input.iter := input.iter + cpSize;
        return true, more;
      }
      if cp == LEX_CHAR_LS || cp == LEX_CHAR_PS || cp == LEX_CHAR_LF {
        line := line + 1;
        input.iter := input.iter + cpSize;
        return true, more;
      }
      if cp == LEX_CHAR_LOWERCASE_X {
        input.iter := input.iter + 1;
        var code;
        ok, code := ScanHexEscape(2, i + 1);
        more := str + Utf8Encode(code);
        EncodeOne(code);
        HexLines(cps, i + 1, 2, 0);
        return;
      }
      if cp == LEX_CHAR_LOWERCASE_U {
        ok, cp := ScanUnicodeEscapeSequence(i);
        more := str + Utf8Encode(cp);
        EncodeOne(cp);
        return;
      }
      SeenDigit(input.Peek(), cps[i]);
      if cp == LEX_CHAR_LOWERCASE_B {
        cp := LEX_CHAR_BS;
      } else if cp == LEX_CHAR_LOWERCASE_T {
        cp := LEX_CHAR_TAB;
      } else if cp == LEX_CHAR_LOWERCASE_N {
        cp := LEX_CHAR_LF;
      } else if cp == LEX_CHAR_LOWERCASE_V {
        cp := LEX_CHAR_VT;
      } else if cp == LEX_CHAR_LOWERCASE_F {
        cp := LEX_CHAR_FF;
      } else if cp == LEX_CHAR_LOWERCASE_R {
        cp := LEX_CHAR_CR;
      } else if cp == LEX_CHAR_0 {
        input.iter := input.iter + 1;
        Peeked(i + 1);
        if i + 1 < |cps| {
          SeenDigit(input.Peek(), cps[i + 1]);
        } else {
          InvalidIsNoDigit();
        }
        var isDecimal := IsDecimalDigit(input.Peek());
        input.iter := input.iter - 1;
        if isDecimal {
          return false, more;
        }
        cp := LEX_CHAR_NULL;
      } else {
        if IsDecimalDigit(input.Peek()) {
          return false, more;
        }
      }
      input.iter := input.iter + cpSize;
      more := str + Utf8Encode(cp);
      EncodeOne(cp);
      ok := true;
    }

    /**
     * What has been scanned from code point `i` up to `j`, where `str` and the segment from `escapeEnd` are its text.
     */
    ghost predicate Scanned(i: nat, e: nat, j: nat, done: seq<CodePoint>, lines: nat, str: seq<Byte>, quote: CodePoint)
      requires Valid() && e <= j <= |cps|
    {
      && str + EncodeAll(cps[e..j]) == EncodeAll(done)
      && StringMeaning(cps, i, quote) == Prepend(done, lines, StringMeaning(cps, j, quote))
    }

    /** Moves past a CR, a LF or the pair of both. */
    method PassLineTerminator(cp: CodePoint, ghost i: nat)
      requires Valid() && AtCp(i) && i < |cps| && cps[i] == cp && (cp == LEX_CHAR_CR || cp == LEX_CHAR_LF)
      modifies input
      ensures AtCp(if At(cps, i, LEX_CHAR_CR) && At(cps, i + 1, LEX_CHAR_LF) then i + 2 else i + 1)
    {
      hide Seen;
      Peeked(i);
      if cp == LEX_CHAR_CR {
        input.iter := input.iter + 1;
        Peeked(i + 1);
        if i + 1 < |cps| {
          SeenAs(input.Peek(), cps[i + 1], LEX_CHAR_LF);
        }
        if input.Peek() != LEX_CHAR_LF {
          input.iter := input.iter - 1;
        }
      }
      input.iter := input.iter + 1;
    }

    /** Moves past a dollar sign, unless it opens a placeholder of a template. */
    method PassDollarSign(quote: CodePoint, ghost i: nat) returns (opens: bool)
      requires Valid() && AtCp(i) && At(cps, i, LEX_CHAR_DOLLAR_SIGN)
      modifies input
      ensures opens <==> quote == LEX_CHAR_BACK_TICK && At(cps, i + 1, LEX_CHAR_LEFT_BRACE)
      ensures AtCp(if opens then i else i + 1)
    {
      hide Seen;
      Peeked(i);
      opens := false;
      input.iter := input.iter + 1;
      if quote == LEX_CHAR_BACK_TICK {
        Peeked(i + 1);
        if i + 1 < |cps| {
          SeenAs(input.Peek(), cps[i + 1], LEX_CHAR_LEFT_BRACE);
        }
        if input.Peek() == LEX_CHAR_LEFT_BRACE {
          input.iter := input.iter - 1;
          opens := true;
        }
      }
    }

    /** A line terminator in a template: the segment is copied, and a LF stands for the terminator. */
    method TakeLineTerminator(cp: CodePoint, str: seq<Byte>, escapeEnd: nat, ghost i: nat, ghost e: nat, ghost j: nat,
                              ghost done: seq<CodePoint>, ghost lines: nat)
      returns (more: seq<Byte>)
      requires Valid() && AtCp(j) && e <= j < |cps| && escapeEnd == Offset(cps, e)
      requires cps[j] == cp && (cp == LEX_CHAR_CR || cp == LEX_CHAR_LF)
      requires Scanned(i, e, j, done, lines, str, LEX_CHAR_BACK_TICK)
      modifies this`line, input
      ensures var k := if At(cps, j, LEX_CHAR_CR) && At(cps, j + 1, LEX_CHAR_LF) then j + 2 else j + 1;
        && AtCp(k) && line == old(line) + 1
        && Scanned(i, k, k, done + [LEX_CHAR_LF], lines + 1, more, LEX_CHAR_BACK_TICK)
    {
      hide Seen, SignExtended, Width, Decode, Utf8Encode, EncodeAll, EscapeMeaning, StringMeaning, Scanned, Prepend,
           Offset, AreCodePoints;
      SpecialMeaning(cps, j, LEX_CHAR_BACK_TICK);
      Segment(cps, e, j);
      more := str + input.sv[escapeEnd..input.iter];
      ghost var k := if At(cps, j, LEX_CHAR_CR) && At(cps, j + 1, LEX_CHAR_LF) then j + 2 else j + 1;
      PassLineTerminator(cp, j);
      EncodeOne(LEX_CHAR_LF);
      Replaced(i, e, j, k, done, lines, [LEX_CHAR_LF], 1, str, LEX_CHAR_BACK_TICK);
      line := line + 1;
      more := more + Utf8Encode(LEX_CHAR_LF);
    }

    /** An escape sequence: the segment is copied, and then what the sequence stands for. */
    method TakeEscape(str: seq<Byte>, escapeEnd: nat, quote: CodePoint, ghost i: nat, ghost e: nat, ghost j: nat,
                      ghost done: seq<CodePoint>, ghost lines: nat)
      returns (ok: bool, more: seq<Byte>)
      requires Valid() && IsQuote(quote) && AtCp(j) && e <= j && At(cps, j, LEX_CHAR_BACKSLASH)
      requires escapeEnd == Offset(cps, e) && Scanned(i, e, j, done, lines, str, quote)
      modifies this`line, input
      ensures var m := EscapeMeaning(cps, j + 1);
        && ok == m.Done?
        && (ok ==>
              && j < m.next <= |cps| && AtCp(m.next) && line == old(line) + m.lines
              && Scanned(i, m.next, m.next, done + m.value, lines + m.lines, more, quote))
    {
      hide Seen, SignExtended, Width, Decode, Utf8Encode, EncodeAll, EscapeMeaning, StringMeaning, Scanned, Prepend,
           Offset, AreCodePoints;
      SpecialMeaning(cps, j, quote);
      Segment(cps, e, j);
      Peeked(j);
      more := str + input.sv[escapeEnd..input.iter];
      input.iter := input.iter + 1;
      ghost var m := EscapeMeaning(cps, j + 1);
      ok, more := ScanStringUnicodePart(more, j + 1);
      if ok {
        EscapeAdvances(cps, j + 1);
        Replaced(i, e, j, m.next, done, lines, m.value, m.lines, str, quote);
      }
    }

    /**
     * Scans the rest of a string literal, after its opening quote. The value of HAS_ESCAPE on entry does not matter.
     */
    method ScanString(quote: CodePoint, ghost i: nat) returns (ok: bool)
      requires Valid() && AtCp(i) && IsQuote(quote)
      modifies this, input
      ensures var r := StringMeaning(cps, i, quote);
        && ok == r.Done?
        && (ok ==>
              && src == EncodeAll(r.value) && line == old(line) + r.lines
              && AtCp(if quote == LEX_CHAR_BACK_TICK then r.next else r.next + 1))
    {
      hide Seen, SignExtended, Width, Decode, Utf8Encode, EncodeAll, EscapeMeaning, StringMeaning, Scanned, Prepend,
           Offset, AreCodePoints;
      var str := [];
      var startPos := input.iter;
      var escapeEnd := startPos;
      ghost var e, j, done := i, i, [];
      ScannedNothing(i, quote);
      while true
        invariant AtCp(j) && i <= e <= j && escapeEnd == Offset(cps, e) && line >= old(line)
        invariant Scanned(i, e, j, done, line - old(line), str, quote)
        invariant !hasEscape ==> str == [] && e == i
        decreases |cps| - j
      {
        Peeked(j);
        var cp := input.Peek();
        if j < |cps| {
          SeenAsConstants(cp, cps[j]);
        }
        ScannedMeans(i, e, j, done, line - old(line), str, quote);
        SpecialMeaning(cps, j, quote);
        if cp == INVALID_CP {
          return false;
        } else if cp == LEX_CHAR_CR || cp == LEX_CHAR_LF {
          if quote != LEX_CHAR_BACK_TICK {
            return false;
          }
          hasEscape := true;
          ghost var k := if At(cps, j, LEX_CHAR_CR) && At(cps, j + 1, LEX_CHAR_LF) then j + 2 else j + 1;
          str := TakeLineTerminator(cp, str, escapeEnd, i, e, j, done, line - old(line));
          escapeEnd := input.iter;
          j, e, done := k, k, done + [LEX_CHAR_LF];
        } else if cp == LEX_CHAR_BACKSLASH {
          hasEscape := true;
          ghost var m := EscapeMeaning(cps, j + 1);
          ok, str := TakeEscape(str, escapeEnd, quote, i, e, j, done, line - old(line));
          if !ok {
            return;
          }
          escapeEnd := input.iter;
          j, e, done := m.next, m.next, done + m.value;
        } else if cp == LEX_CHAR_BACK_TICK || cp == LEX_CHAR_SINGLE_QUOTE || cp == LEX_CHAR_DOUBLE_QUOTE {
          if quote == cp {
            break;
          }
          OrdinaryKept(i, e, j, done, line - old(line), str, quote);
          input.iter := input.iter + 1;
          j, done := j + 1, done + [cps[j]];
        } else if cp == LEX_CHAR_DOLLAR_SIGN {
          var opens := PassDollarSign(quote, j);
          if opens {
            break;
          }
          OrdinaryKept(i, e, j, done, line - old(line), str, quote);
          j, done := j + 1, done + [cps[j]];
        } else {
          OrdinaryKept(i, e, j, done, line - old(line), str, quote);
          input.SkipCp();
          j, done := j + 1, done + [cps[j]];
        }
      }
      ScannedEnds(i, e, j, done, line - old(line), str, quote);
      Segment(cps, e, j);
      if hasEscape {
        src := str + input.sv[escapeEnd..input.iter];
      } else {
        src := input.sv[startPos..input.iter];
      }
      if quote != LEX_CHAR_BACK_TICK {
        input.iter := input.iter + 1;
      }
      ok := true;
    }

    /** At the end of the string, what was copied and the last segment are its text. */
    lemma ScannedEnds(i: nat, e: nat, j: nat, done: seq<CodePoint>, lines: nat, str: seq<Byte>, quote: CodePoint)
      requires Valid() && IsQuote(quote) && e <= j <= |cps|
      requires Scanned(i, e, j, done, lines, str, quote) && Closes(cps, j, quote)
      ensures StringMeaning(cps, i, quote) == Done(done, j, lines) && str + EncodeAll(cps[e..j]) == EncodeAll(done)
    {
      hide Closes, EncodeAll, StringMeaning;
      SpecialMeaning(cps, j, quote);
      assert done + [] == done;
    }

    lemma ScannedNothing(i: nat, quote: CodePoint)
      requires Valid() && i <= |cps|
      ensures Scanned(i, i, i, [], 0, [], quote)
    {
      hide StringMeaning;
      assert cps[i..i] == [];
      PrependNothing(StringMeaning(cps, i, quote));
    }

    /** What the scanner meets at `j` decides what the whole string means. */
    lemma ScannedMeans(i: nat, e: nat, j: nat, done: seq<CodePoint>, lines: nat, str: seq<Byte>, quote: CodePoint)
      requires Valid() && e <= j <= |cps| && Scanned(i, e, j, done, lines, str, quote)
      ensures StringMeaning(cps, j, quote).Failed? ==> StringMeaning(cps, i, quote).Failed?
      ensures StringMeaning(cps, j, quote) == Done([], j, 0) ==>
        && StringMeaning(cps, i, quote) == Done(done, j, lines)
        && str + EncodeAll(cps[e..j]) == EncodeAll(done)
        && (str == [] ==> EncodeAll(cps[e..j]) == EncodeAll(done))
    {
      hide StringMeaning;
      assert done + [] == done;
      assert [] + EncodeAll(cps[e..j]) == EncodeAll(cps[e..j]);
    }

    /** An ordinary character joins the segment. */
    lemma KeptOn(i: nat, e: nat, j: nat, done: seq<CodePoint>, lines: nat, str: seq<Byte>, quote: CodePoint)
      requires Valid() && e <= j < |cps| && Scanned(i, e, j, done, lines, str, quote)
      requires StringMeaning(cps, j, quote) == Prepend([cps[j]], 0, StringMeaning(cps, j + 1, quote))
      ensures Scanned(i, e, j + 1, done + [cps[j]], lines, str, quote)
    {
      hide StringMeaning, Utf8Encode, EncodeAll, Prepend;
      assert cps[e..j + 1] == cps[e..j] + [cps[j]];
      EncodeConcat(cps[e..j], [cps[j]]);
      EncodeConcat(done, [cps[j]]);
      Reassociated(str, EncodeAll(cps[e..j]), EncodeAll([cps[j]]));
      PrependTwice(done, lines, [cps[j]], 0, StringMeaning(cps, j + 1, quote));
    }

    /** The same for a character that stands for itself. */
    lemma OrdinaryKept(i: nat, e: nat, j: nat, done: seq<CodePoint>, lines: nat, str: seq<Byte>, quote: CodePoint)
      requires Valid() && e <= j < |cps| && Scanned(i, e, j, done, lines, str, quote)
      requires cps[j] !in {LEX_CHAR_CR, LEX_CHAR_LF, LEX_CHAR_BACKSLASH} && !Closes(cps, j, quote)
      ensures Scanned(i, e, j + 1, done + [cps[j]], lines, str, quote)
    {
      hide StringMeaning, EncodeAll, Scanned, Closes;
      OrdinaryMeaning(cps, j, quote);
      KeptOn(i, e, j, done, lines, str, quote);
    }

    /** Code points from `j` up to `k` stand for `v`: the segment is copied, then `v`. */
    lemma Replaced(i: nat, e: nat, j: nat, k: nat, done: seq<CodePoint>, lines: nat, v: seq<CodePoint>, more: nat,
                   str: seq<Byte>, quote: CodePoint)
      requires Valid() && e <= j <= k <= |cps| && Scanned(i, e, j, done, lines, str, quote)
      requires StringMeaning(cps, j, quote) == Prepend(v, more, StringMeaning(cps, k, quote))
      ensures Scanned(i, k, k, done + v, lines + more, str + EncodeAll(cps[e..j]) + EncodeAll(v), quote)
    {
      hide StringMeaning, Utf8Encode;
      assert cps[k..k] == [];
      EncodeConcat(done, v);
      PrependTwice(done, lines, v, more, StringMeaning(cps, k, quote));
    }
  }

  lemma Reassociated(a: seq<Byte>, b: seq<Byte>, c: seq<Byte>)
    ensures a + (b + c) == (a + b) + c
  {
  }

  lemma InvalidIsNoDigit()
    ensures !IsHexDigit(INVALID_CP) && !IsDecimalDigit(INVALID_CP)
  {
  }

  /** Comparing what Peek shows with an ASCII constant is comparing the code point. */
  lemma SeenAs(peeked: CodePoint, cp: CodePoint, c: CodePoint)
    requires Seen(peeked, cp) && c < UTF8_1BYTE_LIMIT
    ensures peeked == c <==> cp == c
    ensures peeked != INVALID_CP
  {
  }

  lemma SeenAsConstants(peeked: CodePoint, cp: CodePoint)
    requires Seen(peeked, cp)
    ensures peeked == LEX_CHAR_CR <==> cp == LEX_CHAR_CR
    ensures peeked == LEX_CHAR_LF <==> cp == LEX_CHAR_LF
    ensures peeked == LEX_CHAR_BACKSLASH <==> cp == LEX_CHAR_BACKSLASH
    ensures peeked == LEX_CHAR_BACK_TICK <==> cp == LEX_CHAR_BACK_TICK
    ensures peeked == LEX_CHAR_SINGLE_QUOTE <==> cp == LEX_CHAR_SINGLE_QUOTE
    ensures peeked == LEX_CHAR_DOUBLE_QUOTE <==> cp == LEX_CHAR_DOUBLE_QUOTE
    ensures peeked == LEX_CHAR_DOLLAR_SIGN <==> cp == LEX_CHAR_DOLLAR_SIGN
    ensures peeked != INVALID_CP
  {
  }

  lemma PrependNothing(r: Outcome<seq<CodePoint>>)
    ensures Prepend([], 0, r) == r
  {
    if r.Done? {
      assert [] + r.value == r.value;
    }
  }

  lemma PrependTwice(a: seq<CodePoint>, m: nat, b: seq<CodePoint>, n: nat, r: Outcome<seq<CodePoint>>)
    ensures Prepend(a, m, Prepend(b, n, r)) == Prepend(a + b, m + n, r)
  {
    if r.Done? {
      assert a + (b + r.value) == (a + b) + r.value;
    }
  }
}
