/** util::StringView::EscapeSymbol, the printer whose output ScanString reads. */
module EscapeSymbol {
  import opened Utf8
  import opened StringLiterals
  import opened StringScanner

  /** How a character other than CR is printed. */
  function Symbol(c: CodePoint): seq<CodePoint> {
    if c == LEX_CHAR_LF then [LEX_CHAR_BACKSLASH, LEX_CHAR_LOWERCASE_N]
    else if c == LEX_CHAR_BS then [LEX_CHAR_BACKSLASH, LEX_CHAR_LOWERCASE_B]
    else if c == LEX_CHAR_TAB then [LEX_CHAR_BACKSLASH, LEX_CHAR_LOWERCASE_T]
    else if c == LEX_CHAR_FF then [LEX_CHAR_BACKSLASH, LEX_CHAR_LOWERCASE_F]
    else if c == LEX_CHAR_DOUBLE_QUOTE || c == LEX_CHAR_BACKSLASH then [LEX_CHAR_BACKSLASH, c]
    else [c]
  }

  /** After a CR, the printer drops one ASCII character that a LF follows. */
  function AfterCr(v: seq<CodePoint>, i: nat): (k: nat)
    ensures i <= k <= i + 1
  {
    if i < |v| && v[i] < UTF8_1BYTE_LIMIT && At(v, i + 1, LEX_CHAR_LF) then i + 1 else i
  }

  function Printed(v: seq<CodePoint>, i: nat): seq<CodePoint>
    decreases |v| - i
  {
    if i >= |v| then []
    else if v[i] == LEX_CHAR_CR then Symbol(LEX_CHAR_LF) + Printed(v, AfterCr(v, i + 1))
    else Symbol(v[i]) + Printed(v, i + 1)
  }

  /** What is left of the string in print. */
  function Legible(v: seq<CodePoint>, i: nat): seq<CodePoint>
    decreases |v| - i
  {
    if i >= |v| then []
    else if v[i] == LEX_CHAR_CR then [LEX_CHAR_LF] + Legible(v, AfterCr(v, i + 1))
    else [v[i]] + Legible(v, i + 1)
  }

  /** Between a CR and a LF, one character is lost. */
  lemma CharacterLost()
    ensures Legible([LEX_CHAR_CR, LEX_CHAR_UPPERCASE_A, LEX_CHAR_LF], 0) == [LEX_CHAR_LF, LEX_CHAR_LF]
  {
    var v := [LEX_CHAR_CR, LEX_CHAR_UPPERCASE_A, LEX_CHAR_LF];
    assert AfterCr(v, 1) == 2;
    assert Legible(v, 2) == [LEX_CHAR_LF] + Legible(v, 3);
  }

  // ---- The printer.

  lemma InsideCodePoint(cps: seq<CodePoint>, i: nat)
    requires i < |cps| && AreCodePoints(cps) && cps[i] >= UTF8_1BYTE_LIMIT
    ensures var s, pos := EncodeAll(cps), Offset(cps, i); pos + 1 < |s| && SignExtended(s[pos + 1]) != LEX_CHAR_LF
  {
    hide Utf8Encode, SignExtended;
    OffsetsAdvance(cps, i);
    SecondByte(cps[i]);
    assert EncodeAll(cps)[Offset(cps, i) + 1] == Utf8Encode(cps[i])[1];
  }

  lemma SecondByte(cp: CodePoint)
    requires UTF8_1BYTE_LIMIT <= cp
    ensures |Utf8Encode(cp)| > 1 && SignExtended(Utf8Encode(cp)[1]) != LEX_CHAR_LF
  {
  }

  lemma NextAfterCr(v: seq<CodePoint>, i: nat)
    requires i < |v| && AreCodePoints(v)
    ensures var s, pos := EncodeAll(v), Offset(v, i) + 1;
      pos <= |s| &&
        (pos < |s| && SignExtended(s[pos]) == LEX_CHAR_LF <==> v[i] < UTF8_1BYTE_LIMIT && At(v, i + 1, LEX_CHAR_LF))
      && (v[i] < UTF8_1BYTE_LIMIT ==> pos == Offset(v, i + 1))
  {
    hide Utf8Encode, EncodeAll, Offset, SignExtended, Width, Decode, Seen, Readable;
    PeekAt(v, i);
    if v[i] >= UTF8_1BYTE_LIMIT {
      InsideCodePoint(v, i);
    } else if i + 1 < |v| {
      PeekAt(v, i + 1);
      SeenAs(SignExtended(EncodeAll(v)[Offset(v, i + 1)]), v[i + 1], LEX_CHAR_LF);
    } else {
      OffsetEnds(v);
    }
  }

  lemma EscapeBytes(c: bv8)
    requires c < 0x80
    ensures EncodeAll([LEX_CHAR_BACKSLASH, c as bv32]) == [0x5C, c]
  {
    AsciiBytes(c);
    EncodeOne(c as bv32);
    assert [LEX_CHAR_BACKSLASH, c as bv32][1..] == [c as bv32];
  }

  lemma AsciiBytes(c: bv8)
    requires c < 0x80
    ensures Utf8Encode(c as bv32) == [c] && Utf8Encode(LEX_CHAR_BACKSLASH) == [0x5C]
  {
  }

  /** The bytes printed for a character other than CR. */
  method PrintSymbol(cp: CodePoint) returns (out: seq<Byte>)
    requires cp != LEX_CHAR_CR
    ensures out == EncodeAll(Symbol(cp))
  {
    hide Utf8Encode, EncodeAll;
    if cp == LEX_CHAR_LF {
      EscapeBytes(0x6E);
      out := [0x5C, 0x6E];
    } else if cp == LEX_CHAR_BS {
      EscapeBytes(0x62);
      out := [0x5C, 0x62];
    } else if cp == LEX_CHAR_TAB {
      EscapeBytes(0x74);
      out := [0x5C, 0x74];
    } else if cp == LEX_CHAR_FF {
      EscapeBytes(0x66);
      out := [0x5C, 0x66];
    } else if cp == LEX_CHAR_DOUBLE_QUOTE {
      EscapeBytes(0x22);
      out := [0x5C, 0x22];
    } else if cp == LEX_CHAR_BACKSLASH {
      EscapeBytes(0x5C);
      out := [0x5C, 0x5C];
    } else {
      EncodeOne(cp);
      out := Utf8Encode(cp);
    }
  }

  method EscapeSymbol(sv: seq<Byte>, ghost v: seq<CodePoint>) returns (str: seq<Byte>)
    requires sv == EncodeAll(v) && AreCodePoints(v)
    ensures str == EncodeAll(Printed(v, 0))
  {
    hide Utf8Encode, Decode, Width, SignExtended, EncodeAll, Symbol, Offset;
    str := [];
    var it := new Iterator(sv);
    ghost var j := 0;
    OffsetEnds(v);
    while it.HasNext()
      invariant j <= |v| && it.iter == Offset(v, j) <= |sv|
      invariant str + EncodeAll(Printed(v, j)) == EncodeAll(Printed(v, 0))
      decreases |v| - j
    {
      DecodeAt(v, j);
      var cp := it.Next();
      ghost var next := if cp == LEX_CHAR_CR then AfterCr(v, j + 1) else j + 1;
      if cp == LEX_CHAR_CR {
        if it.HasNext() {
          NextAfterCr(v, j + 1);
          it.iter := it.iter + 1;
          if it.Peek() != LEX_CHAR_LF {
            it.iter := it.iter - 1;
          }
        } else {
          EndReached(v, j + 1);
        }
        cp := LEX_CHAR_LF;
      }
      EncodeConcat(Symbol(cp), Printed(v, next));
      var out := PrintSymbol(cp);
      Reassociated(str, out, EncodeAll(Printed(v, next)));
      str := str + out;
      j := next;
    }
    EndReached(v, j);
    EncodeNone();
  }

  // ---- Printing and scanning.

  /** The text of `part` stands in `cps` at `i`. */
  predicate Holds(cps: seq<CodePoint>, i: nat, part: seq<CodePoint>) {
    i + |part| <= |cps| && cps[i..i + |part|] == part
  }

  lemma SymbolMeans(cps: seq<CodePoint>, i: nat, c: CodePoint)
    requires c != LEX_CHAR_CR && Holds(cps, i, Symbol(c))
    ensures StringMeaning(cps, i, LEX_CHAR_DOUBLE_QUOTE) ==
            Prepend([c], 0, StringMeaning(cps, i + |Symbol(c)|, LEX_CHAR_DOUBLE_QUOTE))
  {
    hide IsHexDigit, DigitValue, HexMeaning, CodePointMeaning, StringMeaning;
    assert cps[i] == Symbol(c)[0];
    if |Symbol(c)| == 2 {
      assert cps[i + 1] == Symbol(c)[1];
      SpecialMeaning(cps, i, LEX_CHAR_DOUBLE_QUOTE);
    } else {
      OrdinaryMeaning(cps, i, LEX_CHAR_DOUBLE_QUOTE);
    }
  }

  lemma {:induction false} PrintedMeans(cps: seq<CodePoint>, i: nat, v: seq<CodePoint>, j: nat)
    requires Holds(cps, i, Printed(v, j)) && At(cps, i + |Printed(v, j)|, LEX_CHAR_DOUBLE_QUOTE)
    ensures StringMeaning(cps, i, LEX_CHAR_DOUBLE_QUOTE) == Done(Legible(v, j), i + |Printed(v, j)|, 0)
    decreases |v| - j
  {
    hide StringMeaning, Symbol, AfterCr;
    if j >= |v| {
      SpecialMeaning(cps, i, LEX_CHAR_DOUBLE_QUOTE);
    } else {
      var c := if v[j] == LEX_CHAR_CR then LEX_CHAR_LF else v[j];
      var next := if v[j] == LEX_CHAR_CR then AfterCr(v, j + 1) else j + 1;
      HoldsParts(cps, i, Symbol(c), Printed(v, next));
      SymbolMeans(cps, i, c);
      PrintedMeans(cps, i + |Symbol(c)|, v, next);
    }
  }

  lemma HoldsParts(cps: seq<CodePoint>, i: nat, a: seq<CodePoint>, b: seq<CodePoint>)
    requires Holds(cps, i, a + b)
    ensures Holds(cps, i, a) && Holds(cps, i + |a|, b)
  {
    var whole := cps[i..i + |a + b|];
    assert whole[..|a|] == a && whole[|a|..] == b;
  }

  lemma {:induction false} LegibleHasNoCr(v: seq<CodePoint>, j: nat)
    ensures LEX_CHAR_CR !in Legible(v, j)
    ensures AreCodePoints(v) ==> AreCodePoints(Legible(v, j))
    decreases |v| - j
  {
    if j < |v| {
      LegibleHasNoCr(v, if v[j] == LEX_CHAR_CR then AfterCr(v, j + 1) else j + 1);
    }
  }

  lemma {:induction false} LegibleWithoutCr(v: seq<CodePoint>, j: nat)
    requires LEX_CHAR_CR !in v && j <= |v|
    ensures Legible(v, j) == v[j..]
    decreases |v| - j
  {
    if j < |v| {
      LegibleWithoutCr(v, j + 1);
    }
  }

  lemma {:induction false} EncodingIsInjective(a: seq<CodePoint>, b: seq<CodePoint>)
    requires AreCodePoints(a) && AreCodePoints(b) && EncodeAll(a) == EncodeAll(b)
    ensures a == b
  {
    hide Utf8Encode, Decode, Width;
    OffsetEnds(a);
    OffsetEnds(b);
    if a != [] && b != [] {
      DecodeAt(a, 0);
      DecodeAt(b, 0);
      assert EncodeAll(a)[|Utf8Encode(a[0])|..] == EncodeAll(a[1..]);
      assert EncodeAll(b)[|Utf8Encode(b[0])|..] == EncodeAll(b[1..]);
      EncodingIsInjective(a[1..], b[1..]);
    } else {
      EndReached(a, 0);
      EndReached(b, 0);
    }
  }

  /** What is left is the whole string exactly when the string has no CR. */
  lemma LegibleIff(v: seq<CodePoint>)
    requires AreCodePoints(v)
    ensures EncodeAll(Legible(v, 0)) == EncodeAll(v) <==> LEX_CHAR_CR !in v
  {
    LegibleHasNoCr(v, 0);
    if LEX_CHAR_CR !in v {
      LegibleWithoutCr(v, 0);
    } else if EncodeAll(Legible(v, 0)) == EncodeAll(v) {
      EncodingIsInjective(Legible(v, 0), v);
    }
  }

  /**
   * A printed string, its closing quote and any text after it: the scanner stops just past the quote with the string it
   * was.
   */
  method PrintAndScan(sv: seq<Byte>, ghost v: seq<CodePoint>, rest: seq<Byte>, ghost more: seq<CodePoint>)
    returns (ok: bool, scanned: seq<Byte>, end: nat, printed: nat)
    requires sv == EncodeAll(v) && AreCodePoints(v) && rest == EncodeAll(more) && AreCodePoints(more)
    ensures ok && end == printed + 1
    ensures printed == |EncodeAll(Printed(v, 0))| && scanned == EncodeAll(Legible(v, 0))
    ensures scanned == sv <==> LEX_CHAR_CR !in v
  {
    hide Utf8Encode, StringMeaning, EncodeAll, Printed, Legible;
    var str := EscapeSymbol(sv, v);
    printed := |str|;
    ghost var p := Printed(v, 0);
    ghost var quoted := p + [LEX_CHAR_DOUBLE_QUOTE];
    ghost var cps := quoted + more;
    EncodeConcat(p, [LEX_CHAR_DOUBLE_QUOTE]);
    EncodeConcat(quoted, more);
    EncodeOne(LEX_CHAR_DOUBLE_QUOTE);
    PrintedAreCodePoints(v, 0);
    var lexer := new Lexer(str + Utf8Encode(LEX_CHAR_DOUBLE_QUOTE) + rest, cps);
    assert cps[0..|p|] == p && cps[..|quoted|] == quoted;
    PrintedMeans(cps, 0, v, 0);
    ok := lexer.ScanString(LEX_CHAR_DOUBLE_QUOTE, 0);
    scanned, end := lexer.src, lexer.input.iter;
    AsciiBytes(0x22);
    LegibleIff(v);
  }

  lemma {:induction false} PrintedAreCodePoints(v: seq<CodePoint>, j: nat)
    requires AreCodePoints(v)
    ensures AreCodePoints(Printed(v, j))
    decreases |v| - j
  {
    if j < |v| {
      PrintedAreCodePoints(v, if v[j] == LEX_CHAR_CR then AfterCr(v, j + 1) else j + 1);
    }
  }
}
