/**
 * Which of the numeric literals that the scanner accepts are those of section 12.9.3 of ECMA-262 in strict mode code.
 */
module NumericGrammar {
  import opened Utf8
  import opened StringLiterals
  import opened NumberScanner

  // ---- The grammar; every production is a range of the source.

  /** Digits, with single separators between them. */
  ghost predicate Digits(s: seq<Byte>, b: nat, e: nat, radix: Radix)
    decreases e
  {
    b < e && DigitIn(s, e - 1, radix) &&
    (e == b + 1 || Digits(s, b, e - 1, radix) || (b + 2 < e && UnderscoreIn(s, e - 2) && Digits(s, b, e - 2, radix)))
  }

  ghost predicate IntegerLiteral(s: seq<Byte>, b: nat, e: nat) {
    if CharIn(s, b, LEX_CHAR_0) then e == b + 1
    else DigitIn(s, b, Decimal) &&
         (e == b + 1 || Digits(s, b + 1, e, Decimal) || (UnderscoreIn(s, b + 1) && Digits(s, b + 2, e, Decimal)))
  }

  ghost predicate ExponentPart(s: seq<Byte>, b: nat, e: nat) {
    (CharIn(s, b, LEX_CHAR_LOWERCASE_E) || CharIn(s, b, LEX_CHAR_UPPERCASE_E)) &&
    (Digits(s, b + 1, e, Decimal)
     || ((CharIn(s, b + 1, LEX_CHAR_PLUS) || CharIn(s, b + 1, LEX_CHAR_MINUS)) && Digits(s, b + 2, e, Decimal)))
  }

  ghost predicate ExponentOpt(s: seq<Byte>, b: nat, e: nat) {
    b == e || ExponentPart(s, b, e)
  }

  ghost predicate DigitsOpt(s: seq<Byte>, b: nat, e: nat) {
    b == e || Digits(s, b, e, Decimal)
  }

  /** The parts of a decimal literal that begins with its integer part, which ends at `m`; the fraction ends at `f`. */
  ghost predicate FromInteger(s: seq<Byte>, b: nat, m: nat, f: nat, e: nat) {
    && IntegerLiteral(s, b, m) && ExponentOpt(s, f, e)
    && (f == m || (CharIn(s, m, LEX_CHAR_DOT) && DigitsOpt(s, m + 1, f)))
  }

  ghost predicate FromDot(s: seq<Byte>, b: nat, f: nat, e: nat) {
    CharIn(s, b, LEX_CHAR_DOT) && Digits(s, b + 1, f, Decimal) && ExponentOpt(s, f, e)
  }

  ghost predicate DecimalLiteral(s: seq<Byte>, b: nat, e: nat) {
    || (exists m: nat, f: nat :: FromInteger(s, b, m, f, e))
    || (exists f: nat :: FromDot(s, b, f, e))
  }

  ghost predicate BigIntegerLiteral(s: seq<Byte>, b: nat, e: nat) {
    0 < e && CharIn(s, e - 1, LEX_CHAR_LOWERCASE_N) && IntegerLiteral(s, b, e - 1)
  }

  ghost predicate NonDecimalLiteral(s: seq<Byte>, b: nat, e: nat) {
    CharIn(s, b, LEX_CHAR_0) && Prefix(s, b + 1) != Decimal &&
    (Digits(s, b + 2, e, Prefix(s, b + 1))
     || (0 < e && CharIn(s, e - 1, LEX_CHAR_LOWERCASE_N) && Digits(s, b + 2, e - 1, Prefix(s, b + 1))))
  }

  ghost predicate NumericLiteral(s: seq<Byte>, b: nat, e: nat) {
    DecimalLiteral(s, b, e) || BigIntegerLiteral(s, b, e) || NonDecimalLiteral(s, b, e)
  }

  // ---- Characters of different kinds.

  /** No digit, no separator. */
  predicate Stops(s: seq<Byte>, k: nat, radix: Radix) {
    !DigitIn(s, k, radix) && !UnderscoreIn(s, k)
  }

  predicate ExponentIn(s: seq<Byte>, k: nat) {
    CharIn(s, k, LEX_CHAR_LOWERCASE_E) || CharIn(s, k, LEX_CHAR_UPPERCASE_E)
  }

  predicate SignIn(s: seq<Byte>, k: nat) {
    CharIn(s, k, LEX_CHAR_PLUS) || CharIn(s, k, LEX_CHAR_MINUS)
  }

  lemma Kinds(s: seq<Byte>, k: nat)
    ensures CharIn(s, k, LEX_CHAR_DOT) ==>
      Stops(s, k, Decimal) && !ExponentIn(s, k) && !SignIn(s, k) && !CharIn(s, k, LEX_CHAR_LOWERCASE_N)
    ensures ExponentIn(s, k) ==> Stops(s, k, Decimal) && !SignIn(s, k) && !CharIn(s, k, LEX_CHAR_LOWERCASE_N)
    ensures SignIn(s, k) ==> Stops(s, k, Decimal) && !CharIn(s, k, LEX_CHAR_LOWERCASE_N)
    ensures CharIn(s, k, LEX_CHAR_LOWERCASE_N) ==> !UnderscoreIn(s, k)
    ensures forall radix: Radix {:trigger DigitIn(s, k, radix)} :: DigitIn(s, k, radix) ==>
      !CharIn(s, k, LEX_CHAR_LOWERCASE_N)
    ensures CharIn(s, k, LEX_CHAR_0) ==> DigitIn(s, k, Decimal)
    ensures Prefix(s, k) != Decimal ==>
      && k < |s| && Stops(s, k, Decimal) && !CharIn(s, k, LEX_CHAR_DOT) && !ExponentIn(s, k) &&
           !CharIn(s, k, LEX_CHAR_LOWERCASE_N)
  {
  }

  // ---- Runs of digits.

  ghost predicate InRun(s: seq<Byte>, b: nat, e: nat, radix: Radix) {
    forall k {:trigger UnderscoreIn(s, k)} :: b <= k < e ==> DigitIn(s, k, radix) || UnderscoreIn(s, k)
  }

  lemma {:induction false} DigitsMean(s: seq<Byte>, b: nat, e: nat, radix: Radix)
    requires Digits(s, b, e, radix)
    ensures b < e && DigitIn(s, b, radix) && DigitIn(s, e - 1, radix) && InRun(s, b, e, radix)
    ensures AllSeparate(s, b, e, radix)
    decreases e
  {
    hide DigitIn, UnderscoreIn;
    UnderscoreIsNoDigit(s, e - 1, radix);
    if e == b + 1 {
    } else if Digits(s, b, e - 1, radix) {
      DigitsMean(s, b, e - 1, radix);
    } else {
      DigitsMean(s, b, e - 2, radix);
    }
  }

  lemma {:induction false} DigitsMade(s: seq<Byte>, b: nat, e: nat, radix: Radix)
    requires b < e && DigitIn(s, b, radix) && DigitIn(s, e - 1, radix) && InRun(s, b, e, radix)
    requires AllSeparate(s, b, e, radix)
    ensures Digits(s, b, e, radix)
    decreases e
  {
    hide DigitIn, UnderscoreIn;
    if e == b + 1 {
    } else if DigitIn(s, e - 2, radix) {
      DigitsMade(s, b, e - 1, radix);
    } else {
      assert UnderscoreIn(s, e - 2) && Separates(s, e - 2, radix);
      UnderscoreIsNoDigit(s, b, radix);
      DigitsMade(s, b, e - 2, radix);
    }
  }

  lemma {:induction false} RunEndsAt(s: seq<Byte>, b: nat, e: nat, radix: Radix)
    requires b <= e && InRun(s, b, e, radix) && Stops(s, e, radix)
    ensures RunEnd(s, b, radix) == e
    decreases e - b
  {
    hide DigitIn, UnderscoreIn;
    if b < e {
      assert DigitIn(s, b, radix) || UnderscoreIn(s, b);
      RunEndsAt(s, b + 1, e, radix);
    }
  }

  /** Digits that go on to the end of the run. */
  lemma DigitsIff(s: seq<Byte>, b: nat, radix: Radix)
    ensures Digits(s, b, RunEnd(s, b, radix), radix) <==>
      DigitIn(s, b, radix) && AllSeparate(s, b, RunEnd(s, b, radix), radix)
  {
    hide DigitIn, UnderscoreIn;
    var e := RunEnd(s, b, radix);
    if Digits(s, b, e, radix) {
      DigitsMean(s, b, e, radix);
    }
    if DigitIn(s, b, radix) && AllSeparate(s, b, e, radix) {
      assert b < e;
      assert DigitIn(s, e - 1, radix) by {
        assert UnderscoreIn(s, e - 1) ==> Separates(s, e - 1, radix);
      }
      DigitsMade(s, b, e, radix);
    }
  }

  /** Digits that cannot go on have reached the end of the run. */
  lemma DigitsStop(s: seq<Byte>, b: nat, e: nat, radix: Radix)
    requires Digits(s, b, e, radix) && Stops(s, e, radix)
    ensures e == RunEnd(s, b, radix)
  {
    DigitsMean(s, b, e, radix);
    RunEndsAt(s, b, e, radix);
  }

  // ---- The parts of a literal whose characters after the first begin at `i`.

  /** The digits of the integer part, which go on to the end of the run. */
  lemma IntegerStops(s: seq<Byte>, i: nat, m: nat)
    requires 0 < i && DigitIn(s, i - 1, Decimal) && !CharIn(s, i - 1, LEX_CHAR_0) && Stops(s, m, Decimal)
    ensures IntegerLiteral(s, i - 1, m) <==> m == MantissaEnd(s, i) && AllSeparate(s, i, m, Decimal)
  {
    hide DigitIn, UnderscoreIn, CharIn;
    if IntegerLiteral(s, i - 1, m) {
      IntegerMeans(s, i, m);
    }
    if m == MantissaEnd(s, i) && AllSeparate(s, i, m, Decimal) && i < m {
      if UnderscoreIn(s, i) {
        UnderscoreIsNoDigit(s, i, Decimal);
        assert Separates(s, i, Decimal) && RunEnd(s, i, Decimal) == RunEnd(s, i + 1, Decimal);
        DigitsIff(s, i + 1, Decimal);
      } else {
        assert DigitIn(s, i, Decimal);
        DigitsIff(s, i, Decimal);
      }
    }
  }

  lemma IntegerMeans(s: seq<Byte>, i: nat, m: nat)
    requires 0 < i && DigitIn(s, i - 1, Decimal) && !CharIn(s, i - 1, LEX_CHAR_0) && Stops(s, m, Decimal)
    requires IntegerLiteral(s, i - 1, m)
    ensures m == MantissaEnd(s, i) && AllSeparate(s, i, m, Decimal)
  {
    hide DigitIn, UnderscoreIn, CharIn;
    if m == i {
    } else if Digits(s, i, m, Decimal) {
      DigitsMean(s, i, m, Decimal);
      RunEndsAt(s, i, m, Decimal);
    } else {
      DigitsMean(s, i + 1, m, Decimal);
      RunEndsAt(s, i + 1, m, Decimal);
      assert Separates(s, i, Decimal);
    }
  }

  /** The digits after a dot. */
  lemma FractionStops(s: seq<Byte>, d: nat, f: nat)
    requires CharIn(s, d, LEX_CHAR_DOT) && Stops(s, f, Decimal)
    ensures DigitsOpt(s, d + 1, f) <==> f == RunEnd(s, d + 1, Decimal) && AllSeparate(s, d + 1, f, Decimal)
  {
    hide DigitIn, UnderscoreIn, CharIn;
    Kinds(s, d);
    DigitsIff(s, d + 1, Decimal);
    if Digits(s, d + 1, f, Decimal) {
      DigitsStop(s, d + 1, f, Decimal);
    }
    if AllSeparate(s, d + 1, RunEnd(s, d + 1, Decimal), Decimal) && d + 1 < RunEnd(s, d + 1, Decimal) {
      assert DigitIn(s, d + 1, Decimal) by {
        assert UnderscoreIn(s, d + 1) ==> Separates(s, d + 1, Decimal);
      }
    }
  }

  /** The exponent after the letter at `f`. */
  lemma ExponentStops(s: seq<Byte>, i: nat, e: nat)
    requires HasExponent(s, i) && Stops(s, e, Decimal)
    ensures ExponentPart(s, FractionEnd(s, i), e) <==>
      e == LiteralEnd(s, i) && DigitIn(s, ExponentStart(s, i), Decimal) &&
        AllSeparate(s, ExponentStart(s, i), e, Decimal)
  {
    hide DigitIn, UnderscoreIn, CharIn, FractionEnd;
    var f, x := FractionEnd(s, i), ExponentStart(s, i);
    Kinds(s, f);
    Kinds(s, f + 1);
    if Digits(s, f + 1, e, Decimal) {
      DigitsMean(s, f + 1, e, Decimal);
    }
    DigitsIff(s, x, Decimal);
    if Digits(s, x, e, Decimal) {
      DigitsStop(s, x, e, Decimal);
    }
  }

  // ---- Decimal literals as the scanner delimits them.

  /** What well-formed literals have in common, wherever their first character is. */
  ghost predicate PartsOk(s: seq<Byte>, i: nat) {
    AllSeparate(s, i, LiteralEnd(s, i), Decimal) && (HasExponent(s, i) ==> DigitIn(s, ExponentStart(s, i), Decimal))
  }

  /** The parts one by one. */
  lemma PartsIff(s: seq<Byte>, i: nat)
    requires i <= |s|
    ensures var m, f, e := MantissaEnd(s, i), FractionEnd(s, i), LiteralEnd(s, i);
      && i <= m <= f <= e <= |s| && Stops(s, m, Decimal) && Stops(s, f, Decimal) && Stops(s, e, Decimal)
      && (m == e <==> !HasDot(s, i) && !HasExponent(s, i)) && (f == e <==> !HasExponent(s, i)) &&
            (m == f <==> !HasDot(s, i))
      && (PartsOk(s, i) <==>
          && AllSeparate(s, i, m, Decimal)
          && (HasDot(s, i) ==> DigitsOpt(s, m + 1, f))
          && ExponentOpt(s, f, e))
  {
    hide DigitIn, UnderscoreIn, CharIn, AllSeparate;
    RunsJoin(s, i);
    var m, f, e := MantissaEnd(s, i), FractionEnd(s, i), LiteralEnd(s, i);
    if HasDot(s, i) {
      FractionStops(s, m, f);
    }
    if HasExponent(s, i) {
      ExponentStops(s, i, e);
    } else {
      assert ExponentOpt(s, f, e);
    }
  }

  /** A literal that begins with its integer part. */
  lemma FromIntegerIff(s: seq<Byte>, i: nat, m: nat, f: nat)
    requires 0 < i <= |s|
    requires IntegerLiteral(s, i - 1, m) && Stops(s, m, Decimal) ==> m == MantissaEnd(s, i)
    requires FromInteger(s, i - 1, m, f, LiteralEnd(s, i))
    ensures m == MantissaEnd(s, i) && f == FractionEnd(s, i)
  {
    hide DigitIn, UnderscoreIn, CharIn, AllSeparate, PartsOk, HasExponent;
    var e := LiteralEnd(s, i);
    PartsIff(s, i);
    Kinds(s, m);
    Kinds(s, f);
    assert Stops(s, f, Decimal);
    if f != m {
      FractionStops(s, m, f);
    }
  }

  /** After a digit other than zero. */
  lemma DecimalIff(s: seq<Byte>, i: nat)
    requires 0 < i <= |s| && DigitIn(s, i - 1, Decimal) && !CharIn(s, i - 1, LEX_CHAR_0)
    ensures DecimalLiteral(s, i - 1, LiteralEnd(s, i)) <==> PartsOk(s, i)
  {
    hide DigitIn, UnderscoreIn, CharIn, AllSeparate, PartsOk, HasExponent, DigitsOpt, ExponentOpt;
    hide LiteralEnd, MantissaEnd, FractionEnd, IntegerLiteral;
    var m0, f0, e := MantissaEnd(s, i), FractionEnd(s, i), LiteralEnd(s, i);
    PartsIff(s, i);
    Kinds(s, i - 1);
    IntegerStops(s, i, m0);
    if DecimalLiteral(s, i - 1, e) {
      var m: nat, f: nat :| FromInteger(s, i - 1, m, f, e);
      if Stops(s, m, Decimal) {
        IntegerStops(s, i, m);
      }
      FromIntegerIff(s, i, m, f);
    }
    if PartsOk(s, i) {
      assert FromInteger(s, i - 1, m0, f0, e);
    }
  }

  /** After a dot and with a digit to follow. */
  lemma DotIff(s: seq<Byte>, i: nat)
    requires 0 < i <= |s| && CharIn(s, i - 1, LEX_CHAR_DOT) && DigitIn(s, i, Decimal)
    ensures DecimalLiteral(s, i - 1, LiteralEnd(s, i)) <==> PartsOk(s, i) && !HasDot(s, i)
  {
    hide DigitIn, UnderscoreIn, CharIn, AllSeparate, PartsOk, HasExponent, DigitsOpt;
    hide LiteralEnd, FractionEnd;
    var m0, e := MantissaEnd(s, i), LiteralEnd(s, i);
    PartsIff(s, i);
    Kinds(s, i - 1);
    DigitsIff(s, i, Decimal);
    if DecimalLiteral(s, i - 1, e) {
      var f: nat :| FromDot(s, i - 1, f, e);
      Kinds(s, f);
      assert Stops(s, f, Decimal);
      DigitsStop(s, i, f, Decimal);
    }
    if PartsOk(s, i) && !HasDot(s, i) {
      assert FromDot(s, i - 1, m0, e);
    }
  }

  /** After a zero. */
  lemma ZeroIff(s: seq<Byte>, i: nat)
    requires 0 < i <= |s| && CharIn(s, i - 1, LEX_CHAR_0)
    ensures DecimalLiteral(s, i - 1, LiteralEnd(s, i)) <==> PartsOk(s, i) && MantissaEnd(s, i) == i
  {
    hide DigitIn, UnderscoreIn, CharIn, PartsOk, HasExponent, DigitsOpt, ExponentOpt;
    hide LiteralEnd, FractionEnd;
    var f0, e := FractionEnd(s, i), LiteralEnd(s, i);
    PartsIff(s, i);
    Kinds(s, i - 1);
    if Stops(s, i, Decimal) {
      RunEndsAt(s, i, i, Decimal);
    }
    if DecimalLiteral(s, i - 1, e) {
      var m: nat, f: nat :| FromInteger(s, i - 1, m, f, e);
      FromIntegerIff(s, i, m, f);
    }
    if PartsOk(s, i) && MantissaEnd(s, i) == i {
      assert FromInteger(s, i - 1, i, f0, e);
    }
  }

  // ---- The suffix of a BigInt.

  function TokenEnd(s: seq<Byte>, i: nat): nat {
    LiteralEnd(s, i) + if IsBigInt(s, i) then 1 else 0
  }

  lemma DecimalEnds(s: seq<Byte>, b: nat, e: nat)
    requires DecimalLiteral(s, b, e)
    ensures 0 < e && !CharIn(s, e - 1, LEX_CHAR_LOWERCASE_N)
  {
    hide DigitIn, UnderscoreIn, CharIn;
    if m: nat, f: nat :| FromInteger(s, b, m, f, e) {
      Kinds(s, b);
      LastOf(s, b, m);
      if f != m && f != m + 1 {
        DigitsMean(s, m + 1, f, Decimal);
      }
      PartEnds(s, f, e);
      Kinds(s, e - 1);
    } else {
      var f: nat :| FromDot(s, b, f, e);
      DigitsMean(s, b + 1, f, Decimal);
      PartEnds(s, f, e);
      Kinds(s, e - 1);
    }
  }

  lemma LastOf(s: seq<Byte>, b: nat, m: nat)
    requires IntegerLiteral(s, b, m)
    ensures b < m && DigitIn(s, m - 1, Decimal)
  {
    hide DigitIn, UnderscoreIn, CharIn;
    Kinds(s, b);
    if Digits(s, b + 1, m, Decimal) {
      DigitsMean(s, b + 1, m, Decimal);
    } else if Digits(s, b + 2, m, Decimal) {
      DigitsMean(s, b + 2, m, Decimal);
    }
  }

  lemma PartEnds(s: seq<Byte>, f: nat, e: nat)
    requires ExponentOpt(s, f, e)
    ensures f == e || (f < e && DigitIn(s, e - 1, Decimal))
  {
    hide DigitIn, UnderscoreIn, CharIn;
    if Digits(s, f + 1, e, Decimal) {
      DigitsMean(s, f + 1, e, Decimal);
    } else if Digits(s, f + 2, e, Decimal) {
      DigitsMean(s, f + 2, e, Decimal);
    }
  }

  /** With the suffix, the token is an integer literal and the suffix; without, it is none of that kind. */
  lemma SuffixIff(s: seq<Byte>, i: nat)
    requires 0 < i <= |s|
    requires forall m {:trigger IntegerLiteral(s, i - 1, m)} ::
      IntegerLiteral(s, i - 1, m) && Stops(s, m, Decimal) ==> m == MantissaEnd(s, i)
    requires CharIn(s, i - 1, LEX_CHAR_0) ==> !(Prefix(s, i) != Decimal)
    ensures DecimalLiteral(s, i - 1, TokenEnd(s, i)) <==> !IsBigInt(s, i) && DecimalLiteral(s, i - 1, LiteralEnd(s, i))
    ensures BigIntegerLiteral(s, i - 1, TokenEnd(s, i)) <==>
      IsBigInt(s, i) && IntegerLiteral(s, i - 1, LiteralEnd(s, i))
    ensures !NonDecimalLiteral(s, i - 1, TokenEnd(s, i))
  {
    hide DigitIn, UnderscoreIn, CharIn, PartsOk, DecimalLiteral, LiteralEnd, IntegerLiteral;
    var e := LiteralEnd(s, i);
    PartsIff(s, i);
    if IsBigInt(s, i) {
      if DecimalLiteral(s, i - 1, e + 1) {
        DecimalEnds(s, i - 1, e + 1);
      }
    } else if BigIntegerLiteral(s, i - 1, e) {
      Kinds(s, e - 1);
      assert e - 1 == MantissaEnd(s, i);
      Kinds(s, MantissaEnd(s, i));
    }
  }

  // ---- The theorems.

  /** What ScanNumber accepts after a digit other than zero are exactly the literals of the grammar. */
  lemma NonZeroStart(s: seq<Byte>, i: nat, isIdentifierStart: CodePoint -> bool)
    requires NothingTruncated(s) && 0 < i <= |s| && DigitIn(s, i - 1, Decimal) && !CharIn(s, i - 1, LEX_CHAR_0)
    ensures WellFormedNumber(s, i, true, true, isIdentifierStart) <==>
      NumericLiteral(s, i - 1, TokenEnd(s, i)) && EndsCleanly(s, TokenEnd(s, i), isIdentifierStart)
  {
    hide DigitIn, UnderscoreIn, CharIn, DecimalLiteral, LiteralEnd, IntegerLiteral, AllSeparate, EndsCleanly,
         NothingTruncated;
    forall m {:trigger IntegerLiteral(s, i - 1, m)} | IntegerLiteral(s, i - 1, m) && Stops(s, m, Decimal)
      ensures m == MantissaEnd(s, i)
    {
      IntegerStops(s, i, m);
    }
    SuffixIff(s, i);
    DecimalIff(s, i);
    PartsIff(s, i);
    IntegerStops(s, i, LiteralEnd(s, i));
  }

  /**
   * Of what ScanNumber accepts after a dot, the grammar has no literal for exactly those with a second dot or with
   * the suffix of a BigInt.
   */
  lemma DotStart(s: seq<Byte>, i: nat, isIdentifierStart: CodePoint -> bool)
    requires NothingTruncated(s) && 0 < i <= |s| && CharIn(s, i - 1, LEX_CHAR_DOT) && DigitIn(s, i, Decimal)
    ensures WellFormedNumber(s, i, true, true, isIdentifierStart) && !HasDot(s, i) && !IsBigInt(s, i) <==>
      NumericLiteral(s, i - 1, TokenEnd(s, i)) && EndsCleanly(s, TokenEnd(s, i), isIdentifierStart)
  {
    hide DigitIn, UnderscoreIn, CharIn, DecimalLiteral, LiteralEnd, AllSeparate, EndsCleanly, NothingTruncated;
    Kinds(s, i - 1);
    SuffixIff(s, i);
    DotIff(s, i);
    PartsIff(s, i);
  }

  /** The end of the token that begins with a zero before `i`. */
  function ZeroEnd(s: seq<Byte>, i: nat): nat {
    if Prefix(s, i) == Decimal then TokenEnd(s, i)
    else var e := RunEnd(s, i + 1, Prefix(s, i)); e + if CharIn(s, e, LEX_CHAR_LOWERCASE_N) then 1 else 0
  }

  /** After a zero, a literal of the grammar is accepted exactly if it has a prefix or no separators. */
  lemma ZeroStart(s: seq<Byte>, i: nat, isIdentifierStart: CodePoint -> bool)
    requires NothingTruncated(s) && 0 < i <= |s| && CharIn(s, i - 1, LEX_CHAR_0)
    ensures WellFormedAfterZero(s, i, isIdentifierStart) <==>
      && NumericLiteral(s, i - 1, ZeroEnd(s, i)) && EndsCleanly(s, ZeroEnd(s, i), isIdentifierStart)
      && (Prefix(s, i) == Decimal ==> NoneIn(s, i, LiteralEnd(s, i)))
  {
    hide DigitIn, UnderscoreIn, CharIn, DecimalLiteral, LiteralEnd, AllSeparate, EndsCleanly, NothingTruncated;
    if Prefix(s, i) == Decimal {
      ZeroDecimal(s, i);
    } else {
      ZeroPrefixed(s, i);
    }
  }

  lemma ZeroDecimal(s: seq<Byte>, i: nat)
    requires 0 < i <= |s| && CharIn(s, i - 1, LEX_CHAR_0) && Prefix(s, i) == Decimal
    ensures NumericLiteral(s, i - 1, TokenEnd(s, i)) && NoneIn(s, i, LiteralEnd(s, i)) <==>
      && !DigitIn(s, i, Decimal) && PartsOk(s, i) && NoneIn(s, i, LiteralEnd(s, i))
      && (IsBigInt(s, i) ==> !HasDot(s, i) && !HasExponent(s, i))
  {
    hide DigitIn, UnderscoreIn, CharIn, DecimalLiteral, LiteralEnd;
    if Stops(s, i, Decimal) {
      RunEndsAt(s, i, i, Decimal);
    }
    SuffixIff(s, i);
    ZeroIff(s, i);
    PartsIff(s, i);
    assert NoneIn(s, i, LiteralEnd(s, i)) && !DigitIn(s, i, Decimal) ==> MantissaEnd(s, i) == i by {
      assert UnderscoreIn(s, i) ==> i < RunEnd(s, i, Decimal);
    }
  }

  lemma ZeroPrefixed(s: seq<Byte>, i: nat)
    requires 0 < i <= |s| && CharIn(s, i - 1, LEX_CHAR_0) && Prefix(s, i) != Decimal
    ensures var radix := Prefix(s, i); var e := RunEnd(s, i + 1, radix);
      NumericLiteral(s, i - 1, ZeroEnd(s, i)) <==> DigitIn(s, i + 1, radix) && AllSeparate(s, i + 1, e, radix)
  {
    hide DigitIn, UnderscoreIn, CharIn, AllSeparate;
    var radix := Prefix(s, i);
    var e := RunEnd(s, i + 1, radix);
    Kinds(s, i);
    Kinds(s, i - 1);
    DigitsIff(s, i + 1, radix);
    Kinds(s, e);
    ZeroIsNoDecimal(s, i - 1, ZeroEnd(s, i));
    NoSuffixInside(s, i, radix);
    if Digits(s, i + 1, ZeroEnd(s, i), radix) {
      DigitsMean(s, i + 1, ZeroEnd(s, i), radix);
    }
  }

  lemma NoSuffixInside(s: seq<Byte>, i: nat, radix: Radix)
    requires !CharIn(s, i, LEX_CHAR_LOWERCASE_N)
    ensures var e := RunEnd(s, i + 1, radix); !CharIn(s, e - 1, LEX_CHAR_LOWERCASE_N)
  {
    hide DigitIn, UnderscoreIn, CharIn;
    var e := RunEnd(s, i + 1, radix);
    if i + 1 < e {
      Kinds(s, e - 1);
      assert DigitIn(s, e - 1, radix) || UnderscoreIn(s, e - 1);
    }
  }

  lemma ZeroIsNoDecimal(s: seq<Byte>, b: nat, e: nat)
    requires b + 1 < e && CharIn(s, b, LEX_CHAR_0) && Prefix(s, b + 1) != Decimal
    ensures !DecimalLiteral(s, b, e) && !BigIntegerLiteral(s, b, e)
  {
    hide DigitIn, UnderscoreIn, CharIn;
    Kinds(s, b + 1);
    Kinds(s, b);
  }

  // ---- Longest match.

  /** A run covers all digits from its start on, and goes on where they could. */
  lemma RunCovers(s: seq<Byte>, b: nat, e: nat, radix: Radix)
    requires Digits(s, b, e, radix)
    ensures e <= RunEnd(s, b, radix) && (e < RunEnd(s, b, radix) ==> !Stops(s, e, radix))
  {
    hide DigitIn, UnderscoreIn;
    DigitsMean(s, b, e, radix);
  }

  lemma IntegerCovered(s: seq<Byte>, i: nat, m: nat)
    requires 0 < i && IntegerLiteral(s, i - 1, m)
    ensures i <= m <= MantissaEnd(s, i) && (m < MantissaEnd(s, i) ==> !Stops(s, m, Decimal))
  {
    hide DigitIn, UnderscoreIn, CharIn;
    if Digits(s, i, m, Decimal) {
      RunCovers(s, i, m, Decimal);
    } else if Digits(s, i + 1, m, Decimal) {
      RunCovers(s, i + 1, m, Decimal);
    }
  }

  lemma ExponentCovered(s: seq<Byte>, i: nat, e: nat)
    requires ExponentPart(s, FractionEnd(s, i), e)
    ensures e <= LiteralEnd(s, i)
  {
    hide DigitIn, UnderscoreIn, CharIn, FractionEnd;
    var f := FractionEnd(s, i);
    Kinds(s, f + 1);
    if Digits(s, f + 1, e, Decimal) {
      DigitsMean(s, f + 1, e, Decimal);
      RunCovers(s, f + 1, e, Decimal);
    } else {
      RunCovers(s, f + 2, e, Decimal);
    }
  }

  lemma FromIntegerCovered(s: seq<Byte>, i: nat, m: nat, f: nat, e: nat)
    requires 0 < i <= |s| && FromInteger(s, i - 1, m, f, e)
    ensures e <= LiteralEnd(s, i)
  {
    hide DigitIn, UnderscoreIn, CharIn, ExponentPart, IntegerLiteral, LiteralEnd;
    PartsIff(s, i);
    IntegerCovered(s, i, m);
    Kinds(s, m);
    Kinds(s, f);
    if f != m && f != m + 1 {
      RunCovers(s, m + 1, f, Decimal);
    }
    StartsExponent(s, f, e);
    if f != e {
      ExponentCovered(s, i, e);
    }
  }

  lemma StartsExponent(s: seq<Byte>, f: nat, e: nat)
    ensures ExponentPart(s, f, e) ==> ExponentIn(s, f)
  {
  }

  lemma DecimalCovered(s: seq<Byte>, i: nat, e: nat)
    requires 0 < i <= |s| && DecimalLiteral(s, i - 1, e)
    ensures e <= LiteralEnd(s, i)
  {
    hide DigitIn, UnderscoreIn, CharIn, ExponentPart, IntegerLiteral, LiteralEnd, FractionEnd;
    var b: nat := i - 1;
    forall m: nat, f: nat | FromInteger(s, b, m, f, e)
      ensures e <= LiteralEnd(s, i)
    {
      FromIntegerCovered(s, i, m, f, e);
    }
    forall f: nat | FromDot(s, b, f, e)
      ensures e <= LiteralEnd(s, i)
    {
      PartsIff(s, i);
      RunCovers(s, i, f, Decimal);
      StartsExponent(s, f, e);
      Kinds(s, f);
      if f != e {
        ExponentCovered(s, i, e);
      }
    }
  }

  lemma BigIntegerCovered(s: seq<Byte>, i: nat, e: nat)
    requires 0 < i <= |s| && BigIntegerLiteral(s, i - 1, e)
    ensures e <= TokenEnd(s, i)
  {
    hide DigitIn, UnderscoreIn, CharIn, IntegerLiteral, LiteralEnd;
    PartsIff(s, i);
    IntegerCovered(s, i, e - 1);
    Kinds(s, e - 1);
  }

  lemma PrefixedCovered(s: seq<Byte>, i: nat, e: nat)
    requires 0 < i <= |s| && CharIn(s, i - 1, LEX_CHAR_0) && Prefix(s, i) != Decimal && NumericLiteral(s, i - 1, e)
    ensures e <= ZeroEnd(s, i)
  {
    hide DigitIn, UnderscoreIn, CharIn, Digits, DecimalLiteral, BigIntegerLiteral;
    var radix := Prefix(s, i);
    if i < e {
      ZeroIsNoDecimal(s, i - 1, e);
      if Digits(s, i + 1, e, radix) {
        RunCovers(s, i + 1, e, radix);
      } else {
        Kinds(s, e - 1);
        RunCovers(s, i + 1, e - 1, radix);
      }
    }
  }

  /** The end of the token whose first character stands before `i`. */
  function ScannedEnd(s: seq<Byte>, i: nat): nat
    requires 0 < i
  {
    if CharIn(s, i - 1, LEX_CHAR_0) then ZeroEnd(s, i) else TokenEnd(s, i)
  }

  /** No literal of the grammar is longer than the scanner's token, accepted or not. */
  lemma LongestMatch(s: seq<Byte>, i: nat, e: nat)
    requires 0 < i <= |s| && NumericLiteral(s, i - 1, e)
    ensures e <= ScannedEnd(s, i)
  {
    hide DigitIn, UnderscoreIn, CharIn, DecimalLiteral, BigIntegerLiteral, LiteralEnd;
    if CharIn(s, i - 1, LEX_CHAR_0) && Prefix(s, i) != Decimal {
      PrefixedCovered(s, i, e);
    } else if DecimalLiteral(s, i - 1, e) {
      DecimalCovered(s, i, e);
    } else {
      BigIntegerCovered(s, i, e);
    }
  }

  // ---- Literals on which scanner and grammar differ.

  /** `.5.3` is one token, and no literal. */
  lemma SecondDotAccepted(isIdentifierStart: CodePoint -> bool)
    requires !isIdentifierStart(INVALID_CP)
    ensures var s: seq<Byte> := [0x2E, 0x35, 0x2E, 0x33];
      NothingTruncated(s) && WellFormedNumber(s, 1, true, true, isIdentifierStart) && TokenEnd(s, 1) == 4 &&
        !NumericLiteral(s, 0, 4)
  {
    DotStart([0x2E, 0x35, 0x2E, 0x33], 1, isIdentifierStart);
  }

  /** `.5n` is one token, and no literal. */
  lemma SuffixAfterDotAccepted(isIdentifierStart: CodePoint -> bool)
    requires !isIdentifierStart(INVALID_CP)
    ensures var s: seq<Byte> := [0x2E, 0x35, 0x6E];
      NothingTruncated(s) && WellFormedNumber(s, 1, true, true, isIdentifierStart) && TokenEnd(s, 1) == 3 &&
        !NumericLiteral(s, 0, 3)
  {
    DotStart([0x2E, 0x35, 0x6E], 1, isIdentifierStart);
  }

  const TENTH: seq<Byte> := [0x30, 0x2E, 0x31, 0x5F, 0x30]

  lemma TenthIsLiteral()
    ensures NumericLiteral(TENTH, 0, 5)
  {
    var s := TENTH;
    assert Digits(s, 2, 3, Decimal) && DigitIn(s, 4, Decimal) && UnderscoreIn(s, 3);
    assert Digits(s, 2, 5, Decimal);
    assert FromInteger(s, 0, 1, 5, 5);
  }

  lemma TenthEnds(isIdentifierStart: CodePoint -> bool)
    requires !isIdentifierStart(INVALID_CP)
    ensures NothingTruncated(TENTH) && EndsCleanly(TENTH, 5, isIdentifierStart)
  {
  }

  lemma TenthHasSeparator()
    ensures Prefix(TENTH, 1) == Decimal && UnderscoreIn(TENTH, 3) && 3 < LiteralEnd(TENTH, 1)
  {
    assert RunEnd(TENTH, 2, Decimal) == RunEnd(TENTH, 3, Decimal);
  }

  /** `0.1_0` is in the grammar and refused. */
  lemma SeparatorRefused(isIdentifierStart: CodePoint -> bool)
    requires !isIdentifierStart(INVALID_CP)
    ensures NothingTruncated(TENTH) && NumericLiteral(TENTH, 0, 5) && EndsCleanly(TENTH, 5, isIdentifierStart)
    ensures !WellFormedAfterZero(TENTH, 1, isIdentifierStart)
  {
    hide NumericLiteral, NothingTruncated, EndsCleanly, LiteralEnd, UnderscoreIn, CharIn, DigitIn, AllSeparate, Prefix;
    TenthIsLiteral();
    TenthEnds(isIdentifierStart);
    TenthHasSeparator();
  }
}
