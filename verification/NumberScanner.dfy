/** Numeric literals: Lexer::ScanNumberRadix, ScanDecimalNumbers, ScanNumber and ScanNumberLeadingZero. */
module NumberScanner {
  import opened Utf8
  import opened StringLiterals
  import opened StringScanner

  const LEX_CHAR_PLUS: bv32 := 0x2B
  const LEX_CHAR_MINUS: bv32 := 0x2D
  const LEX_CHAR_DOT: bv32 := 0x2E
  const LEX_CHAR_1: bv32 := 0x31
  const LEX_CHAR_7: bv32 := 0x37
  const LEX_CHAR_8: bv32 := 0x38
  const LEX_CHAR_UPPERCASE_B: bv32 := 0x42
  const LEX_CHAR_UPPERCASE_E: bv32 := 0x45
  const LEX_CHAR_UPPERCASE_O: bv32 := 0x4F
  const LEX_CHAR_UPPERCASE_X: bv32 := 0x58
  const LEX_CHAR_UNDERSCORE: bv32 := 0x5F
  const LEX_CHAR_LOWERCASE_E: bv32 := 0x65
  const LEX_CHAR_LOWERCASE_O: bv32 := 0x6F

  datatype Radix = Binary | Octal | Decimal | Hexadecimal {
    function Base(): real {
      match this
      case Binary => 2.0
      case Octal => 8.0
      case Decimal => 10.0
      case Hexadecimal => 16.0
    }

    predicate IsDigit(c: CodePoint) {
      match this
      case Binary => c == LEX_CHAR_0 || c == LEX_CHAR_1
      case Octal => LEX_CHAR_0 <= c <= LEX_CHAR_7
      case Decimal => IsDecimalDigit(c)
      case Hexadecimal => IsHexDigit(c)
    }
  }

  /** What Peek shows at a position of the source. */
  function PeekedAt(s: seq<Byte>, k: nat): CodePoint {
    if k < |s| then SignExtended(s[k]) else INVALID_CP
  }

  predicate DigitIn(s: seq<Byte>, k: nat, radix: Radix) {
    k < |s| && radix.IsDigit(PeekedAt(s, k))
  }

  predicate UnderscoreIn(s: seq<Byte>, k: nat) {
    k < |s| && PeekedAt(s, k) == LEX_CHAR_UNDERSCORE
  }

  /** The end of the longest run of digits and underscores from `i` on. */
  function RunEnd(s: seq<Byte>, i: nat, radix: Radix): (e: nat)
    ensures i <= e && (i <= |s| ==> e <= |s|)
    ensures !DigitIn(s, e, radix) && !UnderscoreIn(s, e)
    ensures forall k {:trigger UnderscoreIn(s, k)} :: i <= k < e ==> DigitIn(s, k, radix) || UnderscoreIn(s, k)
    decreases |s| - i
  {
    hide PeekedAt;
    if DigitIn(s, i, radix) || UnderscoreIn(s, i) then RunEnd(s, i + 1, radix) else i
  }

  /** Section 12.9.3 of ECMA-262: a separator stands between two digits. */
  predicate Separates(s: seq<Byte>, k: nat, radix: Radix) {
    0 < k && DigitIn(s, k - 1, radix) && DigitIn(s, k + 1, radix)
  }

  predicate AllSeparate(s: seq<Byte>, i: nat, e: nat, radix: Radix) {
    forall k {:trigger UnderscoreIn(s, k)} :: i <= k < e && UnderscoreIn(s, k) ==> Separates(s, k, radix)
  }

  predicate NoneIn(s: seq<Byte>, i: nat, e: nat) {
    forall k {:trigger UnderscoreIn(s, k)} :: i <= k < e ==> !UnderscoreIn(s, k)
  }

  // ---- Positional value.

  function AsReal(c: CodePoint): real {
    HexValue(c) as int as real
  }

  function Digit(s: seq<Byte>, k: nat): real {
    AsReal(PeekedAt(s, k))
  }

  function Times(a: real, b: real): real {
    a * b
  }

  function Power(base: real, n: nat): real {
    if n == 0 then 1.0 else Times(base, Power(base, n - 1))
  }

  function DigitCount(s: seq<Byte>, i: nat, e: nat): nat
    decreases e - i
  {
    if i >= e then 0 else (if UnderscoreIn(s, i) then 0 else 1) + DigitCount(s, i + 1, e)
  }

  /** Every digit counts for itself times the base to the number of digits on its right. */
  function Positional(s: seq<Byte>, i: nat, e: nat, base: real): real
    decreases e - i
  {
    if i >= e then
      0.0
    else
      var own := if UnderscoreIn(s, i) then 0.0 else Times(Digit(s, i), Power(base, DigitCount(s, i + 1, e)));
      own + Positional(s, i + 1, e, base)
  }

  lemma {:induction false} CountExtended(s: seq<Byte>, i: nat, e: nat)
    requires i <= e
    ensures DigitCount(s, i, e + 1) == DigitCount(s, i, e) + if UnderscoreIn(s, e) then 0 else 1
    decreases e - i
  {
    hide UnderscoreIn;
    if i < e {
      CountExtended(s, i + 1, e);
    } else {
      assert DigitCount(s, e + 1, e + 1) == 0;
    }
  }

  lemma {:induction false} PositionalExtended(s: seq<Byte>, i: nat, e: nat, base: real)
    requires i <= e
    ensures Positional(s, i, e + 1, base) ==
            if UnderscoreIn(s, e) then Positional(s, i, e, base)
              else Times(Positional(s, i, e, base), base) + Digit(s, e)
    decreases e - i
  {
    hide UnderscoreIn, Digit, Times, DigitCount;
    if i < e {
      PositionalExtended(s, i + 1, e, base);
      CountExtended(s, i + 1, e);
      Distributes(if UnderscoreIn(s, i) then 0.0 else Digit(s, i), Power(base, DigitCount(s, i + 1, e)),
                  Positional(s, i + 1, e, base), base);
    } else {
      Units(s, e, base);
    }
  }

  lemma Units(s: seq<Byte>, e: nat, base: real)
    ensures DigitCount(s, e + 1, e + 1) == 0 && Times(Digit(s, e), Power(base, 0)) == Digit(s, e)
    ensures Times(0.0, base) == 0.0
  {
  }

  lemma Distributes(d: real, p: real, rest: real, base: real)
    ensures Times(Times(d, p) + rest, base) == Times(d, Times(base, p)) + Times(rest, base)
    ensures Times(0.0, p) == 0.0
  {
  }

  // ---- The scanners.

  /**
   * Having gone over the characters from `i` to `j`: every underscore follows a digit and, but for the last character,
   * precedes one; `free` says that a separator may come next.
   */
  ghost predicate SeparatedSoFar(s: seq<Byte>, i: nat, j: nat, radix: Radix, free: bool, has: bool) {
    && i <= j <= |s| && RunEnd(s, i, radix) == RunEnd(s, j, radix)
    && free == !(i < j && UnderscoreIn(s, j - 1))
    && has == !NoneIn(s, i, j)
    && (free && i < j ==> DigitIn(s, j - 1, radix))
    && forall k {:trigger UnderscoreIn(s, k)} :: i <= k < j && UnderscoreIn(s, k) ==>
         0 < k && DigitIn(s, k - 1, radix) && (k + 1 < j ==> DigitIn(s, k + 1, radix))
  }

  lemma UnderscoreIsNoDigit(s: seq<Byte>, k: nat, radix: Radix)
    ensures !(UnderscoreIn(s, k) && DigitIn(s, k, radix))
  {
  }

  lemma DigitPassed(s: seq<Byte>, i: nat, j: nat, radix: Radix, free: bool, has: bool)
    requires SeparatedSoFar(s, i, j, radix, free, has) && DigitIn(s, j, radix)
    ensures SeparatedSoFar(s, i, j + 1, radix, true, has)
  {
    hide PeekedAt, Radix.IsDigit;
    UnderscoreIsNoDigit(s, j, radix);
  }

  /** An underscore is passed when a digit precedes it, and the run is not well separated otherwise. */
  lemma UnderscorePassed(s: seq<Byte>, i: nat, j: nat, radix: Radix, free: bool, has: bool)
    requires SeparatedSoFar(s, i, j, radix, free, has) && UnderscoreIn(s, j)
    ensures !NoneIn(s, i, RunEnd(s, i, radix))
    ensures free && 0 < j && DigitIn(s, j - 1, radix) ==> SeparatedSoFar(s, i, j + 1, radix, false, true)
    ensures !free || j == 0 || !DigitIn(s, j - 1, radix) ==> !AllSeparate(s, i, RunEnd(s, i, radix), radix)
  {
    hide PeekedAt, Radix.IsDigit;
    UnderscoreIsNoDigit(s, j, radix);
    assert !free ==> UnderscoreIn(s, j - 1);
    assert RunEnd(s, j, radix) > j;
  }

  lemma RunPassed(s: seq<Byte>, i: nat, j: nat, radix: Radix, free: bool, has: bool)
    requires SeparatedSoFar(s, i, j, radix, free, has) && !DigitIn(s, j, radix) && !UnderscoreIn(s, j)
    ensures RunEnd(s, i, radix) == j && has == !NoneIn(s, i, j)
    ensures free == AllSeparate(s, i, j, radix)
  {
    hide PeekedAt, Radix.IsDigit;
    assert !free ==> UnderscoreIn(s, j - 1);
  }

  /** The digits after `0x`, `0b` or `0o`. */
  method ScanNumberRadix(it: Iterator, radix: Radix, allowNumericSeparator: bool)
    returns (ok: bool, number: real, hasUnderscore: bool)
    requires it.iter <= |it.sv|
    modifies it
    ensures var s, i, e := it.sv, old(it.iter), RunEnd(it.sv, old(it.iter), radix);
      && ok == (DigitIn(s, i, radix) && AllSeparate(s, i, e, radix) && (allowNumericSeparator || NoneIn(s, i, e)))
      && (ok ==> it.iter == e && number == Positional(s, i, e, radix.Base()) && hasUnderscore == !NoneIn(s, i, e))
  {
    hide PeekedAt, RunEnd, Positional, Radix.IsDigit, Radix.Base, Times, AsReal, SeparatedSoFar, AllSeparate, NoneIn;
    ghost var s, i := it.sv, it.iter;
    number, hasUnderscore := 0.0, false;
    PeekIs(it, radix);
    var cp := it.Peek();
    if !radix.IsDigit(cp) {
      return false, number, hasUnderscore;
    }
    var allowNumericOnNext := true;
    NothingPassed(s, i, radix);
    while true
      invariant i <= it.iter <= |s|
      invariant SeparatedSoFar(s, i, it.iter, radix, allowNumericOnNext, hasUnderscore)
      invariant it.iter == i ==> DigitIn(s, i, radix)
      invariant allowNumericOnNext && i < it.iter ==> DigitIn(s, it.iter - 1, radix)
      invariant number == Positional(s, i, it.iter, radix.Base())
      invariant hasUnderscore ==> allowNumericSeparator
      decreases |s| - it.iter
    {
      PeekIs(it, radix);
      PositionalExtended(s, i, it.iter, radix.Base());
      UnderscoreIsNoDigit(s, it.iter, radix);
      cp := it.Peek();
      if radix.IsDigit(cp) {
        DigitPassed(s, i, it.iter, radix, allowNumericOnNext, hasUnderscore);
        number := Times(number, radix.Base()) + AsReal(cp);
        it.iter := it.iter + 1;
        allowNumericOnNext := true;
      } else if cp == LEX_CHAR_UNDERSCORE {
        UnderscorePassed(s, i, it.iter, radix, allowNumericOnNext, hasUnderscore);
        if !allowNumericSeparator || !allowNumericOnNext {
          return false, number, hasUnderscore;
        }
        hasUnderscore := true;
        it.iter := it.iter + 1;
        allowNumericOnNext := false;
      } else {
        RunPassed(s, i, it.iter, radix, allowNumericOnNext, hasUnderscore);
        if !allowNumericOnNext {
          return false, number, hasUnderscore;
        }
        break;
      }
    }
    ok := true;
  }

  lemma NothingPassed(s: seq<Byte>, i: nat, radix: Radix)
    requires i <= |s|
    ensures SeparatedSoFar(s, i, i, radix, true, false) && Positional(s, i, i, radix.Base()) == 0.0
  {
    hide RunEnd, UnderscoreIn, DigitIn;
  }

  lemma PeekIs(it: Iterator, radix: Radix)
    ensures it.Peek() == PeekedAt(it.sv, it.iter)
    ensures radix.IsDigit(it.Peek()) == DigitIn(it.sv, it.iter, radix)
    ensures (it.Peek() == LEX_CHAR_UNDERSCORE) == UnderscoreIn(it.sv, it.iter)
  {
  }

  // ---- Decimal literals.

  predicate CharIn(s: seq<Byte>, k: nat, c: CodePoint) {
    k < |s| && PeekedAt(s, k) == c
  }

  /** A run of decimal digits; the character before it is a digit or a dot, or the run begins with a digit. */
  method ScanDecimalNumbers(it: Iterator, allowNumericSeparator: bool) returns (ok: bool, hasUnderscore: bool)
    requires 0 < it.iter <= |it.sv|
    requires DigitIn(it.sv, it.iter - 1, Decimal) || CharIn(it.sv, it.iter - 1, LEX_CHAR_DOT) ||
      DigitIn(it.sv, it.iter, Decimal)
    modifies it
    ensures var s, i, e := it.sv, old(it.iter), RunEnd(it.sv, old(it.iter), Decimal);
      && ok == (AllSeparate(s, i, e, Decimal) && (allowNumericSeparator || NoneIn(s, i, e)))
      && (ok ==> it.iter == e && hasUnderscore == !NoneIn(s, i, e))
  {
    hide PeekedAt, RunEnd, Radix.IsDigit, SeparatedSoFar, AllSeparate, NoneIn;
    ghost var s, i := it.sv, it.iter;
    hasUnderscore := false;
    var allowNumericOnNext := true;
    NothingPassed(s, i, Decimal);
    while true
      invariant i <= it.iter <= |s|
      invariant SeparatedSoFar(s, i, it.iter, Decimal, allowNumericOnNext, hasUnderscore)
      invariant allowNumericOnNext && i < it.iter ==> DigitIn(s, it.iter - 1, Decimal)
      invariant hasUnderscore ==> allowNumericSeparator
      decreases |s| - it.iter
    {
      PeekIs(it, Decimal);
      UnderscoreIsNoDigit(s, it.iter, Decimal);
      if Decimal.IsDigit(it.Peek()) {
        DigitPassed(s, i, it.iter, Decimal, allowNumericOnNext, hasUnderscore);
        it.iter := it.iter + 1;
        allowNumericOnNext := true;
      } else if it.Peek() == LEX_CHAR_UNDERSCORE {
        UnderscorePassed(s, i, it.iter, Decimal, allowNumericOnNext, hasUnderscore);
        it.iter := it.iter - 1;
        DotPeeked(it);
        if it.Peek() == LEX_CHAR_DOT || !allowNumericSeparator || !allowNumericOnNext {
          it.iter := it.iter + 1;
          return false, hasUnderscore;
        }
        hasUnderscore := true;
        it.iter := it.iter + 2;
        allowNumericOnNext := false;
      } else {
        RunPassed(s, i, it.iter, Decimal, allowNumericOnNext, hasUnderscore);
        return allowNumericOnNext, hasUnderscore;
      }
    }
  }

  lemma DotPeeked(it: Iterator)
    ensures it.Peek() == PeekedAt(it.sv, it.iter)
    ensures it.iter < |it.sv| ==> ((it.Peek() == LEX_CHAR_DOT) == CharIn(it.sv, it.iter, LEX_CHAR_DOT))
    ensures !(CharIn(it.sv, it.iter, LEX_CHAR_DOT) && DigitIn(it.sv, it.iter, Decimal))
  {
  }

  // ---- The parts of a decimal literal whose characters before `i` (a digit or a dot) are already scanned.

  function MantissaEnd(s: seq<Byte>, i: nat): nat {
    RunEnd(s, i, Decimal)
  }

  predicate HasDot(s: seq<Byte>, i: nat) {
    CharIn(s, MantissaEnd(s, i), LEX_CHAR_DOT)
  }

  function FractionEnd(s: seq<Byte>, i: nat): nat {
    if HasDot(s, i) then RunEnd(s, MantissaEnd(s, i) + 1, Decimal) else MantissaEnd(s, i)
  }

  predicate HasExponent(s: seq<Byte>, i: nat) {
    CharIn(s, FractionEnd(s, i), LEX_CHAR_LOWERCASE_E) || CharIn(s, FractionEnd(s, i), LEX_CHAR_UPPERCASE_E)
  }

  predicate HasSign(s: seq<Byte>, i: nat) {
    CharIn(s, FractionEnd(s, i) + 1, LEX_CHAR_PLUS) || CharIn(s, FractionEnd(s, i) + 1, LEX_CHAR_MINUS)
  }

  function ExponentStart(s: seq<Byte>, i: nat): nat {
    FractionEnd(s, i) + if HasSign(s, i) then 2 else 1
  }

  function LiteralEnd(s: seq<Byte>, i: nat): nat {
    if HasExponent(s, i) then RunEnd(s, ExponentStart(s, i), Decimal) else FractionEnd(s, i)
  }

  predicate IsBigInt(s: seq<Byte>, i: nat) {
    CharIn(s, LiteralEnd(s, i), LEX_CHAR_LOWERCASE_N)
  }

  ghost predicate NothingTruncated(s: seq<Byte>) {
    forall k: nat {:trigger Readable(s, k)} :: Readable(s, k)
  }

  /** Neither an identifier nor a digit follows. */
  predicate EndsCleanly(s: seq<Byte>, k: nat, isIdentifierStart: CodePoint -> bool)
    requires NothingTruncated(s)
  {
    var c := Decode(s, k);
    !isIdentifierStart(c) && !IsDecimalDigit(c)
  }

  /** The literals ScanNumber accepts. */
  predicate WellFormedNumber(s: seq<Byte>, i: nat, allowNumericSeparator: bool, allowBigInt: bool,
                             isIdentifierStart: CodePoint -> bool)
    requires NothingTruncated(s)
  {
    && AllSeparate(s, i, LiteralEnd(s, i), Decimal)
    && (allowNumericSeparator || NoneIn(s, i, LiteralEnd(s, i)))
    && (HasExponent(s, i) ==> DigitIn(s, ExponentStart(s, i), Decimal))
    && (IsBigInt(s, i) ==> allowBigInt && !HasDot(s, i) && !HasExponent(s, i))
    && EndsCleanly(s, LiteralEnd(s, i) + if IsBigInt(s, i) then 1 else 0, isIdentifierStart)
  }

  method CheckNumberLiteralEnd(it: Iterator, isIdentifierStart: CodePoint -> bool) returns (ok: bool, bigInt: bool)
    requires NothingTruncated(it.sv)
    modifies it
    ensures bigInt == CharIn(it.sv, old(it.iter), LEX_CHAR_LOWERCASE_N)
    ensures it.iter == old(it.iter) + if bigInt then 1 else 0
    ensures ok == EndsCleanly(it.sv, it.iter, isIdentifierStart)
  {
    hide Decode, Width, SignExtended;
    bigInt := it.Peek() == LEX_CHAR_LOWERCASE_N;
    PeekedChar(it, LEX_CHAR_LOWERCASE_N);
    if bigInt {
      it.iter := it.iter + 1;
    }
    assert Readable(it.sv, it.iter);
    var nextCp := it.PeekCp().0;
    ok := !(isIdentifierStart(nextCp) || IsDecimalDigit(nextCp));
  }

  lemma PeekedChar(it: Iterator, c: CodePoint)
    requires c < UTF8_1BYTE_LIMIT
    ensures (it.Peek() == c) == CharIn(it.sv, it.iter, c)
  {
  }

  /** The exponent, if there is one; `i` is where the mantissa went on. */
  method ScanExponent(it: Iterator, start: nat, allowNumericSeparator: bool, ghost i: nat)
    returns (ok: bool, present: bool, exponentSignPos: int)
    requires start < it.iter <= |it.sv| && it.iter == FractionEnd(it.sv, i)
    modifies it
    ensures present == HasExponent(it.sv, i)
    ensures var s, x, e := it.sv, ExponentStart(it.sv, i), LiteralEnd(it.sv, i);
      && ok == (present ==>
           DigitIn(s, x, Decimal) && AllSeparate(s, x, e, Decimal) && (allowNumericSeparator || NoneIn(s, x, e)))
      && (ok ==> it.iter == e && exponentSignPos == if HasExponent(s, i) && !HasSign(s, i) then x - start else -1)
  {
    hide PeekedAt, RunEnd, FractionEnd, Radix.IsDigit, AllSeparate, NoneIn, CharIn, DigitIn, IsDecimalDigit,
         SignExtended;
    exponentSignPos := -1;
    PeekedChar(it, LEX_CHAR_LOWERCASE_E);
    PeekedChar(it, LEX_CHAR_UPPERCASE_E);
    present := it.Peek() == LEX_CHAR_LOWERCASE_E || it.Peek() == LEX_CHAR_UPPERCASE_E;
    if !present {
      return true, present, exponentSignPos;
    }
    CharInside(it);
    it.iter := it.iter + 1;
    PeekedChar(it, LEX_CHAR_PLUS);
    PeekedChar(it, LEX_CHAR_MINUS);
    DecimalPeeked(it);
    if it.Peek() == LEX_CHAR_PLUS || it.Peek() == LEX_CHAR_MINUS {
      it.iter := it.iter + 1;
    } else if it.Peek() != LEX_CHAR_UNDERSCORE {
      exponentSignPos := it.iter - start;
    }
    DecimalPeeked(it);
    if !IsDecimalDigit(it.Peek()) {
      return false, present, exponentSignPos;
    }
    var has;
    ok, has := ScanDecimalNumbers(it, allowNumericSeparator);
  }

  /**
   * The rest of a decimal literal after its first digit, or after the dot it begins with. What follows a dot in the
   * literal is always scanned for digits: the test in front of it ends in a constant that is not zero.
   */
  method ScanNumber(it: Iterator, start: nat, allowNumericSeparator: bool, allowBigInt: bool,
                    isIdentifierStart: CodePoint -> bool)
    returns (ok: bool, bigInt: bool, exponentSignPos: int)
    requires start < it.iter <= |it.sv| && NothingTruncated(it.sv)
    requires DigitIn(it.sv, it.iter - 1, Decimal) || CharIn(it.sv, it.iter - 1, LEX_CHAR_DOT)
    modifies it
    ensures var s, i := it.sv, old(it.iter);
      && ok == WellFormedNumber(s, i, allowNumericSeparator, allowBigInt, isIdentifierStart)
      && (ok ==>
            && bigInt == IsBigInt(s, i) && it.iter == LiteralEnd(s, i) + (if bigInt then 1 else 0)
            && exponentSignPos == if HasExponent(s, i) && !HasSign(s, i) then ExponentStart(s, i) - start else -1)
  {
    hide PeekedAt, RunEnd, Radix.IsDigit, AllSeparate, NoneIn, NothingTruncated, CharIn, DigitIn, EndsCleanly,
         SignExtended;
    hide HasExponent, LiteralEnd, ExponentStart, HasSign;
    ghost var s, i := it.sv, it.iter;
    exponentSignPos, bigInt := -1, false;
    RunsJoin(s, i);
    var bigIntAllowed, has, exponent := allowBigInt, false, false;
    ok, has := ScanDecimalNumbers(it, allowNumericSeparator);
    if !ok {
      return;
    }
    PeekedChar(it, LEX_CHAR_DOT);
    if it.Peek() == LEX_CHAR_DOT {
      CharInside(it);
      bigIntAllowed := false;
      it.iter := it.iter + 1;
      ok, has := ScanDecimalNumbers(it, allowNumericSeparator);
      if !ok {
        return;
      }
    }
    ok, exponent, exponentSignPos := ScanExponent(it, start, allowNumericSeparator, i);
    if !ok {
      return;
    }
    if exponent {
      bigIntAllowed := false;
    }
    ok, bigInt := CheckNumberLiteralEnd(it, isIdentifierStart);
    if bigInt && !bigIntAllowed {
      ok := false;
    }
  }

  lemma CharInside(it: Iterator)
    ensures it.Peek() != INVALID_CP ==> it.iter < |it.sv|
  {
  }

  lemma DecimalPeeked(it: Iterator)
    ensures IsDecimalDigit(it.Peek()) == DigitIn(it.sv, it.iter, Decimal)
    ensures DigitIn(it.sv, it.iter, Decimal) ==> it.iter < |it.sv| && it.Peek() != LEX_CHAR_UNDERSCORE
  {
  }

  /** The runs of a literal hold all its underscores. */
  lemma RunsJoin(s: seq<Byte>, i: nat)
    requires i <= |s|
    ensures var m, f, x, e := MantissaEnd(s, i), FractionEnd(s, i), ExponentStart(s, i), LiteralEnd(s, i);
      && i <= m <= f <= e <= |s|
      && (AllSeparate(s, i, e, Decimal) <==>
          && AllSeparate(s, i, m, Decimal)
          && (HasDot(s, i) ==> AllSeparate(s, m + 1, f, Decimal))
          && (HasExponent(s, i) ==> AllSeparate(s, x, e, Decimal)))
      && (NoneIn(s, i, e) <==>
          && NoneIn(s, i, m)
          && (HasDot(s, i) ==> NoneIn(s, m + 1, f))
          && (HasExponent(s, i) ==> NoneIn(s, x, e)))
  {
  }

  // ---- Literals that begin with a zero.

  function Prefix(s: seq<Byte>, i: nat): (r: Radix) {
    if CharIn(s, i, LEX_CHAR_LOWERCASE_X) || CharIn(s, i, LEX_CHAR_UPPERCASE_X) then Hexadecimal
    else if CharIn(s, i, LEX_CHAR_LOWERCASE_B) || CharIn(s, i, LEX_CHAR_UPPERCASE_B) then Binary
    else if CharIn(s, i, LEX_CHAR_LOWERCASE_O) || CharIn(s, i, LEX_CHAR_UPPERCASE_O) then Octal
    else Decimal
  }

  /** The literals accepted after a zero: a separator may stand in a prefixed literal only. */
  predicate WellFormedAfterZero(s: seq<Byte>, i: nat, isIdentifierStart: CodePoint -> bool)
    requires NothingTruncated(s)
  {
    var radix := Prefix(s, i);
    if radix == Decimal then
      !DigitIn(s, i, Decimal) && WellFormedNumber(s, i, false, true, isIdentifierStart)
    else
      var e := RunEnd(s, i + 1, radix);
      && DigitIn(s, i + 1, radix) && AllSeparate(s, i + 1, e, radix)
      && EndsCleanly(s, e + if CharIn(s, e, LEX_CHAR_LOWERCASE_N) then 1 else 0, isIdentifierStart)
  }

  method ScanNumberLeadingZero(it: Iterator, start: nat, isIdentifierStart: CodePoint -> bool)
    returns (ok: bool, bigInt: bool, number: real)
    requires start < it.iter <= |it.sv| && NothingTruncated(it.sv) && CharIn(it.sv, it.iter - 1, LEX_CHAR_0)
    modifies it
    ensures var s, i := it.sv, old(it.iter);
      && ok == WellFormedAfterZero(s, i, isIdentifierStart)
      && (ok && Prefix(s, i) != Decimal ==>
            var e := RunEnd(s, i + 1, Prefix(s, i));
            number == Positional(s, i + 1, e, Prefix(s, i).Base()) && it.iter == e + if bigInt then 1 else 0)
  {
    hide PeekedAt, RunEnd, Radix.IsDigit, AllSeparate, NoneIn, NothingTruncated, CharIn, DigitIn, EndsCleanly,
         SignExtended, WellFormedNumber;
    hide IsDecimalDigit, Positional, Radix.Base;
    number, bigInt := 0.0, false;
    ghost var s, i := it.sv, it.iter;
    PrefixPeeked(it);
    var radix := PrefixOf(it.Peek());
    var has;
    if radix != Decimal {
      CharInside(it);
      it.iter := it.iter + 1;
      ok, number, has := ScanNumberRadix(it, radix, true);
      if !ok {
        return;
      }
      DecimalPeeked(it);
      if radix == Octal && LEX_CHAR_8 <= it.Peek() <= LEX_CHAR_9 {
        DigitFollows(it, isIdentifierStart);
        return false, bigInt, number;
      }
      ok, bigInt := CheckNumberLiteralEnd(it, isIdentifierStart);
      return;
    }
    DecimalPeeked(it);
    if IsDecimalDigit(it.Peek()) {
      return false, bigInt, number;
    }
    var exponentSignPos;
    ZeroIsDigit(s, i - 1);
    ok, bigInt, exponentSignPos := ScanNumber(it, start, it.Peek() == LEX_CHAR_0, true, isIdentifierStart);
  }

  function PrefixOf(c: CodePoint): Radix {
    if c == LEX_CHAR_LOWERCASE_X || c == LEX_CHAR_UPPERCASE_X then Hexadecimal
    else if c == LEX_CHAR_LOWERCASE_B || c == LEX_CHAR_UPPERCASE_B then Binary
    else if c == LEX_CHAR_LOWERCASE_O || c == LEX_CHAR_UPPERCASE_O then Octal
    else Decimal
  }

  lemma PrefixPeeked(it: Iterator)
    ensures PrefixOf(it.Peek()) == Prefix(it.sv, it.iter)
    ensures PrefixOf(it.Peek()) != Decimal ==> it.Peek() != INVALID_CP
    ensures it.Peek() == LEX_CHAR_0 ==> IsDecimalDigit(it.Peek())
  {
  }

  lemma ZeroIsDigit(s: seq<Byte>, k: nat)
    requires CharIn(s, k, LEX_CHAR_0)
    ensures DigitIn(s, k, Decimal)
  {
  }

  lemma DigitFollows(it: Iterator, isIdentifierStart: CodePoint -> bool)
    requires NothingTruncated(it.sv) && LEX_CHAR_8 <= it.Peek() <= LEX_CHAR_9
    ensures !CharIn(it.sv, it.iter, LEX_CHAR_LOWERCASE_N) && !EndsCleanly(it.sv, it.iter, isIdentifierStart)
  {
  }
}
