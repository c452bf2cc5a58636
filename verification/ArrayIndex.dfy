/** Helpers::GetIndex: array indices written in decimal. */
module ArrayIndex {

  newtype Int64 = x: int | -0x8000_0000_0000_0000 <= x < 0x8000_0000_0000_0000

  const INVALID_INDEX: Int64 := 4294967295

  /** The canonical numeral, section 6.1.7 of ECMA-262. */
  function Numeral(n: nat): (s: string)
    ensures |s| > 0
  {
    if n < 10 then [DigitOf(n)] else Numeral(n / 10) + [DigitOf(n % 10)]
  }

  function DigitOf(d: nat): char
    requires d < 10
  {
    '0' + d as char
  }

  predicate IsDigit(c: char) {
    '0' <= c <= '9'
  }

  predicate AreDigits(s: string) {
    forall i :: 0 <= i < |s| ==> IsDigit(s[i])
  }

  function DigitValue(c: char): (d: nat)
    requires IsDigit(c)
    ensures d < 10 && DigitOf(d) == c
  {
    (c - '0') as int
  }

  function Value(s: string): nat
    requires AreDigits(s)
  {
    if s == [] then 0 else 10 * Value(s[..|s| - 1]) + DigitValue(s[|s| - 1])
  }

  predicate IsCanonical(s: string) {
    s != [] && AreDigits(s) && (s[0] == '0' ==> |s| == 1)
  }

  lemma {:induction false} NumeralIsCanonical(n: nat)
    ensures IsCanonical(Numeral(n)) && Value(Numeral(n)) == n && (n > 0 ==> Numeral(n)[0] != '0')
  {
    if n >= 10 {
      NumeralIsCanonical(n / 10);
      assert Numeral(n)[..|Numeral(n)| - 1] == Numeral(n / 10);
    }
  }

  lemma LastDigit(n: nat, d: nat)
    requires d < 10
    ensures (10 * n + d) / 10 == n && (10 * n + d) % 10 == d
  {
  }

  lemma {:induction false} CanonicalIsNumeral(s: string)
    requires IsCanonical(s)
    ensures s == Numeral(Value(s)) && (s[0] != '0' ==> Value(s) > 0)
  {
    var t := s[..|s| - 1];
    if t != [] {
      CanonicalIsNumeral(t);
      LastDigit(Value(t), DigitValue(s[|s| - 1]));
      assert s == t + [s[|s| - 1]];
    } else {
      assert Value(t) == 0;
      assert Value(s) == DigitValue(s[0]);
    }
  }

  lemma {:induction false} PrefixesAreSmaller(s: string, i: nat)
    requires AreDigits(s) && i <= |s|
    ensures Value(s[..i]) <= Value(s)
  {
    if i < |s| {
      PrefixesAreSmaller(s[..|s| - 1], i);
      assert s[..|s| - 1][..i] == s[..i];
    } else {
      assert s[..i] == s;
    }
  }

  /** The accumulator stays within 64 bits on strings of any length. */
  method GetIndex(s: string) returns (index: Int64)
    ensures 0 <= index <= INVALID_INDEX
    ensures index != INVALID_INDEX ==> s == Numeral(index as int)
    ensures forall n: nat {:trigger Numeral(n)} :: n < INVALID_INDEX as int && s == Numeral(n) ==> index as int == n
  {
    forall n: nat | s == Numeral(n)
      ensures IsCanonical(s) && Value(s) == n
    {
      NumeralIsCanonical(n);
    }
    if s == [] || (s[0] == '0' && |s| > 1) {
      return INVALID_INDEX;
    }
    var value: Int64 := 0;
    for i := 0 to |s|
      invariant 0 <= value < INVALID_INDEX
      invariant AreDigits(s[..i]) && value as int == Value(s[..i])
    {
      var c := s[i];
      if !IsDigit(c) {
        return INVALID_INDEX;
      }
      assert s[..i + 1][..i] == s[..i];
      value := value * 10;
      value := value + (c - '0') as Int64;
      if value >= INVALID_INDEX {
        if AreDigits(s) {
          PrefixesAreSmaller(s, i + 1);
        }
        return INVALID_INDEX;
      }
    }
    assert s[..|s|] == s;
    CanonicalIsNumeral(s);
    return value;
  }
}
