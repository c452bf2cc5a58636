/** Modified UTF-8, the form in which strings go into the bytecode file. */
module Mutf8 {
  import opened Utf8

  const SURROGATE_HIGH_MIN: bv32 := 0xD800
  const SURROGATE_HIGH_MAX: bv32 := 0xDC00
  const SURROGATE_LOW_MAX: bv32 := 0xE000
  const SURROGATE_LOW_MARKER: bv32 := 0x3ff
  const CELESTIAL_OFFSET: bv32 := UTF8_3BYTE_LIMIT

  function HighSurrogate(cp: CodePoint): bv32 {
    ((cp - CELESTIAL_OFFSET) >> 10) | SURROGATE_HIGH_MIN
  }

  function LowSurrogate(cp: CodePoint): bv32 {
    (cp & SURROGATE_LOW_MARKER) | SURROGATE_HIGH_MAX
  }

  lemma SurrogatesAreSmaller(cu: bv32)
    requires cu >= UTF8_3BYTE_LIMIT
    ensures HighSurrogate(cu) < cu && LowSurrogate(cu) < cu
  {
  }

  function UnitHead2(cu: bv32): Byte {
    Char((cu >> 6) | UTF8_2BYTE_HEADER)
  }

  function UnitHead3(cu: bv32): Byte {
    Char((cu >> 12) | UTF8_3BYTE_HEADER)
  }

  /** The recursion ends for every 32-bit argument. */
  function Mutf8Encode(cu: bv32): seq<Byte>
    decreases cu
  {
    if cu == 0 then
      [Char(UTF8_2BYTE_HEADER), Char(UTF8_CONT_HEADER)]
    else if cu < UTF8_1BYTE_LIMIT then
      [Char(cu)]
    else if cu < UTF8_2BYTE_LIMIT then
      [UnitHead2(cu), Continuation(cu)]
    else if cu < UTF8_3BYTE_LIMIT then
      [UnitHead3(cu), Continuation(cu >> 6), Continuation(cu)]
    else
      SurrogatesAreSmaller(cu);
      Mutf8Encode(HighSurrogate(cu)) + Mutf8Encode(LowSurrogate(cu))
  }

  // ---- What it has to mean.

  predicate IsSurrogate(u: bv32) {
    SURROGATE_HIGH_MIN <= u < SURROGATE_LOW_MAX
  }

  /** The UTF-16 code units of a code point (section 3.9 of the Unicode Standard). */
  function Units(cp: CodePoint): seq<bv32> {
    if cp < 0x10000 then [cp] else [StandardHigh(cp), StandardLow(cp)]
  }

  function StandardHigh(cp: CodePoint): bv32 {
    0xD800 + (cp - 0x10000) / 0x400
  }

  function StandardLow(cp: CodePoint): bv32 {
    0xDC00 + (cp - 0x10000) % 0x400
  }

  function UnitsAll(cps: seq<CodePoint>): seq<bv32> {
    if cps == [] then [] else Units(cps[0]) + UnitsAll(cps[1..])
  }

  // Section 4.4.7 of the Java Virtual Machine Specification.

  predicate IsPlain(x: Byte) {
    x < 0x80 && x != 0
  }

  predicate StartsTwo(x: Byte) {
    x & 0xE0 == 0xC0
  }

  predicate StartsThree(x: Byte) {
    x & 0xF0 == 0xE0
  }

  predicate Continues(y: Byte) {
    y & 0xC0 == 0x80
  }

  function UnitOfTwo(x: Byte, y: Byte): bv32 {
    (((x as bv32) & 0x1f) << 6) + ((y as bv32) & 0x3f)
  }

  function UnitOfThree(x: Byte, y: Byte, z: Byte): bv32 {
    (((x as bv32) & 0xf) << 12) + (((y as bv32) & 0x3f) << 6) + ((z as bv32) & 0x3f)
  }

  /** One code unit from the front of `s`, and its length. */
  function ReadUnit(s: seq<Byte>): (r: (bv32, nat))
    ensures r.1 <= |s|
  {
    if |s| >= 1 && IsPlain(s[0]) then (s[0] as bv32, 1)
    else if |s| >= 2 && StartsTwo(s[0]) && Continues(s[1]) then (UnitOfTwo(s[0], s[1]), 2)
    else if |s| >= 3 && StartsThree(s[0]) && Continues(s[1]) && Continues(s[2]) then (UnitOfThree(s[0], s[1], s[2]), 3)
    else (0, 0)
  }

  datatype Option<T> = None | Some(value: T)

  /** All code units of `s`, if `s` is well formed. */
  function ReadUnits(s: seq<Byte>): Option<seq<bv32>>
    decreases |s|
  {
    if s == [] then
      Some([])
    else
      var (unit, width) := ReadUnit(s);
      if width == 0 then None
      else match ReadUnits(s[width..])
        case None => None
        case Some(rest) => Some([unit] + rest)
  }

  // ---- One code unit.

  /** What ends up in the bytecode file: no zero byte, and nothing that starts a four-byte form. */
  predicate Clean(s: seq<Byte>) {
    forall b {:trigger b in s} :: b in s ==> IsClean(b)
  }

  predicate IsClean(b: Byte) {
    0 < b < 0xF0
  }

  lemma ZeroUnit()
    ensures var b0, b1 := Char(UTF8_2BYTE_HEADER), Char(UTF8_CONT_HEADER);
      IsClean(b0) && IsClean(b1) && !IsPlain(b0) && StartsTwo(b0) && Continues(b1) && UnitOfTwo(b0, b1) == 0
  {
  }

  lemma OneByteUnit(cu: bv32)
    requires 0 < cu < UTF8_1BYTE_LIMIT
    ensures IsClean(Char(cu)) && IsPlain(Char(cu)) && Char(cu) as bv32 == cu
  {
  }

  lemma TwoByteUnit(cu: bv32)
    requires UTF8_1BYTE_LIMIT <= cu < UTF8_2BYTE_LIMIT
    ensures var b0, b1 := UnitHead2(cu), Continuation(cu);
      IsClean(b0) && IsClean(b1) && !IsPlain(b0) && StartsTwo(b0) && Continues(b1) && UnitOfTwo(b0, b1) == cu
  {
  }

  lemma ThreeByteUnit(cu: bv32)
    requires UTF8_2BYTE_LIMIT <= cu < UTF8_3BYTE_LIMIT
    ensures var b0, b1, b2 := UnitHead3(cu), Continuation(cu >> 6), Continuation(cu);
      && IsClean(b0) && IsClean(b1) && IsClean(b2) && !IsPlain(b0) && !StartsTwo(b0) && StartsThree(b0) &&
           Continues(b1) && Continues(b2)
      && UnitOfThree(b0, b1, b2) == cu
  {
  }

  lemma UnitReadBack(cu: bv32, rest: seq<Byte>)
    requires cu < UTF8_3BYTE_LIMIT
    ensures var e := Mutf8Encode(cu); e != [] && Clean(e) && ReadUnit(e + rest) == (cu, |e|)
  {
    hide Char, Continuation, UnitHead2, UnitHead3, IsPlain, StartsTwo, StartsThree, Continues, UnitOfTwo, UnitOfThree,
         IsClean;
    if cu == 0 {
      ZeroUnit();
    } else if cu < UTF8_1BYTE_LIMIT {
      OneByteUnit(cu);
    } else if cu < UTF8_2BYTE_LIMIT {
      TwoByteUnit(cu);
    } else {
      ThreeByteUnit(cu);
    }
  }

  lemma HighBits(d: bv32)
    requires d <= 0xFFFFF
    ensures (d >> 10) | 0xD800 == 0xD800 + d / 0x400 < 0x10000
  {
    assert d >> 10 == d / 0x400;
    assert d >> 10 <= 0x3FF;
  }

  lemma LowBits(cp: bv32)
    requires 0x10000 <= cp
    ensures (cp & 0x3ff) | 0xDC00 == 0xDC00 + (cp - 0x10000) % 0x400 < 0x10000
  {
    assert (cp - 0x10000) % 0x400 == cp & 0x3ff;
  }

  lemma HighIsStandard(cp: CodePoint)
    requires 0x10000 <= cp <= CODE_POINT_MAX
    ensures StandardHigh(cp) == HighSurrogate(cp) < 0x10000
  {
    HighBits(cp - 0x10000);
  }

  lemma LowIsStandard(cp: CodePoint)
    requires 0x10000 <= cp
    ensures StandardLow(cp) == LowSurrogate(cp) < 0x10000
  {
    assert StandardLow(cp) == 0xDC00 + (cp - 0x10000) % 0x400;
    assert LowSurrogate(cp) == (cp & 0x3ff) | 0xDC00;
    hide StandardLow, LowSurrogate;
    LowBits(cp);
  }

  lemma UnitInFront(cu: bv32, rest: seq<Byte>)
    requires cu < UTF8_3BYTE_LIMIT && ReadUnits(rest).Some?
    ensures Clean(Mutf8Encode(cu)) && ReadUnits(Mutf8Encode(cu) + rest) == Some([cu] + ReadUnits(rest).value)
  {
    hide Mutf8Encode, ReadUnit, IsClean;
    UnitReadBack(cu, rest);
    assert (Mutf8Encode(cu) + rest)[|Mutf8Encode(cu)|..] == rest;
  }

  lemma PairEncoding(cp: CodePoint)
    requires 0x10000 <= cp <= CODE_POINT_MAX
    ensures Mutf8Encode(cp) == Mutf8Encode(StandardHigh(cp)) + Mutf8Encode(StandardLow(cp))
    ensures StandardHigh(cp) < 0x10000 && StandardLow(cp) < 0x10000
  {
    hide StandardHigh, StandardLow, HighSurrogate, LowSurrogate, Char, Continuation;
    HighIsStandard(cp);
    LowIsStandard(cp);
  }

  /** The bytes of a code point decode to its code units. */
  lemma CodePointReadBack(cp: CodePoint, rest: seq<Byte>)
    requires cp <= CODE_POINT_MAX && ReadUnits(rest).Some?
    ensures Clean(Mutf8Encode(cp)) && ReadUnits(Mutf8Encode(cp) + rest) == Some(Units(cp) + ReadUnits(rest).value)
  {
    hide Mutf8Encode, ReadUnits, StandardHigh, StandardLow, IsClean;
    if cp < UTF8_3BYTE_LIMIT {
      UnitInFront(cp, rest);
    } else {
      PairEncoding(cp);
      PairInFront(StandardHigh(cp), StandardLow(cp), rest);
    }
  }

  lemma PairInFront(high: bv32, low: bv32, rest: seq<Byte>)
    requires high < UTF8_3BYTE_LIMIT && low < UTF8_3BYTE_LIMIT && ReadUnits(rest).Some?
    ensures var e := Mutf8Encode(high) + Mutf8Encode(low);
      Clean(e) && ReadUnits(e + rest) == Some([high, low] + ReadUnits(rest).value)
  {
    UnitInFront(low, rest);
    UnitInFront(high, Mutf8Encode(low) + rest);
    hide *;
    BothClean(Mutf8Encode(high), Mutf8Encode(low));
    InTurn(Mutf8Encode(high), Mutf8Encode(low), rest);
    InTurn([high], [low], ReadUnits(rest).value);
    assert [high] + [low] == [high, low];
  }

  lemma BothClean(s: seq<Byte>, t: seq<Byte>)
    requires Clean(s) && Clean(t)
    ensures Clean(s + t)
  {
    hide IsClean;
  }

  lemma InTurn<T>(s: seq<T>, t: seq<T>, rest: seq<T>)
    ensures s + t + rest == s + (t + rest)
  {
  }

  function Mutf8All(cps: seq<CodePoint>): seq<Byte> {
    if cps == [] then [] else Mutf8Encode(cps[0]) + Mutf8All(cps[1..])
  }

  /** Modified UTF-8 has no zero byte and no byte from 0xF0 on, and decodes to the UTF-16 form of the text. */
  lemma {:induction false} TextReadBack(cps: seq<CodePoint>)
    requires AreCodePoints(cps)
    ensures Clean(Mutf8All(cps)) && ReadUnits(Mutf8All(cps)) == Some(UnitsAll(cps))
    decreases |cps|
  {
    hide Mutf8Encode, ReadUnit, Units;
    if cps != [] {
      TextReadBack(cps[1..]);
      CodePointReadBack(cps[0], Mutf8All(cps[1..]));
    }
  }

  // ---- Different texts stay different.

  predicate AreScalars(cps: seq<CodePoint>) {
    forall i {:trigger cps[i]} :: 0 <= i < |cps| ==> cps[i] <= CODE_POINT_MAX && !IsSurrogate(cps[i])
  }

  lemma UnitsTellApart(a: CodePoint, b: CodePoint)
    requires a <= CODE_POINT_MAX && b <= CODE_POINT_MAX && !IsSurrogate(a) && !IsSurrogate(b)
    ensures Units(a)[0] == Units(b)[0] ==> |Units(a)| == |Units(b)|
    ensures Units(a) == Units(b) ==> a == b
  {
    hide IsSurrogate, StandardHigh, StandardLow;
    if a >= 0x10000 && b >= 0x10000 {
      if Units(a) == Units(b) {
        assert Units(a)[0] == Units(b)[0] && Units(a)[1] == Units(b)[1];
        PairTellsApart(a, b);
      }
    } else if a >= 0x10000 {
      PairIsSurrogate(a);
    } else if b >= 0x10000 {
      PairIsSurrogate(b);
    }
  }

  lemma PairIsSurrogate(cp: CodePoint)
    requires 0x10000 <= cp <= CODE_POINT_MAX
    ensures IsSurrogate(StandardHigh(cp))
  {
  }

  lemma PairTellsApart(a: bv32, b: bv32)
    requires StandardHigh(a) == StandardHigh(b) && StandardLow(a) == StandardLow(b)
    ensures a == b
  {
  }

  lemma {:induction false} UnitsAreInjective(a: seq<CodePoint>, b: seq<CodePoint>)
    requires AreScalars(a) && AreScalars(b) && UnitsAll(a) == UnitsAll(b)
    ensures a == b
    decreases |a|
  {
    hide IsSurrogate;
    if a == [] || b == [] {
      assert a == [] ==> b == [];
      assert b == [] ==> a == [];
    } else {
      UnitsTellApart(a[0], b[0]);
      var u, v := Units(a[0]), Units(b[0]);
      assert (u + UnitsAll(a[1..]))[0] == u[0] && (v + UnitsAll(b[1..]))[0] == v[0];
      assert u == (u + UnitsAll(a[1..]))[..|u|] && v == (v + UnitsAll(b[1..]))[..|v|];
      assert UnitsAll(a[1..]) == (u + UnitsAll(a[1..]))[|u|..] && UnitsAll(b[1..]) == (v + UnitsAll(b[1..]))[|v|..];
      UnitsAreInjective(a[1..], b[1..]);
      assert a == [a[0]] + a[1..] && b == [b[0]] + b[1..];
    }
  }

  /** Strings of scalar values with the same Modified UTF-8 form are the same. */
  lemma Mutf8IsInjective(a: seq<CodePoint>, b: seq<CodePoint>)
    requires AreScalars(a) && AreScalars(b) && Mutf8All(a) == Mutf8All(b)
    ensures a == b
  {
    TextReadBack(a);
    TextReadBack(b);
    UnitsAreInjective(a, b);
  }

  // ---- The loop.

  lemma {:induction false} Mutf8Append(cps: seq<CodePoint>, cp: CodePoint)
    ensures Mutf8All(cps + [cp]) == Mutf8All(cps) + Mutf8Encode(cp)
    decreases |cps|
  {
    hide Mutf8Encode;
    if cps == [] {
      assert (cps + [cp])[1..] == [];
    } else {
      Mutf8Append(cps[1..], cp);
      assert (cps + [cp])[1..] == cps[1..] + [cp];
    }
  }

  /** StringView::Mutf8 on the UTF-8 form of `cps`. */
  method ToMutf8(sv: seq<Byte>, ghost cps: seq<CodePoint>) returns (mutf8: seq<Byte>)
    requires sv == EncodeAll(cps) && AreCodePoints(cps)
    ensures mutf8 == Mutf8All(cps)
  {
    hide Mutf8Encode, Utf8Encode, Decode, Width;
    mutf8 := [];
    var iter := new Iterator(sv);
    ghost var i := 0;
    OffsetEnds(cps);
    while iter.HasNext()
      invariant 0 <= i <= |cps| && iter.iter == Offset(cps, i) <= |sv| && iter.sv == sv && fresh(iter)
      invariant mutf8 == Mutf8All(cps[..i])
      decreases |sv| - iter.iter
    {
      DecodeAt(cps, i);
      var cp := iter.Next();
      Mutf8Append(cps[..i], cp);
      assert cps[..i + 1] == cps[..i] + [cp];
      mutf8 := mutf8 + Mutf8Encode(cp);
      i := i + 1;
    }
    EndReached(cps, i);
    assert cps[..i] == cps;
  }
}
