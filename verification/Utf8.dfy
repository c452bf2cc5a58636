/** UTF-8 as util::StringView encodes and decodes it. */
module Utf8 {

  type Byte = bv8
  type CodePoint = bv32

  const UTF8_1BYTE_LIMIT: bv32 := 0x80
  const UTF8_2BYTE_LIMIT: bv32 := 0x800
  const UTF8_3BYTE_LIMIT: bv32 := 0x10000
  const UTF8_2BYTE_MASK: bv32 := 0x1F
  const UTF8_3BYTE_MASK: bv32 := 0x0F
  const UTF8_4BYTE_MASK: bv32 := 0x07
  const UTF8_DECODE_4BYTE_MASK: bv32 := 0xf8
  const UTF8_DECODE_4BYTE_LIMIT: bv32 := 0xf4
  const UTF8_2BYTE_HEADER: bv32 := 0xC0
  const UTF8_3BYTE_HEADER: bv32 := 0xE0
  const UTF8_4BYTE_HEADER: bv32 := 0xF0
  const UTF8_CONT_MASK: bv32 := 0x3F
  const UTF8_CONT_HEADER: bv32 := 0x80

  const INVALID_CP: bv32 := 0xFFFF_FFFF
  const CODE_POINT_MAX: bv32 := 0x10FFFF

  /** static_cast<char> */
  function Char(u: bv32): Byte {
    (u & 0xFF) as bv8
  }

  function Continuation(u: bv32): Byte {
    Char((u & UTF8_CONT_MASK) | UTF8_CONT_HEADER)
  }

  function Head2(cu: CodePoint): Byte {
    Char(((cu >> 6) & UTF8_2BYTE_MASK) | UTF8_2BYTE_HEADER)
  }

  function Head3(cu: CodePoint): Byte {
    Char(((cu >> 12) & UTF8_3BYTE_MASK) | UTF8_3BYTE_HEADER)
  }

  function Head4(cu: CodePoint): Byte {
    Char(((cu >> 18) & UTF8_4BYTE_MASK) | UTF8_4BYTE_HEADER)
  }

  function Utf8Encode(cu: CodePoint): (bytes: seq<Byte>)
    ensures 1 <= |bytes| <= 4
  {
    if cu < UTF8_1BYTE_LIMIT then [Char(cu)]
    else if cu < UTF8_2BYTE_LIMIT then [Head2(cu), Continuation(cu)]
    else if cu < UTF8_3BYTE_LIMIT then [Head3(cu), Continuation(cu >> 6), Continuation(cu)]
    else [Head4(cu), Continuation(cu >> 12), Continuation(cu >> 6), Continuation(cu)]
  }

  function EncodeAll(cps: seq<CodePoint>): seq<Byte> {
    if cps == [] then [] else Utf8Encode(cps[0]) + EncodeAll(cps[1..])
  }

  // ---- Decoding.

  predicate Lead1(b: Byte) {
    (b as bv32) < UTF8_1BYTE_LIMIT
  }

  predicate Lead2(b: Byte) {
    (b as bv32) & UTF8_3BYTE_HEADER == UTF8_2BYTE_HEADER
  }

  predicate Lead3(b: Byte) {
    (b as bv32) & UTF8_4BYTE_HEADER == UTF8_3BYTE_HEADER
  }

  predicate Lead4(b: Byte) {
    (b as bv32) & UTF8_DECODE_4BYTE_MASK == UTF8_4BYTE_HEADER && (b as bv32) <= UTF8_DECODE_4BYTE_LIMIT
  }

  function Tail(b: Byte): bv32 {
    (b as bv32) & UTF8_CONT_MASK
  }

  function Join2(b0: Byte, b1: Byte): CodePoint {
    (((b0 as bv32) & UTF8_2BYTE_MASK) << 6) | Tail(b1)
  }

  function Join3(b0: Byte, b1: Byte, b2: Byte): CodePoint {
    (((b0 as bv32) & UTF8_3BYTE_MASK) << 12) | (Tail(b1) << 6) | Tail(b2)
  }

  function Join4(b0: Byte, b1: Byte, b2: Byte, b3: Byte): CodePoint {
    (((b0 as bv32) & UTF8_4BYTE_MASK) << 18) | (Tail(b1) << 12) | (Tail(b2) << 6) | Tail(b3)
  }

  /** How many bytes the iterator moves over, going by the first one. */
  function Width(b: Byte): (n: nat)
    ensures 1 <= n <= 4
  {
    if Lead1(b) then 1 else if Lead2(b) then 2 else if Lead3(b) then 3 else if Lead4(b) then 4 else 1
  }

  /** The bytes the decoder reads are there. */
  predicate Readable(s: seq<Byte>, pos: nat) {
    pos < |s| ==> pos + Width(s[pos]) <= |s|
  }

  function Decode(s: seq<Byte>, pos: nat): CodePoint
    requires Readable(s, pos)
  {
    if pos >= |s| then INVALID_CP
    else if Lead1(s[pos]) then s[pos] as bv32
    else if Lead2(s[pos]) then Join2(s[pos], s[pos + 1])
    else if Lead3(s[pos]) then Join3(s[pos], s[pos + 1], s[pos + 2])
    else if Lead4(s[pos]) then Join4(s[pos], s[pos + 1], s[pos + 2], s[pos + 3])
    else INVALID_CP
  }

  lemma OneByte(cu: CodePoint)
    requires cu < UTF8_1BYTE_LIMIT
    ensures Lead1(Char(cu)) && Char(cu) as bv32 == cu
  {
  }

  lemma TwoBytes(cu: CodePoint)
    requires UTF8_1BYTE_LIMIT <= cu < UTF8_2BYTE_LIMIT
    ensures !Lead1(Head2(cu)) && Lead2(Head2(cu)) && Join2(Head2(cu), Continuation(cu)) == cu
  {
  }

  lemma ThreeBytes(cu: CodePoint)
    requires UTF8_2BYTE_LIMIT <= cu < UTF8_3BYTE_LIMIT
    ensures !Lead1(Head3(cu)) && !Lead2(Head3(cu)) && Lead3(Head3(cu))
    ensures Join3(Head3(cu), Continuation(cu >> 6), Continuation(cu)) == cu
  {
  }

  lemma ContinuationTail(u: bv32)
    ensures Tail(Continuation(u)) == u & UTF8_CONT_MASK
  {
  }

  lemma FourLead(cu: CodePoint)
    requires UTF8_3BYTE_LIMIT <= cu <= CODE_POINT_MAX
    ensures !Lead1(Head4(cu)) && !Lead2(Head4(cu)) && !Lead3(Head4(cu)) && Lead4(Head4(cu))
    ensures (Head4(cu) as bv32) & UTF8_4BYTE_MASK == (cu >> 18) & UTF8_4BYTE_MASK
  {
  }

  lemma FourParts(cu: CodePoint)
    requires cu <= CODE_POINT_MAX
    ensures (((cu >> 18) & 0x07) << 18) | (((cu >> 12) & 0x3F) << 12) | (((cu >> 6) & 0x3F) << 6) | (cu & 0x3F) == cu
  {
  }

  lemma FourBytes(cu: CodePoint)
    requires UTF8_3BYTE_LIMIT <= cu <= CODE_POINT_MAX
    ensures !Lead1(Head4(cu)) && !Lead2(Head4(cu)) && !Lead3(Head4(cu)) && Lead4(Head4(cu))
    ensures Join4(Head4(cu), Continuation(cu >> 12), Continuation(cu >> 6), Continuation(cu)) == cu
  {
    FourLead(cu);
    ContinuationTail(cu >> 12);
    ContinuationTail(cu >> 6);
    ContinuationTail(cu);
    FourParts(cu);
    hide Lead1, Lead2, Lead3, Lead4, Tail, Head4, Continuation, Char;
  }

  /** The bytes of `e` stand in `s` at `pos`. */
  predicate StandsAt(s: seq<Byte>, pos: nat, e: seq<Byte>) {
    pos + |e| <= |s| && forall i {:trigger e[i]} {:trigger s[pos + i]} :: 0 <= i < |e| ==> s[pos + i] == e[i]
  }

  /** One code point is read back, and its width is the number of bytes it was written with. */
  lemma DecodeEncoded(cp: CodePoint, s: seq<Byte>, pos: nat)
    requires cp <= CODE_POINT_MAX && StandsAt(s, pos, Utf8Encode(cp))
    ensures Width(s[pos]) == |Utf8Encode(cp)| && Readable(s, pos) && Decode(s, pos) == cp
  {
    hide Join2, Join3, Join4, Lead1, Lead2, Lead3, Lead4, Char, Head2, Head3, Head4, Continuation;
    var e := Utf8Encode(cp);
    assert s[pos + 0] == e[0];
    if cp < UTF8_1BYTE_LIMIT {
      OneByte(cp);
    } else if cp < UTF8_2BYTE_LIMIT {
      TwoBytes(cp);
      assert s[pos + 1] == e[1];
    } else if cp < UTF8_3BYTE_LIMIT {
      ThreeBytes(cp);
      assert s[pos + 1] == e[1] && s[pos + 2] == e[2];
    } else {
      FourBytes(cp);
      assert s[pos + 1] == e[1] && s[pos + 2] == e[2] && s[pos + 3] == e[3];
    }
  }

  // ---- Sequences of code points.

  predicate AreCodePoints(cps: seq<CodePoint>) {
    forall i {:trigger cps[i]} :: 0 <= i < |cps| ==> cps[i] <= CODE_POINT_MAX
  }

  lemma {:induction false} EncodeConcat(a: seq<CodePoint>, b: seq<CodePoint>)
    ensures EncodeAll(a + b) == EncodeAll(a) + EncodeAll(b)
    decreases |a|
  {
    hide Utf8Encode;
    if a == [] {
      assert a + b == b;
    } else {
      EncodeConcat(a[1..], b);
      assert (a + b)[1..] == a[1..] + b;
    }
  }

  /** Where code point `i` begins. */
  function Offset(cps: seq<CodePoint>, i: nat): nat
    requires i <= |cps|
  {
    |EncodeAll(cps[..i])|
  }

  lemma OffsetsAdvance(cps: seq<CodePoint>, i: nat)
    requires i < |cps|
    ensures Offset(cps, i + 1) == Offset(cps, i) + |Utf8Encode(cps[i])| <= |EncodeAll(cps)|
    ensures StandsAt(EncodeAll(cps), Offset(cps, i), Utf8Encode(cps[i]))
  {
    hide Utf8Encode;
    assert cps[..i + 1] == cps[..i] + [cps[i]] && cps == cps[..i + 1] + cps[i + 1..];
    EncodeConcat(cps[..i], [cps[i]]);
    EncodeConcat(cps[..i + 1], cps[i + 1..]);
    assert [cps[i]][1..] == [];
    assert EncodeAll([cps[i]]) == Utf8Encode(cps[i]) + [];
  }

  lemma OffsetEnds(cps: seq<CodePoint>)
    ensures Offset(cps, 0) == 0 && Offset(cps, |cps|) == |EncodeAll(cps)|
  {
    assert cps[..|cps|] == cps && cps[..0] == [];
  }

  /** In encoded text, what the iterator reads at the start of a code point is that code point. */
  lemma DecodeAt(cps: seq<CodePoint>, i: nat)
    requires i < |cps| && AreCodePoints(cps)
    ensures var s, pos := EncodeAll(cps), Offset(cps, i);
      && pos < |s| && Readable(s, pos) && Decode(s, pos) == cps[i] && pos + Width(s[pos]) == Offset(cps, i + 1) <= |s|
  {
    hide Utf8Encode, Decode, Width;
    OffsetsAdvance(cps, i);
    DecodeEncoded(cps[i], EncodeAll(cps), Offset(cps, i));
  }

  // ---- The iterator.

  class Iterator {
    const sv: seq<Byte>
    var iter: nat

    constructor (sv: seq<Byte>)
      ensures this.sv == sv && iter == 0
    {
      this.sv, this.iter := sv, 0;
    }

    predicate HasNext()
      reads this
    {
      iter < |sv|
    }

    /** A char converted to char32_t keeps its sign. */
    function Peek(): CodePoint
      reads this
    {
      if HasNext() then SignExtended(sv[iter]) else INVALID_CP
    }

    method Next() returns (cp: CodePoint)
      requires Readable(sv, iter)
      modifies this
      ensures cp == Decode(sv, old(iter))
      ensures iter == if old(HasNext()) then old(iter) + Width(sv[old(iter)]) else old(iter)
    {
      hide Join2, Join3, Join4, Lead1, Lead2, Lead3, Lead4;
      if !HasNext() {
        return INVALID_CP;
      }
      var iterNext := iter;
      var cu0 := sv[iterNext];
      iterNext := iterNext + 1;
      if Lead1(cu0) {
        cp := cu0 as bv32;
      } else if Lead2(cu0) {
        cp, iterNext := Join2(cu0, sv[iterNext]), iterNext + 1;
      } else if Lead3(cu0) {
        cp, iterNext := Join3(cu0, sv[iterNext], sv[iterNext + 1]), iterNext + 2;
      } else if Lead4(cu0) {
        cp, iterNext := Join4(cu0, sv[iterNext], sv[iterNext + 1], sv[iterNext + 2]), iterNext + 3;
      } else {
        cp := INVALID_CP;
      }
      iter := iterNext;
    }

    function PeekCp(): (r: (CodePoint, nat))
      requires Readable(sv, iter)
      reads this
    {
      (Decode(sv, iter), if HasNext() then Width(sv[iter]) else 0)
    }

    method SkipCp()
      modifies this
      ensures iter == if old(HasNext()) then old(iter) + Width(sv[old(iter)]) else old(iter)
    {
      hide Lead1, Lead2, Lead3, Lead4;
      if !HasNext() {
        return;
      }
      var cu0 := sv[iter];
      iter := iter + 1;
      if Lead1(cu0) {
        return;
      }
      if Lead2(cu0) {
        iter := iter + 1;
        return;
      }
      if Lead3(cu0) {
        iter := iter + 2;
        return;
      }
      if Lead4(cu0) {
        iter := iter + 3;
      }
    }

    /** Reading on to the end gives the code points back. */
    method ReadAll(ghost cps: seq<CodePoint>) returns (read: seq<CodePoint>)
      requires sv == EncodeAll(cps) && AreCodePoints(cps) && iter == 0
      modifies this
      ensures read == cps && iter == |sv|
    {
      hide Utf8Encode, Decode, Width;
      read := [];
      OffsetEnds(cps);
      while HasNext()
        invariant |read| <= |cps| && read == cps[..|read|] && iter == Offset(cps, |read|)
        invariant iter <= |sv|
        decreases |sv| - iter
      {
        if |read| == |cps| {
          assert cps[..|read|] == cps;
        }
        DecodeAt(cps, |read|);
        var cp := Next();
        read := read + [cp];
      }
      EndReached(cps, |read|);
    }
  }

  function SignExtended(b: Byte): CodePoint {
    if b < 0x80 then b as bv32 else 0xFFFF_FF00 | (b as bv32)
  }

  lemma EndReached(cps: seq<CodePoint>, i: nat)
    requires i <= |cps| && Offset(cps, i) >= |EncodeAll(cps)|
    ensures i == |cps|
  {
    if i < |cps| {
      OffsetsAdvance(cps, i);
    }
  }
}
