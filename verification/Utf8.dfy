/**
 The UTF-8 encoder and decoder of js/hybrid-fake-dom.js (section 3 of RFC 3629), with
 the source's bit operations on 32-bit words.  Code units and bytes are words too.
 */
module Utf8 {

  // ---------- UTF-16 text ----------

  predicate IsUtf16(s: seq<bv32>) { forall i :: 0 <= i < |s| ==> s[i] < 0x1_0000 }

  predicate IsHigh(c: bv32) { 0xD800 <= c <= 0xDBFF }
  predicate IsLow(c: bv32) { 0xDC00 <= c <= 0xDFFF }
  predicate IsSurrogate(c: bv32) { !(c < 0xD800 || c >= 0xE000) }

  /** Every surrogate stands in a pair, high before low. */
  predicate WellFormed(s: seq<bv32>) {
    if s == [] then true
    else if !IsSurrogate(s[0]) then WellFormed(s[1..])
    else IsHigh(s[0]) && |s| > 1 && IsLow(s[1]) && WellFormed(s[2..])
  }

  /** The code point of a surrogate pair. */
  function PairValue(high: bv32, low: bv32): bv32 { 0x1_0000 + (((high & 0x3FF) << 10) | (low & 0x3FF)) }

  function CodePoints(s: seq<bv32>): seq<bv32>
    requires WellFormed(s)
  {
    if s == [] then []
    else if !IsSurrogate(s[0]) then [s[0]] + CodePoints(s[1..])
    else [PairValue(s[0], s[1])] + CodePoints(s[2..])
  }

  // ---------- The encoder ----------

  function Bytes2(c: bv32): seq<bv32> { [0xC0 | (c >> 6), 0x80 | (c & 0x3F)] }

  function Bytes3(c: bv32): seq<bv32> { [0xE0 | (c >> 12), 0x80 | ((c >> 6) & 0x3F), 0x80 | (c & 0x3F)] }

  function Bytes4(c: bv32): seq<bv32> {
    [0xF0 | (c >> 18), 0x80 | ((c >> 12) & 0x3F), 0x80 | ((c >> 6) & 0x3F), 0x80 | (c & 0x3F)]
  }

  /** The unit after the first; past the end an undefined unit counts as 0. */
  function Second(s: seq<bv32>): bv32 { if |s| > 1 then s[1] else 0 }

  /** The bytes of a surrogate taken together with the unit after it. */
  function PairBytes(s: seq<bv32>): seq<bv32>
    requires s != []
  {
    Bytes4(PairValue(s[0], Second(s)))
  }

  /** What one turn writes; any surrogate is taken as the high half of a pair. */
  function EncodeHead(s: seq<bv32>): (b: seq<bv32>)
    requires s != []
    ensures b != []
  {
    if s[0] < 0x80 then [s[0]]
    else if s[0] < 0x800 then Bytes2(s[0])
    else if s[0] < 0xD800 || s[0] >= 0xE000 then Bytes3(s[0])
    else PairBytes(s)
  }

  function Taken(s: seq<bv32>): (n: nat)
    requires s != []
    ensures 1 <= n <= |s|
  {
    if IsSurrogate(s[0]) && |s| > 1 then 2 else 1
  }

  function Encoded(s: seq<bv32>): seq<bv32> {
    if s == [] then [] else EncodeHead(s) + Encoded(s[Taken(s)..])
  }

  lemma HeadCases(s: seq<bv32>, c: bv32)
    requires s != [] && s[0] == c
    ensures c < 0x80 ==> EncodeHead(s) == [c] && !IsSurrogate(c)
    ensures !(c < 0x80) && c < 0x800 ==> EncodeHead(s) == Bytes2(c) && !IsSurrogate(c)
    ensures !(c < 0x800) && (c < 0xD800 || c >= 0xE000) ==> EncodeHead(s) == Bytes3(c) && !IsSurrogate(c)
    ensures !(c < 0xD800 || c >= 0xE000) ==> EncodeHead(s) == PairBytes(s) && IsSurrogate(c)
  {
    hide Bytes2, Bytes3, PairBytes;
  }

  /** One turn of the encoder's loop; a surrogate at the very end moves the index past the end. */
  method EncodeTurn(str: seq<bv32>, start: nat) returns (bytes: seq<bv32>, i: nat)
    requires start < |str|
    ensures bytes == EncodeHead(str[start..])
    ensures i == start + if IsSurrogate(str[start]) then 2 else 1
  {
    hide Bytes2, Bytes3, PairBytes, EncodeHead, IsSurrogate;
    i := start;
    var c := str[i];
    HeadCases(str[start..], c);
    if c < 0x80 {
      bytes := [c];
    } else if c < 0x800 {
      bytes := Bytes2(c);
    } else if c < 0xD800 || c >= 0xE000 {
      bytes := Bytes3(c);
    } else {
      i := i + 1;
      bytes := PairBytes(str[start..]);
    }
    i := i + 1;
  }

  /** What is left to encode from position i, which may lie past the end. */
  function EncodedFrom(s: seq<bv32>, i: nat): seq<bv32> { if i <= |s| then Encoded(s[i..]) else [] }

  lemma EncodedStep(s: seq<bv32>, i: nat)
    requires i < |s|
    ensures EncodedFrom(s, i) == EncodeHead(s[i..]) + EncodedFrom(s, i + if IsSurrogate(s[i]) then 2 else 1)
  {
    hide EncodeHead, IsSurrogate;
    var rest := s[i..];
    assert rest[0] == s[i] && rest[Taken(rest)..] == s[i + Taken(rest)..];
    assert Encoded(rest) == EncodeHead(rest) + Encoded(rest[Taken(rest)..]);
    if IsSurrogate(s[i]) && |rest| == 1 {
      assert rest[Taken(rest)..] == [];
    } else {
      assert Taken(rest) == if IsSurrogate(s[i]) then 2 else 1;
    }
  }

  method Encode(str: seq<bv32>) returns (arr: seq<bv32>)
    ensures arr == Encoded(str)
  {
    hide EncodeHead, Encoded, IsSurrogate;
    arr := [];
    var i := 0;
    assert str[0..] == str;
    while i < |str|
      invariant 0 <= i
      invariant arr + EncodedFrom(str, i) == Encoded(str)
      decreases |str| - i
    {
      EncodedStep(str, i);
      var bytes, next := EncodeTurn(str, i);
      assert arr + (bytes + EncodedFrom(str, next)) == arr + bytes + EncodedFrom(str, next);
      arr := arr + bytes;
      i := next;
    }
    if i == |str| { assert str[i..] == []; NothingToEncode(); }
  }

  lemma NothingToEncode()
    ensures Encoded([]) == []
  {
  }

  // ---------- The decoder ----------

  /** Past the end an undefined byte counts as 0 in the masks. */
  function ByteAt(b: seq<bv32>, i: nat): bv32 { if i < |b| then b[i] else 0 }

  /** How many bytes one turn reads, by its first byte. */
  function Width(first: bv32): (n: nat)
    ensures 1 <= n <= 4
  {
    if first < 0x80 then 1 else if first < 0xE0 then 2 else if first < 0xF0 then 3 else 4
  }

  function Join2(a: bv32, b: bv32): bv32 { ((a & 0x1F) << 6) | (b & 0x3F) }
  function Join3(a: bv32, b: bv32, c: bv32): bv32 { ((a & 0x0F) << 12) | ((b & 0x3F) << 6) | (c & 0x3F) }
  function Join4(a: bv32, b: bv32, c: bv32, d: bv32): bv32 {
    ((a & 0x07) << 18) | ((b & 0x3F) << 12) | ((c & 0x3F) << 6) | (d & 0x3F)
  }

  /** String.fromCharCode keeps the low 16 bits. */
  function CharCode(c: bv32): bv32 { c & 0xFFFF }

  /** The surrogate pair of a code point. */
  function Halves(cp: bv32): seq<bv32> {
    var c := cp - 0x1_0000;
    [CharCode(0xD800 + (c >> 10)), CharCode(0xDC00 + (c & 0x3FF))]
  }

  function DecodeHead(b: seq<bv32>): seq<bv32>
    requires b != []
  {
    match Width(b[0])
    case 1 => [CharCode(b[0])]
    case 2 => [CharCode(Join2(b[0], ByteAt(b, 1)))]
    case 3 => [CharCode(Join3(b[0], ByteAt(b, 1), ByteAt(b, 2)))]
    case _ => Halves(Join4(b[0], ByteAt(b, 1), ByteAt(b, 2), ByteAt(b, 3)))
  }

  function Decoded(b: seq<bv32>): seq<bv32>
    decreases |b|
  {
    if b == [] then []
    else DecodeHead(b) + Decoded(if Width(b[0]) <= |b| then b[Width(b[0])..] else [])
  }

  /** One turn of the decoder's loop. */
  method DecodeTurn(bytes: seq<bv32>, start: nat) returns (chars: seq<bv32>, i: nat)
    requires start < |bytes|
    ensures chars == DecodeHead(bytes[start..]) && i == start + Width(bytes[start])
  {
    hide CharCode, Join2, Join3, Join4, Halves;
    i := start;
    var b := bytes[i];
    i := i + 1;
    if b < 0x80 {
      chars := [CharCode(b)];
    } else if b < 0xE0 {
      chars := [CharCode(Join2(b, ByteAt(bytes, i)))];
      i := i + 1;
    } else if b < 0xF0 {
      var b2 := ByteAt(bytes, i);
      i := i + 1;
      chars := [CharCode(Join3(b, b2, ByteAt(bytes, i)))];
      i := i + 1;
    } else {
      var b2, b3 := ByteAt(bytes, i), ByteAt(bytes, i + 1);
      i := i + 2;
      chars := Halves(Join4(b, b2, b3, ByteAt(bytes, i)));
      i := i + 1;
    }
  }

  /** What is left to decode from position i, which may lie past the end. */
  function DecodedFrom(b: seq<bv32>, i: nat): seq<bv32> { if i <= |b| then Decoded(b[i..]) else [] }

  lemma DecodedStep(b: seq<bv32>, i: nat)
    requires i < |b|
    ensures DecodedFrom(b, i) == DecodeHead(b[i..]) + DecodedFrom(b, i + Width(b[i]))
  {
    hide DecodeHead, Width;
    var n := Width(b[i]);
    assert b[i..][0] == b[i];
    if i + n <= |b| {
      assert b[i..][n..] == b[i + n..];
    } else {
      NothingLeft();
    }
  }

  lemma NothingLeft()
    ensures Decoded([]) == []
  {
  }

  method Decode(bytes: seq<bv32>) returns (out: seq<bv32>)
    ensures out == Decoded(bytes)
  {
    hide DecodeHead, Width, Decoded;
    out := [];
    var i := 0;
    assert bytes[0..] == bytes;
    NothingLeft();
    while i < |bytes|
      invariant 0 <= i
      invariant out + DecodedFrom(bytes, i) == Decoded(bytes)
      decreases |bytes| - i
    {
      DecodedStep(bytes, i);
      var chars, next := DecodeTurn(bytes, i);
      assert out + (chars + DecodedFrom(bytes, next)) == out + chars + DecodedFrom(bytes, next);
      out := out + chars;
      i := next;
    }
    if i == |bytes| { assert bytes[i..] == []; }
  }

  /** The low five, four or three bits of a first byte and the low six of the others, in arithmetic. */
  function Sum2(a: bv32, b: bv32): bv32 { a % 32 * 64 + b % 64 }
  function Sum3(a: bv32, b: bv32, c: bv32): bv32 { a % 16 * 4096 + b % 64 * 64 + c % 64 }
  function Sum4(a: bv32, b: bv32, c: bv32, d: bv32): bv32 { a % 8 * 262144 + b % 64 * 4096 + c % 64 * 64 + d % 64 }

  function UpperUnit(cp: bv32): bv32 { (0xD800 + (cp - 0x1_0000) / 1024) % 0x1_0000 }
  function LowerUnit(cp: bv32): bv32 { (0xDC00 + (cp - 0x1_0000) % 1024) % 0x1_0000 }

  /**
   The decoder trusts the first byte of any bytes at all, overlong forms and lone tails included: it takes the low bits of
   as many bytes as that one announces, zeros past the end, and writes two units for every four bytes.
   */
  lemma ReadExactly(b: seq<bv32>)
    requires b != []
    ensures var x, y, z := ByteAt(b, 1), ByteAt(b, 2), ByteAt(b, 3);
      DecodeHead(b) ==
      if b[0] < 0x80 then [b[0]]
      else if b[0] < 0xE0 then [Sum2(b[0], x)]
      else if b[0] < 0xF0 then [Sum3(b[0], x, y)]
      else [UpperUnit(Sum4(b[0], x, y, z)), LowerUnit(Sum4(b[0], x, y, z))]
  {
    var x, y, z := ByteAt(b, 1), ByteAt(b, 2), ByteAt(b, 3);
    ReadLow(b[0]);
    ReadTwo(b[0], x);
    ReadThree(b[0], x, y);
    ReadFour(b[0], x, y, z);
    hide Join2, Join3, Join4, Halves, CharCode, Sum2, Sum3, Sum4, UpperUnit, LowerUnit, ByteAt;
  }

  lemma ReadLow(a: bv32)
    ensures a < 0x80 ==> CharCode(a) == a
  {
  }

  lemma ReadTwo(a: bv32, b: bv32)
    ensures CharCode(Join2(a, b)) == Sum2(a, b)
  {
  }

  lemma ReadThree(a: bv32, b: bv32, c: bv32)
    ensures CharCode(Join3(a, b, c)) == Sum3(a, b, c)
  {
    ThreeSame(a, b, c);
    LowThree(a, b, c);
    hide Join3, Sum3, CharCode;
  }

  lemma ThreeSame(a: bv32, b: bv32, c: bv32)
    ensures Join3(a, b, c) == Sum3(a, b, c)
  {
  }

  lemma LowThree(a: bv32, b: bv32, c: bv32)
    ensures CharCode(Sum3(a, b, c)) == Sum3(a, b, c)
  {
  }

  lemma ReadFour(a: bv32, b: bv32, c: bv32, d: bv32)
    ensures Halves(Join4(a, b, c, d)) == [UpperUnit(Sum4(a, b, c, d)), LowerUnit(Sum4(a, b, c, d))]
  {
    FourSame(a, b, c, d);
    HalvesSame(Sum4(a, b, c, d));
  }

  lemma FourSame(a: bv32, b: bv32, c: bv32, d: bv32)
    ensures Join4(a, b, c, d) == Sum4(a, b, c, d)
  {
  }

  lemma HalvesSame(c: bv32)
    ensures Halves(c) == [UpperUnit(c), LowerUnit(c)]
  {
  }

  // ---------- The bytes are the UTF-8 form ----------

  /** The table of section 3 of RFC 3629: how many octets a code point takes. */
  function Length(cp: bv32): (n: nat)
    ensures 1 <= n <= 4
  {
    if cp < 0x80 then 1 else if cp < 0x800 then 2 else if cp < 0x1_0000 then 3 else 4
  }

  predicate IsOctets(b: seq<bv32>) { forall i :: 0 <= i < |b| ==> b[i] < 0x100 }
  predicate IsTail(b: bv32) { b & 0xC0 == 0x80 }

  /** The marker bits of each octet, and the code point in the others. */
  predicate IsForm(b: seq<bv32>, cp: bv32) {
    && |b| == Length(cp) && IsOctets(b)
    && match |b|
       case 1 => b[0] & 0x80 == 0 && b[0] == cp
       case 2 => b[0] & 0xE0 == 0xC0 && IsTail(b[1]) && Join2(b[0], b[1]) == cp
       case 3 => b[0] & 0xF0 == 0xE0 && IsTail(b[1]) && IsTail(b[2]) && Join3(b[0], b[1], b[2]) == cp
       case _ => b[0] & 0xF8 == 0xF0 && IsTail(b[1]) && IsTail(b[2]) && IsTail(b[3]) && Join4(b[0], b[1], b[2], b[3]) == cp
  }

  predicate IsUtf8(b: seq<bv32>, cps: seq<bv32>) {
    if cps == [] then b == []
    else Length(cps[0]) <= |b| && IsForm(b[..Length(cps[0])], cps[0]) && IsUtf8(b[Length(cps[0])..], cps[1..])
  }

  lemma Form1(c: bv32)
    requires c < 0x80
    ensures IsForm([c], c)
  {
  }

  lemma Form2(c: bv32)
    requires 0x80 <= c < 0x800
    ensures IsForm(Bytes2(c), c) && |Bytes2(c)| == 2
  {
  }

  lemma Form3(c: bv32)
    requires 0x800 <= c < 0x1_0000
    ensures IsForm(Bytes3(c), c) && |Bytes3(c)| == 3
  {
  }

  lemma Form4(c: bv32)
    requires 0x1_0000 <= c < 0x11_0000
    ensures IsForm(Bytes4(c), c) && |Bytes4(c)| == 4
  {
  }

  lemma PairRange(high: bv32, low: bv32)
    ensures 0x1_0000 <= PairValue(high, low) < 0x11_0000
  {
  }

  lemma FirstCodePoint(s: seq<bv32>)
    requires WellFormed(s) && s != []
    ensures CodePoints(s)[0] == if IsSurrogate(s[0]) then PairValue(s[0], s[1]) else s[0]
    ensures CodePoints(s)[1..] == CodePoints(s[Taken(s)..])
    ensures IsSurrogate(s[0]) ==> |s| > 1
  {
    hide PairValue;
  }

  lemma HeadForm(s: seq<bv32>)
    requires WellFormed(s) && s != [] && s[0] < 0x1_0000
    ensures IsForm(EncodeHead(s), CodePoints(s)[0])
  {
    hide Bytes2, Bytes3, Bytes4, PairValue, CodePoints, IsForm, WellFormed;
    FirstCodePoint(s);
    if IsSurrogate(s[0]) {
      PairRange(s[0], s[1]);
      Form4(PairValue(s[0], s[1]));
    } else if s[0] < 0x80 {
      Form1(s[0]);
    } else if s[0] < 0x800 {
      Form2(s[0]);
    } else {
      Form3(s[0]);
    }
  }

  lemma FormLength(b: seq<bv32>, cp: bv32)
    requires IsForm(b, cp)
    ensures |b| == Length(cp)
  {
  }

  /** For every well-formed text the bytes are the UTF-8 form of its code points, one after the other. */
  lemma {:induction false} EncodedIsUtf8(s: seq<bv32>)
    requires WellFormed(s) && IsUtf16(s)
    ensures IsUtf8(Encoded(s), CodePoints(s))
    decreases |s|
  {
    if s != [] {
      hide IsForm, EncodeHead, CodePoints, Length, WellFormed;
      var cps, n := CodePoints(s), Taken(s);
      FirstCodePoint(s);
      HeadForm(s);
      FormLength(EncodeHead(s), cps[0]);
      RestWellFormed(s);
      EncodedIsUtf8(s[n..]);
      assert Encoded(s)[..Length(cps[0])] == EncodeHead(s) && Encoded(s)[Length(cps[0])..] == Encoded(s[n..]);
    } else {
      assert CodePoints(s) == [];
    }
  }

  lemma RestWellFormed(s: seq<bv32>)
    requires WellFormed(s) && s != []
    ensures WellFormed(s[Taken(s)..]) && CodePoints(s) != []
  {
  }

  // ---------- The round trip ----------

  /** What the decoder makes of the bytes of one turn. */
  function Replaced(s: seq<bv32>): seq<bv32>
    requires s != []
  {
    if IsSurrogate(s[0]) then Halves(PairValue(s[0], Second(s))) else [CharCode(s[0])]
  }

  lemma DecodeForm(b: seq<bv32>, cp: bv32)
    requires IsForm(b, cp)
    ensures b != [] && Width(b[0]) == |b|
    ensures DecodeHead(b) == if |b| == 4 then Halves(cp) else [CharCode(cp)]
  {
    hide Join2, Join3, Join4, Halves, CharCode, IsTail;
    Markers(b[0]);
  }

  /** The marker bits of a first octet decide how many bytes the decoder reads. */
  lemma Markers(b: bv32)
    requires b < 0x100
    ensures b & 0x80 == 0 ==> Width(b) == 1
    ensures b & 0xE0 == 0xC0 ==> Width(b) == 2
    ensures b & 0xF0 == 0xE0 ==> Width(b) == 3
    ensures b & 0xF8 == 0xF0 ==> Width(b) == 4
  {
  }

  lemma DecodeOwnHead(s: seq<bv32>)
    requires s != [] && s[0] < 0x1_0000
    ensures Width(EncodeHead(s)[0]) == |EncodeHead(s)| && DecodeHead(EncodeHead(s)) == Replaced(s)
  {
    hide Bytes2, Bytes3, Bytes4, PairValue, IsForm, DecodeHead, Halves, CharCode, Width;
    if IsSurrogate(s[0]) {
      PairRange(s[0], Second(s));
      Form4(PairValue(s[0], Second(s)));
      DecodeForm(EncodeHead(s), PairValue(s[0], Second(s)));
    } else if s[0] < 0x80 {
      Form1(s[0]);
      DecodeForm(EncodeHead(s), s[0]);
    } else if s[0] < 0x800 {
      Form2(s[0]);
      DecodeForm(EncodeHead(s), s[0]);
    } else {
      Form3(s[0]);
      DecodeForm(EncodeHead(s), s[0]);
    }
  }

  /** The head of a longer text decodes as it does alone. */
  lemma DecodePrefix(a: seq<bv32>, rest: seq<bv32>)
    requires a != [] && Width(a[0]) == |a|
    ensures Decoded(a + rest) == DecodeHead(a) + Decoded(rest)
  {
    hide Width, CharCode, Join2, Join3, Join4, Halves;
    var b := a + rest;
    assert b[0] == a[0] && b[|a|..] == rest;
  }

  lemma DecodeOneTurn(s: seq<bv32>)
    requires s != [] && s[0] < 0x1_0000
    ensures Decoded(Encoded(s)) == Replaced(s) + Decoded(Encoded(s[Taken(s)..]))
  {
    hide EncodeHead, DecodeHead, Replaced, Taken, Width;
    DecodeOwnHead(s);
    DecodePrefix(EncodeHead(s), Encoded(s[Taken(s)..]));
  }

  function HighHalf(c: bv32): bv32 { 0xD800 | (c & 0x3FF) }
  function LowHalf(c: bv32): bv32 { 0xDC00 | (c & 0x3FF) }

  lemma PairHalves(high: bv32, low: bv32)
    ensures Halves(PairValue(high, low)) == [HighHalf(high), LowHalf(low)]
  {
  }

  lemma MaskHigh(c: bv32)
    requires IsSurrogate(c)
    ensures HighHalf(c) == c <==> IsHigh(c)
  {
  }

  lemma MaskLow(c: bv32)
    requires c < 0x1_0000
    ensures LowHalf(c) == c <==> IsLow(c)
  {
  }

  lemma WholeCharCode(c: bv32)
    requires c < 0x1_0000
    ensures CharCode(c) == c
  {
  }

  predicate ProperHead(s: seq<bv32>)
    requires s != []
  {
    !IsSurrogate(s[0]) || (|s| > 1 && IsHigh(s[0]) && IsLow(s[1]))
  }

  /** A turn gives its characters back exactly if they are no surrogate or a proper pair. */
  lemma TurnExact(s: seq<bv32>)
    requires s != [] && IsUtf16(s)
    ensures Replaced(s) == s[..Taken(s)] <==> ProperHead(s)
    ensures |Replaced(s)| == Taken(s) || (|Replaced(s)| == 2 && |s| == 1)
  {
    hide PairValue, Halves, CharCode, HighHalf, LowHalf, IsSurrogate, IsHigh, IsLow;
    WholeCharCode(s[0]);
    PairHalves(s[0], Second(s));
    if IsSurrogate(s[0]) {
      MaskHigh(s[0]);
      if |s| > 1 {
        MaskLow(s[1]);
        assert s[..2] == [s[0], s[1]];
      }
    }
  }

  lemma WellFormedTurn(s: seq<bv32>)
    requires s != []
    ensures WellFormed(s) <==> ProperHead(s) && WellFormed(s[Taken(s)..])
  {
  }

  /** Decoding the encoding of a text gives the text back exactly if every surrogate in it stands in a pair. */
  lemma {:induction false} RoundTripExactly(s: seq<bv32>)
    requires IsUtf16(s)
    ensures Decoded(Encoded(s)) == s <==> WellFormed(s)
    decreases |s|
  {
    if s == [] {
      NothingLeft();
    } else {
      hide Encoded, Decoded, Replaced, WellFormed, ProperHead, Taken;
      var n := Taken(s);
      DecodeOneTurn(s);
      TurnExact(s);
      WellFormedTurn(s);
      RoundTripExactly(s[n..]);
      Compare(Replaced(s), Decoded(Encoded(s[n..])), s, n);
    }
  }

  lemma Compare(head: seq<bv32>, tail: seq<bv32>, s: seq<bv32>, n: nat)
    requires n <= |s| && (|head| == n || |head| > |s|)
    ensures head + tail == s <==> head == s[..n] && tail == s[n..]
  {
    assert s == s[..n] + s[n..];
    if |head| == n {
      assert (head + tail)[..n] == head && (head + tail)[n..] == tail;
    } else {
      assert |head + tail| > |s|;
    }
  }
}
