/**
 encodeURIComponent and decodeURIComponent by their ECMA-262 meaning (section 19.2.6),
 over UTF-16 text, and the UTF-8 form of a code point (section 3 of RFC 3629).
 */
module Uri {
  import opened Wrappers
  import opened Punycode

  const PERCENT := 0x25
  const URI_ERROR := "URI malformed"

  predicate IsSurrogate(c: int) { 0xD800 <= c <= 0xDFFF }
  predicate IsScalar(c: int) { 0 <= c <= 0x10_FFFF && !IsSurrogate(c) }

  /** No surrogate without its partner. */
  predicate WellFormed(s: seq<int>) { IsUtf16(s) && AllScalar(CodePoints(s)) }

  predicate AllScalar(cps: seq<int>) { forall i :: 0 <= i < |cps| ==> IsScalar(cps[i]) }

  /** Letters, digits and - _ . ! ~ * ' ( ) stay as they are. */
  predicate Unescaped(c: int) {
    0x30 <= c <= 0x39 || 0x41 <= c <= 0x5A || 0x61 <= c <= 0x7A || c in {0x2D, 0x5F, 0x2E, 0x21, 0x7E, 0x2A, 0x27, 0x28, 0x29}
  }

  function HexUpper(d: int): (c: int)
    requires 0 <= d < 16
    ensures 0x30 <= c <= 0x39 || 0x41 <= c <= 0x46
  {
    if d < 10 then 0x30 + d else 0x41 + d - 10
  }

  function HexValue(c: int): (d: Option<int>)
    ensures d.Some? ==> 0 <= d.value < 16
  {
    if 0x30 <= c <= 0x39 then Some(c - 0x30)
    else if 0x61 <= c <= 0x66 then Some(c - 0x61 + 10)
    else if 0x41 <= c <= 0x46 then Some(c - 0x41 + 10)
    else None
  }

  predicate IsOctet(o: int) { 0 <= o < 0x100 }

  /** "%" and two upper-case hexadecimal digits. */
  function Escape(o: int): (s: seq<int>)
    requires IsOctet(o)
    ensures |s| == 3
  {
    [PERCENT, HexUpper(o / 16), HexUpper(o % 16)]
  }

  /** The octet written at the start of the text, if it starts with an escape. */
  function OctetAt(s: seq<int>): (o: Option<int>)
    ensures o.Some? ==> |s| >= 3 && s[0] == PERCENT && IsOctet(o.value)
  {
    if |s| < 3 || s[0] != PERCENT then None
    else
      match (HexValue(s[1]), HexValue(s[2]))
      case (Some(h), Some(l)) => Some(h * 16 + l)
      case _ => None
  }

  lemma OctetAtEscape(o: int, rest: seq<int>)
    requires IsOctet(o)
    ensures OctetAt(Escape(o) + rest) == Some(o) && (Escape(o) + rest)[3..] == rest
  {
  }

  // ---------- UTF-8 ----------

  function Octets(cp: int): (os: seq<int>)
    requires IsScalar(cp)
    ensures 1 <= |os| <= 4 && forall i :: 0 <= i < |os| ==> IsOctet(os[i])
  {
    if cp < 0x80 then [cp]
    else if cp < 0x800 then [0xC0 + cp / 0x40, 0x80 + cp % 0x40]
    else if cp < 0x1_0000 then [0xE0 + cp / 0x1000, 0x80 + cp / 0x40 % 0x40, 0x80 + cp % 0x40]
    else [0xF0 + cp / 0x4_0000, 0x80 + cp / 0x1000 % 0x40, 0x80 + cp / 0x40 % 0x40, 0x80 + cp % 0x40]
  }

  predicate IsTail(o: int) { 0x80 <= o < 0xC0 }

  /** How many octets the first one announces; 0 if it cannot start a sequence. */
  function SequenceLength(first: int): (n: nat)
    ensures n <= 4
  {
    if 0 <= first < 0x80 then 1
    else if 0xC0 <= first < 0xE0 then 2
    else if 0xE0 <= first < 0xF0 then 3
    else if 0xF0 <= first < 0xF8 then 4
    else 0
  }

  /** The bits that the octets of a sequence carry. */
  function Bits(os: seq<int>): int {
    match |os|
    case 1 => os[0]
    case 2 => (os[0] - 0xC0) * 0x40 + os[1] - 0x80
    case 3 => (os[0] - 0xE0) * 0x1000 + (os[1] - 0x80) * 0x40 + os[2] - 0x80
    case 4 => (os[0] - 0xF0) * 0x4_0000 + (os[1] - 0x80) * 0x1000 + (os[2] - 0x80) * 0x40 + os[3] - 0x80
    case _ => 0
  }

  /** The smallest code point that needs this many octets. */
  function Shortest(n: nat): int {
    if n <= 1 then 0 else if n == 2 then 0x80 else if n == 3 then 0x800 else 0x1_0000
  }

  /** The code point of one UTF-8 sequence; None for overlong forms, surrogates and values past 10FFFF. */
  function Scalar(os: seq<int>): (cp: Option<int>)
    ensures cp.Some? ==> IsScalar(cp.value)
  {
    if os == [] || |os| != SequenceLength(os[0]) || exists i :: 1 <= i < |os| && !IsTail(os[i]) then None
    else if IsScalar(Bits(os)) && Bits(os) >= Shortest(|os|) then Some(Bits(os))
    else None
  }

  lemma BitsOctets(cp: int)
    requires IsScalar(cp)
    ensures Bits(Octets(cp)) == cp
  {
    if cp < 0x800 {
    } else if cp < 0x1_0000 {
      assert cp / 0x40 == cp / 0x1000 * 0x40 + cp / 0x40 % 0x40;
    } else {
      assert cp / 0x1000 == cp / 0x4_0000 * 0x40 + cp / 0x1000 % 0x40;
      assert cp / 0x40 == cp / 0x1000 * 0x40 + cp / 0x40 % 0x40;
    }
  }

  lemma OctetsForm(cp: int)
    requires IsScalar(cp)
    ensures var os := Octets(cp);
      && |os| == SequenceLength(os[0]) && Shortest(|os|) <= cp
      && forall i :: 1 <= i < |os| ==> IsTail(os[i])
  {
  }

  /** The octets of a code point are a UTF-8 sequence for it. */
  lemma ScalarOctets(cp: int)
    requires IsScalar(cp)
    ensures Scalar(Octets(cp)) == Some(cp)
    ensures SequenceLength(Octets(cp)[0]) == |Octets(cp)|
  {
    hide Octets, Bits, IsTail;
    BitsOctets(cp);
    OctetsForm(cp);
  }

  // ---------- encodeURIComponent ----------

  function EscapeAll(os: seq<int>): seq<int>
    requires forall i :: 0 <= i < |os| ==> IsOctet(os[i])
  {
    if os == [] then [] else Escape(os[0]) + EscapeAll(os[1..])
  }

  function EncodeCodePoint(cp: int): seq<int>
    requires IsScalar(cp)
  {
    if Unescaped(cp) then [cp] else EscapeAll(Octets(cp))
  }

  function EncodeCodePoints(cps: seq<int>): seq<int>
    requires AllScalar(cps)
  {
    if cps == [] then [] else EncodeCodePoint(cps[0]) + EncodeCodePoints(cps[1..])
  }

  /** Throws URIError on a lone surrogate. */
  function EncodeURIComponent(s: seq<int>): Result<seq<int>> {
    if WellFormed(s) then Success(EncodeCodePoints(CodePoints(s))) else Throws(URI_ERROR)
  }

  // ---------- decodeURIComponent ----------

  /** The octets of n escapes in a row, if the text starts with them. */
  function EscapedOctets(s: seq<int>, n: nat): (os: Option<seq<int>>)
    ensures os.Some? ==> |os.value| == n && |s| >= 3 * n
  {
    if n == 0 then Some([])
    else
      match OctetAt(s)
      case None => None
      case Some(o) =>
        match EscapedOctets(s[3..], n - 1)
        case None => None
        case Some(os) => Some([o] + os)
  }

  function DecodeURIComponent(s: seq<int>): Option<seq<int>>
    decreases |s|
  {
    if s == [] then Some([])
    else if s[0] != PERCENT then Prepend([s[0]], DecodeURIComponent(s[1..]))
    else
      match OctetAt(s)
      case None => None
      case Some(first) =>
        var n := SequenceLength(first);
        match EscapedOctets(s, n)
        case None => None
        case Some(os) =>
          match Scalar(os)
          case None => None
          case Some(cp) => assert n > 0; Prepend(Utf16([cp]), DecodeURIComponent(s[3 * n..]))
  }

  lemma {:induction false} EscapedOctetsExact(os: seq<int>, rest: seq<int>)
    requires forall i :: 0 <= i < |os| ==> IsOctet(os[i])
    ensures EscapedOctets(EscapeAll(os) + rest, |os|) == Some(os)
    ensures |EscapeAll(os)| == 3 * |os|
  {
    hide OctetAt, Escape;
    if os != [] {
      EscapedOctetsExact(os[1..], rest);
      OctetAtEscape(os[0], EscapeAll(os[1..]) + rest);
      assert EscapeAll(os) + rest == Escape(os[0]) + (EscapeAll(os[1..]) + rest);
      assert [os[0]] + os[1..] == os;
    }
  }

  /** One escaped code point is read back, whatever follows. */
  lemma DecodeEscaped(cp: int, rest: seq<int>)
    requires IsScalar(cp)
    ensures DecodeURIComponent(EscapeAll(Octets(cp)) + rest) == Prepend(Utf16([cp]), DecodeURIComponent(rest))
  {
    hide Scalar, OctetAt, EscapedOctets, Escape, Octets, Prepend;
    var os := Octets(cp);
    var s := EscapeAll(os) + rest;
    ScalarOctets(cp);
    EscapedOctetsExact(os, rest);
    OctetAtEscape(os[0], EscapeAll(os[1..]) + rest);
    assert s == Escape(os[0]) + (EscapeAll(os[1..]) + rest);
    assert s[3 * |os|..] == rest;
    EscapeStarts(os[0]);
  }

  lemma EscapeStarts(o: int)
    requires IsOctet(o)
    ensures Escape(o)[0] == PERCENT
  {
  }

  lemma DecodePlain(c: int, rest: seq<int>)
    requires c != PERCENT
    ensures DecodeURIComponent([c] + rest) == Prepend([c], DecodeURIComponent(rest))
  {
    assert ([c] + rest)[1..] == rest;
  }
}
