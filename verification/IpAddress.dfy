/**
 The IPv4 and IPv6 host parsers and the host serializer of js/secsdk-lastest.umd.js
 (sections 3.5 and 3.6 of the WHATWG URL Standard, section 4.2 of RFC 5952).
 Text is a sequence of UTF-16 code units.
 */
module IpAddress {
  import opened Wrappers
  import opened Delimited

  const COLON := 0x3A
  const DOT := 0x2E
  const ZERO := 0x30
  const ZEROS: seq<int> := [0, 0, 0, 0, 0, 0, 0, 0]

  // ---------- Numerals ----------

  predicate IsDigit(c: int) { 0x30 <= c <= 0x39 }
  predicate IsHex(c: int) { IsDigit(c) || 0x61 <= c <= 0x66 || 0x41 <= c <= 0x46 }

  /** ECMA-262 parseInt of one digit. */
  function DigitValue(c: int): (d: nat)
    ensures IsHex(c) ==> d < 16
    ensures IsDigit(c) ==> d < 10
  {
    if IsDigit(c) then c - 0x30
    else if 0x61 <= c <= 0x66 then c - 0x61 + 10
    else if 0x41 <= c <= 0x46 then c - 0x41 + 10
    else 0
  }

  /** ECMA-262 parseInt of a text of digits. */
  function Value(s: seq<int>, radix: nat): nat {
    if s == [] then 0 else Value(s[..|s| - 1], radix) * radix + DigitValue(s[|s| - 1])
  }

  function DigitChar(d: nat): (c: int)
    requires d < 16
    ensures IsHex(c) && DigitValue(c) == d
    ensures d < 10 ==> IsDigit(c)
  {
    if d < 10 then 0x30 + d else 0x61 + (d - 10)
  }

  /** The lower-case hexadecimal numeral of a 16-bit value, without leading zeros. */
  function Hex(v: nat): (s: seq<int>)
    ensures s != []
  {
    if v < 16 then [DigitChar(v)] else Hex(v / 16) + [DigitChar(v % 16)]
  }

  function Dec(v: nat): (s: seq<int>)
    ensures s != []
  {
    if v < 10 then [DigitChar(v)] else Dec(v / 10) + [DigitChar(v % 10)]
  }

  lemma {:induction false} HexValue(v: nat)
    ensures Value(Hex(v), 16) == v
    ensures forall j :: 0 <= j < |Hex(v)| ==> IsHex(Hex(v)[j])
    ensures v < 0x10 ==> |Hex(v)| <= 1
    ensures v < 0x100 ==> |Hex(v)| <= 2
    ensures v < 0x1000 ==> |Hex(v)| <= 3
    ensures v < 0x1_0000 ==> |Hex(v)| <= 4
  {
    if v < 16 {
      assert Hex(v)[..0] == [];
    } else {
      HexValue(v / 16);
      assert Hex(v)[..|Hex(v)| - 1] == Hex(v / 16);
    }
  }

  lemma {:induction false} DecValue(v: nat)
    ensures Value(Dec(v), 10) == v
    ensures forall j :: 0 <= j < |Dec(v)| ==> IsDigit(Dec(v)[j])
    ensures |Dec(v)| > 1 ==> Dec(v)[0] != ZERO
    ensures v > 0 ==> Dec(v)[0] != ZERO
  {
    if v < 10 {
      assert Dec(v)[..0] == [];
    } else {
      DecValue(v / 10);
      assert Dec(v)[..|Dec(v)| - 1] == Dec(v / 10);
    }
  }

  // ---------- The IPv6 parser as a function of the text that is left ----------

  /** How many hexadecimal digits, at most `limit`, start the text. */
  function HexRun(s: seq<int>, limit: nat): (n: nat)
    ensures n <= |s| && n <= limit
  {
    if limit == 0 || s == [] || !IsHex(s[0]) then 0 else 1 + HexRun(s[1..], limit - 1)
  }

  /** One dotted-decimal number: no leading zero, at most 255. */
  function Octet(s: seq<int>, acc: Option<nat>): (r: Option<(nat, seq<int>)>)
    requires acc.Some? ==> acc.value <= 255
    ensures r.Some? ==> r.value.0 <= 255 && |r.value.1| <= |s|
    ensures r.Some? && acc.None? ==> |r.value.1| < |s|
    decreases |s|
  {
    if s != [] && IsDigit(s[0]) then
      match acc
      case None => Octet(s[1..], Some(DigitValue(s[0])))
      case Some(v) =>
        if v == 0 || v * 10 + DigitValue(s[0]) > 255 then None
        else Octet(s[1..], Some(v * 10 + DigitValue(s[0])))
    else
      match acc
      case None => None
      case Some(v) => Some((v, s))
  }

  /** The embedded IPv4 tail: four octets into two pieces, then the end of the text. */
  function DottedTail(s: seq<int>, a: seq<int>, p: nat, seen: nat): (r: Option<(seq<int>, nat)>)
    requires |a| == 8 && seen <= 4 && p <= 6 + seen / 2
    ensures r.Some? ==> |r.value.0| == 8 && p <= r.value.1 <= 8
    decreases |s|
  {
    if s == [] then if seen == 4 then Some((a, p)) else None
    else if seen > 0 && !(s[0] == DOT && seen < 4) then None
    else
      match Octet(if seen > 0 then s[1..] else s, None)
      case None => None
      case Some((v, rest)) =>
        DottedTail(rest, a[p := a[p] * 256 + v], if seen + 1 == 2 || seen + 1 == 4 then p + 1 else p, seen + 1)
  }

  /** The pieces after "::" move to the end of the address. */
  function Expand(a: seq<int>, p: nat, c: nat): (r: seq<int>)
    requires |a| == 8 && c <= p <= 8
    ensures |r| == 8
  {
    a[..c] + ZEROS[..8 - p] + a[c..p]
  }

  function Finish(a: seq<int>, p: nat, compress: Option<nat>): (r: Option<seq<int>>)
    requires |a| == 8 && p <= 8 && (compress.Some? ==> compress.value <= p)
    ensures r.Some? ==> |r.value| == 8
  {
    match compress
    case Some(c) => Some(Expand(a, p, c))
    case None => if p == 8 then Some(a) else None
  }

  function ParseRest(s: seq<int>, a: seq<int>, p: nat, compress: Option<nat>): (r: Option<seq<int>>)
    requires |a| == 8 && p <= 8 && (compress.Some? ==> compress.value <= p)
    ensures r.Some? ==> |r.value| == 8
    decreases |s|
  {
    if s == [] then Finish(a, p, compress)
    else if p == 8 then None
    else if s[0] == COLON then
      if compress.Some? then None else ParseRest(s[1..], a, p + 1, Some(p + 1))
    else
      var n := HexRun(s, 4);
      var v, t := Value(s[..n], 16), s[n..];
      if t != [] && t[0] == DOT then
        if n == 0 || p > 6 then None
        else
          match DottedTail(s, a, p, 0)
          case None => None
          case Some((a', p')) => Finish(a', p', compress)
      else if t != [] && t[0] == COLON then
        if |t| == 1 then None else ParseRest(t[1..], a[p := v], p + 1, compress)
      else if t != [] then None
      else Finish(a[p := v], p + 1, compress)
  }

  function ParsedIPv6(s: seq<int>): (r: Option<seq<int>>)
    ensures r.Some? ==> |r.value| == 8
  {
    if s != [] && s[0] == COLON then
      if |s| < 2 || s[1] != COLON then None else ParseRest(s[2..], ZEROS, 1, Some(1))
    else ParseRest(s, ZEROS, 0, None)
  }

  // ---------- Every parsed piece is a 16-bit value ----------

  predicate Pieces(a: seq<int>) { |a| == 8 && forall j :: 0 <= j < 8 ==> 0 <= a[j] < 0x1_0000 }

  lemma {:induction false} HexRunValue(s: seq<int>, n: nat)
    requires n <= |s| && n <= 4 && n <= HexRun(s, 4)
    ensures Value(s[..n], 16) < [1, 0x10, 0x100, 0x1000, 0x1_0000][n]
  {
    if n > 0 {
      HexRunValue(s, n - 1);
      HexRunAll(s, 4, n - 1);
      assert s[..n][..n - 1] == s[..n - 1];
    }
  }

  lemma {:induction false} HexRunAll(s: seq<int>, limit: nat, j: nat)
    requires j < HexRun(s, limit)
    ensures IsHex(s[j])
  {
    if j > 0 { HexRunAll(s[1..], limit - 1, j - 1); }
  }

  /** A piece an octet is about to extend holds at most one octet. */
  predicate TailReady(a: seq<int>, p: nat, seen: nat) {
    Pieces(a) && (seen < 4 && p < 8 ==> a[p] <= if seen % 2 == 1 then 255 else 0)
  }

  lemma {:induction false} DottedTailPieces(s: seq<int>, a: seq<int>, p: nat, seen: nat)
    requires |a| == 8 && seen <= 4 && p <= 6 + seen / 2
    requires TailReady(a, p, seen) && forall j :: p < j < 8 ==> a[j] == 0
    ensures DottedTail(s, a, p, seen).Some? ==> Pieces(DottedTail(s, a, p, seen).value.0)
    decreases |s|
  {
    hide Octet;
    if s != [] && (seen == 0 || (s[0] == DOT && seen < 4)) {
      match Octet(if seen > 0 then s[1..] else s, None)
      case None =>
      case Some((v, rest)) =>
        var b, q := a[p := a[p] * 256 + v], if seen + 1 == 2 || seen + 1 == 4 then p + 1 else p;
        assert Pieces(b);
        assert TailReady(b, q, seen + 1);
        DottedTailPieces(rest, b, q, seen + 1);
    }
  }

  lemma {:induction false} ParseRestPieces(s: seq<int>, a: seq<int>, p: nat, compress: Option<nat>)
    requires p <= 8 && (compress.Some? ==> compress.value <= p)
    requires Pieces(a) && forall j :: p <= j < 8 ==> a[j] == 0
    ensures ParseRest(s, a, p, compress).Some? ==> Pieces(ParseRest(s, a, p, compress).value)
    decreases |s|
  {
    hide DottedTail, Value, HexRun, ParseRest, Expand;
    if s == [] {
      ParseEnd(a, p, compress);
      if p == 8 || compress.Some? { FinishPieces(a, p, compress); }
    } else if p == 8 {
      ParseFull(s, a, compress);
    } else {
      ParseUnfold(s, a, p, compress);
      if s[0] == COLON {
        if compress.None? { ParseRestPieces(s[1..], a, p + 1, Some(p + 1)); }
      } else {
        var n := HexRun(s, 4);
        HexRunValue(s, n);
        var v, t := Value(s[..n], 16), s[n..];
        assert Pieces(a[p := v]);
        if t != [] && t[0] == DOT {
          if n > 0 && p <= 6 && DottedTail(s, a, p, 0).Some? {
            DottedTailPieces(s, a, p, 0);
            FinishPieces(DottedTail(s, a, p, 0).value.0, DottedTail(s, a, p, 0).value.1, compress);
          }
        } else if |t| > 1 && t[0] == COLON {
          ParseRestPieces(t[1..], a[p := v], p + 1, compress);
        } else if t == [] {
          FinishPieces(a[p := v], p + 1, compress);
        }
      }
    }
  }

  lemma FinishPieces(a: seq<int>, p: nat, compress: Option<nat>)
    requires Pieces(a) && p <= 8 && (compress.Some? ==> compress.value <= p)
    ensures Finish(a, p, compress).Some? ==> Pieces(Finish(a, p, compress).value)
  {
  }

  /** On any text at all, a parsed address has eight 16-bit pieces. */
  lemma ParsedIPv6Pieces(s: seq<int>)
    ensures ParsedIPv6(s).Some? ==> Pieces(ParsedIPv6(s).value)
  {
    hide ParseRest;
    if s != [] && s[0] == COLON {
      if |s| >= 2 && s[1] == COLON { ParseRestPieces(s[2..], ZEROS, 1, Some(1)); }
    } else {
      ParseRestPieces(s, ZEROS, 0, None);
    }
  }

  // ---------- The printed form (section 4.2 of RFC 5952) ----------

  /** Numerals joined by ":". */
  function Fields(ps: seq<int>): seq<int>
    requires forall j :: 0 <= j < |ps| ==> 0 <= ps[j]
  {
    if ps == [] then []
    else if |ps| == 1 then Hex(ps[0])
    else Hex(ps[0]) + [COLON] + Fields(ps[1..])
  }

  predicate ZeroRun(h: seq<int>, i: int, len: int) {
    0 <= i && 0 <= len && i + len <= |h| && forall j :: i <= j < i + len ==> h[j] == 0
  }

  /** The run that "::" stands for: at least two zeros, none longer, and the first of that length. */
  ghost predicate LongestRun(h: seq<int>, i: int, len: int) {
    && 2 <= len && ZeroRun(h, i, len)
    && forall i', len' :: ZeroRun(h, i', len') ==> len' <= len && (i' < i ==> len' < len)
  }

  /** The address with the zeros of one run left out. */
  function GapText(h: seq<int>, i: nat, len: nat): seq<int>
    requires i + len <= |h| && forall j :: 0 <= j < |h| ==> 0 <= h[j]
  {
    Fields(h[..i]) + [COLON, COLON] + Fields(h[i + len..])
  }

  /** The one text section 4.2 of RFC 5952 recommends for an address. */
  ghost predicate Recommended(h: seq<int>, text: seq<int>)
    requires Pieces(h)
  {
    if exists i, len :: LongestRun(h, i, len) then
      exists i, len :: LongestRun(h, i, len) && text == GapText(h, i, len)
    else
      (forall i, len :: ZeroRun(h, i, len) ==> len < 2) && text == Fields(h)
  }

  lemma {:induction false} HexRunExact(ds: seq<int>, rest: seq<int>, limit: nat)
    requires |ds| <= limit && forall j :: 0 <= j < |ds| ==> IsHex(ds[j])
    requires rest == [] || !IsHex(rest[0])
    ensures HexRun(ds + rest, limit) == |ds|
  {
    if ds == [] {
      assert ds + rest == rest;
    } else {
      HexRunExact(ds[1..], rest, limit - 1);
      assert (ds + rest)[1..] == ds[1..] + rest;
    }
  }

  lemma ParsePiece(v: nat, rest: seq<int>, a: seq<int>, p: nat, compress: Option<nat>)
    requires v < 0x1_0000 && |a| == 8 && p < 8 && (compress.Some? ==> compress.value <= p)
    requires rest == [] || (rest[0] == COLON && |rest| > 1)
    ensures ParseRest(Hex(v) + rest, a, p, compress)
         == if rest == [] then Finish(a[p := v], p + 1, compress) else ParseRest(rest[1..], a[p := v], p + 1, compress)
  {
    HexValue(v);
    HexRunExact(Hex(v), rest, 4);
    var s := Hex(v) + rest;
    assert s[..|Hex(v)|] == Hex(v) && s[|Hex(v)|..] == rest;
    assert IsHex(s[0]);
  }

  function Place(a: seq<int>, p: nat, ps: seq<int>): seq<int>
    requires p + |ps| <= |a|
  {
    a[..p] + ps + a[p + |ps|..]
  }

  predicate SixteenBit(ps: seq<int>) { forall j :: 0 <= j < |ps| ==> 0 <= ps[j] < 0x1_0000 }

  lemma {:induction false} FieldsNonEmpty(ps: seq<int>)
    requires ps != [] && SixteenBit(ps)
    ensures Fields(ps) != [] && IsHex(Fields(ps)[0])
  {
    HexValue(ps[0]);
  }

  lemma NoFields()
    ensures Fields([]) == []
  {
  }

  lemma ParseEnd(a: seq<int>, p: nat, compress: Option<nat>)
    requires |a| == 8 && p <= 8 && (compress.Some? ==> compress.value <= p)
    ensures ParseRest([], a, p, compress) == Finish(a, p, compress)
  {
  }

  lemma ParseGap(post: seq<int>, a: seq<int>, p: nat)
    requires |a| == 8 && p < 8
    ensures ParseRest([COLON] + post, a, p, None) == ParseRest(post, a, p + 1, Some(p + 1))
  {
    assert ([COLON] + post)[1..] == post;
  }

  lemma {:induction false} ParseFields(ps: seq<int>, a: seq<int>, p: nat, compress: Option<nat>)
    requires |a| == 8 && p + |ps| <= 8 && (compress.Some? ==> compress.value <= p)
    requires SixteenBit(ps)
    ensures ParseRest(Fields(ps), a, p, compress) == Finish(Place(a, p, ps), p + |ps|, compress)
    decreases |ps|
  {
    hide ParseRest, Finish, Hex;
    if ps == [] {
      assert Place(a, p, ps) == a;
      ParseEnd(a, p, compress);
    } else if |ps| == 1 {
      ParsePiece(ps[0], [], a, p, compress);
      assert Hex(ps[0]) + [] == Hex(ps[0]);
      assert Place(a, p, ps) == a[p := ps[0]];
    } else {
      var tail := ps[1..];
      FieldsNonEmpty(tail);
      ParsePiece(ps[0], [COLON] + Fields(tail), a, p, compress);
      assert Hex(ps[0]) + [COLON] + Fields(tail) == Hex(ps[0]) + ([COLON] + Fields(tail));
      assert ([COLON] + Fields(tail))[1..] == Fields(tail);
      ParseFields(tail, a[p := ps[0]], p + 1, compress);
      assert Place(a[p := ps[0]], p + 1, tail) == Place(a, p, ps);
    }
  }

  lemma {:induction false} ParseFieldsThenGap(ps: seq<int>, post: seq<int>, a: seq<int>, p: nat)
    requires |a| == 8 && ps != [] && p + |ps| < 8 && SixteenBit(ps)
    ensures ParseRest(Fields(ps) + [COLON, COLON] + post, a, p, None)
         == ParseRest(post, Place(a, p, ps), p + |ps| + 1, Some(p + |ps| + 1))
    decreases |ps|
  {
    hide ParseRest, Hex;
    var gap := [COLON, COLON] + post;
    assert gap[1..] == [COLON] + post;
    if |ps| == 1 {
      ParsePiece(ps[0], gap, a, p, None);
      ParseGap(post, a[p := ps[0]], p + 1);
      assert Fields(ps) + [COLON, COLON] + post == Hex(ps[0]) + gap;
      assert Place(a, p, ps) == a[p := ps[0]];
    } else {
      var tail := ps[1..];
      var rest := [COLON] + (Fields(tail) + gap);
      ParsePiece(ps[0], rest, a, p, None);
      assert Fields(ps) + [COLON, COLON] + post == Hex(ps[0]) + rest;
      assert rest[1..] == Fields(tail) + [COLON, COLON] + post;
      ParseFieldsThenGap(tail, post, a[p := ps[0]], p + 1);
      assert Place(a[p := ps[0]], p + 1, tail) == Place(a, p, ps);
    }
  }

  /** Leaving out any run of zeros loses nothing. */
  lemma ParseGapText(h: seq<int>, i: nat, len: nat)
    requires Pieces(h) && len > 0 && ZeroRun(h, i, len)
    ensures ParsedIPv6(GapText(h, i, len)) == Some(h)
  {
    hide ParseRest, Fields, Expand;
    var pre, post := h[..i], h[i + len..];
    ParseGapStart(pre, Fields(post));
    ParseFields(post, pre + ZEROS[i..], i + 1, Some(i + 1));
    ExpandPlaced(h, i, len);
  }

  lemma ParseGapStart(pre: seq<int>, rest: seq<int>)
    requires |pre| < 8 && SixteenBit(pre)
    ensures ParsedIPv6(Fields(pre) + [COLON, COLON] + rest)
         == ParseRest(rest, pre + ZEROS[|pre|..], |pre| + 1, Some(|pre| + 1))
  {
    hide ParseRest, Fields;
    var text := Fields(pre) + [COLON, COLON] + rest;
    if pre == [] {
      NoFields();
      assert text[2..] == rest;
      assert pre + ZEROS[|pre|..] == ZEROS;
    } else {
      ParseFieldsThenGap(pre, rest, ZEROS, 0);
      FieldsNonEmpty(pre);
      assert text[0] == Fields(pre)[0];
      assert Place(ZEROS, 0, pre) == pre + ZEROS[|pre|..];
    }
  }

  lemma ExpandPlaced(h: seq<int>, i: nat, len: nat)
    requires |h| == 8 && len > 0 && i + len <= 8 && ZeroRun(h, i, len)
    ensures var post := h[i + len..];
      Expand(Place(h[..i] + ZEROS[i..], i + 1, post), i + 1 + |post|, i + 1) == h
  {
    hide Place, ZeroRun, Expand;
    var pre, post := h[..i], h[i + len..];
    var a, p := pre + ZEROS[i..], i + 1 + |post|;
    PlaceParts(a, i + 1, post);
    FirstZero(pre);
    ExpandParts(Place(a, i + 1, post), p, pre, post);
    ZeroSlice(h, i, len);
    ThreeParts(h, i, len);
    var gap := ZEROS[..8 - p];
    assert 8 - p == len - 1;
    assert pre + [0] + gap + post == pre + ([0] + gap) + post;
  }

  lemma ExpandParts(a: seq<int>, p: nat, pre: seq<int>, post: seq<int>)
    requires |a| == 8 && |pre| + 1 <= p <= 8 && a[..|pre| + 1] == pre + [0] && a[|pre| + 1..p] == post
    ensures Expand(a, p, |pre| + 1) == pre + [0] + ZEROS[..8 - p] + post
  {
  }

  lemma PlaceParts(a: seq<int>, p: nat, ps: seq<int>)
    requires p + |ps| <= |a|
    ensures |Place(a, p, ps)| == |a| && Place(a, p, ps)[..p] == a[..p] && Place(a, p, ps)[p..p + |ps|] == ps
  {
  }

  lemma FirstZero(pre: seq<int>)
    requires |pre| < 8
    ensures (pre + ZEROS[|pre|..])[..|pre| + 1] == pre + [0]
  {
  }

  lemma ThreeParts(h: seq<int>, i: nat, len: nat)
    requires i + len <= |h|
    ensures h == h[..i] + h[i..i + len] + h[i + len..]
  {
  }

  lemma ZeroSlice(h: seq<int>, i: nat, len: nat)
    requires |h| == 8 && len > 0 && ZeroRun(h, i, len)
    ensures h[i..i + len] == [0] + ZEROS[..len - 1]
  {
  }

  lemma ParsePlainText(h: seq<int>)
    requires Pieces(h)
    ensures ParsedIPv6(Fields(h)) == Some(h)
  {
    hide ParseRest, Fields;
    FieldsNonEmpty(h);
    ParseFields(h, ZEROS, 0, None);
    assert Place(ZEROS, 0, h) == h;
  }

  /** Parsing the recommended text of an address gives the address back. */
  lemma IPv6RoundTrip(h: seq<int>, text: seq<int>)
    requires Pieces(h) && Recommended(h, text)
    ensures ParsedIPv6(text) == Some(h)
  {
    if exists i, len :: LongestRun(h, i, len) {
      var i, len :| LongestRun(h, i, len) && text == GapText(h, i, len);
      ParseGapText(h, i, len);
    } else {
      ParsePlainText(h);
    }
  }

  // ---------- The parser as the source runs it ----------

  lemma {:induction false} HexRunSplit(s: seq<int>, limit: nat, n: nat)
    requires n <= |s| && n <= limit && forall j :: 0 <= j < n ==> IsHex(s[j])
    ensures HexRun(s, limit) == n + HexRun(s[n..], limit - n)
  {
    if n == 0 {
      assert s[0..] == s;
    } else {
      HexRunSplit(s[1..], limit - 1, n - 1);
      assert s[1..][n - 1..] == s[n..];
    }
  }

  /** Reads at most four hexadecimal digits. */
  method ReadPiece(input: seq<int>, start: nat) returns (value: nat, pointer: nat)
    requires start <= |input|
    ensures pointer == start + HexRun(input[start..], 4)
    ensures value == Value(input[start..pointer], 16)
  {
    var length: nat := 0;
    value, pointer := 0, start;
    while length < 4 && pointer < |input| && IsHex(input[pointer])
      invariant length <= 4 && pointer == start + length <= |input|
      invariant forall j :: start <= j < pointer ==> IsHex(input[j])
      invariant value == Value(input[start..pointer], 16)
    {
      assert input[start..pointer + 1][..length] == input[start..pointer];
      value := value * 16 + DigitValue(input[pointer]);
      pointer := pointer + 1;
      length := length + 1;
    }
    HexRunSplit(input[start..], 4, length);
  }

  /** Reads one number of the dotted tail; ok is false where the source returns. */
  method ReadOctet(input: seq<int>, start: nat) returns (ok: bool, ipv4Piece: nat, pointer: nat)
    requires start <= |input|
    ensures ok <==> Octet(input[start..], None).Some?
    ensures ok ==> start < pointer <= |input| && Octet(input[start..], None) == Some((ipv4Piece, input[pointer..]))
  {
    ok, ipv4Piece, pointer := true, 0, start;
    var piece: Option<nat> := None;
    if !(pointer < |input| && IsDigit(input[pointer])) { return false, 0, pointer; }
    while pointer < |input| && IsDigit(input[pointer])
      invariant start <= pointer <= |input| && (piece.Some? ==> piece.value <= 255)
      invariant piece.None? <==> pointer == start
      invariant Octet(input[pointer..], piece) == Octet(input[start..], None)
    {
      assert input[pointer..][1..] == input[pointer + 1..];
      var number := DigitValue(input[pointer]);
      if piece.None? {
        piece := Some(number);
      } else if piece.value == 0 {
        return false, 0, pointer;
      } else {
        if piece.value * 10 + number > 255 { return false, 0, pointer; }
        piece := Some(piece.value * 10 + number);
      }
      pointer := pointer + 1;
    }
    ipv4Piece := piece.value;
  }

  /** Reads the embedded IPv4 tail into the address, in place. */
  method ReadDottedTail(input: seq<int>, start: nat, address: array<int>, firstPiece: nat)
    returns (ok: bool, pieceIndex: nat)
    requires start < |input| && address.Length == 8 && firstPiece <= 6
    modifies address
    ensures ok <==> DottedTail(input[start..], old(address[..]), firstPiece, 0).Some?
    ensures ok ==> DottedTail(input[start..], old(address[..]), firstPiece, 0) == Some((address[..], pieceIndex))
    ensures ok ==> firstPiece <= pieceIndex <= 8 && forall j :: pieceIndex <= j < 8 ==> address[j] == old(address[j])
  {
    ok, pieceIndex := true, firstPiece;
    var pointer, numbersSeen := start, 0;
    ghost var goal := DottedTail(input[start..], address[..], firstPiece, 0);
    while pointer < |input|
      invariant start <= pointer <= |input|
      invariant 0 <= numbersSeen <= 4 && pieceIndex == firstPiece + numbersSeen / 2
      invariant DottedTail(input[pointer..], address[..], pieceIndex, numbersSeen) == goal
      invariant forall j :: pieceIndex + numbersSeen % 2 <= j < 8 ==> address[j] == old(address[j])
      decreases |input| - pointer
    {
      ghost var rest := input[pointer..];
      if numbersSeen > 0 {
        if input[pointer] == DOT && numbersSeen < 4 {
          pointer := pointer + 1;
          assert rest[1..] == input[pointer..];
        } else {
          return false, pieceIndex;
        }
      }
      var good, ipv4Piece, after := ReadOctet(input, pointer);
      if !good { return false, pieceIndex; }
      pointer := after;
      ghost var was := address[..];
      address[pieceIndex] := address[pieceIndex] * 256 + ipv4Piece;
      assert address[..] == was[pieceIndex := was[pieceIndex] * 256 + ipv4Piece];
      numbersSeen := numbersSeen + 1;
      if numbersSeen == 2 || numbersSeen == 4 { pieceIndex := pieceIndex + 1; }
    }
    if numbersSeen != 4 { return false, pieceIndex; }
  }

  /** The final loop: swaps the pieces after "::" to the end of the address, in place. */
  method MoveToEnd(address: array<int>, pieces: nat, compress: nat)
    requires address.Length == 8 && 1 <= compress <= pieces <= 8
    requires forall j :: pieces <= j < 8 ==> address[j] == 0
    modifies address
    ensures address[..] == Expand(old(address[..]), pieces, compress)
  {
    var swaps := pieces - compress;
    var pieceIndex := 7;
    while pieceIndex != 0 && swaps > 0
      invariant 0 <= swaps <= pieces - compress && pieceIndex == 7 - (pieces - compress - swaps)
      invariant forall j :: 0 <= j < compress + swaps ==> address[j] == old(address[j])
      invariant forall j :: compress + swaps <= j <= pieceIndex ==> address[j] == 0
      invariant forall j :: pieceIndex < j < 8 ==> address[j] == old(address[j - (8 - pieces)])
      decreases swaps
    {
      var swap := address[pieceIndex];
      address[pieceIndex] := address[compress + swaps - 1];
      pieceIndex := pieceIndex - 1;
      swaps := swaps - 1;
      address[compress + swaps] := swap;
    }
  }

  method ParseIPv6(input: seq<int>) returns (r: Option<seq<int>>)
    ensures r == ParsedIPv6(input)
  {
    hide ParseRest, DottedTail, HexRun, Value, Expand;
    var address := new int[8](_ => 0);
    assert address[..] == ZEROS;
    var pieceIndex: nat, pointer: nat, compress: Option<nat> := 0, 0, None;
    if pointer < |input| && input[pointer] == COLON {
      if !(|input| > 1 && input[1] == COLON) { return None; }
      pointer := pointer + 2;
      pieceIndex := pieceIndex + 1;
      compress := Some(pieceIndex);
    }
    assert input[0..] == input;
    while pointer < |input|
      invariant pointer <= |input| && pieceIndex <= 8
      invariant compress.Some? ==> 1 <= compress.value <= pieceIndex
      invariant forall j :: pieceIndex <= j < 8 ==> address[j] == 0
      invariant ParseRest(input[pointer..], address[..], pieceIndex, compress) == ParsedIPv6(input)
      decreases |input| - pointer
    {
      ghost var rest := input[pointer..];
      if pieceIndex == 8 {
        ParseFull(rest, address[..], compress);
        return None;
      }
      ParseUnfold(rest, address[..], pieceIndex, compress);
      if input[pointer] == COLON {
        if compress.Some? { return None; }
        pointer := pointer + 1;
        assert rest[1..] == input[pointer..];
        pieceIndex := pieceIndex + 1;
        compress := Some(pieceIndex);
        continue;
      }
      var start := pointer;
      var value;
      value, pointer := ReadPiece(input, pointer);
      ghost var n := pointer - start;
      assert rest[..n] == input[start..pointer] && rest[n..] == input[pointer..];
      if pointer < |input| && input[pointer] == DOT {
        if pointer == start { return None; }
        pointer := start;
        if pieceIndex > 6 { return None; }
        var ok, pieces := ReadDottedTail(input, pointer, address, pieceIndex);
        if !ok { return None; }
        pieceIndex := pieces;
        pointer := |input|;
        ParseEnd(address[..], pieceIndex, compress);
        break;
      } else if pointer < |input| && input[pointer] == COLON {
        pointer := pointer + 1;
        if pointer == |input| { return None; }
        assert rest[n..][1..] == input[pointer..];
      } else if pointer < |input| {
        return None;
      } else {
        ParseEnd(address[..][pieceIndex := value], pieceIndex + 1, compress);
      }
      ghost var was := address[..];
      address[pieceIndex] := value;
      assert address[..] == was[pieceIndex := value];
      pieceIndex := pieceIndex + 1;
    }
    assert input[|input|..] == [];
    ParseEnd(address[..], pieceIndex, compress);
    if compress.Some? {
      MoveToEnd(address, pieceIndex, compress.value);
    } else if pieceIndex != 8 {
      return None;
    }
    return Some(address[..]);
  }

  lemma ParseFull(s: seq<int>, a: seq<int>, compress: Option<nat>)
    requires s != [] && |a| == 8 && (compress.Some? ==> compress.value <= 8)
    ensures ParseRest(s, a, 8, compress) == None
  {
  }

  /** One turn of the outer loop, read off the functional form. */
  lemma ParseUnfold(s: seq<int>, a: seq<int>, p: nat, compress: Option<nat>)
    requires s != [] && |a| == 8 && p < 8 && (compress.Some? ==> compress.value <= p)
    ensures s[0] == COLON ==>
      ParseRest(s, a, p, compress) == (if compress.Some? then None else ParseRest(s[1..], a, p + 1, Some(p + 1)))
    ensures s[0] != COLON ==>
      var n := HexRun(s, 4);
      var v, t := Value(s[..n], 16), s[n..];
      && (t != [] && t[0] == DOT ==>
            ParseRest(s, a, p, compress) ==
              (if n == 0 || p > 6 || DottedTail(s, a, p, 0).None? then None
               else Finish(DottedTail(s, a, p, 0).value.0, DottedTail(s, a, p, 0).value.1, compress)))
      && (t != [] && t[0] == COLON ==>
            ParseRest(s, a, p, compress) == (if |t| == 1 then None else ParseRest(t[1..], a[p := v], p + 1, compress)))
      && (t != [] && t[0] != DOT && t[0] != COLON ==> ParseRest(s, a, p, compress) == None)
      && (t == [] ==> ParseRest(s, a, p, compress) == Finish(a[p := v], p + 1, compress))
  {
  }

  // ---------- The serializer ----------

  /** Where the first longest run of at least two zeros starts, if there is one. */
  method FindLongestZeroSequence(ipv6: seq<int>) returns (maxIndex: Option<nat>, ghost maxLength: nat)
    requires |ipv6| == 8
    ensures maxIndex.Some? ==> LongestRun(ipv6, maxIndex.value, maxLength)
    ensures maxIndex.None? ==> forall i, len :: ZeroRun(ipv6, i, len) ==> len < 2
  {
    maxIndex := None;
    var longest: nat, currStart: Option<nat>, currLength: nat := 1, None, 0;
    var index := 0;
    while index < 8
      invariant index <= 8
      invariant CurrentRun(ipv6, index, currStart, currLength)
      invariant BestRun(ipv6, index - currLength, maxIndex, longest)
    {
      if ipv6[index] != 0 {
        RunClosed(ipv6, index, currStart, currLength, maxIndex, longest);
        if currLength > longest {
          maxIndex := currStart;
          longest := currLength;
        }
        currStart := None;
        currLength := 0;
        RunSkips(ipv6, index, maxIndex, longest);
      } else {
        if currStart.None? { currStart := Some(index); }
        currLength := currLength + 1;
      }
      index := index + 1;
    }
    RunClosed(ipv6, 8, currStart, currLength, maxIndex, longest);
    if currLength > longest {
      maxIndex := currStart;
      longest := currLength;
    }
    maxLength := longest;
  }

  /** The zeros immediately before index. */
  ghost predicate CurrentRun(h: seq<int>, index: nat, start: Option<nat>, length: nat) {
    && length <= index <= |h|
    && (start.None? <==> length == 0)
    && (start.Some? ==> start.value == index - length)
    && ZeroRun(h, index - length, length)
    && (index - length > 0 ==> h[index - length - 1] != 0)
  }

  /** The best run among those that end no later than `end`. */
  ghost predicate BestRun(h: seq<int>, end: int, best: Option<nat>, length: nat) {
    && length >= 1
    && (best.None? ==> length == 1)
    && (best.Some? ==> length >= 2 && ZeroRun(h, best.value, length) && best.value + length <= end)
    && forall i, len :: ZeroRun(h, i, len) && i + len <= end ==>
         len <= length && (best.Some? && i < best.value ==> len < length)
  }

  lemma RunClosed(h: seq<int>, index: nat, start: Option<nat>, length: nat, best: Option<nat>, longest: nat)
    requires CurrentRun(h, index, start, length) && BestRun(h, index - length, best, longest)
    ensures length > longest ==> BestRun(h, index, start, length)
    ensures length <= longest ==> BestRun(h, index, best, longest)
  {
  }

  lemma RunSkips(h: seq<int>, index: nat, best: Option<nat>, longest: nat)
    requires index < |h| && h[index] != 0 && BestRun(h, index, best, longest)
    ensures BestRun(h, index + 1, best, longest)
  {
  }

  /** Numerals, each followed by ":". */
  function Colons(ps: seq<int>): seq<int>
    requires SixteenBit(ps)
  {
    if ps == [] then [] else Hex(ps[0]) + [COLON] + Colons(ps[1..])
  }

  lemma {:induction false} FieldsSnoc(ps: seq<int>, v: nat)
    requires SixteenBit(ps) && v < 0x1_0000
    ensures Fields(ps + [v]) == Colons(ps) + Hex(v)
    ensures Colons(ps + [v]) == Colons(ps) + Hex(v) + [COLON]
    decreases |ps|
  {
    hide Hex;
    if ps == [] {
      assert ps + [v] == [v];
      assert [v][1..] == [];
    } else {
      var tail := ps[1..];
      FieldsSnoc(tail, v);
      assert (ps + [v])[1..] == tail + [v];
    }
  }

  /** For a non-empty list the closing ":" of Colons is the first of "::". */
  lemma ColonsFields(ps: seq<int>)
    requires ps != [] && SixteenBit(ps)
    ensures Colons(ps) == Fields(ps) + [COLON]
  {
    FieldsSnoc(ps[..|ps| - 1], ps[|ps| - 1]);
    assert ps[..|ps| - 1] + [ps[|ps| - 1]] == ps;
  }

  /** What the loop has written before position idx, once the run [i, i + len) is behind it. */
  function WrittenAfterGap(h: seq<int>, i: nat, len: nat, idx: nat): seq<int>
    requires Pieces(h) && i + len <= idx <= 8
  {
    Fields(h[..i]) + [COLON, COLON] + (if idx < 8 then Colons(h[i + len..idx]) else Fields(h[i + len..]))
  }

  /** The next numeral, with its ":" unless it is the last piece. */
  method AppendPiece(result: seq<int>, piece: nat, index: nat) returns (r: seq<int>)
    ensures r == result + Hex(piece) + (if index < 7 then [COLON] else [])
  {
    r := result + Hex(piece);
    if index < 7 { r := r + [COLON]; }
  }

  lemma WriteAfterGap(h: seq<int>, i: nat, len: nat, idx: nat)
    requires Pieces(h) && i + len <= idx < 8
    ensures WrittenAfterGap(h, i, len, idx + 1)
         == WrittenAfterGap(h, i, len, idx) + Hex(h[idx]) + (if idx < 7 then [COLON] else [])
  {
    hide Fields, Hex, Colons;
    var e := i + len;
    var head, body := Fields(h[..i]) + [COLON, COLON], Colons(h[e..idx]);
    FieldsSnoc(h[e..idx], h[idx]);
    assert h[e..idx] + [h[idx]] == h[e..idx + 1];
    if idx == 7 {
      assert h[e..8] == h[e..];
      assert head + (body + Hex(h[idx])) == head + body + Hex(h[idx]) + [];
    } else {
      assert head + (body + Hex(h[idx]) + [COLON]) == head + body + Hex(h[idx]) + [COLON];
    }
  }

  method SerializeIPv6(host: seq<int>) returns (result: seq<int>)
    requires Pieces(host)
    ensures Recommended(host, result)
  {
    hide Fields, Hex, LongestRun, Colons, WrittenAfterGap;
    result := [];
    var compress;
    ghost var length;
    compress, length := FindLongestZeroSequence(host);
    if compress.Some? { GapBounds(host, compress.value, length); }
    WriteStart(host, compress, length);
    var ignore0 := false;
    var index := 0;
    while index < 8
      invariant index <= 8
      invariant Written(host, compress, length, index, ignore0, result)
    {
      if ignore0 && host[index] == 0 {
        WriteSkip(host, compress, length, index, result);
        index := index + 1;
        continue;
      }
      if ignore0 {
        WriteGapEnd(host, compress, length, index, result);
        ignore0 := false;
      }
      if compress == Some(index) {
        WriteGap(host, compress, length, index, result);
        result := result + (if index != 0 then [COLON] else [COLON, COLON]);
        ignore0 := true;
      } else {
        WritePiece(host, compress, length, index, result);
        result := AppendPiece(result, host[index], index);
      }
      index := index + 1;
    }
    WriteEnd(host, compress, length, ignore0, result);
  }

  lemma GapBounds(h: seq<int>, i: int, len: int)
    requires Pieces(h) && LongestRun(h, i, len)
    ensures 0 <= i && 2 <= len && i + len <= 8 && (forall j :: i <= j < i + len ==> h[j] == 0)
    ensures i + len < 8 ==> h[i + len] != 0
  {
    if i + len < 8 && h[i + len] == 0 { assert ZeroRun(h, i, len + 1); }
  }

  /** What `result` holds before position idx. */
  ghost predicate Written(h: seq<int>, compress: Option<nat>, len: nat, idx: nat, ignore0: bool, result: seq<int>)
    requires Pieces(h) && idx <= 8
  {
    && (compress.Some? ==> LongestRun(h, compress.value, len) && compress.value + len <= 8)
    && (compress.None? ==> !ignore0 && forall i, len :: ZeroRun(h, i, len) ==> len < 2)
    && if compress.Some? && compress.value < idx then
         if ignore0 then idx <= compress.value + len && result == Fields(h[..compress.value]) + [COLON, COLON]
         else compress.value + len <= idx && result == WrittenAfterGap(h, compress.value, len, idx)
       else !ignore0 && result == if idx < 8 then Colons(h[..idx]) else Fields(h)
  }

  lemma WriteStart(h: seq<int>, compress: Option<nat>, len: nat)
    requires Pieces(h)
    requires compress.Some? ==> LongestRun(h, compress.value, len)
    requires compress.None? ==> forall i, len :: ZeroRun(h, i, len) ==> len < 2
    ensures Written(h, compress, len, 0, false, [])
  {
    assert h[..0] == [];
  }

  lemma WriteSkip(h: seq<int>, compress: Option<nat>, len: nat, idx: nat, result: seq<int>)
    requires Pieces(h) && idx < 8 && h[idx] == 0 && Written(h, compress, len, idx, true, result)
    ensures Written(h, compress, len, idx + 1, true, result)
  {
    hide Fields, Colons, WrittenAfterGap, LongestRun;
    GapBounds(h, compress.value, len);
  }

  lemma WriteGapEnd(h: seq<int>, compress: Option<nat>, len: nat, idx: nat, result: seq<int>)
    requires Pieces(h) && idx < 8 && h[idx] != 0 && Written(h, compress, len, idx, true, result)
    ensures Written(h, compress, len, idx, false, result) && compress != Some(idx)
  {
    hide LongestRun, Fields;
    GapBounds(h, compress.value, len);
    assert h[idx..idx] == [];
  }

  lemma WriteGap(h: seq<int>, compress: Option<nat>, len: nat, idx: nat, result: seq<int>)
    requires Pieces(h) && idx < 8 && compress == Some(idx) && Written(h, compress, len, idx, false, result)
    ensures Written(h, compress, len, idx + 1, true, result + (if idx != 0 then [COLON] else [COLON, COLON]))
  {
    hide LongestRun, WrittenAfterGap;
    GapBounds(h, idx, len);
    if idx != 0 {
      ColonsFields(h[..idx]);
      assert Fields(h[..idx]) + [COLON] + [COLON] == Fields(h[..idx]) + [COLON, COLON];
    }
  }

  lemma WritePiece(h: seq<int>, compress: Option<nat>, len: nat, idx: nat, result: seq<int>)
    requires Pieces(h) && idx < 8 && compress != Some(idx) && Written(h, compress, len, idx, false, result)
    ensures Written(h, compress, len, idx + 1, false, result + Hex(h[idx]) + (if idx < 7 then [COLON] else []))
  {
    hide LongestRun, Fields, Hex, WrittenAfterGap;
    if compress.Some? && compress.value < idx {
      WriteAfterGap(h, compress.value, len, idx);
    } else {
      FieldsSnoc(h[..idx], h[idx]);
      assert h[..idx] + [h[idx]] == h[..idx + 1];
      if compress.Some? { GapBounds(h, compress.value, len); }
      if idx == 7 { assert h[..8] == h; }
    }
  }

  lemma WriteEnd(h: seq<int>, compress: Option<nat>, len: nat, ignore0: bool, result: seq<int>)
    requires Pieces(h) && Written(h, compress, len, 8, ignore0, result)
    ensures Recommended(h, result)
  {
    hide Colons;
    if compress.Some? {
      GapBounds(h, compress.value, len);
      assert LongestRun(h, compress.value, len);
      if ignore0 {
        assert h[compress.value + len..] == [];
        assert result == GapText(h, compress.value, len);
      }
    }
  }

  // ---------- IPv4 ----------

  /** What `parseIPv4` returns: its input, null, undefined (no part at all) or a number. */
  datatype IPv4Result = NotIPv4 | Failure | Undefined | Address(value: nat)

  const POW_256: seq<nat> := [1, 0x100, 0x1_0000, 0x100_0000, 0x1_0000_0000]

  predicate IsDigitOf(c: int, radix: nat) {
    if radix == 16 then IsHex(c) else if radix == 10 then IsDigit(c) else 0x30 <= c <= 0x37
  }

  /** The number of one part; None where the source gives its input back. */
  function PartNumber(part: seq<int>): Option<nat> {
    if part == [] then None
    else if |part| > 1 && part[0] == ZERO then
      if part[1] == 0x78 || part[1] == 0x58 then Numeral(part[2..], 16) else Numeral(part[1..], 8)
    else Numeral(part, 10)
  }

  function Numeral(digits: seq<int>, radix: nat): Option<nat> {
    if digits == [] then Some(0)
    else if forall j :: 0 <= j < |digits| ==> IsDigitOf(digits[j], radix) then Some(Value(digits, radix))
    else None
  }

  function Numbers(parts: seq<seq<int>>): (r: Option<seq<nat>>)
    ensures r.Some? ==> |r.value| == |parts|
  {
    if parts == [] then Some([])
    else
      match (Numbers(parts[..|parts| - 1]), PartNumber(parts[|parts| - 1]))
      case (Some(ns), Some(n)) => Some(ns + [n])
      case _ => None
  }

  /** A trailing dot is dropped. */
  function IPv4Parts(input: seq<int>): seq<seq<int>> {
    var parts := Split(input, DOT);
    if parts[|parts| - 1] == [] then parts[..|parts| - 1] else parts
  }

  function Weighted(ns: seq<nat>): nat
    requires |ns| <= 4
  {
    if ns == [] then 0 else Weighted(ns[..|ns| - 1]) + ns[|ns| - 1] * POW_256[4 - |ns|]
  }

  predicate InRange(ns: seq<nat>)
    requires |ns| <= 4
  {
    && (forall j :: 0 <= j < |ns| - 1 ==> ns[j] <= 255)
    && (|ns| > 0 ==> ns[|ns| - 1] < POW_256[5 - |ns|])
  }

  function ParsedIPv4(input: seq<int>): IPv4Result {
    var parts := IPv4Parts(input);
    if |parts| > 4 then NotIPv4
    else
      match Numbers(parts)
      case None => NotIPv4
      case Some(ns) =>
        if !InRange(ns) then Failure
        else if ns == [] then Undefined
        else Address(ns[|ns| - 1] + Weighted(ns[..|ns| - 1]))
  }

  /** A parsed IPv4 address is a 32-bit number, whatever mix of radices and parts wrote it. */
  lemma ParsedIPv4Range(input: seq<int>)
    ensures ParsedIPv4(input).Address? ==> ParsedIPv4(input).value < 0x1_0000_0000
  {
    hide PartNumber, IPv4Parts, Weighted;
    if ParsedIPv4(input).Address? {
      var ns := Numbers(IPv4Parts(input)).value;
      WeightedBound(ns[..|ns| - 1]);
    }
  }

  lemma {:induction false} WeightedBound(ns: seq<nat>)
    requires |ns| < 4 && forall j :: 0 <= j < |ns| ==> ns[j] <= 255
    ensures Weighted(ns) <= 0x1_0000_0000 - POW_256[4 - |ns|]
  {
    if ns != [] { WeightedBound(ns[..|ns| - 1]); }
  }

  method ParseIPv4(input: seq<int>) returns (r: IPv4Result)
    ensures r == ParsedIPv4(input)
  {
    hide PartNumber, Numeral, Weighted;
    var parts := Split(input, DOT);
    if |parts| > 0 && parts[|parts| - 1] == [] { parts := parts[..|parts| - 1]; }
    var partsLength := |parts|;
    if partsLength > 4 { return NotIPv4; }
    var numbers: seq<nat> := [];
    for index := 0 to partsLength
      invariant Numbers(parts[..index]) == Some(numbers)
    {
      assert parts[..index + 1][..index] == parts[..index];
      var number := ReadPart(parts[index]);
      if number.None? {
        NumbersPrefix(parts, index + 1);
        return NotIPv4;
      }
      numbers := numbers + [number.value];
    }
    assert parts[..partsLength] == parts;
    var inRange := CheckNumbers(numbers);
    if !inRange { return Failure; }
    if numbers == [] { return Undefined; }
    var ipv4 := CombineNumbers(numbers);
    return Address(ipv4);
  }

  method CheckNumbers(numbers: seq<nat>) returns (ok: bool)
    requires |numbers| <= 4
    ensures ok <==> InRange(numbers)
  {
    for index := 0 to |numbers|
      invariant forall j :: 0 <= j < index && j < |numbers| - 1 ==> numbers[j] <= 255
      invariant index == |numbers| && index > 0 ==> numbers[index - 1] < POW_256[5 - |numbers|]
    {
      if index == |numbers| - 1 {
        if numbers[index] >= POW_256[5 - |numbers|] { return false; }
      } else if numbers[index] > 255 {
        return false;
      }
    }
    return true;
  }

  method CombineNumbers(numbers: seq<nat>) returns (ipv4: nat)
    requires 0 < |numbers| <= 4
    ensures ipv4 == numbers[|numbers| - 1] + Weighted(numbers[..|numbers| - 1])
  {
    hide Weighted;
    ipv4 := numbers[|numbers| - 1];
    var rest := numbers[..|numbers| - 1];
    NoWeight();
    for index := 0 to |rest|
      invariant ipv4 == numbers[|numbers| - 1] + Weighted(rest[..index])
    {
      WeightedStep(rest, index);
      ipv4 := ipv4 + rest[index] * POW_256[3 - index];
    }
    assert rest[..|rest|] == rest;
  }

  lemma NoWeight()
    ensures Weighted([]) == 0
  {
  }

  lemma WeightedStep(ns: seq<nat>, index: nat)
    requires index < |ns| < 4
    ensures Weighted(ns[..index + 1]) == Weighted(ns[..index]) + ns[index] * POW_256[3 - index]
  {
    assert ns[..index + 1][..index] == ns[..index];
  }

  lemma {:induction false} NumbersPrefix(parts: seq<seq<int>>, n: nat)
    requires n <= |parts| && Numbers(parts[..n]).None?
    ensures Numbers(parts).None?
    decreases |parts|
  {
    if n == |parts| {
      assert parts[..n] == parts;
    } else {
      assert parts[..|parts| - 1][..n] == parts[..n];
      NumbersPrefix(parts[..|parts| - 1], n);
    }
  }

  /** The radix prefix is dropped, then the digits are checked and read. */
  method ReadPart(text: seq<int>) returns (number: Option<nat>)
    ensures number == PartNumber(text)
  {
    var part, radix := text, 10;
    if part == [] { return None; }
    if |part| > 1 && part[0] == ZERO {
      radix := if part[1] == 0x78 || part[1] == 0x58 then 16 else 8;
      part := part[if radix == 8 then 1 else 2..];
    }
    if part == [] { return Some(0); }
    for j := 0 to |part|
      invariant forall i :: 0 <= i < j ==> IsDigitOf(part[i], radix)
    {
      if !IsDigitOf(part[j], radix) { return None; }
    }
    return Some(Value(part, radix));
  }

  /** The four bytes of a number, the highest first. */
  function Bytes(n: nat): seq<nat> { [n / 0x100_0000 % 256, n / 0x1_0000 % 256, n / 0x100 % 256, n % 256] }

  function DottedQuad(n: nat): seq<int> {
    Join([Dec(Bytes(n)[0]), Dec(Bytes(n)[1]), Dec(Bytes(n)[2]), Dec(Bytes(n)[3])], DOT)
  }

  method SerializeIPv4(host: nat) returns (text: seq<int>)
    ensures text == DottedQuad(host)
  {
    hide Dec, Join;
    var result: seq<seq<int>> := [];
    var rest := host;
    for index := 0 to 4
      invariant rest == [host, host / 0x100, host / 0x1_0000, host / 0x100_0000, host / 0x1_0000_0000][index]
      invariant |result| == index
      invariant forall j :: 0 <= j < index ==> result[j] == Dec(Bytes(host)[4 - index + j])
    {
      result := [Dec(rest % 256)] + result;
      rest := rest / 256;
    }
    assert result == [Dec(Bytes(host)[0]), Dec(Bytes(host)[1]), Dec(Bytes(host)[2]), Dec(Bytes(host)[3])];
    text := Join(result, DOT);
  }

  /** Parsing the printed form of any 32-bit number gives the number back. */
  lemma IPv4RoundTrip(n: nat)
    requires n < 0x1_0000_0000
    ensures ParsedIPv4(DottedQuad(n)) == Address(n)
  {
    hide Dec, PartNumber, Weighted;
    var ns := Bytes(n);
    var parts := [Dec(ns[0]), Dec(ns[1]), Dec(ns[2]), Dec(ns[3])];
    forall j | 0 <= j < 4 ensures DOT !in parts[j] && PartNumber(parts[j]) == Some(ns[j]) { DecPart(ns[j]); }
    SplitJoin(parts, DOT);
    assert IPv4Parts(DottedQuad(n)) == parts;
    FourNumbers(parts, ns);
    FourBytes(n);
  }

  lemma DecPart(v: nat)
    ensures DOT !in Dec(v) && PartNumber(Dec(v)) == Some(v)
  {
    DecValue(v);
  }

  lemma FourNumbers(parts: seq<seq<int>>, ns: seq<nat>)
    requires |parts| == |ns| == 4 && forall j :: 0 <= j < 4 ==> PartNumber(parts[j]) == Some(ns[j])
    ensures Numbers(parts) == Some(ns)
  {
    hide PartNumber;
    NumbersUpTo(parts, ns, 4);
    assert parts[..4] == parts && ns[..4] == ns;
  }

  lemma {:induction false} NumbersUpTo(parts: seq<seq<int>>, ns: seq<nat>, n: nat)
    requires n <= |parts| == |ns| && forall j :: 0 <= j < |parts| ==> PartNumber(parts[j]) == Some(ns[j])
    ensures Numbers(parts[..n]) == Some(ns[..n])
  {
    if n == 0 {
      assert parts[..0] == [];
    } else {
      NumbersUpTo(parts, ns, n - 1);
      assert parts[..n][..n - 1] == parts[..n - 1];
      assert ns[..n] == ns[..n - 1] + [ns[n - 1]];
    }
  }

  lemma FourBytes(n: nat)
    requires n < 0x1_0000_0000
    ensures Bytes(n)[3] + Weighted(Bytes(n)[..3]) == n
  {
    hide Weighted;
    var ns := Bytes(n);
    WeightedThree(ns[0], ns[1], ns[2]);
    assert ns[..3] == [ns[0], ns[1], ns[2]];
    ByteSum(n);
  }

  lemma WeightedThree(a: nat, b: nat, c: nat)
    ensures Weighted([a, b, c]) == a * 0x100_0000 + b * 0x1_0000 + c * 0x100
  {
    assert [a, b, c][..2] == [a, b] && [a, b][..1] == [a] && [a][..0] == [];
    assert Weighted([a]) == a * 0x100_0000;
    assert Weighted([a, b]) == a * 0x100_0000 + b * 0x1_0000;
  }

  lemma ByteSum(n: nat)
    requires n < 0x1_0000_0000
    ensures n == n / 0x100_0000 % 256 * 0x100_0000 + n / 0x1_0000 % 256 * 0x1_0000 + n / 0x100 % 256 * 0x100 + n % 256
  {
  }
}
