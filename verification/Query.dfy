/**
 The query encoder of src/web_defaults.cpp over byte strings, against a decoder written
 from sections 2.1 and 2.3 of RFC 3986.
 */
module Query {
  import opened Wrappers
  import opened Delimited
  import opened Uri

  datatype Param = Param(key: seq<int>, value: seq<int>)

  const AMPERSAND := 0x26
  const EQUALS := 0x3D

  predicate IsBytes(s: seq<int>) { forall i :: 0 <= i < |s| ==> IsOctet(s[i]) }

  predicate AllBytes(params: seq<Param>) {
    forall i :: 0 <= i < |params| ==> IsBytes(params[i].key) && IsBytes(params[i].value)
  }

  /** Letters, digits, "-", "_", "." and "~". */
  predicate Unreserved(c: int) {
    0x41 <= c <= 0x5A || 0x61 <= c <= 0x7A || 0x30 <= c <= 0x39 || c in {0x2D, 0x5F, 0x2E, 0x7E}
  }

  predicate AllUnreserved(s: seq<int>) { forall i :: 0 <= i < |s| ==> Unreserved(s[i]) }

  // ---------- The encoder ----------

  function EncodedByte(c: int): seq<int>
    requires IsOctet(c)
  {
    if Unreserved(c) then [c] else Escape(c)
  }

  function Encoded(s: seq<int>): seq<int>
    requires IsBytes(s)
  {
    if s == [] then [] else EncodedByte(s[0]) + Encoded(s[1..])
  }

  function EncodedPair(p: Param): seq<int>
    requires IsBytes(p.key) && IsBytes(p.value)
  {
    Encoded(p.key) + [EQUALS] + Encoded(p.value)
  }

  function EncodedPairs(params: seq<Param>): (r: seq<seq<int>>)
    requires AllBytes(params)
    ensures |r| == |params|
  {
    if params == [] then [] else [EncodedPair(params[0])] + EncodedPairs(params[1..])
  }

  function EncodedQuery(params: seq<Param>): seq<int>
    requires AllBytes(params)
  {
    Join(EncodedPairs(params), AMPERSAND)
  }

  /** The digits of the table, by the high and the low half of the byte. */
  const HEX: seq<int> := [0x30, 0x31, 0x32, 0x33, 0x34, 0x35, 0x36, 0x37, 0x38, 0x39, 0x41, 0x42, 0x43, 0x44, 0x45, 0x46]

  method AppendByte(out: seq<int>, c: int) returns (r: seq<int>)
    requires IsOctet(c)
    ensures r == out + EncodedByte(c)
  {
    r := out;
    if Unreserved(c) {
      r := r + [c];
    } else {
      r := r + [PERCENT];
      r := r + [HEX[c / 16]];
      r := r + [HEX[c % 16]];
    }
  }

  method AppendEncoded(out: seq<int>, s: seq<int>) returns (r: seq<int>)
    requires IsBytes(s)
    ensures r == out + Encoded(s)
  {
    hide Encoded, EncodedByte;
    r := out;
    assert s[0..] == s;
    for i := 0 to |s|
      invariant r + Encoded(s[i..]) == out + Encoded(s)
    {
      ghost var before := r;
      EncodedStep(s, i);
      r := AppendByte(r, s[i]);
      assert before + (EncodedByte(s[i]) + Encoded(s[i + 1..])) == r + Encoded(s[i + 1..]);
    }
    EncodedStep(s, |s|);
  }

  lemma EncodedStep(s: seq<int>, i: nat)
    requires i <= |s| && IsBytes(s)
    ensures Encoded(s[i..]) == if i == |s| then [] else EncodedByte(s[i]) + Encoded(s[i + 1..])
  {
    if i < |s| { assert s[i..][1..] == s[i + 1..]; }
  }

  method EncodeQuery(params: seq<Param>) returns (out: seq<int>)
    requires AllBytes(params)
    ensures out == EncodedQuery(params)
  {
    hide Encoded, Join;
    out := [];
    var first := true;
    NothingJoined();
    for i := 0 to |params|
      invariant first == (i == 0)
      invariant out == EncodedQuery(params[..i])
    {
      PairsAppend(params[..i], params[i]);
      JoinAppend(EncodedPairs(params[..i]), AMPERSAND, EncodedPair(params[i]));
      assert params[..i + 1] == params[..i] + [params[i]];
      ghost var before := out;
      if !first { out := out + [AMPERSAND]; }
      first := false;
      ghost var lead := out;
      out := AppendEncoded(out, params[i].key);
      out := out + [EQUALS];
      out := AppendEncoded(out, params[i].value);
      assert out == lead + EncodedPair(params[i]);
    }
    assert params[..|params|] == params;
  }

  lemma NothingJoined()
    ensures Join([], AMPERSAND) == []
  {
  }

  lemma {:induction false} PairsAppend(params: seq<Param>, p: Param)
    requires AllBytes(params) && IsBytes(p.key) && IsBytes(p.value)
    ensures EncodedPairs(params + [p]) == EncodedPairs(params) + [EncodedPair(p)]
  {
    hide Encoded;
    if params != [] {
      PairsAppend(params[1..], p);
      assert (params + [p])[1..] == params[1..] + [p];
    }
  }

  // ---------- The decoder ----------

  /** Section 2.1: "%" and two hexadecimal digits stand for an octet, an unreserved character for itself. */
  function PercentDecoded(s: seq<int>): Option<seq<int>> {
    if s == [] then Some([])
    else if Unreserved(s[0]) then Prepend([s[0]], PercentDecoded(s[1..]))
    else if OctetAt(s).Some? then Prepend([OctetAt(s).value], PercentDecoded(s[3..]))
    else None
  }

  function DecodedPair(s: seq<int>): Option<Param> {
    var pieces := Split(s, EQUALS);
    if |pieces| != 2 then None
    else
      match (PercentDecoded(pieces[0]), PercentDecoded(pieces[1]))
      case (Some(k), Some(v)) => Some(Param(k, v))
      case _ => None
  }

  function DecodedPairs(pieces: seq<seq<int>>): Option<seq<Param>> {
    if pieces == [] then Some([])
    else
      match (DecodedPair(pieces[0]), DecodedPairs(pieces[1..]))
      case (Some(p), Some(rest)) => Some([p] + rest)
      case _ => None
  }

  function DecodedQuery(s: seq<int>): Option<seq<Param>> {
    if s == [] then Some([]) else DecodedPairs(Split(s, AMPERSAND))
  }

  // ---------- The laws ----------

  /** What the encoder may write between "=" and "&". */
  predicate TextCharacter(c: int) { Unreserved(c) || c == PERCENT }

  lemma {:induction false} EncodedCharacters(s: seq<int>)
    requires IsBytes(s)
    ensures forall i :: 0 <= i < |Encoded(s)| ==> TextCharacter(Encoded(s)[i])
  {
    if s != [] { EncodedCharacters(s[1..]); }
  }

  lemma {:induction false} PercentRoundTrip(s: seq<int>)
    requires IsBytes(s)
    ensures PercentDecoded(Encoded(s)) == Some(s)
  {
    if s != [] {
      PercentRoundTrip(s[1..]);
      assert s == [s[0]] + s[1..];
      DecodeFirst(s[0], Encoded(s[1..]));
    }
  }

  lemma DecodeFirst(c: int, rest: seq<int>)
    requires IsOctet(c)
    ensures PercentDecoded(EncodedByte(c) + rest) == Prepend([c], PercentDecoded(rest))
  {
    var s := EncodedByte(c) + rest;
    if Unreserved(c) {
      assert s[1..] == rest;
    } else {
      OctetAtEscape(c, rest);
      assert !Unreserved(s[0]);
    }
  }

  lemma PairRoundTrip(p: Param)
    requires IsBytes(p.key) && IsBytes(p.value)
    ensures DecodedPair(EncodedPair(p)) == Some(p)
    ensures AMPERSAND !in EncodedPair(p) && EncodedPair(p) != []
  {
    hide Encoded, Split, PercentDecoded;
    EncodedCharacters(p.key);
    EncodedCharacters(p.value);
    SplitPiece(Encoded(p.key), EQUALS, Encoded(p.value));
    SplitPiece(Encoded(p.value), EQUALS, []);
    PercentRoundTrip(p.key);
    PercentRoundTrip(p.value);
    assert Split(EncodedPair(p), EQUALS) == [Encoded(p.key), Encoded(p.value)];
  }

  lemma {:induction false} PairAt(params: seq<Param>, j: nat)
    requires AllBytes(params) && j < |params|
    ensures EncodedPairs(params)[j] == EncodedPair(params[j])
  {
    hide EncodedPair;
    if j > 0 { PairAt(params[1..], j - 1); }
  }

  lemma {:induction false} PairsRoundTrip(params: seq<Param>)
    requires AllBytes(params)
    ensures DecodedPairs(EncodedPairs(params)) == Some(params)
  {
    hide EncodedPair, DecodedPair;
    if params != [] {
      PairsRoundTrip(params[1..]);
      PairRoundTrip(params[0]);
      assert EncodedPairs(params)[1..] == EncodedPairs(params[1..]);
      assert params == [params[0]] + params[1..];
    }
  }

  /** Decoding the encoding of any parameter list gives the list back, empty keys and values included. */
  lemma QueryRoundTrip(params: seq<Param>)
    requires AllBytes(params)
    ensures DecodedQuery(EncodedQuery(params)) == Some(params)
  {
    hide EncodedPairs, DecodedPairs, Split, Join, EncodedPair, DecodedPair;
    if params == [] {
      NothingEncoded();
    } else {
      PairsRoundTrip(params);
      var pairs := EncodedPairs(params);
      forall j | 0 <= j < |pairs| ensures AMPERSAND !in pairs[j] && pairs[j] != [] {
        PairAt(params, j);
        PairRoundTrip(params[j]);
      }
      SplitJoin(pairs, AMPERSAND);
      JoinNonEmpty(pairs);
    }
  }

  lemma JoinNonEmpty(pairs: seq<seq<int>>)
    requires pairs != [] && pairs[0] != []
    ensures Join(pairs, AMPERSAND) != []
  {
  }

  lemma NothingEncoded()
    ensures EncodedQuery([]) == []
  {
  }

  /** Different parameter lists have different encodings. */
  lemma EncodingInjective(p: seq<Param>, q: seq<Param>)
    requires AllBytes(p) && AllBytes(q) && EncodedQuery(p) == EncodedQuery(q)
    ensures p == q
  {
    QueryRoundTrip(p);
    QueryRoundTrip(q);
  }

  /** Only letters, digits and four marks are written as they are; any other byte is "%" and its two digits. */
  lemma BytesExactly(c: int)
    requires IsOctet(c)
    ensures Encoded([c]) ==
            if 'a' as int <= c <= 'z' as int || 'A' as int <= c <= 'Z' as int || '0' as int <= c <= '9' as int
               || c in {'-' as int, '_' as int, '.' as int, '~' as int}
            then [c] else ['%' as int, "0123456789ABCDEF"[c / 16] as int, "0123456789ABCDEF"[c % 16] as int]
  {
    assert [c][1..] == [] && EncodedByte(c) + [] == EncodedByte(c);
    UpperDigit(c / 16);
    UpperDigit(c % 16);
    hide HexUpper;
  }

  lemma UpperDigit(d: int)
    requires 0 <= d < 16
    ensures HexUpper(d) == "0123456789ABCDEF"[d] as int
  {
  }

  /** A text is left as it is exactly if it holds only unreserved characters. */
  lemma {:induction false} UnreservedStay(s: seq<int>)
    requires IsBytes(s)
    ensures |Encoded(s)| >= |s|
    ensures Encoded(s) == s <==> AllUnreserved(s)
  {
    if s != [] {
      UnreservedStay(s[1..]);
      assert s == [s[0]] + s[1..];
      if Unreserved(s[0]) {
        assert Encoded(s)[1..] == Encoded(s[1..]);
      }
    }
  }

  /** The output holds unreserved characters, "%", "=" and "&" only, and every "%" starts an upper-case escape. */
  predicate QueryText(s: seq<int>) { forall i :: 0 <= i < |s| ==> QueryCharacter(s, i) }

  predicate QueryCharacter(s: seq<int>, i: nat)
    requires i < |s|
  {
    && (Unreserved(s[i]) || s[i] in {PERCENT, EQUALS, AMPERSAND})
    && (s[i] == PERCENT ==> i + 2 < |s| && IsUpperHex(s[i + 1]) && IsUpperHex(s[i + 2]))
  }

  predicate IsUpperHex(c: int) { 0x30 <= c <= 0x39 || 0x41 <= c <= 0x46 }

  lemma QueryTextConcat(a: seq<int>, b: seq<int>)
    requires QueryText(a) && QueryText(b)
    ensures QueryText(a + b)
  {
    hide IsUpperHex, Unreserved;
    forall i | 0 <= i < |a + b| ensures QueryCharacter(a + b, i) {
      assert if i < |a| then QueryCharacter(a, i) else QueryCharacter(b, i - |a|);
    }
  }

  lemma ByteText(c: int)
    requires IsOctet(c)
    ensures QueryText(EncodedByte(c))
  {
    var s := EncodedByte(c);
    forall i | 0 <= i < |s| ensures QueryCharacter(s, i) {
      if !Unreserved(c) { assert IsUpperHex(HexUpper(c / 16)) && IsUpperHex(HexUpper(c % 16)); }
    }
  }

  lemma {:induction false} EncodedText(s: seq<int>)
    requires IsBytes(s)
    ensures QueryText(Encoded(s))
  {
    if s != [] {
      EncodedText(s[1..]);
      ByteText(s[0]);
      QueryTextConcat(EncodedByte(s[0]), Encoded(s[1..]));
    }
  }

  lemma {:induction false} EncodedQueryText(params: seq<Param>)
    requires AllBytes(params)
    ensures QueryText(EncodedQuery(params))
  {
    hide Encoded, QueryText;
    SeparatorText();
    if params != [] {
      var p := params[0];
      EncodedText(p.key);
      EncodedText(p.value);
      QueryTextConcat(Encoded(p.key), [EQUALS]);
      QueryTextConcat(Encoded(p.key) + [EQUALS], Encoded(p.value));
      EncodedQueryText(params[1..]);
      QueryTextConcat(EncodedPair(p), [AMPERSAND]);
      QueryTextConcat(EncodedPair(p) + [AMPERSAND], EncodedQuery(params[1..]));
    }
  }

  lemma SeparatorText()
    ensures QueryText([EQUALS]) && QueryText([AMPERSAND]) && QueryText([])
  {
  }
}
