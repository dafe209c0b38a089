/**
 JSON string escaping: `json_quote` of src/qjs_signer.cpp prints what `json_unescape`
 and `json_string_field` of src/client.cpp read back (section 7 of RFC 8259).
 Text is a sequence of bytes.
 */
module JsonString {
  import opened Wrappers
  import opened JsonText

  const SMALL_U := 0x75
  const INVALID_ARGUMENT := "stoi"

  predicate IsBytes(s: seq<int>) { forall i :: 0 <= i < |s| ==> 0 <= s[i] < 0x100 }

  // ---------- json_quote ----------

  function HexDigit(d: int): int
    requires 0 <= d < 16
  {
    if d < 10 then 0x30 + d else 0x61 + d - 10
  }

  /** What json_quote writes for one byte; control characters become \u00XX. */
  function QuoteByte(c: int): seq<int> {
    if c == QUOTE then [BACKSLASH, QUOTE]
    else if c == BACKSLASH then [BACKSLASH, BACKSLASH]
    else if c == 0x0A then [BACKSLASH, 0x6E]
    else if c == 0x0D then [BACKSLASH, 0x72]
    else if c == 0x09 then [BACKSLASH, 0x74]
    else if 0 <= c < 0x20 then [BACKSLASH, SMALL_U, 0x30, 0x30, HexDigit(c / 16), HexDigit(c % 16)]
    else [c]
  }

  function QuoteBody(s: seq<int>): seq<int> {
    if s == [] then [] else QuoteByte(s[0]) + QuoteBody(s[1..])
  }

  lemma {:induction false} QuoteBodySnoc(s: seq<int>, c: int)
    ensures QuoteBody(s + [c]) == QuoteBody(s) + QuoteByte(c)
  {
    hide QuoteByte;
    if s == [] {
      assert [c][1..] == [];
    } else {
      QuoteBodySnoc(s[1..], c);
      assert (s + [c])[1..] == s[1..] + [c];
    }
  }

  method AppendQuoted(out: seq<int>, c: int) returns (r: seq<int>)
    ensures r == out + QuoteByte(c)
  {
    if c == QUOTE {
      r := out + [BACKSLASH, QUOTE];
    } else if c == BACKSLASH {
      r := out + [BACKSLASH, BACKSLASH];
    } else if c == 0x0A {
      r := out + [BACKSLASH, 0x6E];
    } else if c == 0x0D {
      r := out + [BACKSLASH, 0x72];
    } else if c == 0x09 {
      r := out + [BACKSLASH, 0x74];
    } else if 0 <= c < 0x20 {
      r := out + [BACKSLASH, SMALL_U, 0x30, 0x30, HexDigit(c / 16), HexDigit(c % 16)];
    } else {
      r := out + [c];
    }
  }

  method JsonQuote(s: seq<int>) returns (out: seq<int>)
    ensures out == Quoted(QuoteBody(s))
  {
    hide QuoteByte;
    out := [QUOTE];
    for i := 0 to |s|
      invariant out == [QUOTE] + QuoteBody(s[..i])
    {
      assert s[..i + 1] == s[..i] + [s[i]];
      QuoteBodySnoc(s[..i], s[i]);
      out := AppendQuoted(out, s[i]);
    }
    assert s[..|s|] == s;
    out := out + [QUOTE];
  }

  // ---------- json_unescape ----------

  function HexValue(c: int): Option<int> {
    if 0x30 <= c <= 0x39 then Some(c - 0x30)
    else if 0x61 <= c <= 0x66 then Some(c - 0x61 + 10)
    else if 0x41 <= c <= 0x46 then Some(c - 0x41 + 10)
    else None
  }

  /** The value of the hexadecimal digits that start the text. */
  function HexPrefix(s: seq<int>, acc: int): int {
    if s == [] || HexValue(s[0]).None? then acc else HexPrefix(s[1..], acc * 16 + HexValue(s[0]).value)
  }

  function SkipSpace(s: seq<int>): (r: seq<int>)
    ensures |r| <= |s|
  {
    if s != [] && (s[0] == 0x20 || 0x09 <= s[0] <= 0x0D) then SkipSpace(s[1..]) else s
  }

  /** std::stoi in base 16: blanks, a sign and "0x" may come first; None is invalid_argument. */
  function Stoi16(s: seq<int>): Option<int> {
    var t := SkipSpace(s);
    var negative := t != [] && t[0] == 0x2D;
    var u := if t != [] && (t[0] == 0x2D || t[0] == 0x2B) then t[1..] else t;
    var v := if |u| > 2 && u[0] == 0x30 && (u[1] == 0x78 || u[1] == 0x58) && HexValue(u[2]).Some? then u[2..] else u;
    if v == [] || HexValue(v[0]).None? then None
    else if negative then Some(-HexPrefix(v, 0))
    else Some(HexPrefix(v, 0))
  }

  function UnescapeByte(c: int): int {
    if c == 0x6E then 0x0A else if c == 0x74 then 0x09 else if c == 0x72 then 0x0D else c
  }

  function Unescaped(s: seq<int>): Result<seq<int>>
    decreases |s|
  {
    if s == [] then Success([])
    else if s[0] == BACKSLASH && |s| > 1 then
      if s[1] == SMALL_U && |s| > 5 then
        match Stoi16(s[2..6])
        case None => Throws(INVALID_ARGUMENT)
        case Some(code) => Prefixed(if code < 0x80 then [code % 0x100] else [], Unescaped(s[6..]))
      else Prefixed([UnescapeByte(s[1])], Unescaped(s[2..]))
    else Prefixed([s[0]], Unescaped(s[1..]))
  }

  function Prefixed(p: seq<int>, r: Result<seq<int>>): Result<seq<int>> {
    match r
    case Success(s) => Success(p + s)
    case Throws(e) => Throws(e)
  }

  method JsonUnescape(s: seq<int>) returns (r: Result<seq<int>>)
    ensures r == Unescaped(s)
  {
    hide Stoi16, Unescaped;
    var out: seq<int> := [];
    var i := 0;
    assert s[0..] == s;
    PrefixedEmpty(Unescaped(s));
    while i < |s|
      invariant 0 <= i <= |s|
      invariant Unescaped(s) == Prefixed(out, Unescaped(s[i..]))
      decreases |s| - i
    {
      UnescapeStep(s, i, out);
      if s[i] == BACKSLASH && i + 1 < |s| {
        var n := s[i + 1];
        if n == SMALL_U && i + 5 < |s| {
          var code := Stoi16(s[i + 2..i + 6]);
          if code.None? { return Throws(INVALID_ARGUMENT); }
          if code.value < 0x80 {
            out := out + [code.value % 0x100];
          }
          i := i + 6;
          continue;
        }
        out := out + [UnescapeByte(n)];
        i := i + 2;
      } else {
        out := out + [s[i]];
        i := i + 1;
      }
    }
    assert s[i..] == [];
    UnescapeEnd();
    assert out + [] == out;
    return Success(out);
  }

  lemma PrefixedEmpty(r: Result<seq<int>>)
    ensures Prefixed([], r) == r
  {
    if r.Success? { assert [] + r.value == r.value; }
  }

  lemma UnescapeEnd()
    ensures Unescaped([]) == Success([])
  {
  }

  lemma PrefixedTwice(a: seq<int>, b: seq<int>, r: Result<seq<int>>)
    ensures Prefixed(a, Prefixed(b, r)) == Prefixed(a + b, r)
  {
    if r.Success? { assert a + (b + r.value) == a + b + r.value; }
  }

  /** One turn of the loop, read off the functional form. */
  lemma UnescapeStep(s: seq<int>, i: nat, out: seq<int>)
    requires i < |s|
    ensures var here := Prefixed(out, Unescaped(s[i..]));
      if s[i] == BACKSLASH && i + 1 < |s| then
        if s[i + 1] == SMALL_U && i + 5 < |s| then
          match Stoi16(s[i + 2..i + 6])
          case None => here == Throws(INVALID_ARGUMENT)
          case Some(code) => here == Prefixed(if code < 0x80 then out + [code % 0x100] else out, Unescaped(s[i + 6..]))
        else here == Prefixed(out + [UnescapeByte(s[i + 1])], Unescaped(s[i + 2..]))
      else here == Prefixed(out + [s[i]], Unescaped(s[i + 1..]))
  {
    hide Stoi16, Prefixed;
    var t := s[i..];
    assert t[1..] == s[i + 1..];
    if s[i] == BACKSLASH && i + 1 < |s| {
      assert t[2..] == s[i + 2..];
      if s[i + 1] == SMALL_U && i + 5 < |s| {
        assert t[2..6] == s[i + 2..i + 6] && t[6..] == s[i + 6..];
        match Stoi16(s[i + 2..i + 6])
        case None => PrefixedThrows(out);
        case Some(code) =>
          PrefixedTwice(out, [code % 0x100], Unescaped(s[i + 6..]));
          PrefixedEmpty(Unescaped(s[i + 6..]));
      } else {
        PrefixedTwice(out, [UnescapeByte(s[i + 1])], Unescaped(s[i + 2..]));
      }
    } else {
      PrefixedTwice(out, [s[i]], Unescaped(s[i + 1..]));
    }
  }

  lemma PrefixedThrows(out: seq<int>)
    ensures Prefixed(out, Throws(INVALID_ARGUMENT)) == Throws(INVALID_ARGUMENT)
  {
  }

  // ---------- Reading back what was quoted ----------

  lemma ControlCode(c: int)
    requires 0 <= c < 0x20
    ensures Stoi16([0x30, 0x30, HexDigit(c / 16), HexDigit(c % 16)]) == Some(c)
  {
    var a, b := HexDigit(c / 16), HexDigit(c % 16);
    assert HexValue(a) == Some(c / 16) && HexValue(b) == Some(c % 16);
    assert [0x30, 0x30, a, b][1..] == [0x30, a, b] && [0x30, a, b][1..] == [a, b] && [a, b][1..] == [b] && [b][1..] == [];
    assert HexPrefix([b], c / 16) == HexPrefix([], c);
    assert HexPrefix([a, b], 0) == c;
    assert HexPrefix([0x30, a, b], 0) == c;
  }

  lemma UnescapeQuotedByte(c: int, rest: seq<int>)
    requires 0 <= c < 0x100
    ensures Unescaped(QuoteByte(c) + rest) == Prefixed([c], Unescaped(rest))
  {
    hide Stoi16, Prefixed;
    var s := QuoteByte(c) + rest;
    if |QuoteByte(c)| == 6 {
      ControlCode(c);
      assert s[2..6] == [0x30, 0x30, HexDigit(c / 16), HexDigit(c % 16)] && s[6..] == rest;
    } else if |QuoteByte(c)| == 2 {
      assert s[2..] == rest;
    } else {
      assert s[1..] == rest;
    }
  }

  /** Every byte string comes back, control characters included. */
  lemma {:induction false} UnescapeUndoesQuote(s: seq<int>)
    requires IsBytes(s)
    ensures Unescaped(QuoteBody(s)) == Success(s)
  {
    hide Unescaped, QuoteByte;
    if s == [] {
      UnescapeEnd();
    } else {
      UnescapeUndoesQuote(s[1..]);
      UnescapeQuotedByte(s[0], QuoteBody(s[1..]));
      assert [s[0]] + s[1..] == s;
    }
  }

  /** The printer's body is a proper JSON string body, so it may stand anywhere in a printed tree. */
  lemma {:induction false} QuoteBodyEscaped(s: seq<int>)
    ensures Escaped(QuoteBody(s))
  {
    if s != [] {
      QuoteBodyEscaped(s[1..]);
      EscapedByte(s[0], QuoteBody(s[1..]));
    }
  }

  lemma EscapedByte(c: int, rest: seq<int>)
    requires Escaped(rest)
    ensures Escaped(QuoteByte(c) + rest)
  {
    var s := QuoteByte(c) + rest;
    if |QuoteByte(c)| == 6 {
      assert s[2..] == QuoteByte(c)[2..] + rest;
      PlainEscaped(QuoteByte(c)[2..], rest);
    } else if |QuoteByte(c)| == 2 {
      assert s[2..] == rest;
    } else {
      assert s[1..] == rest;
    }
  }

  lemma {:induction false} PlainEscaped(s: seq<int>, rest: seq<int>)
    requires Escaped(rest) && forall i :: 0 <= i < |s| ==> s[i] != QUOTE && s[i] != BACKSLASH
    ensures Escaped(s + rest)
  {
    if s == [] {
      assert s + rest == rest;
    } else {
      PlainEscaped(s[1..], rest);
      assert (s + rest)[0] == s[0] && (s + rest)[1..] == s[1..] + rest;
    }
  }

  // ---------- json_string_field ----------

  /** The raw text up to the closing quote. */
  function RawString(s: seq<int>): seq<int>
    decreases |s|
  {
    if s == [] then []
    else if s[0] == BACKSLASH && |s| > 1 then s[..2] + RawString(s[2..])
    else if s[0] == QUOTE then []
    else [s[0]] + RawString(s[1..])
  }

  function StringNeedle(key: seq<int>): seq<int> { Quoted(key) + [COLON, QUOTE] }

  function StringField(json: seq<int>, key: seq<int>): Result<seq<int>> {
    match Find(json, StringNeedle(key))
    case None => Success([])
    case Some(p) => Unescaped(RawString(json[p + |StringNeedle(key)|..]))
  }

  method JsonStringField(json: seq<int>, key: seq<int>) returns (r: Result<seq<int>>)
    ensures r == StringField(json, key)
  {
    hide Unescaped, RawString, Find;
    var needle := StringNeedle(key);
    var found := Find(json, needle);
    if found.None? { return Success([]); }
    var raw := ReadRaw(json, found.value + |needle|);
    r := JsonUnescape(raw);
  }

  method ReadRaw(json: seq<int>, p: nat) returns (raw: seq<int>)
    requires p <= |json|
    ensures raw == RawString(json[p..])
  {
    hide RawString;
    raw := [];
    var i := p;
    while i < |json|
      invariant p <= i <= |json|
      invariant raw + RawString(json[i..]) == RawString(json[p..])
      decreases |json| - i
    {
      RawStep(json, i);
      ghost var was := raw;
      if json[i] == BACKSLASH && i + 1 < |json| {
        raw := raw + [json[i]];
        raw := raw + [json[i + 1]];
        i := i + 2;
        assert raw + RawString(json[i..]) == was + ([json[i - 2], json[i - 1]] + RawString(json[i..]));
        continue;
      }
      if json[i] == QUOTE { return; }
      raw := raw + [json[i]];
      i := i + 1;
      assert raw + RawString(json[i..]) == was + ([json[i - 1]] + RawString(json[i..]));
    }
    RawEnd();
    assert json[i..] == [];
  }

  lemma RawEnd()
    ensures RawString([]) == []
  {
  }

  lemma RawStep(s: seq<int>, i: nat)
    requires i < |s|
    ensures RawString(s[i..]) ==
      if s[i] == BACKSLASH && i + 1 < |s| then [s[i], s[i + 1]] + RawString(s[i + 2..])
      else if s[i] == QUOTE then []
      else [s[i]] + RawString(s[i + 1..])
  {
    assert s[i..][1..] == s[i + 1..];
    if i + 1 < |s| { assert s[i..][..2] == [s[i], s[i + 1]] && s[i..][2..] == s[i + 2..]; }
  }

  /** The scan stops exactly at the quote that ends a proper string body. */
  lemma {:induction false} RawStopsAtQuote(body: seq<int>, post: seq<int>)
    requires Escaped(body)
    ensures RawString(body + [QUOTE] + post) == body
    decreases |body|
  {
    var s := body + [QUOTE] + post;
    if body == [] {
    } else if body[0] == BACKSLASH {
      RawStopsAtQuote(body[2..], post);
      assert s[..2] == body[..2] && s[2..] == body[2..] + [QUOTE] + post;
      assert body == body[..2] + body[2..];
    } else {
      RawStopsAtQuote(body[1..], post);
      assert s[0] == body[0] && s[1..] == body[1..] + [QUOTE] + post;
    }
  }

  /** Positioned at its key, json_string_field returns the bytes that json_quote printed. */
  lemma StringFieldExact(pre: seq<int>, key: seq<int>, s: seq<int>, post: seq<int>)
    requires IsBytes(s)
    requires FirstAt(pre + Quoted(key) + [COLON] + Quoted(QuoteBody(s)) + post, Quoted(key) + [COLON, QUOTE], |pre|)
    ensures StringField(pre + Quoted(key) + [COLON] + Quoted(QuoteBody(s)) + post, key) == Success(s)
  {
    hide Find, FirstAt, Unescaped, RawString, QuoteBody;
    var json := pre + Quoted(key) + [COLON] + Quoted(QuoteBody(s)) + post;
    FindExactly(json, StringNeedle(key));
    assert json[|pre| + |StringNeedle(key)|..] == QuoteBody(s) + [QUOTE] + post;
    QuoteBodyEscaped(s);
    RawStopsAtQuote(QuoteBody(s), post);
    UnescapeUndoesQuote(s);
  }

  /** Without the key there is the empty string, and a string that the text cuts off is read as far as it goes. */
  lemma StringFieldCutOff(pre: seq<int>, key: seq<int>, body: seq<int>)
    requires Escaped(body) && FirstAt(pre + Quoted(key) + [COLON, QUOTE] + body, Quoted(key) + [COLON, QUOTE], |pre|)
    ensures StringField(pre + Quoted(key) + [COLON, QUOTE] + body, key) == Unescaped(body)
    ensures forall json :: Nowhere(json, Quoted(key) + [COLON, QUOTE]) ==> StringField(json, key) == Success([])
  {
    hide Find, FirstAt, Nowhere, Unescaped, RawString;
    var json := pre + Quoted(key) + [COLON, QUOTE] + body;
    FindExactly(json, StringNeedle(key));
    forall other | Nowhere(other, StringNeedle(key)) ensures StringField(other, key) == Success([]) {
      FindExactly(other, StringNeedle(key));
    }
    assert json[|pre| + |StringNeedle(key)|..] == body;
    RawToTheEnd(body);
  }

  lemma {:induction false} RawToTheEnd(body: seq<int>)
    requires Escaped(body)
    ensures RawString(body) == body
    decreases |body|
  {
    if body != [] && body[0] == BACKSLASH {
      RawToTheEnd(body[2..]);
    } else if body != [] {
      RawToTheEnd(body[1..]);
    }
  }
}
