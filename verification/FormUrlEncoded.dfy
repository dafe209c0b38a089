/**
 The application/x-www-form-urlencoded parser and printer behind URLSearchParams in
 js/secsdk-lastest.umd.js (section 5 of the WHATWG URL Standard).  Text is UTF-16.
 */
module FormUrlEncoded {
  import opened Wrappers
  import opened Delimited
  import opened Punycode
  import opened Uri

  const PLUS := 0x2B
  const SPACE := 0x20
  const AMPERSAND := 0x26
  const EQUALS := 0x3D

  datatype Entry = Entry(key: seq<int>, value: seq<int>)

  // ---------- The printer ----------

  /** The replacements for ! ' ( ) ~ . */
  predicate Replaced(c: int) { c in {0x21, 0x27, 0x28, 0x29, 0x7E} }

  /** One pass of the source's replace: "%20" becomes "+", the replaced characters their escapes. */
  function Replace(s: seq<int>): seq<int> {
    if s == [] then []
    else if Replaced(s[0]) then Escape(s[0]) + Replace(s[1..])
    else if |s| >= 3 && s[..3] == [PERCENT, 0x32, 0x30] then [PLUS] + Replace(s[3..])
    else [s[0]] + Replace(s[1..])
  }

  function SerializeText(s: seq<int>): Result<seq<int>> {
    match EncodeURIComponent(s)
    case Success(e) => Success(Replace(e))
    case Throws(e) => Throws(e)
  }

  predicate AllWellFormed(entries: seq<Entry>) {
    forall i :: 0 <= i < |entries| ==> WellFormed(entries[i].key) && WellFormed(entries[i].value)
  }

  function SerializedEntry(e: Entry): seq<int>
    requires WellFormed(e.key) && WellFormed(e.value)
  {
    SerializeText(e.key).value + [EQUALS] + SerializeText(e.value).value
  }

  function SerializedEntries(entries: seq<Entry>): seq<seq<int>>
    requires AllWellFormed(entries)
  {
    if entries == [] then []
    else SerializedEntries(entries[..|entries| - 1]) + [SerializedEntry(entries[|entries| - 1])]
  }

  /** Serialize: a lone surrogate in any key or value throws, otherwise the entries are joined by "&". */
  method Serialize(entries: seq<Entry>) returns (r: Result<seq<int>>)
    ensures r.Success? <==> AllWellFormed(entries)
    ensures r.Success? ==> r.value == Join(SerializedEntries(entries), AMPERSAND)
    ensures r.Throws? ==> r.error == URI_ERROR
  {
    hide Replace, EncodeCodePoints, Uri.WellFormed;
    var result: seq<seq<int>> := [];
    var index := 0;
    while index < |entries|
      invariant 0 <= index <= |entries|
      invariant AllWellFormed(entries[..index]) && result == SerializedEntries(entries[..index])
    {
      var entry := entries[index];
      var key := SerializeText(entry.key);
      if key.Throws? {
        assert !AllWellFormed(entries);
        return key;
      }
      var value := SerializeText(entry.value);
      if value.Throws? {
        assert !AllWellFormed(entries);
        return value;
      }
      result := result + [key.value + [EQUALS] + value.value];
      assert entries[..index + 1][..index] == entries[..index];
      index := index + 1;
    }
    assert entries[..|entries|] == entries;
    return Success(Join(result, AMPERSAND));
  }

  // ---------- The parser ----------

  function PlusToSpace(s: seq<int>): seq<int> {
    if s == [] then [] else [if s[0] == PLUS then SPACE else s[0]] + PlusToSpace(s[1..])
  }

  /** decodeURIComponent of the text, or the text itself if that throws. */
  function PercentDecode(s: seq<int>): seq<int> {
    match DecodeURIComponent(s)
    case Some(t) => t
    case None => s
  }

  /** Every run of `bytes` escapes is decoded on its own if it can be. */
  function DecodeRuns(s: seq<int>, bytes: nat): seq<int>
    requires bytes > 0
    decreases |s|
  {
    if s == [] then []
    else if EscapedOctets(s, bytes).Some? then PercentDecode(s[..3 * bytes]) + DecodeRuns(s[3 * bytes..], bytes)
    else [s[0]] + DecodeRuns(s[1..], bytes)
  }

  function Deserialize(s: seq<int>): seq<int> {
    var t := PlusToSpace(s);
    match DecodeURIComponent(t)
    case Some(r) => r
    case None => DecodeRuns(DecodeRuns(DecodeRuns(DecodeRuns(t, 4), 3), 2), 1)
  }

  /** One "key=value" attribute; everything after the first "=" is the value. */
  function ParsedEntry(attribute: seq<int>): Entry {
    var parts := Split(attribute, EQUALS);
    Entry(Deserialize(parts[0]), Deserialize(Join(parts[1..], EQUALS)))
  }

  function ParsedEntries(attributes: seq<seq<int>>): seq<Entry> {
    if attributes == [] then []
    else
      var last := attributes[|attributes| - 1];
      ParsedEntries(attributes[..|attributes| - 1]) + (if last == [] then [] else [ParsedEntry(last)])
  }

  function ParsedQuery(query: seq<int>): seq<Entry> {
    if query == [] then [] else ParsedEntries(Split(query, AMPERSAND))
  }

  method ParseAttribute(attribute: seq<int>) returns (e: Entry)
    ensures e == ParsedEntry(attribute)
  {
    var entry := Split(attribute, EQUALS);
    var key := entry[0];
    entry := entry[1..];
    e := Entry(Deserialize(key), Deserialize(Join(entry, EQUALS)));
  }

  method ParseQuery(query: seq<int>) returns (entries: seq<Entry>)
    ensures entries == ParsedQuery(query)
  {
    hide Deserialize, ParsedEntry, Split;
    entries := [];
    if query == [] { return; }
    var attributes := Split(query, AMPERSAND);
    var index := 0;
    while index < |attributes|
      invariant 0 <= index <= |attributes|
      invariant entries == ParsedEntries(attributes[..index])
    {
      assert attributes[..index + 1][..index] == attributes[..index];
      var attribute := attributes[index];
      index := index + 1;
      if attribute != [] {
        var entry := ParseAttribute(attribute);
        entries := entries + [entry];
      }
    }
    assert attributes[..|attributes|] == attributes;
  }

  // ---------- The round trip ----------

  /** What the printer writes for one code point. */
  function FormCodePoint(cp: int): seq<int>
    requires IsScalar(cp)
  {
    if cp == SPACE then [PLUS]
    else if Unescaped(cp) && !Replaced(cp) then [cp]
    else EscapeAll(Octets(cp))
  }

  function FormCodePoints(cps: seq<int>): seq<int>
    requires AllScalar(cps)
  {
    if cps == [] then [] else FormCodePoint(cps[0]) + FormCodePoints(cps[1..])
  }

  lemma ReplacePlain(c: int, rest: seq<int>)
    requires !Replaced(c) && c != PERCENT
    ensures Replace([c] + rest) == [c] + Replace(rest)
  {
    var s := [c] + rest;
    assert s[1..] == rest;
    if |s| >= 3 { assert s[..3][0] == c; }
  }

  lemma ReplaceEscape(o: int, rest: seq<int>)
    requires IsOctet(o)
    ensures Replace(Escape(o) + rest) == (if o == SPACE then [PLUS] else Escape(o)) + Replace(rest)
  {
    var s := Escape(o) + rest;
    if o == SPACE {
      assert s[..3] == [PERCENT, 0x32, 0x30] && s[3..] == rest;
    } else {
      var h, l := Escape(o)[1], Escape(o)[2];
      assert s[..3] == [PERCENT, h, l];
      assert s[1..] == [h] + ([l] + rest);
      ReplacePlain(l, rest);
      ReplacePlain(h, [l] + rest);
    }
  }

  lemma {:induction false} ReplaceEscapes(os: seq<int>, rest: seq<int>)
    requires forall i :: 0 <= i < |os| ==> IsOctet(os[i]) && os[i] != SPACE
    ensures Replace(EscapeAll(os) + rest) == EscapeAll(os) + Replace(rest)
  {
    hide Replace, Escape;
    if os == [] {
      assert EscapeAll(os) + rest == rest;
    } else {
      ReplaceEscapes(os[1..], rest);
      ReplaceEscape(os[0], EscapeAll(os[1..]) + rest);
      assert EscapeAll(os) + rest == Escape(os[0]) + (EscapeAll(os[1..]) + rest);
      assert Escape(os[0]) + (EscapeAll(os[1..]) + Replace(rest)) == EscapeAll(os) + Replace(rest);
    }
  }

  lemma SingleOctet(cp: int)
    requires 0 <= cp < 0x80
    ensures EscapeAll(Octets(cp)) == Escape(cp)
  {
    assert Octets(cp)[1..] == [];
  }

  lemma ReplaceCodePoint(cp: int, rest: seq<int>)
    requires IsScalar(cp)
    ensures Replace(EncodeCodePoint(cp) + rest) == FormCodePoint(cp) + Replace(rest)
  {
    if cp == SPACE {
      SingleOctet(cp);
      ReplaceEscape(SPACE, rest);
    } else if Unescaped(cp) {
      assert ([cp] + rest)[1..] == rest;
      if Replaced(cp) { SingleOctet(cp); }
    } else {
      ReplaceEscapes(Octets(cp), rest);
    }
  }

  lemma {:induction false} SerializedForm(cps: seq<int>)
    requires AllScalar(cps)
    ensures Replace(EncodeCodePoints(cps)) == FormCodePoints(cps)
  {
    hide Replace, FormCodePoint, EncodeCodePoint;
    if cps == [] {
      NothingToReplace();
    } else {
      SerializedForm(cps[1..]);
      ReplaceCodePoint(cps[0], EncodeCodePoints(cps[1..]));
    }
  }

  lemma NothingToReplace()
    ensures Replace([]) == []
  {
  }

  lemma {:induction false} PlusConcat(a: seq<int>, b: seq<int>)
    ensures PlusToSpace(a + b) == PlusToSpace(a) + PlusToSpace(b)
  {
    if a == [] {
      assert a + b == b;
    } else {
      PlusConcat(a[1..], b);
      assert (a + b)[0] == a[0] && (a + b)[1..] == a[1..] + b;
    }
  }

  lemma {:induction false} NoPlus(s: seq<int>)
    requires PLUS !in s
    ensures PlusToSpace(s) == s
  {
    if s != [] { NoPlus(s[1..]); }
  }

  /** Escapes are made of "%" and hexadecimal digits only. */
  lemma {:induction false} EscapeCharacters(os: seq<int>)
    requires forall i :: 0 <= i < |os| ==> IsOctet(os[i])
    ensures forall c :: c in EscapeAll(os) ==> c == PERCENT || 0x30 <= c <= 0x39 || 0x41 <= c <= 0x46
  {
    if os != [] { EscapeCharacters(os[1..]); }
  }

  lemma FormCharacters(cp: int)
    requires IsScalar(cp)
    ensures AMPERSAND !in FormCodePoint(cp) && EQUALS !in FormCodePoint(cp)
  {
    if cp != SPACE && !(Unescaped(cp) && !Replaced(cp)) { EscapeCharacters(Octets(cp)); }
  }

  lemma ReadCodePoint(cp: int, rest: seq<int>)
    requires IsScalar(cp)
    ensures DecodeURIComponent(PlusToSpace(FormCodePoint(cp)) + rest) == Prepend(Utf16([cp]), DecodeURIComponent(rest))
  {
    hide DecodeURIComponent, Octets;
    if cp == SPACE {
      assert PlusToSpace([PLUS]) == [SPACE];
      DecodePlain(SPACE, rest);
    } else if Unescaped(cp) && !Replaced(cp) {
      assert PlusToSpace([cp]) == [cp];
      DecodePlain(cp, rest);
    } else {
      EscapeCharacters(Octets(cp));
      NoPlus(EscapeAll(Octets(cp)));
      DecodeEscaped(cp, rest);
    }
  }

  lemma {:induction false} ReadCodePoints(cps: seq<int>)
    requires AllScalar(cps)
    ensures DecodeURIComponent(PlusToSpace(FormCodePoints(cps))) == Some(Utf16(cps))
    ensures AMPERSAND !in FormCodePoints(cps) && EQUALS !in FormCodePoints(cps)
  {
    hide FormCodePoint;
    if cps != [] {
      hide DecodeURIComponent;
      var rest := FormCodePoints(cps[1..]);
      ReadCodePoints(cps[1..]);
      PlusConcat(FormCodePoint(cps[0]), rest);
      ReadCodePoint(cps[0], PlusToSpace(rest));
      FormCharacters(cps[0]);
      Utf16Cons(cps);
    }
  }

  lemma Utf16Cons(cps: seq<int>)
    requires cps != []
    ensures Utf16(cps) == Utf16([cps[0]]) + Utf16(cps[1..])
  {
    hide Units;
    assert [cps[0]][1..] == [];
    assert Units(cps[0]) + [] == Units(cps[0]);
  }

  /** A printed key or value is read back, and holds neither "&" nor "=". */
  lemma TextRoundTrip(s: seq<int>)
    requires WellFormed(s)
    ensures SerializeText(s).Success?
    ensures var t := SerializeText(s).value;
      Deserialize(t) == s && AMPERSAND !in t && EQUALS !in t
  {
    hide Replace, EncodeCodePoints, FormCodePoints, DecodeURIComponent, DecodeRuns, PlusToSpace, Utf16, CodePoints;
    SerializedForm(CodePoints(s));
    ReadCodePoints(CodePoints(s));
    Utf16CodePoints(s);
  }

  lemma EntryRoundTrip(e: Entry)
    requires WellFormed(e.key) && WellFormed(e.value)
    ensures ParsedEntry(SerializedEntry(e)) == e
    ensures SerializedEntry(e) != [] && AMPERSAND !in SerializedEntry(e)
  {
    hide Deserialize, SerializeText, Uri.WellFormed;
    TextRoundTrip(e.key);
    TextRoundTrip(e.value);
    var k, v := SerializeText(e.key).value, SerializeText(e.value).value;
    SplitPiece(k, EQUALS, v);
    SplitPiece(v, EQUALS, []);
  }

  lemma {:induction false} EntriesRoundTrip(entries: seq<Entry>)
    requires AllWellFormed(entries)
    ensures ParsedEntries(SerializedEntries(entries)) == entries
    ensures |SerializedEntries(entries)| == |entries|
    ensures forall i :: 0 <= i < |entries| ==> AMPERSAND !in SerializedEntries(entries)[i]
  {
    hide SerializedEntry, ParsedEntry, Uri.WellFormed;
    if entries != [] {
      var front, last := entries[..|entries| - 1], entries[|entries| - 1];
      EntriesRoundTrip(front);
      EntryRoundTrip(last);
      assert SerializedEntries(entries)[..|front|] == SerializedEntries(front);
    }
  }

  /**
   Parsing what Serialize printed gives the entries back: for every list of well-formed keys and
   values, empty ones and ones with "+", "&", "=" or "%20" included.
   */
  lemma FormRoundTrip(entries: seq<Entry>)
    requires AllWellFormed(entries)
    ensures ParsedQuery(Join(SerializedEntries(entries), AMPERSAND)) == entries
  {
    hide SerializedEntry, ParsedEntry, ParsedEntries, Uri.WellFormed;
    EntriesRoundTrip(entries);
    if entries != [] {
      SplitJoin(SerializedEntries(entries), AMPERSAND);
      JoinNonEmpty(entries);
    }
  }

  lemma JoinNonEmpty(entries: seq<Entry>)
    requires AllWellFormed(entries) && entries != []
    ensures Join(SerializedEntries(entries), AMPERSAND) != []
  {
    hide SerializeText, Uri.WellFormed;
    EntriesRoundTrip(entries);
    var parts := SerializedEntries(entries);
    if |parts| == 1 { EntryRoundTrip(entries[0]); }
  }
}
