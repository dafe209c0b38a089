/**
 The hand-written JSON text scanners of src/client.cpp (`json_object_field`, the gift
 array walker, `json_string_field`, `json_unescape`) against printers: `json_quote` of
 src/qjs_signer.cpp and a printer of JSON trees.  Text is a sequence of bytes.
 */
module JsonText {
  import opened Wrappers

  const QUOTE := 0x22
  const BACKSLASH := 0x5C
  const OPEN_BRACE := 0x7B
  const CLOSE_BRACE := 0x7D
  const OPEN_BRACKET := 0x5B
  const CLOSE_BRACKET := 0x5D
  const COMMA := 0x2C
  const COLON := 0x3A

  // ---------- JSON trees and their text ----------

  /** A number or literal keeps its text, a string the escaped text between its quotes. */
  datatype Json =
    | Atom(text: seq<int>)
    | Str(body: seq<int>)
    | Arr(items: Items)
    | Obj(fields: Fields)
  datatype Items = NoItems | Item(head: Json, tail: Items)
  datatype Fields = NoFields | Field(key: seq<int>, value: Json, rest: Fields)

  /** Bytes the scanners pass over: numbers, literals, white space, commas, colons, brackets. */
  predicate Plain(s: seq<int>) { forall i :: 0 <= i < |s| ==> s[i] !in {QUOTE, OPEN_BRACE, CLOSE_BRACE} }

  /** The text between the quotes of a JSON string: a backslash hides the byte after it, a quote is always hidden. */
  predicate Escaped(s: seq<int>) {
    if s == [] then true
    else if s[0] == BACKSLASH then |s| >= 2 && Escaped(s[2..])
    else s[0] != QUOTE && Escaped(s[1..])
  }

  predicate WellFormed(j: Json) {
    match j
    case Atom(text) => Plain(text)
    case Str(body) => Escaped(body)
    case Arr(items) => WellFormedItems(items)
    case Obj(fields) => WellFormedFields(fields)
  }

  predicate WellFormedItems(items: Items) { items.Item? ==> WellFormed(items.head) && WellFormedItems(items.tail) }

  predicate WellFormedFields(fields: Fields) {
    fields.Field? ==> Escaped(fields.key) && WellFormed(fields.value) && WellFormedFields(fields.rest)
  }

  function Quoted(body: seq<int>): seq<int> { [QUOTE] + body + [QUOTE] }

  /** The text of a tree; `ws` is the white space the printer puts after "{", "[", ":" and ",". */
  function Print(j: Json, ws: seq<int>): seq<int> {
    match j
    case Atom(text) => text
    case Str(body) => Quoted(body)
    case Arr(items) => [OPEN_BRACKET] + ws + PrintItems(items, ws) + [CLOSE_BRACKET]
    case Obj(fields) => [OPEN_BRACE] + ws + PrintFields(fields, ws) + [CLOSE_BRACE]
  }

  function PrintItems(items: Items, ws: seq<int>): seq<int> {
    match items
    case NoItems => []
    case Item(head, tail) => Print(head, ws) + (if tail.NoItems? then [] else [COMMA] + ws + PrintItems(tail, ws))
  }

  function PrintFields(fields: Fields, ws: seq<int>): seq<int> {
    match fields
    case NoFields => []
    case Field(key, value, rest) =>
      Quoted(key) + [COLON] + ws + Print(value, ws) + (if rest.NoFields? then [] else [COMMA] + ws + PrintFields(rest, ws))
  }

  // ---------- The balanced-brace scan ----------

  /** How many bytes the scan takes to bring the depth back to 0; None if the text ends first. */
  function CloseAt(s: seq<int>, depth: int, inStr: bool): (n: Option<nat>)
    ensures n.Some? ==> 0 < n.value <= |s|
    decreases |s|
  {
    if s == [] then None
    else if inStr then
      if s[0] == BACKSLASH then if |s| < 2 then None else Plus(2, CloseAt(s[2..], depth, true))
      else Plus(1, CloseAt(s[1..], depth, s[0] != QUOTE))
    else if s[0] == QUOTE then Plus(1, CloseAt(s[1..], depth, true))
    else if s[0] == OPEN_BRACE then Plus(1, CloseAt(s[1..], depth + 1, false))
    else if s[0] == CLOSE_BRACE then if depth - 1 == 0 then Some(1) else Plus(1, CloseAt(s[1..], depth - 1, false))
    else Plus(1, CloseAt(s[1..], depth, false))
  }

  function Plus(n: nat, m: Option<nat>): Option<nat> {
    match m
    case None => None
    case Some(k) => Some(n + k)
  }

  /** The scan goes over `text` and is then at the same depth, outside strings. */
  ghost predicate Passes(text: seq<int>, depth: int) {
    forall rest: seq<int> :: CloseAt(text + rest, depth, false) == Plus(|text|, CloseAt(rest, depth, false))
  }

  lemma PassAt(text: seq<int>, rest: seq<int>, depth: int)
    requires Passes(text, depth)
    ensures CloseAt(text + rest, depth, false) == Plus(|text|, CloseAt(rest, depth, false))
  {
    hide CloseAt;
  }

  lemma PassBothAt(a: seq<int>, b: seq<int>, rest: seq<int>, depth: int)
    requires Passes(a, depth) && Passes(b, depth)
    ensures CloseAt(a + b + rest, depth, false) == Plus(|a + b|, CloseAt(rest, depth, false))
  {
    hide Passes, CloseAt;
    PassAt(a, b + rest, depth);
    PassAt(b, rest, depth);
    assert a + b + rest == a + (b + rest);
  }

  lemma PassConcat(a: seq<int>, b: seq<int>, depth: int)
    requires Passes(a, depth) && Passes(b, depth)
    ensures Passes(a + b, depth)
  {
    hide CloseAt, Plus;
    forall rest: seq<int>
      ensures CloseAt(a + b + rest, depth, false) == Plus(|a + b|, CloseAt(rest, depth, false))
    {
      PassBothAt(a, b, rest, depth);
    }
  }

  lemma {:induction false} ScanPlain(s: seq<int>, rest: seq<int>, depth: int)
    requires Plain(s)
    ensures CloseAt(s + rest, depth, false) == Plus(|s|, CloseAt(rest, depth, false))
  {
    if s == [] {
      assert s + rest == rest;
    } else {
      ScanPlain(s[1..], rest, depth);
      assert (s + rest)[0] == s[0] && (s + rest)[1..] == s[1..] + rest;
    }
  }

  lemma PassPlain(s: seq<int>, depth: int)
    requires Plain(s)
    ensures Passes(s, depth)
  {
    hide CloseAt;
    forall rest: seq<int> ensures CloseAt(s + rest, depth, false) == Plus(|s|, CloseAt(rest, depth, false)) {
      ScanPlain(s, rest, depth);
    }
  }

  lemma {:induction false} ScanString(body: seq<int>, rest: seq<int>, depth: int)
    requires Escaped(body)
    ensures CloseAt(body + [QUOTE] + rest, depth, true) == Plus(|body| + 1, CloseAt(rest, depth, false))
    decreases |body|
  {
    var s := body + [QUOTE] + rest;
    if body == [] {
      assert s[1..] == rest;
    } else if body[0] == BACKSLASH {
      ScanString(body[2..], rest, depth);
      assert s[2..] == body[2..] + [QUOTE] + rest;
    } else {
      ScanString(body[1..], rest, depth);
      assert s[1..] == body[1..] + [QUOTE] + rest;
    }
  }

  lemma ScanByte(c: int, rest: seq<int>, depth: int)
    ensures c == QUOTE ==> CloseAt([c] + rest, depth, false) == Plus(1, CloseAt(rest, depth, true))
    ensures c == OPEN_BRACE ==> CloseAt([c] + rest, depth, false) == Plus(1, CloseAt(rest, depth + 1, false))
    ensures c == CLOSE_BRACE ==>
      CloseAt([c] + rest, depth, false) == if depth == 1 then Some(1) else Plus(1, CloseAt(rest, depth - 1, false))
  {
    assert ([c] + rest)[1..] == rest;
  }

  lemma ScanQuoted(body: seq<int>, rest: seq<int>, depth: int)
    requires Escaped(body)
    ensures CloseAt(Quoted(body) + rest, depth, false) == Plus(|Quoted(body)|, CloseAt(rest, depth, false))
  {
    hide CloseAt, Escaped;
    ScanString(body, rest, depth);
    ScanByte(QUOTE, body + [QUOTE] + rest, depth);
    assert Quoted(body) + rest == [QUOTE] + (body + [QUOTE] + rest);
  }

  lemma PassString(body: seq<int>, depth: int)
    requires Escaped(body)
    ensures Passes(Quoted(body), depth)
  {
    hide CloseAt, Escaped, Quoted, Plus;
    forall rest: seq<int>
      ensures CloseAt(Quoted(body) + rest, depth, false) == Plus(|Quoted(body)|, CloseAt(rest, depth, false))
    {
      ScanQuoted(body, rest, depth);
    }
  }

  lemma PassBraces(inner: seq<int>, depth: int)
    requires depth > 0 && Passes(inner, depth + 1)
    ensures Passes([OPEN_BRACE] + inner + [CLOSE_BRACE], depth)
  {
    hide CloseAt;
    var text := [OPEN_BRACE] + inner + [CLOSE_BRACE];
    forall rest: seq<int> ensures CloseAt(text + rest, depth, false) == Plus(|text|, CloseAt(rest, depth, false)) {
      ScanByte(CLOSE_BRACE, rest, depth + 1);
      ScanByte(OPEN_BRACE, inner + ([CLOSE_BRACE] + rest), depth);
      assert text + rest == [OPEN_BRACE] + (inner + ([CLOSE_BRACE] + rest));
    }
  }

  /** Inside an object, the scan passes over any printed tree, whatever its strings hold. */
  lemma {:induction false} PassTree(j: Json, ws: seq<int>, depth: int)
    requires WellFormed(j) && Plain(ws) && depth > 0
    ensures Passes(Print(j, ws), depth)
    decreases j
  {
    hide Passes;
    match j
    case Atom(text) => PassPlain(text, depth);
    case Str(body) => PassString(body, depth);
    case Arr(items) =>
      PassItems(items, ws, depth);
      PassPlain([OPEN_BRACKET] + ws, depth);
      PassPlain([CLOSE_BRACKET], depth);
      PassConcat([OPEN_BRACKET] + ws, PrintItems(items, ws), depth);
      PassConcat([OPEN_BRACKET] + ws + PrintItems(items, ws), [CLOSE_BRACKET], depth);
    case Obj(fields) =>
      PassFields(fields, ws, depth + 1);
      PassPlain(ws, depth + 1);
      PassConcat(ws, PrintFields(fields, ws), depth + 1);
      PassBraces(ws + PrintFields(fields, ws), depth);
      assert Print(j, ws) == [OPEN_BRACE] + (ws + PrintFields(fields, ws)) + [CLOSE_BRACE];
  }

  lemma {:induction false} PassItems(items: Items, ws: seq<int>, depth: int)
    requires WellFormedItems(items) && Plain(ws) && depth > 0
    ensures Passes(PrintItems(items, ws), depth)
    decreases items
  {
    hide Passes;
    match items
    case NoItems => PassPlain([], depth);
    case Item(head, tail) =>
      PassTree(head, ws, depth);
      PassItems(tail, ws, depth);
      PassSeparated(PrintItems(tail, ws), ws, depth);
      PassPlain([], depth);
      PassConcat(Print(head, ws), if tail.NoItems? then [] else [COMMA] + ws + PrintItems(tail, ws), depth);
  }

  lemma {:induction false} PassFields(fields: Fields, ws: seq<int>, depth: int)
    requires WellFormedFields(fields) && Plain(ws) && depth > 0
    ensures Passes(PrintFields(fields, ws), depth)
    decreases fields
  {
    hide Passes;
    match fields
    case NoFields => PassPlain([], depth);
    case Field(key, value, rest) =>
      PassString(key, depth);
      PassTree(value, ws, depth);
      PassFields(rest, ws, depth);
      PassSeparated(PrintFields(rest, ws), ws, depth);
      PassPlain([], depth);
      PassPlain([COLON] + ws, depth);
      PassConcat(Quoted(key), [COLON] + ws, depth);
      assert Quoted(key) + ([COLON] + ws) == Quoted(key) + [COLON] + ws;
      PassConcat(Quoted(key) + [COLON] + ws, Print(value, ws), depth);
      PassConcat(Quoted(key) + [COLON] + ws + Print(value, ws),
                 if rest.NoFields? then [] else [COMMA] + ws + PrintFields(rest, ws), depth);
  }

  lemma PassSeparated(text: seq<int>, ws: seq<int>, depth: int)
    requires Plain(ws) && Passes(text, depth)
    ensures Passes([COMMA] + ws + text, depth)
  {
    PassPlain([COMMA] + ws, depth);
    PassConcat([COMMA] + ws, text, depth);
  }

  /** From its opening brace the scan ends exactly at the object's closing brace, whatever follows. */
  lemma ObjectCloses(fields: Fields, ws: seq<int>, rest: seq<int>)
    requires WellFormedFields(fields) && Plain(ws)
    ensures CloseAt(Print(Obj(fields), ws) + rest, 0, false) == Some(|Print(Obj(fields), ws)|)
  {
    hide CloseAt, Passes, PrintFields;
    var inner := ws + PrintFields(fields, ws);
    assert Passes(inner, 1) by {
      PassFields(fields, ws, 1);
      PassPlain(ws, 1);
      PassConcat(ws, PrintFields(fields, ws), 1);
    }
    PassAt(inner, [CLOSE_BRACE] + rest, 1);
    ScanByte(CLOSE_BRACE, rest, 1);
    ScanByte(OPEN_BRACE, inner + ([CLOSE_BRACE] + rest), 0);
    assert Print(Obj(fields), ws) + rest == [OPEN_BRACE] + (inner + ([CLOSE_BRACE] + rest));
  }

  // ---------- json_object_field ----------

  /** std::string::find: the first place where the needle stands. */
  function Find(s: seq<int>, needle: seq<int>): (p: Option<nat>)
    ensures p.Some? ==> p.value + |needle| <= |s| && s[p.value..p.value + |needle|] == needle
  {
    if |s| < |needle| then None
    else if s[..|needle|] == needle then Some(0)
    else
      match Find(s[1..], needle)
      case None => None
      case Some(p) => Some(p + 1)
  }

  predicate StandsAt(s: seq<int>, needle: seq<int>, p: nat) { p + |needle| <= |s| && s[p..p + |needle|] == needle }

  predicate Nowhere(s: seq<int>, needle: seq<int>) { forall k: nat :: k <= |s| ==> !StandsAt(s, needle, k) }

  predicate FirstAt(s: seq<int>, needle: seq<int>, p: nat) {
    StandsAt(s, needle, p) && forall k: nat :: k < p ==> !StandsAt(s, needle, k)
  }

  lemma {:induction false} FindStands(s: seq<int>, needle: seq<int>)
    ensures match Find(s, needle) case None => Nowhere(s, needle) case Some(p) => FirstAt(s, needle, p)
  {
    if |s| < |needle| {
    } else if s[..|needle|] == needle {
      assert StandsAt(s, needle, 0);
    } else {
      var t := s[1..];
      FindStands(t, needle);
      forall k: nat ensures StandsAt(s, needle, k) <==> k > 0 && StandsAt(t, needle, k - 1) {
        if 0 < k && k + |needle| <= |s| { assert s[k..k + |needle|] == t[k - 1..k - 1 + |needle|]; }
      }
    }
  }

  /** The first place is found, and nothing only where the needle stands nowhere. */
  lemma FindExactly(s: seq<int>, needle: seq<int>)
    ensures forall p: nat :: Find(s, needle) == Some(p) <==> FirstAt(s, needle, p)
    ensures Find(s, needle) == None <==> Nowhere(s, needle)
  {
    hide Find, StandsAt;
    FindStands(s, needle);
    forall p: nat | FirstAt(s, needle, p) ensures Find(s, needle) == Some(p) { FirstFound(s, needle, p); }
  }

  lemma FirstFound(s: seq<int>, needle: seq<int>, p: nat)
    requires FirstAt(s, needle, p)
    ensures Find(s, needle) == Some(p)
  {
    hide Find;
    FindStands(s, needle);
    assert StandsAt(s, needle, p) && p <= |s|;
    if Find(s, needle).Some? { OneFirst(s, needle, p, Find(s, needle).value); }
  }

  lemma OneFirst(s: seq<int>, needle: seq<int>, p: nat, q: nat)
    requires FirstAt(s, needle, p) && FirstAt(s, needle, q)
    ensures p == q
  {
    assert StandsAt(s, needle, p) && StandsAt(s, needle, q);
  }

  function ObjectNeedle(key: seq<int>): seq<int> { Quoted(key) + [COLON, OPEN_BRACE] }

  function ObjectField(json: seq<int>, key: seq<int>): seq<int> {
    match Find(json, ObjectNeedle(key))
    case None => []
    case Some(p) =>
      var start := p + |ObjectNeedle(key)| - 1;
      match CloseAt(json[start..], 0, false)
      case None => []
      case Some(n) => json[start..start + n]
  }

  method JsonObjectField(json: seq<int>, key: seq<int>) returns (r: seq<int>)
    ensures r == ObjectField(json, key)
  {
    hide CloseAt;
    var needle := ObjectNeedle(key);
    var p := Find(json, needle);
    if p.None? { return []; }
    var start := p.value + |needle| - 1;
    var end := ScanObject(json, start);
    if end.None? { return []; }
    return json[start..end.value];
  }

  /** Where the scan standing at i ends. */
  function EndFrom(s: seq<int>, i: nat, depth: int, inStr: bool): Option<nat> {
    if i <= |s| then Plus(i, CloseAt(s[i..], depth, inStr)) else None
  }

  /** The scanning loop: the end of the object that opens at `start`. */
  method ScanObject(json: seq<int>, start: nat) returns (end: Option<nat>)
    requires start <= |json|
    ensures end == EndFrom(json, start, 0, false)
  {
    hide EndFrom;
    var depth, inStr, i := 0, false, start;
    while i < |json|
      invariant EndFrom(json, i, depth, inStr) == EndFrom(json, start, 0, false)
      decreases |json| - i
    {
      var c := json[i];
      ScanStep(json, i, depth, inStr);
      if inStr {
        if c == BACKSLASH {
          i := i + 2;
          continue;
        }
        if c == QUOTE { inStr := false; }
        i := i + 1;
        continue;
      }
      if c == QUOTE {
        inStr := true;
      } else if c == OPEN_BRACE {
        depth := depth + 1;
      } else if c == CLOSE_BRACE {
        depth := depth - 1;
        if depth == 0 { return Some(i + 1); }
      }
      i := i + 1;
    }
    ScanEnd(json, i, depth, inStr);
    return None;
  }

  lemma ScanEnd(s: seq<int>, i: nat, depth: int, inStr: bool)
    requires i >= |s|
    ensures EndFrom(s, i, depth, inStr) == None
  {
  }

  /** One turn of the scanning loop, read off the functional form. */
  lemma ScanStep(s: seq<int>, i: nat, depth: int, inStr: bool)
    requires i < |s|
    ensures inStr && s[i] == BACKSLASH ==> EndFrom(s, i, depth, inStr) == EndFrom(s, i + 2, depth, true)
    ensures inStr && s[i] != BACKSLASH ==> EndFrom(s, i, depth, inStr) == EndFrom(s, i + 1, depth, s[i] != QUOTE)
    ensures !inStr && s[i] == QUOTE ==> EndFrom(s, i, depth, inStr) == EndFrom(s, i + 1, depth, true)
    ensures !inStr && s[i] == OPEN_BRACE ==> EndFrom(s, i, depth, inStr) == EndFrom(s, i + 1, depth + 1, false)
    ensures !inStr && s[i] == CLOSE_BRACE ==>
      EndFrom(s, i, depth, inStr) == if depth == 1 then Some(i + 1) else EndFrom(s, i + 1, depth - 1, false)
    ensures !inStr && s[i] !in {QUOTE, OPEN_BRACE, CLOSE_BRACE} ==>
      EndFrom(s, i, depth, inStr) == EndFrom(s, i + 1, depth, false)
  {
    assert s[i..][1..] == s[i + 1..];
    if i + 2 <= |s| { assert s[i..][2..] == s[i + 2..]; }
  }

  /** Positioned at its key, the scanner returns exactly the printed object, at any depth and whatever follows. */
  lemma ObjectFieldExact(pre: seq<int>, key: seq<int>, fields: Fields, ws: seq<int>, post: seq<int>)
    requires WellFormedFields(fields) && Plain(ws)
    requires FirstAt(pre + Quoted(key) + [COLON] + Print(Obj(fields), ws) + post, Quoted(key) + [COLON, OPEN_BRACE], |pre|)
    ensures ObjectField(pre + Quoted(key) + [COLON] + Print(Obj(fields), ws) + post, key) == Print(Obj(fields), ws)
  {
    hide CloseAt, Find, FirstAt;
    var text := Print(Obj(fields), ws);
    var json := pre + Quoted(key) + [COLON] + text + post;
    FindExactly(json, ObjectNeedle(key));
    var start := |pre| + |ObjectNeedle(key)| - 1;
    assert json[start..] == text + post;
    ObjectCloses(fields, ws, post);
    assert json[start..start + |text|] == text;
  }

  lemma {:induction false} CloseStays(s: seq<int>, rest: seq<int>, depth: int, inStr: bool)
    requires CloseAt(s, depth, inStr).Some?
    ensures CloseAt(s + rest, depth, inStr) == CloseAt(s, depth, inStr)
    decreases |s|
  {
    assert (s + rest)[0] == s[0] && (s + rest)[1..] == s[1..] + rest;
    if inStr && s[0] == BACKSLASH {
      assert (s + rest)[2..] == s[2..] + rest;
      CloseStays(s[2..], rest, depth, true);
    } else if inStr {
      CloseStays(s[1..], rest, depth, s[0] != QUOTE);
    } else if s[0] == QUOTE {
      CloseStays(s[1..], rest, depth, true);
    } else if s[0] == OPEN_BRACE {
      CloseStays(s[1..], rest, depth + 1, false);
    } else if s[0] == CLOSE_BRACE {
      if depth != 1 { CloseStays(s[1..], rest, depth - 1, false); }
    } else {
      CloseStays(s[1..], rest, depth, false);
    }
  }

  /** An object cut off before its closing brace does not close. */
  lemma CutOff(fields: Fields, ws: seq<int>, n: nat)
    requires WellFormedFields(fields) && Plain(ws) && n < |Print(Obj(fields), ws)|
    ensures CloseAt(Print(Obj(fields), ws)[..n], 0, false).None?
  {
    hide CloseAt, Print;
    var text := Print(Obj(fields), ws);
    ObjectCloses(fields, ws, []);
    assert text + [] == text && text[..n] + text[n..] == text;
    if CloseAt(text[..n], 0, false).Some? { CloseStays(text[..n], text[n..], 0, false); }
  }

  /** Without the key, or with its object cut off by the end of the text, there is nothing. */
  lemma ObjectFieldNothing(pre: seq<int>, key: seq<int>, fields: Fields, ws: seq<int>, n: nat)
    requires WellFormedFields(fields) && Plain(ws) && 0 < n < |Print(Obj(fields), ws)|
    requires FirstAt(pre + Quoted(key) + [COLON] + Print(Obj(fields), ws)[..n], Quoted(key) + [COLON, OPEN_BRACE], |pre|)
    ensures ObjectField(pre + Quoted(key) + [COLON] + Print(Obj(fields), ws)[..n], key) == []
    ensures forall json :: Nowhere(json, Quoted(key) + [COLON, OPEN_BRACE]) ==> ObjectField(json, key) == []
  {
    hide CloseAt, Find, FirstAt, Nowhere;
    var text := Print(Obj(fields), ws)[..n];
    var json := pre + Quoted(key) + [COLON] + text;
    FindExactly(json, ObjectNeedle(key));
    forall other | Nowhere(other, ObjectNeedle(key)) ensures ObjectField(other, key) == [] {
      FindExactly(other, ObjectNeedle(key));
    }
    assert json[|pre| + |ObjectNeedle(key)| - 1..] == text;
    CutOff(fields, ws, n);
  }

  // ---------- The gift array walker ----------

  predicate Skipped(c: int) { c == 0x20 || c == COMMA || c == 0x0A }

  /** The object texts the walker cuts out of the text after "gifts":[ . */
  function GiftObjects(s: seq<int>): seq<seq<int>>
    decreases |s|
  {
    if s == [] then []
    else if Skipped(s[0]) then GiftObjects(s[1..])
    else if s[0] == CLOSE_BRACKET then []
    else if s[0] != OPEN_BRACE then GiftObjects(s[1..])
    else
      match CloseAt(s, 0, false)
      case None => [s]
      case Some(n) => [s[..n]] + GiftObjects(s[n..])
  }

  method WalkGiftArray(body: seq<int>, start: nat) returns (objects: seq<seq<int>>)
    requires start <= |body|
    ensures objects == GiftObjects(body[start..])
  {
    hide CloseAt;
    objects := [];
    var i := start;
    while i < |body|
      invariant start <= i <= |body|
      invariant objects + GiftObjects(body[i..]) == GiftObjects(body[start..])
      decreases |body| - i
    {
      while i < |body| && Skipped(body[i])
        invariant start <= i <= |body|
        invariant objects + GiftObjects(body[i..]) == GiftObjects(body[start..])
      {
        assert body[i..][1..] == body[i + 1..];
        i := i + 1;
      }
      if i >= |body| || body[i] == CLOSE_BRACKET { break; }
      assert body[i..][1..] == body[i + 1..];
      if body[i] != OPEN_BRACE {
        i := i + 1;
        continue;
      }
      var end := ScanObject(body, i);
      var next := if end.Some? then end.value else |body|;
      CutStep(body, i, end);
      assert objects + ([body[i..next]] + GiftObjects(body[next..])) == objects + [body[i..next]] + GiftObjects(body[next..]);
      objects := objects + [body[i..next]];
      i := next;
    }
    assert GiftObjects(body[i..]) == [];
  }

  lemma CutStep(body: seq<int>, i: nat, end: Option<nat>)
    requires i < |body| && body[i] == OPEN_BRACE && end == EndFrom(body, i, 0, false)
    ensures end.Some? ==> i < end.value <= |body|
    ensures var next := if end.Some? then end.value else |body|;
      GiftObjects(body[i..]) == [body[i..next]] + GiftObjects(body[next..])
  {
    hide CloseAt;
    var s := body[i..];
    if end.Some? {
      assert s[..end.value - i] == body[i..end.value] && s[end.value - i..] == body[end.value..];
    } else {
      assert body[|body|..] == [] && body[i..|body|] == s;
    }
  }

  predicate Objects(gifts: seq<Json>) { forall i :: 0 <= i < |gifts| ==> gifts[i].Obj? && WellFormed(gifts[i]) }

  /** White space inside an array: never a brace, quote or bracket. */
  predicate Blank(ws: seq<int>) { forall i :: 0 <= i < |ws| ==> ws[i] in {0x20, 0x09, 0x0A, 0x0D} }

  function PrintGifts(gifts: seq<Json>, ws: seq<int>): seq<int> {
    if gifts == [] then []
    else Print(gifts[0], ws) + (if |gifts| == 1 then [] else [COMMA] + ws + PrintGifts(gifts[1..], ws))
  }

  function Texts(gifts: seq<Json>, ws: seq<int>): seq<seq<int>> {
    if gifts == [] then [] else [Print(gifts[0], ws)] + Texts(gifts[1..], ws)
  }

  lemma {:induction false} SkipBlank(blank: seq<int>, rest: seq<int>)
    requires forall i :: 0 <= i < |blank| ==> blank[i] != CLOSE_BRACKET && blank[i] != OPEN_BRACE
    ensures GiftObjects(blank + rest) == GiftObjects(rest)
  {
    if blank == [] {
      assert blank + rest == rest;
    } else {
      SkipBlank(blank[1..], rest);
      assert (blank + rest)[0] == blank[0] && (blank + rest)[1..] == blank[1..] + rest;
    }
  }

  lemma CutObject(gift: Json, ws: seq<int>, rest: seq<int>)
    requires gift.Obj? && WellFormed(gift) && Plain(ws)
    ensures GiftObjects(Print(gift, ws) + rest) == [Print(gift, ws)] + GiftObjects(rest)
  {
    hide CloseAt;
    ObjectCloses(gift.fields, ws, rest);
    var s, n := Print(gift, ws) + rest, |Print(gift, ws)|;
    assert s[..n] == Print(gift, ws) && s[n..] == rest;
  }

  /** A printed array is cut into exactly its objects, in order, and nothing after its "]" is read. */
  lemma {:induction false} GiftArrayExact(gifts: seq<Json>, ws: seq<int>, post: seq<int>)
    requires Objects(gifts) && Blank(ws)
    ensures GiftObjects(ws + PrintGifts(gifts, ws) + [CLOSE_BRACKET] + post) == Texts(gifts, ws)
    decreases |gifts|
  {
    hide CloseAt, GiftObjects, Print;
    var tail := [CLOSE_BRACKET] + post;
    assert ws + PrintGifts(gifts, ws) + [CLOSE_BRACKET] + post == ws + (PrintGifts(gifts, ws) + tail);
    SkipBlank(ws, PrintGifts(gifts, ws) + tail);
    if gifts == [] {
      assert PrintGifts(gifts, ws) + tail == tail;
      StopAtBracket(post);
    } else if |gifts| == 1 {
      assert PrintGifts(gifts, ws) == Print(gifts[0], ws);
      CutObject(gifts[0], ws, tail);
      StopAtBracket(post);
    } else {
      var rest := [COMMA] + (ws + PrintGifts(gifts[1..], ws) + [CLOSE_BRACKET] + post);
      assert PrintGifts(gifts, ws) + tail == Print(gifts[0], ws) + rest;
      CutObject(gifts[0], ws, rest);
      SkipBlank([COMMA], ws + PrintGifts(gifts[1..], ws) + [CLOSE_BRACKET] + post);
      GiftArrayExact(gifts[1..], ws, post);
    }
  }

  /** A gift cut off by the end of the text comes last, as far as it goes. */
  lemma {:induction false} GiftArrayCutOff(gifts: seq<Json>, last: Json, ws: seq<int>, n: nat)
    requires Objects(gifts) && last.Obj? && WellFormed(last) && Blank(ws) && 0 < n < |Print(last, ws)|
    ensures GiftObjects(ws + PrintGifts(gifts, ws) + [COMMA] + ws + Print(last, ws)[..n]) == Texts(gifts, ws) + [Print(last, ws)[..n]]
    decreases |gifts|
  {
    hide CloseAt, GiftObjects, Print;
    var cut := Print(last, ws)[..n];
    var tail := [COMMA] + ws + cut;
    assert ws + PrintGifts(gifts, ws) + [COMMA] + ws + cut == ws + (PrintGifts(gifts, ws) + tail);
    SkipBlank(ws, PrintGifts(gifts, ws) + tail);
    if |gifts| <= 1 {
      LastCut(last, ws, n);
      SkipBlank([COMMA] + ws, cut);
      if gifts == [] {
        assert PrintGifts(gifts, ws) + tail == tail;
      } else {
        assert PrintGifts(gifts, ws) == Print(gifts[0], ws);
        CutObject(gifts[0], ws, tail);
        assert Texts(gifts, ws) == [Print(gifts[0], ws)] + [] by { assert gifts[1..] == []; }
      }
    } else {
      var rest := [COMMA] + (ws + PrintGifts(gifts[1..], ws) + [COMMA] + ws + cut);
      assert PrintGifts(gifts, ws) + tail == Print(gifts[0], ws) + rest;
      CutObject(gifts[0], ws, rest);
      SkipBlank([COMMA], ws + PrintGifts(gifts[1..], ws) + [COMMA] + ws + cut);
      GiftArrayCutOff(gifts[1..], last, ws, n);
      assert [Print(gifts[0], ws)] + (Texts(gifts[1..], ws) + [cut]) == Texts(gifts, ws) + [cut];
    }
  }

  lemma LastCut(last: Json, ws: seq<int>, n: nat)
    requires last.Obj? && WellFormed(last) && Plain(ws) && 0 < n < |Print(last, ws)|
    ensures GiftObjects(Print(last, ws)[..n]) == [Print(last, ws)[..n]]
  {
    hide CloseAt;
    CutOff(last.fields, ws, n);
    assert Print(last, ws)[..n][0] == OPEN_BRACE;
  }

  lemma StopAtBracket(post: seq<int>)
    ensures GiftObjects([CLOSE_BRACKET] + post) == []
  {
  }
}
