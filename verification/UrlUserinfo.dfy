/**
 The userinfo of a URL in js/secsdk-lastest.umd.js, with whatever "@" and ":" in it: the parser takes it in pieces, at
 each "@", and what it comes to is the text up to the first ":" and the text behind it, percent-encoded.
 */
module UrlUserinfo {
  import opened Wrappers
  import opened UrlRecord
  import opened UrlHost
  import opened UrlStates
  import opened UrlRuns
  import Uri

  // ---------- Encoding piece by piece ----------

  function Both(a: Option<seq<int>>, b: Option<seq<int>>): Option<seq<int>> {
    match (a, b)
    case (Some(x), Some(y)) => Some(x + y)
    case _ => None
  }

  lemma {:induction false} EncodesAppend(a: seq<int>, b: seq<int>, reserved: set<int>)
    ensures Encodes(a + b, reserved) == Both(Encodes(a, reserved), Encodes(b, reserved))
  {
    hide PercentEncode;
    var s := a + b;
    if b == [] {
      assert s == a;
      if Encodes(a, reserved).Some? { Empties(Encodes(a, reserved).value); }
    } else {
      var front := b[..|b| - 1];
      EncodesAppend(a, front, reserved);
      assert s[..|s| - 1] == a + front && s[|s| - 1] == b[|b| - 1];
      match (Encodes(a, reserved), Encodes(front, reserved), PercentEncode(b[|b| - 1], reserved)) {
        case (Some(x), Some(y), Some(z)) => Grouped(x, y, z);
        case _ =>
      }
    }
  }

  lemma OneEncodes(c: int, reserved: set<int>)
    ensures Encodes([c], reserved) == PercentEncode(c, reserved)
  {
    hide PercentEncode;
    EncodesFirst([c], reserved);
    NothingEncodes(reserved);
    assert [c][1..] == [];
    if PercentEncode(c, reserved).Some? { Empties(PercentEncode(c, reserved).value); }
  }

  lemma AtEscaped()
    ensures PercentEncode(AT, USERINFO_SET) == Some(ENCODED_AT)
  {
    assert Uri.Octets(AT) == [AT] && [AT][1..] == [];
    assert Uri.EscapeAll([AT]) == Uri.Escape(AT) + Uri.EscapeAll([AT][1..]);
    assert Uri.EncodeCodePoint(AT) == ENCODED_AT;
  }

  lemma EscapeKept()
    ensures PercentEncode(0x25, USERINFO_SET) == Some([0x25])
    ensures PercentEncode(0x34, USERINFO_SET) == Some([0x34]) && PercentEncode(0x30, USERINFO_SET) == Some([0x30])
  {
  }

  /** What the parser writes for an "@" is what encoding makes of it. */
  lemma AtEncoded()
    ensures Encodes([AT], USERINFO_SET) == Some(ENCODED_AT) == Encodes(ENCODED_AT, USERINFO_SET)
    ensures COLON !in ENCODED_AT
  {
    AtEscaped();
    EscapeKept();
    OneEncodes(AT, USERINFO_SET);
    OneEncodes(0x25, USERINFO_SET);
    OneEncodes(0x34, USERINFO_SET);
    OneEncodes(0x30, USERINFO_SET);
    hide Encodes, PercentEncode;
    EncodesAppend([0x25], [0x34], USERINFO_SET);
    EncodesAppend([0x25, 0x34], [0x30], USERINFO_SET);
    assert [0x25] + [0x34] == [0x25, 0x34] && [0x25, 0x34] + [0x30] == ENCODED_AT;
  }

  // ---------- Name and password ----------

  function Name(s: seq<int>): seq<int> { s[..PasswordAt(s, false)] }
  function Password(s: seq<int>): seq<int> { s[PasswordFrom(s, false)..] }

  lemma {:induction false} FirstColonOf(a: seq<int>, b: seq<int>)
    ensures PasswordAt(a + b, false) == if COLON in a then PasswordAt(a, false) else |a| + PasswordAt(b, false)
    ensures COLON in a <==> PasswordAt(a, false) < |a|
  {
    var s := a + b;
    if a == [] {
      assert s == b;
    } else {
      assert s[1..] == a[1..] + b && s[0] == a[0] && a == [a[0]] + a[1..];
      FirstColonOf(a[1..], b);
    }
  }

  lemma NamesAppend(a: seq<int>, b: seq<int>)
    ensures COLON in a ==> Name(a + b) == Name(a) && Password(a + b) == Password(a) + b
    ensures COLON !in a ==> Name(a + b) == a + Name(b) && Password(a + b) == Password(b) && Name(a) == a && Password(a) == []
  {
    hide PasswordAt;
    FirstColonOf(a, b);
  }

  /** The credentials of a text. */
  function NameEncoded(s: seq<int>): Option<seq<int>> { Encodes(Name(s), USERINFO_SET) }
  function PasswordEncoded(s: seq<int>): Option<seq<int>> { Encodes(Password(s), USERINFO_SET) }

  /** All the text in front of the "@" at which the parser stands, given what stood in front of the last one. */
  function Sofar(seenAt: bool, done: seq<int>, s: seq<int>): seq<int> { if seenAt then done + ([AT] + s) else s }

  lemma SofarSplits(done: seq<int>, s: seq<int>)
    ensures var all := done + ([AT] + s);
            if COLON in done then
              NameEncoded(all) == NameEncoded(done)
              && PasswordEncoded(all) == Both(PasswordEncoded(done), Encodes(ENCODED_AT + s, USERINFO_SET))
            else
              NameEncoded(all) == Both(NameEncoded(done), NameEncoded(ENCODED_AT + s))
              && PasswordEncoded(all) == PasswordEncoded(ENCODED_AT + s) && PasswordEncoded(done) == Some([])
  {
    hide PasswordAt, Encodes, PercentEncode, Name, Password;
    NamesAppend(done, [AT] + s);
    AtEncoded();
    NothingEncodes(USERINFO_SET);
    EncodesAppend(Password(done), [AT] + s, USERINFO_SET);
    EncodesAppend([AT], s, USERINFO_SET);
    EncodesAppend(ENCODED_AT, s, USERINFO_SET);
    NamesAppend([AT], s);
    NamesAppend(ENCODED_AT, s);
    EncodesAppend([AT], Name(s), USERINFO_SET);
    EncodesAppend(ENCODED_AT, Name(s), USERINFO_SET);
    EncodesAppend(done, [AT] + Name(s), USERINFO_SET);
  }

  // ---------- The parser at an "@" ----------

  /** The parser behind an "@" of the authority, or at its start, with the credentials of the text so far. */
  predicate Stands(c: Config, done: seq<int>) {
    && c.stage == Authority && c.buffer == []
    && if c.seenAt then
         && NameEncoded(done) == Some(c.url.username) && PasswordEncoded(done) == Some(c.url.password)
         && (c.seenPasswordToken <==> COLON in done)
       else c.url.username == [] && c.url.password == [] && !c.seenPasswordToken
  }

  predicate Encodable(all: seq<int>) { NameEncoded(all).Some? && PasswordEncoded(all).Some? }

  /** Behind the next "@". */
  function Credentialed(c: Config, moved: nat, all: seq<int>): Config
    requires Encodable(all)
  {
    c.(pointer := c.pointer + moved, seenAt := true, seenPasswordToken := COLON in all, buffer := [],
       url := c.url.(username := NameEncoded(all).value, password := PasswordEncoded(all).value))
  }

  lemma AtSplits(c: Config, s: seq<int>, done: seq<int>)
    requires Stands(c, done)
    ensures var d := c.(pointer := c.pointer + |s|, buffer := s);
            var all := Sofar(c.seenAt, done, s);
            if Encodable(all) then AfterAt(d) == Move(Loop, Credentialed(c, |s| + 1, all)) else AfterAt(d) == Halt(d, Thrown(LoneSurrogate))
  {
    hide Encodes, PercentEncode, PasswordAt, Name, Password;
    var text := if c.seenAt then ENCODED_AT + s else s;
    AtEncoded();
    TokenSeen(text);
    if c.seenAt {
      SofarSplits(done, s);
      if COLON in done { AllPassword(text); }
    }
    Empties(if NameEncoded(text).Some? then NameEncoded(text).value else []);
    Empties(if PasswordEncoded(text).Some? then PasswordEncoded(text).value else []);
    AtMoves(c, s, text);
  }

  lemma TokenSeen(s: seq<int>)
    ensures PasswordAt(s, false) < |s| <==> COLON in s
  {
    hide PasswordAt;
    FirstColonOf(s, []);
  }

  lemma AllPassword(s: seq<int>)
    ensures PasswordAt(s, true) == 0 && PasswordFrom(s, true) == 0 && s[..0] == [] && s[0..] == s
    ensures Encodes([], USERINFO_SET) == Some([])
  {
  }

  lemma AtMoves(c: Config, s: seq<int>, text: seq<int>)
    requires c.stage == Authority && c.buffer == [] && text == (if c.seenAt then ENCODED_AT + s else s)
    requires PasswordAt(text, false) < |text| <==> COLON in text
    ensures var d := c.(pointer := c.pointer + |s|, buffer := s);
            var n, p := if c.seenPasswordToken then Some([]) else NameEncoded(text),
                        if c.seenPasswordToken then Encodes(text, USERINFO_SET) else PasswordEncoded(text);
            AfterAt(d) == if n.Some? && p.Some? then
                            Move(Loop, c.(pointer := c.pointer + |s| + 1, seenAt := true,
                              seenPasswordToken := c.seenPasswordToken || COLON in text,
                              url := c.url.(username := c.url.username + n.value, password := c.url.password + p.value)))
                          else Halt(d, Thrown(LoneSurrogate))
  {
    AllPassword(text);
    hide Encodes, PasswordAt;
  }

  /** Text that belongs to an authority and holds no "@". */
  predicate Plain(special: bool, s: seq<int>) {
    forall i :: 0 <= i < |s| ==> s[i] !in {AT, SLASH, QUESTION, HASH} && !(special && s[i] == BACKSLASH)
  }

  /** The same with "@". */
  predicate Authoritative(special: bool, s: seq<int>) {
    forall i :: 0 <= i < |s| ==> s[i] !in {SLASH, QUESTION, HASH} && !(special && s[i] == BACKSLASH)
  }

  lemma PlainGathers(c: Config, s: seq<int>)
    requires c.stage == Authority && Plain(IsSpecial(c.url), s)
    ensures forall i :: 0 <= i < |s| ==> Gathers(c, s[i])
  {
    hide IsSpecialScheme;
  }

  lemma AtTurn(t: Input, d: Config)
    requires d.stage == Authority && t.At(d.pointer) == Some(AT)
    ensures After(t, d) == AfterAt(d)
  {
    hide AfterAt;
  }

  lemma GatherPiece(t: Input, c: Config, s: seq<int>, rest: seq<int>, o: Outcome, e: Config)
    requires t.override.None? && Ends(t, c, o, e) && c.stage == Authority && c.buffer == [] && Plain(IsSpecial(c.url), s)
    requires Ahead(t, c.pointer, s + ([AT] + rest))
    ensures var d := c.(pointer := c.pointer + |s|, buffer := s);
            Ends(t, d, o, e) && t.At(d.pointer) == Some(AT) && 0 <= d.pointer < |t.cps|
    ensures Ahead(t, c.pointer + |s| + 1, rest)
  {
    PlainGathers(c, s);
    hide Ends, Ahead, IsSpecialScheme, Gathers, Plain;
    Gather(t, c, s, [AT] + rest, o, e);
    Empties(s);
    AheadRest(t, c.pointer + |s|, [AT] + rest);
    AheadFirst(t, c.pointer + |s|, AT, rest);
  }

  /** One piece, up to the next "@". */
  lemma ReadPiece(t: Input, c: Config, done: seq<int>, s: seq<int>, rest: seq<int>, o: Outcome, e: Config)
    requires t.override.None? && Ends(t, c, o, e) && Stands(c, done) && Plain(IsSpecial(c.url), s)
    requires Ahead(t, c.pointer, s + ([AT] + rest))
    ensures var all := Sofar(c.seenAt, done, s);
            if Encodable(all) then Ends(t, Credentialed(c, |s| + 1, all), o, e) else o == Thrown(LoneSurrogate)
    ensures Ahead(t, c.pointer + |s| + 1, rest)
  {
    AtSplits(c, s, done);
    StandsForm(c, done);
    hide Ends, Ahead, After, AfterAt, Encodable, Credentialed, IsSpecialScheme, Stands, Sofar, Plain;
    GatherPiece(t, c, s, rest, o, e);
    var d := c.(pointer := c.pointer + |s|, buffer := s);
    AtTurn(t, d);
    if Encodable(Sofar(c.seenAt, done, s)) { Step(t, d, o, e); } else { Halted(t, d, o, e); }
  }

  /** The first "@" of a text. */
  function AtIndex(s: seq<int>): (i: nat)
    ensures i <= |s| && AT !in s[..i] && (i < |s| ==> s[i] == AT)
  {
    if s == [] || s[0] == AT then 0
    else
      assert s[..1 + AtIndex(s[1..])] == [s[0]] + s[1..][..AtIndex(s[1..])];
      1 + AtIndex(s[1..])
  }

  lemma PlainPart(special: bool, s: seq<int>)
    requires Authoritative(special, s)
    ensures Plain(special, s[..AtIndex(s)])
    ensures AtIndex(s) < |s| ==> Authoritative(special, s[AtIndex(s) + 1..]) && s[AtIndex(s)] == AT
  {
    hide AtIndex;
    var p := s[..AtIndex(s)];
    forall i | 0 <= i < |p| ensures p[i] != AT { assert p[i] in p; }
  }

  lemma CredentialedStands(c: Config, moved: nat, all: seq<int>)
    requires c.stage == Authority && Encodable(all)
    ensures Stands(Credentialed(c, moved, all), all) && Credentialed(c, moved, all).seenAt
    ensures Credentialed(c, moved, all).url.scheme == c.url.scheme && Credentialed(c, moved, all).pointer == c.pointer + moved
  {
    hide Encodes, Name, Password;
  }

  lemma CredentialedTwice(c: Config, i: nat, a: seq<int>, j: nat, b: seq<int>)
    requires Encodable(a) && Encodable(b)
    ensures Credentialed(Credentialed(c, i, a), j, b) == Credentialed(c, i + j, b)
  {
    hide Encodes, Name, Password;
  }

  lemma SofarGrows(seenAt: bool, done: seq<int>, a: seq<int>, b: seq<int>)
    ensures Sofar(true, Sofar(seenAt, done, a), b) == Sofar(seenAt, done, a + ([AT] + b))
  {
    assert done + ([AT] + a) + ([AT] + b) == done + ([AT] + (a + ([AT] + b)));
  }

  /** A text with a piece that does not encode does not encode. */
  lemma StaysUnencodable(done: seq<int>, s: seq<int>)
    requires !Encodable(done)
    ensures !Encodable(done + ([AT] + s))
  {
    hide Encodes, Name, Password;
    SofarSplits(done, s);
  }

  /**
   A userinfo with any number of "@" and ":" in it: what stands up to the first ":" becomes the username and what
   stands behind it the password, percent-encoded; a lone surrogate throws.
   */
  lemma {:induction false} ReadUserinfo(t: Input, c: Config, done: seq<int>, s: seq<int>, rest: seq<int>, o: Outcome, e: Config)
    requires t.override.None? && Ends(t, c, o, e) && Stands(c, done) && Authoritative(IsSpecial(c.url), s)
    requires Ahead(t, c.pointer, s + ([AT] + rest))
    ensures var all := Sofar(c.seenAt, done, s);
            if Encodable(all) then Ends(t, Credentialed(c, |s| + 1, all), o, e) else o == Thrown(LoneSurrogate)
    ensures Ahead(t, c.pointer + |s| + 1, rest)
    decreases |s|
  {
    hide Ends, Ahead, Encodable, Credentialed, IsSpecialScheme, Stands, Sofar;
    var k := AtIndex(s);
    PlainPart(IsSpecial(c.url), s);
    StandsForm(c, done);
    if k == |s| {
      assert s[..k] == s;
      ReadPiece(t, c, done, s, rest, o, e);
    } else {
      var a, b := s[..k], s[k + 1..];
      assert s == a + ([AT] + b);
      assert s + ([AT] + rest) == a + ([AT] + (b + ([AT] + rest)));
      ReadPiece(t, c, done, a, b + ([AT] + rest), o, e);
      AheadSkip(t, c.pointer + k + 1, b, [AT] + rest);
      AheadFirst(t, c.pointer + |s|, AT, rest);
      var all := Sofar(c.seenAt, done, a);
      SofarGrows(c.seenAt, done, a, b);
      if Encodable(all) {
        var d := Credentialed(c, k + 1, all);
        CredentialedStands(c, k + 1, all);
        ReadUserinfo(t, d, all, b, rest, o, e);
        if Encodable(Sofar(true, all, b)) { CredentialedTwice(c, k + 1, all, |b| + 1, Sofar(true, all, b)); }
      } else {
        SofarForm(all, b);
        StaysUnencodable(all, b);
      }
    }
  }

  lemma StandsForm(c: Config, done: seq<int>)
    requires Stands(c, done)
    ensures c.stage == Authority && c.buffer == []
  {
  }

  lemma SofarForm(done: seq<int>, s: seq<int>)
    ensures Sofar(true, done, s) == done + ([AT] + s)
  {
  }
}
