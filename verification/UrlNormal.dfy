/**
 What the URL parser of js/secsdk-lastest.umd.js gives: every URL it returns is in normal form, each part
 spelled as the parser spells it.  The form is kept state by state through a whole run.
 */
module UrlNormal {
  import opened Wrappers
  import opened UrlRecord
  import opened UrlHost
  import opened UrlStates
  import opened UrlRuns
  import Delimited
  import Ip = IpAddress
  import Puny = Punycode
  import Uri

  // ---------- Normal form ----------

  /** A character that percent-encoding leaves as it is. */
  predicate Kept(c: int, reserved: set<int>) { 0x20 < c < 0x7F && c !in reserved }

  predicate AllKept(s: seq<int>, reserved: set<int>) { forall i :: 0 <= i < |s| ==> Kept(s[i], reserved) }

  /** Text that the host parser reads as itself, unless a DEL in it needs Punycode again. */
  predicate NameForm(special: bool, s: seq<int>) {
    if special then
      AsciiText(s) && HasNoCapital(s) && !HoldsForbidden(s, FORBIDDEN) && Ip.ParsedIPv4(s) == Ip.NotIPv4
    else AllKept(s, C0_SET) && !HoldsForbidden(s, FORBIDDEN - {0x25})
  }

  predicate HostForm(u: Url) {
    match u.host
    case NoHost => !IsSpecial(u) || u.scheme == FILE
    case Text(s) =>
      if s == [] then !IsSpecial(u) || u.scheme == FILE
      else NameForm(IsSpecial(u), s) && (u.scheme == FILE ==> s != LOCALHOST)
    case IPv4(n) => IsSpecial(u) && n < 0x1_0000_0000
    case IPv6(pieces) => Ip.Pieces(pieces)
    case UndefinedHost => false
  }

  /** Without a host name there are no credentials and there is no port. */
  predicate AuthorityForm(u: Url) {
    && HostForm(u) && PortOk(u)
    && AllKept(u.username, USERINFO_SET) && AllKept(u.password, USERINFO_SET)
    && (u.host == NoHost || u.host == Text([]) || u.scheme == FILE ==> !IncludesCredentials(u) && u.port == None)
  }

  predicate SegmentForm(special: bool, s: seq<int>) {
    && AllKept(s, PATH_SET) && SLASH !in s && (special ==> BACKSLASH !in s)
    && !IsSingleDot(s) && !IsDoubleDot(s)
  }

  predicate PathForm(special: bool, path: seq<seq<int>>) { forall i :: 0 <= i < |path| ==> SegmentForm(special, path[i]) }

  /** The one text of an opaque path. */
  predicate OpaqueForm(s: seq<int>) { AllKept(s, C0_SET) && OpaqueText(s) && (s != [] ==> s[0] != SLASH) }

  predicate QueryForm(special: bool, q: seq<int>) {
    AllKept(q, C0_SET) && HASH !in q && (special ==> APOSTROPHE !in q)
  }

  predicate TailForm(u: Url) {
    && (u.query.Some? ==> QueryForm(IsSpecial(u), u.query.value))
    && (u.fragment.Some? ==> AllKept(u.fragment.value, FRAGMENT_SET))
  }

  /** A path has a segment unless a host alone carries the URL, and a file path does not start with an empty one. */
  predicate PathWhole(u: Url) {
    && (IsSpecial(u) || u.host == NoHost ==> u.path != [])
    && (u.scheme == FILE && |u.path| > 1 ==> u.path[0] != [])
  }

  predicate OpaqueUrl(u: Url) {
    u.cannotBeABase && !IsSpecial(u) && u.host == NoHost && |u.path| == 1 && OpaqueForm(u.path[0])
  }

  predicate PathUrl(u: Url) { !u.cannotBeABase && PathForm(IsSpecial(u), u.path) && PathWhole(u) }

  predicate Normal(u: Url) {
    SchemeText(u.scheme) && AuthorityForm(u) && TailForm(u) && (OpaqueUrl(u) || PathUrl(u))
  }

  lemma EmptySegment(special: bool)
    ensures SegmentForm(special, [])
  {
    assert LowerText([]) == [];
  }

  lemma NormalOk(u: Url)
    requires Normal(u)
    ensures UrlOk(u)
  {
    hide NameForm, DefaultPort, IsSpecialScheme, PathForm, TailForm, AllKept;
  }

  // ---------- What encoding writes ----------

  /** "%" and an upper-case hexadecimal digit. */
  predicate IsEscape(c: int) { c == 0x25 || 0x30 <= c <= 0x39 || 0x41 <= c <= 0x46 }

  predicate AllEscape(s: seq<int>) { forall i :: 0 <= i < |s| ==> IsEscape(s[i]) }

  lemma {:induction false} EscapesOnly(os: seq<int>)
    requires forall i :: 0 <= i < |os| ==> Uri.IsOctet(os[i])
    ensures AllEscape(Uri.EscapeAll(os)) && (os != [] ==> Uri.EscapeAll(os) != [])
  {
    if os != [] { EscapesOnly(os[1..]); }
  }

  /** The sets the parser encodes by: none holds a character that an escape or encodeURIComponent writes. */
  predicate Proper(reserved: set<int>) { forall c :: c in reserved ==> !IsEscape(c) && !Uri.Unescaped(c) }

  lemma ProperSets()
    ensures Proper(C0_SET) && Proper(FRAGMENT_SET) && Proper(PATH_SET) && Proper(USERINFO_SET)
  {
  }

  /** An encoded character is itself, if it may stay, or escapes. */
  lemma CharacterEncoded(c: int, reserved: set<int>)
    requires PercentEncode(c, reserved).Some? && Proper(reserved)
    ensures var p := PercentEncode(c, reserved).value;
            p != [] && AllKept(p, reserved) && ((p == [c] && Kept(c, reserved)) || AllEscape(p))
  {
    hide Uri.EscapeAll, Uri.Octets;
    if !(0x20 < c < 0x7F && c !in reserved) && !Uri.Unescaped(c) {
      EscapesOnly(Uri.Octets(c));
      EscapesKept(Uri.EscapeAll(Uri.Octets(c)), reserved);
    }
  }

  lemma EscapesKept(s: seq<int>, reserved: set<int>)
    requires AllEscape(s) && Proper(reserved)
    ensures AllKept(s, reserved)
  {
  }

  lemma KeptConcat(a: seq<int>, b: seq<int>, reserved: set<int>)
    requires AllKept(a, reserved) && AllKept(b, reserved)
    ensures AllKept(a + b, reserved)
  {
  }

  /** Percent-encoded text: no character to encode is left in it, and it holds no other character than the text and escapes. */
  lemma {:induction false} TextEncoded(s: seq<int>, reserved: set<int>)
    requires Encodes(s, reserved).Some? && Proper(reserved)
    ensures var e := Encodes(s, reserved).value;
            && AllKept(e, reserved) && (s != [] ==> e != [])
            && forall x :: x in e ==> x in s || IsEscape(x)
  {
    hide PercentEncode, Kept, Proper;
    if s != [] {
      var front, c := s[..|s| - 1], s[|s| - 1];
      TextEncoded(front, reserved);
      CharacterEncoded(c, reserved);
      KeptConcat(Encodes(front, reserved).value, PercentEncode(c, reserved).value, reserved);
    }
  }

  // ---------- Hosts in normal form ----------

  /** What a label becomes: ASCII text without capitals, and not nothing. */
  lemma LabelForm(piece: seq<int>)
    requires LabelText(piece).Some? && HasNoCapital(piece) && CodePointsOnly(piece)
    ensures var a := LabelText(piece).value; AsciiText(a) && HasNoCapital(a) && (piece != [] ==> a != [])
  {
    hide Puny.EncodedText, Puny.CodePoints, Puny.Utf16;
    if !IsPlainLabel(piece) {
      var cps := Puny.CodePoints(Puny.Utf16(piece));
      Puny.EncodedCharacters(cps);
      var s := Puny.EncodedText(cps).value;
      forall i | 0 <= i < |s| ensures 0 <= s[i] <= 0x7F && !(0x41 <= s[i] <= 0x5A) {
        if s[i] in cps && s[i] < Puny.INITIAL_N { BasicStays(piece, s[i]); }
      }
    }
  }

  /** A basic code point of the text written in UTF-16 is a code point of the text. */
  lemma {:induction false} BasicStays(piece: seq<int>, x: int)
    requires CodePointsOnly(piece) && x in Puny.CodePoints(Puny.Utf16(piece)) && x < 0x80
    ensures x in piece
  {
    hide Puny.CodePoints;
    UnitsBasic(Puny.Utf16(piece), x);
    BasicUnit(piece, x);
  }

  lemma {:induction false} UnitsBasic(s: seq<int>, x: int)
    requires x in Puny.CodePoints(s) && x < 0x80
    ensures x in s
  {
    if s != [] {
      if |s| >= 2 && Puny.IsHigh(s[0]) && Puny.IsLow(s[1]) {
        UnitsBasic(s[2..], x);
      } else if x != s[0] {
        UnitsBasic(s[1..], x);
      }
    }
  }

  lemma {:induction false} BasicUnit(piece: seq<int>, x: int)
    requires CodePointsOnly(piece) && x in Puny.Utf16(piece) && x < 0x80
    ensures x in piece
  {
    if piece != [] && x !in Puny.Units(piece[0]) { BasicUnit(piece[1..], x); }
  }

  predicate LabelsForm(labels: seq<seq<int>>) {
    forall i :: 0 <= i < |labels| ==> AsciiText(labels[i]) && HasNoCapital(labels[i])
  }

  lemma {:induction false} LabelTextsForm(pieces: seq<seq<int>>)
    requires LabelTexts(pieces).Some? && forall i :: 0 <= i < |pieces| ==> HasNoCapital(pieces[i]) && CodePointsOnly(pieces[i])
    ensures LabelsForm(LabelTexts(pieces).value)
    ensures forall i :: 0 <= i < |pieces| && pieces[i] != [] ==> LabelTexts(pieces).value[i] != []
  {
    hide LabelText, HasNoCapital, AsciiText, CodePointsOnly;
    if pieces != [] {
      LabelForm(pieces[0]);
      LabelTextsForm(pieces[1..]);
    }
  }

  lemma {:induction false} JoinForm(labels: seq<seq<int>>)
    requires LabelsForm(labels)
    ensures AsciiText(Delimited.Join(labels, DOT)) && HasNoCapital(Delimited.Join(labels, DOT))
    ensures |labels| > 1 || (|labels| == 1 && labels[0] != []) ==> Delimited.Join(labels, DOT) != []
  {
    if |labels| > 1 { JoinForm(labels[1..]); }
  }

  lemma DomainForm(text: seq<int>)
    requires DomainText(text).Some? && HasNoCapital(text) && CodePointsOnly(text)
    ensures var d := DomainText(text).value; AsciiText(d) && HasNoCapital(d) && (text != [] ==> d != [])
  {
    hide Delimited.Split, Delimited.Join, LabelTexts, HasNoCapital, AsciiText, LabelsForm;
    var pieces := Delimited.Split(text, DOT);
    forall i | 0 <= i < |pieces| ensures HasNoCapital(pieces[i]) && CodePointsOnly(pieces[i]) { PieceForm(text, i); }
    LabelTextsForm(pieces);
    JoinForm(LabelTexts(pieces).value);
    Delimited.JoinSplit(text, DOT);
    if |pieces| == 1 && text != [] { OnlyPiece(text); }
  }

  lemma OnlyPiece(text: seq<int>)
    requires text != [] && |Delimited.Split(text, DOT)| == 1
    ensures Delimited.Split(text, DOT)[0] != []
  {
    Delimited.JoinSplit(text, DOT);
  }

  lemma PieceForm(text: seq<int>, i: nat)
    requires HasNoCapital(text) && CodePointsOnly(text) && i < |Delimited.Split(text, DOT)|
    ensures HasNoCapital(Delimited.Split(text, DOT)[i]) && CodePointsOnly(Delimited.Split(text, DOT)[i])
  {
    hide Delimited.Split;
    var piece := Delimited.Split(text, DOT)[i];
    forall j | 0 <= j < |piece| ensures !(0x41 <= piece[j] <= 0x5A) && 0 <= piece[j] <= 0x10_FFFF {
      Delimited.SplitElements(text, DOT, i, piece[j]);
    }
  }

  /** Whatever the host parser reads is in normal form, and a text that is not empty gives no empty host. */
  lemma ReadingForm(text: seq<int>, lower: seq<int> -> seq<int>, u: Url)
    requires CodePointsOnly(text) && IsLowering(lower) && u.scheme != FILE
    requires HostReading(text, IsSpecial(u), lower) == Read(u.host) && (IsSpecial(u) ==> text != [])
    ensures HostForm(u) && (text != [] ==> u.host != Text([])) && u.host != NoHost
  {
    hide IsSpecialScheme, Ip.ParsedIPv4, DomainText, Encodes, HasNoCapital, Ip.ParsedIPv6;
    if text != [] && text[0] == OPEN_BRACKET {
      Ip.ParsedIPv6Pieces(text[1..|text| - 1]);
    } else if IsSpecial(u) {
      var domain := Dotted(lower(text));
      DottedForm(lower(text));
      DomainForm(domain);
      Ip.ParsedIPv4Range(DomainText(domain).value);
      PartsGiveName(DomainText(domain).value);
      NoPartsNoName();
    } else {
      ProperSets();
      TextEncoded(text, C0_SET);
      OpaqueAllowed(text, Encodes(text, C0_SET).value);
    }
  }

  lemma DottedForm(s: seq<int>)
    requires HasNoCapital(s) && CodePointsOnly(s)
    ensures HasNoCapital(Dotted(s)) && CodePointsOnly(Dotted(s))
  {
  }

  lemma OpaqueAllowed(text: seq<int>, e: seq<int>)
    requires !HoldsForbidden(text, FORBIDDEN - {0x25}) && forall x :: x in e ==> x in text || IsEscape(x)
    ensures !HoldsForbidden(e, FORBIDDEN - {0x25})
  {
    forall i | 0 <= i < |e| ensures e[i] !in FORBIDDEN - {0x25} {
      assert e[i] in e;
      if e[i] in text { var j :| 0 <= j < |text| && text[j] == e[i]; }
    }
  }

  /** Only the empty text has no part at all. */
  lemma PartsGiveName(domain: seq<int>)
    ensures Ip.ParsedIPv4(domain) == Ip.Undefined ==> domain == []
  {
    hide Ip.Numbers, Ip.InRange, Delimited.Split;
    if Ip.ParsedIPv4(domain) == Ip.Undefined {
      var parts := Delimited.Split(domain, DOT);
      assert parts == [[]];
      Delimited.JoinSplit(domain, DOT);
    }
  }
}
