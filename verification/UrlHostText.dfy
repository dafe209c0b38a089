/**
 Printed hosts of js/secsdk-lastest.umd.js: what the URL parser's scan and its host parser make of the text of
 a host in normal form.
 */
module UrlHostText {
  import opened Wrappers
  import opened UrlRecord
  import opened UrlHost
  import opened UrlRuns
  import opened UrlPrinter
  import opened UrlNormal
  import Delimited
  import Ip = IpAddress
  import Puny = Punycode

  /** No label of a special URL's host is encoded a second time. */
  predicate PlainHost(u: Url) { IsSpecial(u) && u.host.Text? ==> IsPlainLabel(u.host.text) }

  // ---------- The characters of a host ----------

  /** Characters that end no authority and belong to no brackets. */
  predicate NameCharacter(c: int) { c !in {AT, SLASH, QUESTION, HASH, BACKSLASH, COLON, OPEN_BRACKET, CLOSE_BRACKET} }

  predicate AddressCharacter(c: int) { Ip.IsHex(c) || c == COLON }

  /** What an authority may hold besides userinfo: no "@" and no delimiter. */
  predicate AuthorityCharacters(s: seq<int>) {
    forall i :: 0 <= i < |s| ==> s[i] !in {AT, SLASH, QUESTION, HASH, BACKSLASH}
  }

  lemma NameCharacters(special: bool, s: seq<int>)
    requires NameForm(special, s)
    ensures forall i :: 0 <= i < |s| ==> NameCharacter(s[i])
  {
    hide Ip.ParsedIPv4;
    forall i | 0 <= i < |s| ensures NameCharacter(s[i]) { assert s[i] !in FORBIDDEN - {0x25}; }
  }

  lemma {:induction false} QuadCharacters(parts: seq<seq<int>>)
    requires forall j :: 0 <= j < |parts| ==> forall i :: 0 <= i < |parts[j]| ==> Ip.IsDigit(parts[j][i])
    ensures forall i :: 0 <= i < |Delimited.Join(parts, DOT)| ==>
              Ip.IsDigit(Delimited.Join(parts, DOT)[i]) || Delimited.Join(parts, DOT)[i] == DOT
  {
    if |parts| > 1 { QuadCharacters(parts[1..]); }
  }

  lemma QuadText(n: nat)
    requires n < 0x1_0000_0000
    ensures var s := Ip.DottedQuad(n); s != [] && forall i :: 0 <= i < |s| ==> Ip.IsDigit(s[i]) || s[i] == DOT
  {
    hide Ip.Dec;
    var b := Ip.Bytes(n);
    var parts := [Ip.Dec(b[0]), Ip.Dec(b[1]), Ip.Dec(b[2]), Ip.Dec(b[3])];
    forall j | 0 <= j < 4 ensures forall i :: 0 <= i < |parts[j]| ==> Ip.IsDigit(parts[j][i]) { Ip.DecValue(b[j]); }
    QuadCharacters(parts);
  }

  lemma {:induction false} FieldsCharacters(ps: seq<int>)
    requires forall j :: 0 <= j < |ps| ==> 0 <= ps[j]
    ensures forall i :: 0 <= i < |Ip.Fields(ps)| ==> AddressCharacter(Ip.Fields(ps)[i])
  {
    hide Ip.Hex;
    if ps != [] {
      Ip.HexValue(ps[0]);
      FieldsCharacters(ps[1..]);
    }
  }

  lemma RecommendedCharacters(h: seq<int>, x: seq<int>)
    requires Ip.Pieces(h) && Ip.Recommended(h, x)
    ensures forall i :: 0 <= i < |x| ==> AddressCharacter(x[i])
  {
    hide Ip.Fields;
    FieldsCharacters(h);
    if exists i, len :: Ip.LongestRun(h, i, len) {
      var i, len :| Ip.LongestRun(h, i, len) && x == Ip.GapText(h, i, len);
      FieldsCharacters(h[..i]);
      FieldsCharacters(h[i + len..]);
    }
  }

  // ---------- The scan over a host ----------

  lemma {:induction false} NameSpan(special: bool, w: seq<int>)
    requires forall i :: 0 <= i < |w| ==> NameCharacter(w[i])
    ensures HostSpan(special, w, false) && !BracketOpen(w, false)
  {
    if w != [] { NameSpan(special, w[1..]); }
  }

  lemma {:induction false} AddressSpan(special: bool, x: seq<int>)
    requires forall i :: 0 <= i < |x| ==> AddressCharacter(x[i])
    ensures HostSpan(special, x + [CLOSE_BRACKET], true) && !BracketOpen(x + [CLOSE_BRACKET], true)
  {
    if x != [] {
      AddressSpan(special, x[1..]);
      assert (x + [CLOSE_BRACKET])[1..] == x[1..] + [CLOSE_BRACKET];
    }
  }

  lemma BracketSpan(special: bool, x: seq<int>)
    requires forall i :: 0 <= i < |x| ==> AddressCharacter(x[i])
    ensures var w := [OPEN_BRACKET] + x + [CLOSE_BRACKET]; HostSpan(special, w, false) && !BracketOpen(w, false)
  {
    AddressSpan(special, x);
    assert ([OPEN_BRACKET] + x + [CLOSE_BRACKET])[1..] == x + [CLOSE_BRACKET];
  }

  /** The text of a host in normal form is scanned to its end, and a special URL's is not empty outside files. */
  lemma HostTextSpan(u: Url, h: seq<int>)
    requires HostForm(u) && IsHostText(u.host, h) && u.host != NoHost
    ensures HostSpan(IsSpecial(u), h, false) && !BracketOpen(h, false) && AuthorityCharacters(h)
    ensures h == [] <==> u.host == Text([])
  {
    hide IsSpecialScheme, NameForm, HostSpan, BracketOpen, Ip.DottedQuad;
    match u.host {
      case IPv6(pieces) =>
        var x :| Ip.Recommended(pieces, x) && h == [OPEN_BRACKET] + x + [CLOSE_BRACKET];
        RecommendedCharacters(pieces, x);
        BracketSpan(IsSpecial(u), x);
        assert forall i :: 1 <= i < |h| - 1 ==> AddressCharacter(h[i]) by {
          assert forall i :: 1 <= i < |h| - 1 ==> h[i] == x[i - 1];
        }
      case IPv4(n) =>
        QuadText(n);
        NameSpan(IsSpecial(u), h);
      case Text(s) =>
        if s != [] { NameCharacters(IsSpecial(u), s); }
        NameSpan(IsSpecial(u), s);
    }
  }

  // ---------- What the host parser reads ----------

  /** ASCII text without capitals is its own lower case and holds no other dot. */
  lemma LowerStays(s: seq<int>, lower: seq<int> -> seq<int>)
    requires AsciiText(s) && HasNoCapital(s) && IsLowering(lower)
    ensures Dotted(lower(s)) == s
  {
    assert lower(s) == LowerText(s) == s;
  }

  lemma DomainRead(s: seq<int>, lower: seq<int> -> seq<int>)
    requires AsciiText(s) && HasNoCapital(s) && IsPlainLabel(s) && IsLowering(lower) && !(s != [] && s[0] == OPEN_BRACKET)
    ensures HostReading(s, true, lower) == DomainReading(s)
  {
    hide DomainReading, IsLowering, DomainText;
    LowerStays(s, lower);
    PlainDomain(s);
  }

  /** A host in normal form is read from its text, unless a label of it is encoded again. */
  lemma HostTextRead(u: Url, h: seq<int>, lower: seq<int> -> seq<int>)
    requires HostForm(u) && IsHostText(u.host, h) && u.host != NoHost && IsLowering(lower) && PlainHost(u)
    requires h == [] ==> !IsSpecial(u)
    ensures HostReading(h, IsSpecial(u), lower) == Read(u.host)
  {
    hide IsLowering, Ip.ParsedIPv4, Ip.ParsedIPv6, Ip.DottedQuad, DomainText, Encodes, IsSpecialScheme;
    match u.host {
      case IPv6(pieces) =>
        var x :| Ip.Recommended(pieces, x) && h == [OPEN_BRACKET] + x + [CLOSE_BRACKET];
        Ip.IPv6RoundTrip(pieces, x);
        assert h[1..|h| - 1] == x;
      case IPv4(n) =>
        QuadText(n);
        assert forall i :: 0 <= i < |h| ==> 0x2E <= h[i] <= 0x39 && h[i] != SLASH;
        DomainRead(h, lower);
        Ip.IPv4RoundTrip(n);
      case Text(s) =>
        if IsSpecial(u) {
          NameCharacters(true, s);
          DomainRead(s, lower);
        } else {
          KeptEncodes(s, C0_SET);
          if s != [] { NameCharacters(false, s); }
        }
    }
  }

  lemma {:induction false} KeptEncodes(s: seq<int>, reserved: set<int>)
    requires AllKept(s, reserved)
    ensures Encodes(s, reserved) == Some(s)
  {
    if s != [] {
      KeptEncodes(s[..|s| - 1], reserved);
      assert s == s[..|s| - 1] + [s[|s| - 1]];
    }
  }

  // ---------- A label that is encoded again ----------

  lemma {:induction false} AsciiUnits(s: seq<int>)
    requires AsciiText(s)
    ensures Puny.Utf16(s) == s && Puny.CodePoints(s) == s
  {
    if s != [] {
      AsciiUnits(s[1..]);
      assert s == [s[0]] + s[1..];
    }
  }

  lemma LabelLonger(piece: seq<int>)
    requires AsciiText(piece) && LabelText(piece).Some?
    ensures |LabelText(piece).value| >= |piece| && (!IsPlainLabel(piece) ==> |LabelText(piece).value| > |piece|)
  {
    hide Puny.EncodedText, Puny.CodePoints, Puny.Utf16;
    if !IsPlainLabel(piece) {
      AsciiUnits(piece);
      Puny.EncodedCharacters(piece);
    }
  }

  lemma {:induction false} LabelsLonger(pieces: seq<seq<int>>)
    requires LabelTexts(pieces).Some? && forall i :: 0 <= i < |pieces| ==> AsciiText(pieces[i])
    ensures var a, b := Delimited.Join(LabelTexts(pieces).value, DOT), Delimited.Join(pieces, DOT);
            |a| >= |b| && (|a| > |b| || IsPlainLabel(b))
  {
    hide LabelText;
    if pieces != [] {
      LabelLonger(pieces[0]);
      LabelsLonger(pieces[1..]);
      if IsPlainLabel(pieces[0]) && |pieces| > 1 { assert IsPlainLabel([DOT]); }
      assert LabelTexts(pieces).value[1..] == LabelTexts(pieces[1..]).value;
    }
  }

  /** A domain that needs Punycode is not what its text says. */
  lemma DomainLonger(s: seq<int>)
    requires AsciiText(s) && !IsPlainLabel(s) && DomainText(s).Some?
    ensures |DomainText(s).value| > |s|
  {
    hide Delimited.Split, Delimited.Join, LabelTexts;
    var pieces := Delimited.Split(s, DOT);
    forall i | 0 <= i < |pieces| ensures AsciiText(pieces[i]) {
      forall j | 0 <= j < |pieces[i]| ensures 0 <= pieces[i][j] <= 0x7F { Delimited.SplitElements(s, DOT, i, pieces[i][j]); }
    }
    LabelsLonger(pieces);
    Delimited.JoinSplit(s, DOT);
  }

  lemma HostTextDiffers(u: Url, h: seq<int>, lower: seq<int> -> seq<int>)
    requires HostForm(u) && IsHostText(u.host, h) && u.host != NoHost && IsLowering(lower) && !PlainHost(u)
    ensures HostReading(h, true, lower) != Read(u.host)
  {
    hide IsLowering, Ip.ParsedIPv4, DomainText, IsSpecialScheme;
    NameCharacters(true, h);
    LowerStays(h, lower);
    if DomainText(h).Some? { DomainLonger(h); }
  }
}
