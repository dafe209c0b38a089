/**
 `new URL(url.href)` in js/secsdk-lastest.umd.js: what the constructor gives can be printed and constructed
 again, exactly when it comes back, and inputs for which it does not.
 */
module UrlHref {
  import opened Wrappers
  import opened UrlRecord
  import opened UrlHost
  import opened UrlHostText
  import opened UrlStates
  import opened UrlRuns
  import opened UrlParser
  import opened UrlPrinter
  import opened UrlNormal
  import opened UrlOutputs
  import opened UrlReadBack
  import opened UrlRoundTrip
  import Delimited
  import Ip = IpAddress
  import Puny = Punycode

  // ---------- A printed URL is clean text ----------

  /** Characters that trimming leaves alone. */
  predicate Solid(s: seq<int>) { forall i :: 0 <= i < |s| ==> 0x20 < s[i] < 0x7F }

  predicate NoTabs(s: seq<int>) { AsciiText(s) && forall i :: 0 <= i < |s| ==> s[i] !in {0x09, 0x0A, 0x0D} }

  lemma SolidConcat(a: seq<int>, b: seq<int>)
    requires Solid(a) && Solid(b)
    ensures Solid(a + b)
  {
  }

  lemma KeptSolid(s: seq<int>, reserved: set<int>)
    requires AllKept(s, reserved)
    ensures Solid(s)
  {
  }

  lemma SchemeSolid(s: seq<int>)
    requires SchemeText(s)
    ensures Solid(s)
  {
  }

  lemma CredentialsSolid(u: Url)
    requires AllKept(u.username, USERINFO_SET) && AllKept(u.password, USERINFO_SET)
    ensures Solid(Credentials(u))
  {
    KeptSolid(u.username, USERINFO_SET);
    KeptSolid(u.password, USERINFO_SET);
  }

  lemma PortSolid(port: Option<int>)
    ensures Solid(PortText(port))
  {
    hide Ip.Dec;
    if port.Some? && port.value >= 0 { Ip.DecValue(port.value); }
  }

  lemma {:induction false} JoinSolid(special: bool, path: seq<seq<int>>)
    requires PathForm(special, path)
    ensures Solid(Delimited.Join(path, SLASH))
  {
    hide SegmentForm;
    if path != [] {
      assert SegmentForm(special, path[0]);
      SegmentSolid(special, path[0]);
      assert PathForm(special, path[1..]) by { assert forall i :: 0 <= i < |path[1..]| ==> path[1..][i] == path[i + 1]; }
      JoinSolid(special, path[1..]);
    }
  }

  lemma SegmentSolid(special: bool, s: seq<int>)
    requires SegmentForm(special, s)
    ensures Solid(s)
  {
    KeptSolid(s, PATH_SET);
  }

  lemma TailSolid(u: Url)
    requires TailForm(u)
    ensures Solid(TailText(u))
  {
    if u.query.Some? { KeptSolid(u.query.value, C0_SET); }
    if u.fragment.Some? { KeptSolid(u.fragment.value, FRAGMENT_SET); }
  }

  lemma MiddleSolid(u: Url)
    requires Normal(u)
    ensures Solid(MiddleText(u))
  {
    hide SegmentForm, TailForm, AuthorityForm, SchemeText, Delimited.Join;
    if u.cannotBeABase { KeptSolid(u.path[0], C0_SET); } else { JoinSolid(IsSpecial(u), u.path); }
  }

  lemma AddressClean(pieces: seq<int>, h: seq<int>)
    requires IsHostText(IPv6(pieces), h)
    ensures Solid(h)
  {
    hide Ip.Recommended;
    var x :| Ip.Recommended(pieces, x) && h == [OPEN_BRACKET] + x + [CLOSE_BRACKET];
    RecommendedCharacters(pieces, x);
    assert Solid(x);
  }

  lemma NameClean(s: seq<int>)
    requires NameForm(true, s)
    ensures NoTabs(s)
  {
    hide Ip.ParsedIPv4;
    forall i | 0 <= i < |s| ensures s[i] !in {0x09, 0x0A, 0x0D} { assert s[i] !in FORBIDDEN; }
  }

  lemma SolidHasNoTabs(s: seq<int>)
    requires Solid(s)
    ensures NoTabs(s)
  {
  }

  /** A host in normal form has no tabs; only the name of a special URL may hold other control characters. */
  lemma HostClean(u: Url, h: seq<int>)
    requires HostForm(u) && IsHostText(u.host, h)
    ensures NoTabs(h) && (!(IsSpecial(u) && u.host.Text?) ==> Solid(h))
  {
    hide IsSpecialScheme, Ip.ParsedIPv4, Ip.DottedQuad, NoTabs, IsHostText;
    match u.host {
      case IPv6(pieces) => AddressClean(pieces, h);
      case IPv4(n) => QuadClean(n, h);
      case Text(s) => {
        TextText(s, h);
        if s != [] && IsSpecial(u) { NameClean(s); } else if s != [] { KeptSolid(s, C0_SET); }
      }
      case NoHost => NoHostClean(h);
    }
    if !(IsSpecial(u) && u.host.Text? && h != []) { SolidHasNoTabs(h); }
  }

  lemma QuadClean(n: nat, h: seq<int>)
    requires n < 0x1_0000_0000 && IsHostText(IPv4(n), h)
    ensures Solid(h)
  {
    hide Ip.DottedQuad;
    QuadText(n);
  }

  lemma TextText(s: seq<int>, h: seq<int>)
    requires IsHostText(Text(s), h)
    ensures h == s
  {
  }

  lemma NoHostClean(h: seq<int>)
    requires IsHostText(NoHost, h)
    ensures h == []
  {
  }

  /** Solid text around a host. */
  lemma AroundHost(a: seq<int>, h: seq<int>, b: seq<int>)
    requires Solid(a) && a != [] && NoTabs(h) && Solid(b) && (b != [] || Solid(h))
    ensures Clean(a + h + b)
  {
  }

  predicate Clean(s: seq<int>) { s != [] && NoTabs(s) && s[0] > 0x20 && s[|s| - 1] > 0x20 }

  lemma PrintedParts(u: Url, h: seq<int>)
    requires Normal(u)
    ensures Solid(u.scheme + [COLON]) && Solid(u.scheme + [COLON] + [SLASH, SLASH])
    ensures Solid(Credentials(u)) && Solid(PortText(u.port)) && Solid(MiddleText(u) + TailText(u))
    ensures IsSpecial(u) ==> MiddleText(u) != []
    ensures HostForm(u)
  {
    hide SchemeText, HostForm, PathForm, TailForm, AllKept, DefaultPort, IsSpecialScheme, Credentials, PortText,
      MiddleText, TailText, Solid, OpaqueForm;
    SchemeSolid(u.scheme);
    PunctuationSolid(u.scheme);
    CredentialsSolid(u);
    PortSolid(u.port);
    MiddleSolid(u);
    TailSolid(u);
    SolidConcat(MiddleText(u), TailText(u));
    if IsSpecial(u) { MiddleStarts(u); }
  }

  lemma PrintedClean(u: Url, h: seq<int>)
    requires Normal(u) && IsHostText(u.host, h)
    ensures Clean(Printed(u, h))
  {
    hide Normal, HostForm, IsSpecialScheme, IsHostText, Credentials, PortText, MiddleText, TailText, Solid, NoTabs;
    PrintedParts(u, h);
    HostClean(u, h);
    var a, b := u.scheme + [COLON], MiddleText(u) + TailText(u);
    if u.host != NoHost {
      var x, y := a + [SLASH, SLASH] + Credentials(u), PortText(u.port) + b;
      SolidConcat(a + [SLASH, SLASH], Credentials(u));
      SolidConcat(PortText(u.port), b);
      AroundHost(x, h, y);
      assert Printed(u, h) == x + h + y;
    } else {
      var x := a + AuthorityText(u, h);
      Empties(a);
      NothingSolid();
      AroundHost(x, [], b);
      assert Printed(u, h) == x + [] + b;
    }
  }

  lemma PunctuationSolid(s: seq<int>)
    requires Solid(s)
    ensures Solid(s + [COLON]) && Solid(s + [COLON] + [SLASH, SLASH])
  {
  }

  lemma NothingSolid()
    ensures Solid([]) && NoTabs([])
  {
  }

  lemma MiddleStarts(u: Url)
    requires Normal(u) && IsSpecial(u)
    ensures MiddleText(u) != []
  {
    hide SchemeText, AuthorityForm, TailForm, PathForm, IsSpecialScheme, OpaqueForm;
  }

  lemma {:induction false} NoTabsStay(s: seq<int>)
    requires NoTabs(s)
    ensures WithoutTabsAndNewlines(s) == s
  {
    if s != [] {
      NoTabsStay(s[1..]);
      assert s == [s[0]] + s[1..];
    }
  }

  /** The parser reads a printed URL as it stands. */
  lemma PrintedRead(u: Url, h: seq<int>, base: Option<Url>, lower: seq<int> -> seq<int>)
    requires Normal(u) && IsHostText(u.host, h)
    ensures TextInput(Printed(u, h), base, lower) == Input(Printed(u, h), base, None, lower) && Puny.IsUtf16(Printed(u, h))
  {
    hide Normal, IsHostText, Printed, WithoutTabsAndNewlines, Puny.CodePoints;
    PrintedClean(u, h);
    NoTabsStay(Printed(u, h));
    AsciiUnits(Printed(u, h));
  }

  // ---------- What comes out of the constructor, and back ----------

  /** Whatever the text and the base text, the URL constructed is in normal form. */
  lemma ConstructedNormal(text: seq<int>, baseText: Option<seq<int>>, lower: seq<int> -> seq<int>, u: Url)
    requires Puny.IsUtf16(text) && (baseText.Some? ==> Puny.IsUtf16(baseText.value)) && IsLowering(lower)
    requires Constructs(text, baseText, lower, Parsed, u)
    ensures Normal(u)
  {
    hide Yields, IsLowering, Normal;
    match baseText {
      case None => YieldedNormal(text, None, lower, u);
      case Some(b) =>
        var o, base :| Yields(b, None, lower, o, base) &&
          if o == Parsed then Yields(text, Some(base), lower, Parsed, u) else Parsed == o && u == base;
        YieldedNormal(b, None, lower, base);
        YieldedNormal(text, Some(base), lower, u);
    }
  }

  lemma YieldedNormal(text: seq<int>, base: Option<Url>, lower: seq<int> -> seq<int>, u: Url)
    requires Puny.IsUtf16(text) && IsLowering(lower) && (base.Some? ==> Normal(base.value)) && Yields(text, base, lower, Parsed, u)
    ensures Normal(u)
  {
    hide IsLowering, Normal, Ends, TrimLeft, TrimRight, WithoutTabsAndNewlines, Puny.CodePoints;
    CleanedText(text);
    CleanedText(TrimLeft(text));
    CleanedText(TrimRight(TrimLeft(text)));
    Puny.CodePointRange(Cleaned(text));
    var t := TextInput(text, base, lower);
    var d :| Ends(t, Fresh(), Parsed, d) && d.url == u;
    OutputNormal(t, Parsed, d);
  }

  /** Of every URL in normal form: constructing it from its text gives it back if and only if it comes back. */
  lemma HrefExactly(u: Url, h: seq<int>, base: Option<Url>, lower: seq<int> -> seq<int>, o: Outcome, v: Url)
    requires Normal(u) && IsHostText(u.host, h) && IsLowering(lower) && Yields(Printed(u, h), base, lower, o, v)
    ensures o == Parsed && v == u <==> ComesBack(u)
  {
    hide Normal, IsHostText, IsLowering, Printed, Ends, ComesBack, TextInput;
    var t := TextInput(Printed(u, h), base, lower);
    PrintedRead(u, h, base, lower);
    var d :| Ends(t, Fresh(), o, d) && d.url == v;
    ComesBackExactly(u, h, t, o, d);
  }

  /** `new URL(new URL(text, baseText).href)`: the second URL equals the first exactly if the first comes back. */
  method ConstructTwice(text: seq<int>, baseText: Option<seq<int>>, lower: seq<int> -> seq<int>)
    returns (first: Outcome, u: Url, second: Outcome, v: Url)
    requires Puny.IsUtf16(text) && (baseText.Some? ==> Puny.IsUtf16(baseText.value)) && IsLowering(lower)
    ensures Constructs(text, baseText, lower, first, u)
    ensures first == Parsed ==> Normal(u) && (second == Parsed && v == u <==> ComesBack(u))
  {
    hide IsLowering, Constructs, Normal, ComesBack, Yields, UrlOk, Printed, IsHostText, LowersText;
    LoweringText(lower);
    first, u := Construct(text, baseText, lower);
    second, v := first, u;
    if first == Parsed {
      ConstructedNormal(text, baseText, lower, u);
      Printable(u);
      var href := Serialize(u);
      ghost var h :| IsHostText(u.host, h) && href == Printed(u, h);
      PrintedRead(u, h, None, lower);
      second, v := Construct(href, None, lower);
      Alone(href, lower, second, v);
      HrefExactly(u, h, None, lower, second, v);
    }
  }

  lemma LoweringText(lower: seq<int> -> seq<int>)
    requires IsLowering(lower)
    ensures LowersText(lower)
  {
    hide LowersText;
  }

  lemma Alone(text: seq<int>, lower: seq<int> -> seq<int>, o: Outcome, v: Url)
    requires Constructs(text, None, lower, o, v)
    ensures Yields(text, None, lower, o, v)
  {
  }

  lemma Printable(u: Url)
    requires Normal(u)
    ensures (u.host.IPv6? ==> Ip.Pieces(u.host.pieces)) && (u.port.Some? ==> u.port.value >= 0)
  {
    hide NameForm, SchemeText, PathForm, TailForm, AllKept, DefaultPort, IsSpecialScheme;
  }

  /** A file URL may change its host to the empty one. */
  lemma FileAuthority(u: Url, v: Url)
    requires Normal(u) && u.scheme == FILE && v == u.(path := v.path, host := v.host) && (v.host == u.host || v.host == Text([]))
    ensures AuthorityForm(v)
  {
    hide NameForm, AllKept, DefaultPort, PathForm, TailForm, SchemeText;
  }

  lemma SettledPath(special: bool, path: seq<seq<int>>)
    requires PathForm(special, path) && path != [] && IsWindowsDriveLetter(path[0], false)
    ensures PathForm(special, path[0 := [path[0][0], COLON]]) && IsWindowsDriveLetter([path[0][0], COLON], true)
  {
    hide SegmentForm;
    DriveSegment(special, path[0]);
    var p := path[0 := [path[0][0], COLON]];
    forall i | 0 <= i < |p| ensures SegmentForm(special, p[i]) { assert SegmentForm(special, path[i]); }
  }

  /** What a file URL settles to is in normal form and does come back. */
  lemma SettledComesBack(u: Url)
    requires Normal(u) && u.scheme == FILE && PlainHost(u)
    ensures Normal(Settled(u)) && ComesBack(Settled(u))
  {
    hide AuthorityForm, TailForm, PathForm, SchemeText, IsWindowsDriveLetter, Normal;
    FileForms(u);
    FileIsSpecial();
    hide IsSpecialScheme;
    var v := Settled(u);
    FileAuthority(u, v);
    SameTail(u, v);
    if DriveFirst(u) { SettledPath(IsSpecial(u), u.path); }
    FileNormal(v);
  }

  lemma FileNormal(v: Url)
    requires v.scheme == FILE && SchemeText(FILE) && AuthorityForm(v) && TailForm(v) && PathUrl(v)
    ensures Normal(v)
  {
  }
}
