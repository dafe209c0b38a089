/**
 Texts that js/secsdk-lastest.umd.js parses to URLs which do not come back from their own text: a member of each
 family that the round trip excludes, reached by every run on the text given here.
 */
module UrlLost {
  import opened Wrappers
  import opened UrlRecord
  import opened UrlHost
  import opened UrlHostText
  import opened UrlStates
  import opened UrlRuns
  import opened UrlPrinter
  import opened UrlNormal
  import opened UrlOutputs
  import opened UrlReadBack
  import opened UrlAuthority
  import opened UrlRoundTrip
  import Delimited
  import Ip = IpAddress
  import Puny = Punycode

  /** A path that ends the text. */
  lemma ReadToEnd(t: Input, c: Config, segments: seq<seq<int>>, o: Outcome, e: Config)
    requires t.override.None? && Ends(t, c, o, e) && c.stage == Path && c.buffer == []
    requires segments != [] && forall i :: 0 <= i < |segments| ==> SegmentText(IsSpecial(c.url), segments[i])
    requires Ahead(t, c.pointer, Delimited.Join(segments, SLASH)) && EncodedSegments(segments) == Some(segments)
    ensures o == Parsed && e.url == Walked(c.url, segments)
  {
    hide Ends, Ahead, Walked, EncodedSegments, Delimited.Join, SegmentText, IsSpecialScheme, After;
    var text := Delimited.Join(segments, SLASH);
    Empties(text);
    ReadPath(t, c, segments, [], o, e);
    AheadRest(t, c.pointer + |text|, []);
    Arrived(t, AfterTail(c.(pointer := c.pointer + |text|, url := Walked(c.url, segments)), []), o, e);
  }

  // ---------- A path that looks like an authority ----------

  lemma DotIsSkipped(u: Url)
    ensures WithSegment(u, [DOT], true) == u
  {
    assert LowerText([DOT]) == [DOT];
  }

  lemma DotKept()
    ensures Encodes([DOT], PATH_SET) == Some([DOT]) && SegmentText(false, [DOT])
  {
    KeptEncodes([DOT], PATH_SET);
  }

  lemma DotSegments(x: seq<int>)
    requires SegmentForm(false, x)
    ensures EncodedSegments([[DOT], [], x]) == Some([[DOT], [], x])
    ensures Delimited.Join([[DOT], [], x], SLASH) == [DOT, SLASH, SLASH] + x
    ensures forall s :: s in [[DOT], [], x] ==> SegmentText(false, s)
  {
    hide Encodes, SegmentText, SegmentForm, EncodedSegments, Delimited.Join;
    DotKept();
    SegmentKept(false, x);
    EmptySegment(false);
    SegmentKept(false, []);
    OneSegment(x);
    SegmentInFront([], [x]);
    assert [[]] + [x] == [[], x];
    SegmentInFront([DOT], [[], x]);
    assert [[DOT]] + [[], x] == [[DOT], [], x];
    assert [DOT] + [SLASH] + ([] + [SLASH] + x) == [DOT, SLASH, SLASH] + x;
  }

  lemma SegmentInFront(s: seq<int>, more: seq<seq<int>>)
    requires Encodes(s, PATH_SET) == Some(s) && EncodedSegments(more) == Some(more) && more != []
    ensures EncodedSegments([s] + more) == Some([s] + more)
    ensures Delimited.Join([s] + more, SLASH) == s + [SLASH] + Delimited.Join(more, SLASH)
  {
    hide Encodes;
    assert ([s] + more)[1..] == more;
  }

  /** "scheme:/.//x" is parsed to the URL whose path starts with an empty segment, and its text is the text of another URL. */
  lemma HostlessReached(scheme: seq<int>, x: seq<int>, t: Input, o: Outcome, e: Config)
    requires SchemeText(scheme) && !IsSpecialScheme(scheme) && SegmentForm(false, x)
    requires t.override.None? && t.cps == scheme + ([COLON] + ([SLASH] + ([DOT, SLASH, SLASH] + x))) && Ends(t, Fresh(), o, e)
    ensures o == Parsed && e.url == FRESH.(scheme := scheme, path := [[], x]) && !ComesBack(e.url)
  {
    hide Ends, Ahead, IsSpecialScheme, SchemeText, SegmentForm, Walked, EncodedSegments, Delimited.Join, WithSegment, SegmentText;
    var u, rest := FRESH.(scheme := scheme), [DOT, SLASH, SLASH] + x;
    var segments := [[DOT], [], x];
    ReadScheme(t, scheme, [SLASH] + rest, o, e);
    HostlessPath(t, u, rest, o, e);
    DotSegments(x);
    var c := Config(u, Path, |scheme| + 2, [], false, false, false);
    ReadToEnd(t, c, segments, o, e);
    HostlessSegments(u, x);
    FileIsSpecial();
  }

  lemma HostlessSegments(u: Url, x: seq<int>)
    requires !IsSpecial(u) && u.path == [] && SegmentForm(false, x)
    ensures Walked(u, [[DOT], [], x]) == u.(path := [[], x])
  {
    hide IsSpecialScheme, SegmentForm, WithSegment;
    var all, two := [[DOT], [], x], [[], x];
    DotIsSkipped(u);
    EmptySegment(false);
    FileIsSpecial();
    assert all[1..] == two && [] + two == two;
    WalkedAppends(u, two);
  }

  /** The run exists, and the URL is one the parser gives: "s:/.//x". */
  lemma HostlessExample(lower: seq<int> -> seq<int>)
    requires IsLowering(lower)
    ensures var t := Input([0x73, COLON, SLASH, DOT, SLASH, SLASH, 0x78], None, None, lower);
            exists e :: Ends(t, Fresh(), Parsed, e) && Normal(e.url) && !ComesBack(e.url)
  {
    hide IsLowering, Normal, ComesBack, Ready, IsParse, Ends;
    var t := Input([0x73, COLON, SLASH, DOT, SLASH, SLASH, 0x78], None, None, lower);
    FreshReady(t);
    var trace, o, e := SomeRun(t, Fresh());
    EndsBy(t, Fresh(), trace, o, e);
    LetterForms();
    assert t.cps == [0x73] + ([COLON] + ([SLASH] + ([DOT, SLASH, SLASH] + [0x78])));
    HostlessReached([0x73], [0x78], t, o, e);
    LettersGiven(t);
    OutputNormal(t, o, e);
  }

  lemma LettersGiven(t: Input)
    requires t.cps == [0x73, COLON, SLASH, DOT, SLASH, SLASH, 0x78] && t.base == None && t.override == None && IsLowering(t.lower)
    ensures Given(t)
  {
    hide IsLowering;
  }

  lemma LetterForms()
    ensures SchemeText([0x73]) && !IsSpecialScheme([0x73]) && SegmentForm(false, [0x78])
  {
    assert LowerText([0x78]) == [0x78];
  }

  /** Two URLs in normal form have one text, so no parser could give both back. */
  lemma HostlessAmbiguous(scheme: seq<int>, x: seq<int>)
    requires SchemeText(scheme) && !IsSpecialScheme(scheme) && x != [] && SegmentForm(false, x) && NameForm(false, x)
    ensures var u, v := FRESH.(scheme := scheme, path := [[], x]), FRESH.(scheme := scheme, host := Text(x));
            && Normal(u) && Normal(v) && u != v && IsHostText(u.host, []) && IsHostText(v.host, x)
            && Printed(u, []) == Printed(v, x)
  {
    hide SchemeText, IsSpecialScheme, SegmentForm, NameForm, Printed;
    FileIsSpecial();
    EmptySegment(false);
    var u, v := FRESH.(scheme := scheme, path := [[], x]), FRESH.(scheme := scheme, host := Text(x));
    AmbiguousText(scheme, x);
  }

  lemma AmbiguousText(scheme: seq<int>, x: seq<int>)
    requires scheme != FILE
    ensures Printed(FRESH.(scheme := scheme, path := [[], x]), []) == Printed(FRESH.(scheme := scheme, host := Text(x)), x)
  {
    var u, v := FRESH.(scheme := scheme, path := [[], x]), FRESH.(scheme := scheme, host := Text(x));
    assert Delimited.Join([x], SLASH) == x;
    assert u.path[1..] == [x];
    assert Delimited.Join(u.path, SLASH) == [] + [SLASH] + x == [SLASH] + x;
    assert PathText(u.path) == [SLASH, SLASH] + x;
    assert AuthorityText(v, x) == [SLASH, SLASH] + x;
    assert AuthorityText(u, []) + (MiddleText(u) + TailText(u)) == [SLASH, SLASH] + x ==
           AuthorityText(v, x) + (MiddleText(v) + TailText(v));
  }

  // ---------- A file without a host ----------

  /** "file:s", without a base, has no host; its text has the empty one. */
  lemma FileReached(s: seq<int>, t: Input, o: Outcome, e: Config)
    requires s != [] && SegmentForm(true, s) && !IsWindowsDriveLetter(s, false)
    requires t.override.None? && t.base == None && t.cps == FILE + ([COLON] + s) && Ends(t, Fresh(), o, e)
    ensures o == Parsed && e.url == FRESH.(scheme := FILE, path := [s]) && !ComesBack(e.url)
  {
    hide Ends, Ahead, SegmentForm, Walked, After, BehindScheme, SegmentText, IsWindowsDriveLetter;
    FileScheme();
    FileIsSpecial();
    SegmentKept(true, s);
    FirstKept(s);
    ReadScheme(t, FILE, s, o, e);
    FileStarts(t, s);
    Step(t, BehindScheme(t, FILE, false), o, e);
    var c := Config(FRESH.(scheme := FILE), Path, 5, [], false, false, false);
    OneSegment(s);
    ReadToEnd(t, c, [s], o, e);
    assert c.url.path + [s] == [s];
    WalkedAppends(c.url, [s]);
  }

  lemma FirstKept(s: seq<int>)
    requires s != [] && SegmentText(true, s)
    ensures s[0] != SLASH && s[0] != BACKSLASH
  {
  }

  lemma OneSegment(s: seq<int>)
    requires Encodes(s, PATH_SET) == Some(s)
    ensures EncodedSegments([s]) == Some([s]) && Delimited.Join([s], SLASH) == s
  {
    hide Encodes;
    var rest := [s][1..];
    assert rest == [] && EncodedSegments(rest) == Some([]) && [s] + [] == [s];
  }

  lemma FileStarts(t: Input, s: seq<int>)
    requires t.base == None && Ahead(t, 5, s) && s != [] && s[0] != SLASH && s[0] != BACKSLASH
    ensures var c := BehindScheme(t, FILE, false);
            c.pointer == 5 && After(t, c) == Move(Loop, Config(FRESH.(scheme := FILE), Path, 5, [], false, false, false))
  {
    AheadRest(t, 5, s);
  }

  // ---------- A drive letter behind an empty segment ----------

  /**
   "file://host//c|": the empty segment hides the drive letter until the path has ended, so it keeps its bar and
   the host; in the text it is the first segment, and loses them.
   */
  lemma DriveReached(host: Host, h: seq<int>, d: seq<int>, t: Input, o: Outcome, e: Config)
    requires HostForm(FRESH.(scheme := FILE, host := host)) && IsHostText(host, h) && host != NoHost
    requires IsWindowsDriveLetter(d, false) && IsLowering(t.lower) && (host.Text? ==> IsPlainLabel(host.text))
    requires t.override.None? && t.cps == FILE + ([COLON] + ([SLASH] + ([SLASH] + (h + ([SLASH] + ([SLASH] + d))))))
             && Ends(t, Fresh(), o, e)
    ensures o == Parsed && e.url == FRESH.(scheme := FILE, host := host, path := [d])
    ensures d[1] == PIPE || Truthy(host) ==> !ComesBack(e.url)
  {
    hide Ends, Ahead, HostForm, IsHostText, IsLowering, HostReading, Walked, After, AuthorityCharacters,
      Delimited.Join, EncodedSegments, SegmentText, HostSpan, BracketOpen;
    var u := FRESH.(scheme := FILE, host := host);
    FileIsSpecial();
    HostIsNoDrive(u, h);
    HostTextSpan(u, h);
    if h != [] {
      HostTextRead(u, h, t.lower);
      NotLocal(u);
    }
    ReachFileHost(t, h + ([SLASH] + ([SLASH] + d)), o, e);
    ReadFileHost(t, h, [SLASH] + d, o, e);
    var c := Config(u, PathStart, 7 + |h|, [], false, false, false);
    AheadFirst(t, c.pointer, SLASH, [SLASH] + d);
    PathBegins(t, c);
    Step(t, c, o, e);
    DriveSegments(d);
    ReadToEnd(t, c.(stage := Path, pointer := c.pointer + 1), [[], d], o, e);
    DriveWalked(u, d);
  }

  lemma NotLocal(u: Url)
    requires u.scheme == FILE && HostForm(u)
    ensures LocalIsNone(u.host) == u.host
  {
    hide NameForm;
  }

  lemma DriveForm(d: seq<int>)
    requires IsWindowsDriveLetter(d, false)
    ensures SegmentForm(true, d)
  {
    var l := LowerText(d);
    assert l[1] == d[1] && d[1] in {COLON, PIPE};
  }

  lemma DriveSegments(d: seq<int>)
    requires IsWindowsDriveLetter(d, false)
    ensures EncodedSegments([[], d]) == Some([[], d]) && Delimited.Join([[], d], SLASH) == [SLASH] + d
    ensures SegmentText(true, []) && SegmentText(true, d)
  {
    hide IsWindowsDriveLetter, Encodes, SegmentText, SegmentForm;
    DriveForm(d);
    SegmentKept(true, d);
    EmptySegment(true);
    SegmentKept(true, []);
    OneSegment(d);
    SegmentInFront([], [d]);
    assert [[]] + [d] == [[], d];
    assert [] + [SLASH] + d == [SLASH] + d;
  }

  lemma DriveWalked(u: Url, d: seq<int>)
    requires u.scheme == FILE && u.path == [] && IsWindowsDriveLetter(d, false)
    ensures Walked(u, [[], d]) == u.(path := [d])
  {
    hide SegmentForm, WithSegment;
    FileIsSpecial();
    EmptySegment(true);
    DriveForm(d);
    NoDrive();
    SegmentAppends(u, [], true);
    var v := u.(path := [] + [[]]);
    SegmentAppends(v, d, false);
    assert [[], d][1..] == [d] && v.path + [d] == [[], d];
    assert DropEmpty([[], d]) == [d];
  }

  lemma NoDrive()
    ensures !IsWindowsDriveLetter([], false)
  {
  }

  // ---------- A DEL in a host ----------

  const DEL := 0x7F

  /** A label of ASCII text with a DEL in it, as the parser takes it. */
  predicate DelLabel(s: seq<int>) { AsciiText(s) && HasNoCapital(s) && !HoldsForbidden(s, FORBIDDEN) && DOT !in s && DEL in s }

  function DelHost(s: seq<int>): seq<int> { ACE + (s + [Puny.DELIMITER]) }

  lemma {:induction false} BelowAscii(s: seq<int>)
    requires AsciiText(s)
    ensures Puny.Below(s, Puny.INITIAL_N) == s
  {
    if s != [] {
      BelowAscii(s[1..]);
      assert s == [s[0]] + s[1..];
    }
  }

  lemma DelDomain(s: seq<int>)
    requires DelLabel(s)
    ensures DomainText(s) == Some(DelHost(s))
  {
    hide Puny.Digits, HoldsForbidden;
    AsciiUnits(s);
    BelowAscii(s);
    Delimited.SplitPiece(s, DOT, []);
    assert !IsPlainLabel(s) by { var i :| 0 <= i < |s| && s[i] == DEL; }
    assert LabelText(s) == Some(DelHost(s));
    var rest := [s][1..];
    assert rest == [] && [DelHost(s)] + [] == [DelHost(s)];
    assert LabelTexts([s]) == Some([DelHost(s)]);
  }

  /** Its host is the label in Punycode, with the DEL still in it. */
  lemma DelRead(s: seq<int>, lower: seq<int> -> seq<int>)
    requires DelLabel(s) && IsLowering(lower)
    ensures HostReading(s, true, lower) == Read(Text(DelHost(s))) && !IsPlainLabel(DelHost(s))
  {
    hide DomainText, IsLowering, HoldsForbidden;
    LowerStays(s, lower);
    DelDomain(s);
    DelAllowed(s);
    DelIsNoAddress(s);
  }

  lemma DelAllowed(s: seq<int>)
    requires DelLabel(s)
    ensures !HoldsForbidden(DelHost(s), FORBIDDEN) && !IsPlainLabel(DelHost(s)) && s[0] != OPEN_BRACKET
  {
    var d := DelHost(s);
    assert s[0] !in FORBIDDEN;
    forall i | 0 <= i < |d| ensures d[i] !in FORBIDDEN {
      if 4 <= i < 4 + |s| { assert d[i] == s[i - 4]; }
    }
    var i :| 0 <= i < |s| && s[i] == DEL;
    assert d[i + 4] == DEL;
  }

  lemma DelIsNoAddress(s: seq<int>)
    requires DelLabel(s)
    ensures Ip.ParsedIPv4(DelHost(s)) == Ip.NotIPv4
  {
    hide HoldsForbidden, AsciiText, HasNoCapital, Ip.InRange, Ip.Weighted;
    var d := DelHost(s);
    assert DOT !in d;
    Delimited.SplitPiece(d, DOT, []);
    assert Ip.IPv4Parts(d) == [d];
    assert d[0] == 0x78 && !Ip.IsDigitOf(d[0], 10);
    assert Ip.PartNumber(d) == None;
    assert Ip.Numbers([d]) == None;
  }

  /** "http://s/" with a DEL in s is parsed, and to a host that is not read as itself. */
  lemma DelReached(s: seq<int>, t: Input, o: Outcome, e: Config)
    requires DelLabel(s) && IsLowering(t.lower) && t.override.None? && Ends(t, Fresh(), o, e)
    requires t.cps == HTTP + ([COLON] + ([SLASH] + ([SLASH] + (s + [SLASH]))))
    ensures o == Parsed && e.url == FRESH.(scheme := HTTP, host := Text(DelHost(s)), path := [[]]) && !ComesBack(e.url)
  {
    hide Ends, Ahead, IsLowering, HostReading, Walked, After, AuthorityCharacters, EncodedSegments, SegmentText,
      HostSpan, BracketOpen, DelLabel, IsSpecialScheme, SchemeText;
    var a := Config(FRESH.(scheme := HTTP), Authority, 7, [], false, false, false);
    DelScan(s);
    ReadScheme(t, HTTP, [SLASH] + ([SLASH] + (s + [SLASH])), o, e);
    ReachAuthority(t, HTTP, s + [SLASH], o, e);
    AuthorityGathers(a, s);
    RewindToHost(t, a, s, [SLASH], o, e);
    DelRead(s, t.lower);
    var c := a.(stage := HostName);
    ReadHost(t, c, s, [SLASH], o, e);
    var d := BehindHost(c, Text(DelHost(s)), |s|, false);
    EndsWithSlash(t, d, o, e);
  }

  lemma DelScan(s: seq<int>)
    requires DelLabel(s)
    ensures s != [] && s[0] !in {SLASH, BACKSLASH} && AuthorityCharacters(s) && HostSpan(true, s, false) && !BracketOpen(s, false)
    ensures SchemeText(HTTP) && IsSpecialScheme(HTTP) && HTTP != FILE
  {
    forall i | 0 <= i < |s| ensures NameCharacter(s[i]) { assert s[i] !in FORBIDDEN; }
    NameSpan(true, s);
  }

  /** A "/" at the end of the text is an empty path. */
  lemma EndsWithSlash(t: Input, d: Config, o: Outcome, e: Config)
    requires t.override.None? && Ends(t, d, o, e) && d.stage == PathStart && d.buffer == [] && Ahead(t, d.pointer, [SLASH])
    requires d.url.path == [] && d.url.scheme != FILE && IsSpecial(d.url)
    ensures o == Parsed && e.url == d.url.(path := [[]])
  {
    hide Ends, Ahead, Walked, After, EncodedSegments, SegmentText, IsSpecialScheme, SegmentForm;
    assert [SLASH] == [SLASH] + [];
    AheadFirst(t, d.pointer, SLASH, []);
    PathBegins(t, d);
    Step(t, d, o, e);
    var p := d.(stage := Path, pointer := d.pointer + 1);
    EmptySegment(true);
    SegmentKept(true, []);
    OneSegment([]);
    ReadToEnd(t, p, [[]], o, e);
    assert d.url.path + [[]] == [[]];
    WalkedAppends(d.url, [[]]);
  }
}
