/**
 What the URL parser of js/secsdk-lastest.umd.js makes of the URL printer's output, for every URL in normal
 form: exactly which of them come back, and what becomes of the others.
 */
module UrlRoundTrip {
  import opened Wrappers
  import opened UrlRecord
  import opened UrlHost
  import opened UrlHostText
  import opened UrlStates
  import opened UrlRuns
  import opened UrlPrinter
  import opened UrlNormal
  import opened UrlReadBack
  import opened UrlAuthority
  import Delimited
  import Ip = IpAddress
  import Puny = Punycode

  // ---------- Which URLs come back ----------

  predicate DriveFirst(u: Url) { u.path != [] && IsWindowsDriveLetter(u.path[0], false) }

  /** A file URL as it is parsed again: it has a host, if only the empty one, and a drive letter takes its place. */
  function Settled(u: Url): Url {
    var v := if u.host == NoHost then u.(host := Text([])) else u;
    if DriveFirst(u) then v.(host := if Truthy(v.host) then Text([]) else v.host, path := u.path[0 := [u.path[0][0], COLON]]) else v
  }

  /** The text of a URL without a host is the text of a URL with one. */
  predicate LooksHosted(u: Url) { !u.cannotBeABase && u.host == NoHost && u.scheme != FILE && |u.path| > 1 && u.path[0] == [] }

  /**
   What a URL in normal form must meet to be parsed back: its path is not taken for an authority, no label of its
   host is encoded a second time, and a file URL has a host and no drive letter that would drop it.
   */
  predicate ComesBack(u: Url) {
    && !LooksHosted(u) && PlainHost(u)
    && (u.scheme == FILE ==>
          u.host != NoHost && (DriveFirst(u) ==> IsWindowsDriveLetter(u.path[0], true) && !Truthy(u.host)))
  }

  // ---------- URLs without a host ----------

  lemma OpaqueForms(u: Url)
    requires Normal(u) && u.cannotBeABase
    ensures OpaqueUrl(u) && SchemeText(u.scheme) && TailForm(u) && AllKept(u.path[0], C0_SET) && OpaqueText(u.path[0])
    ensures u == FRESH.(scheme := u.scheme, path := [u.path[0]], query := u.query, fragment := u.fragment, cannotBeABase := true)
  {
    hide IsSpecialScheme, SchemeText, TailForm, AllKept, OpaqueText;
  }

  lemma PrintedOpaque(u: Url, h: seq<int>)
    requires OpaqueUrl(u)
    ensures Printed(u, h) == u.scheme + ([COLON] + (u.path[0] + TailText(u)))
    ensures First(u.path[0] + TailText(u)) != Some(SLASH)
  {
    hide OpaqueText, AllKept, QueryText, FragmentText;
    FileIsSpecial();
    Empties(u.path[0] + TailText(u));
    TailGoesOn(u);
  }

  lemma OpaqueComesBack(u: Url, h: seq<int>, t: Input, o: Outcome, e: Config)
    requires Normal(u) && u.cannotBeABase && t.override.None? && t.cps == Printed(u, h) && Ends(t, Fresh(), o, e)
    ensures o == Parsed && e.url == u
  {
    hide Ends, Ahead, Printed, TailText, TailForm, SchemeText, Normal, AllKept, OpaqueText, AfterTail, Encodes,
      IsSpecialScheme, GoesOn, After, BehindScheme, OpaqueForm;
    OpaqueForms(u);
    var s := u.path[0];
    PrintedOpaque(u, h);
    ReadScheme(t, u.scheme, s + TailText(u), o, e);
    var c := BehindScheme(t, u.scheme, false);
    OpaqueStart(t, u.scheme);
    KeptEncodes(s, C0_SET);
    TailGoesOn(u);
    ReadOpaque(t, c, s, TailText(u), o, e);
    Empties(s);
    ReadTail(t, c.(pointer := c.pointer + |s|, url := c.url.(path := [s])), u, o, e);
  }

  lemma OpaqueStart(t: Input, s: seq<int>)
    requires !IsSpecialScheme(s)
    ensures BehindScheme(t, s, false) ==
            Config(FRESH.(scheme := s, cannotBeABase := true, path := [[]]), CannotBeABase, |s| + 1, [], false, false, false)
  {
    FileIsSpecial();
    assert FRESH.path + [[]] == [[]];
  }

  lemma HostlessForms(u: Url)
    requires Normal(u) && !u.cannotBeABase && u.host == NoHost && u.scheme != FILE
    ensures u == FRESH.(scheme := u.scheme, path := u.path, query := u.query, fragment := u.fragment)
    ensures u.path != [] && PathForm(IsSpecial(u), u.path) && !IsSpecial(u) && TailForm(u) && SchemeText(u.scheme)
  {
    hide IsSpecialScheme, SchemeText, TailForm, PathForm, AllKept;
  }

  lemma PrintedHostless(u: Url, h: seq<int>)
    requires !u.cannotBeABase && u.host == NoHost && u.scheme != FILE && u.path != []
    ensures Printed(u, h) == u.scheme + ([COLON] + ([SLASH] + (Delimited.Join(u.path, SLASH) + TailText(u))))
  {
    hide TailText, Delimited.Join;
    var text := Delimited.Join(u.path, SLASH);
    Empties([SLASH] + text + TailText(u));
    assert [SLASH] + text + TailText(u) == [SLASH] + (text + TailText(u));
  }

  /** What stands behind the slash in front of a path that starts no authority. */
  lemma PathText0(u: Url)
    requires u.path != [] && PathForm(IsSpecial(u), u.path) && (|u.path| == 1 || u.path[0] != [])
    ensures First(Delimited.Join(u.path, SLASH) + TailText(u)) != Some(SLASH)
  {
    hide TailText;
    TailGoesOn(u);
    assert SegmentForm(IsSpecial(u), u.path[0]);
    if u.path[0] != [] { assert u.path[0][0] in u.path[0]; }
  }

  lemma HostlessComesBack(u: Url, h: seq<int>, t: Input, o: Outcome, e: Config)
    requires Normal(u) && !u.cannotBeABase && u.host == NoHost && u.scheme != FILE && !LooksHosted(u)
    requires t.override.None? && t.cps == Printed(u, h) && Ends(t, Fresh(), o, e)
    ensures o == Parsed && e.url == u
  {
    hide Ends, Ahead, Printed, TailText, TailForm, SchemeText, Normal, PathForm, IsSpecialScheme, Walked, Delimited.Join;
    var rest := Delimited.Join(u.path, SLASH) + TailText(u);
    HostlessForms(u);
    PrintedHostless(u, h);
    PathText0(u);
    ReadScheme(t, u.scheme, [SLASH] + rest, o, e);
    HostlessPath(t, u, rest, o, e);
    var d := Config(FRESH.(scheme := u.scheme), Path, |u.scheme| + 2, [], false, false, false);
    ReadSegments(t, d, u, o, e);
    HostlessWalked(u);
  }

  lemma HostlessWalked(u: Url)
    requires u.path != [] && PathForm(IsSpecial(u), u.path) && u.scheme != FILE
    ensures Walked(FRESH.(scheme := u.scheme), u.path) == FRESH.(scheme := u.scheme, path := u.path)
  {
    hide IsSpecialScheme, SegmentForm, Walked;
    assert SegmentForm(IsSpecial(u), u.path[0]);
    assert [] + u.path == u.path;
    WalkedAppends(FRESH.(scheme := u.scheme), u.path);
  }

  lemma HostlessPath(t: Input, u: Url, rest: seq<int>, o: Outcome, e: Config)
    requires t.override.None? && !IsSpecial(u) && First(rest) != Some(SLASH)
    requires Ends(t, BehindScheme(t, u.scheme, true), o, e) && Ahead(t, |u.scheme| + 1, [SLASH] + rest)
    ensures Ends(t, Config(FRESH.(scheme := u.scheme), Path, |u.scheme| + 2, [], false, false, false), o, e)
    ensures Ahead(t, |u.scheme| + 2, rest)
  {
    hide Ends, Ahead, IsSpecialScheme;
    FileIsSpecial();
    AheadFirst(t, |u.scheme| + 1, SLASH, rest);
    AheadRest(t, |u.scheme| + 2, rest);
    Step(t, BehindScheme(t, u.scheme, true), o, e);
  }

  // ---------- A path that is taken for an authority ----------

  /** From the authority on a URL without a host is out of reach. */
  predicate InAuthority(t: Input, c: Config) {
    if c.stage == Authority || c.stage == HostName then c.pointer <= |t.cps|
    else c.stage in {Port, PathStart, Path, CannotBeABase, Query, Fragment} && c.url.host != NoHost
  }

  lemma AuthorityTurn(t: Input, c: Config)
    requires t.override.None? && InAuthority(t, c) && c.pointer <= |t.cps| && After(t, c).next.Loop?
    ensures InAuthority(t, After(t, c).config)
  {
    hide IsSpecialScheme, AfterAt, Ip.Value, HostReading, PathEnded, PercentEncode, QueryEncode, PlusText, FirstGrown;
    if c.stage == Authority {
      AtStays(c);
      AtMoves(c);
    } else if c.stage == HostName {
      if BufferRead(t, c).Read? { HostOfNonEmpty(c.buffer, IsSpecial(c.url), t.lower); }
    } else {
      LateTurn(t, c, NoHost);
    }
  }

  lemma AtMoves(c: Config)
    ensures AfterAt(c).next.Loop? ==> AfterAt(c).config.pointer == c.pointer + 1
  {
    hide Encodes, PasswordAt, PasswordFrom;
  }

  /** Behind the host it changes at most to the empty one. */
  lemma LateTurn(t: Input, c: Config, host: Host)
    requires t.override.None? && c.stage in {Port, PathStart, Path, CannotBeABase, Query, Fragment} && After(t, c).next.Loop?
    requires c.url.host != host && host != Text([])
    ensures After(t, c).config.stage in {Port, PathStart, Path, CannotBeABase, Query, Fragment}
            && After(t, c).config.url.host != host
  {
    hide IsSpecialScheme, PercentEncode, AfterSegment, AfterPort, AfterPathStart, AfterCannotBeABase, AfterQuery, AfterFragment;
    if c.stage == Path {
      SegmentHost(c, t.At(c.pointer), host);
    } else if c.stage == Port {
      PortHost(t, c);
    } else if c.stage == PathStart {
      PathStartHost(t, c);
    } else {
      TailHost(t, c);
    }
  }

  lemma PortHost(t: Input, c: Config)
    requires c.stage == Port && AfterPort(t, c).next.Loop?
    ensures var d := AfterPort(t, c).config; d.stage in {Port, PathStart} && d.url.host == c.url.host
  {
    hide IsSpecialScheme, Ip.Value, KeptPort;
  }

  lemma PathStartHost(t: Input, c: Config)
    ensures var m := AfterPathStart(t, c);
            m.next.Loop? ==> m.config.stage in {PathStart, Path, Query, Fragment} && m.config.url.host == c.url.host
  {
    hide IsSpecialScheme;
  }

  /** The move stays behind the path and keeps the host. */
  predicate TailMove(c: Config, m: Move) {
    m.next.Loop? ==> m.config.stage in {CannotBeABase, Query, Fragment} && m.config.url.host == c.url.host
  }

  lemma TailHost(t: Input, c: Config)
    requires t.override.None?
    ensures TailMove(c, AfterCannotBeABase(t, c)) && TailMove(c, AfterQuery(t, c)) && TailMove(c, AfterFragment(t, c))
  {
    hide IsSpecialScheme, PercentEncode, QueryEncode, PlusText, FirstGrown;
  }

  lemma SegmentHost(c: Config, chr: Option<int>, host: Host)
    requires c.stage == Path && c.url.host != host && host != Text([])
    ensures var m := AfterSegment(c, chr); m.next == Loop && m.config.stage in {Path, Query, Fragment} && m.config.url.host != host
  {
    hide PathEnded, IsSpecialScheme;
    var slash := IsSlash(chr, c.url);
    var end := chr.None? || chr.value in {QUESTION, HASH};
    PathEndedKeeps(c.url, c.buffer, slash, end);
  }

  lemma {:induction false} AuthorityKeepsHost(t: Input, c: Config, trace: seq<Config>, o: Outcome, e: Config)
    requires t.override.None? && InAuthority(t, c) && IsParse(t, c, trace, o, e)
    ensures o == Parsed ==> e.url.host != NoHost
    decreases |trace|
  {
    hide After, InAuthority;
    if |trace| > 1 {
      TraceRest(t, trace, o, e);
      AuthorityTurn(t, c);
      AuthorityKeepsHost(t, trace[1], trace[1..], o, e);
    } else {
      AuthorityEnds(t, c, o, e);
    }
  }

  lemma AuthorityEnds(t: Input, c: Config, o: Outcome, e: Config)
    requires t.override.None? && InAuthority(t, c)
    requires if c.pointer > |t.cps| then o == Parsed && e == c else Turns(t, c, Move(Stop(o), e))
    ensures o == Parsed ==> e.url.host != NoHost
  {
    hide After;
    if c.pointer <= |t.cps| { StopsUnparsed(t, c); }
  }

  /** Without an override no turn returns but with a failure or an exception. */
  lemma StopsUnparsed(t: Input, c: Config)
    requires t.override.None?
    ensures After(t, c).next != Stop(Parsed)
  {
    hide IsSpecialScheme, Encodes, Ip.Value, HostReading, PathEnded, PercentEncode, QueryEncode, PlusText, FirstGrown,
      KeptPort, AfterScheme, SchemeUrl, PasswordAt, PasswordFrom, DriveAhead, IsWindowsDriveLetter, FromBase,
      Shortened, LocalIsNone;
  }

  /** The text of such a URL never gives a URL without a host. */
  lemma HostlessLost(u: Url, h: seq<int>, t: Input, o: Outcome, e: Config)
    requires Normal(u) && LooksHosted(u) && t.override.None? && t.cps == Printed(u, h) && Ends(t, Fresh(), o, e)
    ensures o == Parsed ==> e.url.host != NoHost
  {
    hide Ahead, Printed, TailText, TailForm, SchemeText, Normal, PathForm, IsSpecialScheme, IsParse;
    var rest := Delimited.Join(u.path[1..], SLASH) + TailText(u);
    HostlessForms(u);
    PrintedHostless(u, h);
    assert Delimited.Join(u.path, SLASH) + TailText(u) == [SLASH] + rest;
    ReadScheme(t, u.scheme, [SLASH] + ([SLASH] + rest), o, e);
    var d := Config(FRESH.(scheme := u.scheme), Authority, |u.scheme| + 3, [], false, false, false);
    IntoAuthority(t, u, rest, o, e);
    var trace :| IsParse(t, d, trace, o, e);
    AuthorityKeepsHost(t, d, trace, o, e);
  }

  lemma IntoAuthority(t: Input, u: Url, rest: seq<int>, o: Outcome, e: Config)
    requires t.override.None? && !IsSpecial(u)
    requires Ends(t, BehindScheme(t, u.scheme, true), o, e) && Ahead(t, |u.scheme| + 1, [SLASH] + ([SLASH] + rest))
    ensures Ends(t, Config(FRESH.(scheme := u.scheme), Authority, |u.scheme| + 3, [], false, false, false), o, e)
    ensures |u.scheme| + 3 <= |t.cps|
  {
    hide Ends, Ahead, IsSpecialScheme;
    FileIsSpecial();
    AheadFirst(t, |u.scheme| + 1, SLASH, [SLASH] + rest);
    AheadFirst(t, |u.scheme| + 2, SLASH, rest);
    AheadRest(t, |u.scheme| + 3, rest);
    Step(t, BehindScheme(t, u.scheme, true), o, e);
  }

  // ---------- URLs with a host, not files ----------

  lemma HostedForms(u: Url)
    requires Normal(u) && u.host != NoHost && u.scheme != FILE
    ensures !u.cannotBeABase && SchemeText(u.scheme) && HostForm(u) && TailForm(u) && PortOk(u) && PathForm(IsSpecial(u), u.path)
    ensures AllKept(u.username, USERINFO_SET) && AllKept(u.password, USERINFO_SET)
    ensures u.host == Text([]) ==> !IncludesCredentials(u) && u.port == None && !IsSpecial(u)
    ensures IsSpecial(u) ==> u.path != []
  {
    hide IsSpecialScheme, SchemeText, TailForm, PathForm, AllKept, NameForm, DefaultPort;
  }

  lemma PrintedHosted(u: Url, h: seq<int>)
    requires u.host != NoHost && !u.cannotBeABase
    ensures Printed(u, h) == u.scheme + ([COLON] + ([SLASH] + ([SLASH] +
              (Credentials(u) + (h + (PortText(u.port) + (PathText(u.path) + TailText(u))))))))
  {
    hide Credentials, PortText, PathText, TailText;
    var a, b := Credentials(u) + (h + PortText(u.port)), PathText(u.path) + TailText(u);
    assert a + b == Credentials(u) + (h + (PortText(u.port) + b));
    assert [SLASH, SLASH] + a + b == [SLASH] + ([SLASH] + (a + b));
  }

  lemma RestGoesOn(u: Url)
    ensures GoesOn(PathText(u.path) + TailText(u), DELIMITERS)
  {
  }

  /** The digits of a port as it is printed. */
  function PrintedPort(u: Url): Option<seq<int>> { if u.port.Some? && u.port.value >= 0 then Some(Ip.Dec(u.port.value)) else None }

  lemma PrintedOrigin(u: Url, h: seq<int>)
    requires Normal(u) && u.host != NoHost && u.scheme != FILE
    ensures Printed(u, h) == Origin(u, h, PortDigits(PrintedPort(u)), PathText(u.path) + TailText(u)) && AuthorityReady(u)
    ensures PrintedPort(u).Some? ==> IsNumeral(PrintedPort(u).value) && Ip.Value(PrintedPort(u).value, 10) == u.port.value
  {
    hide Normal, HostForm, SchemeText, PathForm, TailForm, AllKept, DefaultPort, Credentials, PathText, TailText,
      Ip.Dec, Ip.Value, IsSpecialScheme;
    HostedForms(u);
    PrintedHosted(u, h);
    if u.port.Some? { Ip.DecValue(u.port.value); }
  }

  /** The port of a URL in normal form is kept as it is. */
  lemma PortStays(u: Url)
    requires Normal(u) && u.host != NoHost && u.scheme != FILE
    ensures u.port.Some? ==> 0 <= u.port.value <= 0xFFFF
    ensures u.port.Some? ==> forall v: Url :: v.scheme == u.scheme ==> KeptPort(v, u.port.value) == u.port
    ensures PrintedPort(u).Some? <==> u.port.Some?
    ensures u.host == Text([]) ==> u.port == None
  {
    hide DefaultPort, IsSpecialScheme, SchemeText, PathForm, TailForm, AllKept, NameForm;
  }

  lemma HostedComesBack(u: Url, h: seq<int>, t: Input, o: Outcome, e: Config)
    requires Normal(u) && u.host != NoHost && u.scheme != FILE && IsHostText(u.host, h) && PlainHost(u) && IsLowering(t.lower)
    requires t.override.None? && t.cps == Printed(u, h) && Ends(t, Fresh(), o, e)
    ensures o == Parsed && e.url == u
  {
    hide Ends, Ahead, IsHostText, IsSpecialScheme, Normal, Printed, PathText, TailText, IsLowering, HostForm,
      PrintedPort, PortDigits, PathForm, TailForm, AllKept, GoesOn, SchemeText, DefaultPort, Origin, BehindOrigin,
      KeptPort, IsNumeral, Ip.Value, Ip.Dec;
    var rest := PathText(u.path) + TailText(u);
    HostedForms(u);
    PrintedOrigin(u, h);
    PortStays(u);
    RestGoesOn(u);
    ReadOrigin(u, h, PrintedPort(u), rest, t, o, e);
    OriginForm(u, h, PrintedPort(u), u.port);
    ReadRest(t, BehindOrigin(u, h, PrintedPort(u), u.port), u, o, e);
  }

  /** Where a label of the host is encoded again, another host comes of it, or none. */
  lemma HostedLost(u: Url, h: seq<int>, t: Input, o: Outcome, e: Config)
    requires Normal(u) && u.host != NoHost && u.scheme != FILE && IsHostText(u.host, h) && !PlainHost(u) && IsLowering(t.lower)
    requires t.override.None? && t.cps == Printed(u, h) && Ends(t, Fresh(), o, e)
    ensures o == Parsed ==> e.url.host != u.host
  {
    hide Ahead, IsHostText, IsSpecialScheme, Normal, Printed, PathText, TailText, IsLowering, HostForm, Origin,
      PrintedPort, PortDigits, HostSpan, BracketOpen, HostReading, AuthorityCharacters, PathForm, TailForm, AllKept,
      GoesOn, SchemeText, DefaultPort, IsParse, AtHost, IsNumeral, Ip.Value;
    var rest := PathText(u.path) + TailText(u);
    var port := PortDigits(PrintedPort(u));
    AtHostForm(u);
    HostedForms(u);
    PrintedOrigin(u, h);
    PortStays(u);
    RestGoesOn(u);
    DigitsCharacters(PrintedPort(u), rest);
    ReachHost(u, h, port, rest, t, o, e);
    HostTextSpan(u, h);
    HostTextDiffers(u, h, t.lower);
    ReadHost(t, AtHost(u), h, port + rest, o, e);
    var r := HostReading(h, true, t.lower);
    if r.Read? {
      var d := BehindHost(AtHost(u), r.host, |h|, First(port + rest) == Some(COLON));
      var trace :| IsParse(t, d, trace, o, e);
      LateKeepsHost(t, d, trace, u.host, o, e);
    }
  }

  lemma {:induction false} LateKeepsHost(t: Input, c: Config, trace: seq<Config>, host: Host, o: Outcome, e: Config)
    requires t.override.None? && IsParse(t, c, trace, o, e)
    requires c.stage in {Port, PathStart, Path, CannotBeABase, Query, Fragment} && c.url.host != host && host != Text([])
    ensures o == Parsed ==> e.url.host != host
    decreases |trace|
  {
    hide After;
    if |trace| > 1 {
      TraceRest(t, trace, o, e);
      LateTurn(t, c, host);
      LateKeepsHost(t, trace[1], trace[1..], host, o, e);
    } else if c.pointer <= |t.cps| {
      StopsUnparsed(t, c);
    }
  }

  // ---------- Files ----------

  lemma FileForms(u: Url)
    requires Normal(u) && u.scheme == FILE
    ensures u == FRESH.(scheme := FILE, host := u.host, path := u.path, query := u.query, fragment := u.fragment)
    ensures u.path != [] && PathForm(IsSpecial(u), u.path) && PathWhole(u) && TailForm(u) && HostForm(u) && SchemeText(FILE)
  {
    hide TailForm, PathForm, HostForm;
    FileIsSpecial();
  }

  lemma PrintedFile(u: Url, h: seq<int>)
    requires u == FRESH.(scheme := FILE, host := u.host, path := u.path, query := u.query, fragment := u.fragment)
    requires IsHostText(u.host, h) && u.path != []
    ensures var rest := Delimited.Join(u.path, SLASH) + TailText(u);
            Printed(u, h) == FILE + ([COLON] + ([SLASH] + ([SLASH] + (h + ([SLASH] + rest)))))
  {
    hide TailText, Delimited.Join;
    var text := Delimited.Join(u.path, SLASH);
    var rest := text + TailText(u);
    assert [SLASH] + text + TailText(u) == [SLASH] + rest;
    assert Credentials(u) == [] && PortText(u.port) == [];
    Empties(h);
    Empties(h + []);
    assert [SLASH, SLASH] + h + ([SLASH] + rest) == [SLASH] + ([SLASH] + (h + ([SLASH] + rest)));
    Empties([SLASH] + rest);
    assert [SLASH, SLASH] + ([SLASH] + rest) == [SLASH] + ([SLASH] + ([SLASH] + rest));
  }

  /** Where "file://" leads. */
  function AtFileHost(): Config { Config(FRESH.(scheme := FILE), FileHost, 7, [], false, false, false) }

  lemma ReachFileHost(t: Input, rest: seq<int>, o: Outcome, e: Config)
    requires t.override.None? && t.cps == FILE + ([COLON] + ([SLASH] + ([SLASH] + rest))) && Ends(t, Fresh(), o, e)
    ensures Ends(t, AtFileHost(), o, e) && Ahead(t, 7, rest)
  {
    hide Ends, Ahead, After, BehindScheme;
    FileScheme();
    ReadScheme(t, FILE, [SLASH] + ([SLASH] + rest), o, e);
    AheadFirst(t, 5, SLASH, [SLASH] + rest);
    AheadFirst(t, 6, SLASH, rest);
    var c := Config(FRESH.(scheme := FILE), File, 5, [], false, false, false);
    FileSlashes(t, c);
    Step(t, c, o, e);
    Step(t, c.(stage := FileSlash, pointer := 6), o, e);
  }

  lemma FileSlashes(t: Input, c: Config)
    requires c == Config(FRESH.(scheme := FILE), File, 5, [], false, false, false) && t.At(5) == Some(SLASH)
             && t.At(6) == Some(SLASH)
    ensures BehindScheme(t, FILE, true) == c
    ensures After(t, c) == Move(Loop, c.(stage := FileSlash, pointer := 6))
    ensures After(t, c.(stage := FileSlash, pointer := 6)) == Move(Loop, AtFileHost())
  {
  }

  /** The host of a file URL, up to the slash behind it. */
  lemma ReadFileHost(t: Input, h: seq<int>, rest: seq<int>, o: Outcome, e: Config)
    requires t.override.None? && Ends(t, AtFileHost(), o, e) && Ahead(t, 7, h + ([SLASH] + rest))
    requires AuthorityCharacters(h) && !IsWindowsDriveLetter(h, false)
    ensures var r := HostReading(h, true, t.lower);
            if h == [] || r.Read? then
              var host := if h == [] then Text([]) else LocalIsNone(r.host);
              Ends(t, Config(FRESH.(scheme := FILE, host := host), PathStart, 7 + |h|, [], false, false, false), o, e)
            else o == Refusal(r)
    ensures Ahead(t, 7 + |h|, [SLASH] + rest)
  {
    hide Ends, Ahead, After, HostReading, IsWindowsDriveLetter;
    var c := AtFileHost();
    forall i | 0 <= i < |h| ensures Gathers(c, h[i]) { }
    Gather(t, c, h, [SLASH] + rest, o, e);
    assert c.buffer + h == h;
    var d := c.(pointer := 7 + |h|, buffer := h);
    AheadFirst(t, d.pointer, SLASH, rest);
    FileHostDone(t, d);
    if h == [] || HostReading(h, true, t.lower).Read? { Step(t, d, o, e); } else { Halted(t, d, o, e); }
  }

  lemma FileHostDone(t: Input, d: Config)
    requires t.override.None? && d.stage == FileHost && d.url == FRESH.(scheme := FILE) && t.At(d.pointer) == Some(SLASH)
    requires !IsWindowsDriveLetter(d.buffer, false)
    ensures var r := HostReading(d.buffer, true, t.lower);
            After(t, d) == if d.buffer == [] || r.Read? then
                             var host := if d.buffer == [] then Text([]) else LocalIsNone(r.host);
                             Move(Loop, d.(stage := PathStart, buffer := [], url := d.url.(host := host)))
                           else Halt(d, Refusal(r))
  {
    hide HostReading, IsWindowsDriveLetter;
    FileIsSpecial();
    hide IsSpecialScheme;
  }

  /** No host in normal form is taken for a drive letter. */
  lemma HostIsNoDrive(u: Url, h: seq<int>)
    requires HostForm(u) && IsHostText(u.host, h)
    ensures !IsWindowsDriveLetter(h, false)
  {
    hide Ip.DottedQuad, Ip.ParsedIPv4, IsSpecialScheme, Ip.Recommended;
    match u.host {
      case IPv4(n) => QuadText(n);
      case IPv6(pieces) =>
      case Text(s) => {
        if s != [] { NameCharacters(IsSpecial(u), s); }
        if |s| == 2 && s[1] == PIPE && s != [] { PipeForbidden(IsSpecial(u), s); }
      }
      case NoHost =>
    }
  }

  lemma PipeForbidden(special: bool, s: seq<int>)
    requires NameForm(special, s)
    ensures PIPE !in s
  {
    forall i | 0 <= i < |s| ensures s[i] != PIPE { assert s[i] !in FORBIDDEN - {0x25}; }
  }

  /** The path of a file URL, with everything behind it. */
  lemma ReadFileRest(t: Input, c: Config, u: Url, o: Outcome, e: Config)
    requires t.override.None? && Ends(t, c, o, e) && c.stage == PathStart && c.buffer == [] && Normal(u) && u.scheme == FILE
    requires c.url == FRESH.(scheme := FILE, host := c.url.host)
    requires Ahead(t, c.pointer, [SLASH] + (Delimited.Join(u.path, SLASH) + TailText(u)))
    ensures o == Parsed && e.url == Walked(c.url, u.path).(query := u.query, fragment := u.fragment)
  {
    hide Ends, Ahead, TailText, TailForm, PathForm, HostForm, Normal, After, Walked, Delimited.Join, PathWhole;
    FileForms(u);
    AheadFirst(t, c.pointer, SLASH, Delimited.Join(u.path, SLASH) + TailText(u));
    PathBegins(t, c);
    Step(t, c, o, e);
    ReadSegments(t, c.(stage := Path, pointer := c.pointer + 1), u, o, e);
  }

  lemma FileWalked(u: Url, host: Host)
    requires Normal(u) && u.scheme == FILE
    ensures Walked(FRESH.(scheme := FILE, host := host), u.path).(query := u.query, fragment := u.fragment) ==
            if DriveFirst(u) then
              u.(host := if Truthy(host) then Text([]) else host, path := u.path[0 := [u.path[0][0], COLON]])
            else u.(host := host)
  {
    hide Normal, HostForm, TailForm, SegmentForm, Walked, IsWindowsDriveLetter, IsSpecialScheme;
    FileForms(u);
    var v := FRESH.(scheme := FILE, host := host);
    assert SegmentForm(IsSpecial(u), u.path[0]);
    assert v.path + u.path == u.path;
    if DriveFirst(u) { WalkedDrive(v, u.path); } else { WalkedAppends(v, u.path); }
  }

  /** A printed file URL is parsed to the URL it settles to. */
  lemma FileSettles(u: Url, h: seq<int>, t: Input, o: Outcome, e: Config)
    requires Normal(u) && u.scheme == FILE && IsHostText(u.host, h) && PlainHost(u) && IsLowering(t.lower)
    requires t.override.None? && t.cps == Printed(u, h) && Ends(t, Fresh(), o, e)
    ensures o == Parsed && e.url == Settled(u)
  {
    hide Ends, Ahead, TailText, TailForm, PathForm, HostForm, Normal, Walked, Delimited.Join, Printed, IsHostText,
      IsLowering, HostReading, AuthorityCharacters, IsWindowsDriveLetter, HostSpan, BracketOpen, PathWhole;
    FileForms(u);
    FileRead(u, h, t.lower);
    PrintedFile(u, h);
    var rest := Delimited.Join(u.path, SLASH) + TailText(u);
    ReachFileHost(t, h + ([SLASH] + rest), o, e);
    ReadFileHost(t, h, rest, o, e);
    var host := if u.host == NoHost then Text([]) else u.host;
    ReadFileRest(t, Config(FRESH.(scheme := FILE, host := host), PathStart, 7 + |h|, [], false, false, false), u, o, e);
    FileWalked(u, host);
  }

  lemma FileRead(u: Url, h: seq<int>, lower: seq<int> -> seq<int>)
    requires Normal(u) && u.scheme == FILE && IsHostText(u.host, h) && IsLowering(lower)
    ensures AuthorityCharacters(h) && !IsWindowsDriveLetter(h, false) && (h == [] <==> u.host == NoHost || u.host == Text([]))
    ensures h != [] && PlainHost(u) ==> HostReading(h, true, lower) == Read(u.host) && LocalIsNone(u.host) == u.host
    ensures !PlainHost(u) ==> h != [] && HostReading(h, true, lower) != Read(u.host)
  {
    hide NameForm, HostReading, IsLowering, IsWindowsDriveLetter, HostSpan, BracketOpen;
    FileIsSpecial();
    FileForms(u);
    HostIsNoDrive(u, h);
    if u.host != NoHost {
      HostTextSpan(u, h);
      if h != [] && PlainHost(u) { HostTextRead(u, h, lower); }
      if !PlainHost(u) { HostTextDiffers(u, h, lower); }
    }
  }

  lemma FileLost(u: Url, h: seq<int>, t: Input, o: Outcome, e: Config)
    requires Normal(u) && u.scheme == FILE && IsHostText(u.host, h) && !PlainHost(u) && IsLowering(t.lower)
    requires t.override.None? && t.cps == Printed(u, h) && Ends(t, Fresh(), o, e)
    ensures o == Parsed ==> e.url.host != u.host
  {
    hide Ahead, TailText, TailForm, PathForm, HostForm, Normal, Walked, Delimited.Join, Printed, IsHostText,
      IsLowering, HostReading, AuthorityCharacters, IsWindowsDriveLetter, HostSpan, BracketOpen, PathWhole, IsParse;
    FileForms(u);
    FileRead(u, h, t.lower);
    PrintedFile(u, h);
    var rest := Delimited.Join(u.path, SLASH) + TailText(u);
    ReachFileHost(t, h + ([SLASH] + rest), o, e);
    ReadFileHost(t, h, rest, o, e);
    var r := HostReading(h, true, t.lower);
    if r.Read? {
      var d := Config(FRESH.(scheme := FILE, host := LocalIsNone(r.host)), PathStart, 7 + |h|, [], false, false, false);
      EmptyHostText(u.host, h);
      var trace :| IsParse(t, d, trace, o, e);
      LateKeepsHost(t, d, trace, u.host, o, e);
    }
  }

  lemma EmptyHostText(host: Host, h: seq<int>)
    requires IsHostText(host, h) && h != []
    ensures host != Text([])
  {
  }

  // ---------- Exactly which ----------

  /** A URL that does not come back is another one. */
  lemma SettledExactly(u: Url)
    requires Normal(u) && u.scheme == FILE && PlainHost(u)
    ensures Settled(u) == u <==> ComesBack(u)
  {
    hide Normal, HostForm, TailForm, PathForm, IsSpecialScheme;
    FileForms(u);
    if DriveFirst(u) {
      var s, d := u.path[0], [u.path[0][0], COLON];
      assert u.path[0 := d][0] == d;
      if s[1] == COLON { assert s == d && u.path[0 := d] == u.path; }
    }
  }

  /**
   For every URL in normal form, every base and every way a host may be written: parsing the printed text gives
   the URL back if and only if the URL comes back by its own parts.
   */
  lemma ComesBackExactly(u: Url, h: seq<int>, t: Input, o: Outcome, e: Config)
    requires Normal(u) && IsHostText(u.host, h) && IsLowering(t.lower)
    requires t.override.None? && t.cps == Printed(u, h) && Ends(t, Fresh(), o, e)
    ensures o == Parsed && e.url == u <==> ComesBack(u)
  {
    hide Ends, Normal, IsHostText, IsLowering, Printed, DriveFirst, IsWindowsDriveLetter, Settled;
    if u.cannotBeABase {
      OpaqueIsPlain(u);
      OpaqueComesBack(u, h, t, o, e);
    } else if u.scheme == FILE {
      if PlainHost(u) {
        FileSettles(u, h, t, o, e);
        SettledExactly(u);
      } else {
        FileLost(u, h, t, o, e);
      }
    } else if u.host == NoHost {
      if LooksHosted(u) { HostlessLost(u, h, t, o, e); } else { HostlessComesBack(u, h, t, o, e); }
    } else if PlainHost(u) {
      HostedComesBack(u, h, t, o, e);
    } else {
      HostedLost(u, h, t, o, e);
    }
  }

  lemma OpaqueIsPlain(u: Url)
    requires Normal(u) && u.cannotBeABase
    ensures ComesBack(u)
  {
    FileIsSpecial();
  }
}
