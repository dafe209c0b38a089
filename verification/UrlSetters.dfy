/**
 The setters of js/secsdk-lastest.umd.js's URL object, which re-parse one part of a URL under a state override: the URL
 each of them leaves, whatever text it is given, and which texts leave the URL as it was.
 */
module UrlSetters {
  import opened Wrappers
  import opened UrlRecord
  import opened UrlHost
  import opened UrlStates
  import opened UrlRuns
  import opened UrlPorts
  import opened UrlReference
  import Delimited
  import Ip = IpAddress

  /** The overrides the setters use: protocol, host, hostname, port, pathname, search and hash. */
  predicate IsSetter(s: Stage) { s in {SchemeStart, HostName, HostOnly, Port, PathStart, Query, Fragment} }

  /** A well-formed URL whose path may be cut off: what `pathname` starts from. */
  predicate PathOpen(u: Url) { u.scheme != [] && HostOk(u) && PortOk(u) && !u.cannotBeABase }

  /** What a setter starts from. */
  predicate Settable(s: Stage, u: Url) { if s == PathStart then PathOpen(u) else UrlOk(u) }

  /** What holds of the URL while a part of it is parsed again. */
  predicate Setting(t: Input, c: Config) {
    && 0 <= c.pointer
    && if c.pointer > |t.cps| then UrlOk(c.url)
       else
         match c.stage
         case SchemeStart => UrlOk(c.url) && c.buffer == []
         case Scheme => UrlOk(c.url) && c.buffer != []
         case HostName => UrlOk(c.url)
         case HostOnly => UrlOk(c.url)
         case FileHost => UrlOk(c.url) && c.url.scheme == FILE
         case Port => UrlOk(c.url)
         case PathStart => PathOpen(c.url)
         case Path => PathOpen(c.url)
         case Query => UrlOk(c.url)
         case Fragment => UrlOk(c.url)
         case _ => false
  }

  /** A turn keeps that, and a turn that returns leaves a well-formed URL, except after an exception. */
  predicate Sets(t: Input, m: Move) {
    match m.next
    case Loop => Setting(t, m.config)
    case Stop(o) => o.Thrown? || UrlOk(m.config.url)
  }

  lemma SchemeSets(t: Input, c: Config)
    requires t.override.Some? && Setting(t, c) && c.pointer <= |t.cps|
    ensures c.stage == SchemeStart ==> Sets(t, AfterSchemeStart(t, c))
    ensures c.stage == Scheme ==> Sets(t, AfterSchemeChar(t, c))
  {
    hide UrlOk, Overridden;
    if c.stage == Scheme { OverriddenKeeps(c.url, c.buffer); }
  }

  lemma HostSet(u: Url, host: Host)
    requires UrlOk(u) && host != NoHost && (IsSpecial(u) ==> host != Text([]) || u.scheme == FILE)
    ensures UrlOk(u.(host := host))
  {
    hide IsSpecialScheme, DefaultPort;
  }

  lemma HostSets(t: Input, c: Config)
    requires t.override.Some? && Setting(t, c) && c.pointer <= |t.cps| && (c.stage == HostName || c.stage == HostOnly)
    ensures Sets(t, AfterHost(t, c))
  {
    hide UrlOk, IsSpecialScheme, HostReading;
    var r := BufferRead(t, c);
    if r.Read? {
      HostOfNonEmpty(c.buffer, IsSpecial(c.url), t.lower);
      HostSet(c.url, r.host);
    }
  }

  lemma FileHostSets(t: Input, c: Config)
    requires t.override.Some? && Setting(t, c) && c.pointer <= |t.cps| && c.stage == FileHost
    ensures Sets(t, AfterFileHost(t, c))
  {
    hide UrlOk, HostReading, IsWindowsDriveLetter;
    FileIsSpecial();
    hide IsSpecialScheme;
    var r := BufferRead(t, c);
    HostSet(c.url, Text([]));
    if r.Read? {
      HostOfNonEmpty(c.buffer, true, t.lower);
      HostSet(c.url, LocalIsNone(r.host));
    }
  }

  lemma PortSets(t: Input, c: Config)
    requires t.override.Some? && Setting(t, c) && c.pointer <= |t.cps| && c.stage == Port
    ensures Sets(t, AfterPort(t, c))
  {
    hide UrlOk, Ip.Value, IsSpecialScheme, KeptPort;
    var port := Ip.Value(c.buffer, 10);
    if port <= 0xFFFF { PortSet(c.url, port); }
  }

  lemma PortSet(u: Url, port: int)
    requires UrlOk(u) && 0 <= port <= 0xFFFF
    ensures UrlOk(u.(port := KeptPort(u, port)))
  {
    DefaultPortOnlySpecial(u.scheme);
    hide IsSpecialScheme, DefaultPort;
  }

  lemma PathSets(t: Input, c: Config)
    requires t.override.Some? && Setting(t, c) && c.pointer <= |t.cps|
    ensures c.stage == PathStart ==> Sets(t, AfterPathStart(t, c))
    ensures c.stage == Path ==> Sets(t, AfterPath(t, c))
  {
    hide UrlOk, PathOpen, IsSpecialScheme, PercentEncode, AfterSegment;
    if c.stage == PathStart {
      if !IsSpecial(c.url) && PathOpen(c.url) { NoPathNeeded(c.url); }
    } else if c.stage == Path {
      SegmentSets(t, c);
    }
  }

  lemma NoPathNeeded(u: Url)
    requires PathOpen(u) && (IsSpecial(u) ==> u.path != [])
    ensures UrlOk(u)
  {
    hide IsSpecialScheme, DefaultPort;
  }

  lemma SegmentSets(t: Input, c: Config)
    requires t.override.Some? && PathOpen(c.url) && c.stage == Path && 0 <= c.pointer <= |t.cps|
    ensures var chr := t.At(c.pointer); chr.None? || IsSlash(chr, c.url) ==> Sets(t, AfterSegment(c, chr))
  {
    hide UrlOk, PathOpen, IsSpecialScheme, PathEnded;
    var chr := t.At(c.pointer);
    var slash, end := IsSlash(chr, c.url), chr.None? || chr.value in {QUESTION, HASH};
    var u := PathEnded(c.url, c.buffer, slash, end);
    PathEndedKeeps(c.url, c.buffer, slash, end);
    StillOpen(c.url, u);
    if chr.None? { NoPathNeeded(u); }
  }

  lemma StillOpen(u: Url, v: Url)
    requires PathOpen(u) && v == u.(path := v.path, host := v.host)
             && (v.host == u.host || (u.scheme == FILE && v.host == Text([])))
    ensures PathOpen(v)
  {
    hide IsSpecialScheme, DefaultPort;
  }

  lemma TailSet(u: Url, query: Option<seq<int>>, fragment: Option<seq<int>>)
    requires UrlOk(u)
    ensures UrlOk(u.(query := query, fragment := fragment))
  {
    hide IsSpecialScheme, DefaultPort;
  }

  lemma TailSets(t: Input, c: Config)
    requires t.override.Some? && Setting(t, c) && c.pointer <= |t.cps|
    ensures c.stage == Query ==> Sets(t, AfterQuery(t, c))
    ensures c.stage == Fragment ==> Sets(t, AfterFragment(t, c))
  {
    hide UrlOk, IsSpecialScheme, PercentEncode, QueryEncode, PlusText;
    if c.stage == Query {
      TailSet(c.url, AfterQuery(t, c).config.url.query, c.url.fragment);
    } else if c.stage == Fragment {
      TailSet(c.url, c.url.query, AfterFragment(t, c).config.url.fragment);
    }
  }

  lemma SetterTurn(t: Input, c: Config)
    requires t.override.Some? && Setting(t, c) && c.pointer <= |t.cps|
    ensures Sets(t, After(t, c))
  {
    hide UrlOk, PathOpen, Sets, AfterSchemeStart, AfterSchemeChar, AfterHost, AfterFileHost, AfterPort,
      AfterPathStart, AfterPath, AfterQuery, AfterFragment;
    match c.stage {
      case SchemeStart => SchemeSets(t, c);
      case Scheme => SchemeSets(t, c);
      case HostName => HostSets(t, c);
      case HostOnly => HostSets(t, c);
      case FileHost => FileHostSets(t, c);
      case Port => PortSets(t, c);
      case PathStart => PathSets(t, c);
      case Path => PathSets(t, c);
      case Query => TailSets(t, c);
      case Fragment => TailSets(t, c);
      case _ => { assert false; }
    }
  }

  lemma {:induction false} RunSets(t: Input, c: Config, trace: seq<Config>, o: Outcome, e: Config)
    requires t.override.Some? && Setting(t, c) && IsParse(t, c, trace, o, e)
    ensures o.Thrown? || UrlOk(e.url)
    decreases |trace|
  {
    hide After, Setting, UrlOk;
    if |trace| > 1 {
      TraceRest(t, trace, o, e);
      SetterTurn(t, c);
      RunSets(t, trace[1], trace[1..], o, e);
    } else if c.pointer > |t.cps| {
      SettingEnds(t, c);
    } else {
      SetterTurn(t, c);
    }
  }

  lemma SettingEnds(t: Input, c: Config)
    requires Setting(t, c) && c.pointer > |t.cps|
    ensures UrlOk(c.url)
  {
    hide UrlOk;
  }

  /** The parser halts under every override, on every text and every URL. */
  lemma OverrideRuns(t: Input, u: Url) returns (trace: seq<Config>, o: Outcome, e: Config)
    requires t.override.Some?
    ensures IsParse(t, Config(u, t.override.value, 0, [], false, false, false), trace, o, e)
  {
    hide Ready, IsParse;
    OverrideReady(t, u);
    trace, o, e := SomeRun(t, Config(u, t.override.value, 0, [], false, false, false));
  }

  /**
   Whatever text a setter is given and whether it accepts it or not: if it does not throw, the URL is left well
   formed, with a path for a special URL, a port that is not the default, and a host where there must be one.
   */
  lemma SettersKeep(t: Input, u: Url, o: Outcome, e: Config)
    requires t.override.Some? && IsSetter(t.override.value) && Settable(t.override.value, u)
    requires Ends(t, Config(u, t.override.value, 0, [], false, false, false), o, e)
    ensures o.Thrown? || UrlOk(e.url)
  {
    hide UrlOk, PathOpen, IsParse;
    var c := Config(u, t.override.value, 0, [], false, false, false);
    var trace :| IsParse(t, c, trace, o, e);
    RunSets(t, c, trace, o, e);
  }

  // ---------- Query and fragment ----------

  /** Where a setter's parse starts. */
  function Begun(t: Input, u: Url): Config
    requires t.override.Some?
  {
    Config(u, t.override.value, 0, [], false, false, false)
  }

  /** `hash`: the text, percent-encoded; a lone surrogate throws. */
  lemma HashExactly(t: Input, u: Url, o: Outcome, e: Config)
    requires t.override == Some(Fragment) && u.fragment == Some([]) && Ends(t, Begun(t, u), o, e)
    ensures match Encodes(t.cps, FRAGMENT_SET)
            case None => o == Thrown(LoneSurrogate)
            case Some(p) => o == Parsed && e.url == u.(fragment := Some(p))
  {
    hide Ends, Encodes;
    Start(t, t.cps);
    ReadFragment(t, Begun(t, u), t.cps, o, e);
    if Encodes(t.cps, FRAGMENT_SET).Some? { Empties(Encodes(t.cps, FRAGMENT_SET).value); }
  }

  lemma QueryOver(t: Input, c: Config)
    requires c.stage == Query && t.At(c.pointer) == None
    ensures After(t, c) == Move(Loop, c.(pointer := c.pointer + 1))
  {
  }

  lemma {:induction false} SetQuery(t: Input, c: Config, q: seq<int>, o: Outcome, e: Config)
    requires t.override.Some? && Ends(t, c, o, e) && c.stage == Query && c.url.query.Some? && Ahead(t, c.pointer, q)
    ensures match QueryEncodes(q, IsSpecial(c.url))
            case None => o == Thrown(LoneSurrogate)
            case Some(p) => o == Parsed && e.url == c.url.(query := Some(c.url.query.value + p))
    decreases |q|
  {
    hide Ends, Ahead, After, IsSpecialScheme, QueryEncode;
    var w := c.url.query.value;
    AheadRest(t, c.pointer, q);
    if q == [] {
      Empties(w);
      QueryOver(t, c);
      Step(t, c, o, e);
      Arrived(t, c.(pointer := c.pointer + 1), o, e);
    } else {
      assert q == [q[0]] + q[1..];
      AheadFirst(t, c.pointer, q[0], q[1..]);
      QueryMove(t, c, q[0]);
      if QueryEncode(q[0], IsSpecial(c.url)).None? {
        Halted(t, c, o, e);
      } else {
        var p := QueryEncode(q[0], IsSpecial(c.url)).value;
        Step(t, c, o, e);
        SetQuery(t, QueryAt(c, 1, w + p), q[1..], o, e);
        if QueryEncodes(q[1..], IsSpecial(c.url)).Some? { Grouped(w, p, QueryEncodes(q[1..], IsSpecial(c.url)).value); }
      }
    }
  }

  /** `search`: the text, encoded; a "#" in it is encoded too. */
  lemma SearchExactly(t: Input, u: Url, o: Outcome, e: Config)
    requires t.override == Some(Query) && u.query == Some([]) && Ends(t, Begun(t, u), o, e)
    ensures match QueryEncodes(t.cps, IsSpecial(u))
            case None => o == Thrown(LoneSurrogate)
            case Some(p) => o == Parsed && e.url == u.(query := Some(p))
  {
    hide Ends, QueryEncodes, IsSpecialScheme;
    Start(t, t.cps);
    SetQuery(t, Begun(t, u), t.cps, o, e);
    if QueryEncodes(t.cps, IsSpecial(u)).Some? { Empties(QueryEncodes(t.cps, IsSpecial(u)).value); }
  }

  // ---------- Port ----------

  /** How many digits the text starts with. */
  function DigitCount(s: seq<int>): (k: nat)
    ensures k <= |s| && (forall i :: 0 <= i < k ==> Ip.IsDigit(s[i])) && (k < |s| ==> !Ip.IsDigit(s[k]))
  {
    if s == [] || !Ip.IsDigit(s[0]) then 0 else 1 + DigitCount(s[1..])
  }

  /** What the number at the start of the text makes of the port; no digit at all changes nothing. */
  predicate PortGiven(u: Url, s: seq<int>, o: Outcome, w: Url) {
    var digits := s[..DigitCount(s)];
    if digits == [] then o == Parsed && w == u
    else if Ip.Value(digits, 10) > 0xFFFF then o == Failed(InvalidPort) && w == u
    else o == Parsed && w == u.(port := if StandsFor(u.scheme, Ip.Value(digits, 10)) then None else Some(Ip.Value(digits, 10)))
  }

  lemma PortMove(t: Input, d: Config)
    requires t.override.Some? && d.stage == Port && d.url.scheme != FILE && (t.At(d.pointer).Some? ==> !Ip.IsDigit(t.At(d.pointer).value))
    ensures var n := Ip.Value(d.buffer, 10);
            After(t, d) ==
            if d.buffer == [] then Halt(d, Parsed)
            else if n > 0xFFFF then Halt(d, Failed(InvalidPort))
            else Halt(d.(url := d.url.(port := if StandsFor(d.url.scheme, n) then None else Some(n)), buffer := []), Parsed)
  {
    KeptExactly(d.url.scheme, Ip.Value(d.buffer, 10));
    SameKept(d.url, d.url.scheme, Ip.Value(d.buffer, 10));
    hide Ip.Value, IsSpecialScheme, KeptPort, StandsFor;
  }

  lemma GatherDigits(t: Input, c: Config, w: seq<int>, rest: seq<int>, o: Outcome, e: Config)
    requires Ends(t, c, o, e) && c.stage == Port && c.buffer == [] && Ahead(t, c.pointer, w + rest)
    requires (forall i :: 0 <= i < |w| ==> Gathers(c, w[i])) && (rest != [] ==> !Ip.IsDigit(rest[0]))
    ensures var d := c.(pointer := c.pointer + |w|, buffer := w);
            && Ends(t, d, o, e) && 0 <= d.pointer <= |t.cps|
            && (t.At(d.pointer).Some? ==> !Ip.IsDigit(t.At(d.pointer).value))
  {
    hide Ends, Ahead, Gathers;
    Gather(t, c, w, rest, o, e);
    Empties(w);
    AheadRest(t, c.pointer + |w|, rest);
  }

  lemma GatherNumber(t: Input, c: Config, s: seq<int>, o: Outcome, e: Config)
    requires Ends(t, c, o, e) && c.stage == Port && c.buffer == [] && Ahead(t, c.pointer, s)
    ensures var k := DigitCount(s);
            var d := c.(pointer := c.pointer + k, buffer := s[..k]);
            && Ends(t, d, o, e) && 0 <= d.pointer <= |t.cps|
            && (t.At(d.pointer).Some? ==> !Ip.IsDigit(t.At(d.pointer).value))
  {
    hide Ends, Ahead, Gathers;
    var k := DigitCount(s);
    DigitsGather(c, s[..k]);
    assert s == s[..k] + s[k..];
    GatherDigits(t, c, s[..k], s[k..], o, e);
  }

  lemma SetPort(t: Input, c: Config, s: seq<int>, o: Outcome, e: Config)
    requires t.override.Some? && Ends(t, c, o, e) && c.stage == Port && c.buffer == [] && c.url.scheme != FILE && Ahead(t, c.pointer, s)
    ensures PortGiven(c.url, s, o, e.url)
  {
    hide Ends, Ahead, After, Ip.Value, StandsFor, DigitCount;
    GatherNumber(t, c, s, o, e);
    var k := DigitCount(s);
    var d := c.(pointer := c.pointer + k, buffer := s[..k]);
    PortMove(t, d);
    Halted(t, d, o, e);
  }

  /** `port`: the number the text starts with. */
  lemma PortSetExactly(t: Input, u: Url, o: Outcome, e: Config)
    requires t.override == Some(Port) && u.scheme != FILE && Ends(t, Begun(t, u), o, e)
    ensures PortGiven(u, t.cps, o, e.url)
  {
    hide Ends, PortGiven;
    Start(t, t.cps);
    SetPort(t, Begun(t, u), t.cps, o, e);
  }

  // ---------- Host ----------

  /** How long the host at the start of the text is: up to a delimiter, or a ":" outside brackets. */
  function HostLength(special: bool, s: seq<int>, seen: bool): (k: nat)
    ensures k <= |s| && HostSpan(special, s[..k], seen)
    ensures k < |s| ==> s[k] in DELIMITERS || (special && s[k] == BACKSLASH) || (s[k] == COLON && !BracketOpen(s[..k], seen))
  {
    if s == [] || s[0] in DELIMITERS || (special && s[0] == BACKSLASH) || (s[0] == COLON && !seen) then 0
    else
      var more := s[0] == OPEN_BRACKET || (s[0] != CLOSE_BRACKET && seen);
      var k := HostLength(special, s[1..], more);
      assert s[..1 + k][1..] == s[1..][..k];
      1 + k
  }

  lemma ColonDone(t: Input, d: Config)
    requires t.override.Some? && (d.stage == HostName || d.stage == HostOnly) && d.url.scheme != FILE && !d.seenBracket
    requires t.At(d.pointer) == Some(COLON)
    ensures var r := BufferRead(t, d);
            var u := d.url.(host := if r.Read? then r.host else NoHost);
            After(t, d) ==
            if d.buffer == [] then Halt(d, Failed(InvalidHost))
            else if !r.Read? then Halt(d, Refusal(r))
            else if t.override == Some(HostOnly) then Halt(d.(stage := Port, url := u, buffer := []), Parsed)
            else Move(Loop, d.(stage := Port, pointer := d.pointer + 1, url := u, buffer := []))
  {
    hide HostReading, IsSpecialScheme;
  }

  lemma HostDoneSet(t: Input, d: Config)
    requires t.override.Some? && (d.stage == HostName || d.stage == HostOnly) && d.url.scheme != FILE
    requires AtDelimiter(t.At(d.pointer), d.url)
    ensures var r := BufferRead(t, d);
            After(t, d) ==
            if d.buffer == [] && IsSpecial(d.url) then Halt(d, Failed(InvalidHost))
            else if d.buffer == [] && (IncludesCredentials(d.url) || d.url.port.Some?) then Halt(d, Parsed)
            else if !r.Read? then Halt(d, Refusal(r))
            else Halt(d.(stage := PathStart, url := d.url.(host := r.host), buffer := []), Parsed)
  {
    hide HostReading, IsSpecialScheme;
  }

  /** What a text makes of the host and, for `host`, of the port, outside file URLs. */
  predicate HostGiven(u: Url, s: seq<int>, lower: seq<int> -> seq<int>, withPort: bool, o: Outcome, w: Url) {
    var k := HostLength(IsSpecial(u), s, false);
    var h, colon := s[..k], k < |s| && s[k] == COLON;
    var r := HostReading(h, IsSpecial(u), lower);
    if h == [] && (colon || IsSpecial(u)) then o == Failed(InvalidHost) && w == u
    else if h == [] && (IncludesCredentials(u) || u.port.Some?) then o == Parsed && w == u
    else if !r.Read? then o == Refusal(r) && (o.Failed? ==> w == u)
    else if colon && withPort then PortGiven(u.(host := r.host), s[k + 1..], o, w)
    else o == Parsed && w == u.(host := r.host)
  }

  lemma GatherAll(t: Input, c: Config, s: seq<int>, o: Outcome, e: Config)
    requires t.override.Some? && Ends(t, c, o, e) && (c.stage == HostName || c.stage == HostOnly) && c.buffer == [] && !c.seenBracket
    requires c.url.scheme != FILE && Ahead(t, c.pointer, s)
    ensures var k := HostLength(IsSpecial(c.url), s, false);
            var d := c.(pointer := c.pointer + k, buffer := s[..k], seenBracket := BracketOpen(s[..k], false));
            Ends(t, d, o, e) && Ahead(t, d.pointer, s[k..])
  {
    hide Ends, Ahead, IsSpecialScheme, HostSpan, BracketOpen;
    var k := HostLength(IsSpecial(c.url), s, false);
    assert s == s[..k] + s[k..];
    GatherHost(t, c, s[..k], s[k..], o, e);
    Empties(s[..k]);
  }

  lemma SetHost(t: Input, c: Config, s: seq<int>, o: Outcome, e: Config)
    requires t.override.Some? && Ends(t, c, o, e) && c == Begun(t, c.url) && (c.stage == HostName || c.stage == HostOnly)
    requires c.url.scheme != FILE && Ahead(t, 0, s)
    ensures HostGiven(c.url, s, t.lower, t.override == Some(HostName), o, e.url)
  {
    hide Ends, Ahead, After, IsSpecialScheme, HostSpan, BracketOpen, HostReading, PortGiven;
    var k := HostLength(IsSpecial(c.url), s, false);
    GatherAll(t, c, s, o, e);
    var d := c.(pointer := k, buffer := s[..k], seenBracket := BracketOpen(s[..k], false));
    AheadRest(t, k, s[k..]);
    if k < |s| && s[k] == COLON {
      assert !BracketOpen(s[..k], false);
      ColonSet(t, c, d, s, k, o, e);
    } else {
      HostDoneSet(t, d);
      Halted(t, d, o, e);
    }
  }

  lemma ColonSet(t: Input, c: Config, d: Config, s: seq<int>, k: nat, o: Outcome, e: Config)
    requires t.override.Some? && c == Begun(t, c.url) && (c.stage == HostName || c.stage == HostOnly) && c.url.scheme != FILE
    requires k == HostLength(IsSpecial(c.url), s, false) && k < |s| && s[k] == COLON
    requires d == c.(pointer := k, buffer := s[..k], seenBracket := false) && Ends(t, d, o, e) && Ahead(t, k, s[k..])
    ensures HostGiven(c.url, s, t.lower, t.override == Some(HostName), o, e.url)
  {
    hide Ends, Ahead, After, IsSpecialScheme, HostSpan, BracketOpen, HostReading, PortGiven, HostLength;
    var rest := s[k + 1..];
    assert s[k..] == [COLON] + rest;
    AheadFirst(t, k, COLON, rest);
    ColonDone(t, d);
    if After(t, d).next.Stop? {
      Halted(t, d, o, e);
    } else {
      Step(t, d, o, e);
      SetPort(t, After(t, d).config, rest, o, e);
    }
  }

  /** `host` and `hostname`, outside file URLs: the text up to a delimiter is the host, and for `host` a port may follow. */
  lemma HostExactly(t: Input, u: Url, o: Outcome, e: Config)
    requires (t.override == Some(HostName) || t.override == Some(HostOnly)) && u.scheme != FILE && Ends(t, Begun(t, u), o, e)
    ensures HostGiven(u, t.cps, t.lower, t.override == Some(HostName), o, e.url)
  {
    hide Ends, HostGiven;
    Start(t, t.cps);
    SetHost(t, Begun(t, u), t.cps, o, e);
  }

  /** How long the host of a file URL at the start of the text is. */
  function FileHostLength(s: seq<int>): (k: nat)
    ensures k <= |s| && (forall i :: 0 <= i < k ==> s[i] !in {SLASH, BACKSLASH, QUESTION, HASH})
    ensures k < |s| ==> s[k] in {SLASH, BACKSLASH, QUESTION, HASH}
  {
    if s == [] || s[0] in {SLASH, BACKSLASH, QUESTION, HASH} then 0 else 1 + FileHostLength(s[1..])
  }

  /** In a file URL nothing and "localhost" are no host; there is no port. */
  predicate FileHostGiven(u: Url, s: seq<int>, lower: seq<int> -> seq<int>, o: Outcome, w: Url) {
    var h := s[..FileHostLength(s)];
    var r := HostReading(h, true, lower);
    if h == [] then o == Parsed && w == u.(host := Text([]))
    else if !r.Read? then o == Refusal(r) && (o.Failed? ==> w == u)
    else o == Parsed && w == u.(host := if r.host == Text(Chars("localhost")) then Text([]) else r.host)
  }

  lemma ToFileHost(t: Input, c: Config)
    requires t.override.Some? && (c.stage == HostName || c.stage == HostOnly) && c.url.scheme == FILE
    ensures After(t, c) == Move(Loop, c.(stage := FileHost))
  {
    hide AfterHostColon, AfterHostEnd;
  }

  lemma FileHostDone(t: Input, d: Config)
    requires t.override.Some? && d.stage == FileHost && d.url.scheme == FILE
    requires t.At(d.pointer).None? || t.At(d.pointer).value in {SLASH, BACKSLASH, QUESTION, HASH}
    ensures var r := HostReading(d.buffer, true, t.lower);
            After(t, d) ==
            if d.buffer == [] then Halt(d.(url := d.url.(host := Text([]))), Parsed)
            else if !r.Read? then Halt(d, Refusal(r))
            else Halt(d.(url := d.url.(host := if r.host == Text(Chars("localhost")) then Text([]) else r.host)), Parsed)
  {
    FileIsSpecial();
    assert Chars("localhost") == LOCALHOST;
    hide HostReading, IsWindowsDriveLetter, IsSpecialScheme;
  }

  /** `host` and `hostname` of a file URL. */
  lemma FileHostExactly(t: Input, u: Url, o: Outcome, e: Config)
    requires (t.override == Some(HostName) || t.override == Some(HostOnly)) && u.scheme == FILE && Ends(t, Begun(t, u), o, e)
    ensures FileHostGiven(u, t.cps, t.lower, o, e.url)
  {
    hide Ends, Ahead, After, HostReading, FileHostGiven;
    var c := Begun(t, u);
    ToFileHost(t, c);
    Step(t, c, o, e);
    Start(t, t.cps);
    SetFileHost(t, c.(stage := FileHost), t.cps, o, e);
  }

  lemma SetFileHost(t: Input, d: Config, s: seq<int>, o: Outcome, e: Config)
    requires t.override.Some? && Ends(t, d, o, e) && d.stage == FileHost && d.buffer == [] && d.url.scheme == FILE
    requires d.pointer == 0 && Ahead(t, 0, s)
    ensures FileHostGiven(d.url, s, t.lower, o, e.url)
  {
    hide Ends, Ahead, After, HostReading, Chars, Gathers;
    var k := FileHostLength(s);
    assert s == s[..k] + s[k..];
    FileHostGathers(d, s[..k]);
    Gather(t, d, s[..k], s[k..], o, e);
    Empties(s[..k]);
    AheadRest(t, k, s[k..]);
    FileHostDone(t, d.(pointer := k, buffer := s[..k]));
    Halted(t, d.(pointer := k, buffer := s[..k]), o, e);
  }

  lemma FileHostGathers(d: Config, h: seq<int>)
    requires d.stage == FileHost && forall i :: 0 <= i < |h| ==> h[i] !in {SLASH, BACKSLASH, QUESTION, HASH}
    ensures forall i :: 0 <= i < |h| ==> Gathers(d, h[i])
  {
  }

  // ---------- Scheme ----------

  /** How many characters of a scheme stand in front of the first ":". */
  function ColonIndex(s: seq<int>): (k: nat)
    requires SchemeEnds(s)
    ensures k < |s| && s[k] == COLON && forall i :: 0 <= i < k ==> IsSchemeChar(s[i]) && s[i] != COLON
  {
    if s[0] == COLON then 0 else 1 + ColonIndex(s[1..])
  }

  /** The scheme can be changed to this: a special URL stays special, a file needs no credentials and port, and has had a host. */
  predicate MaySet(u: Url, s: seq<int>) {
    && (IsSpecial(u) <==> IsSpecialScheme(s))
    && (s == Chars("file") ==> !IncludesCredentials(u) && u.port.None?)
    && (u.scheme == Chars("file") ==> Truthy(u.host))
  }

  /** What a text makes of the scheme. */
  predicate SchemeGiven(u: Url, text: seq<int>, o: Outcome, w: Url) {
    if !HasScheme(text) then o == Failed(InvalidScheme) && w == u
    else
      var s := LowerText(text[..1 + ColonIndex(text[1..])]);
      && o == Parsed
      && w == if MaySet(u, s) then u.(scheme := s, port := if u.port.Some? && StandsFor(s, u.port.value) then None else u.port) else u
  }

  lemma OverriddenExactly(u: Url, s: seq<int>)
    ensures Overridden(u, s) ==
            if MaySet(u, s) then u.(scheme := s, port := if u.port.Some? && StandsFor(s, u.port.value) then None else u.port) else u
  {
    assert Chars("ftp") == FTP && Chars("http") == HTTP && Chars("ws") == WS && Chars("https") == HTTPS && Chars("wss") == WSS;
    assert Chars("file") == FILE;
    hide Chars, Truthy, IncludesCredentials;
  }

  lemma SchemeStep(t: Input, c: Config)
    requires t.override.Some? && c.stage == Scheme
    ensures var chr := t.At(c.pointer);
            After(t, c) ==
            if chr.Some? && IsSchemeChar(chr.value) then
              Move(Loop, c.(pointer := c.pointer + 1, buffer := c.buffer + [LowerAscii(chr.value)]))
            else if chr == Some(COLON) then Halt(c.(url := Overridden(c.url, c.buffer)), Parsed)
            else Halt(c, Failed(InvalidScheme))
  {
    hide Overridden;
  }

  lemma {:induction false} SetScheme(t: Input, c: Config, s: seq<int>, o: Outcome, e: Config)
    requires t.override.Some? && Ends(t, c, o, e) && c.stage == Scheme && Ahead(t, c.pointer, s)
    ensures if SchemeEnds(s) then o == Parsed && e.url == Overridden(c.url, c.buffer + LowerText(s[..ColonIndex(s)]))
            else o == Failed(InvalidScheme) && e.url == c.url
    decreases |s|
  {
    hide Ends, Ahead, After, Overridden, SchemeEnds;
    AheadRest(t, c.pointer, s);
    SchemeStep(t, c);
    SchemeEndsFirst(s);
    if s != [] && IsSchemeChar(s[0]) {
      assert s == [s[0]] + s[1..];
      AheadFirst(t, c.pointer, s[0], s[1..]);
      Step(t, c, o, e);
      SetScheme(t, c.(pointer := c.pointer + 1, buffer := c.buffer + [LowerAscii(s[0])]), s[1..], o, e);
      if SchemeEnds(s) { LowerFirst(c.buffer, s, ColonIndex(s[1..])); }
    } else {
      Halted(t, c, o, e);
      assert c.buffer + LowerText([]) == c.buffer;
    }
  }

  lemma SchemeEndsFirst(s: seq<int>)
    ensures SchemeEnds(s) <==> s != [] && (s[0] == COLON || (IsSchemeChar(s[0]) && SchemeEnds(s[1..])))
    ensures SchemeEnds(s) ==> ColonIndex(s) == if s[0] == COLON then 0 else 1 + ColonIndex(s[1..])
    ensures s != [] && IsSchemeChar(s[0]) ==> s[0] != COLON
  {
  }

  lemma LowerFirst(w: seq<int>, s: seq<int>, k: nat)
    requires s != [] && k < |s|
    ensures w + [LowerAscii(s[0])] + LowerText(s[1..][..k]) == w + LowerText(s[..1 + k])
  {
  }

  /** `protocol`: the scheme in lower case, or the URL as it was. */
  lemma ProtocolExactly(t: Input, u: Url, o: Outcome, e: Config)
    requires t.override == Some(SchemeStart) && Ends(t, Begun(t, u), o, e)
    ensures SchemeGiven(u, t.cps, o, e.url)
  {
    hide Ends, Ahead, After, Overridden, SchemeEnds;
    var c, s := Begun(t, u), t.cps;
    Start(t, s);
    AheadRest(t, 0, s);
    SchemeFirst(t, c);
    if s != [] && IsAlpha(s[0]) {
      assert s == [s[0]] + s[1..];
      AheadFirst(t, 0, s[0], s[1..]);
      Step(t, c, o, e);
      SetScheme(t, c.(stage := Scheme, pointer := 1, buffer := [LowerAscii(s[0])]), s[1..], o, e);
      if SchemeEnds(s[1..]) {
        var k := ColonIndex(s[1..]);
        assert [LowerAscii(s[0])] + LowerText(s[1..][..k]) == LowerText(s[..1 + k]);
        OverriddenExactly(u, LowerText(s[..1 + k]));
      }
    } else {
      Halted(t, c, o, e);
    }
  }

  lemma SchemeFirst(t: Input, c: Config)
    requires t.override.Some? && c.stage == SchemeStart && c.buffer == []
    ensures var chr := t.At(c.pointer);
            After(t, c) == if chr.Some? && IsAlpha(chr.value) then
                             Move(Loop, c.(stage := Scheme, pointer := c.pointer + 1, buffer := [LowerAscii(chr.value)]))
                           else Halt(c, Failed(InvalidScheme))
  {
    assert forall x: int :: [] + [x] == [x];
  }

  // ---------- Path ----------

  predicate IsSeparator(special: bool, x: int) { x == SLASH || (special && x == BACKSLASH) }

  /** The pieces of a path text, between slashes and, in a special URL, backslashes. */
  function Pieces(special: bool, s: seq<int>): (r: seq<seq<int>>)
    ensures r != []
  {
    if s == [] then [[]]
    else if IsSeparator(special, s[0]) then [[]] + Pieces(special, s[1..])
    else
      var rest := Pieces(special, s[1..]);
      [[s[0]] + rest[0]] + rest[1..]
  }

  function PieceLength(special: bool, s: seq<int>): (k: nat)
    ensures k <= |s| && (forall i :: 0 <= i < k ==> !IsSeparator(special, s[i])) && (k < |s| ==> IsSeparator(special, s[k]))
  {
    if s == [] || IsSeparator(special, s[0]) then 0 else 1 + PieceLength(special, s[1..])
  }

  lemma {:induction false} FirstPiece(special: bool, s: seq<int>)
    ensures var k := PieceLength(special, s);
            Pieces(special, s) == if k == |s| then [s] else [s[..k]] + Pieces(special, s[k + 1..])
  {
    if s != [] && !IsSeparator(special, s[0]) {
      FirstPiece(special, s[1..]);
      var k := PieceLength(special, s[1..]);
      assert s == [s[0]] + s[1..];
      if k < |s[1..]| {
        var more := Pieces(special, s[1..][k + 1..]);
        assert s[1..][k + 1..] == s[k + 2..] && s[..k + 1] == [s[0]] + s[1..][..k];
        assert ([s[1..][..k]] + more)[1..] == more;
      }
    }
  }

  lemma PathOver(t: Input, c: Config)
    requires c.stage == Path && t.At(c.pointer) == None
    ensures After(t, c) == Move(Loop, c.(pointer := c.pointer + 1, buffer := [], url := Walked(c.url, [c.buffer])))
  {
    hide PathEnded;
  }

  lemma SetPiece(t: Input, c: Config, s: seq<int>, k: nat, o: Outcome, e: Config)
    requires t.override.Some? && Ends(t, c, o, e) && c.stage == Path && c.buffer == [] && Ahead(t, c.pointer, s)
    requires k == PieceLength(IsSpecial(c.url), s)
    ensures match Encodes(s[..k], PATH_SET)
            case None => o == Thrown(LoneSurrogate)
            case Some(p) => Ends(t, c.(pointer := c.pointer + k, buffer := p), o, e)
    ensures Ahead(t, c.pointer + k, s[k..])
  {
    hide Ends, Ahead, IsSpecialScheme, Encodes;
    assert s == s[..k] + s[k..];
    GatherSegment(t, c, s[..k], s[k..], o, e);
    if Encodes(s[..k], PATH_SET).Some? { Empties(Encodes(s[..k], PATH_SET).value); }
  }

  lemma {:induction false} SetPath(t: Input, c: Config, s: seq<int>, o: Outcome, e: Config)
    requires t.override.Some? && Ends(t, c, o, e) && c.stage == Path && c.buffer == [] && Ahead(t, c.pointer, s)
    ensures match EncodedSegments(Pieces(IsSpecial(c.url), s))
            case None => o == Thrown(LoneSurrogate)
            case Some(path) => o == Parsed && e.url == Walked(c.url, path)
    decreases |s|
  {
    hide Ends, Ahead, After, IsSpecialScheme, Encodes, PathEnded, WithSegment, Pieces, EncodedSegments, Walked;
    var special := IsSpecial(c.url);
    var k := PieceLength(special, s);
    FirstPiece(special, s);
    if k == |s| { assert s[..k] == s; }
    assert Pieces(special, s)[0] == s[..k];
    SegmentsFirst(Pieces(special, s));
    SetPiece(t, c, s, k, o, e);
    AheadRest(t, c.pointer + k, s[k..]);
    if Encodes(s[..k], PATH_SET).Some? {
      var p := Encodes(s[..k], PATH_SET).value;
      var d := c.(pointer := c.pointer + k, buffer := p);
      if k == |s| {
        PathOver(t, d);
        Step(t, d, o, e);
        Arrived(t, After(t, d).config, o, e);
      } else {
        SeparatorAhead(t, d, s[k]);
        NextSegment(t, d);
        Step(t, d, o, e);
        AheadSkipOne(t, c.pointer + k, s[k..]);
        WithSegmentScheme(c.url, p);
        var more := Pieces(special, s[k + 1..]);
        SetPath(t, After(t, d).config, s[k + 1..], o, e);
        assert ([s[..k]] + more)[1..] == more;
        if EncodedSegments(more).Some? { WalkedFirst(c.url, p, EncodedSegments(more).value); }
      }
    }
  }

  lemma AheadSkipOne(t: Input, i: int, s: seq<int>)
    requires Ahead(t, i, s) && s != []
    ensures Ahead(t, i + 1, s[1..])
  {
    assert t.cps[i + 1..] == t.cps[i..][1..];
  }

  lemma SeparatorAhead(t: Input, d: Config, x: int)
    requires t.At(d.pointer) == Some(x) && IsSeparator(IsSpecial(d.url), x)
    ensures IsSlash(t.At(d.pointer), d.url)
  {
    hide IsSpecialScheme;
  }

  /** The text of a path without the one separator it may start with. */
  function PathText(special: bool, s: seq<int>): seq<int> { if s != [] && IsSeparator(special, s[0]) then s[1..] else s }

  lemma PathFirstMove(t: Input, c: Config)
    requires t.override.Some? && c.stage == PathStart
    ensures var chr := t.At(c.pointer);
            After(t, c) ==
            if chr.None? && !IsSpecial(c.url) then Move(Loop, c.(pointer := c.pointer + 1))
            else if chr.Some? && IsSeparator(IsSpecial(c.url), chr.value) then Move(Loop, c.(stage := Path, pointer := c.pointer + 1))
            else Move(Loop, c.(stage := Path))
  {
    hide IsSpecialScheme;
  }

  /**
   `pathname`: the pieces of the text, percent-encoded, "?" and "#" too, and walked from an empty path; in a URL that is
   not special no text leaves no path.
   */
  lemma PathnameExactly(t: Input, u: Url, o: Outcome, e: Config)
    requires t.override == Some(PathStart) && u.path == [] && Ends(t, Begun(t, u), o, e)
    ensures if t.cps == [] && !IsSpecial(u) then o == Parsed && e.url == u
            else
              match EncodedSegments(Pieces(IsSpecial(u), PathText(IsSpecial(u), t.cps)))
              case None => o == Thrown(LoneSurrogate)
              case Some(path) => o == Parsed && e.url == Walked(u, path)
  {
    hide Ends, Ahead, After, IsSpecialScheme, Pieces, EncodedSegments, Walked;
    var c := Begun(t, u);
    Start(t, t.cps);
    AheadRest(t, 0, t.cps);
    PathFirstMove(t, c);
    Step(t, c, o, e);
    if t.cps == [] && !IsSpecial(u) {
      Arrived(t, c.(pointer := 1), o, e);
    } else if t.cps != [] && IsSeparator(IsSpecial(u), t.cps[0]) {
      AheadSkipOne(t, 0, t.cps);
      SetPath(t, c.(stage := Path, pointer := 1), t.cps[1..], o, e);
    } else {
      SetPath(t, c.(stage := Path), t.cps, o, e);
    }
  }
}
