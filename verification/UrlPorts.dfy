/**
 The authority of a whole text in js/secsdk-lastest.umd.js, with whatever userinfo, host and port: what it comes to, what
 it fails for, and that the port a scheme stands for may be written or left out.
 */
module UrlPorts {
  import opened Wrappers
  import opened UrlRecord
  import opened UrlHost
  import opened UrlStates
  import opened UrlRuns
  import opened UrlShift
  import opened UrlUserinfo
  import Ip = IpAddress

  function Chars(s: string): seq<int> { seq(|s|, i requires 0 <= i < |s| => s[i] as int) }

  /** What stands in front of the host. */
  function CredentialText(cr: Option<seq<int>>): seq<int> { if cr.Some? then cr.value + [AT] else [] }

  function PortDigits(digits: Option<seq<int>>): seq<int> { if digits.Some? then [COLON] + digits.value else [] }

  predicate IsNumeral(s: seq<int>) { s != [] && forall i :: 0 <= i < |s| ==> Ip.IsDigit(s[i]) }

  /** The text of a host: up to a delimiter, with ":" only between brackets. */
  predicate IsHostText(special: bool, h: seq<int>) { Plain(special, h) && HostSpan(special, h, false) && !BracketOpen(h, false) }

  /** A text with an authority. */
  function Whole(s: seq<int>, cr: Option<seq<int>>, h: seq<int>, port: seq<int>, rest: seq<int>): seq<int> {
    s + ([COLON] + ([SLASH] + ([SLASH] + (CredentialText(cr) + (h + (port + rest))))))
  }

  predicate IsAuthority(s: seq<int>, cr: Option<seq<int>>, h: seq<int>) {
    && SchemeText(s) && s != FILE && IsHostText(IsSpecialScheme(s), h)
    && (cr.Some? ==> Authoritative(IsSpecialScheme(s), cr.value))
  }

  /** The userinfo can be encoded: it holds no lone surrogate. */
  predicate CredentialsRead(cr: Option<seq<int>>) { cr.Some? ==> Encodable(cr.value) }

  /** Scheme and credentials read, at the host. */
  function HostAt(s: seq<int>, cr: Option<seq<int>>): Config
    requires CredentialsRead(cr)
  {
    var c := Config(FRESH.(scheme := s), Authority, |s| + 3, [], false, false, false);
    (if cr.Some? then Credentialed(c, |cr.value| + 1, cr.value) else c).(stage := HostName)
  }

  lemma HostAtForm(s: seq<int>, cr: Option<seq<int>>)
    requires CredentialsRead(cr)
    ensures var c := HostAt(s, cr);
            && c.stage == HostName && c.buffer == [] && !c.seenBracket && c.pointer == |s| + 3 + |CredentialText(cr)|
            && (c.seenAt <==> cr.Some?) && c.url == FRESH.(scheme := s, username := c.url.username, password := c.url.password)
  {
    hide Encodes, Name, Password;
  }

  lemma NoSlashAhead(special: bool, cr: Option<seq<int>>, h: seq<int>, more: seq<int>)
    requires Plain(special, h) && (cr.Some? ==> Authoritative(special, cr.value)) && special
    requires CredentialText(cr) + h != []
    ensures var a := CredentialText(cr) + (h + more); a != [] && a[0] !in {SLASH, BACKSLASH}
  {
  }

  /** Through the slashes to the authority. */
  lemma ReachStart(t: Input, s: seq<int>, cr: Option<seq<int>>, w: seq<int>, rest: seq<int>, o: Outcome, e: Config)
    requires SchemeText(s) && s != FILE && Plain(IsSpecialScheme(s), w) && (cr.Some? ==> Authoritative(IsSpecialScheme(s), cr.value))
    requires IsSpecialScheme(s) ==> CredentialText(cr) + w != []
    requires t.override.None? && t.cps == Whole(s, cr, w, [], rest) && Ends(t, Fresh(), o, e)
    ensures Ends(t, Config(FRESH.(scheme := s), Authority, |s| + 3, [], false, false, false), o, e)
    ensures Ahead(t, |s| + 3, CredentialText(cr) + (w + rest))
  {
    hide Ends, Ahead, IsSpecialScheme, SchemeText, BehindScheme, CredentialText, Plain;
    var a := CredentialText(cr) + (w + rest);
    assert [] + rest == rest;
    if IsSpecialScheme(s) { NoSlashAhead(true, cr, w, rest); }
    ReadScheme(t, s, [SLASH] + ([SLASH] + a), o, e);
    ReachAuthority(t, s, a, o, e);
  }

  /** Userinfo read, the authority scanned to its end and gone back to the host. */
  lemma ReachText(t: Input, s: seq<int>, cr: Option<seq<int>>, w: seq<int>, rest: seq<int>, o: Outcome, e: Config)
    requires SchemeText(s) && s != FILE && Plain(IsSpecialScheme(s), w) && (cr.Some? ==> Authoritative(IsSpecialScheme(s), cr.value))
    requires w != [] && CredentialText(cr) + w != [] && GoesOn(rest, DELIMITERS)
    requires t.override.None? && t.cps == Whole(s, cr, w, [], rest) && Ends(t, Fresh(), o, e)
    ensures if CredentialsRead(cr) then Ends(t, HostAt(s, cr), o, e) && Ahead(t, HostAt(s, cr).pointer, w + rest)
            else o == Thrown(LoneSurrogate)
  {
    hide Ends, Ahead, IsSpecialScheme, SchemeText, Encodable, Plain, Authoritative, GoesOn, Credentialed, Encodes, Whole,
      CredentialText;
    ReachStart(t, s, cr, w, rest, o, e);
    var c := Config(FRESH.(scheme := s), Authority, |s| + 3, [], false, false, false);
    CredentialSplit(cr, w + rest);
    if cr.Some? {
      FreshStands(s);
      ReadUserinfo(t, c, [], cr.value, w + rest, o, e);
      if Encodable(cr.value) {
        CredentialedStands(c, |cr.value| + 1, cr.value);
        BackToHost(t, Credentialed(c, |cr.value| + 1, cr.value), w, rest, o, e);
      }
    } else {
      BackToHost(t, c, w, rest, o, e);
    }
  }

  lemma CredentialSplit(cr: Option<seq<int>>, more: seq<int>)
    ensures CredentialText(cr) + more == if cr.Some? then cr.value + ([AT] + more) else more
  {
  }

  lemma ReachHost(t: Input, s: seq<int>, cr: Option<seq<int>>, h: seq<int>, port: seq<int>, rest: seq<int>, o: Outcome, e: Config)
    requires IsAuthority(s, cr, h) && Plain(IsSpecialScheme(s), port) && h + port != [] && GoesOn(rest, DELIMITERS)
    requires t.override.None? && t.cps == Whole(s, cr, h, port, rest) && Ends(t, Fresh(), o, e)
    ensures if CredentialsRead(cr) then Ends(t, HostAt(s, cr), o, e) && Ahead(t, HostAt(s, cr).pointer, h + (port + rest))
            else o == Thrown(LoneSurrogate)
  {
    OneText(s, cr, h, port, rest);
    hide Ends, Ahead, IsSpecialScheme, SchemeText, HostSpan, BracketOpen, Encodable, Plain, Authoritative, GoesOn, Whole,
      CredentialText, HostAt;
    ReachText(t, s, cr, h + port, rest, o, e);
  }

  lemma OneText(s: seq<int>, cr: Option<seq<int>>, h: seq<int>, port: seq<int>, rest: seq<int>)
    requires Plain(IsSpecialScheme(s), h) && Plain(IsSpecialScheme(s), port) && h + port != []
    ensures Plain(IsSpecialScheme(s), h + port) && CredentialText(cr) + (h + port) != []
    ensures Whole(s, cr, h, port, rest) == Whole(s, cr, h + port, [], rest) && h + port + rest == h + (port + rest)
  {
    hide IsSpecialScheme;
    Grouped(h, port, rest);
    assert [] + rest == rest;
  }

  lemma FreshStands(s: seq<int>)
    ensures var c := Config(FRESH.(scheme := s), Authority, |s| + 3, [], false, false, false);
            Stands(c, []) && !c.seenAt
    ensures forall x: seq<int> :: Sofar(false, [], x) == x
  {
  }

  lemma BackToHost(t: Input, c: Config, w: seq<int>, rest: seq<int>, o: Outcome, e: Config)
    requires t.override.None? && Ends(t, c, o, e) && c.stage == Authority && c.buffer == [] && w != []
    requires Plain(IsSpecial(c.url), w) && GoesOn(rest, DELIMITERS) && Ahead(t, c.pointer, w + rest)
    ensures Ends(t, c.(stage := HostName), o, e)
  {
    hide Ends, Ahead, IsSpecialScheme, Gathers;
    PlainGathers(c, w);
    RewindToHost(t, c, w, rest, o, e);
  }

  // ---------- The host and the port ----------

  /** The authority read: the credentials of the userinfo, the host and the port. */
  function PathAt(s: seq<int>, cr: Option<seq<int>>, h: seq<int>, port: seq<int>, host: Host, n: Option<int>): Config
    requires CredentialsRead(cr)
  {
    var c := HostAt(s, cr);
    c.(stage := PathStart, pointer := c.pointer + |h| + |port|, url := c.url.(host := host, port := n))
  }

  lemma DigitsPlain(special: bool, digits: Option<seq<int>>, rest: seq<int>)
    requires (digits.Some? ==> IsNumeral(digits.value)) && GoesOn(rest, DELIMITERS)
    ensures Plain(special, PortDigits(digits)) && GoesOn(PortDigits(digits) + rest, DELIMITERS + {COLON})
    ensures First(PortDigits(digits) + rest) == Some(COLON) <==> digits.Some?
  {
  }

  /** What an authority comes to, or fails for, whatever it holds. */
  lemma ReadAuthority(t: Input, s: seq<int>, cr: Option<seq<int>>, h: seq<int>, digits: Option<seq<int>>, rest: seq<int>, o: Outcome,
      e: Config)
    requires IsAuthority(s, cr, h) && h != [] && (digits.Some? ==> IsNumeral(digits.value)) && GoesOn(rest, DELIMITERS)
    requires t.override.None? && t.cps == Whole(s, cr, h, PortDigits(digits), rest) && Ends(t, Fresh(), o, e)
    ensures var r := HostReading(h, IsSpecialScheme(s), t.lower);
            if !CredentialsRead(cr) then o == Thrown(LoneSurrogate)
            else if !r.Read? then o == Refusal(r)
            else if digits.Some? && Ip.Value(digits.value, 10) > 0xFFFF then o == Failed(InvalidPort)
            else
              var n := if digits.Some? then KeptPort(FRESH.(scheme := s), Ip.Value(digits.value, 10)) else None;
              var c := PathAt(s, cr, h, PortDigits(digits), r.host, n);
              Ends(t, c, o, e) && Ahead(t, c.pointer, rest)
  {
    hide Ends, Ahead, IsSpecialScheme, SchemeText, HostSpan, BracketOpen, Encodable, Plain, Authoritative, GoesOn, Credentialed,
      Encodes, HostReading, CredentialText, Ip.Value, IsNumeral, KeptPort, HostAt;
    var port := PortDigits(digits);
    DigitsPlain(IsSpecialScheme(s), digits, rest);
    ReachHost(t, s, cr, h, port, rest, o, e);
    if CredentialsRead(cr) {
      HostAtForm(s, cr);
      var c := HostAt(s, cr);
      ReadHost(t, c, h, port + rest, o, e);
      var r := HostReading(h, IsSpecialScheme(s), t.lower);
      if r.Read? {
        if digits.Some? {
          ReadNumber(t, BehindHost(c, r.host, |h|, true), digits.value, rest, o, e);
          SameKept(BehindHost(c, r.host, |h|, true).url, s, Ip.Value(digits.value, 10));
        } else {
          Empties(rest);
        }
      }
    }
  }

  lemma SameKept(u: Url, s: seq<int>, n: int)
    requires u.scheme == s
    ensures KeptPort(u, n) == KeptPort(FRESH.(scheme := s), n)
  {
    hide IsSpecialScheme, DefaultPort;
  }

  lemma ReadNumber(t: Input, c: Config, digits: seq<int>, rest: seq<int>, o: Outcome, e: Config)
    requires t.override.None? && Ends(t, c, o, e) && c.stage == Port && c.buffer == [] && IsNumeral(digits)
    requires Ahead(t, c.pointer - 1, [COLON] + digits + rest) && GoesOn(rest, DELIMITERS)
    ensures var n := Ip.Value(digits, 10);
            if n > 0xFFFF then o == Failed(InvalidPort)
            else
              && Ends(t, c.(stage := PathStart, pointer := c.pointer + |digits|, url := c.url.(port := KeptPort(c.url, n))), o, e)
              && Ahead(t, c.pointer + |digits|, rest)
  {
    hide Ends, Ahead, Ip.Value, GoesOn, KeptPort;
    Grouped([COLON], digits, rest);
    AheadFirst(t, c.pointer - 1, COLON, digits + rest);
    ReadPort(t, c, digits, rest, o, e);
  }

  // ---------- What is refused ----------

  /** Behind an "@" there must be a host or a port. */
  lemma NothingBehindAt(t: Input, s: seq<int>, cr: seq<int>, rest: seq<int>, o: Outcome, e: Config)
    requires SchemeText(s) && s != FILE && Authoritative(IsSpecialScheme(s), cr) && Encodable(cr) && GoesOn(rest, DELIMITERS)
    requires t.override.None? && t.cps == Whole(s, Some(cr), [], [], rest) && Ends(t, Fresh(), o, e)
    ensures o == Failed(InvalidAuthority)
  {
    hide Ends, Ahead, IsSpecialScheme, SchemeText, Encodable, Authoritative, GoesOn, Credentialed, Encodes, CredentialText, Stands;
    Empties(rest);
    CredentialSplit(Some(cr), rest);
    CredentialSplit(Some(cr), []);
    ReachStart(t, s, Some(cr), [], rest, o, e);
    var c := Config(FRESH.(scheme := s), Authority, |s| + 3, [], false, false, false);
    FreshStands(s);
    ReadUserinfo(t, c, [], cr, rest, o, e);
    CredentialedStands(c, |cr| + 1, cr);
    StandsForm(Credentialed(c, |cr| + 1, cr), cr);
    StopsBehindAt(t, Credentialed(c, |cr| + 1, cr), rest, o, e);
  }

  lemma StopsBehindAt(t: Input, d: Config, rest: seq<int>, o: Outcome, e: Config)
    requires Ends(t, d, o, e) && d.stage == Authority && d.buffer == [] && d.seenAt && Ahead(t, d.pointer, rest) && GoesOn(rest, DELIMITERS)
    ensures o == Failed(InvalidAuthority)
  {
    hide Ends, Ahead, After;
    AheadRest(t, d.pointer, rest);
    NothingMove(t, d, First(rest));
    Halted(t, d, o, e);
  }

  lemma NothingMove(t: Input, d: Config, chr: Option<int>)
    requires d.stage == Authority && d.buffer == [] && d.seenAt && t.At(d.pointer) == chr && (chr.None? || chr.value in DELIMITERS)
    ensures After(t, d) == Halt(d, Failed(InvalidAuthority))
  {
    hide AfterAt, IsSpecialScheme;
  }

  /** A port needs a host in front of it. */
  lemma NothingBeforePort(t: Input, s: seq<int>, cr: Option<seq<int>>, port: seq<int>, rest: seq<int>, o: Outcome, e: Config)
    requires IsAuthority(s, cr, []) && CredentialsRead(cr) && Plain(IsSpecialScheme(s), [COLON] + port) && GoesOn(rest, DELIMITERS)
    requires t.override.None? && t.cps == Whole(s, cr, [], [COLON] + port, rest) && Ends(t, Fresh(), o, e)
    ensures o == Failed(InvalidHost)
  {
    hide Ends, Ahead, IsSpecialScheme, IsAuthority, CredentialsRead, GoesOn, Whole, HostAt, Plain;
    var text := [COLON] + port;
    Empties(text);
    Empties(text + rest);
    Grouped([COLON], port, rest);
    ReachHost(t, s, cr, [], text, rest, o, e);
    HostAtForm(s, cr);
    StopsAtColon(t, HostAt(s, cr), port + rest, o, e);
  }

  lemma StopsAtColon(t: Input, c: Config, more: seq<int>, o: Outcome, e: Config)
    requires t.override.None? && Ends(t, c, o, e) && c.stage == HostName && c.buffer == [] && !c.seenBracket
    requires Ahead(t, c.pointer, [COLON] + more)
    ensures o == Failed(InvalidHost)
  {
    hide Ends, Ahead, After;
    AheadFirst(t, c.pointer, COLON, more);
    ColonMove(t, c);
    Halted(t, c, o, e);
  }

  lemma ColonMove(t: Input, c: Config)
    requires t.override.None? && c.stage == HostName && c.buffer == [] && !c.seenBracket && t.At(c.pointer) == Some(COLON)
    ensures After(t, c) == Halt(c, Failed(InvalidHost))
  {
    hide HostReading, IsSpecialScheme;
  }

  /** The host of a special URL is not empty. */
  lemma NoHost(t: Input, s: seq<int>, rest: seq<int>, o: Outcome, e: Config)
    requires SchemeText(s) && s != FILE && IsSpecialScheme(s) && (rest == [] || rest[0] == QUESTION || rest[0] == HASH)
    requires t.override.None? && t.cps == s + ([COLON] + ([SLASH] + ([SLASH] + rest))) && Ends(t, Fresh(), o, e)
    ensures o == Failed(InvalidHost)
  {
    hide Ends, Ahead, IsSpecialScheme, SchemeText, After, BehindScheme;
    ReadScheme(t, s, [SLASH] + ([SLASH] + rest), o, e);
    AheadFirst(t, |s| + 1, SLASH, [SLASH] + rest);
    AheadFirst(t, |s| + 2, SLASH, rest);
    AheadRest(t, |s| + 3, rest);
    SpecialAt(t, s);
    SpecialToAuthority(t, FRESH.(scheme := s), |s| + 1, o, e);
    var c := Config(FRESH.(scheme := s), Authority, |s| + 3, [], false, false, false);
    EmptyMoves(t, c, First(rest));
    Step(t, c, o, e);
    Halted(t, c.(stage := HostName), o, e);
  }

  lemma SpecialAt(t: Input, s: seq<int>)
    requires IsSpecialScheme(s) && s != FILE
    ensures var u := FRESH.(scheme := s);
            BehindScheme(t, s, true) == Config(u, AfterScheme(u, t.base, true), |s| + 1, [], false, false, false)
  {
    hide IsSpecialScheme;
  }

  lemma EmptyMoves(t: Input, c: Config, chr: Option<int>)
    requires t.override.None? && c.stage == Authority && c.buffer == [] && !c.seenAt && !c.seenBracket && IsSpecial(c.url)
    requires t.At(c.pointer) == chr && (chr.None? || chr.value == QUESTION || chr.value == HASH)
    ensures After(t, c) == Move(Loop, c.(stage := HostName))
    ensures After(t, c.(stage := HostName)) == Halt(c.(stage := HostName), Failed(InvalidHost))
  {
    hide AfterAt, IsSpecialScheme, HostReading;
  }

  /** A port holds digits only. */
  lemma NoNumber(t: Input, s: seq<int>, cr: Option<seq<int>>, h: seq<int>, digits: seq<int>, x: int, more: seq<int>, rest: seq<int>,
      o: Outcome, e: Config)
    requires IsAuthority(s, cr, h) && h != [] && CredentialsRead(cr) && HostReading(h, IsSpecialScheme(s), t.lower).Read?
    requires (forall i :: 0 <= i < |digits| ==> Ip.IsDigit(digits[i])) && !Ip.IsDigit(x)
    requires Plain(IsSpecialScheme(s), [x] + more) && GoesOn(rest, DELIMITERS)
    requires t.override.None? && t.cps == Whole(s, cr, h, [COLON] + (digits + ([x] + more)), rest) && Ends(t, Fresh(), o, e)
    ensures o == Failed(InvalidPort)
  {
    hide Ends, Ahead, IsSpecialScheme, SchemeText, HostSpan, BracketOpen, Encodable, Authoritative, GoesOn, Credentialed, Encodes,
      HostReading, CredentialText, HostAt, Gathers, After, Whole;
    var port := [COLON] + (digits + ([x] + more));
    NumberPlain(IsSpecialScheme(s), digits, [x] + more);
    ReachHost(t, s, cr, h, port, rest, o, e);
    HostAtForm(s, cr);
    var c := HostAt(s, cr);
    ColonGoesOn(port, rest);
    ReadHost(t, c, h, port + rest, o, e);
    var d := BehindHost(c, HostReading(h, IsSpecialScheme(s), t.lower).host, |h|, true);
    assert port + rest == [COLON] + (digits + ([x] + (more + rest)));
    AheadFirst(t, c.pointer + |h|, COLON, digits + ([x] + (more + rest)));
    DigitsGather(d, digits);
    Gather(t, d, digits, [x] + (more + rest), o, e);
    Empties(digits);
    AheadFirst(t, d.pointer + |digits|, x, more + rest);
    OddMove(t, d.(pointer := d.pointer + |digits|, buffer := digits), x);
    Halted(t, d.(pointer := d.pointer + |digits|, buffer := digits), o, e);
  }

  lemma NumberPlain(special: bool, digits: seq<int>, more: seq<int>)
    requires (forall i :: 0 <= i < |digits| ==> Ip.IsDigit(digits[i])) && Plain(special, more)
    ensures Plain(special, [COLON] + (digits + more))
    ensures more != [] ==> more[0] !in DELIMITERS && !(special && more[0] == BACKSLASH)
  {
  }

  lemma ColonGoesOn(port: seq<int>, rest: seq<int>)
    requires port != [] && port[0] == COLON
    ensures GoesOn(port + rest, DELIMITERS + {COLON}) && First(port + rest) == Some(COLON)
  {
  }

  lemma DigitsGather(d: Config, digits: seq<int>)
    requires d.stage == Port && forall i :: 0 <= i < |digits| ==> Ip.IsDigit(digits[i])
    ensures forall i :: 0 <= i < |digits| ==> Gathers(d, digits[i])
  {
  }

  lemma OddMove(t: Input, d: Config, x: int)
    requires t.override.None? && d.stage == Port && t.At(d.pointer) == Some(x) && !Ip.IsDigit(x)
    requires x !in DELIMITERS && !(IsSpecial(d.url) && x == BACKSLASH)
    ensures After(t, d) == Halt(d, Failed(InvalidPort))
  {
    hide IsSpecialScheme, KeptPort, Ip.Value;
  }

  // ---------- The default port ----------

  /** The port each scheme stands for. */
  predicate StandsFor(s: seq<int>, n: int) {
    || (n == 21 && s == Chars("ftp"))
    || (n == 80 && (s == Chars("http") || s == Chars("ws")))
    || (n == 443 && (s == Chars("https") || s == Chars("wss")))
  }

  lemma KeptExactly(s: seq<int>, n: int)
    ensures s != FILE ==> KeptPort(FRESH.(scheme := s), n) == if StandsFor(s, n) then None else Some(n)
  {
    assert Chars("ftp") == FTP && Chars("http") == HTTP && Chars("ws") == WS && Chars("https") == HTTPS && Chars("wss") == WSS;
  }

  /**
   For every userinfo, host and rest: "http://h:80..." is parsed as "http://h..." is, and so are ftp with 21, ws with 80,
   and https and wss with 443.  Any other number up to 65535 is the port of what the text without it comes to.
   */
  lemma PortExactly(s: seq<int>, cr: Option<seq<int>>, h: seq<int>, digits: seq<int>, rest: seq<int>, base: Option<Url>,
      lower: seq<int> -> seq<int>, o: Outcome, e: Config, p: Outcome, f: Config)
    requires IsAuthority(s, cr, h) && h != [] && IsNumeral(digits) && GoesOn(rest, DELIMITERS) && Ip.Value(digits, 10) <= 0xFFFF
    requires Ends(Input(Whole(s, cr, h, [COLON] + digits, rest), base, None, lower), Fresh(), o, e)
    requires Ends(Input(Whole(s, cr, h, [], rest), base, None, lower), Fresh(), p, f)
    ensures o == p
    ensures !o.Thrown? && o == Parsed ==>
      && f.url.port == None
      && e.url == if StandsFor(s, Ip.Value(digits, 10)) then f.url else f.url.(port := Some(Ip.Value(digits, 10)))
  {
    hide Ends, IsSpecialScheme, SchemeText, HostSpan, BracketOpen, Encodable, Plain, Authoritative, GoesOn, Whole,
      HostReading, Ip.Value, IsNumeral, KeptPort, IsAuthority, PathAt, StandsFor;
    var t := Input(Whole(s, cr, h, [COLON] + digits, rest), base, None, lower);
    var v := Input(Whole(s, cr, h, [], rest), base, None, lower);
    ReadAuthority(t, s, cr, h, Some(digits), rest, o, e);
    ReadAuthority(v, s, cr, h, None, rest, p, f);
    var r := HostReading(h, IsSpecialScheme(s), lower);
    if CredentialsRead(cr) && r.Read? {
      NotFile(s, cr, h);
      KeptExactly(s, Ip.Value(digits, 10));
      PortRuns(t, v, s, cr, h, [COLON] + digits, rest, r.host, KeptPort(FRESH.(scheme := s), Ip.Value(digits, 10)), o, e, p, f);
    }
  }

  lemma NotFile(s: seq<int>, cr: Option<seq<int>>, h: seq<int>)
    requires IsAuthority(s, cr, h)
    ensures s != FILE
  {
  }

  lemma PortRuns(t: Input, v: Input, s: seq<int>, cr: Option<seq<int>>, h: seq<int>, port: seq<int>, rest: seq<int>, host: Host,
      n: Option<int>, o: Outcome, e: Config, p: Outcome, f: Config)
    requires CredentialsRead(cr) && t.override.None? && v.override.None? && t.lower == v.lower
    requires var c, d := PathAt(s, cr, h, port, host, n), PathAt(s, cr, h, [], host, None);
             && Ends(t, c, o, e) && Ahead(t, c.pointer, rest) && Ends(v, d, p, f) && Ahead(v, d.pointer, rest)
    ensures o == p
    ensures o == Parsed ==> f.url.port == None && e.url == f.url.(port := n)
  {
    hide Ends, HostAt;
    var c, d := PathAt(s, cr, h, port, host, n), PathAt(s, cr, h, [], host, None);
    assert SameText(t, c.pointer, v, d.pointer);
    assert Alike(t, WithPort(c, None), v, d, c.pointer);
    PortsApart(t, c, n, o, e, v, d, c.pointer, p, f);
  }

  lemma PortsApart(t: Input, c: Config, n: Option<int>, o: Outcome, e: Config, v: Input, d: Config, from: int, p: Outcome, f: Config)
    requires Alike(t, WithPort(c, None), v, d, from) && c.stage == PathStart && c.url.port == n
    requires Ends(t, c, o, e) && Ends(v, d, p, f) && d.url.port == None
    ensures o == p
    ensures o == Parsed ==> f.url.port == None && e.url == f.url.(port := n)
  {
    hide Alike, IsParse;
    var trace :| IsParse(t, c, trace, o, e);
    AnyPort(t, c, trace, o, e, None);
    SameAhead(t, WithPort(c, None), o, WithPort(e, None), v, d, from, p, f);
  }
}
