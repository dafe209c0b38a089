/**
 How the URL parser of js/secsdk-lastest.umd.js reads what stands in front of a path: scheme, userinfo, host and
 port, whatever digits the port is written with.
 */
module UrlAuthority {
  import opened Wrappers
  import opened UrlRecord
  import opened UrlHost
  import opened UrlHostText
  import opened UrlStates
  import opened UrlRuns
  import opened UrlPrinter
  import opened UrlNormal
  import Ip = IpAddress

  // ---------- Userinfo ----------

  lemma {:induction false} ColonAt(name: seq<int>, rest: seq<int>)
    requires AllKept(name, USERINFO_SET) && (rest == [] || rest[0] == COLON)
    ensures PasswordAt(name + rest, false) == |name|
  {
    var s := name + rest;
    if name != [] {
      assert s[1..] == name[1..] + rest;
      ColonAt(name[1..], rest);
      assert s[0] == name[0] && Kept(name[0], USERINFO_SET);
    } else {
      assert s == rest;
    }
  }

  lemma UserinfoSplits(u: Url)
    requires AllKept(u.username, USERINFO_SET) && AllKept(u.password, USERINFO_SET)
    ensures var s := UserinfoText(u);
            && PasswordAt(s, false) == |u.username| && (|u.username| < |s| <==> u.password != [])
            && s[..PasswordAt(s, false)] == u.username && s[PasswordFrom(s, false)..] == u.password
  {
    hide PasswordAt;
    ColonAt(u.username, if u.password == [] then [] else [COLON] + u.password);
  }

  lemma UserinfoDone(d: Config, u: Url)
    requires d.buffer == UserinfoText(u) && !d.seenAt && !d.seenPasswordToken
    requires AllKept(u.username, USERINFO_SET) && AllKept(u.password, USERINFO_SET)
    requires d.url.username == [] && d.url.password == []
    ensures AfterAt(d) == Go(d.(seenAt := true, seenPasswordToken := u.password != []), Authority, 1,
                             d.url.(username := u.username, password := u.password), [])
  {
    hide Encodes, PasswordAt, UserinfoText;
    UserinfoSplits(u);
    KeptEncodes(u.username, USERINFO_SET);
    KeptEncodes(u.password, USERINFO_SET);
    assert [] + u.username == u.username && [] + u.password == u.password;
  }

  lemma UserinfoGathers(c: Config, u: Url, i: nat)
    requires c.stage == Authority && AllKept(u.username, USERINFO_SET) && AllKept(u.password, USERINFO_SET)
    requires i < |UserinfoText(u)|
    ensures Gathers(c, UserinfoText(u)[i])
  {
    hide IsSpecialScheme;
    var x := UserinfoText(u)[i];
    assert x == COLON || Kept(x, USERINFO_SET);
  }

  /** Where the credentials lead. */
  function Credited(c: Config, u: Url): Config {
    c.(url := c.url.(username := u.username, password := u.password), pointer := c.pointer + |Credentials(u)|,
       seenAt := IncludesCredentials(u), seenPasswordToken := IncludesCredentials(u) && u.password != [])
  }

  /** From the "@" on, the userinfo is the username and the password it was printed from. */
  lemma ReadCredentials(t: Input, c: Config, u: Url, rest: seq<int>, o: Outcome, e: Config)
    requires t.override.None? && Ends(t, c, o, e) && c.stage == Authority && c.buffer == [] && !c.seenAt && !c.seenPasswordToken
    requires AllKept(u.username, USERINFO_SET) && AllKept(u.password, USERINFO_SET)
    requires c.url.username == [] && c.url.password == []
    requires Ahead(t, c.pointer, Credentials(u) + rest)
    ensures Ends(t, Credited(c, u), o, e) && Ahead(t, c.pointer + |Credentials(u)|, rest)
  {
    hide Ends, Ahead, IsSpecialScheme, UserinfoText, AllKept, After;
    if IncludesCredentials(u) {
      var w := UserinfoText(u);
      assert Credentials(u) + rest == w + ([AT] + rest);
      forall i | 0 <= i < |w| ensures Gathers(c, w[i]) { UserinfoGathers(c, u, i); }
      Gather(t, c, w, [AT] + rest, o, e);
      var d := c.(pointer := c.pointer + |w|, buffer := w);
      Empties(w);
      AheadFirst(t, d.pointer, AT, rest);
      AtMove(t, d, u);
      Step(t, d, o, e);
    } else {
      Empties(rest);
    }
  }

  lemma AtMove(t: Input, d: Config, u: Url)
    requires d.stage == Authority && t.At(d.pointer) == Some(AT) && d.buffer == UserinfoText(u) && !d.seenAt && !d.seenPasswordToken
    requires AllKept(u.username, USERINFO_SET) && AllKept(u.password, USERINFO_SET)
    requires d.url.username == [] && d.url.password == []
    ensures After(t, d) == Move(Loop, d.(seenAt := true, seenPasswordToken := u.password != [], pointer := d.pointer + 1,
            buffer := [],
                                         url := d.url.(username := u.username, password := u.password)))
  {
    hide UserinfoText, AfterAt, AllKept;
    UserinfoDone(d, u);
  }

  // ---------- The host ----------

  /** Scheme, userinfo and host as the parser writes them, of a URL that is no file. */
  predicate AuthorityReady(u: Url) {
    && SchemeText(u.scheme) && u.scheme != FILE && u.host != NoHost && HostForm(u)
    && AllKept(u.username, USERINFO_SET) && AllKept(u.password, USERINFO_SET)
    && (u.host == Text([]) ==> !IncludesCredentials(u) && !IsSpecial(u))
  }

  /** The text up to a path, and on. */
  function Origin(u: Url, h: seq<int>, port: seq<int>, rest: seq<int>): seq<int> {
    u.scheme + ([COLON] + ([SLASH] + ([SLASH] + (Credentials(u) + (h + (port + rest))))))
  }

  lemma AuthorityGathers(c: Config, s: seq<int>)
    requires c.stage == Authority && AuthorityCharacters(s)
    ensures forall i :: 0 <= i < |s| ==> Gathers(c, s[i])
  {
    hide IsSpecialScheme;
  }

  lemma AuthorityStart(u: Url, h: seq<int>, rest: seq<int>)
    requires h != [] && AuthorityCharacters(h) && AllKept(u.username, USERINFO_SET)
    ensures var a := Credentials(u) + (h + rest);
            a != [] && a[0] !in {SLASH, BACKSLASH}
  {
    if u.username != [] { assert Kept(u.username[0], USERINFO_SET); }
  }

  /** Where the host of a printed URL is read. */
  function AtHost(u: Url): Config {
    Credited(Config(FRESH.(scheme := u.scheme), HostName, |u.scheme| + 3, [], false, false, false), u)
  }

  lemma AtHostForm(u: Url)
    ensures var c := AtHost(u);
            && c.stage == HostName && c.buffer == [] && !c.seenBracket
            && c.url == FRESH.(scheme := u.scheme, username := u.username, password := u.password)
            && c == Credited(Config(FRESH.(scheme := u.scheme), Authority, |u.scheme| + 3, [], false, false, false),
              u).(stage := HostName)
            && Credited(Config(FRESH.(scheme := u.scheme), Authority, |u.scheme| + 3, [], false, false, false), u) ==
                 c.(stage := Authority)
            && (c.seenAt <==> IncludesCredentials(u)) && c.pointer == |u.scheme| + 3 + |Credentials(u)|
  {
    hide Credentials;
  }

  lemma ReachUserinfo(u: Url, h: seq<int>, rest: seq<int>, t: Input, o: Outcome, e: Config)
    requires SchemeText(u.scheme) && u.scheme != FILE && t.override.None? && Ends(t, Fresh(), o, e)
    requires AuthorityCharacters(h) && AllKept(u.username, USERINFO_SET) && (IsSpecial(u) ==> h != [])
    requires t.cps == u.scheme + ([COLON] + ([SLASH] + ([SLASH] + (Credentials(u) + (h + rest)))))
    ensures Ends(t, Config(FRESH.(scheme := u.scheme), Authority, |u.scheme| + 3, [], false, false, false), o, e)
    ensures Ahead(t, |u.scheme| + 3, Credentials(u) + (h + rest))
  {
    hide Ends, Ahead, IsSpecialScheme, AllKept, SchemeText, AuthorityCharacters, Credentials, BehindScheme;
    var a := Credentials(u) + (h + rest);
    if h != [] { AuthorityStart(u, h, rest); }
    ReadScheme(t, u.scheme, [SLASH] + ([SLASH] + a), o, e);
    ReachAuthority(t, u.scheme, a, o, e);
  }

  lemma ReachHost(u: Url, h: seq<int>, port: seq<int>, rest: seq<int>, t: Input, o: Outcome, e: Config)
    requires AuthorityReady(u) && IsHostText(u.host, h) && AuthorityCharacters(port) && GoesOn(rest, DELIMITERS)
    requires t.override.None? && t.cps == Origin(u, h, port, rest) && Ends(t, Fresh(), o, e)
    ensures Ends(t, AtHost(u), o, e) && Ahead(t, AtHost(u).pointer, h + (port + rest))
  {
    hide Ends, Ahead, HostForm, IsHostText, IsSpecialScheme, AllKept, SchemeText, AuthorityCharacters, Credentials,
      HostSpan, BracketOpen, IncludesCredentials, Credited, AtHost, GoesOn;
    AtHostForm(u);
    HostTextSpan(u, h);
    ReachUserinfo(u, h, port + rest, t, o, e);
    var c := Config(FRESH.(scheme := u.scheme), Authority, |u.scheme| + 3, [], false, false, false);
    ReadCredentials(t, c, u, h + (port + rest), o, e);
    BackToHost(t, Credited(c, u), h, port, rest, o, e);
  }

  lemma BackToHost(t: Input, c: Config, h: seq<int>, port: seq<int>, rest: seq<int>, o: Outcome, e: Config)
    requires t.override.None? && Ends(t, c, o, e) && c.stage == Authority && c.buffer == []
    requires AuthorityCharacters(h) && AuthorityCharacters(port) && (c.seenAt ==> h != []) && GoesOn(rest, DELIMITERS)
    requires Ahead(t, c.pointer, h + (port + rest))
    ensures Ends(t, c.(stage := HostName), o, e)
  {
    hide Ends, Ahead, IsSpecialScheme, Gathers;
    var w := h + port;
    assert h + (port + rest) == w + rest;
    AuthorityGathers(c, w);
    RewindToHost(t, c, w, rest, o, e);
  }

  // ---------- The port ----------

  predicate IsNumeral(s: seq<int>) { s != [] && forall i :: 0 <= i < |s| ==> Ip.IsDigit(s[i]) }

  function PortDigits(digits: Option<seq<int>>): seq<int> { if digits.Some? then [COLON] + digits.value else [] }

  lemma DigitsCharacters(digits: Option<seq<int>>, rest: seq<int>)
    requires (digits.Some? ==> IsNumeral(digits.value)) && GoesOn(rest, DELIMITERS)
    ensures AuthorityCharacters(PortDigits(digits)) && GoesOn(PortDigits(digits) + rest, DELIMITERS + {COLON})
    ensures First(PortDigits(digits) + rest) == Some(COLON) <==> digits.Some?
  {
  }

  /** Where the path of a URL with this port starts. */
  function BehindOrigin(u: Url, h: seq<int>, digits: Option<seq<int>>, port: Option<int>): Config {
    AtHost(u).(stage := PathStart, pointer := AtHost(u).pointer + |h| + |PortDigits(digits)|,
        url := AtHost(u).url.(host := u.host, port := port))
  }

  lemma OriginForm(u: Url, h: seq<int>, digits: Option<seq<int>>, port: Option<int>)
    ensures var c := BehindOrigin(u, h, digits, port);
            && c.stage == PathStart && c.buffer == [] && !c.seenBracket
            && c.url == FRESH.(scheme := u.scheme, username := u.username, password := u.password, host := u.host, port := port)
  {
    hide AtHost;
    AtHostForm(u);
  }

  /**
   The port of a URL is the number its digits write, however many: kept if it is a 16-bit number and not the
   default of a special scheme, and refused if it is larger.
   */
  lemma ReadOrigin(u: Url, h: seq<int>, digits: Option<seq<int>>, rest: seq<int>, t: Input, o: Outcome, e: Config)
    requires AuthorityReady(u) && PlainHost(u) && IsHostText(u.host, h) && IsLowering(t.lower) && GoesOn(rest, DELIMITERS)
    requires digits.Some? ==> IsNumeral(digits.value) && u.host != Text([])
    requires t.override.None? && t.cps == Origin(u, h, PortDigits(digits), rest) && Ends(t, Fresh(), o, e)
    ensures digits.None? ==>
      Ends(t, BehindOrigin(u, h, digits, None), o, e) && Ahead(t, BehindOrigin(u, h, digits, None).pointer, rest)
    ensures digits.Some? ==>
      var port := Ip.Value(digits.value, 10);
      if port > 0xFFFF then o == Failed(InvalidPort)
      else && Ends(t, BehindOrigin(u, h, digits, KeptPort(u, port)), o, e)
           && Ahead(t, BehindOrigin(u, h, digits, KeptPort(u, port)).pointer, rest)
  {
    hide Ends, Ahead, IsHostText, IsLowering, AuthorityReady, PlainHost, AuthorityCharacters, Origin, AtHost,
      KeptPort, Ip.Value, GoesOn, IsNumeral;
    var port := PortDigits(digits);
    AtHostForm(u);
    DigitsCharacters(digits, rest);
    ReachHost(u, h, port, rest, t, o, e);
    ReadKnownHost(u, h, port + rest, t, o, e);
    if digits.Some? {
      ReadDigits(t, BehindHost(AtHost(u), u.host, |h|, true), u, digits.value, rest, o, e);
    } else {
      Empties(rest);
    }
  }

  /** A host in normal form is read as it is. */
  lemma ReadKnownHost(u: Url, h: seq<int>, rest: seq<int>, t: Input, o: Outcome, e: Config)
    requires AuthorityReady(u) && PlainHost(u) && IsHostText(u.host, h) && IsLowering(t.lower) && t.override.None?
    requires Ends(t, AtHost(u), o, e) && Ahead(t, AtHost(u).pointer, h + rest)
    requires GoesOn(rest, DELIMITERS + {COLON}) && (First(rest) == Some(COLON) ==> u.host != Text([]))
    ensures Ends(t, BehindHost(AtHost(u), u.host, |h|, First(rest) == Some(COLON)), o, e) && Ahead(t, AtHost(u).pointer + |h|, rest)
  {
    hide Ends, Ahead, IsHostText, IsSpecialScheme, IsLowering, HostForm, SchemeText, AllKept, HostSpan, BracketOpen,
      HostReading, AuthorityCharacters, AtHost, GoesOn, PlainHost;
    AtHostForm(u);
    HostTextSpan(u, h);
    HostTextRead(u, h, t.lower);
    ReadHost(t, AtHost(u), h, rest, o, e);
  }

  lemma ReadDigits(t: Input, d: Config, u: Url, digits: seq<int>, rest: seq<int>, o: Outcome, e: Config)
    requires t.override.None? && Ends(t, d, o, e) && d.stage == Port && d.buffer == [] && d.url.scheme == u.scheme
    requires IsNumeral(digits) && GoesOn(rest, DELIMITERS) && Ahead(t, d.pointer - 1, [COLON] + digits + rest)
    ensures var port := Ip.Value(digits, 10);
            if port > 0xFFFF then o == Failed(InvalidPort)
            else Ends(t, d.(stage := PathStart, pointer := d.pointer + |digits|, url := d.url.(port := KeptPort(u, port))), o, e)
                 && Ahead(t, d.pointer + |digits|, rest)
  {
    hide Ends, Ahead, IsSpecialScheme, DefaultPort, Ip.Value, GoesOn;
    assert [COLON] + digits + rest == [COLON] + (digits + rest);
    AheadFirst(t, d.pointer - 1, COLON, digits + rest);
    ReadPort(t, d, digits, rest, o, e);
  }
}
