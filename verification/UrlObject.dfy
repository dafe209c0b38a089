/**
 The URL object of js/secsdk-lastest.umd.js as its user sees it: one method a setter, each of which cleans its text and
 parses it into the URL in place, and what the URL is afterwards.
 */
module UrlObject {
  import opened Wrappers
  import opened UrlRecord
  import opened UrlHost
  import opened UrlStates
  import opened UrlRuns
  import opened UrlParser
  import opened UrlPorts
  import opened UrlReference
  import opened UrlSetters
  import Puny = Punycode

  /** The code points of a text given to a setter, without tabs and newlines. */
  function Typed(text: seq<int>): seq<int> { Puny.CodePoints(WithoutTabsAndNewlines(text)) }

  /** Where there is no host to speak of, or no place for it, a URL has no credentials and no port. */
  predicate NoPlace(u: Url) {
    || u.host in {NoHost, Text([]), IPv4(0), UndefinedHost}
    || u.cannotBeABase || u.scheme == Chars("file")
  }

  class UrlObject {
    var url: Url
    const lower: seq<int> -> seq<int>   // String.prototype.toLowerCase

    constructor (url: Url, lower: seq<int> -> seq<int>)
      ensures this.url == url && this.lower == lower
    {
      this.url := url;
      this.lower := lower;
    }

    /** `parse` under a state override. */
    method Reparse(text: seq<int>, stage: Stage) returns (outcome: Outcome, ghost d: Config)
      requires Puny.IsUtf16(text) && LowersText(lower)
      modifies this
      ensures var t := Input(Typed(text), None, Some(stage), lower);
              Ends(t, Begun(t, old(url)), outcome, d) && d.url == url
    {
      hide LowersText, Puny.CodePoints, IsParse, WithoutTabsAndNewlines;
      CleanedText(text);
      Puny.CodePointRange(WithoutTabsAndNewlines(text));
      var t := Input(Typed(text), None, Some(stage), lower);
      OverrideReady(t, url);
      var state := new UrlState(t, url);
      outcome := state.Parse();
      d := state.AsConfig();
      url := state.url;
      assert Ends(t, Begun(t, old(url)), outcome, d);
    }

    /** The scheme in lower case; a text that is no scheme, or would make a special URL another kind, changes nothing. */
    method SetProtocol(protocol: seq<int>) returns (outcome: Outcome)
      requires Puny.IsUtf16(protocol) && LowersText(lower)
      modifies this
      ensures SchemeGiven(old(url), Typed(protocol + [COLON]), outcome, url)
      ensures old(UrlOk(url)) && !outcome.Thrown? ==> UrlOk(url)
    {
      hide LowersText, Ends, SchemeGiven, UrlOk;
      ghost var d;
      WithColon(protocol);
      outcome, d := Reparse(protocol + [COLON], SchemeStart);
      ghost var t := Input(Typed(protocol + [COLON]), None, Some(SchemeStart), lower);
      ProtocolExactly(t, old(url), outcome, d);
      if old(UrlOk(url)) { SettersKeep(t, old(url), outcome, d); }
    }

    /** The host, and with it a port; a host of a file URL has no port. */
    method SetHost(host: seq<int>) returns (outcome: Outcome)
      requires Puny.IsUtf16(host) && LowersText(lower)
      modifies this
      ensures old(url).cannotBeABase ==> outcome == Parsed && url == old(url)
      ensures !old(url).cannotBeABase && old(url).scheme != FILE ==> HostGiven(old(url), Typed(host), lower, true, outcome, url)
      ensures !old(url).cannotBeABase && old(url).scheme == FILE ==> FileHostGiven(old(url), Typed(host), lower, outcome, url)
      ensures old(UrlOk(url)) && !outcome.Thrown? ==> UrlOk(url)
    {
      if url.cannotBeABase { return Parsed; }
      outcome := GiveHost(host, HostName);
    }

    method SetHostname(hostname: seq<int>) returns (outcome: Outcome)
      requires Puny.IsUtf16(hostname) && LowersText(lower)
      modifies this
      ensures old(url).cannotBeABase ==> outcome == Parsed && url == old(url)
      ensures !old(url).cannotBeABase && old(url).scheme != FILE ==> HostGiven(old(url), Typed(hostname), lower, false, outcome, url)
      ensures !old(url).cannotBeABase && old(url).scheme == FILE ==> FileHostGiven(old(url), Typed(hostname), lower, outcome, url)
      ensures old(UrlOk(url)) && !outcome.Thrown? ==> UrlOk(url)
    {
      if url.cannotBeABase { return Parsed; }
      outcome := GiveHost(hostname, HostOnly);
    }

    method GiveHost(host: seq<int>, stage: Stage) returns (outcome: Outcome)
      requires Puny.IsUtf16(host) && LowersText(lower) && (stage == HostName || stage == HostOnly)
      modifies this
      ensures old(url).scheme != FILE ==> HostGiven(old(url), Typed(host), lower, stage == HostName, outcome, url)
      ensures old(url).scheme == FILE ==> FileHostGiven(old(url), Typed(host), lower, outcome, url)
      ensures old(UrlOk(url)) && !outcome.Thrown? ==> UrlOk(url)
    {
      hide LowersText, Ends, HostGiven, FileHostGiven, UrlOk;
      ghost var d;
      outcome, d := Reparse(host, stage);
      ghost var t := Input(Typed(host), None, Some(stage), lower);
      if old(url).scheme == FILE {
        FileHostExactly(t, old(url), outcome, d);
      } else {
        HostExactly(t, old(url), outcome, d);
      }
      if old(UrlOk(url)) { SettersKeep(t, old(url), outcome, d); }
    }

    /** The number the text starts with, and no port for the empty text; a URL that can have no port stays as it is. */
    method SetPort(port: seq<int>) returns (outcome: Outcome)
      requires Puny.IsUtf16(port) && LowersText(lower)
      modifies this
      ensures NoPlace(old(url)) ==> outcome == Parsed && url == old(url)
      ensures !NoPlace(old(url)) && port == [] ==> outcome == Parsed && url == old(url).(port := None)
      ensures !NoPlace(old(url)) && port != [] ==> PortGiven(old(url), Typed(port), outcome, url)
    {
      hide LowersText, Ends, PortGiven;
      FileChars();
      if !Truthy(url.host) || url.cannotBeABase || url.scheme == FILE { return Parsed; }
      if port == [] {
        url := url.(port := None);
        return Parsed;
      }
      ghost var d;
      outcome, d := Reparse(port, Port);
      PortSetExactly(Input(Typed(port), None, Some(Port), lower), old(url), outcome, d);
    }

    /** The path that the pieces of the text walk from nothing. */
    method SetPathname(pathname: seq<int>) returns (outcome: Outcome)
      requires Puny.IsUtf16(pathname) && LowersText(lower)
      modifies this
      ensures old(url).cannotBeABase ==> outcome == Parsed && url == old(url)
      ensures !old(url).cannotBeABase ==>
        var u, text := old(url).(path := []), Typed(pathname);
        if text == [] && !IsSpecial(u) then outcome == Parsed && url == u
        else
          match EncodedSegments(Pieces(IsSpecial(u), PathText(IsSpecial(u), text)))
          case None => outcome == Thrown(LoneSurrogate)
          case Some(path) => outcome == Parsed && url == Walked(u, path)
    {
      hide LowersText, Ends, IsSpecialScheme, EncodedSegments, Walked, Pieces;
      if url.cannotBeABase { return Parsed; }
      url := url.(path := []);
      ghost var d;
      ghost var u := url;
      outcome, d := Reparse(pathname, PathStart);
      PathnameExactly(Input(Typed(pathname), None, Some(PathStart), lower), u, outcome, d);
    }

    /** The text behind a first "?", encoded; no query for the empty text. */
    method SetSearch(search: seq<int>) returns (outcome: Outcome)
      requires Puny.IsUtf16(search) && LowersText(lower)
      modifies this
      ensures search == [] ==> outcome == Parsed && url == old(url).(query := None)
      ensures search != [] ==>
        match QueryEncodes(Typed(Without(search, QUESTION)), IsSpecial(old(url)))
        case None => outcome == Thrown(LoneSurrogate)
        case Some(p) => outcome == Parsed && url == old(url).(query := Some(p))
    {
      hide LowersText, Ends, IsSpecialScheme, QueryEncodes;
      if search == [] {
        url := url.(query := None);
        return Parsed;
      }
      url := url.(query := Some([]));
      ghost var u := url;
      ghost var d;
      outcome, d := Reparse(if search[0] == QUESTION then search[1..] else search, Query);
      SearchExactly(Input(Typed(Without(search, QUESTION)), None, Some(Query), lower), u, outcome, d);
    }

    /** The text behind a first "#", encoded; no fragment for the empty text. */
    method SetHash(hash: seq<int>) returns (outcome: Outcome)
      requires Puny.IsUtf16(hash) && LowersText(lower)
      modifies this
      ensures hash == [] ==> outcome == Parsed && url == old(url).(fragment := None)
      ensures hash != [] ==>
        match Encodes(Typed(Without(hash, HASH)), FRAGMENT_SET)
        case None => outcome == Thrown(LoneSurrogate)
        case Some(p) => outcome == Parsed && url == old(url).(fragment := Some(p))
    {
      hide LowersText, Ends, Encodes;
      if hash == [] {
        url := url.(fragment := None);
        return Parsed;
      }
      url := url.(fragment := Some([]));
      ghost var u := url;
      ghost var d;
      outcome, d := Reparse(if hash[0] == HASH then hash[1..] else hash, Fragment);
      HashExactly(Input(Typed(Without(hash, HASH)), None, Some(Fragment), lower), u, outcome, d);
    }

    /** The text, percent-encoded, where the URL can have a username. */
    method SetUsername(username: seq<int>) returns (outcome: Outcome)
      requires Puny.IsUtf16(username)
      modifies this
      ensures NoPlace(old(url)) ==> outcome == Parsed && url == old(url)
      ensures !NoPlace(old(url)) ==>
        match Encodes(Puny.CodePoints(username), USERINFO_SET)
        case None => outcome == Thrown(LoneSurrogate)
        case Some(p) => outcome == Parsed && url == old(url).(username := p)
    {
      hide Encodes, PercentEncode, Puny.CodePoints;
      FileChars();
      if !Truthy(url.host) || url.cannotBeABase || url.scheme == FILE { return Parsed; }
      var cps := Puny.CodePoints(username);
      url := url.(username := []);
      NothingEncodes(USERINFO_SET);
      assert cps[..0] == [];
      for i := 0 to |cps|
        invariant Encodes(cps[..i], USERINFO_SET) == Some(url.username) && url == old(url).(username := url.username)
      {
        EncodesStep(cps, USERINFO_SET, i);
        var encoded := PercentEncode(cps[i], USERINFO_SET);
        if encoded.None? {
          NoneFrom(cps, i);
          return Thrown(LoneSurrogate);
        }
        url := url.(username := url.username + encoded.value);
      }
      assert cps[..|cps|] == cps;
      return Parsed;
    }

    method SetPassword(password: seq<int>) returns (outcome: Outcome)
      requires Puny.IsUtf16(password)
      modifies this
      ensures NoPlace(old(url)) ==> outcome == Parsed && url == old(url)
      ensures !NoPlace(old(url)) ==>
        match Encodes(Puny.CodePoints(password), USERINFO_SET)
        case None => outcome == Thrown(LoneSurrogate)
        case Some(p) => outcome == Parsed && url == old(url).(password := p)
    {
      hide Encodes, PercentEncode, Puny.CodePoints;
      FileChars();
      if !Truthy(url.host) || url.cannotBeABase || url.scheme == FILE { return Parsed; }
      var cps := Puny.CodePoints(password);
      url := url.(password := []);
      NothingEncodes(USERINFO_SET);
      assert cps[..0] == [];
      for i := 0 to |cps|
        invariant Encodes(cps[..i], USERINFO_SET) == Some(url.password) && url == old(url).(password := url.password)
      {
        EncodesStep(cps, USERINFO_SET, i);
        var encoded := PercentEncode(cps[i], USERINFO_SET);
        if encoded.None? {
          NoneFrom(cps, i);
          return Thrown(LoneSurrogate);
        }
        url := url.(password := url.password + encoded.value);
      }
      assert cps[..|cps|] == cps;
      return Parsed;
    }
  }

  /** The text without the one character it may start with. */
  function Without(s: seq<int>, x: int): seq<int> { if s != [] && s[0] == x then s[1..] else s }

  lemma WithColon(s: seq<int>)
    requires Puny.IsUtf16(s)
    ensures Puny.IsUtf16(s + [COLON])
  {
  }

  lemma FileChars()
    ensures Chars("file") == FILE
  {
  }
}
