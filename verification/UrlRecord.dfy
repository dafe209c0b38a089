/**
 URL records of js/secsdk-lastest.umd.js and the pieces of text they are made from:
 percent-encoding, userinfo and path segments.  Text is a sequence of code points.
 */
module UrlRecord {
  import opened Wrappers
  import Uri

  // ---------- URL records ----------

  datatype Host = NoHost | Text(text: seq<int>) | IPv4(n: nat) | IPv6(pieces: seq<int>) | UndefinedHost

  datatype Url = Url(
    scheme: seq<int>, username: seq<int>, password: seq<int>, host: Host, port: Option<int>,
    path: seq<seq<int>>, query: Option<seq<int>>, fragment: Option<seq<int>>, cannotBeABase: bool)

  const FRESH := Url([], [], [], NoHost, None, [], None, None, false)

  const FILE: seq<int> := [0x66, 0x69, 0x6C, 0x65]
  const FTP: seq<int> := [0x66, 0x74, 0x70]
  const HTTP: seq<int> := [0x68, 0x74, 0x74, 0x70]
  const HTTPS: seq<int> := [0x68, 0x74, 0x74, 0x70, 0x73]
  const WS: seq<int> := [0x77, 0x73]
  const WSS: seq<int> := [0x77, 0x73, 0x73]
  const LOCALHOST: seq<int> := [0x6C, 0x6F, 0x63, 0x61, 0x6C, 0x68, 0x6F, 0x73, 0x74]

  predicate IsSpecialScheme(s: seq<int>) { s == FTP || s == FILE || s == HTTP || s == HTTPS || s == WS || s == WSS }

  function DefaultPort(s: seq<int>): Option<int> {
    if s == FTP then Some(21) else if s == HTTP || s == WS then Some(80) else if s == HTTPS || s == WSS then Some(443) else None
  }

  predicate IsSpecial(u: Url) { IsSpecialScheme(u.scheme) }
  predicate IncludesCredentials(u: Url) { u.username != [] || u.password != [] }

  /** JavaScript truth of a host: null, undefined, "" and 0 are false. */
  predicate Truthy(h: Host) { (h.Text? && h.text != []) || (h.IPv4? && h.n != 0) || h.IPv6? }

  /** What every parsed URL satisfies. */
  predicate UrlOk(u: Url) {
    && u.scheme != [] && HostOk(u) && PortOk(u)
    && (IsSpecial(u) ==> u.path != [] && !u.cannotBeABase)
    && (u.cannotBeABase ==> u.path != [])
  }

  predicate HostOk(u: Url) { IsSpecial(u) && u.scheme != FILE ==> u.host != NoHost && u.host != Text([]) }

  predicate PortOk(u: Url) { u.port.Some? ==> 0 <= u.port.value <= 0xFFFF && u.port != DefaultPort(u.scheme) }

  // ---------- Characters and segments ----------

  const SLASH := 0x2F
  const BACKSLASH := 0x5C
  const QUESTION := 0x3F
  const HASH := 0x23
  const COLON := 0x3A
  const AT := 0x40
  const PIPE := 0x7C
  const DOT := 0x2E
  const OPEN_BRACKET := 0x5B
  const CLOSE_BRACKET := 0x5D
  const APOSTROPHE := 0x27

  predicate IsAlpha(c: int) { 0x41 <= c <= 0x5A || 0x61 <= c <= 0x7A }

  /** The source's class [\\d+-.a-z], which also admits the comma. */
  predicate IsSchemeChar(c: int) { IsAlpha(c) || 0x30 <= c <= 0x39 || 0x2B <= c <= 0x2E }

  function LowerAscii(c: int): int { if 0x41 <= c <= 0x5A then c + 0x20 else c }

  function LowerText(s: seq<int>): seq<int> { seq(|s|, i requires 0 <= i < |s| => LowerAscii(s[i])) }

  predicate IsWindowsDriveLetter(s: seq<int>, normalized: bool) {
    |s| == 2 && IsAlpha(s[0]) && (s[1] == COLON || (!normalized && s[1] == PIPE))
  }

  predicate StartsWithWindowsDriveLetter(s: seq<int>) {
    |s| > 1 && IsWindowsDriveLetter(s[..2], false)
    && (|s| == 2 || s[2] in {SLASH, BACKSLASH, QUESTION, HASH})
  }

  const ENCODED_DOT: seq<int> := [0x25, 0x32, 0x65]

  predicate IsSingleDot(s: seq<int>) { s == [DOT] || LowerText(s) == ENCODED_DOT }

  predicate IsDoubleDot(s: seq<int>) {
    var t := LowerText(s);
    t == [DOT, DOT] || t == ENCODED_DOT + [DOT] || t == [DOT] + ENCODED_DOT || t == ENCODED_DOT + ENCODED_DOT
  }

  const C0_SET: set<int> := {}
  const FRAGMENT_SET: set<int> := {0x20, 0x22, 0x3C, 0x3E, 0x60}
  const PATH_SET: set<int> := FRAGMENT_SET + {0x23, 0x3F, 0x7B, 0x7D}
  const USERINFO_SET: set<int> := PATH_SET + {0x2F, 0x3A, 0x3B, 0x3D, 0x40, 0x5B, 0x5C, 0x5D, 0x5E, 0x7C}

  /** None where encodeURIComponent throws: on a lone surrogate. */
  function PercentEncode(c: int, s: set<int>): (r: Option<seq<int>>)
    ensures r.None? ==> !Uri.IsScalar(c)
  {
    if 0x20 < c < 0x7F && c !in s then Some([c])
    else if Uri.IsScalar(c) then Some(Uri.EncodeCodePoint(c))
    else None
  }

  /** JavaScript `x += text` where x may be null. */
  function PlusText(x: Option<seq<int>>, t: seq<int>): Option<seq<int>> {
    Some((if x.Some? then x.value else [0x6E, 0x75, 0x6C, 0x6C]) + t)
  }

  /** shortenPath keeps a file URL's drive letter. */
  function Shortened(u: Url): Url {
    if u.path != [] && (u.scheme != FILE || |u.path| != 1 || !IsWindowsDriveLetter(u.path[0], true))
    then u.(path := u.path[..|u.path| - 1]) else u
  }

  // ---------- Parts of a URL ----------

  /** The scheme setter: specialness never changes, and a change that would make an ill-formed URL is ignored. */
  function Overridden(u: Url, scheme: seq<int>): Url {
    if IsSpecial(u) != IsSpecialScheme(scheme)
       || (scheme == FILE && (IncludesCredentials(u) || u.port.Some?))
       || (u.scheme == FILE && !Truthy(u.host)) then u
    else
      var v := u.(scheme := scheme);
      if IsSpecial(v) && v.port == DefaultPort(scheme) then v.(port := None) else v
  }

  lemma OverriddenKeeps(u: Url, scheme: seq<int>)
    requires UrlOk(u) && scheme != []
    ensures UrlOk(Overridden(u, scheme)) && IsSpecial(Overridden(u, scheme)) == IsSpecial(u)
  {
    DefaultPortOnlySpecial(scheme);
    hide DefaultPort, IsSpecialScheme;
    FileIsSpecial();
  }

  /** Percent-encoding character by character; None where one of them throws. */
  function Encodes(s: seq<int>, reserved: set<int>): (r: Option<seq<int>>)
    ensures r.None? ==> exists c :: c in s && !Uri.IsScalar(c)
  {
    if s == [] then Some([])
    else
      match (Encodes(s[..|s| - 1], reserved), PercentEncode(s[|s| - 1], reserved))
      case (Some(a), Some(b)) => Some(a + b)
      case _ => None
  }

  lemma EncodesStep(s: seq<int>, reserved: set<int>, i: nat)
    requires i < |s|
    ensures Encodes(s[..i + 1], reserved) ==
            match (Encodes(s[..i], reserved), PercentEncode(s[i], reserved))
            case (Some(a), Some(b)) => Some(a + b)
            case _ => None
  {
    hide PercentEncode;
    assert s[..i + 1][..i] == s[..i];
  }

  /** Where the password starts: behind the first ":", unless that lies in an earlier part. */
  function PasswordAt(s: seq<int>, seen: bool): (k: nat)
    ensures k <= |s| && (seen ==> k == 0)
    ensures !seen ==> COLON !in s[..k]
    ensures k < |s| && !seen ==> s[k] == COLON
  {
    if seen || s == [] || s[0] == COLON then 0
    else
      assert s[..1 + PasswordAt(s[1..], seen)] == [s[0]] + s[1..][..PasswordAt(s[1..], seen)];
      1 + PasswordAt(s[1..], seen)
  }

  /** A path with one more segment; dot segments go up or stay, and a drive letter is normalized. */
  function WithSegment(u: Url, segment: seq<int>, slash: bool): Url {
    if IsDoubleDot(segment) then
      if slash then Shortened(u) else Shortened(u).(path := Shortened(u).path + [[]])
    else if IsSingleDot(segment) then
      if slash then u else u.(path := u.path + [[]])
    else if u.scheme == FILE && u.path == [] && IsWindowsDriveLetter(segment, false) then
      u.(host := if Truthy(u.host) then Text([]) else u.host, path := u.path + [[segment[0], COLON]])
    else u.(path := u.path + [segment])
  }

  lemma WithSegmentKeeps(u: Url, segment: seq<int>, slash: bool)
    ensures var v := WithSegment(u, segment, slash);
            && v == u.(path := v.path, host := v.host) && (v.host == u.host || (u.scheme == FILE && v.host == Text([])))
            && (!slash ==> v.path != [])
  {
    hide IsDoubleDot, IsSingleDot, IsWindowsDriveLetter;
  }

  function DropEmpty(path: seq<seq<int>>): (r: seq<seq<int>>)
    ensures path != [] ==> r != []
  {
    if |path| > 1 && path[0] == [] then DropEmpty(path[1..]) else path
  }

  /** A finished path segment; at the end of a file URL's path leading empty segments are dropped. */
  function PathEnded(u: Url, segment: seq<int>, slash: bool, end: bool): Url {
    var v := WithSegment(u, segment, slash);
    if v.scheme == FILE && end then v.(path := DropEmpty(v.path)) else v
  }

  lemma NothingEncodes(reserved: set<int>)
    ensures Encodes([], reserved) == Some([])
  {
  }

  const ENCODED_AT: seq<int> := [0x25, 0x34, 0x30]

  /** The password starts behind the ":", which belongs to neither part. */
  function PasswordFrom(s: seq<int>, seen: bool): (k: nat)
    ensures k <= |s|
  {
    var k := PasswordAt(s, seen);
    if seen || k == |s| then k else k + 1
  }

  function Least(i: nat, k: nat): nat { if i <= k then i else k }
  function Beyond(i: nat, from: nat): nat { if i <= from then 0 else i - from }

  lemma FirstColon(s: seq<int>, i: nat)
    requires i < |s| && s[i] == COLON && i <= PasswordAt(s, false)
    ensures i == PasswordAt(s, false)
  {
    hide PasswordAt;
    var name := s[..PasswordAt(s, false)];
    assert forall j :: 0 <= j < |name| ==> name[j] in name;
  }

  /** What a userinfo has added to the username and the password. */
  predicate IsUserinfo(before: Url, u: Url, name: seq<int>, password: seq<int>) {
    var n, p := Encodes(name, USERINFO_SET), Encodes(password, USERINFO_SET);
    && n.Some? && p.Some?
    && u == before.(username := before.username + n.value, password := before.password + p.value)
  }

  lemma UserinfoStart(u: Url, name: seq<int>, password: seq<int>)
    ensures IsUserinfo(u, u, name[..0], password[..0])
  {
  }

  lemma UserinfoEncodes(before: Url, u: Url, name: seq<int>, password: seq<int>)
    requires IsUserinfo(before, u, name, password)
    ensures Encodes(name, USERINFO_SET).Some? && Encodes(password, USERINFO_SET).Some?
  {
  }

  lemma NameGrows(before: Url, u: Url, name: seq<int>, i: nat, password: seq<int>)
    requires i < |name| && IsUserinfo(before, u, name[..i], password) && PercentEncode(name[i], USERINFO_SET).Some?
    ensures IsUserinfo(before, u.(username := u.username + PercentEncode(name[i], USERINFO_SET).value), name[..i + 1], password)
  {
    hide Encodes, PercentEncode;
    EncodesStep(name, USERINFO_SET, i);
  }

  lemma PasswordGrows(before: Url, u: Url, name: seq<int>, password: seq<int>, i: nat)
    requires i < |password| && IsUserinfo(before, u, name, password[..i]) && PercentEncode(password[i], USERINFO_SET).Some?
    ensures IsUserinfo(before, u.(password := u.password + PercentEncode(password[i], USERINFO_SET).value), name, password[..i + 1])
  {
    hide Encodes, PercentEncode;
    EncodesStep(password, USERINFO_SET, i);
  }

  lemma NoneFrom(s: seq<int>, i: nat)
    requires i < |s| && PercentEncode(s[i], USERINFO_SET).None?
    ensures Encodes(s, USERINFO_SET).None?
  {
    hide Encodes, PercentEncode;
    EncodesStep(s, USERINFO_SET, i);
    NoneStays(s, USERINFO_SET, i + 1);
  }

  lemma ShortenedShape(u: Url)
    ensures Shortened(u) == u.(path := Shortened(u).path)
  {
  }

  lemma DriveLength(s: seq<int>)
    requires IsWindowsDriveLetter(s, false)
    ensures |s| == 2
  {
  }

  lemma PathEndedKeeps(u: Url, segment: seq<int>, slash: bool, end: bool)
    ensures var v := PathEnded(u, segment, slash, end);
            && v == u.(path := v.path, host := v.host) && (v.host == u.host || (u.scheme == FILE && v.host == Text([])))
            && (!slash ==> v.path != [])
  {
    WithSegmentKeeps(u, segment, slash);
    hide WithSegment, DropEmpty;
  }

  function KeptPort(u: Url, port: int): Option<int> {
    if IsSpecial(u) && Some(port) == DefaultPort(u.scheme) then None else Some(port)
  }

  /** The first segment grows; an absent one is the JavaScript text "undefined". */
  function FirstGrown(path: seq<seq<int>>, text: seq<int>): (r: seq<seq<int>>)
    ensures r != []
  {
    if path == [] then [UNDEFINED + text] else path[0 := path[0] + text]
  }

  /** In a query "'" of a special URL and "#" are encoded too. */
  function QueryEncode(c: int, special: bool): Option<seq<int>> {
    if c == APOSTROPHE && special then Some([0x25, 0x32, 0x37])
    else if c == HASH then Some([0x25, 0x32, 0x33])
    else PercentEncode(c, C0_SET)
  }

  lemma FileIsSpecial()
    ensures IsSpecialScheme(FILE)
  {
  }

  lemma {:induction false} NoneStays(s: seq<int>, reserved: set<int>, i: nat)
    requires i <= |s| && Encodes(s[..i], reserved).None?
    ensures Encodes(s, reserved).None?
    decreases |s| - i
  {
    if i < |s| {
      EncodesStep(s, reserved, i);
      NoneStays(s, reserved, i + 1);
    } else {
      assert s[..i] == s;
    }
  }

  const UNDEFINED: seq<int> := [0x75, 0x6E, 0x64, 0x65, 0x66, 0x69, 0x6E, 0x65, 0x64]

  // ---------- Text ----------

  predicate CodePointsOnly(s: seq<int>) { forall i :: 0 <= i < |s| ==> 0 <= s[i] <= 0x10_FFFF }

  lemma TextWithin(a: seq<int>, b: seq<int>)
    requires CodePointsOnly(b) && forall c :: c in a ==> c in b
    ensures CodePointsOnly(a)
  {
    forall i | 0 <= i < |a| ensures 0 <= a[i] <= 0x10_FFFF { assert a[i] in a; }
  }

  lemma DefaultPortOnlySpecial(scheme: seq<int>)
    ensures !IsSpecialScheme(scheme) ==> DefaultPort(scheme) == None
  {
  }
}
