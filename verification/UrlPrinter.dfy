/**
 The URL printer of js/secsdk-lastest.umd.js (section 4.5 of the WHATWG URL Standard).
 */
module UrlPrinter {
  import opened Wrappers
  import opened UrlRecord
  import Delimited
  import Ip = IpAddress

  /** What serializeHost gives; the IPv6 form is the recommended one. */
  ghost predicate IsHostText(host: Host, text: seq<int>) {
    match host
    case Text(s) => text == s
    case IPv4(n) => text == Ip.DottedQuad(n)
    case IPv6(pieces) => Ip.Pieces(pieces) && exists x :: Ip.Recommended(pieces, x) && text == [OPEN_BRACKET] + x + [CLOSE_BRACKET]
    case UndefinedHost => text == UNDEFINED
    case NoHost => text == []
  }

  function Credentials(u: Url): seq<int> {
    if !IncludesCredentials(u) then [] else UserinfoText(u) + [AT]
  }

  function UserinfoText(u: Url): seq<int> { u.username + if u.password == [] then [] else [COLON] + u.password }

  function PortText(port: Option<int>): seq<int> {
    if port.Some? && port.value >= 0 then [COLON] + Ip.Dec(port.value) else []
  }

  function PathText(path: seq<seq<int>>): seq<int> {
    if path == [] then [] else [SLASH] + Delimited.Join(path, SLASH)
  }

  function TailText(u: Url): seq<int> { QueryText(u) + FragmentText(u) }
  function QueryText(u: Url): seq<int> { if u.query.Some? then [QUESTION] + u.query.value else [] }
  function FragmentText(u: Url): seq<int> { if u.fragment.Some? then [HASH] + u.fragment.value else [] }

  function AuthorityText(u: Url, host: seq<int>): seq<int> {
    if u.host != NoHost then [SLASH, SLASH] + (Credentials(u) + (host + PortText(u.port)))
    else if u.scheme == FILE then [SLASH, SLASH]
    else []
  }

  function Printed(u: Url, host: seq<int>): seq<int> {
    u.scheme + ([COLON] + (AuthorityText(u, host) + (MiddleText(u) + TailText(u))))
  }

  method SerializeHost(host: Host) returns (text: seq<int>)
    requires host.IPv6? ==> Ip.Pieces(host.pieces)
    ensures IsHostText(host, text)
  {
    match host
    case Text(s) => text := s;
    case IPv4(n) => text := Ip.SerializeIPv4(n);
    case IPv6(pieces) =>
      var x := Ip.SerializeIPv6(pieces);
      text := [OPEN_BRACKET] + x + [CLOSE_BRACKET];
    case UndefinedHost => text := UNDEFINED;
    case NoHost => text := [];
  }

  /** What stands between the scheme and the path. */
  method SerializeAuthority(u: Url) returns (output: seq<int>, ghost host: seq<int>)
    requires (u.host.IPv6? ==> Ip.Pieces(u.host.pieces)) && (u.port.Some? ==> u.port.value >= 0)
    ensures IsHostText(u.host, host) && output == AuthorityText(u, host)
  {
    hide Ip.Dec, IsHostText;
    if u.host == NoHost {
      NoHostText();
      return if u.scheme == FILE then [SLASH, SLASH] else [], [];
    }
    hide Credentials, PortText;
    var credentials := SerializeCredentials(u);
    var text := SerializeHost(u.host);
    var port := SerializePort(u.port);
    host := text;
    output := [SLASH, SLASH] + credentials + text + port;
    assert output == [SLASH, SLASH] + (credentials + (text + port));
  }

  method SerializeCredentials(u: Url) returns (text: seq<int>)
    ensures text == Credentials(u)
  {
    text := [];
    if IncludesCredentials(u) {
      text := u.username + (if u.password != [] then [COLON] + u.password else []) + [AT];
    }
  }

  method SerializePort(port: Option<int>) returns (text: seq<int>)
    requires port.Some? ==> port.value >= 0
    ensures text == PortText(port)
  {
    hide Ip.Dec;
    text := [];
    if port.Some? { text := [COLON] + Ip.Dec(port.value); }
  }

  function MiddleText(u: Url): seq<int> {
    if !u.cannotBeABase then PathText(u.path) else if u.path == [] then UNDEFINED else u.path[0]
  }

  method Serialize(u: Url) returns (output: seq<int>)
    requires (u.host.IPv6? ==> Ip.Pieces(u.host.pieces)) && (u.port.Some? ==> u.port.value >= 0)
    ensures exists host :: IsHostText(u.host, host) && output == Printed(u, host)
  {
    hide Ip.Dec, IsHostText, AuthorityText, MiddleText;
    output := u.scheme + [COLON];
    ghost var host;
    var part;
    part, host := SerializeAuthority(u);
    output := output + part;
    var middle := SerializePath(u);
    output := output + middle;
    if u.query.Some? { output := output + [QUESTION] + u.query.value; }
    if u.fragment.Some? { output := output + [HASH] + u.fragment.value; }
    PrintedParts(u, host);
    assert output == u.scheme + [COLON] + AuthorityText(u, host) + MiddleText(u) + QueryText(u) + FragmentText(u);
  }

  method SerializePath(u: Url) returns (middle: seq<int>)
    ensures middle == MiddleText(u)
  {
    if u.cannotBeABase { return if u.path == [] then UNDEFINED else u.path[0]; }
    return if |u.path| > 0 then [SLASH] + Delimited.Join(u.path, SLASH) else [];
  }

  lemma PrintedParts(u: Url, host: seq<int>)
    ensures Printed(u, host) == u.scheme + [COLON] + AuthorityText(u, host) + MiddleText(u) + QueryText(u) + FragmentText(u)
  {
    hide AuthorityText, MiddleText, QueryText, FragmentText;
  }

  lemma NoHostText()
    ensures IsHostText(NoHost, [])
  {
  }
}
