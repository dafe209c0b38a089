/**
 The URL parser of js/secsdk-lastest.umd.js as the object it is: one method a state, each proved
 against the state machine, and the loop over them.
 */
module UrlParser {
  import opened Wrappers
  import opened UrlRecord
  import opened UrlHost
  import opened UrlStates
  import opened UrlRuns
  import Ip = IpAddress
  import Puny = Punycode
  import Uri

  class UrlState {
    var url: Url

    // The arguments and the variables of one call of `parse`.
    const input: Input
    var stage: Stage
    var pointer: int
    var buffer: seq<int>
    var seenAt: bool
    var seenBracket: bool
    var seenPasswordToken: bool

    function AsConfig(): Config
      reads this
    {
      Config(url, stage, pointer, buffer, seenAt, seenBracket, seenPasswordToken)
    }

    /** `url` starts out fresh unless a state override re-parses part of an existing one. */
    constructor (input: Input, current: Url)
      ensures this.input == input
      ensures AsConfig() == Config(if input.override.Some? then current else FRESH, input.override.GetOr(SchemeStart),
                                   0, [], false, false, false)
    {
      this.input := input;
      url := if input.override.Some? then current else FRESH;
      stage := input.override.GetOr(SchemeStart);
      pointer, buffer := 0, [];
      seenAt, seenBracket, seenPasswordToken := false, false, false;
    }

    method StepSchemeStart() returns (next: Next)
      requires stage == SchemeStart && 0 <= pointer <= |input.cps|
      modifies this
      ensures Agrees(Move(next, AsConfig()), AfterSchemeStart(input, old(AsConfig())))
    {
      if input.At(pointer).Some? && IsAlpha(input.At(pointer).value) {
        buffer := buffer + [LowerAscii(input.At(pointer).value)];
        stage := Scheme;
        pointer := pointer + 1;
      } else if input.override.None? {
        stage := NoScheme;
      } else {
        return Stop(Failed(InvalidScheme));
      }
      return Loop;
    }

    method StepScheme() returns (next: Next)
      requires stage == Scheme && 0 <= pointer <= |input.cps|
      modifies this
      ensures Agrees(Move(next, AsConfig()), AfterSchemeChar(input, old(AsConfig())))
    {
      hide AfterScheme, SchemeUrl, Overridden, IsSpecialScheme;
      if input.At(pointer).Some? && IsSchemeChar(input.At(pointer).value) {
        buffer := buffer + [LowerAscii(input.At(pointer).value)];
        pointer := pointer + 1;
        return Loop;
      }
      if input.At(pointer) == Some(COLON) {
        if input.override.Some? {
          next := OverrideScheme();
        } else {
          next := FinishScheme();
        }
        return;
      }
      if input.override.None? {
        buffer := [];
        stage := NoScheme;
        pointer := 0;
        return Loop;
      }
      return Stop(Failed(InvalidScheme));
    }

    /** The buffer becomes the scheme, which decides how the rest is read. */
    method FinishScheme() returns (next: Next)
      requires 0 <= pointer <= |input.cps|
      modifies this
      ensures Move(next, AsConfig()) == AfterColon(input, old(AsConfig()))
    {
      hide IsSpecialScheme, AfterScheme;
      ghost var c, u := AsConfig(), url.(scheme := buffer);
      SchemeLeads(u, input.base, input.At(pointer + 1) == Some(SLASH));
      url := url.(scheme := buffer);
      buffer := [];
      if url.scheme == FILE {
        stage := File;
      } else if IsSpecial(url) && input.base.Some? && input.base.value.scheme == url.scheme {
        stage := SpecialRelativeOrAuthority;
      } else if IsSpecial(url) {
        stage := SpecialAuthoritySlashes;
      } else if input.At(pointer + 1) == Some(SLASH) {
        stage := PathOrAuthority;
        pointer := pointer + 1;
      } else {
        url := url.(cannotBeABase := true, path := url.path + [[]]);
        stage := CannotBeABase;
      }
      assert stage == AfterScheme(u, input.base, input.At(c.pointer + 1) == Some(SLASH)) && url == SchemeUrl(u, stage);
      hide SchemeUrl;
      pointer := pointer + 1;
      return Loop;
    }

    method OverrideScheme() returns (next: Next)
      modifies `url
      ensures next == Stop(Parsed) && url == Overridden(old(url), buffer)
    {
      hide IsSpecialScheme, DefaultPort;
      if IsSpecial(url) != IsSpecialScheme(buffer)
        || (buffer == FILE && (IncludesCredentials(url) || url.port.Some?))
        || (url.scheme == FILE && !Truthy(url.host)) {
        return Stop(Parsed);
      }
      url := url.(scheme := buffer);
      if IsSpecial(url) && url.port == DefaultPort(url.scheme) { url := url.(port := None); }
      return Stop(Parsed);
    }

    method StepNoScheme() returns (next: Next)
      requires stage == NoScheme && 0 <= pointer <= |input.cps|
      modifies this
      ensures Agrees(Move(next, AsConfig()), AfterNoScheme(input, old(AsConfig())))
    {
      if input.base.None? || (input.base.value.cannotBeABase
          && input.At(pointer) != Some(HASH)) { return Stop(Failed(InvalidScheme)); }
      var b := input.base.value;
      if b.cannotBeABase {
        url := url.(scheme := b.scheme, path := b.path, query := b.query, fragment := Some([]), cannotBeABase := true);
        stage := Fragment;
        pointer := pointer + 1;
        return Loop;
      }
      stage := if b.scheme == FILE then File else Relative;
      return Loop;
    }

    method StepSpecialRelativeOrAuthority() returns (next: Next)
      requires stage == SpecialRelativeOrAuthority && 0 <= pointer <= |input.cps|
      modifies this
      ensures Agrees(Move(next, AsConfig()), AfterSpecialRelativeOrAuthority(input, old(AsConfig())))
    {
      if input.At(pointer) == Some(SLASH) && input.At(pointer + 1) == Some(SLASH) {
        stage := SpecialAuthorityIgnoreSlashes;
        pointer := pointer + 2;
      } else {
        stage := Relative;
      }
      return Loop;
    }

    method StepPathOrAuthority() returns (next: Next)
      requires stage == PathOrAuthority && 0 <= pointer <= |input.cps|
      modifies this
      ensures Agrees(Move(next, AsConfig()), AfterPathOrAuthority(input, old(AsConfig())))
    {
      if input.At(pointer) == Some(SLASH) {
        stage := Authority;
        pointer := pointer + 1;
      } else {
        stage := Path;
      }
      return Loop;
    }

    method StepRelative() returns (next: Next)
      requires stage == Relative && 0 <= pointer <= |input.cps|
      modifies this
      ensures Agrees(Move(next, AsConfig()), AfterRelative(input, old(AsConfig())))
    {
      hide IsSpecialScheme;
      if input.base.None? {
        return Stop(Thrown(MissingBase));
      }
      var b, chr := input.base.value, input.At(pointer);
      url := url.(scheme := b.scheme);
      if chr.None? {
        url := FromBase(url, b, b.query, url.fragment);
      } else if chr.value == SLASH || (chr.value == BACKSLASH && IsSpecial(url)) {
        stage := RelativeSlash;
      } else if chr.value == QUESTION {
        url := FromBase(url, b, Some([]), url.fragment);
        stage := Query;
      } else if chr.value == HASH {
        url := FromBase(url, b, b.query, Some([]));
        stage := Fragment;
      } else {
        url := FromBase(url, b, url.query, url.fragment);
        // Lowering the length of an empty array below zero throws.
        if url.path == [] { return Stop(Thrown(EmptyBasePath)); }
        url := url.(path := url.path[..|url.path| - 1]);
        stage := Path;
        return Loop;
      }
      pointer := pointer + 1;
      return Loop;
    }

    method StepRelativeSlash() returns (next: Next)
      requires stage == RelativeSlash && 0 <= pointer <= |input.cps|
      modifies this
      ensures Agrees(Move(next, AsConfig()), AfterRelativeSlash(input, old(AsConfig())))
    {
      hide IsSpecialScheme;
      var chr := input.At(pointer);
      if IsSpecial(url) && (chr == Some(SLASH) || chr == Some(BACKSLASH)) {
        stage := SpecialAuthorityIgnoreSlashes;
      } else if chr == Some(SLASH) {
        stage := Authority;
      } else {
        if input.base.None? { return Stop(Thrown(MissingBase)); }
        var b := input.base.value;
        url := url.(username := b.username, password := b.password, host := b.host, port := b.port);
        stage := Path;
        return Loop;
      }
      pointer := pointer + 1;
      return Loop;
    }

    /** The second slash is looked for in the buffer, which is empty here: this always goes round again. */
    method StepSpecialAuthoritySlashes() returns (next: Next)
      requires stage == SpecialAuthoritySlashes && 0 <= pointer <= |input.cps|
      modifies this
      ensures Agrees(Move(next, AsConfig()), AfterSpecialAuthoritySlashes(old(AsConfig())))
    {
      stage := SpecialAuthorityIgnoreSlashes;
      return Loop;
    }

    method StepSpecialAuthorityIgnoreSlashes() returns (next: Next)
      requires stage == SpecialAuthorityIgnoreSlashes && 0 <= pointer <= |input.cps|
      modifies this
      ensures Agrees(Move(next, AsConfig()), AfterSpecialAuthorityIgnoreSlashes(input, old(AsConfig())))
    {
      if input.At(pointer) != Some(SLASH) && input.At(pointer) != Some(BACKSLASH) {
        stage := Authority;
      } else {
        pointer := pointer + 1;
      }
      return Loop;
    }

    /** The loop over the text in front of an "@". */
    method TakeUserinfo(userinfo: seq<int>) returns (ok: bool)
      modifies `url, `seenPasswordToken
      ensures var k := PasswordAt(userinfo, old(seenPasswordToken));
              var rest := userinfo[PasswordFrom(userinfo, old(seenPasswordToken))..];
              && (ok <==> Encodes(userinfo[..k], USERINFO_SET).Some? && Encodes(rest, USERINFO_SET).Some?)
              && (ok ==> IsUserinfo(old(url), url, userinfo[..k], rest))
              && (ok ==> (seenPasswordToken <==> old(seenPasswordToken) || k < |userinfo|))
    {
      hide PercentEncode, Encodes, PasswordAt, IsUserinfo;
      ghost var seen := seenPasswordToken;
      ghost var k, from := PasswordAt(userinfo, seen), PasswordFrom(userinfo, seen);
      ghost var name, rest := userinfo[..k], userinfo[from..];
      UserinfoStart(url, name, rest);
      for i := 0 to |userinfo|
        invariant seenPasswordToken <==> seen || i > k
        invariant IsUserinfo(old(url), url, name[..Least(i, k)], rest[..Beyond(i, from)])
      {
        if userinfo[i] == COLON && !seenPasswordToken {
          FirstColon(userinfo, i);
          seenPasswordToken := true;
          continue;
        }
        ghost var u := url;
        var encoded := PercentEncode(userinfo[i], USERINFO_SET);
        if seenPasswordToken {
          if encoded.None? { NoneFrom(rest, i - from); return false; }
          url := url.(password := url.password + encoded.value);
          PasswordGrows(old(url), u, name[..Least(i, k)], rest, i - from);
        } else {
          assert i < k && name[i] == userinfo[i];
          if encoded.None? { NoneFrom(name, i); return false; }
          url := url.(username := url.username + encoded.value);
          NameGrows(old(url), u, name, i, rest[..Beyond(i, from)]);
        }
      }
      assert name[..Least(|userinfo|, k)] == name && rest[..Beyond(|userinfo|, from)] == rest;
      UserinfoEncodes(old(url), url, name, rest);
      return true;
    }

    /** An "@": the buffer goes to the userinfo; a second "@" is written out. */
    method TakeAt() returns (next: Next)
      requires stage == Authority
      modifies this
      ensures Agrees(Move(next, AsConfig()), AfterAt(old(AsConfig())))
    {
      hide Encodes, PasswordAt, PasswordFrom, IsUserinfo, AfterAt;
      ghost var c := AsConfig();
      if seenAt { buffer := ENCODED_AT + buffer; }
      seenAt := true;
      ghost var text := buffer;
      assert text == AtText(c);
      var ok := TakeUserinfo(buffer);
      if !ok {
        AtThrows(c, text);
        return Stop(Thrown(LoneSurrogate));
      }
      AtDone(c, text, url);
      buffer := [];
      pointer := pointer + 1;
      return Loop;
    }

    method StepAuthority() returns (next: Next)
      requires stage == Authority && 0 <= pointer <= |input.cps|
      modifies this
      ensures Agrees(Move(next, AsConfig()), AfterAuthority(input, old(AsConfig())))
    {
      hide AfterAt, IsSpecialScheme;
      var chr := input.At(pointer);
      if chr == Some(AT) {
        next := TakeAt();
        return;
      } else if AtDelimiter(chr, url) {
        if seenAt && buffer == [] { return Stop(Failed(InvalidAuthority)); }
        pointer := pointer - (|buffer| + 1);
        buffer := [];
        stage := HostName;
      } else {
        buffer := buffer + [chr.value];
      }
      pointer := pointer + 1;
      return Loop;
    }

    /** Sets the host; otherwise the failure or exception with which the parse ends. */
    method ParseHost(text: seq<int>) returns (r: Option<Outcome>)
      requires CodePointsOnly(text) && LowersText(input.lower)
      modifies `url
      ensures var h := HostReading(text, IsSpecial(old(url)), input.lower);
              if h.Read? then r == None && url == old(url).(host := h.host) else r == Some(Refusal(h)) && url == old(url)
    {
      hide IsSpecialScheme, Encodes, DomainText, Ip.ParsedIPv4, Ip.ParsedIPv6;
      if text != [] && text[0] == OPEN_BRACKET {
        if text[|text| - 1] != CLOSE_BRACKET { return Some(Failed(InvalidHost)); }
        assert |text| > 1;
        var address := Ip.ParseIPv6(text[1..|text| - 1]);
        if address.None? { return Some(Failed(InvalidHost)); }
        url := url.(host := IPv6(address.value));
        return None;
      }
      if !IsSpecial(url) {
        if exists i :: 0 <= i < |text| && text[i] in FORBIDDEN - {0x25} { return Some(Failed(InvalidHost)); }
        var opaqueHost := EncodeAll(text);
        if opaqueHost.None? { return Some(Thrown(LoneSurrogate)); }
        url := url.(host := Text(opaqueHost.value));
        return None;
      }
      var domain := DomainToAscii(text, input.lower);
      if domain.Throws? { return Some(Thrown(PunycodeOverflow)); }
      if exists i :: 0 <= i < |domain.value| && domain.value[i] in FORBIDDEN { return Some(Failed(InvalidHost)); }
      var address := Ip.ParseIPv4(domain.value);
      if address == Ip.Failure { return Some(Failed(InvalidHost)); }
      url := url.(host := HostOfAddress(address, domain.value));
      return None;
    }

    method StepHost() returns (next: Next)
      requires (stage == HostName || stage == HostOnly) && 0 <= pointer <= |input.cps|
      requires CodePointsOnly(input.cps) && LowersText(input.lower) && Within(buffer, input.cps)
      modifies this
      ensures Agrees(Move(next, AsConfig()), AfterHost(input, old(AsConfig())))
    {
      hide LowersText, CodePointsOnly, Within, IsSpecialScheme, AfterHostColon, AfterHostEnd;
      var chr := input.At(pointer);
      if input.override.Some? && url.scheme == FILE {
        stage := FileHost;
        return Loop;
      }
      if chr == Some(COLON) && !seenBracket {
        next := HostThenPort();
        return;
      }
      if AtDelimiter(input.At(pointer), url) {
        next := HostThenPath();
        return;
      }
      if chr == Some(OPEN_BRACKET) { seenBracket := true; }
      if chr == Some(CLOSE_BRACKET) { seenBracket := false; }
      buffer := buffer + [chr.value];
      pointer := pointer + 1;
      return Loop;
    }

    method HostThenPort() returns (next: Next)
      requires (stage == HostName || stage == HostOnly) && 0 <= pointer <= |input.cps|
      requires CodePointsOnly(input.cps) && LowersText(input.lower) && Within(buffer, input.cps)
      modifies this
      ensures Agrees(Move(next, AsConfig()), AfterHostColon(input, old(AsConfig())))
    {
      hide LowersText, HostReading, IsSpecialScheme;
      if buffer == [] { return Stop(Failed(InvalidHost)); }
      TextWithin(buffer, input.cps);
      var r := ParseHost(buffer);
      if r.Some? { return Stop(r.value); }
      buffer := [];
      stage := Port;
      if input.override == Some(HostOnly) { return Stop(Parsed); }
      pointer := pointer + 1;
      return Loop;
    }

    method HostThenPath() returns (next: Next)
      requires (stage == HostName || stage == HostOnly) && 0 <= pointer <= |input.cps|
      requires CodePointsOnly(input.cps) && LowersText(input.lower) && Within(buffer, input.cps)
      modifies this
      ensures Agrees(Move(next, AsConfig()), AfterHostEnd(input, old(AsConfig())))
    {
      hide LowersText, HostReading, IsSpecialScheme;
      if IsSpecial(url) && buffer == [] { return Stop(Failed(InvalidHost)); }
      if input.override.Some? && buffer == [] && (IncludesCredentials(url) || url.port.Some?) { return Stop(Parsed); }
      TextWithin(buffer, input.cps);
      var r := ParseHost(buffer);
      if r.Some? { return Stop(r.value); }
      buffer := [];
      stage := PathStart;
      if input.override.Some? { return Stop(Parsed); }
      return Loop;
    }

    method StepPort() returns (next: Next)
      requires stage == Port && 0 <= pointer <= |input.cps|
      modifies this
      ensures Agrees(Move(next, AsConfig()), AfterPort(input, old(AsConfig())))
    {
      hide IsSpecialScheme, DefaultPort, Ip.Value;
      var chr := input.At(pointer);
      if chr.Some? && Ip.IsDigit(chr.value) {
        buffer := buffer + [chr.value];
        pointer := pointer + 1;
        return Loop;
      }
      if AtDelimiter(input.At(pointer), url) || input.override.Some? {
        if buffer != [] {
          var port := Ip.Value(buffer, 10);
          if port > 0xFFFF { return Stop(Failed(InvalidPort)); }
          url := url.(port := if IsSpecial(url) && Some(port) == DefaultPort(url.scheme) then None else Some(port));
          buffer := [];
        }
        if input.override.Some? { return Stop(Parsed); }
        stage := PathStart;
        return Loop;
      }
      return Stop(Failed(InvalidPort));
    }

    method StepFile() returns (next: Next)
      requires stage == File && 0 <= pointer <= |input.cps|
      modifies this
      ensures Agrees(Move(next, AsConfig()), AfterFile(input, old(AsConfig())))
    {
      hide StartsWithWindowsDriveLetter, IsWindowsDriveLetter;
      var chr := input.At(pointer);
      url := url.(scheme := FILE);
      if chr == Some(SLASH) || chr == Some(BACKSLASH) {
        stage := FileSlash;
      } else if input.base.Some? && input.base.value.scheme == FILE {
        next := FileRelative(input.base.value);
        return;
      } else {
        stage := Path;
        return Loop;
      }
      pointer := pointer + 1;
      return Loop;
    }

    /** A file URL relative to a file base. */
    method FileRelative(b: Url) returns (next: Next)
      requires stage == File && 0 <= pointer <= |input.cps|
      modifies this
      ensures next == Loop
      ensures var c := old(AsConfig());
              var chr, v := input.At(c.pointer), c.url.(host := b.host, path := b.path);
              Move(next, AsConfig()) ==
              if chr.None? then Go(c, File, 1, v.(query := b.query), c.buffer)
              else if chr.value == QUESTION then Go(c, Query, 1, v.(query := Some([])), c.buffer)
              else if chr.value == HASH then Go(c, Fragment, 1, v.(query := b.query, fragment := Some([])), c.buffer)
              else Go(c, Path, 0, if DriveAhead(input, c.pointer) then c.url else Shortened(v), c.buffer)
    {
      hide StartsWithWindowsDriveLetter, IsWindowsDriveLetter;
      var chr := input.At(pointer);
      if chr.None? {
        url := url.(host := b.host, path := b.path, query := b.query);
      } else if chr.value == QUESTION {
        url := url.(host := b.host, path := b.path, query := Some([]));
        stage := Query;
      } else if chr.value == HASH {
        url := url.(host := b.host, path := b.path, query := b.query, fragment := Some([]));
        stage := Fragment;
      } else {
        if !StartsWithWindowsDriveLetter(input.cps[pointer..]) {
          url := url.(host := b.host, path := b.path);
          url := Shortened(url);
        }
        stage := Path;
        return Loop;
      }
      pointer := pointer + 1;
      return Loop;
    }

    method StepFileSlash() returns (next: Next)
      requires stage == FileSlash && 0 <= pointer <= |input.cps|
      modifies this
      ensures Agrees(Move(next, AsConfig()), AfterFileSlash(input, old(AsConfig())))
    {
      hide StartsWithWindowsDriveLetter, IsWindowsDriveLetter;
      var chr := input.At(pointer);
      if chr == Some(SLASH) || chr == Some(BACKSLASH) {
        stage := FileHost;
        pointer := pointer + 1;
        return Loop;
      }
      if input.base.Some? && input.base.value.scheme == FILE && !StartsWithWindowsDriveLetter(input.cps[pointer..]) {
        var b := input.base.value;
        // The first segment of an empty path has no length to read.
        if b.path == [] { return Stop(Thrown(EmptyBasePath)); }
        if IsWindowsDriveLetter(b.path[0], true) {
          url := url.(path := url.path + [b.path[0]]);
        } else {
          url := url.(host := b.host);
        }
      }
      stage := Path;
      return Loop;
    }

    method StepFileHost() returns (next: Next)
      requires stage == FileHost && 0 <= pointer <= |input.cps|
      requires CodePointsOnly(input.cps) && LowersText(input.lower) && Within(buffer, input.cps)
      modifies this
      ensures Agrees(Move(next, AsConfig()), AfterFileHost(input, old(AsConfig())))
    {
      hide LowersText, CodePointsOnly, Within, IsWindowsDriveLetter, IsSpecialScheme, AfterFileHostName;
      var chr := input.At(pointer);
      if chr.None? || chr.value in {SLASH, BACKSLASH, QUESTION, HASH} {
        if input.override.None? && IsWindowsDriveLetter(buffer, false) {
          stage := Path;
        } else if buffer == [] {
          url := url.(host := Text([]));
          if input.override.Some? { return Stop(Parsed); }
          stage := PathStart;
        } else {
          next := NamedFileHost();
          return;
        }
        return Loop;
      }
      buffer := buffer + [chr.value];
      pointer := pointer + 1;
      return Loop;
    }

    method NamedFileHost() returns (next: Next)
      requires CodePointsOnly(input.cps) && LowersText(input.lower) && Within(buffer, input.cps)
      modifies this
      ensures Agrees(Move(next, AsConfig()), AfterFileHostName(input, old(AsConfig())))
    {
      hide LowersText, HostReading, IsSpecialScheme;
      TextWithin(buffer, input.cps);
      var r := ParseHost(buffer);
      if r.Some? { return Stop(r.value); }
      if url.host == Text(LOCALHOST) { url := url.(host := Text([])); }
      if input.override.Some? { return Stop(Parsed); }
      buffer := [];
      stage := PathStart;
      return Loop;
    }

    method StepPathStart() returns (next: Next)
      requires stage == PathStart && 0 <= pointer <= |input.cps|
      modifies this
      ensures Agrees(Move(next, AsConfig()), AfterPathStart(input, old(AsConfig())))
    {
      hide IsSpecialScheme;
      var chr := input.At(pointer);
      if IsSpecial(url) {
        stage := Path;
        if chr != Some(SLASH) && chr != Some(BACKSLASH) { return Loop; }
      } else if input.override.None? && chr == Some(QUESTION) {
        url := url.(query := Some([]));
        stage := Query;
      } else if input.override.None? && chr == Some(HASH) {
        url := url.(fragment := Some([]));
        stage := Fragment;
      } else if chr.Some? {
        stage := Path;
        if chr != Some(SLASH) { return Loop; }
      }
      pointer := pointer + 1;
      return Loop;
    }

    /** Ends one path segment at a delimiter. */
    method EndSegment(slash: bool)
      modifies `url, `buffer
      ensures buffer == [] && url == WithSegment(old(url), old(buffer), slash)
    {
      hide IsDoubleDot, IsSingleDot, IsWindowsDriveLetter;
      if IsDoubleDot(buffer) {
        url := Shortened(url);
        if !slash { url := url.(path := url.path + [[]]); }
      } else if IsSingleDot(buffer) {
        if !slash { url := url.(path := url.path + [[]]); }
      } else {
        if url.scheme == FILE && url.path == [] && IsWindowsDriveLetter(buffer, false) {
          DriveLength(buffer);
          if Truthy(url.host) { url := url.(host := Text([])); }
          buffer := [buffer[0], COLON];
        }
        url := url.(path := url.path + [buffer]);
      }
      buffer := [];
    }

    method DropEmptySegments()
      modifies `url
      ensures url == old(url).(path := DropEmpty(old(url).path))
    {
      while |url.path| > 1 && url.path[0] == []
        invariant url == old(url).(path := url.path) && DropEmpty(url.path) == DropEmpty(old(url).path)
        decreases |url.path|
      {
        url := url.(path := url.path[1..]);
      }
    }

    method StepPath() returns (next: Next)
      requires stage == Path && 0 <= pointer <= |input.cps|
      modifies this
      ensures Agrees(Move(next, AsConfig()), AfterPath(input, old(AsConfig())))
    {
      hide IsSpecialScheme, PercentEncode, WithSegment, DropEmpty;
      var chr := input.At(pointer);
      var slash := chr == Some(SLASH) || (chr == Some(BACKSLASH) && IsSpecial(url));
      if chr.None? || slash || (input.override.None? && chr.value in {QUESTION, HASH}) {
        EndSegment(slash);
        if url.scheme == FILE && (chr.None? || chr.value in {QUESTION, HASH}) { DropEmptySegments(); }
        if chr == Some(QUESTION) {
          url := url.(query := Some([]));
          stage := Query;
        } else if chr == Some(HASH) {
          url := url.(fragment := Some([]));
          stage := Fragment;
        }
      } else {
        var encoded := PercentEncode(chr.value, PATH_SET);
        if encoded.None? { return Stop(Thrown(LoneSurrogate)); }
        buffer := buffer + encoded.value;
      }
      pointer := pointer + 1;
      return Loop;
    }

    method StepCannotBeABase() returns (next: Next)
      requires stage == CannotBeABase && 0 <= pointer <= |input.cps|
      modifies this
      ensures Agrees(Move(next, AsConfig()), AfterCannotBeABase(input, old(AsConfig())))
    {
      hide PercentEncode;
      var chr := input.At(pointer);
      if chr == Some(QUESTION) {
        url := url.(query := Some([]));
        stage := Query;
      } else if chr == Some(HASH) {
        url := url.(fragment := Some([]));
        stage := Fragment;
      } else if chr.Some? {
        var encoded := PercentEncode(chr.value, C0_SET);
        if encoded.None? { return Stop(Thrown(LoneSurrogate)); }
        url := url.(path := FirstGrown(url.path, encoded.value));
      }
      pointer := pointer + 1;
      return Loop;
    }

    method StepQuery() returns (next: Next)
      requires stage == Query && 0 <= pointer <= |input.cps|
      modifies this
      ensures Agrees(Move(next, AsConfig()), AfterQuery(input, old(AsConfig())))
    {
      hide PercentEncode, PlusText, IsSpecialScheme;
      var chr := input.At(pointer);
      if input.override.None? && chr == Some(HASH) {
        url := url.(fragment := Some([]));
        stage := Fragment;
      } else if chr.Some? {
        if chr.value == APOSTROPHE && IsSpecial(url) {
          url := url.(query := PlusText(url.query, [0x25, 0x32, 0x37]));
        } else if chr.value == HASH {
          url := url.(query := PlusText(url.query, [0x25, 0x32, 0x33]));
        } else {
          var encoded := PercentEncode(chr.value, C0_SET);
          if encoded.None? { return Stop(Thrown(LoneSurrogate)); }
          url := url.(query := PlusText(url.query, encoded.value));
        }
      }
      pointer := pointer + 1;
      return Loop;
    }

    method StepFragment() returns (next: Next)
      requires stage == Fragment && 0 <= pointer <= |input.cps|
      modifies this
      ensures Agrees(Move(next, AsConfig()), AfterFragment(input, old(AsConfig())))
    {
      hide PercentEncode, PlusText;
      var chr := input.At(pointer);
      if chr.Some? {
        var encoded := PercentEncode(chr.value, FRAGMENT_SET);
        if encoded.None? { return Stop(Thrown(LoneSurrogate)); }
        url := url.(fragment := PlusText(url.fragment, encoded.value));
      }
      pointer := pointer + 1;
      return Loop;
    }

    /** The switch over the state. */
    method Turn() returns (next: Next)
      requires 0 <= pointer <= |input.cps| && CodePointsOnly(input.cps) && LowersText(input.lower)
      requires CollectsText(stage) ==> Within(buffer, input.cps)
      modifies this
      ensures Turns(input, old(AsConfig()), Move(next, AsConfig()))
    {
      hide AfterSchemeStart, AfterSchemeChar, AfterNoScheme, AfterSpecialRelativeOrAuthority, AfterPathOrAuthority,
        AfterRelative, AfterRelativeSlash, AfterSpecialAuthoritySlashes, AfterSpecialAuthorityIgnoreSlashes,
        AfterAuthority, AfterPort, AfterFile, AfterFileSlash, AfterPathStart, AfterPath, AfterCannotBeABase,
        AfterQuery, AfterFragment, AfterHost, AfterFileHost, Agrees, Within, LowersText, CodePointsOnly;
      match stage
      case SchemeStart => next := StepSchemeStart();
      case Scheme => next := StepScheme();
      case NoScheme => next := StepNoScheme();
      case SpecialRelativeOrAuthority => next := StepSpecialRelativeOrAuthority();
      case PathOrAuthority => next := StepPathOrAuthority();
      case Relative => next := StepRelative();
      case RelativeSlash => next := StepRelativeSlash();
      case SpecialAuthoritySlashes => next := StepSpecialAuthoritySlashes();
      case SpecialAuthorityIgnoreSlashes => next := StepSpecialAuthorityIgnoreSlashes();
      case Authority => next := StepAuthority();
      case HostName => next := StepHost();
      case HostOnly => next := StepHost();
      case Port => next := StepPort();
      case File => next := StepFile();
      case FileSlash => next := StepFileSlash();
      case FileHost => next := StepFileHost();
      case PathStart => next := StepPathStart();
      case Path => next := StepPath();
      case CannotBeABase => next := StepCannotBeABase();
      case Query => next := StepQuery();
      case Fragment => next := StepFragment();
    }

    /**
     The loop of `parse`: it halts for every input, base and override, although SCHEME may reset the
     pointer and AUTHORITY moves it back, because (rank of the state, code points left) decreases.
     */
    method Parse() returns (outcome: Outcome)
      requires Ready(input, AsConfig()) && CodePointsOnly(input.cps) && LowersText(input.lower)
      modifies this
      ensures outcome == Parsed && input.Trusted() ==> UrlOk(url)
      ensures outcome.Thrown? ==> Explained(input, outcome.exception)
      ensures exists trace :: IsParse(input, old(AsConfig()), trace, outcome, AsConfig())
    {
      hide Turns, UrlOk, StageOk, LowersText, CodePointsOnly, Explained, Rank, Within;
      ghost var trace := [AsConfig()];
      while pointer <= |input.cps|
        invariant Ready(input, AsConfig()) && IsTrace(input, trace)
        invariant trace[0] == old(AsConfig()) && trace[|trace| - 1] == AsConfig()
        decreases Rank(stage), |input.cps| - pointer
      {
        ghost var c := AsConfig();
        var next := Turn();
        TurnKeeps(input, c, Move(next, AsConfig()));
        if next.Stop? {
          assert IsParse(input, old(AsConfig()), trace, next.outcome, AsConfig());
          return next.outcome;
        }
        TraceGrows(input, trace, AsConfig());
        trace := trace + [AsConfig()];
      }
      assert IsParse(input, old(AsConfig()), trace, Parsed, AsConfig());
      return Parsed;
    }
  }

  lemma SchemeLeads(u: Url, base: Option<Url>, slash: bool)
    ensures var to := AfterScheme(u, base, slash);
            && (u.scheme == FILE ==> to == File)
            && (u.scheme != FILE && IsSpecial(u) ==>
                  to == if base.Some? && base.value.scheme == u.scheme then SpecialRelativeOrAuthority else SpecialAuthoritySlashes)
            && (u.scheme != FILE && !IsSpecial(u) ==> to == if slash then PathOrAuthority else CannotBeABase)
  {
    hide IsSpecialScheme;
  }

  // ---------- The constructor's use of the parser ----------

  predicate IsControlOrSpace(c: int) { 0 <= c <= 0x20 }

  function TrimLeft(s: seq<int>): seq<int> {
    if s != [] && IsControlOrSpace(s[0]) then TrimLeft(s[1..]) else s
  }

  function TrimRight(s: seq<int>): seq<int> {
    if s != [] && IsControlOrSpace(s[|s| - 1]) then TrimRight(s[..|s| - 1]) else s
  }

  function WithoutTabsAndNewlines(s: seq<int>): seq<int> {
    if s == [] then []
    else if s[0] in {0x09, 0x0A, 0x0D} then WithoutTabsAndNewlines(s[1..])
    else [s[0]] + WithoutTabsAndNewlines(s[1..])
  }

  lemma {:induction false} CleanedText(s: seq<int>)
    requires Puny.IsUtf16(s)
    ensures Puny.IsUtf16(TrimLeft(s)) && Puny.IsUtf16(TrimRight(s)) && Puny.IsUtf16(WithoutTabsAndNewlines(s))
    decreases |s|
  {
    if s != [] {
      CleanedText(s[1..]);
      CleanedText(s[..|s| - 1]);
    }
  }

  function Cleaned(text: seq<int>): seq<int> { WithoutTabsAndNewlines(TrimRight(TrimLeft(text))) }

  /** What `parse` reads of a whole text: its code points, trimmed and without tabs and newlines. */
  function TextInput(text: seq<int>, base: Option<Url>, lower: seq<int> -> seq<int>): Input {
    Input(Puny.CodePoints(Cleaned(text)), base, None, lower)
  }

  /** Parsing the text comes to this: some run on it, and then every run (Determined), ends so. */
  ghost predicate Yields(text: seq<int>, base: Option<Url>, lower: seq<int> -> seq<int>, outcome: Outcome, url: Url) {
    exists d :: Ends(TextInput(text, base, lower), Fresh(), outcome, d) && d.url == url
  }

  /** `parse` of a whole URL, without a state override. */
  method ParseWhole(text: seq<int>, base: Option<Url>, lower: seq<int> -> seq<int>) returns (outcome: Outcome, url: Url)
    requires Puny.IsUtf16(text) && LowersText(lower)
    ensures Yields(text, base, lower, outcome, url)
    ensures outcome == Parsed && (base.Some? ==> UrlOk(base.value)) ==> UrlOk(url)
    ensures outcome == Thrown(EmptyBasePath) ==> base.Some? && base.value.path == []
    ensures outcome == Thrown(LoneSurrogate) ==> !Uri.WellFormed(Cleaned(text))
    ensures outcome != Thrown(MissingBase)
  {
    hide UrlOk, LowersText, TrimLeft, TrimRight, WithoutTabsAndNewlines, Puny.CodePoints, IsParse;
    CleanedText(text);
    CleanedText(TrimLeft(text));
    CleanedText(TrimRight(TrimLeft(text)));
    var cps := Puny.CodePoints(Cleaned(text));
    Puny.CodePointRange(Cleaned(text));
    var input := Input(cps, base, None, lower);
    FreshReady(input);
    var state := new UrlState(input, FRESH);
    outcome := state.Parse();
    url := state.url;
    assert Ends(TextInput(text, base, lower), Fresh(), outcome, state.AsConfig());
  }

  /** `new URL(text, baseText)`: the base is parsed first, on its own, and its failure is the failure. */
  ghost predicate Constructs(text: seq<int>, baseText: Option<seq<int>>, lower: seq<int> -> seq<int>, outcome: Outcome, url: Url) {
    match baseText
    case None => Yields(text, None, lower, outcome, url)
    case Some(b) =>
      exists o, base :: Yields(b, None, lower, o, base) &&
        if o == Parsed then Yields(text, Some(base), lower, outcome, url) else outcome == o && url == base
  }

  /**
   The constructor.  Every URL that comes out is well formed, and an empty base path is the only thing about a
   base that can make the parser throw.
   */
  method Construct(text: seq<int>, baseText: Option<seq<int>>, lower: seq<int> -> seq<int>)
    returns (outcome: Outcome, url: Url)
    requires Puny.IsUtf16(text) && (baseText.Some? ==> Puny.IsUtf16(baseText.value)) && LowersText(lower)
    ensures Constructs(text, baseText, lower, outcome, url)
    ensures outcome == Parsed ==> UrlOk(url)
    ensures outcome == Thrown(EmptyBasePath) ==> baseText.Some?
    ensures outcome == Thrown(LoneSurrogate) ==>
      !Uri.WellFormed(Cleaned(text)) || (baseText.Some? && !Uri.WellFormed(Cleaned(baseText.value)))
    ensures outcome != Thrown(MissingBase)
  {
    hide UrlOk, LowersText, Cleaned, Yields;
    var base: Option<Url> := None;
    if baseText.Some? {
      outcome, url := ParseWhole(baseText.value, None, lower);
      if outcome != Parsed { return; }
      base := Some(url);
    }
    outcome, url := ParseWhole(text, base, lower);
  }
}
