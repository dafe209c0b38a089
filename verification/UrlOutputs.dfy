/**
 The invariant behind the normal form of js/secsdk-lastest.umd.js's URLs: what each of the parser's states has
 written so far, kept by every turn of a parse without override against a base in normal form.
 */
module UrlOutputs {
  import opened Wrappers
  import opened UrlRecord
  import opened UrlHost
  import opened UrlStates
  import opened UrlRuns
  import opened UrlNormal

  /** A whole URL is parsed, against no base or one the parser gave. */
  ghost predicate Given(t: Input) {
    && t.override.None? && CodePointsOnly(t.cps) && IsLowering(t.lower)
    && (t.base.Some? ==> Normal(t.base.value))
  }

  /** A URL of which only the scheme is known, if that. */
  predicate Unfilled(u: Url) { u == FRESH.(scheme := u.scheme) }

  predicate Bare(u: Url) { SchemeText(u.scheme) && Unfilled(u) }

  /** A scheme and userinfo. */
  predicate Named(u: Url) {
    && SchemeText(u.scheme) && u.scheme != FILE && AllKept(u.username, USERINFO_SET) && AllKept(u.password, USERINFO_SET)
    && u == FRESH.(scheme := u.scheme, username := u.username, password := u.password)
  }

  /** Everything in front of the path, and perhaps some of the path. */
  predicate PathReady(u: Url) {
    SchemeText(u.scheme) && AuthorityForm(u) && PathForm(IsSpecial(u), u.path) && !u.cannotBeABase && u.query == None
        && u.fragment == None
  }

  /** Everything but the port and the path. */
  predicate Hosted(u: Url) {
    PathReady(u) && u.host != NoHost && u.host != Text([]) && u.path == [] && u.scheme != FILE && u.port == None
  }

  predicate SegmentBuffer(special: bool, s: seq<int>) { AllKept(s, PATH_SET) && SLASH !in s && (special ==> BACKSLASH !in s) }

  /** What a state has written, and what it may meet. */
  predicate Tidy(t: Input, c: Config) {
    if c.pointer > |t.cps| then Normal(c.url)
    else
      match c.stage
      case SchemeStart => c.url == FRESH
      case Scheme => c.url == FRESH && SchemeText(c.buffer)
      case NoScheme => c.url == FRESH
      case SpecialRelativeOrAuthority => Bare(c.url)
      case PathOrAuthority => Bare(c.url)
      case Relative => Unfilled(c.url)
      case RelativeSlash => Bare(c.url) && t.HasBase(c.url.scheme)
      case SpecialAuthoritySlashes => Bare(c.url)
      case SpecialAuthorityIgnoreSlashes => Bare(c.url)
      case Authority =>
        && Named(c.url) && (IncludesCredentials(c.url) ==> c.seenAt)
        && (c.buffer != [] ==> !AtDelimiter(Some(c.buffer[0]), c.url))
      case HostName => Named(c.url) && (IncludesCredentials(c.url) && c.buffer == [] ==> !AtDelimiter(t.At(c.pointer), c.url))
      case HostOnly => false
      case Port => Hosted(c.url)
      case File => Unfilled(c.url)
      case FileSlash => Bare(c.url)
      case FileHost => Bare(c.url)
      case PathStart => PathReady(c.url) && c.url.path == [] && c.url.host != NoHost
      case Path => PathReady(c.url) && SegmentBuffer(IsSpecial(c.url), c.buffer)
      case CannotBeABase => Normal(c.url) && OpaqueUrl(c.url) && (c.url.path[0] == [] ==> t.At(c.pointer) != Some(SLASH))
      case Query => Normal(c.url) && c.url.query.Some?
      case Fragment => Normal(c.url) && c.url.fragment.Some?
  }

  /** A turn that goes round again leaves the next state's part in order. */
  predicate Tidied(t: Input, m: Move) { m.next.Loop? ==> Tidy(t, m.config) }

  lemma BareTidy(t: Input, d: Config)
    requires Bare(d.url) && d.pointer <= |t.cps|
    requires d.stage in {SpecialRelativeOrAuthority, PathOrAuthority, SpecialAuthoritySlashes,
             SpecialAuthorityIgnoreSlashes, File, FileSlash, FileHost}
    ensures Tidy(t, d)
  {
    hide SchemeText, Normal;
  }

  lemma PathTidy(t: Input, d: Config)
    requires d.stage == Path && PathReady(d.url) && SegmentBuffer(IsSpecial(d.url), d.buffer) && d.pointer <= |t.cps|
    ensures Tidy(t, d)
  {
    hide PathReady, SegmentBuffer, Normal;
  }

  lemma NormalTidy(t: Input, d: Config)
    requires Normal(d.url)
    requires d.pointer > |t.cps| || (d.stage == Query && d.url.query.Some?) || (d.stage == Fragment && d.url.fragment.Some?)
    ensures Tidy(t, d)
  {
    hide Normal;
  }

  lemma AuthorityTidy(t: Input, d: Config)
    requires d.stage == Authority && Named(d.url) && (IncludesCredentials(d.url) ==> d.seenAt) && d.pointer <= |t.cps|
    requires d.buffer != [] ==> !AtDelimiter(Some(d.buffer[0]), d.url)
    ensures Tidy(t, d)
  {
    hide Named, AtDelimiter, Normal;
  }

  // ---------- From the scheme to the authority ----------

  lemma SchemeGrows(s: seq<int>, x: int)
    requires IsSchemeChar(x) && (if s == [] then IsAlpha(x) else SchemeText(s))
    ensures SchemeText(s + [LowerAscii(x)])
  {
  }

  lemma SchemeStartTidies(t: Input, c: Config)
    requires t.override.None? && Tidy(t, c) && c.stage == SchemeStart && c.buffer == [] && 0 <= c.pointer <= |t.cps|
    ensures Tidied(t, AfterSchemeStart(t, c))
  {
    hide Normal, SchemeText;
    var chr := t.At(c.pointer);
    if chr.Some? && IsAlpha(chr.value) { SchemeGrows([], chr.value); }
  }

  lemma SchemeTidies(t: Input, c: Config)
    requires t.override.None? && Tidy(t, c) && c.stage == Scheme && 0 <= c.pointer <= |t.cps|
    ensures Tidied(t, AfterSchemeChar(t, c))
  {
    hide Normal, AfterColon;
    var chr := t.At(c.pointer);
    if chr.Some? && IsSchemeChar(chr.value) {
      SchemeGrows(c.buffer, chr.value);
    } else if chr == Some(COLON) {
      ColonTidies(t, c);
    }
  }

  lemma ColonTidies(t: Input, c: Config)
    requires t.override.None? && c.url == FRESH && SchemeText(c.buffer) && 0 <= c.pointer < |t.cps|
    ensures Tidied(t, AfterColon(t, c))
  {
    hide SchemeText, Normal, AfterScheme, Tidy;
    var u := c.url.(scheme := c.buffer);
    var slash := t.At(c.pointer + 1) == Some(SLASH);
    var d := AfterColon(t, c).config;
    WhereSchemesLead(u, t.base, slash);
    if d.stage == CannotBeABase {
      assert u.path + [[]] == [[]];
      EmptyOpaque(c.buffer);
      OpaqueTidy(t, d);
    } else {
      BareTidy(t, d);
    }
  }

  lemma OpaqueTidy(t: Input, d: Config)
    requires d.stage == CannotBeABase && Normal(d.url) && OpaqueUrl(d.url)
    requires d.url.path[0] == [] ==> t.At(d.pointer) != Some(SLASH)
    ensures Tidy(t, d)
  {
    hide Normal;
  }

  lemma WhereSchemesLead(u: Url, base: Option<Url>, slash: bool)
    ensures var to := AfterScheme(u, base, slash);
            && (to == CannotBeABase ==> !IsSpecial(u) && !slash)
            && (to == PathOrAuthority ==> slash)
            && to in {File, SpecialRelativeOrAuthority, SpecialAuthoritySlashes, PathOrAuthority, CannotBeABase}
  {
  }

  lemma EmptyOpaque(s: seq<int>)
    requires SchemeText(s) && !IsSpecialScheme(s)
    ensures var u := FRESH.(scheme := s, cannotBeABase := true, path := [[]]); Normal(u) && OpaqueUrl(u)
  {
    hide IsSpecialScheme, SchemeText;
  }

  lemma NoSchemeTidies(t: Input, c: Config)
    requires Given(t) && c.url == FRESH && c.stage == NoScheme && c.buffer == [] && 0 <= c.pointer <= |t.cps|
    ensures Tidied(t, AfterNoScheme(t, c))
  {
    hide Normal, Tidy, IsLowering, CodePointsOnly;
    var m := AfterNoScheme(t, c);
    if m.next.Loop? {
      if m.config.stage == Fragment {
        OpaqueWithFragment(t.base.value);
        NormalTidy(t, m.config);
      } else {
        UnfilledTidy(t, m.config);
      }
    }
  }

  lemma UnfilledTidy(t: Input, d: Config)
    requires Unfilled(d.url) && (d.stage == File || d.stage == Relative) && d.pointer <= |t.cps|
    ensures Tidy(t, d)
  {
    hide Normal;
  }

  lemma OpaqueWithFragment(b: Url)
    requires Normal(b) && b.cannotBeABase
    ensures Normal(FRESH.(scheme := b.scheme, path := b.path, query := b.query, fragment := Some([]), cannotBeABase := true))
  {
    hide IsSpecialScheme, SchemeText, OpaqueForm, QueryForm;
    KeptConcat([], [], USERINFO_SET);
  }

  lemma SlashStates(t: Input, c: Config)
    requires t.override.None? && Bare(c.url) && c.buffer == [] && 0 <= c.pointer <= |t.cps|
    ensures c.stage == SpecialRelativeOrAuthority ==> Tidied(t, AfterSpecialRelativeOrAuthority(t, c))
    ensures c.stage == SpecialAuthoritySlashes ==> Tidied(t, AfterSpecialAuthoritySlashes(c))
  {
    hide SchemeText, Tidy;
    if c.stage == SpecialRelativeOrAuthority {
      var d := AfterSpecialRelativeOrAuthority(t, c).config;
      if d.stage == Relative { UnfilledTidy(t, d); } else { BareTidy(t, d); }
    } else if c.stage == SpecialAuthoritySlashes {
      BareTidy(t, AfterSpecialAuthoritySlashes(c).config);
    }
  }

  lemma PathOrAuthorityTidies(t: Input, c: Config)
    requires t.override.None? && Bare(c.url) && !IsSpecial(c.url) && c.buffer == [] && c.stage == PathOrAuthority
             && 0 <= c.pointer <= |t.cps|
    ensures Tidied(t, AfterPathOrAuthority(t, c))
  {
    hide Bare, Tidy, PathReady, Named, IsSpecialScheme;
    FileIsSpecial();
    var d := AfterPathOrAuthority(t, c).config;
    if d.stage == Path {
      BareIsReady(c.url);
      PathTidy(t, d);
    } else {
      BareIsNamed(c.url);
      AuthorityTidy(t, d);
    }
  }

  lemma IgnoreSlashesTidies(t: Input, c: Config)
    requires t.override.None? && Bare(c.url) && c.url.scheme != FILE && c.buffer == [] && 0 <= c.pointer <= |t.cps|
    requires c.stage == SpecialAuthorityIgnoreSlashes
    ensures Tidied(t, AfterSpecialAuthorityIgnoreSlashes(t, c))
  {
    hide Bare, Tidy, Named;
    var d := AfterSpecialAuthorityIgnoreSlashes(t, c).config;
    if d.stage == Authority {
      BareIsNamed(c.url);
      AuthorityTidy(t, d);
    } else {
      BareTidy(t, d);
    }
  }

  lemma BareIsNamed(u: Url)
    requires Bare(u)
    ensures !IncludesCredentials(u) && (u.scheme != FILE ==> Named(u))
  {
    hide SchemeText;
  }

  /** A path may follow the scheme at once, unless the scheme asks for a host. */
  lemma BareIsReady(u: Url)
    requires Bare(u)
    ensures !IsSpecial(u) || u.scheme == FILE ==> PathReady(u)
  {
    hide SchemeText, IsSpecialScheme;
  }

  // ---------- References ----------

  lemma RelativeTidies(t: Input, c: Config)
    requires Given(t) && Unfilled(c.url) && c.stage == Relative && c.buffer == [] && 0 <= c.pointer <= |t.cps|
    requires t.base.Some? ==> !t.base.value.cannotBeABase && t.base.value.scheme != FILE
    ensures Tidied(t, AfterRelative(t, c))
  {
    hide Normal, Tidy, IsLowering, CodePointsOnly, IsSpecialScheme, AfterReference;
    if t.base.Some? {
      var b := t.base.value;
      var u := c.url.(scheme := b.scheme);
      if IsSlash(t.At(c.pointer), u) {
        NormalScheme(b);
        SlashTidy(t, AfterRelative(t, c).config);
      } else {
        ReferenceTidies(t, c, t.At(c.pointer), b);
      }
    }
  }

  lemma NormalScheme(u: Url)
    requires Normal(u)
    ensures SchemeText(u.scheme)
  {
  }

  lemma SlashTidy(t: Input, d: Config)
    requires Bare(d.url) && t.HasBase(d.url.scheme) && d.stage == RelativeSlash && d.pointer <= |t.cps|
    ensures Tidy(t, d)
  {
    hide SchemeText, Normal;
  }

  lemma ReferenceTidies(t: Input, c: Config, chr: Option<int>, b: Url)
    requires Normal(b) && !b.cannotBeABase && b.scheme != FILE && Unfilled(c.url)
    requires c.stage == Relative && c.buffer == [] && 0 <= c.pointer <= |t.cps| && chr == t.At(c.pointer)
    ensures Tidied(t, AfterReference(c, chr, b, c.url.(scheme := b.scheme)))
  {
    hide Normal, Tidy, Unfilled, AfterReference, PathReady, SegmentBuffer;
    var u := c.url.(scheme := b.scheme);
    var m := AfterReference(c, chr, b, u);
    if chr.None? || chr.value == QUESTION || chr.value == HASH {
      TailFromBase(c, chr, b);
      BaseTail(b, m.config.url.query, m.config.url.fragment);
      NormalTidy(t, m.config);
    } else if m.next.Loop? {
      PathFromBase(c, chr.value, b);
      BasePath(b, m.config.url.path);
      PathTidy(t, m.config);
    }
  }

  lemma TailFromBase(c: Config, chr: Option<int>, b: Url)
    requires !b.cannotBeABase && Unfilled(c.url) && c.stage == Relative && c.buffer == []
    requires chr.None? || chr.value == QUESTION || chr.value == HASH
    ensures var m := AfterReference(c, chr, b, c.url.(scheme := b.scheme));
            var d := m.config;
            && m.next.Loop? && d.pointer == c.pointer + 1 && d.url == b.(query := d.url.query, fragment := d.url.fragment)
            && (d.url.query == b.query || d.url.query == Some([])) && (d.url.fragment == None || d.url.fragment == Some([]))
            && (chr.None? || (d.stage == Query && d.url.query.Some?) || (d.stage == Fragment && d.url.fragment.Some?))
  {
  }

  lemma PathFromBase(c: Config, x: int, b: Url)
    requires !b.cannotBeABase && Unfilled(c.url) && c.stage == Relative && c.buffer == [] && x != QUESTION && x != HASH
    requires AfterReference(c, Some(x), b, c.url.(scheme := b.scheme)).next.Loop?
    ensures var d := AfterReference(c, Some(x), b, c.url.(scheme := b.scheme)).config;
            && d.stage == Path && d.pointer == c.pointer && d.buffer == [] && d.url.path <= b.path
            && d.url == b.(path := d.url.path, query := None, fragment := None)
  {
  }

  lemma SameAuthority(u: Url, v: Url)
    requires AuthorityForm(u)
    requires v == u.(path := v.path, query := v.query, fragment := v.fragment, cannotBeABase := v.cannotBeABase)
    ensures AuthorityForm(v)
  {
    hide NameForm, DefaultPort, IsSpecialScheme, AllKept;
  }

  lemma BasePath(b: Url, path: seq<seq<int>>)
    requires Normal(b) && !b.cannotBeABase && path <= b.path
    ensures PathReady(b.(path := path, query := None, fragment := None)) && SegmentBuffer(IsSpecial(b), [])
  {
    hide IsSpecialScheme, SchemeText, SegmentForm, AuthorityForm, QueryForm;
    SameAuthority(b, b.(path := path, query := None, fragment := None));
  }

  lemma TailChanged(b: Url, query: Option<seq<int>>, fragment: Option<seq<int>>)
    requires Normal(b) && TailForm(b.(query := query, fragment := fragment))
    ensures Normal(b.(query := query, fragment := fragment))
    ensures OpaqueUrl(b) ==> OpaqueUrl(b.(query := query, fragment := fragment))
  {
    hide IsSpecialScheme, SchemeText, SegmentForm, AuthorityForm, OpaqueForm, TailForm;
    SameAuthority(b, b.(query := query, fragment := fragment));
  }

  /** The base with another query and fragment. */
  lemma BaseTail(b: Url, query: Option<seq<int>>, fragment: Option<seq<int>>)
    requires Normal(b) && (query == b.query || query == Some([])) && (fragment == None || fragment == Some([]))
    ensures Normal(b.(query := query, fragment := fragment))
  {
    hide IsSpecialScheme, SchemeText, SegmentForm, AuthorityForm, OpaqueForm;
    TailChanged(b, query, fragment);
  }

  lemma RelativeSlashTidies(t: Input, c: Config)
    requires Given(t) && Bare(c.url) && t.HasBase(c.url.scheme) && c.url.scheme != FILE
    requires c.stage == RelativeSlash && c.buffer == [] && 0 <= c.pointer <= |t.cps|
    ensures Tidied(t, AfterRelativeSlash(t, c))
  {
    hide Normal, Tidy, Bare, Named, IsLowering, CodePointsOnly, IsSpecialScheme, PathReady, SegmentBuffer;
    var d := AfterRelativeSlash(t, c).config;
    if d.stage == Authority {
      BareIsNamed(c.url);
      AuthorityTidy(t, d);
    } else if d.stage == Path {
      BaseAuthority(c.url, t.base.value);
      PathTidy(t, d);
    } else {
      BareTidy(t, d);
    }
  }

  lemma BaseAuthority(u: Url, b: Url)
    requires Normal(b) && Bare(u) && u.scheme == b.scheme
    ensures PathReady(u.(username := b.username, password := b.password, host := b.host, port := b.port))
    ensures SegmentBuffer(IsSpecial(u), [])
  {
    hide IsSpecialScheme, SchemeText, NameForm, DefaultPort;
  }

  // ---------- The authority ----------

  lemma AuthorityTidies(t: Input, c: Config)
    requires t.override.None? && Tidy(t, c) && BufferBehind(t, c) && c.stage == Authority && c.pointer <= |t.cps|
    ensures Tidied(t, AfterAuthority(t, c))
  {
    hide Tidy, Named, AfterAt, IsSpecialScheme, BufferBehind;
    AuthorityParts(t, c);
    var chr, m := t.At(c.pointer), AfterAuthority(t, c);
    if chr == Some(AT) {
      AtTidies(t, c);
    } else if !AtDelimiter(chr, c.url) {
      assert m.config.buffer[0] == if c.buffer == [] then chr.value else c.buffer[0];
      AuthorityTidy(t, m.config);
    } else if m.next.Loop? {
      RewindTidies(t, c, m.config);
    }
  }

  lemma AuthorityParts(t: Input, c: Config)
    requires Tidy(t, c) && c.stage == Authority && c.pointer <= |t.cps|
    ensures Named(c.url) && (IncludesCredentials(c.url) ==> c.seenAt)
    ensures c.buffer != [] ==> !AtDelimiter(Some(c.buffer[0]), c.url)
  {
    hide Named, AtDelimiter;
  }

  /** Credentials are followed by the start of a host. */
  lemma RewindTidies(t: Input, c: Config, d: Config)
    requires Named(c.url) && (IncludesCredentials(c.url) ==> c.seenAt) && BufferBehind(t, c)
    requires c.buffer != [] ==> !AtDelimiter(Some(c.buffer[0]), c.url)
    requires c.seenAt ==> c.buffer != []
    requires d == c.(stage := HostName, pointer := c.pointer - |c.buffer|, buffer := [])
    ensures Tidy(t, d)
  {
    hide Named, AtDelimiter, Normal;
    if c.buffer != [] { assert t.cps[d.pointer] == c.buffer[0]; }
  }

  lemma AtTidies(t: Input, c: Config)
    requires Named(c.url) && c.stage == Authority && c.pointer < |t.cps|
    ensures Tidied(t, AfterAt(c))
  {
    hide Tidy, Encodes, PasswordAt, PasswordFrom, SchemeText, AllKept;
    var text := AtText(c);
    var k, from := PasswordAt(text, c.seenPasswordToken), PasswordFrom(text, c.seenPasswordToken);
    ProperSets();
    if Encodes(text[..k], USERINFO_SET).Some? && Encodes(text[from..], USERINFO_SET).Some? {
      TextEncoded(text[..k], USERINFO_SET);
      TextEncoded(text[from..], USERINFO_SET);
      KeptConcat(c.url.username, Encodes(text[..k], USERINFO_SET).value, USERINFO_SET);
      KeptConcat(c.url.password, Encodes(text[from..], USERINFO_SET).value, USERINFO_SET);
      AuthorityTidy(t, AfterAt(c).config);
    }
  }

  lemma HostTidies(t: Input, c: Config)
    requires Given(t) && Tidy(t, c) && Within(c.buffer, t.cps) && c.stage == HostName && 0 <= c.pointer <= |t.cps|
    ensures Tidied(t, AfterHost(t, c))
  {
    hide Normal, Named, AfterHostColon, AfterHostEnd, IsSpecialScheme, Within, IsLowering, CodePointsOnly;
    var chr := t.At(c.pointer);
    if chr == Some(COLON) && !c.seenBracket {
      ColonBehindHost(t, c);
    } else if AtDelimiter(chr, c.url) {
      HostEndTidies(t, c);
    }
  }

  lemma ColonBehindHost(t: Input, c: Config)
    requires Given(t) && Named(c.url) && Within(c.buffer, t.cps) && c.stage == HostName && 0 <= c.pointer < |t.cps|
    ensures Tidied(t, AfterHostColon(t, c))
  {
    hide Tidy, Named, Hosted, IsSpecialScheme, IsLowering, HostReading;
    BufferRange(t, c);
    if AfterHostColon(t, c).next.Loop? {
      HostRead(c.buffer, t.lower, c.url, BufferRead(t, c).host);
      PortTidy(t, AfterHostColon(t, c).config);
    }
  }

  lemma BufferRange(t: Input, c: Config)
    requires CodePointsOnly(t.cps) && Within(c.buffer, t.cps)
    ensures CodePointsOnly(c.buffer)
  {
    forall i | 0 <= i < |c.buffer| ensures 0 <= c.buffer[i] <= 0x10_FFFF { assert c.buffer[i] in t.cps; }
  }

  /** The authority behind its host. */
  lemma HostRead(text: seq<int>, lower: seq<int> -> seq<int>, u: Url, host: Host)
    requires CodePointsOnly(text) && IsLowering(lower) && Named(u) && HostReading(text, IsSpecial(u), lower) == Read(host)
    requires text == [] ==> !IsSpecial(u) && !IncludesCredentials(u)
    ensures var v := u.(host := host); PathReady(v) && host != NoHost && (text != [] ==> Hosted(v))
  {
    hide IsLowering, IsSpecialScheme, HostReading, HostForm, SchemeText, AllKept;
    ReadingForm(text, lower, u.(host := host));
  }

  lemma HostEndTidies(t: Input, c: Config)
    requires Given(t) && Named(c.url) && Within(c.buffer, t.cps) && c.stage == HostName && 0 <= c.pointer <= |t.cps|
    requires c.buffer == [] ==> !IncludesCredentials(c.url)
    ensures Tidied(t, AfterHostEnd(t, c))
  {
    hide Tidy, Normal, IsSpecialScheme, IsLowering, HostReading, PathReady;
    BufferRange(t, c);
    var m := AfterHostEnd(t, c);
    if m.next.Loop? {
      HostRead(c.buffer, t.lower, c.url, BufferRead(t, c).host);
      PathStartTidy(t, m.config);
    }
  }

  lemma PathStartTidy(t: Input, d: Config)
    requires PathReady(d.url) && d.url.path == [] && d.url.host != NoHost && d.stage == PathStart && d.pointer <= |t.cps|
    ensures Tidy(t, d)
  {
    hide PathReady, Normal;
  }

  lemma PortTidies(t: Input, c: Config)
    requires t.override.None? && Hosted(c.url) && c.stage == Port && 0 <= c.pointer <= |t.cps|
    ensures Tidied(t, AfterPort(t, c))
  {
    hide PathReady, IsSpecialScheme, Tidy, DefaultPort;
    var m := AfterPort(t, c);
    if m.next.Loop? {
      if m.config.stage == Port { PortTidy(t, m.config); } else {
        HostedPort(c.url, m.config.url.port);
        PathStartTidy(t, m.config);
      }
    }
  }

  lemma PortTidy(t: Input, d: Config)
    requires Hosted(d.url) && d.stage == Port && d.pointer <= |t.cps|
    ensures Tidy(t, d)
  {
    hide Hosted, Normal;
  }

  lemma HostedPort(u: Url, port: Option<int>)
    requires Hosted(u) && (port.Some? ==> 0 <= port.value <= 0xFFFF && (IsSpecial(u) ==> port != DefaultPort(u.scheme)))
    ensures var v := u.(port := port); PathReady(v) && v.path == [] && v.host != NoHost
  {
    hide NameForm, SchemeText, AllKept;
    DefaultPortOnlySpecial(u.scheme);
    hide DefaultPort, IsSpecialScheme;
  }

  // ---------- Files ----------

  /** A file base is its host, path, query and fragment. */
  lemma FileBase(b: Url)
    requires Normal(b) && b.scheme == FILE
    ensures b == FRESH.(scheme := FILE, host := b.host, path := b.path, query := b.query, fragment := b.fragment)
  {
    hide HostForm, QueryForm, PathForm, PathWhole, OpaqueForm, SchemeText;
    FileScheme();
  }

  lemma FileTidies(t: Input, c: Config)
    requires Given(t) && Unfilled(c.url) && c.stage == File && c.buffer == [] && 0 <= c.pointer <= |t.cps|
    ensures Tidied(t, AfterFile(t, c))
  {
    hide Tidy, IsLowering, CodePointsOnly, DriveAhead, PathReady, SegmentBuffer, SchemeText, Normal, Shortened;
    FileScheme();
    var chr, u, d := t.At(c.pointer), c.url.(scheme := FILE), AfterFile(t, c).config;
    if chr == Some(SLASH) || chr == Some(BACKSLASH) {
      BareTidy(t, d);
    } else if !t.HasBase(FILE) || (d.stage == Path && DriveAhead(t, c.pointer)) {
      BareIsReady(u);
      EmptyBuffer(IsSpecial(u));
      PathTidy(t, d);
    } else {
      FileReferenceTidies(t, c, t.base.value);
    }
  }

  lemma EmptyBuffer(special: bool)
    ensures SegmentBuffer(special, [])
  {
  }

  /** What a file reference takes over from its base, all of which is in normal form. */
  lemma FileFromBase(t: Input, c: Config, b: Url)
    requires Unfilled(c.url) && c.stage == File && c.buffer == [] && !IsSlash(t.At(c.pointer), FRESH.(scheme := FILE))
    requires t.base == Some(b) && b == FRESH.(scheme := FILE, host := b.host, path := b.path, query := b.query,
             fragment := b.fragment)
    ensures var chr, d := t.At(c.pointer), AfterFile(t, c).config;
            && d.buffer == [] && d.url.path <= b.path
            && if d.stage == Path then
                 d.pointer == c.pointer &&
                 (DriveAhead(t, c.pointer) || d.url == b.(path := d.url.path, query := None, fragment := None))
               else
                 && d.pointer == c.pointer + 1 && d.url == b.(query := d.url.query, fragment := d.url.fragment)
                 && (d.url.query == b.query || d.url.query == Some([])) && (d.url.fragment == None || d.url.fragment == Some([]))
                 && (chr.None? || (d.stage == Query && d.url.query.Some?) || (d.stage == Fragment && d.url.fragment.Some?))
  {
    hide DriveAhead, Shortened, IsWindowsDriveLetter;
    FileScheme();
    ShortenedPrefix(FRESH.(scheme := FILE, host := b.host, path := b.path));
  }

  lemma FileReferenceTidies(t: Input, c: Config, b: Url)
    requires Given(t) && Unfilled(c.url) && c.stage == File && c.buffer == [] && 0 <= c.pointer <= |t.cps|
    requires t.base == Some(b) && b.scheme == FILE && !IsSlash(t.At(c.pointer), FRESH.(scheme := FILE))
    requires AfterFile(t, c).config.stage == Path ==> !DriveAhead(t, c.pointer)
    ensures Tidied(t, AfterFile(t, c))
  {
    hide Normal, Tidy, IsLowering, CodePointsOnly, DriveAhead, PathReady, SegmentBuffer, Unfilled, AfterFile,
      IsSpecialScheme, UrlOk;
    var d := AfterFile(t, c).config;
    FileBase(b);
    FileScheme();
    FileFromBase(t, c, b);
    NormalOk(b);
    FilePathsAreNotOpaque(b);
    if d.stage == Path {
      BasePath(b, d.url.path);
      PathTidy(t, d);
    } else {
      BaseTail(b, d.url.query, d.url.fragment);
      NormalTidy(t, d);
    }
  }

  lemma FilePathsAreNotOpaque(b: Url)
    requires UrlOk(b) && b.scheme == FILE
    ensures !b.cannotBeABase && b.path != []
  {
    FileScheme();
  }

  lemma ShortenedPrefix(u: Url)
    ensures Shortened(u) == u.(path := Shortened(u).path) && Shortened(u).path <= u.path
  {
  }

  lemma FileSlashTidies(t: Input, c: Config)
    requires Given(t) && Bare(c.url) && c.url.scheme == FILE && c.stage == FileSlash && c.buffer == [] && 0 <= c.pointer <= |t.cps|
    ensures Tidied(t, AfterFileSlash(t, c))
  {
    hide Normal, Tidy, IsLowering, CodePointsOnly, DriveAhead, PathReady, SegmentBuffer, SchemeText, IsWindowsDriveLetter;
    var m := AfterFileSlash(t, c);
    if m.next.Loop? {
      if m.config.stage == FileHost {
        BareTidy(t, m.config);
      } else {
        EmptyBuffer(IsSpecial(c.url));
        if m.config.url == c.url { BareIsReady(c.url); } else { FileParts(t.base.value); }
        PathTidy(t, m.config);
      }
    }
  }

  /** The host or the drive letter of a file base. */
  lemma FileParts(b: Url)
    requires Normal(b) && b.scheme == FILE
    ensures PathReady(FRESH.(scheme := FILE, host := b.host))
    ensures b.path != [] ==> PathReady(FRESH.(scheme := FILE, path := [] + [b.path[0]]))
  {
    hide NameForm, SegmentForm, QueryForm, OpaqueForm;
    FileScheme();
    FileBase(b);
  }

  lemma FileHostTidies(t: Input, c: Config)
    requires Given(t) && Bare(c.url) && c.url.scheme == FILE && Within(c.buffer, t.cps)
    requires c.stage == FileHost && 0 <= c.pointer <= |t.cps|
    ensures Tidied(t, AfterFileHost(t, c))
  {
    hide Tidy, IsLowering, CodePointsOnly, PathReady, SegmentBuffer, SchemeText, IsWindowsDriveLetter, AfterFileHostName, Within;
    var chr, m := t.At(c.pointer), AfterFileHost(t, c);
    FileScheme();
    if chr.Some? && chr.value !in {SLASH, BACKSLASH, QUESTION, HASH} {
      BareTidy(t, m.config);
    } else if IsWindowsDriveLetter(c.buffer, false) {
      DriveBuffer(c.buffer);
      BareIsReady(c.url);
      PathTidy(t, m.config);
    } else if c.buffer == [] {
      FileHosted(Text([]));
      PathStartTidy(t, m.config);
    } else {
      FileNameTidies(t, c);
    }
  }

  lemma DriveBuffer(s: seq<int>)
    requires IsWindowsDriveLetter(s, false)
    ensures SegmentBuffer(true, s)
  {
  }

  lemma FileHosted(host: Host)
    requires HostForm(FRESH.(scheme := FILE, host := host))
    ensures PathReady(FRESH.(scheme := FILE, host := host))
  {
    hide HostForm;
    FileScheme();
  }

  lemma FileNameTidies(t: Input, c: Config)
    requires Given(t) && Bare(c.url) && c.url.scheme == FILE && Within(c.buffer, t.cps) && c.buffer != []
    requires c.stage == FileHost && 0 <= c.pointer <= |t.cps|
    ensures Tidied(t, AfterFileHostName(t, c))
  {
    hide Tidy, IsLowering, PathReady, HostReading, HostForm, SchemeText, IsSpecialScheme;
    BufferRange(t, c);
    FileScheme();
    var m := AfterFileHostName(t, c);
    if m.next.Loop? {
      FileReading(c.buffer, t.lower, BufferRead(t, c).host);
      FileHosted(m.config.url.host);
      PathStartTidy(t, m.config);
    }
  }

  lemma FileReading(text: seq<int>, lower: seq<int> -> seq<int>, host: Host)
    requires CodePointsOnly(text) && IsLowering(lower) && text != [] && HostReading(text, true, lower) == Read(host)
    ensures HostForm(FRESH.(scheme := FILE, host := LocalIsNone(host))) && LocalIsNone(host) != NoHost
  {
    hide IsLowering, HostReading, NameForm;
    ReadingForm(text, lower, FRESH.(scheme := HTTP, host := host));
  }

  // ---------- The path ----------

  lemma ReadyTail(u: Url)
    requires PathReady(u)
    ensures u.query == None && u.fragment == None && !u.cannotBeABase
  {
  }

  lemma PathStartTidies(t: Input, c: Config)
    requires t.override.None? && PathReady(c.url) && c.url.path == [] && c.url.host != NoHost
    requires c.stage == PathStart && c.buffer == [] && 0 <= c.pointer <= |t.cps|
    ensures Tidied(t, AfterPathStart(t, c))
  {
    hide Tidy, PathReady, SegmentBuffer, IsSpecialScheme, AfterOpaquePathStart, Normal;
    EmptyBuffer(IsSpecial(c.url));
    if IsSpecial(c.url) {
      PathTidy(t, AfterPathStart(t, c).config);
    } else {
      OpaqueStartTidies(t, c, t.At(c.pointer));
    }
  }

  lemma OpaqueStartTidies(t: Input, c: Config, chr: Option<int>)
    requires t.override.None? && PathReady(c.url) && c.url.path == [] && c.url.host != NoHost && !IsSpecial(c.url)
    requires c.stage == PathStart && c.buffer == [] && 0 <= c.pointer <= |t.cps| && chr == t.At(c.pointer)
    requires SegmentBuffer(IsSpecial(c.url), [])
    ensures Tidied(t, AfterOpaquePathStart(t, c, chr))
  {
    hide Tidy, PathReady, SegmentBuffer, IsSpecial, Normal;
    ReadyTail(c.url);
    var d := AfterOpaquePathStart(t, c, chr).config;
    if d.stage == Path {
      PathTidy(t, d);
    } else {
      EmptyPathNormal(c.url, d.url.query, d.url.fragment);
      NormalTidy(t, d);
    }
  }

  /** A host without a path is a whole URL outside the special schemes. */
  lemma EmptyPathNormal(u: Url, query: Option<seq<int>>, fragment: Option<seq<int>>)
    requires PathReady(u) && u.path == [] && u.host != NoHost && !IsSpecial(u)
    requires (query == None || query == Some([])) && (fragment == None || fragment == Some([]))
    ensures Normal(u.(query := query, fragment := fragment))
  {
    hide SchemeText, AuthorityForm, IsSpecialScheme;
    SameAuthority(u, u.(query := query, fragment := fragment));
    FileIsSpecial();
  }

  lemma PathTidies(t: Input, c: Config)
    requires t.override.None? && PathReady(c.url) && SegmentBuffer(IsSpecial(c.url), c.buffer)
    requires c.stage == Path && 0 <= c.pointer <= |t.cps|
    ensures Tidied(t, AfterPath(t, c))
  {
    hide Tidy, PathReady, SegmentBuffer, IsSpecialScheme, PercentEncode, AfterSegment;
    var chr, m := t.At(c.pointer), AfterPath(t, c);
    if chr.None? || IsSlash(chr, c.url) || chr.value in {QUESTION, HASH} {
      SegmentTidies(t, c);
    } else if m.next.Loop? {
      BufferGrows(IsSpecial(c.url), c.buffer, chr.value);
      PathTidy(t, m.config);
    }
  }

  lemma BufferGrows(special: bool, s: seq<int>, x: int)
    requires SegmentBuffer(special, s) && PercentEncode(x, PATH_SET).Some? && x != SLASH && (special ==> x != BACKSLASH)
    ensures SegmentBuffer(special, s + PercentEncode(x, PATH_SET).value)
  {
    hide PercentEncode;
    ProperSets();
    CharacterEncoded(x, PATH_SET);
    KeptConcat(s, PercentEncode(x, PATH_SET).value, PATH_SET);
  }

  lemma SegmentTidies(t: Input, c: Config)
    requires t.override.None? && PathReady(c.url) && SegmentBuffer(IsSpecial(c.url), c.buffer)
    requires c.stage == Path && 0 <= c.pointer <= |t.cps|
    requires var chr := t.At(c.pointer); chr.None? || IsSlash(chr, c.url) || chr.value in {QUESTION, HASH}
    ensures Tidied(t, AfterSegment(c, t.At(c.pointer)))
  {
    hide Tidy, PathReady, SegmentBuffer, IsSpecialScheme, PathEnded, Normal;
    var chr, d := t.At(c.pointer), AfterSegment(c, t.At(c.pointer)).config;
    var slash := IsSlash(chr, c.url);
    ReadyTail(c.url);
    PathEndedKeeps(c.url, c.buffer, slash, !slash);
    SegmentDone(c.url, c.buffer, slash);
    EmptyBuffer(IsSpecial(c.url));
    if slash {
      PathTidy(t, d);
    } else {
      PathDone(c.url, c.buffer, d.url.query, d.url.fragment);
      NormalTidy(t, d);
    }
  }

  /** A finished segment in normal form extends the path, in whichever way. */
  lemma SegmentDone(u: Url, s: seq<int>, slash: bool)
    requires PathReady(u) && SegmentBuffer(IsSpecial(u), s)
    ensures var v := WithSegment(u, s, slash); PathReady(v) && IsSpecial(v) == IsSpecial(u) && v.scheme == u.scheme
    ensures PathEnded(u, s, slash, false) == WithSegment(u, s, slash)
  {
    hide AllKept, SchemeText;
    var v := WithSegment(u, s, slash);
    WithSegmentKeeps(u, s, slash);
    HostDropped(u, v);
    forall i | 0 <= i < |v.path| ensures SegmentForm(IsSpecial(u), v.path[i]) { SegmentFormKept(u, s, slash, i); }
  }

  /** A file URL may lose its host to a drive letter. */
  lemma HostDropped(u: Url, v: Url)
    requires AuthorityForm(u) && v == u.(path := v.path, host := v.host)
    requires v.host == u.host || (u.scheme == FILE && v.host == Text([]))
    ensures AuthorityForm(v)
  {
    hide NameForm, AllKept, DefaultPort, IsSpecialScheme;
  }

  lemma SegmentFormKept(u: Url, s: seq<int>, slash: bool, i: nat)
    requires PathForm(IsSpecial(u), u.path) && SegmentBuffer(IsSpecial(u), s) && i < |WithSegment(u, s, slash).path|
    ensures SegmentForm(IsSpecial(u), WithSegment(u, s, slash).path[i])
  {
    hide AllKept, IsSpecialScheme;
    EmptySegment(IsSpecial(u));
    ShortenedPrefix(u);
    if u.scheme == FILE && u.path == [] && IsWindowsDriveLetter(s, false) { DriveSegment(IsSpecial(u), s); }
    hide Shortened, IsSingleDot, IsDoubleDot, IsWindowsDriveLetter, PathForm;
    SegmentOf(u, s, slash, i);
  }

  lemma DriveSegment(special: bool, s: seq<int>)
    requires IsWindowsDriveLetter(s, false)
    ensures SegmentForm(special, [s[0], COLON])
  {
    var d := [s[0], COLON];
    assert LowerText(d)[1] == COLON;
  }

  lemma SegmentOf(u: Url, s: seq<int>, slash: bool, i: nat)
    requires PathForm(IsSpecial(u), u.path) && SegmentBuffer(IsSpecial(u), s) && i < |WithSegment(u, s, slash).path|
    requires SegmentForm(IsSpecial(u), []) && Shortened(u) == u.(path := Shortened(u).path) && Shortened(u).path <= u.path
    requires u.scheme == FILE && u.path == [] && IsWindowsDriveLetter(s, false) ==> SegmentForm(IsSpecial(u), [s[0], COLON])
    ensures SegmentForm(IsSpecial(u), WithSegment(u, s, slash).path[i])
  {
    hide Shortened, IsSingleDot, IsDoubleDot, IsWindowsDriveLetter, AllKept, IsSpecialScheme;
  }

  /** At its end the path is whole. */
  lemma PathDone(u: Url, s: seq<int>, query: Option<seq<int>>, fragment: Option<seq<int>>)
    requires PathReady(u) && SegmentBuffer(IsSpecial(u), s)
    requires (query == None || query == Some([])) && (fragment == None || fragment == Some([]))
    ensures Normal(PathEnded(u, s, false, true).(query := query, fragment := fragment))
  {
    hide SchemeText, AuthorityForm, SegmentForm, SegmentBuffer, WithSegment, IsSpecialScheme, DropEmpty;
    SegmentDone(u, s, false);
    WithSegmentKeeps(u, s, false);
    var v := WithSegment(u, s, false);
    Dropped(v.path);
    SameAuthority(v, PathEnded(u, s, false, true).(query := query, fragment := fragment));
  }

  lemma {:induction false} Dropped(path: seq<seq<int>>)
    ensures var p := DropEmpty(path);
            && (|p| > 1 ==> p[0] != []) && |p| <= |path| && p == path[|path| - |p|..]
  {
    if |path| > 1 && path[0] == [] { Dropped(path[1..]); }
  }

  // ---------- Opaque path, query and fragment ----------

  lemma OpaqueTidies(t: Input, c: Config)
    requires Normal(c.url) && OpaqueUrl(c.url) && (c.url.path[0] == [] ==> t.At(c.pointer) != Some(SLASH))
    requires c.stage == CannotBeABase && c.buffer == [] && 0 <= c.pointer <= |t.cps|
    ensures Tidied(t, AfterCannotBeABase(t, c))
  {
    hide Tidy, Normal, OpaqueForm, IsSpecialScheme, PercentEncode;
    var chr, m := t.At(c.pointer), AfterCannotBeABase(t, c);
    if chr.None? {
      NormalTidy(t, m.config);
    } else if chr.value == QUESTION || chr.value == HASH {
      OpaqueTail(c.url);
      NormalTidy(t, m.config);
    } else if m.next.Loop? {
      OpaqueGrows(c.url, chr.value);
      OpaqueTidy(t, m.config);
    }
  }

  lemma OpaqueTail(u: Url)
    requires Normal(u)
    ensures Normal(u.(query := Some([]))) && Normal(u.(fragment := Some([])))
  {
    hide SchemeText, AuthorityForm, IsSpecialScheme, OpaqueUrl, PathUrl;
    TailChanged(u, Some([]), u.fragment);
    TailChanged(u, u.query, Some([]));
  }

  lemma OpaqueGrows(u: Url, x: int)
    requires Normal(u) && OpaqueUrl(u) && PercentEncode(x, C0_SET).Some? && x !in {QUESTION, HASH}
    requires u.path[0] == [] ==> x != SLASH
    ensures var v := u.(path := FirstGrown(u.path, PercentEncode(x, C0_SET).value));
            Normal(v) && OpaqueUrl(v) && v.path[0] != []
  {
    hide PercentEncode, SchemeText, AuthorityForm, IsSpecialScheme, TailForm;
    var v := u.(path := FirstGrown(u.path, PercentEncode(x, C0_SET).value));
    ProperSets();
    CharacterEncoded(x, C0_SET);
    KeptConcat(u.path[0], PercentEncode(x, C0_SET).value, C0_SET);
    SameAuthority(u, v);
    SameTail(u, v);
  }

  lemma SameTail(u: Url, v: Url)
    requires TailForm(u) && v.query == u.query && v.fragment == u.fragment && v.scheme == u.scheme
    ensures TailForm(v)
  {
    hide IsSpecialScheme, QueryForm;
  }

  lemma QueryTidies(t: Input, c: Config)
    requires t.override.None? && Normal(c.url) && c.url.query.Some?
    requires c.stage == Query && c.buffer == [] && 0 <= c.pointer <= |t.cps|
    ensures Tidied(t, AfterQuery(t, c))
  {
    hide Tidy, Normal, IsSpecialScheme, QueryEncode;
    var chr, m := t.At(c.pointer), AfterQuery(t, c);
    if chr == Some(HASH) {
      OpaqueTail(c.url);
      NormalTidy(t, m.config);
    } else if m.next.Loop? {
      if chr.Some? { QueryGrows(c.url, chr.value); }
      NormalTidy(t, m.config);
    }
  }

  lemma QueryGrows(u: Url, x: int)
    requires Normal(u) && u.query.Some? && QueryEncode(x, IsSpecial(u)).Some?
    ensures Normal(u.(query := PlusText(u.query, QueryEncode(x, IsSpecial(u)).value)))
  {
    hide SchemeText, AuthorityForm, IsSpecialScheme, OpaqueUrl, PathUrl, PercentEncode;
    var e := QueryEncode(x, IsSpecial(u)).value;
    ProperSets();
    if PercentEncode(x, C0_SET).Some? { CharacterEncoded(x, C0_SET); }
    KeptConcat(u.query.value, e, C0_SET);
    TailChanged(u, PlusText(u.query, e), u.fragment);
  }

  lemma FragmentTidies(t: Input, c: Config)
    requires Normal(c.url) && c.url.fragment.Some? && c.stage == Fragment && c.buffer == [] && 0 <= c.pointer <= |t.cps|
    ensures Tidied(t, AfterFragment(t, c))
  {
    hide Tidy, Normal, PercentEncode;
    var chr, m := t.At(c.pointer), AfterFragment(t, c);
    if m.next.Loop? {
      if chr.Some? { FragmentGrows(c.url, chr.value); }
      NormalTidy(t, m.config);
    }
  }

  lemma FragmentGrows(u: Url, x: int)
    requires Normal(u) && u.fragment.Some? && PercentEncode(x, FRAGMENT_SET).Some?
    ensures Normal(u.(fragment := PlusText(u.fragment, PercentEncode(x, FRAGMENT_SET).value)))
  {
    hide SchemeText, AuthorityForm, IsSpecialScheme, OpaqueUrl, PathUrl, PercentEncode, QueryForm;
    ProperSets();
    CharacterEncoded(x, FRAGMENT_SET);
    KeptConcat(u.fragment.value, PercentEncode(x, FRAGMENT_SET).value, FRAGMENT_SET);
    TailChanged(u, u.query, PlusText(u.fragment, PercentEncode(x, FRAGMENT_SET).value));
  }

  // ---------- The whole run ----------

  /** What the invariants of the two layers say together of a configuration inside the text. */
  lemma HeldHere(t: Input, c: Config)
    requires Given(t) && Ready(t, c) && Tidy(t, c) && c.pointer <= |t.cps|
    ensures 0 <= c.pointer && t.override.None? && (!KeepsBuffer(c.stage) ==> c.buffer == [])
    ensures StageOk(c.stage, c.url, c.buffer, t.base) && (CollectsText(c.stage) ==> Within(c.buffer, t.cps))
    ensures c.stage == Authority ==> BufferBehind(t, c)
  {
    hide StageOk, Tidy, Within, IsLowering, CodePointsOnly, Normal, UrlOk;
    if t.base.Some? { NormalOk(t.base.value); }
  }

  lemma FrontTidies(t: Input, c: Config)
    requires Given(t) && Ready(t, c) && Tidy(t, c) && c.pointer <= |t.cps| && Rank(c.stage) >= 10
    ensures Tidied(t, After(t, c))
  {
    hide Normal, IsLowering, CodePointsOnly, Ready, BufferBehind, SchemeText, Named, IsSpecialScheme,
      AfterSchemeStart, AfterSchemeChar, AfterNoScheme, AfterSpecialRelativeOrAuthority, AfterPathOrAuthority,
      AfterRelative, AfterRelativeSlash, AfterSpecialAuthoritySlashes, AfterSpecialAuthorityIgnoreSlashes,
      AfterAuthority;
    HeldHere(t, c);
    match c.stage {
      case SchemeStart => SchemeStartTidies(t, c);
      case Scheme => SchemeTidies(t, c);
      case NoScheme => NoSchemeTidies(t, c);
      case SpecialRelativeOrAuthority => SlashStates(t, c);
      case PathOrAuthority => PathOrAuthorityTidies(t, c);
      case Relative => RelativeTidies(t, c);
      case RelativeSlash => RelativeSlashTidies(t, c);
      case SpecialAuthoritySlashes => SlashStates(t, c);
      case SpecialAuthorityIgnoreSlashes => IgnoreSlashesTidies(t, c);
      case Authority => AuthorityTidies(t, c);
    }
  }

  lemma BackTidies(t: Input, c: Config)
    requires Given(t) && Ready(t, c) && Tidy(t, c) && c.pointer <= |t.cps| && Rank(c.stage) < 10
    ensures Tidied(t, After(t, c))
  {
    hide Normal, IsLowering, CodePointsOnly, Ready, BufferBehind, PathReady, Named, IsSpecialScheme, Hosted,
      OpaqueUrl, SegmentBuffer, AfterHost, AfterPort, AfterFile, AfterFileSlash, AfterFileHost, AfterPathStart,
      AfterPath, AfterCannotBeABase, AfterQuery, AfterFragment;
    HeldHere(t, c);
    match c.stage {
      case HostName => HostTidies(t, c);
      case HostOnly => { assert false; }
      case Port => PortTidies(t, c);
      case File => FileTidies(t, c);
      case FileSlash => FileSlashTidies(t, c);
      case FileHost => FileHostTidies(t, c);
      case PathStart => PathStartTidies(t, c);
      case Path => PathTidies(t, c);
      case CannotBeABase => OpaqueTidies(t, c);
      case Query => QueryTidies(t, c);
      case Fragment => FragmentTidies(t, c);
    }
  }

  /** Every turn keeps what has been written in normal form. */
  lemma TurnTidies(t: Input, c: Config, m: Move)
    requires Given(t) && Ready(t, c) && Tidy(t, c) && c.pointer <= |t.cps| && Turns(t, c, m)
    ensures Tidied(t, m)
  {
    hide Given, Ready, Tidy, After;
    if Rank(c.stage) >= 10 { FrontTidies(t, c); } else { BackTidies(t, c); }
  }

  lemma TurnReady(t: Input, c: Config, d: Config)
    requires Ready(t, c) && c.pointer <= |t.cps| && Turns(t, c, Move(Loop, d))
    ensures Ready(t, d)
  {
    hide Ready, After;
    TurnKeeps(t, c, Move(Loop, d));
  }

  lemma NoParsedStop(t: Input, c: Config, o: Outcome, e: Config)
    requires t.override.None? && Ready(t, c) && c.pointer <= |t.cps| && Turns(t, c, Move(Stop(o), e))
    ensures o != Parsed
  {
    hide Ready, After;
    TurnKeeps(t, c, Move(Stop(o), e));
  }

  lemma {:induction false} RunTidies(t: Input, c: Config, trace: seq<Config>, o: Outcome, e: Config)
    requires Given(t) && Ready(t, c) && Tidy(t, c) && IsParse(t, c, trace, o, e)
    ensures o == Parsed ==> Normal(e.url)
    decreases |trace|
  {
    hide Given, Ready, Tidy, After, Normal;
    if |trace| > 1 {
      TraceRest(t, trace, o, e);
      TurnReady(t, c, trace[1]);
      TurnTidies(t, c, Move(Loop, trace[1]));
      RunTidies(t, trace[1], trace[1..], o, e);
    } else if c.pointer > |t.cps| {
      TidyEnd(t, c);
    } else if o == Parsed {
      GivenPlain(t);
      NoParsedStop(t, c, o, e);
    }
  }

  lemma GivenPlain(t: Input)
    requires Given(t)
    ensures t.override.None?
  {
  }

  lemma TidyEnd(t: Input, c: Config)
    requires Tidy(t, c) && c.pointer > |t.cps|
    ensures Normal(c.url)
  {
    hide Normal;
  }

  /** Every URL that the parser returns for a whole text is in normal form. */
  lemma OutputNormal(t: Input, o: Outcome, e: Config)
    requires Given(t) && Ends(t, Fresh(), o, e) && o == Parsed
    ensures Normal(e.url)
  {
    hide Ready, Normal, IsParse, IsLowering, CodePointsOnly;
    var trace :| IsParse(t, Fresh(), trace, o, e);
    FreshReady(t);
    FreshTidy(t);
    RunTidies(t, Fresh(), trace, o, e);
  }

  lemma FreshTidy(t: Input)
    ensures Tidy(t, Fresh())
  {
    hide Normal;
  }
}
