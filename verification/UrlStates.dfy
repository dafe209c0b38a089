/**
 The state machine of the URL parser of js/secsdk-lastest.umd.js (section 4.4 of the WHATWG
 URL Standard): 21 states over the code points of the input, with a pointer that SCHEME
 resets and AUTHORITY moves back.  What one turn does is a function of the configuration.
 */
module UrlStates {
  import opened Wrappers
  import opened UrlRecord
  import opened UrlHost
  import Ip = IpAddress
  import Uri

  // ---------- States, outcomes and the measure ----------

  datatype Stage =
    | SchemeStart | Scheme | NoScheme | SpecialRelativeOrAuthority | PathOrAuthority
    | Relative | RelativeSlash | SpecialAuthoritySlashes | SpecialAuthorityIgnoreSlashes
    | Authority | HostName | HostOnly | Port | File | FileSlash | FileHost
    | PathStart | Path | CannotBeABase | Query | Fragment

  /** The order in which states can follow each other: a state is left only for one of lower rank. */
  function Rank(s: Stage): nat {
    match s
    case SchemeStart => 18
    case Scheme => 17
    case NoScheme => 16
    case SpecialRelativeOrAuthority => 15
    case Relative => 14
    case RelativeSlash => 13
    case SpecialAuthoritySlashes => 12
    case SpecialAuthorityIgnoreSlashes => 11
    case PathOrAuthority => 11
    case Authority => 10
    case HostName => 9
    case HostOnly => 9
    case Port => 6
    case File => 8
    case FileSlash => 7
    case FileHost => 6
    case PathStart => 5
    case Path => 4
    case CannotBeABase => 3
    case Query => 2
    case Fragment => 1
  }

  /** The states that may be entered or left with text in the buffer. */
  predicate KeepsBuffer(s: Stage) {
    s.Scheme? || s.Authority? || s.HostName? || s.HostOnly? || s.Port? || s.FileHost? || s.Path?
  }

  datatype Failure = InvalidAuthority | InvalidScheme | InvalidHost | InvalidPort

  /** Native exceptions: a length below 0, a property of undefined, encodeURIComponent, the Punycode overflow. */
  datatype Exception = EmptyBasePath | MissingBase | LoneSurrogate | PunycodeOverflow

  datatype Outcome = Parsed | Failed(failure: Failure) | Thrown(exception: Exception)

  /** What one turn of the loop does: go round again, or return. */
  datatype Next = Loop | Stop(outcome: Outcome)

  /** No host yet: the parts the authority and path states fill in are still empty. */
  predicate Blank(u: Url) {
    u.host == NoHost && u.port == None && u.path == [] && u.query == None && u.fragment == None && !u.cannotBeABase
  }

  /** What a parse without override has established when it stands in a state. */
  predicate StageOk(stage: Stage, u: Url, buffer: seq<int>, base: Option<Url>) {
    match stage
    case SchemeStart => u.scheme == [] && Blank(u) && buffer == []
    case Scheme => u.scheme == [] && Blank(u) && buffer != []
    case NoScheme => u.scheme == [] && Blank(u)
    case SpecialRelativeOrAuthority =>
      Blank(u) && IsSpecial(u) && u.scheme != FILE && base.Some? && base.value.scheme == u.scheme
    case PathOrAuthority => Blank(u) && u.scheme != [] && !IsSpecial(u)
    case Relative => Blank(u) && base.Some? && base.value.scheme != FILE && !base.value.cannotBeABase
    case RelativeSlash => Blank(u) && base.Some? && u.scheme == base.value.scheme && u.scheme != FILE
    case SpecialAuthoritySlashes => Blank(u) && IsSpecial(u) && u.scheme != FILE
    case SpecialAuthorityIgnoreSlashes => Blank(u) && IsSpecial(u) && u.scheme != FILE
    case Authority => Blank(u) && u.scheme != [] && u.scheme != FILE
    case HostName => Blank(u) && u.scheme != [] && u.scheme != FILE
    case HostOnly => Blank(u) && u.scheme != [] && u.scheme != FILE
    case Port => HostOk(u) && u.scheme != [] && u.port == None && !u.cannotBeABase
    case File => Blank(u)
    case FileSlash => Blank(u) && u.scheme == FILE
    case FileHost => Blank(u) && u.scheme == FILE
    case PathStart => HostOk(u) && PortOk(u) && u.scheme != [] && !u.cannotBeABase
    case Path => HostOk(u) && PortOk(u) && u.scheme != [] && !u.cannotBeABase
    case CannotBeABase => UrlOk(u)
    case Query => UrlOk(u)
    case Fragment => UrlOk(u)
  }

  // ---------- What a parse has established, state by state ----------

  /** StageOk of the stage a step starts in, with a well-formed base. */
  predicate Held(stage: Stage, u: Url, buffer: seq<int>, base: Option<Url>) {
    StageOk(stage, u, buffer, base) && (base.Some? ==> UrlOk(base.value))
  }

  lemma SchemeStartKeeps(u: Url, base: Option<Url>, c: int)
    ensures Held(SchemeStart, u, [], base) ==> StageOk(Scheme, u, [c], base) && StageOk(NoScheme, u, [], base)
  {
  }

  lemma SchemeKeeps(u: Url, buffer: seq<int>, base: Option<Url>, c: int)
    ensures Held(Scheme, u, buffer, base) ==> StageOk(Scheme, u, buffer + [c], base) && StageOk(NoScheme, u, [], base)
  {
  }

  /** Where a finished scheme leads. */
  function AfterScheme(u: Url, base: Option<Url>, slash: bool): Stage {
    if u.scheme == FILE then File
    else if IsSpecial(u) && base.Some? && base.value.scheme == u.scheme then SpecialRelativeOrAuthority
    else if IsSpecial(u) then SpecialAuthoritySlashes
    else if slash then PathOrAuthority
    else CannotBeABase
  }

  /** Without a slash behind the colon the path is one opaque segment. */
  function SchemeUrl(u: Url, to: Stage): Url {
    if to == CannotBeABase then u.(cannotBeABase := true, path := u.path + [[]]) else u
  }

  lemma FinishedSchemeKeeps(u: Url, buffer: seq<int>, base: Option<Url>, slash: bool)
    ensures var v := u.(scheme := buffer);
            var to := AfterScheme(v, base, slash);
            && (Held(Scheme, u, buffer, base) ==> StageOk(to, SchemeUrl(v, to), [], base))
            && Rank(to) < Rank(Scheme) && !KeepsBuffer(to)
  {
    hide DefaultPort;
  }

  lemma NoSchemeKeeps(u: Url, base: Option<Url>)
    requires base.Some?
    ensures var b := base.value;
            Held(NoScheme, u, [], base) ==>
              if b.cannotBeABase then
                StageOk(Fragment, u.(scheme := b.scheme, path := b.path, query := b.query, fragment := Some([]),
                    cannotBeABase := true), [], base)
              else StageOk(if b.scheme == FILE then File else Relative, u, [], base)
  {
    hide DefaultPort;
  }

  lemma SlashStatesKeep(u: Url, base: Option<Url>)
    ensures Held(SpecialRelativeOrAuthority, u, [], base) ==>
      StageOk(SpecialAuthorityIgnoreSlashes, u, [], base) && StageOk(Relative, u, [], base)
    ensures Held(PathOrAuthority, u, [], base) ==> StageOk(Authority, u, [], base) && StageOk(Path, u, [], base)
    ensures Held(SpecialAuthoritySlashes, u, [], base) ==> StageOk(SpecialAuthorityIgnoreSlashes, u, [], base)
    ensures Held(SpecialAuthorityIgnoreSlashes, u, [], base) ==> StageOk(Authority, u, [], base)
  {
    hide DefaultPort;
  }

  /** The parts a relative reference takes from its base. */
  function FromBase(u: Url, b: Url, query: Option<seq<int>>, fragment: Option<seq<int>>): Url {
    u.(username := b.username, password := b.password, host := b.host, port := b.port, path := b.path,
       query := query, fragment := fragment)
  }

  lemma RelativeKeeps(u: Url, base: Option<Url>, w: Url)
    requires base.Some?
    requires w == FromBase(u.(scheme := base.value.scheme), base.value, w.query, w.fragment).(path := w.path)
    ensures Held(Relative, u, [], base) && w.query == u.query && w.fragment == u.fragment ==> StageOk(Path, w, [], base)
    ensures Held(Relative, u, [], base) && w.path == base.value.path ==>
      UrlOk(w) && StageOk(Query, w, [], base) && StageOk(Fragment, w, [], base)
  {
    hide DefaultPort, IsSpecialScheme;
  }

  lemma RelativeToSlash(u: Url, base: Option<Url>)
    requires base.Some?
    ensures Held(Relative, u, [], base) ==> StageOk(RelativeSlash, u.(scheme := base.value.scheme), [], base)
  {
  }

  lemma RelativeSlashKeeps(u: Url, base: Option<Url>)
    requires base.Some?
    ensures var b := base.value;
            Held(RelativeSlash, u, [], base) ==>
              && (IsSpecial(u) ==> StageOk(SpecialAuthorityIgnoreSlashes, u, [], base))
              && StageOk(Authority, u, [], base)
              && StageOk(Path, u.(username := b.username, password := b.password, host := b.host, port := b.port), [], base)
  {
    hide DefaultPort, IsSpecialScheme;
  }

  lemma AuthorityKeeps(u: Url, buffer: seq<int>, base: Option<Url>, v: Url, text: seq<int>)
    requires v == u.(username := v.username, password := v.password)
    ensures Held(Authority, u, buffer, base) ==> StageOk(Authority, v, text, base) && StageOk(HostName, u, [], base)
  {
  }

  lemma HostKeeps(stage: Stage, u: Url, buffer: seq<int>, base: Option<Url>, v: Url, text: seq<int>)
    requires stage == HostName || stage == HostOnly
    requires v == u.(host := v.host) && v.host != NoHost && (IsSpecial(u) ==> v.host != Text([]))
    ensures Held(stage, u, buffer, base) ==>
      StageOk(stage, u, text, base) && StageOk(Port, v, [], base) && StageOk(PathStart, v, [], base)
  {
    hide DefaultPort, IsSpecialScheme;
  }

  lemma PortKeeps(u: Url, buffer: seq<int>, base: Option<Url>, port: Option<int>, text: seq<int>)
    requires port.Some? ==> 0 <= port.value <= 0xFFFF && (IsSpecial(u) ==> port != DefaultPort(u.scheme))
    ensures Held(Port, u, buffer, base) ==>
      StageOk(Port, u, text, base) && StageOk(PathStart, u, [], base) && StageOk(PathStart, u.(port := port), [], base)
  {
    DefaultPortOnlySpecial(u.scheme);
  }

  lemma FileKeeps(u: Url, base: Option<Url>, w: Url)
    requires w == u.(scheme := FILE, host := w.host, path := w.path, query := w.query, fragment := w.fragment)
    ensures Held(File, u, [], base) ==> StageOk(Path, w, [], base)
    ensures Held(File, u, [], base) && base.Some? && base.value.scheme == FILE && w.host == base.value.host
            && w.path == base.value.path ==>
      UrlOk(w) && StageOk(Query, w, [], base) && StageOk(Fragment, w, [], base)
  {
    hide DefaultPort;
  }

  lemma FileToSlash(u: Url, base: Option<Url>)
    ensures Held(File, u, [], base) ==> StageOk(FileSlash, u.(scheme := FILE), [], base)
  {
  }

  lemma FileHostKeeps(u: Url, buffer: seq<int>, base: Option<Url>, host: Host, path: seq<seq<int>>, text: seq<int>)
    ensures Held(FileSlash, u, [], base) ==>
      && StageOk(FileHost, u, [], base) && StageOk(Path, u, [], base)
      && StageOk(Path, u.(path := path), [], base) && StageOk(Path, u.(host := host), [], base)
    ensures Held(FileHost, u, buffer, base) ==>
      && StageOk(FileHost, u, text, base) && StageOk(Path, u, buffer, base)
      && StageOk(PathStart, u.(host := host), [], base)
  {
    hide DefaultPort;
  }

  lemma PathStartKeeps(u: Url, base: Option<Url>)
    ensures Held(PathStart, u, [], base) ==> StageOk(Path, u, [], base)
    ensures Held(PathStart, u, [], base) && !IsSpecial(u) ==>
      && StageOk(Query, u.(query := Some([])), [], base) && StageOk(Fragment, u.(fragment := Some([])), [], base) && UrlOk(u)
  {
    hide DefaultPort, IsSpecialScheme;
  }

  lemma PathKeeps(u: Url, buffer: seq<int>, base: Option<Url>, v: Url, text: seq<int>)
    requires v == u.(path := v.path, host := v.host) && (v.host == u.host || u.scheme == FILE)
    ensures Held(Path, u, buffer, base) ==> StageOk(Path, u, text, base) && StageOk(Path, v, [], base)
    ensures Held(Path, u, buffer, base) && v.path != [] ==>
      && StageOk(Query, v.(query := Some([])), [], base) && StageOk(Fragment, v.(fragment := Some([])), [], base) && UrlOk(v)
  {
    hide DefaultPort, IsSpecialScheme;
    FileIsSpecial();
  }

  lemma TailKeeps(stage: Stage, u: Url, base: Option<Url>, v: Url)
    requires stage == CannotBeABase || stage == Query || stage == Fragment
    requires v == u.(path := v.path, query := v.query, fragment := v.fragment) && (v.path == u.path || v.path != [])
    ensures Held(stage, u, [], base) ==>
      UrlOk(v) && StageOk(CannotBeABase, v, [], base) && StageOk(Query, v, [], base) && StageOk(Fragment, v, [], base)
  {
    hide DefaultPort, IsSpecialScheme;
  }

  lemma NoRelativeWithoutBase(u: Url)
    ensures !StageOk(Relative, u, [], None) && !StageOk(RelativeSlash, u, [], None)
  {
  }

  // ---------- Configurations ----------

  /** What one call of `parse` is given; `lower` is String.prototype.toLowerCase. */
  datatype Input = Input(cps: seq<int>, base: Option<Url>, override: Option<Stage>, lower: seq<int> -> seq<int>) {
    function At(i: int): Option<int> { if 0 <= i < |cps| then Some(cps[i]) else None }

    /** A whole URL is parsed, against no base or a well-formed one. */
    predicate Trusted() { override.None? && (base.Some? ==> UrlOk(base.value)) }

    predicate HasBase(scheme: seq<int>) { base.Some? && base.value.scheme == scheme }
  }

  /** The URL under construction and the variables of the loop. */
  datatype Config = Config(
    url: Url, stage: Stage, pointer: int, buffer: seq<int>, seenAt: bool, seenBracket: bool, seenPasswordToken: bool)

  datatype Move = Move(next: Next, config: Config)

  function Go(c: Config, to: Stage, moved: int, u: Url, text: seq<int>): Move {
    Move(Loop, c.(stage := to, pointer := c.pointer + moved, url := u, buffer := text))
  }

  function Halt(c: Config, o: Outcome): Move { Move(Stop(o), c) }

  /** The same move; after an exception the configuration does not matter. */
  predicate Agrees(m: Move, n: Move) {
    m.next == n.next && (m.config == n.config || (m.next.Stop? && m.next.outcome.Thrown?))
  }

  /** End of the input, or one of "/", "?", "#" - and "\\" in a special URL. */
  predicate AtDelimiter(chr: Option<int>, u: Url) {
    chr.None? || chr.value in {SLASH, QUESTION, HASH} || (chr.value == BACKSLASH && IsSpecial(u))
  }

  predicate IsSlash(chr: Option<int>, u: Url) { chr == Some(SLASH) || (chr == Some(BACKSLASH) && IsSpecial(u)) }

  // ---------- One turn, state by state ----------

  function AfterSchemeStart(t: Input, c: Config): Move {
    var chr := t.At(c.pointer);
    if chr.Some? && IsAlpha(chr.value) then Go(c, Scheme, 1, c.url, c.buffer + [LowerAscii(chr.value)])
    else if t.override.None? then Go(c, NoScheme, 0, c.url, c.buffer)
    else Halt(c, Failed(InvalidScheme))
  }

  function AfterSchemeChar(t: Input, c: Config): Move {
    var chr := t.At(c.pointer);
    if chr.Some? && IsSchemeChar(chr.value) then Go(c, Scheme, 1, c.url, c.buffer + [LowerAscii(chr.value)])
    else if chr == Some(COLON) then
      if t.override.None? then AfterColon(t, c)
      else Halt(c.(url := Overridden(c.url, c.buffer)), Parsed)
    else if t.override.None? then Go(c, NoScheme, -c.pointer, c.url, [])
    else Halt(c, Failed(InvalidScheme))
  }

  /** The buffer becomes the scheme, which decides how the rest is read. */
  function AfterColon(t: Input, c: Config): Move {
    var u := c.url.(scheme := c.buffer);
    var to := AfterScheme(u, t.base, t.At(c.pointer + 1) == Some(SLASH));
    Go(c, to, if to == PathOrAuthority then 2 else 1, SchemeUrl(u, to), [])
  }

  function AfterNoScheme(t: Input, c: Config): Move {
    var chr := t.At(c.pointer);
    if t.base.None? || (t.base.value.cannotBeABase && chr != Some(HASH)) then Halt(c, Failed(InvalidScheme))
    else if t.base.value.cannotBeABase then
      Go(c, Fragment, 1, c.url.(scheme := t.base.value.scheme, path := t.base.value.path, query := t.base.value.query,
                                fragment := Some([]), cannotBeABase := true), c.buffer)
    else Go(c, if t.base.value.scheme == FILE then File else Relative, 0, c.url, c.buffer)
  }

  function AfterSpecialRelativeOrAuthority(t: Input, c: Config): Move {
    if t.At(c.pointer) == Some(SLASH) && t.At(c.pointer + 1) == Some(SLASH) then
      Go(c, SpecialAuthorityIgnoreSlashes, 2, c.url, c.buffer)
    else Go(c, Relative, 0, c.url, c.buffer)
  }

  function AfterPathOrAuthority(t: Input, c: Config): Move {
    if t.At(c.pointer) == Some(SLASH) then Go(c, Authority, 1, c.url, c.buffer) else Go(c, Path, 0, c.url, c.buffer)
  }

  function AfterRelative(t: Input, c: Config): Move {
    if t.base.None? then Halt(c, Thrown(MissingBase))
    else
      var chr, b, u := t.At(c.pointer), t.base.value, c.url.(scheme := t.base.value.scheme);
      if IsSlash(chr, u) then Go(c, RelativeSlash, 1, u, c.buffer) else AfterReference(c, chr, b, u)
  }

  /** A reference without a slash takes the base's parts over. */
  function AfterReference(c: Config, chr: Option<int>, b: Url, u: Url): Move {
    if chr.None? then Go(c, Relative, 1, FromBase(u, b, b.query, u.fragment), c.buffer)
    else if chr.value == QUESTION then Go(c, Query, 1, FromBase(u, b, Some([]), u.fragment), c.buffer)
    else if chr.value == HASH then Go(c, Fragment, 1, FromBase(u, b, b.query, Some([])), c.buffer)
    // Lowering the length of an empty array below zero throws.
    else if b.path == [] then Halt(c, Thrown(EmptyBasePath))
    else Go(c, Path, 0, FromBase(u, b, u.query, u.fragment).(path := b.path[..|b.path| - 1]), c.buffer)
  }

  function AfterRelativeSlash(t: Input, c: Config): Move {
    var chr := t.At(c.pointer);
    if IsSpecial(c.url) && (chr == Some(SLASH) || chr == Some(BACKSLASH)) then
      Go(c, SpecialAuthorityIgnoreSlashes, 1, c.url, c.buffer)
    else if chr == Some(SLASH) then Go(c, Authority, 1, c.url, c.buffer)
    else if t.base.None? then Halt(c, Thrown(MissingBase))
    else
      var b := t.base.value;
      Go(c, Path, 0, c.url.(username := b.username, password := b.password, host := b.host, port := b.port), c.buffer)
  }

  /** The source looks for a second slash in the buffer, which is empty here, so it stays where it is. */
  function AfterSpecialAuthoritySlashes(c: Config): Move { Go(c, SpecialAuthorityIgnoreSlashes, 0, c.url, c.buffer) }

  function AfterSpecialAuthorityIgnoreSlashes(t: Input, c: Config): Move {
    var chr := t.At(c.pointer);
    if chr == Some(SLASH) || chr == Some(BACKSLASH) then Go(c, SpecialAuthorityIgnoreSlashes, 1, c.url, c.buffer)
    else Go(c, Authority, 0, c.url, c.buffer)
  }

  function AfterAuthority(t: Input, c: Config): Move {
    var chr := t.At(c.pointer);
    if chr == Some(AT) then AfterAt(c)
    else if AtDelimiter(chr, c.url) then
      if c.seenAt && c.buffer == [] then Halt(c, Failed(InvalidAuthority))
      else Go(c, HostName, -|c.buffer|, c.url, [])
    else Go(c, Authority, 1, c.url, c.buffer + [chr.value])
  }

  /** An "@" in the userinfo itself is written out. */
  function AtText(c: Config): seq<int> { if c.seenAt then ENCODED_AT + c.buffer else c.buffer }

  /** Of the text in front of an "@" the part up to the first ":" of all goes to the username, the rest to the password. */
  function AfterAt(c: Config): Move {
    var text := AtText(c);
    var k := PasswordAt(text, c.seenPasswordToken);
    match (Encodes(text[..k], USERINFO_SET), Encodes(text[PasswordFrom(text, c.seenPasswordToken)..], USERINFO_SET))
    case (Some(name), Some(password)) =>
      var u := c.url.(username := c.url.username + name, password := c.url.password + password);
      var d := c.(seenAt := true, seenPasswordToken := c.seenPasswordToken || k < |text|);
      Go(d, Authority, 1, u, [])
    case _ => Halt(c, Thrown(LoneSurrogate))
  }

  function AfterPort(t: Input, c: Config): Move {
    var chr, port := t.At(c.pointer), Ip.Value(c.buffer, 10);
    if chr.Some? && Ip.IsDigit(chr.value) then Go(c, Port, 1, c.url, c.buffer + [chr.value])
    else if !AtDelimiter(chr, c.url) && t.override.None? then Halt(c, Failed(InvalidPort))
    else if c.buffer != [] && port > 0xFFFF then Halt(c, Failed(InvalidPort))
    else
      var u := if c.buffer == [] then c.url else c.url.(port := KeptPort(c.url, port));
      if t.override.Some? then Halt(c.(url := u, buffer := []), Parsed) else Go(c, PathStart, 0, u, [])
  }

  predicate DriveAhead(t: Input, i: int) { 0 <= i <= |t.cps| && StartsWithWindowsDriveLetter(t.cps[i..]) }

  function AfterFile(t: Input, c: Config): Move {
    var chr, u := t.At(c.pointer), c.url.(scheme := FILE);
    if chr == Some(SLASH) || chr == Some(BACKSLASH) then Go(c, FileSlash, 1, u, c.buffer)
    else if !t.HasBase(FILE) then Go(c, Path, 0, u, c.buffer)
    else
      var b := t.base.value;
      var v := u.(host := b.host, path := b.path);
      if chr.None? then Go(c, File, 1, v.(query := b.query), c.buffer)
      else if chr.value == QUESTION then Go(c, Query, 1, v.(query := Some([])), c.buffer)
      else if chr.value == HASH then Go(c, Fragment, 1, v.(query := b.query, fragment := Some([])), c.buffer)
      else Go(c, Path, 0, if DriveAhead(t, c.pointer) then u else Shortened(v), c.buffer)
  }

  function AfterFileSlash(t: Input, c: Config): Move {
    var chr := t.At(c.pointer);
    if chr == Some(SLASH) || chr == Some(BACKSLASH) then Go(c, FileHost, 1, c.url, c.buffer)
    else if !t.HasBase(FILE) || DriveAhead(t, c.pointer) then Go(c, Path, 0, c.url, c.buffer)
    else
      var b := t.base.value;
      // The first segment of an empty path has no length to read.
      if b.path == [] then Halt(c, Thrown(EmptyBasePath))
      else if IsWindowsDriveLetter(b.path[0], true) then Go(c, Path, 0, c.url.(path := c.url.path + [b.path[0]]), c.buffer)
      else Go(c, Path, 0, c.url.(host := b.host), c.buffer)
  }

  function AfterPathStart(t: Input, c: Config): Move {
    var chr := t.At(c.pointer);
    if IsSpecial(c.url) then
      Go(c, Path, if chr == Some(SLASH) || chr == Some(BACKSLASH) then 1 else 0, c.url, c.buffer)
    else AfterOpaquePathStart(t, c, chr)
  }

  /** Only a special URL always has a path. */
  function AfterOpaquePathStart(t: Input, c: Config, chr: Option<int>): Move {
    if chr.None? then Go(c, PathStart, 1, c.url, c.buffer)
    else if t.override.None? && chr.value == QUESTION then Go(c, Query, 1, c.url.(query := Some([])), c.buffer)
    else if t.override.None? && chr.value == HASH then Go(c, Fragment, 1, c.url.(fragment := Some([])), c.buffer)
    else Go(c, Path, if chr.value == SLASH then 1 else 0, c.url, c.buffer)
  }

  function AfterPath(t: Input, c: Config): Move {
    var chr := t.At(c.pointer);
    if chr.None? || IsSlash(chr, c.url) || (t.override.None? && chr.value in {QUESTION, HASH}) then AfterSegment(c, chr)
    else
      match PercentEncode(chr.value, PATH_SET)
      case None => Halt(c, Thrown(LoneSurrogate))
      case Some(e) => Go(c, Path, 1, c.url, c.buffer + e)
  }

  /** A segment has ended; the path goes on only after a slash. */
  function AfterSegment(c: Config, chr: Option<int>): Move {
    var u := PathEnded(c.url, c.buffer, IsSlash(chr, c.url), chr.None? || chr.value in {QUESTION, HASH});
    if chr == Some(QUESTION) then Go(c, Query, 1, u.(query := Some([])), [])
    else if chr == Some(HASH) then Go(c, Fragment, 1, u.(fragment := Some([])), [])
    else Go(c, Path, 1, u, [])
  }

  function AfterCannotBeABase(t: Input, c: Config): Move {
    var chr := t.At(c.pointer);
    if chr.None? then Go(c, CannotBeABase, 1, c.url, c.buffer)
    else if chr.value == QUESTION then Go(c, Query, 1, c.url.(query := Some([])), c.buffer)
    else if chr.value == HASH then Go(c, Fragment, 1, c.url.(fragment := Some([])), c.buffer)
    else
      match PercentEncode(chr.value, C0_SET)
      case None => Halt(c, Thrown(LoneSurrogate))
      case Some(e) => Go(c, CannotBeABase, 1, c.url.(path := FirstGrown(c.url.path, e)), c.buffer)
  }

  function AfterQuery(t: Input, c: Config): Move {
    var chr := t.At(c.pointer);
    if chr.None? then Go(c, Query, 1, c.url, c.buffer)
    else if t.override.None? && chr.value == HASH then Go(c, Fragment, 1, c.url.(fragment := Some([])), c.buffer)
    else
      match QueryEncode(chr.value, IsSpecial(c.url))
      case None => Halt(c, Thrown(LoneSurrogate))
      case Some(e) => Go(c, Query, 1, c.url.(query := PlusText(c.url.query, e)), c.buffer)
  }

  function AfterFragment(t: Input, c: Config): Move {
    var chr := t.At(c.pointer);
    if chr.None? then Go(c, Fragment, 1, c.url, c.buffer)
    else
      match PercentEncode(chr.value, FRAGMENT_SET)
      case None => Halt(c, Thrown(LoneSurrogate))
      case Some(e) => Go(c, Fragment, 1, c.url.(fragment := PlusText(c.url.fragment, e)), c.buffer)
  }

  /** What the host parser makes of the buffer. */
  function BufferRead(t: Input, c: Config): Reading { HostReading(c.buffer, IsSpecial(c.url), t.lower) }

  /** A text that is no host ends the parse; so does an exception below the host parser. */
  function Refusal(r: Reading): Outcome
    requires !r.Read?
  {
    match r
    case Refused => Failed(InvalidHost)
    case LoneInHost => Thrown(LoneSurrogate)
    case Overflows => Thrown(PunycodeOverflow)
  }

  function AfterHost(t: Input, c: Config): Move {
    var chr := t.At(c.pointer);
    if t.override.Some? && c.url.scheme == FILE then Go(c, FileHost, 0, c.url, c.buffer)
    else if chr == Some(COLON) && !c.seenBracket then AfterHostColon(t, c)
    else if AtDelimiter(chr, c.url) then AfterHostEnd(t, c)
    else
      var bracket := chr.value == OPEN_BRACKET || (chr.value != CLOSE_BRACKET && c.seenBracket);
      Go(c.(seenBracket := bracket), c.stage, 1, c.url, c.buffer + [chr.value])
  }

  /** A ":" outside brackets ends the host; nothing else of the URL changes. */
  function AfterHostColon(t: Input, c: Config): Move {
    var r := BufferRead(t, c);
    if c.buffer == [] then Halt(c, Failed(InvalidHost))
    else if !r.Read? then Halt(c, Refusal(r))
    else
      var u := c.url.(host := r.host);
      if t.override == Some(HostOnly) then Halt(c.(stage := Port, url := u, buffer := []), Parsed) else Go(c, Port, 1, u, [])
  }

  /** So does the end of the authority. */
  function AfterHostEnd(t: Input, c: Config): Move {
    var r := BufferRead(t, c);
    if IsSpecial(c.url) && c.buffer == [] then Halt(c, Failed(InvalidHost))
    else if t.override.Some? && c.buffer == [] && (IncludesCredentials(c.url) || c.url.port.Some?) then Halt(c, Parsed)
    else if !r.Read? then Halt(c, Refusal(r))
    else
      var u := c.url.(host := r.host);
      if t.override.Some? then Halt(c.(stage := PathStart, url := u, buffer := []), Parsed) else Go(c, PathStart, 0, u, [])
  }

  function LocalIsNone(host: Host): Host { if host == Text(LOCALHOST) then Text([]) else host }

  function AfterFileHost(t: Input, c: Config): Move {
    var chr := t.At(c.pointer);
    if chr.Some? && chr.value !in {SLASH, BACKSLASH, QUESTION, HASH} then
      Go(c, FileHost, 1, c.url, c.buffer + [chr.value])
    else if t.override.None? && IsWindowsDriveLetter(c.buffer, false) then Go(c, Path, 0, c.url, c.buffer)
    else if c.buffer == [] then
      var u := c.url.(host := Text([]));
      if t.override.Some? then Halt(c.(url := u), Parsed) else Go(c, PathStart, 0, u, [])
    else AfterFileHostName(t, c)
  }

  /** In a file URL "localhost" counts as no host. */
  function AfterFileHostName(t: Input, c: Config): Move {
    var r := BufferRead(t, c);
    if !r.Read? then Halt(c, Refusal(r))
    else
      var u := c.url.(host := LocalIsNone(r.host));
      if t.override.Some? then Halt(c.(url := u), Parsed) else Go(c, PathStart, 0, u, [])
  }

  /** The switch over the state. */
  function After(t: Input, c: Config): Move {
    match c.stage
    case SchemeStart => AfterSchemeStart(t, c)
    case Scheme => AfterSchemeChar(t, c)
    case NoScheme => AfterNoScheme(t, c)
    case SpecialRelativeOrAuthority => AfterSpecialRelativeOrAuthority(t, c)
    case PathOrAuthority => AfterPathOrAuthority(t, c)
    case Relative => AfterRelative(t, c)
    case RelativeSlash => AfterRelativeSlash(t, c)
    case SpecialAuthoritySlashes => AfterSpecialAuthoritySlashes(c)
    case SpecialAuthorityIgnoreSlashes => AfterSpecialAuthorityIgnoreSlashes(t, c)
    case Authority => AfterAuthority(t, c)
    case HostName => AfterHost(t, c)
    case HostOnly => AfterHost(t, c)
    case Port => AfterPort(t, c)
    case File => AfterFile(t, c)
    case FileSlash => AfterFileSlash(t, c)
    case FileHost => AfterFileHost(t, c)
    case PathStart => AfterPathStart(t, c)
    case Path => AfterPath(t, c)
    case CannotBeABase => AfterCannotBeABase(t, c)
    case Query => AfterQuery(t, c)
    case Fragment => AfterFragment(t, c)
  }

  /** m is one turn of the loop from c. */
  predicate Turns(t: Input, c: Config, m: Move) { Agrees(m, After(t, c)) }

  // ---------- What every turn keeps ----------

  /** In AUTHORITY the buffer is the text just before the pointer, back to the last "@" at most. */
  predicate BufferBehind(t: Input, c: Config) {
    && |c.buffer| <= c.pointer <= |t.cps|
    && c.buffer == t.cps[c.pointer - |c.buffer|..c.pointer]
    && AT !in c.buffer
  }

  predicate Within(a: seq<int>, b: seq<int>) { forall i :: 0 <= i < |a| ==> a[i] in b }

  predicate CollectsText(s: Stage) { s.Authority? || s.HostName? || s.HostOnly? || s.FileHost? }

  predicate Ready(t: Input, c: Config) {
    && 0 <= c.pointer
    && (!KeepsBuffer(c.stage) ==> c.buffer == [])
    && (c.stage.Authority? ==> BufferBehind(t, c) || c.pointer > |t.cps|)
    && (CollectsText(c.stage) ==> Within(c.buffer, t.cps))
    && (t.Trusted() ==> if c.pointer > |t.cps| then UrlOk(c.url) else StageOk(c.stage, c.url, c.buffer, t.base))
  }

  /** A turn of the loop lowers the rank of the state, or keeps the state and moves the pointer on. */
  predicate Progress(c: Config, d: Config) {
    Rank(d.stage) < Rank(c.stage) || (d.stage == c.stage && d.pointer > c.pointer)
  }

  /** Why a native exception may leave the parser. */
  ghost predicate Explained(t: Input, x: Exception) {
    match x
    case EmptyBasePath => t.base.Some? && t.base.value.path == []
    case MissingBase => t.base.None? && t.override.Some?
    case LoneSurrogate => exists i :: 0 <= i < |t.cps| && !Uri.IsScalar(t.cps[i])
    case PunycodeOverflow => true
  }

  ghost predicate Turned(t: Input, c: Config, m: Move) {
    match m.next
    case Loop => Ready(t, m.config) && Progress(c, m.config)
    case Stop(Parsed) => t.override.Some?
    case Stop(Failed(_)) => true
    case Stop(Thrown(x)) => Explained(t, x)
  }

  /** Going round again keeps everything, given what the new state asks for. */
  lemma Went(t: Input, c: Config, d: Config, to: Stage, moved: int, u: Url, text: seq<int>)
    requires Ready(t, c) && c.pointer <= |t.cps| && 0 <= c.pointer + moved
    requires d.url == c.url && d.stage == c.stage && d.pointer == c.pointer
    requires Rank(to) < Rank(c.stage) || (to == c.stage && moved > 0)
    requires !KeepsBuffer(to) ==> text == []
    requires to.Authority? ==> c.pointer + moved <= |t.cps| && BufferBehind(t, Go(d, to, moved, u, text).config)
    requires CollectsText(to) ==> Within(text, t.cps)
    requires t.Trusted() && Held(c.stage, c.url, c.buffer, t.base) ==>
      if c.pointer + moved > |t.cps| then UrlOk(u) else StageOk(to, u, text, t.base)
    ensures Turned(t, c, Go(d, to, moved, u, text))
  {
    hide StageOk, UrlOk, BufferBehind, Within, Rank, KeepsBuffer, CollectsText;
  }

  lemma Basics(t: Input, c: Config)
    requires Ready(t, c) && c.pointer <= |t.cps|
    ensures 0 <= c.pointer && (!KeepsBuffer(c.stage) ==> c.buffer == [])
    ensures CollectsText(c.stage) ==> Within(c.buffer, t.cps)
    ensures t.Trusted() ==> Held(c.stage, c.url, c.buffer, t.base)
  {
  }

  lemma NothingWithin(cps: seq<int>)
    ensures Within([], cps)
  {
  }

  /** A parse that ends, ends for one of the reasons the invariant allows. */
  lemma Stopped(t: Input, c: Config, m: Move)
    requires m.next.Stop? && (m.next.outcome == Parsed ==> t.override.Some?)
    requires m.next.outcome.Thrown? ==> Explained(t, m.next.outcome.exception)
    ensures Turned(t, c, m)
  {
  }

  lemma Lone(t: Input, i: int)
    requires 0 <= i < |t.cps| && !Uri.IsScalar(t.cps[i])
    ensures Explained(t, LoneSurrogate)
  {
  }

  lemma SchemeStartTurns(t: Input, c: Config)
    requires Ready(t, c) && c.stage == SchemeStart && c.pointer <= |t.cps|
    ensures Turned(t, c, AfterSchemeStart(t, c))
  {
    hide StageOk, UrlOk, Within, Turned, Ready;
    Basics(t, c);
    var chr, m := t.At(c.pointer), AfterSchemeStart(t, c);
    if chr.Some? && IsAlpha(chr.value) {
      SchemeStartKeeps(c.url, t.base, LowerAscii(chr.value));
      assert c.buffer + [LowerAscii(chr.value)] == [LowerAscii(chr.value)];
      Went(t, c, c, Scheme, 1, c.url, [LowerAscii(chr.value)]);
    } else if t.override.None? {
      SchemeStartKeeps(c.url, t.base, 0);
      Went(t, c, c, NoScheme, 0, c.url, []);
    } else {
      Stopped(t, c, m);
    }
  }

  lemma SchemeTurns(t: Input, c: Config)
    requires Ready(t, c) && c.stage == Scheme && c.pointer <= |t.cps|
    ensures Turned(t, c, AfterSchemeChar(t, c))
  {
    hide StageOk, UrlOk, Within, Turned, Ready, IsSpecialScheme, Overridden;
    Basics(t, c);
    var chr, m := t.At(c.pointer), AfterSchemeChar(t, c);
    if chr.Some? && IsSchemeChar(chr.value) {
      SchemeKeeps(c.url, c.buffer, t.base, LowerAscii(chr.value));
      Went(t, c, c, Scheme, 1, c.url, c.buffer + [LowerAscii(chr.value)]);
    } else if t.override.Some? {
      Stopped(t, c, m);
    } else if chr == Some(COLON) {
      var u, slash := c.url.(scheme := c.buffer), t.At(c.pointer + 1) == Some(SLASH);
      var to := AfterScheme(u, t.base, slash);
      FinishedSchemeKeeps(c.url, c.buffer, t.base, slash);
      Went(t, c, c, to, if to == PathOrAuthority then 2 else 1, SchemeUrl(u, to), []);
    } else {
      SchemeKeeps(c.url, c.buffer, t.base, 0);
      Went(t, c, c, NoScheme, -c.pointer, c.url, []);
    }
  }

  lemma NoSchemeTurns(t: Input, c: Config)
    requires Ready(t, c) && c.stage == NoScheme && c.pointer <= |t.cps|
    ensures Turned(t, c, AfterNoScheme(t, c))
  {
    hide StageOk, UrlOk, Within, Turned, Ready;
    Basics(t, c);
    var m := AfterNoScheme(t, c);
    if m.next.Stop? {
      Stopped(t, c, m);
    } else {
      NoSchemeKeeps(c.url, t.base);
      var d := m.config;
      Went(t, c, c, d.stage, d.pointer - c.pointer, d.url, []);
    }
  }

  lemma SpecialRelativeOrAuthorityTurns(t: Input, c: Config)
    requires Ready(t, c) && c.stage == SpecialRelativeOrAuthority && c.pointer <= |t.cps|
    ensures Turned(t, c, AfterSpecialRelativeOrAuthority(t, c))
  {
    hide StageOk, UrlOk, Within, Turned, Ready;
    Basics(t, c);
    SlashStatesKeep(c.url, t.base);
    NothingWithin(t.cps);
    var d := AfterSpecialRelativeOrAuthority(t, c).config;
    Went(t, c, c, d.stage, d.pointer - c.pointer, d.url, []);
  }

  lemma PathOrAuthorityTurns(t: Input, c: Config)
    requires Ready(t, c) && c.stage == PathOrAuthority && c.pointer <= |t.cps|
    ensures Turned(t, c, AfterPathOrAuthority(t, c))
  {
    hide StageOk, UrlOk, Within, Turned, Ready;
    Basics(t, c);
    SlashStatesKeep(c.url, t.base);
    NothingWithin(t.cps);
    var d := AfterPathOrAuthority(t, c).config;
    Went(t, c, c, d.stage, d.pointer - c.pointer, d.url, []);
  }

  lemma SpecialAuthoritySlashesTurns(t: Input, c: Config)
    requires Ready(t, c) && c.stage == SpecialAuthoritySlashes && c.pointer <= |t.cps|
    ensures Turned(t, c, AfterSpecialAuthoritySlashes(c))
  {
    hide StageOk, UrlOk, Within, Turned, Ready;
    Basics(t, c);
    SlashStatesKeep(c.url, t.base);
    NothingWithin(t.cps);
    var d := AfterSpecialAuthoritySlashes(c).config;
    Went(t, c, c, d.stage, d.pointer - c.pointer, d.url, []);
  }

  lemma SpecialAuthorityIgnoreSlashesTurns(t: Input, c: Config)
    requires Ready(t, c) && c.stage == SpecialAuthorityIgnoreSlashes && c.pointer <= |t.cps|
    ensures Turned(t, c, AfterSpecialAuthorityIgnoreSlashes(t, c))
  {
    hide StageOk, UrlOk, Within, Turned, Ready;
    Basics(t, c);
    SlashStatesKeep(c.url, t.base);
    NothingWithin(t.cps);
    var d := AfterSpecialAuthorityIgnoreSlashes(t, c).config;
    Went(t, c, c, d.stage, d.pointer - c.pointer, d.url, []);
  }

  lemma RelativeTurns(t: Input, c: Config)
    requires Ready(t, c) && c.stage == Relative && c.pointer <= |t.cps|
    ensures Turned(t, c, AfterRelative(t, c))
  {
    hide StageOk, UrlOk, Within, Turned, Ready, IsSpecialScheme, AfterReference;
    Basics(t, c);
    if t.base.None? {
      NoRelativeWithoutBase(c.url);
      Stopped(t, c, AfterRelative(t, c));
    } else if IsSlash(t.At(c.pointer), c.url.(scheme := t.base.value.scheme)) {
      RelativeToSlash(c.url, t.base);
      Went(t, c, c, RelativeSlash, 1, c.url.(scheme := t.base.value.scheme), []);
    } else {
      ReferenceTurns(t, c, t.base.value);
    }
  }

  /** The move takes the base's parts over, all but query and fragment, and moves on by that much. */
  predicate TakesOver(c: Config, b: Url, u: Url, m: Move, moved: int) {
    var v := m.config.url;
    && m == Go(c, m.config.stage, moved, v, [])
    && v == FromBase(u, b, v.query, v.fragment).(path := v.path)
  }

  /** Before a path the base gives the segments but the last. */
  lemma PathReferenceShape(c: Config, x: int, b: Url, u: Url)
    requires c.buffer == [] && x != QUESTION && x != HASH && AfterReference(c, Some(x), b, u).next.Loop?
    ensures var m := AfterReference(c, Some(x), b, u);
            && TakesOver(c, b, u, m, 0) && m.config.stage == Path
            && m.config.url.query == u.query && m.config.url.fragment == u.fragment
  {
  }

  /** Otherwise it gives the whole path. */
  lemma TailReferenceShape(c: Config, chr: Option<int>, b: Url, u: Url)
    requires c.stage == Relative && c.buffer == [] && (chr.None? || chr.value == QUESTION || chr.value == HASH)
    ensures var m := AfterReference(c, chr, b, u);
            && m.next == Loop && TakesOver(c, b, u, m, 1) && m.config.url.path == b.path
            && m.config.stage in {Relative, Query, Fragment} && (m.config.stage == Relative <==> chr.None?)
  {
  }

  /** Wherever a reference without a slash leads, it has taken over the base's parts. */
  lemma ReferenceShape(c: Config, chr: Option<int>, b: Url, u: Url)
    requires c.stage == Relative && c.buffer == [] && AfterReference(c, chr, b, u).next.Loop?
    ensures var m := AfterReference(c, chr, b, u);
            && TakesOver(c, b, u, m, if m.config.stage == Path then 0 else 1)
            && (m.config.stage == Path ==> m.config.url.query == u.query && m.config.url.fragment == u.fragment)
            && (m.config.stage != Path ==> m.config.url.path == b.path)
            && m.config.stage in {Relative, Path, Query, Fragment} && (m.config.stage == Relative <==> chr.None?)
  {
    hide AfterReference, TakesOver;
    if chr.None? || chr.value == QUESTION || chr.value == HASH {
      TailReferenceShape(c, chr, b, u);
    } else {
      PathReferenceShape(c, chr.value, b, u);
    }
  }

  lemma ReferenceTurns(t: Input, c: Config, b: Url)
    requires Ready(t, c) && c.stage == Relative && c.pointer <= |t.cps| && t.base == Some(b)
    ensures Turned(t, c, AfterReference(c, t.At(c.pointer), b, c.url.(scheme := b.scheme)))
  {
    hide StageOk, UrlOk, Within, Turned, Ready, AfterReference, FromBase;
    var m := AfterReference(c, t.At(c.pointer), b, c.url.(scheme := b.scheme));
    Basics(t, c);
    if m.next.Stop? {
      ReferenceStops(c, t.At(c.pointer), b, c.url.(scheme := b.scheme));
      Stopped(t, c, m);
    } else {
      var d := m.config;
      ReferenceShape(c, t.At(c.pointer), b, c.url.(scheme := b.scheme));
      RelativeKeeps(c.url, t.base, d.url);
      Went(t, c, c, d.stage, d.pointer - c.pointer, d.url, []);
    }
  }

  lemma ReferenceStops(c: Config, chr: Option<int>, b: Url, u: Url)
    requires AfterReference(c, chr, b, u).next.Stop?
    ensures AfterReference(c, chr, b, u) == Halt(c, Thrown(EmptyBasePath)) && b.path == []
  {
  }

  lemma RelativeSlashTurns(t: Input, c: Config)
    requires Ready(t, c) && c.stage == RelativeSlash && c.pointer <= |t.cps|
    ensures Turned(t, c, AfterRelativeSlash(t, c))
  {
    hide StageOk, UrlOk, Within, Turned, Ready, IsSpecialScheme;
    Basics(t, c);
    var m := AfterRelativeSlash(t, c);
    NothingWithin(t.cps);
    if t.base.None? { NoRelativeWithoutBase(c.url); } else { RelativeSlashKeeps(c.url, t.base); }
    if m.next.Stop? {
      Stopped(t, c, m);
    } else {
      Went(t, c, c, m.config.stage, m.config.pointer - c.pointer, m.config.url, []);
    }
  }

  lemma AuthorityBuffer(t: Input, c: Config)
    requires Ready(t, c) && c.stage == Authority && c.pointer <= |t.cps|
    ensures BufferBehind(t, c) && Within(c.buffer, t.cps)
    ensures c.pointer < |t.cps| && t.cps[c.pointer] != AT ==>
      BufferBehind(t, c.(pointer := c.pointer + 1, buffer := c.buffer + [t.cps[c.pointer]]))
    ensures c.pointer < |t.cps| ==> Within(c.buffer + [t.cps[c.pointer]], t.cps)
  {
    if c.pointer < |t.cps| {
      assert t.cps[c.pointer - |c.buffer|..c.pointer + 1] == c.buffer + [t.cps[c.pointer]];
    }
  }

  lemma LoneInUserinfo(t: Input, c: Config, x: int)
    requires Within(c.buffer, t.cps) && !Uri.IsScalar(x)
    requires x in AtText(c)
    ensures Explained(t, LoneSurrogate)
  {
    assert x in c.buffer;
    var j :| 0 <= j < |c.buffer| && c.buffer[j] == x;
    assert c.buffer[j] in t.cps;
  }

  lemma ScalarUserinfo(t: Input, c: Config)
    requires Within(c.buffer, t.cps) && AfterAt(c).next.Stop?
    ensures Explained(t, LoneSurrogate)
  {
    hide PasswordAt, PasswordFrom, Within, Explained, Encodes;
    var text := AtText(c);
    var k, from := PasswordAt(text, c.seenPasswordToken), PasswordFrom(text, c.seenPasswordToken);
    if Encodes(text[..k], USERINFO_SET).None? {
      var x :| x in text[..k] && !Uri.IsScalar(x);
      LoneInUserinfo(t, c, x);
    } else {
      var x :| x in text[from..] && !Uri.IsScalar(x);
      LoneInUserinfo(t, c, x);
    }
  }

  lemma AtDone(c: Config, text: seq<int>, u: Url)
    requires text == AtText(c)
    requires var seen := c.seenPasswordToken;
             IsUserinfo(c.url, u, text[..PasswordAt(text, seen)], text[PasswordFrom(text, seen)..])
    ensures AfterAt(c) ==
            Go(c.(seenAt := true, seenPasswordToken := c.seenPasswordToken || PasswordAt(text, c.seenPasswordToken) < |text|),
               Authority, 1, u, [])
  {
    hide Encodes, PasswordAt, PasswordFrom;
  }

  lemma AtThrows(c: Config, text: seq<int>)
    requires text == AtText(c)
    requires var seen := c.seenPasswordToken;
             Encodes(text[..PasswordAt(text, seen)], USERINFO_SET).None? || Encodes(text[PasswordFrom(text, seen)..],
                 USERINFO_SET).None?
    ensures AfterAt(c) == Halt(c, Thrown(LoneSurrogate))
  {
    hide Encodes, PasswordAt, PasswordFrom;
  }

  lemma AuthorityTurns(t: Input, c: Config)
    requires Ready(t, c) && c.stage == Authority && c.pointer <= |t.cps|
    ensures Turned(t, c, AfterAuthority(t, c))
  {
    hide StageOk, UrlOk, Within, Turned, Ready, BufferBehind, IsSpecialScheme, AfterAt;
    Basics(t, c);
    AuthorityBuffer(t, c);
    NothingWithin(t.cps);
    var chr, m := t.At(c.pointer), AfterAuthority(t, c);
    if chr == Some(AT) {
      AtTurns(t, c);
    } else if m.next.Stop? {
      Stopped(t, c, m);
    } else if AtDelimiter(chr, c.url) {
      Behind(t, c);
      AuthorityKeeps(c.url, c.buffer, t.base, c.url, []);
      Went(t, c, c, HostName, -|c.buffer|, c.url, []);
    } else {
      AuthorityKeeps(c.url, c.buffer, t.base, c.url, c.buffer + [chr.value]);
      Went(t, c, c, Authority, 1, c.url, c.buffer + [chr.value]);
    }
  }

  lemma Behind(t: Input, c: Config)
    requires BufferBehind(t, c)
    ensures |c.buffer| <= c.pointer
  {
  }

  lemma AtTurns(t: Input, c: Config)
    requires Ready(t, c) && c.stage == Authority && c.pointer < |t.cps|
    ensures Turned(t, c, AfterAt(c))
  {
    hide StageOk, UrlOk, Within, Turned, Ready, Encodes, PasswordAt, PasswordFrom;
    Basics(t, c);
    NothingWithin(t.cps);
    var m := AfterAt(c);
    if m.next.Stop? {
      ScalarUserinfo(t, c);
      Stopped(t, c, m);
    } else {
      var d := m.config;
      AuthorityKeeps(c.url, c.buffer, t.base, d.url, []);
      Went(t, c, c.(seenAt := d.seenAt, seenPasswordToken := d.seenPasswordToken), Authority, 1, d.url, []);
    }
  }

  /** The rewind to the host stops right behind the last "@", or where the authority began. */
  lemma RewindStopsBehindAt(t: Input, c: Config)
    requires Ready(t, c) && c.stage == Authority && c.pointer <= |t.cps|
    requires AfterAuthority(t, c).next.Loop? && AfterAuthority(t, c).config.stage == HostName
    ensures var d := AfterAuthority(t, c).config;
            0 <= d.pointer <= c.pointer && t.cps[d.pointer..c.pointer] == c.buffer && AT !in c.buffer
  {
    hide AfterAt;
    AtStays(c);
  }

  lemma AtStays(c: Config)
    ensures AfterAt(c).next.Loop? ==> AfterAt(c).config.stage == Authority
  {
    hide Encodes, PasswordAt, PasswordFrom;
  }

  lemma PortTurns(t: Input, c: Config)
    requires Ready(t, c) && c.stage == Port && c.pointer <= |t.cps|
    ensures Turned(t, c, AfterPort(t, c))
  {
    hide StageOk, UrlOk, Within, Turned, Ready, IsSpecialScheme, DefaultPort, Ip.Value;
    Basics(t, c);
    var chr, m := t.At(c.pointer), AfterPort(t, c);
    var port := Ip.Value(c.buffer, 10);
    if m.next.Stop? {
      Stopped(t, c, m);
    } else if chr.Some? && Ip.IsDigit(chr.value) {
      PortKeeps(c.url, c.buffer, t.base, None, c.buffer + [chr.value]);
      Went(t, c, c, Port, 1, c.url, c.buffer + [chr.value]);
    } else {
      PortKeeps(c.url, c.buffer, t.base, if port <= 0xFFFF then KeptPort(c.url, port) else None, []);
      Went(t, c, c, PathStart, 0, m.config.url, []);
    }
  }

  lemma FileTurns(t: Input, c: Config)
    requires Ready(t, c) && c.stage == File && c.pointer <= |t.cps|
    ensures Turned(t, c, AfterFile(t, c))
  {
    hide StageOk, UrlOk, Within, Turned, Ready, DriveAhead, IsWindowsDriveLetter;
    Basics(t, c);
    var d := AfterFile(t, c).config;
    if d.stage.FileSlash? {
      FileToSlash(c.url, t.base);
      Went(t, c, c, FileSlash, 1, d.url, []);
    } else {
      FileResolves(t, c, d);
    }
  }

  lemma FileShape(t: Input, c: Config, d: Config)
    requires c.stage == File && 0 <= c.pointer <= |t.cps| && c.buffer == []
    requires AfterFile(t, c) == Move(Loop, d) && !d.stage.FileSlash?
    ensures Move(Loop, d) == Go(c, d.stage, d.pointer - c.pointer, d.url, [])
    ensures var u := d.url;
            u == c.url.(scheme := FILE, host := u.host, path := u.path, query := u.query, fragment := u.fragment)
    ensures d.stage == Path ==> d.pointer == c.pointer && d.url.query == c.url.query && d.url.fragment == c.url.fragment
    ensures d.stage != Path ==>
      && t.HasBase(FILE) && d.url.host == t.base.value.host && d.url.path == t.base.value.path && d.pointer == c.pointer + 1
    ensures d.stage in {File, Path, Query, Fragment}
    ensures d.pointer > |t.cps| <==> d.stage == File
  {
    hide DriveAhead, Shortened;
    if t.HasBase(FILE) { ShortenedShape(c.url.(scheme := FILE, host := t.base.value.host, path := t.base.value.path)); }
  }

  lemma FileResolves(t: Input, c: Config, d: Config)
    requires Ready(t, c) && c.stage == File && c.pointer <= |t.cps|
    requires AfterFile(t, c) == Move(Loop, d) && !d.stage.FileSlash?
    ensures Turned(t, c, AfterFile(t, c))
  {
    hide StageOk, UrlOk, Within, Turned, Ready, AfterFile;
    Basics(t, c);
    FileShape(t, c, d);
    FileKeeps(c.url, t.base, d.url);
    Went(t, c, c, d.stage, d.pointer - c.pointer, d.url, []);
  }

  lemma FileSlashTurns(t: Input, c: Config)
    requires Ready(t, c) && c.stage == FileSlash && c.pointer <= |t.cps|
    ensures Turned(t, c, AfterFileSlash(t, c))
  {
    hide StageOk, UrlOk, Within, Turned, Ready, DriveAhead, IsWindowsDriveLetter;
    Basics(t, c);
    var m := AfterFileSlash(t, c);
    NothingWithin(t.cps);
    if m.next.Stop? {
      Stopped(t, c, m);
    } else {
      FileHostKeeps(c.url, [], t.base, m.config.url.host, m.config.url.path, []);
      Went(t, c, c, m.config.stage, m.config.pointer - c.pointer, m.config.url, []);
    }
  }

  lemma PathStartTurns(t: Input, c: Config)
    requires Ready(t, c) && c.stage == PathStart && c.pointer <= |t.cps|
    ensures Turned(t, c, AfterPathStart(t, c))
  {
    hide StageOk, UrlOk, Within, Turned, Ready, IsSpecialScheme, AfterOpaquePathStart;
    if IsSpecial(c.url) {
      Basics(t, c);
      PathStartKeeps(c.url, t.base);
      Went(t, c, c, Path, AfterPathStart(t, c).config.pointer - c.pointer, c.url, []);
    } else {
      OpaquePathStartTurns(t, c);
    }
  }

  lemma OpaquePathStartTurns(t: Input, c: Config)
    requires Ready(t, c) && c.stage == PathStart && c.pointer <= |t.cps| && !IsSpecial(c.url)
    ensures Turned(t, c, AfterOpaquePathStart(t, c, t.At(c.pointer)))
  {
    hide StageOk, UrlOk, Within, Turned, Ready, IsSpecial;
    Basics(t, c);
    PathStartKeeps(c.url, t.base);
    var d := AfterOpaquePathStart(t, c, t.At(c.pointer)).config;
    Went(t, c, c, d.stage, d.pointer - c.pointer, d.url, []);
  }

  lemma PathTurns(t: Input, c: Config)
    requires Ready(t, c) && c.stage == Path && c.pointer <= |t.cps|
    ensures Turned(t, c, AfterPath(t, c))
  {
    hide StageOk, UrlOk, Within, Turned, Ready, IsSpecialScheme, PercentEncode, AfterSegment;
    Basics(t, c);
    var chr, m := t.At(c.pointer), AfterPath(t, c);
    if chr.None? || IsSlash(chr, c.url) || (t.override.None? && chr.value in {QUESTION, HASH}) {
      SegmentTurns(t, c);
    } else if m.next.Stop? {
      Lone(t, c.pointer);
      Stopped(t, c, m);
    } else {
      PathKeeps(c.url, c.buffer, t.base, c.url, m.config.buffer);
      Went(t, c, c, Path, 1, c.url, m.config.buffer);
    }
  }

  lemma SegmentTurns(t: Input, c: Config)
    requires Ready(t, c) && c.stage == Path && c.pointer <= |t.cps|
    requires var chr := t.At(c.pointer);
             chr.None? || IsSlash(chr, c.url) || (t.override.None? && chr.value in {QUESTION, HASH})
    ensures Turned(t, c, AfterSegment(c, t.At(c.pointer)))
  {
    hide StageOk, UrlOk, Within, Turned, Ready, PathEnded, IsSpecialScheme;
    Basics(t, c);
    var chr := t.At(c.pointer);
    var slash, end := IsSlash(chr, c.url), chr.None? || chr.value in {QUESTION, HASH};
    var u, d := PathEnded(c.url, c.buffer, slash, end), AfterSegment(c, chr).config;
    PathEndedKeeps(c.url, c.buffer, slash, end);
    PathKeeps(c.url, c.buffer, t.base, u, []);
    Went(t, c, c, d.stage, 1, d.url, []);
  }

  lemma OpaqueShape(t: Input, c: Config)
    requires c.stage == CannotBeABase && c.buffer == [] && 0 <= c.pointer <= |t.cps| && AfterCannotBeABase(t, c).next.Loop?
    ensures var m := AfterCannotBeABase(t, c);
            && m == Go(c, m.config.stage, 1, m.config.url, []) && m.config.stage in {CannotBeABase, Query, Fragment}
            && m.config.url == c.url.(path := m.config.url.path, query := m.config.url.query, fragment := m.config.url.fragment)
            && (m.config.url.path == c.url.path || m.config.url.path != [])
  {
    hide PercentEncode, FirstGrown;
  }

  lemma OpaqueStops(t: Input, c: Config)
    requires c.stage == CannotBeABase && 0 <= c.pointer <= |t.cps| && AfterCannotBeABase(t, c).next.Stop?
    ensures AfterCannotBeABase(t, c).next == Stop(Thrown(LoneSurrogate)) && c.pointer < |t.cps| && !Uri.IsScalar(t.cps[c.pointer])
  {
    hide PercentEncode;
  }

  lemma CannotBeABaseTurns(t: Input, c: Config)
    requires Ready(t, c) && c.stage == CannotBeABase && c.pointer <= |t.cps|
    ensures Turned(t, c, AfterCannotBeABase(t, c))
  {
    hide StageOk, UrlOk, Within, Turned, Ready, IsSpecialScheme, AfterCannotBeABase;
    Basics(t, c);
    var m := AfterCannotBeABase(t, c);
    if m.next.Stop? {
      OpaqueStops(t, c);
      Lone(t, c.pointer);
      Stopped(t, c, m);
    } else {
      OpaqueShape(t, c);
      TailKeeps(CannotBeABase, c.url, t.base, m.config.url);
      Went(t, c, c, m.config.stage, 1, m.config.url, []);
    }
  }

  lemma QueryTurns(t: Input, c: Config)
    requires Ready(t, c) && c.stage == Query && c.pointer <= |t.cps|
    ensures Turned(t, c, AfterQuery(t, c))
  {
    hide StageOk, UrlOk, Within, Turned, Ready, IsSpecialScheme, PercentEncode, PlusText;
    Basics(t, c);
    var m := AfterQuery(t, c);
    if m.next.Stop? {
      Lone(t, c.pointer);
      Stopped(t, c, m);
    } else {
      TailKeeps(Query, c.url, t.base, m.config.url);
      Went(t, c, c, m.config.stage, 1, m.config.url, []);
    }
  }

  lemma FragmentTurns(t: Input, c: Config)
    requires Ready(t, c) && c.stage == Fragment && c.pointer <= |t.cps|
    ensures Turned(t, c, AfterFragment(t, c))
  {
    hide StageOk, UrlOk, Within, Turned, Ready, IsSpecialScheme, PercentEncode, PlusText;
    Basics(t, c);
    var m := AfterFragment(t, c);
    if m.next.Stop? {
      Lone(t, c.pointer);
      Stopped(t, c, m);
    } else {
      TailKeeps(Fragment, c.url, t.base, m.config.url);
      Went(t, c, c, m.config.stage, 1, m.config.url, []);
    }
  }

  lemma LoneInBuffer(t: Input, c: Config)
    requires Within(c.buffer, t.cps) && exists i :: 0 <= i < |c.buffer| && !Uri.IsScalar(c.buffer[i])
    ensures Explained(t, LoneSurrogate)
  {
    var i :| 0 <= i < |c.buffer| && !Uri.IsScalar(c.buffer[i]);
    assert c.buffer[i] in t.cps;
  }

  /** A refused host ends the parse for a stated reason. */
  lemma RefusalTurns(t: Input, c: Config)
    requires Within(c.buffer, t.cps) && !BufferRead(t, c).Read?
    ensures Turned(t, c, Halt(c, Refusal(BufferRead(t, c))))
  {
    hide Within, Encodes, DomainText, IsSpecialScheme, Ip.ParsedIPv4, Ip.ParsedIPv6;
    if BufferRead(t, c) == LoneInHost {
      LoneInText(c.buffer);
      LoneInBuffer(t, c);
    }
  }

  /** A text that does not encode holds a lone surrogate. */
  lemma LoneInText(text: seq<int>)
    requires Encodes(text, C0_SET).None?
    ensures exists i :: 0 <= i < |text| && !Uri.IsScalar(text[i])
  {
    hide Encodes;
    var c :| c in text && !Uri.IsScalar(c);
    var i :| 0 <= i < |text| && text[i] == c;
  }

  lemma HostOfNonEmpty(text: seq<int>, special: bool, lower: seq<int> -> seq<int>)
    requires HostReading(text, special, lower).Read?
    ensures var host := HostReading(text, special, lower).host; host != NoHost && (special ==> host != Text([]))
  {
    hide Encodes, DomainText, Ip.ParsedIPv6;
    NoPartsNoName();
  }

  /** The empty text is not handed back as a name. */
  lemma NoPartsNoName()
    ensures Ip.ParsedIPv4([]) == Ip.Undefined
  {
  }

  lemma WithinAppend(text: seq<int>, cps: seq<int>, i: int)
    requires Within(text, cps) && 0 <= i < |cps|
    ensures Within(text + [cps[i]], cps)
  {
  }

  lemma HostTurns(t: Input, c: Config)
    requires Ready(t, c) && (c.stage == HostName || c.stage == HostOnly) && c.pointer <= |t.cps|
    ensures Turned(t, c, AfterHost(t, c))
  {
    hide StageOk, UrlOk, Within, Turned, Ready, AfterHostColon, AfterHostEnd, IsSpecialScheme;
    Basics(t, c);
    var chr, m := t.At(c.pointer), AfterHost(t, c);
    if t.override.Some? && c.url.scheme == FILE {
      Went(t, c, c, FileHost, 0, c.url, c.buffer);
    } else if chr == Some(COLON) && !c.seenBracket {
      HostColonTurns(t, c);
    } else if AtDelimiter(chr, c.url) {
      HostEndTurns(t, c);
    } else {
      WithinAppend(c.buffer, t.cps, c.pointer);
      HostKeeps(c.stage, c.url, c.buffer, t.base, c.url.(host := UndefinedHost), c.buffer + [chr.value]);
      Went(t, c, c.(seenBracket := m.config.seenBracket), c.stage, 1, c.url, c.buffer + [chr.value]);
    }
  }

  lemma HostColonTurns(t: Input, c: Config)
    requires Ready(t, c) && (c.stage == HostName || c.stage == HostOnly) && c.pointer < |t.cps|
    ensures Turned(t, c, AfterHostColon(t, c))
  {
    hide StageOk, UrlOk, Within, Turned, Ready, HostReading, IsSpecialScheme;
    Basics(t, c);
    var m := AfterHostColon(t, c);
    if c.buffer != [] && !BufferRead(t, c).Read? {
      RefusalTurns(t, c);
    } else if m.next.Stop? {
      Stopped(t, c, m);
    } else {
      HostOfNonEmpty(c.buffer, IsSpecial(c.url), t.lower);
      HostKeeps(c.stage, c.url, c.buffer, t.base, m.config.url, []);
      Went(t, c, c, Port, 1, m.config.url, []);
    }
  }

  lemma HostEndTurns(t: Input, c: Config)
    requires Ready(t, c) && (c.stage == HostName || c.stage == HostOnly) && c.pointer <= |t.cps|
    ensures Turned(t, c, AfterHostEnd(t, c))
  {
    hide StageOk, UrlOk, Within, Turned, Ready, HostReading, IsSpecialScheme;
    Basics(t, c);
    var m := AfterHostEnd(t, c);
    if m.next.Stop? {
      if m.next.outcome.Thrown? { RefusalTurns(t, c); } else { Stopped(t, c, m); }
    } else {
      HostOfNonEmpty(c.buffer, IsSpecial(c.url), t.lower);
      HostKeeps(c.stage, c.url, c.buffer, t.base, m.config.url, []);
      Went(t, c, c, PathStart, 0, m.config.url, []);
    }
  }

  lemma FileHostTurns(t: Input, c: Config)
    requires Ready(t, c) && c.stage == FileHost && c.pointer <= |t.cps|
    ensures Turned(t, c, AfterFileHost(t, c))
  {
    hide StageOk, UrlOk, Within, Turned, Ready, HostReading, IsWindowsDriveLetter, IsSpecialScheme;
    Basics(t, c);
    var chr, m := t.At(c.pointer), AfterFileHost(t, c);
    if chr.Some? && chr.value !in {SLASH, BACKSLASH, QUESTION, HASH} {
      WithinAppend(c.buffer, t.cps, c.pointer);
      FileHostKeeps(c.url, c.buffer, t.base, NoHost, [], c.buffer + [chr.value]);
      Went(t, c, c, FileHost, 1, c.url, c.buffer + [chr.value]);
    } else if t.override.None? && IsWindowsDriveLetter(c.buffer, false) {
      FileHostKeeps(c.url, c.buffer, t.base, NoHost, [], []);
      Went(t, c, c, Path, 0, c.url, c.buffer);
    } else if m.next.Stop? {
      if m.next.outcome.Thrown? { RefusalTurns(t, c); } else { Stopped(t, c, m); }
    } else {
      FileHostKeeps(c.url, c.buffer, t.base, m.config.url.host, [], []);
      Went(t, c, c, PathStart, 0, m.config.url, []);
    }
  }

  lemma SameTurned(t: Input, c: Config, m: Move, n: Move)
    requires Agrees(m, n) && Turned(t, c, n)
    ensures Turned(t, c, m)
  {
    hide Ready, Progress;
  }

  lemma AfterTurns(t: Input, c: Config)
    requires Ready(t, c) && c.pointer <= |t.cps|
    ensures Turned(t, c, After(t, c))
  {
    hide Ready, Turned;
    match c.stage {
      case SchemeStart => SchemeStartTurns(t, c);
      case Scheme => SchemeTurns(t, c);
      case NoScheme => NoSchemeTurns(t, c);
      case SpecialRelativeOrAuthority => SpecialRelativeOrAuthorityTurns(t, c);
      case PathOrAuthority => PathOrAuthorityTurns(t, c);
      case Relative => RelativeTurns(t, c);
      case RelativeSlash => RelativeSlashTurns(t, c);
      case SpecialAuthoritySlashes => SpecialAuthoritySlashesTurns(t, c);
      case SpecialAuthorityIgnoreSlashes => SpecialAuthorityIgnoreSlashesTurns(t, c);
      case Authority => AuthorityTurns(t, c);
      case HostName => HostTurns(t, c);
      case HostOnly => HostTurns(t, c);
      case Port => PortTurns(t, c);
      case File => FileTurns(t, c);
      case FileSlash => FileSlashTurns(t, c);
      case FileHost => FileHostTurns(t, c);
      case PathStart => PathStartTurns(t, c);
      case Path => PathTurns(t, c);
      case CannotBeABase => CannotBeABaseTurns(t, c);
      case Query => QueryTurns(t, c);
      case Fragment => FragmentTurns(t, c);
    }
  }

  /** Every turn of every state keeps the invariant and makes progress, or stops for a stated reason. */
  lemma TurnKeeps(t: Input, c: Config, m: Move)
    requires Ready(t, c) && c.pointer <= |t.cps| && Turns(t, c, m)
    ensures Turned(t, c, m)
  {
    hide Ready, Turned, Agrees, After;
    AfterTurns(t, c);
    SameTurned(t, c, m, After(t, c));
  }

  // ---------- Runs ----------

  /** Configurations each of which is one turn after the one before. */
  ghost predicate IsTrace(t: Input, trace: seq<Config>) {
    && trace != []
    && forall i :: 0 <= i < |trace| - 1 ==>
         trace[i].pointer <= |t.cps| && Turns(t, trace[i], Move(Loop, trace[i + 1]))
  }

  /** A run of the loop from c that ends with this outcome in d: off the end of the input, or by a turn that returns. */
  ghost predicate IsParse(t: Input, c: Config, trace: seq<Config>, outcome: Outcome, d: Config) {
    && IsTrace(t, trace) && trace[0] == c
    && var last := trace[|trace| - 1];
       if last.pointer > |t.cps| then outcome == Parsed && d == last
       else Turns(t, last, Move(Stop(outcome), d))
  }

  lemma TraceGrows(t: Input, trace: seq<Config>, d: Config)
    requires IsTrace(t, trace) && trace[|trace| - 1].pointer <= |t.cps|
    requires Turns(t, trace[|trace| - 1], Move(Loop, d))
    ensures IsTrace(t, trace + [d])
  {
    hide Turns;
  }

  /** A parse may start in any state: what an override is given needs nothing established. */
  lemma OverrideReady(t: Input, u: Url)
    requires t.override.Some?
    ensures Ready(t, Config(u, t.override.value, 0, [], false, false, false))
  {
  }

  /** A fresh parse starts out with nothing established and nothing to establish. */
  lemma FreshReady(t: Input)
    requires t.override.None?
    ensures Ready(t, Config(FRESH, SchemeStart, 0, [], false, false, false))
  {
  }
}
