/**
 The URL parser of js/secsdk-lastest.umd.js looks ahead only: two runs that stand in the same state before the same
 text come to the same URL, whatever stands behind them and whatever the bases, once none is asked of the base.
 */
module UrlShift {
  import opened Wrappers
  import opened UrlRecord
  import opened UrlHost
  import opened UrlStates
  import opened UrlRuns
  import Ip = IpAddress

  /** The states from which the base is not looked at any more. */
  predicate BaseFree(s: Stage) {
    s in {SpecialAuthoritySlashes, SpecialAuthorityIgnoreSlashes, PathOrAuthority, Authority, HostName, HostOnly, Port,
          FileHost, PathStart, Path, CannotBeABase, Query, Fragment}
  }

  /** The states behind the authority. */
  predicate BehindAuthority(s: Stage) { s in {PathStart, Path, Query, Fragment} }

  /** How far back the parser may still go: the end of the authority goes back over the buffer. */
  function Backward(c: Config): nat {
    if c.stage in {NoScheme, SpecialRelativeOrAuthority, Relative, RelativeSlash, SpecialAuthoritySlashes,
                   SpecialAuthorityIgnoreSlashes, PathOrAuthority, Authority}
    then |c.buffer| else 0
  }

  /** From here on the texts are the same. */
  predicate SameText(t: Input, i: int, v: Input, j: int) { 0 <= i <= |t.cps| && 0 <= j <= |v.cps| && t.cps[i..] == v.cps[j..] }

  /** Two configurations that differ in where they stand; from `from` on the texts agree. */
  ghost predicate Alike(t: Input, c: Config, v: Input, d: Config, from: int) {
    && t.override == v.override && t.lower == v.lower && (t.base == v.base || BaseFree(c.stage))
    && SameText(t, from, v, from + d.pointer - c.pointer)
    && from + Backward(c) <= c.pointer && c.stage !in {SchemeStart, Scheme}
    && d == Further(c, d.pointer - c.pointer)
  }

  /** The same configuration, so many characters on. */
  function Further(c: Config, k: int): Config { c.(pointer := c.pointer + k) }

  function MovedOn(m: Move, k: int): Move { Move(m.next, Further(m.config, k)) }

  lemma SameCharacters(t: Input, i: int, v: Input, j: int, k: nat)
    requires SameText(t, i, v, j)
    ensures t.At(i + k) == v.At(j + k) && t.At(i + k + 1) == v.At(j + k + 1)
    ensures i + k <= |t.cps| <==> j + k <= |v.cps|
    ensures i + k <= |t.cps| ==> SameText(t, i + k, v, j + k)
  {
    var a, b := t.cps[i..], v.cps[j..];
    assert |a| == |b|;
    if i + k < |t.cps| { assert t.cps[i + k] == a[k] == b[k] == v.cps[j + k]; }
    if i + k + 1 < |t.cps| { assert t.cps[i + k + 1] == a[k + 1] == b[k + 1] == v.cps[j + k + 1]; }
    if i + k <= |t.cps| { assert t.cps[i + k..] == a[k..] && v.cps[j + k..] == b[k..]; }
  }

  lemma SameDrive(t: Input, i: int, v: Input, j: int)
    requires SameText(t, i, v, j)
    ensures DriveAhead(t, i) == DriveAhead(v, j)
  {
    hide StartsWithWindowsDriveLetter;
  }

  /** What the two runs see of their texts. */
  predicate SameView(t: Input, i: int, v: Input, j: int) {
    t.At(i) == v.At(j) && t.At(i + 1) == v.At(j + 1) && DriveAhead(t, i) == DriveAhead(v, j)
  }

  lemma AlikeSees(t: Input, c: Config, v: Input, d: Config, from: int)
    requires Alike(t, c, v, d, from)
    ensures c.pointer <= |t.cps| <==> d.pointer <= |v.cps|
    ensures c.pointer <= |t.cps| ==> SameView(t, c.pointer, v, d.pointer)
  {
    var k := c.pointer - from;
    SameCharacters(t, from, v, from + d.pointer - c.pointer, k);
    hide DriveAhead, StartsWithWindowsDriveLetter;
    if c.pointer <= |t.cps| { SameDrive(t, c.pointer, v, d.pointer); }
  }

  lemma SchemeLess(t: Input, c: Config, v: Input, k: int)
    requires SameView(t, c.pointer, v, c.pointer + k) && t.base == v.base
    ensures AfterNoScheme(v, Further(c, k)) == MovedOn(AfterNoScheme(t, c), k)
  {
    hide DriveAhead;
  }

  lemma RelativeOrAuthority(t: Input, c: Config, v: Input, k: int)
    requires SameView(t, c.pointer, v, c.pointer + k)
    ensures AfterSpecialRelativeOrAuthority(v, Further(c, k)) == MovedOn(AfterSpecialRelativeOrAuthority(t, c), k)
  {
    hide DriveAhead;
  }

  lemma Relatives(t: Input, c: Config, v: Input, k: int)
    requires SameView(t, c.pointer, v, c.pointer + k) && t.base == v.base
    ensures AfterRelative(v, Further(c, k)) == MovedOn(AfterRelative(t, c), k)
  {
    hide IsSpecialScheme, FromBase, DriveAhead;
  }

  lemma RelativeSlashes(t: Input, c: Config, v: Input, k: int)
    requires SameView(t, c.pointer, v, c.pointer + k) && t.base == v.base
    ensures AfterRelativeSlash(v, Further(c, k)) == MovedOn(AfterRelativeSlash(t, c), k)
  {
    hide IsSpecialScheme, DriveAhead;
  }

  lemma Files(t: Input, c: Config, v: Input, k: int)
    requires SameView(t, c.pointer, v, c.pointer + k) && t.base == v.base
    ensures AfterFile(v, Further(c, k)) == MovedOn(AfterFile(t, c), k)
  {
    hide DriveAhead;
    var chr := t.At(c.pointer);
    if chr == Some(SLASH) || chr == Some(BACKSLASH) || !t.HasBase(FILE) {
      hide Shortened;
    } else if chr.None? || chr.value == QUESTION || chr.value == HASH {
      BasedFiles(t, c, v, k);
    } else {
      PathFiles(t, c, v, k);
    }
  }

  lemma BasedFiles(t: Input, c: Config, v: Input, k: int)
    requires SameView(t, c.pointer, v, c.pointer + k) && t.base == v.base && t.HasBase(FILE)
    requires var chr := t.At(c.pointer); chr.None? || chr.value == QUESTION || chr.value == HASH
    ensures AfterFile(v, Further(c, k)) == MovedOn(AfterFile(t, c), k)
  {
    hide DriveAhead, Shortened;
  }

  lemma PathFiles(t: Input, c: Config, v: Input, k: int)
    requires SameView(t, c.pointer, v, c.pointer + k) && t.base == v.base && t.HasBase(FILE)
    requires var chr := t.At(c.pointer); chr.Some? && chr.value !in {QUESTION, HASH, SLASH, BACKSLASH}
    ensures AfterFile(v, Further(c, k)) == MovedOn(AfterFile(t, c), k)
  {
    hide DriveAhead, Shortened;
  }

  lemma FileSlashes(t: Input, c: Config, v: Input, k: int)
    requires SameView(t, c.pointer, v, c.pointer + k) && t.base == v.base
    ensures AfterFileSlash(v, Further(c, k)) == MovedOn(AfterFileSlash(t, c), k)
  {
    hide DriveAhead, IsWindowsDriveLetter;
  }

  lemma IgnoredSlashes(t: Input, c: Config, v: Input, k: int)
    requires SameView(t, c.pointer, v, c.pointer + k)
    ensures AfterSpecialAuthorityIgnoreSlashes(v, Further(c, k)) == MovedOn(AfterSpecialAuthorityIgnoreSlashes(t, c), k)
  {
    hide DriveAhead;
  }

  lemma PathOrAuthorities(t: Input, c: Config, v: Input, k: int)
    requires SameView(t, c.pointer, v, c.pointer + k)
    ensures AfterPathOrAuthority(v, Further(c, k)) == MovedOn(AfterPathOrAuthority(t, c), k)
  {
    hide DriveAhead;
  }

  lemma Authorities(t: Input, c: Config, v: Input, k: int)
    requires SameView(t, c.pointer, v, c.pointer + k)
    ensures AfterAuthority(v, Further(c, k)) == MovedOn(AfterAuthority(t, c), k)
  {
    UserinfoMoved(c, k);
    hide IsSpecialScheme, AfterAt, DriveAhead;
  }

  lemma UserinfoMoved(c: Config, k: int)
    ensures AfterAt(Further(c, k)) == MovedOn(AfterAt(c), k)
  {
    hide Encodes, PasswordAt, PasswordFrom;
  }

  lemma Hosts(t: Input, c: Config, v: Input, k: int)
    requires SameView(t, c.pointer, v, c.pointer + k) && t.override == v.override && t.lower == v.lower
    ensures AfterHost(v, Further(c, k)) == MovedOn(AfterHost(t, c), k)
  {
    HostColons(t, c, v, k);
    HostEnds(t, c, v, k);
    hide IsSpecialScheme, DriveAhead, AfterHostColon, AfterHostEnd;
  }

  lemma HostColons(t: Input, c: Config, v: Input, k: int)
    requires t.override == v.override && t.lower == v.lower
    ensures AfterHostColon(v, Further(c, k)) == MovedOn(AfterHostColon(t, c), k)
  {
    hide IsSpecialScheme, HostReading;
  }

  lemma HostEnds(t: Input, c: Config, v: Input, k: int)
    requires t.override == v.override && t.lower == v.lower
    ensures AfterHostEnd(v, Further(c, k)) == MovedOn(AfterHostEnd(t, c), k)
  {
    hide IsSpecialScheme, HostReading;
  }

  lemma Ports(t: Input, c: Config, v: Input, k: int)
    requires SameView(t, c.pointer, v, c.pointer + k) && t.override == v.override
    ensures AfterPort(v, Further(c, k)) == MovedOn(AfterPort(t, c), k)
  {
    hide IsSpecialScheme, KeptPort, Ip.Value, DriveAhead;
  }

  lemma FileHosts(t: Input, c: Config, v: Input, k: int)
    requires SameView(t, c.pointer, v, c.pointer + k) && t.override == v.override && t.lower == v.lower
    ensures AfterFileHost(v, Further(c, k)) == MovedOn(AfterFileHost(t, c), k)
  {
    hide IsSpecialScheme, HostReading, IsWindowsDriveLetter, DriveAhead;
  }

  lemma PathStarts(t: Input, c: Config, v: Input, k: int)
    requires SameView(t, c.pointer, v, c.pointer + k) && t.override == v.override
    ensures AfterPathStart(v, Further(c, k)) == MovedOn(AfterPathStart(t, c), k)
  {
    hide IsSpecialScheme, DriveAhead;
  }

  lemma Paths(t: Input, c: Config, v: Input, k: int)
    requires SameView(t, c.pointer, v, c.pointer + k) && t.override == v.override
    ensures AfterPath(v, Further(c, k)) == MovedOn(AfterPath(t, c), k)
  {
    hide IsSpecialScheme, PathEnded, PercentEncode, DriveAhead;
  }

  lemma OpaquePaths(t: Input, c: Config, v: Input, k: int)
    requires SameView(t, c.pointer, v, c.pointer + k)
    ensures AfterCannotBeABase(v, Further(c, k)) == MovedOn(AfterCannotBeABase(t, c), k)
  {
    hide PercentEncode, FirstGrown, DriveAhead;
  }

  lemma Queries(t: Input, c: Config, v: Input, k: int)
    requires SameView(t, c.pointer, v, c.pointer + k) && t.override == v.override
    ensures AfterQuery(v, Further(c, k)) == MovedOn(AfterQuery(t, c), k)
  {
    hide IsSpecialScheme, QueryEncode, PlusText, DriveAhead;
  }

  lemma Fragments(t: Input, c: Config, v: Input, k: int)
    requires SameView(t, c.pointer, v, c.pointer + k)
    ensures AfterFragment(v, Further(c, k)) == MovedOn(AfterFragment(t, c), k)
  {
    hide PercentEncode, PlusText, DriveAhead;
  }

  lemma SameMoves(t: Input, c: Config, v: Input, k: int)
    requires SameView(t, c.pointer, v, c.pointer + k) && t.override == v.override && t.lower == v.lower
    requires t.base == v.base || BaseFree(c.stage)
    requires c.stage !in {SchemeStart, Scheme}
    ensures After(v, Further(c, k)) == MovedOn(After(t, c), k)
  {
    hide MovedOn, SameView, AfterAuthority, AfterCannotBeABase, AfterFile, AfterFileHost, AfterFileSlash, AfterFragment, AfterHost, AfterNoScheme, AfterPath, AfterPathOrAuthority, AfterPathStart, AfterPort, AfterQuery, AfterRelative, AfterRelativeSlash, AfterSpecialAuthorityIgnoreSlashes, AfterSpecialRelativeOrAuthority;
    match c.stage {
      case NoScheme => SchemeLess(t, c, v, k);
      case SpecialRelativeOrAuthority => RelativeOrAuthority(t, c, v, k);
      case Relative => Relatives(t, c, v, k);
      case RelativeSlash => RelativeSlashes(t, c, v, k);
      case File => Files(t, c, v, k);
      case FileSlash => FileSlashes(t, c, v, k);
      case SpecialAuthorityIgnoreSlashes => IgnoredSlashes(t, c, v, k);
      case PathOrAuthority => PathOrAuthorities(t, c, v, k);
      case Authority => Authorities(t, c, v, k);
      case HostName => Hosts(t, c, v, k);
      case HostOnly => Hosts(t, c, v, k);
      case Port => Ports(t, c, v, k);
      case FileHost => FileHosts(t, c, v, k);
      case PathStart => PathStarts(t, c, v, k);
      case Path => Paths(t, c, v, k);
      case CannotBeABase => OpaquePaths(t, c, v, k);
      case Query => Queries(t, c, v, k);
      case Fragment => Fragments(t, c, v, k);
      case SpecialAuthoritySlashes => SlashesMoved(c, k);
    }
  }

  lemma SlashesMoved(c: Config, k: int)
    ensures AfterSpecialAuthoritySlashes(Further(c, k)) == MovedOn(AfterSpecialAuthoritySlashes(c), k)
  {
  }

  /** A turn never goes back behind the text in the buffer, and never to the scheme. */
  predicate Onward(c: Config, d: Config) {
    && d.stage !in {SchemeStart, Scheme} && c.pointer - Backward(c) <= d.pointer - Backward(d)
    && (BaseFree(c.stage) ==> BaseFree(d.stage))
  }

  lemma SchemeLessOnward(t: Input, c: Config)
    requires c.stage == NoScheme && AfterNoScheme(t, c).next.Loop?
    ensures Onward(c, AfterNoScheme(t, c).config)
  {
    hide DriveAhead;
  }

  lemma RelativeOrAuthorityOnward(t: Input, c: Config)
    requires c.stage == SpecialRelativeOrAuthority && AfterSpecialRelativeOrAuthority(t, c).next.Loop?
    ensures Onward(c, AfterSpecialRelativeOrAuthority(t, c).config)
  {
    hide DriveAhead;
  }

  lemma RelativesOnward(t: Input, c: Config)
    requires c.stage == Relative && AfterRelative(t, c).next.Loop?
    ensures Onward(c, AfterRelative(t, c).config)
  {
    hide IsSpecialScheme, FromBase, DriveAhead;
  }

  lemma RelativeSlashesOnward(t: Input, c: Config)
    requires c.stage == RelativeSlash && AfterRelativeSlash(t, c).next.Loop?
    ensures Onward(c, AfterRelativeSlash(t, c).config)
  {
    hide IsSpecialScheme, DriveAhead;
  }

  lemma FilesOnward(t: Input, c: Config)
    requires c.stage == File && AfterFile(t, c).next.Loop?
    ensures Onward(c, AfterFile(t, c).config)
  {
    hide DriveAhead, Shortened;
  }

  lemma FileSlashesOnward(t: Input, c: Config)
    requires c.stage == FileSlash && AfterFileSlash(t, c).next.Loop?
    ensures Onward(c, AfterFileSlash(t, c).config)
  {
    hide DriveAhead, IsWindowsDriveLetter;
  }

  lemma IgnoredSlashesOnward(t: Input, c: Config)
    requires c.stage == SpecialAuthorityIgnoreSlashes && AfterSpecialAuthorityIgnoreSlashes(t, c).next.Loop?
    ensures Onward(c, AfterSpecialAuthorityIgnoreSlashes(t, c).config)
  {
    hide DriveAhead;
  }

  lemma PathOrAuthoritiesOnward(t: Input, c: Config)
    requires c.stage == PathOrAuthority && AfterPathOrAuthority(t, c).next.Loop?
    ensures Onward(c, AfterPathOrAuthority(t, c).config)
  {
    hide DriveAhead;
  }

  lemma HostsOnward(t: Input, c: Config)
    requires (c.stage == HostName || c.stage == HostOnly) && AfterHost(t, c).next.Loop?
    ensures Onward(c, AfterHost(t, c).config)
  {
    hide IsSpecialScheme, HostReading, DriveAhead;
  }

  lemma PortsOnward(t: Input, c: Config)
    requires c.stage == Port && AfterPort(t, c).next.Loop?
    ensures Onward(c, AfterPort(t, c).config)
  {
    hide IsSpecialScheme, KeptPort, Ip.Value, DriveAhead;
  }

  lemma FileHostsOnward(t: Input, c: Config)
    requires c.stage == FileHost && AfterFileHost(t, c).next.Loop?
    ensures Onward(c, AfterFileHost(t, c).config)
  {
    hide IsSpecialScheme, HostReading, IsWindowsDriveLetter, DriveAhead;
  }

  lemma PathStartsOnward(t: Input, c: Config)
    requires c.stage == PathStart && AfterPathStart(t, c).next.Loop?
    ensures Onward(c, AfterPathStart(t, c).config)
  {
    hide IsSpecialScheme, DriveAhead;
  }

  lemma PathsOnward(t: Input, c: Config)
    requires c.stage == Path && AfterPath(t, c).next.Loop?
    ensures Onward(c, AfterPath(t, c).config)
  {
    hide IsSpecialScheme, PathEnded, PercentEncode, DriveAhead;
  }

  lemma OpaquePathsOnward(t: Input, c: Config)
    requires c.stage == CannotBeABase && AfterCannotBeABase(t, c).next.Loop?
    ensures Onward(c, AfterCannotBeABase(t, c).config)
  {
    hide PercentEncode, FirstGrown, DriveAhead;
  }

  lemma QueriesOnward(t: Input, c: Config)
    requires c.stage == Query && AfterQuery(t, c).next.Loop?
    ensures Onward(c, AfterQuery(t, c).config)
  {
    hide IsSpecialScheme, QueryEncode, PlusText, DriveAhead;
  }

  lemma FragmentsOnward(t: Input, c: Config)
    requires c.stage == Fragment && AfterFragment(t, c).next.Loop?
    ensures Onward(c, AfterFragment(t, c).config)
  {
    hide PercentEncode, PlusText, DriveAhead;
  }

  lemma AuthorityOnward(t: Input, c: Config)
    requires c.stage == Authority && AfterAuthority(t, c).next.Loop?
    ensures Onward(c, AfterAuthority(t, c).config)
  {
    hide IsSpecialScheme, Encodes, PasswordAt, PasswordFrom;
  }

  lemma MovesOnward(t: Input, c: Config)
    requires c.stage !in {SchemeStart, Scheme} && After(t, c).next.Loop?
    ensures Onward(c, After(t, c).config)
  {
    hide Onward, AfterAuthority, AfterCannotBeABase, AfterFile, AfterFileHost, AfterFileSlash, AfterFragment, AfterHost, AfterNoScheme, AfterPath, AfterPathOrAuthority, AfterPathStart, AfterPort, AfterQuery, AfterRelative, AfterRelativeSlash, AfterSpecialAuthorityIgnoreSlashes, AfterSpecialRelativeOrAuthority;
    match c.stage {
      case NoScheme => SchemeLessOnward(t, c);
      case SpecialRelativeOrAuthority => RelativeOrAuthorityOnward(t, c);
      case Relative => RelativesOnward(t, c);
      case RelativeSlash => RelativeSlashesOnward(t, c);
      case File => FilesOnward(t, c);
      case FileSlash => FileSlashesOnward(t, c);
      case SpecialAuthorityIgnoreSlashes => IgnoredSlashesOnward(t, c);
      case PathOrAuthority => PathOrAuthoritiesOnward(t, c);
      case Authority => AuthorityOnward(t, c);
      case HostName => HostsOnward(t, c);
      case HostOnly => HostsOnward(t, c);
      case Port => PortsOnward(t, c);
      case FileHost => FileHostsOnward(t, c);
      case PathStart => PathStartsOnward(t, c);
      case Path => PathsOnward(t, c);
      case CannotBeABase => OpaquePathsOnward(t, c);
      case Query => QueriesOnward(t, c);
      case Fragment => FragmentsOnward(t, c);
      case SpecialAuthoritySlashes => SlashesOnward(c);
    }
  }

  lemma SlashesOnward(c: Config)
    requires c.stage == SpecialAuthoritySlashes
    ensures Onward(c, AfterSpecialAuthoritySlashes(c).config)
  {
  }

  // ---------- Runs before the same text ----------

  lemma AlikeTurn(t: Input, c: Config, v: Input, d: Config, from: int)
    requires Alike(t, c, v, d, from) && c.pointer <= |t.cps|
    ensures d.pointer <= |v.cps| && After(v, d) == MovedOn(After(t, c), d.pointer - c.pointer)
    ensures After(t, c).next.Loop? ==> Alike(t, After(t, c).config, v, After(v, d).config, from)
  {
    hide After, SameText, SameView;
    AlikeSees(t, c, v, d, from);
    SameMoves(t, c, v, d.pointer - c.pointer);
    if After(t, c).next.Loop? { MovesOnward(t, c); }
  }

  lemma {:induction false} AlikeRuns(t: Input, c: Config, trace: seq<Config>, o: Outcome, e: Config, v: Input, d: Config, from: int,
      p: Outcome, f: Config)
    requires Alike(t, c, v, d, from) && IsParse(t, c, trace, o, e) && Ends(v, d, p, f)
    ensures o == p && (o.Thrown? || f.url == e.url)
    decreases |trace|
  {
    hide After, Ends, SameText, Backward;
    assert Ends(t, c, o, e) by { EndsBy(t, c, trace, o, e); }
    AlikeSees(t, c, v, d, from);
    if c.pointer > |t.cps| {
      Arrived(t, c, o, e);
      Arrived(v, d, p, f);
    } else {
      AlikeTurn(t, c, v, d, from);
      if After(t, c).next.Stop? {
        Halted(t, c, o, e);
        Halted(v, d, p, f);
      } else {
        Step(v, d, p, f);
        if |trace| > 1 {
          TraceRest(t, trace, o, e);
          AlikeRuns(t, trace[1], trace[1..], o, e, v, After(v, d).config, from, p, f);
        }
      }
    }
  }

  /** Two runs that stand in one state before one text come to one URL, or to one failure. */
  lemma SameAhead(t: Input, c: Config, o: Outcome, e: Config, v: Input, d: Config, from: int, p: Outcome, f: Config)
    requires Alike(t, c, v, d, from) && Ends(t, c, o, e) && Ends(v, d, p, f)
    ensures o == p && (o.Thrown? || f.url == e.url)
  {
    hide IsParse, Alike;
    var trace :| IsParse(t, c, trace, o, e);
    AlikeRuns(t, c, trace, o, e, v, d, from, p, f);
  }

  // ---------- The port is not looked at behind the authority ----------

  function WithPort(c: Config, port: Option<int>): Config { c.(url := c.url.(port := port)) }

  function MoveWithPort(m: Move, port: Option<int>): Move { Move(m.next, WithPort(m.config, port)) }

  lemma PortAside(u: Url, port: Option<int>, segment: seq<int>, slash: bool, end: bool)
    ensures PathEnded(u.(port := port), segment, slash, end) == PathEnded(u, segment, slash, end).(port := port)
    ensures PathEnded(u, segment, slash, end).port == u.port
  {
    hide IsSingleDot, IsDoubleDot, IsWindowsDriveLetter, DropEmpty;
  }

  lemma PathPort(t: Input, c: Config, port: Option<int>)
    ensures var m := AfterPath(t, c); AfterPath(t, WithPort(c, port)) == MoveWithPort(m, port) && m.config.url.port == c.url.port
  {
    hide IsSpecialScheme, PathEnded, PercentEncode;
    var chr := t.At(c.pointer);
    PortAside(c.url, port, c.buffer, IsSlash(chr, c.url), chr.None? || chr.value in {QUESTION, HASH});
  }

  lemma PathStartPort(t: Input, c: Config, port: Option<int>)
    ensures var m := AfterPathStart(t, c);
            AfterPathStart(t, WithPort(c, port)) == MoveWithPort(m, port) && m.config.url.port == c.url.port
  {
    hide IsSpecialScheme;
  }

  lemma QueryPort(t: Input, c: Config, port: Option<int>)
    ensures var m := AfterQuery(t, c);
            AfterQuery(t, WithPort(c, port)) == MoveWithPort(m, port) && m.config.url.port == c.url.port
  {
    hide IsSpecialScheme, QueryEncode, PlusText;
  }

  lemma FragmentPort(t: Input, c: Config, port: Option<int>)
    ensures var m := AfterFragment(t, c);
            AfterFragment(t, WithPort(c, port)) == MoveWithPort(m, port) && m.config.url.port == c.url.port
  {
    hide PercentEncode, PlusText;
  }

  lemma TurnPort(t: Input, c: Config, port: Option<int>)
    requires BehindAuthority(c.stage)
    ensures After(t, WithPort(c, port)) == MoveWithPort(After(t, c), port) && After(t, c).config.url.port == c.url.port
  {
    assert WithPort(c, port).stage == c.stage;
    hide AfterPath, AfterPathStart, AfterQuery, AfterFragment, WithPort, MoveWithPort;
    match c.stage {
      case PathStart => PathStartPort(t, c, port);
      case Path => PathPort(t, c, port);
      case Query => QueryPort(t, c, port);
      case Fragment => FragmentPort(t, c, port);
    }
  }

  lemma StaysBehind(t: Input, c: Config)
    requires BehindAuthority(c.stage) && After(t, c).next.Loop?
    ensures BehindAuthority(After(t, c).config.stage)
  {
    hide IsSpecialScheme, PathEnded, PercentEncode, QueryEncode, PlusText;
  }

  /** A run from the next configuration is the rest of a run from this one. */
  lemma Unstep(t: Input, c: Config, o: Outcome, e: Config)
    requires c.pointer <= |t.cps| && After(t, c).next.Loop? && Ends(t, After(t, c).config, o, e)
    ensures Ends(t, c, o, e)
  {
    hide After;
    var d := After(t, c).config;
    var rest :| IsParse(t, d, rest, o, e);
    var trace := [c] + rest;
    assert trace[|trace| - 1] == rest[|rest| - 1];
    forall i | 0 <= i < |trace| - 1 ensures trace[i].pointer <= |t.cps| && Turns(t, trace[i], Move(Loop, trace[i + 1])) {
      if i > 0 { assert Turns(t, rest[i - 1], Move(Loop, rest[i])); }
    }
    assert IsParse(t, c, trace, o, e);
  }

  lemma Stops(t: Input, c: Config, m: Move)
    requires c.pointer <= |t.cps| && m.next.Stop? && Agrees(m, After(t, c))
    ensures Ends(t, c, m.next.outcome, m.config)
  {
    hide After;
    assert IsParse(t, c, [c], m.next.outcome, m.config);
  }

  lemma RunsOff(t: Input, c: Config)
    requires c.pointer > |t.cps|
    ensures Ends(t, c, Parsed, c)
  {
    hide Turns;
    assert IsParse(t, c, [c], Parsed, c);
  }

  /** From behind the authority the run is the same for any port, and keeps it. */
  lemma {:induction false} AnyPort(t: Input, c: Config, trace: seq<Config>, o: Outcome, e: Config, port: Option<int>)
    requires BehindAuthority(c.stage) && IsParse(t, c, trace, o, e)
    ensures Ends(t, WithPort(c, port), o, WithPort(e, port)) && (o.Thrown? || e.url.port == c.url.port)
    decreases |trace|
  {
    hide After, Ends;
    assert Ends(t, c, o, e) by { EndsBy(t, c, trace, o, e); }
    var d := WithPort(c, port);
    if c.pointer > |t.cps| {
      Arrived(t, c, o, e);
      RunsOff(t, d);
    } else {
      TurnPort(t, c, port);
      if After(t, c).next.Stop? {
        Halted(t, c, o, e);
        Stops(t, d, Move(Stop(o), WithPort(e, port)));
      } else {
        Step(t, c, o, e);
        StaysBehind(t, c);
        if |trace| > 1 {
          TraceRest(t, trace, o, e);
          AnyPort(t, trace[1], trace[1..], o, e, port);
          Unstep(t, d, o, WithPort(e, port));
        }
      }
    }
  }
}
