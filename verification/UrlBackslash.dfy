/**
 In a special URL js/secsdk-lastest.umd.js reads a backslash as a slash: changing any of the slashes in front of the
 query and the fragment changes nothing in what a text comes to.
 */
module UrlBackslash {
  import opened Wrappers
  import opened UrlRecord
  import opened UrlHost
  import opened UrlStates
  import opened UrlRuns
  import opened UrlShift
  import opened UrlSame
  import opened UrlReference
  import Ip = IpAddress

  predicate IsEither(x: int) { x == SLASH || x == BACKSLASH }

  predicate TailBegun(s: seq<int>, i: nat)
    requires i <= |s|
  {
    QUESTION in s[..i] || HASH in s[..i]
  }

  /** The texts differ only in which slash they use in front of the query and the fragment. */
  predicate Slashed(a: seq<int>, b: seq<int>) {
    && |a| == |b|
    && forall i :: 0 <= i < |a| ==> a[i] == b[i] || (IsEither(a[i]) && IsEither(b[i]) && !TailBegun(a, i))
  }

  predicate SameOrSlash(x: Option<int>, y: Option<int>) {
    x == y || (x.Some? && y.Some? && IsEither(x.value) && IsEither(y.value))
  }

  /** What two runs see at one place. */
  predicate SlashedView(t: Input, v: Input, i: int) {
    && t.override.None? && v.override.None? && SameOrSlash(t.At(i), v.At(i)) && SameOrSlash(t.At(i + 1), v.At(i + 1))
    && DriveAhead(t, i) == DriveAhead(v, i)
  }

  lemma SlashedDrive(a: seq<int>, b: seq<int>, i: nat)
    requires Slashed(a, b) && i <= |a|
    ensures StartsWithWindowsDriveLetter(a[i..]) == StartsWithWindowsDriveLetter(b[i..])
  {
    var x, y := a[i..], b[i..];
    if |x| > 1 {
      assert x[0] == a[i] && y[0] == b[i] && x[1] == a[i + 1] && y[1] == b[i + 1];
      assert x[..2] == [x[0], x[1]] && y[..2] == [y[0], y[1]];
      if |x| > 2 { assert x[2] == a[i + 2] && y[2] == b[i + 2]; }
    }
  }

  lemma SlashedSees(t: Input, v: Input, i: int)
    requires Slashed(t.cps, v.cps) && t.override.None? && v.override.None? && 0 <= i <= |t.cps|
    ensures SlashedView(t, v, i)
  {
    hide StartsWithWindowsDriveLetter;
    SlashedDrive(t.cps, v.cps, i);
  }

  /** The URL read, or the base it is read against, is special. */
  predicate ForSpecial(t: Input, c: Config) {
    match c.stage
    case Relative => t.base.Some? && IsSpecial(t.base.value)
    case File => true
    case FileSlash => c.url.scheme == FILE
    case FileHost => c.url.scheme == FILE
    case _ => IsSpecial(c.url)
  }

  lemma RelativesAlike(t: Input, v: Input, c: Config)
    requires SlashedView(t, v, c.pointer) && t.base == v.base && t.base.Some? && IsSpecial(t.base.value)
    ensures AfterRelative(v, c) == AfterRelative(t, c)
  {
    hide IsSpecialScheme, AfterReference, DriveAhead;
  }

  lemma RelativeSlashesAlike(t: Input, v: Input, c: Config)
    requires SlashedView(t, v, c.pointer) && t.base == v.base && IsSpecial(c.url)
    ensures AfterRelativeSlash(v, c) == AfterRelativeSlash(t, c)
  {
    hide IsSpecialScheme, DriveAhead;
  }

  lemma FilesAlike(t: Input, v: Input, c: Config)
    requires SlashedView(t, v, c.pointer) && t.base == v.base
    ensures AfterFile(v, c) == AfterFile(t, c)
  {
    hide DriveAhead, Shortened;
  }

  lemma FileSlashesAlike(t: Input, v: Input, c: Config)
    requires SlashedView(t, v, c.pointer) && t.base == v.base
    ensures AfterFileSlash(v, c) == AfterFileSlash(t, c)
  {
    hide DriveAhead, IsWindowsDriveLetter;
  }

  lemma IgnoredSlashesAlike(t: Input, v: Input, c: Config)
    requires SlashedView(t, v, c.pointer)
    ensures AfterSpecialAuthorityIgnoreSlashes(v, c) == AfterSpecialAuthorityIgnoreSlashes(t, c)
  {
    hide DriveAhead;
  }

  lemma AuthoritiesAlike(t: Input, v: Input, c: Config)
    requires SlashedView(t, v, c.pointer) && IsSpecial(c.url)
    ensures AfterAuthority(v, c) == AfterAuthority(t, c)
  {
    hide IsSpecialScheme, AfterAt, DriveAhead;
  }

  lemma HostsAlike(t: Input, v: Input, c: Config)
    requires SlashedView(t, v, c.pointer) && t.lower == v.lower && IsSpecial(c.url)
    ensures AfterHost(v, c) == AfterHost(t, c)
  {
    HostEndsAlike(t, v, c);
    hide IsSpecialScheme, AfterHostColon, AfterHostEnd, DriveAhead;
  }

  lemma HostEndsAlike(t: Input, v: Input, c: Config)
    requires t.lower == v.lower && t.override.None? && v.override.None?
    ensures AfterHostColon(v, c) == AfterHostColon(t, c) && AfterHostEnd(v, c) == AfterHostEnd(t, c)
  {
    hide IsSpecialScheme, HostReading;
  }

  lemma PortsAlike(t: Input, v: Input, c: Config)
    requires SlashedView(t, v, c.pointer) && IsSpecial(c.url)
    ensures AfterPort(v, c) == AfterPort(t, c)
  {
    hide IsSpecialScheme, KeptPort, Ip.Value, DriveAhead;
  }

  lemma FileHostsAlike(t: Input, v: Input, c: Config)
    requires SlashedView(t, v, c.pointer) && t.lower == v.lower
    ensures AfterFileHost(v, c) == AfterFileHost(t, c)
  {
    FileNameAlike(t, v, c);
    hide IsSpecialScheme, AfterFileHostName, IsWindowsDriveLetter, DriveAhead;
  }

  lemma FileNameAlike(t: Input, v: Input, c: Config)
    requires t.lower == v.lower && t.override.None? && v.override.None?
    ensures AfterFileHostName(v, c) == AfterFileHostName(t, c)
  {
    hide IsSpecialScheme, HostReading;
  }

  lemma PathStartsAlike(t: Input, v: Input, c: Config)
    requires SlashedView(t, v, c.pointer) && IsSpecial(c.url)
    ensures AfterPathStart(v, c) == AfterPathStart(t, c)
  {
    hide IsSpecialScheme, DriveAhead;
  }

  lemma PathsAlike(t: Input, v: Input, c: Config)
    requires SlashedView(t, v, c.pointer) && IsSpecial(c.url)
    ensures AfterPath(v, c) == AfterPath(t, c)
  {
    SegmentAlike(c, t.At(c.pointer), v.At(c.pointer));
    hide IsSpecialScheme, AfterSegment, PercentEncode, DriveAhead;
  }

  lemma SegmentAlike(c: Config, x: Option<int>, y: Option<int>)
    requires SameOrSlash(x, y) && IsSpecial(c.url)
    ensures AfterSegment(c, y) == AfterSegment(c, x)
  {
    hide IsSpecialScheme, PathEnded;
  }

  lemma OneTurn(t: Input, v: Input, c: Config)
    requires SlashedView(t, v, c.pointer) && t.base == v.base && t.lower == v.lower && ForSpecial(t, c)
    requires c.stage !in {SchemeStart, Scheme, NoScheme, SpecialRelativeOrAuthority, PathOrAuthority, CannotBeABase, Query, Fragment}
    ensures After(v, c) == After(t, c)
  {
    hide SlashedView, AfterAuthority, AfterFile, AfterFileHost, AfterFileSlash, AfterHost, AfterPath,
      AfterPathStart, AfterPort, AfterRelative, AfterRelativeSlash, AfterSpecialAuthorityIgnoreSlashes;
    match c.stage {
      case Relative => RelativesAlike(t, v, c);
      case RelativeSlash => RelativeSlashesAlike(t, v, c);
      case File => FilesAlike(t, v, c);
      case FileSlash => FileSlashesAlike(t, v, c);
      case SpecialAuthorityIgnoreSlashes => IgnoredSlashesAlike(t, v, c);
      case Authority => AuthoritiesAlike(t, v, c);
      case HostName => HostsAlike(t, v, c);
      case HostOnly => HostsAlike(t, v, c);
      case Port => PortsAlike(t, v, c);
      case FileHost => FileHostsAlike(t, v, c);
      case PathStart => PathStartsAlike(t, v, c);
      case Path => PathsAlike(t, v, c);
      case SpecialAuthoritySlashes =>
    }
  }

  // ---------- What a turn leaves special ----------

  predicate ReadsSlashes(s: Stage) {
    s in {Relative, RelativeSlash, File, FileSlash, SpecialAuthoritySlashes, SpecialAuthorityIgnoreSlashes, Authority, HostName,
          Port, FileHost, PathStart, Path}
  }

  /** The next state reads slashes too, or the query or the fragment has begun. */
  predicate StaysSpecial(t: Input, c: Config, d: Config) {
    if d.stage == Query || d.stage == Fragment then
      d.pointer == c.pointer + 1 && (t.At(c.pointer) == Some(QUESTION) || t.At(c.pointer) == Some(HASH))
    else ReadsSlashes(d.stage) && ForSpecial(t, d)
  }

  lemma RelativesStay(t: Input, c: Config)
    requires c.stage == Relative && t.override.None? && ForSpecial(t, c) && AfterRelative(t, c).next.Loop?
    ensures StaysSpecial(t, c, AfterRelative(t, c).config)
  {
    hide IsSpecialScheme, DriveAhead;
  }

  lemma RelativeSlashesStay(t: Input, c: Config)
    requires c.stage == RelativeSlash && t.override.None? && ForSpecial(t, c) && AfterRelativeSlash(t, c).next.Loop?
    ensures StaysSpecial(t, c, AfterRelativeSlash(t, c).config)
  {
    hide IsSpecialScheme, DriveAhead;
  }

  lemma FilesStay(t: Input, c: Config)
    requires c.stage == File && t.override.None? && ForSpecial(t, c) && AfterFile(t, c).next.Loop?
    ensures StaysSpecial(t, c, AfterFile(t, c).config)
  {
    FileIsSpecial();
    ShortenedScheme(c.url);
    hide IsSpecialScheme, DriveAhead, Shortened;
  }

  lemma ShortenedScheme(u: Url)
    ensures forall v: Url :: Shortened(v).scheme == v.scheme
  {
  }

  lemma FileSlashesStay(t: Input, c: Config)
    requires c.stage == FileSlash && t.override.None? && ForSpecial(t, c) && AfterFileSlash(t, c).next.Loop?
    ensures StaysSpecial(t, c, AfterFileSlash(t, c).config)
  {
    FileIsSpecial();
    hide IsSpecialScheme, DriveAhead, IsWindowsDriveLetter;
  }

  lemma IgnoredSlashesStay(t: Input, c: Config)
    requires c.stage == SpecialAuthorityIgnoreSlashes && t.override.None? && ForSpecial(t, c) &&
      AfterSpecialAuthorityIgnoreSlashes(t, c).next.Loop?
    ensures StaysSpecial(t, c, AfterSpecialAuthorityIgnoreSlashes(t, c).config)
  {
    hide DriveAhead;
  }

  lemma AuthoritiesStay(t: Input, c: Config)
    requires c.stage == Authority && t.override.None? && ForSpecial(t, c) && AfterAuthority(t, c).next.Loop?
    ensures StaysSpecial(t, c, AfterAuthority(t, c).config)
  {
    hide IsSpecialScheme, DriveAhead, Encodes, PasswordAt, PasswordFrom;
  }

  lemma HostsStay(t: Input, c: Config)
    requires c.stage == HostName && t.override.None? && ForSpecial(t, c) && AfterHost(t, c).next.Loop?
    ensures StaysSpecial(t, c, AfterHost(t, c).config)
  {
    hide IsSpecialScheme, HostReading, DriveAhead;
  }

  lemma PortsStay(t: Input, c: Config)
    requires c.stage == Port && t.override.None? && ForSpecial(t, c) && AfterPort(t, c).next.Loop?
    ensures StaysSpecial(t, c, AfterPort(t, c).config)
  {
    hide IsSpecialScheme, KeptPort, Ip.Value, DriveAhead;
  }

  lemma FileHostsStay(t: Input, c: Config)
    requires c.stage == FileHost && t.override.None? && ForSpecial(t, c) && AfterFileHost(t, c).next.Loop?
    ensures StaysSpecial(t, c, AfterFileHost(t, c).config)
  {
    FileIsSpecial();
    hide IsSpecialScheme, HostReading, IsWindowsDriveLetter, DriveAhead;
  }

  lemma PathStartsStay(t: Input, c: Config)
    requires c.stage == PathStart && t.override.None? && ForSpecial(t, c) && AfterPathStart(t, c).next.Loop?
    ensures StaysSpecial(t, c, AfterPathStart(t, c).config)
  {
    hide IsSpecialScheme, DriveAhead;
  }

  lemma PathsStay(t: Input, c: Config)
    requires c.stage == Path && t.override.None? && ForSpecial(t, c) && AfterPath(t, c).next.Loop?
    ensures StaysSpecial(t, c, AfterPath(t, c).config)
  {
    SegmentKeeps(c);
    hide IsSpecialScheme, PathEnded, PercentEncode, DriveAhead;
  }

  lemma SegmentKeeps(c: Config)
    ensures forall slash: bool, end: bool :: PathEnded(c.url, c.buffer, slash, end).scheme == c.url.scheme
  {
    forall slash: bool, end: bool ensures PathEnded(c.url, c.buffer, slash, end).scheme == c.url.scheme {
      PathEndedKeeps(c.url, c.buffer, slash, end);
    }
  }

  lemma TurnStays(t: Input, c: Config)
    requires ReadsSlashes(c.stage) && t.override.None? && ForSpecial(t, c) && After(t, c).next.Loop?
    ensures StaysSpecial(t, c, After(t, c).config)
  {
    if c.stage == SpecialAuthoritySlashes { return; }
    hide StaysSpecial, ForSpecial, AfterAuthority, AfterFile, AfterFileHost, AfterFileSlash, AfterHost, AfterPath,
      AfterPathStart, AfterPort, AfterRelative, AfterRelativeSlash, AfterSpecialAuthorityIgnoreSlashes;
    match c.stage {
      case Relative => RelativesStay(t, c);
      case RelativeSlash => RelativeSlashesStay(t, c);
      case File => FilesStay(t, c);
      case FileSlash => FileSlashesStay(t, c);
      case SpecialAuthorityIgnoreSlashes => IgnoredSlashesStay(t, c);
      case Authority => AuthoritiesStay(t, c);
      case HostName => HostsStay(t, c);
      case Port => PortsStay(t, c);
      case FileHost => FileHostsStay(t, c);
      case PathStart => PathStartsStay(t, c);
      case Path => PathsStay(t, c);
    }
  }

  // ---------- Runs ----------

  lemma TailSame(t: Input, v: Input, i: int)
    requires Slashed(t.cps, v.cps) && (t.At(i) == Some(QUESTION) || t.At(i) == Some(HASH))
    ensures SameText(t, i + 1, v, i + 1)
  {
    var a, b := t.cps[i + 1..], v.cps[i + 1..];
    forall k | 0 <= k < |a| ensures a[k] == b[k] {
      assert t.cps[i] in t.cps[..i + 1 + k] by { assert t.cps[..i + 1 + k][i] == t.cps[i]; }
    }
  }

  lemma {:induction false} SlashedRuns(t: Input, v: Input, c: Config, trace: seq<Config>, o: Outcome, e: Config, p: Outcome, f: Config)
    requires Slashed(t.cps, v.cps) && t.override.None? && v.override.None? && t.base == v.base && t.lower == v.lower
    requires ReadsSlashes(c.stage) && ForSpecial(t, c) && 0 <= c.pointer - Backward(c)
    requires IsParse(t, c, trace, o, e) && Ends(v, c, p, f)
    ensures Same(o, e, p, f)
    decreases |trace|
  {
    hide After, Ends, Slashed, ForSpecial, Backward;
    assert Ends(t, c, o, e) by { EndsBy(t, c, trace, o, e); }
    SameLength(t, v);
    BackwardNat(c);
    if c.pointer > |t.cps| {
      Arrived(t, c, o, e);
      Arrived(v, c, p, f);
    } else {
      SlashedSees(t, v, c.pointer);
      OneTurn(t, v, c);
      if After(t, c).next.Stop? {
        Halted(t, c, o, e);
        Halted(v, c, p, f);
      } else {
        var d := After(t, c).config;
        TurnStays(t, c);
        MovesOnward(t, c);
        Step(t, c, o, e);
        Step(v, c, p, f);
        if d.stage == Query || d.stage == Fragment {
          TailRuns(t, v, c, d, o, e, p, f);
        } else if |trace| > 1 {
          TraceRest(t, trace, o, e);
          SlashedRuns(t, v, d, trace[1..], o, e, p, f);
        }
      }
    }
  }

  lemma SameLength(t: Input, v: Input)
    requires Slashed(t.cps, v.cps)
    ensures |t.cps| == |v.cps|
  {
  }

  lemma BackwardNat(c: Config)
    requires 0 <= c.pointer - Backward(c)
    ensures 0 <= c.pointer
  {
  }

  lemma TailRuns(t: Input, v: Input, c: Config, d: Config, o: Outcome, e: Config, p: Outcome, f: Config)
    requires Slashed(t.cps, v.cps) && t.override.None? && v.override.None? && t.base == v.base && t.lower == v.lower
    requires StaysSpecial(t, c, d) && (d.stage == Query || d.stage == Fragment) && 0 <= c.pointer
    requires Ends(t, d, o, e) && Ends(v, d, p, f)
    ensures Same(o, e, p, f)
  {
    hide Ends, Slashed;
    TailSame(t, v, c.pointer);
    assert d == Further(d, 0);
    SameAhead(t, d, o, e, v, d, d.pointer, p, f);
  }

  lemma SlashedEnds(t: Input, v: Input, c: Config, o: Outcome, e: Config, p: Outcome, f: Config)
    requires Slashed(t.cps, v.cps) && t.override.None? && v.override.None? && t.base == v.base && t.lower == v.lower
    requires ReadsSlashes(c.stage) && ForSpecial(t, c) && 0 <= c.pointer - Backward(c)
    requires Ends(t, c, o, e) && Ends(v, c, p, f)
    ensures Same(o, e, p, f)
  {
    hide IsParse, Slashed, ForSpecial;
    var trace :| IsParse(t, c, trace, o, e);
    SlashedRuns(t, v, c, trace, o, e, p, f);
  }

  // ---------- Whole texts ----------

  lemma SlashedBehind(s: seq<int>, a: seq<int>, b: seq<int>)
    requires Slashed(a, b) && QUESTION !in s && HASH !in s
    ensures Slashed(s + a, s + b)
  {
    var x, y := s + a, s + b;
    forall i | 0 <= i < |x| ensures x[i] == y[i] || (IsEither(x[i]) && IsEither(y[i]) && !TailBegun(x, i)) {
      if i >= |s| { assert x[..i] == s + a[..i - |s|]; }
    }
  }

  lemma SchemeNoTail(s: seq<int>)
    requires SchemeText(s)
    ensures QUESTION !in s + [COLON] && HASH !in s + [COLON]
  {
  }

  /** Where a special scheme has been read; a slash behind it does not matter. */
  lemma SpecialBehind(t: Input, s: seq<int>, slash: bool)
    requires IsSpecialScheme(s)
    ensures var c := BehindScheme(t, s, slash);
            && c == BehindScheme(t, s, true) && c.pointer == |s| + 1 && c.buffer == [] && c.url == FRESH.(scheme := s)
            && c.stage == (if s == FILE then File else if t.HasBase(s) then SpecialRelativeOrAuthority else SpecialAuthoritySlashes)
  {
    hide IsSpecialScheme;
  }

  /** Against a base of the same scheme two slashes of any kind lead to the authority, and anything else to a reference. */
  lemma SameSchemeMoves(t: Input, s: seq<int>, o: Outcome, e: Config)
    requires t.override.None? && IsSpecialScheme(s) && s != FILE && t.HasBase(s) && Ends(t, BehindScheme(t, s, true), o, e)
    requires |s| + 1 <= |t.cps|
    ensures var x, y := t.At(|s| + 1), t.At(|s| + 2);
            if x.Some? && IsEither(x.value) && y.Some? && IsEither(y.value) then Ends(t, Ignoring(s, |s| + 3), o, e)
            else Ends(t, Config(FRESH.(scheme := s), Relative, |s| + 1, [], false, false, false), o, e)
  {
    hide Ends, After;
    var c := BehindScheme(t, s, true);
    SpecialBehind(t, s, true);
    Step1(t, s);
    Step(t, c, o, e);
    if t.At(|s| + 1) != Some(SLASH) || t.At(|s| + 2) != Some(SLASH) {
      var d := Config(FRESH.(scheme := s), Relative, |s| + 1, [], false, false, false);
      if t.At(|s| + 1).Some? && IsEither(t.At(|s| + 1).value) && t.At(|s| + 2).Some? && IsEither(t.At(|s| + 2).value) {
        Step2(t, s);
        Step(t, d, o, e);
        Step(t, d.(stage := RelativeSlash, pointer := |s| + 2), o, e);
      }
    }
  }

  lemma Step1(t: Input, s: seq<int>)
    requires IsSpecialScheme(s) && s != FILE && t.HasBase(s)
    ensures After(t, BehindScheme(t, s, true)) ==
            Move(Loop, if t.At(|s| + 1) == Some(SLASH) && t.At(|s| + 2) == Some(SLASH) then Ignoring(s, |s| + 3)
                       else Config(FRESH.(scheme := s), Relative, |s| + 1, [], false, false, false))
  {
    SpecialBehind(t, s, true);
    hide IsSpecialScheme, BehindScheme;
  }

  lemma Step2(t: Input, s: seq<int>)
    requires IsSpecialScheme(s) && t.HasBase(s)
    requires t.At(|s| + 1).Some? && IsEither(t.At(|s| + 1).value) && t.At(|s| + 2).Some? && IsEither(t.At(|s| + 2).value)
    ensures var d := Config(FRESH.(scheme := s), Relative, |s| + 1, [], false, false, false);
            var g := d.(stage := RelativeSlash, pointer := |s| + 2);
            After(t, d) == Move(Loop, g) && After(t, g) == Move(Loop, Ignoring(s, |s| + 3))
  {
    hide IsSpecialScheme;
  }

  /** Whatever slashes a text with a special scheme uses, it comes to the same. */
  lemma SlashesAlike(s: seq<int>, a: seq<int>, b: seq<int>, t: Input, o: Outcome, e: Config, v: Input, p: Outcome, f: Config)
    requires SchemeText(s) && IsSpecialScheme(s) && Slashed(a, b)
    requires t == Input(s + ([COLON] + a), t.base, None, t.lower) && Ends(t, Fresh(), o, e)
    requires v == Input(s + ([COLON] + b), t.base, None, t.lower) && Ends(v, Fresh(), p, f)
    ensures Same(o, e, p, f)
  {
    hide Ends, Ahead, IsSpecialScheme, SchemeText, BehindScheme, Slashed;
    SchemeNoTail(s);
    SlashedBehind(s + [COLON], a, b);
    assert s + [COLON] + a == t.cps && s + [COLON] + b == v.cps;
    ReadScheme(t, s, a, o, e);
    ReadScheme(v, s, b, p, f);
    SpecialBehind(t, s, First(a) == Some(SLASH));
    SpecialBehind(v, s, First(b) == Some(SLASH));
    FromScheme(t, v, s, o, e, p, f);
  }

  lemma FromScheme(t: Input, v: Input, s: seq<int>, o: Outcome, e: Config, p: Outcome, f: Config)
    requires Slashed(t.cps, v.cps) && t.override.None? && v.override.None? && t.base == v.base && t.lower == v.lower
    requires IsSpecialScheme(s) && |s| + 1 <= |t.cps|
    requires Ends(t, BehindScheme(t, s, true), o, e) && Ends(v, BehindScheme(v, s, true), p, f)
    ensures Same(o, e, p, f)
  {
    SpecialBehind(t, s, true);
    SpecialBehind(v, s, true);
    SameLength(t, v);
    SlashedSees(t, v, |s| + 1);
    hide Ends, IsSpecialScheme, BehindScheme, Slashed;
    if s != FILE && t.HasBase(s) {
      SameSchemeMoves(t, s, o, e);
      SameSchemeMoves(v, s, p, f);
      var x, y := t.At(|s| + 1), t.At(|s| + 2);
      if x.Some? && IsEither(x.value) && y.Some? && IsEither(y.value) {
        SlashedEnds(t, v, Ignoring(s, |s| + 3), o, e, p, f);
      } else {
        SlashedEnds(t, v, Config(FRESH.(scheme := s), Relative, |s| + 1, [], false, false, false), o, e, p, f);
      }
    } else {
      SlashedEnds(t, v, BehindScheme(t, s, true), o, e, p, f);
    }
  }

  lemma {:induction false} SameSchemeEnds(a: seq<int>, b: seq<int>)
    requires |a| == |b| && forall i :: 0 <= i < |a| ==> a[i] == b[i] || (IsEither(a[i]) && IsEither(b[i]))
    ensures SchemeEnds(a) == SchemeEnds(b)
  {
    if a != [] {
      assert forall i :: 0 <= i < |a[1..]| ==> a[1..][i] == a[i + 1] && b[1..][i] == b[i + 1];
      SameSchemeEnds(a[1..], b[1..]);
    }
  }

  lemma SameHasScheme(a: seq<int>, b: seq<int>)
    requires Slashed(a, b)
    ensures HasScheme(a) <==> HasScheme(b)
  {
    if a != [] {
      assert forall i :: 0 <= i < |a[1..]| ==> a[1..][i] == a[i + 1] && b[1..][i] == b[i + 1];
      SameSchemeEnds(a[1..], b[1..]);
    }
  }

  /** So does a reference against a special base. */
  lemma ReferencesAlike(u: Url, t: Input, o: Outcome, e: Config, v: Input, p: Outcome, f: Config)
    requires IsSpecial(u) && !u.cannotBeABase && Slashed(t.cps, v.cps) && !HasScheme(t.cps)
    requires t == Input(t.cps, Some(u), None, t.lower) && Ends(t, Fresh(), o, e)
    requires v == Input(v.cps, Some(u), None, t.lower) && Ends(v, Fresh(), p, f)
    ensures Same(o, e, p, f)
  {
    SameHasScheme(t.cps, v.cps);
    hide Ends, IsSpecialScheme, Slashed, HasScheme;
    WithoutScheme(t, o, e);
    WithoutScheme(v, p, f);
    Referenced(t, u, o, e);
    Referenced(v, u, p, f);
    SlashedEnds(t, v, Referring(u), o, e, p, f);
  }
}
