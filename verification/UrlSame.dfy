/**
 Different texts that js/secsdk-lastest.umd.js's URL parser reads as one URL: more or fewer slashes behind a special
 scheme, references with and without the scheme of their base, "//host" against any base, and "localhost" in files.
 */
module UrlSame {
  import opened Wrappers
  import opened UrlRecord
  import opened UrlHost
  import opened UrlStates
  import opened UrlRuns
  import opened UrlShift
  import opened UrlPorts
  import opened UrlReference
  import Delimited
  import Ip = IpAddress

  /** Both runs come to the same outcome, and to the same URL unless an exception ends them. */
  predicate Same(o: Outcome, e: Config, p: Outcome, f: Config) { o == p && (o.Thrown? || e.url == f.url) }

  predicate AllSlashes(s: seq<int>) { forall i :: 0 <= i < |s| ==> s[i] == SLASH || s[i] == BACKSLASH }

  predicate NoSlashFirst(s: seq<int>) { s == [] || (s[0] != SLASH && s[0] != BACKSLASH) }

  // ---------- Slashes behind a special scheme ----------

  function Ignoring(s: seq<int>, i: int): Config { Config(FRESH.(scheme := s), SpecialAuthorityIgnoreSlashes, i, [], false, false, false) }

  lemma IgnoreMove(t: Input, s: seq<int>, i: int)
    requires t.At(i) == Some(SLASH) || t.At(i) == Some(BACKSLASH)
    ensures After(t, Ignoring(s, i)) == Move(Loop, Ignoring(s, i + 1))
  {
  }

  lemma {:induction false} IgnoreAll(t: Input, s: seq<int>, i: int, w: seq<int>, rest: seq<int>, o: Outcome, e: Config)
    requires Ends(t, Ignoring(s, i), o, e) && Ahead(t, i, w + rest) && AllSlashes(w)
    ensures Ends(t, Ignoring(s, i + |w|), o, e) && Ahead(t, i + |w|, rest)
    decreases |w|
  {
    hide Ends, Ahead, After, Ignoring;
    if w == [] {
      Empties(rest);
    } else {
      assert w + rest == [w[0]] + (w[1..] + rest);
      AheadFirst(t, i, w[0], w[1..] + rest);
      IgnoreMove(t, s, i);
      IgnoringForm(s, i);
      Step(t, Ignoring(s, i), o, e);
      IgnoreAll(t, s, i + 1, w[1..], rest, o, e);
    }
  }

  lemma IgnoringForm(s: seq<int>, i: int)
    ensures Ignoring(s, i).pointer == i && Ignoring(s, i).stage == SpecialAuthorityIgnoreSlashes
  {
  }

  /** With another base, or none, a special scheme leads to the authority through any number of slashes, none included. */
  lemma SpecialSlashes(t: Input, s: seq<int>, w: seq<int>, rest: seq<int>, o: Outcome, e: Config)
    requires t.override.None? && SchemeText(s) && IsSpecialScheme(s) && s != FILE && !t.HasBase(s) && AllSlashes(w)
    requires t.cps == s + ([COLON] + (w + rest)) && Ends(t, Fresh(), o, e)
    ensures Ends(t, Ignoring(s, |s| + 1 + |w|), o, e) && Ahead(t, |s| + 1 + |w|, rest)
  {
    hide Ends, Ahead, IsSpecialScheme, SchemeText, BehindScheme, After, Ignoring;
    ReadScheme(t, s, w + rest, o, e);
    SpecialBegins(t, s, First(w + rest) == Some(SLASH));
    Step(t, BehindScheme(t, s, First(w + rest) == Some(SLASH)), o, e);
    IgnoreAll(t, s, |s| + 1, w, rest, o, e);
  }

  lemma SpecialBegins(t: Input, s: seq<int>, slash: bool)
    requires IsSpecialScheme(s) && s != FILE && !t.HasBase(s)
    ensures var c := BehindScheme(t, s, slash);
            c.pointer == |s| + 1 && After(t, c) == Move(Loop, Ignoring(s, |s| + 1))
  {
    hide IsSpecialScheme;
  }

  /** "http:h", "http:/h", "http:\\h" and "http://///h" are all "http://h". */
  lemma SlashesDoNotCount(s: seq<int>, a: seq<int>, b: seq<int>, rest: seq<int>, t: Input, o: Outcome, e: Config, v: Input, p: Outcome,
      f: Config)
    requires SchemeText(s) && IsSpecialScheme(s) && s != FILE && AllSlashes(a) && AllSlashes(b)
    requires t == Input(s + ([COLON] + (a + rest)), t.base, None, t.lower) && !t.HasBase(s) && Ends(t, Fresh(), o, e)
    requires v == Input(s + ([COLON] + (b + rest)), v.base, None, t.lower) && !v.HasBase(s) && Ends(v, Fresh(), p, f)
    ensures Same(o, e, p, f)
  {
    hide Ends, IsSpecialScheme, SchemeText;
    SpecialSlashes(t, s, a, rest, o, e);
    SpecialSlashes(v, s, b, rest, p, f);
    SameAhead(t, Ignoring(s, |s| + 1 + |a|), o, e, v, Ignoring(s, |s| + 1 + |b|), |s| + 1 + |a|, p, f);
  }

  // ---------- References with the scheme of their base ----------

  /** Behind the scheme, as a reference: in the state a reference starts in. */
  lemma SchemeGiven(t: Input, b: Url, rest: seq<int>, o: Outcome, e: Config)
    requires t.override.None? && t.base == Some(b) && SchemeText(b.scheme) && IsSpecialScheme(b.scheme)
    requires t.cps == b.scheme + ([COLON] + rest) && Ends(t, Fresh(), o, e)
    requires b.scheme != FILE ==> !(First(rest) == Some(SLASH) && |rest| > 1 && rest[1] == SLASH)
    ensures Ends(t, Config(FRESH.(scheme := b.scheme), if b.scheme == FILE then File else Relative, |b.scheme| + 1, [], false, false,
                false), o, e)
    ensures Ahead(t, |b.scheme| + 1, rest)
  {
    hide Ends, Ahead, IsSpecialScheme, SchemeText, BehindScheme, After;
    var s, slash := b.scheme, First(rest) == Some(SLASH);
    ReadScheme(t, s, rest, o, e);
    AheadRest(t, |s| + 1, rest);
    SecondAhead(t, |s| + 1, rest);
    GivenBegins(t, b, slash);
    if s != FILE { Step(t, BehindScheme(t, s, slash), o, e); }
  }

  lemma SecondAhead(t: Input, i: int, rest: seq<int>)
    requires Ahead(t, i, rest)
    ensures t.At(i + 1) == if |rest| > 1 then Some(rest[1]) else None
  {
    if |rest| > 1 { assert t.cps[i + 1] == t.cps[i..][1]; }
    assert |t.cps[i..]| == |t.cps| - i;
  }

  lemma GivenBegins(t: Input, b: Url, slash: bool)
    requires t.base == Some(b) && IsSpecialScheme(b.scheme)
    ensures var s, c := b.scheme, BehindScheme(t, b.scheme, slash);
            && c.pointer == |s| + 1
            && (s == FILE ==> c == Config(FRESH.(scheme := s), File, |s| + 1, [], false, false, false))
            && (s != FILE && !(t.At(c.pointer) == Some(SLASH) && t.At(c.pointer + 1) == Some(SLASH)) ==>
                  After(t, c) == Move(Loop, Config(FRESH.(scheme := s), Relative, |s| + 1, [], false, false, false)))
  {
    hide IsSpecialScheme;
  }

  /** Whatever scheme the URL under construction has, these states set it. */
  lemma RelativeSets(t: Input, c: Config, b: Url)
    requires t.base == Some(b)
    ensures Agrees(AfterRelative(t, c), AfterRelative(t, c.(url := c.url.(scheme := b.scheme))))
  {
    hide IsSpecialScheme;
  }

  lemma FileSets(t: Input, c: Config)
    ensures AfterFile(t, c) == AfterFile(t, c.(url := c.url.(scheme := FILE)))
  {
    hide DriveAhead, Shortened;
  }

  lemma SchemeSet(t: Input, c: Config, b: Url)
    requires t.base == Some(b) && (c.stage == Relative || (c.stage == File && b.scheme == FILE))
    ensures Agrees(After(t, c), After(t, c.(url := c.url.(scheme := b.scheme))))
  {
    hide AfterRelative, AfterFile;
    if c.stage == Relative { RelativeSets(t, c, b); } else { FileSets(t, c); }
  }

  /**
   Against a base of the same special scheme the scheme may be left out: "http:x/y" is the reference "x/y", and
   "file:x" the reference "x".  Only "http://..." is a URL of its own.
   */
  lemma SchemeLeftOut(b: Url, rest: seq<int>, t: Input, o: Outcome, e: Config, v: Input, p: Outcome, f: Config)
    requires SchemeText(b.scheme) && IsSpecialScheme(b.scheme) && !b.cannotBeABase && !HasScheme(rest)
    requires b.scheme != FILE ==> !(First(rest) == Some(SLASH) && |rest| > 1 && rest[1] == SLASH)
    requires t == Input(b.scheme + ([COLON] + rest), Some(b), None, t.lower) && Ends(t, Fresh(), o, e)
    requires v == Input(rest, Some(b), None, t.lower) && Ends(v, Fresh(), p, f)
    ensures Same(o, e, p, f)
  {
    hide Ends, Ahead, IsSpecialScheme, SchemeText, HasScheme, After, SameText;
    var s := b.scheme;
    var stage := if s == FILE then File else Relative;
    var c := Config(FRESH.(scheme := s), stage, |s| + 1, [], false, false, false);
    var d := Config(FRESH, stage, 0, [], false, false, false);
    var g := Config(FRESH.(scheme := s), stage, 0, [], false, false, false);
    SchemeGiven(t, b, rest, o, e);
    WithoutScheme(v, p, f);
    Referenced(v, b, p, f);
    Start(v, rest);
    SameRest(t, |s| + 1, v, 0, rest);
    SchemeSet(v, d, b);
    var q := SameTurn(v, d, g, p, f);
    SameAhead(t, c, o, e, v, g, |s| + 1, p, q);
  }

  lemma SameRest(t: Input, i: int, v: Input, j: int, rest: seq<int>)
    requires Ahead(t, i, rest) && Ahead(v, j, rest)
    ensures SameText(t, i, v, j)
  {
  }

  /** Two configurations whose next turn is the same run alike. */
  lemma SameTurn(v: Input, d: Config, g: Config, p: Outcome, f: Config) returns (q: Config)
    requires Ends(v, d, p, f) && d.pointer == g.pointer && d.pointer <= |v.cps|
    requires Agrees(After(v, d), After(v, g))
    ensures Ends(v, g, p, q) && (p.Thrown? || q == f)
  {
    hide After, Ends;
    if After(v, d).next.Stop? {
      Halted(v, d, p, f);
      Stops(v, g, After(v, g));
      q := After(v, g).config;
    } else {
      Step(v, d, p, f);
      Unstep(v, g, p, f);
      q := f;
    }
  }

  // ---------- A text with an authority does not need its base ----------

  /** Where the text behind "s://" is read. */
  function Entered(s: seq<int>, i: int): Config {
    if s == FILE then Config(FRESH.(scheme := FILE), FileHost, i, [], false, false, false)
    else if IsSpecialScheme(s) then Ignoring(s, i)
    else Config(FRESH.(scheme := s), Authority, i, [], false, false, false)
  }

  lemma DoubleMoves(t: Input, s: seq<int>)
    requires t.override.None? && t.At(|s| + 1) == Some(SLASH) && t.At(|s| + 2) == Some(SLASH)
    ensures var c := BehindScheme(t, s, true);
            && 0 <= c.pointer && After(t, c).next == Loop
            && (c.stage == SpecialAuthoritySlashes ==> After(t, c).config == Ignoring(s, |s| + 1) && c.pointer == |s| + 1)
            && (c.stage == SpecialRelativeOrAuthority ==> After(t, c).config == Ignoring(s, |s| + 3))
            && (c.stage == PathOrAuthority ==> After(t, c).config == Config(FRESH.(scheme := s), Authority, |s| + 3, [], false, false, false))
            && (c.stage == File ==> After(t, c).config == c.(stage := FileSlash, pointer := |s| + 2)
                                    && c == Config(FRESH.(scheme := s), File, |s| + 1, [], false, false, false))
            && c.stage == (if s == FILE then File else if !IsSpecialScheme(s) then PathOrAuthority
                           else if t.HasBase(s) then SpecialRelativeOrAuthority else SpecialAuthoritySlashes)
  {
    FileIsSpecial();
    hide IsSpecialScheme, DriveAhead, Shortened;
  }

  lemma FileDoubleMove(t: Input, i: int)
    requires t.At(i) == Some(SLASH)
    ensures After(t, Config(FRESH.(scheme := FILE), FileSlash, i, [], false, false, false)) ==
            Move(Loop, Config(FRESH.(scheme := FILE), FileHost, i + 1, [], false, false, false))
  {
    hide DriveAhead;
  }

  /** Behind "s://" the parser stands in the same state whatever the base. */
  lemma ReadDouble(t: Input, s: seq<int>, rest: seq<int>, o: Outcome, e: Config)
    requires t.override.None? && SchemeText(s) && t.cps == s + ([COLON] + ([SLASH] + ([SLASH] + rest))) && Ends(t, Fresh(), o, e)
    ensures Ends(t, Entered(s, |s| + 3), o, e) && Ahead(t, |s| + 3, rest)
  {
    hide Ends, Ahead, IsSpecialScheme, SchemeText, BehindScheme, After;
    ReadScheme(t, s, [SLASH] + ([SLASH] + rest), o, e);
    AheadFirst(t, |s| + 1, SLASH, [SLASH] + rest);
    AheadFirst(t, |s| + 2, SLASH, rest);
    AheadRest(t, |s| + 2, [SLASH] + rest);
    var c := BehindScheme(t, s, true);
    DoubleMoves(t, s);
    StartInText(t, c, s);
    Step(t, c, o, e);
    if c.stage == SpecialAuthoritySlashes {
      IgnoreMove(t, s, |s| + 1);
      IgnoreMove(t, s, |s| + 2);
      Step(t, Ignoring(s, |s| + 1), o, e);
      Step(t, Ignoring(s, |s| + 2), o, e);
    } else if c.stage == File {
      FileDoubleMove(t, |s| + 2);
      Step(t, c.(stage := FileSlash, pointer := |s| + 2), o, e);
    }
  }

  lemma StartInText(t: Input, c: Config, s: seq<int>)
    requires c == BehindScheme(t, s, true) && t.At(|s| + 2) == Some(SLASH)
    ensures c.pointer <= |t.cps|
  {
    hide IsSpecialScheme;
  }

  /** A URL with an authority comes to the same against any base. */
  lemma AnyBaseDoubled(s: seq<int>, rest: seq<int>, t: Input, o: Outcome, e: Config, v: Input, p: Outcome, f: Config)
    requires SchemeText(s)
    requires t == Input(s + ([COLON] + ([SLASH] + ([SLASH] + rest))), t.base, None, t.lower) && Ends(t, Fresh(), o, e)
    requires v == Input(t.cps, v.base, None, t.lower) && Ends(v, Fresh(), p, f)
    ensures Same(o, e, p, f)
  {
    hide Ends, Ahead, SchemeText, SameText, Entered, Alike;
    ReadDouble(t, s, rest, o, e);
    ReadDouble(v, s, rest, p, f);
    SameRest(t, |s| + 3, v, |s| + 3, rest);
    EnteredAlike(t, v, s, |s| + 3, |s| + 3);
    SameAhead(t, Entered(s, |s| + 3), o, e, v, Entered(s, |s| + 3), |s| + 3, p, f);
  }

  lemma EnteredAlike(t: Input, v: Input, s: seq<int>, i: int, j: int)
    requires SameText(t, i, v, j) && t.override == v.override && t.lower == v.lower
    ensures Alike(t, Entered(s, i), v, Entered(s, j), i)
  {
    hide IsSpecialScheme, SameText;
  }

  lemma NetworkMoves(t: Input, b: Url)
    requires t.override.None? && t.base == Some(b) && !b.cannotBeABase && t.At(0) == Some(SLASH) && t.At(1) == Some(SLASH)
    ensures After(t, Referring(b)).next == Loop
    ensures var d := After(t, Referring(b)).config;
            d.pointer == 1 && After(t, d) == Move(Loop, Entered(b.scheme, 2))
  {
    FileIsSpecial();
    hide IsSpecialScheme, DriveAhead, Shortened;
  }

  /** A reference "//host/path" is the base's scheme and "://host/path", which needs no base. */
  lemma NetworkReference(b: Url, rest: seq<int>, t: Input, o: Outcome, e: Config, v: Input, p: Outcome, f: Config)
    requires SchemeText(b.scheme) && !b.cannotBeABase
    requires t == Input([SLASH] + ([SLASH] + rest), Some(b), None, t.lower) && Ends(t, Fresh(), o, e)
    requires v == Input(b.scheme + ([COLON] + ([SLASH] + ([SLASH] + rest))), v.base, None, t.lower) && Ends(v, Fresh(), p, f)
    ensures Same(o, e, p, f)
  {
    hide Ends, Ahead, SchemeText, SameText, Entered, Alike, HasScheme, After;
    SlashHasNoScheme(t.cps);
    WithoutScheme(t, o, e);
    Referenced(t, b, o, e);
    Start(t, t.cps);
    AheadFirst(t, 0, SLASH, [SLASH] + rest);
    AheadFirst(t, 1, SLASH, rest);
    NetworkMoves(t, b);
    Step(t, Referring(b), o, e);
    Step(t, After(t, Referring(b)).config, o, e);
    ReadDouble(v, b.scheme, rest, p, f);
    SameRest(t, 2, v, |b.scheme| + 3, rest);
    EnteredAlike(t, v, b.scheme, 2, |b.scheme| + 3);
    SameAhead(t, Entered(b.scheme, 2), o, e, v, Entered(b.scheme, |b.scheme| + 3), 2, p, f);
  }

  // ---------- The host of a file ----------

  /** Behind the host of a file URL, at the start of its path. */
  function FilePath(i: int, host: Host): Config { Config(FRESH.(scheme := FILE, host := host), PathStart, i, [], false, false, false) }

  predicate IsFileHostText(h: seq<int>) { forall i :: 0 <= i < |h| ==> h[i] !in {SLASH, BACKSLASH, QUESTION, HASH} }

  lemma FileHostMove(t: Input, i: int, h: seq<int>)
    requires t.override.None? && (t.At(i).None? || t.At(i).value in DELIMITERS) && !IsWindowsDriveLetter(h, false)
    ensures var c := Config(FRESH.(scheme := FILE), FileHost, i, h, false, false, false);
            After(t, c) == if h == [] then Move(Loop, FilePath(i, Text([]))) else AfterFileHostName(t, c)
  {
    hide AfterFileHostName, IsWindowsDriveLetter;
  }

  lemma FileNameMove(t: Input, i: int, h: seq<int>)
    requires t.override.None?
    ensures var c := Config(FRESH.(scheme := FILE), FileHost, i, h, false, false, false);
            var r := HostReading(h, true, t.lower);
            AfterFileHostName(t, c) ==
            if r.Read? then Move(Loop, FilePath(i, if r.host == Text(Chars("localhost")) then Text([]) else r.host))
            else Halt(c, Refusal(r))
  {
    FileIsSpecial();
    assert Chars("localhost") == LOCALHOST;
    hide IsSpecialScheme, HostReading;
  }

  /** The host of a file URL is read as that of any special URL, but "localhost" is no host; nor is nothing. */
  lemma ReadFileHost(t: Input, h: seq<int>, rest: seq<int>, o: Outcome, e: Config)
    requires t.override.None? && IsFileHostText(h) && !IsWindowsDriveLetter(h, false) && GoesOn(rest, DELIMITERS)
    requires t.cps == FILE + ([COLON] + ([SLASH] + ([SLASH] + (h + rest)))) && Ends(t, Fresh(), o, e)
    ensures var r := HostReading(h, true, t.lower);
            if h == [] then Ends(t, FilePath(7, Text([])), o, e) && Ahead(t, 7, rest)
            else if !r.Read? then o == Refusal(r)
            else && Ends(t, FilePath(7 + |h|, if r.host == Text(Chars("localhost")) then Text([]) else r.host), o, e)
                 && Ahead(t, 7 + |h|, rest)
  {
    hide Ends, Ahead, SchemeText, HostReading, IsWindowsDriveLetter, After, Chars, AfterFileHostName;
    FileScheme();
    ReadDouble(t, FILE, h + rest, o, e);
    var c := Config(FRESH.(scheme := FILE), FileHost, 7, [], false, false, false);
    FileGathers(c, h);
    Gather(t, c, h, rest, o, e);
    Empties(h);
    AheadRest(t, 7 + |h|, rest);
    FileHostMove(t, 7 + |h|, h);
    FileNameMove(t, 7 + |h|, h);
    var d := Config(FRESH.(scheme := FILE), FileHost, 7 + |h|, h, false, false, false);
    if h == [] || HostReading(h, true, t.lower).Read? { Step(t, d, o, e); } else { Halted(t, d, o, e); }
  }

  lemma FileGathers(c: Config, h: seq<int>)
    requires c.stage == FileHost && IsFileHostText(h)
    ensures forall i :: 0 <= i < |h| ==> Gathers(c, h[i])
  {
  }

  /** "file://localhost/x", in letters of either case, is "file:///x". */
  lemma LocalhostIsNone(h: seq<int>, rest: seq<int>, t: Input, o: Outcome, e: Config, v: Input, p: Outcome, f: Config)
    requires LowerText(h) == Chars("localhost") && IsLowering(t.lower) && GoesOn(rest, DELIMITERS)
    requires t == Input(FILE + ([COLON] + ([SLASH] + ([SLASH] + (h + rest)))), t.base, None, t.lower) && Ends(t, Fresh(), o, e)
    requires v == Input(FILE + ([COLON] + ([SLASH] + ([SLASH] + rest))), v.base, None, t.lower) && Ends(v, Fresh(), p, f)
    ensures Same(o, e, p, f)
  {
    hide Ends, Ahead, HostReading, SameText;
    LocalhostText(h, t.lower);
    assert [] + rest == rest;
    ReadFileHost(t, h, rest, o, e);
    ReadFileHost(v, [], rest, p, f);
    SameRest(t, 7 + |h|, v, 7, rest);
    SameAhead(t, FilePath(7 + |h|, Text([])), o, e, v, FilePath(7, Text([])), 7 + |h|, p, f);
  }

  lemma LocalhostText(h: seq<int>, lower: seq<int> -> seq<int>)
    requires LowerText(h) == Chars("localhost") && IsLowering(lower)
    ensures |h| == 9 && IsFileHostText(h) && !IsWindowsDriveLetter(h, false) && !IsWindowsDriveLetter([], false)
    ensures HostReading(h, true, lower) == Read(Text(Chars("localhost")))
  {
    var w := Chars("localhost");
    assert |LowerText(h)| == |w| == 9;
    forall i | 0 <= i < 9 ensures 0x41 <= h[i] <= 0x7A && h[i] != BACKSLASH && h[i] != OPEN_BRACKET {
      assert LowerText(h)[i] == w[i];
    }
    LocalhostRead(h, lower);
  }

  lemma LocalhostRead(h: seq<int>, lower: seq<int> -> seq<int>)
    requires LowerText(h) == Chars("localhost") && IsLowering(lower) && AsciiText(h) && h != [] && h[0] != OPEN_BRACKET
    ensures HostReading(h, true, lower) == Read(Text(Chars("localhost")))
  {
    assert lower(h) == Chars("localhost");
    hide IsLowering;
    LettersRead(h, Chars("localhost"), lower);
  }

  /** A name of small letters is read as it is. */
  lemma LettersRead(h: seq<int>, w: seq<int>, lower: seq<int> -> seq<int>)
    requires h != [] && h[0] != OPEN_BRACKET && lower(h) == w && w != [] && forall i :: 0 <= i < |w| ==> 0x61 <= w[i] <= 0x7A
    ensures HostReading(h, true, lower) == Read(Text(w))
  {
    assert Dotted(w) == w && IsPlainLabel(w) && DOT !in w;
    PlainDomain(w);
    NoNumberNoAddress(w);
    hide Ip.ParsedIPv4, DomainText;
    forall i | 0 <= i < |w| ensures w[i] !in FORBIDDEN { assert 0x61 <= w[i] <= 0x7A; }
  }

  /** A text of one part that does not start with a digit is no address. */
  lemma NoNumberNoAddress(w: seq<int>)
    requires w != [] && DOT !in w && !Ip.IsDigit(w[0])
    ensures Ip.ParsedIPv4(w) == Ip.NotIPv4
  {
    hide Delimited.Split, Delimited.Join;
    JoinOne(w);
    Delimited.SplitJoin([w], DOT);
    assert Ip.PartNumber(w) == None;
    assert [w][..0] == [];
    assert Ip.Numbers([w]) == None;
  }

  lemma JoinOne(w: seq<int>)
    ensures Delimited.Join([w], DOT) == w
  {
  }
}
