/**
 What a text with an authority comes to in js/secsdk-lastest.umd.js's URL parser, part by part: scheme, userinfo, host,
 port, path with dot segments, query and fragment, whatever they hold.
 */
module UrlWhole {
  import opened Wrappers
  import opened UrlRecord
  import opened UrlHost
  import opened UrlStates
  import opened UrlRuns
  import opened UrlUserinfo
  import opened UrlPorts
  import opened UrlPath
  import opened UrlReference
  import opened UrlSame
  import opened UrlShift
  import Delimited
  import Ip = IpAddress

  /** What stands in front of the path. */
  function Front(s: seq<int>, cr: Option<seq<int>>, host: Host, digits: Option<seq<int>>): Url
    requires CredentialsRead(cr)
  {
    var n := if digits.Some? then Ip.Value(digits.value, 10) else 0;
    FRESH.(scheme := s, host := host,
           username := if cr.Some? then NameEncoded(cr.value).value else [],
           password := if cr.Some? then PasswordEncoded(cr.value).value else [],
           port := if digits.None? || StandsFor(s, n) then None else Some(n))
  }

  /** The text fails in front of its path: for its userinfo, its host or its port, in this order. */
  predicate FrontFails(t: Input, s: seq<int>, cr: Option<seq<int>>, h: seq<int>, digits: Option<seq<int>>, o: Outcome) {
    var r := HostReading(h, IsSpecialScheme(s), t.lower);
    if !CredentialsRead(cr) then o == Thrown(LoneSurrogate)
    else if !r.Read? then o == Refusal(r)
    else digits.Some? && Ip.Value(digits.value, 10) > 0xFFFF && o == Failed(InvalidPort)
  }

  predicate FrontRead(t: Input, s: seq<int>, cr: Option<seq<int>>, h: seq<int>, digits: Option<seq<int>>) {
    && CredentialsRead(cr) && HostReading(h, IsSpecialScheme(s), t.lower).Read?
    && (digits.Some? ==> Ip.Value(digits.value, 10) <= 0xFFFF)
  }

  /** In front of the path, with what the authority says. */
  lemma ReadFront(t: Input, s: seq<int>, cr: Option<seq<int>>, h: seq<int>, digits: Option<seq<int>>, rest: seq<int>, o: Outcome,
      e: Config) returns (c: Config)
    requires IsAuthority(s, cr, h) && h != [] && (digits.Some? ==> IsNumeral(digits.value)) && GoesOn(rest, DELIMITERS)
    requires t.override.None? && t.cps == Whole(s, cr, h, PortDigits(digits), rest) && Ends(t, Fresh(), o, e)
    ensures FrontRead(t, s, cr, h, digits) ==>
      && Ends(t, c, o, e) && Ahead(t, c.pointer, rest) && c.stage == PathStart && c.buffer == []
      && c.url == Front(s, cr, HostReading(h, IsSpecialScheme(s), t.lower).host, digits)
    ensures !FrontRead(t, s, cr, h, digits) ==> FrontFails(t, s, cr, h, digits, o)
  {
    hide Ends, Ahead, IsSpecialScheme, HostReading, Ip.Value, StandsFor, IsNumeral, GoesOn, Whole, PathAt, KeptPort, IsAuthority,
      CredentialsRead;
    ReadAuthority(t, s, cr, h, digits, rest, o, e);
    c := Fresh();
    if FrontRead(t, s, cr, h, digits) {
      var host := HostReading(h, IsSpecialScheme(s), t.lower).host;
      var n := if digits.Some? then KeptPort(FRESH.(scheme := s), Ip.Value(digits.value, 10)) else None;
      c := PathAt(s, cr, h, PortDigits(digits), host, n);
      NotFile(s, cr, h);
      FrontForm(s, cr, h, digits, host);
    }
  }

  lemma FrontForm(s: seq<int>, cr: Option<seq<int>>, h: seq<int>, digits: Option<seq<int>>, host: Host)
    requires CredentialsRead(cr) && s != FILE
    ensures var n := if digits.Some? then KeptPort(FRESH.(scheme := s), Ip.Value(digits.value, 10)) else None;
            var c := PathAt(s, cr, h, PortDigits(digits), host, n);
            c.stage == PathStart && c.buffer == [] && c.url == Front(s, cr, host, digits)
  {
    HostAtForm(s, cr);
    if digits.Some? { KeptExactly(s, Ip.Value(digits.value, 10)); }
    hide Encodes, Name, Password, Ip.Value, KeptPort, StandsFor;
  }

  /**
   A URL with a path: each part is what its own text says, ".." and "." taken out of the path, and it fails for the first
   part that has no meaning.
   */
  lemma WholeUrl(t: Input, s: seq<int>, cr: Option<seq<int>>, h: seq<int>, digits: Option<seq<int>>, segments: seq<seq<int>>,
      tail: Tail, o: Outcome, e: Config)
    requires IsAuthority(s, cr, h) && h != [] && (digits.Some? ==> IsNumeral(digits.value))
    requires IsPathText(IsSpecialScheme(s), segments) && IsTail(tail) && t.override.None? && Ends(t, Fresh(), o, e)
    requires t.cps == Whole(s, cr, h, PortDigits(digits), [SLASH] + (Delimited.Join(segments, SLASH) + Raw(tail)))
    ensures if !FrontRead(t, s, cr, h, digits) then FrontFails(t, s, cr, h, digits, o)
            else
              match EncodedSegments(segments)
              case None => o == Thrown(LoneSurrogate)
              case Some(path) =>
                var u := Front(s, cr, HostReading(h, IsSpecialScheme(s), t.lower).host, digits);
                Gives(o, e, u.(path := Survivors(path) + Trail(path)), tail)
  {
    hide Ends, Ahead, IsSpecialScheme, HostReading, Ip.Value, StandsFor, IsNumeral, Raw, Delimited.Join, Gives, Walked,
      EncodedSegments, SegmentText, Pending, Survivors, Trail, Whole, IsAuthority, After, Front, CredentialsRead;
    var rest := Delimited.Join(segments, SLASH) + Raw(tail);
    var c := ReadFront(t, s, cr, h, digits, [SLASH] + rest, o, e);
    if FrontRead(t, s, cr, h, digits) {
      NotFile(s, cr, h);
      FrontParts(s, cr, HostReading(h, IsSpecialScheme(s), t.lower).host, digits);
      AheadFirst(t, c.pointer, SLASH, rest);
      PathBegins(t, c);
      Step(t, c, o, e);
      ReadWalk(t, c.(stage := Path, pointer := c.pointer + 1), segments, tail, o, e);
      if EncodedSegments(segments).Some? { WalkedFresh(c.url, EncodedSegments(segments).value); }
    }
  }

  lemma FrontParts(s: seq<int>, cr: Option<seq<int>>, host: Host, digits: Option<seq<int>>)
    requires CredentialsRead(cr)
    ensures var u := Front(s, cr, host, digits); u.scheme == s && u.path == [] && u.query == None && u.fragment == None
  {
    hide Encodes, Name, Password, Ip.Value, StandsFor;
  }

  lemma WalkedFresh(v: Url, path: seq<seq<int>>)
    requires path != [] && v.path == [] && v.scheme != FILE
    ensures Walked(v, path) == v.(path := Survivors(path) + Trail(path))
  {
    hide Walked, Pending, Survivors, Trail;
    WalkedResolved(v, path);
    assert [] + Survivors(path) == Survivors(path);
  }

  /** Without a path a special URL has the path "/", and any other has none. */
  lemma PathlessUrl(t: Input, s: seq<int>, cr: Option<seq<int>>, h: seq<int>, digits: Option<seq<int>>, tail: Tail, o: Outcome,
      e: Config)
    requires IsAuthority(s, cr, h) && h != [] && (digits.Some? ==> IsNumeral(digits.value))
    requires IsTail(tail) && t.override.None? && Ends(t, Fresh(), o, e) && t.cps == Whole(s, cr, h, PortDigits(digits), Raw(tail))
    ensures if !FrontRead(t, s, cr, h, digits) then FrontFails(t, s, cr, h, digits, o)
            else
              var u := Front(s, cr, HostReading(h, IsSpecialScheme(s), t.lower).host, digits);
              Gives(o, e, u.(path := if IsSpecialScheme(s) then [[]] else []), tail)
  {
    hide Ends, Ahead, IsSpecialScheme, HostReading, Ip.Value, StandsFor, IsNumeral, Raw, Gives, Walked, EncodedSegments, Whole,
      IsAuthority, After, Front, CredentialsRead;
    RawStarts(Fresh(), tail);
    var c := ReadFront(t, s, cr, h, digits, Raw(tail), o, e);
    if FrontRead(t, s, cr, h, digits) {
      FrontParts(s, cr, HostReading(h, IsSpecialScheme(s), t.lower).host, digits);
      NotFile(s, cr, h);
      AheadRest(t, c.pointer, Raw(tail));
      if IsSpecialScheme(s) {
        EmptyPathBegins(t, c, First(Raw(tail)));
        Step(t, c, o, e);
        EmptyPath(c.url);
        Empties(Raw(tail));
        ReadWalk(t, c.(stage := Path), [[]], tail, o, e);
      } else {
        NoPathBegins(t, c, Raw(tail));
        Step(t, c, o, e);
        ReadRaw(t, c, tail, o, e);
        assert c.url.(path := []) == c.url;
      }
    }
  }

  lemma EmptyPathBegins(t: Input, c: Config, chr: Option<int>)
    requires t.override.None? && c.stage == PathStart && IsSpecial(c.url) && t.At(c.pointer) == chr
    requires chr.None? || chr.value == QUESTION || chr.value == HASH
    ensures After(t, c) == Move(Loop, c.(stage := Path))
  {
    hide IsSpecialScheme;
  }

  lemma EmptyPath(u: Url)
    requires u.path == [] && u.scheme != FILE
    ensures Delimited.Join([[]], SLASH) == [] && IsPathText(IsSpecial(u), [[]])
    ensures EncodedSegments([[]]) == Some([[]]) && Walked(u, [[]]) == u.(path := [[]])
  {
    NothingEncodes(PATH_SET);
    SegmentsFirst([[]]);
    assert LowerText([]) == [];
    hide IsSpecialScheme;
  }

  // ---------- Without an authority ----------

  /** A scheme that is not special, and no slash behind it: the path is one opaque text. */
  lemma OpaqueUrl(t: Input, s: seq<int>, w: seq<int>, tail: Tail, o: Outcome, e: Config)
    requires SchemeText(s) && !IsSpecialScheme(s) && OpaqueText(w) && (w != [] ==> w[0] != SLASH) && IsTail(tail)
    requires t.override.None? && t.cps == s + ([COLON] + (w + Raw(tail))) && Ends(t, Fresh(), o, e)
    ensures match Encodes(w, C0_SET)
            case None => o == Thrown(LoneSurrogate)
            case Some(p) => Gives(o, e, FRESH.(scheme := s, path := [p], cannotBeABase := true), tail)
  {
    hide Ends, Ahead, IsSpecialScheme, SchemeText, Raw, Gives, BehindScheme, Encodes, AfterTail;
    RawStarts(Fresh(), tail);
    NoSlashOpaque(w, tail);
    ReadScheme(t, s, w + Raw(tail), o, e);
    OpaqueBegins(t, s);
    var c := BehindScheme(t, s, false);
    ReadOpaque(t, c, w, Raw(tail), o, e);
    if Encodes(w, C0_SET).Some? {
      var p := Encodes(w, C0_SET).value;
      Empties(p);
      ReadRaw(t, OpaqueAt(c, |w|, p), tail, o, e);
    }
  }

  lemma NoSlashOpaque(w: seq<int>, tail: Tail)
    requires w != [] ==> w[0] != SLASH
    ensures First(w + Raw(tail)) != Some(SLASH)
  {
    RawStarts(Fresh(), tail);
    if w == [] { assert w + Raw(tail) == Raw(tail); }
  }

  lemma OpaqueBegins(t: Input, s: seq<int>)
    requires !IsSpecialScheme(s)
    ensures var c := BehindScheme(t, s, false);
            && c.stage == CannotBeABase && c.buffer == [] && c.pointer == |s| + 1
            && c.url == FRESH.(scheme := s, path := [[]], cannotBeABase := true)
  {
    FileIsSpecial();
    hide IsSpecialScheme;
    EmptyAppended();
  }

  lemma EmptyAppended()
    ensures FRESH.path + [[]] == [[]]
  {
  }

  /** One slash behind such a scheme: a path without a host. */
  lemma HostlessUrl(t: Input, s: seq<int>, segments: seq<seq<int>>, tail: Tail, o: Outcome, e: Config)
    requires SchemeText(s) && !IsSpecialScheme(s) && IsPathText(false, segments) && IsTail(tail)
    requires First(Delimited.Join(segments, SLASH) + Raw(tail)) != Some(SLASH)
    requires t.override.None? && t.cps == s + ([COLON] + ([SLASH] + (Delimited.Join(segments, SLASH) + Raw(tail)))) && Ends(t, Fresh(), o, e)
    ensures match EncodedSegments(segments)
            case None => o == Thrown(LoneSurrogate)
            case Some(path) => Gives(o, e, FRESH.(scheme := s, path := Survivors(path) + Trail(path)), tail)
  {
    hide Ends, Ahead, IsSpecialScheme, SchemeText, Raw, Gives, BehindScheme, Delimited.Join, EncodedSegments, Walked, SegmentText,
      After, Survivors, Trail, Pending;
    var rest := Delimited.Join(segments, SLASH) + Raw(tail);
    ReadScheme(t, s, [SLASH] + rest, o, e);
    AheadFirst(t, |s| + 1, SLASH, rest);
    AheadRest(t, |s| + 2, rest);
    HostlessBegins(t, s);
    Step(t, BehindScheme(t, s, true), o, e);
    var c := Config(FRESH.(scheme := s), Path, |s| + 2, [], false, false, false);
    ReadWalk(t, c, segments, tail, o, e);
    if EncodedSegments(segments).Some? { WalkedFresh(c.url, EncodedSegments(segments).value); }
  }

  lemma HostlessBegins(t: Input, s: seq<int>)
    requires !IsSpecialScheme(s) && |s| + 2 <= |t.cps| && t.At(|s| + 2) != Some(SLASH)
    ensures var c := BehindScheme(t, s, true);
            && 0 <= c.pointer <= |t.cps| && s != FILE
            && After(t, c) == Move(Loop, Config(FRESH.(scheme := s), Path, |s| + 2, [], false, false, false))
  {
    FileIsSpecial();
    hide IsSpecialScheme;
  }

  // ---------- Files ----------

  /** A file URL with a host, if only "": the path is walked from it, a drive letter at its start taking the host away. */
  lemma FileUrl(t: Input, h: seq<int>, segments: seq<seq<int>>, tail: Tail, o: Outcome, e: Config)
    requires IsFileHostText(h) && !IsWindowsDriveLetter(h, false) && IsPathText(true, segments) && IsTail(tail)
    requires t.override.None? && Ends(t, Fresh(), o, e)
    requires t.cps == FILE + ([COLON] + ([SLASH] + ([SLASH] + (h + ([SLASH] + (Delimited.Join(segments, SLASH) + Raw(tail)))))))
    ensures var r := HostReading(h, true, t.lower);
            if h != [] && !r.Read? then o == Refusal(r)
            else
              var host := if h == [] || r.host == Text(Chars("localhost")) then Text([]) else r.host;
              Walks(o, e, FRESH.(scheme := FILE, host := host), segments, tail)
  {
    hide Ends, Ahead, HostReading, Raw, Delimited.Join, Walks, SegmentText, After, IsWindowsDriveLetter, FilePath;
    FileIsSpecial();
    hide IsSpecialScheme;
    var rest := Delimited.Join(segments, SLASH) + Raw(tail);
    ReadFileHost(t, h, [SLASH] + rest, o, e);
    var r := HostReading(h, true, t.lower);
    if h == [] || r.Read? {
      var host := if h == [] || r.host == Text(Chars("localhost")) then Text([]) else r.host;
      var c := FilePath(7 + |h|, host);
      FilePathForm(7 + |h|, host);
      AheadFirst(t, 7 + |h|, SLASH, rest);
      PathBegins(t, c);
      Step(t, c, o, e);
      ReadWalk(t, c.(stage := Path, pointer := 8 + |h|), segments, tail, o, e);
    }
  }

  lemma FilePathForm(i: int, host: Host)
    ensures var c := FilePath(i, host);
            c.pointer == i && c.stage == PathStart && c.buffer == [] && c.url == FRESH.(scheme := FILE, host := host)
  {
  }

  /** "file:" and at most one slash, without a file as its base: a path without a host. */
  lemma FileWithoutHost(t: Input, slash: seq<int>, segments: seq<seq<int>>, tail: Tail, o: Outcome, e: Config)
    requires IsPathText(true, segments) && IsTail(tail) && !t.HasBase(FILE) && t.override.None? && Ends(t, Fresh(), o, e)
    requires slash == [] || slash == [SLASH] || slash == [BACKSLASH]
    requires NoSlashFirst(Delimited.Join(segments, SLASH) + Raw(tail))
    requires t.cps == FILE + ([COLON] + (slash + (Delimited.Join(segments, SLASH) + Raw(tail))))
    ensures Walks(o, e, FRESH.(scheme := FILE), segments, tail)
  {
    hide Ends, Ahead, Raw, Delimited.Join, Walks, SegmentText, After, SchemeText, BehindScheme;
    FileIsSpecial();
    FileScheme();
    hide IsSpecialScheme;
    var rest := Delimited.Join(segments, SLASH) + Raw(tail);
    ReadScheme(t, FILE, slash + rest, o, e);
    FileFirst(t, First(slash + rest) == Some(SLASH));
    AheadSkip(t, 5, slash, rest);
    AheadRest(t, 5 + |slash|, rest);
    AheadRest(t, 5, slash + rest);
    var c := Config(FRESH.(scheme := FILE), File, 5, [], false, false, false);
    if slash == [] {
      Empties(rest);
    } else {
      FileSlashMove(t, c);
      Step(t, c, o, e);
    }
    BareMoves(t, 5 + |slash|);
    Step(t, c.(stage := if slash == [] then File else FileSlash, pointer := 5 + |slash|), o, e);
    ReadWalk(t, BareFile(5 + |slash|), segments, tail, o, e);
  }

  lemma BareMoves(t: Input, i: nat)
    requires !t.HasBase(FILE) && t.At(i) != Some(SLASH) && t.At(i) != Some(BACKSLASH)
    ensures After(t, Config(FRESH.(scheme := FILE), File, i, [], false, false, false)) == Move(Loop, BareFile(i))
    ensures After(t, Config(FRESH.(scheme := FILE), FileSlash, i, [], false, false, false)) == Move(Loop, BareFile(i))
  {
    hide DriveAhead, Shortened, IsWindowsDriveLetter;
  }

  /** "file://c:/x" is "file:/c:/x": a drive letter is no host. */
  lemma DriveIsNoHost(d: seq<int>, rest: seq<int>, t: Input, o: Outcome, e: Config, v: Input, p: Outcome, f: Config)
    requires IsWindowsDriveLetter(d, false) && GoesOn(rest, DELIMITERS)
    requires t == Input(FILE + ([COLON] + ([SLASH] + ([SLASH] + (d + rest)))), t.base, None, t.lower) && Ends(t, Fresh(), o, e)
    requires v == Input(FILE + ([COLON] + ([SLASH] + (d + rest))), None, None, t.lower) && Ends(v, Fresh(), p, f)
    ensures Same(o, e, p, f)
  {
    hide Ends, Ahead, SameText, BareFile;
    DriveAsHost(t, d, rest, o, e);
    DriveAsPath(v, d, rest, p, f);
    SameRest(t, 9, v, 8, rest);
    BareAlike(t, v, d);
    SameAhead(t, BareFile(9).(buffer := d), o, e, v, BareFile(8).(buffer := d), 9, p, f);
  }

  lemma BareAlike(t: Input, v: Input, d: seq<int>)
    requires SameText(t, 9, v, 8) && t.override == v.override && t.lower == v.lower
    ensures Alike(t, BareFile(9).(buffer := d), v, BareFile(8).(buffer := d), 9)
  {
    hide SameText;
  }

  lemma DriveAsHost(t: Input, d: seq<int>, rest: seq<int>, o: Outcome, e: Config)
    requires IsWindowsDriveLetter(d, false) && GoesOn(rest, DELIMITERS) && t.override.None? && Ends(t, Fresh(), o, e)
    requires t.cps == FILE + ([COLON] + ([SLASH] + ([SLASH] + (d + rest))))
    ensures Ends(t, BareFile(9).(buffer := d), o, e) && Ahead(t, 9, rest)
  {
    hide Ends, Ahead, SchemeText, After, BehindScheme;
    DriveText(d);
    FileScheme();
    ReadDouble(t, FILE, d + rest, o, e);
    var c := Config(FRESH.(scheme := FILE), FileHost, 7, [], false, false, false);
    FileGathers(c, d);
    Gather(t, c, d, rest, o, e);
    Empties(d);
    AheadRest(t, 9, rest);
    DriveHostMove(t, d);
    Step(t, Config(FRESH.(scheme := FILE), FileHost, 9, d, false, false, false), o, e);
  }

  lemma DriveAsPath(v: Input, d: seq<int>, rest: seq<int>, p: Outcome, f: Config)
    requires IsWindowsDriveLetter(d, false) && v.override.None? && v.base.None? && Ends(v, Fresh(), p, f)
    requires v.cps == FILE + ([COLON] + ([SLASH] + (d + rest)))
    ensures Ends(v, BareFile(8).(buffer := d), p, f) && Ahead(v, 8, rest)
  {
    hide Ends, Ahead, SchemeText, After, BehindScheme;
    DriveText(d);
    FileScheme();
    ReadScheme(v, FILE, [SLASH] + (d + rest), p, f);
    FileFirst(v, true);
    AheadFirst(v, 5, SLASH, d + rest);
    AheadRest(v, 6, d + rest);
    FileSlashMove(v, Config(FRESH.(scheme := FILE), File, 5, [], false, false, false));
    Step(v, Config(FRESH.(scheme := FILE), File, 5, [], false, false, false), p, f);
    BareMoves(v, 6);
    Step(v, Config(FRESH.(scheme := FILE), FileSlash, 6, [], false, false, false), p, f);
    GatherSegment(v, BareFile(6), d, rest, p, f);
    Empties(d);
  }

  lemma DriveText(d: seq<int>)
    requires IsWindowsDriveLetter(d, false)
    ensures |d| == 2 && IsFileHostText(d) && Encodes(d, PATH_SET) == Some(d)
    ensures forall t: Input, special: bool {:trigger PieceText(t, special, d)} :: PieceText(t, special, d)
    ensures forall rest: seq<int> :: First(d + rest) == Some(d[0]) && d[0] != SLASH && d[0] != BACKSLASH
  {
    assert d == [d[0]] + [d[1]];
    assert PercentEncode(d[0], PATH_SET) == Some([d[0]]) && PercentEncode(d[1], PATH_SET) == Some([d[1]]);
    EncodesFirst(d, PATH_SET);
    EncodesFirst(d[1..], PATH_SET);
    NothingEncodes(PATH_SET);
    assert d[1..] == [d[1]] && d[1..][1..] == [] && [d[1]] + [] == [d[1]];
  }

  lemma DriveHostMove(t: Input, d: seq<int>)
    requires t.override.None? && IsWindowsDriveLetter(d, false) && (t.At(9).None? || t.At(9).value in DELIMITERS)
    ensures After(t, Config(FRESH.(scheme := FILE), FileHost, 9, d, false, false, false)) == Move(Loop, BareFile(9).(buffer := d))
  {
    hide IsWindowsDriveLetter, AfterFileHostName;
  }
}
