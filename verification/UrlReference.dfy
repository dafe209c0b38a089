/**
 What whole texts come to in js/secsdk-lastest.umd.js's URL parser, whatever the base: relative references
 (section 5.2 of RFC 3986) and file references, with any query, fragment and dot segments.
 */
module UrlReference {
  import opened Wrappers
  import opened UrlRecord
  import opened UrlHost
  import opened UrlStates
  import opened UrlRuns
  import opened UrlPath
  import Delimited

  // ---------- Whether there is a scheme ----------

  /** Scheme characters up to a colon. */
  predicate SchemeEnds(s: seq<int>) { s != [] && (s[0] == COLON || (IsSchemeChar(s[0]) && SchemeEnds(s[1..]))) }

  predicate HasScheme(s: seq<int>) { s != [] && IsAlpha(s[0]) && SchemeEnds(s[1..]) }

  /** A text without a scheme is read again from its start, whatever was gathered of it. */
  lemma WithoutScheme(t: Input, o: Outcome, e: Config)
    requires t.override.None? && !HasScheme(t.cps) && Ends(t, Fresh(), o, e)
    ensures Ends(t, Unread(), o, e)
  {
    hide Ends, After;
    FirstMove(t);
    Step(t, Fresh(), o, e);
    if After(t, Fresh()).config != Unread() { GiveUp(t, After(t, Fresh()).config, o, e); }
  }

  lemma {:induction false} GiveUp(t: Input, c: Config, o: Outcome, e: Config)
    requires t.override.None? && 0 <= c.pointer <= |t.cps| && !SchemeEnds(t.cps[c.pointer..]) && Ends(t, c, o, e)
    requires c == Fresh().(stage := Scheme, pointer := c.pointer, buffer := c.buffer)
    ensures Ends(t, Unread(), o, e)
    decreases |t.cps| - c.pointer
  {
    hide Ends, After;
    SchemeMove(t, c);
    Step(t, c, o, e);
    if After(t, c).config != Unread() {
      assert t.cps[c.pointer..][1..] == t.cps[c.pointer + 1..];
      GiveUp(t, After(t, c).config, o, e);
    }
  }

  /** A text with a scheme, in letters of either case: the scheme is kept in lower case and decides how to go on. */
  lemma WithScheme(t: Input, s: seq<int>, rest: seq<int>, o: Outcome, e: Config)
    requires t.override.None? && t.cps == s + ([COLON] + rest) && Ends(t, Fresh(), o, e)
    requires s != [] && IsAlpha(s[0]) && forall i :: 0 <= i < |s| ==> IsSchemeChar(s[i])
    ensures HasScheme(t.cps)
    ensures Ends(t, BehindScheme(t, LowerText(s), First(rest) == Some(SLASH)), o, e) && Ahead(t, |s| + 1, rest)
  {
    hide Ends, Ahead, SchemeEnds;
    ReadAnyScheme(t, s, rest, o, e);
    ColonEnds(s[1..], rest);
    assert t.cps[1..] == s[1..] + ([COLON] + rest);
  }

  lemma {:induction false} ColonEnds(s: seq<int>, rest: seq<int>)
    requires forall i :: 0 <= i < |s| ==> IsSchemeChar(s[i])
    ensures SchemeEnds(s + ([COLON] + rest))
  {
    var w := s + ([COLON] + rest);
    if s != [] {
      ColonEnds(s[1..], rest);
      assert w[1..] == s[1..] + ([COLON] + rest) && w[0] == s[0];
    } else {
      assert w[0] == COLON;
    }
  }

  // ---------- Query and fragment ----------

  /** A query and a fragment as they stand in a text, or as they stand in a URL. */
  datatype Tail = Tail(query: Option<seq<int>>, fragment: Option<seq<int>>)

  function Raw(tail: Tail): seq<int> {
    (if tail.query.Some? then [QUESTION] + tail.query.value else []) + RawFragment(tail)
  }

  function RawFragment(tail: Tail): seq<int> { if tail.fragment.Some? then [HASH] + tail.fragment.value else [] }

  predicate IsTail(tail: Tail) { tail.query.Some? ==> HASH !in tail.query.value }

  /** None where a lone surrogate throws. */
  function EncodedTail(tail: Tail, special: bool): Option<Tail> {
    if tail.query.Some? && QueryEncodes(tail.query.value, special).None? then None
    else if tail.fragment.Some? && Encodes(tail.fragment.value, FRAGMENT_SET).None? then None
    else
      Some(Tail(if tail.query.Some? then QueryEncodes(tail.query.value, special) else None,
                if tail.fragment.Some? then Encodes(tail.fragment.value, FRAGMENT_SET) else None))
  }

  /** The run gives this URL with the tail encoded, or throws on a lone surrogate in the tail. */
  predicate Gives(o: Outcome, e: Config, u: Url, tail: Tail) {
    match EncodedTail(tail, IsSpecial(u))
    case None => o == Thrown(LoneSurrogate)
    case Some(x) => o == Parsed && e.url == u.(query := if x.query.Some? then x.query else u.query, fragment := x.fragment)
  }

  lemma ReadRawFragment(t: Input, c: Config, tail: Tail, o: Outcome, e: Config)
    requires t.override.None? && c.stage == Query && c.url.fragment.None? && tail.query.Some?
    requires Ends(t, AfterQueryText(c, RawFragment(tail)), o, e) && Ahead(t, c.pointer, RawFragment(tail))
    requires c.url.query.Some? && QueryEncodes(tail.query.value, IsSpecial(c.url)) == c.url.query
    ensures Gives(o, e, c.url, tail)
  {
    hide Ends, Ahead, Encodes, IsSpecialScheme, QueryEncodes;
    var d := AfterQueryText(c, RawFragment(tail));
    AheadRest(t, c.pointer, RawFragment(tail));
    if tail.fragment.None? {
      Arrived(t, d, o, e);
    } else {
      var f := tail.fragment.value;
      AheadFirst(t, c.pointer, HASH, f);
      ReadFragment(t, d, f, o, e);
      if Encodes(f, FRAGMENT_SET).Some? { Empties(Encodes(f, FRAGMENT_SET).value); }
    }
  }

  /** From the first character behind a "?". */
  lemma ReadRawQuery(t: Input, c: Config, tail: Tail, o: Outcome, e: Config)
    requires t.override.None? && IsTail(tail) && tail.query.Some? && Ends(t, c, o, e) && c.stage == Query
    requires c.url.query == Some([]) && c.url.fragment.None? && Ahead(t, c.pointer, tail.query.value + RawFragment(tail))
    ensures Gives(o, e, c.url, tail)
  {
    hide Ends, Ahead, Encodes, IsSpecialScheme, QueryEncodes, AfterQueryText;
    var q := tail.query.value;
    ReadQuery(t, c, q, RawFragment(tail), o, e);
    if QueryEncodes(q, IsSpecial(c.url)).Some? {
      var p := QueryEncodes(q, IsSpecial(c.url)).value;
      Empties(p);
      ReadRawFragment(t, c.(pointer := c.pointer + |q|, url := c.url.(query := Some(p))), tail, o, e);
      SameGives(o, e, c.url, c.url.(query := Some(p)), tail);
    }
  }

  lemma SameGives(o: Outcome, e: Config, u: Url, v: Url, tail: Tail)
    requires Gives(o, e, v, tail) && tail.query.Some? && v == u.(query := v.query)
    ensures Gives(o, e, u, tail)
  {
    hide IsSpecialScheme, QueryEncodes, Encodes;
  }

  /** From the first character behind a "#". */
  lemma ReadRawHash(t: Input, c: Config, tail: Tail, o: Outcome, e: Config)
    requires t.override.None? && tail.query.None? && tail.fragment.Some? && Ends(t, c, o, e) && c.stage == Fragment
    requires c.url.fragment == Some([]) && Ahead(t, c.pointer, tail.fragment.value)
    ensures Gives(o, e, c.url, tail)
  {
    hide Ends, Ahead, Encodes, IsSpecialScheme;
    var f := tail.fragment.value;
    ReadFragment(t, c, f, o, e);
    if Encodes(f, FRAGMENT_SET).Some? { Empties(Encodes(f, FRAGMENT_SET).value); }
  }

  /** The tail of a text, from behind a path. */
  lemma ReadRaw(t: Input, c: Config, tail: Tail, o: Outcome, e: Config)
    requires t.override.None? && IsTail(tail) && Ends(t, AfterTail(c, Raw(tail)), o, e) && Ahead(t, c.pointer, Raw(tail))
    requires c.url.query.None? && c.url.fragment.None?
    ensures Gives(o, e, c.url, tail)
  {
    hide Ends, Ahead, Gives, EncodedTail;
    RawStarts(c, tail);
    hide Raw, AfterTail;
    var d := AfterTail(c, Raw(tail));
    AheadRest(t, c.pointer, Raw(tail));
    if tail.query.Some? {
      AheadFirst(t, c.pointer, QUESTION, tail.query.value + RawFragment(tail));
      ReadRawQuery(t, d, tail, o, e);
      SameGives(o, e, c.url, d.url, tail);
    } else if tail.fragment.Some? {
      AheadFirst(t, c.pointer, HASH, tail.fragment.value);
      ReadRawHash(t, d, tail, o, e);
      FragmentGives(o, e, c.url, d.url, tail);
    } else {
      Arrived(t, d, o, e);
      NoTail(o, e, c.url);
    }
  }

  lemma FragmentGives(o: Outcome, e: Config, u: Url, v: Url, tail: Tail)
    requires Gives(o, e, v, tail) && v == u.(fragment := v.fragment)
    ensures Gives(o, e, u, tail)
  {
    hide IsSpecialScheme, QueryEncodes, Encodes;
  }

  lemma NoTail(o: Outcome, e: Config, u: Url)
    requires o == Parsed && e.url == u && u.fragment.None?
    ensures Gives(o, e, u, Tail(None, None))
  {
    hide IsSpecialScheme;
  }

  lemma RawStarts(c: Config, tail: Tail)
    ensures tail.query.Some? ==> Raw(tail) == [QUESTION] + (tail.query.value + RawFragment(tail))
    ensures tail.query.None? ==> Raw(tail) == RawFragment(tail)
    ensures AfterTail(c, Raw(tail)) ==
            if tail.query.Some? then c.(stage := Query, pointer := c.pointer + 1, buffer := [], url := c.url.(query := Some([])))
            else if tail.fragment.Some? then c.(stage := Fragment, pointer := c.pointer + 1, buffer := [],
                url := c.url.(fragment := Some([])))
            else c.(pointer := c.pointer + 1, buffer := [])
    ensures GoesOn(Raw(tail), {QUESTION, HASH})
    ensures First(Raw(tail)) == if tail.query.Some? then Some(QUESTION) else if tail.fragment.Some? then Some(HASH) else None
  {
    assert [] + RawFragment(tail) == RawFragment(tail);
  }

  // ---------- References without a path ----------

  /** What a file reference takes from a file base: no credentials and no port. */
  function FileParts(b: Url): Url { FRESH.(scheme := FILE, host := b.host, path := b.path, query := b.query) }

  /** What a reference starts from. */
  function Taken(b: Url): Url {
    if b.cannotBeABase then FRESH.(scheme := b.scheme, path := b.path, query := b.query, cannotBeABase := true)
    else if b.scheme == FILE then FileParts(b)
    else b.(fragment := None)
  }

  /** The state a reference starts in, by its base. */
  function Referring(b: Url): Config {
    Unread().(stage := if b.cannotBeABase then NoScheme else if b.scheme == FILE then File else Relative)
  }

  lemma Referenced(t: Input, b: Url, o: Outcome, e: Config)
    requires t.override.None? && t.base == Some(b) && Ends(t, Unread(), o, e)
    ensures Ends(t, Referring(b), o, e)
  {
    hide Ends;
    if !b.cannotBeABase { Step(t, Unread(), o, e); }
  }

  lemma TailHasNoScheme(tail: Tail)
    ensures !HasScheme(Raw(tail))
  {
    hide SchemeEnds;
    RawStarts(Fresh(), tail);
  }

  lemma TailMove(t: Input, b: Url, chr: Option<int>)
    requires t.override.None? && t.base == Some(b) && t.At(0) == chr
    requires chr.None? || chr.value == QUESTION || chr.value == HASH
    ensures After(t, Referring(b)) ==
            if b.cannotBeABase && chr != Some(HASH) then Halt(Referring(b), Failed(InvalidScheme))
            else
              var u := Taken(b);
              if chr == Some(HASH) then Move(Loop, Referring(b).(stage := Fragment, pointer := 1, url := u.(fragment := Some([]))))
              else if chr == Some(QUESTION) then Move(Loop, Referring(b).(stage := Query, pointer := 1,
                  url := u.(query := Some([]))))
              else Move(Loop, Referring(b).(pointer := 1, url := u))
  {
    hide IsSpecialScheme;
  }

  /**
   A reference that is only a query or a fragment, both, or nothing: it changes nothing else of the base, and takes
   the base's query unless it has its own.  An opaque base takes a fragment alone.
   */
  lemma TailReference(t: Input, b: Url, tail: Tail, o: Outcome, e: Config)
    requires t.override.None? && t.base == Some(b) && t.cps == Raw(tail) && IsTail(tail) && Ends(t, Fresh(), o, e)
    ensures if b.cannotBeABase && !(tail.query.None? && tail.fragment.Some?) then o == Failed(InvalidScheme)
            else Gives(o, e, Taken(b), tail)
  {
    hide Ends, Ahead, After, Gives, HasScheme, Taken;
    var c := Referring(b);
    TailHasNoScheme(tail);
    WithoutScheme(t, o, e);
    Referenced(t, b, o, e);
    Start(t, Raw(tail));
    RawStarts(c, tail);
    hide Raw;
    AheadRest(t, 0, Raw(tail));
    TailMove(t, b, First(Raw(tail)));
    if After(t, c).next.Stop? {
      Halted(t, c, o, e);
    } else {
      Step(t, c, o, e);
      TakenForm(b);
      TailRead(t, After(t, c).config, Taken(b), tail, o, e);
    }
  }

  lemma TakenForm(b: Url)
    ensures Taken(b).fragment == None
  {
  }

  lemma TailRead(t: Input, d: Config, u: Url, tail: Tail, o: Outcome, e: Config)
    requires t.override.None? && IsTail(tail) && Ends(t, d, o, e) && d.pointer == 1 && Ahead(t, 0, Raw(tail)) && u.fragment == None
    requires if tail.query.Some? then d.stage == Query && d.url == u.(query := Some([]))
             else if tail.fragment.Some? then d.stage == Fragment && d.url == u.(fragment := Some([]))
             else d.url == u
    ensures Gives(o, e, u, tail)
  {
    hide Ends, Ahead, Gives;
    RawStarts(d, tail);
    hide Raw;
    if tail.query.Some? {
      AheadFirst(t, 0, QUESTION, tail.query.value + RawFragment(tail));
      ReadRawQuery(t, d, tail, o, e);
      SameGives(o, e, u, d.url, tail);
    } else if tail.fragment.Some? {
      AheadFirst(t, 0, HASH, tail.fragment.value);
      ReadRawHash(t, d, tail, o, e);
      FragmentGives(o, e, u, d.url, tail);
    } else {
      AheadRest(t, 0, Raw(tail));
      Arrived(t, d, o, e);
      NoTail(o, e, u);
    }
  }

  // ---------- References with a path ----------

  /** The text of a path between its slashes, without what could end it. */
  predicate IsPathText(special: bool, segments: seq<seq<int>>) {
    segments != [] && forall i :: 0 <= i < |segments| ==> SegmentText(special, segments[i])
  }

  /** All but the last segment. */
  function Parent(path: seq<seq<int>>): seq<seq<int>> { if path == [] then [] else path[..|path| - 1] }

  /** The run walks the segments from u and then reads the tail, or throws on a lone surrogate in either. */
  predicate Walks(o: Outcome, e: Config, u: Url, segments: seq<seq<int>>, tail: Tail)
    requires segments != []
  {
    match EncodedSegments(segments)
    case None => o == Thrown(LoneSurrogate)
    case Some(path) => Gives(o, e, Walked(u, path), tail)
  }

  /** Path, query and fragment from a path state on. */
  lemma ReadWalk(t: Input, c: Config, segments: seq<seq<int>>, tail: Tail, o: Outcome, e: Config)
    requires t.override.None? && Ends(t, c, o, e) && c.stage == Path && c.buffer == [] && c.url.query.None? && c.url.fragment.None?
    requires IsPathText(IsSpecial(c.url), segments) && IsTail(tail)
    requires Ahead(t, c.pointer, Delimited.Join(segments, SLASH) + Raw(tail))
    ensures Walks(o, e, c.url, segments, tail)
  {
    hide Ends, Ahead, Gives, Raw, AfterTail, Delimited.Join, EncodedSegments, Walked, IsSpecialScheme, SegmentText;
    RawStarts(c, tail);
    ReadPath(t, c, segments, Raw(tail), o, e);
    if EncodedSegments(segments).Some? {
      var path := EncodedSegments(segments).value;
      WalkedKeeps(c.url, path);
      ReadRaw(t, c.(pointer := c.pointer + |Delimited.Join(segments, SLASH)|, url := Walked(c.url, path)), tail, o, e);
    }
  }

  /** Where a reference with a path starts: at the base without its last segment. */
  function PathStartOf(t: Input, b: Url): Url {
    if b.scheme != FILE then b.(path := Parent(b.path), query := None, fragment := None)
    else if DriveAhead(t, 0) then FRESH.(scheme := FILE)
    else Shortened(FRESH.(scheme := FILE, host := b.host, path := b.path))
  }

  lemma PathMove(t: Input, b: Url, x: int)
    requires t.override.None? && t.base == Some(b) && !b.cannotBeABase && t.At(0) == Some(x)
    requires x !in DELIMITERS && !(IsSpecial(b) && x == BACKSLASH)
    ensures After(t, Referring(b)) ==
            if b.scheme != FILE && b.path == [] then Halt(Referring(b).(stage := Relative), Thrown(EmptyBasePath))
            else Move(Loop, Referring(b).(stage := Path, url := PathStartOf(t, b)))
  {
    FileIsSpecial();
    hide IsSpecialScheme, DriveAhead, Shortened;
  }

  /** A path does not start with a delimiter unless its first segment is empty. */
  lemma PathFirst(special: bool, segments: seq<seq<int>>, rest: seq<int>)
    requires IsPathText(special, segments) && segments[0] != []
    ensures var s := Delimited.Join(segments, SLASH) + rest;
            s != [] && First(s) == Some(segments[0][0]) && s[0] !in DELIMITERS && !(special && s[0] == BACKSLASH)
  {
    assert SegmentText(special, segments[0]);
  }

  /**
   A reference with a path is walked from the base without its last segment, with its own query and fragment; where
   the base has no segment to drop, the parser throws.  A drive letter ahead keeps a file base out of it.
   */
  lemma PathReference(t: Input, b: Url, segments: seq<seq<int>>, tail: Tail, o: Outcome, e: Config)
    requires t.override.None? && t.base == Some(b) && !b.cannotBeABase && Ends(t, Fresh(), o, e)
    requires t.cps == Delimited.Join(segments, SLASH) + Raw(tail) && IsTail(tail) && !HasScheme(t.cps)
    requires IsPathText(IsSpecial(b), segments) && segments[0] != []
    ensures if b.scheme != FILE && b.path == [] then o == Thrown(EmptyBasePath)
            else Walks(o, e, PathStartOf(t, b), segments, tail)
  {
    hide Ends, Ahead, After, HasScheme, Raw, Delimited.Join, IsPathText, IsSpecialScheme, Walks;
    WithoutScheme(t, o, e);
    Referenced(t, b, o, e);
    PathFirst(IsSpecial(b), segments, Raw(tail));
    Start(t, t.cps);
    AheadRest(t, 0, t.cps);
    PathMove(t, b, t.cps[0]);
    if b.scheme != FILE && b.path == [] {
      Halted(t, Referring(b), o, e);
    } else {
      Step(t, Referring(b), o, e);
      PathStartForm(t, b);
      ReadWalk(t, Referring(b).(stage := Path, url := PathStartOf(t, b)), segments, tail, o, e);
    }
  }

  lemma PathStartForm(t: Input, b: Url)
    ensures var u := PathStartOf(t, b); u.query == None && u.fragment == None && u.scheme == b.scheme
  {
    ShortenedShape(FRESH.(scheme := FILE, host := b.host, path := b.path));
  }

  /** Outside files the path is that of section 5.2.4 of RFC 3986. */
  lemma DotReference(t: Input, b: Url, segments: seq<seq<int>>, tail: Tail, o: Outcome, e: Config)
    requires t.override.None? && t.base == Some(b) && !b.cannotBeABase && Ends(t, Fresh(), o, e)
    requires t.cps == Delimited.Join(segments, SLASH) + Raw(tail) && IsTail(tail) && !HasScheme(t.cps)
    requires IsPathText(IsSpecial(b), segments) && segments[0] != []
    requires b.scheme != FILE && b.path != []
    ensures match EncodedSegments(segments)
            case None => o == Thrown(LoneSurrogate)
            case Some(path) =>
              Gives(o, e, b.(path := Shorter(Parent(b.path), Pending(path), 0) + Survivors(path) + Trail(path),
                  query := None, fragment := None), tail)
  {
    hide Ends, HasScheme, Raw, Delimited.Join, SegmentText, Walked, Gives, Shorter, Pending, Survivors, Trail,
      EncodedSegments, IsSpecialScheme;
    PathReference(t, b, segments, tail, o, e);
    if EncodedSegments(segments).Some? { WalkedResolved(PathStartOf(t, b), EncodedSegments(segments).value); }
  }

  /** A file base keeps its drive letter under any number of "..", and its host. */
  lemma FileDotReference(t: Input, b: Url, segments: seq<seq<int>>, tail: Tail, o: Outcome, e: Config)
    requires t.override.None? && t.base == Some(b) && b.scheme == FILE && !b.cannotBeABase && Ends(t, Fresh(), o, e)
    requires t.cps == Delimited.Join(segments, SLASH) + Raw(tail) && IsTail(tail) && !HasScheme(t.cps)
    requires IsPathText(IsSpecial(b), segments) && segments[0] != [] && !DriveAhead(t, 0)
    requires EncodedSegments(segments).Some? ==> NoNewDrive(FileParts(b), EncodedSegments(segments).value)
    requires b.path != []
    ensures match EncodedSegments(segments)
            case None => o == Thrown(LoneSurrogate)
            case Some(path) =>
              var floor := Floor(FileParts(b));
              var up := Shorter(Shorter(b.path, 1, floor), Pending(path), floor);
              Gives(o, e, FRESH.(scheme := FILE, host := b.host, path := DropEmpty(up + Survivors(path) + Trail(path))), tail)
  {
    hide Ends, HasScheme, Raw, Delimited.Join, SegmentText, Walked, Gives, Pending, Survivors, Trail, EncodedSegments,
      IsSpecialScheme, DropEmpty, IsWindowsDriveLetter, DriveAhead, Floor, NoNewDrive, Shorter;
    PathReference(t, b, segments, tail, o, e);
    var u := FRESH.(scheme := FILE, host := b.host, path := b.path);
    ShorterOnce(u);
    if EncodedSegments(segments).Some? {
      FloorUp(u, FileParts(b), EncodedSegments(segments).value);
      WalkedResolved(PathStartOf(t, b), EncodedSegments(segments).value);
    }
  }

  lemma FloorUp(u: Url, w: Url, segments: seq<seq<int>>)
    requires u.scheme == w.scheme && u.path == w.path && NoNewDrive(w, segments)
    ensures Floor(u) == Floor(w) == Floor(Shortened(u)) && NoNewDrive(Shortened(u), segments)
  {
    hide IsWindowsDriveLetter;
  }

  // ---------- References from the root ----------

  /** Where a reference with a leading slash starts: at the base's authority, or at a file base's drive letter or host. */
  function RootOf(t: Input, b: Url): Url {
    if b.scheme != FILE then b.(path := [], query := None, fragment := None)
    else if DriveAhead(t, 1) || b.path == [] then FRESH.(scheme := FILE)
    else if IsWindowsDriveLetter(b.path[0], true) then FRESH.(scheme := FILE, path := [b.path[0]])
    else FRESH.(scheme := FILE, host := b.host)
  }

  /** The file parser reads the first segment of the base, and throws where there is none. */
  predicate RootThrows(t: Input, b: Url) { b.scheme == FILE && b.path == [] && !DriveAhead(t, 1) }

  lemma RootMoves(t: Input, b: Url)
    requires t.override.None? && t.base == Some(b) && !b.cannotBeABase && t.At(0) == Some(SLASH)
    requires t.At(1) != Some(SLASH) && !(IsSpecial(b) && t.At(1) == Some(BACKSLASH))
    ensures After(t, Referring(b)).next == Loop
    ensures var d := After(t, Referring(b)).config;
            && d == Referring(b).(stage := if b.scheme == FILE then FileSlash else RelativeSlash, pointer := 1,
                url := FRESH.(scheme := b.scheme))
            && After(t, d) == if RootThrows(t, b) then Halt(d, Thrown(EmptyBasePath))
                              else Move(Loop, d.(stage := Path, url := RootOf(t, b)))
  {
    FileIsSpecial();
    hide IsSpecialScheme, DriveAhead, IsWindowsDriveLetter;
    assert forall s: seq<int> :: [] + [s] == [s];
  }

  lemma RootForm(t: Input, b: Url)
    ensures var u := RootOf(t, b); u.query == None && u.fragment == None && u.scheme == b.scheme
  {
  }

  lemma SlashHasNoScheme(s: seq<int>)
    requires s != [] && s[0] == SLASH
    ensures !HasScheme(s)
  {
    hide SchemeEnds;
  }

  /** A reference from the root is walked from there. */
  lemma RootReference(t: Input, b: Url, segments: seq<seq<int>>, tail: Tail, o: Outcome, e: Config)
    requires t.override.None? && t.base == Some(b) && !b.cannotBeABase && Ends(t, Fresh(), o, e)
    requires t.cps == [SLASH] + (Delimited.Join(segments, SLASH) + Raw(tail)) && IsTail(tail) && IsPathText(IsSpecial(b), segments)
    requires var x := First(Delimited.Join(segments, SLASH) + Raw(tail));
             x != Some(SLASH) && !(IsSpecial(b) && x == Some(BACKSLASH))
    ensures if RootThrows(t, b) then o == Thrown(EmptyBasePath) else Walks(o, e, RootOf(t, b), segments, tail)
  {
    hide Ends, Ahead, After, HasScheme, Raw, Delimited.Join, IsPathText, IsSpecialScheme, Walks, DriveAhead, RootOf;
    var rest := Delimited.Join(segments, SLASH) + Raw(tail);
    SlashHasNoScheme(t.cps);
    WithoutScheme(t, o, e);
    Referenced(t, b, o, e);
    Start(t, [SLASH] + rest);
    AheadFirst(t, 0, SLASH, rest);
    AheadRest(t, 1, rest);
    RootMoves(t, b);
    Step(t, Referring(b), o, e);
    var d := After(t, Referring(b)).config;
    if RootThrows(t, b) {
      Halted(t, d, o, e);
    } else {
      Step(t, d, o, e);
      RootForm(t, b);
      ReadWalk(t, d.(stage := Path, url := RootOf(t, b)), segments, tail, o, e);
    }
  }

  // ---------- A drive letter keeps the base out ----------

  /** Behind the authority nothing is asked of the base any more. */
  lemma BaseUnread(t: Input, base: Option<Url>, c: Config)
    requires c.stage in {Path, Query, Fragment}
    ensures After(t.(base := base), c) == After(t, c)
    ensures t.override.None? && After(t, c).next.Loop? ==> After(t, c).config.stage in {Path, Query, Fragment}
  {
    hide IsSpecialScheme, PathEnded, PercentEncode, QueryEncode, PlusText;
  }

  lemma {:induction false} AnyBase(t: Input, base: Option<Url>, c: Config, trace: seq<Config>, o: Outcome, e: Config)
    requires t.override.None? && c.stage in {Path, Query, Fragment} && IsParse(t, c, trace, o, e)
    ensures IsParse(t.(base := base), c, trace, o, e)
    decreases |trace|
  {
    hide After;
    BaseUnread(t, base, c);
    if |trace| > 1 {
      TraceRest(t, trace, o, e);
      AnyBase(t, base, trace[1], trace[1..], o, e);
      var s := t.(base := base);
      forall i | 0 <= i < |trace| - 1 ensures trace[i].pointer <= |s.cps| && Turns(s, trace[i], Move(Loop, trace[i + 1])) {
        if i > 0 { assert trace[1..][i - 1] == trace[i] && trace[1..][i] == trace[i + 1]; }
      }
    }
  }

  /** Two runs over one text from one configuration behind the authority come to the same, whatever the bases. */
  lemma SameEnd(t: Input, base: Option<Url>, c: Config, o: Outcome, e: Config, p: Outcome, f: Config)
    requires t.override.None? && c.stage in {Path, Query, Fragment} && Ends(t, c, o, e) && Ends(t.(base := base), c, p, f)
    ensures o == p && (o.Thrown? || e == f)
  {
    hide IsParse;
    var trace :| IsParse(t, c, trace, o, e);
    AnyBase(t, base, c, trace, o, e);
    Determined(t.(base := base), c, trace, o, e, p, f);
  }

  /** The configuration in which a file path is read without a base. */
  function BareFile(i: nat): Config { Config(FRESH.(scheme := FILE), Path, i, [], false, false, false) }

  lemma DriveStarts(t: Input, i: nat, w: seq<int>)
    requires Ahead(t, i, w) && StartsWithWindowsDriveLetter(w)
    ensures DriveAhead(t, i) && t.At(i).Some? && t.At(i).value !in {SLASH, BACKSLASH, QUESTION, HASH} && i < |t.cps|
  {
    AheadRest(t, i, w);
  }

  lemma DriveMove(t: Input, i: nat, u: Url)
    requires t.override.None? && DriveAhead(t, i) && t.At(i).Some? && t.At(i).value !in {SLASH, BACKSLASH, QUESTION, HASH}
    requires u == FRESH.(scheme := u.scheme)
    ensures After(t, Config(u, File, i, [], false, false, false)) == Move(Loop, BareFile(i))
  {
    hide DriveAhead, Shortened;
  }

  lemma SlashDriveMove(t: Input, i: nat)
    requires t.override.None? && DriveAhead(t, i) && t.At(i).Some? && t.At(i).value !in {SLASH, BACKSLASH, QUESTION, HASH}
    ensures After(t, Config(FRESH.(scheme := FILE), FileSlash, i, [], false, false, false)) == Move(Loop, BareFile(i))
  {
    hide DriveAhead, IsWindowsDriveLetter;
  }

  lemma FileBegins(t: Input, slash: seq<int>, w: seq<int>, o: Outcome, e: Config)
    requires t.override.None? && t.cps == FILE + ([COLON] + (slash + w)) && StartsWithWindowsDriveLetter(w)
             && Ends(t, Fresh(), o, e)
    requires slash == [] || slash == [SLASH] || slash == [BACKSLASH]
    ensures Ends(t, BareFile(5 + |slash|), o, e)
  {
    hide Ends, Ahead, After, StartsWithWindowsDriveLetter, DriveAhead, SchemeText, BehindScheme;
    FileScheme();
    ReadScheme(t, FILE, slash + w, o, e);
    AheadSkip(t, 5, slash, w);
    DriveStarts(t, 5 + |slash|, w);
    var c := Config(FRESH.(scheme := FILE), File, 5, [], false, false, false);
    FileFirst(t, First(slash + w) == Some(SLASH));
    if slash == [] {
      DriveMove(t, 5, FRESH.(scheme := FILE));
      Step(t, c, o, e);
    } else {
      assert slash + w == [slash[0]] + w;
      AheadFirst(t, 5, slash[0], w);
      SlashDriveMove(t, 6);
      FileSlashMove(t, c);
      Step(t, c, o, e);
      Step(t, c.(stage := FileSlash, pointer := 6), o, e);
    }
  }

  lemma FileFirst(t: Input, slash: bool)
    ensures BehindScheme(t, FILE, slash) == Config(FRESH.(scheme := FILE), File, 5, [], false, false, false)
  {
  }

  lemma FileSlashMove(t: Input, c: Config)
    requires c == Config(FRESH.(scheme := FILE), File, 5, [], false, false, false)
             && (t.At(5) == Some(SLASH) || t.At(5) == Some(BACKSLASH))
    ensures After(t, c) == Move(Loop, c.(stage := FileSlash, pointer := 6))
  {
    hide DriveAhead, Shortened;
  }

  /** "file:c:/..." and "file:/c:/..." come to the same URL whatever the base, its host and its path. */
  lemma DriveIndependent(t: Input, base: Option<Url>, slash: seq<int>, w: seq<int>, o: Outcome, e: Config, p: Outcome, f: Config)
    requires t.override.None? && t.cps == FILE + ([COLON] + (slash + w)) && StartsWithWindowsDriveLetter(w)
    requires slash == [] || slash == [SLASH] || slash == [BACKSLASH]
    requires Ends(t, Fresh(), o, e) && Ends(t.(base := base), Fresh(), p, f)
    ensures o == p && (o.Thrown? || e == f)
  {
    hide Ends, StartsWithWindowsDriveLetter;
    FileBegins(t, slash, w, o, e);
    FileBegins(t.(base := base), slash, w, p, f);
    SameEnd(t, base, BareFile(5 + |slash|), o, e, p, f);
  }

  /** So does a reference "c|/..." against any two file bases. */
  lemma DriveReference(t: Input, b: Url, d: Url, o: Outcome, e: Config, p: Outcome, f: Config)
    requires t.override.None? && t.base == Some(b) && StartsWithWindowsDriveLetter(t.cps) && !HasScheme(t.cps)
    requires b.scheme == FILE && !b.cannotBeABase && d.scheme == FILE && !d.cannotBeABase
    requires Ends(t, Fresh(), o, e) && Ends(t.(base := Some(d)), Fresh(), p, f)
    ensures o == p && (o.Thrown? || e == f)
  {
    hide Ends, StartsWithWindowsDriveLetter, HasScheme;
    DriveBegins(t, b, o, e);
    DriveBegins(t.(base := Some(d)), d, p, f);
    SameEnd(t, Some(d), BareFile(0), o, e, p, f);
  }

  lemma DriveBegins(t: Input, b: Url, o: Outcome, e: Config)
    requires t.override.None? && t.base == Some(b) && StartsWithWindowsDriveLetter(t.cps) && !HasScheme(t.cps)
    requires b.scheme == FILE && !b.cannotBeABase && Ends(t, Fresh(), o, e)
    ensures Ends(t, BareFile(0), o, e)
  {
    hide Ends, Ahead, After, StartsWithWindowsDriveLetter, DriveAhead, HasScheme;
    WithoutScheme(t, o, e);
    Referenced(t, b, o, e);
    Start(t, t.cps);
    DriveStarts(t, 0, t.cps);
    DriveMove(t, 0, FRESH);
    Step(t, Referring(b), o, e);
  }
}
