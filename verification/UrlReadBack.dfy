/**
 How the URL parser of js/secsdk-lastest.umd.js reads the parts of a printed URL in normal form: userinfo, port,
 path, query and fragment.
 */
module UrlReadBack {
  import opened Wrappers
  import opened UrlRecord
  import opened UrlHost
  import opened UrlHostText
  import opened UrlStates
  import opened UrlRuns
  import opened UrlPrinter
  import opened UrlNormal
  import Delimited
  import Ip = IpAddress

  // ---------- Query and fragment ----------

  lemma {:induction false} QueryKept(special: bool, q: seq<int>)
    requires QueryForm(special, q)
    ensures QueryEncodes(q, special) == Some(q)
  {
    if q != [] {
      assert q[0] in q && forall x :: x in q[1..] ==> x in q;
      QueryKept(special, q[1..]);
      assert Kept(q[0], C0_SET);
      assert q == [q[0]] + q[1..];
    }
  }

  lemma ReadQueryTail(t: Input, d: Config, u: Url, o: Outcome, e: Config)
    requires t.override.None? && u.query.Some? && TailForm(u) && IsSpecial(d.url) == IsSpecial(u)
    requires Ends(t, d, o, e) && Ahead(t, d.pointer, u.query.value + FragmentText(u))
    requires d.stage == Query && d.url.query == Some([]) && d.url.fragment.None?
    ensures o == Parsed && e.url == d.url.(query := u.query, fragment := u.fragment)
  {
    hide Ends, Ahead, IsSpecialScheme, QueryForm, AllKept, QueryEncodes, FragmentText, AfterQueryText, GoesOn;
    var q := u.query.value;
    QueryKept(IsSpecial(u), q);
    FragmentFollows(u, q);
    ReadQuery(t, d, q, FragmentText(u), o, e);
    Empties(q);
    FinishFragment(t, d.(pointer := d.pointer + |q|, url := d.url.(query := u.query)), u, o, e);
  }

  lemma QueryFirst(c: Config, u: Url)
    requires u.query.Some?
    ensures TailText(u) == [QUESTION] + (u.query.value + FragmentText(u))
    ensures AfterTail(c, TailText(u)) == c.(stage := Query, pointer := c.pointer + 1, buffer := [],
            url := c.url.(query := Some([])))
  {
    hide FragmentText;
  }

  lemma FragmentFirst(c: Config, u: Url)
    requires u.query.None?
    ensures TailText(u) == FragmentText(u)
    ensures u.fragment.Some? ==> TailText(u) == [HASH] + u.fragment.value
    ensures AfterTail(c, TailText(u)) == if u.fragment.None? then c.(pointer := c.pointer + 1, buffer := [])
            else c.(stage := Fragment, pointer := c.pointer + 1, buffer := [], url := c.url.(fragment := Some([])))
  {
    Empties(FragmentText(u));
  }

  /** Query and fragment are read as they were printed. */
  lemma ReadTail(t: Input, c: Config, u: Url, o: Outcome, e: Config)
    requires t.override.None? && Ends(t, AfterTail(c, TailText(u)), o, e) && Ahead(t, c.pointer, TailText(u))
    requires c.url.query.None? && c.url.fragment.None? && IsSpecial(c.url) == IsSpecial(u) && TailForm(u)
    ensures o == Parsed && e.url == c.url.(query := u.query, fragment := u.fragment)
  {
    hide Ends, Ahead, IsSpecialScheme, AfterTail, TailText, FragmentText, TailForm;
    if u.query.Some? {
      QueryFirst(c, u);
      AheadFirst(t, c.pointer, QUESTION, u.query.value + FragmentText(u));
      ReadQueryTail(t, AfterTail(c, TailText(u)), u, o, e);
    } else {
      FragmentFirst(c, u);
      ReadFragmentTail(t, c, u, o, e);
    }
  }

  lemma ReadFragmentTail(t: Input, c: Config, u: Url, o: Outcome, e: Config)
    requires t.override.None? && u.query.None? && Ahead(t, c.pointer, FragmentText(u)) && TailForm(u)
    requires c.url.query.None? && c.url.fragment.None?
    requires Ends(t, if u.fragment.None? then c.(pointer := c.pointer + 1, buffer := [])
                     else c.(stage := Fragment, pointer := c.pointer + 1, buffer := [], url := c.url.(fragment := Some([]))), o, e)
    ensures o == Parsed && e.url == c.url.(query := u.query, fragment := u.fragment)
  {
    hide Ends, Ahead, AllKept, Encodes, QueryForm, IsSpecialScheme;
    AheadRest(t, c.pointer, FragmentText(u));
    if u.fragment.None? {
      Arrived(t, c.(pointer := c.pointer + 1, buffer := []), o, e);
    } else {
      var f := u.fragment.value;
      AheadFirst(t, c.pointer, HASH, f);
      KeptEncodes(f, FRAGMENT_SET);
      ReadFragment(t, c.(stage := Fragment, pointer := c.pointer + 1, buffer := [], url := c.url.(fragment := Some([]))), f, o, e);
      Empties(f);
    }
  }

  lemma FragmentFollows(u: Url, q: seq<int>)
    requires QueryForm(IsSpecial(u), q)
    ensures HASH !in q && GoesOn(FragmentText(u), {HASH})
  {
  }

  lemma FinishFragment(t: Input, c: Config, u: Url, o: Outcome, e: Config)
    requires t.override.None? && Ends(t, AfterQueryText(c, FragmentText(u)), o, e) && Ahead(t, c.pointer, FragmentText(u))
    requires c.url.fragment.None? && (u.fragment.Some? ==> AllKept(u.fragment.value, FRAGMENT_SET))
    ensures o == Parsed && e.url == c.url.(fragment := u.fragment)
  {
    hide Ends, Ahead, AllKept, Encodes;
    var d := AfterQueryText(c, FragmentText(u));
    AheadRest(t, c.pointer, FragmentText(u));
    if u.fragment.None? {
      Arrived(t, d, o, e);
    } else {
      var f := u.fragment.value;
      AheadFirst(t, c.pointer, HASH, f);
      KeptEncodes(f, FRAGMENT_SET);
      ReadFragment(t, d, f, o, e);
      Empties(f);
    }
  }

  lemma TailGoesOn(u: Url)
    ensures GoesOn(TailText(u), {QUESTION, HASH})
  {
  }

  // ---------- The path ----------

  lemma {:induction false} SegmentsKept(special: bool, path: seq<seq<int>>)
    requires PathForm(special, path)
    ensures EncodedSegments(path) == Some(path)
  {
    hide SegmentForm, Encodes;
    if path != [] {
      assert SegmentForm(special, path[0]);
      SegmentKept(special, path[0]);
      assert PathForm(special, path[1..]) by { assert forall i :: 0 <= i < |path[1..]| ==> path[1..][i] == path[i + 1]; }
      SegmentsKept(special, path[1..]);
      assert path == [path[0]] + path[1..];
    }
  }

  lemma SegmentKept(special: bool, s: seq<int>)
    requires SegmentForm(special, s)
    ensures Encodes(s, PATH_SET) == Some(s) && SegmentText(special, s)
  {
    KeptEncodes(s, PATH_SET);
    forall i | 0 <= i < |s| ensures s[i] !in DELIMITERS && !(special && s[i] == BACKSLASH) {
      assert s[i] in s && Kept(s[i], PATH_SET);
    }
  }

  /** The first segment of a file path may be a drive letter; all others are appended as they are. */
  predicate Appends(u: Url, s: seq<int>) { SegmentForm(IsSpecial(u), s) && !(u.scheme == FILE && u.path == []
      && IsWindowsDriveLetter(s, false)) }

  lemma SegmentAppends(u: Url, s: seq<int>, slash: bool)
    requires Appends(u, s)
    ensures WithSegment(u, s, slash) == u.(path := u.path + [s])
  {
    hide IsSingleDot, IsDoubleDot, IsWindowsDriveLetter;
  }

  lemma {:induction false} WalkedAppends(u: Url, segments: seq<seq<int>>)
    requires segments != [] && PathForm(IsSpecial(u), segments) && Appends(u, segments[0])
    requires u.scheme == FILE && |u.path + segments| > 1 ==> (u.path + segments)[0] != []
    ensures Walked(u, segments) == u.(path := u.path + segments)
    decreases |segments|
  {
    hide WithSegment, IsWindowsDriveLetter, SegmentForm, IsSpecialScheme;
    var s := segments[0];
    if |segments| == 1 {
      SegmentAppends(u, s, false);
      assert segments == [s];
    } else {
      SegmentAppends(u, s, true);
      var v := u.(path := u.path + [s]);
      assert segments == [s] + segments[1..] && v.path + segments[1..] == u.path + segments;
      assert forall i :: 0 <= i < |segments[1..]| ==> segments[1..][i] == segments[i + 1];
      assert SegmentForm(IsSpecial(v), segments[1]);
      WalkedAppends(v, segments[1..]);
    }
  }

  /** A drive letter in front drops the host and is written with a colon. */
  lemma WalkedDrive(u: Url, segments: seq<seq<int>>)
    requires segments != [] && PathForm(IsSpecial(u), segments) && u.scheme == FILE && u.path == []
    requires IsWindowsDriveLetter(segments[0], false)
    ensures Walked(u, segments) ==
            u.(host := if Truthy(u.host) then Text([]) else u.host, path := segments[0 := [segments[0][0], COLON]])
  {
    hide IsSpecialScheme, SegmentForm;
    var s := segments[0];
    var d := [s[0], COLON];
    var v := u.(host := if Truthy(u.host) then Text([]) else u.host, path := [d]);
    DriveAppended(u, s);
    var path := segments[0 := d];
    if |segments| == 1 {
      assert path == [d];
    } else {
      assert path == [d] + segments[1..];
      assert forall i :: 0 <= i < |segments[1..]| ==> segments[1..][i] == segments[i + 1];
      assert SegmentForm(IsSpecial(v), segments[1]);
      WalkedAppends(v, segments[1..]);
    }
  }

  lemma DriveAppended(u: Url, s: seq<int>)
    requires u.scheme == FILE && u.path == [] && IsWindowsDriveLetter(s, false) && SegmentForm(IsSpecial(u), s)
    ensures forall slash :: WithSegment(u, s, slash) ==
              u.(host := if Truthy(u.host) then Text([]) else u.host, path := [[s[0], COLON]])
  {
    hide IsSpecialScheme, IsSingleDot, IsDoubleDot;
    assert [] + [[s[0], COLON]] == [[s[0], COLON]];
  }

  /** Path, query and fragment, from the slash in front of the path on. */
  lemma ReadSegments(t: Input, c: Config, u: Url, o: Outcome, e: Config)
    requires t.override.None? && Ends(t, c, o, e) && c.stage == Path && c.buffer == []
    requires PathForm(IsSpecial(u), u.path) && u.path != [] && TailForm(u) && c.url.scheme == u.scheme
    requires c.url.path == [] && c.url.query.None? && c.url.fragment.None?
    requires Ahead(t, c.pointer, Delimited.Join(u.path, SLASH) + TailText(u))
    ensures o == Parsed && e.url == Walked(c.url, u.path).(query := u.query, fragment := u.fragment)
  {
    hide Ends, Ahead, IsSpecialScheme, SegmentForm, TailForm, TailText, AfterTail, Delimited.Join, Walked, SegmentText;
    var text := Delimited.Join(u.path, SLASH);
    SegmentsKept(IsSpecial(u), u.path);
    forall i | 0 <= i < |u.path| ensures SegmentText(IsSpecial(c.url), u.path[i]) {
      assert SegmentForm(IsSpecial(u), u.path[i]);
      SegmentKept(IsSpecial(u), u.path[i]);
    }
    TailGoesOn(u);
    ReadPath(t, c, u.path, TailText(u), o, e);
    WalkedKeeps(c.url, u.path);
    ReadTail(t, c.(pointer := c.pointer + |text|, url := Walked(c.url, u.path)), u, o, e);
  }

  // ---------- Everything behind the authority ----------

  lemma ReadRest(t: Input, c: Config, u: Url, o: Outcome, e: Config)
    requires t.override.None? && Ends(t, c, o, e) && c.stage == PathStart && c.buffer == []
    requires PathForm(IsSpecial(u), u.path) && TailForm(u) && (IsSpecial(u) ==> u.path != []) && c.url.scheme == u.scheme != FILE
    requires c.url.path == [] && c.url.query.None? && c.url.fragment.None?
    requires Ahead(t, c.pointer, PathText(u.path) + TailText(u))
    ensures o == Parsed && e.url == c.url.(path := u.path, query := u.query, fragment := u.fragment)
  {
    hide Ends, Ahead, IsSpecialScheme, TailForm, SegmentForm, TailText, AfterTail, After, Walked, GoesOn;
    if u.path == [] {
      TailGoesOn(u);
      Empties(TailText(u));
      AheadRest(t, c.pointer, TailText(u));
      NoPathBegins(t, c, TailText(u));
      Step(t, c, o, e);
      ReadTail(t, c, u, o, e);
    } else {
      assert PathText(u.path) + TailText(u) == [SLASH] + (Delimited.Join(u.path, SLASH) + TailText(u));
      AheadFirst(t, c.pointer, SLASH, Delimited.Join(u.path, SLASH) + TailText(u));
      PathBegins(t, c);
      Step(t, c, o, e);
      ReadSegments(t, c.(stage := Path, pointer := c.pointer + 1), u, o, e);
      assert SegmentForm(IsSpecial(u), u.path[0]);
      WalkedAppends(c.url, u.path);
      assert [] + u.path == u.path;
    }
  }
}
