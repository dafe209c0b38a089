/**
 Dot segments in js/secsdk-lastest.umd.js: the parser walks a path from the left, with a stack of segments; what
 it arrives at is read off from the right, where each ".." takes away one segment in front of it.
 */
module UrlPath {
  import opened Wrappers
  import opened UrlRecord
  import opened UrlRuns

  /** How many segments of the path so far the segments ahead take away. */
  function Pending(segments: seq<seq<int>>): nat {
    if segments == [] then 0
    else
      var p := Pending(segments[1..]);
      if IsDoubleDot(segments[0]) then p + 1
      else if IsSingleDot(segments[0]) || p == 0 then p
      else p - 1
  }

  /** The segments that no later ".." takes away. */
  function Survivors(segments: seq<seq<int>>): seq<seq<int>> {
    if segments == [] then []
    else if IsDoubleDot(segments[0]) || IsSingleDot(segments[0]) || Pending(segments[1..]) > 0 then Survivors(segments[1..])
    else [segments[0]] + Survivors(segments[1..])
  }

  /** A path that ends in a dot segment ends in an empty one. */
  function Trail(segments: seq<seq<int>>): seq<seq<int>>
    requires segments != []
  {
    var last := segments[|segments| - 1];
    if IsDoubleDot(last) || IsSingleDot(last) then [[]] else []
  }

  /** A file path keeps its drive letter. */
  function Floor(u: Url): nat { if u.scheme == FILE && u.path != [] && IsWindowsDriveLetter(u.path[0], true) then 1 else 0 }

  function Shorter(path: seq<seq<int>>, n: nat, floor: nat): seq<seq<int>> {
    if |path| <= floor then path else if |path| - n < floor then path[..floor] else path[..|path| - n]
  }

  /** The path behind the segments. */
  function Onto(path: seq<seq<int>>, segments: seq<seq<int>>, floor: nat): seq<seq<int>>
    requires segments != []
  {
    Shorter(path, Pending(segments), floor) + Survivors(segments) + Trail(segments)
  }

  /** The URL with the segments resolved against its path. */
  function Resolved(u: Url, segments: seq<seq<int>>): Url
    requires segments != []
  {
    var path := Onto(u.path, segments, Floor(u));
    u.(path := if u.scheme == FILE then DropEmpty(path) else path)
  }

  /** No segment can come to stand as a new drive letter at the start of a file path. */
  predicate NoNewDrive(u: Url, segments: seq<seq<int>>) {
    u.scheme == FILE ==> Floor(u) == 1 || forall i :: 0 <= i < |segments| ==> !IsWindowsDriveLetter(segments[i], false)
  }

  lemma ShorterOnce(u: Url)
    ensures Shortened(u) == u.(path := Shorter(u.path, 1, Floor(u)))
  {
    hide IsWindowsDriveLetter;
  }

  lemma ShorterTwice(path: seq<seq<int>>, n: nat, floor: nat)
    requires floor <= 1
    ensures Shorter(Shorter(path, 1, floor), n, floor) == Shorter(path, n + 1, floor)
  {
  }

  lemma ShorterNothing(path: seq<seq<int>>, floor: nat)
    ensures Shorter(path, 0, floor) == path
  {
  }

  /** A segment that is taken away again leaves no trace. */
  lemma ShorterPushed(path: seq<seq<int>>, s: seq<int>, n: nat, floor: nat)
    requires n > 0 && floor <= |path| && floor <= 1
    ensures Shorter(path + [s], n, floor) == Shorter(path, n - 1, floor)
  {
    var pushed := path + [s];
    if |pushed| - n >= floor {
      assert pushed[..|pushed| - n] == path[..|path| - (n - 1)];
    } else {
      assert pushed[..floor] == path[..floor];
    }
  }

  lemma DriveIsDrive(s: seq<int>)
    requires IsWindowsDriveLetter(s, true)
    ensures IsWindowsDriveLetter(s, false)
  {
  }

  lemma FloorKept(u: Url, v: Url, segments: seq<seq<int>>, s: seq<int>)
    requires NoNewDrive(u, [s] + segments) && v == u.(path := v.path)
    requires v.path == Shorter(u.path, 1, Floor(u)) || v.path == u.path || v.path == u.path + [s]
    ensures Floor(v) == Floor(u) && NoNewDrive(v, segments)
  {
    hide IsWindowsDriveLetter;
    assert ([s] + segments)[0] == s;
    assert forall i :: 0 <= i < |segments| ==> ([s] + segments)[i + 1] == segments[i];
    if IsWindowsDriveLetter(s, true) { DriveIsDrive(s); }
  }

  /** One segment of the walk, while more follow. */
  lemma SegmentStep(u: Url, s: seq<int>, segments: seq<seq<int>>)
    requires NoNewDrive(u, [s] + segments)
    ensures WithSegment(u, s, true) ==
            if IsDoubleDot(s) then u.(path := Shorter(u.path, 1, Floor(u))) else if IsSingleDot(s) then u
                else u.(path := u.path + [s])
  {
    hide IsWindowsDriveLetter, IsDoubleDot, IsSingleDot, Shortened, Shorter;
    assert ([s] + segments)[0] == s;
    ShorterOnce(u);
  }

  lemma LastStep(u: Url, s: seq<int>)
    requires NoNewDrive(u, [s])
    ensures PathEnded(u, s, false, true) == Resolved(u, [s])
  {
    hide IsWindowsDriveLetter, IsDoubleDot, IsSingleDot, Shortened, Shorter, DropEmpty;
    ShorterOnce(u);
    ShorterNothing(u.path, Floor(u));
    var rest := [s][1..];
    assert rest == [] && Pending(rest) == 0 && Survivors(rest) == [] && [s] + [] == [s];
    assert Survivors([s]) == if IsDoubleDot(s) || IsSingleDot(s) then [] else [s];
    assert u.path + [] + [[]] == u.path + [[]] && u.path + [s] + [] == u.path + [s];
    assert Shorter(u.path, 1, Floor(u)) + [] + [[]] == Shorter(u.path, 1, Floor(u)) + [[]];
    assert [s][0] == s;
  }

  /** Walking a path is resolving it: ".." and "." as in section 5.2.4 of RFC 3986, and no ".." goes above the floor. */
  lemma {:induction false} WalkedResolved(u: Url, segments: seq<seq<int>>)
    requires segments != [] && NoNewDrive(u, segments)
    ensures Walked(u, segments) == Resolved(u, segments)
    decreases |segments|
  {
    hide WithSegment, PathEnded, IsDoubleDot, IsSingleDot, Shorter, Floor, DropEmpty, NoNewDrive, IsWindowsDriveLetter;
    var s, rest := segments[0], segments[1..];
    assert segments == [s] + rest;
    if rest == [] {
      assert segments == [s];
      LastStep(u, s);
    } else {
      SegmentStep(u, s, rest);
      var v := WithSegment(u, s, true);
      FloorKept(u, v, rest, s);
      WalkedResolved(v, rest);
      ResolvedStep(u, v, s, rest);
    }
  }

  lemma FloorBound(u: Url)
    ensures Floor(u) <= |u.path| && Floor(u) <= 1
  {
  }

  lemma TrailBehind(s: seq<int>, rest: seq<seq<int>>)
    requires rest != []
    ensures Trail([s] + rest) == Trail(rest)
  {
    hide IsDoubleDot, IsSingleDot;
    var all := [s] + rest;
    assert all[|all| - 1] == rest[|rest| - 1];
  }

  lemma RestOf(s: seq<int>, rest: seq<seq<int>>)
    ensures ([s] + rest)[1..] == rest
  {
  }

  lemma OntoUp(path: seq<seq<int>>, s: seq<int>, rest: seq<seq<int>>, floor: nat)
    requires rest != [] && floor <= 1 && IsDoubleDot(s)
    ensures Onto(Shorter(path, 1, floor), rest, floor) == Onto(path, [s] + rest, floor)
  {
    hide IsDoubleDot, IsSingleDot, Shorter, Trail;
    TrailBehind(s, rest);
    RestOf(s, rest);
    ShorterTwice(path, Pending(rest), floor);
  }

  lemma OntoStay(path: seq<seq<int>>, s: seq<int>, rest: seq<seq<int>>, floor: nat)
    requires rest != [] && IsSingleDot(s) && !IsDoubleDot(s)
    ensures Onto(path, rest, floor) == Onto(path, [s] + rest, floor)
  {
    hide IsDoubleDot, IsSingleDot, Shorter, Trail;
    TrailBehind(s, rest);
    RestOf(s, rest);
  }

  lemma OntoPush(path: seq<seq<int>>, s: seq<int>, rest: seq<seq<int>>, floor: nat)
    requires rest != [] && !IsSingleDot(s) && !IsDoubleDot(s) && floor <= 1 && floor <= |path|
    ensures Onto(path + [s], rest, floor) == Onto(path, [s] + rest, floor)
  {
    hide IsDoubleDot, IsSingleDot, Shorter, Trail;
    TrailBehind(s, rest);
    RestOf(s, rest);
    var p := Pending(rest);
    if p > 0 {
      ShorterPushed(path, s, p, floor);
    } else {
      ShorterNothing(path, floor);
      ShorterNothing(path + [s], floor);
      assert path + [s] + Survivors(rest) == path + ([s] + Survivors(rest));
    }
  }

  lemma ResolvedStep(u: Url, v: Url, s: seq<int>, rest: seq<seq<int>>)
    requires rest != [] && Floor(v) == Floor(u)
    requires v == if IsDoubleDot(s) then u.(path := Shorter(u.path, 1, Floor(u))) else if IsSingleDot(s) then u
             else u.(path := u.path + [s])
    ensures Resolved(v, rest) == Resolved(u, [s] + rest)
  {
    hide IsDoubleDot, IsSingleDot, Shorter, Onto, DropEmpty;
    FloorBound(u);
    hide Floor;
    if IsDoubleDot(s) {
      OntoUp(u.path, s, rest, Floor(u));
    } else if IsSingleDot(s) {
      OntoStay(u.path, s, rest, Floor(u));
    } else {
      OntoPush(u.path, s, rest, Floor(u));
    }
  }

  /** What is left over holds no dot segment. */
  lemma {:induction false} SurvivorsPlain(segments: seq<seq<int>>)
    ensures forall s :: s in Survivors(segments) ==> s in segments && !IsSingleDot(s) && !IsDoubleDot(s)
  {
    hide IsDoubleDot, IsSingleDot, Pending;
    if segments != [] { SurvivorsPlain(segments[1..]); }
  }
}
