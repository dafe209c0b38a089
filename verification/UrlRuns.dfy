/**
 Following a run of the URL parser of js/secsdk-lastest.umd.js over the text ahead of it: what each part of a
 URL comes to, whatever the text and whatever follows.  Most of the runs are those without a state override.
 */
module UrlRuns {
  import opened Wrappers
  import opened UrlRecord
  import opened UrlHost
  import opened UrlStates
  import Delimited
  import Ip = IpAddress

  // ---------- Runs ----------

  /** Some run from c ends with this outcome in e. */
  ghost predicate Ends(t: Input, c: Config, o: Outcome, e: Config) { exists trace :: IsParse(t, c, trace, o, e) }

  function Fresh(): Config { Config(FRESH, SchemeStart, 0, [], false, false, false) }

  lemma TraceRest(t: Input, trace: seq<Config>, o: Outcome, e: Config)
    requires |trace| > 1 && IsParse(t, trace[0], trace, o, e)
    ensures Turns(t, trace[0], Move(Loop, trace[1])) && trace[0].pointer <= |t.cps|
    ensures IsParse(t, trace[1], trace[1..], o, e)
  {
    hide Turns;
    var rest := trace[1..];
    forall i | 0 <= i < |rest| - 1 ensures rest[i].pointer <= |t.cps| && Turns(t, rest[i], Move(Loop, rest[i + 1])) {
      assert Turns(t, trace[i + 1], Move(Loop, trace[i + 2]));
    }
  }

  /** A run goes on from the configuration after the first turn. */
  lemma Step(t: Input, c: Config, o: Outcome, e: Config)
    requires Ends(t, c, o, e) && c.pointer <= |t.cps| && After(t, c).next.Loop?
    ensures Ends(t, After(t, c).config, o, e)
  {
    hide After;
    var trace: seq<Config> :| IsParse(t, c, trace, o, e);
    if |trace| > 1 { TraceRest(t, trace, o, e); }
  }

  /** A turn that returns is the end of the run. */
  lemma Halted(t: Input, c: Config, o: Outcome, e: Config)
    requires Ends(t, c, o, e) && c.pointer <= |t.cps| && After(t, c).next.Stop?
    ensures Agrees(Move(Stop(o), e), After(t, c))
  {
    hide After;
    var trace: seq<Config> :| IsParse(t, c, trace, o, e);
    if |trace| > 1 { TraceRest(t, trace, o, e); }
  }

  /** Behind the end of the input the run is over. */
  lemma Arrived(t: Input, c: Config, o: Outcome, e: Config)
    requires Ends(t, c, o, e) && c.pointer > |t.cps|
    ensures o == Parsed && e == c
  {
    hide Turns;
    var trace: seq<Config> :| IsParse(t, c, trace, o, e);
    if |trace| > 1 { TraceRest(t, trace, o, e); }
  }

  /** What a parse comes to is fixed by its arguments; after an exception the URL does not matter. */
  lemma {:induction false} Determined(t: Input, c: Config, trace: seq<Config>, o: Outcome, e: Config, p: Outcome, f: Config)
    requires IsParse(t, c, trace, o, e) && Ends(t, c, p, f)
    ensures o == p && (o.Thrown? || e == f)
    decreases |trace|
  {
    hide After, Ends;
    if c.pointer > |t.cps| {
      assert Ends(t, c, o, e) by { EndsBy(t, c, trace, o, e); }
      Arrived(t, c, o, e);
      Arrived(t, c, p, f);
    } else if After(t, c).next.Stop? {
      assert Ends(t, c, o, e) by { EndsBy(t, c, trace, o, e); }
      Halted(t, c, o, e);
      Halted(t, c, p, f);
    } else {
      Step(t, c, p, f);
      if |trace| > 1 {
        TraceRest(t, trace, o, e);
        Determined(t, trace[1], trace[1..], o, e, p, f);
      }
    }
  }

  lemma EndsBy(t: Input, c: Config, trace: seq<Config>, o: Outcome, e: Config)
    requires IsParse(t, c, trace, o, e)
    ensures Ends(t, c, o, e)
  {
  }

  /** There is a run from every configuration the parser can stand in: the loop halts. */
  lemma {:induction false} SomeRun(t: Input, c: Config) returns (trace: seq<Config>, o: Outcome, e: Config)
    requires Ready(t, c)
    ensures IsParse(t, c, trace, o, e)
    decreases Rank(c.stage), |t.cps| - c.pointer
  {
    hide Ready, After, Rank;
    if c.pointer > |t.cps| {
      trace, o, e := [c], Parsed, c;
    } else {
      var m := After(t, c);
      TurnKeeps(t, c, m);
      if m.next.Stop? {
        trace, o, e := [c], m.next.outcome, m.config;
      } else {
        var rest;
        rest, o, e := SomeRun(t, m.config);
        trace := [c] + rest;
        assert trace[|trace| - 1] == rest[|rest| - 1];
        forall i | 0 <= i < |trace| - 1 ensures trace[i].pointer <= |t.cps| && Turns(t, trace[i], Move(Loop, trace[i + 1])) {
          if i > 0 { assert Turns(t, rest[i - 1], Move(Loop, rest[i])); }
        }
      }
    }
  }

  // ---------- The text ahead ----------

  predicate Ahead(t: Input, i: int, s: seq<int>) { 0 <= i <= |t.cps| && t.cps[i..] == s }

  lemma AheadFirst(t: Input, i: int, x: int, s: seq<int>)
    requires Ahead(t, i, [x] + s)
    ensures t.At(i) == Some(x) && Ahead(t, i + 1, s) && i < |t.cps|
  {
    assert t.cps[i] == ([x] + s)[0];
    assert t.cps[i + 1..] == t.cps[i..][1..];
  }

  /** The text ahead is over, or goes on with one of these characters. */
  predicate GoesOn(rest: seq<int>, chars: set<int>) { rest == [] || rest[0] in chars }

  function First(s: seq<int>): Option<int> { if s == [] then None else Some(s[0]) }

  lemma AheadRest(t: Input, i: int, s: seq<int>)
    requires Ahead(t, i, s)
    ensures 0 <= i <= |t.cps| && t.At(i) == First(s)
    ensures s == [] ==> i == |t.cps|
  {
    if s == [] { assert |t.cps[i..]| == |t.cps| - i; } else { assert t.cps[i] == t.cps[i..][0]; }
  }

  lemma AheadSkip(t: Input, i: int, w: seq<int>, rest: seq<int>)
    requires Ahead(t, i, w + rest)
    ensures Ahead(t, i + |w|, rest)
  {
    assert t.cps[i + |w|..] == t.cps[i..][|w|..];
  }

  // ---------- Words that are gathered as they stand ----------

  /** The states that gather a word in the buffer, and the characters that belong to it. */
  predicate Gathers(c: Config, x: int) {
    match c.stage
    case Authority => x != AT && !AtDelimiter(Some(x), c.url)
    case HostName => x !in {OPEN_BRACKET, CLOSE_BRACKET} && (x == COLON ==> c.seenBracket) && !AtDelimiter(Some(x), c.url)
    case Port => Ip.IsDigit(x)
    case FileHost => x !in {SLASH, BACKSLASH, QUESTION, HASH}
    case _ => false
  }

  lemma GatherOne(t: Input, c: Config, x: int)
    requires (t.override.None? || c.stage == Port || c.stage == FileHost) && t.At(c.pointer) == Some(x) && Gathers(c, x)
    ensures After(t, c) == Move(Loop, c.(pointer := c.pointer + 1, buffer := c.buffer + [x]))
  {
    hide IsSpecialScheme, AfterAt, Ip.Value, AfterHostEnd, AfterHostColon, AfterFileHostName;
  }

  lemma {:induction false} Gather(t: Input, c: Config, w: seq<int>, rest: seq<int>, o: Outcome, e: Config)
    requires (t.override.None? || c.stage == Port || c.stage == FileHost) && Ends(t, c, o, e) && Ahead(t, c.pointer, w + rest)
    requires forall i :: 0 <= i < |w| ==> Gathers(c, w[i])
    ensures Ends(t, c.(pointer := c.pointer + |w|, buffer := c.buffer + w), o, e)
    ensures Ahead(t, c.pointer + |w|, rest)
    decreases |w|
  {
    hide Ends, Ahead, After;
    if w == [] {
      assert w + rest == rest && c.buffer + w == c.buffer;
    } else {
      assert w + rest == [w[0]] + (w[1..] + rest);
      AheadFirst(t, c.pointer, w[0], w[1..] + rest);
      GatherOne(t, c, w[0]);
      Step(t, c, o, e);
      var d := c.(pointer := c.pointer + 1, buffer := c.buffer + [w[0]]);
      forall i | 0 <= i < |w[1..]| ensures Gathers(d, w[1..][i]) { GathersSame(c, d, w[i + 1]); }
      Gather(t, d, w[1..], rest, o, e);
      assert c.buffer + [w[0]] + w[1..] == c.buffer + w;
    }
  }

  lemma GathersSame(c: Config, d: Config, x: int)
    requires Gathers(c, x) && d.stage == c.stage && d.url == c.url && d.seenBracket == c.seenBracket
    ensures Gathers(d, x)
  {
  }

  // ---------- The scheme ----------

  /** A scheme as the parser writes it. */
  predicate SchemeText(s: seq<int>) {
    s != [] && IsAlpha(s[0]) && forall i :: 0 <= i < |s| ==> IsSchemeChar(s[i]) && LowerAscii(s[i]) == s[i]
  }

  lemma FileScheme()
    ensures SchemeText(FILE) && IsSpecialScheme(FILE)
  {
  }

  function Unread(): Config { Fresh().(stage := NoScheme) }

  lemma FirstMove(t: Input)
    requires t.override.None?
    ensures var m := After(t, Fresh());
            && m.next == Loop
            && if t.cps != [] && IsAlpha(t.cps[0]) then m.config == Fresh().(stage := Scheme, pointer := 1,
                buffer := [LowerAscii(t.cps[0])])
               else m.config == Unread()
  {
    assert forall x: int :: [] + [x] == [x];
  }

  lemma SchemeMove(t: Input, c: Config)
    requires t.override.None? && c.stage == Scheme && 0 <= c.pointer <= |t.cps|
    requires c == Fresh().(stage := Scheme, pointer := c.pointer, buffer := c.buffer)
    ensures var m := After(t, c);
            if t.At(c.pointer).Some? && IsSchemeChar(t.cps[c.pointer]) then
              m == Move(Loop, c.(pointer := c.pointer + 1, buffer := c.buffer + [LowerAscii(t.cps[c.pointer])]))
            else t.At(c.pointer) != Some(COLON) ==> m == Move(Loop, Unread())
  {
  }

  lemma {:induction false} GatherScheme(t: Input, c: Config, s: seq<int>, rest: seq<int>, o: Outcome, e: Config)
    requires t.override.None? && Ends(t, c, o, e) && Ahead(t, c.pointer, s + rest)
    requires c == Fresh().(stage := Scheme, pointer := c.pointer, buffer := c.buffer)
    requires forall i :: 0 <= i < |s| ==> IsSchemeChar(s[i])
    ensures Ends(t, c.(pointer := c.pointer + |s|, buffer := c.buffer + LowerText(s)), o, e)
    ensures Ahead(t, c.pointer + |s|, rest)
    decreases |s|
  {
    hide Ends, Ahead, After;
    AheadSkip(t, c.pointer, s, rest);
    if s == [] {
      assert c.buffer + LowerText(s) == c.buffer;
    } else {
      assert s + rest == [s[0]] + (s[1..] + rest);
      AheadFirst(t, c.pointer, s[0], s[1..] + rest);
      AheadRest(t, c.pointer + 1, s[1..] + rest);
      SchemeMove(t, c);
      Step(t, c, o, e);
      GatherScheme(t, c.(pointer := c.pointer + 1, buffer := c.buffer + [LowerAscii(s[0])]), s[1..], rest, o, e);
      assert c.buffer + [LowerAscii(s[0])] + LowerText(s[1..]) == c.buffer + LowerText(s);
    }
  }

  lemma Start(t: Input, s: seq<int>)
    requires t.cps == s
    ensures Ahead(t, 0, s)
  {
  }

  /** Where the colon behind a scheme leads. */
  function BehindScheme(t: Input, s: seq<int>, slash: bool): Config {
    var u := FRESH.(scheme := s);
    var to := AfterScheme(u, t.base, slash);
    Config(SchemeUrl(u, to), to, |s| + if to == PathOrAuthority then 2 else 1, [], false, false, false)
  }

  /** A scheme in letters of either case is kept in lower case, and its colon decides how to go on. */
  lemma ReadAnyScheme(t: Input, s: seq<int>, rest: seq<int>, o: Outcome, e: Config)
    requires t.override.None? && t.cps == s + ([COLON] + rest) && Ends(t, Fresh(), o, e)
    requires s != [] && IsAlpha(s[0]) && forall i :: 0 <= i < |s| ==> IsSchemeChar(s[i])
    ensures Ends(t, BehindScheme(t, LowerText(s), First(rest) == Some(SLASH)), o, e) && Ahead(t, |s| + 1, rest)
  {
    hide Ends, After, Ahead, BehindScheme;
    FirstMove(t);
    Step(t, Fresh(), o, e);
    assert s + ([COLON] + rest) == [s[0]] + (s[1..] + ([COLON] + rest));
    Start(t, s + ([COLON] + rest));
    AheadFirst(t, 0, s[0], s[1..] + ([COLON] + rest));
    var d := Fresh().(stage := Scheme, pointer := 1, buffer := [LowerAscii(s[0])]);
    GatherScheme(t, d, s[1..], [COLON] + rest, o, e);
    assert [LowerAscii(s[0])] + LowerText(s[1..]) == LowerText(s);
    FinishAnyScheme(t, LowerText(s), rest, o, e);
  }

  lemma FinishAnyScheme(t: Input, s: seq<int>, rest: seq<int>, o: Outcome, e: Config)
    requires t.override.None? && Ends(t, Fresh().(stage := Scheme, pointer := |s|, buffer := s), o, e)
             && Ahead(t, |s|, [COLON] + rest)
    ensures Ends(t, BehindScheme(t, s, First(rest) == Some(SLASH)), o, e) && Ahead(t, |s| + 1, rest)
  {
    hide Ends, After, Ahead, BehindScheme;
    AheadFirst(t, |s|, COLON, rest);
    AheadRest(t, |s| + 1, rest);
    var c := Config(FRESH, Scheme, |s|, s, false, false, false);
    SchemeDone(t, c, s);
    Step(t, c, o, e);
  }

  lemma ReadScheme(t: Input, s: seq<int>, rest: seq<int>, o: Outcome, e: Config)
    requires t.override.None? && SchemeText(s) && t.cps == s + ([COLON] + rest) && Ends(t, Fresh(), o, e)
    ensures Ends(t, BehindScheme(t, s, First(rest) == Some(SLASH)), o, e) && Ahead(t, |s| + 1, rest)
  {
    hide Ends, Ahead, BehindScheme;
    assert LowerText(s) == s;
    ReadAnyScheme(t, s, rest, o, e);
  }

  lemma SchemeDone(t: Input, c: Config, s: seq<int>)
    requires t.override.None? && c == Config(FRESH, Scheme, |s|, s, false, false, false) && t.At(|s|) == Some(COLON)
    ensures After(t, c) == Move(Loop, BehindScheme(t, s, t.At(|s| + 1) == Some(SLASH)))
  {
    hide AfterScheme, SchemeUrl;
    assert !IsSchemeChar(COLON);
  }

  /** "//" behind the scheme leads to the authority, through whatever slash states; more slashes do not count in a special URL. */
  lemma ReachAuthority(t: Input, s: seq<int>, rest: seq<int>, o: Outcome, e: Config)
    requires t.override.None? && SchemeText(s) && s != FILE && Ends(t, BehindScheme(t, s, true), o, e)
    requires Ahead(t, |s| + 1, [SLASH] + ([SLASH] + rest))
    requires IsSpecialScheme(s) ==> rest != [] && rest[0] !in {SLASH, BACKSLASH}
    ensures Ends(t, Config(FRESH.(scheme := s), Authority, |s| + 3, [], false, false, false), o, e)
    ensures Ahead(t, |s| + 3, rest)
  {
    hide Ends, IsSpecialScheme, Ahead;
    var u := FRESH.(scheme := s);
    AheadFirst(t, |s| + 1, SLASH, [SLASH] + rest);
    AheadFirst(t, |s| + 2, SLASH, rest);
    AheadRest(t, |s| + 3, rest);
    if IsSpecial(u) {
      SpecialToAuthority(t, u, |s| + 1, o, e);
    } else {
      Step(t, BehindScheme(t, s, true), o, e);
    }
  }

  lemma SpecialToAuthority(t: Input, u: Url, i: nat, o: Outcome, e: Config)
    requires t.override.None? && IsSpecial(u) && u.scheme != FILE
    requires Ends(t, Config(u, AfterScheme(u, t.base, true), i, [], false, false, false), o, e)
    requires i + 2 <= |t.cps| && t.At(i) == Some(SLASH) && t.At(i + 1) == Some(SLASH)
    requires t.At(i + 2) != Some(SLASH) && t.At(i + 2) != Some(BACKSLASH)
    ensures Ends(t, Config(u, Authority, i + 2, [], false, false, false), o, e)
  {
    hide Ends, IsSpecialScheme;
    var c := Config(u, AfterScheme(u, t.base, true), i, [], false, false, false);
    Step(t, c, o, e);
    var d := Config(u, SpecialAuthorityIgnoreSlashes, i + 2, [], false, false, false);
    if c.stage == SpecialAuthoritySlashes {
      var c1 := c.(stage := SpecialAuthorityIgnoreSlashes);
      assert After(t, c).config == c1;
      Step(t, c1, o, e);
      Step(t, c1.(pointer := i + 1), o, e);
    }
    Step(t, d, o, e);
  }

  // ---------- The authority ----------

  const DELIMITERS: set<int> := {SLASH, QUESTION, HASH}

  /** The authority is read up to its end and then once more from its start, for the host. */
  lemma RewindToHost(t: Input, c: Config, w: seq<int>, rest: seq<int>, o: Outcome, e: Config)
    requires t.override.None? && Ends(t, c, o, e) && c.stage == Authority && c.buffer == []
    requires Ahead(t, c.pointer, w + rest) && (c.seenAt ==> w != []) && GoesOn(rest, DELIMITERS)
    requires forall i :: 0 <= i < |w| ==> Gathers(c, w[i])
    ensures Ends(t, c.(stage := HostName), o, e)
  {
    hide Ends, Ahead, After, Gathers;
    Gather(t, c, w, rest, o, e);
    assert c.buffer + w == w;
    var d := c.(pointer := c.pointer + |w|, buffer := w);
    AheadRest(t, d.pointer, rest);
    RewindMove(t, c, d, First(rest));
    Step(t, d, o, e);
  }

  lemma RewindMove(t: Input, c: Config, d: Config, chr: Option<int>)
    requires d == c.(pointer := c.pointer + |d.buffer|, buffer := d.buffer) && c.stage == Authority && c.buffer == []
    requires t.At(d.pointer) == chr && (chr.None? || chr.value in DELIMITERS) && (d.seenAt ==> d.buffer != [])
    ensures After(t, d) == Move(Loop, c.(stage := HostName))
  {
    hide AfterAt, IsSpecialScheme;
  }

  /** The text of a host as the scan of its brackets sees it: no colon outside them and no delimiter. */
  predicate HostSpan(special: bool, w: seq<int>, seen: bool) {
    w == [] ||
    (w[0] !in DELIMITERS && !(special && w[0] == BACKSLASH) && !(w[0] == COLON && !seen) &&
     HostSpan(special, w[1..], w[0] == OPEN_BRACKET || (w[0] != CLOSE_BRACKET && seen)))
  }

  /** Whether a bracket is open behind the text. */
  predicate BracketOpen(w: seq<int>, seen: bool) {
    if w == [] then seen else BracketOpen(w[1..], w[0] == OPEN_BRACKET || (w[0] != CLOSE_BRACKET && seen))
  }

  lemma HostMove(t: Input, c: Config, x: int)
    requires (t.override.None? || c.url.scheme != FILE) && (c.stage == HostName || c.stage == HostOnly) && t.At(c.pointer) == Some(x)
    requires x !in DELIMITERS && !(IsSpecial(c.url) && x == BACKSLASH) && !(x == COLON && !c.seenBracket)
    ensures var bracket := x == OPEN_BRACKET || (x != CLOSE_BRACKET && c.seenBracket);
            After(t, c) == Move(Loop, c.(pointer := c.pointer + 1, buffer := c.buffer + [x], seenBracket := bracket))
  {
    hide IsSpecialScheme, AfterHostColon, AfterHostEnd;
  }

  lemma {:induction false} GatherHost(t: Input, c: Config, w: seq<int>, rest: seq<int>, o: Outcome, e: Config)
    requires t.override.None? || c.url.scheme != FILE
    requires Ends(t, c, o, e) && (c.stage == HostName || c.stage == HostOnly) && Ahead(t, c.pointer, w + rest)
    requires HostSpan(IsSpecial(c.url), w, c.seenBracket)
    ensures Ends(t, c.(pointer := c.pointer + |w|, buffer := c.buffer + w, seenBracket := BracketOpen(w, c.seenBracket)), o, e)
    ensures Ahead(t, c.pointer + |w|, rest)
    decreases |w|
  {
    hide Ends, Ahead, After, IsSpecialScheme;
    if w == [] {
      assert w + rest == rest && c.buffer + w == c.buffer;
    } else {
      assert w + rest == [w[0]] + (w[1..] + rest);
      AheadFirst(t, c.pointer, w[0], w[1..] + rest);
      HostMove(t, c, w[0]);
      Step(t, c, o, e);
      var seen := w[0] == OPEN_BRACKET || (w[0] != CLOSE_BRACKET && c.seenBracket);
      GatherHost(t, c.(pointer := c.pointer + 1, buffer := c.buffer + [w[0]], seenBracket := seen), w[1..], rest, o, e);
      assert c.buffer + [w[0]] + w[1..] == c.buffer + w;
    }
  }

  /** Where the configuration stands once the host has been read. */
  function BehindHost(c: Config, host: Host, moved: nat, port: bool): Config {
    c.(stage := if port then Port else PathStart, pointer := c.pointer + moved + (if port then 1 else 0), buffer := [],
       url := c.url.(host := host))
  }

  /** A host is what the host parser reads its text as, or the end of the parse. */
  lemma ReadHost(t: Input, c: Config, w: seq<int>, rest: seq<int>, o: Outcome, e: Config)
    requires t.override.None? && Ends(t, c, o, e) && c.stage == HostName && c.buffer == [] && !c.seenBracket
    requires Ahead(t, c.pointer, w + rest) && HostSpan(IsSpecial(c.url), w, false) && !BracketOpen(w, false)
    requires GoesOn(rest, DELIMITERS + {COLON}) && (w == [] ==> !IsSpecial(c.url) && First(rest) != Some(COLON))
    ensures var r := HostReading(w, IsSpecial(c.url), t.lower);
            if r.Read? then Ends(t, BehindHost(c, r.host, |w|, First(rest) == Some(COLON)), o, e) else o == Refusal(r)
    ensures Ahead(t, c.pointer + |w|, rest)
  {
    hide Ends, Ahead, After, IsSpecialScheme, HostSpan, BracketOpen, HostReading;
    GatherHost(t, c, w, rest, o, e);
    assert c.buffer + w == w;
    var d := c.(pointer := c.pointer + |w|, buffer := w);
    AheadRest(t, d.pointer, rest);
    HostDone(t, d, First(rest));
    if HostReading(w, IsSpecial(c.url), t.lower).Read? { Step(t, d, o, e); } else { Halted(t, d, o, e); }
  }

  lemma HostDone(t: Input, d: Config, chr: Option<int>)
    requires t.override.None? && d.stage == HostName && !d.seenBracket && t.At(d.pointer) == chr
    requires chr.None? || chr.value in DELIMITERS + {COLON}
    requires d.buffer == [] ==> !IsSpecial(d.url) && chr != Some(COLON)
    ensures var r := BufferRead(t, d);
            After(t, d) == if r.Read? then Move(Loop, BehindHost(d, r.host, 0, chr == Some(COLON))) else Halt(d, Refusal(r))
  {
    hide IsSpecialScheme, HostReading;
  }

  /** A port is the number its digits write: kept if it is a 16-bit number and not the default, refused if it is larger. */
  lemma ReadPort(t: Input, c: Config, digits: seq<int>, rest: seq<int>, o: Outcome, e: Config)
    requires t.override.None? && Ends(t, c, o, e) && c.stage == Port && c.buffer == []
    requires (forall i :: 0 <= i < |digits| ==> Ip.IsDigit(digits[i])) && digits != []
    requires Ahead(t, c.pointer, digits + rest) && GoesOn(rest, DELIMITERS)
    ensures var port := Ip.Value(digits, 10);
            if port > 0xFFFF then o == Failed(InvalidPort)
            else Ends(t, c.(stage := PathStart, pointer := c.pointer + |digits|,
              url := c.url.(port := KeptPort(c.url, port))), o, e)
    ensures Ahead(t, c.pointer + |digits|, rest)
  {
    hide Ends, Ahead, Ip.Value, After;
    Gather(t, c, digits, rest, o, e);
    assert c.buffer + digits == digits;
    var d := c.(pointer := c.pointer + |digits|, buffer := digits);
    AheadRest(t, d.pointer, rest);
    PortDone(t, d, First(rest));
    if Ip.Value(digits, 10) > 0xFFFF { Halted(t, d, o, e); } else { Step(t, d, o, e); }
  }

  lemma PortDone(t: Input, d: Config, chr: Option<int>)
    requires t.override.None? && d.stage == Port && t.At(d.pointer) == chr && (chr.None? || chr.value in DELIMITERS)
             && d.buffer != []
    ensures var port := Ip.Value(d.buffer, 10);
            After(t, d) == if port > 0xFFFF then Halt(d, Failed(InvalidPort))
                           else Move(Loop, d.(stage := PathStart, url := d.url.(port := KeptPort(d.url, port)), buffer := []))
  {
    hide DefaultPort, Ip.Value, IsSpecialScheme;
  }

  // ---------- The path ----------

  /** A text between the slashes of a path. */
  predicate SegmentText(special: bool, s: seq<int>) {
    forall i :: 0 <= i < |s| ==> s[i] !in DELIMITERS && !(special && s[i] == BACKSLASH)
  }

  /** So it is under an override, where "?" and "#" end nothing. */
  predicate PieceText(t: Input, special: bool, s: seq<int>) {
    forall i :: 0 <= i < |s| ==>
      s[i] != SLASH && !(special && s[i] == BACKSLASH) && (t.override.None? ==> s[i] !in {QUESTION, HASH})
  }

  lemma SegmentPiece(t: Input, special: bool, s: seq<int>)
    requires SegmentText(special, s)
    ensures PieceText(t, special, s)
  {
  }

  lemma SegmentMove(t: Input, c: Config, x: int)
    requires c.stage == Path && t.At(c.pointer) == Some(x) && (t.override.None? ==> x !in {QUESTION, HASH})
    requires x != SLASH && !(IsSpecial(c.url) && x == BACKSLASH)
    ensures After(t, c) == match PercentEncode(x, PATH_SET)
                           case None => Halt(c, Thrown(LoneSurrogate))
                           case Some(p) => Move(Loop, c.(pointer := c.pointer + 1, buffer := c.buffer + p))
  {
    hide IsSpecialScheme, PercentEncode, AfterSegment;
  }

  lemma {:induction false} EncodesFirst(s: seq<int>, reserved: set<int>)
    requires s != []
    ensures Encodes(s, reserved) ==
            match (PercentEncode(s[0], reserved), Encodes(s[1..], reserved))
            case (Some(a), Some(b)) => Some(a + b)
            case _ => None
  {
    hide PercentEncode;
    if |s| == 1 {
      assert s[..0] == [] && s[1..] == [];
      if PercentEncode(s[0], reserved).Some? { Empties(PercentEncode(s[0], reserved).value); }
    } else {
      var front := s[..|s| - 1];
      EncodesFirst(front, reserved);
      assert front[1..] == s[1..][..|s| - 2] && s[1..][|s| - 2] == s[|s| - 1];
      match (PercentEncode(s[0], reserved), Encodes(front[1..], reserved), PercentEncode(s[|s| - 1], reserved)) {
        case (Some(a), Some(b), Some(d)) => assert a + b + d == a + (b + d);
        case _ =>
      }
    }
  }

  lemma Empties(a: seq<int>)
    ensures [] + a == a == a + []
  {
  }

  /** A segment is gathered percent-encoded. */
  lemma {:induction false} GatherSegment(t: Input, c: Config, s: seq<int>, rest: seq<int>, o: Outcome, e: Config)
    requires Ends(t, c, o, e) && c.stage == Path && Ahead(t, c.pointer, s + rest) && PieceText(t, IsSpecial(c.url), s)
    ensures match Encodes(s, PATH_SET)
            case None => o == Thrown(LoneSurrogate)
            case Some(p) => Ends(t, c.(pointer := c.pointer + |s|, buffer := c.buffer + p), o, e)
    ensures Ahead(t, c.pointer + |s|, rest)
    decreases |s|
  {
    hide Ends, Ahead, After, IsSpecialScheme, Encodes, PercentEncode;
    AheadSkip(t, c.pointer, s, rest);
    if s == [] {
      NothingEncodes(PATH_SET);
      Empties(c.buffer);
    } else {
      assert s + rest == [s[0]] + (s[1..] + rest);
      AheadFirst(t, c.pointer, s[0], s[1..] + rest);
      SegmentMove(t, c, s[0]);
      EncodesFirst(s, PATH_SET);
      match PercentEncode(s[0], PATH_SET) {
        case None => Halted(t, c, o, e);
        case Some(p) =>
          Step(t, c, o, e);
          GatherSegment(t, c.(pointer := c.pointer + 1, buffer := c.buffer + p), s[1..], rest, o, e);
          if Encodes(s[1..], PATH_SET).Some? { assert c.buffer + p + Encodes(s[1..],
              PATH_SET).value == c.buffer + (p + Encodes(s[1..], PATH_SET).value); }
      }
    }
  }

  /** The path behind a list of segments, the last of which ends it. */
  function Walked(u: Url, segments: seq<seq<int>>): Url
    requires segments != []
    decreases |segments|
  {
    if |segments| == 1 then PathEnded(u, segments[0], false, true) else Walked(WithSegment(u, segments[0], true), segments[1..])
  }

  lemma {:induction false} WalkedKeeps(u: Url, segments: seq<seq<int>>)
    requires segments != []
    ensures var v := Walked(u, segments); v == u.(path := v.path, host := v.host)
    decreases |segments|
  {
    hide WithSegment, PathEnded;
    if |segments| == 1 {
      PathEndedKeeps(u, segments[0], false, true);
    } else {
      WithSegmentKeeps(u, segments[0], true);
      WalkedKeeps(WithSegment(u, segments[0], true), segments[1..]);
    }
  }

  function EncodedSegments(segments: seq<seq<int>>): (r: Option<seq<seq<int>>>)
    ensures r.Some? ==> |r.value| == |segments|
  {
    if segments == [] then Some([])
    else
      match (Encodes(segments[0], PATH_SET), EncodedSegments(segments[1..]))
      case (Some(a), Some(b)) => Some([a] + b)
      case _ => None
  }

  /** Where the text behind a path, or behind the authority if there is none, leads. */
  function AfterTail(c: Config, rest: seq<int>): Config {
    if rest == [] then c.(pointer := c.pointer + 1, buffer := [])
    else if rest[0] == QUESTION then c.(stage := Query, pointer := c.pointer + 1, buffer := [], url := c.url.(query := Some([])))
    else c.(stage := Fragment, pointer := c.pointer + 1, buffer := [], url := c.url.(fragment := Some([])))
  }

  lemma LastSegment(t: Input, c: Config, rest: seq<int>)
    requires t.override.None? && c.stage == Path && t.At(c.pointer) == First(rest) && GoesOn(rest, {QUESTION, HASH})
    ensures After(t, c) == Move(Loop, AfterTail(c.(url := PathEnded(c.url, c.buffer, false, true)), rest))
  {
    hide PathEnded, IsSpecialScheme;
  }

  lemma NextSegment(t: Input, c: Config)
    requires c.stage == Path && IsSlash(t.At(c.pointer), c.url)
    ensures After(t, c) == Move(Loop, c.(pointer := c.pointer + 1, buffer := [], url := WithSegment(c.url, c.buffer, true)))
  {
    hide WithSegment, IsSpecialScheme;
  }

  lemma SlashAhead(t: Input, c: Config)
    requires t.At(c.pointer) == Some(SLASH)
    ensures IsSlash(t.At(c.pointer), c.url)
  {
    hide IsSpecialScheme;
  }

  lemma WithSegmentScheme(u: Url, s: seq<int>)
    ensures WithSegment(u, s, true) == u.(path := WithSegment(u, s, true).path, host := WithSegment(u, s, true).host)
  {
    WithSegmentKeeps(u, s, true);
  }

  lemma SegmentsFirst(segments: seq<seq<int>>)
    requires segments != []
    ensures Encodes(segments[0], PATH_SET).None? ==> EncodedSegments(segments) == None
    ensures Encodes(segments[0], PATH_SET).Some? && |segments| == 1 ==>
            EncodedSegments(segments) == Some([Encodes(segments[0], PATH_SET).value])
    ensures Encodes(segments[0], PATH_SET).Some? && EncodedSegments(segments[1..]).None? ==> EncodedSegments(segments) == None
    ensures Encodes(segments[0], PATH_SET).Some? && EncodedSegments(segments[1..]).Some? ==>
      EncodedSegments(segments) == Some([Encodes(segments[0], PATH_SET).value] + EncodedSegments(segments[1..]).value)
  {
    hide Encodes;
    var more := segments[1..];
    if |segments| == 1 && Encodes(segments[0], PATH_SET).Some? {
      var p := Encodes(segments[0], PATH_SET).value;
      assert more == [] && EncodedSegments(more) == Some([]) && [p] + [] == [p];
    }
  }

  lemma WalkedFirst(u: Url, s: seq<int>, more: seq<seq<int>>)
    ensures Walked(u, [s] + more) == if more == [] then PathEnded(u, s, false, true) else Walked(WithSegment(u, s, true), more)
  {
    hide WithSegment, PathEnded;
    assert ([s] + more)[1..] == more;
  }

  /** A path is walked segment by segment, whatever its segments hold; a lone surrogate in it throws. */
  lemma {:induction false} ReadPath(t: Input, c: Config, segments: seq<seq<int>>, rest: seq<int>, o: Outcome, e: Config)
    requires t.override.None? && Ends(t, c, o, e) && c.stage == Path && c.buffer == []
    requires segments != [] && forall i :: 0 <= i < |segments| ==> SegmentText(IsSpecial(c.url), segments[i])
    requires Ahead(t, c.pointer, Delimited.Join(segments, SLASH) + rest) && GoesOn(rest, {QUESTION, HASH})
    ensures match EncodedSegments(segments)
            case None => o == Thrown(LoneSurrogate)
            case Some(path) =>
              Ends(t, AfterTail(c.(pointer := c.pointer + |Delimited.Join(segments, SLASH)|,
                url := Walked(c.url, path)), rest), o, e)
    ensures Ahead(t, c.pointer + |Delimited.Join(segments, SLASH)|, rest)
    decreases |segments|
  {
    hide Ends, Ahead, After, SegmentText, IsSpecialScheme, Encodes, PathEnded, WithSegment, AfterTail,
      EncodedSegments, Walked, GoesOn;
    var s, more := segments[0], segments[1..];
    AheadSkip(t, c.pointer, Delimited.Join(segments, SLASH), rest);
    SegmentsFirst(segments);
    if |segments| == 1 {
      ReadLast(t, c, s, rest, o, e);
    } else {
      var text := Delimited.Join(more, SLASH);
      assert Delimited.Join(segments, SLASH) + rest == s + ([SLASH] + (text + rest));
      ReadNext(t, c, s, text + rest, o, e);
      if Encodes(s, PATH_SET).Some? {
        var p := Encodes(s, PATH_SET).value;
        WithSegmentScheme(c.url, p);
        ReadPath(t, c.(pointer := c.pointer + |s| + 1, url := WithSegment(c.url, p, true)), more, rest, o, e);
        if EncodedSegments(more).Some? { WalkedFirst(c.url, p, EncodedSegments(more).value); }
      }
    }
  }

  lemma ReadNext(t: Input, c: Config, s: seq<int>, rest: seq<int>, o: Outcome, e: Config)
    requires t.override.None? && Ends(t, c, o, e) && c.stage == Path && c.buffer == [] && SegmentText(IsSpecial(c.url), s)
    requires Ahead(t, c.pointer, s + ([SLASH] + rest))
    ensures match Encodes(s, PATH_SET)
            case None => o == Thrown(LoneSurrogate)
            case Some(p) => Ends(t, c.(pointer := c.pointer + |s| + 1, url := WithSegment(c.url, p, true)), o, e)
    ensures Ahead(t, c.pointer + |s| + 1, rest)
  {
    hide Ends, Ahead, After, SegmentText, PieceText, IsSpecialScheme, Encodes, WithSegment, IsSlash;
    SegmentPiece(t, IsSpecial(c.url), s);
    GatherSegment(t, c, s, [SLASH] + rest, o, e);
    AheadFirst(t, c.pointer + |s|, SLASH, rest);
    if Encodes(s, PATH_SET).Some? {
      var p := Encodes(s, PATH_SET).value;
      Empties(p);
      var d := c.(pointer := c.pointer + |s|, buffer := p);
      SlashAhead(t, d);
      NextSegment(t, d);
      Step(t, d, o, e);
    }
  }

  lemma ReadLast(t: Input, c: Config, s: seq<int>, rest: seq<int>, o: Outcome, e: Config)
    requires t.override.None? && Ends(t, c, o, e) && c.stage == Path && c.buffer == [] && SegmentText(IsSpecial(c.url), s)
    requires Ahead(t, c.pointer, s + rest) && GoesOn(rest, {QUESTION, HASH})
    ensures match Encodes(s, PATH_SET)
            case None => o == Thrown(LoneSurrogate)
            case Some(p) => Ends(t, AfterTail(c.(pointer := c.pointer + |s|, url := Walked(c.url, [p])), rest), o, e)
  {
    hide Ends, Ahead, After, SegmentText, PieceText, IsSpecialScheme, Encodes, PathEnded, AfterTail, GoesOn;
    SegmentPiece(t, IsSpecial(c.url), s);
    GatherSegment(t, c, s, rest, o, e);
    AheadRest(t, c.pointer + |s|, rest);
    if Encodes(s, PATH_SET).Some? {
      var p := Encodes(s, PATH_SET).value;
      Empties(p);
      var d := c.(pointer := c.pointer + |s|, buffer := p);
      LastSegment(t, d, rest);
      Step(t, d, o, e);
      TailForgets(c, d, PathEnded(c.url, p, false, true), rest);
    }
  }

  lemma TailForgets(c: Config, d: Config, u: Url, rest: seq<int>)
    requires d == c.(pointer := d.pointer, buffer := d.buffer)
    ensures AfterTail(d.(url := u), rest) == AfterTail(c.(pointer := d.pointer, url := u), rest)
  {
  }

  lemma PathBegins(t: Input, c: Config)
    requires t.override.None? && c.stage == PathStart && t.At(c.pointer) == Some(SLASH)
    ensures After(t, c) == Move(Loop, c.(stage := Path, pointer := c.pointer + 1))
  {
    hide IsSpecialScheme;
  }

  lemma NoPathBegins(t: Input, c: Config, rest: seq<int>)
    requires t.override.None? && c.stage == PathStart && !IsSpecial(c.url) && c.buffer == []
    requires t.At(c.pointer) == First(rest) && GoesOn(rest, {QUESTION, HASH})
    ensures After(t, c) == Move(Loop, AfterTail(c, rest))
  {
    hide IsSpecialScheme;
  }

  // ---------- Opaque path, query and fragment ----------

  lemma OpaqueMove(t: Input, c: Config, x: int)
    requires c.stage == CannotBeABase && t.At(c.pointer) == Some(x) && x !in {QUESTION, HASH} && |c.url.path| == 1
    ensures After(t, c) == match PercentEncode(x, C0_SET)
                           case None => Halt(c, Thrown(LoneSurrogate))
                           case Some(p) => Move(Loop, c.(pointer := c.pointer + 1, url := c.url.(path := [c.url.path[0] + p])))
  {
    hide PercentEncode;
    if PercentEncode(x, C0_SET).Some? {
      assert c.url.path[0 := c.url.path[0] + PercentEncode(x, C0_SET).value] == [c.url.path[0] + PercentEncode(x, C0_SET).value];
    }
  }

  predicate OpaqueText(s: seq<int>) { forall i :: 0 <= i < |s| ==> s[i] !in {QUESTION, HASH} }

  lemma OpaqueEnds(t: Input, c: Config, rest: seq<int>)
    requires c.stage == CannotBeABase && t.At(c.pointer) == First(rest) && GoesOn(rest, {QUESTION, HASH}) && c.buffer == []
    ensures After(t, c) == Move(Loop, AfterTail(c, rest))
  {
  }

  lemma Grouped(a: seq<int>, b: seq<int>, c: seq<int>)
    ensures a + b + c == a + (b + c)
  {
  }

  /** Where an opaque path stands that has grown to this text. */
  function OpaqueAt(c: Config, moved: nat, w: seq<int>): Config { c.(pointer := c.pointer + moved, url := c.url.(path := [w])) }

  lemma OpaqueDone(t: Input, c: Config, rest: seq<int>, o: Outcome, e: Config)
    requires t.override.None? && Ends(t, c, o, e) && c.stage == CannotBeABase && |c.url.path| == 1 && c.buffer == []
    requires Ahead(t, c.pointer, rest) && GoesOn(rest, {QUESTION, HASH})
    ensures Ends(t, AfterTail(OpaqueAt(c, 0, c.url.path[0]), rest), o, e)
  {
    hide Ends, Ahead, After, AfterTail, GoesOn;
    assert c.url.path == [c.url.path[0]];
    AheadRest(t, c.pointer, rest);
    OpaqueEnds(t, c, rest);
    Step(t, c, o, e);
  }

  /** An opaque path is one text, percent-encoded. */
  lemma {:induction false} ReadOpaque(t: Input, c: Config, s: seq<int>, rest: seq<int>, o: Outcome, e: Config)
    requires t.override.None? && Ends(t, c, o, e) && c.stage == CannotBeABase && |c.url.path| == 1 && c.buffer == []
    requires OpaqueText(s) && Ahead(t, c.pointer, s + rest) && GoesOn(rest, {QUESTION, HASH})
    ensures match Encodes(s, C0_SET)
            case None => o == Thrown(LoneSurrogate)
            case Some(p) => Ends(t, AfterTail(OpaqueAt(c, |s|, c.url.path[0] + p), rest), o, e)
    ensures Ahead(t, c.pointer + |s|, rest)
    decreases |s|
  {
    hide Ends, Ahead, After, Encodes, PercentEncode, AfterTail, GoesOn;
    AheadSkip(t, c.pointer, s, rest);
    var w := c.url.path[0];
    if s == [] {
      NothingEncodes(C0_SET);
      Empties(w);
      Empties(rest);
      OpaqueDone(t, c, rest, o, e);
    } else {
      Grouped([s[0]], s[1..], rest);
      assert s == [s[0]] + s[1..];
      AheadFirst(t, c.pointer, s[0], s[1..] + rest);
      OpaqueMove(t, c, s[0]);
      EncodesFirst(s, C0_SET);
      if PercentEncode(s[0], C0_SET).None? {
        Halted(t, c, o, e);
      } else {
        var p := PercentEncode(s[0], C0_SET).value;
        Step(t, c, o, e);
        ReadOpaque(t, OpaqueAt(c, 1, w + p), s[1..], rest, o, e);
        if Encodes(s[1..], C0_SET).Some? { Grouped(w, p, Encodes(s[1..], C0_SET).value); }
      }
    }
  }

  /** A query is encoded character by character. */
  function QueryEncodes(s: seq<int>, special: bool): Option<seq<int>> {
    if s == [] then Some([])
    else
      match (QueryEncode(s[0], special), QueryEncodes(s[1..], special))
      case (Some(a), Some(b)) => Some(a + b)
      case _ => None
  }

  lemma QueryMove(t: Input, c: Config, x: int)
    requires c.stage == Query && c.url.query.Some? && t.At(c.pointer) == Some(x) && (t.override.None? ==> x != HASH)
    ensures After(t, c) == match QueryEncode(x, IsSpecial(c.url))
                           case None => Halt(c, Thrown(LoneSurrogate))
                           case Some(p) => Move(Loop, c.(pointer := c.pointer + 1,
                               url := c.url.(query := Some(c.url.query.value + p))))
  {
    hide QueryEncode, IsSpecialScheme;
  }

  /** Where the text behind a query leads. */
  function AfterQueryText(c: Config, rest: seq<int>): Config {
    if rest == [] then c.(pointer := c.pointer + 1)
    else c.(stage := Fragment, pointer := c.pointer + 1, url := c.url.(fragment := Some([])))
  }

  lemma QueryEnds(t: Input, c: Config, rest: seq<int>)
    requires t.override.None? && c.stage == Query && t.At(c.pointer) == First(rest) && GoesOn(rest, {HASH})
    ensures After(t, c) == Move(Loop, AfterQueryText(c, rest))
  {
    hide QueryEncode, IsSpecialScheme;
  }

  /** Where a query stands that has grown to this text. */
  function QueryAt(c: Config, moved: nat, q: seq<int>): Config { c.(pointer := c.pointer + moved, url := c.url.(query := Some(q))) }

  lemma QueryDone(t: Input, c: Config, rest: seq<int>, o: Outcome, e: Config)
    requires t.override.None? && Ends(t, c, o, e) && c.stage == Query && Ahead(t, c.pointer, rest) && GoesOn(rest, {HASH})
    ensures Ends(t, AfterQueryText(c, rest), o, e)
  {
    hide Ends, Ahead, After, AfterQueryText, GoesOn;
    AheadRest(t, c.pointer, rest);
    QueryEnds(t, c, rest);
    Step(t, c, o, e);
  }

  lemma {:induction false} ReadQuery(t: Input, c: Config, q: seq<int>, rest: seq<int>, o: Outcome, e: Config)
    requires t.override.None? && Ends(t, c, o, e) && c.stage == Query && c.url.query.Some?
    requires HASH !in q && Ahead(t, c.pointer, q + rest) && GoesOn(rest, {HASH})
    ensures match QueryEncodes(q, IsSpecial(c.url))
            case None => o == Thrown(LoneSurrogate)
            case Some(p) => Ends(t, AfterQueryText(QueryAt(c, |q|, c.url.query.value + p), rest), o, e)
    ensures Ahead(t, c.pointer + |q|, rest)
    decreases |q|
  {
    hide Ends, Ahead, After, IsSpecialScheme, QueryEncode, AfterQueryText, GoesOn;
    AheadSkip(t, c.pointer, q, rest);
    var w := c.url.query.value;
    if q == [] {
      Empties(w);
      Empties(rest);
      QueryDone(t, c, rest, o, e);
    } else {
      Grouped([q[0]], q[1..], rest);
      assert q == [q[0]] + q[1..];
      AheadFirst(t, c.pointer, q[0], q[1..] + rest);
      assert q[0] in q && forall x :: x in q[1..] ==> x in q;
      QueryMove(t, c, q[0]);
      if QueryEncode(q[0], IsSpecial(c.url)).None? {
        Halted(t, c, o, e);
      } else {
        var p := QueryEncode(q[0], IsSpecial(c.url)).value;
        Step(t, c, o, e);
        ReadQuery(t, QueryAt(c, 1, w + p), q[1..], rest, o, e);
        if QueryEncodes(q[1..], IsSpecial(c.url)).Some? { Grouped(w, p, QueryEncodes(q[1..], IsSpecial(c.url)).value); }
      }
    }
  }

  lemma FragmentMove(t: Input, c: Config)
    requires c.stage == Fragment && c.url.fragment.Some?
    ensures var f := c.url.fragment.value;
            After(t, c) ==
            match t.At(c.pointer)
            case None => Move(Loop, c.(pointer := c.pointer + 1))
            case Some(x) =>
              match PercentEncode(x, FRAGMENT_SET)
              case None => Halt(c, Thrown(LoneSurrogate))
              case Some(p) => Move(Loop, c.(pointer := c.pointer + 1, url := c.url.(fragment := Some(f + p))))
  {
    hide PercentEncode;
  }

  /** Where a fragment stands that has grown to this text. */
  function FragmentAt(c: Config, moved: nat, f: seq<int>): Config { c.(pointer := c.pointer + moved,
      url := c.url.(fragment := Some(f))) }

  /** A fragment is all that is left, percent-encoded. */
  lemma {:induction false} ReadFragment(t: Input, c: Config, f: seq<int>, o: Outcome, e: Config)
    requires Ends(t, c, o, e) && c.stage == Fragment && c.url.fragment.Some? && Ahead(t, c.pointer, f)
    ensures match Encodes(f, FRAGMENT_SET)
            case None => o == Thrown(LoneSurrogate)
            case Some(p) => o == Parsed && e.url == c.url.(fragment := Some(c.url.fragment.value + p))
    decreases |f|
  {
    hide Ends, Ahead, After, Encodes, PercentEncode;
    var w := c.url.fragment.value;
    FragmentMove(t, c);
    AheadRest(t, c.pointer, f);
    if f == [] {
      NothingEncodes(FRAGMENT_SET);
      Empties(w);
      Step(t, c, o, e);
      Arrived(t, c.(pointer := c.pointer + 1), o, e);
    } else {
      assert f == [f[0]] + f[1..];
      AheadFirst(t, c.pointer, f[0], f[1..]);
      EncodesFirst(f, FRAGMENT_SET);
      if PercentEncode(f[0], FRAGMENT_SET).None? {
        Halted(t, c, o, e);
      } else {
        var p := PercentEncode(f[0], FRAGMENT_SET).value;
        Step(t, c, o, e);
        ReadFragment(t, FragmentAt(c, 1, w + p), f[1..], o, e);
        if Encodes(f[1..], FRAGMENT_SET).Some? { Grouped(w, p, Encodes(f[1..], FRAGMENT_SET).value); }
      }
    }
  }
}
