/**
 What the parser of js/secsdk-lastest.umd.js leaves out of a text before it reads it: C0 controls and spaces at both ends,
 and every tab and newline between them.
 */
module UrlCleaned {
  import opened Wrappers
  import opened UrlRecord
  import opened UrlStates
  import opened UrlParser

  /** The text with `gaps[i]` behind its i-th character, if that is not the last one. */
  function Sprinkled(text: seq<int>, gaps: seq<seq<int>>): seq<int>
    requires |text| <= |gaps| + 1
  {
    if |text| <= 1 then text else [text[0]] + (gaps[0] + Sprinkled(text[1..], gaps[1..]))
  }

  predicate IsTabOrNewline(c: int) { c == '\t' as int || c == '\n' as int || c == '\r' as int }

  predicate AreGaps(gaps: seq<seq<int>>) {
    forall i, j :: 0 <= i < |gaps| && 0 <= j < |gaps[i]| ==> IsTabOrNewline(gaps[i][j])
  }

  predicate IsPadding(s: seq<int>) { forall i :: 0 <= i < |s| ==> 0 <= s[i] <= ' ' as int }

  /** A text that keeps all its characters. */
  predicate IsClean(s: seq<int>) {
    && (forall i :: 0 <= i < |s| ==> !IsTabOrNewline(s[i]))
    && (s != [] ==> !IsPadding([s[0]]) && !IsPadding([s[|s| - 1]]))
  }

  // ---------- The ends ----------

  lemma {:induction false} LeftTrimmed(pad: seq<int>, s: seq<int>)
    requires IsPadding(pad)
    ensures TrimLeft(pad + s) == TrimLeft(s)
  {
    if pad == [] {
      assert pad + s == s;
    } else {
      LeftTrimmed(pad[1..], s);
      assert (pad + s)[1..] == pad[1..] + s;
    }
  }

  lemma {:induction false} RightTrimmed(s: seq<int>, pad: seq<int>)
    requires IsPadding(pad)
    ensures TrimRight(s + pad) == TrimRight(s)
  {
    if pad == [] {
      assert s + pad == s;
    } else {
      RightTrimmed(s, pad[..|pad| - 1]);
      assert (s + pad)[..|s + pad| - 1] == s + pad[..|pad| - 1];
    }
  }

  lemma AllTrimmed(pad: seq<int>)
    requires IsPadding(pad)
    ensures TrimLeft(pad) == []
  {
    LeftTrimmed(pad, []);
    assert pad + [] == pad;
  }

  // ---------- Between them ----------

  lemma {:induction false} GapRemoved(gap: seq<int>, s: seq<int>)
    requires forall i :: 0 <= i < |gap| ==> IsTabOrNewline(gap[i])
    ensures WithoutTabsAndNewlines(gap + s) == WithoutTabsAndNewlines(s)
  {
    if gap == [] {
      assert gap + s == s;
    } else {
      GapRemoved(gap[1..], s);
      assert (gap + s)[1..] == gap[1..] + s;
    }
  }

  lemma OneRemoved(c: int, s: seq<int>)
    requires !IsTabOrNewline(c)
    ensures WithoutTabsAndNewlines([c] + s) == [c] + WithoutTabsAndNewlines(s)
  {
    assert ([c] + s)[1..] == s;
  }

  /** Tabs and newlines come out wherever they stand. */
  lemma {:induction false} GapsRemoved(text: seq<int>, gaps: seq<seq<int>>)
    requires |text| <= |gaps| + 1 && AreGaps(gaps) && forall i :: 0 <= i < |text| ==> !IsTabOrNewline(text[i])
    ensures WithoutTabsAndNewlines(Sprinkled(text, gaps)) == text
  {
    hide WithoutTabsAndNewlines;
    if text == [] {
      NothingLeft();
    } else if |text| == 1 {
      OneRemoved(text[0], []);
      NothingLeft();
      assert [text[0]] + [] == text;
    } else {
      var more := Sprinkled(text[1..], gaps[1..]);
      OneRemoved(text[0], gaps[0] + more);
      GapRemoved(gaps[0], more);
      GapsRemoved(text[1..], gaps[1..]);
      assert [text[0]] + text[1..] == text;
    }
  }

  lemma {:induction false} SprinkledEnds(text: seq<int>, gaps: seq<seq<int>>)
    requires |text| <= |gaps| + 1 && text != []
    ensures var s := Sprinkled(text, gaps); s != [] && s[0] == text[0] && s[|s| - 1] == text[|text| - 1]
  {
    if |text| > 1 { SprinkledEnds(text[1..], gaps[1..]); }
  }

  /** What is left of a text: padding at the ends and tabs and newlines anywhere make no difference. */
  lemma CleanedExactly(front: seq<int>, text: seq<int>, gaps: seq<seq<int>>, back: seq<int>)
    requires IsPadding(front) && IsPadding(back) && IsClean(text)
    requires |text| <= |gaps| + 1 && AreGaps(gaps)
    ensures Cleaned(front + Sprinkled(text, gaps) + back) == text
  {
    hide TrimLeft, TrimRight, WithoutTabsAndNewlines, Sprinkled;
    var s := Sprinkled(text, gaps);
    assert front + s + back == front + (s + back);
    LeftTrimmed(front, s + back);
    if text == [] {
      NothingSprinkled(gaps);
      assert s + back == back;
      AllTrimmed(back);
      NothingLeft();
    } else {
      SprinkledEnds(text, gaps);
      TrimStops(s + back);
      RightTrimmed(s, back);
      TrimStops(s);
      GapsRemoved(text, gaps);
    }
  }

  lemma NothingSprinkled(gaps: seq<seq<int>>)
    ensures Sprinkled([], gaps) == []
  {
  }

  lemma NothingLeft()
    ensures TrimRight([]) == [] && WithoutTabsAndNewlines([]) == []
  {
  }

  lemma TrimStops(s: seq<int>)
    ensures s != [] && !IsPadding([s[0]]) ==> TrimLeft(s) == s
    ensures s != [] && !IsPadding([s[|s| - 1]]) ==> TrimRight(s) == s
  {
  }

  /** So parsing comes to the same on both, with any base. */
  lemma CleanedYields(
    front: seq<int>, text: seq<int>, gaps: seq<seq<int>>, back: seq<int>,
    base: Option<Url>, lower: seq<int> -> seq<int>, outcome: Outcome, url: Url)
    requires IsPadding(front) && IsPadding(back) && IsClean(text)
    requires |text| <= |gaps| + 1 && AreGaps(gaps)
    ensures Yields(front + Sprinkled(text, gaps) + back, base, lower, outcome, url) <==> Yields(text, base, lower, outcome, url)
  {
    hide Cleaned, Sprinkled, IsClean;
    CleanedExactly(front, text, gaps, back);
    StaysClean(text);
  }

  /** A text without padding, tabs and newlines is read as it is. */
  lemma StaysClean(text: seq<int>)
    requires IsClean(text)
    ensures Cleaned(text) == text
  {
    hide Cleaned, Sprinkled;
    var none := seq(|text|, i requires 0 <= i < |text| => []);
    NoGaps(text, none);
    CleanedExactly([], text, none, []);
    assert [] + text + [] == text;
  }

  lemma {:induction false} NoGaps(text: seq<int>, gaps: seq<seq<int>>)
    requires |text| <= |gaps| + 1 && forall i :: 0 <= i < |gaps| ==> gaps[i] == []
    ensures Sprinkled(text, gaps) == text
  {
    if |text| > 1 {
      NoGaps(text[1..], gaps[1..]);
      assert [text[0]] + ([] + text[1..]) == text;
    }
  }
}
