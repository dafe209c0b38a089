/**
 The characters that count in js/secsdk-lastest.umd.js's URL parser, spelled out: which ones each part keeps and how the
 others are written, what is a scheme, a dot segment or a drive letter, and what no host may hold.
 */
module UrlSpelling {
  import opened Wrappers
  import opened UrlRecord
  import opened UrlHost
  import opened UrlRuns
  import opened UrlPorts
  import Uri
  import Delimited
  import Puny = Punycode
  import Ip = IpAddress

  // ---------- Percent-encoding ----------

  /** "%" and two digits for each octet. */
  function Escapes(os: seq<int>): seq<int>
    requires forall i :: 0 <= i < |os| ==> 0 <= os[i] < 0x100
  {
    if os == [] then []
    else ['%' as int, "0123456789ABCDEF"[os[0] / 16] as int, "0123456789ABCDEF"[os[0] % 16] as int] + Escapes(os[1..])
  }

  /** A printable character is kept unless it is one of `taken`; anything else is written by its octets in UTF-8. */
  function SpelledAs(c: int, taken: set<char>): Option<seq<int>> {
    if 0x20 < c < 0x7F && c as char !in taken then Some([c])
    else if Uri.IsScalar(c) then Some(Escapes(Uri.Octets(c)))
    else None
  }

  function Spelled(s: seq<int>, taken: set<char>): Option<seq<int>> {
    if s == [] then Some([])
    else
      match (SpelledAs(s[0], taken), Spelled(s[1..], taken))
      case (Some(a), Some(b)) => Some(a + b)
      case _ => None
  }

  const IN_FRAGMENT: set<char> := {'"', '<', '>', '`'}
  const IN_PATH: set<char> := {'"', '<', '>', '`', '#', '?', '{', '}'}
  const IN_USERINFO: set<char> :=
    {'"', '<', '>', '`', '#', '?', '{', '}', '/', ':', ';', '=', '@', '[', '\\', ']', '^', '|'}

  lemma HexDigits(d: int)
    requires 0 <= d < 16
    ensures Uri.HexUpper(d) == "0123456789ABCDEF"[d] as int
  {
  }

  lemma {:induction false} EscapesSame(os: seq<int>)
    requires forall i :: 0 <= i < |os| ==> 0 <= os[i] < 0x100
    ensures Uri.EscapeAll(os) == Escapes(os)
  {
    hide Uri.HexUpper;
    if os != [] {
      HexDigits(os[0] / 16);
      HexDigits(os[0] % 16);
      EscapesSame(os[1..]);
    }
  }

  /** The printable characters of the set are these, and encodeURIComponent leaves none of them. */
  predicate Sets(taken: set<char>, reserved: set<int>) {
    forall c :: 0x20 < c < 0x7F ==> (c in reserved <==> c as char in taken) && (c in reserved ==> !Uri.Unescaped(c))
  }

  lemma CommonSets()
    ensures Sets({}, C0_SET) && Sets(IN_FRAGMENT, FRAGMENT_SET) && Sets(IN_PATH, PATH_SET)
  {
  }

  lemma UserinfoSet()
    ensures Sets(IN_USERINFO, USERINFO_SET)
  {
  }

  lemma CharacterExactly(c: int, taken: set<char>, reserved: set<int>)
    requires Sets(taken, reserved)
    ensures PercentEncode(c, reserved) == SpelledAs(c, taken)
  {
    hide Uri.EscapeAll, Uri.Octets, Escapes;
    if Uri.IsScalar(c) { EscapesSame(Uri.Octets(c)); }
  }

  /** A text is encoded character by character, and not at all if it holds a lone surrogate. */
  lemma {:induction false} EncodesExactly(s: seq<int>, taken: set<char>, reserved: set<int>)
    requires Sets(taken, reserved)
    ensures Encodes(s, reserved) == Spelled(s, taken)
  {
    hide PercentEncode, SpelledAs, Encodes, Sets;
    if s == [] {
      NothingEncodes(reserved);
    } else {
      EncodesFirst(s, reserved);
      CharacterExactly(s[0], taken, reserved);
      EncodesExactly(s[1..], taken, reserved);
    }
  }

  /** Userinfo, paths, fragments and opaque texts each keep all printable characters but these. */
  lemma PartsEncoded(s: seq<int>)
    ensures Encodes(s, FRAGMENT_SET) == Spelled(s, {'"', '<', '>', '`'})
    ensures Encodes(s, PATH_SET) == Spelled(s, {'"', '<', '>', '`', '#', '?', '{', '}'})
    ensures Encodes(s, USERINFO_SET) ==
            Spelled(s, {'"', '<', '>', '`', '#', '?', '{', '}', '/', ':', ';', '=', '@', '[', '\\', ']', '^', '|'})
    ensures Encodes(s, C0_SET) == Spelled(s, {})
  {
    hide Encodes, Spelled, Sets;
    CommonSets();
    UserinfoSet();
    EncodesExactly(s, IN_USERINFO, USERINFO_SET);
    EncodesExactly(s, IN_PATH, PATH_SET);
    EncodesExactly(s, IN_FRAGMENT, FRAGMENT_SET);
    EncodesExactly(s, {}, C0_SET);
  }

  function InQuery(special: bool): set<char> { if special then {'#', '\''} else {'#'} }

  lemma QueryCharacter(c: int, special: bool)
    ensures QueryEncode(c, special) == SpelledAs(c, InQuery(special))
  {
    CommonSets();
    CharacterExactly(c, {}, C0_SET);
    OneOctet();
    hide PercentEncode, Sets, Escapes, Uri.Octets;
    assert Uri.IsScalar(0x23) && Uri.IsScalar(0x27);
  }

  lemma OneOctet()
    ensures Escapes(Uri.Octets(0x23)) == [0x25, 0x32, 0x33] && Escapes(Uri.Octets(0x27)) == [0x25, 0x32, 0x37]
  {
    assert Uri.Octets(0x23) == [0x23] && [0x23][1..] == [] && Escapes([]) == [];
    assert Uri.Octets(0x27) == [0x27] && [0x27][1..] == [];
  }

  /** A query keeps all printable characters but "#" and, in a special URL, the apostrophe. */
  lemma {:induction false} QueryEncoded(s: seq<int>, special: bool)
    ensures QueryEncodes(s, special) == Spelled(s, if special then {'#', '\''} else {'#'})
  {
    hide QueryEncode, SpelledAs;
    if s != [] {
      QueryCharacter(s[0], special);
      QueryEncoded(s[1..], special);
    }
  }

  /** The octets of a code point: as few as hold it, the first one saying how many, six bits in each of the others. */
  lemma OctetsWritten(c: int)
    requires Uri.IsScalar(c)
    ensures var os := Uri.Octets(c);
      && (forall i :: 1 <= i < |os| ==> 0x80 <= os[i] < 0xC0)
      && if c < 0x80 then os == [c]
         else if c < 0x800 then |os| == 2 && 0xC0 <= os[0] < 0xE0 && c == (os[0] - 0xC0) * 0x40 + (os[1] - 0x80)
         else if c < 0x1_0000 then
           |os| == 3 && 0xE0 <= os[0] < 0xF0 && c == (os[0] - 0xE0) * 0x1000 + (os[1] - 0x80) * 0x40 + (os[2] - 0x80)
         else
           && |os| == 4 && 0xF0 <= os[0] < 0xF8
           && c == (os[0] - 0xF0) * 0x4_0000 + (os[1] - 0x80) * 0x1000 + (os[2] - 0x80) * 0x40 + (os[3] - 0x80)
  {
    Uri.BitsOctets(c);
    Uri.OctetsForm(c);
  }

  // ---------- Schemes ----------

  /** A scheme starts with a letter and goes on with letters, digits, "+", "-", "." and ","; capitals become small. */
  lemma SchemeCharacters(c: int)
    ensures IsAlpha(c) <==> 'A' as int <= c <= 'Z' as int || 'a' as int <= c <= 'z' as int
    ensures IsSchemeChar(c) <==> IsAlpha(c) || '0' as int <= c <= '9' as int || c in {'+' as int, '-' as int, '.' as int, ',' as int}
    ensures LowerAscii(c) == if 'A' as int <= c <= 'Z' as int then c - 'A' as int + 'a' as int else c
  {
  }

  lemma SpecialSchemes(s: seq<int>)
    ensures IsSpecialScheme(s) <==>
            s in {Chars("ftp"), Chars("file"), Chars("http"), Chars("https"), Chars("ws"), Chars("wss")}
  {
    assert Chars("ftp") == FTP && Chars("http") == HTTP && Chars("ws") == WS && Chars("https") == HTTPS && Chars("wss") == WSS;
    assert Chars("file") == FILE;
  }

  // ---------- Segments ----------

  lemma OneDot(s: seq<int>)
    ensures IsSingleDot(s) <==> s in {Chars("."), Chars("%2e"), Chars("%2E")}
  {
    assert Chars(".") == [0x2E] && Chars("%2e") == [0x25, 0x32, 0x65] && Chars("%2E") == [0x25, 0x32, 0x45];
    if LowerText(s) == ENCODED_DOT {
      assert |s| == 3;
      assert LowerText(s)[0] == LowerAscii(s[0]) && LowerText(s)[1] == LowerAscii(s[1]) && LowerText(s)[2] == LowerAscii(s[2]);
      assert s == [s[0], s[1], s[2]];
    }
    assert LowerText([0x25, 0x32, 0x65]) == ENCODED_DOT && LowerText([0x25, 0x32, 0x45]) == ENCODED_DOT;
  }

  predicate DotText(s: seq<int>) { s in {Chars("."), Chars("%2e"), Chars("%2E")} }

  lemma LowerDots(s: seq<int>)
    ensures LowerText(s) == [DOT] <==> s == Chars(".")
    ensures LowerText(s) == ENCODED_DOT <==> s == Chars("%2e") || s == Chars("%2E")
  {
    assert Chars(".") == [0x2E] && Chars("%2e") == [0x25, 0x32, 0x65] && Chars("%2E") == [0x25, 0x32, 0x45];
    if LowerText(s) == [DOT] {
      assert |s| == 1 && LowerText(s)[0] == LowerAscii(s[0]);
      assert s == [s[0]];
    }
    assert LowerText([0x2E]) == [DOT];
    OneDot(s);
  }

  lemma LowerSplits(s: seq<int>, a: seq<int>, b: seq<int>)
    ensures LowerText(s) == a + b <==> |s| == |a| + |b| && LowerText(s[..|a|]) == a && LowerText(s[|a|..]) == b
  {
    if LowerText(s) == a + b {
      assert |s| == |a| + |b|;
      assert LowerText(s[..|a|]) == LowerText(s)[..|a|] == a;
      assert LowerText(s[|a|..]) == LowerText(s)[|a|..] == b;
    }
    if |s| == |a| + |b| && LowerText(s[..|a|]) == a && LowerText(s[|a|..]) == b {
      assert LowerText(s) == LowerText(s[..|a|]) + LowerText(s[|a|..]);
    }
  }

  /** ".." is two dots, each of them plain or encoded, in letters of either case. */
  lemma TwoDots(s: seq<int>)
    ensures IsDoubleDot(s) <==> exists k :: 0 <= k <= |s| && DotText(s[..k]) && DotText(s[k..])
  {
    hide LowerText;
    LowerSplits(s, [DOT], [DOT]);
    LowerSplits(s, ENCODED_DOT, [DOT]);
    LowerSplits(s, [DOT], ENCODED_DOT);
    LowerSplits(s, ENCODED_DOT, ENCODED_DOT);
    assert [DOT] + [DOT] == [DOT, DOT];
    forall k | 0 <= k <= |s| ensures DotText(s[..k]) <==> LowerText(s[..k]) in {[DOT], ENCODED_DOT} { DotLowers(s[..k]); }
    forall k | 0 <= k <= |s| ensures DotText(s[k..]) <==> LowerText(s[k..]) in {[DOT], ENCODED_DOT} { DotLowers(s[k..]); }
    if IsDoubleDot(s) {
      var k := if LowerText(s) == [DOT, DOT] || LowerText(s) == [DOT] + ENCODED_DOT then 1 else 3;
      assert DotText(s[..k]) && DotText(s[k..]);
    }
    if k :| 0 <= k <= |s| && DotText(s[..k]) && DotText(s[k..]) { BothDots(s, k); }
  }

  lemma DotLowers(s: seq<int>)
    ensures DotText(s) <==> LowerText(s) in {[DOT], ENCODED_DOT}
  {
    LowerDots(s);
  }

  lemma BothDots(s: seq<int>, k: nat)
    requires k <= |s| && DotText(s[..k]) && DotText(s[k..])
    ensures IsDoubleDot(s)
  {
    LowerDots(s[..k]);
    LowerDots(s[k..]);
    hide LowerText;
    LowerSplits(s, LowerText(s[..k]), LowerText(s[k..]));
    LowerLength(s[..k]);
    assert [DOT] + [DOT] == [DOT, DOT];
  }

  lemma LowerLength(s: seq<int>)
    ensures |LowerText(s)| == |s|
  {
  }

  /** A drive letter is a letter and ":" or "|"; a normalized one has the colon. */
  lemma DriveLetters(s: seq<int>)
    ensures IsWindowsDriveLetter(s, true) <==> |s| == 2 && IsAlpha(s[0]) && s[1] == ':' as int
    ensures IsWindowsDriveLetter(s, false) <==> |s| == 2 && IsAlpha(s[0]) && (s[1] == ':' as int || s[1] == '|' as int)
    ensures StartsWithWindowsDriveLetter(s) <==>
            |s| >= 2 && IsWindowsDriveLetter(s[..2], false)
            && (|s| == 2 || s[2] in {'/' as int, '\\' as int, '?' as int, '#' as int})
  {
  }

  // ---------- Hosts ----------

  /** What no host may hold: a host that is no domain may hold "%". */
  lemma ForbiddenCharacters(c: int)
    ensures c in FORBIDDEN <==>
            0 <= c < 0x80 && c as char in {'\0', '\t', '\n', '\r', ' ', '#', '%', '/', ':', '<', '>', '?', '@', '[', '\\', ']', '^', '|'}
    ensures c in FORBIDDEN - {0x25} <==>
            0 <= c < 0x80 && c as char in {'\0', '\t', '\n', '\r', ' ', '#', '/', ':', '<', '>', '?', '@', '[', '\\', ']', '^', '|'}
  {
  }

  predicate IsRefused(c: int) {
    0 <= c < 0x80 && c as char in {'\0', '\t', '\n', '\r', ' ', '#', '/', ':', '<', '>', '?', '@', '[', '\\', ']', '^', '|'}
  }

  /** A domain is refused for one of these or a "%", or as an IPv4 address out of range; otherwise it is that address or itself. */
  lemma DomainExactly(domain: seq<int>)
    ensures DomainReading(domain) == Refused <==>
            Ip.ParsedIPv4(domain) == Ip.Failure || exists i :: 0 <= i < |domain| && (IsRefused(domain[i]) || domain[i] == '%' as int)
    ensures DomainReading(domain) != Refused ==>
            && (Ip.ParsedIPv4(domain) == Ip.NotIPv4 ==> DomainReading(domain) == Read(Text(domain)))
            && forall n: nat :: Ip.ParsedIPv4(domain) == Ip.Address(n) ==> DomainReading(domain) == Read(IPv4(n))
  {
    hide Ip.ParsedIPv4;
    forall i | 0 <= i < |domain| ensures domain[i] in FORBIDDEN <==> IsRefused(domain[i]) || domain[i] == '%' as int {
      ForbiddenCharacters(domain[i]);
    }
  }

  /** A host that is no domain is refused for one of these; a "%" it may hold, and the rest is percent-encoded. */
  lemma OpaqueExactly(text: seq<int>)
    ensures OpaqueReading(text) ==
            if exists i :: 0 <= i < |text| && IsRefused(text[i]) then Refused
            else match Spelled(text, {}) { case Some(t) => Read(Text(t)) case None => LoneInHost }
  {
    hide Encodes, Spelled;
    PartsEncoded(text);
    forall i | 0 <= i < |text| ensures text[i] in FORBIDDEN - {0x25} <==> IsRefused(text[i]) { ForbiddenCharacters(text[i]); }
  }

  /** "[" starts an IPv6 address, and the last character must be "]". */
  lemma BracketExactly(text: seq<int>)
    ensures BracketReading(['[' as int] + text + [']' as int]) ==
            match Ip.ParsedIPv6(text) { case Some(pieces) => Read(IPv6(pieces)) case None => Refused }
    ensures text == [] || text[|text| - 1] != ']' as int ==> BracketReading(['[' as int] + text) == Refused
  {
    hide Ip.ParsedIPv6;
    var closed := ['[' as int] + text + [']' as int];
    assert closed[1..|closed| - 1] == text;
  }

  /** U+002E and the ideographic, fullwidth and halfwidth full stops that section 3.1 of RFC 3490 sets beside it. */
  predicate IsSeparator(c: int) { c == 0x2E || c == 0x3002 || c == 0xFF0E || c == 0xFF61 }

  /** Labels with any separators between them. */
  function Separated(labels: seq<seq<int>>, separators: seq<int>): seq<int>
    requires |labels| == |separators| + 1
  {
    if separators == [] then labels[0] else labels[0] + [separators[0]] + Separated(labels[1..], separators[1..])
  }

  predicate AreLabels(labels: seq<seq<int>>) {
    forall i, j :: 0 <= i < |labels| && 0 <= j < |labels[i]| ==> !IsSeparator(labels[i][j])
  }

  lemma DottedPieces(a: seq<int>, c: int, b: seq<int>)
    ensures Dotted(a + [c] + b) == Dotted(a) + [if IsSeparator(c) then DOT else c] + Dotted(b)
  {
  }

  lemma DottedLabel(piece: seq<int>)
    requires forall j :: 0 <= j < |piece| ==> !IsSeparator(piece[j])
    ensures Dotted(piece) == piece && DOT !in piece
  {
  }

  lemma {:induction false} SeparatedSplit(labels: seq<seq<int>>, separators: seq<int>)
    requires |labels| == |separators| + 1 && AreLabels(labels)
    requires forall i :: 0 <= i < |separators| ==> IsSeparator(separators[i])
    ensures Delimited.Split(Dotted(Separated(labels, separators)), DOT) == labels
  {
    hide Dotted, Delimited.Split;
    DottedLabel(labels[0]);
    if separators == [] {
      Delimited.SplitPiece(labels[0], DOT, []);
      assert labels == [labels[0]];
    } else {
      var rest := Separated(labels[1..], separators[1..]);
      DottedPieces(labels[0], separators[0], rest);
      SeparatedSplit(labels[1..], separators[1..]);
      Delimited.SplitPiece(labels[0], DOT, Dotted(rest));
      assert labels == [labels[0]] + labels[1..];
    }
  }

  /** A label up to "~" stays; any other becomes "xn--" and its Punycode form, and the labels are joined by full stops. */
  lemma LabelsExactly(labels: seq<seq<int>>, separators: seq<int>)
    requires |labels| == |separators| + 1 && AreLabels(labels)
    requires forall i :: 0 <= i < |separators| ==> IsSeparator(separators[i])
    ensures var domain := DomainText(Dotted(Separated(labels, separators)));
      && (domain.None? <==> exists i :: 0 <= i < |labels| && LabelOf(labels[i]).None?)
      && (domain.Some? ==> domain.value == Delimited.Join(seq(|labels|, i requires 0 <= i < |labels| =>
            LabelOf(labels[i]).GetOr([])), '.' as int))
  {
    hide Dotted, Delimited.Split, Delimited.Join, LabelOf, Separated;
    SeparatedSplit(labels, separators);
    LabelsEach(labels);
    if LabelTexts(labels).Some? {
      assert LabelTexts(labels).value == seq(|labels|, i requires 0 <= i < |labels| =>
            LabelOf(labels[i]).GetOr([]));
    }
  }

  function LabelOf(piece: seq<int>): Option<seq<int>> {
    if exists j :: 0 <= j < |piece| && piece[j] > 0x7E then
      match Puny.EncodedText(Puny.CodePoints(Puny.Utf16(piece)))
      case Some(t) => Some(['x' as int, 'n' as int, '-' as int, '-' as int] + t)
      case None => None
    else Some(piece)
  }

  lemma LabelSpelled(piece: seq<int>)
    ensures LabelText(piece) == LabelOf(piece)
  {
    hide Puny.EncodedText, Puny.CodePoints, Puny.Utf16;
  }

  lemma {:induction false} LabelsEach(labels: seq<seq<int>>)
    ensures LabelTexts(labels).None? <==> exists i :: 0 <= i < |labels| && LabelOf(labels[i]).None?
    ensures LabelTexts(labels).Some? ==>
              forall i :: 0 <= i < |labels| ==> LabelOf(labels[i]) == Some(LabelTexts(labels).value[i])
  {
    hide LabelText, LabelOf;
    if labels != [] {
      LabelSpelled(labels[0]);
      LabelsEach(labels[1..]);
      assert forall i :: 1 <= i < |labels| ==> labels[i] == labels[1..][i - 1];
      if LabelTexts(labels[1..]).None? {
        var i :| 0 <= i < |labels[1..]| && LabelOf(labels[1..][i]).None?;
        assert LabelOf(labels[i + 1]).None?;
      }
    }
  }
}
