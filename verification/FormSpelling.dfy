/**
 What the form parser behind URLSearchParams in js/secsdk-lastest.umd.js reads: attributes with and without "=", escapes in
 digits of either case, and texts in which some "%" starts no escape.
 */
module FormSpelling {
  import opened Wrappers
  import opened Delimited
  import opened Punycode
  import opened Uri
  import opened FormUrlEncoded
  import opened JsonSpelling

  /** "%" and two hexadecimal digits. */
  datatype Escaped = Escaped(high: Digit, low: Digit)

  /** A unit as it is, a "+", or a code point by the escapes of its octets. */
  datatype Bit = Kept(unit: int) | Blank | Point(cp: int, octets: seq<Escaped>)

  predicate AreEscapes(es: seq<Escaped>) { forall i :: 0 <= i < |es| ==> IsDigit(es[i].high) && IsDigit(es[i].low) }

  function Values(es: seq<Escaped>): seq<int> { seq(|es|, i requires 0 <= i < |es| => es[i].high.value * 16 + es[i].low.value) }

  predicate IsBit(b: Bit) {
    match b
    case Kept(u) => u != '+' as int
    case Blank => true
    case Point(cp, es) => IsScalar(cp) && AreEscapes(es) && Values(es) == Octets(cp)
  }

  predicate AreBits(bits: seq<Bit>) { forall i :: 0 <= i < |bits| ==> IsBit(bits[i]) }

  function EscapeText(e: Escaped): (s: seq<int>)
    requires IsDigit(e.high) && IsDigit(e.low)
    ensures |s| == 3
  {
    ['%' as int, Written(e.high), Written(e.low)]
  }

  function EscapesText(es: seq<Escaped>): seq<int>
    requires AreEscapes(es)
  {
    if es == [] then [] else EscapeText(es[0]) + EscapesText(es[1..])
  }

  function BitText(b: Bit): seq<int>
    requires IsBit(b)
  {
    match b
    case Kept(u) => [u]
    case Blank => ['+' as int]
    case Point(_, es) => EscapesText(es)
  }

  function BitMeans(b: Bit): seq<int> {
    match b
    case Kept(u) => [u]
    case Blank => [' ' as int]
    case Point(cp, _) => Units(cp)
  }

  function Text(bits: seq<Bit>): seq<int>
    requires AreBits(bits)
  {
    if bits == [] then [] else BitText(bits[0]) + Text(bits[1..])
  }

  function Means(bits: seq<Bit>): seq<int> {
    if bits == [] then [] else BitMeans(bits[0]) + Means(bits[1..])
  }

  // ---------- A "%" that starts no escape ----------

  predicate IsHexAt(bits: seq<Bit>, i: nat) { i < |bits| && bits[i].Kept? && HexValue(bits[i].unit).Some? }

  /** No "%" and two digits are kept as they are. */
  predicate Honest(bits: seq<Bit>) {
    forall i :: 0 <= i < |bits| && bits[i] == Kept('%' as int) ==> !(IsHexAt(bits, i + 1) && IsHexAt(bits, i + 2))
  }

  predicate IsBroken(bits: seq<Bit>) { exists i :: 0 <= i < |bits| && bits[i] == Kept('%' as int) }

  /** No two escaped code points stand side by side. */
  predicate AreApart(bits: seq<Bit>) { forall i, j :: 0 <= i && j == i + 1 < |bits| && bits[i].Point? ==> !bits[j].Point? }

  // ---------- Reading one bit ----------

  lemma DigitWritten(d: Digit)
    requires IsDigit(d)
    ensures HexValue(Written(d)) == Some(d.value) && Written(d) !in {PLUS, PERCENT, AMPERSAND, EQUALS}
  {
  }

  lemma EscapeRead(e: Escaped, rest: seq<int>)
    requires IsDigit(e.high) && IsDigit(e.low)
    ensures OctetAt(EscapeText(e) + rest) == Some(e.high.value * 16 + e.low.value) && (EscapeText(e) + rest)[3..] == rest
    ensures EscapeText(e)[0] == PERCENT
    ensures forall i :: 0 <= i < 3 ==> EscapeText(e)[i] !in {PLUS, AMPERSAND, EQUALS} && (i > 0 ==> EscapeText(e)[i] != PERCENT)
  {
    hide HexValue, Written;
    DigitWritten(e.high);
    DigitWritten(e.low);
  }

  lemma {:induction false} EscapesRead(es: seq<Escaped>, rest: seq<int>)
    requires AreEscapes(es)
    ensures EscapedOctets(EscapesText(es) + rest, |es|) == Some(Values(es))
    ensures |EscapesText(es)| == 3 * |es|
  {
    hide OctetAt, EscapeText;
    if es != [] {
      var more := EscapesText(es[1..]) + rest;
      EscapesRead(es[1..], rest);
      EscapeRead(es[0], more);
      assert EscapesText(es) + rest == EscapeText(es[0]) + more;
      assert Values(es) == [es[0].high.value * 16 + es[0].low.value] + Values(es[1..]);
    } else {
      assert Values(es) == [];
    }
  }

  lemma PointRead(cp: int, es: seq<Escaped>, rest: seq<int>)
    requires IsBit(Point(cp, es))
    ensures DecodeURIComponent(EscapesText(es) + rest) == Prepend(Units(cp), DecodeURIComponent(rest))
  {
    hide Scalar, EscapedOctets, Octets, Units, Prepend, EscapeText, OctetAt;
    var os := Octets(cp);
    var s := EscapesText(es) + rest;
    ScalarOctets(cp);
    EscapesRead(es, rest);
    EscapesRead(es[..1], EscapesText(es[1..]) + rest);
    assert s[3 * |os|..] == rest;
    FirstOctet(es, rest);
    assert |Values(es)| == |es| && os[0] == Values(es)[0];
    assert Utf16([cp]) == Units(cp) by { assert [cp][1..] == [] && Units(cp) + [] == Units(cp); }
  }

  lemma FirstOctet(es: seq<Escaped>, rest: seq<int>)
    requires AreEscapes(es) && es != []
    ensures var s := EscapesText(es) + rest; s != [] && s[0] == PERCENT && OctetAt(s) == Some(Values(es)[0])
  {
    hide OctetAt, EscapeText;
    EscapeRead(es[0], EscapesText(es[1..]) + rest);
    assert EscapesText(es) + rest == EscapeText(es[0]) + (EscapesText(es[1..]) + rest);
  }

  // ---------- Texts without a broken escape ----------

  /** The text with its "+" read. */
  function Spaced(bits: seq<Bit>): seq<int>
    requires AreBits(bits)
  {
    if bits == [] then [] else (if bits[0].Blank? then [SPACE] else BitText(bits[0])) + Spaced(bits[1..])
  }

  lemma {:induction false} EscapesHoldNoPlus(es: seq<Escaped>)
    requires AreEscapes(es)
    ensures PLUS !in EscapesText(es)
  {
    hide EscapeText;
    if es != [] {
      EscapeRead(es[0], []);
      EscapesHoldNoPlus(es[1..]);
    }
  }

  lemma {:induction false} PlusRead(bits: seq<Bit>)
    requires AreBits(bits)
    ensures PlusToSpace(Text(bits)) == Spaced(bits)
  {
    hide EscapesText, PlusToSpace;
    if bits == [] {
      NothingSpaced();
    } else {
      PlusRead(bits[1..]);
      PlusConcat(BitText(bits[0]), Text(bits[1..]));
      match bits[0]
      case Kept(u) => NoPlus([u]);
      case Blank => OnePlus();
      case Point(cp, es) =>
        EscapesHoldNoPlus(es);
        NoPlus(EscapesText(es));
    }
  }

  lemma NothingSpaced()
    ensures PlusToSpace([]) == []
  {
  }

  lemma OnePlus()
    ensures PlusToSpace([PLUS]) == [SPACE]
  {
    assert [PLUS][1..] == [];
  }

  lemma {:induction false} WholeRead(bits: seq<Bit>)
    requires AreBits(bits) && !IsBroken(bits)
    ensures DecodeURIComponent(Spaced(bits)) == Some(Means(bits))
  {
    hide IsBit, EscapesText, Units;
    if bits != [] {
      hide DecodeURIComponent;
      var rest := bits[1..];
      forall i | 0 <= i < |rest| ensures rest[i] != Kept('%' as int) { assert rest[i] == bits[i + 1]; }
      WholeRead(rest);
      match bits[0]
      case Kept(u) => assert u != PERCENT by { assert bits[0] != Kept('%' as int); } DecodePlain(u, Spaced(rest));
      case Blank => DecodePlain(SPACE, Spaced(rest));
      case Point(cp, es) => PointRead(cp, es, Spaced(rest));
    }
  }

  // ---------- Texts with one ----------

  /** The text while code points of more than `level` octets have been read and the others have not. */
  function Stage(bits: seq<Bit>, level: nat): seq<int>
    requires AreBits(bits)
  {
    if bits == [] then []
    else if bits[0].Point? && |bits[0].octets| <= level then EscapesText(bits[0].octets) + Stage(bits[1..], level)
    else BitMeans(bits[0]) + Stage(bits[1..], level)
  }

  lemma {:induction false} FirstStage(bits: seq<Bit>)
    requires AreBits(bits)
    ensures Stage(bits, 4) == Spaced(bits)
  {
    hide EscapesText, Octets;
    if bits != [] {
      FirstStage(bits[1..]);
      if bits[0].Point? { assert |Values(bits[0].octets)| == |bits[0].octets|; }
    }
  }

  lemma {:induction false} LastStage(bits: seq<Bit>)
    requires AreBits(bits)
    ensures Stage(bits, 0) == Means(bits)
  {
    hide Octets;
    if bits != [] {
      LastStage(bits[1..]);
      if bits[0].Point? { assert |Values(bits[0].octets)| == |bits[0].octets|; }
    }
  }

  predicate StartsHex(s: seq<int>) { s != [] && HexValue(s[0]).Some? }

  /** What a code point or a "+" leaves in the text starts with no hexadecimal digit, until its last turn. */
  lemma NoHexAhead(bits: seq<Bit>, level: nat)
    requires AreBits(bits) && level > 0
    ensures StartsHex(Stage(bits, level)) <==> IsHexAt(bits, 0)
  {
    hide Written;
    if bits != [] && bits[0].Point? {
      var es, cp := bits[0].octets, bits[0].cp;
      assert |Values(es)| == |es|;
      if |es| <= level {
        FirstOctet(es, Stage(bits[1..], level));
      } else {
        LongPoint(cp);
        assert Stage(bits, level)[0] == Units(cp)[0];
      }
    }
  }

  lemma LongPoint(cp: int)
    requires IsScalar(cp) && |Octets(cp)| > 1
    ensures forall i :: 0 <= i < |Units(cp)| ==> HexValue(Units(cp)[i]).None? && Units(cp)[i] != PERCENT
  {
  }

  /** A kept unit starts no escape. */
  lemma KeptStays(bits: seq<Bit>, level: nat)
    requires AreBits(bits) && Honest(bits) && level > 0 && bits != [] && bits[0].Kept?
    ensures Stage(bits, level) == [bits[0].unit] + Stage(bits[1..], level)
    ensures OctetAt(Stage(bits, level)).None?
  {
    hide HexValue, EscapesText;
    var s, rest := Stage(bits, level), Stage(bits[1..], level);
    assert s[1..] == rest;
    if bits[0] == Kept(PERCENT) && |s| >= 3 {
      NoHexAhead(bits[1..], level);
      if StartsHex(rest) {
        assert IsHexAt(bits, 1);
        assert rest == [bits[1].unit] + Stage(bits[1..][1..], level);
        NoHexAhead(bits[1..][1..], level);
        assert !IsHexAt(bits, 2);
        assert s[2] == Stage(bits[1..][1..], level)[0];
        assert !IsHexAt(bits[1..][1..], 0);
      }
    }
  }

  lemma KeepOne(c: int, rest: seq<int>, level: nat)
    requires level > 0 && OctetAt([c] + rest).None?
    ensures DecodeRuns([c] + rest, level) == [c] + DecodeRuns(rest, level)
  {
    assert ([c] + rest)[1..] == rest;
  }

  lemma NoOctet(c: int, rest: seq<int>)
    requires c != PERCENT
    ensures OctetAt([c] + rest).None?
  {
  }

  lemma {:induction false} KeepAll(plain: seq<int>, rest: seq<int>, level: nat)
    requires level > 0 && forall i :: 0 <= i < |plain| ==> plain[i] != PERCENT
    ensures DecodeRuns(plain + rest, level) == plain + DecodeRuns(rest, level)
  {
    hide DecodeRuns, OctetAt;
    if plain == [] {
      assert plain + rest == rest;
    } else {
      NoOctet(plain[0], plain[1..] + rest);
      KeepOne(plain[0], plain[1..] + rest, level);
      KeepAll(plain[1..], rest, level);
      assert plain + rest == [plain[0]] + (plain[1..] + rest);
      assert [plain[0]] + (plain[1..] + DecodeRuns(rest, level)) == plain + DecodeRuns(rest, level);
    }
  }

  /** Too few escapes in a row stay as they are. */
  lemma {:induction false} FewStay(es: seq<Escaped>, rest: seq<int>, level: nat)
    requires AreEscapes(es) && |es| < level && OctetAt(rest).None?
    ensures DecodeRuns(EscapesText(es) + rest, level) == EscapesText(es) + DecodeRuns(rest, level)
  {
    hide DecodeRuns, OctetAt, EscapedOctets, EscapeText;
    if es == [] {
      assert EscapesText(es) + rest == rest;
    } else {
      TooFew(es, rest, level);
      EscapeKept(es, rest, level);
      FewStay(es[1..], rest, level);
      assert EscapeText(es[0]) + (EscapesText(es[1..]) + DecodeRuns(rest, level)) == EscapesText(es) + DecodeRuns(rest, level);
    }
  }

  lemma EscapeKept(es: seq<Escaped>, rest: seq<int>, level: nat)
    requires AreEscapes(es) && es != [] && level > 0 && EscapedOctets(EscapesText(es) + rest, level).None?
    ensures DecodeRuns(EscapesText(es) + rest, level) == EscapeText(es[0]) + DecodeRuns(EscapesText(es[1..]) + rest, level)
  {
    hide DecodeRuns, OctetAt, EscapedOctets, EscapeText;
    var more := EscapesText(es[1..]) + rest;
    EscapeRead(es[0], []);
    var digits := EscapeText(es[0])[1..];
    var s := EscapesText(es) + rest;
    assert s == [PERCENT] + (digits + more);
    FirstKept(s, level);
    assert s[1..] == digits + more;
    KeepAll(digits, more, level);
    assert [PERCENT] + (digits + DecodeRuns(more, level)) == EscapeText(es[0]) + DecodeRuns(more, level);
  }

  lemma FirstKept(s: seq<int>, level: nat)
    requires s != [] && level > 0 && EscapedOctets(s, level).None?
    ensures DecodeRuns(s, level) == [s[0]] + DecodeRuns(s[1..], level)
  {
  }

  lemma {:induction false} TooFew(es: seq<Escaped>, rest: seq<int>, level: nat)
    requires AreEscapes(es) && |es| < level && OctetAt(rest).None?
    ensures EscapedOctets(EscapesText(es) + rest, level).None?
  {
    hide OctetAt, EscapeText;
    if es == [] {
      assert EscapesText(es) + rest == rest;
    } else {
      var more := EscapesText(es[1..]) + rest;
      TooFew(es[1..], rest, level - 1);
      EscapeRead(es[0], more);
      assert EscapesText(es) + rest == EscapeText(es[0]) + more;
    }
  }

  lemma PointTurns(cp: int, es: seq<Escaped>, rest: seq<int>)
    requires IsBit(Point(cp, es))
    ensures |es| > 0 && DecodeRuns(EscapesText(es) + rest, |es|) == Units(cp) + DecodeRuns(rest, |es|)
  {
    hide Octets, Units, DecodeURIComponent, EscapedOctets;
    assert |Values(es)| == |es|;
    EscapesRead(es, rest);
    PointRead(cp, es, []);
    var s := EscapesText(es) + rest;
    assert s[..3 * |es|] == EscapesText(es) == EscapesText(es) + [] && s[3 * |es|..] == rest;
    NothingDecoded();
    assert Units(cp) + [] == Units(cp);
  }

  lemma NothingDecoded()
    ensures DecodeURIComponent([]) == Some([])
  {
  }

  /** What follows an escaped code point starts with no escape. */
  lemma ApartAhead(bits: seq<Bit>, level: nat)
    requires AreBits(bits) && Honest(bits) && level > 0 && (bits != [] ==> !bits[0].Point?)
    ensures OctetAt(Stage(bits, level)).None?
  {
    if bits != [] {
      if bits[0].Kept? { KeptStays(bits, level); } else { NoOctet(SPACE, Stage(bits[1..], level)); }
    }
  }

  lemma HonestRest(bits: seq<Bit>)
    requires Honest(bits) && AreApart(bits) && bits != []
    ensures Honest(bits[1..]) && AreApart(bits[1..])
    ensures bits[0].Point? && |bits| > 1 ==> !bits[1].Point?
  {
    var rest := bits[1..];
    forall i | 0 <= i < |rest| && rest[i] == Kept('%' as int) ensures !(IsHexAt(rest, i + 1) && IsHexAt(rest, i + 2)) {
      assert bits[i + 1] == rest[i];
      assert IsHexAt(rest, i + 1) ==> IsHexAt(bits, i + 2);
      assert IsHexAt(rest, i + 2) ==> IsHexAt(bits, i + 3);
    }
    forall i, j | 0 <= i && j == i + 1 < |rest| && rest[i].Point? ensures !rest[j].Point? {
      assert bits[i + 1] == rest[i] && bits[j + 1] == rest[j];
    }
  }

  /** One pass reads the code points of just that many octets. */
  lemma {:induction false} OnePass(bits: seq<Bit>, level: nat)
    requires AreBits(bits) && Honest(bits) && AreApart(bits) && level > 0
    ensures DecodeRuns(Stage(bits, level), level) == Stage(bits, level - 1)
  {
    hide EscapesText, Units, Octets, OctetAt;
    if bits == [] {
      NothingRuns(level);
    } else {
      var rest := bits[1..];
      HonestRest(bits);
      OnePass(rest, level);
      match bits[0] {
        case Kept(u) =>
          KeptStays(bits, level);
          hide DecodeRuns;
          KeepOne(u, Stage(rest, level), level);
        case Blank =>
          hide DecodeRuns;
          NoOctet(SPACE, Stage(rest, level));
          KeepOne(SPACE, Stage(rest, level), level);
        case Point(cp, es) =>
          hide DecodeRuns, AreBits;
          PointPass(cp, es, rest, level);
      }
    }
  }

  lemma PointPass(cp: int, es: seq<Escaped>, rest: seq<Bit>, level: nat)
    requires IsBit(Point(cp, es)) && AreBits(rest) && Honest(rest) && level > 0 && (rest != [] ==> !rest[0].Point?)
    ensures DecodeRuns((if |es| <= level then EscapesText(es) else Units(cp)) + Stage(rest, level), level) ==
            (if |es| <= level - 1 then EscapesText(es) else Units(cp)) + DecodeRuns(Stage(rest, level), level)
  {
    hide DecodeRuns, EscapesText, Units, OctetAt, Stage;
    if |es| < level {
      ApartAhead(rest, level);
      FewStay(es, Stage(rest, level), level);
    } else if |es| == level {
      PointTurns(cp, es, Stage(rest, level));
    } else {
      assert |Values(es)| == |es|;
      LongPoint(cp);
      KeepAll(Units(cp), Stage(rest, level), level);
    }
  }

  lemma NothingRuns(level: nat)
    requires level > 0
    ensures DecodeRuns([], level) == []
  {
  }

  lemma {:induction false} BrokenFails(bits: seq<Bit>)
    requires AreBits(bits) && Honest(bits) && IsBroken(bits)
    ensures DecodeURIComponent(Stage(bits, 4)).None?
  {
    hide DecodeURIComponent, IsBit, EscapesText, Units, OctetAt;
    var s, rest := Stage(bits, 4), bits[1..];
    if bits[0] == Kept(PERCENT) {
      KeptStays(bits, 4);
      NoEscape(s);
    } else {
      var i :| 0 <= i < |bits| && bits[i] == Kept('%' as int);
      assert rest[i - 1] == bits[i];
      HonestOn(bits);
      BrokenFails(rest);
      match bits[0] {
        case Kept(u) => DecodePlain(u, Stage(rest, 4));
        case Blank => DecodePlain(SPACE, Stage(rest, 4));
        case Point(cp, es) =>
          PointLength(cp, es);
          PointRead(cp, es, Stage(rest, 4));
      }
    }
  }

  lemma PointLength(cp: int, es: seq<Escaped>)
    requires IsBit(Point(cp, es))
    ensures 1 <= |es| <= 4
  {
    hide Octets;
    assert |Values(es)| == |es|;
  }

  lemma NoEscape(s: seq<int>)
    requires s != [] && s[0] == PERCENT && OctetAt(s).None?
    ensures DecodeURIComponent(s).None?
  {
  }

  lemma HonestOn(bits: seq<Bit>)
    requires Honest(bits) && bits != []
    ensures Honest(bits[1..])
  {
    var rest := bits[1..];
    forall i | 0 <= i < |rest| && rest[i] == Kept('%' as int) ensures !(IsHexAt(rest, i + 1) && IsHexAt(rest, i + 2)) {
      assert bits[i + 1] == rest[i];
      assert IsHexAt(rest, i + 1) ==> IsHexAt(bits, i + 2);
      assert IsHexAt(rest, i + 2) ==> IsHexAt(bits, i + 3);
    }
  }

  predicate IsReadable(bits: seq<Bit>) { AreBits(bits) && Honest(bits) && (IsBroken(bits) ==> AreApart(bits)) }

  /**
   A text is read bit by bit: "+" is a space, an escaped code point is that code point, and everything else stays - even
   where some "%" starts no escape, as long as the escaped code points then stand apart.
   */
  lemma TextRead(bits: seq<Bit>)
    requires IsReadable(bits)
    ensures Deserialize(Text(bits)) == Means(bits)
  {
    hide DecodeURIComponent, DecodeRuns, PlusToSpace, AreBits, Honest, AreApart;
    PlusRead(bits);
    FirstStage(bits);
    if IsBroken(bits) {
      BrokenFails(bits);
      OnePass(bits, 4);
      OnePass(bits, 3);
      OnePass(bits, 2);
      OnePass(bits, 1);
      LastStage(bits);
    } else {
      WholeRead(bits);
    }
  }

  // ---------- Attributes ----------

  datatype Attribute = Attribute(key: seq<Bit>, value: Option<seq<Bit>>)

  /** A key holds no "=" as it is, and no part a "&". */
  predicate IsAttribute(a: Attribute) {
    && IsReadable(a.key) && Kept('=' as int) !in a.key && Kept('&' as int) !in a.key
    && (a.value.Some? ==> IsReadable(a.value.value) && Kept('&' as int) !in a.value.value)
    && !(a.key == [] && a.value.None?)
  }

  function AttributeText(a: Attribute): seq<int>
    requires IsAttribute(a)
  {
    Text(a.key) + match a.value { case None => [] case Some(v) => ['=' as int] + Text(v) }
  }

  lemma {:induction false} TextHolds(bits: seq<Bit>, c: int)
    requires AreBits(bits) && c in {AMPERSAND, EQUALS} && Kept(c) !in bits
    ensures c !in Text(bits)
  {
    hide EscapesText;
    if bits != [] {
      TextHolds(bits[1..], c);
      assert bits[0] in bits;
      if bits[0].Point? { EscapesHold(bits[0].octets, c); }
    }
  }

  lemma {:induction false} EscapesHold(es: seq<Escaped>, c: int)
    requires AreEscapes(es) && c in {AMPERSAND, EQUALS}
    ensures c !in EscapesText(es)
  {
    hide EscapeText;
    if es != [] {
      EscapeRead(es[0], []);
      EscapesHold(es[1..], c);
    }
  }

  lemma TextFilled(bits: seq<Bit>)
    requires AreBits(bits) && bits != []
    ensures Text(bits) != []
  {
    hide Octets, Written;
    if bits[0].Point? { assert |Values(bits[0].octets)| == |bits[0].octets|; }
  }

  /** The value starts behind the first "=" and may hold others; without any "=" it is empty. */
  lemma AttributeRead(a: Attribute)
    requires IsAttribute(a)
    ensures ParsedEntry(AttributeText(a)) == Entry(Means(a.key), Means(a.value.GetOr([])))
    ensures AttributeText(a) != [] && AMPERSAND !in AttributeText(a)
  {
    hide Deserialize, Text, Means, Split, Join, Honest, AreApart, IsBroken, AreBits;
    TextRead(a.key);
    TextHolds(a.key, EQUALS);
    TextHolds(a.key, AMPERSAND);
    if a.key != [] { TextFilled(a.key); }
    match a.value {
      case None =>
        SplitPiece(Text(a.key), EQUALS, []);
        assert Text(a.key) + [] == Text(a.key) && [Text(a.key)][1..] == [];
        NothingJoined();
      case Some(v) =>
        TextRead(v);
        TextHolds(v, AMPERSAND);
        SplitPiece(Text(a.key), EQUALS, Text(v));
        assert Text(a.key) + ([EQUALS] + Text(v)) == Text(a.key) + [EQUALS] + Text(v);
        JoinSplit(Text(v), EQUALS);
        assert ([Text(a.key)] + Split(Text(v), EQUALS))[1..] == Split(Text(v), EQUALS);
    }
  }

  lemma NothingJoined()
    ensures Join([], EQUALS) == [] && Deserialize([]) == [] && Means([]) == []
  {
    assert PlusToSpace([]) == [];
  }

  predicate AreAttributes(attributes: seq<Option<Attribute>>) {
    forall i :: 0 <= i < |attributes| && attributes[i].Some? ==> IsAttribute(attributes[i].value)
  }

  function AttributeTexts(attributes: seq<Option<Attribute>>): seq<seq<int>>
    requires AreAttributes(attributes)
  {
    seq(|attributes|, i requires 0 <= i < |attributes| =>
      match attributes[i] { case None => [] case Some(a) => AttributeText(a) })
  }

  function EntriesMeant(attributes: seq<Option<Attribute>>): seq<Entry> {
    if attributes == [] then []
    else
      (match attributes[0] { case None => [] case Some(a) => [Entry(Means(a.key), Means(a.value.GetOr([])))] })
      + EntriesMeant(attributes[1..])
  }

  lemma {:induction false} EntriesLast(attributes: seq<Option<Attribute>>)
    requires attributes != []
    ensures EntriesMeant(attributes) ==
            EntriesMeant(attributes[..|attributes| - 1]) + EntriesMeant([attributes[|attributes| - 1]])
  {
    if |attributes| == 1 {
      assert attributes == [attributes[0]] && attributes[..0] == [];
    } else {
      EntriesLast(attributes[1..]);
      assert attributes[1..][..|attributes| - 2] == attributes[..|attributes| - 1][1..];
    }
  }

  lemma {:induction false} AttributesRead(attributes: seq<Option<Attribute>>)
    requires AreAttributes(attributes)
    ensures ParsedEntries(AttributeTexts(attributes)) == EntriesMeant(attributes)
  {
    hide IsAttribute, AttributeText, ParsedEntry, Means;
    if attributes != [] {
      var front, last := attributes[..|attributes| - 1], attributes[|attributes| - 1];
      AttributesRead(front);
      EntriesLast(attributes);
      assert [last][1..] == [];
      assert AttributeTexts(attributes)[..|front|] == AttributeTexts(front);
      if last.Some? { AttributeRead(last.value); }
    }
  }

  /** A body is read attribute by attribute; empty ones between two "&" count for nothing. */
  lemma BodyRead(attributes: seq<Option<Attribute>>)
    requires AreAttributes(attributes)
    ensures ParsedQuery(Join(AttributeTexts(attributes), '&' as int)) == EntriesMeant(attributes)
  {
    hide IsAttribute, AttributeText, ParsedEntry, Means, EntriesMeant;
    AttributesRead(attributes);
    var texts := AttributeTexts(attributes);
    forall i | 0 <= i < |texts| ensures AMPERSAND !in texts[i] {
      if attributes[i].Some? { AttributeRead(attributes[i].value); }
    }
    if texts != [] {
      SplitJoin(texts, AMPERSAND);
      if Join(texts, AMPERSAND) == [] { OnlyEmpty(texts); }
    }
  }

  lemma OnlyEmpty(texts: seq<seq<int>>)
    requires texts != [] && Split([], AMPERSAND) == texts
    ensures ParsedEntries(texts) == []
  {
    assert texts == [[]] && texts[..0] == [];
  }

  /** Escapes side by side in a text with a broken one may be read twice: "%25%341%" comes out as "A%". */
  lemma ReadTwice()
    ensures Deserialize([0x25, 0x32, 0x35, 0x25, 0x33, 0x34, 0x31, 0x25]) == [0x41, 0x25]
  {
    hide PlusToSpace, DecodeRuns;
    TwiceFails();
    TwiceStarts();
    TwiceEnds();
  }

  const TWICE: seq<int> := [0x25, 0x32, 0x35, 0x25, 0x33, 0x34, 0x31, 0x25]

  /** "%25" and "%34". */
  const FIRST: seq<Escaped> := [Escaped(Digit(2, false), Digit(5, false))]
  const SECOND: seq<Escaped> := [Escaped(Digit(3, false), Digit(4, false))]

  lemma TwiceText()
    ensures AreEscapes(FIRST) && AreEscapes(SECOND) && IsBit(Point(0x25, FIRST)) && IsBit(Point(0x34, SECOND))
    ensures EscapesText(FIRST) == TWICE[..3] && EscapesText(SECOND) == TWICE[3..6]
    ensures Units(0x25) == [0x25] && Units(0x34) == [0x34]
  {
    assert FIRST[1..] == [] && SECOND[1..] == [];
  }

  lemma TwiceFails()
    ensures PlusToSpace(TWICE) == TWICE && DecodeURIComponent(TWICE).None?
  {
    hide DecodeURIComponent, EscapesText, PlusToSpace;
    NoPlus(TWICE);
    TwiceText();
    PointRead(0x25, FIRST, TWICE[3..]);
    PointRead(0x34, SECOND, TWICE[6..]);
    assert TWICE == TWICE[..3] + TWICE[3..] && TWICE[3..] == TWICE[3..6] + TWICE[6..] && TWICE[6..] == [0x31] + [0x25];
    DecodePlain(0x31, [0x25]);
    NoEscape([0x25]);
  }

  lemma TwiceStarts()
    ensures DecodeRuns(TWICE, 4) == TWICE && DecodeRuns(TWICE, 3) == TWICE
  {
    LongRuns(TWICE, 4);
    LongRuns(TWICE, 3);
  }

  lemma {:induction false} LongRuns(s: seq<int>, level: nat)
    requires |s| < 3 * level
    ensures DecodeRuns(s, level) == s
  {
    if s != [] { LongRuns(s[1..], level); }
  }

  lemma TwiceEnds()
    ensures DecodeRuns(DecodeRuns(TWICE, 2), 1) == [0x41, 0x25]
  {
    SecondPass();
    hide DecodeRuns;
    ThirdPass();
  }

  lemma SecondPass()
    ensures DecodeRuns(TWICE, 2) == [0x25, 0x34, 0x31, 0x25]
  {
    hide EscapesText, EscapeText;
    TwiceText();
    assert EscapesText(FIRST + SECOND) == TWICE[..6] by { BothTexts(); }
    EscapesRead(FIRST + SECOND, TWICE[6..]);
    assert TWICE == TWICE[..6] + TWICE[6..];
    LongRuns(TWICE[6..], 2);
    FirstTwo();
    assert EscapedOctets(TWICE, 2).Some? && PercentDecode(TWICE[..3 * 2]) == [0x25, 0x34];
    assert DecodeRuns(TWICE, 2) == [0x25, 0x34] + DecodeRuns(TWICE[3 * 2..], 2);
    assert [0x25, 0x34] + TWICE[6..] == [0x25, 0x34, 0x31, 0x25];
  }

  lemma BothTexts()
    ensures AreEscapes(FIRST + SECOND) && EscapesText(FIRST + SECOND) == TWICE[..6]
  {
    TwiceText();
    hide EscapeText;
    assert (FIRST + SECOND)[0] == FIRST[0] && (FIRST + SECOND)[1..] == SECOND && FIRST[1..] == [];
  }

  lemma FirstTwo()
    ensures DecodeURIComponent(TWICE[..6]) == Some([0x25, 0x34])
  {
    hide DecodeURIComponent, EscapesText;
    TwiceText();
    PointRead(0x25, FIRST, TWICE[3..6]);
    PointRead(0x34, SECOND, []);
    NothingDecoded();
    assert TWICE[..6] == TWICE[..3] + TWICE[3..6] && TWICE[3..6] == TWICE[3..6] + [];
    assert [0x34] + [] == [0x34] && [0x25] + [0x34] == [0x25, 0x34];
  }

  lemma ThirdPass()
    ensures DecodeRuns([0x25, 0x34, 0x31, 0x25], 1) == [0x41, 0x25]
  {
    var es := [Escaped(Digit(4, false), Digit(1, false))];
    assert EscapesText(es) == [0x25, 0x34, 0x31] by { assert es[1..] == []; }
    assert IsBit(Point(0x41, es)) && Units(0x41) == [0x41];
    hide DecodeRuns, EscapesText;
    PointTurns(0x41, es, [0x25]);
    LongRuns([0x25], 1);
    assert [0x25, 0x34, 0x31, 0x25] == [0x25, 0x34, 0x31] + [0x25];
  }

  // ---------- What the printer writes ----------

  /** Letters, digits and "*", "-", ".", "_" stay, a space becomes "+", and anything else its octets, in capital digits. */
  function Printing(cp: int): Bit
    requires IsScalar(cp)
  {
    if cp == ' ' as int then Blank
    else if StaysPrinted(cp) then Kept(cp)
    else Point(cp, Capitals(Octets(cp)))
  }

  predicate StaysPrinted(c: int) {
    || 'a' as int <= c <= 'z' as int || 'A' as int <= c <= 'Z' as int || '0' as int <= c <= '9' as int
    || c in {'*' as int, '-' as int, '.' as int, '_' as int}
  }

  function Capitals(os: seq<int>): (es: seq<Escaped>)
    requires forall i :: 0 <= i < |os| ==> IsOctet(os[i])
  {
    seq(|os|, i requires 0 <= i < |os| => assert IsOctet(os[i]); Escaped(Digit(os[i] / 16, true), Digit(os[i] % 16, true)))
  }

  function Printings(cps: seq<int>): seq<Bit>
    requires AllScalar(cps)
  {
    if cps == [] then [] else [Printing(cps[0])] + Printings(cps[1..])
  }

  lemma CapitalDigit(d: nat)
    requires d < 16
    ensures Written(Digit(d, true)) == HexUpper(d)
  {
  }

  lemma {:induction false} CapitalsText(os: seq<int>)
    requires forall i :: 0 <= i < |os| ==> IsOctet(os[i])
    ensures AreEscapes(Capitals(os)) && Values(Capitals(os)) == os && EscapesText(Capitals(os)) == EscapeAll(os)
  {
    hide Written, HexUpper;
    if os != [] {
      CapitalsText(os[1..]);
      CapitalDigit(os[0] / 16);
      CapitalDigit(os[0] % 16);
      assert Capitals(os)[1..] == Capitals(os[1..]);
      assert EscapeText(Capitals(os)[0]) == Escape(os[0]);
    }
  }

  lemma PrintingText(cp: int)
    requires IsScalar(cp)
    ensures IsBit(Printing(cp)) && BitText(Printing(cp)) == FormCodePoint(cp)
  {
    hide Octets, EscapesText, EscapeAll;
    CapitalsText(Octets(cp));
  }

  lemma {:induction false} PrintingsText(cps: seq<int>)
    requires AllScalar(cps)
    ensures AreBits(Printings(cps)) && Text(Printings(cps)) == FormCodePoints(cps)
  {
    hide Printing, FormCodePoint, IsBit;
    if cps != [] {
      PrintingsText(cps[1..]);
      PrintingText(cps[0]);
      assert Printings(cps)[1..] == Printings(cps[1..]);
    }
  }

  /** A key or value is printed code point by code point. */
  lemma PrintedExactly(s: seq<int>)
    requires Uri.WellFormed(s)
    ensures AreBits(Printings(CodePoints(s))) && SerializeText(s) == Success(Text(Printings(CodePoints(s))))
  {
    hide Replace, EncodeCodePoints, CodePoints, Text, FormCodePoints, Printings;
    SerializedForm(CodePoints(s));
    PrintingsText(CodePoints(s));
  }
}
