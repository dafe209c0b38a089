/**
 Hosts in js/secsdk-lastest.umd.js: domains with their labels in Punycode (section 3.3 of the WHATWG URL
 Standard), and what the host parser reads a text as (section 3.5).  Text is a sequence of code points.
 */
module UrlHost {
  import opened Wrappers
  import opened UrlRecord
  import Delimited
  import Ip = IpAddress
  import Puny = Punycode
  import Uri

  const ACE: seq<int> := [0x78, 0x6E, 0x2D, 0x2D]

  const FORBIDDEN: set<int> :=
    {0x00, 0x09, 0x0A, 0x0D, 0x20, 0x23, 0x25, 0x2F, 0x3A, 0x3C, 0x3E, 0x3F, 0x40, 0x5B, 0x5C, 0x5D, 0x5E, 0x7C}

  /** The source's test for ASCII, which stops at "~". */
  predicate IsPlainLabel(name: seq<int>) { forall j :: 0 <= j < |name| ==> name[j] <= 0x7E }

  // ---------- toLowerCase ----------

  /** String.prototype.toLowerCase gives text. */
  ghost predicate LowersText(lower: seq<int> -> seq<int>) {
    forall s: seq<int> :: CodePointsOnly(s) ==> CodePointsOnly(lower(s))
  }

  predicate HasNoCapital(s: seq<int>) { forall i :: 0 <= i < |s| ==> !(0x41 <= s[i] <= 0x5A) }

  predicate AsciiText(s: seq<int>) { forall i :: 0 <= i < |s| ==> 0 <= s[i] <= 0x7F }

  /** What holds of toLowerCase besides: it is the simple mapping on ASCII text, leaves no capital and never gives nothing. */
  ghost predicate IsLowering(lower: seq<int> -> seq<int>) {
    && LowersText(lower)
    && forall s: seq<int> ::
         && (AsciiText(s) ==> lower(s) == LowerText(s))
         && HasNoCapital(lower(s))
         && (s != [] ==> lower(s) != [])
  }

  /** "." and the three other label separators of RFC 3490 all become ".". */
  function Dotted(s: seq<int>): seq<int> {
    seq(|s|, i requires 0 <= i < |s| => if s[i] in {0x3002, 0xFF0E, 0xFF61} then DOT else s[i])
  }

  // ---------- Domains ----------

  /** A label beyond "~" is written "xn--" and its Punycode form; None where that overflows. */
  function LabelText(piece: seq<int>): Option<seq<int>> {
    if IsPlainLabel(piece) then Some(piece) else Prepend(ACE, Puny.EncodedText(Puny.CodePoints(Puny.Utf16(piece))))
  }

  function LabelTexts(pieces: seq<seq<int>>): (r: Option<seq<seq<int>>>)
    ensures r.Some? ==> |r.value| == |pieces|
  {
    if pieces == [] then Some([])
    else
      match (LabelText(pieces[0]), LabelTexts(pieces[1..]))
      case (Some(a), Some(b)) => Some([a] + b)
      case _ => None
  }

  function DomainText(text: seq<int>): Option<seq<int>> {
    match LabelTexts(Delimited.Split(text, DOT))
    case None => None
    case Some(labels) => Some(Delimited.Join(labels, DOT))
  }

  /** The part of a label behind "xn--" decodes to the label (section 6.2 of RFC 3492). */
  lemma LabelDecodes(piece: seq<int>)
    requires !IsPlainLabel(piece) && LabelText(piece).Some?
    ensures ACE <= LabelText(piece).value
    ensures Puny.Decode(LabelText(piece).value[4..]) == Some(Puny.CodePoints(Puny.Utf16(piece)))
  {
    hide Puny.Decode, Puny.CodePoints, Puny.Utf16, Puny.EncodedText;
    var cps := Puny.CodePoints(Puny.Utf16(piece));
    Puny.EncodedTextDecodes(cps);
    assert (ACE + Puny.EncodedText(cps).value)[4..] == Puny.EncodedText(cps).value;
  }

  lemma {:induction false} PlainLabels(pieces: seq<seq<int>>)
    requires forall i :: 0 <= i < |pieces| ==> IsPlainLabel(pieces[i])
    ensures LabelTexts(pieces) == Some(pieces)
  {
    hide IsPlainLabel;
    if pieces != [] {
      PlainLabels(pieces[1..]);
      assert [pieces[0]] + pieces[1..] == pieces;
    }
  }

  /** A domain that needs no Punycode stays as it is. */
  lemma PlainDomain(text: seq<int>)
    requires IsPlainLabel(text)
    ensures DomainText(text) == Some(text)
  {
    hide Delimited.Split, Delimited.Join, LabelTexts;
    var pieces := Delimited.Split(text, DOT);
    Delimited.JoinSplit(text, DOT);
    forall i | 0 <= i < |pieces| ensures IsPlainLabel(pieces[i]) {
      forall j | 0 <= j < |pieces[i]| ensures pieces[i][j] <= 0x7E {
        Delimited.SplitElements(text, DOT, i, pieces[i][j]);
      }
    }
    PlainLabels(pieces);
  }

  method DomainToAscii(input: seq<int>, lower: seq<int> -> seq<int>) returns (r: Result<seq<int>>)
    requires CodePointsOnly(input) && LowersText(lower)
    ensures r == match DomainText(Dotted(lower(input))) { case Some(d) => Success(d) case None => Throws(Puny.OVERFLOW_ERROR) }
  {
    hide Puny.Decode, Puny.CodePoints, Puny.Utf16, Puny.EncodedText, Delimited.Split, Delimited.Join;
    var text := Dotted(lower(input));
    var pieces := Delimited.Split(text, DOT);
    assert CodePointsOnly(text);
    var encoded: seq<seq<int>> := [];
    assert pieces[0..] == pieces;
    NothingBehind(LabelTexts(pieces));
    for i := 0 to |pieces|
      invariant LabelTexts(pieces) == Behind(encoded, LabelTexts(pieces[i..]))
    {
      var piece := pieces[i];
      forall c | c in piece ensures c in text { Delimited.SplitElements(text, DOT, i, c); }
      TextWithin(piece, text);
      LabelsStep(pieces, i, encoded);
      if exists j :: 0 <= j < |piece| && piece[j] > 0x7E {
        Utf16Units(piece);
        var e := Puny.Encode(Puny.Utf16(piece));
        if e.Throws? { return e; }
        encoded := encoded + [ACE + e.value];
      } else {
        encoded := encoded + [piece];
      }
    }
    assert encoded + [] == encoded;
    return Success(Delimited.Join(encoded, DOT));
  }

  function Behind(done: seq<seq<int>>, more: Option<seq<seq<int>>>): Option<seq<seq<int>>> {
    match more
    case None => None
    case Some(labels) => Some(done + labels)
  }

  lemma NothingBehind(more: Option<seq<seq<int>>>)
    ensures Behind([], more) == more
  {
    if more.Some? { assert [] + more.value == more.value; }
  }

  lemma LabelsStep(pieces: seq<seq<int>>, i: nat, done: seq<seq<int>>)
    requires i < |pieces|
    ensures Behind(done, LabelTexts(pieces[i..])) ==
            match LabelText(pieces[i]) { case None => None case Some(a) => Behind(done + [a], LabelTexts(pieces[i + 1..])) }
  {
    hide LabelText;
    assert pieces[i..][1..] == pieces[i + 1..];
    match (LabelText(pieces[i]), LabelTexts(pieces[i + 1..])) {
      case (Some(a), Some(b)) => assert done + ([a] + b) == done + [a] + b;
      case _ =>
    }
  }

  lemma {:induction false} Utf16Units(cps: seq<int>)
    requires CodePointsOnly(cps)
    ensures Puny.IsUtf16(Puny.Utf16(cps))
  {
    if cps != [] {
      Utf16Units(cps[1..]);
      assert Puny.IsUtf16(Puny.Units(cps[0]));
    }
  }

  // ---------- What the host parser reads ----------

  /** What the host parser makes of a text: a host, a refusal, or an exception below it. */
  datatype Reading = Read(host: Host) | Refused | LoneInHost | Overflows

  function HostOfAddress(address: Ip.IPv4Result, domain: seq<int>): Host {
    match address
    case Address(n) => IPv4(n)
    case NotIPv4 => Text(domain)
    case _ => UndefinedHost
  }

  predicate HoldsForbidden(s: seq<int>, chars: set<int>) { exists i :: 0 <= i < |s| && s[i] in chars }

  function DomainReading(domain: seq<int>): Reading {
    if HoldsForbidden(domain, FORBIDDEN) || Ip.ParsedIPv4(domain) == Ip.Failure then Refused
    else Read(HostOfAddress(Ip.ParsedIPv4(domain), domain))
  }

  function BracketReading(text: seq<int>): Reading
    requires text != []
  {
    if |text| == 1 || text[|text| - 1] != CLOSE_BRACKET then Refused
    else
      match Ip.ParsedIPv6(text[1..|text| - 1])
      case None => Refused
      case Some(pieces) => Read(IPv6(pieces))
  }

  function OpaqueReading(text: seq<int>): Reading {
    if HoldsForbidden(text, FORBIDDEN - {0x25}) then Refused
    else
      match Encodes(text, C0_SET)
      case None => LoneInHost
      case Some(s) => Read(Text(s))
  }

  function HostReading(text: seq<int>, special: bool, lower: seq<int> -> seq<int>): Reading {
    if text != [] && text[0] == OPEN_BRACKET then BracketReading(text)
    else if !special then OpaqueReading(text)
    else
      match DomainText(Dotted(lower(text)))
      case None => Overflows
      case Some(domain) => DomainReading(domain)
  }

  method EncodeAll(input: seq<int>) returns (r: Option<seq<int>>)
    ensures r == Encodes(input, C0_SET)
  {
    hide Encodes, PercentEncode;
    var result: seq<int> := [];
    NothingEncodes(C0_SET);
    assert input[..0] == [];
    for i := 0 to |input|
      invariant Encodes(input[..i], C0_SET) == Some(result)
    {
      EncodesStep(input, C0_SET, i);
      var encoded := PercentEncode(input[i], C0_SET);
      if encoded.None? {
        NoneStays(input, C0_SET, i + 1);
        return None;
      }
      result := result + encoded.value;
    }
    assert input[..|input|] == input;
    return Some(result);
  }
}
