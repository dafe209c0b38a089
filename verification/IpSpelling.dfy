/**
 Which texts the host parsers of js/secsdk-lastest.umd.js take for an address, and for which: IPv4 numbers of one to four
 parts in any of three radices (section 3.5 of the WHATWG URL Standard), IPv6 addresses in the three forms of section 2.2
 of RFC 4291.
 */
module IpSpelling {
  import opened Wrappers
  import opened Delimited
  import opened IpAddress

  // ---------- Numerals, read from the left ----------

  function Digit(c: int): Option<nat> {
    if '0' as int <= c <= '9' as int then Some(c - '0' as int)
    else if 'a' as int <= c <= 'f' as int then Some(c - 'a' as int + 10)
    else if 'A' as int <= c <= 'F' as int then Some(c - 'A' as int + 10)
    else None
  }

  function Read(digits: seq<int>, radix: nat, acc: nat): Option<nat> {
    if digits == [] then Some(acc)
    else
      match Digit(digits[0])
      case None => None
      case Some(d) => if d < radix then Read(digits[1..], radix, acc * radix + d) else None
  }

  lemma {:induction false} ReadLast(digits: seq<int>, c: int, radix: nat, acc: nat)
    ensures Read(digits + [c], radix, acc) ==
            match (Read(digits, radix, acc), Digit(c)) {
              case (Some(v), Some(d)) => if d < radix then Some(v * radix + d) else None
              case _ => None
            }
  {
    if digits == [] {
      assert digits + [c] == [c] && [c][1..] == [];
    } else {
      assert (digits + [c])[1..] == digits[1..] + [c];
      match Digit(digits[0])
      case None =>
      case Some(d) => if d < radix { ReadLast(digits[1..], c, radix, acc * radix + d); }
    }
  }

  lemma {:induction false} ReadValue(digits: seq<int>, radix: nat)
    requires radix in {8, 10, 16}
    ensures Read(digits, radix, 0) ==
            if forall j :: 0 <= j < |digits| ==> IsDigitOf(digits[j], radix) then Some(Value(digits, radix)) else None
  {
    if digits != [] {
      var front, c := digits[..|digits| - 1], digits[|digits| - 1];
      ReadValue(front, radix);
      ReadLast(front, c, radix, 0);
      assert digits == front + [c];
      DigitOf(c, radix);
      if forall j :: 0 <= j < |front| ==> IsDigitOf(front[j], radix) {
        if IsDigitOf(c, radix) {
        } else {
          assert digits[|digits| - 1] == c;
        }
      } else {
        var j :| 0 <= j < |front| && !IsDigitOf(front[j], radix);
        assert digits[j] == front[j];
      }
    }
  }

  lemma DigitOf(c: int, radix: nat)
    requires radix in {8, 10, 16}
    ensures IsDigitOf(c, radix) <==> Digit(c).Some? && Digit(c).value < radix
    ensures IsDigitOf(c, radix) ==> DigitValue(c) == Digit(c).value
  {
  }

  // ---------- IPv4 ----------

  /** "0x" or "0X" starts a hexadecimal number, "0" before anything else an octal one; no digits behind them mean 0. */
  function PartMeans(part: seq<int>): Option<nat> {
    if part == [] then None
    else if |part| >= 2 && part[0] == '0' as int && (part[1] == 'x' as int || part[1] == 'X' as int) then Read(part[2..], 16, 0)
    else if |part| >= 2 && part[0] == '0' as int then Read(part[1..], 8, 0)
    else Read(part, 10, 0)
  }

  lemma PartExactly(part: seq<int>)
    ensures PartNumber(part) == PartMeans(part)
  {
    if |part| >= 2 { ReadValue(part[2..], 16); }
    if |part| >= 1 { ReadValue(part[1..], 8); }
    ReadValue(part, 10);
  }

  predicate AllNumbers(parts: seq<seq<int>>) { forall j :: 0 <= j < |parts| ==> PartMeans(parts[j]).Some? }

  /** The parts before the last are bytes from the left, and the last one fills the bytes that are left. */
  function FromParts(ns: seq<nat>): IPv4Result
    requires 1 <= |ns| <= 4
  {
    if |ns| == 1 then if ns[0] < 0x1_0000_0000 then Address(ns[0]) else Failure
    else if |ns| == 2 then
      if ns[0] < 256 && ns[1] < 0x100_0000 then Address(ns[0] * 0x100_0000 + ns[1]) else Failure
    else if |ns| == 3 then
      if ns[0] < 256 && ns[1] < 256 && ns[2] < 0x1_0000 then Address(ns[0] * 0x100_0000 + ns[1] * 0x1_0000 + ns[2]) else Failure
    else
      if ns[0] < 256 && ns[1] < 256 && ns[2] < 256 && ns[3] < 256
      then Address(ns[0] * 0x100_0000 + ns[1] * 0x1_0000 + ns[2] * 0x100 + ns[3])
      else Failure
  }

  function MeantBy(parts: seq<seq<int>>): seq<nat>
    requires AllNumbers(parts)
  {
    seq(|parts|, j requires 0 <= j < |parts| => PartMeans(parts[j]).value)
  }

  /**
   A text of dotted parts, with or without a dot at its end, is no IPv4 address when it has more than four parts or one
   of them is no number; otherwise it is the address those numbers make, or refused.
   */
  lemma IPv4Exactly(parts: seq<seq<int>>, dot: bool)
    requires parts != [] && forall j :: 0 <= j < |parts| ==> '.' as int !in parts[j]
    requires !dot ==> parts[|parts| - 1] != []
    ensures ParsedIPv4(Join(parts, '.' as int) + if dot then ['.' as int] else []) ==
            if |parts| > 4 || !AllNumbers(parts) then NotIPv4 else FromParts(MeantBy(parts))
  {
    hide PartNumber, PartMeans, InRange, Weighted, FromParts, Numbers, IPv4Parts, Join, AllNumbers, MeantBy;
    PartsOf(parts, dot);
    if |parts| <= 4 {
      NumbersMeant(parts);
      if AllNumbers(parts) { Combined(MeantBy(parts)); }
    }
  }

  lemma PartsOf(parts: seq<seq<int>>, dot: bool)
    requires parts != [] && forall j :: 0 <= j < |parts| ==> DOT !in parts[j]
    requires !dot ==> parts[|parts| - 1] != []
    ensures IPv4Parts(Join(parts, DOT) + if dot then [DOT] else []) == parts
  {
    hide Split, Join;
    if dot {
      TrailingDot(parts);
      assert (parts + [[]])[..|parts|] == parts;
    } else {
      SplitJoin(parts, DOT);
      assert Join(parts, DOT) + [] == Join(parts, DOT);
    }
  }

  lemma TrailingDot(parts: seq<seq<int>>)
    requires parts != [] && forall j :: 0 <= j < |parts| ==> DOT !in parts[j]
    ensures Split(Join(parts, DOT) + [DOT], DOT) == parts + [[]]
  {
    hide Split, Join;
    JoinAppend(parts, DOT, []);
    assert Join(parts, DOT) + [DOT] + [] == Join(parts, DOT) + [DOT];
    SplitJoin(parts + [[]], DOT);
  }

  lemma {:induction false} NumbersMeant(parts: seq<seq<int>>)
    ensures Numbers(parts) == if AllNumbers(parts) then Some(MeantBy(parts)) else None
  {
    hide PartNumber, PartMeans;
    if parts != [] {
      var front, last := parts[..|parts| - 1], parts[|parts| - 1];
      NumbersMeant(front);
      PartExactly(last);
      if AllNumbers(parts) {
        assert forall j :: 0 <= j < |front| ==> front[j] == parts[j];
        assert MeantBy(parts) == MeantBy(front) + [PartMeans(last).value];
      } else if AllNumbers(front) {
        assert forall j :: 0 <= j < |front| ==> front[j] == parts[j];
      }
    }
  }

  lemma Combined(ns: seq<nat>)
    requires 1 <= |ns| <= 4
    ensures FromParts(ns) ==
            if !InRange(ns) then Failure else Address(ns[|ns| - 1] + Weighted(ns[..|ns| - 1]))
  {
    hide Weighted;
    NoWeight();
    var front := ns[..|ns| - 1];
    if |front| >= 1 { WeightedStep(front, 0); }
    if |front| >= 2 { WeightedStep(front, 1); }
    if |front| >= 3 { WeightedStep(front, 2); }
    assert front[..0] == [] && front[..|front|] == front;
  }

  /** No text is taken for the number zero: the empty one has no number at all. */
  lemma NoParts()
    ensures ParsedIPv4([]) == Undefined
  {
  }

  // ---------- IPv6 ----------

  /** One to four hexadecimal digits. */
  predicate Group(t: seq<int>) { 1 <= |t| <= 4 && Read(t, 16, 0).Some? }

  /** A decimal number up to 255 without a leading zero. */
  predicate Byte(t: seq<int>) {
    t != [] && (|t| > 1 ==> t[0] != '0' as int) && Read(t, 10, 0).Some? && Read(t, 10, 0).value <= 255
  }

  function GroupValue(t: seq<int>): nat
    requires Group(t)
  {
    Read(t, 16, 0).value
  }

  function ByteValue(t: seq<int>): nat
    requires Byte(t)
  {
    Read(t, 10, 0).value
  }

  /** Groups, and perhaps an IPv4 address at the end. */
  datatype Half = Half(groups: seq<seq<int>>, quad: seq<seq<int>>)

  predicate Proper(h: Half) {
    && (forall j :: 0 <= j < |h.groups| ==> Group(h.groups[j]))
    && (h.quad == [] || |h.quad| == 4)
    && forall j :: 0 <= j < |h.quad| ==> Byte(h.quad[j])
  }

  function HalfText(h: Half): seq<int> {
    Join(h.groups + if h.quad == [] then [] else [Join(h.quad, '.' as int)], ':' as int)
  }

  function GroupValues(groups: seq<seq<int>>): seq<int>
    requires forall j :: 0 <= j < |groups| ==> Group(groups[j])
  {
    if groups == [] then [] else [GroupValue(groups[0])] + GroupValues(groups[1..])
  }

  function QuadValues(quad: seq<seq<int>>): seq<int>
    requires |quad| == 4 && forall j :: 0 <= j < 4 ==> Byte(quad[j])
  {
    [ByteValue(quad[0]) * 256 + ByteValue(quad[1]),
     ByteValue(quad[2]) * 256 + ByteValue(quad[3])]
  }

  function HalfValues(h: Half): seq<int>
    requires Proper(h)
  {
    GroupValues(h.groups) + if h.quad == [] then [] else QuadValues(h.quad)
  }

  /** Eight pieces written out. */
  ghost predicate WrittenOut(text: seq<int>, address: seq<int>) {
    exists h :: Proper(h) && text == HalfText(h) && address == HalfValues(h) && |address| == 8
  }

  /** "::" stands for one or more zeros. */
  ghost predicate WrittenShort(text: seq<int>, address: seq<int>) {
    exists groups, h ::
      && (forall j :: 0 <= j < |groups| ==> Group(groups[j])) && Proper(h)
      && text == Join(groups, ':' as int) + [':' as int, ':' as int] + HalfText(h)
      && Shortened(GroupValues(groups), HalfValues(h), address)
  }

  predicate Shortened(front: seq<int>, back: seq<int>, address: seq<int>) {
    && |address| == 8 && |front| + |back| <= 7
    && front <= address && address[8 - |back|..] == back
    && forall j :: |front| <= j < 8 - |back| ==> address[j] == 0
  }

  /** Groups, each with the colon behind it. */
  function Front(groups: seq<seq<int>>): seq<int> {
    if groups == [] then [] else groups[0] + [COLON] + Front(groups[1..])
  }

  lemma {:induction false} FrontJoin(groups: seq<seq<int>>)
    requires groups != []
    ensures Front(groups) == Join(groups, COLON) + [COLON]
  {
    if |groups| > 1 {
      FrontJoin(groups[1..]);
    } else {
      assert Front(groups[1..]) == [];
    }
  }

  lemma {:induction false} GroupCount(groups: seq<seq<int>>)
    requires forall j :: 0 <= j < |groups| ==> Group(groups[j])
    ensures |GroupValues(groups)| == |groups|
  {
    if groups != [] { GroupCount(groups[1..]); }
  }

  lemma GroupDigits(t: seq<int>)
    requires Group(t)
    ensures (forall j :: 0 <= j < |t| ==> IsHex(t[j])) && Value(t, 16) == GroupValue(t)
  {
    ReadValue(t, 16);
    if !(forall j :: 0 <= j < |t| ==> IsDigitOf(t[j], 16)) { assert false; }
    forall j | 0 <= j < |t| ensures IsHex(t[j]) { assert IsDigitOf(t[j], 16); }
  }

  lemma GroupRead(t: seq<int>, rest: seq<int>, a: seq<int>, p: nat, compress: Option<nat>)
    requires Group(t) && |a| == 8 && p < 8 && (compress.Some? ==> compress.value <= p)
    requires rest == [] || (rest[0] == COLON && |rest| > 1)
    ensures ParseRest(t + rest, a, p, compress)
         == if rest == [] then Finish(a[p := GroupValue(t)], p + 1, compress)
            else ParseRest(rest[1..], a[p := GroupValue(t)], p + 1, compress)
  {
    GroupDigits(t);
    HexRunExact(t, rest, 4);
    var s := t + rest;
    assert s[..|t|] == t && s[|t|..] == rest;
    assert IsHex(s[0]);
  }

  // ---------- The dotted tail ----------

  lemma {:induction false} MoreDigits(t: seq<int>, acc: nat)
    requires Read(t, 10, acc).Some?
    ensures Read(t, 10, acc).value >= acc && (acc > 0 ==> Read(t, 10, acc).value >= acc + 9 * |t|)
  {
    if t != [] { MoreDigits(t[1..], acc * 10 + Digit(t[0]).value); }
  }

  lemma {:induction false} OctetGoesOn(t: seq<int>, rest: seq<int>, acc: nat)
    requires acc <= 255 && (t == [] || acc > 0)
    requires Read(t, 10, acc).Some? && Read(t, 10, acc).value <= 255
    requires rest == [] || !IsDigit(rest[0])
    ensures Octet(t + rest, Some(acc)) == Some((Read(t, 10, acc).value, rest))
  {
    if t == [] {
      assert t + rest == rest;
    } else {
      var v := acc * 10 + Digit(t[0]).value;
      MoreDigits(t[1..], v);
      OctetGoesOn(t[1..], rest, v);
      assert (t + rest)[1..] == t[1..] + rest;
    }
  }

  lemma OctetRead(t: seq<int>, rest: seq<int>)
    requires Byte(t) && (rest == [] || !IsDigit(rest[0]))
    ensures Octet(t + rest, None) == Some((ByteValue(t), rest))
  {
    assert (t + rest)[1..] == t[1..] + rest;
    var v := Digit(t[0]).value;
    MoreDigits(t[1..], v);
    OctetGoesOn(t[1..], rest, v);
  }

  lemma {:induction false} OctetWent(s: seq<int>, acc: nat) returns (t: seq<int>)
    requires acc <= 255 && Octet(s, Some(acc)).Some?
    ensures s == t + Octet(s, Some(acc)).value.1 && (t != [] ==> acc > 0)
    ensures Read(t, 10, acc) == Some(Octet(s, Some(acc)).value.0)
    decreases |s|
  {
    if s != [] && IsDigit(s[0]) {
      var u := OctetWent(s[1..], acc * 10 + DigitValue(s[0]));
      t := [s[0]] + u;
      assert t[1..] == u;
    } else {
      t := [];
    }
  }

  lemma OctetFound(s: seq<int>) returns (t: seq<int>)
    requires Octet(s, None).Some?
    ensures s == t + Octet(s, None).value.1
    ensures Byte(t) && Read(t, 10, 0) == Some(Octet(s, None).value.0)
  {
    var u := OctetWent(s[1..], DigitValue(s[0]));
    t := [s[0]] + u;
    assert t[1..] == u;
  }

  function QuadText(quad: seq<seq<int>>): seq<int>
    requires |quad| == 4
  {
    quad[0] + ([DOT] + quad[1] + ([DOT] + quad[2] + ([DOT] + quad[3] + [])))
  }

  lemma QuadJoin(quad: seq<seq<int>>)
    requires |quad| == 4
    ensures Join(quad, DOT) == QuadText(quad)
  {
    var q1, q2, q3 := quad[1..], quad[1..][1..], quad[1..][1..][1..];
    assert q1[0] == quad[1] && q2[0] == quad[2] && q3 == [quad[3]];
    assert Join(q2, DOT) == quad[2] + [DOT] + quad[3];
    assert Join(q1, DOT) == quad[1] + [DOT] + Join(q2, DOT);
  }

  lemma TailStep(t: seq<int>, rest: seq<int>, a: seq<int>, p: nat, seen: nat)
    requires |a| == 8 && seen < 4 && p <= 6 + seen / 2
    requires Byte(t) && (rest == [] || rest[0] == DOT)
    ensures DottedTail((if seen > 0 then [DOT] else []) + t + rest, a, p, seen) ==
            DottedTail(rest, a[p := a[p] * 256 + ByteValue(t)], if seen == 1 || seen == 3 then p + 1 else p, seen + 1)
  {
    hide Octet, Read;
    var s := (if seen > 0 then [DOT] else []) + t + rest;
    assert (if seen > 0 then s[1..] else s) == t + rest;
    assert s != [] && (seen > 0 ==> s[0] == DOT);
    OctetRead(t, rest);
  }

  lemma QuadRead(quad: seq<seq<int>>, a: seq<int>, p: nat)
    requires |quad| == 4 && forall j :: 0 <= j < 4 ==> Byte(quad[j])
    requires |a| == 8 && p <= 6 && a[p] == 0 && a[p + 1] == 0
    ensures DottedTail(QuadText(quad), a, p, 0) == Some((Place(a, p, QuadValues(quad)), p + 2))
  {
    hide Byte, Read, DottedTail;
    var v0, v1, v2, v3 :=
      ByteValue(quad[0]), ByteValue(quad[1]), ByteValue(quad[2]), ByteValue(quad[3]);
    var r2 := [DOT] + quad[3] + [];
    var r1 := [DOT] + quad[2] + r2;
    var r0 := [DOT] + quad[1] + r1;
    assert [] + quad[0] + r0 == QuadText(quad);
    var a0 := a[p := v0];
    var a1 := a0[p := v0 * 256 + v1];
    var a2 := a1[p + 1 := v2];
    var a3 := a2[p + 1 := v2 * 256 + v3];
    TailStep(quad[0], r0, a, p, 0);
    TailStep(quad[1], r1, a0, p, 1);
    TailStep(quad[2], r2, a1, p + 1, 2);
    TailStep(quad[3], [], a2, p + 1, 3);
    TailDone(a3, p + 2);
    assert a3 == Place(a, p, [v0 * 256 + v1, v2 * 256 + v3]);
  }

  lemma TailDone(a: seq<int>, p: nat)
    requires |a| == 8 && p <= 8
    ensures DottedTail([], a, p, 4) == Some((a, p))
  {
  }

  lemma TailStepped(s: seq<int>, a: seq<int>, p: nat, seen: nat)
    returns (t: seq<int>, rest: seq<int>, a': seq<int>, p': nat)
    requires |a| == 8 && seen < 4 && p <= 6 + seen / 2
    requires DottedTail(s, a, p, seen).Some?
    ensures Byte(t) && s == (if seen > 0 then [DOT] else []) + t + rest
    ensures |a'| == 8 && p' <= 6 + (seen + 1) / 2 && DottedTail(rest, a', p', seen + 1).Some?
  {
    hide Octet, Read, Byte;
    var u := if seen > 0 then s[1..] else s;
    t := OctetFound(u);
    var (v, r) := Octet(u, None).value;
    rest, a', p' := r, a[p := a[p] * 256 + v], if seen == 1 || seen == 3 then p + 1 else p;
    assert s == (if seen > 0 then [DOT] else []) + u;
  }

  lemma QuadFound(s: seq<int>, a: seq<int>, p: nat) returns (quad: seq<seq<int>>)
    requires |a| == 8 && p <= 6 && DottedTail(s, a, p, 0).Some?
    ensures |quad| == 4 && (forall j :: 0 <= j < 4 ==> Byte(quad[j])) && s == QuadText(quad)
  {
    hide Byte, DottedTail;
    var t0, r0, a0, p0 := TailStepped(s, a, p, 0);
    var t1, r1, a1, p1 := TailStepped(r0, a0, p0, 1);
    var t2, r2, a2, p2 := TailStepped(r1, a1, p1, 2);
    var t3, r3, a3, p3 := TailStepped(r2, a2, p2, 3);
    TailEnds(r3, a3, p3);
    quad := [t0, t1, t2, t3];
    assert [] + t0 + r0 == t0 + r0;
  }

  lemma TailEnds(s: seq<int>, a: seq<int>, p: nat)
    requires |a| == 8 && p <= 8 && DottedTail(s, a, p, 4).Some?
    ensures s == []
  {
  }

  // ---------- One half ----------

  predicate ZerosFrom(a: seq<int>, p: nat) { |a| == 8 && forall j :: p <= j < 8 ==> a[j] == 0 }

  /** The digits that start a quad end before its first dot. */
  lemma QuadStarts(quad: seq<seq<int>>)
    requires |quad| == 4 && forall j :: 0 <= j < 4 ==> Byte(quad[j])
    ensures var s := QuadText(quad);
      s != [] && s[0] != COLON && HexRun(s, 4) == |quad[0]| > 0 && |s| > |quad[0]| && s[|quad[0]|] == DOT
  {
    hide Read;
    ByteDigits(quad[0]);
    HexRunExact(quad[0], QuadText(quad)[|quad[0]|..], 4);
    assert QuadText(quad) == quad[0] + QuadText(quad)[|quad[0]|..];
    assert QuadText(quad)[0] == quad[0][0];
  }

  lemma ByteDigits(t: seq<int>)
    requires Byte(t)
    ensures |t| <= 4 && forall j :: 0 <= j < |t| ==> IsHex(t[j])
  {
    ReadValue(t, 10);
    if !(forall j :: 0 <= j < |t| ==> IsDigitOf(t[j], 10)) { assert false; }
    forall j | 0 <= j < |t| ensures IsHex(t[j]) { assert IsDigitOf(t[j], 10); }
    if |t| > 1 {
      var d0 := Digit(t[0]).value;
      assert Read(t, 10, 0) == Read(t[1..], 10, d0);
      assert d0 > 0 by { assert IsDigitOf(t[0], 10); }
      MoreDigits(t[1..], d0);
      assert |t[1..]| == |t| - 1;
      if |t| > 4 {
        assert Read(t[1..], 10, d0) == Read(t[1..][1..], 10, d0 * 10 + Digit(t[1..][0]).value);
        MoreDigits(t[1..][1..], d0 * 10 + Digit(t[1..][0]).value);
        assert Read(t[1..][1..], 10, d0 * 10 + Digit(t[1..][0]).value)
            == Read(t[1..][1..][1..], 10, (d0 * 10 + Digit(t[1..][0]).value) * 10 + Digit(t[1..][1..][0]).value);
        MoreDigits(t[1..][1..][1..], (d0 * 10 + Digit(t[1..][0]).value) * 10 + Digit(t[1..][1..][0]).value);
        MoreDigits(t[1..][1..][1..][1..],
                   ((d0 * 10 + Digit(t[1..][0]).value) * 10 + Digit(t[1..][1..][0]).value) * 10 + Digit(t[1..][1..][1..][0]).value);
      }
    }
  }

  lemma QuadParsed(quad: seq<seq<int>>, a: seq<int>, p: nat, compress: Option<nat>)
    requires |quad| == 4 && forall j :: 0 <= j < 4 ==> Byte(quad[j])
    requires ZerosFrom(a, p) && p <= 6 && (compress.Some? ==> compress.value <= p)
    ensures ParseRest(QuadText(quad), a, p, compress) == Finish(Place(a, p, QuadValues(quad)), p + 2, compress)
  {
    hide Byte, QuadText, DottedTail, QuadValues, Finish, Place;
    QuadStarts(quad);
    QuadRead(quad, a, p);
  }

  /** The text of a half with one group more in front. */
  lemma HalfFirst(h: Half)
    requires h.groups != []
    ensures var more := Half(h.groups[1..], h.quad);
      HalfText(h) == if more == Half([], []) then h.groups[0] else h.groups[0] + ([COLON] + HalfText(more))
  {
    hide Join;
    var quad := if h.quad == [] then [] else [Join(h.quad, DOT)];
    var all, rest := h.groups + quad, h.groups[1..] + quad;
    assert all[1..] == rest && all[0] == h.groups[0];
    JoinFirst(all, COLON);
  }

  lemma JoinFirst(parts: seq<seq<int>>, sep: int)
    requires parts != []
    ensures Join(parts, sep) == if |parts| == 1 then parts[0] else parts[0] + ([sep] + Join(parts[1..], sep))
  {
  }

  lemma HalfNonEmpty(h: Half)
    requires Proper(h) && h != Half([], [])
    ensures HalfText(h) != []
  {
    hide Join, Read;
    if h.groups != [] {
      HalfFirst(h);
    } else {
      QuadJoin(h.quad);
      QuadOnly(h.quad);
    }
  }

  lemma QuadOnly(quad: seq<seq<int>>)
    requires |quad| == 4
    ensures HalfText(Half([], quad)) == QuadText(quad)
  {
    hide Join;
    QuadJoin(quad);
    var one := [Join(quad, DOT)];
    assert [] + one == one;
    JoinFirst(one, COLON);
  }

  lemma HalfMore(h: Half)
    requires Proper(h) && h.groups != []
    ensures Proper(Half(h.groups[1..], h.quad))
    ensures HalfValues(h) == [GroupValue(h.groups[0])] + HalfValues(Half(h.groups[1..], h.quad))
  {
    hide Read, Byte, Group;
  }

  lemma {:induction false} HalfParsed(h: Half, a: seq<int>, p: nat, compress: Option<nat>)
    requires Proper(h) && ZerosFrom(a, p) && p + |HalfValues(h)| <= 8 && (compress.Some? ==> compress.value <= p)
    ensures ParseRest(HalfText(h), a, p, compress) == Finish(Place(a, p, HalfValues(h)), p + |HalfValues(h)|, compress)
    decreases |h.groups|
  {
    hide Read, Byte, ParseRest, Finish, HalfText, QuadText, QuadValues, Group;
    if h.groups == [] && h.quad == [] {
      NothingWritten();
      assert Place(a, p, []) == a;
      ParseEnd(a, p, compress);
    } else if h.groups == [] {
      QuadOnly(h.quad);
      assert h == Half([], h.quad) && HalfValues(h) == [] + QuadValues(h.quad) == QuadValues(h.quad);
      QuadLength(h.quad);
      QuadParsed(h.quad, a, p, compress);
    } else {
      HalfMore(h);
      GroupParsed(h, a, p, compress);
      var more, v := Half(h.groups[1..], h.quad), GroupValue(h.groups[0]);
      hide HalfValues, Proper, GroupValue, Place;
      if more == Half([], []) {
        NothingWritten();
        PlaceOne(a, p, v);
      } else {
        HalfParsed(more, a[p := v], p + 1, compress);
        PlaceMore(a, p, v, HalfValues(more));
      }
    }
  }

  lemma PlaceOne(a: seq<int>, p: nat, v: int)
    requires p < |a|
    ensures a[p := v] == Place(a, p, [v] + [])
  {
  }

  lemma PlaceMore(a: seq<int>, p: nat, v: int, more: seq<int>)
    requires p + 1 + |more| <= |a|
    ensures Place(a[p := v], p + 1, more) == Place(a, p, [v] + more)
  {
  }

  lemma GroupParsed(h: Half, a: seq<int>, p: nat, compress: Option<nat>)
    requires Proper(h) && h.groups != [] && |a| == 8 && p < 8 && (compress.Some? ==> compress.value <= p)
    ensures var more, b := Half(h.groups[1..], h.quad), a[p := GroupValue(h.groups[0])];
      ParseRest(HalfText(h), a, p, compress) ==
      if more == Half([], []) then Finish(b, p + 1, compress) else ParseRest(HalfText(more), b, p + 1, compress)
  {
    hide Read, Byte, ParseRest, Finish, HalfText, GroupValue;
    var more := Half(h.groups[1..], h.quad);
    HalfMore(h);
    HalfFirst(h);
    if more == Half([], []) {
      GroupRead(h.groups[0], [], a, p, compress);
      assert h.groups[0] + [] == h.groups[0];
    } else {
      HalfNonEmpty(more);
      var rest := [COLON] + HalfText(more);
      GroupRead(h.groups[0], rest, a, p, compress);
      assert rest[1..] == HalfText(more);
    }
  }

  lemma QuadLength(quad: seq<seq<int>>)
    requires |quad| == 4 && forall j :: 0 <= j < 4 ==> Byte(quad[j])
    ensures |QuadValues(quad)| == 2
  {
  }

  lemma NothingWritten()
    ensures Proper(Half([], [])) && HalfText(Half([], [])) == [] && HalfValues(Half([], [])) == []
  {
    var none: seq<seq<int>> := [];
    assert none + none == [] && Join(none, COLON) == [];
  }

  lemma {:induction false} FrontParsed(groups: seq<seq<int>>, rest: seq<int>, a: seq<int>, p: nat)
    requires forall j :: 0 <= j < |groups| ==> Group(groups[j])
    requires |a| == 8 && p + |groups| < 8
    ensures |GroupValues(groups)| == |groups|
    ensures ParseRest(Front(groups) + ([COLON] + rest), a, p, None)
         == ParseRest(rest, Place(a, p, GroupValues(groups)), p + |groups| + 1, Some(p + |groups| + 1))
    decreases |groups|
  {
    hide Read, ParseRest, Group;
    GroupCount(groups);
    if groups == [] {
      assert Front(groups) + ([COLON] + rest) == [COLON] + rest && Place(a, p, []) == a;
      ParseGap(rest, a, p);
    } else {
      var v := GroupValue(groups[0]);
      var behind := Front(groups[1..]) + ([COLON] + rest);
      assert Front(groups) + ([COLON] + rest) == groups[0] + ([COLON] + behind);
      GroupRead(groups[0], [COLON] + behind, a, p, None);
      assert ([COLON] + behind)[1..] == behind;
      FrontParsed(groups[1..], rest, a[p := v], p + 1);
      assert Place(a[p := v], p + 1, GroupValues(groups[1..])) == Place(a, p, GroupValues(groups));
    }
  }

  // ---------- Every text that is read is one of these ----------

  lemma GroupFound(s: seq<int>)
    requires s != [] && HexRun(s, 4) > 0
    ensures Group(s[..HexRun(s, 4)])
  {
    var t := s[..HexRun(s, 4)];
    ReadValue(t, 16);
    forall j | 0 <= j < |t| ensures IsDigitOf(t[j], 16) { HexRunAll(s, 4, j); }
  }

  /** A half that starts at `s`, behind `groups` and the gap if there is one. */
  ghost predicate Found(s: seq<int>, groups: seq<seq<int>>, gap: bool, h: Half, p: nat) {
    && (forall j :: 0 <= j < |groups| ==> Group(groups[j])) && Proper(h)
    && (if gap then s == Front(groups) + ([COLON] + HalfText(h)) && p + |groups| + 1 + |HalfValues(h)| <= 8
        else groups == [] && s == HalfText(h) && p + |HalfValues(h)| <= 8)
  }

  lemma FoundMore(t: seq<int>, rest: seq<int>, groups: seq<seq<int>>, gap: bool, h: Half, p: nat)
    returns (groups': seq<seq<int>>, h': Half)
    requires Group(t) && rest != [] && Found(rest, groups, gap, h, p + 1)
    ensures Found(t + ([COLON] + rest), groups', gap, h', p)
  {
    hide Read, Group;
    if gap {
      groups', h' := [t] + groups, h;
      assert groups'[1..] == groups;
      assert Front(groups') + ([COLON] + HalfText(h)) == t + ([COLON] + rest);
    } else {
      groups', h' := [], Half([t] + h.groups, h.quad);
      assert h'.groups[1..] == h.groups;
      if h == Half([], []) { NothingWritten(); }
      HalfFirst(h');
      HalfMore(h');
    }
  }

  lemma {:induction false} RestFound(s: seq<int>, a: seq<int>, p: nat, compress: Option<nat>)
    returns (groups: seq<seq<int>>, gap: bool, h: Half)
    requires |a| == 8 && p <= 8 && (compress.Some? ==> compress.value <= p)
    requires ParseRest(s, a, p, compress).Some?
    ensures Found(s, groups, gap, h, p) && (compress.Some? ==> !gap)
    decreases |s|
  {
    hide Read, Group, DottedTail, Value, HexRun, Finish, QuadValues, QuadText;
    if s == [] {
      NothingWritten();
      groups, gap, h := [], false, Half([], []);
    } else if s[0] == COLON {
      var groups', gap', h' := RestFound(s[1..], a, p + 1, Some(p + 1));
      groups, gap, h := [], true, h';
      assert Front([]) + ([COLON] + HalfText(h)) == s;
    } else {
      var n := HexRun(s, 4);
      var t := s[n..];
      if t != [] && t[0] == DOT {
        var quad := QuadFound(s, a, p);
        QuadOnly(quad);
        QuadLength(quad);
        groups, gap, h := [], false, Half([], quad);
        assert HalfValues(h) == [] + QuadValues(quad) == QuadValues(quad);
      } else {
        SomeDigits(s);
        GroupFound(s);
        if t == [] {
          assert s[..n] == s;
          groups, gap, h := [], false, Half([s], []);
          OneGroup(s);
        } else {
          var groups', gap', h' := RestFound(t[1..], a[p := Value(s[..n], 16)], p + 1, compress);
          groups, h := FoundMore(s[..n], t[1..], groups', gap', h', p);
          gap := gap';
          assert s == s[..n] + ([COLON] + t[1..]);
        }
      }
    }
  }

  lemma SomeDigits(s: seq<int>)
    requires s != [] && s[0] != COLON && (s[HexRun(s, 4)..] == [] || s[HexRun(s, 4)] == COLON)
    ensures HexRun(s, 4) > 0
  {
  }

  lemma OneGroup(t: seq<int>)
    requires Group(t)
    ensures Proper(Half([t], [])) && HalfText(Half([t], [])) == t && |HalfValues(Half([t], []))| == 1
  {
    hide Read;
    assert [t] + [] == [t] && [t][1..] == [];
    GroupCount([t]);
  }

  lemma WrittenOutRead(h: Half)
    requires Proper(h) && |HalfValues(h)| == 8
    ensures ParsedIPv6(HalfText(h)) == Some(HalfValues(h))
  {
    hide Read, ParseRest, HalfText;
    StartsWithDigit(h);
    HalfParsed(h, ZEROS, 0, None);
    assert Place(ZEROS, 0, HalfValues(h)) == HalfValues(h);
  }

  lemma StartsWithDigit(h: Half)
    requires Proper(h) && h != Half([], [])
    ensures HalfText(h) != [] && HalfText(h)[0] != COLON
  {
    hide Read, HalfText;
    if h.groups != [] {
      HalfFirst(h);
      GroupDigits(h.groups[0]);
      assert IsHex(h.groups[0][0]);
    } else {
      QuadOnly(h.quad);
      assert h == Half([], h.quad);
      QuadStarts(h.quad);
    }
  }

  function Short(front: seq<int>, back: seq<int>): seq<int>
    requires |front| + |back| <= 7
  {
    front + ZEROS[..8 - |front| - |back|] + back
  }

  lemma ShortExactly(front: seq<int>, back: seq<int>, address: seq<int>)
    requires |front| + |back| <= 7
    ensures Shortened(front, back, address) <==> address == Short(front, back)
  {
    var i, j := |front|, 8 - |back|;
    if Shortened(front, back, address) {
      assert address[i..j] == ZEROS[..j - i];
      assert address == address[..i] + address[i..j] + address[j..];
    }
  }

  lemma ShortStarts(groups: seq<seq<int>>, rest: seq<int>)
    requires forall j :: 0 <= j < |groups| ==> Group(groups[j])
    requires |GroupValues(groups)| <= 7
    ensures var i := |GroupValues(groups)|;
      ParsedIPv6(Join(groups, COLON) + [COLON, COLON] + rest) ==
      ParseRest(rest, Place(ZEROS, 0, GroupValues(groups)), i + 1, Some(i + 1))
  {
    hide ParseRest, Join, GroupValues, Group;
    var text := Join(groups, COLON) + [COLON, COLON] + rest;
    GroupCount(groups);
    if groups == [] {
      NoGroups();
      assert text[2..] == rest && Place(ZEROS, 0, []) == ZEROS;
    } else {
      FrontJoin(groups);
      assert text == Front(groups) + ([COLON] + rest);
      FrontParsed(groups, rest, ZEROS, 0);
      FrontStarts(groups);
    }
  }

  lemma WrittenShortRead(groups: seq<seq<int>>, h: Half)
    requires (forall j :: 0 <= j < |groups| ==> Group(groups[j])) && Proper(h)
    requires |GroupValues(groups)| + |HalfValues(h)| <= 7
    ensures ParsedIPv6(Join(groups, COLON) + [COLON, COLON] + HalfText(h)) == Some(Short(GroupValues(groups), HalfValues(h)))
  {
    hide ParsedIPv6, ParseRest, HalfText, Join, HalfValues, GroupValues, Group, Expand, Finish, Short;
    var pre, post := GroupValues(groups), HalfValues(h);
    var a, i := Place(ZEROS, 0, pre), |pre|;
    assert ZerosFrom(a, i + 1);
    hide Place, ZerosFrom, Proper;
    ShortStarts(groups, HalfText(h));
    HalfParsed(h, a, i + 1, Some(i + 1));
    ShortFinished(pre, post);
  }

  lemma NoGroups()
    ensures Join([], COLON) == [] && GroupValues([]) == []
  {
  }

  lemma FrontStarts(groups: seq<seq<int>>)
    requires groups != [] && Group(groups[0])
    ensures Front(groups) != [] && Front(groups)[0] != COLON
  {
    GroupDigits(groups[0]);
    assert IsHex(groups[0][0]);
  }

  lemma ShortFinished(pre: seq<int>, post: seq<int>)
    requires |pre| + |post| <= 7
    ensures var i := |pre|;
      Finish(Place(Place(ZEROS, 0, pre), i + 1, post), i + 1 + |post|, Some(i + 1)) == Some(Short(pre, post))
  {
    hide Expand, Place, ZeroRun;
    ShortParts(pre, post);
    ExpandPlaced(Short(pre, post), |pre|, 8 - |pre| - |post|);
  }

  lemma ShortParts(pre: seq<int>, post: seq<int>)
    requires |pre| + |post| <= 7
    ensures var i, h, len := |pre|, Short(pre, post), 8 - |pre| - |post|;
      h[..i] == pre && h[i + len..] == post && ZeroRun(h, i, len) && Place(ZEROS, 0, pre) == h[..i] + ZEROS[i..]
  {
  }

  /**
   The texts read as an IPv6 address are exactly the eight pieces written out and the shortened forms, in digits of either
   case and with leading zeros, the last two pieces perhaps as an IPv4 address; each is read as the address it writes.
   */
  lemma IPv6Exactly(text: seq<int>, address: seq<int>)
    ensures ParsedIPv6(text) == Some(address) <==> WrittenOut(text, address) || WrittenShort(text, address)
  {
    hide Read, ParseRest, HalfText, HalfValues, GroupValues, Group, Join;
    if WrittenOut(text, address) {
      var h :| Proper(h) && text == HalfText(h) && address == HalfValues(h) && |address| == 8;
      WrittenOutRead(h);
    }
    if WrittenShort(text, address) { ShortRead(text, address); }
    if ParsedIPv6(text) == Some(address) { ReadWritten(text, address); }
  }

  lemma ShortRead(text: seq<int>, address: seq<int>)
    requires WrittenShort(text, address)
    ensures ParsedIPv6(text) == Some(address)
  {
    hide Read, ParseRest, HalfText, HalfValues, GroupValues, Group, Join;
    var groups, h :|
      && (forall j :: 0 <= j < |groups| ==> Group(groups[j])) && Proper(h)
      && text == Join(groups, COLON) + [COLON, COLON] + HalfText(h)
      && Shortened(GroupValues(groups), HalfValues(h), address);
    WrittenShortRead(groups, h);
    ShortExactly(GroupValues(groups), HalfValues(h), address);
  }

  lemma ReadWritten(text: seq<int>, address: seq<int>)
    requires ParsedIPv6(text) == Some(address)
    ensures WrittenOut(text, address) || WrittenShort(text, address)
  {
    hide Read, ParseRest, HalfText, HalfValues, GroupValues, Group, Join, Shortened;
    if text != [] && text[0] == COLON {
      var rest := text[2..];
      var groups, gap, h := RestFound(rest, ZEROS, 1, Some(1));
      NoGroups();
      assert text == Join([], COLON) + [COLON, COLON] + HalfText(h);
      ShortWritten(text, address, [], h);
    } else {
      var groups, gap, h := RestFound(text, ZEROS, 0, None);
      if gap {
        if groups == [] { assert false; }
        FrontJoin(groups);
        assert text == Join(groups, COLON) + [COLON, COLON] + HalfText(h);
        GroupCount(groups);
        ShortWritten(text, address, groups, h);
      } else {
        HalfParsed(h, ZEROS, 0, None);
        assert Place(ZEROS, 0, HalfValues(h)) == HalfValues(h) + ZEROS[|HalfValues(h)|..];
        assert |HalfValues(h)| == 8;
        WrittenOutRead(h);
      }
    }
  }

  lemma ShortWritten(text: seq<int>, address: seq<int>, groups: seq<seq<int>>, h: Half)
    requires ParsedIPv6(text) == Some(address)
    requires (forall j :: 0 <= j < |groups| ==> Group(groups[j])) && Proper(h)
    requires |GroupValues(groups)| + |HalfValues(h)| <= 7
    requires text == Join(groups, COLON) + [COLON, COLON] + HalfText(h)
    ensures WrittenShort(text, address)
  {
    hide Read, ParseRest, HalfText, HalfValues, GroupValues, Group, Join, Shortened;
    WrittenShortRead(groups, h);
    ShortExactly(GroupValues(groups), HalfValues(h), address);
  }

  // ---------- What the printers write ----------

  /** A piece is written in small hexadecimal digits without a leading zero. */
  lemma {:induction false} HexWritten(v: nat)
    ensures Read(Hex(v), 16, 0) == Some(v)
    ensures forall j :: 0 <= j < |Hex(v)| ==> '0' as int <= Hex(v)[j] <= '9' as int || 'a' as int <= Hex(v)[j] <= 'f' as int
    ensures v > 0 ==> Hex(v)[0] != '0' as int
    ensures v == 0 ==> |Hex(v)| == 1
  {
    if v < 16 {
      assert Read([], 16, v) == Some(v) && [DigitChar(v)][1..] == [];
    } else {
      HexWritten(v / 16);
      ReadLast(Hex(v / 16), DigitChar(v % 16), 16, 0);
    }
  }

  /** A byte is written in decimal digits without a leading zero. */
  lemma {:induction false} DecWritten(v: nat)
    ensures Read(Dec(v), 10, 0) == Some(v)
    ensures |Dec(v)| > 1 ==> Dec(v)[0] != '0' as int
  {
    DecValue(v);
    if v < 10 {
      assert Read([], 10, v) == Some(v) && [DigitChar(v)][1..] == [];
    } else {
      DecWritten(v / 10);
      ReadLast(Dec(v / 10), DigitChar(v % 10), 10, 0);
    }
  }

  /** An IPv4 number is written as its four bytes, the highest first. */
  lemma QuadWritten(n: nat)
    requires n < 0x1_0000_0000
    ensures exists quad: seq<seq<int>> ::
              && |quad| == 4 && (forall j :: 0 <= j < 4 ==> Byte(quad[j])) && DottedQuad(n) == Join(quad, '.' as int)
              && n == QuadValues(quad)[0] * 0x1_0000 + QuadValues(quad)[1]
  {
    hide Read, Dec, Join;
    var bs := Bytes(n);
    var quad := [Dec(bs[0]), Dec(bs[1]), Dec(bs[2]), Dec(bs[3])];
    forall j | 0 <= j < 4 ensures Byte(quad[j]) && ByteValue(quad[j]) == bs[j] { DecWritten(bs[j]); }
    ByteSum(n);
    assert DottedQuad(n) == Join(quad, '.' as int);
  }
}
