/**
 Every spelling of a string in section 7 of RFC 8259 - characters as they are, two-character escapes, "\u" and four
 digits of either case - and exactly which of them `json_unescape` of src/client.cpp reads as the string they spell.
 */
module JsonSpelling {
  import opened Wrappers
  import opened JsonText
  import opened JsonString
  import Uri

  datatype Digit = Digit(value: nat, upper: bool)

  /** One unit of the text: a byte as it is, a backslash and a letter, or a backslash, "u" and four digits. */
  datatype Unit = Verbatim(byte: int) | Letter(letter: char) | Code(a: Digit, b: Digit, c: Digit, d: Digit)

  predicate IsDigit(d: Digit) { d.value < 16 }

  predicate IsUnit(u: Unit) {
    match u
    case Verbatim(x) => 0x20 <= x < 0x100 && x != '"' as int && x != '\\' as int
    case Letter(l) => l in {'"', '\\', '/', 'b', 'f', 'n', 'r', 't'}
    case Code(a, b, c, d) => IsDigit(a) && IsDigit(b) && IsDigit(c) && IsDigit(d)
  }

  predicate IsString(units: seq<Unit>) { forall i :: 0 <= i < |units| ==> IsUnit(units[i]) }

  function Written(d: Digit): int
    requires IsDigit(d)
  {
    (if d.upper then "0123456789ABCDEF" else "0123456789abcdef")[d.value] as int
  }

  function UnitText(u: Unit): (s: seq<int>)
    requires IsUnit(u)
    ensures s != []
  {
    match u
    case Verbatim(x) => [x]
    case Letter(l) => ['\\' as int, l as int]
    case Code(a, b, c, d) => ['\\' as int, 'u' as int, Written(a), Written(b), Written(c), Written(d)]
  }

  function Spelled(units: seq<Unit>): seq<int>
    requires IsString(units)
  {
    if units == [] then [] else UnitText(units[0]) + Spelled(units[1..])
  }

  // ---------- What a string spells ----------

  function Number(u: Unit): nat
    requires u.Code?
  {
    ((u.a.value * 16 + u.b.value) * 16 + u.c.value) * 16 + u.d.value
  }

  predicate IsHalf(units: seq<Unit>, from: int) { units != [] && units[0].Code? && from <= Number(units[0]) < from + 0x400 }

  /** Two codes that are one character beyond U+FFFF. */
  predicate IsPair(units: seq<Unit>) { IsHalf(units, 0xD800) && |units| > 1 && IsHalf(units[1..], 0xDC00) }

  function PairNumber(units: seq<Unit>): int
    requires IsPair(units)
  {
    0x1_0000 + (Number(units[0]) - 0xD800) * 0x400 + (Number(units[1]) - 0xDC00)
  }

  function LetterMeant(l: char): int {
    match l
    case 'b' => 0x08
    case 'f' => 0x0C
    case 'n' => 0x0A
    case 'r' => 0x0D
    case 't' => 0x09
    case _ => l as int
  }

  /** The string in UTF-8; None where a surrogate has no partner. */
  function Meant(units: seq<Unit>): Option<seq<int>>
    requires IsString(units)
  {
    if units == [] then Some([])
    else if IsPair(units) then Prepend(Uri.Octets(PairNumber(units)), Meant(units[2..]))
    else
      match units[0]
      case Verbatim(x) => Prepend([x], Meant(units[1..]))
      case Letter(l) => Prepend([LetterMeant(l)], Meant(units[1..]))
      case Code(_, _, _, _) =>
        if Uri.IsScalar(Number(units[0])) then Prepend(Uri.Octets(Number(units[0])), Meant(units[1..])) else None
  }

  /** The spellings the code knows: no backspace, no form feed, and no number beyond ASCII. */
  predicate Known(u: Unit) {
    match u
    case Verbatim(_) => true
    case Letter(l) => l != 'b' && l != 'f'
    case Code(_, _, _, _) => Number(u) < 0x80
  }

  predicate AllKnown(units: seq<Unit>) { forall i :: 0 <= i < |units| ==> Known(units[i]) }

  // ---------- What the code reads ----------

  function UnitRead(u: Unit): seq<int> {
    match u
    case Verbatim(x) => [x]
    case Letter(l) => [match l case 'n' => 0x0A case 'r' => 0x0D case 't' => 0x09 case _ => l as int]
    case Code(_, _, _, _) => if Number(u) < 0x80 then [Number(u)] else []
  }

  /** "b" and "f" for the two unknown letters, and nothing for a number beyond ASCII. */
  function ReadAs(units: seq<Unit>): seq<int> {
    if units == [] then [] else UnitRead(units[0]) + ReadAs(units[1..])
  }

  lemma DigitValue(d: Digit)
    requires IsDigit(d)
    ensures HexValue(Written(d)) == Some(d.value) && Written(d) !in {0x20, 0x2B, 0x2D, 0x58, 0x78} && Written(d) > 0x0D
  {
  }

  lemma FourDigits(s: seq<int>, a: nat, b: nat, c: nat, d: nat)
    requires |s| == 4 && HexValue(s[0]) == Some(a) && HexValue(s[1]) == Some(b) && HexValue(s[2]) == Some(c) && HexValue(s[3]) == Some(d)
    ensures HexPrefix(s, 0) == ((a * 16 + b) * 16 + c) * 16 + d
  {
    hide HexValue;
    assert s[1..][1..] == s[2..] && s[2..][1..] == s[3..] && s[3..][1..] == [];
    var ab := a * 16 + b;
    var abc := ab * 16 + c;
    assert HexPrefix(s[3..], abc) == HexPrefix([], abc * 16 + d) == abc * 16 + d;
    assert HexPrefix(s[2..], ab) == HexPrefix(s[3..], abc);
    assert HexPrefix(s[1..], a) == HexPrefix(s[2..], ab);
  }

  lemma CodeNumber(u: Unit)
    requires IsUnit(u) && u.Code?
    ensures Stoi16([Written(u.a), Written(u.b), Written(u.c), Written(u.d)]) == Some(Number(u))
  {
    DigitValue(u.a);
    DigitValue(u.b);
    DigitValue(u.c);
    DigitValue(u.d);
    hide Written, HexValue, HexPrefix;
    FourDigits([Written(u.a), Written(u.b), Written(u.c), Written(u.d)], u.a.value, u.b.value, u.c.value, u.d.value);
  }

  lemma UnitUnescaped(u: Unit, rest: seq<int>)
    requires IsUnit(u)
    ensures Unescaped(UnitText(u) + rest) == Prefixed(UnitRead(u), Unescaped(rest))
  {
    hide Stoi16, Prefixed, Written;
    var s := UnitText(u) + rest;
    match u {
      case Verbatim(x) => assert s[1..] == rest;
      case Letter(l) => assert s[2..] == rest;
      case Code(a, b, c, d) =>
        CodeNumber(u);
        assert s[2..6] == [Written(a), Written(b), Written(c), Written(d)] && s[6..] == rest;
    }
  }

  /** Every spelling is read without an exception, unit by unit. */
  lemma {:induction false} SpellingRead(units: seq<Unit>)
    requires IsString(units)
    ensures Unescaped(Spelled(units)) == Success(ReadAs(units))
  {
    hide Unescaped, UnitText, UnitRead, IsUnit;
    if units == [] {
      UnescapeEnd();
    } else {
      SpellingRead(units[1..]);
      UnitUnescaped(units[0], Spelled(units[1..]));
    }
  }

  // ---------- Exactly when that is what is meant ----------

  lemma PairScalar(units: seq<Unit>)
    requires IsPair(units)
    ensures Uri.IsScalar(PairNumber(units)) && !Known(units[0])
  {
  }

  lemma CodeOctets(n: nat)
    requires Uri.IsScalar(n)
    ensures n < 0x80 ==> Uri.Octets(n) == [n]
  {
  }

  /** What is read is never longer than what is meant, and as long only if no number is left out. */
  lemma {:induction false} ReadShorter(units: seq<Unit>)
    requires IsString(units) && Meant(units).Some?
    ensures |ReadAs(units)| <= |Meant(units).value|
    ensures |ReadAs(units)| == |Meant(units).value| ==> forall i :: 0 <= i < |units| && units[i].Code? ==> Number(units[i]) < 0x80
  {
    hide IsUnit, LetterMeant, Uri.Octets, Number;
    if units == [] {
    } else if IsPair(units) {
      PairScalar(units);
      ReadShorter(units[2..]);
      PairRead(units);
    } else {
      ReadShorter(units[1..]);
      assert units == [units[0]] + units[1..];
    }
  }

  lemma PairRead(units: seq<Unit>)
    requires IsPair(units)
    ensures ReadAs(units) == ReadAs(units[2..]) && Number(units[0]) >= 0x80
  {
    assert units[1..][1..] == units[2..];
    assert [] + ([] + ReadAs(units[2..])) == ReadAs(units[2..]);
  }

  lemma {:induction false} ReadMeansKnown(units: seq<Unit>)
    requires IsString(units) && Meant(units).Some?
    requires forall i :: 0 <= i < |units| && units[i].Code? ==> Number(units[i]) < 0x80
    ensures |ReadAs(units)| == |Meant(units).value| && (ReadAs(units) == Meant(units).value <==> AllKnown(units))
  {
    hide Uri.Octets, Number;
    if units != [] {
      var rest := units[1..];
      assert !IsPair(units);
      assert IsString(rest) && forall i :: 0 <= i < |rest| ==> rest[i] == units[i + 1];
      if units[0].Code? { CodeOctets(Number(units[0])); }
      ReadMeansKnown(rest);
      assert AllKnown(units) <==> Known(units[0]) && AllKnown(rest);
      var read, meant := ReadAs(units), Meant(units).value;
      assert read[0] == UnitRead(units[0])[0] && read[1..] == ReadAs(rest) && meant[1..] == Meant(rest).value;
      assert read == [read[0]] + read[1..] && meant == [meant[0]] + meant[1..];
    }
  }

  /**
   A text of a string is read as the string it spells exactly if it holds neither "\b" nor "\f" and no "\u" beyond
   ASCII: the code reads the two letters as themselves and drops the number.
   */
  lemma SpellingExact(units: seq<Unit>)
    requires IsString(units) && Meant(units).Some?
    ensures Unescaped(Spelled(units)) == Success(Meant(units).value) <==> AllKnown(units)
  {
    hide Unescaped, IsUnit, UnitText, LetterMeant, Uri.Octets, Number, UnitRead;
    SpellingRead(units);
    ReadShorter(units);
    if forall i :: 0 <= i < |units| && units[i].Code? ==> Number(units[i]) < 0x80 { ReadMeansKnown(units); }
  }

  // ---------- Behind its key ----------

  lemma UnitEscaped(u: Unit, rest: seq<int>)
    requires IsUnit(u) && Escaped(rest)
    ensures Escaped(UnitText(u) + rest)
  {
    var s := UnitText(u) + rest;
    match u {
      case Verbatim(x) => assert s[1..] == rest;
      case Letter(l) => assert s[2..] == rest;
      case Code(a, b, c, d) =>
        var digits := [Written(a), Written(b), Written(c), Written(d)];
        DigitValue(a);
        DigitValue(b);
        DigitValue(c);
        DigitValue(d);
        hide Written, Escaped;
        assert s[2..] == digits + rest;
        PlainEscaped(digits, rest);
        EscapedStep(s);
    }
  }

  lemma EscapedStep(s: seq<int>)
    requires |s| >= 2 && s[0] == BACKSLASH && Escaped(s[2..])
    ensures Escaped(s)
  {
  }

  /** A quote inside is always behind a backslash. */
  lemma {:induction false} SpelledEscaped(units: seq<Unit>)
    requires IsString(units)
    ensures Escaped(Spelled(units))
  {
    hide UnitText, IsUnit;
    if units != [] {
      SpelledEscaped(units[1..]);
      UnitEscaped(units[0], Spelled(units[1..]));
    }
  }

  /** Positioned at its key, `json_string_field` returns the string that is spelled there, exactly in those cases. */
  lemma FieldExact(pre: seq<int>, key: seq<int>, units: seq<Unit>, post: seq<int>)
    requires IsString(units) && Meant(units).Some?
    requires FirstAt(pre + Quoted(key) + [COLON] + Quoted(Spelled(units)) + post, Quoted(key) + [COLON, QUOTE], |pre|)
    ensures var r := StringField(pre + Quoted(key) + [COLON] + Quoted(Spelled(units)) + post, key);
            && r == Success(ReadAs(units))
            && (r == Success(Meant(units).value) <==> AllKnown(units))
  {
    hide Find, FirstAt, Unescaped, RawString, Spelled, Meant, ReadAs, AllKnown, IsUnit;
    var json := pre + Quoted(key) + [COLON] + Quoted(Spelled(units)) + post;
    FindExactly(json, StringNeedle(key));
    assert json[|pre| + |StringNeedle(key)|..] == Spelled(units) + [QUOTE] + post;
    SpelledEscaped(units);
    RawStopsAtQuote(Spelled(units), post);
    SpellingRead(units);
    SpellingExact(units);
  }

  // ---------- What json_quote writes ----------

  /** Each byte as it stands, except the quote, the backslash and the control characters. */
  function Quoting(c: int): Unit {
    if c == '"' as int || c == '\\' as int then Letter(c as char)
    else if c == 0x0A then Letter('n')
    else if c == 0x0D then Letter('r')
    else if c == 0x09 then Letter('t')
    else if 0 <= c < 0x20 then Code(Digit(0, false), Digit(0, false), Digit(c / 16, false), Digit(c % 16, false))
    else Verbatim(c)
  }

  function Quotings(s: seq<int>): seq<Unit> {
    if s == [] then [] else [Quoting(s[0])] + Quotings(s[1..])
  }

  lemma QuotedByte(c: int)
    requires 0 <= c < 0x100
    ensures IsUnit(Quoting(c)) && UnitText(Quoting(c)) == QuoteByte(c)
    ensures Quoting(c).Code? ==> Number(Quoting(c)) == c < 0x20
    ensures Quoting(c).Letter? ==> LetterMeant(Quoting(c).letter) == c
    ensures Quoting(c).Verbatim? ==> Quoting(c).byte == c
  {
  }

  /** The body is the shortest spelling of the bytes but for the control characters, and means just them. */
  lemma {:induction false} QuotedExactly(s: seq<int>)
    requires IsBytes(s)
    ensures IsString(Quotings(s)) && QuoteBody(s) == Spelled(Quotings(s)) && Meant(Quotings(s)) == Some(s)
  {
    hide QuoteByte, IsUnit, LetterMeant, Quoting;
    if s != [] {
      QuotedByte(s[0]);
      QuotedExactly(s[1..]);
      assert Quotings(s)[1..] == Quotings(s[1..]);
      assert [s[0]] + s[1..] == s;
      if Quoting(s[0]).Code? { CodeOctets(s[0]); }
    }
  }

  // ---------- What stands behind "\\u" may be no four digits ----------

  /** White space of the C locale. */
  predicate AllBlank(s: seq<int>) { forall i :: 0 <= i < |s| ==> s[i] in {0x09, 0x0A, 0x0B, 0x0C, 0x0D, 0x20} }

  /** Nothing, or one sign. */
  predicate IsSign(s: seq<int>) { s == [] || s == ['-' as int] || s == ['+' as int] }

  ghost predicate StartsWithDigit(s: seq<int>) { s != [] && exists d :: IsDigit(d) && s[0] == Written(d) }

  function Digits(ds: seq<Digit>): seq<int>
    requires forall i :: 0 <= i < |ds| ==> IsDigit(ds[i])
  {
    if ds == [] then [] else [Written(ds[0])] + Digits(ds[1..])
  }

  /** The number the digits write, read from the last one. */
  function Numeral(ds: seq<Digit>): int {
    if ds == [] then 0 else Numeral(ds[..|ds| - 1]) * 16 + ds[|ds| - 1].value
  }

  lemma {:induction false} SkipBlanks(blanks: seq<int>, rest: seq<int>)
    requires AllBlank(blanks) && (rest != [] ==> !AllBlank([rest[0]]))
    ensures SkipSpace(blanks + rest) == rest
  {
    var s := blanks + rest;
    if blanks != [] {
      SkipBlanks(blanks[1..], rest);
      assert s[1..] == blanks[1..] + rest && s[0] == blanks[0];
    } else {
      assert s == rest;
      if rest != [] { assert [rest[0]][0] == rest[0]; }
    }
  }

  lemma HexIsDigit(c: int)
    requires HexValue(c).Some?
    ensures exists d :: IsDigit(d) && c == Written(d)
  {
    var v := HexValue(c).value;
    assert IsDigit(Digit(v, false)) && IsDigit(Digit(v, true));
    assert c == Written(Digit(v, false)) || c == Written(Digit(v, true));
  }

  lemma NoDigitAhead(s: seq<int>)
    requires s != [] && !StartsWithDigit(s)
    ensures HexValue(s[0]).None?
  {
    hide HexValue, Written;
    if HexValue(s[0]).Some? { HexIsDigit(s[0]); }
  }

  /** Reading digits from the left is reading them from the right. */
  lemma {:induction false} PrefixRead(front: seq<Digit>, ds: seq<Digit>, rest: seq<int>)
    requires (forall i :: 0 <= i < |ds| ==> IsDigit(ds[i])) && !StartsWithDigit(rest)
    ensures HexPrefix(Digits(ds) + rest, Numeral(front)) == Numeral(front + ds)
    decreases |ds|
  {
    hide HexValue, Written;
    var s := Digits(ds) + rest;
    if ds == [] {
      assert s == rest && front + ds == front;
      if rest != [] { NoDigitAhead(rest); }
    } else {
      DigitValue(ds[0]);
      var longer := front + [ds[0]];
      assert longer[..|front|] == front && Numeral(longer) == Numeral(front) * 16 + ds[0].value;
      assert s[0] == Written(ds[0]) && s[1..] == Digits(ds[1..]) + rest;
      PrefixRead(longer, ds[1..], rest);
      assert longer + ds[1..] == front + ds;
    }
  }

  predicate HasPrefix(u: seq<int>) { |u| > 2 && u[0] == 0x30 && (u[1] == 0x78 || u[1] == 0x58) && HexValue(u[2]).Some? }

  lemma Signed(sign: seq<int>, u: seq<int>)
    requires IsSign(sign) && u != [] && HexValue(u[0]).Some?
    ensures !AllBlank([(sign + u)[0]])
    ensures var n := HexPrefix(if HasPrefix(u) then u[2..] else u, 0);
            SkipSpace(sign + u) == sign + u && Stoi16(sign + u) == Some(if sign == ['-' as int] then -n else n)
  {
    hide HexPrefix;
    var t := sign + u;
    assert [t[0]][0] == t[0];
    assert (if sign == [] then t else t[1..]) == u;
  }

  lemma SkipSame(blanks: seq<int>, t: seq<int>)
    requires SkipSpace(blanks + t) == t && SkipSpace(t) == t
    ensures Stoi16(blanks + t) == Stoi16(t)
  {
    hide SkipSpace, HexPrefix, HexValue;
  }

  /**
   std::stoi reads blanks, a sign, "0x" or "0X", and as many digits as there are; what stands behind them does not
   matter.  Without digits behind it the "0" of "0x" is the number.
   */
  lemma StoiReads(blanks: seq<int>, sign: seq<int>, prefix: seq<int>, ds: seq<Digit>, rest: seq<int>)
    requires AllBlank(blanks) && IsSign(sign) && ds != [] && (forall i :: 0 <= i < |ds| ==> IsDigit(ds[i])) && !StartsWithDigit(rest)
    requires prefix == [] || prefix == ['0' as int, 'x' as int] || prefix == ['0' as int, 'X' as int]
    requires prefix == [] && |ds| == 1 && ds[0].value == 0 && |rest| > 1 && rest[0] in {'x' as int, 'X' as int} ==>
      !StartsWithDigit(rest[1..])
    ensures Stoi16(blanks + (sign + (prefix + (Digits(ds) + rest)))) ==
            Some(if sign == ['-' as int] then -Numeral(ds) else Numeral(ds))
  {
    hide Stoi16, HexPrefix, SkipSpace, StartsWithDigit, AllBlank, HasPrefix, Written, Numeral;
    var digits := Digits(ds) + rest;
    var u := prefix + digits;
    DigitsFirst(prefix, ds, rest);
    PrefixRead([], ds, rest);
    assert [] + ds == ds && Numeral([]) == 0 by { NoNumeral(); }
    Signed(sign, u);
    SkipBlanks(blanks, sign + u);
    SkipSame(blanks, sign + u);
    if prefix == [] && HasPrefix(u) { PlainNought(ds, rest); }
  }

  lemma NoNumeral()
    ensures Numeral([]) == 0
  {
  }

  lemma DigitsFirst(prefix: seq<int>, ds: seq<Digit>, rest: seq<int>)
    requires ds != [] && (forall i :: 0 <= i < |ds| ==> IsDigit(ds[i]))
    requires prefix == [] || prefix == ['0' as int, 'x' as int] || prefix == ['0' as int, 'X' as int]
    ensures var digits := Digits(ds) + rest;
            var u := prefix + digits;
            && u != [] && HexValue(u[0]).Some? && (prefix == [] ==> u == digits)
            && (prefix != [] ==> HasPrefix(u) && u[2..] == digits)
  {
    DigitValue(ds[0]);
    hide Written;
    var digits := Digits(ds) + rest;
    var u := prefix + digits;
    assert digits[0] == Written(ds[0]);
    if prefix == [] { assert u == digits; } else { assert u[2] == digits[0] && u[2..] == digits; }
  }

  /** "0x" and a digit are not "0" and something else. */
  lemma PlainNought(ds: seq<Digit>, rest: seq<int>)
    requires ds != [] && (forall i :: 0 <= i < |ds| ==> IsDigit(ds[i]))
    requires HasPrefix(Digits(ds) + rest)
    ensures |ds| == 1 && ds[0].value == 0 && |rest| > 1 && rest[0] in {'x' as int, 'X' as int} && StartsWithDigit(rest[1..])
  {
    if |ds| > 1 {
      SecondDigit(ds, rest);
      assert false;
    }
    assert ds == [ds[0]];
    OnlyDigit(ds[0], rest);
  }

  lemma OnlyDigit(d: Digit, rest: seq<int>)
    requires IsDigit(d) && HasPrefix(Digits([d]) + rest)
    ensures d.value == 0 && |rest| > 1 && rest[0] in {'x' as int, 'X' as int} && StartsWithDigit(rest[1..])
  {
    DigitValue(d);
    hide Written;
    assert [d][1..] == [] && Digits([d]) == [Written(d)];
    hide HexValue;
    var u := Digits([d]) + rest;
    assert u[0] == Written(d) && u[1..] == rest && u[2] == rest[1] == rest[1..][0];
    NoughtIsDigit();
    HexIsDigit(u[2]);
  }

  lemma SecondDigit(ds: seq<Digit>, rest: seq<int>)
    requires |ds| > 1 && (forall i :: 0 <= i < |ds| ==> IsDigit(ds[i]))
    ensures !HasPrefix(Digits(ds) + rest)
  {
    DigitValue(ds[1]);
    hide HexValue, Written;
    assert Digits(ds) == [Written(ds[0])] + Digits(ds[1..]) && Digits(ds[1..]) == [Written(ds[1])] + Digits(ds[1..][1..]);
    assert (Digits(ds) + rest)[1] == Written(ds[1]);
  }

  /** It throws exactly where no digit stands behind the blanks and the sign. */
  lemma StoiThrows(blanks: seq<int>, sign: seq<int>, rest: seq<int>)
    requires AllBlank(blanks) && IsSign(sign) && !StartsWithDigit(rest)
    requires sign == [] && rest != [] ==> !AllBlank([rest[0]]) && rest[0] !in {'-' as int, '+' as int}
    ensures Stoi16(blanks + (sign + rest)) == None
  {
    hide SkipSpace, HexPrefix, HexValue, StartsWithDigit;
    var t := sign + rest;
    if t != [] { assert [t[0]][0] == t[0] && (sign != [] ==> t[0] == sign[0]) && (sign == [] ==> t == rest); }
    SkipBlanks(blanks, t);
    assert (if sign == [] then t else t[1..]) == rest;
    if rest != [] { NoDigitAhead(rest); }
    if |rest| > 2 && rest[0] == 0x30 { NoughtIsDigit(); }
  }

  lemma NoughtIsDigit()
    ensures HexValue(0x30) == Some(0)
  {
  }
}
