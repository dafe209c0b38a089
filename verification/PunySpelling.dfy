/**
 The decoding procedure of section 6.2 of RFC 3492 with the parameter values of its section 5, written with nothing of the
 encoder, and that it reads what the encoder of js/secsdk-lastest.umd.js writes.
 */
module PunySpelling {
  import opened Wrappers
  import Puny = Punycode

  /** Letters of either case are 0 to 25, figures 26 to 35. */
  function Digit(c: int): Option<nat> {
    if 'a' as int <= c <= 'z' as int then Some(c - 'a' as int)
    else if 'A' as int <= c <= 'Z' as int then Some(c - 'A' as int)
    else if '0' as int <= c <= '9' as int then Some(c - '0' as int + 26)
    else None
  }

  /** The bias for the next number (section 6.1). */
  function Adapt(delta: nat, points: nat, first: bool): nat
    requires points > 0
  {
    var d := if first then delta / 700 else delta / 2;
    Flatten(d + d / points, 0)
  }

  function Flatten(delta: nat, k: nat): nat {
    if delta > 455 then Flatten(delta / 35, k + 36) else k + 36 * delta / (delta + 38)
  }

  function Limit(k: nat, bias: nat): nat { if k <= bias + 1 then 1 else if k >= bias + 26 then 26 else k - bias }

  /** The number at the start of the input, as digits of growing weight. */
  function Number(input: seq<int>, k: nat, bias: nat, sum: nat, weight: nat): (r: Option<(nat, seq<int>)>)
    ensures r.Some? ==> r.value.0 >= sum && |r.value.1| < |input|
  {
    if input == [] || Digit(input[0]).None? then None
    else
      var d := Digit(input[0]).value;
      if d < Limit(k, bias) then Some((sum + d * weight, input[1..]))
      else Number(input[1..], k + 36, bias, sum + d * weight, weight * (36 - Limit(k, bias)))
  }

  /** Each number moves the place at which the next code point goes in. */
  function Insertions(input: seq<int>, n: nat, i: nat, bias: nat, output: seq<int>): Option<seq<int>>
    decreases |input|
  {
    if input == [] then Some(output)
    else
      match Number(input, 36, bias, i, 1)
      case None => None
      case Some((j, rest)) =>
        var len := |output| + 1;
        var m, at := n + j / len, j % len;
        Insertions(rest, m, at + 1, Adapt(j - i, len, i == 0), output[..at] + [m] + output[at..])
  }

  /** What stands before the last hyphen is the basic code points. */
  ghost predicate Divides(s: seq<int>, basic: seq<int>, digits: seq<int>) {
    if '-' as int in s then s == basic + ['-' as int] + digits && '-' as int !in digits
    else basic == [] && digits == s
  }

  lemma DigitSame(c: int)
    ensures Puny.DigitValue(c) == Digit(c)
  {
  }

  lemma {:induction false} FlattenSame(delta: nat, k: nat)
    ensures var (d, m) := Puny.Reduced(delta, k); Puny.BiasOf(d, m) == Flatten(delta, k)
  {
    if delta > 455 { FlattenSame(delta / 35, k + 36); }
  }

  lemma AdaptSame(delta: nat, points: nat, first: bool)
    requires points > 0
    ensures Puny.AdaptedBias(delta, points, first) == Adapt(delta, points, first)
  {
    var d := if first then delta / 700 else delta / 2;
    FlattenSame(d + d / points, 0);
    hide Flatten, Puny.Reduced, Puny.BiasOf;
  }

  lemma LimitSame(k: nat, bias: nat)
    ensures Puny.Threshold(k, bias) == Limit(k, bias)
  {
  }

  lemma {:induction false} NumberSame(input: seq<int>, k: nat, bias: nat, sum: nat, weight: nat)
    ensures Puny.VarInt(input, k, bias, sum, weight) == Number(input, k, bias, sum, weight)
    decreases |input|
  {
    hide Puny.Threshold, Limit, Digit, Puny.DigitValue;
    LimitSame(k, bias);
    if input != [] {
      DigitSame(input[0]);
      if Digit(input[0]).Some? {
        NumberSame(input[1..], k + 36, bias, sum + Digit(input[0]).value * weight, weight * (36 - Limit(k, bias)));
      }
    }
  }

  lemma {:induction false} InsertionsSame(input: seq<int>, st: Puny.Decoder)
    ensures Puny.DecodeFrom(input, st) == Insertions(input, st.n, st.i, st.bias, st.output)
    decreases |input|
  {
    hide Number, Puny.VarInt, Adapt, Puny.AdaptedBias;
    if input != [] {
      NumberSame(input, 36, st.bias, st.i, 1);
      match Number(input, 36, st.bias, st.i, 1)
      case None =>
      case Some((j, rest)) =>
        AdaptSame(j - st.i, |st.output| + 1, st.i == 0);
        InsertionsSame(rest, Puny.Advance(st, j));
    }
  }

  lemma {:induction false} NoHyphen(s: seq<int>)
    requires '-' as int !in s
    ensures Puny.LastDelimiter(s) == None
  {
    if s != [] { NoHyphen(s[..|s| - 1]); }
  }

  /** Decoding starts from 128 and the bias 72, and its digits go into the basic code points. */
  lemma DecodeExactly(s: seq<int>, basic: seq<int>, digits: seq<int>)
    requires Divides(s, basic, digits)
    ensures Puny.Decode(s) ==
            if exists j :: 0 <= j < |basic| && basic[j] >= 128 then None
            else if basic == [] then Insertions(s, 128, 0, 72, [])
            else Insertions(digits, 128, 0, 72, basic)
  {
    hide Puny.DecodeFrom, Insertions, Puny.LastDelimiter;
    if '-' as int in s {
      Puny.LastDelimiterAt(basic, digits);
      assert s[..|basic|] == basic && s[|basic| + 1..] == digits;
      assert forall j :: 0 <= j < |basic| ==> s[j] == basic[j];
    } else {
      NoHyphen(s);
      assert s[..0] == [];
    }
    InsertionsSame(s, Puny.Decoder(128, 0, 72, []));
    InsertionsSame(digits, Puny.Decoder(128, 0, 72, basic));
  }

  /** The code points below 128, in order. */
  function Basics(cps: seq<int>): seq<int> {
    if cps == [] then [] else (if cps[0] < 128 then [cps[0]] else []) + Basics(cps[1..])
  }

  lemma {:induction false} BasicsBelow(cps: seq<int>)
    ensures Puny.Below(cps, 128) == Basics(cps)
  {
    if cps != [] { BasicsBelow(cps[1..]); }
  }

  /**
   The encoding of a text is its basic code points, a hyphen behind them if there are any, and digits from which the
   procedure of the RFC rebuilds the text.
   */
  lemma EncodingExactly(cps: seq<int>)
    requires Puny.EncodedText(cps).Some?
    ensures var basic, s := Basics(cps), Puny.EncodedText(cps).value;
      exists digits ::
        && s == basic + (if basic == [] then [] else ['-' as int]) + digits && '-' as int !in digits
        && Insertions(digits, 128, 0, 72, basic) == Some(cps)
  {
    hide Puny.Decode, Puny.Digits, Insertions, Puny.Below, Basics, Puny.IsLowerDigit;
    var basic, s := Basics(cps), Puny.EncodedText(cps).value;
    BasicsBelow(cps);
    Puny.EncodedTextDecodes(cps);
    var digits := s[|Puny.Head(basic)|..];
    if |basic| < |cps| {
      var r := Puny.Digits(cps, 128, 0, Puny.Begun(basic)).value;
      assert digits == r;
      Puny.DigitsLower(cps, 128, 0, Puny.Begun(basic));
      NoHyphenAmong(digits);
    } else {
      assert digits == [];
    }
    assert s == Puny.Head(basic) + digits;
    assert s == basic + (if basic == [] then [] else ['-' as int]) + digits;
    Puny.BelowCharacters(cps, 128);
    if basic != [] {
      assert s[|basic|] == '-' as int;
    } else {
      assert s == digits;
    }
    DecodeExactly(s, basic, digits);
  }

  lemma NoHyphenAmong(digits: seq<int>)
    requires forall j :: 0 <= j < |digits| ==> Puny.IsLowerDigit(digits[j])
    ensures '-' as int !in digits
  {
  }
}
