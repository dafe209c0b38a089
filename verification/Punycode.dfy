/**
 The Punycode encoder of js/secsdk-lastest.umd.js (RFC 3492).

 The encoder is modelled as the source writes it: loops that update `delta`, `n`,
 `bias` and push to `output`.  Its partner is the decoder of section 6.2 of
 RFC 3492, written as the RFC writes it but over unbounded integers.
 */
module Punycode {
  import opened Wrappers

  const MAX_INT := 0x7FFF_FFFF
  const BASE := 36
  const T_MIN := 1
  const T_MAX := 26
  const SKEW := 38
  const DAMP := 700
  const INITIAL_BIAS := 72
  const INITIAL_N := 0x80
  const DELIMITER := 0x2D
  const OVERFLOW_ERROR := "Overflow: input needs wider integers to process"

  // ---------- UTF-16 strings and code points ----------

  predicate IsUtf16(s: seq<int>) { forall j :: 0 <= j < |s| ==> 0 <= s[j] < 0x1_0000 }
  predicate IsHigh(c: int) { 0xD800 <= c <= 0xDBFF }
  predicate IsLow(c: int) { 0xDC00 <= c <= 0xDFFF }

  function Pair(high: int, low: int): int { (high % 0x400) * 0x400 + low % 0x400 + 0x1_0000 }

  /** The code points of a UTF-16 string; a surrogate without a partner stands for itself. */
  function CodePoints(s: seq<int>): seq<int> {
    if s == [] then []
    else if |s| >= 2 && IsHigh(s[0]) && IsLow(s[1]) then [Pair(s[0], s[1])] + CodePoints(s[2..])
    else [s[0]] + CodePoints(s[1..])
  }

  /** The one or two code units of a code point. */
  function Units(cp: int): (u: seq<int>)
    ensures u != []
  {
    if cp < 0x1_0000 then [cp] else [0xD800 + (cp - 0x1_0000) / 0x400, 0xDC00 + (cp - 0x1_0000) % 0x400]
  }

  /** The UTF-16 form of a sequence of code points. */
  function Utf16(cps: seq<int>): seq<int> {
    if cps == [] then [] else Units(cps[0]) + Utf16(cps[1..])
  }

  lemma PairParts(high: int, low: int)
    requires IsHigh(high) && IsLow(low)
    ensures Units(Pair(high, low)) == [high, low]
  {
  }

  /** No code unit is lost: unmatched surrogates included, the string can be rebuilt. */
  lemma {:induction false} Utf16CodePoints(s: seq<int>)
    requires IsUtf16(s)
    ensures Utf16(CodePoints(s)) == s
  {
    hide Units, Pair;
    if s == [] {
    } else if |s| >= 2 && IsHigh(s[0]) && IsLow(s[1]) {
      Utf16CodePoints(s[2..]);
      PairParts(s[0], s[1]);
      assert CodePoints(s)[1..] == CodePoints(s[2..]);
      assert s == [s[0], s[1]] + s[2..];
    } else {
      Utf16CodePoints(s[1..]);
      SingleUnit(s[0]);
      assert CodePoints(s)[1..] == CodePoints(s[1..]);
    }
  }

  lemma SingleUnit(cp: int)
    requires cp < 0x1_0000
    ensures Units(cp) == [cp]
  {
  }

  lemma {:induction false} CodePointRange(s: seq<int>)
    requires IsUtf16(s)
    ensures forall j :: 0 <= j < |CodePoints(s)| ==> 0 <= CodePoints(s)[j] <= 0x10_FFFF
  {
    if s == [] {
    } else if |s| >= 2 && IsHigh(s[0]) && IsLow(s[1]) {
      CodePointRange(s[2..]);
    } else {
      CodePointRange(s[1..]);
    }
  }

  method Ucs2Decode(s: seq<int>) returns (output: seq<int>)
    ensures output == CodePoints(s)
  {
    output := [];
    var counter := 0;
    while counter < |s|
      invariant counter <= |s|
      invariant output + CodePoints(s[counter..]) == CodePoints(s)
      decreases |s| - counter
    {
      ghost var rest, from := s[counter..], counter;
      var value := s[counter];
      counter := counter + 1;
      if IsHigh(value) && counter < |s| {
        var extra := s[counter];
        counter := counter + 1;
        if IsLow(extra) {
          assert rest[2..] == s[counter..];
          output := output + [Pair(value, extra)];
        } else {
          counter := counter - 1;
          assert rest[1..] == s[counter..];
          output := output + [value];
        }
      } else {
        assert rest[1..] == s[counter..];
        output := output + [value];
      }
    }
  }

  // ---------- Digits, thresholds and bias adaptation ----------

  function DigitToBasic(digit: nat): (c: int)
    requires digit < BASE
  {
    digit + 22 + 75 * (if digit < 26 then 1 else 0)
  }

  /** Section 5 of RFC 3492: letters of either case are 0..25, digits are 26..35. */
  function DigitValue(c: int): (d: Option<nat>)
    ensures d.Some? ==> d.value < BASE
  {
    if 0x61 <= c <= 0x7A then Some(c - 0x61)
    else if 0x41 <= c <= 0x5A then Some(c - 0x41)
    else if 0x30 <= c <= 0x39 then Some(c - 0x30 + 26)
    else None
  }

  lemma DigitRoundTrip(digit: nat)
    requires digit < BASE
    ensures DigitValue(DigitToBasic(digit)) == Some(digit)
    ensures DigitToBasic(digit) != DELIMITER
  {
    if digit < 26 { assert DigitToBasic(digit) == digit + 97; } else { assert DigitToBasic(digit) == digit + 22; }
  }

  function Threshold(k: nat, bias: nat): (t: nat)
    ensures T_MIN <= t <= T_MAX
  {
    if k <= bias then T_MIN else if k >= bias + T_MAX then T_MAX else k - bias
  }

  function Reduced(delta: nat, k: nat): (r: (nat, nat))
    ensures r.0 <= ((BASE - T_MIN) * T_MAX) / 2
  {
    if delta > ((BASE - T_MIN) * T_MAX) / 2 then Reduced(delta / (BASE - T_MIN), k + BASE) else (delta, k)
  }

  function Damped(delta: nat, numPoints: nat, firstTime: bool): nat
    requires numPoints > 0
  {
    var damped := if firstTime then delta / DAMP else delta / 2;
    damped + damped / numPoints
  }

  function BiasOf(delta: nat, k: nat): nat { k + ((BASE - T_MIN + 1) * delta) / (delta + SKEW) }

  /** The bias adaptation of section 6.1 of RFC 3492. */
  function AdaptedBias(delta: nat, numPoints: nat, firstTime: bool): nat
    requires numPoints > 0
  {
    var (d, k) := Reduced(Damped(delta, numPoints, firstTime), 0);
    BiasOf(d, k)
  }

  /** The source's `adapt`.  `delta >> 1` is a halving because callers keep delta within 31 bits. */
  method Adapt(delta: nat, numPoints: nat, firstTime: bool) returns (bias: nat)
    requires numPoints > 0 && delta <= MAX_INT
    ensures bias == AdaptedBias(delta, numPoints, firstTime)
  {
    hide BiasOf, Damped;
    var k: nat, d: nat := 0, Damped(delta, numPoints, firstTime);
    while d > ((BASE - T_MIN) * T_MAX) / 2
      invariant Reduced(d, k) == Reduced(Damped(delta, numPoints, firstTime), 0)
    {
      d := d / (BASE - T_MIN);
      k := k + BASE;
    }
    bias := BiasOf(d, k);
  }

  // ---------- Variable-length integers ----------

  /** Writing q against threshold t: the digit, and what is left for the following digits. */
  function Digit(q: nat, t: nat): (d: nat)
    requires T_MIN <= t <= T_MAX && t <= q
    ensures t <= d < BASE
  {
    t + (q - t) % (BASE - t)
  }

  function Carry(q: nat, t: nat): (r: nat)
    requires T_MIN <= t <= T_MAX && t <= q
    ensures r < q && q == Digit(q, t) + (BASE - t) * r
  {
    var b := BASE - t;
    assert q - t == b * ((q - t) / b) + (q - t) % b;
    assert 2 * ((q - t) / b) <= b * ((q - t) / b);
    (q - t) / b
  }

  /** The digits the encoder writes for q, least significant first. */
  function VarDigits(q: nat, k: nat, bias: nat): (s: seq<int>)
    ensures s != []
  {
    var t := Threshold(k, bias);
    if q < t then [DigitToBasic(q)]
    else [DigitToBasic(Digit(q, t))] + VarDigits(Carry(q, t), k + BASE, bias)
  }

  /** Section 6.2 of RFC 3492: read one integer, adding digit times weight to i; None is "fail". */
  function VarInt(input: seq<int>, k: nat, bias: nat, i: nat, w: nat): (r: Option<(nat, seq<int>)>)
    ensures r.Some? ==> r.value.0 >= i && |r.value.1| < |input|
  {
    if input == [] then None
    else
      match DigitValue(input[0])
      case None => None
      case Some(d) =>
        var t := Threshold(k, bias);
        if d < t then Some((i + d * w, input[1..]))
        else VarInt(input[1..], k + BASE, bias, i + d * w, w * (BASE - t))
  }

  /** The coding is invertible and self-delimiting for every bias: the reader takes q and stops there. */
  lemma {:induction false} VarIntRoundTrip(q: nat, k: nat, bias: nat, rest: seq<int>, i: nat, w: nat)
    ensures VarInt(VarDigits(q, k, bias) + rest, k, bias, i, w) == Some((i + q * w, rest))
    decreases q
  {
    hide DigitToBasic, DigitValue, Digit, Carry, VarInt;
    var t := Threshold(k, bias);
    var s := VarDigits(q, k, bias) + rest;
    if q < t {
      VarIntLast(q, rest, k, bias, i, w);
    } else {
      var d, r, b := Digit(q, t), Carry(q, t), BASE - t;
      VarIntRoundTrip(r, k + BASE, bias, rest, i + d * w, w * b);
      Weigh(d, b, r, w);
      var digits := VarDigits(r, k + BASE, bias);
      assert s == [DigitToBasic(d)] + digits + rest;
      VarIntStep(d, digits + rest, k, bias, i, w);
      assert [DigitToBasic(d)] + digits + rest == [DigitToBasic(d)] + (digits + rest);
    }
  }

  lemma VarIntLast(d: nat, rest: seq<int>, k: nat, bias: nat, i: nat, w: nat)
    requires d < Threshold(k, bias)
    ensures VarInt([DigitToBasic(d)] + rest, k, bias, i, w) == Some((i + d * w, rest))
  {
    DigitRoundTrip(d);
    var s := [DigitToBasic(d)] + rest;
    assert s[1..] == rest;
  }

  lemma VarIntStep(d: nat, rest: seq<int>, k: nat, bias: nat, i: nat, w: nat)
    requires Threshold(k, bias) <= d < BASE
    ensures VarInt([DigitToBasic(d)] + rest, k, bias, i, w)
         == VarInt(rest, k + BASE, bias, i + d * w, w * (BASE - Threshold(k, bias)))
  {
    DigitRoundTrip(d);
    var s := [DigitToBasic(d)] + rest;
    assert s[1..] == rest;
  }

  lemma Weigh(d: int, b: int, r: int, w: int)
    ensures d * w + r * (w * b) == (d + b * r) * w
  {
    assert r * (w * b) == (b * r) * w;
  }

  lemma {:induction false} VarDigitsAvoidDelimiter(q: nat, k: nat, bias: nat)
    ensures DELIMITER !in VarDigits(q, k, bias)
    decreases q
  {
    var t := Threshold(k, bias);
    if q < t {
      DigitRoundTrip(q);
    } else {
      DigitRoundTrip(Digit(q, t));
      VarDigitsAvoidDelimiter(Carry(q, t), k + BASE, bias);
    }
  }

  method AppendVarInt(delta: nat, bias: nat, output: seq<int>) returns (r: seq<int>)
    ensures r == output + VarDigits(delta, BASE, bias)
  {
    r := output;
    var q: nat, k: nat := delta, BASE;
    while true
      invariant r + VarDigits(q, k, bias) == output + VarDigits(delta, BASE, bias)
      decreases q
    {
      var t := if k <= bias then T_MIN else if k >= bias + T_MAX then T_MAX else k - bias;
      if q < t { break; }
      var qMinusT := q - t;
      var baseMinusT := BASE - t;
      ghost var was, digit := r, DigitToBasic(Digit(q, t));
      assert VarDigits(q, k, bias) == [digit] + VarDigits(Carry(q, t), k + BASE, bias);
      r := r + [DigitToBasic(t + qMinusT % baseMinusT)];
      q := qMinusT / baseMinusT;
      k := k + BASE;
      assert r + VarDigits(q, k, bias) == was + ([digit] + VarDigits(q, k, bias));
    }
    r := r + [DigitToBasic(q)];
  }

  // ---------- The decoder of RFC 3492 ----------

  datatype Decoder = Decoder(n: nat, i: nat, bias: nat, output: seq<int>)

  /** One round of the decoding loop once the integer has been added to i. */
  function Advance(st: Decoder, i: nat): Decoder
    requires i >= st.i
  {
    var len := |st.output| + 1;
    var n, pos := st.n + i / len, i % len;
    Decoder(n, pos + 1, AdaptedBias(i - st.i, len, st.i == 0), st.output[..pos] + [n] + st.output[pos..])
  }

  function DecodeFrom(input: seq<int>, st: Decoder): Option<seq<int>>
    decreases |input|
  {
    if input == [] then Some(st.output)
    else
      match VarInt(input, BASE, st.bias, st.i, 1)
      case None => None
      case Some((i, rest)) => DecodeFrom(rest, Advance(st, i))
  }

  function LastDelimiter(s: seq<int>): (r: Option<nat>)
    ensures r.Some? ==> r.value < |s|
  {
    if s == [] then None
    else if s[|s| - 1] == DELIMITER then Some(|s| - 1)
    else LastDelimiter(s[..|s| - 1])
  }

  function Decode(s: seq<int>): Option<seq<int>> {
    var b := match LastDelimiter(s) case None => 0 case Some(b) => b;
    if exists j :: 0 <= j < b && s[j] >= 0x80 then None
    else DecodeFrom(if b > 0 then s[b + 1..] else s, Decoder(INITIAL_N, 0, INITIAL_BIAS, s[..b]))
  }

  // ---------- How the encoder's state mirrors the decoder's ----------

  /** The code points below n, in order. */
  function Below(cps: seq<int>, n: int): (r: seq<int>)
    ensures |r| <= |cps|
  {
    if cps == [] then []
    else if cps[0] < n then [cps[0]] + Below(cps[1..], n)
    else Below(cps[1..], n)
  }

  lemma {:induction false} BelowConcat(a: seq<int>, b: seq<int>, n: int)
    ensures Below(a + b, n) == Below(a, n) + Below(b, n)
  {
    if a == [] {
      assert a + b == b;
    } else {
      BelowConcat(a[1..], b, n);
      assert (a + b)[0] == a[0] && (a + b)[1..] == a[1..] + b;
      if a[0] < n { Assoc([a[0]], Below(a[1..], n), Below(b, n)); }
    }
  }

  lemma Assoc(a: seq<int>, b: seq<int>, c: seq<int>)
    ensures a + b + c == a + (b + c)
  {
  }

  lemma {:induction false} BelowSame(cps: seq<int>, n: int, m: int)
    requires forall j :: 0 <= j < |cps| ==> (cps[j] < n <==> cps[j] < m)
    ensures Below(cps, n) == Below(cps, m)
  {
    if cps != [] {
      assert cps[0] < n <==> cps[0] < m;
      BelowSame(cps[1..], n, m);
    }
  }

  lemma {:induction false} BelowAll(cps: seq<int>, n: int)
    ensures |Below(cps, n)| == |cps| ==> Below(cps, n) == cps
    ensures |Below(cps, n)| < |cps| ==> exists j :: 0 <= j < |cps| && cps[j] >= n
  {
    if cps != [] {
      BelowAll(cps[1..], n);
      if cps[0] >= n {
        assert cps[0] >= n;
      } else if |Below(cps[1..], n)| < |cps[1..]| {
        var j :| 0 <= j < |cps[1..]| && cps[1..][j] >= n;
        assert cps[j + 1] >= n;
      }
    }
  }

  /** What the decoder has rebuilt when the encoder's pass for n stands before position idx. */
  function Rebuilt(cps: seq<int>, n: nat, idx: nat): seq<int>
    requires idx <= |cps|
  {
    Below(cps[..idx], n + 1) + Below(cps[idx..], n)
  }

  /** The encoder's delta is exactly the decoder's distance to <n, position of idx>. */
  ghost predicate InStep(cps: seq<int>, n: nat, idx: nat, delta: int, handled: nat, st: Decoder)
    requires idx <= |cps|
  {
    && st.output == Rebuilt(cps, n, idx)
    && handled == |st.output|
    && st.n <= n
    && delta == (n - st.n) * (handled + 1) + |Below(cps[..idx], n + 1)| - st.i
    && delta >= 0
  }

  lemma RebuiltStep(cps: seq<int>, n: nat, idx: nat)
    requires idx < |cps|
    ensures Below(cps[..idx + 1], n + 1) == Below(cps[..idx], n + 1) + (if cps[idx] <= n then [cps[idx]] else [])
    ensures Below(cps[idx..], n) == (if cps[idx] < n then [cps[idx]] else []) + Below(cps[idx + 1..], n)
  {
    assert cps[..idx + 1] == cps[..idx] + [cps[idx]];
    BelowConcat(cps[..idx], [cps[idx]], n + 1);
    assert Below([cps[idx]], n + 1) == if cps[idx] <= n then [cps[idx]] else [];
    assert cps[idx..][1..] == cps[idx + 1..];
  }

  /** Reading the written delta makes the decoder insert n exactly where the encoder stands. */
  lemma InsertStep(cps: seq<int>, n: nat, idx: nat, delta: nat, handled: nat, st: Decoder)
    requires idx < |cps| && cps[idx] == n
    requires InStep(cps, n, idx, delta, handled, st)
    ensures InStep(cps, n, idx + 1, 0, handled + 1, Advance(st, st.i + delta))
    ensures Advance(st, st.i + delta).bias == AdaptedBias(delta, handled + 1, st.i == 0)
    ensures Advance(st, st.i + delta).i > 0
  {
    hide AdaptedBias;
    var left, right := Below(cps[..idx], n + 1), Below(cps[idx..], n);
    AdvanceAt(st, n, |left|, delta);
    RebuiltStep(cps, n, idx);
    assert st.output == left + right;
    assert st.output[..|left|] == left && st.output[|left|..] == right;
    assert (n - n) * (handled + 2) == 0;
  }

  lemma AdvanceAt(st: Decoder, n: nat, pos: nat, delta: nat)
    requires st.n <= n && pos <= |st.output|
    requires delta == (n - st.n) * (|st.output| + 1) + pos - st.i
    ensures Advance(st, st.i + delta) ==
      Decoder(n, pos + 1, AdaptedBias(delta, |st.output| + 1, st.i == 0), st.output[..pos] + [n] + st.output[pos..])
  {
    hide AdaptedBias;
    DivModUnique(n - st.n, |st.output| + 1, pos);
  }

  lemma DivModUnique(q: nat, len: nat, pos: nat)
    requires pos < len
    ensures (q * len + pos) / len == q && (q * len + pos) % len == pos
  {
    var x := q * len + pos;
    QuotientUnique(x / len, x % len, q, pos, len);
  }

  lemma QuotientUnique(a: int, r: nat, b: int, s: nat, len: nat)
    requires r < len && s < len && a * len + r == b * len + s
    ensures a == b && r == s
  {
    SmallMultiple(a - b, len);
    Distribute(a - b, b, len);
  }

  lemma SmallMultiple(x: int, len: int)
    requires len >= 0
    ensures x >= 1 ==> x * len >= len
    ensures x <= -1 ==> x * len <= -len
  {
  }

  /** Every text that continues the digits written so far is decoded from the state st. */
  ghost predicate Leads(start: Decoder, digits: seq<int>, st: Decoder) {
    forall rest: seq<int> :: DecodeFrom(digits + rest, start) == DecodeFrom(rest, st)
  }

  lemma LeadsStep(start: Decoder, digits: seq<int>, st: Decoder, delta: nat)
    requires Leads(start, digits, st)
    ensures Leads(start, digits + VarDigits(delta, BASE, st.bias), Advance(st, st.i + delta))
  {
    hide Advance, VarDigits;
    var more := VarDigits(delta, BASE, st.bias);
    forall rest: seq<int>
      ensures DecodeFrom(digits + more + rest, start) == DecodeFrom(rest, Advance(st, st.i + delta))
    {
      assert digits + more + rest == digits + (more + rest);
      VarIntRoundTrip(delta, BASE, st.bias, rest, st.i, 1);
    }
  }

  lemma {:induction false} LastDelimiterAt(basic: seq<int>, digits: seq<int>)
    requires DELIMITER !in digits
    ensures LastDelimiter(digits) == None
    ensures LastDelimiter(basic + [DELIMITER] + digits) == Some(|basic|)
    decreases |digits|
  {
    var s := basic + [DELIMITER] + digits;
    if digits != [] {
      var front := digits[..|digits| - 1];
      LastDelimiterAt(basic, front);
      assert s[..|s| - 1] == basic + [DELIMITER] + front;
    }
  }

  // ---------- The encoding as a function of the code points ----------

  /** How far the decoder in state st is from inserting n at the place of index idx. */
  function Distance(cps: seq<int>, n: nat, idx: nat, st: Decoder): int
    requires idx <= |cps|
  {
    (n - st.n) * (|st.output| + 1) + |Below(cps[..idx], n + 1)| - st.i
  }

  /**
   The digits for the code points from value n, index idx on, by value and then by place: each distance
   as a variable-length integer.  None if a distance, or what is counted behind the last one, exceeds 2^31 - 1.
   */
  function Digits(cps: seq<int>, n: nat, idx: nat, st: Decoder): Option<seq<int>>
    requires idx <= |cps|
    decreases 0x11_0000 - n, |cps| - idx
  {
    if idx < |cps| then
      if cps[idx] != n then Digits(cps, n, idx + 1, st)
      else
        var d := Distance(cps, n, idx, st);
        if d < 0 || d > MAX_INT then None
        else Prepend(VarDigits(d, BASE, st.bias), Digits(cps, n, idx + 1, Advance(st, st.i + d)))
    else if |st.output| >= |cps| then
      if Distance(cps, n, idx, st) > MAX_INT then None else Some([])
    else if n >= 0x10_FFFF then None
    else Digits(cps, n + 1, 0, st)
  }

  function Begun(basic: seq<int>): Decoder { Decoder(INITIAL_N, 0, INITIAL_BIAS, basic) }

  /** The one encoding of a text; None exactly where the encoder overflows. */
  function EncodedText(cps: seq<int>): Option<seq<int>> {
    var basic := Below(cps, INITIAL_N);
    if |basic| == |cps| then Some(Head(basic))
    else Prepend(Head(basic), Digits(cps, INITIAL_N, 0, Begun(basic)))
  }

  lemma PrependTwice(a: seq<int>, b: seq<int>, r: Option<seq<int>>)
    ensures Prepend(a, Prepend(b, r)) == Prepend(a + b, r)
  {
    if r.Some? { assert a + (b + r.value) == a + b + r.value; }
  }

  lemma InStepSkip(cps: seq<int>, n: nat, idx: nat, delta: nat, handled: nat, st: Decoder)
    requires idx < |cps| && cps[idx] != n && InStep(cps, n, idx, delta, handled, st)
    ensures InStep(cps, n, idx + 1, delta + (if cps[idx] < n then 1 else 0), handled, st)
  {
    hide Below;
    RebuiltStep(cps, n, idx);
    SkipRebuilt(cps, n, idx);
  }

  /** Once the distance is too large there is no way on. */
  lemma {:induction false} TooFar(cps: seq<int>, n: nat, idx: nat, delta: nat, handled: nat, st: Decoder)
    requires idx <= |cps| && InStep(cps, n, idx, delta, handled, st) && delta > MAX_INT
    ensures Digits(cps, n, idx, st) == None
    decreases 0x11_0000 - n, |cps| - idx
  {
    hide Below, Advance, Rebuilt, VarDigits;
    if idx < |cps| {
      if cps[idx] != n {
        InStepSkip(cps, n, idx, delta, handled, st);
        TooFar(cps, n, idx + 1, delta + (if cps[idx] < n then 1 else 0), handled, st);
      }
    } else if |st.output| < |cps| && n < 0x10_FFFF {
      EndOfPass(cps, n, delta, handled, st);
      TooFar(cps, n + 1, 0, delta + 1, handled, st);
    }
  }

  lemma DigitsEmit(cps: seq<int>, n: nat, idx: nat, delta: nat, handled: nat, st: Decoder)
    requires idx < |cps| && cps[idx] == n && InStep(cps, n, idx, delta, handled, st) && delta <= MAX_INT
    ensures Digits(cps, n, idx, st) ==
            Prepend(VarDigits(delta, BASE, st.bias), Digits(cps, n, idx + 1, Advance(st, st.i + delta)))
  {
    hide Below, Advance, Rebuilt, VarDigits;
  }

  lemma {:induction false} DigitsPass(cps: seq<int>, n: nat, idx: nat, st: Decoder)
    requires idx <= |cps| && forall j :: idx <= j < |cps| ==> cps[j] != n
    ensures Digits(cps, n, idx, st) == Digits(cps, n, |cps|, st)
    decreases |cps| - idx
  {
    hide Distance, Advance, VarDigits;
    if idx < |cps| { DigitsPass(cps, n, idx + 1, st); }
  }

  /** Values that do not occur are passed over. */
  lemma {:induction false} DigitsSkip(cps: seq<int>, n: nat, m: nat, st: Decoder)
    requires n <= m <= 0x10_FFFF && |st.output| < |cps|
    requires forall j :: 0 <= j < |cps| ==> cps[j] < n || cps[j] >= m
    ensures Digits(cps, n, 0, st) == Digits(cps, m, 0, st)
    decreases m - n
  {
    hide Distance, Advance, VarDigits;
    if n < m {
      DigitsPass(cps, n, 0, st);
      DigitsSkip(cps, n + 1, m, st);
    }
  }

  // ---------- The encoder ----------

  /** The smallest code point that is at least n (the source's search for m). */
  method NextCodePoint(input: seq<int>, n: nat) returns (m: nat)
    requires exists j :: 0 <= j < |input| && input[j] >= n
    requires forall j :: 0 <= j < |input| ==> input[j] < MAX_INT
    ensures m >= n && m in input
    ensures forall j :: 0 <= j < |input| ==> input[j] < n || input[j] >= m
  {
    m := MAX_INT;
    for i := 0 to |input|
      invariant m == MAX_INT || (m >= n && m in input)
      invariant forall j :: 0 <= j < i ==> input[j] < n || input[j] >= m
      invariant m == MAX_INT ==> forall j :: 0 <= j < i ==> input[j] < n
    {
      if input[i] >= n && input[i] < m { m := input[i]; }
    }
  }

  /** With this many code points no intermediate value can pass 2^31 - 1. */
  ghost predicate Fits(count: nat) { (count + 1) * 0x11_0000 <= 0x7FFF_FFFF }

  lemma DeltaFits(n: nat, handled: nat, pos: nat, count: nat)
    requires n <= 0x10_FFFF && pos <= handled <= count
    ensures n * (handled + 1) + pos <= (count + 1) * 0x11_0000
  {
    assert n * (handled + 1) <= 0x10_FFFF * (handled + 1);
  }

  lemma GuardExceeded(x: int, y: int, h: nat)
    requires h > 0 && x > y / h
    ensures x * h > y
  {
    assert y == (y / h) * h + y % h;
    assert x * h >= (y / h + 1) * h;
  }

  lemma GuardPassed(x: int, y: int, h: nat)
    requires h > 0 && x <= y / h
    ensures x * h <= y
  {
    assert y == (y / h) * h + y % h;
  }

  lemma StartOfPass(cps: seq<int>, n: nat)
    ensures Rebuilt(cps, n, 0) == Below(cps, n) && Below(cps[..0], n + 1) == []
  {
    assert cps[0..] == cps;
  }

  /** Moving from n to the next code point m present costs (m - n) rounds of handled + 1. */
  lemma PassTo(cps: seq<int>, n: nat, m: nat, delta: int, handled: nat, st: Decoder)
    requires InStep(cps, n, 0, delta, handled, st) && m >= n
    requires forall j :: 0 <= j < |cps| ==> cps[j] < n || cps[j] >= m
    ensures InStep(cps, m, 0, delta + (m - n) * (handled + 1), handled, st)
    ensures delta + (m - n) * (handled + 1) == (m - st.n) * (handled + 1) - st.i
  {
    StartOfPass(cps, n);
    StartOfPass(cps, m);
    BelowSame(cps, n, m);
    Distribute(m - n, n - st.n, handled + 1);
  }

  lemma Distribute(x: int, y: int, h: nat)
    ensures (x + y) * h == x * h + y * h
    ensures x >= 0 ==> x * h >= 0
  {
  }

  lemma EndOfPass(cps: seq<int>, n: nat, delta: int, handled: nat, st: Decoder)
    requires InStep(cps, n, |cps|, delta, handled, st)
    ensures InStep(cps, n + 1, 0, delta + 1, handled, st)
  {
    assert cps[..|cps|] == cps && cps[|cps|..] == [];
    StartOfPass(cps, n + 1);
    assert (n + 1 - st.n) * (handled + 1) == (n - st.n) * (handled + 1) + handled + 1;
  }

  lemma RebuiltLength(cps: seq<int>, n: nat, idx: nat)
    requires idx <= |cps|
    ensures |Below(cps[..idx], n + 1)| <= |Rebuilt(cps, n, idx)| <= |cps|
    ensures idx < |cps| && cps[idx] == n ==> |Rebuilt(cps, n, idx)| < |cps|
  {
    if idx < |cps| { RebuiltStep(cps, n, idx); }
  }

  lemma {:induction false} BelowBound(cps: seq<int>, n: nat)
    ensures forall c :: c in Below(cps, n) ==> c < n
  {
    if cps != [] { BelowBound(cps[1..], n); }
  }

  /** The state shared by the encoder and the decoder reading behind it. */
  ghost predicate Sync(input: seq<int>, n: nat, idx: nat, delta: int, handled: nat, bias: nat,
                       basic: seq<int>, digits: seq<int>, st: Decoder)
    requires idx <= |input|
  {
    && Leads(Decoder(INITIAL_N, 0, INITIAL_BIAS, basic), digits, st)
    && st.bias == bias
    && DELIMITER !in digits
    && InStep(input, n, idx, delta, handled, st)
    && |basic| <= handled <= |input|
    && (handled == |basic| <==> st.i == 0)
  }

  /** Writing one delta keeps the two in step. */
  lemma SyncEmit(input: seq<int>, n: nat, idx: nat, delta: nat, handled: nat, bias: nat,
                 basic: seq<int>, digits: seq<int>, st: Decoder)
    requires idx < |input| && input[idx] == n
    requires Sync(input, n, idx, delta, handled, bias, basic, digits, st)
    ensures Sync(input, n, idx + 1, 0, handled + 1, AdaptedBias(delta, handled + 1, handled == |basic|),
                 basic, digits + VarDigits(delta, BASE, bias), Advance(st, st.i + delta))
  {
    InsertStep(input, n, idx, delta, handled, st);
    LeadsStep(Decoder(INITIAL_N, 0, INITIAL_BIAS, basic), digits, st, delta);
    VarDigitsAvoidDelimiter(delta, BASE, bias);
    RebuiltLength(input, n, idx);
  }

  /** Passing a code point that is not n only counts it. */
  lemma SyncSkip(input: seq<int>, n: nat, idx: nat, delta: nat, handled: nat, bias: nat,
                 basic: seq<int>, digits: seq<int>, st: Decoder)
    requires idx < |input| && input[idx] != n
    requires Sync(input, n, idx, delta, handled, bias, basic, digits, st)
    ensures Sync(input, n, idx + 1, delta + (if input[idx] < n then 1 else 0), handled, bias, basic, digits, st)
  {
    hide Leads, Below;
    RebuiltStep(input, n, idx);
    assert Rebuilt(input, n, idx + 1) == Rebuilt(input, n, idx) by { SkipRebuilt(input, n, idx); }
  }

  lemma SkipRebuilt(cps: seq<int>, n: nat, idx: nat)
    requires idx < |cps| && cps[idx] != n
    ensures Rebuilt(cps, n, idx + 1) == Rebuilt(cps, n, idx)
  {
    hide Below;
    RebuiltStep(cps, n, idx);
    var left, right := Below(cps[..idx], n + 1), Below(cps[idx + 1..], n);
    assert left + [] + right == left + ([] + right);
    assert left + [cps[idx]] + right == left + ([cps[idx]] + right);
  }

  lemma SyncBound(input: seq<int>, n: nat, idx: nat, delta: nat, handled: nat, bias: nat,
                  basic: seq<int>, digits: seq<int>, st: Decoder)
    requires idx <= |input| && n <= 0x10_FFFF
    requires Sync(input, n, idx, delta, handled, bias, basic, digits, st)
    ensures delta > MAX_INT ==> !Fits(|input|)
  {
    RebuiltLength(input, n, idx);
    DeltaFits(n - st.n, handled, |Below(input[..idx], n + 1)|, |input|);
  }

  lemma SyncDistance(input: seq<int>, n: nat, idx: nat, delta: nat, handled: nat, bias: nat,
                     basic: seq<int>, digits: seq<int>, st: Decoder)
    requires idx <= |input|
    requires Sync(input, n, idx, delta, handled, bias, basic, digits, st)
    ensures delta > MAX_INT ==> Digits(input, n, idx, st) == None
    ensures idx < |input| && input[idx] == n && delta <= MAX_INT ==>
      Digits(input, n, idx, st) == Prepend(VarDigits(delta, BASE, bias), Digits(input, n, idx + 1, Advance(st, st.i + delta)))
    ensures idx < |input| && input[idx] != n ==> Digits(input, n, idx, st) == Digits(input, n, idx + 1, st)
    ensures idx == |input| && delta <= MAX_INT ==>
      Digits(input, n, idx, st) ==
      if handled == |input| then Some([]) else if n >= 0x10_FFFF then None else Digits(input, n + 1, 0, st)
    ensures |st.output| == handled <= |input|
  {
    hide Leads, Advance, VarDigits, Below, Rebuilt;
    if delta > MAX_INT {
      TooFar(input, n, idx, delta, handled, st);
    } else if idx < |input| && input[idx] == n {
      DigitsEmit(input, n, idx, delta, handled, st);
    }
  }

  /** The inner loop of the source: one pass over the input for the code point n. */
  method EncodePass(input: seq<int>, n: nat, delta0: nat, bias0: nat, handled0: nat, basicLength: nat, output0: seq<int>,
                    ghost basic: seq<int>, ghost digits0: seq<int>, ghost st0: Decoder)
    returns (ok: bool, delta: nat, bias: nat, handled: nat, output: seq<int>, ghost more: seq<int>, ghost st: Decoder)
    requires n <= 0x10_FFFF && delta0 <= MAX_INT && basicLength == |basic|
    requires Sync(input, n, 0, delta0, handled0, bias0, basic, digits0, st0)
    ensures !ok ==> !Fits(|input|) && Digits(input, n, 0, st0) == None
    ensures ok ==> delta <= MAX_INT && Sync(input, n, |input|, delta, handled, bias, basic, digits0 + more, st)
    ensures ok && n in input ==> handled > handled0
    ensures ok ==> output == output0 + more && Digits(input, n, 0, st0) == Prepend(more, Digits(input, n, |input|, st))
  {
    hide Sync, Advance, VarDigits, AdaptedBias, Digits, Fits;
    ok, delta, bias, handled, output, more, st := true, delta0, bias0, handled0, output0, [], st0;
    assert digits0 + more == digits0;
    PrependNothing(Digits(input, n, 0, st0));
    for i := 0 to |input|
      invariant delta <= MAX_INT && Sync(input, n, i, delta, handled, bias, basic, digits0 + more, st)
      invariant handled >= handled0 && (n in input[..i] ==> handled > handled0)
      invariant output == output0 + more
      invariant Digits(input, n, 0, st0) == Prepend(more, Digits(input, n, i, st))
    {
      assert input[..i + 1] == input[..i] + [input[i]];
      var currentValue := input[i];
      SyncDistance(input, n, i, delta, handled, bias, basic, digits0 + more, st);
      if currentValue < n {
        delta := delta + 1;
        SyncSkip(input, n, i, delta - 1, handled, bias, basic, digits0 + more, st);
        if delta > MAX_INT {
          SyncBound(input, n, i + 1, delta, handled, bias, basic, digits0 + more, st);
          SyncDistance(input, n, i + 1, delta, handled, bias, basic, digits0 + more, st);
          ok := false;
          return;
        }
      }
      if currentValue == n {
        SyncEmit(input, n, i, delta, handled, bias, basic, digits0 + more, st);
        ghost var digits := VarDigits(delta, BASE, bias);
        assert digits0 + more + digits == digits0 + (more + digits);
        PrependTwice(more, digits, Digits(input, n, i + 1, Advance(st, st.i + delta)));
        output := AppendVarInt(delta, bias, output);
        more := more + digits;
        st := Advance(st, st.i + delta);
        bias := Adapt(delta, handled + 1, handled == basicLength);
        delta := 0;
        handled := handled + 1;
      }
      if currentValue > n {
        SyncSkip(input, n, i, delta, handled, bias, basic, digits0 + more, st);
      }
    }
    assert input[..|input|] == input;
  }

  lemma PrependNothing(r: Option<seq<int>>)
    ensures Prepend([], r) == r
  {
    if r.Some? { assert [] + r.value == r.value; }
  }

  method BasicCodePoints(input: seq<int>) returns (output: seq<int>)
    ensures output == Below(input, INITIAL_N)
  {
    output := [];
    for i := 0 to |input|
      invariant output == Below(input[..i], INITIAL_N)
    {
      assert input[..i + 1] == input[..i] + [input[i]];
      BelowConcat(input[..i], [input[i]], INITIAL_N);
      if input[i] < 0x80 { output := output + [input[i]]; }
    }
    assert input[..|input|] == input;
  }

  lemma SyncStart(input: seq<int>)
    ensures Sync(input, INITIAL_N, 0, 0, |Below(input, INITIAL_N)|, INITIAL_BIAS, Below(input, INITIAL_N), [],
                 Decoder(INITIAL_N, 0, INITIAL_BIAS, Below(input, INITIAL_N)))
  {
    StartOfPass(input, INITIAL_N);
    assert forall rest: seq<int> :: [] + rest == rest;
  }

  lemma SyncPass(input: seq<int>, n: nat, m: nat, delta: int, handled: nat, bias: nat,
                 basic: seq<int>, digits: seq<int>, st: Decoder)
    requires Sync(input, n, 0, delta, handled, bias, basic, digits, st) && m >= n
    requires forall j :: 0 <= j < |input| ==> input[j] < n || input[j] >= m
    ensures delta + (m - n) * (handled + 1) >= 0
    ensures Sync(input, m, 0, delta + (m - n) * (handled + 1), handled, bias, basic, digits, st)
  {
    hide Leads;
    PassTo(input, n, m, delta, handled, st);
  }

  lemma SyncPassEnd(input: seq<int>, n: nat, delta: int, handled: nat, bias: nat,
                    basic: seq<int>, digits: seq<int>, st: Decoder)
    requires Sync(input, n, |input|, delta, handled, bias, basic, digits, st)
    ensures Sync(input, n + 1, 0, delta + 1, handled, bias, basic, digits, st)
  {
    hide Leads;
    EndOfPass(input, n, delta, handled, st);
  }

  lemma SyncUnfinished(input: seq<int>, n: nat, delta: int, handled: nat, bias: nat,
                       basic: seq<int>, digits: seq<int>, st: Decoder)
    requires Sync(input, n, 0, delta, handled, bias, basic, digits, st)
    ensures handled < |input| ==> exists j :: 0 <= j < |input| && input[j] >= n
    ensures handled == |input| ==> st.output == input
    ensures |basic| <= handled <= |input|
  {
    hide Leads;
    StartOfPass(input, n);
    BelowAll(input, n);
  }

  /** When every code point is handled, the decoder has the whole text. */
  lemma Finished(input: seq<int>, n: nat, delta: int, bias: nat, basic: seq<int>, digits: seq<int>, st: Decoder)
    requires basic == Below(input, INITIAL_N)
    requires Sync(input, n, 0, delta, |input|, bias, basic, digits, st)
    ensures Decode(Head(basic) + digits) == Some(input)
  {
    hide InStep, AdaptedBias, Below;
    SyncUnfinished(input, n, delta, |input|, bias, basic, digits, st);
    BelowBound(input, INITIAL_N);
    assert digits + [] == digits;
    assert DecodeFrom(digits + [], Decoder(INITIAL_N, 0, INITIAL_BIAS, basic)) == DecodeFrom([], st);
    DecodeHead(basic, digits);
  }

  /** The basic code points with their delimiter; nothing when there are none. */
  function Head(basic: seq<int>): seq<int> { if basic == [] then [] else basic + [DELIMITER] }

  lemma DecodeHead(basic: seq<int>, digits: seq<int>)
    requires DELIMITER !in digits
    requires forall c :: c in basic ==> c < 0x80
    ensures Decode(Head(basic) + digits) == DecodeFrom(digits, Decoder(INITIAL_N, 0, INITIAL_BIAS, basic))
  {
    hide DecodeFrom;
    LastDelimiterAt(basic, digits);
    var s := Head(basic) + digits;
    if basic == [] {
      assert s == digits && s[..0] == [];
    } else {
      assert s == basic + [DELIMITER] + digits;
      assert s[..|basic|] == basic && s[|basic| + 1..] == digits;
      assert forall j :: 0 <= j < |basic| ==> s[j] == basic[j] && basic[j] in basic;
    }
  }

  method Encode(text: seq<int>) returns (r: Result<seq<int>>)
    requires IsUtf16(text)
    ensures r.Success? ==> Decode(r.value) == Some(CodePoints(text)) && Utf16(CodePoints(text)) == text
    ensures r == match EncodedText(CodePoints(text)) { case Some(s) => Success(s) case None => Throws(OVERFLOW_ERROR) }
    ensures Fits(|CodePoints(text)|) ==> r.Success?
  {
    hide Sync, Decode, CodePoints, Utf16, Below, Fits, Digits, EncodedText, Head, IsUtf16;
    var input := Ucs2Decode(text);
    CodePointRange(text);
    var n: nat, delta: nat, bias: nat := INITIAL_N, 0, INITIAL_BIAS;
    var output := BasicCodePoints(input);
    var basicLength := |output|;
    var handled: nat := basicLength;
    ghost var basic := output;
    HeadText(basic);
    if basicLength > 0 { output := output + [DELIMITER]; }
    ghost var digits: seq<int>, st := [], Begun(basic);
    SyncStart(input);
    SyncUnfinished(input, n, delta, handled, bias, basic, digits, st);
    TextStart(input);
    assert Head(basic) + [] == Head(basic);

    while handled < |input|
      invariant Sync(input, n, 0, delta, handled, bias, basic, digits, st)
      invariant output == Head(basic) + digits
      invariant handled <= |input|
      invariant n <= 0x11_0000 && delta <= MAX_INT + 1
      invariant EncodedText(input) == if handled < |input| then Prepend(output, Digits(input, n, 0, st)) else Some(output)
      decreases |input| - handled
    {
      SyncUnfinished(input, n, delta, handled, bias, basic, digits, st);
      ghost var before, n0, st0 := output, n, st;
      var m := NextCodePoint(input, n);
      SyncHandled(input, n, delta, handled, bias, basic, digits, st);
      DigitsSkip(input, n, m, st);
      var handledPlusOne := handled + 1;
      SyncPass(input, n, m, delta, handled, bias, basic, digits, st);
      SyncGuard(input, n, m, delta, handled, bias, basic, digits, st);
      if m - n > (MAX_INT - delta) / handledPlusOne { return Throws(OVERFLOW_ERROR); }
      delta := delta + (m - n) * handledPlusOne;
      n := m;
      var ok;
      ghost var more;
      ok, delta, bias, handled, output, more, st :=
        EncodePass(input, n, delta, bias, handled, basicLength, output, basic, digits, st);
      if !ok { return Throws(OVERFLOW_ERROR); }
      digits := digits + more;
      SyncDistance(input, n, |input|, delta, handled, bias, basic, digits, st);
      PrependTwice(before, more, Digits(input, n, |input|, st));
      SyncPassEnd(input, n, delta, handled, bias, basic, digits, st);
      delta := delta + 1;
      n := n + 1;
      SyncUnfinished(input, n, delta, handled, bias, basic, digits, st);
      assert before + more == output && output + [] == output;
    }
    Finished(input, n, delta, bias, basic, digits, st);
    Utf16CodePoints(text);
    return Success(output);
  }

  /** The guard before a pass throws exactly if the distance to its code point is too large. */
  lemma SyncGuard(input: seq<int>, n: nat, m: nat, delta: nat, handled: nat, bias: nat,
                  basic: seq<int>, digits: seq<int>, st: Decoder)
    requires n <= m <= 0x10_FFFF
    requires Sync(input, m, 0, delta + (m - n) * (handled + 1), handled, bias, basic, digits, st)
    ensures if m - n > (MAX_INT - delta) / (handled + 1) then !Fits(|input|) && Digits(input, m, 0, st) == None
            else delta + (m - n) * (handled + 1) <= MAX_INT
  {
    hide Sync, Digits, Fits;
    if m - n > (MAX_INT - delta) / (handled + 1) {
      GuardExceeded(m - n, MAX_INT - delta, handled + 1);
      SyncBound(input, m, 0, delta + (m - n) * (handled + 1), handled, bias, basic, digits, st);
      SyncDistance(input, m, 0, delta + (m - n) * (handled + 1), handled, bias, basic, digits, st);
    } else {
      GuardPassed(m - n, MAX_INT - delta, handled + 1);
    }
  }

  lemma SyncHandled(input: seq<int>, n: nat, delta: nat, handled: nat, bias: nat,
                    basic: seq<int>, digits: seq<int>, st: Decoder)
    requires Sync(input, n, 0, delta, handled, bias, basic, digits, st)
    ensures |st.output| == handled
  {
  }

  lemma HeadText(basic: seq<int>)
    ensures Head(basic) == if |basic| > 0 then basic + [DELIMITER] else basic
  {
  }

  lemma TextStart(cps: seq<int>)
    ensures var basic := Below(cps, INITIAL_N);
            EncodedText(cps) ==
            if |basic| < |cps| then Prepend(Head(basic), Digits(cps, INITIAL_N, 0, Begun(basic))) else Some(Head(basic))
  {
    hide Below, Digits, Head;
  }

  // ---------- What the encoding looks like ----------

  predicate IsLowerDigit(c: int) { 0x61 <= c <= 0x7A || 0x30 <= c <= 0x39 }

  lemma {:induction false} VarDigitsLower(q: nat, k: nat, bias: nat)
    ensures forall i :: 0 <= i < |VarDigits(q, k, bias)| ==> IsLowerDigit(VarDigits(q, k, bias)[i])
    decreases q
  {
    hide Digit, Carry;
    var t := Threshold(k, bias);
    if q >= t { VarDigitsLower(Carry(q, t), k + BASE, bias); }
  }

  /** Only lower-case digits are written, and at least one for each code point. */
  lemma {:induction false} DigitsLower(cps: seq<int>, n: nat, idx: nat, st: Decoder)
    requires idx <= |cps|
    ensures var r := Digits(cps, n, idx, st);
            r.Some? ==> |r.value| >= |cps| - |st.output| && forall i :: 0 <= i < |r.value| ==> IsLowerDigit(r.value[i])
    decreases 0x11_0000 - n, |cps| - idx
  {
    hide Distance, Advance, VarDigits, IsLowerDigit;
    if idx < |cps| {
      if cps[idx] != n {
        DigitsLower(cps, n, idx + 1, st);
      } else {
        var d := Distance(cps, n, idx, st);
        if 0 <= d <= MAX_INT {
          AdvanceLength(st, st.i + d);
          VarDigitsLower(d, BASE, st.bias);
          DigitsLower(cps, n, idx + 1, Advance(st, st.i + d));
        }
      }
    } else if |st.output| < |cps| && n < 0x10_FFFF {
      DigitsLower(cps, n + 1, 0, st);
    }
  }

  lemma AdvanceLength(st: Decoder, i: nat)
    requires i >= st.i
    ensures |Advance(st, i).output| == |st.output| + 1
  {
    hide AdaptedBias;
  }

  lemma {:induction false} BelowCharacters(cps: seq<int>, n: int)
    ensures forall i :: 0 <= i < |Below(cps, n)| ==> Below(cps, n)[i] in cps && Below(cps, n)[i] < n
  {
    if cps != [] { BelowCharacters(cps[1..], n); }
  }

  /** The encoding holds the basic code points as they are, the delimiter and lower-case digits, and is no shorter than the text. */
  lemma EncodedCharacters(cps: seq<int>)
    requires EncodedText(cps).Some?
    ensures var s := EncodedText(cps).value;
            |s| >= |cps| &&
            forall i :: 0 <= i < |s| ==> s[i] == DELIMITER || IsLowerDigit(s[i]) || (s[i] in cps && s[i] < INITIAL_N)
  {
    hide Digits, Below, IsLowerDigit;
    var basic := Below(cps, INITIAL_N);
    TextStart(cps);
    BelowCharacters(cps, INITIAL_N);
    DigitsLower(cps, INITIAL_N, 0, Begun(basic));
  }

  lemma {:induction false} DigitsDecode(cps: seq<int>, n: nat, idx: nat, delta: nat, handled: nat, bias: nat,
                                        basic: seq<int>, digits: seq<int>, st: Decoder)
    requires idx <= |cps| && basic == Below(cps, INITIAL_N)
    requires Sync(cps, n, idx, delta, handled, bias, basic, digits, st)
    ensures var r := Digits(cps, n, idx, st); r.Some? ==> Decode(Head(basic) + (digits + r.value)) == Some(cps)
    decreases 0x11_0000 - n, |cps| - idx
  {
    hide Sync, Advance, VarDigits, Decode, Head, Below, AdaptedBias;
    SyncDistance(cps, n, idx, delta, handled, bias, basic, digits, st);
    if Digits(cps, n, idx, st).Some? {
      if idx < |cps| && cps[idx] != n {
        SyncSkip(cps, n, idx, delta, handled, bias, basic, digits, st);
        DigitsDecode(cps, n, idx + 1, delta + (if cps[idx] < n then 1 else 0), handled, bias, basic, digits, st);
      } else if idx < |cps| {
        var more, next := VarDigits(delta, BASE, bias), Advance(st, st.i + delta);
        SyncEmit(cps, n, idx, delta, handled, bias, basic, digits, st);
        DigitsDecode(cps, n, idx + 1, 0, handled + 1, AdaptedBias(delta, handled + 1, handled == |basic|),
                     basic, digits + more, next);
        Assoc(digits, more, Digits(cps, n, idx + 1, next).value);
      } else {
        SyncPassEnd(cps, n, delta, handled, bias, basic, digits, st);
        if handled == |cps| {
          Finished(cps, n + 1, delta + 1, bias, basic, digits, st);
          assert digits + [] == digits;
        } else {
          DigitsDecode(cps, n + 1, 0, delta + 1, handled, bias, basic, digits, st);
        }
      }
    }
  }

  /** The encoding of a text, where there is one, decodes to the text. */
  lemma EncodedTextDecodes(cps: seq<int>)
    requires EncodedText(cps).Some?
    ensures Decode(EncodedText(cps).value) == Some(cps)
  {
    hide Sync, Digits, Decode, Head, Below;
    var basic := Below(cps, INITIAL_N);
    TextStart(cps);
    SyncStart(cps);
    SyncUnfinished(cps, INITIAL_N, 0, |basic|, INITIAL_BIAS, basic, [], Begun(basic));
    if |basic| < |cps| {
      DigitsDecode(cps, INITIAL_N, 0, 0, |basic|, INITIAL_BIAS, basic, [], Begun(basic));
      var r := Digits(cps, INITIAL_N, 0, Begun(basic));
      assert [] + r.value == r.value;
    } else {
      Finished(cps, INITIAL_N, 0, INITIAL_BIAS, basic, [], Begun(basic));
      assert Head(basic) + [] == Head(basic);
    }
  }
}
