/** Frequency text: the operator's list of megahertz or hertz values, its parser,
    its printer, and exactly when printing can be undone. Fractions are exact. */
module Frequencies {
  import opened Basics
  import D = Decimals

  datatype Error = Invalid(token: string) | NotPositive(token: string)
  datatype Result<+T> = Ok(value: T) | Err(error: Error)

  /** Python's round(): to nearest, ties to even. */
  function RoundHalfEven(n: nat, d: nat): nat
    requires d > 0
  {
    Nearest(n / d, n % d, d)
  }

  /** q + r / d rounded, for a remainder r. */
  function Nearest(q: nat, r: nat, d: nat): nat {
    if 2 * r < d then q else if 2 * r > d then q + 1 else if q % 2 == 0 then q else q + 1
  }

  function Pow10(k: nat): (p: nat)
    ensures p > 0
  {
    if k == 0 then 1 else 10 * Pow10(k - 1)
  }

  // ----- Reading one token -----

  /** A decimal number: units / 10^scale. */
  datatype Number = Number(units: int, scale: nat)

  /** The first position of a dot, or the length. */
  function DotAt(s: string): (k: nat)
    ensures k <= |s|
    ensures forall i :: 0 <= i < k ==> s[i] != '.'
    ensures k < |s| ==> s[k] == '.'
  {
    if s == [] || s[0] == '.' then 0 else 1 + DotAt(s[1..])
  }

  function ParseUnsigned(s: string): Option<Number> {
    var k := DotAt(s);
    var whole, frac := s[..k], if k < |s| then s[k + 1..] else [];
    if whole + frac != [] && D.AllDigits(whole + frac)
    then Some(Number(D.Value(whole + frac), |frac|)) else None
  }

  /** float() on a plain decimal: optional sign, digits, optional fraction. */
  function ParseNumber(s: string): Option<Number> {
    if s != [] && (s[0] == '-' || s[0] == '+') then
      match ParseUnsigned(s[1..]) {
        case None => None
        case Some(v) => Some(if s[0] == '-' then Number(-v.units, v.scale) else v)
      }
    else ParseUnsigned(s)
  }

  function LowerChar(c: char): char {
    if 'A' <= c <= 'Z' then (c as int + 32) as char else c
  }

  function Lower(s: string): string {
    seq(|s|, i requires 0 <= i < |s| => LowerChar(s[i]))
  }

  /** s.replace(word, ""): all occurrences, left to right. */
  function Remove(s: string, word: string): string
    requires word != []
  {
    if |s| < |word| then s
    else if s[..|word|] == word then Remove(s[|word|..], word)
    else [s[0]] + Remove(s[1..], word)
  }

  function Contains(s: string, word: string): bool {
    |word| <= |s| && (s[..|word|] == word || (s != [] && Contains(s[1..], word)))
  }

  function Bare(token: string): string {
    Remove(Remove(Remove(Lower(token), "mhz"), "hz"), "khz")
  }

  /** The hertz value one token stands for. */
  function ParseToken(token: string): Result<nat> {
    match ParseNumber(Bare(token)) {
      case None => Err(Invalid(token))
      case Some(v) =>
        if v.units <= 0 then Err(NotPositive(token))
        else
          var lowered, one := Lower(token), Pow10(v.scale);
          Ok(if Contains(lowered, "khz") then RoundHalfEven(v.units * 1_000, one)
             else if Contains(lowered, "hz") && !Contains(lowered, "mhz") then RoundHalfEven(v.units, one)
             else if v.units < 10_000 * one then RoundHalfEven(v.units * 1_000_000, one)
             else RoundHalfEven(v.units, one))
    }
  }

  // ----- Reading a list -----

  predicate IsSeparator(c: char) {
    c == ',' || c == ';' || 9 <= c as int <= 13 || 28 <= c as int <= 32
  }

  /** The maximal separator-free pieces of the text. */
  function Fields(s: string, piece: string): seq<string> {
    var done := if piece == [] then [] else [piece];
    if s == [] then done
    else if IsSeparator(s[0]) then done + Fields(s[1..], [])
    else Fields(s[1..], piece + [s[0]])
  }

  function AddNew(out: seq<int>, hz: int): seq<int> {
    if hz in out then out else out + [hz]
  }

  function ParseTokens(tokens: seq<string>, out: seq<int>): Result<seq<int>>
    decreases tokens
  {
    if tokens == [] then Ok(out)
    else if Bare(tokens[0]) == "" then ParseTokens(tokens[1..], out)
    else match ParseToken(tokens[0])
      case Err(e) => Err(e)
      case Ok(hz) => ParseTokens(tokens[1..], AddNew(out, hz))
  }

  function Parse(text: string): Result<seq<int>> {
    ParseTokens(Fields(text, []), [])
  }

  lemma ParseNext(tokens: seq<string>, i: nat, out: seq<int>)
    requires i < |tokens|
    ensures ParseTokens(tokens[i..], out) ==
            if Bare(tokens[i]) == "" then ParseTokens(tokens[i + 1..], out)
            else if ParseToken(tokens[i]).Err? then Err(ParseToken(tokens[i]).error)
            else ParseTokens(tokens[i + 1..], AddNew(out, ParseToken(tokens[i]).value))
  {
    assert tokens[i..][0] == tokens[i] && tokens[i..][1..] == tokens[i + 1..];
  }

  /** The parser as it runs: a loop with the values seen so far. */
  method ParseFrequencies(text: string) returns (r: Result<seq<int>>)
    ensures r == Parse(text)
  {
    var chunks := Fields(text, []);
    var out: seq<int>, seen: set<int> := [], {};
    for i := 0 to |chunks|
      invariant seen == set hz | hz in out
      invariant ParseTokens(chunks[i..], out) == ParseTokens(chunks, [])
    {
      var raw := chunks[i];
      ParseNext(chunks, i, out);
      if Bare(raw) == "" {
        continue;
      }
      var value := ParseToken(raw);
      if value.Err? {
        return Err(value.error);
      }
      if value.value !in seen {
        seen := seen + {value.value};
        out := out + [value.value];
      }
    }
    assert chunks[|chunks|..] == [];
    r := Ok(out);
  }

  // ----- Printing -----

  /** n in exactly k digits. */
  function Pad(n: nat, k: nat): (s: string)
    ensures |s| == k && D.AllDigits(s)
  {
    if k == 0 then [] else Pad(n / 10, k - 1) + [D.Digit(n % 10)]
  }

  function StripEnd(s: string, c: char): string {
    if s != [] && s[|s| - 1] == c then StripEnd(s[..|s| - 1], c) else s
  }

  function MagnitudeText(hz: nat): string {
    StripEnd(StripEnd(D.Print(hz / 1_000_000) + "." + Pad(hz % 1_000_000, 6), '0'), '.')
  }

  /** Six decimals, trailing zeros and a trailing dot removed. */
  function HzToMhz(hz: int): string {
    if hz < 0 then "-" + MagnitudeText(-hz) else MagnitudeText(hz)
  }

  function ToText(hzs: seq<int>): string {
    if hzs == [] then ""
    else if |hzs| == 1 then HzToMhz(hzs[0])
    else HzToMhz(hzs[0]) + "\n" + ToText(hzs[1..])
  }

  // ----- Digit arithmetic -----

  /** n with k zeros appended. */
  function Shift(n: nat, k: nat): nat {
    if k == 0 then n else 10 * Shift(n, k - 1)
  }

  lemma {:induction false} ShiftSum(n: nat, a: nat, b: nat)
    ensures Shift(Shift(n, a), b) == Shift(n, a + b)
  {
    if b > 0 {
      ShiftSum(n, a, b - 1);
    }
  }

  lemma {:induction false} ShiftAdd(m: nat, n: nat, k: nat)
    ensures Shift(m + n, k) == Shift(m, k) + Shift(n, k)
  {
    if k > 0 {
      ShiftAdd(m, n, k - 1);
    }
  }

  lemma {:induction false} ShiftIsProduct(n: nat, k: nat)
    ensures Shift(n, k) == n * Pow10(k)
  {
    if k > 0 {
      ShiftIsProduct(n, k - 1);
      TimesTen(n, Pow10(k - 1));
    }
  }

  lemma TimesTen(a: nat, b: nat)
    ensures 10 * (a * b) == a * (10 * b)
  {
  }

  lemma ShiftSix(n: nat)
    ensures Shift(n, 6) == 1_000_000 * n
  {
    assert Shift(n, 1) == 10 * n;
    assert Shift(n, 2) == 100 * n;
    assert Shift(n, 3) == 1_000 * n;
    assert Shift(n, 4) == 10_000 * n;
    assert Shift(n, 5) == 100_000 * n;
  }

  lemma {:induction false} ValueConcat(a: string, b: string)
    requires D.AllDigits(a) && D.AllDigits(b)
    ensures D.AllDigits(a + b)
    ensures D.Value(a + b) == Shift(D.Value(a), |b|) + D.Value(b)
  {
    if b == [] {
      assert a + b == a;
    } else {
      var b' := b[..|b| - 1];
      assert (a + b)[..|a + b| - 1] == a + b';
      ValueConcat(a, b');
    }
  }

  lemma {:induction false} ValueOfPad(n: nat, k: nat)
    requires n < Pow10(k)
    ensures D.Value(Pad(n, k)) == n
  {
    if k > 0 {
      var s := Pad(n, k);
      assert s[..k - 1] == Pad(n / 10, k - 1) && s[k - 1] == D.Digit(n % 10);
      ValueOfPad(n / 10, k - 1);
    }
  }

  /** Stripping zeros from the end of a fraction divides by a power of ten. */
  lemma {:induction false} StripZeros(s: string)
    requires D.AllDigits(s)
    ensures var t := StripEnd(s, '0');
            |t| <= |s| && D.AllDigits(t) && D.Value(s) == Shift(D.Value(t), |s| - |t|)
  {
    if s != [] && s[|s| - 1] == '0' {
      StripZeros(s[..|s| - 1]);
    }
  }

  lemma {:induction false} StripStopsAt(a: string, b: string, c: char)
    requires a != [] && a[|a| - 1] != c
    ensures StripEnd(a + b, c) == a + StripEnd(b, c)
    decreases b
  {
    if b == [] {
      assert a + b == a;
      assert a + StripEnd(b, c) == a;
    } else if b[|b| - 1] == c {
      assert (a + b)[..|a + b| - 1] == a + b[..|b| - 1];
      StripStopsAt(a, b[..|b| - 1], c);
    } else {
      assert (a + b)[|a + b| - 1] == b[|b| - 1];
    }
  }

  // ----- Reading back one printed value -----

  /** The two parts a printed magnitude consists of. */
  ghost predicate TextParts(text: string, whole: string, frac: string) {
    && whole != [] && D.AllDigits(whole) && D.AllDigits(frac)
    && text == if frac == [] then whole else whole + "." + frac
  }

  lemma StripDot(whole: string, frac: string)
    requires whole != [] && D.AllDigits(whole) && D.AllDigits(frac)
    ensures StripEnd(whole + "." + frac, '.') == if frac == [] then whole else whole + "." + frac
  {
    var all := whole + "." + frac;
    if frac == [] {
      assert all == whole + ".";
      assert all[..|all| - 1] == whole;
      assert D.IsDigit(whole[|whole| - 1]);
    } else {
      assert all[|all| - 1] == frac[|frac| - 1];
      assert D.IsDigit(frac[|frac| - 1]);
    }
  }

  lemma {:induction false} StripEndStops(s: string, c: char)
    ensures StripEnd(s, c) != [] ==> StripEnd(s, c)[|StripEnd(s, c)| - 1] != c
  {
    if s != [] && s[|s| - 1] == c {
      StripEndStops(s[..|s| - 1], c);
    }
  }

  /** The printed text: a sign if negative, whole megahertz without leading zeros and,
      only if the value is not whole, a dot and up to six digits without trailing
      zeros. */
  lemma PrintedText(hz: int) returns (whole: string, frac: string)
    ensures whole == D.Print((if hz < 0 then -hz else hz) / 1_000_000)
    ensures D.AllDigits(frac) && |frac| <= 6 && (frac != [] ==> frac[|frac| - 1] != '0')
    ensures D.AllDigits(whole + frac)
    ensures Shift(D.Value(whole + frac), 6 - |frac|) == if hz < 0 then -hz else hz
    ensures HzToMhz(hz) == (if hz < 0 then "-" else "") + (if frac == [] then whole else whole + "." + frac)
  {
    var n := if hz < 0 then -hz else hz;
    whole, frac := MagnitudeParts(n);
    assert "" + MagnitudeText(n) == MagnitudeText(n);
  }

  lemma MagnitudeParts(hz: nat) returns (whole: string, frac: string)
    ensures whole == D.Print(hz / 1_000_000) && (frac != [] ==> frac[|frac| - 1] != '0')
    ensures TextParts(MagnitudeText(hz), whole, frac) && |frac| <= 6
    ensures Shift(D.Value(whole + frac), 6 - |frac|) == hz
  {
    var digits := Pad(hz % 1_000_000, 6);
    whole := D.Print(hz / 1_000_000);
    frac := StripEnd(digits, '0');
    assert (whole + ".")[|whole + "."| - 1] == '.';
    StripStopsAt(whole + ".", digits, '0');
    StripZeros(digits);
    StripEndStops(digits, '0');
    StripDot(whole, frac);
    FractionValue(hz % 1_000_000, digits);
    D.ValueOfPrint(hz / 1_000_000);
    MagnitudeValue(hz, whole, frac);
  }

  lemma MagnitudeValue(hz: nat, whole: string, frac: string)
    requires D.AllDigits(whole) && D.AllDigits(frac) && |frac| <= 6
    requires D.Value(whole) == hz / 1_000_000 && Shift(D.Value(frac), 6 - |frac|) == hz % 1_000_000
    ensures D.AllDigits(whole + frac)
    ensures Shift(D.Value(whole + frac), 6 - |frac|) == hz
  {
    ValueConcat(whole, frac);
    WholeAndFraction(hz, D.Value(whole), D.Value(frac), |frac|);
  }

  lemma WholeAndFraction(hz: nat, w: nat, f: nat, k: nat)
    requires w == hz / 1_000_000 && k <= 6 && Shift(f, 6 - k) == hz % 1_000_000
    ensures Shift(Shift(w, k) + f, 6 - k) == hz
  {
    ShiftAdd(Shift(w, k), f, 6 - k);
    ShiftSum(w, k, 6 - k);
    ShiftSix(w);
  }

  lemma FractionValue(n: nat, digits: string)
    requires n < 1_000_000 && digits == Pad(n, 6)
    ensures D.Value(digits) == n
  {
    SixDecimals();
    ValueOfPad(n, 6);
  }

  lemma SixDecimals()
    ensures Pow10(6) == 1_000_000
  {
    ShiftIsProduct(1, 6);
    ShiftSix(1);
  }

  lemma PowersOfSix(k: nat)
    requires k <= 6
    ensures Pow10(k) * Pow10(6 - k) == 1_000_000
  {
    ShiftIsProduct(1, k);
    ShiftIsProduct(Pow10(k), 6 - k);
    ShiftSum(1, k, 6 - k);
    ShiftSix(1);
  }

  lemma ParseParts(text: string, whole: string, frac: string)
    requires TextParts(text, whole, frac)
    ensures D.AllDigits(whole + frac)
    ensures ParseUnsigned(text) == Some(Number(D.Value(whole + frac), |frac|))
  {
    ValueConcat(whole, frac);
    var k := DotAt(text);
    assert forall i :: 0 <= i < |whole| ==> text[i] == whole[i] && D.IsDigit(whole[i]);
    if frac == [] {
      assert text == whole && whole + frac == whole;
      assert text[..k] + [] == whole;
    } else {
      assert text[|whole|] == '.';
      assert text[..|whole|] == whole && text[|whole| + 1..] == frac;
    }
  }

  /** Characters that no unit word contains. */
  predicate Plain(s: string) { forall i :: 0 <= i < |s| ==> D.IsDigit(s[i]) || s[i] == '.' || s[i] == '-' }

  predicate UnitWord(word: string) { word != [] && word[0] in {'m', 'h', 'k'} }

  lemma {:induction false} PlainHasNoUnit(s: string, word: string)
    requires Plain(s) && UnitWord(word)
    ensures Remove(s, word) == s && !Contains(s, word)
    decreases s
  {
    if |s| >= |word| {
      assert s[..|word|][0] == s[0];
      PlainHasNoUnit(s[1..], word);
    }
  }

  lemma PlainIsBare(s: string)
    requires Plain(s)
    ensures Lower(s) == s && Bare(s) == s
    ensures !Contains(Lower(s), "khz") && !Contains(Lower(s), "hz")
  {
    assert Lower(s) == s;
    PlainHasNoUnit(s, "mhz");
    PlainHasNoUnit(s, "hz");
    PlainHasNoUnit(s, "khz");
  }

  lemma HzTextPlain(hz: int)
    ensures Plain(HzToMhz(hz)) && HzToMhz(hz) != ""
  {
    var whole, frac := MagnitudeParts(if hz < 0 then -hz else hz);
    var text := if frac == [] then whole else whole + "." + frac;
    assert Plain(text);
  }

  lemma ParseSigned(text: string, v: Number)
    requires text != [] && D.IsDigit(text[0]) && ParseUnsigned(text) == Some(v)
    ensures ParseNumber(text) == Some(v)
    ensures ParseNumber("-" + text) == Some(Number(-v.units, v.scale))
  {
    assert ("-" + text)[1..] == text;
  }

  /** The number a printed magnitude denotes. */
  lemma MagnitudeRead(hz: nat) returns (v: Number)
    ensures v.units >= 0 && v.scale <= 6 && Shift(v.units, 6 - v.scale) == hz
    ensures var text := MagnitudeText(hz);
            text != [] && D.IsDigit(text[0]) && ParseUnsigned(text) == Some(v)
  {
    var whole, frac := MagnitudeParts(hz);
    StartsWithDigit(MagnitudeText(hz), whole, frac);
    ParseParts(MagnitudeText(hz), whole, frac);
    v := Number(D.Value(whole + frac), |frac|);
  }

  /** With and without a sign. */
  lemma MagnitudeNumber(hz: nat) returns (units: int, scale: nat)
    ensures units >= 0 && scale <= 6 && Shift(units, 6 - scale) == hz
    ensures ParseNumber(MagnitudeText(hz)) == Some(Number(units, scale))
    ensures ParseNumber("-" + MagnitudeText(hz)) == Some(Number(-units, scale))
  {
    var v := MagnitudeRead(hz);
    ParseSigned(MagnitudeText(hz), v);
    units, scale := v.units, v.scale;
  }

  lemma StartsWithDigit(text: string, whole: string, frac: string)
    requires TextParts(text, whole, frac)
    ensures text != [] && D.IsDigit(text[0])
  {
    assert text[0] == whole[0];
  }

  /** What a printed positive value is read as: itself below 10 GHz; from there
      on the printed megahertz are taken for hertz. */
  function ReadAs(hz: nat): nat {
    if hz < 10_000_000_000 then hz else RoundHalfEven(hz, 1_000_000)
  }

  /** What the parser makes of one printed value. */
  lemma ParsePrinted(hz: int)
    ensures ParseToken(HzToMhz(hz)) == if hz <= 0 then Err(NotPositive(HzToMhz(hz))) else Ok(ReadAs(hz))
  {
    HzTextPlain(hz);
    PlainIsBare(HzToMhz(hz));
    if hz < 0 {
      var units, scale := MagnitudeNumber(-hz);
    } else {
      var units, scale := MagnitudeNumber(hz);
      PrintedRounding(units, scale, hz);
    }
  }

  /** What the parser computes from the number of a printed value. */
  lemma PrintedRounding(units: nat, scale: nat, hz: nat)
    requires scale <= 6 && Shift(units, 6 - scale) == hz
    ensures units == 0 <==> hz == 0
    ensures units < 10_000 * Pow10(scale) <==> hz < 10_000_000_000
    ensures RoundHalfEven(units * 1_000_000, Pow10(scale)) == hz
    ensures RoundHalfEven(units, Pow10(scale)) == RoundHalfEven(hz, 1_000_000)
  {
    PowersOfSix(scale);
    ShiftIsProduct(units, 6 - scale);
    ScaledRounding(units, Pow10(scale), Pow10(6 - scale), hz);
  }

  /** units / one is hz millionths. */
  lemma ScaledRounding(units: nat, one: nat, rest: nat, hz: nat)
    requires one > 0 && rest > 0 && one * rest == 1_000_000 && units * rest == hz
    ensures units == 0 <==> hz == 0
    ensures units < 10_000 * one <==> hz < 10_000_000_000
    ensures RoundHalfEven(units * 1_000_000, one) == hz
    ensures RoundHalfEven(units, one) == RoundHalfEven(hz, 1_000_000)
  {
    MillionTimes(units, one, rest, hz);
    RoundExact(hz, one);
    RoundScaled(units, one, rest);
    BelowLimit(units, one, rest, hz);
  }

  lemma MillionTimes(units: nat, one: nat, rest: nat, hz: nat)
    requires one * rest == 1_000_000 && units * rest == hz
    ensures units * 1_000_000 == hz * one
  {
    calc {
      units * 1_000_000;
      units * (one * rest);
      (units * rest) * one;
      hz * one;
    }
  }

  /** The megahertz limit, in units and in hertz. */
  lemma BelowLimit(units: nat, one: nat, rest: nat, hz: nat)
    requires rest > 0 && one * rest == 1_000_000 && units * rest == hz
    ensures units == 0 <==> hz == 0
    ensures units < 10_000 * one <==> hz < 10_000_000_000
  {
    Compare(units, 10_000 * one, rest);
    Regroup(10_000, one, rest);
  }

  lemma Regroup(a: nat, b: nat, c: nat)
    ensures (a * b) * c == a * (b * c)
  {
  }

  lemma RoundExact(hz: nat, one: nat)
    requires one > 0
    ensures RoundHalfEven(hz * one, one) == hz
  {
    ExactDivision(hz, one);
  }

  lemma Compare(a: nat, b: nat, factor: nat)
    requires factor > 0
    ensures a < b <==> a * factor < b * factor
    ensures a == 0 <==> a * factor == 0
  {
    if a < b {
      MultiplyGap(a, b, factor);
    } else if b < a {
      MultiplyGap(b, a, factor);
    }
    if a > 0 {
      MultiplyGap(0, a, factor);
    }
  }

  lemma ScaledDivMod(n: nat, d: nat, factor: nat)
    requires d > 0 && factor > 0
    ensures d * factor > 0
    ensures n * factor / (d * factor) == n / d && n * factor % (d * factor) == n % d * factor
  {
    var q, r, e := n / d, n % d, d * factor;
    Compare(0, d, factor);
    Compare(r, d, factor);
    Distribute(q, d, r, factor);
    DivModIs(n * factor, e, q, r * factor);
  }

  lemma DivModIs(n: nat, d: nat, q: nat, r: nat)
    requires r < d && n == q * d + r
    ensures n / d == q && n % d == r
  {
    QuotientUnique(n / d, q, n % d, r, d);
  }

  lemma Distribute(q: nat, d: nat, r: nat, factor: nat)
    ensures (q * d + r) * factor == q * (d * factor) + r * factor
  {
  }

  /** Rounding a fraction does not depend on how it is written. */
  lemma RoundScaled(n: nat, d: nat, factor: nat)
    requires d > 0 && factor > 0
    ensures d * factor > 0 && RoundHalfEven(n * factor, d * factor) == RoundHalfEven(n, d)
  {
    ScaledDivMod(n, d, factor);
    NearestScaled(n / d, n % d, d, factor);
  }

  lemma NearestScaled(q: nat, r: nat, d: nat, factor: nat)
    requires factor > 0
    ensures Nearest(q, r * factor, d * factor) == Nearest(q, r, d)
  {
    Compare(2 * r, d, factor);
    Compare(d, 2 * r, factor);
    Distribute(1, r, r, factor);
  }

  lemma MultiplyGap(a: nat, b: nat, d: nat)
    requires a < b
    ensures a * d + d <= b * d
  {
    var k: nat := b - a - 1;
    NonNegativeProduct(k, d);
    assert (a + 1 + k) * d == a * d + d + k * d;
  }

  lemma NonNegativeProduct(a: nat, b: nat)
    ensures a * b >= 0
  {
  }

  lemma QuotientUnique(q: nat, q': nat, r: nat, r': nat, d: nat)
    requires r < d && r' < d && q * d + r == q' * d + r'
    ensures q == q' && r == r'
  {
    if q < q' {
      MultiplyGap(q, q', d);
    } else if q' < q {
      MultiplyGap(q', q, d);
    }
  }

  lemma ExactDivision(hz: nat, one: nat)
    requires one > 0
    ensures (hz * one) / one == hz && (hz * one) % one == 0
  {
    DivModIs(hz * one, one, hz, 0);
  }

  // ----- Lists: printing, reading back, and when that is the identity -----

  /** The list with later duplicates removed, appended to what is there. */
  function AddAll(out: seq<int>, hzs: seq<int>): seq<int>
    decreases hzs
  {
    if hzs == [] then out else AddAll(AddNew(out, hzs[0]), hzs[1..])
  }

  predicate Distinct(hzs: seq<int>) { forall i, j :: 0 <= i < j < |hzs| ==> hzs[i] != hzs[j] }

  /** AddAll keeps exactly the elements, once each, what was there first. */
  lemma {:induction false} AddAllMeaning(out: seq<int>, hzs: seq<int>)
    requires Distinct(out)
    ensures Distinct(AddAll(out, hzs)) && out <= AddAll(out, hzs)
    ensures forall hz :: hz in AddAll(out, hzs) <==> hz in out || hz in hzs
    decreases hzs
  {
    if hzs != [] {
      AddNewMeaning(out, hzs[0]);
      AddAllMeaning(AddNew(out, hzs[0]), hzs[1..]);
      HeadOrTail(hzs);
    }
  }

  lemma AddNewMeaning(out: seq<int>, hz: int)
    requires Distinct(out)
    ensures Distinct(AddNew(out, hz)) && out <= AddNew(out, hz)
    ensures forall x :: x in AddNew(out, hz) <==> x in out || x == hz
  {
  }

  lemma HeadOrTail(hzs: seq<int>)
    requires hzs != []
    ensures forall x :: x in hzs <==> x == hzs[0] || x in hzs[1..]
  {
    assert hzs == [hzs[0]] + hzs[1..];
  }

  /** A list without duplicates is left alone, order included. */
  lemma {:induction false} AddAllOfDistinct(out: seq<int>, hzs: seq<int>)
    requires Distinct(out + hzs)
    ensures AddAll(out, hzs) == out + hzs
    decreases hzs
  {
    if hzs == [] {
      assert out + hzs == out;
    } else {
      var all := out + hzs;
      assert all[|out|] == hzs[0];
      assert forall i :: 0 <= i < |out| ==> all[i] == out[i];
      assert out + [hzs[0]] + hzs[1..] == all;
      AddAllOfDistinct(out + [hzs[0]], hzs[1..]);
    }
  }

  function Texts(hzs: seq<int>): (texts: seq<string>)
    ensures |texts| == |hzs|
    ensures forall i :: 0 <= i < |hzs| ==> texts[i] == HzToMhz(hzs[i])
  {
    if hzs == [] then [] else [HzToMhz(hzs[0])] + Texts(hzs[1..])
  }

  lemma FieldsEnd(t: string)
    requires Plain(t) && t != ""
    ensures Fields(t, []) == [t]
  {
    FieldsToken(t, [], []);
    assert t + [] == t && [] + t == t;
  }

  lemma FieldsCut(t: string, more: string)
    requires Plain(t) && t != ""
    ensures Fields(t + "\n" + more, []) == [t] + Fields(more, [])
  {
    var rest := "\n" + more;
    FieldsToken(t, rest, []);
    assert t + rest == t + "\n" + more && [] + t == t;
    assert rest[0] == '\n' && rest[1..] == more;
  }

  lemma {:induction false} FieldsOfText(hzs: seq<int>)
    ensures Fields(ToText(hzs), []) == Texts(hzs)
    decreases hzs
  {
    if hzs != [] {
      HzTextPlain(hzs[0]);
      assert Texts(hzs) == [HzToMhz(hzs[0])] + Texts(hzs[1..]);
      if |hzs| == 1 {
        FieldsEnd(HzToMhz(hzs[0]));
        assert Texts(hzs[1..]) == [];
      } else {
        FieldsCut(HzToMhz(hzs[0]), ToText(hzs[1..]));
        FieldsOfText(hzs[1..]);
      }
    }
  }

  lemma TextIsToken(hz: int)
    ensures Bare(HzToMhz(hz)) != ""
  {
    HzTextPlain(hz);
    PlainIsBare(HzToMhz(hz));
  }

  /** What a printed list is read as: refused if a value is not positive. */
  function ReadAll(hzs: seq<int>, out: seq<int>): Option<seq<int>>
    decreases hzs
  {
    if hzs == [] then Some(out)
    else if hzs[0] <= 0 then None
    else ReadAll(hzs[1..], AddNew(out, ReadAs(hzs[0])))
  }

  /** The parser agrees on the first printed value of a list. */
  lemma ParseFirst(hzs: seq<int>, out: seq<int>)
    requires hzs != []
    ensures if hzs[0] <= 0 then ParseTokens(Texts(hzs), out).Err?
            else ParseTokens(Texts(hzs), out) == ParseTokens(Texts(hzs[1..]), AddNew(out, ReadAs(hzs[0])))
  {
    ParsePrinted(hzs[0]);
    TextIsToken(hzs[0]);
    assert Texts(hzs)[0] == HzToMhz(hzs[0]) && Texts(hzs)[1..] == Texts(hzs[1..]);
  }

  lemma {:induction false} PrintedReads(hzs: seq<int>, out: seq<int>)
    ensures var r := ParseTokens(Texts(hzs), out);
            if r.Ok? then ReadAll(hzs, out) == Some(r.value) else ReadAll(hzs, out) == None
    decreases hzs
  {
    if hzs != [] {
      ParseFirst(hzs, out);
      if hzs[0] > 0 {
        PrintedReads(hzs[1..], AddNew(out, ReadAs(hzs[0])));
      }
    }
  }

  /** For every list of integers, what parsing its printed text gives. */
  lemma ParsedText(hzs: seq<int>)
    ensures var r := Parse(ToText(hzs));
            if r.Ok? then ReadAll(hzs, []) == Some(r.value) else ReadAll(hzs, []) == None
  {
    FieldsOfText(hzs);
    PrintedReads(hzs, []);
  }

  predicate Printable(hz: int) { 0 < hz < 10_000_000_000 }

  predicate InRange(hzs: seq<int>) { forall i :: 0 <= i < |hzs| ==> Printable(hzs[i]) }

  lemma {:induction false} InRangeReads(hzs: seq<int>, out: seq<int>)
    requires InRange(hzs)
    ensures ReadAll(hzs, out) == Some(AddAll(out, hzs))
    decreases hzs
  {
    if hzs != [] {
      assert Printable(hzs[0]);
      InRangeReads(hzs[1..], AddNew(out, hzs[0]));
    }
  }

  /** A largest value out of range is not in what the text is read as: larger
      ones shrink, and no smaller one becomes it. */
  lemma {:induction false} LargestIsLost(hzs: seq<int>, out: seq<int>, top: int)
    requires top !in out && top >= 10_000_000_000
    requires forall i :: 0 <= i < |hzs| ==> hzs[i] <= top
    ensures var r := ReadAll(hzs, out); r.Some? ==> top !in r.value
    decreases hzs
  {
    if hzs != [] && hzs[0] > 0 {
      assert ReadAs(hzs[0]) != top;
      LargestIsLost(hzs[1..], AddNew(out, ReadAs(hzs[0])), top);
    }
  }

  lemma {:induction false} NotPositiveRefused(hzs: seq<int>, out: seq<int>, k: nat)
    requires k < |hzs| && hzs[k] <= 0
    ensures ReadAll(hzs, out) == None
    decreases hzs
  {
    if hzs[0] > 0 {
      NotPositiveRefused(hzs[1..], AddNew(out, ReadAs(hzs[0])), k - 1);
    }
  }

  lemma LargestOf(hzs: seq<int>) returns (k: nat)
    requires hzs != []
    ensures k < |hzs| && forall i :: 0 <= i < |hzs| ==> hzs[i] <= hzs[k]
  {
    k := 0;
    for n := 1 to |hzs|
      invariant k < |hzs| && forall i :: 0 <= i < n ==> hzs[i] <= hzs[k]
    {
      if hzs[n] > hzs[k] {
        k := n;
      }
    }
  }

  lemma OutOfRangeDiffers(hzs: seq<int>)
    requires !InRange(hzs)
    ensures ReadAll(hzs, []) != Some(AddAll([], hzs))
  {
    if k :| 0 <= k < |hzs| && hzs[k] <= 0 {
      NotPositiveRefused(hzs, [], k);
    } else {
      var k := LargestOf(hzs);
      assert !Printable(hzs[k]);
      LargestIsLost(hzs, [], hzs[k]);
      AddAllMeaning([], hzs);
      assert hzs[k] in hzs;
    }
  }

  /** Printing a list of hertz values and parsing the text gives the list back,
      later duplicates removed, exactly when every value is positive and below
      10 GHz: from 10 GHz on, the printed megahertz read as hertz. */
  lemma RoundTripIffInRange(hzs: seq<int>)
    ensures Parse(ToText(hzs)) == Ok(AddAll([], hzs)) <==> InRange(hzs)
  {
    ParsedText(hzs);
    if InRange(hzs) {
      InRangeReads(hzs, []);
    } else {
      OutOfRangeDiffers(hzs);
    }
  }

  lemma {:induction false} ParsedIsDistinct(tokens: seq<string>, out: seq<int>)
    requires Distinct(out) && ParseTokens(tokens, out).Ok?
    ensures Distinct(ParseTokens(tokens, out).value)
    decreases tokens
  {
    if tokens != [] {
      if Bare(tokens[0]) == "" {
        ParsedIsDistinct(tokens[1..], out);
      } else {
        ParsedIsDistinct(tokens[1..], AddNew(out, ParseToken(tokens[0]).value));
      }
    }
  }

  /** What the parser accepts survives being printed and parsed again, exactly
      when it lies in the printable range. */
  lemma ParsePrintParse(text: string)
    requires Parse(text).Ok?
    ensures Parse(ToText(Parse(text).value)) == Parse(text) <==> InRange(Parse(text).value)
  {
    var hzs := Parse(text).value;
    ParsedIsDistinct(Fields(text, []), []);
    RoundTripIffInRange(hzs);
    assert [] + hzs == hzs;
    AddAllOfDistinct([], hzs);
  }

  // ----- Separators -----

  predicate Separators(gap: string) {
    forall i :: 0 <= i < |gap| ==> gap[i] in {',', ';', ' ', '\t', '\n', '\r'}
  }

  /** A token: letters, digits, dots and signs. */
  predicate Token(t: string) {
    t != "" &&
    forall i :: 0 <= i < |t| ==>
      'a' <= t[i] <= 'z' || 'A' <= t[i] <= 'Z' || D.IsDigit(t[i]) || t[i] in {'.', '+', '-'}
  }

  /** Tokens with these gaps before, between and after them. */
  function Spread(tokens: seq<string>, gaps: seq<string>): string
    requires |gaps| == |tokens| + 1
    decreases tokens
  {
    if tokens == [] then gaps[0] else gaps[0] + (tokens[0] + Spread(tokens[1..], gaps[1..]))
  }

  /** All gaps consist of separators, and those between tokens are not empty. */
  predicate Gaps(gaps: seq<string>) {
    && (forall i :: 0 <= i < |gaps| ==> Separators(gaps[i]))
    && forall i :: 0 < i < |gaps| - 1 ==> gaps[i] != ""
  }

  lemma {:induction false} FieldsSkip(gap: string, rest: string)
    requires Separators(gap)
    ensures Fields(gap + rest, []) == Fields(rest, [])
    decreases gap
  {
    if gap == "" {
      assert gap + rest == rest;
    } else {
      assert (gap + rest)[0] == gap[0] && (gap + rest)[1..] == gap[1..] + rest;
      FieldsSkip(gap[1..], rest);
    }
  }

  lemma FieldsGap(piece: string, gap: string, rest: string)
    requires piece != "" && Separators(gap) && (gap != "" || rest == "")
    ensures Fields(gap + rest, piece) == [piece] + Fields(rest, [])
  {
    if gap == "" {
      assert gap + rest == "";
    } else {
      assert (gap + rest)[0] == gap[0] && (gap + rest)[1..] == gap[1..] + rest;
      FieldsSkip(gap[1..], rest);
    }
  }

  lemma {:induction false} FieldsToken(t: string, rest: string, piece: string)
    requires forall i :: 0 <= i < |t| ==> !IsSeparator(t[i])
    ensures Fields(t + rest, piece) == Fields(rest, piece + t)
    decreases t
  {
    if t == [] {
      assert t + rest == rest && piece + t == piece;
    } else {
      assert (t + rest)[0] == t[0] && (t + rest)[1..] == t[1..] + rest;
      FieldsToken(t[1..], rest, piece + [t[0]]);
      assert piece + [t[0]] + t[1..] == piece + t;
    }
  }

  /** What a spread list begins with, behind its first gap. */
  lemma SpreadTail(tokens: seq<string>, gaps: seq<string>) returns (rest: string)
    requires |gaps| == |tokens| + 1 && Gaps(gaps)
    requires forall i :: 0 <= i < |tokens| ==> Token(tokens[i])
    ensures Spread(tokens, gaps) == gaps[0] + rest
    ensures tokens == [] ==> rest == ""
    ensures Fields(rest, []) == Fields(Spread(tokens, gaps), [])
  {
    rest := if tokens == [] then "" else tokens[0] + Spread(tokens[1..], gaps[1..]);
    assert Separators(gaps[0]);
    assert gaps[0] + "" == gaps[0];
    FieldsSkip(gaps[0], rest);
  }

  lemma {:induction false} FieldsOfSpread(tokens: seq<string>, gaps: seq<string>)
    requires |gaps| == |tokens| + 1 && Gaps(gaps)
    requires forall i :: 0 <= i < |tokens| ==> Token(tokens[i])
    ensures Fields(Spread(tokens, gaps), []) == tokens
    decreases tokens
  {
    var all := SpreadTail(tokens, gaps);
    if tokens != [] {
      var later, laterGaps := tokens[1..], gaps[1..];
      GapsTail(gaps);
      var rest := SpreadTail(later, laterGaps);
      FieldsOfSpread(later, laterGaps);
      FieldsSkip(gaps[0], tokens[0] + (gaps[1] + rest));
      assert Token(tokens[0]);
      FieldsToken(tokens[0], gaps[1] + rest, "");
      assert "" + tokens[0] == tokens[0];
      assert Separators(gaps[1]);
      FieldsGap(tokens[0], gaps[1], rest);
      assert [tokens[0]] + later == tokens;
    }
  }

  lemma GapsTail(gaps: seq<string>)
    requires |gaps| > 0 && Gaps(gaps)
    ensures Gaps(gaps[1..])
  {
  }

  /** Commas, semicolons, blanks and line ends separate tokens in any mixture and
      number, also before the first and behind the last. */
  lemma AnySeparators(tokens: seq<string>, gaps: seq<string>)
    requires |gaps| == |tokens| + 1 && Gaps(gaps)
    requires forall i :: 0 <= i < |tokens| ==> Token(tokens[i])
    ensures Parse(Spread(tokens, gaps)) == ParseTokens(tokens, [])
  {
    FieldsOfSpread(tokens, gaps);
  }

  // ----- Units -----

  lemma {:induction false} ContainsBehindPlain(s: string, tail: string, word: string)
    requires Plain(s) && UnitWord(word)
    ensures Contains(s + tail, word) == Contains(tail, word)
    decreases s
  {
    if s == [] {
      assert s + tail == tail;
    } else {
      ContainsBehindPlain(s[1..], tail, word);
      ContainsNext(s[0], s[1..] + tail, word);
      assert [s[0]] + (s[1..] + tail) == s + tail;
    }
  }

  lemma ContainsNext(c: char, rest: string, word: string)
    requires word != "" && c != word[0]
    ensures Contains([c] + rest, word) == Contains(rest, word)
  {
    var s := [c] + rest;
    assert s[0] == c && s[1..] == rest;
    if |s| >= |word| {
      assert s[..|word|][0] == c;
    }
  }

  /** The unit words in the three suffixes. */
  lemma UnitsInSuffixes()
    ensures Remove("mhz", "mhz") == "" && Remove("hz", "mhz") == "hz" && Remove("hz", "hz") == ""
    ensures !Contains("mhz", "khz") && !Contains("hz", "khz")
    ensures Contains("mhz", "hz") && Contains("hz", "hz") && Contains("mhz", "mhz") && !Contains("hz", "mhz")
  {
    assert "mhz"[1..] == "hz" && "hz"[1..] == "z" && "mhz"[..3] == "mhz" && "hz"[..2] == "hz";
    assert "mhz"[3..] == "" && "hz"[2..] == "" && "mhz"[0] != "khz"[0];
  }

  lemma BareOfSuffix(s: string, unit: string)
    requires Plain(s) && unit in {"mhz", "hz"}
    ensures Remove(Remove(Remove(s + unit, "mhz"), "hz"), "khz") == s
  {
    UnitsInSuffixes();
    RemoveBehindPlain(s, unit, "mhz");
    assert s + "" == s;
    if unit == "hz" {
      RemoveBehindPlain(s, "hz", "hz");
    } else {
      PlainHasNoUnit(s, "hz");
    }
    PlainHasNoUnit(s, "khz");
  }

  lemma UnitsOfToken(s: string, unit: string)
    requires Plain(s) && unit in {"mhz", "hz"}
    ensures !Contains(s + unit, "khz") && Contains(s + unit, "hz")
    ensures Contains(s + unit, "mhz") <==> unit == "mhz"
  {
    UnitsInSuffixes();
    ContainsBehindPlain(s, unit, "khz");
    ContainsBehindPlain(s, unit, "hz");
    ContainsBehindPlain(s, unit, "mhz");
  }

  /** Any positive plain number: with the suffix of hertz it is rounded to hertz;
      with that of megahertz it is read as without a suffix, as megahertz below
      10,000 and as hertz from there on. The case of the suffix does not matter. */
  lemma UnitsRead(s: string, suffix: string, v: Number)
    requires Plain(s) && ParseNumber(s) == Some(v) && v.units > 0
    ensures Lower(suffix) == "hz" ==> ParseToken(s + suffix) == Ok(RoundHalfEven(v.units, Pow10(v.scale)))
    ensures Lower(suffix) in {"", "mhz"} ==>
              ParseToken(s + suffix) == Ok(RoundHalfEven(
                if v.units < 10_000 * Pow10(v.scale) then v.units * 1_000_000 else v.units, Pow10(v.scale)))
  {
    LowerBehindPlain(s, suffix);
    if Lower(suffix) in {"mhz", "hz"} {
      BareOfSuffix(s, Lower(suffix));
      UnitsOfToken(s, Lower(suffix));
    } else if Lower(suffix) == "" {
      assert s + suffix == s;
      PlainIsBare(s);
      ContainsBehindPlain(s, "", "mhz");
      assert s + "" == s;
    }
  }

  lemma IntegerNumber(n: nat)
    ensures Plain(D.Print(n)) && ParseNumber(D.Print(n)) == Some(Number(n, 0))
  {
    var s := D.Print(n);
    var k := DotAt(s);
    assert k < |s| ==> D.IsDigit(s[k]);
    assert s[..|s|] + [] == s;
    D.ValueOfPrint(n);
    assert D.IsDigit(s[0]);
  }

  /** A whole number below 10,000 is megahertz and from there on hertz, unless it is
      marked as hertz. */
  lemma WholeNumbersRead(n: nat)
    requires n > 0
    ensures ParseToken(D.Print(n)) == Ok(if n < 10_000 then n * 1_000_000 else n)
    ensures ParseToken(D.Print(n) + "MHz") == Ok(if n < 10_000 then n * 1_000_000 else n)
    ensures ParseToken(D.Print(n) + "Hz") == Ok(n)
  {
    IntegerNumber(n);
    var s := D.Print(n);
    assert Lower("MHz") == "mhz" && Lower("Hz") == "hz" && Lower("") == "" && s + "" == s;
    UnitsRead(s, "", Number(n, 0));
    UnitsRead(s, "MHz", Number(n, 0));
    UnitsRead(s, "Hz", Number(n, 0));
    RoundWhole(n);
    RoundWhole(n * 1_000_000);
  }

  lemma RoundWhole(n: nat)
    ensures RoundHalfEven(n, Pow10(0)) == n
  {
  }

  // ----- The kilohertz suffix -----

  lemma RemoveSkips(c: char, rest: string, word: string)
    requires word != [] && c != word[0]
    ensures Remove([c] + rest, word) == [c] + Remove(rest, word)
  {
    var s := [c] + rest;
    assert s[0] == c && s[1..] == rest;
    if |s| >= |word| {
      assert s[..|word|][0] == c;
    }
  }

  lemma {:induction false} RemoveBehindPlain(s: string, tail: string, word: string)
    requires Plain(s) && UnitWord(word)
    ensures Remove(s + tail, word) == s + Remove(tail, word)
    decreases s
  {
    if s == [] {
      assert s + tail == tail;
    } else {
      RemoveBehindPlain(s[1..], tail, word);
      RemoveSkips(s[0], s[1..] + tail, word);
      assert [s[0]] + (s[1..] + tail) == s + tail;
      assert [s[0]] + (s[1..] + Remove(tail, word)) == s + Remove(tail, word);
    }
  }

  lemma RemoveFromSuffix(s: string)
    requires Plain(s)
    ensures Remove(Remove(Remove(s + "khz", "mhz"), "hz"), "khz") == s + "k"
  {
    RemoveBehindPlain(s, "khz", "mhz");
    assert Remove("khz", "mhz") == "khz";
    RemoveBehindPlain(s, "khz", "hz");
    assert Remove("khz", "hz") == "k" by {
      assert "khz"[1..] == "hz" && "hz"[2..] == "" && "khz"[..2] != "hz" && "hz"[..2] == "hz";
    }
    RemoveBehindPlain(s, "k", "khz");
  }

  lemma LowerBehindPlain(s: string, suffix: string)
    requires Plain(s)
    ensures Lower(s + suffix) == s + Lower(suffix)
  {
  }

  /** "hz" is removed from the token before "khz" is looked for, so the k stays
      behind: a value in kilohertz is refused, whatever its number and in whatever
      case the suffix is written. */
  lemma KilohertzRefused(s: string, suffix: string)
    requires Plain(s) && Lower(suffix) == "khz"
    ensures ParseToken(s + suffix) == Err(Invalid(s + suffix))
  {
    LowerBehindPlain(s, suffix);
    RemoveFromSuffix(s);
    var bare := s + "k";
    if s != [] && s[0] == '-' {
      assert bare[1..] == s[1..] + "k";
      EndsInLetter(s[1..]);
    } else {
      EndsInLetter(s);
    }
  }

  lemma EndsInLetter(s: string)
    ensures ParseUnsigned(s + "k") == None
  {
    var t := s + "k";
    var d := DotAt(t);
    assert t[|s|] == 'k';
    var whole, frac := t[..d], if d < |t| then t[d + 1..] else [];
    var all := whole + frac;
    assert all[|all| - 1] == 'k';
  }
}
