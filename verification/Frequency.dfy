/** The frequency field: hertz to megahertz text and back through binary floating
    point (crates/ham-core/src/adif.rs:304-306 and 427-434). Rounding to the
    nearest double is a parameter; the theorems assume only its relative error
    (section 4.3.1 of IEEE 754-2019), and only where doubles are normal. */
module Frequency {
  import opened Basics
  import opened Text

  datatype Float = Finite(value: real) | Infinite(negative: bool) | NaN

  /** Rounds an exact result to a double. */
  type Rounding = real -> Float

  const EPSILON: real := 1.0 / 9007199254740992.0

  function Abs(x: real): real {
    if x < 0.0 then -x else x
  }

  predicate InRange(x: real) {
    x == 0.0 || 0.0000001 <= Abs(x) <= 1000000000000000000000.0
  }

  predicate Near(f: Float, x: real) {
    f.Finite? && Abs(f.value - x) <= Abs(x) * EPSILON
  }

  ghost predicate Accurate(fl: Rounding) {
    forall x {:trigger fl(x)} :: InRange(x) ==> Near(fl(x), x)
  }

  const MILLION: real := 1000000.0

  function ToMegahertz(x: real): real {
    x / MILLION
  }

  function ToHertz(x: real): real {
    x * MILLION
  }

  function Divide(fl: Rounding, a: Float): Float {
    if a.Finite? then fl(ToMegahertz(a.value)) else a
  }

  function Multiply(fl: Rounding, a: Float): Float {
    if a.Finite? then fl(ToHertz(a.value)) else a
  }

  /** f64::round: halves go away from zero. */
  function HalfAway(x: real): int {
    if x >= 0.0 then (x + 0.5).Floor else -((0.5 - x).Floor)
  }

  const U64_MAX: nat := 0xFFFF_FFFF_FFFF_FFFF

  /** round() and the saturating cast to u64. */
  function RoundToU64(a: Float): (n: nat)
    ensures n <= U64_MAX
  {
    match a
    case NaN => 0
    case Infinite(negative) => if negative then 0 else U64_MAX
    case Finite(x) => var n := HalfAway(x); if n < 0 then 0 else if n > U64_MAX then U64_MAX else n
  }

  // ----- printing with six decimals -----

  /** Rounding of the exact value to an integer, ties to even. */
  function HalfEven(x: real): int {
    var low := x.Floor;
    var part := x - low as real;
    if part < 0.5 || (part == 0.5 && low % 2 == 0) then low else low + 1
  }

  function Pad6(n: nat): (s: string)
    requires n < 1_000_000
    ensures |s| == 6 && AllDigits(s)
  {
    Pad2(n / 10000) + Pad4(n % 10000)
  }

  lemma Pad6Value(n: nat)
    requires n < 1_000_000
    ensures DigitsValue(Pad6(n)) == n
  {
    hide Pad2, Pad4, DigitsValue, Pow10;
    PowersOfTen();
    Pad2Value(n / 10000);
    Pad4Value(n % 10000);
    DigitsValueConcat(Pad2(n / 10000), Pad4(n % 10000));
  }

  /** A number of millionths as decimal text with six places. */
  function ShowMillionths(k: nat): string {
    ShowNat(k / 1_000_000) + "." + Pad6(k % 1_000_000)
  }

  /** format!("{:.6}"). */
  function FormatMillionths(a: Float): string {
    match a
    case NaN => "NaN"
    case Infinite(negative) => if negative then "-inf" else "inf"
    case Finite(x) =>
      if x < 0.0 then "-" + ShowMillionths(if HalfEven(ToHertz(-x)) < 0 then 0 else HalfEven(ToHertz(-x)))
      else ShowMillionths(if HalfEven(ToHertz(x)) < 0 then 0 else HalfEven(ToHertz(x)))
  }

  /** The text the exporter writes for a frequency in hertz. */
  function ExportedText(fl: Rounding, hz: nat): string {
    FormatMillionths(Divide(fl, fl(hz as real)))
  }

  // ----- reading a float -----

  /** Mantissa times a power of ten. */
  function Scaled(mantissa: nat, exponent: int): real {
    if exponent >= 0 then (mantissa * Pow10(exponent)) as real
    else mantissa as real / PositivePower(-exponent) as real
  }

  function PositivePower(n: nat): (p: int)
    ensures p == Pow10(n) && p > 0
  {
    if n == 0 then 1 else 10 * PositivePower(n - 1)
  }

  /** An exponent: absent, or e and an optional sign and digits. */
  function ParseExponent(s: string): Option<int> {
    if s == "" then Some(0)
    else if s[0] != 'e' && s[0] != 'E' then None
    else
      var signed := |s| > 1 && (s[1] == '+' || s[1] == '-');
      var digits := if signed then s[2..] else s[1..];
      if digits == "" || !AllDigits(digits) then None
      else
        var n: int := DigitsValue(digits);
        Some(if signed && s[1] == '-' then -n else n)
  }

  /** A decimal number without its sign, exactly. */
  function ParseDecimal(s: string): Option<real> {
    var whole := DigitRun(s, |s|);
    var pointed := whole < |s| && s[whole] == '.';
    var tail := if pointed then s[whole + 1..] else s[whole..];
    var part := if pointed then DigitRun(tail, |tail|) else 0;
    if whole + part == 0 then None
    else
      match ParseExponent(tail[part..])
      case None => None
      case Some(exponent) => ConcatDigits(s[..whole], tail[..part]); Some(Scaled(DigitsValue(s[..whole] + tail[..part]), exponent - part))
  }

  lemma ConcatDigits(a: string, b: string)
    requires AllDigits(a) && AllDigits(b)
    ensures AllDigits(a + b)
  {
  }

  /** str::parse::<f64>: the nearest double to the decimal number written. */
  function ParseFloat(fl: Rounding, s: string): Option<Float> {
    var negative := s != "" && s[0] == '-';
    var rest := if negative || (s != "" && s[0] == '+') then s[1..] else s;
    if Lower(rest) == "inf" || Lower(rest) == "infinity" then Some(Infinite(negative))
    else if Lower(rest) == "nan" then Some(NaN)
    else
      match ParseDecimal(rest)
      case None => None
      case Some(x) => Some(fl(if negative then -x else x))
  }

  /** The hertz the importer stores for a FREQ text, if it parses. */
  function ImportedHz(fl: Rounding, text: string): Option<nat> {
    match ParseFloat(fl, text)
    case None => None
    case Some(a) => Some(RoundToU64(Multiply(fl, a)))
  }

  // ----- the error bound -----

  const LIMIT: nat := 2251799813685248

  /** Two roundings keep a whole number below 2^51 within half a unit. */
  lemma TwoRoundings(hz: real, x: real, z: real)
    requires 0.0 <= hz <= LIMIT as real - 1.0
    requires Abs(x - hz) <= hz * EPSILON
    requires Abs(z - x) <= Abs(x) * EPSILON
    ensures Abs(z - hz) < 0.5 && x >= 0.0
  {
    var bound := hz * EPSILON;
    assert x <= hz + bound;
    assert bound <= (LIMIT as real - 1.0) * EPSILON;
    assert Abs(x) * EPSILON <= (hz + bound) * EPSILON;
  }

  lemma Rounds(fl: Rounding, x: real)
    requires Accurate(fl) && InRange(x)
    ensures fl(x).Finite? && Near(fl(x), x)
  {
  }

  predicate Hertz(h: real) {
    h == 0.0 || 1.0 <= h <= LIMIT as real - 1.0
  }

  lemma RoundedHertz(h: real, x: real)
    requires Hertz(h) && Abs(x - h) <= h * EPSILON
    ensures InRange(ToMegahertz(x)) && x >= 0.0
  {
    assert h >= 1.0 ==> h * EPSILON <= 0.5;
  }

  lemma WholeHertz(hz: nat)
    requires hz < LIMIT
    ensures Hertz(hz as real) && InRange(hz as real) && InRange(ToMegahertz(hz as real))
  {
  }

  lemma Nearest(x: real, n: nat)
    requires Abs(x - n as real) < 0.5
    ensures HalfEven(x) == HalfAway(x) == n
  {
  }

  lemma SignKept(y: real, x: real)
    requires x >= 0.0 && Abs(y - x) <= Abs(x) * EPSILON
    ensures y >= 0.0
  {
    assert x * EPSILON <= x;
  }

  /** Rounding to a double, dividing and rounding again stays within half a
      hertz. */
  lemma ExportSteps(h: real, a: Float, b: Float)
    requires Hertz(h) && Near(a, h) && Near(b, ToMegahertz(a.value))
    ensures b.Finite? && b.value >= 0.0 && Abs(ToHertz(b.value) - h) < 0.5
  {
    RoundedHertz(h, a.value);
    ScaleUp(b.value, a.value);
    TwoRoundings(h, a.value, ToHertz(b.value));
    SignKept(b.value, ToMegahertz(a.value));
  }

  lemma ImportSteps(h: real, a: Float, b: Float)
    requires Hertz(h) && Near(a, ToMegahertz(h)) && Near(b, ToHertz(a.value))
    ensures b.Finite? && Abs(b.value - h) < 0.5
  {
    ScaleUp(a.value, h);
    TwoRoundings(h, ToHertz(a.value), b.value);
  }

  lemma ExportRange(h: real, a: Float)
    requires Hertz(h) && Near(a, h)
    ensures InRange(ToMegahertz(a.value))
  {
    RoundedHertz(h, a.value);
  }

  lemma ImportRange(h: real, a: Float)
    requires Hertz(h) && Near(a, ToMegahertz(h))
    ensures InRange(ToHertz(a.value))
  {
    ScaleUp(a.value, h);
    MillionInRange(h, ToHertz(a.value));
  }

  /** The text is the exact decimal form of the frequency. */
  lemma ExportedExactly(fl: Rounding, hz: nat)
    requires Accurate(fl) && hz < LIMIT
    ensures ExportedText(fl, hz) == ShowMillionths(hz)
  {
    WholeHertz(hz);
    var h := hz as real;
    hide Accurate, InRange, Near, Hertz, Abs, ToHertz, ToMegahertz, FormatMillionths, ShowMillionths;
    Rounds(fl, h);
    var a := fl(h);
    ExportRange(h, a);
    Rounds(fl, ToMegahertz(a.value));
    var b := fl(ToMegahertz(a.value));
    ExportSteps(h, a, b);
    ShowsNearest(b, hz);
  }

  lemma ShowsNearest(b: Float, n: nat)
    requires b.Finite? && b.value >= 0.0 && Abs(ToHertz(b.value) - n as real) < 0.5
    ensures FormatMillionths(b) == ShowMillionths(n)
  {
    Nearest(ToHertz(b.value), n);
    hide Abs, HalfEven, ShowMillionths;
  }

  lemma ScaleUp(y: real, x: real)
    requires Abs(y - ToMegahertz(x)) <= Abs(ToMegahertz(x)) * EPSILON
    ensures Abs(ToHertz(y) - x) <= Abs(x) * EPSILON
  {
  }

  lemma MillionthsParse(k: nat)
    ensures ParseDecimal(ShowMillionths(k)) == Some(ToMegahertz(k as real))
  {
    var a, b := ShowNat(k / 1_000_000), Pad6(k % 1_000_000);
    var s := a + "." + b;
    assert s == a + ("." + b);
    DigitRunStops(a, "." + b, |s|);
    ConcatSlices(a, "." + b);
    assert s[|a|] == '.' && s[|a| + 1..] == b;
    DigitRunStops(b, "", 6);
    assert b + "" == b && b[..6] == b && b[6..] == "";
    PowersOfTen();
    assert PositivePower(6) == 1_000_000;
    JoinMillionths(k);
    hide ShowNat, Pad6, DigitsValue, DigitRun, PositivePower, Pow10;
    assert s[..|a|] == a;
    assert ParseExponent("") == Some(0);
  }

  lemma JoinMillionths(k: nat)
    ensures AllDigits(ShowNat(k / 1_000_000) + Pad6(k % 1_000_000))
    ensures DigitsValue(ShowNat(k / 1_000_000) + Pad6(k % 1_000_000)) == k
  {
    hide ShowNat, Pad6, DigitsValue, Pow10;
    PowersOfTen();
    Pad6Value(k % 1_000_000);
    DigitsValueConcat(ShowNat(k / 1_000_000), Pad6(k % 1_000_000));
  }

  /** Every frequency below 2^51 hertz survives export and import. */
  lemma FrequencyRoundTrip(fl: Rounding, hz: nat)
    requires Accurate(fl) && hz < LIMIT
    ensures ImportedHz(fl, ExportedText(fl, hz)) == Some(hz)
  {
    ExportedExactly(fl, hz);
    ReadsMillionths(fl, hz);
    WholeHertz(hz);
    var h := hz as real;
    hide Accurate, InRange, Near, Hertz, Abs, ToHertz, ToMegahertz, ExportedText, ShowMillionths, ParseFloat, RoundToU64, Multiply;
    Rounds(fl, ToMegahertz(h));
    var a := fl(ToMegahertz(h));
    ImportRange(h, a);
    Rounds(fl, ToHertz(a.value));
    ImportSteps(h, a, fl(ToHertz(a.value)));
    RoundsToHertz(fl, a, hz);
  }

  lemma ReadsMillionths(fl: Rounding, k: nat)
    ensures ParseFloat(fl, ShowMillionths(k)) == Some(fl(ToMegahertz(k as real)))
  {
    MillionthsParse(k);
    PlainNumber(k);
    hide ShowMillionths, ParseDecimal, Lower, ToMegahertz;
  }

  lemma RoundsToHertz(fl: Rounding, a: Float, hz: nat)
    requires a.Finite? && hz < LIMIT
    requires var b := fl(ToHertz(a.value)); b.Finite? && Abs(b.value - hz as real) < 0.5
    ensures RoundToU64(Multiply(fl, a)) == hz
  {
    Nearest(fl(ToHertz(a.value)).value, hz);
    hide HalfAway, Abs;
  }

  lemma MillionInRange(h: real, x: real)
    requires Hertz(h) && Abs(x - h) <= h * EPSILON
    ensures InRange(x)
  {
    assert h >= 1.0 ==> h * EPSILON <= 0.5;
  }

  /** Six-decimal text starts with a digit, so it is neither signed nor a word. */
  lemma PlainNumber(k: nat)
    ensures var s := ShowMillionths(k); s != "" && s[0] != '-' && s[0] != '+'
    ensures Lower(ShowMillionths(k)) !in {"inf", "infinity", "nan"}
  {
    var s := ShowMillionths(k);
    assert s[0] == ShowNat(k / 1_000_000)[0];
    assert IsDigit(s[0]) && Lower(s)[0] == s[0];
    assert "inf"[0] == "infinity"[0] == 'i' && "nan"[0] == 'n';
  }
}
