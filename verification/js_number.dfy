/**
  JavaScript numbers as far as the application inspects them: the conversion
  `Number(string)`, truthiness, finiteness and `Math.ceil`. A finite number is
  an exact real: a numeral whose magnitude overflows the double range reads as
  an infinity and one that underflows it reads as zero, but within the range
  no rounding to double precision is modelled.
*/
module JsNumber {
  import opened Wrappers
  import opened Text

  datatype Num = NaN | Fin(v: real) | Inf(positive: bool)

  /** `Number.isFinite` */
  predicate IsFinite(n: Num) {
    n.Fin?
  }

  /** JavaScript truthiness: `NaN` and zero are falsy. */
  predicate Truthy(n: Num) {
    !n.NaN? && n != Fin(0.0)
  }

  /** `n < x` for a finite `x`: false for `NaN`. */
  predicate Less(n: Num, x: real) {
    match n
    case NaN => false
    case Fin(v) => v < x
    case Inf(positive) => !positive
  }

  /**
    The smallest magnitude that rounds to Infinity: 2^1024 - 2^970, halfway
    between the largest double and 2^1024 (ties go to the even neighbour).
  */
  const OverflowBound: real := 179769313486231580793728971405303415079934132710037826936173778980444968292764750946649017977587207096330286416692887910946555547851940402630657488671505820681908902000708383676273854845817711531764475730270069855571366959622842914819860834936475292719074168444365510704342711559699508093042880177904174497792.0

  /** The largest magnitude that rounds to zero: 2^-1075, half the smallest subnormal. */
  const UnderflowBound: real := 1.0 / 404804506614621236704990693437834614099113299528284236713802716054860679135990693783920767402874248990374155728633623822779617474771586953734026799881477019843034848553132722728933815484186432682479535356945490137124014966849385397236206711298319112681620113024717539104666829230461005064372655017292012526615415482186989568.0

  /** The number a non-negative magnitude with a sign reads as. */
  function Rounded(v: real, negative: bool): (n: Num)
    requires v >= 0.0
    ensures v >= OverflowBound ==> n == Inf(!negative)
    ensures v <= UnderflowBound ==> n == Fin(0.0)
    ensures UnderflowBound < v < OverflowBound ==> n == Fin(if negative then -v else v)
  {
    if v >= OverflowBound then Inf(!negative)
    else if v <= UnderflowBound then Fin(0.0)
    else Fin(if negative then -v else v)
  }

  /** A natural number inside the double range reads as itself. */
  lemma RoundedNat(n: nat)
    requires (n as real) < OverflowBound
    ensures Rounded(n as real, false) == Fin(n as real)
  {
    if n > 0 {
      assert UnderflowBound < 1.0 <= n as real;
    }
  }

  /** `Math.ceil` of a finite number. */
  function Ceil(x: real): (k: int)
    ensures k as real - 1.0 < x <= k as real
  {
    -((-x).Floor)
  }

  function Pow10(k: nat): (p: real)
    ensures p >= 1.0
  {
    if k == 0 then 1.0 else 10.0 * Pow10(k - 1)
  }

  /** The value of `c` as a digit of bases up to 36, or -1. */
  function RadixDigit(c: char): int {
    if '0' <= c <= '9' then c as int - '0' as int
    else if 'a' <= c <= 'z' then c as int - 'a' as int + 10
    else if 'A' <= c <= 'Z' then c as int - 'A' as int + 10
    else -1
  }

  predicate AllRadixDigits(s: string, base: nat) {
    forall i :: 0 <= i < |s| ==> 0 <= RadixDigit(s[i]) < base
  }

  /** The value of a numeral in base `base`. */
  function ParseRadix(s: string, base: nat): nat
    requires AllRadixDigits(s, base)
  {
    if |s| == 0 then 0 else ParseRadix(s[..|s| - 1], base) * base + RadixDigit(s[|s| - 1])
  }

  /** The base named by a `0x`, `0o` or `0b` prefix, or 0. */
  function RadixOfPrefix(s: string): (base: nat)
    ensures base in {0, 2, 8, 16}
  {
    if |s| < 2 || s[0] != '0' then 0
    else if s[1] == 'x' || s[1] == 'X' then 16
    else if s[1] == 'o' || s[1] == 'O' then 8
    else if s[1] == 'b' || s[1] == 'B' then 2
    else 0
  }

  /** Position of the first 'e' or 'E' of `s`, or `|s|`. */
  function ExponentIndex(s: string): (i: nat)
    ensures i <= |s|
    ensures forall j :: 0 <= j < i ==> s[j] != 'e' && s[j] != 'E'
    ensures i < |s| ==> s[i] == 'e' || s[i] == 'E'
  {
    if |s| == 0 then 0
    else if s[0] == 'e' || s[0] == 'E' then 0
    else 1 + ExponentIndex(s[1..])
  }

  /** `digits`, `digits.digits`, `digits.` or `.digits`. */
  function ParseMantissa(m: string): (r: Option<real>)
    ensures r.Some? ==> r.value >= 0.0
    ensures AllDigits(m) ==> (r.Some? <==> m != "")
  {
    if '.' in m then
      var j := IndexOf(m, '.');
      var whole := m[..j];
      var fraction := m[j + 1..];
      if AllDigits(whole) && AllDigits(fraction) && (whole != "" || fraction != "") then
        Some(ParseDigits(whole) as real + ParseDigits(fraction) as real / Pow10(|fraction|))
      else None
    else if m != "" && AllDigits(m) then Some(ParseDigits(m) as real)
    else None
  }

  /** An unsigned decimal literal with an optional exponent. */
  function ParseDecimal(b: string): (r: Option<real>)
    ensures r.Some? ==> r.value >= 0.0
  {
    var e := ExponentIndex(b);
    var mantissa := ParseMantissa(b[..e]);
    if mantissa.None? then None
    else if e == |b| then mantissa
    else
      var x := b[e + 1..];
      var negative := |x| > 0 && x[0] == '-';
      var ds := if |x| > 0 && (x[0] == '+' || x[0] == '-') then x[1..] else x;
      if ds == "" || !AllDigits(ds) then None
      else if negative then Some(mantissa.value / Pow10(ParseDigits(ds)))
      else Some(mantissa.value * Pow10(ParseDigits(ds)))
  }

  /**
    `Number(s)`: white space around the numeral is ignored, the empty string is
    0, `0x`/`0o`/`0b` numerals are read in their base, a decimal numeral may be
    signed and may carry an exponent, `Infinity` may be signed, and anything
    else is `NaN`.
  */
  function ToNumber(s: string): (n: Num)
    ensures Trim(s) == "" ==> n == Fin(0.0)
    ensures n.Fin? ==> -OverflowBound < n.v < OverflowBound
  {
    NumberOfTrimmed(Trim(s))
  }

  /** `Number` of a string without white space at either end. */
  function NumberOfTrimmed(t: string): (n: Num)
    ensures t == "" ==> n == Fin(0.0)
    ensures n.Fin? ==> -OverflowBound < n.v < OverflowBound
  {
    if t == "" then Fin(0.0)
    else
      var base := RadixOfPrefix(t);
      if base != 0 then
        (if |t| > 2 && AllRadixDigits(t[2..], base) then Rounded(ParseRadix(t[2..], base) as real, false) else NaN)
      else SignedNumber(t)
  }

  /** A signed infinity or a signed decimal numeral. */
  function SignedNumber(t: string): (n: Num)
    requires t != ""
    ensures n.Fin? ==> -OverflowBound < n.v < OverflowBound
  {
    if t == "Infinity" || t == "+Infinity" then Inf(true)
    else if t == "-Infinity" then Inf(false)
    else
      var body := if t[0] == '+' || t[0] == '-' then t[1..] else t;
      var d := ParseDecimal(body);
      if d.None? then NaN
      else Rounded(d.value, t[0] == '-')
  }

  /** An unsigned numeral of decimal digits reads as its value. */
  lemma ParseDecimalOfDigits(s: string)
    requires s != "" && AllDigits(s)
    ensures ParseDecimal(s) == Some(ParseDigits(s) as real)
  {
    assert forall i :: 0 <= i < |s| ==> s[i] != 'e' && s[i] != 'E' && s[i] != '.';
    assert ExponentIndex(s) == |s|;
    assert s[..|s|] == s;
  }

  /** A trimmed string that is neither signed nor prefixed is read as a decimal. */
  lemma ToNumberOfUnsigned(t: string)
    requires t != "" && Trim(t) == t
    requires RadixOfPrefix(t) == 0 && t[0] != '+' && t[0] != '-' && t != "Infinity"
    ensures ToNumber(t) == match ParseDecimal(t) case None => NaN case Some(v) => Rounded(v, false)
  {
    assert ToNumber(t) == NumberOfTrimmed(t);
    assert NumberOfTrimmed(t) == SignedNumber(t);
    assert t != "+Infinity" && t != "-Infinity";
  }

  /** Reading back a rendered natural number gives the number, or Infinity once it overflows. */
  lemma ToNumberOfNat(n: nat)
    ensures ToNumber(NatToString(n)) == Rounded(n as real, false)
  {
    var s := NatToString(n);
    assert !IsJsSpace(s[0]) && !IsJsSpace(s[|s| - 1]);
    TrimIdentity(s);
    assert |s| >= 2 ==> IsDigit(s[1]);
    assert s != "Infinity" by { assert IsDigit(s[0]); }
    ToNumberOfUnsigned(s);
    ParseDecimalOfDigits(s);
    ParseNatToString(n);
  }

  /** Signed infinities are read as such. */
  lemma InfinityExamples()
    ensures ToNumber("Infinity") == Inf(true)
    ensures ToNumber("-Infinity") == Inf(false)
  {
    TrimIdentity("Infinity");
    TrimIdentity("-Infinity");
  }

  /** A word is not a number. */
  lemma WordIsNaN()
    ensures ToNumber("abc") == NaN
  {
    TrimIdentity("abc");
    assert ParseDecimal("abc").None? by {
      assert ExponentIndex("abc") == 3;
      assert "abc"[..3] == "abc";
      assert '.' !in "abc";
      assert !IsDigit("abc"[0]);
    }
    ToNumberOfUnsigned("abc");
  }
}
