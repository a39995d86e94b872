/**
 * Decoded JSON as Go's encoding/json produces it when the target is
 * `interface{}` or `map[string]interface{}`, and the reading of a JSON
 * number text into a float64 that is then truncated to an int.
 */
module Json {
  import opened Wrappers
  import opened GoStrings

  /**
   * A decoded JSON value. Numbers are integral here; `JObj` stands for every
   * composite value (objects, and arrays, which no code path here looks into).
   */
  datatype Json =
    | JNull
    | JBool(b: bool)
    | JNum(n: int)
    | JString(s: string)
    | JObj(fields: map<string, Json>)

  /** Go's `m[k]` on a `map[string]interface{}`: the zero value (nil) for a missing key. */
  function Lookup(m: map<string, Json>, k: string): Json {
    if k in m then m[k] else JNull
  }

  /** The number of leading decimal digits of `s`. */
  function DigitRun(s: string): (n: nat)
    ensures n <= |s| && AllDigits(s[..n]) && (n < |s| ==> !IsDigit(s[n]))
  {
    if s != [] && IsDigit(s[0]) then
      var n := 1 + DigitRun(s[1..]);
      assert s[..n] == [s[0]] + s[1..][..n - 1];
      n
    else 0
  }

  function Pow10(e: nat): (p: nat)
    ensures p >= 1
  {
    if e == 0 then 1 else 10 * Pow10(e - 1)
  }

  /** The decimal exponent after 'e' or 'E': an optional sign and at least one digit, nothing after. */
  function ParseExponent(s: string): Option<int> {
    var neg := s != [] && s[0] == '-';
    var body := if s != [] && (s[0] == '-' || s[0] == '+') then s[1..] else s;
    if body != [] && AllDigits(body) then
      var e: int := if neg then 0 - DecimalToNat(body) else DecimalToNat(body);
      Some(e)
    else None
  }

  /** The optional fraction `.digits` at the head of `s`: its digits and the text after it. */
  function SplitFraction(s: string): (r: Option<(string, string)>)
    ensures r.Some? ==> AllDigits(r.value.0)
  {
    if s != [] && s[0] == '.' then
      var f := DigitRun(s[1..]);
      if f == 0 then None
      else
        assert s[1..1 + f] == s[1..][..f];
        Some((s[1..1 + f], s[1 + f..]))
    else Some(("", s))
  }

  /** `mantissa` times ten to the power `shift`, truncated toward zero. */
  function Scale(mantissa: int, shift: int): int {
    if shift >= 0 then mantissa * Pow10(shift) else mantissa / Pow10(-shift)
  }

  /**
   * The magnitude of an unsigned JSON number text (`int frac? exp?`), truncated
   * toward zero; None when the text is not a JSON number.
   */
  function ParseUnsigned(s: string): Option<int> {
    var i := DigitRun(s);
    if i == 0 || (s[0] == '0' && i > 1) then None
    else
      match SplitFraction(s[i..])
      case None => None
      case Some((frac, tail)) =>
        var exp := if tail == [] then Some(0)
                   else if tail[0] == 'e' || tail[0] == 'E' then ParseExponent(tail[1..])
                   else None;
        match exp
        case None => None
        case Some(e) =>
          assert AllDigits(s[..i] + frac);
          Some(Scale(DecimalToNat(s[..i] + frac), e - |frac|))
  }

  /**
   * json.Unmarshal of a text into a float64, then Go's int conversion
   * (truncation toward zero); None for a text that is not a JSON number.
   */
  function ParseNumber(s: string): Option<int> {
    if s != [] && s[0] == '-' then
      match ParseUnsigned(s[1..])
      case Some(m) => Some(-m)
      case None => None
    else ParseUnsigned(s)
  }

  /** Every integer's decimal text reads back as that integer. */
  lemma ParseNumberDecimal(n: int)
    ensures ParseNumber(IntToDecimal(n)) == Some(n)
  {
    var m: nat := if n < 0 then -n else n;
    var d := NatToDecimal(m);
    NatDecimalRoundTrip(m);
    assert DigitRun(d) == |d| by { DigitRunAll(d); }
    assert d[..|d|] == d;
    assert ParseUnsigned(d) == Some(m) by {
      assert d[|d|..] == [];
      assert d + "" == d;
    }
    if n < 0 {
      assert IntToDecimal(n)[1..] == d;
    }
  }

  lemma {:induction false} DigitRunAll(s: string)
    requires AllDigits(s)
    ensures DigitRun(s) == |s|
  {
    if s != [] {
      DigitRunAll(s[1..]);
    }
  }
}
