/** Values of a decoded build matrix and their text form.

    The parser renders a matrix value with `fmt.Sprintf("%v", value)`. For the
    values YAML decoding produces that is: a string as itself, an integer in
    decimal with a leading minus sign when negative, a boolean as `true` or
    `false`, and a missing value (`~`) as `<nil>`. Floating-point numbers keep
    the text Go's shortest-representation formatting gives them, which this
    model takes as already rendered. */
module MatrixValues {

  /** A scalar matrix value, as decoded from YAML. */
  datatype Scalar =
    | Str(s: string)
    | Int(i: int)
    | Bool(b: bool)
    | Float(rendered: string)
    | Null

  /** One field of an object-valued matrix entry (an `include:` row, say). */
  datatype Field = Field(name: string, value: Scalar)

  /** A matrix value: a scalar, or an object whose fields are listed in the
      order Go's map iteration happened to visit them. */
  datatype MatrixValue =
    | Scalar(scalar: Scalar)
    | Object(fields: seq<Field>)

  predicate IsDigit(c: char) {
    '0' <= c <= '9'
  }

  function DigitChar(d: nat): (c: char)
    requires d < 10
    ensures IsDigit(c)
  {
    "0123456789"[d]
  }

  function DigitValue(c: char): (d: nat)
    requires IsDigit(c)
    ensures d < 10
  {
    (c as int - '0' as int) as nat
  }

  lemma DigitRoundTrip(d: nat)
    requires d < 10
    ensures DigitValue(DigitChar(d)) == d
  {
    var digits := "0123456789";
    assert digits[d] as int == '0' as int + d;
  }

  /** The decimal digits of a natural number, without leading zeros. */
  function NatDecimal(n: nat): (r: string)
    decreases n
  {
    if n < 10 then [DigitChar(n)] else NatDecimal(n / 10) + [DigitChar(n % 10)]
  }

  /** `%v` of an integer. */
  function Decimal(n: int): string {
    if n < 0 then "-" + NatDecimal(-n) else NatDecimal(n)
  }

  predicate AllDigits(s: string) {
    forall i :: 0 <= i < |s| ==> IsDigit(s[i])
  }

  /** The value of a string of decimal digits. */
  function DigitsValue(s: string): nat
    requires AllDigits(s)
  {
    if |s| == 0 then 0 else DigitsValue(s[..|s| - 1]) * 10 + DigitValue(s[|s| - 1])
  }

  /** Reads back an optionally signed decimal integer. */
  function ParseDecimal(s: string): int
    requires |s| > 0
    requires AllDigits(s) || (s[0] == '-' && AllDigits(s[1..]))
  {
    if s[0] == '-' then -(DigitsValue(s[1..]) as int) else DigitsValue(s)
  }

  /** The digits of a natural number are non-empty, all digits, free of leading
      zeros, and read back as the number. */
  lemma {:induction false} NatDecimalRoundTrip(n: nat)
    ensures |NatDecimal(n)| > 0 && AllDigits(NatDecimal(n))
    ensures NatDecimal(n)[0] == '0' ==> n == 0
    ensures DigitsValue(NatDecimal(n)) == n
    decreases n
  {
    var r := NatDecimal(n);
    if n < 10 {
      DigitRoundTrip(n);
      assert r[..0] == [];
    } else {
      NatDecimalRoundTrip(n / 10);
      var front := NatDecimal(n / 10);
      assert r == front + [DigitChar(n % 10)];
      assert r[..|r| - 1] == front;
      DigitRoundTrip(n % 10);
      assert r[0] == front[0];
    }
  }

  /** Integer rendering is undone by `ParseDecimal`, so distinct integers get
      distinct job names. */
  lemma DecimalRoundTrip(n: int)
    ensures var r := Decimal(n);
      |r| > 0 && (AllDigits(r) || (r[0] == '-' && AllDigits(r[1..]))) && ParseDecimal(r) == n
  {
    if n < 0 {
      NatDecimalRoundTrip(-n);
      assert Decimal(n)[1..] == NatDecimal(-n);
    } else {
      NatDecimalRoundTrip(n);
    }
  }

  /** `fmt.Sprintf("%v", value)` for a scalar. */
  function Stringify(v: Scalar): string {
    match v
    case Str(s) => s
    case Int(i) => Decimal(i)
    case Bool(b) => if b then "true" else "false"
    case Float(rendered) => rendered
    case Null => "<nil>"
  }

  /** Two integers render alike only when they are equal. */
  lemma StringifyIntInjective(a: int, b: int)
    ensures Stringify(Int(a)) == Stringify(Int(b)) <==> a == b
  {
    DecimalRoundTrip(a);
    DecimalRoundTrip(b);
  }
}
