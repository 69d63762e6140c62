/**
 * Go's 64-bit `int` and the `strconv` conversions the blog uses: `Atoi` (query
 * parameters, image sizes, the legacy page number), `FormatInt(n, 10)` (the
 * URI given to an untitled post) and the ceiling of a float quotient
 * (`math.Ceil` in the page count).
 */
module GoNumbers {
  import opened Optional

  const MinInt64: int := -0x8000_0000_0000_0000
  const MaxInt64: int := 0x7FFF_FFFF_FFFF_FFFF
  const Modulus64: int := 0x1_0000_0000_0000_0000

  predicate IsInt64(x: int) {
    MinInt64 <= x <= MaxInt64
  }

  /** Two's-complement wrap-around of Go's 64-bit `int` arithmetic. */
  function Wrap64(x: int): (r: int)
    ensures IsInt64(r)
    ensures (x - r) % Modulus64 == 0
    ensures IsInt64(x) ==> r == x
  {
    (x - MinInt64) % Modulus64 + MinInt64
  }

  predicate IsDigit(c: char) {
    '0' <= c <= '9'
  }

  predicate AllDigits(s: string) {
    forall k | 0 <= k < |s| :: IsDigit(s[k])
  }

  /** The value of a run of decimal digits, most significant first. */
  function DigitsValue(s: string): nat
    requires AllDigits(s)
  {
    if s == [] then 0 else 10 * DigitsValue(s[..|s| - 1]) + (s[|s| - 1] as int - '0' as int)
  }

  /**
   * `strconv.Atoi` on a 64-bit platform: an optional sign and at least one
   * decimal digit, nothing else, and a value that fits in 64 bits.
   */
  function Atoi(s: string): (r: Option<int>)
    ensures r.Some? ==> IsInt64(r.value)
    ensures r.Some? ==> |s| > 0 && (IsDigit(s[0]) || s[0] == '+' || s[0] == '-')
    ensures r.Some? ==> forall k | 1 <= k < |s| :: IsDigit(s[k])
    ensures r.Some? && s[0] != '-' ==> r.value >= 0
    ensures r.Some? && s[0] == '-' ==> r.value <= 0
  {
    var signed := |s| > 0 && (s[0] == '-' || s[0] == '+');
    var body := if signed then s[1..] else s;
    if body == [] || !AllDigits(body) then None
    else
      var v: int := if |s| > 0 && s[0] == '-' then 0 - DigitsValue(body) as int else DigitsValue(body);
      if IsInt64(v) then Some(v) else None
  }

  function DigitChar(d: int): (c: char)
    requires 0 <= d < 10
    ensures IsDigit(c) && c as int - '0' as int == d
  {
    ('0' as int + d) as char
  }

  /** The decimal digits of `n`, without leading zeros. */
  function Digits(n: nat): (s: string)
    ensures s != [] && AllDigits(s)
    ensures DigitsValue(s) == n
    ensures s[0] == '0' ==> n == 0
  {
    if n < 10 then [DigitChar(n)]
    else
      var s := Digits(n / 10) + [DigitChar(n % 10)];
      assert s[..|s| - 1] == Digits(n / 10);
      s
  }

  /** `strconv.FormatInt(n, 10)`. */
  function FormatInt(n: int): (s: string)
    ensures s != []
    ensures s[0] == '-' <==> n < 0
  {
    if n < 0 then "-" + Digits(-n) else Digits(n)
  }

  /** `Atoi` reads back every 64-bit value that `FormatInt` writes. */
  lemma AtoiFormatInt(n: int)
    requires IsInt64(n)
    ensures Atoi(FormatInt(n)) == Some(n)
  {
    var s := FormatInt(n);
    if n < 0 {
      assert s[1..] == Digits(-n);
    } else {
      assert IsDigit(s[0]);
    }
  }

  /**
   * The ceiling of the quotient `a / b` for a non-zero divisor: what
   * `int(math.Ceil(float64(a) / float64(b)))` computes when the operands and
   * the quotient are exactly representable.
   */
  function CeilDiv(a: int, b: int): (r: int)
    requires b != 0
    ensures b > 0 ==> (r - 1) * b < a <= r * b
    ensures b < 0 ==> r * b <= a < (r - 1) * b
  {
    var (n, d) := if b > 0 then (a, b) else (-a, -b);
    var r := if n % d == 0 then n / d else n / d + 1;
    CeilingBounds(n, d);
    assert b < 0 ==> r * b == -(r * d) && (r - 1) * b == -((r - 1) * d);
    r
  }

  lemma CeilingBounds(n: int, d: int)
    requires d > 0
    ensures var r := if n % d == 0 then n / d else n / d + 1;
            (r - 1) * d < n <= r * d
  {
    var q, m := n / d, n % d;
    assert n == q * d + m && 0 <= m < d;
    assert (q + 1) * d == q * d + d;
    assert (q - 1) * d == q * d - d;
  }
}
