/**
 * The few Python built-ins the driver relies on, stated exactly over unbounded
 * integers, exact reals and Unicode strings: `str.rstrip` / `str.lstrip`,
 * `str.isspace`, the `str.upper() == letter` test, `str(int)`, `int(float)`
 * and the float `%` operator.
 */
module Py {

  /** `c.isspace()`: the 29 code points Python treats as whitespace. */
  predicate IsSpace(c: char)
  {
    var n := c as int;
    (0x09 <= n <= 0x0D) || (0x1C <= n <= 0x20) || n == 0x85 || n == 0xA0 || n == 0x1680
    || (0x2000 <= n <= 0x200A) || n == 0x2028 || n == 0x2029 || n == 0x202F || n == 0x205F || n == 0x3000
  }

  /** The `chars` argument of `rstrip` / `lstrip`: omitted (whitespace) or a set of characters. */
  datatype Strip = Whitespace | Only(chars: set<char>)

  predicate Strips(strip: Strip, c: char)
  {
    match strip
    case Whitespace => IsSpace(c)
    case Only(chars) => c in chars
  }

  /** `s.rstrip(chars)`: the longest prefix not ending in one of `chars`. */
  function RStrip(s: string, chars: Strip): (r: string)
    ensures r <= s
    ensures r == [] || !Strips(chars, r[|r| - 1])
    ensures forall i :: |r| <= i < |s| ==> Strips(chars, s[i])
  {
    if s != [] && Strips(chars, s[|s| - 1]) then RStrip(s[..|s| - 1], chars) else s
  }

  /** `s.lstrip(chars)`: the longest suffix not starting with one of `chars`. */
  function LStrip(s: string, chars: Strip): (r: string)
    ensures |r| <= |s| && r == s[|s| - |r|..]
    ensures r == [] || !Strips(chars, r[0])
    ensures forall i :: 0 <= i < |s| - |r| ==> Strips(chars, s[i])
  {
    if s != [] && Strips(chars, s[0]) then LStrip(s[1..], chars) else s
  }

  /**
   * `data.upper() == letter` for an upper-case ASCII letter. Every character upper-cases to at least
   * one character, so only one-character strings qualify; the characters whose upper-case form is an
   * ASCII capital are that capital, its ASCII lower-case form, the dotless i (U+0131, for I) and the
   * long s (U+017F, for S).
   */
  predicate UpperIs(data: string, letter: char)
    requires 'A' <= letter <= 'Z'
  {
    |data| == 1 &&
    (data[0] == letter || data[0] as int == letter as int + 32
     || (letter == 'I' && data[0] == '\U{131}') || (letter == 'S' && data[0] == '\U{17F}'))
  }

  predicate IsDigit(c: char) { '0' <= c <= '9' }

  predicate AllDigits(s: string) { forall i :: 0 <= i < |s| ==> IsDigit(s[i]) }

  function DigitChar(d: nat): (c: char)
    requires d < 10
    ensures IsDigit(c) && c as int - '0' as int == d
  {
    ('0' as int + d) as char
  }

  /** `str(n)` for a non-negative integer: its decimal digits, most significant first, without leading zeros. */
  function NatToString(n: nat): (s: string)
    ensures 1 <= |s| && AllDigits(s)
    ensures s[0] == '0' ==> n == 0 && s == "0"
    decreases n
  {
    if n < 10 then [DigitChar(n)] else NatToString(n / 10) + [DigitChar(n % 10)]
  }

  /** `str(n)` for any integer. */
  function IntToString(n: int): string
  {
    if n < 0 then "-" + NatToString(-n) else NatToString(n)
  }

  /** The value of a string of decimal digits, read most significant first (the inverse of `str`). */
  function DecimalValue(s: string): nat
    requires AllDigits(s)
  {
    if s == [] then 0 else 10 * DecimalValue(s[..|s| - 1]) + (s[|s| - 1] as int - '0' as int)
  }

  /** `int(str(n)) == n`: the decimal text of a number reads back as that number. */
  lemma {:induction false} DecimalRoundTrip(n: nat)
    ensures DecimalValue(NatToString(n)) == n
    decreases n
  {
    if n >= 10 {
      var s := NatToString(n);
      assert s[..|s| - 1] == NatToString(n / 10);
      DecimalRoundTrip(n / 10);
    }
  }

  /** `int(x)` for a float: truncation toward zero. */
  function Trunc(x: real): (r: int)
    ensures 0.0 <= x ==> 0 <= r && r as real <= x < r as real + 1.0
    ensures x < 0.0 ==> r <= 0 && r as real - 1.0 < x <= r as real
  {
    if x >= 0.0 then x.Floor else -((-x).Floor)
  }

  /** Python's `x % y` on floats: the remainder takes the sign of the divisor. */
  function Mod(x: real, y: real): (r: real)
    requires y != 0.0
    ensures 0.0 < y ==> 0.0 <= r < y
    ensures y < 0.0 ==> y < r <= 0.0
    ensures x == y * (x / y).Floor as real + r
  {
    FloorBounds(x, y);
    x - y * (x / y).Floor as real
  }

  /** Multiplying the floor of `x / y` back by `y` lands within one `y` of `x`. */
  lemma FloorBounds(x: real, y: real)
    requires y != 0.0
    ensures var m := y * (x / y).Floor as real;
      (0.0 < y ==> m <= x < m + y) && (y < 0.0 ==> m + y < x <= m)
  {
    var f := x / y;
    var qr := f.Floor as real;
    assert y * f == x;
    assert qr <= f < qr + 1.0;
    Scale(y, qr, f);
    Scale(y, f, qr + 1.0);
    assert y * (qr + 1.0) == y * qr + y;
    if 0.0 < y {
      assert y * f < y * (qr + 1.0);
      assert x < y * qr + y;
    } else {
      assert y * f > y * (qr + 1.0);
      assert x > y * qr + y;
    }
  }

  /** Scaling both sides of `a <= b` (or `a < b`) by a non-zero factor keeps or flips the order. */
  lemma Scale(y: real, a: real, b: real)
    requires y != 0.0 && a <= b
    ensures 0.0 < y ==> y * a <= y * b && (a < b ==> y * a < y * b)
    ensures y < 0.0 ==> y * a >= y * b && (a < b ==> y * a > y * b)
  {
    assert y * b - y * a == y * (b - a);
  }
}
