/** core/globals.js: the canvas size, JavaScript's Math.round and the
    sound-name helper `randomNumber`. `Math.random()` is a parameter `r`
    with 0 <= r < 1. */
module Globals {

  /** The canvas is created 640 x 480. */
  const CanvasWidth: real := 640.0
  const CanvasHeight: real := 480.0

  /** Math.round(v), which rounds halves up: Floor(v + 1/2). */
  function Round(v: real): (r: int)
    ensures r as real <= v + 0.5 < r as real + 1.0
  {
    (v + 0.5).Floor
  }

  /** `Math.floor(r * max) + 1`, the number drawn by randomNumber. */
  function RandomIndex(r: real, max: nat): (n: int)
    requires 0.0 <= r < 1.0
    ensures max >= 1 ==> 1 <= n <= max
    ensures max == 0 ==> n == 1
  {
    var p := r * max as real;
    if max >= 1 then
      ScaledBelow(r, max as real);
      assert p.Floor as real <= p < max as real;
      p.Floor + 1
    else p.Floor + 1
  }

  /** A random fraction of a positive span stays inside it. */
  lemma ScaledBelow(r: real, span: real)
    requires 0.0 <= r < 1.0 && 0.0 < span
    ensures 0.0 <= r * span < span
  {
    assert 0.0 < (1.0 - r) * span;
  }

  function Digit(d: nat): (c: char)
    requires d < 10
    ensures '0' <= c <= '9'
  {
    ['0', '1', '2', '3', '4', '5', '6', '7', '8', '9'][d]
  }

  function DigitValue(c: char): (d: nat)
    requires '0' <= c <= '9'
    ensures d < 10 && Digit(d) == c
  {
    if c == '0' then 0 else if c == '1' then 1 else if c == '2' then 2
    else if c == '3' then 3 else if c == '4' then 4 else if c == '5' then 5
    else if c == '6' then 6 else if c == '7' then 7 else if c == '8' then 8 else 9
  }

  predicate IsDigits(s: string) {
    forall i :: 0 <= i < |s| ==> '0' <= s[i] <= '9'
  }

  /** The template literal `${n}` of a non-negative integer: its decimal
      digits, most significant first, with no leading zero. */
  function DecimalString(n: nat): (s: string)
    ensures |s| >= 1 && IsDigits(s)
    ensures n >= 10 ==> |s| >= 2
    ensures n < 10 ==> s == [Digit(n)]
    ensures n > 0 ==> s[0] != '0'
    decreases n
  {
    if n < 10 then [Digit(n)] else DecimalString(n / 10) + [Digit(n % 10)]
  }

  /** Reads a string of decimal digits back as a number. */
  function ParseDecimal(s: string): (n: nat)
    requires IsDigits(s)
    decreases |s|
  {
    if |s| == 0 then 0 else ParseDecimal(s[..|s| - 1]) * 10 + DigitValue(s[|s| - 1])
  }

  lemma {:induction false} DecimalRoundTrip(n: nat)
    ensures ParseDecimal(DecimalString(n)) == n
    decreases n
  {
    var s := DecimalString(n);
    if n < 10 {
      assert s[..0] == [];
    } else {
      var q, d := n / 10, n % 10;
      DecimalRoundTrip(q);
      assert s == DecimalString(q) + [Digit(d)];
      assert s[..|s| - 1] == DecimalString(q);
      DigitValueOfDigit(d);
      assert n == q * 10 + d;
    }
  }

  /** Reading a digit back gives its value. */
  lemma DigitValueOfDigit(d: nat)
    requires d < 10
    ensures DigitValue(Digit(d)) == d
  {
  }

  /** randomNumber(max): the empty string when the drawn number is 1 and its
      decimal string otherwise, so that `SLURP${randomNumber(3)}` names
      SLURP, SLURP2 or SLURP3. The result is never "1". */
  function RandomNumber(r: real, max: nat): (s: string)
    requires 0.0 <= r < 1.0
    ensures s == "" <==> RandomIndex(r, max) == 1
    ensures s != "" ==> 2 <= RandomIndex(r, max) <= max
    ensures s != "" ==> s == DecimalString(RandomIndex(r, max))
    ensures s != "" ==> IsDigits(s) && s[0] != '0' && ParseDecimal(s) == RandomIndex(r, max)
    ensures s != "1"
  {
    var n := RandomIndex(r, max);
    if n == 1 then ""
    else
      DecimalRoundTrip(n);
      assert DecimalString(n) != "1" by {
        if n < 10 { assert DecimalString(n)[0] == Digit(n) && Digit(n) != '1'; }
      }
      DecimalString(n)
  }
}
