/**
 * The three random helpers of the generator. Math.random() is not called: the
 * caller passes the draw `u` it would have returned, a real in [0, 1).
 */
module Random {

  /** A value Math.random() can return. */
  predicate IsDraw(u: real) {
    0.0 <= u < 1.0
  }

  /** A stream of draws: the i-th call of Math.random() returns rand(i). */
  ghost predicate IsSource(rand: nat -> real) {
    forall i :: IsDraw(rand(i))
  }

  function Min(a: int, b: int): int { if a <= b then a else b }
  function Max(a: int, b: int): int { if a <= b then b else a }

  /** Conversion of a time value to an integer, as `new Date(x)` does: truncation toward zero. */
  function Trunc(x: real): (n: int)
    ensures x >= 0.0 ==> n as real <= x < n as real + 1.0
    ensures x < 0.0 ==> n as real - 1.0 < x <= n as real
  {
    if x >= 0.0 then x.Floor else -((-x).Floor)
  }

  /** Truncating a value that lies between two integers stays between them. */
  lemma TruncBetween(x: real, lo: int, hi: int)
    requires lo as real <= x <= hi as real
    ensures lo <= Trunc(x) <= hi
  {
  }

  lemma ScaledDraw(u: real, n: int)
    requires IsDraw(u) && n > 0
    ensures 0.0 <= u * n as real < n as real
  {
    assert (1.0 - u) * n as real > 0.0;
  }

  lemma ScaledSpan(u: real, d: int)
    requires IsDraw(u)
    ensures d >= 0 ==> 0.0 <= u * d as real <= d as real
    ensures d < 0 ==> d as real <= u * d as real <= 0.0
  {
    if d > 0 {
      ScaledDraw(u, d);
    } else if d < 0 {
      ScaledDraw(u, -d);
      assert u * d as real == -(u * (-d) as real);
    }
  }

  /** A whole number from min to max inclusive: the draw scaled to the width of the range, rounded down, shifted by min. */
  function RandomInt(min: int, max: int, u: real): (r: int)
    requires IsDraw(u)
    ensures min <= max ==> min <= r <= max
  {
    if min <= max then ScaledDraw(u, max - min + 1); (u * (max - min + 1) as real).Floor + min
    else (u * (max - min + 1) as real).Floor + min
  }

  /** Every value of [min, max] is drawn by some draw. */
  lemma RandomIntCovers(min: int, max: int, v: int) returns (u: real)
    requires min <= v <= max
    ensures IsDraw(u) && RandomInt(min, max, u) == v
  {
    u := Fraction(v - min, max - min + 1);
  }

  /** i/n is a draw, and scaling it back by n gives i exactly. */
  lemma Fraction(i: int, n: int) returns (u: real)
    requires 0 <= i < n
    ensures IsDraw(u) && u * n as real == i as real && (u * n as real).Floor == i
  {
    u := i as real / n as real;
    assert u * n as real == i as real;
    assert (1.0 - u) * n as real == (n - i) as real;
    assert u < 1.0;
  }

  /** An element picked by the draw: the draw scaled to the length, rounded down, used as the index. */
  function RandomElement<T>(arr: seq<T>, u: real): (x: T)
    requires IsDraw(u) && |arr| > 0
    ensures x in arr
  {
    ScaledDraw(u, |arr|);
    arr[(u * |arr| as real).Floor]
  }

  /** Every element of the array is drawn by some draw. */
  lemma RandomElementCovers<T>(arr: seq<T>, i: int) returns (u: real)
    requires 0 <= i < |arr|
    ensures IsDraw(u) && RandomElement(arr, u) == arr[i]
  {
    u := Fraction(i, |arr|);
    var k := (u * |arr| as real).Floor;
    assert k == i;
    assert RandomElement(arr, u) == arr[k];
  }

  /** An instant between start and end: start moved by the draw's share of the span, truncated to a millisecond. */
  function RandomDate(start: int, end: int, u: real): (t: int)
    requires IsDraw(u)
    ensures Min(start, end) <= t <= Max(start, end)
  {
    var x := start as real + u * (end - start) as real;
    ScaledSpan(u, end - start);
    TruncBetween(x, Min(start, end), Max(start, end));
    Trunc(x)
  }
}
