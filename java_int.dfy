/** Java's 32-bit `int`: its range, two's-complement wrap-around of `+`, and the
    narrowing of a `double` to `int`. */
module JavaInt {

  const IntMin: int := -0x8000_0000
  const IntMax: int := 0x7fff_ffff
  const Modulus: int := 0x1_0000_0000

  predicate IsInt32(x: int)
  {
    IntMin <= x <= IntMax
  }

  /** The `int` a Java `+` yields when the exact sum is `x`. */
  function Wrap32(x: int): (r: int)
    ensures IsInt32(r) && (x - r) % Modulus == 0
    ensures IsInt32(x) ==> r == x
  {
    (x - IntMin) % Modulus + IntMin
  }

  /** A narrowing cast `(int) x` of a finite `double`: rounds toward zero and saturates at
      the ends of the `int` range. */
  function DoubleToInt(x: real): (r: int)
    ensures IsInt32(r)
    ensures IntMin as real <= x <= IntMax as real && 0.0 <= x ==> r as real <= x < (r + 1) as real
    ensures IntMin as real <= x <= IntMax as real && x < 0.0 ==> (r - 1) as real < x <= r as real
    ensures x > IntMax as real ==> r == IntMax
    ensures x < IntMin as real ==> r == IntMin
  {
    var t := if x >= 0.0 then x.Floor else -((-x).Floor);
    if t < IntMin then IntMin else if t > IntMax then IntMax else t
  }

  /** Adding to a wrapped sum wraps like adding to the exact sum, so a loop of `+=`
      yields the wrapped total. */
  lemma Wrap32Add(a: int, b: int)
    ensures Wrap32(Wrap32(a) + b) == Wrap32(a + b)
  {
    var w := Wrap32(a);
    var q := (a - w) / Modulus;
    assert a - w == q * Modulus;
    var x := a + b - IntMin;
    assert w + b - IntMin == x - q * Modulus;
    ModShift(x, q);
  }

  lemma ModShift(x: int, q: int)
    ensures (x - q * Modulus) % Modulus == x % Modulus
  {
    var r := x % Modulus;
    var d := x / Modulus;
    assert x == d * Modulus + r;
    assert x - q * Modulus == (d - q) * Modulus + r;
  }
}
