/**
  Kotlin `Int` arithmetic: 32-bit two's-complement wrap-around and division
  that truncates toward zero (Dafny's own `/` is Euclidean).
*/
module Int32 {

  const Modulus: int := 0x1_0000_0000
  const Min: int := -0x8000_0000
  const Max: int := 0x7fff_ffff

  predicate InRange(x: int) {
    Min <= x <= Max
  }

  /** The 32-bit value an unbounded result wraps around to. */
  function Wrap(x: int): (r: int)
    ensures InRange(r)
    ensures (x - r) % Modulus == 0
    ensures InRange(x) ==> r == x
  {
    (x - Min) % Modulus + Min
  }

  function Abs(x: int): nat {
    if x < 0 then -x else x
  }

  /** Division rounding toward zero, as `/` on JVM integers. */
  function TruncDiv(a: int, b: int): int
    requires b != 0
  {
    var n := Abs(a) / Abs(b);
    if (a >= 0) == (b > 0) then n else -n
  }

  /** Euclidean facts about natural operands. */
  lemma EuclidNat(x: nat, y: nat)
    requires y > 0
    ensures x / y >= 0 && x == (x / y) * y + x % y && 0 <= x % y < y
  {}

  /**
    Truncating division leaves a remainder smaller than the divisor in
    magnitude and of the dividend's sign, and its quotient's magnitude is the
    quotient of the magnitudes.
  */
  lemma TruncDivRemainder(a: int, b: int)
    requires b != 0
    ensures Abs(TruncDiv(a, b)) == Abs(a) / Abs(b)
    ensures var rem := a - TruncDiv(a, b) * b;
      Abs(rem) < Abs(b) && (rem == 0 || ((rem > 0) <==> (a > 0)))
  {
    var A: int, B: int := Abs(a), Abs(b);
    var n: int, m: int := A / B, A % B;
    EuclidNat(A, B);
    var q := TruncDiv(a, b);
    if a >= 0 && b > 0 {
      assert q == n && A == a && B == b;
      assert a - q * b == m;
    } else if a < 0 && b < 0 {
      assert q == n && A == -a && B == -b;
      assert q * b == -(n * B);
      assert a - q * b == -m;
    } else if a >= 0 {
      assert q == -n && A == a && B == -b;
      assert q * b == n * B;
      assert a - q * b == m;
    } else {
      assert q == -n && A == -a && B == b;
      assert q * b == -(n * B);
      assert a - q * b == -m;
    }
  }
}
