/**
  The playback mode of a video player and the integer image dimensions the
  decoder works with (`PlayMode` and `Dimensions` in VideoPlayerFFMPEG.kt).
*/
module PlayModes {
  import opened Wrappers
  import Int32

  datatype PlayMode = Video | Audio | Both

  /** A mode decodes video unless it is audio-only. */
  predicate UseVideo(m: PlayMode) {
    m != Audio
  }

  /** A mode plays audio unless it is video-only. */
  predicate UseAudio(m: PlayMode) {
    m != Video
  }

  /** Every mode plays at least one kind of stream, and only `Both` plays both. */
  lemma ModeFlags(m: PlayMode)
    ensures UseVideo(m) || UseAudio(m)
    ensures UseVideo(m) && UseAudio(m) <==> m == Both
    ensures UseVideo(m) && !UseAudio(m) <==> m == Video
    ensures !UseVideo(m) && UseAudio(m) <==> m == Audio
  {
  }

  /** Width and height as 32-bit Kotlin `Int`s. */
  datatype Dimensions = Dimensions(w: int, h: int) {
    predicate Valid() {
      Int32.InRange(w) && Int32.InRange(h)
    }
  }

  datatype ArithmeticError = DivisionByZero

  /** Component-wise difference; each component wraps around like `Int` subtraction. */
  function Minus(a: Dimensions, b: Dimensions): (r: Dimensions)
    ensures r.Valid()
    ensures (a.w - b.w - r.w) % Int32.Modulus == 0 && (a.h - b.h - r.h) % Int32.Modulus == 0
    ensures Int32.InRange(a.w - b.w) && Int32.InRange(a.h - b.h) ==> r == Dimensions(a.w - b.w, a.h - b.h)
  {
    Dimensions(Int32.Wrap(a.w - b.w), Int32.Wrap(a.h - b.h))
  }

  /**
    Component-wise division by `b`, rounding toward zero; dividing by zero
    throws, and `Int.MIN_VALUE / -1` wraps back to `Int.MIN_VALUE`.
  */
  function Div(a: Dimensions, b: int): (r: Result<Dimensions, ArithmeticError>)
    ensures r.Failure? <==> b == 0
    ensures r.Success? ==> r.value.Valid()
  {
    if b == 0 then Failure(DivisionByZero)
    else Success(Dimensions(Int32.Wrap(Int32.TruncDiv(a.w, b)), Int32.Wrap(Int32.TruncDiv(a.h, b))))
  }

  /**
    On valid dimensions, each component of the quotient is the JVM quotient:
    its remainder is smaller than the divisor and carries the sign of the
    dividend; dividing by -1 negates. Only `Int.MIN_VALUE / -1` overflows,
    which `DivMinByMinusOneWraps` covers.
  */
  lemma DivRoundsTowardZero(a: Dimensions, b: int)
    requires a.Valid() && b != 0
    requires b != -1 || (a.w != Int32.Min && a.h != Int32.Min)
    ensures Div(a, b).Success?
    ensures b == -1 ==> Div(a, b).value == Dimensions(-a.w, -a.h)
    ensures var q := Div(a, b).value;
      && Int32.Abs(a.w - q.w * b) < Int32.Abs(b)
      && (a.w - q.w * b == 0 || ((a.w - q.w * b > 0) <==> (a.w > 0)))
      && Int32.Abs(a.h - q.h * b) < Int32.Abs(b)
      && (a.h - q.h * b == 0 || ((a.h - q.h * b > 0) <==> (a.h > 0)))
  {
    Int32.TruncDivRemainder(a.w, b);
    Int32.TruncDivRemainder(a.h, b);
    QuotientInRange(a.w, b);
    QuotientInRange(a.h, b);
  }

  /** A truncated quotient of an `Int` is again an `Int`, except for `Int.MIN_VALUE / -1`. */
  lemma QuotientInRange(x: int, b: int)
    requires Int32.InRange(x) && b != 0
    requires b != -1 || x != Int32.Min
    ensures Int32.InRange(Int32.TruncDiv(x, b))
    ensures b == -1 ==> Int32.TruncDiv(x, b) == -x
  {
    var A: nat, B: nat := Int32.Abs(x), Int32.Abs(b);
    Int32.EuclidNat(A, B);
    if B >= 2 {
      HalfBound(A, B);
    }
  }

  lemma HalfBound(A: nat, B: nat)
    requires B >= 2
    ensures 2 * (A / B) <= A
  {
    Int32.EuclidNat(A, B);
    var n := A / B;
    assert n * B == n * 2 + n * (B - 2);
    assert n * (B - 2) >= 0;
  }

  /** `Int.MIN_VALUE / -1` overflows back to `Int.MIN_VALUE`, as on the JVM. */
  lemma DivMinByMinusOneWraps()
    ensures Div(Dimensions(Int32.Min, 0), -1) == Success(Dimensions(Int32.Min, 0))
  {
    assert Int32.TruncDiv(Int32.Min, -1) == -Int32.Min;
  }
}
