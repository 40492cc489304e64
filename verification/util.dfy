/** Scalar helpers shared by the reaction model and the seeders:
    the [0,1] clamp and 32-bit unsigned wrap-around. */
module Util {

  /** 2^32: `unsigned int` arithmetic in the program wraps modulo this value. */
  const U32: int := 0x1_0000_0000

  /** `std::max(a, b)`: returns `a` unless `a < b`. */
  function Max(a: real, b: real): real {
    if a < b then b else a
  }

  /** `std::min(a, b)`: returns `a` unless `b < a`. */
  function Min(a: real, b: real): real {
    if b < a then b else a
  }

  predicate InUnit(v: real) {
    0.0 <= v <= 1.0
  }

  /** `constrainZeroOne`: clamps a concentration into [0,1]. */
  function ConstrainZeroOne(v: real): (r: real)
    ensures InUnit(r)
    ensures InUnit(v) ==> r == v
    ensures v < 0.0 ==> r == 0.0
    ensures v > 1.0 ==> r == 1.0
  {
    Min(1.0, Max(0.0, v))
  }

  /** Clamping twice is clamping once. */
  lemma ConstrainIdempotent(v: real)
    ensures ConstrainZeroOne(ConstrainZeroOne(v)) == ConstrainZeroOne(v)
  {
  }

  /** An independent characterisation: the clamp is the point of [0,1]
      nearest to its input. */
  lemma ConstrainIsNearest(v: real, w: real)
    requires InUnit(w)
    ensures Abs(ConstrainZeroOne(v) - v) <= Abs(w - v)
  {
  }

  function Abs(v: real): real {
    if v < 0.0 then -v else v
  }

  /** Absolute value of an integer offset. */
  function IntAbs(v: int): nat {
    if v < 0 then -v else v
  }

  lemma MulMonotone(a: nat, b: nat, c: nat)
    requires a <= b
    ensures a * c <= b * c
  {
  }

  /** Unsigned 32-bit subtraction `a - b` as the hardware computes it. */
  function SubU32(a: int, b: int): (r: nat)
    requires 0 <= a < U32 && 0 <= b < U32
    ensures r < U32
    ensures b <= a ==> r == a - b
    ensures a < b ==> r == U32 + a - b
  {
    (a - b) % U32
  }

  /** Unsigned 32-bit addition `a + b` as the hardware computes it. */
  function AddU32(a: int, b: int): (r: nat)
    requires 0 <= a < U32 && 0 <= b < U32
    ensures r < U32
    ensures a + b < U32 ==> r == a + b
    ensures a + b >= U32 ==> r == a + b - U32
  {
    (a + b) % U32
  }
}
