/** Small shared vocabulary: an Option type and the scalar helpers that the
    detection code borrows from NumPy, torch and Python's built-ins. */
module Common {

  datatype Option<+T> = None | Some(value: T)

  function Max(a: real, b: real): (r: real)
    ensures r >= a && r >= b && (r == a || r == b)
  {
    if a >= b then a else b
  }

  function Min(a: real, b: real): (r: real)
    ensures r <= a && r <= b && (r == a || r == b)
  {
    if a <= b then a else b
  }

  /** `max(lo, min(t, hi))`, the clamp written out in the source. */
  function Clamp(t: real, lo: real, hi: real): (r: real)
    ensures lo <= hi ==> lo <= r <= hi
    ensures lo <= t <= hi ==> r == t
    ensures lo <= hi && t < lo ==> r == lo
    ensures lo <= hi && t > hi ==> r == hi
  {
    Max(lo, Min(t, hi))
  }

  function IMax(a: int, b: int): (r: int)
    ensures r >= a && r >= b && (r == a || r == b)
  {
    if a >= b then a else b
  }

  function IMin(a: int, b: int): (r: int)
    ensures r <= a && r <= b && (r == a || r == b)
  {
    if a <= b then a else b
  }

  lemma PositiveFactors(a: int, b: int)
    requires a >= 0 && a * b > 0
    ensures a > 0 && b > 0
  {
  }

  lemma MulMono(a: int, x: int, y: int)
    requires a >= 0 && x <= y
    ensures a * x <= a * y
  {
  }

  /** Python's `int(x)` on a float: truncation toward zero. */
  function Trunc(x: real): (r: int)
    ensures x >= 0.0 ==> r as real <= x < r as real + 1.0
    ensures x < 0.0 ==> r as real - 1.0 < x <= r as real
  {
    if x >= 0.0 then x.Floor else -((-x).Floor)
  }

  /** `math.ceil`. */
  function Ceil(x: real): (r: int)
    ensures r as real - 1.0 < x <= r as real
  {
    -((-x).Floor)
  }

  /** `np.round` / `torch.round`: round half to even. */
  function RoundHalfEven(x: real): (r: int)
    ensures x - 0.5 <= r as real <= x + 0.5
    ensures (r as real == x - 0.5 || r as real == x + 0.5) ==> r % 2 == 0
  {
    var f := x.Floor;
    var d := x - f as real;
    if d < 0.5 then f
    else if d > 0.5 then f + 1
    else if f % 2 == 0 then f
    else f + 1
  }

  /** Python's float `%` with a positive modulus: the floor remainder,
      the one value in [0, m) that differs from v by a whole multiple of m. */
  function RealMod(v: real, m: nat): (r: real)
    requires m > 0
    ensures 0.0 <= r < m as real
    ensures ((v - r) / m as real).Floor as real == (v - r) / m as real
  {
    var mr := m as real;
    var f := (v / mr).Floor as real;
    FloorRemainderBounds(v, mr, f);
    assert (v - (v - mr * f)) / mr == f;
    v - mr * f
  }

  lemma FloorRemainderBounds(v: real, mr: real, f: real)
    requires mr > 0.0 && f == (v / mr).Floor as real
    ensures 0.0 <= v - mr * f < mr
  {
    var q := v / mr;
    assert v == mr * q;
    var d := q - f;
    assert 0.0 <= d < 1.0;
    assert v - mr * f == mr * d;
    assert mr * d < mr * 1.0;
  }
}
