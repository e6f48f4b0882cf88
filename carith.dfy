/** C99 integer semantics that differ from Dafny's unbounded, Euclidean arithmetic. */
module CArith {

  const INT64_MAX: int := 0x7FFF_FFFF_FFFF_FFFF
  const INT64_MIN: int := -0x8000_0000_0000_0000

  function Abs(x: int): int { if x < 0 then -x else x }

  /** C99 `a / b`: the algebraic quotient truncated toward zero (Dafny's `/` is Euclidean). */
  function CDiv(a: int, b: int): (q: int)
    requires b != 0
    ensures a >= 0 ==> 0 <= a - q * b < Abs(b)
    ensures a < 0 ==> -Abs(b) < a - q * b <= 0
  {
    if a >= 0 then (if b > 0 then a / b else -(a / -b))
    else (if b > 0 then -((-a) / b) else (-a) / (-b))
  }

  /** C99 `a % b`, defined by the identity `(a / b) * b + a % b == a`. */
  function CMod(a: int, b: int): (r: int)
    requires b != 0
    ensures CDiv(a, b) * b + r == a
    ensures a >= 0 ==> 0 <= r < Abs(b)
    ensures a < 0 ==> -Abs(b) < r <= 0
  {
    a - CDiv(a, b) * b
  }

  /** A non-zero multiple of `b` is at least `b` in magnitude. */
  lemma MultipleAtLeast(k: int, b: int)
    requires k != 0 && b != 0
    ensures Abs(k * b) >= Abs(b)
  {
    AbsMul(k, b);
    PositiveMultiple(Abs(k), Abs(b));
  }

  lemma AbsMul(k: int, b: int)
    ensures Abs(k * b) == Abs(k) * Abs(b)
  {
    if k < 0 && b < 0 {
      assert k * b == (-k) * (-b);
    } else if k < 0 {
      assert -(k * b) == (-k) * b;
    } else if b < 0 {
      assert -(k * b) == k * (-b);
    }
  }

  lemma Distribute(x: int, y: int, b: int)
    ensures (x - y) * b == x * b - y * b
  {
  }

  lemma PositiveMultiple(k: int, b: int)
    requires k >= 1 && b >= 1
    ensures k * b >= b
  {
    assert k * b == (k - 1) * b + b;
  }

  /** The remainder bounds determine the truncated quotient uniquely. */
  lemma {:induction false} CDivUnique(a: int, b: int, q: int)
    requires b != 0
    requires a >= 0 ==> 0 <= a - q * b < Abs(b)
    requires a < 0 ==> -Abs(b) < a - q * b <= 0
    ensures q == CDiv(a, b)
  {
    var q0 := CDiv(a, b);
    var r, r0 := a - q * b, a - q0 * b;
    if q0 != q {
      Distribute(q0, q, b);
      MultipleAtLeast(q0 - q, b);
      assert false;
    }
  }
}
