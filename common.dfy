/** Small pieces shared by every part of the model: an optional value (the
    source's `T | null` and absent query parameters) and JavaScript's
    `Math.ceil(a / b)` on integers, which both the page store and the
    pagination view use to compute page counts. */
module Common {

  datatype Option<+T> = None | Some(value: T) {
    /** The value, or `default` when there is none (JavaScript's `x || default`
        once an empty value has been read as absent). */
    function GetOr(default: T): T {
      match this
      case Some(v) => v
      case None => default
    }
  }

  /** `Math.ceil(a / b)` for a positive divisor: the least integer `r` with
      `a <= r * b`. Dafny's `/` is Euclidean, which for `b > 0` is floor
      division, so the ceiling is the negated floor of `-a / b`. */
  function CeilDiv(a: int, b: int): (r: int)
    requires b > 0
    ensures (r - 1) * b < a <= r * b
    ensures a >= 0 ==> r >= 0
    ensures a == 0 ==> r == 0
    ensures a > 0 ==> r >= 1
  {
    var q := (-a) / b;
    assert -a == q * b + (-a) % b;
    -q
  }

  /** The ceiling is the only integer that satisfies the bracket of `CeilDiv`:
      any page number `p` with `(p - 1) * b < a <= p * b` is the ceiling. */
  lemma CeilDivUnique(a: int, b: int, p: int)
    requires b > 0
    requires (p - 1) * b < a <= p * b
    ensures p == CeilDiv(a, b)
  {
    var r := CeilDiv(a, b);
    if p < r {
      assert p * b <= (r - 1) * b by { MulMonotone(p, r - 1, b); }
    } else if p > r {
      assert r * b <= (p - 1) * b by { MulMonotone(r, p - 1, b); }
    }
  }

  lemma MulMonotone(x: int, y: int, b: int)
    requires b > 0 && x <= y
    ensures x * b <= y * b
  {
    assert y * b - x * b == (y - x) * b;
  }
}
