/** Millisecond timestamps, as `Date.getTime()` yields them, and the day arithmetic on them. */
module Time {
  /** `1000 * 60 * 60 * 24`, the length of a day in milliseconds. */
  const MsPerDay: int := 86400000

  /** `Math.ceil(a / b)` for integer `a` and positive integer `b`: the least `q` with `a <= q * b`. */
  function CeilDiv(a: int, b: int): (q: int)
    requires b > 0
    ensures (q - 1) * b < a <= q * b
  {
    var f := (-a) / b;
    assert b * f <= -a < b * f + b;
    -f
  }

  /** The two bounds in `CeilDiv`'s contract single out its result: it is the ceiling and nothing else. */
  lemma CeilDivUnique(a: int, b: int, q: int)
    requires b > 0
    requires (q - 1) * b < a <= q * b
    ensures q == CeilDiv(a, b)
  {
    var c := CeilDiv(a, b);
    if q < c {
      assert q * b <= (c - 1) * b by { MulMonotone(q, c - 1, b); }
    } else if q > c {
      assert c * b <= (q - 1) * b by { MulMonotone(c, q - 1, b); }
    }
  }

  lemma MulMonotone(x: int, y: int, b: int)
    requires x <= y && b > 0
    ensures x * b <= y * b
  {
    assert y * b - x * b == (y - x) * b;
  }
}
