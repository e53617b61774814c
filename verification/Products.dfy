/** Bounds of products. */
module Products {

  /** Multiplication is monotone on nonnegative numbers. */
  lemma MulBound(u: int, v: int, a: int, b: int)
    requires 0 <= u <= a && 0 <= v <= b
    ensures 0 <= u * v <= a * b
  {
    assert u * v <= a * v by {
      assert a * v == u * v + (a - u) * v;
      assert (a - u) * v >= 0;
    }
    assert a * v <= a * b by {
      assert a * b == a * v + a * (b - v);
      assert a * (b - v) >= 0;
    }
  }

  lemma ProductBound(x: int, y: int, a: int, b: int)
    requires 0 <= a && 0 <= b && -a <= x <= a && -b <= y <= b
    ensures -(a * b) <= x * y <= a * b
  {
    var u, v := if x < 0 then -x else x, if y < 0 then -y else y;
    MulBound(u, v, a, b);
    if x < 0 {
      assert x * y == -(u * y);
    }
    if y < 0 {
      assert u * y == -(u * v);
    }
  }
}
