/** Shared vocabulary of the image utilities: optional results, rectangular
    pixel grids (the shape of a 2-D numpy array), 8-bit pixels, and Python's
    `int()` conversion of a real number. */
module Images {

  /** `None` stands for the source's `return None`. */
  datatype Option<+T> = None | Some(value: T)

  /** An unsigned 8-bit pixel (numpy `uint8`). */
  newtype byte = x: int | 0 <= x < 256

  /** A 2-D array of shape `(height, width)`, stored as a sequence of rows.
      The shape is kept explicitly because an array with no rows still has
      a width. */
  datatype Grid<T> = Grid(height: nat, width: nat, cells: seq<seq<T>>) {
    predicate Valid() {
      |cells| == height && forall i :: 0 <= i < |cells| ==> |cells[i]| == width
    }
  }

  /** Python `min(a, b)` on integers. */
  function MinInt(a: int, b: int): (r: int)
    ensures r <= a && r <= b && (r == a || r == b)
  {
    if a <= b then a else b
  }

  /** Python `max(a, b)` on integers. */
  function MaxInt(a: int, b: int): (r: int)
    ensures a <= r && b <= r && (r == a || r == b)
  {
    if a <= b then b else a
  }

  /** Python `int(r)` on a finite float: it rounds toward zero, so it is the
      floor for non-negative values and the ceiling for negative ones. */
  function Trunc(r: real): (t: int)
    ensures 0.0 <= r ==> t as real <= r < t as real + 1.0
    ensures r < 0.0 ==> t as real - 1.0 < r <= t as real
  {
    if r >= 0.0 then r.Floor else -((-r).Floor)
  }

  /** Truncation toward zero never reverses the order of two reals. */
  lemma TruncMonotone(a: real, b: real)
    requires a <= b
    ensures Trunc(a) <= Trunc(b)
  {
    if 0.0 <= a {
      assert Trunc(a) as real <= a <= b < Trunc(b) as real + 1.0;
    } else if b < 0.0 {
      assert Trunc(a) as real - 1.0 < a <= b <= Trunc(b) as real;
    }
  }

  /** On a non-negative quotient of naturals, truncation is integer division. */
  lemma TruncOfQuotient(a: nat, b: nat)
    requires 0 < b
    ensures Trunc(a as real / b as real) == a / b
  {
    var q, r := a / b, a % b;
    assert a == q * b + r;
    assert a as real == q as real * b as real + r as real;
    var x := a as real / b as real;
    assert x == q as real + r as real / b as real;
    assert 0.0 <= r as real / b as real < 1.0;
    assert q as real <= x < q as real + 1.0;
    assert 0.0 <= x;
  }
}
