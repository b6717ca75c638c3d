/** Values shared by every part of the model. */
module Basics {

  /** An 8-bit unsigned sample: a grayscale value, an edge-map value or one colour channel. */
  type Byte = c: int | 0 <= c < 256

  datatype Option<T> = None | Some(value: T)

  /** A point in device pixels. The source stores points as doubles, but every
      point it builds holds integer coordinates. */
  datatype Point = Point(x: int, y: int)

  /** A polyline drawn as one press, drag and release. */
  type Path = seq<Point>

  /** The two-point horizontal path the vectoriser emits for columns startX..endX of row y. */
  function HLine(startX: int, y: int, endX: int): Path
  {
    [Point(startX, y), Point(endX, y)]
  }

  /** The rows of a two-dimensional buffer (an OpenCV Mat, or a captured screen patch):
      row y holds the samples at (y, 0), (y, 1), ... */
  function Grid<T>(img: array2<T>): (g: seq<seq<T>>)
    reads img
    ensures |g| == img.Length0
    ensures forall y :: 0 <= y < |g| ==> |g[y]| == img.Length1
    ensures forall y, x :: 0 <= y < img.Length0 && 0 <= x < img.Length1 ==> g[y][x] == img[y, x]
  {
    seq(img.Length0, y requires 0 <= y < img.Length0 reads img =>
      seq(img.Length1, x requires 0 <= x < img.Length1 reads img => img[y, x]))
  }

  /** d * d, by odd-number sums so that the solver meets no product of two unknowns;
      SquareIsProduct states that it is the product. */
  function Square(d: int): nat
    decreases if d < 0 then 1 - 2 * d else 2 * d
  {
    if d < 0 then Square(-d) else if d == 0 then 0 else Square(d - 1) + 2 * d - 1
  }

  lemma {:induction false} SquareIsProduct(d: int)
    ensures Square(d) == d * d
    decreases if d < 0 then 1 - 2 * d else 2 * d
  {
    if d < 0 {
      SquareIsProduct(-d);
    } else if d > 0 {
      SquareIsProduct(d - 1);
    }
  }

  /** A positive factor can be cancelled from a strict inequality between products. */
  lemma CancelLess(d: int, x: int, y: int)
    requires d > 0 && d * x < d * y
    ensures x < y
  {
    assert d * (y - x) == d * y - d * x;
  }

  /** Euclidean division is determined by its quotient and remainder. */
  lemma DivUnique(n: int, d: int, q: int, r: int)
    requires d > 0 && 0 <= r < d && n == d * q + r
    ensures n / d == q && n % d == r
  {
    var q0, r0 := n / d, n % d;
    assert d * (q - q0) == r0 - r by {
      assert n == d * q0 + r0;
      assert d * (q - q0) == d * q - d * q0;
    }
    CancelLess(d, q - q0, 1);
    CancelLess(d, -1, q - q0);
  }
}
