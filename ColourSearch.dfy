/** The colour search of PickColor: the captured picker patch is sampled every fourth
    pixel in both directions, row by row, and the first sample of least squared RGB
    distance to the wanted colour is chosen. */
module ColourSearch {
  import opened Basics
  import opened ColorModel

  /** double.MaxValue, exactly: (2^53 - 1) * 2^971. */
  const DoubleMaxValue: int := 179769313486231570814527423731704356798070567525844996598917476803157260780028538760589558632766878171540458953514382464234321326889464182768467546703537516986049910576551282076245490090389328944075868508455133942304583236903222948165808559332123348274797826204144723168738177180919299881250404026184124858368

  /** The squared Euclidean distance between two colours. Math.Pow of a small integer to
      the power 2, and the sum of three of them, are exact in doubles. */
  function Dist(px: Rgb, target: Rgb): (d: nat)
    ensures d <= 3 * 255 * 255
  {
    SquareBound(px.r - target.r);
    SquareBound(px.g - target.g);
    SquareBound(px.b - target.b);
    Square(px.r - target.r) + Square(px.g - target.g) + Square(px.b - target.b)
  }

  lemma SquareBound(d: int)
    requires -255 <= d <= 255
    ensures Square(d) <= 255 * 255
  {
    var a := if d < 0 then -d else d;
    SquareIsProduct(d);
    assert d * d == a * a;
    MulLe(a, a, 255);
    MulLe(255, a, 255);
  }

  /** Multiplying by a non-negative factor keeps an inequality. */
  lemma MulLe(k: int, a: int, b: int)
    requires 0 <= k && a <= b
    ensures k * a <= k * b
  {
    assert k * b - k * a == k * (b - a);
  }

  /** (y, x) is visited by the stride-4 loops over an h by w patch. */
  predicate Sampled(h: int, w: int, y: int, x: int)
  {
    0 <= y < h && 0 <= x < w && y % 4 == 0 && x % 4 == 0
  }

  /** (y1, x1) comes before (y2, x2) in row-major order. */
  predicate Before(y1: int, x1: int, y2: int, x2: int)
  {
    y1 < y2 || (y1 == y2 && x1 < x2)
  }

  /** The state of the search: the least distance so far and the offset where it was found. */
  datatype Candidate = Candidate(min: int, at: Point)

  /** Before any sample: min = double.MaxValue and best the picker's origin. */
  const Initial := Candidate(DoubleMaxValue, Point(0, 0))

  /** The candidate after looking at the sample at column x of row y: replaced only by a
      strictly closer colour. */
  function Consider(patch: array2<Rgb>, target: Rgb, y: nat, x: nat, c: Candidate): Candidate
    requires y < patch.Length0 && x < patch.Length1
    reads patch
  {
    var d := Dist(patch[y, x], target);
    if d < c.min then Candidate(d, Point(x, y)) else c
  }

  /** The inner loop, over row y from column x on. */
  function ScanRow(patch: array2<Rgb>, target: Rgb, y: nat, x: nat, c: Candidate): Candidate
    requires y < patch.Length0
    reads patch
    decreases patch.Length1 - x
  {
    if x >= patch.Length1 then c
    else ScanRow(patch, target, y, x + 4, Consider(patch, target, y, x, c))
  }

  /** The outer loop, from row y on. */
  function ScanRows(patch: array2<Rgb>, target: Rgb, y: nat, c: Candidate): Candidate
    reads patch
    decreases patch.Length0 - y
  {
    if y >= patch.Length0 then c
    else ScanRows(patch, target, y + 4, ScanRow(patch, target, y, 0, c))
  }

  /** The offset, inside the patch, that the search settles on. */
  function BestOffset(patch: array2<Rgb>, target: Rgb): Point
    reads patch
  {
    ScanRows(patch, target, 0, Initial).at
  }

  /** p is the first sample, in row-major order, whose distance to target is least among
      all samples of the patch. */
  ghost predicate FirstMin(patch: array2<Rgb>, target: Rgb, p: Point)
    reads patch
  {
    var h, w := patch.Length0, patch.Length1;
    && Sampled(h, w, p.y, p.x)
    && (forall y, x :: Sampled(h, w, y, x) ==> Dist(patch[p.y, p.x], target) <= Dist(patch[y, x], target))
    && (forall y, x :: Sampled(h, w, y, x) && Before(y, x, p.y, p.x) ==>
          Dist(patch[p.y, p.x], target) < Dist(patch[y, x], target))
  }

  /** What the search has established once every sample before (y, x) has been looked at:
      either there was none and the candidate is still the initial one, or the candidate
      is the first least sample among them. */
  ghost predicate Scanned(patch: array2<Rgb>, target: Rgb, y: int, x: int, c: Candidate)
    reads patch
  {
    var h, w := patch.Length0, patch.Length1;
    || (c == Initial && forall y', x' :: Sampled(h, w, y', x') ==> !Before(y', x', y, x))
    || (&& Sampled(h, w, c.at.y, c.at.x)
        && Before(c.at.y, c.at.x, y, x)
        && c.min == Dist(patch[c.at.y, c.at.x], target)
        && (forall y', x' :: Sampled(h, w, y', x') && Before(y', x', y, x) ==> c.min <= Dist(patch[y', x'], target))
        && (forall y', x' :: Sampled(h, w, y', x') && Before(y', x', c.at.y, c.at.x) ==> c.min < Dist(patch[y', x'], target)))
  }

  /** Looking at the sample (y, x) extends what is established to everything before (y, x + 1). */
  lemma ConsiderStep(patch: array2<Rgb>, target: Rgb, y: nat, x: nat, c: Candidate)
    requires Sampled(patch.Length0, patch.Length1, y, x) && Scanned(patch, target, y, x, c)
    ensures Scanned(patch, target, y, x + 1, Consider(patch, target, y, x, c))
  {
    var h, w := patch.Length0, patch.Length1;
    var d := Dist(patch[y, x], target);
    forall y', x' | Sampled(h, w, y', x') && Before(y', x', y, x + 1)
      ensures Before(y', x', y, x) || (y', x') == (y, x)
    {
    }
  }

  /** Positions with the same samples before them establish the same thing. */
  lemma ScannedSkip(patch: array2<Rgb>, target: Rgb, y1: int, x1: int, y2: int, x2: int, c: Candidate)
    requires Scanned(patch, target, y1, x1, c)
    requires forall y', x' :: Sampled(patch.Length0, patch.Length1, y', x') ==>
      (Before(y', x', y1, x1) <==> Before(y', x', y2, x2))
    ensures Scanned(patch, target, y2, x2, c)
  {
  }

  /** Columns x + 1 to x + 3 hold no sample. */
  lemma SkipInRow(patch: array2<Rgb>, target: Rgb, y: int, x: int, c: Candidate)
    requires x % 4 == 0 && Scanned(patch, target, y, x + 1, c)
    ensures Scanned(patch, target, y, x + 4, c)
  {
    forall y', x' | Sampled(patch.Length0, patch.Length1, y', x')
      ensures Before(y', x', y, x + 1) <==> Before(y', x', y, x + 4)
    {
      assert y' == y ==> (x' < x + 4 <==> x' < x + 1);
    }
    ScannedSkip(patch, target, y, x + 1, y, x + 4, c);
  }

  /** Past the last column, the rest of row y and rows y + 1 to y + 3 hold no sample. */
  lemma SkipRowEnd(patch: array2<Rgb>, target: Rgb, y: int, x: int, c: Candidate)
    requires y % 4 == 0 && x >= patch.Length1 && Scanned(patch, target, y, x, c)
    ensures Scanned(patch, target, y + 4, 0, c)
  {
    forall y', x' | Sampled(patch.Length0, patch.Length1, y', x')
      ensures Before(y', x', y, x) <==> Before(y', x', y + 4, 0)
    {
      assert y' < y + 4 <==> y' <= y;
    }
    ScannedSkip(patch, target, y, x, y + 4, 0, c);
  }

  /** The inner loop establishes everything on rows up to y. */
  lemma {:induction false} ScanRowScans(patch: array2<Rgb>, target: Rgb, y: nat, x: nat, c: Candidate)
    requires y < patch.Length0 && y % 4 == 0 && x % 4 == 0
    requires Scanned(patch, target, y, x, c)
    ensures Scanned(patch, target, y + 4, 0, ScanRow(patch, target, y, x, c))
    decreases patch.Length1 - x
  {
    var h, w := patch.Length0, patch.Length1;
    if x >= w {
      SkipRowEnd(patch, target, y, x, c);
    } else {
      var c' := Consider(patch, target, y, x, c);
      ConsiderStep(patch, target, y, x, c);
      SkipInRow(patch, target, y, x, c');
      ScanRowScans(patch, target, y, x + 4, c');
    }
  }

  /** The outer loop establishes everything on the patch. */
  lemma {:induction false} ScanRowsScans(patch: array2<Rgb>, target: Rgb, y: nat, c: Candidate)
    requires y % 4 == 0 && Scanned(patch, target, y, 0, c)
    ensures Scanned(patch, target, patch.Length0, 0, ScanRows(patch, target, y, c))
    decreases patch.Length0 - y
  {
    if y >= patch.Length0 {
      ScannedSkip(patch, target, y, 0, patch.Length0, 0, c);
    } else {
      ScanRowScans(patch, target, y, 0, c);
      ScanRowsScans(patch, target, y + 4, ScanRow(patch, target, y, 0, c));
    }
  }

  /** The search picks the first sample of least distance; on a patch with no pixel it
      keeps the origin. */
  lemma BestOffsetIsFirstMin(patch: array2<Rgb>, target: Rgb)
    ensures patch.Length0 > 0 && patch.Length1 > 0 ==> FirstMin(patch, target, BestOffset(patch, target))
    ensures patch.Length0 == 0 || patch.Length1 == 0 ==> BestOffset(patch, target) == Point(0, 0)
  {
    var h, w := patch.Length0, patch.Length1;
    ScanRowsScans(patch, target, 0, Initial);
    var c := ScanRows(patch, target, 0, Initial);
    if h > 0 && w > 0 {
      assert Sampled(h, w, 0, 0) && Before(0, 0, h, 0);
      forall y, x | Sampled(h, w, y, x)
        ensures Before(y, x, h, 0)
      {
      }
    }
  }

  /** At most one sample is the first least one. */
  lemma FirstMinUnique(patch: array2<Rgb>, target: Rgb, p: Point, q: Point)
    requires FirstMin(patch, target, p) && FirstMin(patch, target, q)
    ensures p == q
  {
    var dp, dq := Dist(patch[p.y, p.x], target), Dist(patch[q.y, q.x], target);
    assert dp <= dq && dq <= dp;
    assert !Before(p.y, p.x, q.y, q.x) && !Before(q.y, q.x, p.y, p.x);
  }

  /** The stride-4 scan of PickColor over the captured patch, whose top-left pixel is at
      origin on the screen; returns the screen point of the chosen sample. */
  method FindBestMatch(patch: array2<Rgb>, target: Rgb, origin: Point) returns (best: Point)
    ensures var off := BestOffset(patch, target);
      best == Point(origin.x + off.x, origin.y + off.y)
    ensures patch.Length0 > 0 && patch.Length1 > 0 ==>
      FirstMin(patch, target, Point(best.x - origin.x, best.y - origin.y))
  {
    best := origin;
    var min := DoubleMaxValue;
    ghost var at := Point(0, 0);
    var y := 0;
    while y < patch.Length0
      invariant ScanRows(patch, target, y, Candidate(min, at)) == ScanRows(patch, target, 0, Initial)
      invariant best == Point(origin.x + at.x, origin.y + at.y)
      decreases patch.Length0 - y
    {
      min, best, at := ScanPatchRow(patch, target, origin, y, min, best, at);
      y := y + 4;
    }
    BestOffsetIsFirstMin(patch, target);
  }

  /** The inner loop of FindBestMatch, over row y. */
  method ScanPatchRow(patch: array2<Rgb>, target: Rgb, origin: Point, y: nat, min: int, best: Point, ghost at: Point)
    returns (min': int, best': Point, ghost at': Point)
    requires y < patch.Length0 && best == Point(origin.x + at.x, origin.y + at.y)
    ensures Candidate(min', at') == ScanRow(patch, target, y, 0, Candidate(min, at))
    ensures best' == Point(origin.x + at'.x, origin.y + at'.y)
  {
    min', best', at' := min, best, at;
    var x := 0;
    while x < patch.Length1
      invariant ScanRow(patch, target, y, x, Candidate(min', at')) == ScanRow(patch, target, y, 0, Candidate(min, at))
      invariant best' == Point(origin.x + at'.x, origin.y + at'.y)
      decreases patch.Length1 - x
    {
      var px := patch[y, x];
      var dist := Dist(px, target);
      if dist < min' {
        min' := dist;
        best' := Point(origin.x + x, origin.y + y);
        at' := Point(x, y);
      }
      x := x + 4;
    }
  }
}
