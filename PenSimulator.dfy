/** The pen: replays a polyline as synthetic mouse input. Every Win32 call it makes
    (SetCursorPos, mouse_event, Thread.Sleep) is an action appended to a device trace, the
    cursor position GetCursorPos would report is the position the trace has led to, and
    a cancellation token is an input that turns on at a fixed point of the trace and stays
    on. */
module Pen {
  import opened Basics

  /** One call to the device. */
  datatype Action =
    | SetCursor(p: Point)         // SetCursorPos(p.x, p.y)
    | MoveBy(dx: int, dy: int)    // mouse_event(MOUSEEVENTF_MOVE, dx, dy, 0, 0)
    | LeftDown                    // mouse_event(MOUSEEVENTF_LEFTDOWN, 0, 0, 0, 0)
    | LeftUp                      // mouse_event(MOUSEEVENTF_LEFTUP, 0, 0, 0, 0)
    | Sleep(ms: int)              // Thread.Sleep(ms)

  /** A cancellation token. IsCancellationRequested reads true at every check made once the
      trace holds at least cancelAt actions, and never before: once requested, a token stays
      requested. None is a token nobody cancels. */
  datatype Token = Token(cancelAt: Option<nat>)

  /** token.IsCancellationRequested, asked when the trace holds t actions. */
  predicate Requested(token: Token, t: nat)
  {
    token.cancelAt.Some? && token.cancelAt.value <= t
  }

  lemma RequestedStays(token: Token, t: nat, t': nat)
    requires Requested(token, t) && t <= t'
    ensures Requested(token, t')
  {
  }

  // ---------------------------------------------------------------------------
  // Cursor

  function Apply(c: Point, a: Action): Point
  {
    match a
    case SetCursor(p) => p
    case MoveBy(dx, dy) => Point(c.x + dx, c.y + dy)
    case _ => c
  }

  /** Where the cursor is after the actions acts, starting from c. */
  function CursorAfter(c: Point, acts: seq<Action>): Point
  {
    if acts == [] then c else Apply(CursorAfter(c, acts[..|acts| - 1]), acts[|acts| - 1])
  }

  // ---------------------------------------------------------------------------
  // Geometry: the step count and the interpolation

  /** The integer square root of n, searching upward from r with sq the square of r;
      ISqrtBounds in the properties module states that it is the largest s with s * s <= n. */
  function ISqrtFrom(n: nat, r: nat, sq: nat): nat
    requires sq <= n
    decreases n - sq
  {
    if sq + 2 * r + 1 <= n then ISqrtFrom(n, r + 1, sq + 2 * r + 1) else r
  }

  function ISqrt(n: nat): nat
  {
    ISqrtFrom(n, 0, 0)
  }

  function SquaredDistance(p1: Point, p2: Point): nat
  {
    Square(p2.x - p1.x) + Square(p2.y - p1.y)
  }

  /** (int)Math.Max(1, dist / stepSize) for dist the Euclidean distance from p1 to p2. For
      x >= 0, floor(sqrt(x)) == ISqrt(floor(x)), and dist / stepSize == sqrt(d2 / stepSize^2). */
  function StepCount(p1: Point, p2: Point, stepSize: real): (n: nat)
    requires stepSize > 0.0
    ensures n >= 1
  {
    var q := ((SquaredDistance(p1, p2) as real) / (stepSize * stepSize)).Floor;
    var n := ISqrt(if q < 0 then 0 else q);
    if n < 1 then 1 else n
  }

  /** (int)v for a rational v = n / d: C#'s conversion truncates toward zero. */
  function TruncDiv(n: int, d: int): (q: int)
    requires d > 0
    ensures n >= 0 ==> q >= 0 && 0 <= n - d * q < d
    ensures n < 0 ==> q <= 0 && 0 <= d * q - n < d
  {
    if n >= 0 then n / d
    else
      var m := (-n) / d;
      assert d * (-m) == -(d * m);
      -m
  }

  /** (int)(a + (b - a) * t) with t = j / steps. */
  function Interpolate(a: int, b: int, j: nat, steps: nat): int
    requires steps >= 1
  {
    TruncDiv(a * steps + (b - a) * j, steps)
  }

  function LerpPoint(p1: Point, p2: Point, j: nat, steps: nat): Point
    requires steps >= 1
  {
    Point(Interpolate(p1.x, p2.x, j, steps), Interpolate(p1.y, p2.y, j, steps))
  }

  // ---------------------------------------------------------------------------
  // What the pen does, as the actions it appends

  /** MoveSmoothly's loop from step i on, started when the trace holds t actions: one
      cursor move per step, a 1 ms sleep after every fifth, then the final snap to `to`;
      a check of the token before each step returns at once. */
  function GlideFrom(from: Point, to: Point, steps: nat, i: nat, t: nat, token: Token): seq<Action>
    requires 1 <= i <= steps + 1
    decreases steps + 1 - i
  {
    if i > steps then [SetCursor(to)]
    else if Requested(token, t) then []
    else
      var step := [SetCursor(LerpPoint(from, to, i, steps))] + (if i % 5 == 0 then [Sleep(1)] else []);
      step + GlideFrom(from, to, steps, i + 1, t + |step|, token)
  }

  /** The hover step size of MoveSmoothly. */
  const HoverStep: real := 15.0

  function Glide(from: Point, to: Point, t: nat, token: Token): seq<Action>
  {
    GlideFrom(from, to, StepCount(from, to, HoverStep), 1, t, token)
  }

  /** stepsSinceLastSleep after one more step. */
  function NextCounter(counter: int, sleepInterval: int): int
  {
    if counter + 1 >= sleepInterval then 0 else counter + 1
  }

  /** The inner loop of DrawStroke for one point pair, from sub-step j on, with the step
      counter at `counter`: a cursor move per sub-step and a 1 ms sleep each time the
      counter reaches sleepInterval. */
  function SegmentFrom(p1: Point, p2: Point, steps: nat, j: nat, counter: int, sleepInterval: int): seq<Action>
    requires 1 <= j <= steps + 1
    decreases steps + 1 - j
  {
    if j > steps then []
    else
      [SetCursor(LerpPoint(p1, p2, j, steps))] + (if counter + 1 >= sleepInterval then [Sleep(1)] else [])
      + SegmentFrom(p1, p2, steps, j + 1, NextCounter(counter, sleepInterval), sleepInterval)
  }

  /** The step counter after the inner loop from sub-step j on. */
  function CounterAfter(steps: nat, j: nat, counter: int, sleepInterval: int): int
    requires 1 <= j <= steps + 1
    decreases steps + 1 - j
  {
    if j > steps then counter else CounterAfter(steps, j + 1, NextCounter(counter, sleepInterval), sleepInterval)
  }

  /** The release delay: slower for fine strokes. */
  function UpDelay(stepSize: real): int
  {
    if stepSize < 2.0 then 10 else 2
  }

  /** The sub-step count of every point pair of a stroke, in order. */
  function StepCounts(points: seq<Point>, stepSize: real): (counts: seq<nat>)
    requires stepSize > 0.0
    ensures |counts| == if |points| < 2 then 0 else |points| - 1
    ensures forall k :: 0 <= k < |counts| ==> counts[k] == StepCount(points[k], points[k + 1], stepSize)
    decreases |points|
  {
    if |points| < 2 then []
    else [StepCount(points[0], points[1], stepSize)] + StepCounts(points[1..], stepSize)
  }

  /** The outer loop of DrawStroke from point pair i on, with counts[k] the sub-step count
      of pair k, started when the trace holds t actions: the token is checked before each
      pair, and a requested token releases the button at once; after the last pair the
      button is released after UpDelay. */
  function PairsFrom(points: seq<Point>, counts: seq<nat>, i: nat, counter: int, t: nat, token: Token, stepSize: real, sleepInterval: int): seq<Action>
    requires 2 <= |points| && |counts| == |points| - 1 && i <= |points| - 1
    decreases |points| - i
  {
    if i == |points| - 1 then [Sleep(UpDelay(stepSize)), LeftUp]
    else if Requested(token, t) then [LeftUp]
    else
      var seg := SegmentFrom(points[i], points[i + 1], counts[i], 1, counter, sleepInterval);
      seg + PairsFrom(points, counts, i + 1, CounterAfter(counts[i], 1, counter, sleepInterval), t + |seg|, token, stepSize, sleepInterval)
  }

  /** One uncancelled pair of the outer loop. */
  lemma PairsUnfold(points: seq<Point>, counts: seq<nat>, i: nat, counter: int, t: nat, token: Token, stepSize: real, sleepInterval: int)
    requires 2 <= |points| && |counts| == |points| - 1 && i < |points| - 1 && !Requested(token, t)
    ensures
      var seg := SegmentFrom(points[i], points[i + 1], counts[i], 1, counter, sleepInterval);
      PairsFrom(points, counts, i, counter, t, token, stepSize, sleepInterval)
      == seg + PairsFrom(points, counts, i + 1, CounterAfter(counts[i], 1, counter, sleepInterval), t + |seg|, token, stepSize, sleepInterval)
  {
  }

  /** Appending two pieces one after the other appends their concatenation. */
  lemma Append2(s: seq<Action>, a: seq<Action>, b: seq<Action>)
    ensures s + a + b == s + (a + b)
  {
  }

  /** Appending three pieces one after the other appends their concatenation. */
  lemma Regroup(s: seq<Action>, a: seq<Action>, b: seq<Action>, c: seq<Action>)
    ensures s + a + b + c == s + (a + b + c)
  {
  }

  /** Pressing at the first point: place the cursor, wait, press, and the kick-start jitter. */
  function Press(p: Point): seq<Action>
  {
    [SetCursor(p), Sleep(15), LeftDown, MoveBy(2, 2), MoveBy(-2, -2)]
  }

  /** DrawStroke(points, stepSize, sleepInterval, token) with the cursor at `cursor` and the
      trace holding t actions. */
  function Stroke(cursor: Point, points: seq<Point>, stepSize: real, sleepInterval: int, t: nat, token: Token): seq<Action>
    requires stepSize > 0.0
  {
    if |points| < 2 then []
    else
      var glide := Glide(cursor, points[0], t, token);
      glide + Press(points[0]) + PairsFrom(points, StepCounts(points, stepSize), 0, 0, t + |glide| + 5, token, stepSize, sleepInterval)
  }

  function ClickActions(p: Point): seq<Action>
  {
    [SetCursor(p), Sleep(30), LeftDown, Sleep(30), LeftUp]
  }

  // ---------------------------------------------------------------------------
  // The simulator

  class PenSimulator {
    /** Where the cursor was before the first action. */
    const origin: Point
    /** Every device call made so far, oldest first. */
    var trace: seq<Action>

    constructor(origin: Point)
      ensures this.origin == origin && trace == []
    {
      this.origin := origin;
      trace := [];
    }

    /** What GetCursorPos reports. */
    function Position(): Point
      reads this
    {
      CursorAfter(origin, trace)
    }

    method Emit(a: Action)
      modifies this
      ensures trace == old(trace) + [a]
    {
      trace := trace + [a];
    }

    method Click(p: Point)
      modifies this
      ensures trace == old(trace) + ClickActions(p)
    {
      Emit(SetCursor(p));
      Emit(Sleep(30));
      Emit(LeftDown);
      Emit(Sleep(30));
      Emit(LeftUp);
    }

    method MoveSmoothly(from: Point, to: Point, token: Token)
      modifies this
      ensures trace == old(trace) + Glide(from, to, |old(trace)|, token)
    {
      var steps := StepCount(from, to, HoverStep);
      GlideSteps(from, to, steps, token);
    }

    /** The hover loop of MoveSmoothly, for a given step count. */
    method GlideSteps(from: Point, to: Point, steps: nat, token: Token)
      modifies this
      ensures trace == old(trace) + GlideFrom(from, to, steps, 1, |old(trace)|, token)
    {
      ghost var goal := trace + GlideFrom(from, to, steps, 1, |trace|, token);
      var i := 1;
      while i <= steps
        invariant 1 <= i <= steps + 1
        invariant goal == trace + GlideFrom(from, to, steps, i, |trace|, token)
      {
        if Requested(token, |trace|) {
          return;
        }
        ghost var before := trace;
        ghost var t := |trace|;
        ghost var step := [SetCursor(LerpPoint(from, to, i, steps))] + (if i % 5 == 0 then [Sleep(1)] else []);
        ghost var rest := GlideFrom(from, to, steps, i + 1, t + |step|, token);
        assert GlideFrom(from, to, steps, i, t, token) == step + rest;
        Emit(SetCursor(LerpPoint(from, to, i, steps)));
        if i % 5 == 0 {
          Emit(Sleep(1));
        }
        assert trace == before + step;
        Append2(before, step, rest);
        i := i + 1;
      }
      Emit(SetCursor(to));
    }

    /** The sub-steps of one point pair; returns the step counter. */
    method DrawSegment(p1: Point, p2: Point, steps: nat, counter: int, sleepInterval: int) returns (counter': int)
      requires steps >= 1
      modifies this
      ensures trace == old(trace) + SegmentFrom(p1, p2, steps, 1, counter, sleepInterval)
      ensures counter' == CounterAfter(steps, 1, counter, sleepInterval)
    {
      counter' := counter;
      var j := 1;
      while j <= steps
        invariant 1 <= j <= steps + 1
        invariant old(trace) + SegmentFrom(p1, p2, steps, 1, counter, sleepInterval)
          == trace + SegmentFrom(p1, p2, steps, j, counter', sleepInterval)
        invariant CounterAfter(steps, 1, counter, sleepInterval) == CounterAfter(steps, j, counter', sleepInterval)
      {
        Emit(SetCursor(LerpPoint(p1, p2, j, steps)));
        counter' := counter' + 1;
        if counter' >= sleepInterval {
          Emit(Sleep(1));
          counter' := 0;
        }
        j := j + 1;
      }
    }

    /** The press at the start of a stroke. */
    method PressAt(p: Point)
      modifies this
      ensures trace == old(trace) + Press(p)
    {
      Emit(SetCursor(p));
      Emit(Sleep(15));
      Emit(LeftDown);
      Emit(MoveBy(2, 2));
      Emit(MoveBy(-2, -2));
    }

    /** One pass of the outer loop of DrawStroke: the sub-steps from points[i] to
        points[i + 1], after which the rest of the loop is what remained to be drawn. */
    method DrawPair(points: seq<Point>, i: nat, stepSize: real, counter: int, sleepInterval: int, token: Token) returns (counter': int)
      requires stepSize > 0.0 && i + 1 < |points| && !Requested(token, |trace|)
      modifies this
      ensures old(trace) + PairsFrom(points, StepCounts(points, stepSize), i, counter, |old(trace)|, token, stepSize, sleepInterval)
        == trace + PairsFrom(points, StepCounts(points, stepSize), i + 1, counter', |trace|, token, stepSize, sleepInterval)
    {
      ghost var counts := StepCounts(points, stepSize);
      ghost var before := trace;
      var steps := StepCount(points[i], points[i + 1], stepSize);
      assert steps == counts[i];
      ghost var seg := SegmentFrom(points[i], points[i + 1], steps, 1, counter, sleepInterval);
      PairsUnfold(points, counts, i, counter, |trace|, token, stepSize, sleepInterval);
      counter' := DrawSegment(points[i], points[i + 1], steps, counter, sleepInterval);
      ghost var rest := PairsFrom(points, counts, i + 1, counter', |trace|, token, stepSize, sleepInterval);
      assert PairsFrom(points, counts, i, counter, |before|, token, stepSize, sleepInterval) == seg + rest;
      Append2(before, seg, rest);
    }

    /** The outer loop of DrawStroke, with the button down. */
    method DrawPairs(points: seq<Point>, stepSize: real, sleepInterval: int, token: Token)
      requires stepSize > 0.0 && 2 <= |points|
      modifies this
      ensures trace == old(trace) + PairsFrom(points, StepCounts(points, stepSize), 0, 0, |old(trace)|, token, stepSize, sleepInterval)
    {
      ghost var goal := trace + PairsFrom(points, StepCounts(points, stepSize), 0, 0, |trace|, token, stepSize, sleepInterval);
      var stepsSinceLastSleep := 0;
      var i := 0;
      while i < |points| - 1
        invariant 0 <= i <= |points| - 1
        invariant goal == trace + PairsFrom(points, StepCounts(points, stepSize), i, stepsSinceLastSleep, |trace|, token, stepSize, sleepInterval)
      {
        if Requested(token, |trace|) {
          Emit(LeftUp);
          return;
        }
        stepsSinceLastSleep := DrawPair(points, i, stepSize, stepsSinceLastSleep, sleepInterval, token);
        i := i + 1;
      }
      var upDelay := if stepSize < 2.0 then 10 else 2;
      Emit(Sleep(upDelay));
      Emit(LeftUp);
    }

    method DrawStroke(points: seq<Point>, stepSize: real, sleepInterval: int, token: Token)
      requires stepSize > 0.0
      modifies this
      ensures trace == old(trace) + Stroke(old(Position()), points, stepSize, sleepInterval, |old(trace)|, token)
    {
      if |points| < 2 {
        return;
      }
      var currentPos := Position();
      ghost var before := trace;
      ghost var glide := Glide(currentPos, points[0], |trace|, token);
      ghost var pairs := PairsFrom(points, StepCounts(points, stepSize), 0, 0, |trace| + |glide| + 5, token, stepSize, sleepInterval);
      assert Stroke(currentPos, points, stepSize, sleepInterval, |trace|, token) == glide + Press(points[0]) + pairs;
      MoveSmoothly(currentPos, points[0], token);
      PressAt(points[0]);
      DrawPairs(points, stepSize, sleepInterval, token);
      Regroup(before, glide, Press(points[0]), pairs);
    }
  }
}
