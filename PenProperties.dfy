/** What the pen promises about the actions it emits: a stroke presses the button once and
    releases it once, last, even when cancelled; it reaches every point it is given and ends
    on the last one; the kick-start jitter leaves the cursor where it was; the sleep counter
    runs on across point pairs; and a cancelled stroke stops within one point pair. */
module PenProperties {
  import opened Basics
  import opened Pen

  // ---------------------------------------------------------------------------
  // Integer division facts

  lemma {:induction false} ISqrtFromBounds(n: nat, r: nat, sq: nat)
    requires sq == r * r && sq <= n
    ensures var s := ISqrtFrom(n, r, sq); s * s <= n < (s + 1) * (s + 1)
    decreases n - sq
  {
    assert (r + 1) * (r + 1) == sq + 2 * r + 1;
    if sq + 2 * r + 1 <= n {
      ISqrtFromBounds(n, r + 1, sq + 2 * r + 1);
    }
  }

  /** ISqrt(n) is the integer square root: the largest s with s * s <= n. */
  lemma ISqrtBounds(n: nat)
    ensures ISqrt(n) * ISqrt(n) <= n < (ISqrt(n) + 1) * (ISqrt(n) + 1)
  {
    ISqrtFromBounds(n, 0, 0);
  }

  lemma MulMono(d: int, x: int, y: int)
    requires d >= 0 && x <= y
    ensures d * x <= d * y
  {
    assert d * y - d * x == d * (y - x);
  }

  /** A truncated quotient lies between any integer bounds of the exact quotient. */
  lemma TruncDivBetween(n: int, d: int, lo: int, hi: int)
    requires d > 0 && d * lo <= n <= d * hi
    ensures lo <= TruncDiv(n, d) <= hi
  {
    var q := TruncDiv(n, d);
    assert d * (q + 1) == d * q + d && d * (hi + 1) == d * hi + d;
    CancelLess(d, lo, q + 1);
    CancelLess(d, q, hi + 1);
  }

  // ---------------------------------------------------------------------------
  // Interpolation

  /** Every intermediate point lies between the two end points, coordinate by coordinate. */
  lemma InterpolateBetween(a: int, b: int, j: nat, steps: nat)
    requires 1 <= steps && j <= steps
    ensures a <= b ==> a <= Interpolate(a, b, j, steps) <= b
    ensures b <= a ==> b <= Interpolate(a, b, j, steps) <= a
  {
    var n := a * steps + (b - a) * j;
    if a <= b {
      MulMono(b - a, 0, j);
      MulMono(b - a, j, steps);
      assert steps * a <= n <= steps * b by {
        assert (b - a) * steps == steps * b - steps * a;
      }
      TruncDivBetween(n, steps, a, b);
    } else {
      MulMono(a - b, 0, j);
      MulMono(a - b, j, steps);
      assert steps * b <= n <= steps * a by {
        assert (b - a) * j == -((a - b) * j);
        assert (a - b) * steps == steps * a - steps * b;
      }
      TruncDivBetween(n, steps, b, a);
    }
  }

  /** The last sub-step of a pair lands exactly on the pair's second point. */
  lemma LerpEnd(p1: Point, p2: Point, steps: nat)
    requires steps >= 1
    ensures LerpPoint(p1, p2, steps, steps) == p2
  {
    assert p1.x * steps + (p2.x - p1.x) * steps == steps * p2.x;
    assert p1.y * steps + (p2.y - p1.y) * steps == steps * p2.y;
    TruncDivBetween(steps * p2.x, steps, p2.x, p2.x);
    TruncDivBetween(steps * p2.y, steps, p2.y, p2.y);
  }

  // ---------------------------------------------------------------------------
  // Counting actions and following the cursor

  /** The number of cursor placements in s. */
  function Moves(s: seq<Action>): nat
  {
    if s == [] then 0 else (if s[0].SetCursor? then 1 else 0) + Moves(s[1..])
  }

  lemma {:induction false} MovesConcat(a: seq<Action>, b: seq<Action>)
    ensures Moves(a + b) == Moves(a) + Moves(b)
  {
    if a == [] {
      assert a + b == b;
    } else {
      assert (a + b)[0] == a[0];
      assert (a + b)[1..] == a[1..] + b;
      MovesConcat(a[1..], b);
    }
  }

  /** The number of 1 ms sleeps in s. */
  function Naps(s: seq<Action>): nat
  {
    if s == [] then 0 else (if s[0] == Sleep(1) then 1 else 0) + Naps(s[1..])
  }

  lemma {:induction false} NapsConcat(a: seq<Action>, b: seq<Action>)
    ensures Naps(a + b) == Naps(a) + Naps(b)
  {
    if a == [] {
      assert a + b == b;
    } else {
      assert (a + b)[0] == a[0];
      assert (a + b)[1..] == a[1..] + b;
      NapsConcat(a[1..], b);
    }
  }

  /** s only places the cursor and sleeps: the button is not touched. */
  predicate Hover(s: seq<Action>)
  {
    forall k :: 0 <= k < |s| ==> s[k].SetCursor? || s[k].Sleep?
  }

  lemma HoverConcat(a: seq<Action>, b: seq<Action>)
    requires Hover(a) && Hover(b)
    ensures Hover(a + b)
  {
    forall k | 0 <= k < |a + b|
      ensures (a + b)[k].SetCursor? || (a + b)[k].Sleep?
    {
      if k < |a| {
        assert (a + b)[k] == a[k];
      } else {
        assert (a + b)[k] == b[k - |a|];
      }
    }
  }

  lemma HoverNoButton(s: seq<Action>)
    requires Hover(s)
    ensures multiset(s)[LeftDown] == 0 && multiset(s)[LeftUp] == 0
  {
    forall k | 0 <= k < |s|
      ensures s[k] != LeftDown && s[k] != LeftUp
    {
      assert s[k].SetCursor? || s[k].Sleep?;
    }
    assert LeftDown !in s && LeftUp !in s;
  }

  lemma {:induction false} CursorAfterConcat(c: Point, a: seq<Action>, b: seq<Action>)
    ensures CursorAfter(c, a + b) == CursorAfter(CursorAfter(c, a), b)
    decreases |b|
  {
    if b == [] {
      assert a + b == a;
    } else {
      assert (a + b)[..|a + b| - 1] == a + b[..|b| - 1];
      CursorAfterConcat(c, a, b[..|b| - 1]);
    }
  }

  lemma CursorSnoc(c: Point, s: seq<Action>, a: Action)
    ensures CursorAfter(c, s + [a]) == Apply(CursorAfter(c, s), a)
  {
    assert (s + [a])[..|s|] == s;
  }

  /** The kick-start jitter nets to zero: after the press the cursor is on the point. */
  lemma PressLandsOnPoint(c: Point, p: Point)
    ensures CursorAfter(c, Press(p)) == p
  {
    var s1: seq<Action> := [SetCursor(p)];
    CursorSnoc(c, [], SetCursor(p));
    assert [] + [SetCursor(p)] == s1;
    CursorSnoc(c, s1, Sleep(15));
    CursorSnoc(c, s1 + [Sleep(15)], LeftDown);
    CursorSnoc(c, s1 + [Sleep(15)] + [LeftDown], MoveBy(2, 2));
    CursorSnoc(c, s1 + [Sleep(15)] + [LeftDown] + [MoveBy(2, 2)], MoveBy(-2, -2));
    assert Press(p) == s1 + [Sleep(15)] + [LeftDown] + [MoveBy(2, 2)] + [MoveBy(-2, -2)];
  }

  /** A click presses and then releases, once each. */
  lemma ClickPressRelease(p: Point)
    ensures multiset(ClickActions(p))[LeftDown] == 1 && multiset(ClickActions(p))[LeftUp] == 1
    ensures ClickActions(p)[2] == LeftDown && ClickActions(p)[4] == LeftUp
  {
    assert multiset(ClickActions(p)) == multiset{SetCursor(p), Sleep(30), LeftDown, Sleep(30), LeftUp};
  }

  /** A click happens at the given point, and leaves the cursor there. */
  lemma ClickLandsOnPoint(c: Point, p: Point)
    ensures CursorAfter(c, ClickActions(p)) == p
  {
    var s1: seq<Action> := [SetCursor(p)];
    CursorSnoc(c, [], SetCursor(p));
    assert [] + [SetCursor(p)] == s1;
    CursorSnoc(c, s1, Sleep(30));
    CursorSnoc(c, s1 + [Sleep(30)], LeftDown);
    CursorSnoc(c, s1 + [Sleep(30)] + [LeftDown], Sleep(30));
    CursorSnoc(c, s1 + [Sleep(30)] + [LeftDown] + [Sleep(30)], LeftUp);
    assert ClickActions(p) == s1 + [Sleep(30)] + [LeftDown] + [Sleep(30)] + [LeftUp];
  }

  // ---------------------------------------------------------------------------
  // One point pair

  /** The interval the sleep counter effectively runs on: a non-positive interval sleeps
      after every step, as an interval of 1 does. */
  function Period(sleepInterval: int): (k: nat)
    ensures k >= 1 && (sleepInterval >= 1 ==> k == sleepInterval)
  {
    if sleepInterval < 1 then 1 else sleepInterval
  }

  /** The number of complete periods of length k in n, counted by repeated subtraction. */
  function Periods(n: nat, k: nat): nat
    requires k >= 1
    decreases n
  {
    if n < k then 0 else 1 + Periods(n - k, k)
  }

  /** What is left of n after its complete periods of length k. */
  function Leftover(n: nat, k: nat): (r: nat)
    requires k >= 1
    ensures r < k
    decreases n
  {
    if n < k then n else Leftover(n - k, k)
  }

  /** Counting periods is division: the periods are the quotient, the leftover the remainder. */
  lemma {:induction false} PeriodsAreQuotient(n: nat, k: nat)
    requires k >= 1
    ensures Periods(n, k) == n / k && Leftover(n, k) == n % k
    decreases n
  {
    if n < k {
      DivUnique(n, k, 0, n);
    } else {
      PeriodsAreQuotient(n - k, k);
      var q, r := (n - k) / k, (n - k) % k;
      assert n == k * (q + 1) + r by {
        assert n - k == k * q + r;
        assert k * (q + 1) == k * q + k;
      }
      DivUnique(n, k, q + 1, r);
    }
  }

  /** Carrying the leftover of one count into the next loses no period. */
  lemma {:induction false} PeriodsCarry(a: nat, m: nat, k: nat)
    requires k >= 1
    ensures Periods(a, k) + Periods(Leftover(a, k) + m, k) == Periods(a + m, k)
    ensures Leftover(Leftover(a, k) + m, k) == Leftover(a + m, k)
    decreases a
  {
    if a >= k {
      PeriodsCarry(a - k, m, k);
      assert a + m - k == (a - k) + m;
    }
  }

  /** The sub-steps of a pair from j on: one cursor placement per sub-step, at most one
      sleep after each, and nothing else. */
  lemma {:induction false} SegmentShape(p1: Point, p2: Point, steps: nat, j: nat, c: int, sleepInterval: int)
    requires 1 <= j <= steps + 1
    ensures Hover(SegmentFrom(p1, p2, steps, j, c, sleepInterval))
    ensures Moves(SegmentFrom(p1, p2, steps, j, c, sleepInterval)) == steps + 1 - j
    ensures |SegmentFrom(p1, p2, steps, j, c, sleepInterval)| <= 2 * (steps + 1 - j)
    decreases steps + 1 - j
  {
    if j <= steps {
      var c' := NextCounter(c, sleepInterval);
      var nap: seq<Action> := if c + 1 >= sleepInterval then [Sleep(1)] else [];
      var head := [SetCursor(LerpPoint(p1, p2, j, steps))] + nap;
      var rest := SegmentFrom(p1, p2, steps, j + 1, c', sleepInterval);
      assert SegmentFrom(p1, p2, steps, j, c, sleepInterval) == head + rest;
      SegmentShape(p1, p2, steps, j + 1, c', sleepInterval);
      HoverConcat(head, rest);
      MovesConcat(head, rest);
    }
  }

  /** The sleeps of a pair from j on: one each time the counter completes a period, and the
      counter left at what remains. */
  lemma {:induction false} SegmentNaps(p1: Point, p2: Point, steps: nat, j: nat, c: int, sleepInterval: int)
    requires 1 <= j <= steps + 1 && 0 <= c < Period(sleepInterval)
    ensures Naps(SegmentFrom(p1, p2, steps, j, c, sleepInterval)) == Periods(c + steps + 1 - j, Period(sleepInterval))
    ensures CounterAfter(steps, j, c, sleepInterval) == Leftover(c + steps + 1 - j, Period(sleepInterval))
    decreases steps + 1 - j
  {
    var K := Period(sleepInterval);
    if j <= steps {
      var c' := NextCounter(c, sleepInterval);
      var nap: seq<Action> := if c + 1 >= sleepInterval then [Sleep(1)] else [];
      var head := [SetCursor(LerpPoint(p1, p2, j, steps))] + nap;
      var rest := SegmentFrom(p1, p2, steps, j + 1, c', sleepInterval);
      assert SegmentFrom(p1, p2, steps, j, c, sleepInterval) == head + rest;
      assert CounterAfter(steps, j, c, sleepInterval) == CounterAfter(steps, j + 1, c', sleepInterval);
      SegmentNaps(p1, p2, steps, j + 1, c', sleepInterval);
      var m := steps - j;
      if c + 1 >= sleepInterval {
        assert c + 1 == K && c' == 0;
        NapsConcat(head, rest);
        assert head[1..][1..] == [];
        assert c + steps + 1 - j == m + K;
        assert Periods(m + K, K) == 1 + Periods(m, K);
        assert Leftover(m + K, K) == Leftover(m, K);
      } else {
        assert c' == c + 1;
        NapsConcat(head, rest);
        assert head[1..] == [];
      }
    }
  }

  /** The sleeps of a whole pair. */
  lemma SegmentNapsWhole(p1: Point, p2: Point, steps: nat, c: int, sleepInterval: int)
    requires 0 <= c < Period(sleepInterval)
    ensures Naps(SegmentFrom(p1, p2, steps, 1, c, sleepInterval)) == Periods(c + steps, Period(sleepInterval))
    ensures CounterAfter(steps, 1, c, sleepInterval) == Leftover(c + steps, Period(sleepInterval))
  {
    SegmentNaps(p1, p2, steps, 1, c, sleepInterval);
    assert c + steps + 1 - 1 == c + steps;
  }

  /** A pair ends with the cursor on its second point. */
  lemma {:induction false} SegmentEnds(c: Point, p1: Point, p2: Point, steps: nat, j: nat, counter: int, sleepInterval: int)
    requires 1 <= j <= steps
    ensures CursorAfter(c, SegmentFrom(p1, p2, steps, j, counter, sleepInterval)) == p2
    decreases steps + 1 - j
  {
    var nap: seq<Action> := if counter + 1 >= sleepInterval then [Sleep(1)] else [];
    var head := [SetCursor(LerpPoint(p1, p2, j, steps))] + nap;
    var rest := SegmentFrom(p1, p2, steps, j + 1, NextCounter(counter, sleepInterval), sleepInterval);
    assert SegmentFrom(p1, p2, steps, j, counter, sleepInterval) == head + rest;
    CursorAfterConcat(c, head, rest);
    if j == steps {
      LerpEnd(p1, p2, steps);
      assert rest == [];
      assert head + rest == head;
      if nap != [] {
        assert head[..1] == [SetCursor(LerpPoint(p1, p2, j, steps))];
        assert head[..1][..0] == [];
      } else {
        assert head[..0] == [];
      }
    } else {
      SegmentEnds(CursorAfter(c, head), p1, p2, steps, j + 1, NextCounter(counter, sleepInterval), sleepInterval);
    }
  }

  // ---------------------------------------------------------------------------
  // The outer loop

  /** The sub-steps of all pairs from i on. */
  function TotalSteps(counts: seq<nat>, i: nat): nat
    requires i <= |counts|
    decreases |counts| - i
  {
    if i == |counts| then 0 else counts[i] + TotalSteps(counts, i + 1)
  }

  /** The largest sub-step count of the pairs from i on. */
  function MaxSteps(counts: seq<nat>, i: nat): nat
    requires i <= |counts|
    decreases |counts| - i
  {
    if i == |counts| then 0
    else
      var m := MaxSteps(counts, i + 1);
      if counts[i] < m then m else counts[i]
  }

  /** Every pair takes at least one sub-step. */
  ghost predicate AllPositive(counts: seq<nat>)
  {
    forall k :: 0 <= k < |counts| ==> counts[k] >= 1
  }

  /** Whatever the token does, the outer loop keeps the button down until its last action,
      which releases it. */
  lemma {:induction false} PairsRelease(points: seq<Point>, counts: seq<nat>, i: nat, c: int, t: nat, token: Token, stepSize: real, sleepInterval: int)
    requires 2 <= |points| && |counts| == |points| - 1 && i <= |points| - 1
    ensures var P := PairsFrom(points, counts, i, c, t, token, stepSize, sleepInterval);
      |P| >= 1 && P[|P| - 1] == LeftUp && Hover(P[..|P| - 1])
    decreases |points| - i
  {
    var P := PairsFrom(points, counts, i, c, t, token, stepSize, sleepInterval);
    if i == |points| - 1 {
      assert P[..|P| - 1] == [Sleep(UpDelay(stepSize))];
    } else if Requested(token, t) {
      assert P[..|P| - 1] == [];
    } else {
      var seg := SegmentFrom(points[i], points[i + 1], counts[i], 1, c, sleepInterval);
      var c' := CounterAfter(counts[i], 1, c, sleepInterval);
      var rest := PairsFrom(points, counts, i + 1, c', t + |seg|, token, stepSize, sleepInterval);
      SegmentShape(points[i], points[i + 1], counts[i], 1, c, sleepInterval);
      PairsRelease(points, counts, i + 1, c', t + |seg|, token, stepSize, sleepInterval);
      assert P == seg + rest;
      assert P[..|P| - 1] == seg + rest[..|rest| - 1];
      HoverConcat(seg, rest[..|rest| - 1]);
    }
  }

  /** With a token nobody cancels, the outer loop ends by releasing after the release
      delay. */
  lemma {:induction false} PairsEndUncancelled(points: seq<Point>, counts: seq<nat>, i: nat, c: int, t: nat, token: Token, stepSize: real, sleepInterval: int)
    requires 2 <= |points| && |counts| == |points| - 1 && i <= |points| - 1 && token.cancelAt.None?
    ensures var P := PairsFrom(points, counts, i, c, t, token, stepSize, sleepInterval);
      |P| >= 2 && P[|P| - 2..] == [Sleep(UpDelay(stepSize)), LeftUp]
    decreases |points| - i
  {
    if i < |points| - 1 {
      var seg := SegmentFrom(points[i], points[i + 1], counts[i], 1, c, sleepInterval);
      var c' := CounterAfter(counts[i], 1, c, sleepInterval);
      var rest := PairsFrom(points, counts, i + 1, c', t + |seg|, token, stepSize, sleepInterval);
      PairsEndUncancelled(points, counts, i + 1, c', t + |seg|, token, stepSize, sleepInterval);
      var P := PairsFrom(points, counts, i, c, t, token, stepSize, sleepInterval);
      assert P == seg + rest;
      assert P[|P| - 2..] == rest[|rest| - 2..];
    }
  }

  /** With a token nobody cancels, the outer loop visits every point and leaves the cursor
      on the last one. */
  lemma {:induction false} PairsLandOnLast(points: seq<Point>, counts: seq<nat>, i: nat, c: int, t: nat, token: Token, stepSize: real, sleepInterval: int)
    requires 2 <= |points| && |counts| == |points| - 1 && i <= |points| - 1 && token.cancelAt.None?
    requires AllPositive(counts)
    ensures CursorAfter(points[i], PairsFrom(points, counts, i, c, t, token, stepSize, sleepInterval)) == points[|points| - 1]
    decreases |points| - i
  {
    var P := PairsFrom(points, counts, i, c, t, token, stepSize, sleepInterval);
    if i == |points| - 1 {
      var nap := Sleep(UpDelay(stepSize));
      assert P == [] + [nap] + [LeftUp];
      CursorSnoc(points[i], [], nap);
      CursorSnoc(points[i], [] + [nap], LeftUp);
    } else {
      var seg := SegmentFrom(points[i], points[i + 1], counts[i], 1, c, sleepInterval);
      var c' := CounterAfter(counts[i], 1, c, sleepInterval);
      var rest := PairsFrom(points, counts, i + 1, c', t + |seg|, token, stepSize, sleepInterval);
      SegmentEnds(points[i], points[i], points[i + 1], counts[i], 1, c, sleepInterval);
      PairsLandOnLast(points, counts, i + 1, c', t + |seg|, token, stepSize, sleepInterval);
      assert P == seg + rest;
      CursorAfterConcat(points[i], seg, rest);
    }
  }

  /** With a token nobody cancels, the outer loop places the cursor once per sub-step. */
  lemma {:induction false} PairsMoves(points: seq<Point>, counts: seq<nat>, i: nat, c: int, t: nat, token: Token, stepSize: real, sleepInterval: int)
    requires 2 <= |points| && |counts| == |points| - 1 && i <= |points| - 1 && token.cancelAt.None?
    ensures Moves(PairsFrom(points, counts, i, c, t, token, stepSize, sleepInterval)) == TotalSteps(counts, i)
    decreases |points| - i
  {
    var P := PairsFrom(points, counts, i, c, t, token, stepSize, sleepInterval);
    if i < |points| - 1 {
      var seg := SegmentFrom(points[i], points[i + 1], counts[i], 1, c, sleepInterval);
      var c' := CounterAfter(counts[i], 1, c, sleepInterval);
      var rest := PairsFrom(points, counts, i + 1, c', t + |seg|, token, stepSize, sleepInterval);
      assert P == seg + rest;
      SegmentShape(points[i], points[i + 1], counts[i], 1, c, sleepInterval);
      PairsMoves(points, counts, i + 1, c', t + |seg|, token, stepSize, sleepInterval);
      MovesConcat(seg, rest);
    } else {
      ReleaseCounts(stepSize);
    }
  }

  /** The closing delay and release neither move the cursor nor count as a nap. */
  lemma ReleaseCounts(stepSize: real)
    ensures Naps([Sleep(UpDelay(stepSize)), LeftUp]) == 0
    ensures Moves([Sleep(UpDelay(stepSize)), LeftUp]) == 0
  {
    var R := [Sleep(UpDelay(stepSize)), LeftUp];
    assert R[1..] == [LeftUp] && R[1..][1..] == [];
    assert Naps(R[1..][1..]) == 0;
    assert Naps(R[1..]) == 0 && Moves(R[1..]) == 0;
    assert R[0] != Sleep(1) && !R[0].SetCursor?;
  }

  /** With a token nobody cancels, the outer loop sleeps once per sleepInterval sub-steps,
      the count running on across pairs. */
  lemma {:induction false} PairsNaps(points: seq<Point>, counts: seq<nat>, i: nat, c: int, t: nat, token: Token, stepSize: real, sleepInterval: int)
    requires 2 <= |points| && |counts| == |points| - 1 && i <= |points| - 1 && token.cancelAt.None?
    requires 0 <= c < Period(sleepInterval)
    ensures Naps(PairsFrom(points, counts, i, c, t, token, stepSize, sleepInterval))
      == Periods(c + TotalSteps(counts, i), Period(sleepInterval))
    decreases |points| - i
  {
    var K := Period(sleepInterval);
    if i < |points| - 1 {
      var seg := SegmentFrom(points[i], points[i + 1], counts[i], 1, c, sleepInterval);
      var c' := CounterAfter(counts[i], 1, c, sleepInterval);
      var rest := PairsFrom(points, counts, i + 1, c', t + |seg|, token, stepSize, sleepInterval);
      assert PairsFrom(points, counts, i, c, t, token, stepSize, sleepInterval) == seg + rest;
      SegmentNapsWhole(points[i], points[i + 1], counts[i], c, sleepInterval);
      PairsNaps(points, counts, i + 1, c', t + |seg|, token, stepSize, sleepInterval);
      var A, T := c + counts[i], TotalSteps(counts, i + 1);
      PeriodsCarry(A, T, K);
      NapsConcat(seg, rest);
    } else {
      ReleaseCounts(stepSize);
      assert Periods(c, K) == 0;
    }
  }

  /** Once cancellation is requested at trace length T, the outer loop finishes within one
      more pair: its last action comes at most two actions per sub-step of the longest pair,
      plus the release, past T. */
  lemma {:induction false} PairsStopPromptly(points: seq<Point>, counts: seq<nat>, i: nat, c: int, t: nat, token: Token, stepSize: real, sleepInterval: int)
    requires 2 <= |points| && |counts| == |points| - 1 && i <= |points| - 1 && token.cancelAt.Some?
    ensures t + |PairsFrom(points, counts, i, c, t, token, stepSize, sleepInterval)|
      <= (if token.cancelAt.value > t then token.cancelAt.value else t) + 2 * MaxSteps(counts, i) + 2
    decreases |points| - i
  {
    if i < |points| - 1 && !Requested(token, t) {
      var seg := SegmentFrom(points[i], points[i + 1], counts[i], 1, c, sleepInterval);
      var c' := CounterAfter(counts[i], 1, c, sleepInterval);
      SegmentShape(points[i], points[i + 1], counts[i], 1, c, sleepInterval);
      if Requested(token, t + |seg|) && i + 1 < |points| - 1 {
        assert |PairsFrom(points, counts, i + 1, c', t + |seg|, token, stepSize, sleepInterval)| == 1;
      } else {
        PairsStopPromptly(points, counts, i + 1, c', t + |seg|, token, stepSize, sleepInterval);
      }
    }
  }

  // ---------------------------------------------------------------------------
  // The hover before the press

  lemma {:induction false} GlideHovers(from: Point, to: Point, steps: nat, i: nat, t: nat, token: Token)
    requires 1 <= i <= steps + 1
    ensures Hover(GlideFrom(from, to, steps, i, t, token))
    decreases steps + 1 - i
  {
    if i <= steps && !Requested(token, t) {
      var step := [SetCursor(LerpPoint(from, to, i, steps))] + (if i % 5 == 0 then [Sleep(1)] else []);
      GlideHovers(from, to, steps, i + 1, t + |step|, token);
      HoverConcat(step, GlideFrom(from, to, steps, i + 1, t + |step|, token));
    }
  }

  /** One hover step: a single cursor placement, with a nap exactly when asked for. */
  lemma HoverStepCounts(p: Point, nap: bool)
    ensures Moves([SetCursor(p)] + (if nap then [Sleep(1)] else [])) == 1
    ensures Naps([SetCursor(p)] + (if nap then [Sleep(1)] else [])) == if nap then 1 else 0
  {
    var step := [SetCursor(p)] + (if nap then [Sleep(1)] else []);
    if nap {
      assert step[1..] == [Sleep(1)] && step[1..][1..] == [];
      assert Naps(step[1..]) == 1 && Moves(step[1..]) == 0;
    } else {
      assert step[1..] == [];
    }
    assert step[0] == SetCursor(p);
  }

  /** With a token nobody cancels, the hover places the cursor once per step and once more
      on the target. */
  lemma {:induction false} GlideMoves(from: Point, to: Point, steps: nat, i: nat, t: nat, token: Token)
    requires 1 <= i <= steps + 1 && token.cancelAt.None?
    ensures Moves(GlideFrom(from, to, steps, i, t, token)) == steps + 2 - i
    decreases steps + 1 - i
  {
    if i > steps {
      assert [SetCursor(to)][1..] == [];
    } else {
      var step := [SetCursor(LerpPoint(from, to, i, steps))] + (if i % 5 == 0 then [Sleep(1)] else []);
      var rest := GlideFrom(from, to, steps, i + 1, t + |step|, token);
      GlideMoves(from, to, steps, i + 1, t + |step|, token);
      MovesConcat(step, rest);
      HoverStepCounts(LerpPoint(from, to, i, steps), i % 5 == 0);
    }
  }

  /** A fifth step is reached exactly when the number of whole fives grows. */
  lemma FifthStep(i: nat)
    requires i >= 1
    ensures (i - 1) / 5 + (if i % 5 == 0 then 1 else 0) == i / 5
  {
    if i % 5 == 0 {
      DivUnique(i - 1, 5, i / 5 - 1, 4);
    } else {
      DivUnique(i - 1, 5, i / 5, i % 5 - 1);
    }
  }

  /** With a token nobody cancels, the hover sleeps after every fifth step. */
  lemma {:induction false} GlideNaps(from: Point, to: Point, steps: nat, i: nat, t: nat, token: Token)
    requires 1 <= i <= steps + 1 && token.cancelAt.None?
    ensures Naps(GlideFrom(from, to, steps, i, t, token)) == steps / 5 - (i - 1) / 5
    decreases steps + 1 - i
  {
    if i > steps {
      assert [SetCursor(to)][1..] == [];
    } else {
      var step := [SetCursor(LerpPoint(from, to, i, steps))] + (if i % 5 == 0 then [Sleep(1)] else []);
      var rest := GlideFrom(from, to, steps, i + 1, t + |step|, token);
      GlideNaps(from, to, steps, i + 1, t + |step|, token);
      NapsConcat(step, rest);
      HoverStepCounts(LerpPoint(from, to, i, steps), i % 5 == 0);
      FifthStep(i);
    }
  }

  /** With a token nobody cancels, the hover ends on its target. */
  lemma {:induction false} GlideLands(c: Point, from: Point, to: Point, steps: nat, i: nat, t: nat, token: Token)
    requires 1 <= i <= steps + 1 && token.cancelAt.None?
    ensures CursorAfter(c, GlideFrom(from, to, steps, i, t, token)) == to
    decreases steps + 1 - i
  {
    if i > steps {
      CursorSnoc(c, [], SetCursor(to));
      assert [] + [SetCursor(to)] == [SetCursor(to)];
    } else {
      var step := [SetCursor(LerpPoint(from, to, i, steps))] + (if i % 5 == 0 then [Sleep(1)] else []);
      var rest := GlideFrom(from, to, steps, i + 1, t + |step|, token);
      GlideLands(CursorAfter(c, step), from, to, steps, i + 1, t + |step|, token);
      CursorAfterConcat(c, step, rest);
    }
  }

  /** A hover never overruns a cancellation by more than one step and the final placement. */
  lemma {:induction false} GlideStopsPromptly(from: Point, to: Point, steps: nat, i: nat, t: nat, token: Token)
    requires 1 <= i <= steps + 1 && token.cancelAt.Some?
    ensures t + |GlideFrom(from, to, steps, i, t, token)|
      <= (if token.cancelAt.value > t then token.cancelAt.value else t) + 2
    decreases steps + 1 - i
  {
    if i <= steps && !Requested(token, t) {
      var step := [SetCursor(LerpPoint(from, to, i, steps))] + (if i % 5 == 0 then [Sleep(1)] else []);
      GlideStopsPromptly(from, to, steps, i + 1, t + |step|, token);
    }
  }

  // ---------------------------------------------------------------------------
  // A whole stroke

  /** There is one step count per point pair, and every pair takes at least one sub-step. */
  lemma StepCountsShape(points: seq<Point>, stepSize: real)
    requires stepSize > 0.0 && |points| >= 2
    ensures |StepCounts(points, stepSize)| == |points| - 1 && AllPositive(StepCounts(points, stepSize))
  {
  }

  /** A stroke of fewer than two points does nothing at all. Otherwise it is a hover, then
      the press at the first point, then drawing moves and naps, and the release last. */
  lemma StrokeShape(cursor: Point, points: seq<Point>, stepSize: real, sleepInterval: int, t: nat, token: Token)
    requires stepSize > 0.0
    ensures var S := Stroke(cursor, points, stepSize, sleepInterval, t, token);
      |points| < 2 ==> S == []
    ensures var S := Stroke(cursor, points, stepSize, sleepInterval, t, token);
      |points| >= 2 ==>
        var k := |Glide(cursor, points[0], t, token)|;
        && k + 5 < |S|
        && Hover(S[..k])
        && S[k..k + 5] == Press(points[0])
        && Hover(S[k + 5..|S| - 1])
        && S[|S| - 1] == LeftUp
  {
    if |points| >= 2 {
      var counts := StepCounts(points, stepSize);
      var S := Stroke(cursor, points, stepSize, sleepInterval, t, token);
      var G := Glide(cursor, points[0], t, token);
      var P := PairsFrom(points, counts, 0, 0, t + |G| + 5, token, stepSize, sleepInterval);
      var k := |G|;
      StepCountsShape(points, stepSize);
      GlideHovers(cursor, points[0], StepCount(cursor, points[0], HoverStep), 1, t, token);
      PairsRelease(points, counts, 0, 0, t + |G| + 5, token, stepSize, sleepInterval);
      var H := P[..|P| - 1];
      assert P == H + [LeftUp];
      assert S == G + Press(points[0]) + H + [LeftUp];
      assert S[..k] == G;
      assert S[k..k + 5] == Press(points[0]);
      assert S[k + 5..|S| - 1] == H;
    }
  }

  /** The press holds the button down once and never releases it. */
  lemma PressButtons(p: Point)
    ensures multiset(Press(p))[LeftDown] == 1 && multiset(Press(p))[LeftUp] == 0
  {
    assert multiset(Press(p)) == multiset{SetCursor(p), Sleep(15), LeftDown, MoveBy(2, 2), MoveBy(-2, -2)};
  }

  /** A stroke of two or more points presses the button exactly once and releases it
      exactly once, whether or not it is cancelled. */
  lemma StrokePressRelease(cursor: Point, points: seq<Point>, stepSize: real, sleepInterval: int, t: nat, token: Token)
    requires stepSize > 0.0 && |points| >= 2
    ensures var S := Stroke(cursor, points, stepSize, sleepInterval, t, token);
      multiset(S)[LeftDown] == 1 && multiset(S)[LeftUp] == 1
  {
    StrokeShape(cursor, points, stepSize, sleepInterval, t, token);
    PressReleaseCounts(Stroke(cursor, points, stepSize, sleepInterval, t, token), |Glide(cursor, points[0], t, token)|, points[0]);
  }

  /** A hover, a press, more hovering and a release hold the button down once and release
      it once. */
  lemma PressReleaseCounts(S: seq<Action>, k: nat, p: Point)
    requires k + 5 < |S| && Hover(S[..k]) && S[k..k + 5] == Press(p)
    requires Hover(S[k + 5..|S| - 1]) && S[|S| - 1] == LeftUp
    ensures multiset(S)[LeftDown] == 1 && multiset(S)[LeftUp] == 1
  {
    var G, Q, H := S[..k], S[k..k + 5], S[k + 5..|S| - 1];
    assert S == G + Q + H + [LeftUp];
    HoverNoButton(G);
    HoverNoButton(H);
    PressButtons(p);
    assert multiset(S) == multiset(G) + multiset(Q) + multiset(H) + multiset{LeftUp};
  }

  /** A stroke whose token is requested before it starts places the cursor on the first
      point, presses, jitters and releases at once: no hover and no drawing. */
  lemma StrokeCancelledBefore(cursor: Point, points: seq<Point>, stepSize: real, sleepInterval: int, t: nat, token: Token)
    requires stepSize > 0.0 && |points| >= 2 && Requested(token, t)
    ensures Stroke(cursor, points, stepSize, sleepInterval, t, token) == Press(points[0]) + [LeftUp]
  {
    StepCountsShape(points, stepSize);
    assert Glide(cursor, points[0], t, token) == [];
    RequestedStays(token, t, t + 5);
  }

  /** With a token nobody cancels, a stroke ends on its last point, and releases after the
      release delay. */
  lemma StrokeUncancelled(cursor: Point, points: seq<Point>, stepSize: real, sleepInterval: int, t: nat, token: Token)
    requires stepSize > 0.0 && |points| >= 2 && token.cancelAt.None?
    ensures var S := Stroke(cursor, points, stepSize, sleepInterval, t, token);
      && |S| >= 2 && S[|S| - 2..] == [Sleep(UpDelay(stepSize)), LeftUp]
      && CursorAfter(cursor, S) == points[|points| - 1]
  {
    var counts := StepCounts(points, stepSize);
    var S := Stroke(cursor, points, stepSize, sleepInterval, t, token);
    var G := Glide(cursor, points[0], t, token);
    var P := PairsFrom(points, counts, 0, 0, t + |G| + 5, token, stepSize, sleepInterval);
    StepCountsShape(points, stepSize);
    PairsEndUncancelled(points, counts, 0, 0, t + |G| + 5, token, stepSize, sleepInterval);
    PairsLandOnLast(points, counts, 0, 0, t + |G| + 5, token, stepSize, sleepInterval);
    assert S == (G + Press(points[0])) + P;
    assert S[|S| - 2..] == P[|P| - 2..];
    CursorAfterConcat(cursor, G + Press(points[0]), P);
    CursorAfterConcat(cursor, G, Press(points[0]));
    PressLandsOnPoint(CursorAfter(cursor, G), points[0]);
  }

  /** With a token nobody cancels, a stroke draws one cursor placement per sub-step of its
      pairs, and sleeps 1 ms once per sleepInterval of them, counted across the whole
      stroke. */
  lemma StrokeDrawingCounts(points: seq<Point>, stepSize: real, sleepInterval: int, t: nat, token: Token)
    requires stepSize > 0.0 && |points| >= 2 && token.cancelAt.None?
    ensures var counts := StepCounts(points, stepSize);
      var P := PairsFrom(points, counts, 0, 0, t, token, stepSize, sleepInterval);
      Moves(P) == TotalSteps(counts, 0) && Naps(P) == TotalSteps(counts, 0) / Period(sleepInterval)
  {
    var counts := StepCounts(points, stepSize);
    StepCountsShape(points, stepSize);
    PairsMoves(points, counts, 0, 0, t, token, stepSize, sleepInterval);
    PairsNaps(points, counts, 0, 0, t, token, stepSize, sleepInterval);
    PeriodsAreQuotient(TotalSteps(counts, 0), Period(sleepInterval));
  }

  /** Once cancellation is requested at trace length T, a stroke's last action, the release,
      comes at most 2 * (longest pair's sub-steps) + 9 actions past T. */
  lemma StrokeStopsPromptly(cursor: Point, points: seq<Point>, stepSize: real, sleepInterval: int, t: nat, token: Token)
    requires stepSize > 0.0 && |points| >= 2 && token.cancelAt.Some?
    ensures t + |Stroke(cursor, points, stepSize, sleepInterval, t, token)|
      <= (if token.cancelAt.value > t then token.cancelAt.value else t) + 2 * MaxSteps(StepCounts(points, stepSize), 0) + 9
  {
    var G := Glide(cursor, points[0], t, token);
    StepCountsShape(points, stepSize);
    GlideStopsPromptly(cursor, points[0], StepCount(cursor, points[0], HoverStep), 1, t, token);
    PairsStopPromptly(points, StepCounts(points, stepSize), 0, 0, t + |G| + 5, token, stepSize, sleepInterval);
  }
}
