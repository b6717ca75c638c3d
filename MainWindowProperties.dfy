/** What the painting run promises: one batch per colour in order of first appearance, with
    every segment of the scan in exactly one batch; an estimate that adds up batch by batch;
    the button pressed on the palette before the paths of a batch, the batches one after the
    other, and every press released, whenever the run is cancelled. */
module MainWindowProperties {
  import opened Basics
  import opened ColorModel
  import opened Grouping
  import opened ImageProcessor
  import opened ColouredScan
  import opened ModeProperties
  import opened Pen
  import opened PenProperties
  import opened ColourSearch
  import opened MainWindow

  // ---------------------------------------------------------------------------
  // Batches

  /** The (colour, paths) groups a run of coloured batches stands for. */
  function Groups(bs: seq<Batch>): (G: seq<(Rgb, seq<Path>)>)
    requires forall i :: 0 <= i < |bs| ==> bs[i].color.Some?
    ensures |G| == |bs|
  {
    seq(|bs|, i requires 0 <= i < |bs| => (bs[i].color.value, bs[i].paths))
  }

  /** bs chooses each colour of the list R once, in order of first appearance, and draws
      exactly the segments of R in R's order. */
  ghost predicate OneBatchPerColour(bs: seq<Batch>, R: seq<(Rgb, Path)>)
  {
    && (forall i :: 0 <= i < |bs| ==> bs[i].color.Some? && bs[i].paths != [])
    && (forall i, j :: 0 <= i < j < |bs| ==> bs[i].color != bs[j].color)
    && Keys(Groups(bs)) == FirstKeys(R)
    && Ungroup(Groups(bs)) == R
  }

  /** Grouping a list the colour map already grouped gives back the colour map's groups, so
      the batches of RunTask are one per distinct colour and draw the list unchanged. */
  lemma ColourBatchesOfGrouped(R: seq<(Rgb, Path)>, E: seq<(Rgb, Path)>)
    requires R == Ungroup(GroupBy(E))
    ensures ColourBatches(GroupBy(R)) == ColourBatches(GroupBy(E))
    ensures OneBatchPerColour(ColourBatches(GroupBy(R)), R)
  {
    var G := GroupBy(E);
    GroupsNonEmpty(E);
    assert Keys(G) == seq(|G|, i requires 0 <= i < |G| => G[i].0);
    RegroupUngroup(G);
    var bs := ColourBatches(G);
    assert Groups(bs) == G;
    assert Keys(G) == FirstKeys(R);
  }

  /** allBatches in each mode: binary fill is one batch without a colour holding every dark
      run; the colour modes hold one batch per colour of the scan's list, in the order in
      which the colour map first met each colour, and together draw that list unchanged. */
  lemma BatchesOfMode(mode: int, g: seq<seq<Byte>>, ge: seq<seq<Byte>>, gc: seq<seq<Vec3b>>)
    requires SameShape(ge, gc)
    ensures mode == 0 ==> Batches(mode, g, ge, gc) == [Batch(None, BinaryPaths(g))]
    ensures mode == 1 ==> OneBatchPerColour(Batches(mode, g, ge, gc), EdgeResult(ge, gc))
    ensures mode == 1 ==> Batches(mode, g, ge, gc) == ColourBatches(GroupBy(Recoloured(EdgeEntries(ge, gc))))
    ensures mode != 0 && mode != 1 ==> OneBatchPerColour(Batches(mode, g, ge, gc), BlockResult(gc))
    ensures mode != 0 && mode != 1 ==> Batches(mode, g, ge, gc) == ColourBatches(GroupBy(Recoloured(BlockEntries(gc))))
  {
    if mode == 1 {
      EdgeResultGrouped(ge, gc);
      ColourBatchesOfGrouped(EdgeResult(ge, gc), Recoloured(EdgeEntries(ge, gc)));
    } else if mode != 0 {
      BlockResultGrouped(gc);
      ColourBatchesOfGrouped(BlockResult(gc), Recoloured(BlockEntries(gc)));
    }
  }

  // ---------------------------------------------------------------------------
  // The estimate

  lemma {:induction false} PathsSpanAppend(a: seq<Path>, b: seq<Path>)
    ensures PathsSpan(a + b) == PathsSpan(a) + PathsSpan(b)
    decreases |b|
  {
    if b == [] {
      assert a + b == a;
    } else {
      assert (a + b)[..|a + b| - 1] == a + b[..|b| - 1];
      PathsSpanAppend(a, b[..|b| - 1]);
    }
  }

  lemma {:induction false} TotalSpanAppend(a: seq<Batch>, b: seq<Batch>)
    ensures TotalSpan(a + b) == TotalSpan(a) + TotalSpan(b)
    decreases |b|
  {
    if b == [] {
      assert a + b == a;
    } else {
      assert (a + b)[..|a + b| - 1] == a + b[..|b| - 1];
      TotalSpanAppend(a, b[..|b| - 1]);
    }
  }

  /** The estimate of a single batch: one colour change and its paths' spans. */
  lemma EstimateOne(b: Batch)
    ensures Estimate([b]) == 2.5 + (PathsSpan(b.paths) as real) / 400.0
  {
    assert [b][..0] == [];
    assert TotalSpan([b]) == TotalSpan([]) + PathsSpan(b.paths);
  }

  /** The estimate adds up batch by batch, so more batches never estimate less, and every
      batch adds at least its colour change. */
  lemma EstimateAppend(a: seq<Batch>, b: seq<Batch>)
    ensures Estimate(a + b) == Estimate(a) + Estimate(b)
    ensures Estimate(a + b) >= Estimate(a) + (|b| as real) * 2.5
  {
    TotalSpanAppend(a, b);
  }

  /** A longer path in a batch adds its horizontal span, 400 pixels to the second. */
  lemma EstimateGrowsWithPath(a: seq<Batch>, color: Option<Rgb>, ps: seq<Path>, p: Path)
    ensures Estimate(a + [Batch(color, ps + [p])]) == Estimate(a + [Batch(color, ps)]) + (Span(p) as real) / 400.0
  {
    EstimateAppend(a, [Batch(color, ps + [p])]);
    EstimateAppend(a, [Batch(color, ps)]);
    EstimateOne(Batch(color, ps + [p]));
    EstimateOne(Batch(color, ps));
    PathsSpanAppend(ps, [p]);
    assert [p][..0] == [];
  }

  // ---------------------------------------------------------------------------
  // The palette sample

  /** The sample PickColor clicks lies in the picker region and is the first, in row-major
      order, of the stride-4 samples closest to the target. */
  lemma BestPointInPicker(picker: Region, patch: array2<Rgb>, target: Rgb)
    requires picker.Area? && Captures(picker, patch)
    ensures var p := BestPoint(picker, patch, target);
      && picker.x <= p.x < picker.x + picker.width && picker.y <= p.y < picker.y + picker.height
      && FirstMin(patch, target, Point(p.x - picker.x, p.y - picker.y))
  {
    BestOffsetIsFirstMin(patch, target);
  }

  // ---------------------------------------------------------------------------
  // Where the button goes down

  /** The cursor position at each LeftDown of s, oldest first, the cursor starting at c. */
  function Presses(c: Point, s: seq<Action>): seq<Point>
  {
    if s == [] then []
    else Presses(c, s[..|s| - 1]) + (if s[|s| - 1] == LeftDown then [CursorAfter(c, s[..|s| - 1])] else [])
  }

  lemma {:induction false} PressesConcat(c: Point, a: seq<Action>, b: seq<Action>)
    ensures Presses(c, a + b) == Presses(c, a) + Presses(CursorAfter(c, a), b)
    decreases |b|
  {
    if b == [] {
      assert a + b == a;
    } else {
      var b' := b[..|b| - 1];
      assert (a + b)[..|a + b| - 1] == a + b';
      PressesConcat(c, a, b');
      CursorAfterConcat(c, a, b');
    }
  }

  lemma {:induction false} NoPresses(c: Point, s: seq<Action>)
    requires LeftDown !in s
    ensures Presses(c, s) == []
    decreases |s|
  {
    if s != [] {
      assert s[|s| - 1] in s;
      assert forall a :: a in s[..|s| - 1] ==> a in s;
      NoPresses(c, s[..|s| - 1]);
    }
  }

  /** The state of the left button after the actions s, started down or up: Some(d), d
      telling whether it ends down, when every press in s finds the button up and every
      release finds it down; None when s presses a held button or releases a free one. */
  function ButtonFrom(down: bool, s: seq<Action>): Option<bool>
  {
    if s == [] then Some(down)
    else
      var b := ButtonFrom(down, s[..|s| - 1]);
      if b.None? then None
      else if s[|s| - 1] == LeftDown then (if b.value then None else Some(true))
      else if s[|s| - 1] == LeftUp then (if b.value then Some(false) else None)
      else b
  }

  /** s presses and releases the left button in turn, from the button up, and leaves it up. */
  predicate Released(s: seq<Action>)
  {
    ButtonFrom(false, s) == Some(false)
  }

  lemma {:induction false} ButtonFromConcat(down: bool, a: seq<Action>, b: seq<Action>)
    ensures ButtonFrom(down, a + b) == if ButtonFrom(down, a).None? then None else ButtonFrom(ButtonFrom(down, a).value, b)
    decreases |b|
  {
    if b == [] {
      assert a + b == a;
    } else {
      assert (a + b)[..|a + b| - 1] == a + b[..|b| - 1];
      ButtonFromConcat(down, a, b[..|b| - 1]);
    }
  }

  lemma {:induction false} ButtonUntouched(down: bool, s: seq<Action>)
    requires LeftDown !in s && LeftUp !in s
    ensures ButtonFrom(down, s) == Some(down)
    decreases |s|
  {
    if s != [] {
      assert s[|s| - 1] in s;
      assert forall a :: a in s[..|s| - 1] ==> a in s;
      ButtonUntouched(down, s[..|s| - 1]);
    }
  }

  /** Over actions that keep the button consistent, presses and releases differ by the
      change in the button's state. */
  lemma {:induction false} ButtonCounts(down: bool, s: seq<Action>)
    requires ButtonFrom(down, s).Some?
    ensures multiset(s)[LeftDown] + (if down then 1 else 0) == multiset(s)[LeftUp] + (if ButtonFrom(down, s).value then 1 else 0)
    decreases |s|
  {
    if s != [] {
      var s' := s[..|s| - 1];
      assert s == s' + [s[|s| - 1]];
      ButtonCounts(down, s');
      assert multiset(s) == multiset(s') + multiset{s[|s| - 1]};
    }
  }

  /** Released actions release the button exactly as often as they press it. */
  lemma ReleasedCounts(s: seq<Action>)
    requires Released(s)
    ensures multiset(s)[LeftDown] == multiset(s)[LeftUp]
  {
    ButtonCounts(false, s);
  }

  /** Two released pieces are released together. */
  lemma ReleasedConcat(a: seq<Action>, b: seq<Action>)
    requires Released(a) && Released(b)
    ensures Released(a + b)
  {
    ButtonFromConcat(false, a, b);
  }

  /** One press, then one release, with nothing else touching the button, are released. */
  lemma PressedThenReleased(pre: seq<Action>, mid: seq<Action>, post: seq<Action>)
    requires LeftDown !in pre && LeftUp !in pre && LeftDown !in mid && LeftUp !in mid
    requires LeftDown !in post && LeftUp !in post
    ensures Released(pre + [LeftDown] + mid + [LeftUp] + post)
  {
    ButtonUntouched(false, pre);
    ButtonUntouched(true, mid);
    ButtonUntouched(false, post);
    assert [LeftDown][..0] == [] && [LeftUp][..0] == [];
    ButtonFromConcat(false, pre, [LeftDown]);
    ButtonFromConcat(false, pre + [LeftDown], mid);
    ButtonFromConcat(false, pre + [LeftDown] + mid, [LeftUp]);
    ButtonFromConcat(false, pre + [LeftDown] + mid + [LeftUp], post);
  }

  /** A click between actions that leave the button alone presses once, on the click's
      point, and is released. */
  lemma ClickedOnce(c: Point, pre: seq<Action>, p: Point, post: seq<Action>)
    requires LeftDown !in pre && LeftUp !in pre && LeftDown !in post && LeftUp !in post
    ensures Presses(c, pre + ClickActions(p) + post) == [p]
    ensures Released(pre + ClickActions(p) + post)
  {
    var head := pre + [SetCursor(p), Sleep(30)];
    var tail := [Sleep(30), LeftUp] + post;
    assert pre + ClickActions(p) + post == head + [LeftDown] + tail;
    assert LeftDown !in head && LeftUp !in head;
    assert LeftDown !in tail;
    PressedAfter(c, pre, p, Sleep(30), tail);
    assert head + [LeftDown] + tail == head + [LeftDown] + [Sleep(30)] + [LeftUp] + post;
    PressedThenReleased(head, [Sleep(30)], post);
  }

  /** The button goes down once, where the cursor was just placed and then left alone. */
  lemma PressedAfter(c: Point, pre: seq<Action>, p: Point, nap: Action, tail: seq<Action>)
    requires nap.Sleep? && LeftDown !in pre && LeftDown !in tail
    ensures Presses(c, pre + [SetCursor(p), nap] + [LeftDown] + tail) == [p]
  {
    var head := pre + [SetCursor(p), nap];
    assert LeftDown !in head;
    PressesConcat(c, head + [LeftDown], tail);
    PressesConcat(c, head, [LeftDown]);
    NoPresses(c, head);
    NoPresses(CursorAfter(c, head + [LeftDown]), tail);
    CursorSnoc(c, pre + [SetCursor(p)], nap);
    CursorSnoc(c, pre, SetCursor(p));
    assert [LeftDown][..0] == [];
    assert Presses(CursorAfter(c, head), [LeftDown]) == [CursorAfter(c, head)];
  }

  /** A hover, a press, more hovering and a release press once, on the press's point, and
      are released. */
  lemma ShapedPresses(c: Point, S: seq<Action>, k: nat, p: Point)
    requires k + 5 < |S| && Hover(S[..k]) && S[k..k + 5] == Press(p)
    requires Hover(S[k + 5..|S| - 1]) && S[|S| - 1] == LeftUp
    ensures Presses(c, S) == [p]
    ensures Released(S)
  {
    ShapedReleased(S, k, p);
    var G, H := S[..k], S[k + 5..|S| - 1];
    HoverNoButton(G);
    HoverNoButton(H);
    assert LeftDown !in G;
    assert LeftDown !in H;
    var tail := [MoveBy(2, 2), MoveBy(-2, -2)] + H + [LeftUp];
    assert LeftDown !in tail;
    assert S == G + [SetCursor(p), Sleep(15)] + [LeftDown] + tail;
    PressedAfter(c, G, p, Sleep(15), tail);
  }

  /** A hover, a press, more hovering and a release are released. */
  lemma ShapedReleased(S: seq<Action>, k: nat, p: Point)
    requires k + 5 < |S| && Hover(S[..k]) && S[k..k + 5] == Press(p)
    requires Hover(S[k + 5..|S| - 1]) && S[|S| - 1] == LeftUp
    ensures Released(S)
  {
    var G, H := S[..k], S[k + 5..|S| - 1];
    HoverNoButton(G);
    HoverNoButton(H);
    assert LeftDown !in G && LeftUp !in G;
    assert LeftDown !in H && LeftUp !in H;
    var Q := S[k..k + 5];
    assert S == G + Q + H + [LeftUp];
    assert Q == [SetCursor(p), Sleep(15)] + [LeftDown] + [MoveBy(2, 2), MoveBy(-2, -2)];
    var pre, mid := G + [SetCursor(p), Sleep(15)], [MoveBy(2, 2), MoveBy(-2, -2)] + H;
    assert G + Q + H + [LeftUp] == pre + [LeftDown] + mid + [LeftUp] + [];
    PressedThenReleased(pre, mid, []);
  }

  /** Where a stroke presses: once, on its first point, when it has two or more points, and
      nowhere otherwise; whether or not it is cancelled, it releases as often as it presses. */
  lemma StrokePresses(cursor: Point, points: seq<Point>, stepSize: real, sleepInterval: int, t: nat, token: Token)
    requires stepSize > 0.0
    ensures var S := Stroke(cursor, points, stepSize, sleepInterval, t, token);
      && Presses(cursor, S) == (if |points| >= 2 then [points[0]] else [])
      && Released(S)
  {
    StrokeShape(cursor, points, stepSize, sleepInterval, t, token);
    if |points| >= 2 {
      ShapedPresses(cursor, Stroke(cursor, points, stepSize, sleepInterval, t, token), |Glide(cursor, points[0], t, token)|, points[0]);
    }
  }

  // ---------------------------------------------------------------------------
  // The presses of a run against the plan

  /** Outcome o, started with the cursor at c, presses the points of planned in order, all
      of them unless it ends in a cancellation, releases the button as often as it presses
      it, and ends with the button up. */
  ghost predicate PressesAsPlanned(c: Point, o: Outcome, planned: seq<Point>)
  {
    && Presses(c, o.actions) <= planned
    && (!o.cancelled ==> Presses(c, o.actions) == planned)
    && Released(o.actions)
  }

  /** Actions that press exactly P, followed by an outcome that keeps to Q, keep to P + Q. */
  lemma PlannedThen(c: Point, a: seq<Action>, P: seq<Point>, o: Outcome, Q: seq<Point>)
    requires Presses(c, a) == P && Released(a)
    requires PressesAsPlanned(CursorAfter(c, a), o, Q)
    ensures PressesAsPlanned(c, Outcome(a + o.actions, o.cancelled), P + Q)
  {
    PressesConcat(c, a, o.actions);
    var R := Presses(CursorAfter(c, a), o.actions);
    assert R == Q[..|R|];
    assert P + R == (P + Q)[..|P + R|];
    ReleasedConcat(a, o.actions);
  }

  /** Keeping to a plan depends only on the outcome and the plan. */
  lemma PlannedSame(c: Point, o: Outcome, o': Outcome, P: seq<Point>, P': seq<Point>)
    requires PressesAsPlanned(c, o, P) && o == o' && P == P'
    ensures PressesAsPlanned(c, o', P')
  {
  }

  /** A cancelled outcome that keeps to P keeps to any longer plan. */
  lemma PlannedPrefix(c: Point, o: Outcome, P: seq<Point>, Q: seq<Point>)
    requires PressesAsPlanned(c, o, P) && o.cancelled
    ensures PressesAsPlanned(c, o, P + Q)
  {
    var R := Presses(c, o.actions);
    assert R == P[..|R|];
    assert R == (P + Q)[..|R|];
  }

  /** The shifted first point of each of paths i.. of two or more points. */
  function FirstPoints(paths: seq<Path>, i: nat, dx: int, dy: int): seq<Point>
    requires i <= |paths|
    decreases |paths| - i
  {
    if i == |paths| then []
    else FirstPoint(paths[i], dx, dy) + FirstPoints(paths, i + 1, dx, dy)
  }

  /** The shifted first point of a path of two or more points; nothing for a shorter path. */
  function FirstPoint(path: Path, dx: int, dy: int): seq<Point>
  {
    if |path| >= 2 then [Point(dx + path[0].x, dy + path[0].y)] else []
  }

  /** The stroke loop of DrawBatch presses on the first point of each path of two or more
      points, shifted by the canvas offset, in the order of the paths; it stops only on a
      cancellation check. */
  lemma {:induction false} StrokesPresses(c: Point, paths: seq<Path>, i: nat, dx: int, dy: int, stepSize: real, sleepInterval: int, t: nat, token: Token)
    requires stepSize > 0.0 && i <= |paths|
    ensures PressesAsPlanned(c, StrokesFrom(c, paths, i, dx, dy, stepSize, sleepInterval, t, token), FirstPoints(paths, i, dx, dy))
    ensures token.cancelAt.None? ==> !StrokesFrom(c, paths, i, dx, dy, stepSize, sleepInterval, t, token).cancelled
    decreases |paths| - i, 1
  {
    if i < |paths| && !Requested(token, t) {
      ShiftedFirstPoint(paths[i], dx, dy);
      StrokePresses(c, Shift(paths[i], dx, dy), stepSize, sleepInterval, t, token);
      StrokeThenPresses(c, paths, i, dx, dy, stepSize, sleepInterval, t, token, Stroke(c, Shift(paths[i], dx, dy), stepSize, sleepInterval, t, token));
    }
  }

  lemma ShiftedFirstPoint(path: Path, dx: int, dy: int)
    ensures FirstPoint(path, dx, dy) == if |Shift(path, dx, dy)| >= 2 then [Shift(path, dx, dy)[0]] else []
  {
  }

  /** The stroke S of path i, pressing where path i is planned to, then the rest of the
      loop, keep to the plan from path i. */
  lemma {:induction false} StrokeThenPresses(c: Point, paths: seq<Path>, i: nat, dx: int, dy: int, stepSize: real, sleepInterval: int, t: nat, token: Token, S: seq<Action>)
    requires stepSize > 0.0 && i < |paths|
    requires Presses(c, S) == FirstPoint(paths[i], dx, dy) && Released(S)
    ensures PressesAsPlanned(c, StrokeThen(c, paths, i, dx, dy, stepSize, sleepInterval, t, token, S), FirstPoints(paths, i, dx, dy))
    ensures token.cancelAt.None? ==> !StrokeThen(c, paths, i, dx, dy, stepSize, sleepInterval, t, token, S).cancelled
    decreases |paths| - i, 0
  {
    StrokesPresses(CursorAfter(c, S), paths, i + 1, dx, dy, stepSize, sleepInterval, t + |S|, token);
    PlannedThen(c, S, FirstPoint(paths[i], dx, dy),
      StrokesFrom(CursorAfter(c, S), paths, i + 1, dx, dy, stepSize, sleepInterval, t + |S|, token), FirstPoints(paths, i + 1, dx, dy));
    var rest := StrokesFrom(CursorAfter(c, S), paths, i + 1, dx, dy, stepSize, sleepInterval, t + |S|, token);
    assert StrokeThen(c, paths, i, dx, dy, stepSize, sleepInterval, t, token, S) == Outcome(S + rest.actions, rest.cancelled);
    PlannedSame(c, Outcome(S + rest.actions, rest.cancelled), StrokeThen(c, paths, i, dx, dy, stepSize, sleepInterval, t, token, S),
      FirstPoint(paths[i], dx, dy) + FirstPoints(paths, i + 1, dx, dy), FirstPoints(paths, i, dx, dy));
  }

  /** The points PickColor clicks: the colour button, the closest sample, and the close
      region if one was selected; none when the button or the picker was not selected. */
  function PickPoints(rs: Regions, patch: array2<Rgb>, target: Rgb): seq<Point>
    reads patch
  {
    if rs.colorButton.Empty? || rs.picker.Empty? then []
    else if rs.closePicker.Empty? then [Centre(rs.colorButton), BestPoint(rs.picker, patch, target)]
    else [Centre(rs.colorButton), BestPoint(rs.picker, patch, target), Centre(rs.closePicker)]
  }

  lemma OpeningPresses(c: Point, button: Region)
    requires button.Area?
    ensures Presses(c, Opening(button)) == [Centre(button)]
    ensures Released(Opening(button))
  {
    assert Opening(button) == [] + ClickActions(Centre(button)) + [Sleep(800)];
    ClickedOnce(c, [], Centre(button), [Sleep(800)]);
  }

  lemma ChoosingPresses(c: Point, p: Point)
    ensures Presses(c, Choosing(p)) == [p]
    ensures Released(Choosing(p))
  {
    ClickedOnce(c, [SetCursor(Point(0, 0)), Sleep(50)], p, [Sleep(150)]);
  }

  lemma ClosingPresses(c: Point, close: Region)
    requires close.Area?
    ensures Presses(c, Closing(close)) == [Centre(close)]
    ensures Released(Closing(close))
  {
    assert Closing(close) == [] + ClickActions(Centre(close)) + [Sleep(500)];
    ClickedOnce(c, [], Centre(close), [Sleep(500)]);
  }

  /** Three pieces that each press once, at p, q and r, keep to the plan [p, q, r] taken
      whole, and to its prefixes when a cancellation cuts them short. */
  lemma ThreeClicks(c: Point, A: seq<Action>, B: seq<Action>, C: seq<Action>, p: Point, q: Point, r: Point)
    requires Presses(c, A) == [p] && Released(A)
    requires Presses(CursorAfter(c, A), B) == [q] && Released(B)
    requires Presses(CursorAfter(c, A + B), C) == [r] && Released(C)
    ensures PressesAsPlanned(c, Outcome([], true), [p, q, r])
    ensures PressesAsPlanned(c, Outcome(A, true), [p, q, r])
    ensures PressesAsPlanned(c, Outcome(A + B, true), [p, q, r])
    ensures PressesAsPlanned(c, Outcome(A + B + C, false), [p, q, r])
  {
    ThreeCut(c, A, B, p, q, r);
    ThreeWhole(c, A, B, C, p, q, r);
  }

  /** The prefixes of three clicks that a cancellation can leave. */
  lemma ThreeCut(c: Point, A: seq<Action>, B: seq<Action>, p: Point, q: Point, r: Point)
    requires Presses(c, A) == [p] && Released(A)
    requires Presses(CursorAfter(c, A), B) == [q] && Released(B)
    ensures PressesAsPlanned(c, Outcome([], true), [p, q, r])
    ensures PressesAsPlanned(c, Outcome(A, true), [p, q, r])
    ensures PressesAsPlanned(c, Outcome(A + B, true), [p, q, r])
  {
    PressesConcat(c, A, B);
    ReleasedConcat(A, B);
  }

  /** Three clicks taken whole. */
  lemma ThreeWhole(c: Point, A: seq<Action>, B: seq<Action>, C: seq<Action>, p: Point, q: Point, r: Point)
    requires Presses(c, A) == [p] && Released(A)
    requires Presses(CursorAfter(c, A), B) == [q] && Released(B)
    requires Presses(CursorAfter(c, A + B), C) == [r] && Released(C)
    ensures PressesAsPlanned(c, Outcome(A + B + C, false), [p, q, r])
  {
    PressesConcat(c, A, B);
    assert Presses(c, A + B) == [p, q];
    ReleasedConcat(A, B);
    PlannedThen(c, A + B, [p, q], Outcome(C, false), [r]);
    assert [p, q] + [r] == [p, q, r];
  }

  /** Two pieces that each press once, at p and q, keep to the plan [p, q] taken whole, and
      to its prefixes when a cancellation cuts them short. */
  lemma TwoClicks(c: Point, A: seq<Action>, B: seq<Action>, p: Point, q: Point)
    requires Presses(c, A) == [p] && Released(A)
    requires Presses(CursorAfter(c, A), B) == [q] && Released(B)
    ensures PressesAsPlanned(c, Outcome([], true), [p, q])
    ensures PressesAsPlanned(c, Outcome(A, true), [p, q])
    ensures PressesAsPlanned(c, Outcome(A + B, false), [p, q])
  {
    PlannedThen(c, A, [p], Outcome(B, false), [q]);
  }

  /** The outcomes PickColor can have once the colour button and the picker are selected:
      cut short by a check before, between or after its clicks, or whole. */
  lemma PickOutcomes(rs: Regions, patch: array2<Rgb>, target: Rgb, t: nat, token: Token)
    requires rs.colorButton.Area? && rs.picker.Area?
    ensures var O := PickActions(rs, patch, target, t, token);
      var A := Opening(rs.colorButton);
      var B := Choosing(BestPoint(rs.picker, patch, target));
      if rs.closePicker.Area? then
        && (O == Outcome([], true) || O == Outcome(A, true) || O == Outcome(A + B, true) || O == Outcome(A + B + Closing(rs.closePicker), false))
        && (token.cancelAt.None? ==> O == Outcome(A + B + Closing(rs.closePicker), false))
      else
        && (O == Outcome([], true) || O == Outcome(A, true) || O == Outcome(A + B, false))
        && (token.cancelAt.None? ==> O == Outcome(A + B, false))
  {
  }

  /** One of four outcomes that all keep to plan P keeps to it. */
  lemma PlannedAmongFour(c: Point, O: Outcome, A: seq<Action>, B: seq<Action>, C: seq<Action>, P: seq<Point>)
    requires O == Outcome([], true) || O == Outcome(A, true) || O == Outcome(A + B, true) || O == Outcome(A + B + C, false)
    requires PressesAsPlanned(c, Outcome([], true), P) && PressesAsPlanned(c, Outcome(A, true), P)
    requires PressesAsPlanned(c, Outcome(A + B, true), P) && PressesAsPlanned(c, Outcome(A + B + C, false), P)
    ensures PressesAsPlanned(c, O, P)
  {
  }

  /** One of three outcomes that all keep to plan P keeps to it. */
  lemma PlannedAmongThree(c: Point, O: Outcome, A: seq<Action>, B: seq<Action>, P: seq<Point>)
    requires O == Outcome([], true) || O == Outcome(A, true) || O == Outcome(A + B, false)
    requires PressesAsPlanned(c, Outcome([], true), P) && PressesAsPlanned(c, Outcome(A, true), P)
    requires PressesAsPlanned(c, Outcome(A + B, false), P)
    ensures PressesAsPlanned(c, O, P)
  {
  }

  /** The clicks on the colour button, the sample and the close region. */
  lemma OpenChooseClose(c: Point, rs: Regions, patch: array2<Rgb>, target: Rgb)
    requires rs.colorButton.Area? && rs.picker.Area? && rs.closePicker.Area?
    ensures var A := Opening(rs.colorButton);
      var B := Choosing(BestPoint(rs.picker, patch, target));
      var C := Closing(rs.closePicker);
      var P := [Centre(rs.colorButton), BestPoint(rs.picker, patch, target), Centre(rs.closePicker)];
      && PressesAsPlanned(c, Outcome([], true), P)
      && PressesAsPlanned(c, Outcome(A, true), P)
      && PressesAsPlanned(c, Outcome(A + B, true), P)
      && PressesAsPlanned(c, Outcome(A + B + C, false), P)
  {
    var A := Opening(rs.colorButton);
    var best := BestPoint(rs.picker, patch, target);
    var B := Choosing(best);
    OpeningPresses(c, rs.colorButton);
    ChoosingPresses(CursorAfter(c, A), best);
    ClosingPresses(CursorAfter(c, A + B), rs.closePicker);
    ThreeClicks(c, A, B, Closing(rs.closePicker), Centre(rs.colorButton), best, Centre(rs.closePicker));
  }

  /** The clicks on the colour button and the sample. */
  lemma OpenChoose(c: Point, rs: Regions, patch: array2<Rgb>, target: Rgb)
    requires rs.colorButton.Area? && rs.picker.Area?
    ensures var A := Opening(rs.colorButton);
      var B := Choosing(BestPoint(rs.picker, patch, target));
      var P := [Centre(rs.colorButton), BestPoint(rs.picker, patch, target)];
      && PressesAsPlanned(c, Outcome([], true), P)
      && PressesAsPlanned(c, Outcome(A, true), P)
      && PressesAsPlanned(c, Outcome(A + B, false), P)
  {
    var A := Opening(rs.colorButton);
    var best := BestPoint(rs.picker, patch, target);
    OpeningPresses(c, rs.colorButton);
    ChoosingPresses(CursorAfter(c, A), best);
    TwoClicks(c, A, Choosing(best), Centre(rs.colorButton), best);
  }

  /** PickColor does nothing without a colour button and a picker; otherwise it clicks the
      button, then the closest sample, then the close region if there is one, in that order,
      stopping only on a cancellation check. */
  lemma PickPresses(c: Point, rs: Regions, patch: array2<Rgb>, target: Rgb, t: nat, token: Token)
    ensures rs.colorButton.Empty? || rs.picker.Empty? ==> PickActions(rs, patch, target, t, token) == Outcome([], false)
    ensures PressesAsPlanned(c, PickActions(rs, patch, target, t, token), PickPoints(rs, patch, target))
    ensures token.cancelAt.None? ==> !PickActions(rs, patch, target, t, token).cancelled
  {
    if rs.colorButton.Area? && rs.picker.Area? {
      var O := PickActions(rs, patch, target, t, token);
      var A := Opening(rs.colorButton);
      var B := Choosing(BestPoint(rs.picker, patch, target));
      PickOutcomes(rs, patch, target, t, token);
      if rs.closePicker.Area? {
        OpenChooseClose(c, rs, patch, target);
        PlannedAmongFour(c, O, A, B, Closing(rs.closePicker), PickPoints(rs, patch, target));
      } else {
        OpenChoose(c, rs, patch, target);
        PlannedAmongThree(c, O, A, B, PickPoints(rs, patch, target));
      }
    }
  }

  /** Where the colour choice of a batch presses: the palette clicks, if it has a colour. */
  function ColourPoints(rs: Regions, patch: array2<Rgb>, b: Batch): seq<Point>
    reads patch
  {
    if b.color.Some? then PickPoints(rs, patch, b.color.value) else []
  }

  /** Where batches i.. press, one batch after the other: the palette clicks of each batch
      before the first points of its paths on the canvas. */
  function PlannedPresses(rs: Regions, patch: array2<Rgb>, bs: seq<Batch>, i: nat): seq<Point>
    requires rs.canvas.Area? && i <= |bs|
    reads patch
    decreases |bs| - i
  {
    if i == |bs| then []
    else ColourPoints(rs, patch, bs[i]) + FirstPoints(bs[i].paths, 0, rs.canvas.x, rs.canvas.y) + PlannedPresses(rs, patch, bs, i + 1)
  }

  /** The colour choice of a batch keeps to the batch's palette clicks. */
  lemma ColourPresses(rs: Regions, c: Point, b: Batch, patch: array2<Rgb>, t: nat, token: Token)
    ensures PressesAsPlanned(c, ColourActions(rs, patch, b, t, token), ColourPoints(rs, patch, b))
    ensures token.cancelAt.None? ==> !ColourActions(rs, patch, b, t, token).cancelled
  {
    if b.color.Some? {
      PickPresses(c, rs, patch, b.color.value, t, token);
    }
  }

  /** The drawing of a batch's paths keeps to their first points on the canvas. */
  lemma DrawPresses(canvas: Region, c: Point, paths: seq<Path>, t: nat, token: Token)
    requires canvas.Area?
    ensures var draw := DrawBatchActions(canvas, c, paths, DrawStep, DrawInterval, t, token);
      && PressesAsPlanned(c, draw, FirstPoints(paths, 0, canvas.x, canvas.y))
      && (token.cancelAt.None? ==> !draw.cancelled)
  {
    if |paths| > 0 {
      StrokesPresses(c, paths, 0, canvas.x, canvas.y, DrawStep, DrawInterval, t, token);
    }
  }

  /** The execution loop from batch i on presses where batches i.. are planned to, in order,
      and is cancelled only by a cancellation check. */
  lemma {:induction false} BatchesPresses(rs: Regions, c: Point, bs: seq<Batch>, i: nat, patch: array2<Rgb>, t: nat, token: Token)
    requires rs.canvas.Area? && i <= |bs|
    ensures PressesAsPlanned(c, BatchesFrom(rs, c, bs, i, patch, t, token), PlannedPresses(rs, patch, bs, i))
    ensures token.cancelAt.None? ==> !BatchesFrom(rs, c, bs, i, patch, t, token).cancelled
    decreases |bs| - i, 4
  {
    if i < |bs| {
      BatchFromPresses(rs, c, bs, i, patch, t, token);
    }
  }

  lemma {:induction false} BatchFromPresses(rs: Regions, c: Point, bs: seq<Batch>, i: nat, patch: array2<Rgb>, t: nat, token: Token)
    requires rs.canvas.Area? && i < |bs|
    ensures PressesAsPlanned(c, BatchFrom(rs, c, bs, i, patch, t, token), PlannedPresses(rs, patch, bs, i))
    ensures token.cancelAt.None? ==> !BatchFrom(rs, c, bs, i, patch, t, token).cancelled
    decreases |bs| - i, 3
  {
    ColourPresses(rs, c, bs[i], patch, t, token);
    ColourThenPresses(rs, c, bs, i, patch, t, token, ColourActions(rs, patch, bs[i], t, token));
  }

  /** A colour choice P that keeps to the palette clicks of batch i, then the rest of the
      loop, keep to the plan from batch i: the palette clicks come before the strokes. */
  lemma {:induction false} ColourThenPresses(rs: Regions, c: Point, bs: seq<Batch>, i: nat, patch: array2<Rgb>, t: nat, token: Token, P: Outcome)
    requires rs.canvas.Area? && i < |bs|
    requires PressesAsPlanned(c, P, ColourPoints(rs, patch, bs[i]))
    requires token.cancelAt.None? ==> !P.cancelled
    ensures PressesAsPlanned(c, ColourThen(rs, c, bs, i, patch, t, token, P), PlannedPresses(rs, patch, bs, i))
    ensures token.cancelAt.None? ==> !ColourThen(rs, c, bs, i, patch, t, token, P).cancelled
    decreases |bs| - i, 2
  {
    if P.cancelled {
      var later := FirstPoints(bs[i].paths, 0, rs.canvas.x, rs.canvas.y) + PlannedPresses(rs, patch, bs, i + 1);
      PlannedPrefix(c, P, ColourPoints(rs, patch, bs[i]), later);
      assert ColourPoints(rs, patch, bs[i]) + later == PlannedPresses(rs, patch, bs, i);
    } else {
      PathsFromPresses(rs, c, bs, i, patch, t, token, P.actions);
    }
  }

  lemma {:induction false} PathsFromPresses(rs: Regions, c: Point, bs: seq<Batch>, i: nat, patch: array2<Rgb>, t: nat, token: Token, A: seq<Action>)
    requires rs.canvas.Area? && i < |bs|
    requires Presses(c, A) == ColourPoints(rs, patch, bs[i]) && Released(A)
    ensures PressesAsPlanned(c, PathsFrom(rs, c, bs, i, patch, t, token, A), PlannedPresses(rs, patch, bs, i))
    ensures token.cancelAt.None? ==> !PathsFrom(rs, c, bs, i, patch, t, token, A).cancelled
    decreases |bs| - i, 1
  {
    DrawPresses(rs.canvas, CursorAfter(c, A), bs[i].paths, t + |A|, token);
    PathsThenPresses(rs, c, bs, i, patch, t, token, A,
      DrawBatchActions(rs.canvas, CursorAfter(c, A), bs[i].paths, DrawStep, DrawInterval, t + |A|, token));
  }

  /** A drawing D cancelled after actions A that pressed exactly P keeps to any plan that
      starts with P and D's own plan Q. */
  lemma CancelledThen(c: Point, A: seq<Action>, P: seq<Point>, D: Outcome, Q: seq<Point>, R: seq<Point>)
    requires Presses(c, A) == P && Released(A)
    requires PressesAsPlanned(CursorAfter(c, A), D, Q) && D.cancelled
    ensures PressesAsPlanned(c, Outcome(A + D.actions, true), P + Q + R)
  {
    PlannedThen(c, A, P, D, Q);
    PlannedPrefix(c, Outcome(A + D.actions, true), P + Q, R);
  }

  /** Actions A that pressed exactly P, a finished drawing D that pressed exactly Q, and an
      outcome that keeps to R keep to P + Q + R. */
  lemma FinishedThen(c: Point, A: seq<Action>, P: seq<Point>, D: Outcome, Q: seq<Point>, rest: Outcome, R: seq<Point>)
    requires Presses(c, A) == P && Released(A)
    requires PressesAsPlanned(CursorAfter(c, A), D, Q) && !D.cancelled
    requires PressesAsPlanned(CursorAfter(c, A + D.actions), rest, R)
    ensures PressesAsPlanned(c, Outcome(A + D.actions + rest.actions, rest.cancelled), P + Q + R)
  {
    PlannedThen(c, A, P, D, Q);
    PlannedThen(c, A + D.actions, P + Q, rest, R);
  }

  /** Colour actions A that press the palette clicks of batch i, a drawing D that keeps to
      the first points of its paths, then the rest of the loop, keep to the plan from batch i. */
  lemma {:induction false} PathsThenPresses(rs: Regions, c: Point, bs: seq<Batch>, i: nat, patch: array2<Rgb>, t: nat, token: Token, A: seq<Action>, D: Outcome)
    requires rs.canvas.Area? && i < |bs|
    requires Presses(c, A) == ColourPoints(rs, patch, bs[i]) && Released(A)
    requires PressesAsPlanned(CursorAfter(c, A), D, FirstPoints(bs[i].paths, 0, rs.canvas.x, rs.canvas.y))
    requires token.cancelAt.None? ==> !D.cancelled
    ensures PressesAsPlanned(c, PathsThen(rs, c, bs, i, patch, t, token, A, D), PlannedPresses(rs, patch, bs, i))
    ensures token.cancelAt.None? ==> !PathsThen(rs, c, bs, i, patch, t, token, A, D).cancelled
    decreases |bs| - i, 0
  {
    var P, Q := ColourPoints(rs, patch, bs[i]), FirstPoints(bs[i].paths, 0, rs.canvas.x, rs.canvas.y);
    var R := PlannedPresses(rs, patch, bs, i + 1);
    assert PlannedPresses(rs, patch, bs, i) == P + Q + R;
    if D.cancelled {
      CancelledThen(c, A, P, D, Q, R);
    } else {
      var o := A + D.actions;
      var rest := BatchesFrom(rs, CursorAfter(c, o), bs, i + 1, patch, t + |o|, token);
      assert PathsThen(rs, c, bs, i, patch, t, token, A, D) == Outcome(o + rest.actions, rest.cancelled);
      BatchesPresses(rs, CursorAfter(c, o), bs, i + 1, patch, t + |o|, token);
      FinishedThen(c, A, P, D, Q, rest, R);
    }
  }

  /** The run after the batches are built presses in the planned order, batch after batch,
      each batch's palette clicks before its strokes; without a cancellation it presses every
      planned point, and whenever it stops, the button is up. */
  lemma TaskPresses(rs: Regions, c: Point, bs: seq<Batch>, patch: array2<Rgb>, t: nat, token: Token)
    requires rs.canvas.Area?
    ensures PressesAsPlanned(c, TaskActions(rs, c, bs, patch, t, token), PlannedPresses(rs, patch, bs, 0))
    ensures token.cancelAt.None? ==> !TaskActions(rs, c, bs, patch, t, token).cancelled
    ensures Requested(token, t) ==> TaskActions(rs, c, bs, patch, t, token) == Outcome([], true)
    ensures ButtonFrom(false, TaskActions(rs, c, bs, patch, t, token).actions) == Some(false)
    ensures var s := TaskActions(rs, c, bs, patch, t, token).actions; multiset(s)[LeftDown] == multiset(s)[LeftUp]
  {
    BatchesPresses(rs, c, bs, 0, patch, t, token);
    ReleasedCounts(TaskActions(rs, c, bs, patch, t, token).actions);
  }
}
