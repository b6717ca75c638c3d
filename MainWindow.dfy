/** The painting run of the main window: the segments of the chosen mode are gathered into
    batches of one colour each, the run time is estimated, and then batch after batch the
    colour is chosen on the application's palette and the batch's paths are drawn on the
    canvas with the pen. Every device call goes to the pen's trace; a cancellation check
    that finds the token requested ends the run. */
module MainWindow {
  import opened Basics
  import opened ColorModel
  import opened Grouping
  import opened ImageProcessor
  import opened Pen
  import opened PenProperties
  import opened ColourSearch

  // ---------------------------------------------------------------------------
  // Screen regions

  /** A side of a confirmed selection: the selection window confirms only a rectangle at
      least one pixel wide and high. */
  type Extent = n: int | n >= 1 witness 1

  /** A System.Windows.Rect as the selection window leaves it: Rect.Empty until a region is
      confirmed, in physical screen pixels afterwards. */
  datatype Region = Empty | Area(x: int, y: int, width: Extent, height: Extent)

  /** The four regions the user selects before painting. */
  datatype Regions = Regions(canvas: Region, colorButton: Region, picker: Region, closePicker: Region)

  /** Click(r.X + r.Width / 2, r.Y + r.Height / 2): the double is truncated toward zero. */
  function Centre(r: Region): (c: Point)
    requires r.Area?
    ensures r.x <= c.x <= r.x + r.width && r.y <= c.y <= r.y + r.height
  {
    Point(TruncDiv(2 * r.x + r.width, 2), TruncDiv(2 * r.y + r.height, 2))
  }

  /** The screen point of the palette sample closest to target: the picker's origin plus the
      offset the stride-4 search settles on. */
  function BestPoint(picker: Region, patch: array2<Rgb>, target: Rgb): Point
    requires picker.Area?
    reads patch
  {
    var off := BestOffset(patch, target);
    Point(picker.x + off.x, picker.y + off.y)
  }

  /** The screen capture of the picker has the picker's size. */
  predicate Captures(picker: Region, patch: array2<Rgb>)
  {
    picker.Area? ==> patch.Length0 == picker.height && patch.Length1 == picker.width
  }

  // ---------------------------------------------------------------------------
  // Batches

  /** A colour to choose (none in binary mode) and the paths to draw with it. */
  datatype Batch = Batch(color: Option<Rgb>, paths: seq<Path>)

  /** One batch per group, keeping the group's colour and paths. */
  function ColourBatches(G: seq<(Rgb, seq<Path>)>): seq<Batch>
  {
    seq(|G|, i requires 0 <= i < |G| => Batch(Some(G[i].0), G[i].1))
  }

  /** allBatches for the selected mode: 0 is binary fill, 1 raster coloured edges, and any
      other index quantised blocks. The colour modes group the list the scan returns by
      colour, as GroupBy does. */
  function Batches(mode: int, g: seq<seq<Byte>>, ge: seq<seq<Byte>>, gc: seq<seq<Vec3b>>): seq<Batch>
    requires SameShape(ge, gc)
  {
    if mode == 0 then [Batch(None, BinaryPaths(g))]
    else if mode == 1 then ColourBatches(GroupBy(EdgeResult(ge, gc)))
    else ColourBatches(GroupBy(BlockResult(gc)))
  }

  // ---------------------------------------------------------------------------
  // The duration estimate

  function Abs(n: int): nat
  {
    if n < 0 then -n else n
  }

  /** The horizontal extent of a path of two or more points, from its first point to its last. */
  function Span(p: Path): nat
  {
    if |p| >= 2 then Abs(p[|p| - 1].x - p[0].x) else 0
  }

  function PathsSpan(ps: seq<Path>): nat
  {
    if ps == [] then 0 else PathsSpan(ps[..|ps| - 1]) + Span(ps[|ps| - 1])
  }

  /** totalPixels over all batches. The double sum of integers is exact below 2^53. */
  function TotalSpan(bs: seq<Batch>): nat
  {
    if bs == [] then 0 else TotalSpan(bs[..|bs| - 1]) + PathsSpan(bs[|bs| - 1].paths)
  }

  /** estimatedSeconds: 2.5 s per batch, one colour change each, and 1 s per 400 pixels
      of horizontal drawing. */
  function Estimate(bs: seq<Batch>): (seconds: real)
    ensures seconds >= (|bs| as real) * 2.5 >= 0.0
  {
    (|bs| as real) * 2.5 + (TotalSpan(bs) as real) / 400.0
  }

  /** The estimate loop of RunTask. */
  method EstimateSeconds(allBatches: seq<Batch>) returns (estimatedSeconds: real)
    ensures estimatedSeconds == Estimate(allBatches)
  {
    var totalColorChanges := |allBatches|;
    var totalPixels := 0;
    var i := 0;
    while i < |allBatches|
      invariant 0 <= i <= |allBatches|
      invariant totalPixels == TotalSpan(allBatches[..i])
    {
      assert allBatches[..i + 1][..i] == allBatches[..i];
      totalPixels := AddSpans(totalPixels, allBatches[i].paths);
      i := i + 1;
    }
    assert allBatches[..i] == allBatches;
    estimatedSeconds := (totalColorChanges as real) * 2.5 + (totalPixels as real) / 400.0;
  }

  /** The inner loop of the estimate: adds the spans of one batch's paths. */
  method AddSpans(total: int, paths: seq<Path>) returns (total': int)
    ensures total' == total + PathsSpan(paths)
  {
    total' := total;
    var j := 0;
    while j < |paths|
      invariant 0 <= j <= |paths|
      invariant total' == total + PathsSpan(paths[..j])
    {
      assert paths[..j + 1][..j] == paths[..j];
      var path := paths[j];
      if |path| >= 2 {
        var dx := path[|path| - 1].x - path[0].x;
        total' := total' + Abs(dx);
      }
      j := j + 1;
    }
    assert paths[..j] == paths;
  }

  // ---------------------------------------------------------------------------
  // What the run does, as the actions it appends

  /** Actions appended, and whether a cancellation check found the token requested (and
      threw, which ends the run). */
  datatype Outcome = Outcome(actions: seq<Action>, cancelled: bool)

  /** The step size and sleep interval every batch is drawn with. */
  const DrawStep: real := 5.0
  const DrawInterval: int := 50

  /** Opening the palette: a click on the centre of the colour button, then 800 ms for the
      palette to appear. */
  function Opening(button: Region): seq<Action>
    requires button.Area?
  {
    ClickActions(Centre(button)) + [Sleep(800)]
  }

  /** Choosing a sample: the cursor parked at (0, 0) so that it does not cover the palette in
      the capture, then a click on the sample at p and 150 ms for the choice to register. */
  function Choosing(p: Point): seq<Action>
  {
    [SetCursor(Point(0, 0)), Sleep(50)] + ClickActions(p) + [Sleep(150)]
  }

  /** Closing the palette: a click on the centre of the close region, then 500 ms. */
  function Closing(close: Region): seq<Action>
    requires close.Area?
  {
    ClickActions(Centre(close)) + [Sleep(500)]
  }

  /** PickColor(target) started when the trace holds t actions: open the palette, choose the
      closest sample, and close the palette if a close region was selected, with a
      cancellation check before each of the three. */
  function PickActions(rs: Regions, patch: array2<Rgb>, target: Rgb, t: nat, token: Token): Outcome
    reads patch
  {
    if rs.colorButton.Empty? || rs.picker.Empty? then Outcome([], false)
    else if Requested(token, t) then Outcome([], true)
    else
      var shown := Opening(rs.colorButton);
      if Requested(token, t + |shown|) then Outcome(shown, true)
      else
        var chosen := shown + Choosing(BestPoint(rs.picker, patch, target));
        if rs.closePicker.Empty? then Outcome(chosen, false)
        else if Requested(token, t + |chosen|) then Outcome(chosen, true)
        else Outcome(chosen + Closing(rs.closePicker), false)
  }

  /** A path moved by (dx, dy): from canvas coordinates to screen coordinates. */
  function Shift(path: Path, dx: int, dy: int): (abs: Path)
    ensures |abs| == |path|
  {
    seq(|path|, k requires 0 <= k < |path| => Point(dx + path[k].x, dy + path[k].y))
  }

  /** The stroke loop of DrawBatch from path i on, with the cursor at c and the trace holding
      t actions: a cancellation check, then the path drawn at the canvas offset. */
  function StrokesFrom(c: Point, paths: seq<Path>, i: nat, dx: int, dy: int, stepSize: real, sleepInterval: int, t: nat, token: Token): Outcome
    requires stepSize > 0.0 && i <= |paths|
    decreases |paths| - i, 1
  {
    if i == |paths| then Outcome([], false)
    else if Requested(token, t) then Outcome([], true)
    else StrokeThen(c, paths, i, dx, dy, stepSize, sleepInterval, t, token,
      Stroke(c, Shift(paths[i], dx, dy), stepSize, sleepInterval, t, token))
  }

  /** The stroke S of path i, followed by the rest of the loop. */
  function StrokeThen(c: Point, paths: seq<Path>, i: nat, dx: int, dy: int, stepSize: real, sleepInterval: int, t: nat, token: Token, S: seq<Action>): Outcome
    requires stepSize > 0.0 && i < |paths|
    decreases |paths| - i, 0
  {
    var rest := StrokesFrom(CursorAfter(c, S), paths, i + 1, dx, dy, stepSize, sleepInterval, t + |S|, token);
    Outcome(S + rest.actions, rest.cancelled)
  }

  /** One uncancelled pass of the stroke loop, seen from the trace: with the cursor where the
      trace before leaves it, the loop from path i appends the stroke S of path i and then
      the loop from path i + 1. */
  lemma StrokeStep(origin: Point, before: seq<Action>, S: seq<Action>, paths: seq<Path>, i: nat, dx: int, dy: int, stepSize: real, sleepInterval: int, token: Token)
    requires stepSize > 0.0 && i < |paths| && !Requested(token, |before|)
    requires S == Stroke(CursorAfter(origin, before), Shift(paths[i], dx, dy), stepSize, sleepInterval, |before|, token)
    ensures var now := StrokesFrom(CursorAfter(origin, before), paths, i, dx, dy, stepSize, sleepInterval, |before|, token);
      var rest := StrokesFrom(CursorAfter(origin, before + S), paths, i + 1, dx, dy, stepSize, sleepInterval, |before + S|, token);
      before + now.actions == before + S + rest.actions && now.cancelled == rest.cancelled
  {
    CursorAfterConcat(origin, before, S);
    var rest := StrokesFrom(CursorAfter(origin, before + S), paths, i + 1, dx, dy, stepSize, sleepInterval, |before + S|, token);
    Append2(before, S, rest.actions);
  }

  /** DrawBatch(paths, stepSize, sleepInterval) with the cursor at c. */
  function DrawBatchActions(canvas: Region, c: Point, paths: seq<Path>, stepSize: real, sleepInterval: int, t: nat, token: Token): Outcome
    requires canvas.Area? && stepSize > 0.0
  {
    if |paths| == 0 then Outcome([], false)
    else StrokesFrom(c, paths, 0, canvas.x, canvas.y, stepSize, sleepInterval, t, token)
  }

  /** The colour choice of a batch: PickColor if the batch has a colour, nothing otherwise. */
  function ColourActions(rs: Regions, patch: array2<Rgb>, b: Batch, t: nat, token: Token): Outcome
    reads patch
  {
    if b.color.Some? then PickActions(rs, patch, b.color.value, t, token) else Outcome([], false)
  }

  /** The execution loop of RunTask from batch i on, with the cursor at c and the trace
      holding t actions. Each pass is split over BatchFrom, ColourThen, PathsFrom and
      PathsThen, one step of the pass each, so that the colour choice and the drawing can be
      reasoned about one at a time. */
  function BatchesFrom(rs: Regions, c: Point, bs: seq<Batch>, i: nat, patch: array2<Rgb>, t: nat, token: Token): Outcome
    requires rs.canvas.Area? && i <= |bs|
    reads patch
    decreases |bs| - i, 4
  {
    if i == |bs| then Outcome([], false) else BatchFrom(rs, c, bs, i, patch, t, token)
  }

  /** Pass i of the loop and the rest: the colour of batch i first. */
  function BatchFrom(rs: Regions, c: Point, bs: seq<Batch>, i: nat, patch: array2<Rgb>, t: nat, token: Token): Outcome
    requires rs.canvas.Area? && i < |bs|
    reads patch
    decreases |bs| - i, 3
  {
    ColourThen(rs, c, bs, i, patch, t, token, ColourActions(rs, patch, bs[i], t, token))
  }

  /** After the colour choice P of batch i: a cancelled choice ends the run, otherwise the
      paths follow. */
  function ColourThen(rs: Regions, c: Point, bs: seq<Batch>, i: nat, patch: array2<Rgb>, t: nat, token: Token, P: Outcome): Outcome
    requires rs.canvas.Area? && i < |bs|
    reads patch
    decreases |bs| - i, 2
  {
    if P.cancelled then P else PathsFrom(rs, c, bs, i, patch, t, token, P.actions)
  }

  /** After the actions A of an uncancelled colour choice: the paths of batch i, drawn from
      where A leaves the cursor. */
  function PathsFrom(rs: Regions, c: Point, bs: seq<Batch>, i: nat, patch: array2<Rgb>, t: nat, token: Token, A: seq<Action>): Outcome
    requires rs.canvas.Area? && i < |bs|
    reads patch
    decreases |bs| - i, 1
  {
    PathsThen(rs, c, bs, i, patch, t, token, A,
      DrawBatchActions(rs.canvas, CursorAfter(c, A), bs[i].paths, DrawStep, DrawInterval, t + |A|, token))
  }

  /** After the colour actions A and the drawing D of batch i: a cancelled drawing ends the
      run, otherwise the loop goes on with batch i + 1. */
  function PathsThen(rs: Regions, c: Point, bs: seq<Batch>, i: nat, patch: array2<Rgb>, t: nat, token: Token, A: seq<Action>, D: Outcome): Outcome
    requires rs.canvas.Area? && i < |bs|
    reads patch
    decreases |bs| - i, 0
  {
    var o := A + D.actions;
    if D.cancelled then Outcome(o, true)
    else
      var rest := BatchesFrom(rs, CursorAfter(c, o), bs, i + 1, patch, t + |o|, token);
      Outcome(o + rest.actions, rest.cancelled)
  }

  /** A pass whose colour choice P was cancelled, seen from the trace: the loop from batch i
      appends P and ends. */
  lemma ColourCancelled(rs: Regions, c: Point, bs: seq<Batch>, i: nat, patch: array2<Rgb>, t: nat, token: Token, P: Outcome)
    requires rs.canvas.Area? && i < |bs|
    requires P == ColourActions(rs, patch, bs[i], t, token) && P.cancelled
    ensures BatchesFrom(rs, c, bs, i, patch, t, token) == P
  {
    assert BatchesFrom(rs, c, bs, i, patch, t, token) == BatchFrom(rs, c, bs, i, patch, t, token);
    assert BatchFrom(rs, c, bs, i, patch, t, token) == ColourThen(rs, c, bs, i, patch, t, token, P);
  }

  /** A pass whose colour choice appended P without a cancellation and whose drawing from
      there appended D, seen from the trace: the loop from batch i appends P and D and, unless
      D ends in a cancellation, the loop from batch i + 1. */
  lemma PassStep(rs: Regions, origin: Point, before: seq<Action>, P: seq<Action>, D: Outcome, bs: seq<Batch>, i: nat, patch: array2<Rgb>, token: Token)
    requires rs.canvas.Area? && i < |bs|
    requires ColourActions(rs, patch, bs[i], |before|, token) == Outcome(P, false)
    requires D == DrawBatchActions(rs.canvas, CursorAfter(origin, before + P), bs[i].paths, DrawStep, DrawInterval, |before + P|, token)
    ensures var now := BatchesFrom(rs, CursorAfter(origin, before), bs, i, patch, |before|, token);
      var after := before + P + D.actions;
      var rest := BatchesFrom(rs, CursorAfter(origin, after), bs, i + 1, patch, |after|, token);
      if D.cancelled then before + now.actions == after && now.cancelled
      else before + now.actions == after + rest.actions && now.cancelled == rest.cancelled
  {
    CursorAfterConcat(origin, before, P);
    PassUnfold(rs, CursorAfter(origin, before), bs, i, patch, |before|, token, P, D);
    PathsThenStep(rs, origin, before, P, D, bs, i, patch, token);
  }

  /** The pass of batch i unfolded: after an uncancelled colour choice P, the drawing D. */
  lemma PassUnfold(rs: Regions, c: Point, bs: seq<Batch>, i: nat, patch: array2<Rgb>, t: nat, token: Token, P: seq<Action>, D: Outcome)
    requires rs.canvas.Area? && i < |bs|
    requires ColourActions(rs, patch, bs[i], t, token) == Outcome(P, false)
    requires D == DrawBatchActions(rs.canvas, CursorAfter(c, P), bs[i].paths, DrawStep, DrawInterval, t + |P|, token)
    ensures BatchesFrom(rs, c, bs, i, patch, t, token) == PathsThen(rs, c, bs, i, patch, t, token, P, D)
  {
    assert BatchesFrom(rs, c, bs, i, patch, t, token) == BatchFrom(rs, c, bs, i, patch, t, token);
    assert BatchFrom(rs, c, bs, i, patch, t, token) == ColourThen(rs, c, bs, i, patch, t, token, Outcome(P, false));
    assert ColourThen(rs, c, bs, i, patch, t, token, Outcome(P, false)) == PathsFrom(rs, c, bs, i, patch, t, token, P);
  }

  /** The end of a pass, seen from the trace: colour actions P and a drawing D, then, unless
      D ends in a cancellation, the loop from batch i + 1. */
  lemma PathsThenStep(rs: Regions, origin: Point, before: seq<Action>, P: seq<Action>, D: Outcome, bs: seq<Batch>, i: nat, patch: array2<Rgb>, token: Token)
    requires rs.canvas.Area? && i < |bs|
    ensures var now := PathsThen(rs, CursorAfter(origin, before), bs, i, patch, |before|, token, P, D);
      var after := before + P + D.actions;
      var rest := BatchesFrom(rs, CursorAfter(origin, after), bs, i + 1, patch, |after|, token);
      if D.cancelled then before + now.actions == after && now.cancelled
      else before + now.actions == after + rest.actions && now.cancelled == rest.cancelled
  {
    var o := P + D.actions;
    CursorAfterConcat(origin, before, o);
    Append2(before, P, D.actions);
    var rest := BatchesFrom(rs, CursorAfter(origin, before + o), bs, i + 1, patch, |before + o|, token);
    Append2(before, o, rest.actions);
  }

  /** RunTask once the batches are built: a cancellation check, then every batch in order. */
  function TaskActions(rs: Regions, c: Point, bs: seq<Batch>, patch: array2<Rgb>, t: nat, token: Token): Outcome
    requires rs.canvas.Area?
    reads patch
  {
    if Requested(token, t) then Outcome([], true) else BatchesFrom(rs, c, bs, 0, patch, t, token)
  }

  // ---------------------------------------------------------------------------
  // The window

  class MainWindow {
    /** The selected regions: _canvasRect, _btnRect, _pickerRect and _closePickerRect. */
    const canvas: Region
    const colorButton: Region
    const picker: Region
    const closePicker: Region
    /** _pen, created with the window. */
    const pen: PenSimulator

    constructor(canvas: Region, colorButton: Region, picker: Region, closePicker: Region, cursor: Point)
      ensures this.canvas == canvas && this.colorButton == colorButton
      ensures this.picker == picker && this.closePicker == closePicker
      ensures fresh(pen) && pen.origin == cursor && pen.trace == []
    {
      this.canvas := canvas;
      this.colorButton := colorButton;
      this.picker := picker;
      this.closePicker := closePicker;
      pen := new PenSimulator(cursor);
    }

    function Selected(): Regions
    {
      Regions(canvas, colorButton, picker, closePicker)
    }

    /** The buffers the image processor works on, and the captured palette, in one run. */
    method RunTask(mode: int, gray: array2<Byte>, edges: array2<Byte>, colors: array2<Vec3b>, patch: array2<Rgb>, token: Token)
      returns (estimatedSeconds: Option<real>, cancelled: bool)
      requires canvas.Area? && Captures(picker, patch)
      requires edges.Length0 == colors.Length0 && edges.Length1 == colors.Length1
      modifies pen
      ensures var bs := Batches(mode, Grid(gray), Grid(edges), Grid(colors));
        var run := TaskActions(Selected(), old(pen.Position()), bs, patch, |old(pen.trace)|, token);
        && pen.trace == old(pen.trace) + run.actions
        && cancelled == run.cancelled
        && estimatedSeconds == (if Requested(token, |old(pen.trace)|) then None else Some(Estimate(bs)))
    {
      var allBatches := BuildBatches(mode, gray, edges, colors);
      if Requested(token, |pen.trace|) {
        return None, true;
      }
      var seconds := EstimateSeconds(allBatches);
      estimatedSeconds := Some(seconds);
      cancelled := ExecuteBatches(allBatches, patch, token);
    }

    /** The batch-building part of RunTask. */
    method BuildBatches(mode: int, gray: array2<Byte>, edges: array2<Byte>, colors: array2<Vec3b>) returns (allBatches: seq<Batch>)
      requires edges.Length0 == colors.Length0 && edges.Length1 == colors.Length1
      ensures allBatches == Batches(mode, Grid(gray), Grid(edges), Grid(colors))
    {
      if mode == 0 {
        var paths := GetBinaryPaths(gray);
        allBatches := [Batch(None, paths)];
      } else if mode == 1 {
        var edgeList := GetRasterColoredEdges(edges, colors);
        allBatches := AddGroups(GroupBy(edgeList));
      } else {
        var blocks := GetQuantized256Blocks(colors);
        allBatches := AddGroups(GroupBy(blocks));
      }
    }

    /** foreach (var g in groups) allBatches.Add((g.Key, paths of g)). */
    method AddGroups(groups: seq<(Rgb, seq<Path>)>) returns (allBatches: seq<Batch>)
      ensures allBatches == ColourBatches(groups)
    {
      allBatches := [];
      var i := 0;
      while i < |groups|
        invariant 0 <= i <= |groups|
        invariant allBatches == ColourBatches(groups[..i])
      {
        allBatches := allBatches + [Batch(Some(groups[i].0), groups[i].1)];
        i := i + 1;
      }
      assert groups[..i] == groups;
    }

    /** The execution loop of RunTask. */
    method ExecuteBatches(allBatches: seq<Batch>, patch: array2<Rgb>, token: Token) returns (cancelled: bool)
      requires canvas.Area? && Captures(picker, patch)
      modifies pen
      ensures var run := BatchesFrom(Selected(), old(pen.Position()), allBatches, 0, patch, |old(pen.trace)|, token);
        pen.trace == old(pen.trace) + run.actions && cancelled == run.cancelled
    {
      ghost var goal := BatchesFrom(Selected(), pen.Position(), allBatches, 0, patch, |pen.trace|, token);
      ghost var start := pen.trace;
      var i := 0;
      while i < |allBatches|
        invariant 0 <= i <= |allBatches|
        invariant var rest := BatchesFrom(Selected(), pen.Position(), allBatches, i, patch, |pen.trace|, token);
          start + goal.actions == pen.trace + rest.actions && goal.cancelled == rest.cancelled
      {
        cancelled := ExecuteBatch(allBatches, i, patch, token);
        if cancelled {
          return;
        }
        i := i + 1;
      }
      cancelled := false;
    }

    /** One pass of the execution loop: the colour of batch i, if it has one, then its paths. */
    method ExecuteBatch(bs: seq<Batch>, i: nat, patch: array2<Rgb>, token: Token) returns (cancelled: bool)
      requires canvas.Area? && Captures(picker, patch) && i < |bs|
      modifies pen
      ensures var now := BatchesFrom(Selected(), old(pen.Position()), bs, i, patch, |old(pen.trace)|, token);
        var rest := BatchesFrom(Selected(), pen.Position(), bs, i + 1, patch, |pen.trace|, token);
        if cancelled then pen.trace == old(pen.trace) + now.actions && now.cancelled
        else old(pen.trace) + now.actions == pen.trace + rest.actions && now.cancelled == rest.cancelled
    {
      ghost var before := pen.trace;
      ghost var picked: seq<Action> := [];
      var b := bs[i];
      if b.color.Some? {
        cancelled := PickColor(b.color.value, patch, token);
        if cancelled {
          ColourCancelled(Selected(), CursorAfter(pen.origin, before), bs, i, patch, |before|, token, Outcome(pen.trace[|before|..], true));
          return;
        }
        picked := pen.trace[|before|..];
      }
      assert pen.trace == before + picked;
      ghost var mid := pen.trace;
      cancelled := DrawBatch(b.paths, DrawStep, DrawInterval, token);
      PassStep(Selected(), pen.origin, before, picked, Outcome(pen.trace[|mid|..], cancelled), bs, i, patch, token);
    }

    /** DrawBatch(paths, stepSize, sleepInterval, token). */
    method DrawBatch(paths: seq<Path>, stepSize: real, sleepInterval: int, token: Token) returns (cancelled: bool)
      requires canvas.Area? && stepSize > 0.0
      modifies pen
      ensures var o := DrawBatchActions(canvas, old(pen.Position()), paths, stepSize, sleepInterval, |old(pen.trace)|, token);
        pen.trace == old(pen.trace) + o.actions && cancelled == o.cancelled
    {
      if |paths| == 0 {
        return false;
      }
      ghost var start := pen.trace;
      ghost var goal := StrokesFrom(pen.Position(), paths, 0, canvas.x, canvas.y, stepSize, sleepInterval, |pen.trace|, token);
      var i := 0;
      while i < |paths|
        invariant 0 <= i <= |paths|
        invariant var rest := StrokesFrom(pen.Position(), paths, i, canvas.x, canvas.y, stepSize, sleepInterval, |pen.trace|, token);
          start + goal.actions == pen.trace + rest.actions && goal.cancelled == rest.cancelled
      {
        if Requested(token, |pen.trace|) {
          return true;
        }
        DrawPath(paths, i, stepSize, sleepInterval, token);
        i := i + 1;
      }
      return false;
    }

    /** One pass of the stroke loop of DrawBatch: path i drawn at the canvas offset. */
    method DrawPath(paths: seq<Path>, i: nat, stepSize: real, sleepInterval: int, token: Token)
      requires canvas.Area? && stepSize > 0.0 && i < |paths| && !Requested(token, |pen.trace|)
      modifies pen
      ensures var now := StrokesFrom(old(pen.Position()), paths, i, canvas.x, canvas.y, stepSize, sleepInterval, |old(pen.trace)|, token);
        var rest := StrokesFrom(pen.Position(), paths, i + 1, canvas.x, canvas.y, stepSize, sleepInterval, |pen.trace|, token);
        old(pen.trace) + now.actions == pen.trace + rest.actions && now.cancelled == rest.cancelled
    {
      ghost var before := pen.trace;
      var absPath := Shift(paths[i], canvas.x, canvas.y);
      pen.DrawStroke(absPath, stepSize, sleepInterval, token);
      StrokeStep(pen.origin, before, pen.trace[|before|..], paths, i, canvas.x, canvas.y, stepSize, sleepInterval, token);
    }

    /** PickColor(target, token), with patch the screen capture of the picker. */
    method PickColor(target: Rgb, patch: array2<Rgb>, token: Token) returns (cancelled: bool)
      requires Captures(picker, patch)
      modifies pen
      ensures var o := PickActions(Selected(), patch, target, |old(pen.trace)|, token);
        pen.trace == old(pen.trace) + o.actions && cancelled == o.cancelled
    {
      if colorButton.Empty? || picker.Empty? {
        return false;
      }
      ghost var before := pen.trace;
      if Requested(token, |pen.trace|) {
        return true;
      }
      OpenPalette();
      if Requested(token, |pen.trace|) {
        return true;
      }
      ghost var shown := pen.trace;
      ChooseSample(target, patch);
      if closePicker.Area? {
        if Requested(token, |pen.trace|) {
          return true;
        }
        ghost var chosen := pen.trace;
        ClosePalette();
        Append2(before, Opening(colorButton), Choosing(BestPoint(picker, patch, target)));
        Append2(before, Opening(colorButton) + Choosing(BestPoint(picker, patch, target)), Closing(closePicker));
      } else {
        Append2(before, Opening(colorButton), Choosing(BestPoint(picker, patch, target)));
      }
      return false;
    }

    /** The opening lines of PickColor: click the colour button and wait for the palette. */
    method OpenPalette()
      requires colorButton.Area?
      modifies pen
      ensures pen.trace == old(pen.trace) + Opening(colorButton)
    {
      pen.Click(Centre(colorButton));
      pen.Emit(Sleep(800));
    }

    /** The choice in PickColor: park the cursor, search the capture for the sample closest
        to target, and click it. */
    method ChooseSample(target: Rgb, patch: array2<Rgb>)
      requires picker.Area? && Captures(picker, patch)
      modifies pen
      ensures pen.trace == old(pen.trace) + Choosing(BestPoint(picker, patch, target))
    {
      ghost var before := pen.trace;
      pen.Emit(SetCursor(Point(0, 0)));
      pen.Emit(Sleep(50));
      var best := FindBestMatch(patch, target, Point(picker.x, picker.y));
      pen.Click(best);
      pen.Emit(Sleep(150));
      Regroup(before, [SetCursor(Point(0, 0)), Sleep(50)], ClickActions(best), [Sleep(150)]);
    }

    /** The closing lines of PickColor: click the close region and wait. */
    method ClosePalette()
      requires closePicker.Area?
      modifies pen
      ensures pen.trace == old(pen.trace) + Closing(closePicker)
    {
      pen.Click(Centre(closePicker));
      pen.Emit(Sleep(500));
    }
  }
}
