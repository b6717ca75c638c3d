/** The promises of the three vectoriser modes, stated on the pixel buffers they read. */
module ModeProperties {
  import opened Basics
  import opened ColorModel
  import opened RunModel
  import opened Grouping
  import opened ImageProcessor
  import opened ScanProperties
  import opened ColouredScan

  // ---------------------------------------------------------------------------
  // Binary fill

  /** p spans a stretch of black samples (below 128) of an even row of g that has no black
      sample on either side. */
  ghost predicate DarkRun(g: seq<seq<Byte>>, p: Path)
  {
    && |p| == 2 && p[0].y == p[1].y
    && 0 <= p[0].y < |g| && p[0].y % 2 == 0
    && 0 <= p[0].x <= p[1].x < |g[p[0].y]|
    && (forall x :: p[0].x <= x <= p[1].x ==> g[p[0].y][x] < 128)
    && (p[0].x == 0 || g[p[0].y][p[0].x - 1] >= 128)
    && (p[1].x == |g[p[0].y]| - 1 || g[p[0].y][p[1].x + 1] >= 128)
  }

  /** Every binary path is a maximal black stretch of an even row. */
  lemma BinaryPathsAreDarkRuns(g: seq<seq<Byte>>)
    ensures forall i :: 0 <= i < |BinaryPaths(g)| ==> DarkRun(g, BinaryPaths(g)[i])
  {
    var cls := BinaryGrid(g);
    var E := SampledEntries(cls, 0);
    SampledAreSegments(cls, 0);
    forall i | 0 <= i < |E|
      ensures DarkRun(g, E[i].1)
    {
      var p := E[i].1;
      assert IsSegment(cls, 0, E[i].0, p);
      var y := p[0].y;
      assert E[i].0 == ();
      assert IsMaximalRunWithin(cls[y], |cls[y]|, Run(p[0].x, p[1].x, E[i].0));
      forall x | p[0].x <= x <= p[1].x
        ensures g[y][x] < 128
      {
        assert cls[y][x] == Some(E[i].0);
      }
    }
  }

  /** Binary paths come row by row, each row from left to right, without overlap. */
  lemma BinaryPathsOrdered(g: seq<seq<Byte>>)
    ensures forall i, j :: 0 <= i < j < |BinaryPaths(g)| ==> Precedes(BinaryPaths(g)[i], BinaryPaths(g)[j])
  {
    SampledOrdered(BinaryGrid(g), 0);
  }

  /** A sample is covered by a binary path exactly when it is black and on an even row, and
      then by exactly one path. Rows without black samples and odd rows contribute nothing. */
  lemma BinaryCoverage(g: seq<seq<Byte>>, y: nat, x: nat)
    requires y < |g| && x < |g[y]|
    ensures (exists i :: 0 <= i < |BinaryPaths(g)| && Covers(BinaryPaths(g)[i], y, x))
      <==> y % 2 == 0 && g[y][x] < 128
    ensures forall i, j ::
      && 0 <= i < |BinaryPaths(g)| && Covers(BinaryPaths(g)[i], y, x)
      && 0 <= j < |BinaryPaths(g)| && Covers(BinaryPaths(g)[j], y, x)
      ==> i == j
  {
    var cls := BinaryGrid(g);
    var E := SampledEntries(cls, 0);
    var P := BinaryPaths(g);
    SampledCoverage(cls, 0, y, x);
    assert cls[y][x] == BinaryCell(g[y][x]);
    assert forall i :: 0 <= i < |E| ==> P[i] == E[i].1;
    if exists i :: 0 <= i < |P| && Covers(P[i], y, x) {
      var i :| 0 <= i < |P| && Covers(P[i], y, x);
      assert Covers(E[i].1, y, x);
    }
    if y % 2 == 0 && g[y][x] < 128 {
      var i :| 0 <= i < |E| && Covers(E[i].1, y, x);
      assert Covers(P[i], y, x);
    }
  }

  // ---------------------------------------------------------------------------
  // Raster coloured edges

  /** The colour edge mode gives a pixel: each channel darkened to 60 per cent, then
      bucketed down to a multiple of 20. */
  function EdgeColour(px: Vec3b): (c: Rgb)
    ensures c.r % 20 == 0 && c.g % 20 == 0 && c.b % 20 == 0
    ensures c.r <= px.item2 && c.g <= px.item1 && c.b <= px.item0
  {
    Rgb(EdgeChannel(px.item2), EdgeChannel(px.item1), EdgeChannel(px.item0))
  }

  /** Edge mode draws pixel (y, x): the edge map is above 200 there and the pixel is not white. */
  ghost predicate EdgePixel(ge: seq<seq<Byte>>, gc: seq<seq<Vec3b>>, y: int, x: int)
    requires SameShape(ge, gc) && 0 <= y < |ge| && 0 <= x < |ge[y]|
  {
    ge[y][x] > 200 && !IsWhite(gc[y][x].item2, gc[y][x].item1, gc[y][x].item0)
  }

  /** Edge mode draws pixel (y, x) in colour c. */
  ghost predicate EdgeDrawn(ge: seq<seq<Byte>>, gc: seq<seq<Vec3b>>, y: int, x: int, c: Rgb)
    requires SameShape(ge, gc) && 0 <= y < |ge| && 0 <= x < |ge[y]|
  {
    EdgePixel(ge, gc, y, x) && EdgeColour(gc[y][x]) == c
  }

  /** p spans a stretch of an even row drawn in colour c, and the pixel on either side, where
      there is one, is not drawn in c: it is not an edge, it is white, or its colour differs. */
  ghost predicate EdgeSegment(ge: seq<seq<Byte>>, gc: seq<seq<Vec3b>>, c: Rgb, p: Path)
    requires SameShape(ge, gc)
  {
    && |p| == 2 && p[0].y == p[1].y
    && 0 <= p[0].y < |ge| && p[0].y % 2 == 0
    && 0 <= p[0].x <= p[1].x < |ge[p[0].y]|
    && (forall x :: p[0].x <= x <= p[1].x ==> EdgeDrawn(ge, gc, p[0].y, x, c))
    && (p[0].x == 0 || !EdgeDrawn(ge, gc, p[0].y, p[0].x - 1, c))
    && (p[1].x == |ge[p[0].y]| - 1 || !EdgeDrawn(ge, gc, p[0].y, p[1].x + 1, c))
  }

  /** The key of an edge pixel is the packed form of its colour. */
  lemma EdgeKeyColour(px: Vec3b)
    ensures 0 <= EdgeKey(px) < 0x100_0000
    ensures Unpack(EdgeKey(px)) == EdgeColour(px)
  {
    UnpackPack(EdgeChannel(px.item2), EdgeChannel(px.item1), EdgeChannel(px.item0));
  }

  lemma EdgeGridPacked(ge: seq<seq<Byte>>, gc: seq<seq<Vec3b>>)
    requires SameShape(ge, gc)
    ensures PackedCells(EdgeGrid(ge, gc))
  {
  }

  lemma EdgePainted(ge: seq<seq<Byte>>, gc: seq<seq<Vec3b>>, y: nat, x: nat, c: Rgb)
    requires SameShape(ge, gc) && y < |ge| && x < |ge[y]|
    ensures Painted(EdgeGrid(ge, gc), y, x, c) <==> EdgeDrawn(ge, gc, y, x, c)
  {
    EdgeKeyColour(gc[y][x]);
  }

  /** A one-colour stretch of the edge-mode grid, stated on the pixels. */
  lemma EdgeSegmentFromColour(ge: seq<seq<Byte>>, gc: seq<seq<Vec3b>>, c: Rgb, p: Path)
    requires SameShape(ge, gc) && ColourSegment(EdgeGrid(ge, gc), c, p)
    ensures EdgeSegment(ge, gc, c, p)
  {
    var y := p[0].y;
    forall x | p[0].x <= x <= p[1].x
      ensures EdgeDrawn(ge, gc, y, x, c)
    {
      EdgePainted(ge, gc, y, x, c);
    }
    if p[0].x > 0 {
      EdgePainted(ge, gc, y, p[0].x - 1, c);
    }
    if p[1].x < |ge[y]| - 1 {
      EdgePainted(ge, gc, y, p[1].x + 1, c);
    }
  }

  /** Every element of the edge-mode result is a maximal one-colour stretch of edge pixels
      of an even row, in that colour. */
  lemma EdgeResultSegments(ge: seq<seq<Byte>>, gc: seq<seq<Vec3b>>)
    requires SameShape(ge, gc)
    ensures forall i :: 0 <= i < |EdgeResult(ge, gc)| ==>
      EdgeSegment(ge, gc, EdgeResult(ge, gc)[i].0, EdgeResult(ge, gc)[i].1)
  {
    var cls := EdgeGrid(ge, gc);
    var R := EdgeResult(ge, gc);
    EdgeGridPacked(ge, gc);
    ColouredSegments(cls);
    forall i | 0 <= i < |R|
      ensures EdgeSegment(ge, gc, R[i].0, R[i].1)
    {
      EdgeSegmentFromColour(ge, gc, R[i].0, R[i].1);
    }
  }

  /** A pixel is covered by the edge-mode result exactly when it is an edge pixel that is not
      white on an even row; it is then covered by exactly one element, of its edge colour. */
  lemma EdgeResultCoverage(ge: seq<seq<Byte>>, gc: seq<seq<Vec3b>>, y: nat, x: nat)
    requires SameShape(ge, gc) && y < |ge| && x < |ge[y]|
    ensures Covered(EdgeResult(ge, gc), y, x) <==> y % 2 == 0 && EdgePixel(ge, gc, y, x)
    ensures forall i :: 0 <= i < |EdgeResult(ge, gc)| && Covers(EdgeResult(ge, gc)[i].1, y, x) ==>
      EdgeResult(ge, gc)[i].0 == EdgeColour(gc[y][x])
    ensures CoveredAtMostOnce(EdgeResult(ge, gc), y, x)
  {
    var cls := EdgeGrid(ge, gc);
    var R := EdgeResult(ge, gc);
    EdgeGridPacked(ge, gc);
    ColouredGridCoverage(cls, y, x);
    EdgeKeyColour(gc[y][x]);
    forall i | 0 <= i < |R| && Covers(R[i].1, y, x)
      ensures R[i].0 == EdgeColour(gc[y][x])
    {
      assert Painted(cls, y, x, R[i].0);
    }
  }

  /** Edge mode returns the segments it finds, in row-major order, recoloured and grouped by
      colour in order of first appearance. */
  lemma EdgeResultGrouped(ge: seq<seq<Byte>>, gc: seq<seq<Vec3b>>)
    requires SameShape(ge, gc)
    ensures EdgeResult(ge, gc) == Ungroup(GroupBy(Recoloured(EdgeEntries(ge, gc))))
    ensures forall i, j :: 0 <= i < j < |EdgeEntries(ge, gc)| ==>
      Precedes(EdgeEntries(ge, gc)[i].1, EdgeEntries(ge, gc)[j].1)
  {
    EdgeGridPacked(ge, gc);
    SampledKeysPacked(EdgeGrid(ge, gc));
    ColoredResultGroups(EdgeEntries(ge, gc));
    SampledOrdered(EdgeGrid(ge, gc), 0);
  }

  // ---------------------------------------------------------------------------
  // Quantised blocks

  /** The colour block mode gives a pixel: each channel bucketed down to a multiple of 42. */
  function BlockColour(px: Vec3b): (c: Rgb)
    ensures c.r % 42 == 0 && c.g % 42 == 0 && c.b % 42 == 0
    ensures c.r <= px.item2 && c.g <= px.item1 && c.b <= px.item0
    ensures c.r <= 252 && c.g <= 252 && c.b <= 252
  {
    Rgb(BlockChannel(px.item2), BlockChannel(px.item1), BlockChannel(px.item0))
  }

  lemma BlockKeyColour(px: Vec3b)
    ensures 0 <= BlockKey(px) < 0x100_0000
    ensures Unpack(BlockKey(px)) == BlockColour(px)
  {
    UnpackPack(BlockChannel(px.item2), BlockChannel(px.item1), BlockChannel(px.item0));
  }

  lemma BlockGridPacked(gc: seq<seq<Vec3b>>)
    ensures PackedCells(BlockGrid(gc))
  {
  }

  /** Block mode draws pixel (y, x) in colour c: it is not white and c is its colour. */
  ghost predicate BlockDrawn(gc: seq<seq<Vec3b>>, y: int, x: int, c: Rgb)
    requires 0 <= y < |gc| && 0 <= x < |gc[y]|
  {
    !IsWhite(gc[y][x].item2, gc[y][x].item1, gc[y][x].item0) && BlockColour(gc[y][x]) == c
  }

  ghost predicate BlockSegment(gc: seq<seq<Vec3b>>, c: Rgb, p: Path)
  {
    && |p| == 2 && p[0].y == p[1].y
    && 0 <= p[0].y < |gc| && p[0].y % 2 == 0
    && 0 <= p[0].x <= p[1].x < |gc[p[0].y]|
    && (forall x :: p[0].x <= x <= p[1].x ==> BlockDrawn(gc, p[0].y, x, c))
    && (p[0].x == 0 || !BlockDrawn(gc, p[0].y, p[0].x - 1, c))
    && (p[1].x == |gc[p[0].y]| - 1 || !BlockDrawn(gc, p[0].y, p[1].x + 1, c))
  }

  lemma BlockPainted(gc: seq<seq<Vec3b>>, y: nat, x: nat, c: Rgb)
    requires y < |gc| && x < |gc[y]|
    ensures Painted(BlockGrid(gc), y, x, c) <==> BlockDrawn(gc, y, x, c)
  {
    BlockKeyColour(gc[y][x]);
  }

  /** A one-colour stretch of the block-mode grid, stated on the pixels. */
  lemma BlockSegmentFromColour(gc: seq<seq<Vec3b>>, c: Rgb, p: Path)
    requires ColourSegment(BlockGrid(gc), c, p)
    ensures BlockSegment(gc, c, p)
  {
    var y := p[0].y;
    forall x | p[0].x <= x <= p[1].x
      ensures BlockDrawn(gc, y, x, c)
    {
      BlockPainted(gc, y, x, c);
    }
    if p[0].x > 0 {
      BlockPainted(gc, y, p[0].x - 1, c);
    }
    if p[1].x < |gc[y]| - 1 {
      BlockPainted(gc, y, p[1].x + 1, c);
    }
  }

  /** Every element of the block-mode result is a maximal one-colour stretch of non-white
      pixels of an even row, in that colour. */
  lemma BlockResultSegments(gc: seq<seq<Vec3b>>)
    ensures forall i :: 0 <= i < |BlockResult(gc)| ==> BlockSegment(gc, BlockResult(gc)[i].0, BlockResult(gc)[i].1)
  {
    var cls := BlockGrid(gc);
    var R := BlockResult(gc);
    BlockGridPacked(gc);
    ColouredSegments(cls);
    forall i | 0 <= i < |R|
      ensures BlockSegment(gc, R[i].0, R[i].1)
    {
      BlockSegmentFromColour(gc, R[i].0, R[i].1);
    }
  }

  /** Every non-white pixel of an even row is covered by exactly one element of the
      block-mode result, of its block colour, and no other pixel is covered. */
  lemma BlockResultCoverage(gc: seq<seq<Vec3b>>, y: nat, x: nat)
    requires y < |gc| && x < |gc[y]|
    ensures Covered(BlockResult(gc), y, x) <==>
      y % 2 == 0 && !IsWhite(gc[y][x].item2, gc[y][x].item1, gc[y][x].item0)
    ensures forall i :: 0 <= i < |BlockResult(gc)| && Covers(BlockResult(gc)[i].1, y, x) ==>
      BlockResult(gc)[i].0 == BlockColour(gc[y][x])
    ensures CoveredAtMostOnce(BlockResult(gc), y, x)
  {
    var cls := BlockGrid(gc);
    var R := BlockResult(gc);
    BlockGridPacked(gc);
    ColouredGridCoverage(cls, y, x);
    BlockKeyColour(gc[y][x]);
    forall i | 0 <= i < |R| && Covers(R[i].1, y, x)
      ensures R[i].0 == BlockColour(gc[y][x])
    {
      assert Painted(cls, y, x, R[i].0);
    }
  }

  /** Block mode returns the segments it finds, in row-major order, recoloured and grouped by
      colour in order of first appearance. */
  lemma BlockResultGrouped(gc: seq<seq<Vec3b>>)
    ensures BlockResult(gc) == Ungroup(GroupBy(Recoloured(BlockEntries(gc))))
    ensures forall i, j :: 0 <= i < j < |BlockEntries(gc)| ==>
      Precedes(BlockEntries(gc)[i].1, BlockEntries(gc)[j].1)
  {
    BlockGridPacked(gc);
    SampledKeysPacked(BlockGrid(gc));
    ColoredResultGroups(BlockEntries(gc));
    SampledOrdered(BlockGrid(gc), 0);
  }
}
