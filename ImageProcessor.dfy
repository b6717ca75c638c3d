/** The vectoriser: turns an image, already resized and filtered, into horizontal strokes.
    Every scan samples rows 0, 2, 4, ... and emits one two-point path per maximal stretch
    of foreground cells in a row. The three modes differ only in what counts as
    foreground and in the colour key a foreground cell carries. */
module ImageProcessor {
  import opened Basics
  import opened ColorModel
  import opened RunModel
  import opened Grouping

  // ---------------------------------------------------------------------------
  // Classification of cells, one function per mode

  /** Binary mode: a thresholded sample below 128 is ink. */
  function BinaryCell(v: Byte): Option<()>
  {
    if v < 128 then Some(()) else None
  }

  /** Edge mode: an edge-map value above 200 on a pixel that is not white is drawn, in the
      darkened and bucketed colour of the pixel, the BGR sample read as red = item2,
      green = item1, blue = item0 (EdgeKeyColour states that the key decodes to it). */
  function EdgeCell(e: Byte, px: Vec3b): Option<int>
  {
    if e <= 200 then None
    else if IsWhite(px.item2, px.item1, px.item0) then None
    else Some(EdgeKey(px))
  }

  /** Block mode: every pixel that is not white is drawn, in its bucketed colour
      (BlockKeyColour states that the key decodes to it). */
  function BlockCell(px: Vec3b): Option<int>
  {
    if IsWhite(px.item2, px.item1, px.item0) then None else Some(BlockKey(px))
  }

  function BinaryGrid(g: seq<seq<Byte>>): (cls: seq<seq<Option<()>>>)
    ensures |cls| == |g|
    ensures forall y :: 0 <= y < |g| ==> |cls[y]| == |g[y]|
  {
    seq(|g|, y requires 0 <= y < |g| =>
      seq(|g[y]|, x requires 0 <= x < |g[y]| => BinaryCell(g[y][x])))
  }

  /** Both buffers have the same rows and columns, as an edge map computed from the image has. */
  ghost predicate SameShape<S, T>(a: seq<seq<S>>, b: seq<seq<T>>)
  {
    |a| == |b| && forall y :: 0 <= y < |a| ==> |a[y]| == |b[y]|
  }

  function EdgeGrid(ge: seq<seq<Byte>>, gc: seq<seq<Vec3b>>): (cls: seq<seq<Option<int>>>)
    requires SameShape(ge, gc)
    ensures SameShape(cls, ge)
  {
    seq(|ge|, y requires 0 <= y < |ge| =>
      seq(|ge[y]|, x requires 0 <= x < |ge[y]| => EdgeCell(ge[y][x], gc[y][x])))
  }

  function BlockGrid(gc: seq<seq<Vec3b>>): (cls: seq<seq<Option<int>>>)
    ensures SameShape(cls, gc)
  {
    seq(|gc|, y requires 0 <= y < |gc| =>
      seq(|gc[y]|, x requires 0 <= x < |gc[y]| => BlockCell(gc[y][x])))
  }

  // ---------------------------------------------------------------------------
  // What a scan produces

  /** The keyed path of one run on row y. */
  function Entry<K>(r: Run<K>, y: int): (K, Path)
  {
    (r.key, HLine(r.start, y, r.end))
  }

  function RowEntries<K>(runs: seq<Run<K>>, y: int): seq<(K, Path)>
  {
    if runs == [] then [] else RowEntries(runs[..|runs| - 1], y) + [Entry(runs[|runs| - 1], y)]
  }

  /** The keyed paths of sampled rows y, y + 2, y + 4, ..., row after row, each row's
      maximal runs from left to right. */
  function SampledEntries<K(==)>(cls: seq<seq<Option<K>>>, y: nat): seq<(K, Path)>
    decreases |cls| - y
  {
    if y >= |cls| then [] else RowEntries(Runs(cls[y]), y) + SampledEntries(cls, y + 2)
  }

  function Seconds<K>(E: seq<(K, Path)>): seq<Path>
  {
    seq(|E|, i requires 0 <= i < |E| => E[i].1)
  }

  /** Groups keyed by packed colour, recoloured by unpacking the key. */
  function UnpackKeys(G: seq<(int, seq<Path>)>): seq<(Rgb, seq<Path>)>
  {
    seq(|G|, i requires 0 <= i < |G| => (Unpack(G[i].0), G[i].1))
  }

  /** The list a colour mode returns for the segments E, in the order they were found:
      grouped by key in order of first appearance, each group in order. */
  function ColoredResult(E: seq<(int, Path)>): seq<(Rgb, Path)>
  {
    Ungroup(UnpackKeys(GroupBy(E)))
  }

  /** The paths binary mode finds in the thresholded samples g. */
  function BinaryPaths(g: seq<seq<Byte>>): seq<Path>
  {
    Seconds(SampledEntries(BinaryGrid(g), 0))
  }

  /** The keyed segments edge mode hands to the colour map, in the order it finds them. */
  function EdgeEntries(ge: seq<seq<Byte>>, gc: seq<seq<Vec3b>>): seq<(int, Path)>
    requires SameShape(ge, gc)
  {
    SampledEntries(EdgeGrid(ge, gc), 0)
  }

  function EdgeResult(ge: seq<seq<Byte>>, gc: seq<seq<Vec3b>>): seq<(Rgb, Path)>
    requires SameShape(ge, gc)
  {
    ColoredResult(EdgeEntries(ge, gc))
  }

  /** The keyed segments block mode hands to the colour map, in the order it finds them. */
  function BlockEntries(gc: seq<seq<Vec3b>>): seq<(int, Path)>
  {
    SampledEntries(BlockGrid(gc), 0)
  }

  function BlockResult(gc: seq<seq<Vec3b>>): seq<(Rgb, Path)>
  {
    ColoredResult(BlockEntries(gc))
  }

  lemma RowEntriesSnoc<K>(P: seq<Run<K>>, y: int)
    requires P != []
    ensures RowEntries(P[..|P| - 1], y) + [Entry(P[|P| - 1], y)] == RowEntries(P, y)
  {
  }

  /** The paths of a row's runs, without their keys. */
  function RowPaths<K>(runs: seq<Run<K>>, y: int): seq<Path>
  {
    if runs == [] then []
    else RowPaths(runs[..|runs| - 1], y) + [HLine(runs[|runs| - 1].start, y, runs[|runs| - 1].end)]
  }

  lemma RowPathsAppend<K>(Closed: seq<Run<K>>, r: Run<K>, y: int)
    ensures RowPaths(Closed + [r], y) == RowPaths(Closed, y) + [HLine(r.start, y, r.end)]
  {
    assert (Closed + [r])[..|Closed|] == Closed;
  }

  lemma RowPathsAreSeconds<K>(P: seq<Run<K>>, y: int)
    ensures RowPaths(P, y) == Seconds(RowEntries(P, y))
  {
    if P != [] {
      RowPathsAreSeconds(P[..|P| - 1], y);
      RowEntriesSnoc(P, y);
      SecondsSnoc(RowEntries(P[..|P| - 1], y), Entry(P[|P| - 1], y));
    }
  }

  lemma SecondsAppend<K>(A: seq<(K, Path)>, B: seq<(K, Path)>)
    ensures Seconds(A + B) == Seconds(A) + Seconds(B)
  {
  }

  lemma SecondsSnoc<K>(E: seq<(K, Path)>, e: (K, Path))
    ensures Seconds(E + [e]) == Seconds(E) + [e.1]
  {
  }

  /** Emitting the run just closed extends the emitted entries by that run's entry. */
  lemma CloseEntry<K>(E: seq<(K, Path)>, Closed: seq<Run<K>>, r: Run<K>, y: int)
    ensures E + RowEntries(Closed + [r], y) == (E + RowEntries(Closed, y)) + [(r.key, HLine(r.start, y, r.end))]
  {
    var C := Closed + [r];
    assert C[..|C| - 1] == Closed;
    RowEntriesSnoc(C, y);
  }

  /** The closing of a row scan: the runs found are the row's maximal runs, and the row's
      entries follow those of the earlier rows. */
  lemma FinishRow<K>(cls: seq<seq<Option<K>>>, y: nat, P: seq<Run<K>>, E0: seq<(K, Path)>, E: seq<(K, Path)>)
    requires y < |cls|
    requires MaximalRuns(cls[y], P)
    requires E0 + SampledEntries(cls, y) == SampledEntries(cls, 0)
    requires E == E0 + RowEntries(P, y)
    ensures E + SampledEntries(cls, y + 2) == SampledEntries(cls, 0)
  {
    MaximalRunsAreRuns(cls[y], P);
    SampledRow(cls, y);
    Associative(E0, RowEntries(P, y), SampledEntries(cls, y + 2));
  }

  lemma SampledRow<K>(cls: seq<seq<Option<K>>>, y: nat)
    requires y < |cls|
    ensures SampledEntries(cls, y) == RowEntries(Runs(cls[y]), y) + SampledEntries(cls, y + 2)
  {
  }

  lemma Associative<T>(A: seq<T>, B: seq<T>, C: seq<T>)
    ensures A + (B + C) == (A + B) + C
  {
  }

  // ---------------------------------------------------------------------------
  // Binary mode

  lemma BinaryGridRow(img: array2<Byte>, y: int)
    requires 0 <= y < img.Length0
    ensures |BinaryGrid(Grid(img))[y]| == img.Length1
    ensures forall x :: 0 <= x < img.Length1 ==> BinaryGrid(Grid(img))[y][x] == BinaryCell(img[y, x])
  {
  }

  /** GetBinaryPaths, from the thresholded grayscale image on: one path per maximal
      stretch of dark samples on every second row. */
  method GetBinaryPaths(img: array2<Byte>) returns (paths: seq<Path>)
    ensures paths == BinaryPaths(Grid(img))
  {
    ghost var cls := BinaryGrid(Grid(img));
    ghost var E: seq<((), Path)> := [];
    paths := [];
    var y := 0;
    while y < img.Length0
      invariant 0 <= y
      invariant paths == Seconds(E)
      invariant E + SampledEntries(cls, y) == SampledEntries(cls, 0)
    {
      ghost var P;
      var rowPaths;
      BinaryGridRow(img, y);
      rowPaths, P := ScanBinaryRow(img, y, cls[y]);
      FinishRow(cls, y, P, E, E + RowEntries(P, y));
      SecondsAppend(E, RowEntries(P, y));
      RowPathsAreSeconds(P, y);
      E := E + RowEntries(P, y);
      paths := paths + rowPaths;
      y := y + 2;
    }
  }

  /** One row of GetBinaryPaths: the scan keeps whether a dark stretch is open and where it
      started, and emits it when a light sample or the row's end closes it. P are the
      maximal runs of the row; the paths emitted are theirs, in order. */
  method ScanBinaryRow(img: array2<Byte>, y: int, ghost row: seq<Option<()>>) returns (paths: seq<Path>, ghost P: seq<Run<()>>)
    requires 0 <= y < img.Length0
    requires |row| == img.Length1 && forall x :: 0 <= x < |row| ==> row[x] == BinaryCell(img[y, x])
    ensures MaximalRuns(row, P)
    ensures paths == RowPaths(P, y)
  {
    ghost var Closed: seq<Run<()>> := [];
    P := [];
    paths := [];
    var isDrawing := false;
    var startX := 0;
    ScanStart(row, startX);
    var x := 0;
    while x < img.Length1
      invariant x <= img.Length1 == |row|
      invariant Scanned(row, x, P, isDrawing, startX, Closed)
      invariant paths == RowPaths(Closed, y)
    {
      isDrawing, startX, paths, P, Closed := ScanBinaryPixel(img, y, x, row, isDrawing, startX, paths, P, Closed);
      x := x + 1;
    }
    ScanEnd(row, P, isDrawing, startX, Closed);
    if isDrawing {
      RowPathsAppend(Closed, Run(startX, img.Length1 - 1, ()), y);
      paths := paths + [HLine(startX, y, img.Length1 - 1)];
    }
  }

  /** One sample of the binary scan: a dark sample opens a stretch unless one is open, a light
      one closes the open stretch and emits its path. */
  method ScanBinaryPixel(img: array2<Byte>, y: int, x: nat, ghost row: seq<Option<()>>,
                         isDrawing: bool, startX: int, paths: seq<Path>, ghost P: seq<Run<()>>, ghost Closed: seq<Run<()>>)
    returns (drawing': bool, startX': int, paths': seq<Path>, ghost P': seq<Run<()>>, ghost Closed': seq<Run<()>>)
    requires 0 <= y < img.Length0 && x < img.Length1 == |row|
    requires row[x] == BinaryCell(img[y, x])
    requires Scanned(row, x, P, isDrawing, startX, Closed)
    requires paths == RowPaths(Closed, y)
    ensures Scanned(row, x + 1, P', drawing', startX', Closed')
    ensures paths' == RowPaths(Closed', y)
  {
    drawing', startX', paths', P', Closed' := isDrawing, startX, paths, P, Closed;
    var isBlack := img[y, x] < 128;
    if isBlack {
      if !isDrawing {
        ScanNew(row, x, P, isDrawing, startX, Closed, ());
        startX', drawing', Closed' := x, true, P;
      } else {
        assert P[|P| - 1].key == ();
        ScanSame(row, x, P, startX, Closed, ());
      }
      P' := Advance(P, x, row[x]);
    } else {
      ScanBackground(row, x, P, isDrawing, startX, Closed);
      if isDrawing {
        RowPathsAppend(Closed, Run(startX, x - 1, ()), y);
        paths' := paths + [HLine(startX, y, x - 1)];
        drawing' := false;
      }
      Closed' := P;
    }
  }

  // ---------------------------------------------------------------------------
  // The colour map of the colour modes

  /** The Dictionary<int, List<List<Point>>> the colour modes collect segments in. Keys are
      never removed, so enumerating it follows insertion order, which keys records. */
  class ColorMap {
    var keys: seq<int>
    var lists: map<int, seq<Path>>

    constructor ()
      ensures keys == [] && lists == map[]
    {
      keys := [];
      lists := map[];
    }

    /** The map holds the segments E grouped by key. */
    ghost predicate Holds(E: seq<(int, Path)>)
      reads this
    {
      Groups(keys, lists, E)
    }
  }

  /** keys are the distinct keys of E in order of first appearance, and each key's list
      holds that key's paths in order. */
  ghost predicate Groups(keys: seq<int>, lists: map<int, seq<Path>>, E: seq<(int, Path)>)
  {
    && keys == FirstKeys(E)
    && (forall k :: k in lists <==> k in keys)
    && (forall k :: k in lists ==> lists[k] == ValuesOf(E, k))
  }

  /** AddSegment: appends the path startX..endX on row y to the list of rgb, creating the
      list first when rgb is new. */
  method AddSegment(map_: ColorMap, rgb: int, startX: int, y: int, endX: int)
    modifies map_
    ensures map_.keys == if rgb in old(map_.lists) then old(map_.keys) else old(map_.keys) + [rgb]
    ensures map_.lists == old(map_.lists)[rgb :=
      (if rgb in old(map_.lists) then old(map_.lists)[rgb] else []) + [HLine(startX, y, endX)]]
  {
    if rgb !in map_.lists {
      map_.lists := map_.lists[rgb := []];
      map_.keys := map_.keys + [rgb];
    }
    map_.lists := map_.lists[rgb := map_.lists[rgb] + [HLine(startX, y, endX)]];
  }

  /** AddSegment keeps the map equal to the grouping of every segment added so far. */
  lemma AddSegmentGroups(keys: seq<int>, lists: map<int, seq<Path>>, E: seq<(int, Path)>, rgb: int, p: Path)
    requires Groups(keys, lists, E)
    ensures Groups(if rgb in lists then keys else keys + [rgb],
                   lists[rgb := (if rgb in lists then lists[rgb] else []) + [p]],
                   E + [(rgb, p)])
  {
    if rgb in lists {
      AddToGroup(keys, lists, E, rgb, p);
    } else {
      assert [] + [p] == [p];
      AddNewGroup(keys, lists, E, rgb, p);
    }
  }

  /** A segment of a colour already in the map joins the end of its list. */
  lemma AddToGroup(keys: seq<int>, lists: map<int, seq<Path>>, E: seq<(int, Path)>, rgb: int, p: Path)
    requires Groups(keys, lists, E) && rgb in lists
    ensures Groups(keys, lists[rgb := lists[rgb] + [p]], E + [(rgb, p)])
  {
    var E1 := E + [(rgb, p)];
    assert E1[..|E1| - 1] == E;
    forall k | k in lists
      ensures ValuesOf(E1, k) == ValuesOf(E, k) + (if k == rgb then [p] else [])
    {
      ValuesOfSnoc(E, (rgb, p), k);
    }
  }

  /** A segment of a new colour opens a list of its own, after every existing key. */
  lemma AddNewGroup(keys: seq<int>, lists: map<int, seq<Path>>, E: seq<(int, Path)>, rgb: int, p: Path)
    requires Groups(keys, lists, E) && rgb !in lists
    ensures Groups(keys + [rgb], lists[rgb := [p]], E + [(rgb, p)])
  {
    var E1 := E + [(rgb, p)];
    assert E1[..|E1| - 1] == E;
    forall i | 0 <= i < |E|
      ensures E[i].0 != rgb
    {
      assert E[i].0 in keys;
    }
    ValuesOfAbsent(E, rgb);
    forall k | k in lists || k == rgb
      ensures ValuesOf(E1, k) == ValuesOf(E, k) + (if k == rgb then [p] else [])
    {
      ValuesOfSnoc(E, (rgb, p), k);
    }
  }

  /** Step 4 of both colour modes: every (key, list) pair of the map in enumeration order,
      every path of the list in order, tagged with the colour the key packs. */
  method ConvertResult(m: ColorMap, ghost E: seq<(int, Path)>) returns (result: seq<(Rgb, Path)>)
    requires m.Holds(E)
    ensures result == ColoredResult(E)
  {
    ghost var G := UnpackKeys(GroupBy(E));
    result := [];
    var i := 0;
    while i < |m.keys|
      invariant 0 <= i <= |m.keys| == |G|
      invariant result == Ungroup(G[..i])
    {
      var key := m.keys[i];
      var c := Unpack(key);
      var ps := m.lists[key];
      assert G[i] == (c, ps);
      var j := 0;
      while j < |ps|
        invariant 0 <= j <= |ps|
        invariant result == Ungroup(G[..i]) + Tag(c, ps[..j])
      {
        assert Tag(c, ps[..j + 1]) == Tag(c, ps[..j]) + [(c, ps[j])];
        result := result + [(c, ps[j])];
        j := j + 1;
      }
      assert ps[..j] == ps;
      assert G[..i + 1] == G[..i] + [G[i]];
      UngroupAppend(G[..i], [G[i]]);
      UngroupSingle(c, ps);
      i := i + 1;
    }
    assert G[..i] == G;
  }

  // ---------------------------------------------------------------------------
  // Edge mode

  lemma EdgeGridRow(edges: array2<Byte>, colors: array2<Vec3b>, y: int)
    requires edges.Length0 == colors.Length0 && edges.Length1 == colors.Length1
    requires 0 <= y < edges.Length0
    ensures |EdgeGrid(Grid(edges), Grid(colors))[y]| == edges.Length1
    ensures forall x :: 0 <= x < edges.Length1 ==>
      EdgeGrid(Grid(edges), Grid(colors))[y][x] == EdgeCell(edges[y, x], colors[y, x])
  {
  }

  /** GetRasterColoredEdges, from the resized colour image and its Canny edge map on. */
  method GetRasterColoredEdges(edges: array2<Byte>, colors: array2<Vec3b>) returns (result: seq<(Rgb, Path)>)
    requires edges.Length0 == colors.Length0 && edges.Length1 == colors.Length1
    ensures result == EdgeResult(Grid(edges), Grid(colors))
  {
    ghost var cls := EdgeGrid(Grid(edges), Grid(colors));
    ghost var E: seq<(int, Path)> := [];
    var colorMap := new ColorMap();
    var y := 0;
    while y < edges.Length0
      invariant 0 <= y
      invariant colorMap.Holds(E)
      invariant E + SampledEntries(cls, y) == SampledEntries(cls, 0)
    {
      EdgeGridRow(edges, colors, y);
      ghost var P := ScanEdgeRow(edges, colors, y, colorMap, cls[y], E);
      FinishRow(cls, y, P, E, E + RowEntries(P, y));
      E := E + RowEntries(P, y);
      y := y + 2;
    }
    assert E == SampledEntries(cls, 0);
    result := ConvertResult(colorMap, E);
    assert cls == EdgeGrid(Grid(edges), Grid(colors));
  }

  /** One row of GetRasterColoredEdges: the scan keeps the key of the open segment (-1 when
      none is open) and where it started; a cell off the edge map, a white pixel or a change
      of key closes it, and so does the row's end. Every segment goes to the colour map. */
  method ScanEdgeRow(edges: array2<Byte>, colors: array2<Vec3b>, y: int, colorMap: ColorMap,
                     ghost row: seq<Option<int>>, ghost E: seq<(int, Path)>) returns (ghost P: seq<Run<int>>)
    requires edges.Length0 == colors.Length0 && edges.Length1 == colors.Length1
    requires 0 <= y < edges.Length0
    requires |row| == edges.Length1
    requires forall x :: 0 <= x < |row| ==> row[x] == EdgeCell(edges[y, x], colors[y, x])
    requires colorMap.Holds(E)
    modifies colorMap
    ensures MaximalRuns(row, P)
    ensures colorMap.Holds(E + RowEntries(P, y))
  {
    ghost var Closed: seq<Run<int>> := [];
    P := [];
    assert E + RowEntries(Closed, y) == E;
    var currentRGB := -1;
    var startX := -1;
    ghost var isOpen := false;
    ScanStart(row, startX);
    var x := 0;
    while x < edges.Length1
      invariant x <= edges.Length1
      invariant Scanned(row, x, P, isOpen, startX, Closed)
      invariant isOpen == (currentRGB != -1)
      invariant isOpen ==> P != [] && P[|P| - 1].key == currentRGB
      invariant colorMap.Holds(E + RowEntries(Closed, y))
    {
      currentRGB, startX, P, isOpen, Closed := ScanEdgePixel(edges, colors, y, x, colorMap, row, E, currentRGB, startX, P, isOpen, Closed);
      x := x + 1;
    }
    ScanEnd(row, P, isOpen, startX, Closed);
    if currentRGB != -1 {
      EmitSegment(colorMap, E, Closed, P, currentRGB, startX, y, edges.Length1 - 1);
    }
  }

  /** One pixel of the edge scan. */
  method ScanEdgePixel(edges: array2<Byte>, colors: array2<Vec3b>, y: int, x: nat, colorMap: ColorMap,
                       ghost row: seq<Option<int>>, ghost E: seq<(int, Path)>,
                       currentRGB: int, startX: int, ghost P: seq<Run<int>>, ghost isOpen: bool, ghost Closed: seq<Run<int>>)
    returns (nextRGB: int, nextStart: int, ghost P': seq<Run<int>>, ghost isOpen': bool, ghost Closed': seq<Run<int>>)
    requires edges.Length0 == colors.Length0 && edges.Length1 == colors.Length1
    requires 0 <= y < edges.Length0 && x < edges.Length1 == |row|
    requires row[x] == EdgeCell(edges[y, x], colors[y, x])
    requires Scanned(row, x, P, isOpen, startX, Closed)
    requires isOpen == (currentRGB != -1)
    requires isOpen ==> P != [] && P[|P| - 1].key == currentRGB
    requires colorMap.Holds(E + RowEntries(Closed, y))
    modifies colorMap
    ensures Scanned(row, x + 1, P', isOpen', nextStart, Closed')
    ensures isOpen' == (nextRGB != -1)
    ensures isOpen' ==> P' != [] && P'[|P'| - 1].key == nextRGB
    ensures colorMap.Holds(E + RowEntries(Closed', y))
  {
    var edgeVal := edges[y, x];
    var isEdge := edgeVal > 200;
    if !isEdge {
      nextRGB := BreakSegment(colorMap, E, row, x, P, isOpen, startX, Closed, currentRGB, y);
      nextStart, P', isOpen', Closed' := startX, P, false, P;
      return;
    }
    var px := colors[y, x];
    if IsWhite(px.item2, px.item1, px.item0) {
      nextRGB := BreakSegment(colorMap, E, row, x, P, isOpen, startX, Closed, currentRGB, y);
      nextStart, P', isOpen', Closed' := startX, P, false, P;
      return;
    }
    // darken each channel, bucket it by 20 and pack the three into one key
    var rgb := EdgeKey(px);
    nextRGB, nextStart, P', Closed' := ColourPixel(colorMap, E, row, x, P, isOpen, startX, Closed, currentRGB, y, rgb);
    isOpen' := true;
  }

  // ---------------------------------------------------------------------------
  // Block mode

  lemma BlockGridRow(colors: array2<Vec3b>, y: int)
    requires 0 <= y < colors.Length0
    ensures |BlockGrid(Grid(colors))[y]| == colors.Length1
    ensures forall x :: 0 <= x < colors.Length1 ==> BlockGrid(Grid(colors))[y][x] == BlockCell(colors[y, x])
  {
  }

  /** GetQuantized256Blocks, from the resized colour image on. */
  method GetQuantized256Blocks(colors: array2<Vec3b>) returns (result: seq<(Rgb, Path)>)
    ensures result == BlockResult(Grid(colors))
  {
    ghost var cls := BlockGrid(Grid(colors));
    ghost var E: seq<(int, Path)> := [];
    var colorMap := new ColorMap();
    var y := 0;
    while y < colors.Length0
      invariant 0 <= y
      invariant colorMap.Holds(E)
      invariant E + SampledEntries(cls, y) == SampledEntries(cls, 0)
    {
      BlockGridRow(colors, y);
      ghost var P := ScanBlockRow(colors, y, colorMap, cls[y], E);
      FinishRow(cls, y, P, E, E + RowEntries(P, y));
      E := E + RowEntries(P, y);
      y := y + 2;
    }
    assert E == SampledEntries(cls, 0);
    result := ConvertResult(colorMap, E);
    assert cls == BlockGrid(Grid(colors));
  }

  /** One row of GetQuantized256Blocks: as in the edge scan, without the edge test. */
  method ScanBlockRow(colors: array2<Vec3b>, y: int, colorMap: ColorMap,
                      ghost row: seq<Option<int>>, ghost E: seq<(int, Path)>) returns (ghost P: seq<Run<int>>)
    requires 0 <= y < colors.Length0
    requires |row| == colors.Length1
    requires forall x :: 0 <= x < |row| ==> row[x] == BlockCell(colors[y, x])
    requires colorMap.Holds(E)
    modifies colorMap
    ensures MaximalRuns(row, P)
    ensures colorMap.Holds(E + RowEntries(P, y))
  {
    ghost var Closed: seq<Run<int>> := [];
    P := [];
    assert E + RowEntries(Closed, y) == E;
    var currentRGB := -1;
    var startX := -1;
    ghost var isOpen := false;
    ScanStart(row, startX);
    var x := 0;
    while x < colors.Length1
      invariant x <= colors.Length1
      invariant Scanned(row, x, P, isOpen, startX, Closed)
      invariant isOpen == (currentRGB != -1)
      invariant isOpen ==> P != [] && P[|P| - 1].key == currentRGB
      invariant colorMap.Holds(E + RowEntries(Closed, y))
    {
      currentRGB, startX, P, isOpen, Closed := ScanBlockPixel(colors, y, x, colorMap, row, E, currentRGB, startX, P, isOpen, Closed);
      x := x + 1;
    }
    ScanEnd(row, P, isOpen, startX, Closed);
    if currentRGB != -1 {
      EmitSegment(colorMap, E, Closed, P, currentRGB, startX, y, colors.Length1 - 1);
    }
  }

  /** One pixel of the block scan: a white pixel closes the open segment, any other pixel
      continues it or starts a new one. */
  method ScanBlockPixel(colors: array2<Vec3b>, y: int, x: nat, colorMap: ColorMap,
                        ghost row: seq<Option<int>>, ghost E: seq<(int, Path)>,
                        currentRGB: int, startX: int, ghost P: seq<Run<int>>, ghost isOpen: bool, ghost Closed: seq<Run<int>>)
    returns (nextRGB: int, nextStart: int, ghost P': seq<Run<int>>, ghost isOpen': bool, ghost Closed': seq<Run<int>>)
    requires 0 <= y < colors.Length0 && x < colors.Length1 == |row|
    requires row[x] == BlockCell(colors[y, x])
    requires Scanned(row, x, P, isOpen, startX, Closed)
    requires isOpen == (currentRGB != -1)
    requires isOpen ==> P != [] && P[|P| - 1].key == currentRGB
    requires colorMap.Holds(E + RowEntries(Closed, y))
    modifies colorMap
    ensures Scanned(row, x + 1, P', isOpen', nextStart, Closed')
    ensures isOpen' == (nextRGB != -1)
    ensures isOpen' ==> P' != [] && P'[|P'| - 1].key == nextRGB
    ensures colorMap.Holds(E + RowEntries(Closed', y))
  {
    var px := colors[y, x];
    if IsWhite(px.item2, px.item1, px.item0) {
      nextRGB := BreakSegment(colorMap, E, row, x, P, isOpen, startX, Closed, currentRGB, y);
      nextStart, P', isOpen', Closed' := startX, P, false, P;
      return;
    }
    // bucket each channel by 42 and pack the three into one key
    var rgb := BlockKey(px);
    nextRGB, nextStart, P', Closed' := ColourPixel(colorMap, E, row, x, P, isOpen, startX, Closed, currentRGB, y, rgb);
    isOpen' := true;
  }

  /** A background pixel: the open segment, if any, goes into the map and none is open after. */
  method BreakSegment(colorMap: ColorMap, ghost E: seq<(int, Path)>, ghost row: seq<Option<int>>, x: nat,
                    ghost P: seq<Run<int>>, ghost isOpen: bool, startX: int, ghost Closed: seq<Run<int>>,
                    currentRGB: int, y: int) returns (nextRGB: int)
    requires Scanned(row, x, P, isOpen, startX, Closed)
    requires x < |row| && row[x].None?
    requires isOpen == (currentRGB != -1)
    requires isOpen ==> P != [] && P[|P| - 1].key == currentRGB
    requires colorMap.Holds(E + RowEntries(Closed, y))
    modifies colorMap
    ensures nextRGB == -1
    ensures Scanned(row, x + 1, P, false, startX, P)
    ensures colorMap.Holds(E + RowEntries(P, y))
  {
    ScanBackground(row, x, P, isOpen, startX, Closed);
    nextRGB := currentRGB;
    if currentRGB != -1 {
      EmitSegment(colorMap, E, Closed, P, currentRGB, startX, y, x - 1);
      nextRGB := -1;
    }
  }

  /** A pixel of colour key rgb: it continues the open segment when the key matches; otherwise the
      open segment, if any, goes into the map and a new one starts here. */
  method ColourPixel(colorMap: ColorMap, ghost E: seq<(int, Path)>, ghost row: seq<Option<int>>, x: nat,
                       ghost P: seq<Run<int>>, ghost isOpen: bool, startX: int, ghost Closed: seq<Run<int>>,
                       currentRGB: int, y: int, rgb: int)
    returns (nextRGB: int, nextStart: int, ghost P': seq<Run<int>>, ghost Closed': seq<Run<int>>)
    requires Scanned(row, x, P, isOpen, startX, Closed)
    requires x < |row| && row[x] == Some(rgb) && rgb != -1
    requires isOpen == (currentRGB != -1)
    requires isOpen ==> P != [] && P[|P| - 1].key == currentRGB
    requires colorMap.Holds(E + RowEntries(Closed, y))
    modifies colorMap
    ensures nextRGB == rgb
    ensures P' == Advance(P, x, row[x])
    ensures Scanned(row, x + 1, P', true, nextStart, Closed')
    ensures P' != [] && P'[|P'| - 1].key == rgb
    ensures colorMap.Holds(E + RowEntries(Closed', y))
  {
    nextRGB, nextStart, Closed' := currentRGB, startX, Closed;
    if rgb != currentRGB {
      ScanNew(row, x, P, isOpen, startX, Closed, rgb);
      if currentRGB != -1 {
        EmitSegment(colorMap, E, Closed, P, currentRGB, startX, y, x - 1);
      }
      Closed' := P;
      nextRGB := rgb;
      nextStart := x;
    } else {
      ScanSame(row, x, P, startX, Closed, rgb);
    }
    AdvanceSplit(P, x, rgb);
    P' := Advance(P, x, row[x]);
  }

  /** The AddSegment call that closes the open segment startX..endX: the map then holds the
      entries of every run closed so far. */
  method EmitSegment(colorMap: ColorMap, ghost E: seq<(int, Path)>, ghost Closed: seq<Run<int>>, ghost P: seq<Run<int>>,
                     rgb: int, startX: nat, y: int, endX: nat)
    requires colorMap.Holds(E + RowEntries(Closed, y))
    requires P == Closed + [Run(startX, endX, rgb)]
    modifies colorMap
    ensures colorMap.Holds(E + RowEntries(P, y))
  {
    CloseEntry(E, Closed, Run(startX, endX, rgb), y);
    AddSegmentGroups(colorMap.keys, colorMap.lists, E + RowEntries(Closed, y), rgb, HLine(startX, y, endX));
    AddSegment(colorMap, rgb, startX, y, endX);
  }
}
