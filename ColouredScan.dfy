/** What the two colour modes do with the segments they find: the colour map groups them
    by packed key in order of first appearance and the conversion unpacks every key. For
    keys that are packed colours this is the same as recolouring every segment and then
    grouping by colour, and the result is a rearrangement of the recoloured segments, so
    the coverage facts of the scan carry over to it. */
module ColouredScan {
  import opened Basics
  import opened ColorModel
  import opened RunModel
  import opened Grouping
  import opened ImageProcessor
  import opened ScanProperties

  /** Every key is a packed colour (never the sentinel -1). */
  ghost predicate PackedKeys(E: seq<(int, Path)>)
  {
    forall i :: 0 <= i < |E| ==> 0 <= E[i].0 < 0x100_0000
  }

  /** Every foreground cell carries a packed colour. */
  ghost predicate PackedCells(cls: seq<seq<Option<int>>>)
  {
    forall y, x :: 0 <= y < |cls| && 0 <= x < |cls[y]| && cls[y][x].Some? ==>
      0 <= cls[y][x].value < 0x100_0000
  }

  /** Each segment with its key unpacked to a colour. */
  function Recoloured(E: seq<(int, Path)>): seq<(Rgb, Path)>
  {
    seq(|E|, i requires 0 <= i < |E| => (Unpack(E[i].0), E[i].1))
  }

  function UnpackAll(ks: seq<int>): seq<Rgb>
  {
    seq(|ks|, i requires 0 <= i < |ks| => Unpack(ks[i]))
  }

  /** Distinct packed colours unpack to distinct colours. */
  lemma UnpackDistinct(k1: int, k2: int)
    requires 0 <= k1 < 0x100_0000 && 0 <= k2 < 0x100_0000 && k1 != k2
    ensures Unpack(k1) != Unpack(k2)
  {
    PackUnpack(k1);
    PackUnpack(k2);
  }

  /** The keys FirstKeys lists are keys of the entries, so packed colours too. */
  lemma FirstKeysPacked(E: seq<(int, Path)>)
    requires PackedKeys(E)
    ensures forall j :: 0 <= j < |FirstKeys(E)| ==> 0 <= FirstKeys(E)[j] < 0x100_0000
  {
    var ks := FirstKeys(E);
    forall j | 0 <= j < |ks|
      ensures 0 <= ks[j] < 0x100_0000
    {
      var i :| 0 <= i < |E| && E[i].0 == ks[j];
    }
  }

  /** For packed colours, a colour is among the unpacked keys exactly when its key is. */
  lemma UnpackMember(ks: seq<int>, k: int)
    requires forall j :: 0 <= j < |ks| ==> 0 <= ks[j] < 0x100_0000
    requires 0 <= k < 0x100_0000
    ensures Unpack(k) in UnpackAll(ks) <==> k in ks
  {
    if k in ks {
      var j :| 0 <= j < |ks| && ks[j] == k;
      assert UnpackAll(ks)[j] == Unpack(k);
    } else if Unpack(k) in UnpackAll(ks) {
      var j :| 0 <= j < |ks| && UnpackAll(ks)[j] == Unpack(k);
      UnpackDistinct(ks[j], k);
    }
  }

  lemma FirstKeysLast<K, V>(E: seq<(K, V)>)
    requires E != []
    ensures FirstKeys(E) ==
      var ks := FirstKeys(E[..|E| - 1]);
      if E[|E| - 1].0 in ks then ks else ks + [E[|E| - 1].0]
  {
  }

  lemma {:induction false} FirstKeysRecoloured(E: seq<(int, Path)>)
    requires PackedKeys(E)
    ensures FirstKeys(Recoloured(E)) == UnpackAll(FirstKeys(E))
  {
    if E != [] {
      var n := |E| - 1;
      var E' := E[..n];
      var R := Recoloured(E);
      assert R[..n] == Recoloured(E');
      FirstKeysRecoloured(E');
      var ks := FirstKeys(E');
      var k := E[n].0;
      FirstKeysPacked(E');
      UnpackMember(ks, k);
      FirstKeysLast(E);
      FirstKeysLast(R);
      UnpackAllSnoc(ks, k);
    }
  }

  lemma UnpackAllSnoc(ks: seq<int>, k: int)
    ensures UnpackAll(ks + [k]) == UnpackAll(ks) + [Unpack(k)]
  {
  }

  lemma {:induction false} ValuesOfRecoloured(E: seq<(int, Path)>, k: int)
    requires PackedKeys(E) && 0 <= k < 0x100_0000
    ensures ValuesOf(Recoloured(E), Unpack(k)) == ValuesOf(E, k)
  {
    if E != [] {
      var n := |E| - 1;
      assert Recoloured(E)[..n] == Recoloured(E[..n]);
      ValuesOfRecoloured(E[..n], k);
      if E[n].0 != k {
        UnpackDistinct(E[n].0, k);
      }
    }
  }

  /** Grouping by packed key and then unpacking the keys is grouping by colour. */
  lemma RecolouredGroups(E: seq<(int, Path)>)
    requires PackedKeys(E)
    ensures GroupBy(Recoloured(E)) == UnpackKeys(GroupBy(E))
  {
    var ks := FirstKeys(E);
    var A, B := GroupBy(Recoloured(E)), UnpackKeys(GroupBy(E));
    FirstKeysRecoloured(E);
    assert |A| == |ks| == |B|;
    forall i | 0 <= i < |ks|
      ensures A[i] == B[i]
    {
      GroupRecoloured(E, ks, i);
    }
  }

  /** Group i of the recoloured segments is group i of the packed ones, unpacked. */
  lemma GroupRecoloured(E: seq<(int, Path)>, ks: seq<int>, i: nat)
    requires PackedKeys(E) && ks == FirstKeys(E) && i < |ks|
    requires FirstKeys(Recoloured(E)) == UnpackAll(ks)
    ensures GroupBy(Recoloured(E))[i] == UnpackKeys(GroupBy(E))[i]
  {
    var j :| 0 <= j < |E| && E[j].0 == ks[i];
    ValuesOfRecoloured(E, ks[i]);
  }

  /** The list a colour mode returns: its segments recoloured, grouped by colour in order
      of first appearance, each group in the order found. */
  lemma ColoredResultGroups(E: seq<(int, Path)>)
    requires PackedKeys(E)
    ensures ColoredResult(E) == Ungroup(GroupBy(Recoloured(E)))
    ensures multiset(ColoredResult(E)) == multiset(Recoloured(E))
  {
    RecolouredGroups(E);
    GroupByPermutes(Recoloured(E));
  }

  lemma TwoIndicesCount<T>(s: seq<T>, i: nat, j: nat)
    requires i < j < |s| && s[i] == s[j]
    ensures multiset(s)[s[i]] >= 2
  {
    assert s == s[..j] + [s[j]] + s[j + 1..];
    assert s[..j][i] == s[i];
  }

  lemma CountTwoIndices<T>(s: seq<T>, v: T)
    requires multiset(s)[v] >= 2
    ensures exists i, j :: 0 <= i < j < |s| && s[i] == v && s[j] == v
  {
    assert v in s;
    var i :| 0 <= i < |s| && s[i] == v;
    var t := s[..i] + s[i + 1..];
    assert s == s[..i] + [s[i]] + s[i + 1..];
    assert v in multiset(t);
    var k :| 0 <= k < |t| && t[k] == v;
    if k < i {
      assert s[k] == v;
    } else {
      assert s[k + 1] == v;
    }
  }

  /** Every element of the result is a segment, recoloured. */
  lemma ResultElement(E: seq<(int, Path)>, i: nat)
    requires PackedKeys(E) && i < |ColoredResult(E)|
    ensures exists j :: 0 <= j < |E| && ColoredResult(E)[i] == (Unpack(E[j].0), E[j].1)
  {
    var Q := Recoloured(E);
    ColoredResultGroups(E);
    assert ColoredResult(E)[i] in multiset(Q);
    var j :| 0 <= j < |Q| && Q[j] == ColoredResult(E)[i];
  }

  /** Every segment, recoloured, is an element of the result. */
  lemma SegmentElement(E: seq<(int, Path)>, j: nat)
    requires PackedKeys(E) && j < |E|
    ensures exists i :: 0 <= i < |ColoredResult(E)| && ColoredResult(E)[i] == (Unpack(E[j].0), E[j].1)
  {
    var Q := Recoloured(E);
    ColoredResultGroups(E);
    assert Q[j] in multiset(ColoredResult(E));
  }

  /** Two elements of the result never cover the same cell if no two segments do. */
  lemma ResultPairDisjoint(E: seq<(int, Path)>, y: int, x: int, i: nat, j: nat)
    requires PackedKeys(E) && CoveredAtMostOnce(E, y, x)
    requires i < j < |ColoredResult(E)|
    ensures !(Covers(ColoredResult(E)[i].1, y, x) && Covers(ColoredResult(E)[j].1, y, x))
  {
    var R := ColoredResult(E);
    if Covers(R[i].1, y, x) && Covers(R[j].1, y, x) {
      if R[i] == R[j] {
        var Q := Recoloured(E);
        ColoredResultGroups(E);
        TwoIndicesCount(R, i, j);
        CountTwoIndices(Q, R[i]);
      } else {
        ResultElement(E, i);
        ResultElement(E, j);
      }
    }
  }

  /** Rearranging does not make a cell covered twice. */
  lemma ResultCoversOnce(E: seq<(int, Path)>, y: int, x: int)
    requires PackedKeys(E) && CoveredAtMostOnce(E, y, x)
    ensures CoveredAtMostOnce(ColoredResult(E), y, x)
  {
    var R := ColoredResult(E);
    forall i, j | 0 <= i < j < |R|
      ensures !(Covers(R[i].1, y, x) && Covers(R[j].1, y, x))
    {
      ResultPairDisjoint(E, y, x, i, j);
    }
  }

  /** Coverage of a cell carries over from the segments to the list returned: the cell is
      covered there exactly when a segment covers it, every covering element is a covering
      segment recoloured, and a cell no two segments cover no two elements cover. */
  lemma ColouredCoverage(E: seq<(int, Path)>, y: int, x: int)
    requires PackedKeys(E) && CoveredAtMostOnce(E, y, x)
    ensures Covered(ColoredResult(E), y, x) <==> Covered(E, y, x)
    ensures forall i :: 0 <= i < |ColoredResult(E)| && Covers(ColoredResult(E)[i].1, y, x) ==>
      exists j :: 0 <= j < |E| && Covers(E[j].1, y, x) && ColoredResult(E)[i] == (Unpack(E[j].0), E[j].1)
    ensures CoveredAtMostOnce(ColoredResult(E), y, x)
  {
    var R := ColoredResult(E);
    ResultCoversOnce(E, y, x);
    if Covered(E, y, x) {
      var j :| 0 <= j < |E| && Covers(E[j].1, y, x);
      SegmentElement(E, j);
      var i :| 0 <= i < |R| && R[i] == (Unpack(E[j].0), E[j].1);
      assert Covers(R[i].1, y, x);
    }
    forall i | 0 <= i < |R| && Covers(R[i].1, y, x)
      ensures exists j :: 0 <= j < |E| && Covers(E[j].1, y, x) && R[i] == (Unpack(E[j].0), E[j].1)
    {
      ResultElement(E, i);
    }
  }

  // ---------------------------------------------------------------------------
  // Segments of a grid of packed colours, in terms of colours

  /** Cell (y, x) is foreground with a key that unpacks to c. */
  ghost predicate Painted(cls: seq<seq<Option<int>>>, y: int, x: int, c: Rgb)
    requires 0 <= y < |cls| && 0 <= x < |cls[y]|
  {
    cls[y][x].Some? && Unpack(cls[y][x].value) == c
  }

  /** p spans a stretch of cells painted c on an even row that is not painted c on either
      side. */
  ghost predicate ColourSegment(cls: seq<seq<Option<int>>>, c: Rgb, p: Path)
  {
    && |p| == 2 && p[0].y == p[1].y
    && 0 <= p[0].y < |cls| && p[0].y % 2 == 0
    && 0 <= p[0].x <= p[1].x < |cls[p[0].y]|
    && (forall x :: p[0].x <= x <= p[1].x ==> Painted(cls, p[0].y, x, c))
    && (p[0].x == 0 || !Painted(cls, p[0].y, p[0].x - 1, c))
    && (p[1].x == |cls[p[0].y]| - 1 || !Painted(cls, p[0].y, p[1].x + 1, c))
  }

  lemma SampledKeysPacked(cls: seq<seq<Option<int>>>)
    requires PackedCells(cls)
    ensures PackedKeys(SampledEntries(cls, 0))
  {
    var E := SampledEntries(cls, 0);
    SampledAreSegments(cls, 0);
    forall i | 0 <= i < |E|
      ensures 0 <= E[i].0 < 0x100_0000
    {
      var p := E[i].1;
      assert IsSegment(cls, 0, E[i].0, p);
      assert IsMaximalRunWithin(cls[p[0].y], |cls[p[0].y]|, Run(p[0].x, p[1].x, E[i].0));
      assert cls[p[0].y][p[0].x] == Some(E[i].0);
    }
  }

  lemma SegmentPainted(cls: seq<seq<Option<int>>>, k: int, p: Path)
    requires PackedCells(cls) && IsSegment(cls, 0, k, p)
    ensures ColourSegment(cls, Unpack(k), p)
  {
    var y := p[0].y;
    var row := cls[y];
    assert IsMaximalRunWithin(row, |row|, Run(p[0].x, p[1].x, k));
    assert row[p[0].x] == Some(k);
    if p[0].x > 0 && row[p[0].x - 1].Some? {
      UnpackDistinct(row[p[0].x - 1].value, k);
    }
    if p[1].x < |row| - 1 && row[p[1].x + 1].Some? {
      UnpackDistinct(row[p[1].x + 1].value, k);
    }
  }

  /** Every element of a colour mode's result is a maximal one-colour stretch of a sampled row. */
  lemma ColouredSegments(cls: seq<seq<Option<int>>>)
    requires PackedCells(cls)
    ensures forall i :: 0 <= i < |ColoredResult(SampledEntries(cls, 0))| ==>
      ColourSegment(cls, ColoredResult(SampledEntries(cls, 0))[i].0, ColoredResult(SampledEntries(cls, 0))[i].1)
  {
    var E := SampledEntries(cls, 0);
    var R := ColoredResult(E);
    SampledKeysPacked(cls);
    SampledAreSegments(cls, 0);
    ColoredResultGroups(E);
    forall i | 0 <= i < |R|
      ensures ColourSegment(cls, R[i].0, R[i].1)
    {
      assert R[i] in multiset(R);
      RecolouredSegment(cls, E, R[i].0, R[i].1);
    }
  }

  /** A recoloured segment of the sampled rows is a maximal one-colour stretch. */
  lemma RecolouredSegment(cls: seq<seq<Option<int>>>, E: seq<(int, Path)>, c: Rgb, p: Path)
    requires PackedCells(cls)
    requires forall j :: 0 <= j < |E| ==> IsSegment(cls, 0, E[j].0, E[j].1)
    requires (c, p) in multiset(Recoloured(E))
    ensures ColourSegment(cls, c, p)
  {
    var j :| 0 <= j < |E| && Recoloured(E)[j] == (c, p);
    SegmentPainted(cls, E[j].0, E[j].1);
  }

  /** A cell is covered by the result of a colour mode exactly when it is foreground on an
      even row; it is then covered once, by an element of its own colour. */
  lemma ColouredGridCoverage(cls: seq<seq<Option<int>>>, y: nat, x: nat)
    requires PackedCells(cls) && y < |cls| && x < |cls[y]|
    ensures Covered(ColoredResult(SampledEntries(cls, 0)), y, x) <==> y % 2 == 0 && cls[y][x].Some?
    ensures forall i ::
      (0 <= i < |ColoredResult(SampledEntries(cls, 0))| && Covers(ColoredResult(SampledEntries(cls, 0))[i].1, y, x)) ==>
        Painted(cls, y, x, ColoredResult(SampledEntries(cls, 0))[i].0)
    ensures CoveredAtMostOnce(ColoredResult(SampledEntries(cls, 0)), y, x)
  {
    var E := SampledEntries(cls, 0);
    var R := ColoredResult(E);
    SampledCoverage(cls, 0, y, x);
    SampledKeysPacked(cls);
    ColouredCoverage(E, y, x);
    forall i | 0 <= i < |R| && Covers(R[i].1, y, x)
      ensures Painted(cls, y, x, R[i].0)
    {
      var j :| 0 <= j < |E| && Covers(E[j].1, y, x) && R[i] == (Unpack(E[j].0), E[j].1);
    }
  }
}
