/** What the three vectoriser modes promise about the paths they return: every path is a
    maximal stretch of foreground on an even row, paths come row by row and left to right
    without overlapping, every foreground cell of an even row is covered exactly once, and
    the colour modes return the segments they found, regrouped by colour. */
module ScanProperties {
  import opened Basics
  import opened ColorModel
  import opened RunModel
  import opened Grouping
  import opened ImageProcessor

  // ---------------------------------------------------------------------------
  // Segments of a classified grid

  /** Row y is one of y0, y0 + 2, y0 + 4, ... */
  ghost predicate SampledFrom(y0: int, y: int)
  {
    y0 <= y && (y - y0) % 2 == 0
  }

  /** p is the two-point path of a maximal run of key k on a sampled row of cls. */
  ghost predicate IsSegment<K>(cls: seq<seq<Option<K>>>, y0: int, k: K, p: Path)
  {
    && |p| == 2 && p[0].y == p[1].y
    && SampledFrom(y0, p[0].y) && 0 <= p[0].y < |cls|
    && 0 <= p[0].x <= p[1].x
    && IsMaximalRunWithin(cls[p[0].y], |cls[p[0].y]|, Run(p[0].x, p[1].x, k))
  }

  /** The two-point path p covers column x of row y. */
  ghost predicate Covers(p: Path, y: int, x: int)
  {
    |p| == 2 && p[0].y == y && p[0].x <= x <= p[1].x
  }

  /** p comes before q in row-major order and ends before q starts. */
  ghost predicate Precedes(p: Path, q: Path)
  {
    |p| == 2 && |q| == 2 && (p[0].y < q[0].y || (p[0].y == q[0].y && p[1].x < q[0].x))
  }

  /** Some element of S covers cell (y, x). */
  ghost predicate Covered<T>(S: seq<(T, Path)>, y: int, x: int)
  {
    exists i :: 0 <= i < |S| && Covers(S[i].1, y, x)
  }

  /** At most one element of S covers cell (y, x). */
  ghost predicate CoveredAtMostOnce<T>(S: seq<(T, Path)>, y: int, x: int)
  {
    forall i, j :: 0 <= i < |S| && Covers(S[i].1, y, x) && 0 <= j < |S| && Covers(S[j].1, y, x) ==> i == j
  }

  lemma {:induction false} RowEntriesIndex<K>(runs: seq<Run<K>>, y: int)
    ensures |RowEntries(runs, y)| == |runs|
    ensures forall i :: 0 <= i < |runs| ==> RowEntries(runs, y)[i] == Entry(runs[i], y)
  {
    if runs != [] {
      var front := runs[..|runs| - 1];
      RowEntriesIndex(front, y);
      forall i | 0 <= i < |runs|
        ensures RowEntries(runs, y)[i] == Entry(runs[i], y)
      {
        if i < |front| {
          assert front[i] == runs[i];
        }
      }
    }
  }

  /** Every entry of the sampled rows from y0 on is the segment of a maximal run. */
  lemma {:induction false} SampledAreSegments<K>(cls: seq<seq<Option<K>>>, y0: nat)
    ensures forall i :: 0 <= i < |SampledEntries(cls, y0)| ==>
      IsSegment(cls, y0, SampledEntries(cls, y0)[i].0, SampledEntries(cls, y0)[i].1)
    decreases |cls| - y0
  {
    if y0 < |cls| {
      var runs := Runs(cls[y0]);
      var R: seq<(K, Path)> := RowEntries(runs, y0);
      var S: seq<(K, Path)> := SampledEntries(cls, y0 + 2);
      SampledRow(cls, y0);
      RowEntriesIndex(runs, y0);
      RunsAreMaximal(cls[y0]);
      SampledAreSegments(cls, y0 + 2);
      forall i | 0 <= i < |R + S|
        ensures IsSegment(cls, y0, (R + S)[i].0, (R + S)[i].1)
      {
        if i < |R| {
          assert (R + S)[i] == Entry(runs[i], y0);
          assert IsMaximalRunWithin(cls[y0], |cls[y0]|, runs[i]);
        } else {
          assert (R + S)[i] == S[i - |R|];
        }
      }
    }
  }

  /** Entries of one row come left to right, without overlap. */
  lemma RowEntriesOrdered<K>(row: seq<Option<K>>, y: int)
    ensures forall i, j :: 0 <= i < j < |RowEntries(Runs(row), y)| ==>
      Precedes(RowEntries(Runs(row), y)[i].1, RowEntries(Runs(row), y)[j].1)
  {
    var runs := Runs(row);
    RunsAreMaximal(row);
    MaximalRunsOrdered(row, runs);
    RowEntriesIndex(runs, y);
  }

  /** The sampled entries come row by row, each row left to right, without overlap. */
  lemma {:induction false} SampledOrdered<K>(cls: seq<seq<Option<K>>>, y0: nat)
    ensures forall i, j :: 0 <= i < j < |SampledEntries(cls, y0)| ==>
      Precedes(SampledEntries(cls, y0)[i].1, SampledEntries(cls, y0)[j].1)
    decreases |cls| - y0
  {
    if y0 < |cls| {
      var R: seq<(K, Path)> := RowEntries(Runs(cls[y0]), y0);
      var S: seq<(K, Path)> := SampledEntries(cls, y0 + 2);
      SampledRow(cls, y0);
      RowEntriesIndex(Runs(cls[y0]), y0);
      RowEntriesOrdered(cls[y0], y0);
      SampledAreSegments(cls, y0 + 2);
      SampledOrdered(cls, y0 + 2);
      forall i, j | 0 <= i < j < |R + S|
        ensures Precedes((R + S)[i].1, (R + S)[j].1)
      {
        if j < |R| {
          assert (R + S)[i] == R[i] && (R + S)[j] == R[j];
        } else if i < |R| {
          assert (R + S)[i] == R[i] && (R + S)[j] == S[j - |R|];
          assert IsSegment(cls, y0 + 2, S[j - |R|].0, S[j - |R|].1);
        } else {
          assert (R + S)[i] == S[i - |R|] && (R + S)[j] == S[j - |R|];
        }
      }
    }
  }

  /** A foreground cell of a sampled row is covered by some entry. */
  lemma {:induction false} SampledCovers<K>(cls: seq<seq<Option<K>>>, y0: nat, y: nat, x: nat)
    requires y < |cls| && x < |cls[y]| && SampledFrom(y0, y) && cls[y][x].Some?
    ensures Covered(SampledEntries(cls, y0), y, x)
    decreases |cls| - y0
  {
    var runs := Runs(cls[y0]);
    var R: seq<(K, Path)> := RowEntries(runs, y0);
    var S: seq<(K, Path)> := SampledEntries(cls, y0 + 2);
    SampledRow(cls, y0);
    RowEntriesIndex(runs, y0);
    if y == y0 {
      RunsAreMaximal(cls[y]);
      CoveredExactlyOnce(cls[y], runs, x);
      var r :| 0 <= r < |runs| && runs[r].start <= x <= runs[r].end;
      assert (R + S)[r] == Entry(runs[r], y);
      assert Covers((R + S)[r].1, y, x);
    } else {
      SampledCovers(cls, y0 + 2, y, x);
      var i :| 0 <= i < |S| && Covers(S[i].1, y, x);
      assert (R + S)[|R| + i] == S[i];
    }
  }

  /** Coverage of the sampled rows: a cell is covered exactly when it is foreground on a
      sampled row, it is then covered by exactly one entry, and that entry carries the
      cell's key. */
  lemma SampledCoverage<K>(cls: seq<seq<Option<K>>>, y0: nat, y: nat, x: nat)
    requires y < |cls| && x < |cls[y]|
    ensures Covered(SampledEntries(cls, y0), y, x) <==> SampledFrom(y0, y) && cls[y][x].Some?
    ensures forall i :: 0 <= i < |SampledEntries(cls, y0)| && Covers(SampledEntries(cls, y0)[i].1, y, x) ==>
      cls[y][x] == Some(SampledEntries(cls, y0)[i].0)
    ensures CoveredAtMostOnce(SampledEntries(cls, y0), y, x)
  {
    var E := SampledEntries(cls, y0);
    SampledAreSegments(cls, y0);
    SampledOrdered(cls, y0);
    forall i | 0 <= i < |E| && Covers(E[i].1, y, x)
      ensures SampledFrom(y0, y) && cls[y][x] == Some(E[i].0)
    {
      assert IsSegment(cls, y0, E[i].0, E[i].1);
      assert IsMaximalRunWithin(cls[y], |cls[y]|, Run(E[i].1[0].x, E[i].1[1].x, E[i].0));
    }
    if SampledFrom(y0, y) && cls[y][x].Some? {
      SampledCovers(cls, y0, y, x);
    }
    forall i, j | 0 <= i < j < |E|
      ensures !(Covers(E[i].1, y, x) && Covers(E[j].1, y, x))
    {
      assert Precedes(E[i].1, E[j].1);
    }
  }
}
