/** Scan-line runs. All three vectoriser modes classify every pixel of a sampled row as
    background (None) or as foreground with a key (Some(key)) and emit one segment per
    maximal stretch of equal foreground keys. This module states what those stretches
    are, gives an independent definition that finds them, and proves the facts the
    scanners rely on. */
module RunModel {
  import opened Basics

  /** Columns start..end (inclusive) of one scan line, all classified with key. */
  datatype Run<K> = Run(start: nat, end: nat, key: K)

  /** r lies in the first n cells of row, every cell of r carries r's key, and r cannot be
      extended by one cell at either end without leaving the first n cells or the key. */
  ghost predicate IsMaximalRunWithin<K>(row: seq<Option<K>>, n: nat, r: Run<K>)
    requires n <= |row|
  {
    && r.start <= r.end < n
    && (forall x :: r.start <= x <= r.end ==> row[x] == Some(r.key))
    && (r.start == 0 || row[r.start - 1] != Some(r.key))
    && (r.end == n - 1 || row[r.end + 1] != Some(r.key))
  }

  /** No foreground cell in columns lo..hi-1. */
  ghost predicate Blank<K>(row: seq<Option<K>>, lo: int, hi: int)
    requires 0 <= lo && hi <= |row|
  {
    forall x :: lo <= x < hi ==> row[x].None?
  }

  /** runs are exactly the maximal runs of the first n cells of row, left to right:
      each is maximal, they are ordered, and every cell outside them is background. */
  ghost predicate MaximalRunsWithin<K>(row: seq<Option<K>>, n: nat, runs: seq<Run<K>>)
    requires n <= |row|
  {
    && (forall i :: 0 <= i < |runs| ==> IsMaximalRunWithin(row, n, runs[i]))
    && (forall i :: 0 <= i < |runs| - 1 ==>
          runs[i].end < runs[i + 1].start && Blank(row, runs[i].end + 1, runs[i + 1].start))
    && Blank(row, 0, if runs == [] then n else runs[0].start)
    && (runs != [] ==> Blank(row, runs[|runs| - 1].end + 1, n))
  }

  ghost predicate MaximalRuns<K>(row: seq<Option<K>>, runs: seq<Run<K>>)
  {
    MaximalRunsWithin(row, |row|, runs)
  }

  /** The last column of the stretch of key k that begins at column s. */
  function RunEnd<K(==)>(row: seq<Option<K>>, s: nat, k: K): (e: nat)
    requires s < |row| && row[s] == Some(k)
    ensures s <= e < |row|
    ensures forall x :: s <= x <= e ==> row[x] == Some(k)
    ensures e == |row| - 1 || row[e + 1] != Some(k)
    decreases |row| - s
  {
    if s + 1 < |row| && row[s + 1] == Some(k) then RunEnd(row, s + 1, k) else s
  }

  /** The runs of row from column x on: skip background, jump over each stretch. */
  function RunsFrom<K(==)>(row: seq<Option<K>>, x: nat): seq<Run<K>>
    decreases |row| - x
  {
    if x >= |row| then []
    else match row[x]
      case None => RunsFrom(row, x + 1)
      case Some(k) => var e := RunEnd(row, x, k); [Run(x, e, k)] + RunsFrom(row, e + 1)
  }

  function Runs<K(==)>(row: seq<Option<K>>): seq<Run<K>>
  {
    RunsFrom(row, 0)
  }

  /** rs are the maximal runs of row that start at column x or later, and nothing
      from x on lies outside them. */
  ghost predicate MaximalRunsFrom<K>(row: seq<Option<K>>, x: nat, rs: seq<Run<K>>)
    requires x <= |row|
  {
    && (forall i :: 0 <= i < |rs| ==> IsMaximalRunWithin(row, |row|, rs[i]) && x <= rs[i].start)
    && (forall i :: 0 <= i < |rs| - 1 ==>
          rs[i].end < rs[i + 1].start && Blank(row, rs[i].end + 1, rs[i + 1].start))
    && Blank(row, x, if rs == [] then |row| else rs[0].start)
    && (rs != [] ==> Blank(row, rs[|rs| - 1].end + 1, |row|))
  }

  lemma SkipBackground<K>(row: seq<Option<K>>, x: nat, rest: seq<Run<K>>, rs: seq<Run<K>>)
    requires x < |row| && row[x].None? && MaximalRunsFrom(row, x + 1, rest) && rs == rest
    ensures MaximalRunsFrom(row, x, rs)
  {
  }

  lemma PrependRun<K>(row: seq<Option<K>>, r: Run<K>, rest: seq<Run<K>>, rs: seq<Run<K>>)
    requires IsMaximalRunWithin(row, |row|, r) && MaximalRunsFrom(row, r.end + 1, rest)
    requires rs == [r] + rest
    ensures MaximalRunsFrom(row, r.start, rs)
  {
    forall i | 0 <= i < |rs|
      ensures IsMaximalRunWithin(row, |row|, rs[i]) && r.start <= rs[i].start
    {
      if i > 0 {
        assert rs[i] == rest[i - 1];
      }
    }
    forall i | 0 <= i < |rs| - 1
      ensures rs[i].end < rs[i + 1].start && Blank(row, rs[i].end + 1, rs[i + 1].start)
    {
      assert rs[i + 1] == rest[i];
      if i > 0 {
        assert rs[i] == rest[i - 1];
      }
    }
    assert rest == [] ==> Blank(row, r.end + 1, |row|);
    assert rs[|rs| - 1] == if rest == [] then r else rest[|rest| - 1];
  }

  lemma {:induction false} RunsFromMaximal<K>(row: seq<Option<K>>, x: nat)
    requires x <= |row|
    requires 0 < x < |row| && row[x].Some? ==> row[x - 1] != row[x]
    ensures MaximalRunsFrom(row, x, RunsFrom(row, x))
    decreases |row| - x
  {
    if x < |row| {
      match row[x]
      case None =>
        RunsFromBackground(row, x);
        RunsFromMaximal(row, x + 1);
        SkipBackground(row, x, RunsFrom(row, x + 1), RunsFrom(row, x));
      case Some(k) =>
        var e := RunEnd(row, x, k);
        RunEndBoundary(row, x, k);
        RunsFromMaximal(row, e + 1);
        RunsFromStretch(row, x, k);
    }
  }

  /** The cell after a stretch, if any, does not continue it. */
  lemma RunEndBoundary<K>(row: seq<Option<K>>, x: nat, k: K)
    requires x < |row| && row[x] == Some(k)
    ensures var e := RunEnd(row, x, k); 0 < e + 1 < |row| && row[e + 1].Some? ==> row[e] != row[e + 1]
  {
    var e := RunEnd(row, x, k);
    assert row[e] == Some(k);
  }

  /** A stretch that starts a maximal run, followed by the maximal runs after it. */
  lemma RunsFromStretch<K>(row: seq<Option<K>>, x: nat, k: K)
    requires x < |row| && row[x] == Some(k) && (0 < x ==> row[x - 1] != row[x])
    requires MaximalRunsFrom(row, RunEnd(row, x, k) + 1, RunsFrom(row, RunEnd(row, x, k) + 1))
    ensures MaximalRunsFrom(row, x, RunsFrom(row, x))
  {
    var e := RunEnd(row, x, k);
    StretchIsMaximal(row, x, k);
    RunsFromUnfold(row, x, k);
    PrependRun(row, Run(x, e, k), RunsFrom(row, e + 1), RunsFrom(row, x));
  }

  /** A stretch not continuing the cell before it is a maximal run. */
  lemma StretchIsMaximal<K>(row: seq<Option<K>>, x: nat, k: K)
    requires x < |row| && row[x] == Some(k) && (0 < x ==> row[x - 1] != row[x])
    ensures IsMaximalRunWithin(row, |row|, Run(x, RunEnd(row, x, k), k))
  {
  }

  lemma RunsFromUnfold<K>(row: seq<Option<K>>, x: nat, k: K)
    requires x < |row| && row[x] == Some(k)
    ensures RunsFrom(row, x) == [Run(x, RunEnd(row, x, k), k)] + RunsFrom(row, RunEnd(row, x, k) + 1)
  {
  }

  /** The independent definition finds maximal runs. */
  lemma RunsAreMaximal<K>(row: seq<Option<K>>)
    ensures MaximalRuns(row, Runs(row))
  {
    RunsFromMaximal(row, 0);
    assert MaximalRunsFrom(row, 0, Runs(row));
  }

  /** A maximal run reaches at least as far as any stretch of its key that starts with it. */
  lemma StretchWithinRun<K>(row: seq<Option<K>>, n: nat, r: Run<K>, x: int)
    requires n <= |row| && IsMaximalRunWithin(row, n, r)
    requires r.start <= x < n && forall y :: r.start <= y <= x ==> row[y] == Some(r.key)
    ensures x <= r.end
  {
  }

  /** Two maximal runs with the same start are the same run. */
  lemma SameStartSameRun<K>(row: seq<Option<K>>, n: nat, a: Run<K>, b: Run<K>)
    requires n <= |row| && IsMaximalRunWithin(row, n, a) && IsMaximalRunWithin(row, n, b)
    requires a.start == b.start
    ensures a == b
  {
    assert row[a.start] == Some(a.key) && row[b.start] == Some(b.key);
    StretchWithinRun(row, n, a, b.end);
    StretchWithinRun(row, n, b, a.end);
  }

  /** Consecutive runs in order are ordered pairwise. */
  lemma {:induction false} OrderedRuns<K>(rs: seq<Run<K>>, i: nat, j: nat)
    requires forall k :: 0 <= k < |rs| ==> rs[k].start <= rs[k].end
    requires forall k :: 0 <= k < |rs| - 1 ==> rs[k].end < rs[k + 1].start
    requires i < j < |rs|
    ensures rs[i].end < rs[j].start
    decreases j - i
  {
    if j > i + 1 {
      OrderedRuns(rs, i, j - 1);
    }
  }

  lemma DropBackground<K>(row: seq<Option<K>>, x: nat, rs: seq<Run<K>>)
    requires x < |row| && row[x].None? && MaximalRunsFrom(row, x, rs)
    ensures MaximalRunsFrom(row, x + 1, rs)
  {
    assert rs != [] ==> x < rs[0].start;
  }

  lemma FirstRunAt<K>(row: seq<Option<K>>, x: nat, rs: seq<Run<K>>)
    requires x < |row| && row[x].Some? && MaximalRunsFrom(row, x, rs)
    ensures rs != [] && rs[0] == Run(x, RunEnd(row, x, row[x].value), row[x].value)
  {
    var k := row[x].value;
    assert !Blank(row, x, |row|);
    assert rs != [];
    assert Blank(row, x, rs[0].start);
    assert IsMaximalRunWithin(row, |row|, rs[0]);
    assert rs[0].start == x;
    assert row[x] == Some(rs[0].key);
    var r := rs[0];
    assert r.key == k && r.start == x;
    RunEndMaximal(row, r);
    SameStartSameRun(row, |row|, r, Run(x, RunEnd(row, x, k), k));
  }

  /** The stretch RunEnd measures from the start of a maximal run is a maximal run. */
  lemma RunEndMaximal<K>(row: seq<Option<K>>, r: Run<K>)
    requires IsMaximalRunWithin(row, |row|, r)
    ensures IsMaximalRunWithin(row, |row|, Run(r.start, RunEnd(row, r.start, r.key), r.key))
  {
  }

  lemma DropFirstRun<K>(row: seq<Option<K>>, x: nat, rs: seq<Run<K>>)
    requires x < |row| && row[x].Some? && MaximalRunsFrom(row, x, rs)
    ensures rs != [] && rs[0] == Run(x, RunEnd(row, x, row[x].value), row[x].value)
    ensures MaximalRunsFrom(row, rs[0].end + 1, rs[1..])
  {
    FirstRunAt(row, x, rs);
    LaterRunsMaximal(row, x, rs);
    var e := rs[0].end;
    var rest := rs[1..];
    forall i | 0 <= i < |rest| - 1
      ensures rest[i].end < rest[i + 1].start && Blank(row, rest[i].end + 1, rest[i + 1].start)
    {
      assert rest[i] == rs[i + 1] && rest[i + 1] == rs[i + 2];
    }
    if rest == [] {
      assert Blank(row, e + 1, |row|);
    } else {
      assert rest[0] == rs[1] && rest[|rest| - 1] == rs[|rs| - 1];
      assert 0 < |rs| - 1 && Blank(row, rs[0].end + 1, rs[1].start);
    }
  }

  /** The runs after the first are maximal and start after it ends. */
  lemma LaterRunsMaximal<K>(row: seq<Option<K>>, x: nat, rs: seq<Run<K>>)
    requires x <= |row| && MaximalRunsFrom(row, x, rs) && rs != []
    ensures forall i :: 1 <= i < |rs| ==> IsMaximalRunWithin(row, |row|, rs[i]) && rs[0].end + 1 <= rs[i].start
  {
    forall i | 1 <= i < |rs|
      ensures IsMaximalRunWithin(row, |row|, rs[i]) && rs[0].end + 1 <= rs[i].start
    {
      OrderedRuns(rs, 0, i);
    }
  }

  /** The maximal-run description determines the runs: it admits only what RunsFrom finds. */
  lemma {:induction false} MaximalRunsFromDetermined<K>(row: seq<Option<K>>, x: nat, rs: seq<Run<K>>)
    requires x <= |row| && MaximalRunsFrom(row, x, rs)
    ensures rs == RunsFrom(row, x)
    decreases |row| - x
  {
    if x == |row| {
      assert rs == [];
    } else if row[x].None? {
      DropBackground(row, x, rs);
      MaximalRunsFromDetermined(row, x + 1, rs);
      RunsFromBackground(row, x);
    } else {
      DropFirstRun(row, x, rs);
      MaximalRunsFromDetermined(row, rs[0].end + 1, rs[1..]);
      RunsFromRun(row, x, rs);
    }
  }

  lemma RunsFromBackground<K>(row: seq<Option<K>>, x: nat)
    requires x < |row| && row[x].None?
    ensures RunsFrom(row, x) == RunsFrom(row, x + 1)
  {
  }

  lemma RunsFromRun<K>(row: seq<Option<K>>, x: nat, rs: seq<Run<K>>)
    requires x < |row| && row[x].Some?
    requires rs != [] && rs[0] == Run(x, RunEnd(row, x, row[x].value), row[x].value)
    requires rs[1..] == RunsFrom(row, rs[0].end + 1)
    ensures rs == RunsFrom(row, x)
  {
    var k := row[x].value;
    var e := RunEnd(row, x, k);
    assert RunsFrom(row, x) == [Run(x, e, k)] + RunsFrom(row, e + 1);
    assert rs == [rs[0]] + rs[1..];
  }

  /** Anything that satisfies the maximal-run description is what Runs computes. */
  lemma MaximalRunsAreRuns<K>(row: seq<Option<K>>, runs: seq<Run<K>>)
    requires MaximalRuns(row, runs)
    ensures runs == Runs(row)
  {
    assert MaximalRunsFrom(row, 0, runs);
    MaximalRunsFromDetermined(row, 0, runs);
  }

  /** Maximal runs are unique, so a scanner's output is determined by the row. */
  lemma MaximalRunsUnique<K>(row: seq<Option<K>>, a: seq<Run<K>>, b: seq<Run<K>>)
    requires MaximalRuns(row, a) && MaximalRuns(row, b)
    ensures a == b
  {
    MaximalRunsAreRuns(row, a);
    MaximalRunsAreRuns(row, b);
  }

  /** One step of a left-to-right scan: the runs of the first x + 1 cells, given those of
      the first x cells and the class c of cell x. A foreground cell extends the last run
      when that run ends at x - 1 with the same key, and opens a new run otherwise. */
  function Advance<K(==)>(P: seq<Run<K>>, x: nat, c: Option<K>): seq<Run<K>>
  {
    match c
    case None => P
    case Some(k) =>
      if P != [] && P[|P| - 1].end + 1 == x && P[|P| - 1].key == k
      then P[..|P| - 1] + [Run(P[|P| - 1].start, x, k)]
      else P + [Run(x, x, k)]
  }

  lemma AdvanceOverBackground<K>(row: seq<Option<K>>, x: nat, P: seq<Run<K>>)
    requires x < |row| && row[x].None? && MaximalRunsWithin(row, x, P)
    ensures MaximalRunsWithin(row, x + 1, P)
  {
    forall i | 0 <= i < |P|
      ensures IsMaximalRunWithin(row, x + 1, P[i])
    {
      assert IsMaximalRunWithin(row, x, P[i]);
    }
  }

  lemma AdvanceExtends<K>(row: seq<Option<K>>, x: nat, P: seq<Run<K>>)
    requires x < |row| && MaximalRunsWithin(row, x, P)
    requires P != [] && P[|P| - 1].end + 1 == x && row[x] == Some(P[|P| - 1].key)
    ensures MaximalRunsWithin(row, x + 1, Advance(P, x, row[x]))
  {
    var n := |P|;
    var last := P[n - 1];
    var grown := Run(last.start, x, last.key);
    var Q := Advance(P, x, row[x]);
    assert Q == P[..n - 1] + [grown];
    assert IsMaximalRunWithin(row, x, last);
    forall y | grown.start <= y <= grown.end
      ensures row[y] == Some(grown.key)
    {
    }
    assert IsMaximalRunWithin(row, x + 1, grown);
    assert Q[n - 1] == grown;
    forall i | 0 <= i < n - 1
      ensures Q[i] == P[i] && IsMaximalRunWithin(row, x + 1, Q[i])
    {
      assert IsMaximalRunWithin(row, x, P[i]);
      OrderedRuns(P, i, n - 1);
    }
    forall i | 0 <= i < |Q| - 1
      ensures Q[i].end < Q[i + 1].start && Blank(row, Q[i].end + 1, Q[i + 1].start)
    {
      assert Q[i] == P[i];
      assert Q[i + 1].start == P[i + 1].start;
    }
    assert Q[0].start == P[0].start;
  }

  lemma AdvanceOpens<K>(row: seq<Option<K>>, x: nat, P: seq<Run<K>>)
    requires x < |row| && MaximalRunsWithin(row, x, P) && row[x].Some?
    requires !(P != [] && P[|P| - 1].end + 1 == x && P[|P| - 1].key == row[x].value)
    ensures MaximalRunsWithin(row, x + 1, Advance(P, x, row[x]))
  {
    var k := row[x].value;
    var Q := Advance(P, x, row[x]);
    assert Q == P + [Run(x, x, k)];
    SingleCellRun(row, x, P);
    assert Q[|P|] == Run(x, x, k);
    EarlierRunsStayMaximal(row, x, P);
    forall i | 0 <= i < |P|
      ensures Q[i] == P[i] && IsMaximalRunWithin(row, x + 1, Q[i])
    {
    }
    forall i | 0 <= i < |Q| - 1
      ensures Q[i].end < Q[i + 1].start && Blank(row, Q[i].end + 1, Q[i + 1].start)
    {
      if i < |P| - 1 {
        assert Q[i] == P[i] && Q[i + 1] == P[i + 1];
      }
    }
  }

  /** A foreground cell that does not continue the last run is a maximal run of one cell
      within the first x + 1 cells. */
  lemma SingleCellRun<K>(row: seq<Option<K>>, x: nat, P: seq<Run<K>>)
    requires x < |row| && MaximalRunsWithin(row, x, P) && row[x].Some?
    requires !(P != [] && P[|P| - 1].end + 1 == x && P[|P| - 1].key == row[x].value)
    ensures IsMaximalRunWithin(row, x + 1, Run(x, x, row[x].value))
  {
    if x > 0 {
      if P != [] && P[|P| - 1].end == x - 1 {
        assert row[x - 1] == Some(P[|P| - 1].key);
      } else {
        assert row[x - 1].None?;
      }
    }
  }

  /** Runs that end before x stay maximal within x + 1 cells unless cell x continues the last. */
  lemma EarlierRunsStayMaximal<K>(row: seq<Option<K>>, x: nat, P: seq<Run<K>>)
    requires x < |row| && MaximalRunsWithin(row, x, P)
    requires !(P != [] && P[|P| - 1].end + 1 == x && row[x] == Some(P[|P| - 1].key))
    ensures forall i :: 0 <= i < |P| ==> IsMaximalRunWithin(row, x + 1, P[i])
  {
    forall i | 0 <= i < |P|
      ensures IsMaximalRunWithin(row, x + 1, P[i])
    {
      assert IsMaximalRunWithin(row, x, P[i]);
      if i < |P| - 1 {
        OrderedRuns(P, i, |P| - 1);
      }
    }
  }

  /** The scan step keeps the runs maximal for the longer prefix. */
  lemma AdvanceKeepsMaximal<K>(row: seq<Option<K>>, x: nat, P: seq<Run<K>>)
    requires x < |row| && MaximalRunsWithin(row, x, P)
    ensures MaximalRunsWithin(row, x + 1, Advance(P, x, row[x]))
  {
    if row[x].None? {
      AdvanceOverBackground(row, x, P);
    } else if P != [] && P[|P| - 1].end + 1 == x && P[|P| - 1].key == row[x].value {
      AdvanceExtends(row, x, P);
    } else {
      AdvanceOpens(row, x, P);
    }
  }

  /** Maximal runs are pairwise ordered and disjoint: a run ends before any later one starts. */
  lemma MaximalRunsOrdered<K>(row: seq<Option<K>>, runs: seq<Run<K>>)
    requires MaximalRuns(row, runs)
    ensures forall i, j :: 0 <= i < j < |runs| ==> runs[i].end < runs[j].start
  {
    forall i, j | 0 <= i < j < |runs|
      ensures runs[i].end < runs[j].start
    {
      OrderedRuns(runs, i, j);
    }
  }

  /** A cell is foreground exactly when a run covers it; then exactly one run covers it,
      and the cell carries that run's key. */
  lemma CoveredExactlyOnce<K>(row: seq<Option<K>>, runs: seq<Run<K>>, x: nat)
    requires MaximalRuns(row, runs) && x < |row|
    ensures row[x].Some? <==> exists i :: 0 <= i < |runs| && runs[i].start <= x <= runs[i].end
    ensures forall i :: 0 <= i < |runs| && runs[i].start <= x <= runs[i].end ==> row[x] == Some(runs[i].key)
    ensures forall i, j ::
      0 <= i < |runs| && 0 <= j < |runs| && runs[i].start <= x <= runs[i].end && runs[j].start <= x <= runs[j].end
      ==> i == j
  {
    MaximalRunsOrdered(row, runs);
    if row[x].Some? {
      assert runs != [] && runs[0].start <= x;
      var i := 0;
      while i + 1 < |runs| && runs[i + 1].start <= x
        invariant 0 <= i < |runs| && runs[i].start <= x
      {
        i := i + 1;
      }
      assert IsMaximalRunWithin(row, |row|, runs[i]);
      assert runs[i].start <= x <= runs[i].end;
    }
    forall i | 0 <= i < |runs| && runs[i].start <= x <= runs[i].end
      ensures row[x] == Some(runs[i].key)
    {
      assert IsMaximalRunWithin(row, |row|, runs[i]);
    }
  }

  /** What one scan step does to the runs found so far when cell x is foreground with key k:
      it either lengthens the open last run or opens a new one-cell run. */
  lemma AdvanceSplit<K>(P: seq<Run<K>>, x: nat, k: K)
    ensures var Q := Advance(P, x, Some(k));
      && Q != [] && Q[|Q| - 1].end == x && Q[|Q| - 1].key == k
      && if P != [] && P[|P| - 1].end + 1 == x && P[|P| - 1].key == k
         then Q[..|Q| - 1] == P[..|P| - 1] && Q[|Q| - 1].start == P[|P| - 1].start
         else Q[..|Q| - 1] == P && Q[|Q| - 1].start == x
  {
    var Q := Advance(P, x, Some(k));
    if P != [] && P[|P| - 1].end + 1 == x && P[|P| - 1].key == k {
      assert Q[..|Q| - 1] == P[..|P| - 1];
    } else {
      assert Q[..|Q| - 1] == P;
    }
  }

  /** The state of a left-to-right scan after cells 0..x-1 of row: P are the maximal runs
      so far. A scan keeps at most one run open, the last of P, which started at startX
      and reaches cell x-1; Closed are the runs it has finished. */
  ghost predicate Scanned<K>(row: seq<Option<K>>, x: nat, P: seq<Run<K>>, isOpen: bool, startX: int, Closed: seq<Run<K>>)
  {
    && x <= |row|
    && MaximalRunsWithin(row, x, P)
    && (isOpen <==> P != [] && P[|P| - 1].end + 1 == x)
    && (isOpen ==> P[|P| - 1].start == startX && Closed == P[..|P| - 1])
    && (!isOpen ==> Closed == P)
  }

  lemma ScanStart<K>(row: seq<Option<K>>, startX: int)
    ensures Scanned(row, 0, [], false, startX, [])
  {
  }

  /** A background cell closes the open run, if there is one. */
  lemma ScanBackground<K>(row: seq<Option<K>>, x: nat, P: seq<Run<K>>, isOpen: bool, startX: int, Closed: seq<Run<K>>)
    requires Scanned(row, x, P, isOpen, startX, Closed)
    requires x < |row| && row[x].None?
    ensures Advance(P, x, row[x]) == P
    ensures Scanned(row, x + 1, P, false, startX, P)
    ensures isOpen ==> P == Closed + [Run(startX, x - 1, P[|P| - 1].key)]
  {
    AdvanceKeepsMaximal(row, x, P);
    if isOpen {
      assert P == P[..|P| - 1] + [P[|P| - 1]];
    }
  }

  /** A cell with the open run's key lengthens that run. */
  lemma ScanSame<K>(row: seq<Option<K>>, x: nat, P: seq<Run<K>>, startX: int, Closed: seq<Run<K>>, k: K)
    requires Scanned(row, x, P, true, startX, Closed)
    requires x < |row| && row[x] == Some(k) && P[|P| - 1].key == k
    ensures Scanned(row, x + 1, Advance(P, x, row[x]), true, startX, Closed)
  {
    AdvanceKeepsMaximal(row, x, P);
    AdvanceSplit(P, x, k);
  }

  /** A foreground cell that does not continue the open run closes it, if there is one, and
      opens a run of its own. */
  lemma ScanNew<K>(row: seq<Option<K>>, x: nat, P: seq<Run<K>>, isOpen: bool, startX: int, Closed: seq<Run<K>>, k: K)
    requires Scanned(row, x, P, isOpen, startX, Closed)
    requires x < |row| && row[x] == Some(k) && (isOpen ==> P[|P| - 1].key != k)
    ensures Scanned(row, x + 1, Advance(P, x, row[x]), true, x, P)
    ensures isOpen ==> P == Closed + [Run(startX, x - 1, P[|P| - 1].key)]
  {
    AdvanceKeepsMaximal(row, x, P);
    AdvanceSplit(P, x, k);
    if isOpen {
      assert P == P[..|P| - 1] + [P[|P| - 1]];
    }
  }

  /** At the end of the row the runs found are the row's maximal runs; the open run, if
      there is one, reaches the last cell. */
  lemma ScanEnd<K>(row: seq<Option<K>>, P: seq<Run<K>>, isOpen: bool, startX: int, Closed: seq<Run<K>>)
    requires Scanned(row, |row|, P, isOpen, startX, Closed)
    ensures MaximalRuns(row, P)
    ensures isOpen ==> P == Closed + [Run(startX, |row| - 1, P[|P| - 1].key)]
    ensures !isOpen ==> P == Closed
  {
    if isOpen {
      assert P == P[..|P| - 1] + [P[|P| - 1]];
    }
  }
}
