/** The rows of the dataset table and the value-level definitions of what
    `split_by_stratification` does to them (pdds/pdds.py, lines 85-106). */
module Rows {
  import opened Wrappers
  import opened Sorted
  import opened Counting

  /** One sample. `tag` holds the value of the `label` column; `tag` and `split`
      are `None` when the table has no such column. */
  datatype Row = Row(filepath: string, tag: Option<string>, split: Option<string>)

  /** Columns are per table: every row has a label exactly when the table
      has a label column, and likewise for the split column. */
  ghost predicate WellFormed(rows: seq<Row>, hasLabel: bool, hasSplit: bool)
  {
    forall i :: 0 <= i < |rows| ==> rows[i].tag.Some? == hasLabel && rows[i].split.Some? == hasSplit
  }

  ghost predicate AllLabelled(rows: seq<Row>)
  {
    forall i :: 0 <= i < |rows| ==> rows[i].tag.Some?
  }

  ghost predicate AllSplit(rows: seq<Row>)
  {
    forall i :: 0 <= i < |rows| ==> rows[i].split.Some?
  }

  /** The `label` column's values, in row order. */
  function LabelColumn(rows: seq<Row>): seq<string>
    requires AllLabelled(rows)
  {
    seq(|rows|, i requires 0 <= i < |rows| => rows[i].tag.value)
  }

  /** The `split` column's values, in row order. */
  function SplitColumn(rows: seq<Row>): seq<string>
    requires AllSplit(rows)
  {
    seq(|rows|, i requires 0 <= i < |rows| => rows[i].split.value)
  }

  lemma SplitColumnValues(rows: seq<Row>)
    requires AllSplit(rows)
    ensures forall s :: s in SplitColumn(rows) <==> exists i :: 0 <= i < |rows| && rows[i].split == Some(s)
  {
    var col := SplitColumn(rows);
    forall s | s in col
      ensures exists i :: 0 <= i < |rows| && rows[i].split == Some(s)
    {
      var i :| 0 <= i < |col| && col[i] == s;
      assert rows[i].split == Some(s);
    }
    forall s | exists i :: 0 <= i < |rows| && rows[i].split == Some(s)
      ensures s in col
    {
      var i :| 0 <= i < |rows| && rows[i].split == Some(s);
      assert col[i] == s;
    }
  }

  /** Assigning a path column of the right length: every row gets the path
      at its position and keeps its label and split. */
  function WithPaths(rows: seq<Row>, paths: seq<string>): (r: seq<Row>)
    requires |rows| == |paths|
    ensures |r| == |rows|
    ensures forall i :: 0 <= i < |r| ==>
      r[i].filepath == paths[i] && r[i].tag == rows[i].tag && r[i].split == rows[i].split
  {
    seq(|rows|, i requires 0 <= i < |rows| => rows[i].(filepath := paths[i]))
  }

  /** Assigning a path column to a table with no rows and no other columns:
      one unlabelled, unsplit row per path. */
  function FromPaths(paths: seq<string>): (r: seq<Row>)
    ensures |r| == |paths|
    ensures forall i :: 0 <= i < |r| ==> r[i].filepath == paths[i] && r[i].tag.None? && r[i].split.None?
  {
    seq(|paths|, i requires 0 <= i < |paths| => Row(paths[i], None, None))
  }

  // ---------------------------------------------------------------------
  // Counting by (label, split), the cells of `count_splits`.
  // ---------------------------------------------------------------------

  /** The split values of the rows labelled `c`, in row order. */
  function SplitsOfClass(rows: seq<Row>, c: string): seq<string>
    requires AllSplit(rows)
    decreases |rows|
  {
    if |rows| == 0 then []
    else
      var last := rows[|rows| - 1];
      SplitsOfClass(rows[..|rows| - 1], c) + (if last.tag == Some(c) then [last.split.value] else [])
  }

  /** The rows labelled `c` are as many as the label column says. */
  lemma {:induction false} SplitsOfClassLength(rows: seq<Row>, c: string)
    requires AllLabelled(rows) && AllSplit(rows)
    ensures |SplitsOfClass(rows, c)| == Count(LabelColumn(rows), c)
    decreases |rows|
  {
    if |rows| > 0 {
      var n := |rows| - 1;
      SplitsOfClassLength(rows[..n], c);
      assert LabelColumn(rows) == LabelColumn(rows[..n]) + [rows[n].tag.value];
      CountSnoc(LabelColumn(rows[..n]), rows[n].tag.value, c);
    }
  }

  /** The count of split `s` among the rows labelled `c` is the number of
      rows that carry both. */
  lemma {:induction false} CountOfClassSplit(rows: seq<Row>, c: string, s: string)
    requires AllSplit(rows)
    ensures Count(SplitsOfClass(rows, c), s) == |Pool(rows, c, s)|
    decreases |rows|
  {
    if |rows| > 0 {
      var n := |rows| - 1;
      var init := rows[..n];
      CountOfClassSplit(init, c, s);
      var before := SplitsOfClass(init, c);
      if rows[n].tag == Some(c) {
        assert SplitsOfClass(rows, c) == before + [rows[n].split.value];
        CountSnoc(before, rows[n].split.value, s);
      } else {
        assert SplitsOfClass(rows, c) == before;
      }
      PoolSnoc(rows, c, s);
    }
  }

  /** The pool of a table is the pool of all but its last row, plus the
      last row when it qualifies. */
  lemma PoolSnoc(rows: seq<Row>, c: string, s: string)
    requires |rows| > 0
    ensures var n := |rows| - 1;
      Pool(rows, c, s) == Pool(rows[..n], c, s) + (if rows[n].tag == Some(c) && rows[n].split == Some(s) then {n} else {})
  {
    var n := |rows| - 1;
    var init := rows[..n];
    forall i: nat
      ensures i in Pool(rows, c, s) <==> i in Pool(init, c, s) || (i == n && rows[n].tag == Some(c) && rows[n].split == Some(s))
    {
      if i < n {
        assert init[i] == rows[i];
      }
    }
  }

  lemma CountOfClassSplitTable(rows: seq<Row>, classes: seq<string>, splits: seq<string>)
    requires AllSplit(rows)
    ensures forall i, j :: 0 <= i < |classes| && 0 <= j < |splits| ==>
      CountsOf(SplitsOfClass(rows, classes[i]), splits)[j] == |Pool(rows, classes[i], splits[j])|
  {
    forall i, j | 0 <= i < |classes| && 0 <= j < |splits| {
      CountOfClassSplit(rows, classes[i], splits[j]);
    }
  }

  /** The cross-tabulation: for the i-th class and the j-th split, the
      number of rows labelled with that class and in that split. */
  function CrossCounts(rows: seq<Row>, classes: seq<string>, splits: seq<string>): (m: seq<seq<nat>>)
    requires AllSplit(rows)
    ensures |m| == |classes|
    ensures forall i :: 0 <= i < |m| ==> (|m[i]| == |splits| &&
      forall j :: 0 <= j < |splits| ==> m[i][j] == |Pool(rows, classes[i], splits[j])|)
  {
    CountOfClassSplitTable(rows, classes, splits);
    seq(|classes|, i requires 0 <= i < |classes| => CountsOf(SplitsOfClass(rows, classes[i]), splits))
  }

  lemma {:induction false} SplitsOfClassValues(rows: seq<Row>, c: string)
    requires AllLabelled(rows) && AllSplit(rows)
    ensures forall s :: s in SplitsOfClass(rows, c) ==> s in SplitColumn(rows)
    decreases |rows|
  {
    if |rows| > 0 {
      var n := |rows| - 1;
      SplitsOfClassValues(rows[..n], c);
      assert SplitColumn(rows) == SplitColumn(rows[..n]) + [rows[n].split.value];
    }
  }

  /** Summing a class's row of the cross-tabulation over all split values
      gives the number of rows of that class. */
  lemma CrossCountsRowTotal(rows: seq<Row>, splits: seq<string>, c: string)
    requires AllLabelled(rows) && AllSplit(rows)
    requires Distinct(splits)
    requires forall s :: s in SplitColumn(rows) ==> s in splits
    ensures Total(CountsOf(SplitsOfClass(rows, c), splits)) == Count(LabelColumn(rows), c)
  {
    SplitsOfClassValues(rows, c);
    CountsPartition(SplitsOfClass(rows, c), splits);
    SplitsOfClassLength(rows, c);
  }

  // ---------------------------------------------------------------------
  // Stratified splitting.
  // ---------------------------------------------------------------------

  /** `self._obj['split'] = origin`: every row's split becomes `origin`. */
  function Reset(rows: seq<Row>, origin: string): (r: seq<Row>)
    ensures |r| == |rows| && AllSplit(r)
    ensures forall i :: 0 <= i < |r| ==>
      r[i].filepath == rows[i].filepath && r[i].tag == rows[i].tag && r[i].split == Some(origin)
  {
    seq(|rows|, i requires 0 <= i < |rows| => rows[i].(split := Some(origin)))
  }

  /** The rows labelled `c` and currently in split `origin`: the rows a
      class can give up. */
  function Pool(rows: seq<Row>, c: string, origin: string): (p: set<nat>)
    ensures forall i :: i in p ==> i < |rows| && rows[i].tag == Some(c)
  {
    set i: nat | i < |rows| && rows[i].tag == Some(c) && rows[i].split == Some(origin)
  }

  /** `self._obj.loc[picked, 'split'] = to`: the picked rows move to `to`. */
  function Flipped(rows: seq<Row>, pick: set<nat>, to: string): (r: seq<Row>)
    ensures |r| == |rows|
    ensures forall i :: 0 <= i < |r| ==>
      r[i].filepath == rows[i].filepath && r[i].tag == rows[i].tag &&
      r[i].split == (if i in pick then Some(to) else rows[i].split)
  {
    seq(|rows|, i requires 0 <= i < |rows| => if i in pick then rows[i].(split := Some(to)) else rows[i])
  }

  function UnionOf(picks: seq<set<nat>>): set<nat>
    decreases |picks|
  {
    if |picks| == 0 then {} else UnionOf(picks[..|picks| - 1]) + picks[|picks| - 1]
  }

  /** The number of rows moved for one class: `k`, or the whole pool when it is smaller. */
  function SampleSize(k: nat, available: nat): (m: nat)
    ensures m <= k && m <= available
    ensures m == k || m == available
  {
    if k <= available then k else available
  }

  /** What `DataFrame.sample(k)` (without replacement) does with a pool of
      `available` rows: `None` stands for the ValueError it raises when
      `k` exceeds the pool. */
  function SampleSizeAsWritten(k: nat, available: nat): (m: Option<nat>)
    ensures m.Some? <==> k <= available
    ensures m.Some? ==> m.value == k
  {
    if k <= available then Some(k) else None
  }

  /** A class with one row in `origin` and `k = 5`: the sampling call raises,
      where the documented behaviour moves that one row. */
  lemma SampleSizeAsWrittenRaisesOnSmallClass()
    ensures SampleSizeAsWritten(5, 1).None?
    ensures SampleSize(5, 1) == 1
  {
  }

  /** Where the call does not raise, the clamped size is the size it samples. */
  lemma SampleSizeAgreesWhenPoolSuffices(k: nat, available: nat)
    requires k <= available
    ensures SampleSizeAsWritten(k, available) == Some(SampleSize(k, available))
  {
  }

  /** One sample per class: `picks[j]` is drawn from the pool of `classes[j]`
      in `start` and has the clamped size. */
  ghost predicate StratifiedSample(start: seq<Row>, classes: seq<string>, k: nat, origin: string, picks: seq<set<nat>>)
  {
    |picks| == |classes| &&
    forall j :: 0 <= j < |classes| ==>
      picks[j] <= Pool(start, classes[j], origin) && |picks[j]| == SampleSize(k, |Pool(start, classes[j], origin)|)
  }

  /** Drawing the next class's sample extends a stratified sample by one class. */
  lemma StratifiedSampleStep(start: seq<Row>, classes: seq<string>, k: nat, origin: string,
                             picks: seq<set<nat>>, j: nat, pick: set<nat>)
    requires j < |classes| && StratifiedSample(start, classes[..j], k, origin, picks)
    requires pick <= Pool(start, classes[j], origin)
    requires |pick| == SampleSize(k, |Pool(start, classes[j], origin)|)
    ensures StratifiedSample(start, classes[..j + 1], k, origin, picks + [pick])
    ensures UnionOf(picks + [pick]) == UnionOf(picks) + pick
  {
    assert (picks + [pick])[..|picks|] == picks;
    assert forall n :: 0 <= n < j ==> classes[..j + 1][n] == classes[..j][n];
  }

  /** A finite set has subsets of every size up to its own. */
  lemma {:induction false} SubsetOfSize(s: set<nat>, m: nat)
    requires m <= |s|
    ensures exists t: set<nat> :: t <= s && |t| == m
    decreases m
  {
    if m == 0 {
      var e: set<nat> := {};
      assert e <= s && |e| == 0;
    } else {
      var x :| x in s;
      SubsetOfSize(s - {x}, m - 1);
      var t: set<nat> :| t <= s - {x} && |t| == m - 1;
      assert t + {x} <= s && |t + {x}| == m;
    }
  }

  lemma FlippedTwice(rows: seq<Row>, a: set<nat>, b: set<nat>, to: string)
    ensures Flipped(Flipped(rows, a, to), b, to) == Flipped(rows, a + b, to)
  {
  }

  lemma {:induction false} InUnionOf(picks: seq<set<nat>>, i: nat)
    ensures i in UnionOf(picks) <==> exists j :: 0 <= j < |picks| && i in picks[j]
    decreases |picks|
  {
    if |picks| > 0 {
      var n := |picks| - 1;
      InUnionOf(picks[..n], i);
      assert forall j :: 0 <= j < n ==> picks[..n][j] == picks[j];
    }
  }

  /** Moving rows of the classes before `classes[j]` leaves the pool of
      `classes[j]` as it was: its rows have a different label. */
  lemma PoolUnaffected(start: seq<Row>, classes: seq<string>, k: nat, origin: string, to: string,
                       picks: seq<set<nat>>, j: nat)
    requires Distinct(classes) && j < |classes|
    requires StratifiedSample(start, classes[..j], k, origin, picks)
    ensures Pool(Flipped(start, UnionOf(picks), to), classes[j], origin) == Pool(start, classes[j], origin)
  {
    var u := UnionOf(picks);
    forall i: nat | i < |start| && i in u
      ensures start[i].tag != Some(classes[j])
    {
      InUnionOf(picks, i);
      var j' :| 0 <= j' < |picks| && i in picks[j'];
      assert classes[..j][j'] == classes[j'];
    }
  }

  /** Moving rows between splits leaves the label column as it was. */
  lemma FlippedKeepsLabels(rows: seq<Row>, pick: set<nat>, to: string)
    requires AllLabelled(rows)
    ensures AllLabelled(Flipped(rows, pick, to))
    ensures LabelColumn(Flipped(rows, pick, to)) == LabelColumn(rows)
  {
  }

  /** Rows of class `c` whose row changed between `before` and `after`. */
  function Moved(before: seq<Row>, after: seq<Row>, c: string): set<nat>
  {
    set i: nat | i < |before| && i < |after| && before[i].tag == Some(c) && after[i] != before[i]
  }

  /** What a stratified pass does to the rows, whatever sample it draws:
      row count, order, paths and labels stay; every split either stays or
      becomes `to`; and only rows that were in `origin` move. */
  lemma StratifiedKeepsRows(start: seq<Row>, classes: seq<string>, k: nat, origin: string, to: string,
                            picks: seq<set<nat>>)
    requires StratifiedSample(start, classes, k, origin, picks)
    ensures var final := Flipped(start, UnionOf(picks), to);
      |final| == |start| &&
      forall i :: 0 <= i < |start| ==>
        final[i].filepath == start[i].filepath && final[i].tag == start[i].tag &&
        (final[i] == start[i] || (start[i].split == Some(origin) && final[i].split == Some(to)))
  {
    var final := Flipped(start, UnionOf(picks), to);
    forall i | 0 <= i < |start| && final[i] != start[i]
      ensures start[i].split == Some(origin)
    {
      InUnionOf(picks, i);
      var j :| 0 <= j < |picks| && i in picks[j];
    }
  }

  /** For each class, the rows that move are exactly its sample: as many as
      `SampleSize(k, pool)`, all taken from the class's rows in `origin`; the
      rest of that pool stays in `origin`. */
  lemma StratifiedMovesSample(start: seq<Row>, classes: seq<string>, k: nat, origin: string, to: string,
                              picks: seq<set<nat>>, j: nat)
    requires Distinct(classes) && StratifiedSample(start, classes, k, origin, picks)
    requires origin != to && j < |classes|
    ensures var final := Flipped(start, UnionOf(picks), to);
      Moved(start, final, classes[j]) == picks[j] &&
      |Moved(start, final, classes[j])| == SampleSize(k, |Pool(start, classes[j], origin)|) &&
      Moved(start, final, classes[j]) <= Pool(start, classes[j], origin) &&
      Pool(final, classes[j], origin) == Pool(start, classes[j], origin) - picks[j]
  {
    var final := Flipped(start, UnionOf(picks), to);
    var c := classes[j];
    forall i: nat | i < |start| && start[i].tag == Some(c)
      ensures i in UnionOf(picks) <==> i in picks[j]
    {
      InUnionOf(picks, i);
      if i in UnionOf(picks) {
        var j' :| 0 <= j' < |picks| && i in picks[j'];
        assert classes[j'] == c;
      }
    }
    assert Moved(start, final, c) == picks[j];
  }

  /** After the pass the class has `SampleSize(k, pool)` fewer rows in `origin`. */
  lemma StratifiedOriginShrinks(start: seq<Row>, classes: seq<string>, k: nat, origin: string, to: string,
                                picks: seq<set<nat>>, j: nat)
    requires Distinct(classes) && StratifiedSample(start, classes, k, origin, picks)
    requires origin != to && j < |classes|
    ensures var final := Flipped(start, UnionOf(picks), to);
      |Pool(final, classes[j], origin)| == |Pool(start, classes[j], origin)| - SampleSize(k, |Pool(start, classes[j], origin)|)
  {
    var final := Flipped(start, UnionOf(picks), to);
    StratifiedMovesSample(start, classes, k, origin, to, picks, j);
    var before, after := Pool(start, classes[j], origin), Pool(final, classes[j], origin);
    assert before == after + picks[j] && after * picks[j] == {};
  }

  /** After the pass the class's rows in `to` are those that were there plus the sample. */
  lemma StratifiedTargetGrows(start: seq<Row>, classes: seq<string>, k: nat, origin: string, to: string,
                              picks: seq<set<nat>>, j: nat)
    requires Distinct(classes) && StratifiedSample(start, classes, k, origin, picks)
    requires origin != to && j < |classes|
    ensures Pool(Flipped(start, UnionOf(picks), to), classes[j], to) == Pool(start, classes[j], to) + picks[j]
  {
    var final := Flipped(start, UnionOf(picks), to);
    var c := classes[j];
    StratifiedMovesSample(start, classes, k, origin, to, picks, j);
    var moved := Moved(start, final, c);
    assert moved == picks[j];
    forall i: nat
      ensures i in Pool(final, c, to) <==> i in Pool(start, c, to) || i in moved
    {
      if i < |start| && start[i].tag == Some(c) {
        assert final[i].tag == start[i].tag;
      }
    }
  }

  /** Once rows have left `origin` for `to1`, a later pass from `origin`
      to `to2` leaves them in `to1`: after both passes every row is in
      `origin`, `to1` or `to2`, and a row in `to2` was still in `origin`
      after the first pass. */
  lemma ChainedPassesNeverRetarget(r0: seq<Row>, classes: seq<string>, k1: nat, k2: nat,
                                   origin: string, to1: string, to2: string,
                                   picks1: seq<set<nat>>, picks2: seq<set<nat>>)
    requires forall i :: 0 <= i < |r0| ==> r0[i].split == Some(origin)
    requires to1 != origin
    requires StratifiedSample(r0, classes, k1, origin, picks1)
    requires StratifiedSample(Flipped(r0, UnionOf(picks1), to1), classes, k2, origin, picks2)
    ensures var r1 := Flipped(r0, UnionOf(picks1), to1);
      var r2 := Flipped(r1, UnionOf(picks2), to2);
      |r2| == |r0| &&
      (forall i :: 0 <= i < |r2| ==>
        r2[i].split == Some(origin) || r2[i].split == Some(to1) || r2[i].split == Some(to2)) &&
      (forall i :: 0 <= i < |r2| && r1[i].split == Some(to1) ==> r2[i].split == Some(to1)) &&
      (forall i :: 0 <= i < |r2| && r2[i].split == Some(to2) ==> r1[i].split == Some(origin) || to2 == to1)
  {
    var r1 := Flipped(r0, UnionOf(picks1), to1);
    StratifiedKeepsRows(r0, classes, k1, origin, to1, picks1);
    StratifiedKeepsRows(r1, classes, k2, origin, to2, picks2);
  }

  /** When every row has label `c` and split `origin`, the pool is every row. */
  lemma {:induction false} UniformPoolSize(start: seq<Row>, c: string, origin: string)
    requires forall i :: 0 <= i < |start| ==> start[i].tag == Some(c) && start[i].split == Some(origin)
    ensures |Pool(start, c, origin)| == |start|
    decreases |start|
  {
    if |start| > 0 {
      var init := start[..|start| - 1];
      UniformPoolSize(init, c, origin);
      assert Pool(start, c, origin) == Pool(init, c, origin) + {|start| - 1};
    }
  }

  /** Five `cat` rows, all in `train`, and `k = 2`: two move to `valid`
      and three stay in `train`, whichever two are drawn. */
  lemma FiveCatsTwoMove(start: seq<Row>, picks: seq<set<nat>>)
    requires |start| == 5
    requires forall i :: 0 <= i < 5 ==> start[i].tag == Some("cat") && start[i].split == Some("train")
    requires StratifiedSample(start, ["cat"], 2, "train", picks)
    ensures var final := Flipped(start, UnionOf(picks), "valid");
      |Pool(final, "cat", "valid")| == 2 && |Pool(final, "cat", "train")| == 3
  {
    assert "train" != "valid";
    UniformPoolSize(start, "cat", "train");
    assert Pool(start, "cat", "valid") == {};
    StratifiedOriginShrinks(start, ["cat"], 2, "train", "valid", picks, 0);
    StratifiedTargetGrows(start, ["cat"], 2, "train", "valid", picks, 0);
  }

  /** One `cat` row in `train` and `k = 5`: that one row moves, no error. */
  lemma OneCatClamped(start: seq<Row>, picks: seq<set<nat>>)
    requires |start| == 1
    requires start[0].tag == Some("cat") && start[0].split == Some("train")
    requires StratifiedSample(start, ["cat"], 5, "train", picks)
    ensures Flipped(start, UnionOf(picks), "valid")[0].split == Some("valid")
  {
    assert Pool(start, "cat", "train") == {0};
    assert |picks[0]| == 1;
    assert UnionOf(picks) == picks[0];
  }
}
