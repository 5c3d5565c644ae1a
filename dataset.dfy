/** The `dataset` accessor of pdds/pdds.py: a table of samples that is
    filled from a directory walk, labelled, split into partitions and
    summarised. The table is owned by the accessor instead of being a
    pandas DataFrame it is attached to. */
module Pdds {
  import opened Wrappers
  import opened Strings
  import opened Sorted
  import opened Counting
  import opened Crawler
  import opened Rows

  class Dataset {
    // The table: its rows and which columns it has.
    var rows: seq<Row>
    var hasFilepath: bool
    var hasLabel: bool
    var hasSplit: bool

    // The arguments of the last `from_folder` call; `None` before the first.
    var folder: Option<string>
    var includes: Option<seq<string>>
    var excludes: Option<seq<string>>

    /** Rows agree with the column flags; rows exist only once there is a
        filepath column, and a label column only once there are paths. */
    ghost predicate Valid()
      reads this
    {
      WellFormed(rows, hasLabel, hasSplit) &&
      (!hasFilepath ==> rows == []) &&
      (hasLabel ==> hasFilepath)
    }

    /** `pd.DataFrame()` with the accessor attached: no rows, no columns. */
    constructor ()
      ensures Valid()
      ensures rows == [] && !hasFilepath && !hasLabel && !hasSplit
      ensures folder.None? && includes.None? && excludes.None?
    {
      rows := [];
      hasFilepath, hasLabel, hasSplit := false, false, false;
      folder, includes, excludes := None, None, None;
    }

    // -------------------------------------------------------------------
    // Derived views.
    // -------------------------------------------------------------------

    /** The `labels` property: the label column in row order, or `None`. */
    function Labels(): (r: Option<seq<string>>)
      reads this
      requires Valid()
      ensures r.Some? <==> hasLabel
      ensures r.Some? ==> |r.value| == |rows| && forall i :: 0 <= i < |rows| ==> rows[i].tag == Some(r.value[i])
    {
      if hasLabel then Some(LabelColumn(rows)) else None
    }

    /** The `classes` property: the distinct labels, ascending, or `None`. */
    function Classes(): (r: Option<seq<string>>)
      reads this
      requires Valid()
      ensures r.Some? <==> hasLabel
      ensures r.Some? ==> StrictlyAscending(r.value)
      ensures r.Some? ==> forall c :: c in r.value <==> exists i :: 0 <= i < |rows| && rows[i].tag == Some(c)
    {
      match Labels()
      case None => None
      case Some(labels) => Some(SortedDistinct(labels))
    }

    /** The `splits` property: the distinct split values, ascending, or `None`. */
    function Splits(): (r: Option<seq<string>>)
      reads this
      requires Valid()
      ensures r.Some? <==> hasSplit
      ensures r.Some? ==> StrictlyAscending(r.value)
      ensures r.Some? ==> forall s :: s in r.value <==> exists i :: 0 <= i < |rows| && rows[i].split == Some(s)
    {
      if hasSplit then
        SplitColumnValues(rows);
        Some(SortedDistinct(SplitColumn(rows)))
      else None
    }

    /** The `y` property: each row's label encoded as its position in `classes`. */
    function Y(): (r: Option<seq<nat>>)
      reads this
      requires Valid()
      ensures r.Some? <==> hasLabel
      ensures r.Some? ==> (|r.value| == |rows| &&
        forall i :: 0 <= i < |rows| ==>
          r.value[i] < |Classes().value| && rows[i].tag == Some(Classes().value[r.value[i]]))
    {
      var classes := Classes();
      var labels := Labels();
      if classes.Some? && labels.Some? then
        assert forall i :: 0 <= i < |labels.value| ==> labels.value[i] in classes.value;
        Some(Encode(classes.value, labels.value))
      else None
    }

    /** `count_occurrences`: per class, in class order, how many rows carry
        that label; `None` (pandas raises KeyError) without a label column. */
    function CountOccurrences(): (r: Option<seq<(string, nat)>>)
      reads this
      requires Valid()
      ensures r.Some? <==> hasLabel
      ensures r.Some? ==> (|r.value| == |Classes().value| &&
        forall j :: 0 <= j < |r.value| ==>
          r.value[j].0 == Classes().value[j] && r.value[j].1 == Count(Labels().value, r.value[j].0) && r.value[j].1 > 0)
      ensures r.Some? ==> Total(Seconds(r.value)) == |rows|
    {
      match Labels()
      case None => None
      case Some(labels) => Some(Occurrences(labels))
    }

    /** `count_splits`: for the i-th class and the j-th split value, how many
        rows carry both; each class's counts add up to its occurrences.
        `None` (pandas raises KeyError) unless both columns exist. */
    function CountSplits(): (r: Option<seq<seq<nat>>>)
      reads this
      requires Valid()
      ensures r.Some? <==> hasLabel && hasSplit
      ensures r.Some? ==> (|r.value| == |Classes().value| &&
        forall i :: 0 <= i < |r.value| ==>
          |r.value[i]| == |Splits().value| &&
          Total(r.value[i]) == Count(Labels().value, Classes().value[i]) &&
          forall j :: 0 <= j < |r.value[i]| ==>
            r.value[i][j] == |Pool(rows, Classes().value[i], Splits().value[j])|)
    {
      if hasLabel && hasSplit then
        var classes := Classes().value;
        var splits := Splits().value;
        AscendingIsDistinct(splits);
        forall c | c in classes
          ensures Total(CountsOf(SplitsOfClass(rows, c), splits)) == Count(LabelColumn(rows), c)
        {
          CrossCountsRowTotal(rows, splits, c);
        }
        Some(CrossCounts(rows, classes, splits))
      else None
    }

    // -------------------------------------------------------------------
    // Crawler and labelers.
    // -------------------------------------------------------------------

    /** `from_folder`: records the arguments, keeps the walked paths that pass
        the include/exclude filter, in walk order, and assigns them as the
        filepath column (see `AssignPaths`). */
    method FromFolder(folder: string, includes: Option<seq<string>>, excludes: Option<seq<string>>,
                      walk: seq<string>)
      returns (ok: bool)
      requires Valid()
      modifies this
      ensures Valid()
      ensures this.folder == Some(folder) && this.includes == includes && this.excludes == excludes
      ensures ok <==> |old(rows)| == 0 || |old(rows)| == |Filter(walk, includes, excludes)|
      ensures !ok ==> rows == old(rows) && hasFilepath == old(hasFilepath) &&
                      hasLabel == old(hasLabel) && hasSplit == old(hasSplit)
      ensures ok ==> hasFilepath && |rows| == |Filter(walk, includes, excludes)| &&
                     forall i :: 0 <= i < |rows| ==> rows[i].filepath == Filter(walk, includes, excludes)[i]
      ensures ok && |old(rows)| == |Filter(walk, includes, excludes)| ==>
                hasLabel == old(hasLabel) && hasSplit == old(hasSplit) &&
                forall i :: 0 <= i < |rows| ==> rows[i].tag == old(rows)[i].tag && rows[i].split == old(rows)[i].split
      ensures ok && |old(rows)| != |Filter(walk, includes, excludes)| ==>
                !hasLabel && !hasSplit &&
                forall i :: 0 <= i < |rows| ==> rows[i].tag.None? && rows[i].split.None?
    {
      this.folder := Some(folder);
      this.includes := includes;
      this.excludes := excludes;
      var filepaths := FilterWalk(walk, includes, excludes);
      ok := AssignPaths(filepaths);
    }

    /** `self._obj['filepath'] = filepaths`. On a table with no rows the
        paths become the rows; on a table with as many rows as paths they
        replace the paths in place; any other length is pandas'
        length-mismatch ValueError, and nothing changes. */
    method AssignPaths(filepaths: seq<string>) returns (ok: bool)
      requires Valid()
      modifies this`rows, this`hasFilepath, this`hasLabel, this`hasSplit
      ensures Valid()
      ensures ok <==> |old(rows)| == 0 || |old(rows)| == |filepaths|
      ensures !ok ==> rows == old(rows) && hasFilepath == old(hasFilepath) &&
                      hasLabel == old(hasLabel) && hasSplit == old(hasSplit)
      ensures ok ==> hasFilepath && |rows| == |filepaths| &&
                     forall i :: 0 <= i < |rows| ==> rows[i].filepath == filepaths[i]
      ensures ok && |old(rows)| == |filepaths| ==>
                hasLabel == old(hasLabel) && hasSplit == old(hasSplit) &&
                forall i :: 0 <= i < |rows| ==> rows[i].tag == old(rows)[i].tag && rows[i].split == old(rows)[i].split
      ensures ok && |old(rows)| != |filepaths| ==>
                !hasLabel && !hasSplit &&
                forall i :: 0 <= i < |rows| ==> rows[i].tag.None? && rows[i].split.None?
    {
      if |rows| == |filepaths| {
        rows := WithPaths(rows, filepaths);
        hasFilepath := true;
        ok := true;
      } else if |rows| == 0 {
        rows := FromPaths(filepaths);
        hasFilepath, hasLabel, hasSplit := true, false, false;
        ok := true;
      } else {
        ok := false;
      }
    }

    /** `label_by_function`: the label of every row becomes `func` of its
        path, overwriting any earlier label. Without a filepath column pandas
        raises AttributeError and nothing changes. */
    method LabelByFunction(func: string --> string) returns (ok: bool)
      requires Valid()
      requires forall i :: 0 <= i < |rows| ==> func.requires(rows[i].filepath)
      modifies this`rows, this`hasLabel
      ensures Valid()
      ensures ok == hasFilepath
      ensures !ok ==> rows == old(rows) && hasLabel == old(hasLabel)
      ensures ok ==> (hasLabel && |rows| == |old(rows)| &&
        forall i :: 0 <= i < |rows| ==> rows[i] == old(rows)[i].(tag := Some(func(old(rows)[i].filepath))))
    {
      if !hasFilepath {
        return false;
      }
      var current := rows;
      rows := seq(|current|, i requires 0 <= i < |current| && func.requires(current[i].filepath) =>
                    current[i].(tag := Some(func(current[i].filepath))));
      hasLabel := true;
      ok := true;
    }

    /** `label_by_parent_folder`: every row is labelled with its parent folder.
        A path without '/' has a single segment, `[-2]` raises IndexError
        before the column is assigned, and nothing changes. */
    method LabelByParentFolder() returns (ok: bool)
      requires Valid()
      modifies this`rows, this`hasLabel
      ensures Valid()
      ensures ok == (hasFilepath && forall i :: 0 <= i < |old(rows)| ==> '/' in old(rows)[i].filepath)
      ensures !ok ==> rows == old(rows) && hasLabel == old(hasLabel)
      ensures ok ==> (hasLabel && |rows| == |old(rows)| &&
        forall i :: 0 <= i < |rows| ==> rows[i] == old(rows)[i].(tag := Some(ParentFolder(old(rows)[i].filepath))))
    {
      if !hasFilepath || exists i :: 0 <= i < |rows| && '/' !in rows[i].filepath {
        return false;
      }
      ok := LabelByFunction(ParentFolder);
    }

    // -------------------------------------------------------------------
    // Stratified splitter.
    // -------------------------------------------------------------------

    /** One iteration of the class loop: draw from the rows labelled `cls`
        and in `origin` a sample of `SampleSize(k, pool)` rows, chosen
        freely, and move them to `to`. */
    method FlipSample(cls: string, k: nat, origin: string, to: string) returns (ghost pick: set<nat>)
      requires Valid() && hasSplit
      modifies this`rows
      ensures Valid()
      ensures pick <= Pool(old(rows), cls, origin)
      ensures |pick| == SampleSize(k, |Pool(old(rows), cls, origin)|)
      ensures rows == Flipped(old(rows), pick, to)
    {
      var pool := Pool(rows, cls, origin);
      var size := SampleSize(k, |pool|);
      SubsetOfSize(pool, size);
      var sample: set<nat> :| sample <= pool && |sample| == size;
      rows := Flipped(rows, sample, to);
      pick := sample;
    }

    /** `split_by_stratification`: when `overwrite` is set or there is no
        split column, every row's split first becomes `origin`. Then, class
        by class in ascending order, a sample of the class's rows still in
        `origin` moves to `to` (see `StratifiedSample` for its size and
        `StratifiedKeepsRows`, `StratifiedMovesSample` for its effect).
        Without a label column the class loop raises TypeError after the
        reset, which `ok == false` stands for. The ghost results name the
        rows after the reset and the sample drawn for each class. */
    method SplitByStratification(k: nat, origin: string, to: string, overwrite: bool)
      returns (ok: bool, ghost start: seq<Row>, ghost picks: seq<set<nat>>)
      requires Valid()
      modifies this`rows, this`hasSplit
      ensures Valid() && hasSplit
      ensures start == if overwrite || !old(hasSplit) then Reset(old(rows), origin) else old(rows)
      ensures ok == hasLabel
      ensures !ok ==> rows == start
      ensures ok ==> (Classes().Some? &&
        StratifiedSample(start, Classes().value, k, origin, picks) &&
        rows == Flipped(start, UnionOf(picks), to))
    {
      if overwrite || !hasSplit {
        rows := Reset(rows, origin);
        hasSplit := true;
      }
      start := rows;
      picks := [];
      var classes := Classes();
      if classes.None? {
        return false, start, picks;
      }
      var cs := classes.value;
      AscendingIsDistinct(cs);
      picks := FlipClasses(cs, k, origin, to);
      FlippedKeepsLabels(start, UnionOf(picks), to);
      assert Classes() == classes;
      ok := true;
    }

    /** The class loop of `split_by_stratification`: for each class in turn,
        `FlipSample`. Classes have disjoint pools, so each sample is drawn
        from the pool the class had before the loop started. */
    method FlipClasses(cs: seq<string>, k: nat, origin: string, to: string) returns (ghost picks: seq<set<nat>>)
      requires Valid() && hasSplit && hasLabel && Distinct(cs)
      modifies this`rows
      ensures Valid()
      ensures StratifiedSample(old(rows), cs, k, origin, picks)
      ensures rows == Flipped(old(rows), UnionOf(picks), to)
    {
      ghost var start := rows;
      picks := [];
      for j := 0 to |cs|
        invariant Valid()
        invariant StratifiedSample(start, cs[..j], k, origin, picks)
        invariant rows == Flipped(start, UnionOf(picks), to)
      {
        PoolUnaffected(start, cs, k, origin, to, picks, j);
        ghost var pick := FlipSample(cs[j], k, origin, to);
        FlippedTwice(start, UnionOf(picks), pick, to);
        StratifiedSampleStep(start, cs, k, origin, picks, j, pick);
        picks := picks + [pick];
      }
      assert cs[..|cs|] == cs;
    }
  }

  /** The usage the accessor's documentation shows (pdds/pdds.py, lines
      17-23), with `k` as a parameter per pass: on a new table, list the
      walked files and label them by parent folder (`ListAndLabel`), then
      carve `valid` and after it `test` out of `train` (`CarveFromTrain`).
      The labelling fails, and the chain stops, exactly when some path has
      no '/'. Otherwise every row keeps its path and label and ends in
      exactly one of the three partitions, and no row that went to `valid`
      is taken again for `test`. */
  method CarveValidAndTest(folder: string, walk: seq<string>, kValid: nat, kTest: nat)
    returns (d: Dataset, ok: bool, ghost afterValid: seq<Row>)
    ensures fresh(d) && d.Valid()
    ensures ok <==> forall j :: 0 <= j < |Filter(walk, None, None)| ==> '/' in Filter(walk, None, None)[j]
    ensures ok ==> |d.rows| == |Filter(walk, None, None)| && |afterValid| == |d.rows|
    ensures ok ==> forall i :: 0 <= i < |d.rows| ==>
      d.rows[i].filepath == Filter(walk, None, None)[i] &&
      d.rows[i].tag == Some(ParentFolder(Filter(walk, None, None)[i]))
    ensures ok ==> forall i :: 0 <= i < |d.rows| ==>
      d.rows[i].split == Some("train") || d.rows[i].split == Some("valid") || d.rows[i].split == Some("test")
    ensures ok ==> forall i :: 0 <= i < |d.rows| && afterValid[i].split == Some("valid") ==> d.rows[i].split == Some("valid")
    ensures ok ==> forall i :: 0 <= i < |d.rows| && d.rows[i].split == Some("test") ==> afterValid[i].split == Some("train")
  {
    d, ok := ListAndLabel(folder, walk);
    afterValid := d.rows;
    if ok {
      afterValid := CarveFromTrain(d, kValid, kTest);
    }
  }

  /** Lines 17-20 of the documented usage: `pd.DataFrame()`, then
      `from_folder(folder)` with no include or exclude list, then
      `label_by_parent_folder()`. The table has no split column yet. */
  method ListAndLabel(folder: string, walk: seq<string>) returns (d: Dataset, ok: bool)
    ensures fresh(d) && d.Valid() && !d.hasSplit
    ensures ok <==> forall j :: 0 <= j < |Filter(walk, None, None)| ==> '/' in Filter(walk, None, None)[j]
    ensures ok ==> d.hasLabel && |d.rows| == |Filter(walk, None, None)|
    ensures ok ==> forall i :: 0 <= i < |d.rows| ==>
      d.rows[i].filepath == Filter(walk, None, None)[i] &&
      d.rows[i].tag == Some(ParentFolder(Filter(walk, None, None)[i]))
  {
    d := new Dataset();
    var listed := d.FromFolder(folder, None, None, walk);
    ok := d.LabelByParentFolder();
  }

  /** Lines 21-22 of the documented usage: two stratified passes with the
      default `overwrite = false`, `train` to `valid` and then `train` to
      `test`, on a labelled table that has no split column yet, so the first
      pass starts by putting every row in `train`. */
  method CarveFromTrain(d: Dataset, kValid: nat, kTest: nat) returns (ghost afterValid: seq<Row>)
    requires d.Valid() && d.hasLabel && !d.hasSplit
    modifies d
    ensures d.Valid() && |d.rows| == |old(d.rows)| && |afterValid| == |d.rows|
    ensures forall i :: 0 <= i < |d.rows| ==>
      d.rows[i].filepath == old(d.rows)[i].filepath && d.rows[i].tag == old(d.rows)[i].tag
    ensures forall i :: 0 <= i < |d.rows| ==>
      d.rows[i].split == Some("train") || d.rows[i].split == Some("valid") || d.rows[i].split == Some("test")
    ensures forall i :: 0 <= i < |d.rows| && afterValid[i].split == Some("valid") ==> d.rows[i].split == Some("valid")
    ensures forall i :: 0 <= i < |d.rows| && d.rows[i].split == Some("test") ==> afterValid[i].split == Some("train")
  {
    var ok1, start1, picks1 := d.SplitByStratification(kValid, "train", "valid", false);
    afterValid := d.rows;
    ghost var classes := d.Classes().value;
    var ok2, start2, picks2 := d.SplitByStratification(kTest, "train", "test", false);
    assert start2 == afterValid;
    assert LabelColumn(d.rows) == LabelColumn(afterValid);
    assert d.Classes().value == classes;
    assert "train" != "valid";
    StratifiedKeepsRows(start1, classes, kValid, "train", "valid", picks1);
    StratifiedKeepsRows(start2, classes, kTest, "train", "test", picks2);
    ChainedPassesNeverRetarget(start1, classes, kValid, kTest, "train", "valid", "test", picks1, picks2);
  }
}
