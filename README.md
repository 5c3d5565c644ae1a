# pdds `Dataset` accessor in Dafny

This project models the `dataset` accessor from `pdds/pdds.py`. The accessor sits on top of a table of samples used for image classification. Each row has a file path, an optional `label` and an optional `split` (`train`, `valid`, `test`, …). The accessor does five things:

- fills the table from a directory walk, filtered by include/exclude substrings;
- labels each row with a function of its path, for example its parent folder;
- moves up to `k` rows per class from one split to another (`split_by_stratification`);
- derives the views `labels`, `classes`, `splits` and `y`;
- counts rows per label and per (label, split) pair.

In this model the accessor owns its table. `Pdds.Dataset` is a class with:

- a `rows: seq<Row>` field;
- one flag per column (`hasFilepath`, `hasLabel`, `hasSplit`), because pandas tells "no such column" apart from "an empty column";
- the arguments of the last `from_folder` call.

Views are `reads this` functions that return `Option`, with `None` where the Python property returns `None` or pandas raises `KeyError`. Operations that change the table are methods with `modifies` clauses. Where the Python code raises, the method returns `ok == false` and the table is left in the state the exception leaves behind. There are two exceptions. A stratified draw larger than its class does not raise, because the model clamps it (see "## Findings"). A labelling function that raises is excluded by `LabelByFunction`'s precondition (see "## Left out").

Modules:

- `Wrappers`: `Option`.
- `Strings`:
  - Python's string order (`Less`, proved a strict total order);
  - substring `in` (`Contains`);
  - `str.split` with its inverse `Join`;
  - the parent-folder segment.
- `Sorted`: `sorted(list(set(xs)))` as `SortedDistinct`, `list.index` as `IndexOf`, and the label encoding `Encode`.
- `Counting`: occurrence counts and their totals.
- `Crawler`: the include/exclude filter over the walked paths, and the loop that applies it.
- `Rows`: the row datatype, the per-(label, split) counts, and the value-level description of a stratified pass. A pass is specified by the predicate `StratifiedSample`, which holds for any admissible random draw, together with `Flipped`.
- `Pdds`: the `Dataset` class, plus the chained usage from the class documentation.

The random choice inside `DataFrame.sample` becomes a nondeterministic choice (`:|`). `FlipSample` draws some subset of the class's rows in the origin split, of the clamped size. Every lemma about a pass holds for every such draw.

## Model

| member | source | states |
|---|---|---|
| Strings.Less | pdds/pdds.py:38 | Python's `str` `<`, by code point with a proper prefix first: never holds between equal strings, and holds whenever `a` is a proper prefix of `b` |
| Strings.LessTransitive | pdds/pdds.py:38 | the string order `sorted` uses is transitive |
| Strings.LessTotal | pdds/pdds.py:38 | any two distinct strings are ordered one way or the other |
| Strings.LessAsymmetric | pdds/pdds.py:38 | no two strings are each less than the other |
| Sorted.SortedDistinct | pdds/pdds.py:38 | `sorted(list(set(xs)))` is strictly ascending and holds exactly the values of `xs` |
| Sorted.AscendingUnique | pdds/pdds.py:38 | two strictly ascending lists with the same elements are equal, so the sorted distinct list is unique |
| Sorted.SortedDistinctOfPermutation | pdds/pdds.py:38 | `classes` depends only on which labels occur, not on their order or repetition |
| Sorted.IndexOf | pdds/pdds.py:59 | `list.index` returns an in-range position holding the value, with no earlier occurrence |
| Sorted.Encode | pdds/pdds.py:59 | the encoding has one code per label, each code is a valid class position, and `classes[y[i]] == labels[i]` |
| Sorted.EncodePreservesOrder | pdds/pdds.py:54-60 | over ascending classes, two labels compare exactly as their codes do, and equal labels have equal codes |
| Pdds.Dataset.Labels | pdds/pdds.py:48-51 | `None` exactly without a label column; otherwise one label per row in row order |
| Pdds.Dataset.Classes | pdds/pdds.py:34-38 | `None` exactly without a label column; otherwise strictly ascending, with a value present iff some row carries it |
| Pdds.Dataset.Splits | pdds/pdds.py:41-45 | `None` exactly without a split column; otherwise strictly ascending, with a value present iff some row is in that split |
| Pdds.Dataset.Y | pdds/pdds.py:54-60 | `None` exactly without labels; otherwise as long as the rows, each code below the number of classes, and the class at the code is the row's label |
| Counting.Count | pdds/pdds.py:65 | a count is at most the length and is positive iff the value occurs |
| Counting.CountsPartition | pdds/pdds.py:65 | counts over a duplicate-free list covering every value add up to the number of entries |
| Counting.Occurrences | pdds/pdds.py:63-65 | one pair per class in class order, each holding its positive count, with counts summing to the number of labels |
| Counting.OccurrencesExample | pdds/pdds.py:63-65 | labels `cat, cat, dog` give `[("cat", 2), ("dog", 1)]` |
| Pdds.Dataset.CountOccurrences | pdds/pdds.py:63-65 | `None` exactly without a label column; otherwise each class with its row count, totals equal to the row count |
| Rows.SplitsOfClassLength | pdds/pdds.py:75 | a class has as many split entries as it has rows |
| Rows.CountOfClassSplit | pdds/pdds.py:75 | counting split `s` among the splits of class `c`'s rows gives the number of rows labelled `c` and in `s` |
| Rows.CrossCounts | pdds/pdds.py:75 | one row per class with one cell per split; the cell for class `c` and split `s` is the number of rows labelled `c` and in `s` |
| Rows.CrossCountsRowTotal | pdds/pdds.py:75 | a class's counts across all split values add up to its number of rows |
| Pdds.Dataset.CountSplits | pdds/pdds.py:73-75 | present iff both columns exist; shape classes × splits; each cell is the number of rows with that label and split; each class's cells total its occurrences |
| Rows.Reset | pdds/pdds.py:97-98 | `self._obj['split'] = origin`: the same rows, paths and labels, with every split `origin` |
| Rows.Pool | pdds/pdds.py:101 | the mask `label == cls & split == origin`: row positions of class `c`, within the table |
| Rows.Flipped | pdds/pdds.py:103 | the `.loc[…, 'split'] = to` update: the same rows, paths and labels, with the picked rows in `to` and the others unchanged |
| Rows.SampleSize | pdds/pdds.py:89-92 | corrected draw size: at most `k`, at most the pool, and equal to one of them |
| Rows.SampleSizeAsWritten | pdds/pdds.py:102 | `sample(k)` as written: succeeds iff `k` is at most the pool, drawing exactly `k` |
| Rows.SampleSizeAsWrittenRaisesOnSmallClass | pdds/pdds.py:102 | with `k = 5` and one row in the pool, the draw as written fails |
| Rows.SampleSizeAgreesWhenPoolSuffices | pdds/pdds.py:102 | when the pool has at least `k` rows, both sample sizes agree |
| Rows.SubsetOfSize | pdds/pdds.py:102 | a pool has a subset of every size up to its own, so the clamped draw always exists |
| Rows.StratifiedSampleStep | pdds/pdds.py:100-103 | drawing the next class's sample extends a stratified draw by that class |
| Rows.PoolUnaffected | pdds/pdds.py:100-103 | moving earlier classes' rows leaves a later class's pool unchanged |
| Rows.FlippedTwice | pdds/pdds.py:103 | moving two samples one after the other is the same as moving their union once |
| Rows.InUnionOf | pdds/pdds.py:100-103 | a row is in the union of the per-class samples iff it is in one of them |
| Rows.FlippedKeepsLabels | pdds/pdds.py:103 | moving rows between splits leaves the label column unchanged |
| Rows.StratifiedKeepsRows | pdds/pdds.py:97-106 | a pass keeps the row count, the order, paths and labels; each split stays or becomes `to`, and only from `origin` |
| Rows.StratifiedMovesSample | pdds/pdds.py:89-103 | for each class the rows that change are exactly its sample, there are `min(k, pool)` of them, all taken from the class's `origin` rows, and the rest of the pool stays |
| Rows.StratifiedOriginShrinks | pdds/pdds.py:89-103 | a class's `origin` rows drop by exactly `min(k, pool)` |
| Rows.StratifiedTargetGrows | pdds/pdds.py:100-103 | a class's rows in `to` are the earlier ones plus its sample |
| Rows.ChainedPassesNeverRetarget | pdds/pdds.py:21-22 | after `train→valid` and then `train→test`, every row is in one of the three splits, `valid` rows stay `valid`, and `test` rows were `train` after the first pass |
| Rows.UniformPoolSize | pdds/pdds.py:101 | when every row is of class `c` in `origin`, the pool is all rows |
| Rows.FiveCatsTwoMove | pdds/pdds.py:89-103 | five `cat` rows in `train` with `k = 2`: two end in `valid` and three stay in `train`, whichever two are drawn |
| Rows.OneCatClamped | pdds/pdds.py:89 | one `cat` row with `k = 5`: that row moves, with no error |
| Pdds.Dataset.FlipSample | pdds/pdds.py:101-103 | moves some subset of the class's `origin` rows, of size `min(k, pool)`, to `to`, and changes nothing else |
| Pdds.Dataset.FlipClasses | pdds/pdds.py:100-104 | the class loop: the result is `Flipped(start, union of picks)` with a stratified draw over all classes |
| Pdds.Dataset.SplitByStratification | pdds/pdds.py:85-106 | resets the splits to `origin` when `overwrite` is set or the column is missing; then, with labels, applies a stratified pass over `classes` in ascending order; without labels, it fails after the reset |
| Pdds.CarveValidAndTest | pdds/pdds.py:17-23 | the documented usage on a new table, with `k` as a parameter per pass: it fails exactly when some listed path has no '/'; otherwise every row keeps its listed path and parent-folder label and ends in `train`, `valid` or `test`, `valid` rows stay `valid`, and `test` rows were `train` after the first pass |
| Pdds.ListAndLabel | pdds/pdds.py:17-20 | a new table, `from_folder(folder)` with no include or exclude list, then `label_by_parent_folder()`: the rows are the walked paths labelled by parent folder, with no split column, and it fails exactly when some path has no '/' |
| Pdds.CarveFromTrain | pdds/pdds.py:21-22 | the two passes with the default `overwrite=False` on a table with no split column: paths and labels stay, every row ends in one of the three splits, `valid` rows stay, `test` rows were `train` |
| Strings.Contains | pdds/pdds.py:131 | substring `in`: true iff the substring occurs at some position |
| Crawler.AnyContained | pdds/pdds.py:131-132 | `any(inc in path ...)`: true iff some listed string occurs in the path |
| Crawler.NoneContained | pdds/pdds.py:135-136 | `all(exc not in path ...)`: true iff no listed string occurs in the path |
| Crawler.Keep | pdds/pdds.py:129-136 | a path is kept iff (no include list, or some include occurs) and (no exclude list, or no exclude occurs) |
| Crawler.Filter | pdds/pdds.py:122-140 | the kept walk: no longer than the walk, and every entry is a walked path that passes the filter |
| Crawler.KeptPositions | pdds/pdds.py:125-140 | the kept positions are ascending and in range, and a position is listed iff its path is kept |
| Crawler.FilterIsKeptSubsequence | pdds/pdds.py:122-140 | the filtered list is the walk taken at the kept positions, in walk order |
| Crawler.FilterWalk | pdds/pdds.py:122-140 | the crawl loop builds exactly the filtered list |
| Rows.WithPaths | pdds/pdds.py:142 | assigning a path column of matching length sets each row's path and keeps its label and split |
| Rows.FromPaths | pdds/pdds.py:142 | assigning a path column on an empty table creates one unlabelled, unsplit row per path |
| Pdds.Dataset.AssignPaths | pdds/pdds.py:142 | the table gets the paths: as new rows when empty, in place when the lengths match, and otherwise fails with nothing changed |
| Pdds.Dataset.FromFolder | pdds/pdds.py:109-144 | records the arguments, then gives the table the filtered walk as its path column, with the success and failure cases of the assignment |
| Pdds.Dataset.constructor | pdds/pdds.py:30-31 | an accessor on `pd.DataFrame()` (line 17): no rows, no columns, no recorded folder or filters |
| Pdds.Dataset.LabelByFunction | pdds/pdds.py:147-154 | with a path column, every row's label becomes `func(path)` and nothing else changes; without one, nothing changes |
| Strings.Split | pdds/pdds.py:163 | `str.split` with a separator gives at least one segment |
| Strings.SplitSegmentsHaveNoSeparator | pdds/pdds.py:163 | no segment contains the separator |
| Strings.SplitHasTwoSegments | pdds/pdds.py:163 | there are at least two segments iff the separator occurs |
| Strings.JoinSplit | pdds/pdds.py:163 | joining the segments with the separator gives the string back |
| Strings.SplitJoin | pdds/pdds.py:163 | splitting a join of separator-free segments gives the segments back |
| Strings.SplitConcat | pdds/pdds.py:163 | splitting at one separator splits both sides independently |
| Strings.ParentFolder | pdds/pdds.py:163 | `fname.split('/')[-2]`, defined when the path holds a '/': a single folder name with no '/' in it (see the next row for which text it is) |
| Strings.ParentFolderBetweenLastSeparators | pdds/pdds.py:157-163 | `path.split('/')[-2]` is the text between the last '/' and the one before it, or the start of the path |
| Strings.ParentFolderExample | pdds/pdds.py:157-163 | `"a/b/c/img1.png"` has parent folder `"c"` |
| Pdds.Dataset.LabelByParentFolder | pdds/pdds.py:157-163 | when every path contains '/', every row is labelled with its parent folder; otherwise (`IndexError`), or without paths, nothing changes |

## Left out

- The directory walk and `os.path.join` (pdds/pdds.py:125-127) are filesystem I/O. The walk's output is the input `walk: seq<string>` of joined paths, in traversal order.
- `plot_occurrences` and `plot_splits` (pdds/pdds.py:68-82) only draw with matplotlib.
- The pandas accessor registration (pdds/pdds.py:6) and DataFrame internals (index labels, dtypes, column order) are not modelled. The table is an owned sequence of rows, and a row's position stands for its index.
- The randomness of `DataFrame.sample` is a nondeterministic choice. No seed is modelled and no distribution is claimed.
- Pdds.Dataset.CountSplits: the pandas frame shape (a multi-index from `unstack`) is not modelled. The result is a class × split matrix of counts, and a cell pandas would show as NaN (a pair that never occurs) is 0.
- Pdds.Dataset.CountOccurrences: the result is a list of (class, count) pairs in class order, not a pandas frame indexed by label.
- Pdds.Dataset.AssignPaths: on a table with no rows but with label or split columns, pandas keeps those columns filled with NaN; here they are dropped.
- Pdds.Dataset.LabelByFunction: `func` is a partial Dafny function that returns a string. A `func` that raises, or that returns a non-string label, is not modelled.
- Values of the label and split columns are strings. Python's ordering of mixed or non-string types is not modelled.
- Line 104 of pdds/pdds.py evaluates an expression and discards it, and has no effect. `FlipClasses` has nothing for it.
- Default arguments are not modelled. Every call passes all of its arguments: `k=1, origin='train', to='valid', overwrite=False` for `split_by_stratification` (pdds/pdds.py:85-87), and `include=None, exclude=None` for `from_folder` (pdds/pdds.py:109). `ListAndLabel` and `CarveFromTrain` pass the defaults explicitly.
- Pdds.Dataset.SplitByStratification: `k` is a `nat`. A negative `k`, for which pandas `sample` raises `ValueError`, is not modelled.
- `setup.py` is packaging metadata only.

## Findings

| source | as written | input that shows it | evidently intended | confidence | as-written member | corrected member |
|---|---|---|---|---|---|---|
| pdds/pdds.py:102 | `sample(k)` on the class's rows in `origin` draws exactly `k` rows, and pandas raises `ValueError` when the class has fewer than `k` rows in `origin` | a class with one row in `train`, `k = 5`: the draw fails | the docstring (lines 89 and 92) says `k` "or less if not enough", so draw `min(k, pool)` rows | not executed | Rows.SampleSizeAsWritten, with counterexample Rows.SampleSizeAsWrittenRaisesOnSmallClass | Rows.SampleSize (used by `StratifiedSample` and `Pdds.Dataset.FlipSample`; see Rows.OneCatClamped and Rows.StratifiedMovesSample) |
