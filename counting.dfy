/** Counting occurrences, the arithmetic behind `groupby(...).count()`. */
module Counting {
  import opened Sorted
  import Strings

  /** How many entries of `xs` equal `x`. */
  function Count<T(==)>(xs: seq<T>, x: T): (n: nat)
    ensures n <= |xs|
    ensures n > 0 <==> x in xs
    decreases |xs|
  {
    if |xs| == 0 then 0
    else
      var init := xs[..|xs| - 1];
      assert xs == init + [xs[|xs| - 1]];
      Count(init, x) + (if xs[|xs| - 1] == x then 1 else 0)
  }

  lemma CountSnoc<T>(xs: seq<T>, z: T, x: T)
    ensures Count(xs + [z], x) == Count(xs, x) + (if z == x then 1 else 0)
  {
    assert (xs + [z])[..|xs|] == xs;
  }

  function Total(ns: seq<nat>): nat
    decreases |ns|
  {
    if |ns| == 0 then 0 else Total(ns[..|ns| - 1]) + ns[|ns| - 1]
  }

  /** The count of each of `ds` in `xs`, in the order of `ds`. */
  function CountsOf<T(==)>(xs: seq<T>, ds: seq<T>): (r: seq<nat>)
    ensures |r| == |ds|
  {
    seq(|ds|, j requires 0 <= j < |ds| => Count(xs, ds[j]))
  }

  lemma {:induction false} CountOfDistinct<T>(ds: seq<T>, x: T)
    requires Distinct(ds) && x in ds
    ensures Count(ds, x) == 1
    decreases |ds|
  {
    var init, d := ds[..|ds| - 1], ds[|ds| - 1];
    assert ds == init + [d];
    CountSnoc(init, d, x);
    if d == x {
      assert x !in init;
    } else {
      CountOfDistinct(init, x);
    }
  }

  /** Adding one entry `z` to `xs` raises the total of the counts over `ds`
      by the number of times `z` occurs in `ds`. */
  lemma {:induction false} TotalCountsSnoc<T>(xs: seq<T>, ds: seq<T>, z: T)
    ensures Total(CountsOf(xs + [z], ds)) == Total(CountsOf(xs, ds)) + Count(ds, z)
    decreases |ds|
  {
    if |ds| > 0 {
      var init, d := ds[..|ds| - 1], ds[|ds| - 1];
      assert ds == init + [d];
      TotalCountsSnoc(xs, init, z);
      assert CountsOf(xs + [z], ds)[..|init|] == CountsOf(xs + [z], init);
      assert CountsOf(xs, ds)[..|init|] == CountsOf(xs, init);
      CountSnoc(xs, z, d);
      CountSnoc(init, d, z);
    }
  }

  /** When `ds` lists every value of `xs` once, the counts over `ds` add up to `|xs|`. */
  lemma {:induction false} CountsPartition<T>(xs: seq<T>, ds: seq<T>)
    requires Distinct(ds)
    requires forall i :: 0 <= i < |xs| ==> xs[i] in ds
    ensures Total(CountsOf(xs, ds)) == |xs|
    decreases |xs|
  {
    if |xs| == 0 {
      ZeroCounts(ds);
    } else {
      var init, z := xs[..|xs| - 1], xs[|xs| - 1];
      assert xs == init + [z];
      CountsPartition(init, ds);
      TotalCountsSnoc(init, ds, z);
      CountOfDistinct(ds, z);
    }
  }

  lemma {:induction false} ZeroCounts<T>(ds: seq<T>)
    ensures Total(CountsOf([], ds)) == 0
    decreases |ds|
  {
    if |ds| > 0 {
      ZeroCounts(ds[..|ds| - 1]);
      assert CountsOf([], ds)[..|ds| - 1] == CountsOf([], ds[..|ds| - 1]);
    }
  }

  /** The second components of a list of (value, count) pairs. */
  function Seconds<T>(pairs: seq<(T, nat)>): (ns: seq<nat>)
    ensures |ns| == |pairs|
  {
    seq(|pairs|, j requires 0 <= j < |pairs| => pairs[j].1)
  }

  /** `groupby('label').count()` over the label column: one (label, count)
      pair per class, in class order. Every class occurs at least once and
      the counts add up to the number of rows. */
  function Occurrences(labels: seq<string>): (r: seq<(string, nat)>)
    ensures |r| == |SortedDistinct(labels)|
    ensures forall j :: 0 <= j < |r| ==>
      r[j].0 == SortedDistinct(labels)[j] && r[j].1 == Count(labels, r[j].0) && r[j].1 > 0
    ensures Total(Seconds(r)) == |labels|
  {
    var classes := SortedDistinct(labels);
    var r := seq(|classes|, j requires 0 <= j < |classes| => (classes[j], Count(labels, classes[j])));
    AscendingIsDistinct(classes);
    CountsPartition(labels, classes);
    assert Seconds(r) == CountsOf(labels, classes);
    r
  }

  /** Labels `cat, cat, dog` count as two cats and one dog, in class order. */
  lemma OccurrencesExample()
    ensures Occurrences(["cat", "cat", "dog"]) == [("cat", 2), ("dog", 1)]
  {
    var labels := ["cat", "cat", "dog"];
    assert Strings.Less("cat", "dog");
    AscendingUnique(SortedDistinct(labels), ["cat", "dog"]);
    assert labels[..2] == ["cat", "cat"] && labels[..2][..1] == ["cat"];
  }
}
