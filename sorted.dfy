/** `sorted(list(set(xs)))` on strings, and `list.index`, the two list
    operations behind the `classes`, `splits` and `y` views. */
module Sorted {
  import opened Strings

  /** Sorted with no duplicates, under Python's string order. */
  ghost predicate StrictlyAscending(s: seq<string>)
  {
    forall i, j :: 0 <= i < j < |s| ==> Less(s[i], s[j])
  }

  ghost predicate Distinct<T>(s: seq<T>)
  {
    forall i, j :: 0 <= i < j < |s| ==> s[i] != s[j]
  }

  lemma AscendingIsDistinct(s: seq<string>)
    requires StrictlyAscending(s)
    ensures Distinct(s)
  {
    forall i | 0 <= i < |s| {
      LessIrreflexive(s[i]);
    }
  }

  lemma PrependAscending(h: string, t: seq<string>)
    requires StrictlyAscending(t)
    requires forall j :: 0 <= j < |t| ==> Less(h, t[j])
    ensures StrictlyAscending([h] + t)
  {
  }

  lemma LessThanHeadIsLessThanAll(x: string, s: seq<string>)
    requires StrictlyAscending(s) && |s| > 0 && Less(x, s[0])
    ensures forall j :: 0 <= j < |s| ==> Less(x, s[j])
  {
    forall j | 0 < j < |s| {
      LessTransitive(x, s[0], s[j]);
    }
  }

  /** Inserts `x` into a strictly ascending list unless it is already there. */
  function Insert(s: seq<string>, x: string): (r: seq<string>)
    requires StrictlyAscending(s)
    ensures StrictlyAscending(r)
    ensures forall y :: y in r <==> y in s || y == x
    decreases |s|
  {
    if |s| == 0 then [x]
    else if x == s[0] then s
    else if Less(x, s[0]) then
      LessThanHeadIsLessThanAll(x, s);
      PrependAscending(x, s);
      [x] + s
    else
      LessTotal(x, s[0]);
      var t := Insert(s[1..], x);
      assert forall j :: 0 <= j < |t| ==> t[j] in s[1..] || t[j] == x;
      assert forall j :: 0 < j < |s| ==> Less(s[0], s[j]);
      PrependAscending(s[0], t);
      assert s == [s[0]] + s[1..];
      [s[0]] + t
  }

  /** `sorted(list(set(xs)))`: the distinct values of `xs` in ascending order. */
  function SortedDistinct(xs: seq<string>): (r: seq<string>)
    ensures StrictlyAscending(r)
    ensures forall y :: y in r <==> y in xs
    decreases |xs|
  {
    if |xs| == 0 then []
    else
      assert xs == xs[..|xs| - 1] + [xs[|xs| - 1]];
      Insert(SortedDistinct(xs[..|xs| - 1]), xs[|xs| - 1])
  }

  /** A strictly ascending list is determined by its elements, so
      `SortedDistinct` is the only list with the two properties it promises. */
  lemma {:induction false} AscendingUnique(a: seq<string>, b: seq<string>)
    requires StrictlyAscending(a) && StrictlyAscending(b)
    requires forall y :: y in a <==> y in b
    ensures a == b
    decreases |a|
  {
    assert |a| > 0 ==> a[0] in b;
    assert |b| > 0 ==> b[0] in a;
    if |a| > 0 {
      assert forall y :: y in b ==> y == b[0] || Less(b[0], y);
      assert forall y :: y in a ==> y == a[0] || Less(a[0], y);
      if Less(a[0], b[0]) {
        LessAsymmetric(a[0], b[0]);
      }
      assert a[0] == b[0];
      AscendingIsDistinct(a);
      AscendingIsDistinct(b);
      assert a == [a[0]] + a[1..];
      assert b == [b[0]] + b[1..];
      assert forall y :: y in a[1..] <==> y in a && y != a[0];
      assert forall y :: y in b[1..] <==> y in b && y != b[0];
      AscendingUnique(a[1..], b[1..]);
    }
  }

  lemma SortedDistinctOfPermutation(xs: seq<string>, ys: seq<string>)
    requires forall y :: y in xs <==> y in ys
    ensures SortedDistinct(xs) == SortedDistinct(ys)
  {
    AscendingUnique(SortedDistinct(xs), SortedDistinct(ys));
  }

  /** Python's `xs.index(x)`: the position of the first occurrence. */
  function IndexOf<T(==)>(xs: seq<T>, x: T): (k: nat)
    requires x in xs
    ensures k < |xs| && xs[k] == x
    ensures forall j :: 0 <= j < k ==> xs[j] != x
    decreases |xs|
  {
    if xs[0] == x then 0 else 1 + IndexOf(xs[1..], x)
  }

  /** `[classes.index(l) for l in labels]`. */
  function Encode(classes: seq<string>, labels: seq<string>): (y: seq<nat>)
    requires forall i :: 0 <= i < |labels| ==> labels[i] in classes
    ensures |y| == |labels|
    ensures forall i :: 0 <= i < |y| ==> y[i] < |classes| && classes[y[i]] == labels[i]
  {
    seq(|labels|, i requires 0 <= i < |labels| => IndexOf(classes, labels[i]))
  }

  /** Over a strictly ascending class list the encoding is order-preserving
      and one-to-one: it compares two labels exactly as the labels compare. */
  lemma EncodePreservesOrder(classes: seq<string>, labels: seq<string>, i: nat, j: nat)
    requires StrictlyAscending(classes)
    requires forall n :: 0 <= n < |labels| ==> labels[n] in classes
    requires i < |labels| && j < |labels|
    ensures Less(labels[i], labels[j]) <==> Encode(classes, labels)[i] < Encode(classes, labels)[j]
    ensures labels[i] == labels[j] <==> Encode(classes, labels)[i] == Encode(classes, labels)[j]
  {
    var y := Encode(classes, labels);
    AscendingIsDistinct(classes);
    if y[i] < y[j] {
      assert Less(classes[y[i]], classes[y[j]]);
    } else if y[j] < y[i] {
      assert Less(classes[y[j]], classes[y[i]]);
      LessAsymmetric(labels[j], labels[i]);
    } else {
      LessIrreflexive(labels[i]);
    }
  }
}
