/** The three pieces of Python text semantics the accessor depends on:
    the ordering `a < b` used by `sorted`, the substring test `sub in s`
    used by the crawler filter, and `s.split(sep)` used by the parent-folder
    labeler. */
module Strings {

  // ---------------------------------------------------------------------
  // Ordering: Python compares str values lexicographically by code point,
  // and a proper prefix sorts before the longer string.
  // ---------------------------------------------------------------------

  predicate Less(a: string, b: string): (r: bool)
    ensures r ==> a != b
    ensures |a| < |b| && a == b[..|a|] ==> r
    decreases |a|
  {
    if |a| == 0 then |b| > 0
    else if |b| == 0 then false
    else a[0] < b[0] || (a[0] == b[0] && Less(a[1..], b[1..]))
  }

  lemma {:induction false} LessIrreflexive(a: string)
    ensures !Less(a, a)
    decreases |a|
  {
    if |a| > 0 {
      LessIrreflexive(a[1..]);
    }
  }

  lemma {:induction false} LessAsymmetric(a: string, b: string)
    requires Less(a, b)
    ensures !Less(b, a)
    decreases |a|
  {
    if |a| > 0 && |b| > 0 && a[0] == b[0] {
      LessAsymmetric(a[1..], b[1..]);
    }
  }

  lemma {:induction false} LessTransitive(a: string, b: string, c: string)
    requires Less(a, b) && Less(b, c)
    ensures Less(a, c)
    decreases |a|
  {
    if |a| > 0 && |b| > 0 && |c| > 0 && a[0] == b[0] && b[0] == c[0] {
      LessTransitive(a[1..], b[1..], c[1..]);
    }
  }

  lemma {:induction false} LessTotal(a: string, b: string)
    ensures a == b || Less(a, b) || Less(b, a)
    decreases |a|
  {
    if |a| > 0 && |b| > 0 && a[0] == b[0] {
      LessTotal(a[1..], b[1..]);
      assert a == [a[0]] + a[1..];
      assert b == [b[0]] + b[1..];
    }
  }

  // ---------------------------------------------------------------------
  // Substring test `sub in s`. The empty string occurs in every string.
  // ---------------------------------------------------------------------

  /** `sub` occurs in `s` starting at position `i`. */
  predicate OccursAt(s: string, sub: string, i: nat)
  {
    i + |sub| <= |s| && s[i..i + |sub|] == sub
  }

  lemma OccursAtTail(s: string, sub: string, i: nat)
    requires |s| > 0
    ensures OccursAt(s[1..], sub, i) <==> OccursAt(s, sub, i + 1)
  {
    if i + 1 + |sub| <= |s| {
      assert s[1..][i..i + |sub|] == s[i + 1..i + 1 + |sub|];
    }
  }

  function Contains(s: string, sub: string): (b: bool)
    ensures b <==> exists i :: 0 <= i <= |s| && OccursAt(s, sub, i)
    decreases |s|
  {
    if |sub| <= |s| && s[..|sub|] == sub then
      assert OccursAt(s, sub, 0);
      true
    else if |s| == 0 then
      false
    else
      var rest := Contains(s[1..], sub);
      ContainsStep(s, sub);
      rest
  }

  /** An occurrence in `s` that is not at position 0 is an occurrence in `s[1..]`, shifted. */
  lemma ContainsStep(s: string, sub: string)
    requires |s| > 0 && !OccursAt(s, sub, 0)
    ensures (exists i :: 0 <= i <= |s| && OccursAt(s, sub, i))
        <==> (exists i :: 0 <= i <= |s[1..]| && OccursAt(s[1..], sub, i))
  {
    if i :| 0 <= i <= |s| && OccursAt(s, sub, i) {
      assert i > 0;
      OccursAtTail(s, sub, i - 1);
      assert OccursAt(s[1..], sub, i - 1);
    }
    if i :| 0 <= i <= |s[1..]| && OccursAt(s[1..], sub, i) {
      OccursAtTail(s, sub, i);
      assert OccursAt(s, sub, i + 1);
    }
  }

  // ---------------------------------------------------------------------
  // `s.split(sep)` with an explicit separator: n separators give n + 1
  // segments, empty ones included.
  // ---------------------------------------------------------------------

  function Split(s: string, sep: char): (parts: seq<string>)
    ensures |parts| >= 1
    decreases |s|
  {
    if |s| == 0 then [""]
    else
      var parts := Split(s[..|s| - 1], sep);
      var c := s[|s| - 1];
      if c == sep then parts + [""]
      else parts[..|parts| - 1] + [parts[|parts| - 1] + [c]]
  }

  /** `sep.join(parts)`, the inverse of `Split`. */
  function Join(parts: seq<string>, sep: char): string
    requires |parts| >= 1
    decreases |parts|
  {
    if |parts| == 1 then parts[0]
    else Join(parts[..|parts| - 1], sep) + [sep] + parts[|parts| - 1]
  }

  lemma {:induction false} SplitNoSeparator(s: string, sep: char)
    requires sep !in s
    ensures Split(s, sep) == [s]
    decreases |s|
  {
    if |s| > 0 {
      assert sep !in s[..|s| - 1];
      SplitNoSeparator(s[..|s| - 1], sep);
      assert s[..|s| - 1] + [s[|s| - 1]] == s;
    }
  }

  lemma {:induction false} SplitSegmentsHaveNoSeparator(s: string, sep: char)
    ensures forall j :: 0 <= j < |Split(s, sep)| ==> sep !in Split(s, sep)[j]
    decreases |s|
  {
    if |s| > 0 {
      SplitSegmentsHaveNoSeparator(s[..|s| - 1], sep);
    }
  }

  /** One step of `Split`: appending a character either starts a new
      segment (the separator) or extends the last one. */
  lemma SplitSnoc(s: string, c: char, sep: char)
    ensures Split(s + [c], sep) ==
      var p := Split(s, sep);
      if c == sep then p + [""] else p[..|p| - 1] + [p[|p| - 1] + [c]]
  {
    assert (s + [c])[..|s|] == s;
  }

  /** The step of `SplitSnoc` acting on the last of two concatenated segment lists. */
  lemma ExtendLast(pa: seq<string>, pb: seq<string>, c: char, sep: char)
    requires |pb| >= 1
    ensures var p := pa + pb;
      (if c == sep then p + [""] else p[..|p| - 1] + [p[|p| - 1] + [c]])
      == pa + (if c == sep then pb + [""] else pb[..|pb| - 1] + [pb[|pb| - 1] + [c]])
  {
    var p := pa + pb;
    if c != sep {
      assert p[..|p| - 1] == pa + pb[..|pb| - 1];
    }
  }

  /** Splitting at one separator splits both sides independently. */
  lemma {:induction false} SplitConcat(a: string, b: string, sep: char)
    ensures Split(a + [sep] + b, sep) == Split(a, sep) + Split(b, sep)
    decreases |b|
  {
    if |b| == 0 {
      SplitSnoc(a, sep, sep);
      assert a + [sep] + b == a + [sep];
    } else {
      var b', c := b[..|b| - 1], b[|b| - 1];
      var s' := a + [sep] + b';
      assert b == b' + [c];
      assert a + [sep] + b == s' + [c];
      SplitConcat(a, b', sep);
      SplitSnoc(s', c, sep);
      SplitSnoc(b', c, sep);
      ExtendLast(Split(a, sep), Split(b', sep), c, sep);
    }
  }

  /** Split then Join gives the string back. */
  lemma {:induction false} JoinSplit(s: string, sep: char)
    ensures Join(Split(s, sep), sep) == s
    decreases |s|
  {
    if |s| > 0 {
      var init, c := s[..|s| - 1], s[|s| - 1];
      assert s == init + [c];
      JoinSplit(init, sep);
      SplitSnoc(init, c, sep);
      var parts := Split(init, sep);
      if c == sep {
        assert (parts + [""])[..|parts|] == parts;
      } else if |parts| > 1 {
        var q := parts[..|parts| - 1] + [parts[|parts| - 1] + [c]];
        assert q[..|q| - 1] == parts[..|parts| - 1];
      }
    }
  }

  /** Join then Split gives the segments back, when no segment holds the separator. */
  lemma {:induction false} SplitJoin(parts: seq<string>, sep: char)
    requires |parts| >= 1
    requires forall j :: 0 <= j < |parts| ==> sep !in parts[j]
    ensures Split(Join(parts, sep), sep) == parts
    decreases |parts|
  {
    if |parts| == 1 {
      SplitNoSeparator(parts[0], sep);
    } else {
      var init := parts[..|parts| - 1];
      SplitJoin(init, sep);
      SplitConcat(Join(init, sep), parts[|parts| - 1], sep);
      SplitNoSeparator(parts[|parts| - 1], sep);
      assert init + [parts[|parts| - 1]] == parts;
    }
  }

  lemma {:induction false} SplitHasTwoSegments(s: string, sep: char)
    ensures |Split(s, sep)| >= 2 <==> sep in s
    decreases |s|
  {
    if |s| > 0 {
      var init, c := s[..|s| - 1], s[|s| - 1];
      assert s == init + [c];
      assert sep in s <==> sep in init || c == sep;
      SplitHasTwoSegments(init, sep);
      SplitSnoc(init, c, sep);
    }
  }

  /** The label `label_by_parent_folder` gives a path: `path.split('/')[-2]`.
      Python raises IndexError when the path has fewer than two segments,
      that is when it holds no '/'; callers check that first. */
  function ParentFolder(path: string): (folder: string)
    requires '/' in path
    ensures '/' !in folder
  {
    SplitHasTwoSegments(path, '/');
    SplitSegmentsHaveNoSeparator(path, '/');
    var parts := Split(path, '/');
    parts[|parts| - 2]
  }

  /** With its last '/' at `j`, the parent folder of `path` is the last
      segment of the part before `j`. */
  lemma ParentFolderIsLastOfDirectory(path: string, j: nat)
    requires j < |path| && path[j] == '/' && '/' !in path[j + 1..]
    ensures '/' in path
    ensures var front := Split(path[..j], '/'); ParentFolder(path) == front[|front| - 1]
  {
    var dir, base := path[..j], path[j + 1..];
    assert path == dir + ['/'] + base;
    assert path[j] in path;
    SplitConcat(dir, base, '/');
    SplitNoSeparator(base, '/');
    var front := Split(dir, '/');
    var parts := Split(path, '/');
    assert parts == front + [base];
    assert ParentFolder(path) == parts[|parts| - 2];
  }

  /** With a '/' at `i` and none after it, the last segment of `dir` is
      everything after `i`. */
  lemma LastSegment(dir: string, i: nat)
    requires i < |dir| && dir[i] == '/' && '/' !in dir[i + 1..]
    ensures var front := Split(dir, '/'); front[|front| - 1] == dir[i + 1..]
  {
    var mid := dir[i + 1..];
    assert dir == dir[..i] + ['/'] + mid;
    SplitConcat(dir[..i], mid, '/');
    SplitNoSeparator(mid, '/');
  }

  lemma ParentFolderTopLevel(path: string, j: nat)
    requires j < |path| && path[j] == '/' && '/' !in path[j + 1..] && '/' !in path[..j]
    ensures ParentFolder(path) == path[..j]
  {
    ParentFolderIsLastOfDirectory(path, j);
    SplitNoSeparator(path[..j], '/');
  }

  lemma ParentFolderNested(path: string, i: nat, j: nat)
    requires j < |path| && path[j] == '/' && '/' !in path[j + 1..]
    requires i < j && path[i] == '/' && '/' !in path[i + 1..j]
    ensures ParentFolder(path) == path[i + 1..j]
  {
    ParentFolderIsLastOfDirectory(path, j);
    var dir := path[..j];
    assert dir[i + 1..] == path[i + 1..j];
    LastSegment(dir, i);
  }

  /** The parent folder is the text strictly between the last '/' (at `j`)
      and the one before it (at `i`, or the start of the path when `i == -1`). */
  lemma ParentFolderBetweenLastSeparators(path: string, i: int, j: nat)
    requires j < |path| && path[j] == '/' && '/' !in path[j + 1..]
    requires -1 <= i < j && (i >= 0 ==> path[i] == '/') && '/' !in path[i + 1..j]
    ensures ParentFolder(path) == path[i + 1..j]
  {
    if i == -1 {
      ParentFolderTopLevel(path, j);
    } else {
      ParentFolderNested(path, i, j);
    }
  }

  /** A nested image path is labelled with its innermost folder. */
  lemma ParentFolderExample()
    ensures ParentFolder("a/b/c/img1.png") == "c"
  {
    var path := "a/b/c/img1.png";
    assert path[5] == '/' && path[3] == '/';
    assert path[6..] == "img1.png";
    assert path[4..5] == "c";
    ParentFolderBetweenLastSeparators(path, 3, 5);
  }
}
