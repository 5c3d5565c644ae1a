/** The filter `from_folder` applies to every path the directory walk
    yields (pdds/pdds.py, lines 122-140). The walk itself is an input: a
    sequence of joined paths in traversal order. */
module Crawler {
  import opened Wrappers
  import opened Strings

  /** `any(inc in path for inc in subs)`; false for an empty list. */
  function AnyContained(subs: seq<string>, path: string): (b: bool)
    ensures b <==> exists j :: 0 <= j < |subs| && Contains(path, subs[j])
    decreases |subs|
  {
    if |subs| == 0 then false
    else
      var rest := AnyContained(subs[1..], path);
      assert forall j :: 0 < j < |subs| ==> subs[j] == subs[1..][j - 1];
      Contains(path, subs[0]) || rest
  }

  /** `all(exc not in path for exc in subs)`; true for an empty list. */
  function NoneContained(subs: seq<string>, path: string): (b: bool)
    ensures b <==> forall j :: 0 <= j < |subs| ==> !Contains(path, subs[j])
    decreases |subs|
  {
    if |subs| == 0 then true
    else
      var rest := NoneContained(subs[1..], path);
      assert forall j :: 0 < j < |subs| ==> subs[j] == subs[1..][j - 1];
      !Contains(path, subs[0]) && rest
  }

  /** Whether a walked path becomes a sample: it has one of the include
      substrings (when a list is given) and none of the exclude substrings
      (when a list is given). */
  function Keep(path: string, includes: Option<seq<string>>, excludes: Option<seq<string>>): (keep: bool)
    ensures keep <==>
      (includes.None? || exists j :: 0 <= j < |includes.value| && Contains(path, includes.value[j])) &&
      (excludes.None? || forall j :: 0 <= j < |excludes.value| ==> !Contains(path, excludes.value[j]))
  {
    var included := includes.None? || AnyContained(includes.value, path);
    included && (excludes.None? || NoneContained(excludes.value, path))
  }

  /** The kept paths, in walk order. */
  function Filter(walk: seq<string>, includes: Option<seq<string>>, excludes: Option<seq<string>>): (kept: seq<string>)
    ensures |kept| <= |walk|
    ensures forall j :: 0 <= j < |kept| ==> kept[j] in walk && Keep(kept[j], includes, excludes)
    decreases |walk|
  {
    if |walk| == 0 then []
    else
      var last := walk[|walk| - 1];
      Filter(walk[..|walk| - 1], includes, excludes) + (if Keep(last, includes, excludes) then [last] else [])
  }

  /** The positions in the walk of the kept paths: ascending, and a position
      is listed exactly when its path is kept. */
  function KeptPositions(walk: seq<string>, includes: Option<seq<string>>, excludes: Option<seq<string>>): (ps: seq<nat>)
    ensures forall j :: 0 <= j < |ps| ==> ps[j] < |walk|
    ensures forall j, j' :: 0 <= j < j' < |ps| ==> ps[j] < ps[j']
    ensures forall i :: 0 <= i < |walk| ==> (i in ps <==> Keep(walk[i], includes, excludes))
    decreases |walk|
  {
    if |walk| == 0 then []
    else
      var n := |walk| - 1;
      var init := walk[..n];
      var ps := KeptPositions(init, includes, excludes);
      assert forall i :: 0 <= i < n ==> walk[i] == init[i];
      ps + (if Keep(walk[n], includes, excludes) then [n] else [])
  }

  /** `Filter` is the subsequence of the walk at `KeptPositions`: the kept
      paths in their walk order, nothing else. */
  lemma {:induction false} FilterIsKeptSubsequence(walk: seq<string>, includes: Option<seq<string>>, excludes: Option<seq<string>>)
    ensures |Filter(walk, includes, excludes)| == |KeptPositions(walk, includes, excludes)|
    ensures forall j :: 0 <= j < |Filter(walk, includes, excludes)| ==>
      Filter(walk, includes, excludes)[j] == walk[KeptPositions(walk, includes, excludes)[j]]
    decreases |walk|
  {
    if |walk| > 0 {
      var n := |walk| - 1;
      var init := walk[..n];
      FilterIsKeptSubsequence(init, includes, excludes);
      var keep := Keep(walk[n], includes, excludes);
      KeptStep(walk, Filter(init, includes, excludes), KeptPositions(init, includes, excludes), keep);
    }
  }

  /** Appending the last walked path (when kept) and its position keeps the
      kept list equal to the walk taken at the kept positions. */
  lemma KeptStep(walk: seq<string>, f: seq<string>, ps: seq<nat>, keep: bool)
    requires |walk| > 0 && |f| == |ps|
    requires forall j :: 0 <= j < |ps| ==> ps[j] < |walk| - 1 && f[j] == walk[..|walk| - 1][ps[j]]
    ensures var n := |walk| - 1;
      var f', ps' := f + (if keep then [walk[n]] else []), ps + (if keep then [n] else []);
      |f'| == |ps'| && forall j :: 0 <= j < |f'| ==> f'[j] == walk[ps'[j]]
  {
  }

  /** The loop of lines 122-140: walk the paths in order and append each kept one. */
  method FilterWalk(walk: seq<string>, includes: Option<seq<string>>, excludes: Option<seq<string>>)
    returns (filepaths: seq<string>)
    ensures filepaths == Filter(walk, includes, excludes)
  {
    filepaths := [];
    for n := 0 to |walk|
      invariant filepaths == Filter(walk[..n], includes, excludes)
    {
      var filepath := walk[n];
      var add := true;
      if includes.Some? {
        add := AnyContained(includes.value, filepath);
      }
      if add {
        if excludes.Some? {
          add := NoneContained(excludes.value, filepath);
        }
      }
      if add {
        filepaths := filepaths + [filepath];
      }
      assert walk[..n + 1][..n] == walk[..n];
    }
    assert walk[..|walk|] == walk;
  }
}
