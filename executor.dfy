/** The executor's start-up step: choosing the working directory from the
    `--override-scene <path>` argument the editor passes, so that resources are
    found relative to the project the scene belongs to. */
module Executor {
  import opened Util

  const OverrideFlag: string := "--override-scene"

  /** The path segment below a project root that holds its resources. */
  const DataSegment: string := "/data/"

  /** `pat` occurs in `s` starting at position `k`. */
  predicate OccursAt(s: string, pat: string, k: nat)
  {
    k + |pat| <= |s| && s[k..k + |pat|] == pat
  }

  /** An occurrence in `p` one position on is an occurrence in `p[1..]`. */
  lemma OccursShift(p: string, pat: string)
    requires |p| > 0
    ensures forall k :: 1 <= k <= |p| ==> (OccursAt(p, pat, k) <==> OccursAt(p[1..], pat, k - 1))
  {
    forall k | 1 <= k <= |p| ensures OccursAt(p, pat, k) <==> OccursAt(p[1..], pat, k - 1) {
      if k + |pat| <= |p| {
        var a, b := p[k..k + |pat|], p[1..][k - 1..k - 1 + |pat|];
        assert forall i :: 0 <= i < |pat| ==> a[i] == b[i];
        assert a == b;
      }
    }
  }

  /** The text before the first `"/data/"` of the path, or the whole path when it has none: the
      first piece of splitting the path at `"/data/"`. */
  function ProjectRoot(p: string): (r: string)
    ensures |r| <= |p| && r == p[..|r|]
    ensures forall k :: 0 <= k < |r| ==> !OccursAt(p, DataSegment, k)
    ensures r == p || OccursAt(p, DataSegment, |r|)
    decreases |p|
  {
    if |p| == 0 || OccursAt(p, DataSegment, 0) then ""
    else
      var r := [p[0]] + ProjectRoot(p[1..]);
      OccursShift(p, DataSegment);
      r
  }

  /** The directory for the scene at `scenePath`: the project root when the path has a non-empty
      text before its first `"/data/"`, otherwise the path's parent. `parentOf` is the platform's
      parent-of-a-path operation. */
  function SceneDirectory(scenePath: string, parentOf: string -> Option<string>): (r: Option<string>)
    ensures r != parentOf(scenePath) ==> r.Some? && r.value != "" && |r.value| <= |scenePath| && r.value == scenePath[..|r.value|]
  {
    var root := ProjectRoot(scenePath);
    if root != "" then Some(root) else parentOf(scenePath)
  }

  /** The directory the executor switches to for the argument list `args`: only the first
      `--override-scene` counts, and only when a path follows it. */
  function ChosenDirectory(args: seq<string>, parentOf: string -> Option<string>): (r: Option<string>)
    ensures OverrideFlag !in args ==> r.None?
  {
    match IndexOf(args, OverrideFlag)
    case None => None
    case Some(i) => if i + 1 < |args| then SceneDirectory(args[i + 1], parentOf) else None
  }

  /** Scans the arguments front to back; at the first `--override-scene` it takes the next argument
      as the scene path and stops, whether or not a directory results. A flag with nothing after it
      ends the scan with no change. */
  method SetWorkingDirectoryFromOverrideSceneArg(args: seq<string>, parentOf: string -> Option<string>)
    returns (dir: Option<string>)
    ensures dir == ChosenDirectory(args, parentOf)
  {
    dir := None;
    var i := 0;
    while i < |args|
      invariant 0 <= i <= |args|
      invariant forall j :: 0 <= j < i && args[j] == OverrideFlag ==> j == |args| - 1
    {
      var arg := args[i];
      i := i + 1;
      if arg == OverrideFlag {
        if i < |args| {
          var scenePath := args[i];
          dir := SceneDirectory(scenePath, parentOf);
          return;
        }
      }
    }
  }

  /** The first flag followed by a path decides, whatever comes after it. */
  lemma {:induction false} FirstFlagDecides(pre: seq<string>, path: string, more: seq<string>,
                                            parentOf: string -> Option<string>)
    requires OverrideFlag !in pre
    ensures ChosenDirectory(pre + [OverrideFlag, path] + more, parentOf) == SceneDirectory(path, parentOf)
  {
    var s := pre + [OverrideFlag, path] + more;
    assert s[..|pre|] == pre && s[|pre|] == OverrideFlag && s[|pre| + 1] == path;
    var k := IndexOf(s, OverrideFlag).value;
    assert forall j :: 0 <= j < |pre| ==> s[j] == pre[j];
    assert s[|pre|] in s[..|pre| + 1];
  }

  /** A flag at the very end is ignored. */
  lemma TrailingFlagIgnored(pre: seq<string>, parentOf: string -> Option<string>)
    requires OverrideFlag !in pre
    ensures ChosenDirectory(pre + [OverrideFlag], parentOf).None?
  {
    var s := pre + [OverrideFlag];
    assert s[..|pre|] == pre && s[|pre|] == OverrideFlag;
    assert forall j :: 0 <= j < |pre| ==> s[j] == pre[j];
  }

  /** For a scene under `<root>/data/`, the root is everything before that segment, provided the
      segment does not already start inside `<root>/data`. */
  lemma DataRootOf(root: string, rest: string)
    requires forall k :: 0 <= k < |root| ==> !OccursAt(root + "/data", DataSegment, k)
    ensures ProjectRoot(root + DataSegment + rest) == root
  {
    var s := root + DataSegment + rest;
    var t := root + "/data";
    assert s[|root|..|root| + 6] == DataSegment;
    assert OccursAt(s, DataSegment, |root|);
    forall k | 0 <= k < |root| ensures !OccursAt(s, DataSegment, k) {
      assert k + 6 <= |t|;
      assert forall i :: k <= i < k + 6 ==> s[i] == t[i];
      assert s[k..k + 6] == t[k..k + 6];
      assert !OccursAt(t, DataSegment, k);
    }
    assert s[..|root|] == root;
  }

  /** A scene under a non-empty project root `<root>/data/` makes `<root>` the working directory. */
  lemma DataSceneUsesRoot(root: string, rest: string, parentOf: string -> Option<string>)
    requires root != ""
    requires forall k :: 0 <= k < |root| ==> !OccursAt(root + "/data", DataSegment, k)
    ensures SceneDirectory(root + DataSegment + rest, parentOf) == Some(root)
  {
    DataRootOf(root, rest);
  }

  /** The parent is used only when nothing precedes the first `"/data/"`: for the empty path and
      for a path that starts with `"/data/"`. */
  lemma ParentOnlyForEmptyRoot(p: string, parentOf: string -> Option<string>)
    ensures SceneDirectory(p, parentOf) == parentOf(p) || SceneDirectory(p, parentOf) == Some(ProjectRoot(p))
    ensures ProjectRoot(p) == "" <==> p == "" || OccursAt(p, DataSegment, 0)
  {
  }

  /** A path without a slash contains no `"/data/"`. */
  lemma NoSlashNoData(p: string)
    requires '/' !in p
    ensures forall k :: !OccursAt(p, DataSegment, k)
  {
    forall k: nat ensures !OccursAt(p, DataSegment, k) {
      if k + 6 <= |p| {
        assert p[k..k + 6][0] == p[k] && p[k] in p;
      }
    }
  }

  /** As written, a scene path with no `"/data/"` in it is its own project root: the executor asks
      to switch into the scene file itself and never falls back to the parent directory. */
  lemma {:induction false} PlainScenePathKept(p: string, parentOf: string -> Option<string>)
    requires p != "" && forall k :: !OccursAt(p, DataSegment, k)
    ensures SceneDirectory(p, parentOf) == Some(p)
  {
    var r := ProjectRoot(p);
    assert !OccursAt(p, DataSegment, |r|);
  }

  /** The concrete case: `scene.rgs` is chosen as the directory, whatever its parent is. */
  lemma SceneFileChosenAsDirectory(parentOf: string -> Option<string>)
    ensures SceneDirectory("scene.rgs", parentOf) == Some("scene.rgs")
  {
    NoSlashNoData("scene.rgs");
    PlainScenePathKept("scene.rgs", parentOf);
  }

  /** The directory the comment describes: the project root for a path inside `<project>/data/`,
      the parent directory for any other path. */
  function IntendedSceneDirectory(scenePath: string, parentOf: string -> Option<string>): (r: Option<string>)
  {
    var root := ProjectRoot(scenePath);
    if root != scenePath && root != "" then Some(root) else parentOf(scenePath)
  }

  /** The intended choice: a scene under `<root>/data/` gives `<root>`, a path with no `"/data/"`
      gives its parent, and the two choices agree on every path that has a `"/data/"` in it. */
  lemma IntendedSceneDirectoryChoice(p: string, parentOf: string -> Option<string>)
    ensures (forall k :: !OccursAt(p, DataSegment, k)) ==> IntendedSceneDirectory(p, parentOf) == parentOf(p)
    ensures (exists k :: OccursAt(p, DataSegment, k)) ==>
              IntendedSceneDirectory(p, parentOf) == SceneDirectory(p, parentOf)
  {
    var r := ProjectRoot(p);
    if r == p {
      assert forall k :: !OccursAt(p, DataSegment, k) by {
        forall k: nat ensures !OccursAt(p, DataSegment, k) {
          if k >= |p| {
            assert k + |DataSegment| > |p|;
          }
        }
      }
    } else {
      assert OccursAt(p, DataSegment, |r|);
    }
  }

  /** The intended choice keeps the project root for scenes under `<root>/data/`. */
  lemma IntendedDataSceneUsesRoot(root: string, rest: string, parentOf: string -> Option<string>)
    requires root != ""
    requires forall k :: 0 <= k < |root| ==> !OccursAt(root + "/data", DataSegment, k)
    ensures IntendedSceneDirectory(root + DataSegment + rest, parentOf) == Some(root)
  {
    DataRootOf(root, rest);
  }
}
