/** `clean_fold`: the decision of which directories under the scratch folder
    `proc` to remove, taken over the bottom-up walk `os.walk('proc', topdown=False)`. */
module Cleanup {
  import Text

  /** One tuple `(root, dirs, files)` yielded by the walk. */
  datatype WalkEntry = WalkEntry(root: string, dirs: seq<string>, files: seq<string>)

  /** The directories `clean_fold` removes, in order, and whether it finally
      removes `proc` itself. */
  datatype FoldCleanup = FoldCleanup(removed: seq<string>, removeProc: bool)

  /** Index of the first entry that holds a file, or the length of the walk. */
  function FirstWithFiles(walk: seq<WalkEntry>): (k: nat)
    ensures k <= |walk|
    ensures forall i :: 0 <= i < k ==> |walk[i].files| == 0
    ensures k < |walk| ==> |walk[k].files| > 0
  {
    if |walk| == 0 then 0
    else if |walk[0].files| > 0 then 0
    else 1 + FirstWithFiles(walk[1..])
  }

  /** The paths `os.path.join(root, name)` of an entry's subdirectories. */
  function SubdirPaths(e: WalkEntry): (paths: seq<string>)
    ensures |paths| == |e.dirs|
    ensures forall i :: 0 <= i < |paths| ==> paths[i] == Text.PathJoin(e.root, e.dirs[i])
    ensures forall i :: 0 <= i < |paths| ==> |e.dirs[i]| <= |paths[i]| && paths[i][|paths[i]| - |e.dirs[i]|..] == e.dirs[i]
  {
    seq(|e.dirs|, i requires 0 <= i < |e.dirs| => Text.PathJoin(e.root, e.dirs[i]))
  }

  /** The subdirectory paths of all entries, entry after entry. */
  function AllSubdirs(entries: seq<WalkEntry>): seq<string>
  {
    if |entries| == 0 then [] else AllSubdirs(entries[..|entries| - 1]) + SubdirPaths(entries[|entries| - 1])
  }

  /** Reference decision: the subdirectories of every entry before the first
      file are removed; `proc` goes only when no entry holds a file. */
  function FoldSpec(walk: seq<WalkEntry>): FoldCleanup
  {
    var k := FirstWithFiles(walk);
    FoldCleanup(AllSubdirs(walk[..k]), k == |walk|)
  }

  /** The loop of `clean_fold`: `is_empty` turns false at the first entry with
      a file and never back; while it is true, each entry's subdirectories are
      removed; `proc` is removed when it is still true at the end. */
  method CleanFold(walk: seq<WalkEntry>) returns (plan: FoldCleanup)
    ensures plan == FoldSpec(walk)
    ensures plan.removeProc <==> forall i :: 0 <= i < |walk| ==> |walk[i].files| == 0
  {
    var isEmpty := true;
    var removed: seq<string> := [];
    var i := 0;
    while i < |walk|
      invariant 0 <= i <= |walk|
      invariant isEmpty <==> i <= FirstWithFiles(walk)
      invariant isEmpty ==> removed == AllSubdirs(walk[..i])
      invariant !isEmpty ==> removed == AllSubdirs(walk[..FirstWithFiles(walk)])
    {
      if |walk[i].files| > 0 {
        isEmpty := false;
      }
      if isEmpty {
        var j := 0;
        var here: seq<string> := [];
        while j < |walk[i].dirs|
          invariant 0 <= j <= |walk[i].dirs|
          invariant here == SubdirPaths(walk[i])[..j]
        {
          here := here + [Text.PathJoin(walk[i].root, walk[i].dirs[j])];
          j := j + 1;
        }
        assert walk[..i + 1][..i] == walk[..i];
        removed := removed + here;
      }
      i := i + 1;
    }
    plan := FoldCleanup(removed, isEmpty);
  }

  /** Once an entry with a file has been seen, whatever the walk yields later
      removes nothing more and `proc` stays. */
  lemma {:induction false} LaterEntriesIgnored(walk: seq<WalkEntry>, later: seq<WalkEntry>)
    requires exists i :: 0 <= i < |walk| && |walk[i].files| > 0
    ensures FoldSpec(walk + later) == FoldCleanup(FoldSpec(walk).removed, false)
  {
    var k := FirstWithFiles(walk);
    FirstWithFilesOfPrefix(walk, later);
    assert (walk + later)[..k] == walk[..k];
  }

  /** Appending entries does not move a first file that is already there. */
  lemma {:induction false} FirstWithFilesOfPrefix(walk: seq<WalkEntry>, later: seq<WalkEntry>)
    requires exists i :: 0 <= i < |walk| && |walk[i].files| > 0
    ensures FirstWithFiles(walk + later) == FirstWithFiles(walk) < |walk|
  {
    if |walk[0].files| == 0 {
      assert (walk + later)[1..] == walk[1..] + later;
      var i :| 0 <= i < |walk| && |walk[i].files| > 0;
      assert walk[1..][i - 1] == walk[i];
      FirstWithFilesOfPrefix(walk[1..], later);
    }
  }

  /** Every subdirectory path of an entry occurs among the paths of the entries. */
  lemma {:induction false} SubdirsOfEntryListed(entries: seq<WalkEntry>, i: nat, p: string)
    requires i < |entries| && p in SubdirPaths(entries[i])
    ensures p in AllSubdirs(entries)
  {
    var last := |entries| - 1;
    if i < last {
      assert entries[..last][i] == entries[i];
      SubdirsOfEntryListed(entries[..last], i, p);
    }
  }

  /** For every walk, the subdirectories of each entry visited before the
      first file are removed, whether or not `proc` is then kept. */
  lemma SubdirsBeforeFirstFileRemoved(walk: seq<WalkEntry>, i: nat, p: string)
    requires i < FirstWithFiles(walk)
    requires p in SubdirPaths(walk[i])
    ensures p in FoldSpec(walk).removed
  {
    var k := FirstWithFiles(walk);
    assert walk[..k][i] == walk[i];
    SubdirsOfEntryListed(walk[..k], i, p);
  }

  /** Subdirectories visited before the first file are removed even though
      `proc` is then kept: `a` under `proc/x` goes, `proc` stays. */
  lemma EarlySubdirsRemovedEvenIfProcKept()
    ensures FoldSpec([WalkEntry("proc/x", ["a"], []), WalkEntry("proc", ["x"], ["f"])])
         == FoldCleanup(["proc/x/a"], false)
  {
    var walk := [WalkEntry("proc/x", ["a"], []), WalkEntry("proc", ["x"], ["f"])];
    assert FirstWithFiles(walk[1..]) == 0;
    assert walk[..1][..0] == [];
    assert Text.PathJoin("proc/x", "a") == "proc/x" + "/" + "a" == "proc/x/a";
    assert SubdirPaths(walk[0]) == ["proc/x/a"];
  }
}
