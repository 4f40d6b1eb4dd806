/**
 * `StoreCache`: the persisted cache bookkeeping (cache directories, last
 * scan results, report levels) and the operations over the disk tree:
 * `setInfo`, `getLog`, `check`, `clearAll` and `clear`.
 */
module StoreCache {
  import opened Wrappers
  import opened Text
  import opened DiskTree
  import opened CacheScan

  /** `StoreCache.mbSize` */
  const MiB: nat := 1024 * 1024
  /** `check` keeps this many of the largest files. */
  const MaxFileInfos: nat := 10
  /** Directories above this size are reported by `check`, pruned to children above it. */
  const DirThreshold: nat := 100 * MiB
  /** `clearAll` removes a recorded file above this size whatever the filter keys say. */
  const LargeFile: nat := 50 * MiB
  /** `CachInfo.maxSize` when none is given. */
  const DefaultMaxSize: nat := 1024 * MiB

  /** `StoreCache.CachInfo`: a directory to watch, names it must keep, and its size limit. */
  datatype CachInfo = CachInfo(path: Path, filterKey: seq<string>, maxSize: int)

  // ---- setInfo ----

  predicate HasPath(infos: seq<CachInfo>, path: Path) {
    exists i :: 0 <= i < |infos| && infos[i].path == path
  }

  /** `customCachePath` after `setInfo(info)`: appended when no entry has its path; nil stays nil. */
  function WithInfo(infos: Option<seq<CachInfo>>, info: CachInfo): Option<seq<CachInfo>> {
    if infos.Some? && !HasPath(infos.value, info.path) then Some(infos.value + [info]) else infos
  }

  /**
   * `setInfo` is idempotent, grows the list by at most one entry, keeps the
   * existing entries, and afterwards some entry has the path.
   */
  lemma SetInfoProperties(infos: Option<seq<CachInfo>>, info: CachInfo)
    ensures WithInfo(WithInfo(infos, info), info) == WithInfo(infos, info)
    ensures infos.None? ==> WithInfo(infos, info) == None
    ensures infos.Some? ==> var r := WithInfo(infos, info).value;
              && |infos.value| <= |r| <= |infos.value| + 1
              && r[..|infos.value|] == infos.value
              && HasPath(r, info.path)
  {
    if infos.Some? && !HasPath(infos.value, info.path) {
      var r := infos.value + [info];
      assert r[|infos.value|].path == info.path;
      assert r[..|infos.value|] == infos.value;
    }
  }

  // ---- getLog ----

  datatype Levels = Levels(clearLevel: Option<int>, lastLevel: Option<int>)

  datatype LogStepResult = LogStepResult(emit: bool, levels: Levels)

  /**
   * What `getLog(directGet)` decides from the levels and the current size:
   * a non-forced call above 100 MiB records the current MiB as the clear
   * level and reports once it exceeds the last reported level by more than
   * 99; a report needs more than 10 MiB and copies the clear level into the
   * last level.
   */
  function LogStep(levels: Levels, size: nat, directGet: bool): LogStepResult {
    var currentMB := size / MiB;
    var above := !directGet && size > DirThreshold;
    var levels1 := if above then levels.(clearLevel := Some(currentMB)) else levels;
    var canGet := directGet || (above && levels.lastLevel.GetOr(0) + 99 < currentMB);
    if canGet && currentMB > 10 then LogStepResult(true, levels1.(lastLevel := levels1.clearLevel))
    else LogStepResult(false, levels1)
  }

  /** A non-forced call at or below 100 MiB reports nothing and changes neither level. */
  lemma LogQuietBelowThreshold(levels: Levels, size: nat)
    requires size <= DirThreshold
    ensures LogStep(levels, size, false) == LogStepResult(false, levels)
  {
  }

  /** Any report needs more than 10 MiB. */
  lemma LogNeedsTenMiB(levels: Levels, size: nat, directGet: bool)
    requires LogStep(levels, size, directGet).emit
    ensures size / MiB > 10
  {
  }

  /**
   * After a non-forced report both levels are the current MiB, so asking
   * again at the same size reports nothing.
   */
  lemma LogHysteresis(levels: Levels, size: nat)
    requires LogStep(levels, size, false).emit
    ensures LogStep(levels, size, false).levels == Levels(Some(size / MiB), Some(size / MiB))
    ensures !LogStep(LogStep(levels, size, false).levels, size, false).emit
  {
  }

  /** From levels 0, sizes of 50, 105, 150 and 260 MiB give: nothing, report, nothing, report. */
  lemma LogScenario()
    ensures var l0 := Levels(Some(0), Some(0));
            var s1 := LogStep(l0, 50 * MiB, false);
            var s2 := LogStep(s1.levels, 105 * MiB, false);
            var s3 := LogStep(s2.levels, 150 * MiB, false);
            var s4 := LogStep(s3.levels, 260 * MiB, false);
            !s1.emit && s2.emit && !s3.emit && s4.emit
  {
    var l0 := Levels(Some(0), Some(0));
    var s1 := LogStep(l0, 50 * MiB, false);
    assert s1.levels == l0;
    var s2 := LogStep(s1.levels, 105 * MiB, false);
    assert (105 * MiB) / MiB == 105;
    assert s2.levels == Levels(Some(105), Some(105));
    var s3 := LogStep(s2.levels, 150 * MiB, false);
    assert (150 * MiB) / MiB == 150;
    assert s3.levels == Levels(Some(150), Some(105));
    assert (260 * MiB) / MiB == 260;
  }

  /**
   * A forced report leaves the clear level alone and copies it, however
   * stale, into the last level.
   */
  lemma LogForcedCopiesStaleLevel(levels: Levels, size: nat)
    requires size / MiB > 10
    ensures LogStep(levels, size, true) == LogStepResult(true, Levels(levels.clearLevel, levels.clearLevel))
  {
  }

  /** `s` back to front. */
  function Reverse<T>(s: seq<T>): (r: seq<T>)
    ensures |r| == |s|
    ensures forall i :: 0 <= i < |s| ==> r[i] == s[|s| - 1 - i]
  {
    if |s| == 0 then [] else Reverse(s[1..]) + [s[0]]
  }

  /**
   * The report `getLog` returns: the recorded files and pruned directories,
   * in reverse of their recorded order (largest size first, as `check` records
   * them ascending), the current size, and whether the call was forced.
   * The dictionary's key names and the JSON of the directories are not modelled.
   */
  datatype Report = Report(files: seq<FileAttribute>, dirs: seq<FileAttribute>, cacheSize: nat, isClear: string)

  function ReportOf(fileInfos: Option<seq<FileAttribute>>, dirInfos: Option<seq<FileAttribute>>,
                    size: Option<nat>, directGet: bool): (r: Report)
    ensures r.isClear == "1" <==> directGet
    ensures r.isClear == "0" <==> !directGet
    ensures r.files == Reverse(fileInfos.GetOr([]))
  {
    Report(Reverse(fileInfos.GetOr([])), Reverse(dirInfos.GetOr([])), size.GetOr(0), if directGet then "1" else "0")
  }

  // ---- check ----

  /** `check`'s loop state: files collected, directories reported, total size. */
  datatype Survey = Survey(files: seq<FileAttribute>, dirs: seq<FileAttribute>, size: nat)

  /** The survey extended by one directory's scan. */
  function SurveyAdd(prev: Survey, scan: (FileAttribute, seq<FileAttribute>)): Survey {
    var att := scan.0;
    Survey(prev.files + TopFiles(scan.1, MaxFileInfos),
           prev.dirs + (if att.size > DirThreshold then [FilterMaxSize(att, DirThreshold)] else []),
           prev.size + att.size)
  }

  /** The survey of the watched directories `infos`, in order. */
  function SurveyOf(root: Entry, infos: seq<CachInfo>): Survey {
    if |infos| == 0 then Survey([], [], 0)
    else SurveyAdd(SurveyOf(root, infos[..|infos| - 1]), Explore(root, infos[|infos| - 1].path))
  }

  /** One more watched directory extends the survey by its scan. */
  lemma SurveyStep(root: Entry, infos: seq<CachInfo>, i: nat)
    requires i < |infos|
    ensures SurveyOf(root, infos[..i + 1]) == SurveyAdd(SurveyOf(root, infos[..i]), Explore(root, infos[i].path))
  {
    PrefixStep(infos, i);
  }

  /** All the files the scans of `infos` hand to `handleInfo`, in order. */
  function AllHandled(root: Entry, infos: seq<CachInfo>): seq<FileAttribute> {
    if |infos| == 0 then [] else AllHandled(root, infos[..|infos| - 1]) + Explore(root, infos[|infos| - 1].path).1
  }

  /** The files `check` records: sorted by size, then the last 10 kept. */
  function RecordedFiles(s: Survey): seq<FileAttribute> {
    var sorted := SortBySize(s.files);
    if |sorted| > MaxFileInfos then sorted[|sorted| - MaxFileInfos..] else sorted
  }

  /** The directories `check` records, ascending. */
  function RecordedDirs(s: Survey): seq<FileAttribute> {
    SortBySize(s.dirs)
  }

  /** The total `check` records is the sum of the sizes of every visible file it scanned. */
  lemma {:induction false} SurveySize(root: Entry, infos: seq<CachInfo>)
    ensures SurveyOf(root, infos).size == SumSizes(AllHandled(root, infos))
  {
    if |infos| > 0 {
      SurveySize(root, infos[..|infos| - 1]);
      ExploreSound(root, infos[|infos| - 1].path);
      SumSizesAppend(AllHandled(root, infos[..|infos| - 1]), Explore(root, infos[|infos| - 1].path).1);
    }
  }

  /** Every reported directory is above 100 MiB, and so is everything left inside it. */
  lemma {:induction false} SurveyDirs(root: Entry, infos: seq<CachInfo>)
    ensures forall i :: 0 <= i < |SurveyOf(root, infos).dirs| ==>
              SurveyOf(root, infos).dirs[i].size > DirThreshold && AllAbove(SurveyOf(root, infos).dirs[i], DirThreshold)
  {
    if |infos| > 0 {
      SurveyDirs(root, infos[..|infos| - 1]);
      var att := Explore(root, infos[|infos| - 1].path).0;
      FilterMaxSizeAbove(att, DirThreshold);
    }
  }

  /** Every file `check` collects was handed to `handleInfo` by one of its scans. */
  lemma {:induction false} SurveyFilesHandled(root: Entry, infos: seq<CachInfo>)
    ensures forall f :: f in SurveyOf(root, infos).files ==> f in AllHandled(root, infos)
  {
    if |infos| > 0 {
      SurveyFilesHandled(root, infos[..|infos| - 1]);
      var scan := Explore(root, infos[|infos| - 1].path);
      TopFilesProperties(scan.1, MaxFileInfos);
      var top := TopFiles(scan.1, MaxFileInfos);
      assert forall f :: f in top ==> f in scan.1;
    }
  }

  /** The files `check` records: at most 10, ascending by size, each one scanned. */
  lemma CheckFilesProperties(root: Entry, infos: seq<CachInfo>)
    ensures var files := RecordedFiles(SurveyOf(root, infos));
            && |files| <= MaxFileInfos
            && SortedBySize(files)
            && (forall f :: f in files ==> f in AllHandled(root, infos))
  {
    var all := SurveyOf(root, infos).files;
    SurveyFilesHandled(root, infos);
    LastOfSorted(SortBySize(all), MaxFileInfos);
    forall f | f in Last(SortBySize(all), MaxFileInfos) ensures f in AllHandled(root, infos) {
      assert f in multiset(SortBySize(all));
      assert f in all;
    }
  }

  /** The directories `check` records: ascending, each above 100 MiB through and through. */
  lemma CheckDirsProperties(root: Entry, infos: seq<CachInfo>)
    ensures var dirs := RecordedDirs(SurveyOf(root, infos));
            && SortedBySize(dirs)
            && forall d :: d in dirs ==> d.size > DirThreshold && AllAbove(d, DirThreshold)
  {
    var s := SurveyOf(root, infos);
    SurveyDirs(root, infos);
    forall d | d in SortBySize(s.dirs) ensures d.size > DirThreshold && AllAbove(d, DirThreshold) {
      assert d in multiset(SortBySize(s.dirs));
      assert d in s.dirs;
    }
  }

  /** The tree holds the file `f` describes: a file of `f`'s size at `f`'s path. */
  predicate InTree(root: Entry, f: FileAttribute) {
    Lookup(root, f.path).Some? && Lookup(root, f.path).value.File? && Lookup(root, f.path).value.size == Some(f.size)
  }

  /** In a tree whose folders list each name once, every file the scans hand over is in the tree. */
  lemma {:induction false} AllHandledInTree(root: Entry, infos: seq<CachInfo>)
    requires WellFormed(root)
    ensures forall f :: f in AllHandled(root, infos) ==> InTree(root, f)
  {
    if |infos| > 0 {
      var init := infos[..|infos| - 1];
      var last := Explore(root, infos[|infos| - 1].path).1;
      AllHandledInTree(root, init);
      ExploreFiles(root, infos[|infos| - 1].path);
      forall f | f in AllHandled(root, infos) ensures InTree(root, f) {
        if f !in AllHandled(root, init) {
          var i :| 0 <= i < |last| && last[i] == f;
        }
      }
    }
  }

  /** Right after `check`, with no folder listing a name twice, every recorded file is in the tree. */
  lemma RecordedFilesInTree(root: Entry, infos: seq<CachInfo>)
    requires WellFormed(root)
    ensures forall f :: f in RecordedFiles(SurveyOf(root, infos)) ==> InTree(root, f)
  {
    CheckFilesProperties(root, infos);
    AllHandledInTree(root, infos);
  }

  // ---- clearAll and clear ----

  /** Some key occurs in `s`. */
  function ContainsAny(s: string, keys: seq<string>): bool {
    |keys| > 0 && (Contains(s, keys[0]) || ContainsAny(s, keys[1..]))
  }

  lemma {:induction false} ContainsAnyIff(s: string, keys: seq<string>)
    ensures ContainsAny(s, keys) <==> exists i :: 0 <= i < |keys| && Contains(s, keys[i])
  {
    if |keys| > 0 {
      ContainsAnyIff(s, keys[1..]);
      if ContainsAny(s, keys[1..]) {
        var i :| 0 <= i < |keys[1..]| && Contains(s, keys[1..][i]);
        assert Contains(s, keys[i + 1]);
      }
      if exists i :: 0 <= i < |keys| && Contains(s, keys[i]) {
        var i :| 0 <= i < |keys| && Contains(s, keys[i]);
        if i > 0 {
          assert Contains(s, keys[1..][i - 1]);
        }
      }
    }
  }

  /** The filter loops of `clearAll` and `clear`: does any key occur in `s`? */
  method AnyContained(s: string, keys: seq<string>) returns (found: bool)
    ensures found == ContainsAny(s, keys)
  {
    found := false;
    var i := 0;
    while i < |keys|
      invariant 0 <= i <= |keys|
      invariant ContainsAny(s, keys) == (found || ContainsAny(s, keys[i..]))
      invariant found ==> i == |keys| || ContainsAny(s, keys)
    {
      assert keys[i..][1..] == keys[i + 1..];
      if Contains(s, keys[i]) {
        found := true;
        break;
      }
      i := i + 1;
    }
    assert keys[|keys|..] == [];
  }

  /** `clearAll`'s decision for one recorded file. */
  predicate ShouldRemove(f: FileAttribute, filterKeys: seq<string>) {
    f.size > LargeFile || !ContainsAny(PathText(f.path), filterKeys)
  }

  /** The paths `clearAll` removes, in the order it visits the files. */
  function Doomed(files: seq<FileAttribute>, filterKeys: seq<string>): seq<Path> {
    if |files| == 0 then []
    else
      Doomed(files[..|files| - 1], filterKeys)
      + (if ShouldRemove(files[|files| - 1], filterKeys) then [files[|files| - 1].path] else [])
  }

  /**
   * A recorded file above 50 MiB is always removed; a smaller one whose path
   * contains a filter key is never removed on its own account: every removed
   * path belongs to a file `ShouldRemove` accepts.
   */
  lemma {:induction false} DoomedProperties(files: seq<FileAttribute>, filterKeys: seq<string>)
    ensures forall i :: 0 <= i < |files| && files[i].size > LargeFile ==> files[i].path in Doomed(files, filterKeys)
    ensures forall i :: 0 <= i < |files| && ShouldRemove(files[i], filterKeys) ==> files[i].path in Doomed(files, filterKeys)
    ensures forall p :: p in Doomed(files, filterKeys) ==>
              exists i :: 0 <= i < |files| && files[i].path == p && ShouldRemove(files[i], filterKeys)
  {
    if |files| > 0 {
      var init := files[..|files| - 1];
      DoomedProperties(init, filterKeys);
      forall p | p in Doomed(files, filterKeys)
        ensures exists i :: 0 <= i < |files| && files[i].path == p && ShouldRemove(files[i], filterKeys)
      {
        if p in Doomed(init, filterKeys) {
          var i :| 0 <= i < |init| && init[i].path == p && ShouldRemove(init[i], filterKeys);
          assert files[i] == init[i];
        } else {
          assert files[|files| - 1].path == p;
        }
      }
      forall i | 0 <= i < |files| && ShouldRemove(files[i], filterKeys)
        ensures files[i].path in Doomed(files, filterKeys)
      {
        if i < |files| - 1 {
          assert init[i] == files[i];
        }
      }
    }
  }

  lemma DoomedSnoc(files: seq<FileAttribute>, f: FileAttribute, filterKeys: seq<string>)
    ensures Doomed(files + [f], filterKeys)
            == Doomed(files, filterKeys) + (if ShouldRemove(f, filterKeys) then [f.path] else [])
  {
    assert (files + [f])[..|files|] == files;
  }

  /** Taking one more element off the end of `s` puts it at the end of the reversed suffix. */
  lemma ReverseSuffixStep<T>(s: seq<T>, k: nat)
    requires 1 <= k <= |s|
    ensures Reverse(s[k - 1..]) == Reverse(s[k..]) + [s[k - 1]]
  {
    assert s[k - 1..][1..] == s[k..];
  }

  /** Removing the paths one after the other. */
  function RemoveAll(root: Entry, paths: seq<Path>): Entry {
    if |paths| == 0 then root else RemoveAt(RemoveAll(root, paths[..|paths| - 1]), paths[|paths| - 1])
  }

  lemma RemoveAllSnoc(root: Entry, paths: seq<Path>, extra: seq<Path>)
    requires |extra| <= 1
    ensures RemoveAll(root, paths + extra) == if |extra| == 0 then RemoveAll(root, paths) else RemoveAt(RemoveAll(root, paths), extra[0])
  {
    if |extra| == 0 {
      assert paths + extra == paths;
    } else {
      assert (paths + extra)[..|paths|] == paths;
    }
  }

  /** After `RemoveAll` nothing is left at any of the (non-root) paths removed. */
  lemma {:induction false} RemoveAllGone(root: Entry, paths: seq<Path>)
    ensures forall p :: p in paths && |p| >= 1 ==> Lookup(RemoveAll(root, paths), p) == None
  {
    if |paths| > 0 {
      var init := paths[..|paths| - 1];
      var q := paths[|paths| - 1];
      RemoveAllGone(root, init);
      forall p | p in paths && |p| >= 1 ensures Lookup(RemoveAll(root, paths), p) == None {
        if p == q {
          RemovedIsGone(RemoveAll(root, init), q);
        } else {
          assert p in init;
          StaysGone(RemoveAll(root, init), p, q);
        }
      }
    }
  }

  /** A file none of whose prefixes is removed stays where it is. */
  lemma {:induction false} RemoveAllElsewhere(root: Entry, paths: seq<Path>, p: Path)
    requires Lookup(root, p).Some? && Lookup(root, p).value.File?
    requires forall q :: q in paths ==> !(q <= p)
    ensures Lookup(RemoveAll(root, paths), p) == Lookup(root, p)
  {
    if |paths| > 0 {
      var init := paths[..|paths| - 1];
      assert forall q :: q in init ==> q in paths;
      RemoveAllElsewhere(root, init, p);
      assert paths[|paths| - 1] in paths;
      RemoveElsewhere(RemoveAll(root, init), paths[|paths| - 1], p);
    }
  }

  /** A file's path is a prefix of no other path in the tree. */
  lemma FileNotPrefix(root: Entry, q: Path, p: Path)
    requires Lookup(root, q).Some? && Lookup(root, q).value.File?
    requires Lookup(root, p).Some? && q != p
    ensures !(q <= p)
  {
    if |q| < |p| {
      var r := p[|q|..];
      LookupAppend(root, q, r);
      assert Lookup(root, q + r) == None;
    }
  }

  /** Removing the doomed paths spares a file that no path accepted for removal leads to. */
  lemma DoomedSpares(root: Entry, files: seq<FileAttribute>, filterKeys: seq<string>, p: Path)
    requires Lookup(root, p).Some? && Lookup(root, p).value.File?
    requires forall i :: 0 <= i < |files| && ShouldRemove(files[i], filterKeys) ==> !(files[i].path <= p)
    ensures Lookup(RemoveAll(root, Doomed(files, filterKeys)), p) == Lookup(root, p)
  {
    DoomedProperties(files, filterKeys);
    RemoveAllElsewhere(root, Doomed(files, filterKeys), p);
  }

  /**
   * `clearAll` on the recorded files keeps a file of at most 50 MiB whose
   * path contains a filter key, as long as each recorded file is still the
   * file of that size at its path (as `check` leaves them,
   * `RecordedFilesInTree`).
   * Two records may share a path, as when two watched directories
   * overlap: they then share the size and the path text, so neither is
   * removed.
   */
  lemma DropSparesFiltered(root: Entry, files: seq<FileAttribute>, filterKeys: seq<string>, k: nat)
    requires k < |files| && files[k].size <= LargeFile && ContainsAny(PathText(files[k].path), filterKeys)
    requires forall i :: 0 <= i < |files| ==> InTree(root, files[i])
    ensures Lookup(RemoveAll(root, Doomed(Reverse(files), filterKeys)), files[k].path) == Lookup(root, files[k].path)
  {
    var p := files[k].path;
    var rev := Reverse(files);
    forall i | 0 <= i < |rev| && ShouldRemove(rev[i], filterKeys) ensures !(rev[i].path <= p) {
      var j := |files| - 1 - i;
      assert rev[i] == files[j];
      assert files[j].path != p;
      FileNotPrefix(root, files[j].path, p);
    }
    DoomedSpares(root, rev, filterKeys, p);
  }

  /**
   * `check` then `clearAll` on a disk that did not change in between: a
   * recorded file of at most 50 MiB whose path contains a filter key is
   * still there afterwards.
   */
  lemma CheckThenDropSpares(root: Entry, infos: seq<CachInfo>, filterKeys: seq<string>, k: nat)
    requires WellFormed(root)
    requires var files := RecordedFiles(SurveyOf(root, infos));
             k < |files| && files[k].size <= LargeFile && ContainsAny(PathText(files[k].path), filterKeys)
    ensures var files := RecordedFiles(SurveyOf(root, infos));
            Lookup(RemoveAll(root, Doomed(Reverse(files), filterKeys)), files[k].path) == Lookup(root, files[k].path)
  {
    var files := RecordedFiles(SurveyOf(root, infos));
    RecordedFilesInTree(root, infos);
    assert forall i :: 0 <= i < |files| ==> files[i] in files;
    DropSparesFiltered(root, files, filterKeys, k);
  }

  /** The names of the children, in order. */
  function Names(cs: seq<Entry>): (r: seq<string>)
    ensures |r| == |cs|
    ensures forall i :: 0 <= i < |cs| ==> r[i] == cs[i].name
  {
    if |cs| == 0 then [] else [cs[0].name] + Names(cs[1..])
  }

  /** `clear(dir, filters)` after the first names of the listing: each deletable name removed. */
  function Cleared(root: Entry, dir: Path, names: seq<string>, filters: seq<string>): Entry {
    if |names| == 0 then root
    else
      var r := Cleared(root, dir, names[..|names| - 1], filters);
      if ContainsAny(names[|names| - 1], filters) then r else RemoveAt(r, dir + [names[|names| - 1]])
  }

  /** The names among `names` that `clear` deletes. */
  function Gone(names: seq<string>, filters: seq<string>): (g: set<string>)
    ensures forall x :: x in g <==> x in names && !ContainsAny(x, filters)
  {
    if |names| == 0 then {}
    else
      var x := names[|names| - 1];
      assert names == names[..|names| - 1] + [x];
      Gone(names[..|names| - 1], filters) + (if ContainsAny(x, filters) then {} else {x})
  }

  /** The children some filter occurs in: the ones `clear` keeps. */
  function KeepIf(cs: seq<Entry>, filters: seq<string>): seq<Entry> {
    if |cs| == 0 then []
    else (if ContainsAny(cs[0].name, filters) then [cs[0]] else []) + KeepIf(cs[1..], filters)
  }

  lemma {:induction false} WithoutNoNames(cs: seq<Entry>)
    ensures WithoutNames(cs, {}) == cs
  {
    if |cs| > 0 {
      WithoutNoNames(cs[1..]);
    }
  }

  lemma {:induction false} ClearedFolder(root: Entry, dir: Path, names: seq<string>, filters: seq<string>)
    requires Lookup(root, dir).Some? && Lookup(root, dir).value.Folder?
    ensures var f := Lookup(root, dir).value;
            Lookup(Cleared(root, dir, names, filters), dir) == Some(Folder(f.name, WithoutNames(f.children, Gone(names, filters))))
  {
    var f := Lookup(root, dir).value;
    if |names| == 0 {
      WithoutNoNames(f.children);
    } else {
      var init := names[..|names| - 1];
      var x := names[|names| - 1];
      ClearedFolder(root, dir, init, filters);
      var r := Cleared(root, dir, init, filters);
      assert names == init + [x];
      if !ContainsAny(x, filters) {
        assert Gone(names, filters) == Gone(init, filters) + {x};
        RemoveChildOf(r, dir, x);
        WithoutOneMoreName(f.children, Gone(init, filters), x);
      } else {
        assert Gone(names, filters) == Gone(init, filters);
      }
    }
  }

  lemma {:induction false} WithoutNamesIsKeepIf(cs: seq<Entry>, gone: set<string>, filters: seq<string>)
    requires forall i :: 0 <= i < |cs| ==> (cs[i].name in gone <==> !ContainsAny(cs[i].name, filters))
    ensures WithoutNames(cs, gone) == KeepIf(cs, filters)
  {
    if |cs| > 0 {
      assert forall i :: 0 <= i < |cs[1..]| ==> cs[1..][i] == cs[i + 1];
      WithoutNamesIsKeepIf(cs[1..], gone, filters);
    }
  }

  /**
   * `clear` removes exactly the direct children whose names contain none of
   * the filters: what is left of the folder is the children some filter occurs in.
   */
  lemma ClearKeepsMatching(root: Entry, dir: Path, filters: seq<string>)
    requires Lookup(root, dir).Some? && Lookup(root, dir).value.Folder?
    ensures var f := Lookup(root, dir).value;
            Lookup(Cleared(root, dir, Names(Listing(root, dir)), filters), dir)
            == Some(Folder(f.name, KeepIf(f.children, filters)))
  {
    var f := Lookup(root, dir).value;
    var names := Names(f.children);
    ClearedFolder(root, dir, names, filters);
    forall i | 0 <= i < |f.children|
      ensures f.children[i].name in Gone(names, filters) <==> !ContainsAny(f.children[i].name, filters)
    {
      assert names[i] == f.children[i].name;
    }
    WithoutNamesIsKeepIf(f.children, Gone(names, filters), filters);
  }

  /** One watched directory in `clearAll`: cleared unless `checkSize` holds and it is under its limit. */
  function SweepOne(root: Entry, info: CachInfo, checkSize: bool, filterKeys: seq<string>): Entry {
    var att := Explore(root, info.path).0;
    if checkSize && att.size < info.maxSize then root
    else Cleared(root, info.path, Names(Listing(root, info.path)), info.filterKey + filterKeys)
  }

  /** The loop of `clearAll` over the custom cache directories, in order. */
  function Sweep(root: Entry, infos: seq<CachInfo>, checkSize: bool, filterKeys: seq<string>): Entry {
    if |infos| == 0 then root
    else SweepOne(Sweep(root, infos[..|infos| - 1], checkSize, filterKeys), infos[|infos| - 1], checkSize, filterKeys)
  }

  lemma SweepStep(root: Entry, infos: seq<CachInfo>, i: nat, checkSize: bool, filterKeys: seq<string>)
    requires i < |infos|
    ensures Sweep(root, infos[..i + 1], checkSize, filterKeys)
            == SweepOne(Sweep(root, infos[..i], checkSize, filterKeys), infos[i], checkSize, filterKeys)
  {
    PrefixStep(infos, i);
  }

  /**
   * A directory under its limit with `checkSize` set loses nothing; any other
   * keeps just the children where its own or the global filter keys occur.
   */
  lemma SweepOneEffect(root: Entry, info: CachInfo, checkSize: bool, filterKeys: seq<string>)
    ensures checkSize && Explore(root, info.path).0.size < info.maxSize ==> SweepOne(root, info, checkSize, filterKeys) == root
    ensures !(checkSize && Explore(root, info.path).0.size < info.maxSize) &&
            Lookup(root, info.path).Some? && Lookup(root, info.path).value.Folder? ==>
              Lookup(SweepOne(root, info, checkSize, filterKeys), info.path)
              == Some(Folder(Lookup(root, info.path).value.name,
                             KeepIf(Lookup(root, info.path).value.children, info.filterKey + filterKeys)))
  {
    if !(checkSize && Explore(root, info.path).0.size < info.maxSize) &&
       Lookup(root, info.path).Some? && Lookup(root, info.path).value.Folder? {
      ClearKeepsMatching(root, info.path, info.filterKey + filterKeys);
    }
  }

  /** The loop of `check` over the watched directories. */
  method ScanAll(root: Entry, checkPaths: seq<CachInfo>) returns (survey: Survey)
    ensures survey == SurveyOf(root, checkPaths)
  {
    var files: seq<FileAttribute> := [];
    var dirs: seq<FileAttribute> := [];
    var allSize: nat := 0;
    for i := 0 to |checkPaths|
      invariant Survey(files, dirs, allSize) == SurveyOf(root, checkPaths[..i])
    {
      var dirAtt, found := GetFolderSizeAndMaxSubFiles(root, checkPaths[i].path, MaxFileInfos);
      ghost var prev := Survey(files, dirs, allSize);
      files := files + found;
      allSize := allSize + dirAtt.size;
      if dirAtt.size > DirThreshold {
        dirs := dirs + [FilterMaxSize(dirAtt, DirThreshold)];
      }
      SurveyStep(root, checkPaths, i);
      ghost var next := SurveyAdd(prev, Explore(root, checkPaths[i].path));
      assert next.files == files;
      assert next.dirs == dirs;
      assert next.size == allSize;
    }
    assert checkPaths[..|checkPaths|] == checkPaths;
    survey := Survey(files, dirs, allSize);
  }

  /** The disk, as a tree the cache operations read and change. */
  class Disk {
    var root: Entry

    constructor(root: Entry)
      ensures this.root == root
    {
      this.root := root;
    }
  }

  /** What the store already holds, decoded, for each persisted property (None where it holds nothing). */
  datatype Persisted = Persisted(
    customCachePath: Option<seq<CachInfo>>,
    defaultCachePath: Option<seq<CachInfo>>,
    currentCachSize: Option<nat>,
    fileInfos: Option<seq<FileAttribute>>,
    dirInfos: Option<seq<FileAttribute>>,
    clearLevel: Option<int>,
    lastLevel: Option<int>)

  /**
   * `StoreCache.shared`, with its persisted `@QuickStore` properties as
   * plain fields (nil where the property holds no value).
   */
  class StoreCache {
    var customCachePath: Option<seq<CachInfo>>
    var defaultCachePath: Option<seq<CachInfo>>
    var currentCachSize: Option<nat>
    var fileInfos: Option<seq<FileAttribute>>
    var dirInfos: Option<seq<FileAttribute>>
    var clearLevel: Option<int>
    var lastLevel: Option<int>

    /**
     * Each wrapper starts from the value the store holds for its key, decoded,
     * and from its default when there is none: the caches and temporary
     * directories, unfiltered, and zeros elsewhere.
     */
    constructor(caches: Path, temporary: Path, stored: Persisted)
      ensures customCachePath == Some(stored.customCachePath.GetOr([CachInfo(caches, [], DefaultMaxSize), CachInfo(temporary, [], DefaultMaxSize)]))
      ensures defaultCachePath == Some(stored.defaultCachePath.GetOr([]))
      ensures currentCachSize == Some(stored.currentCachSize.GetOr(0))
      ensures fileInfos == Some(stored.fileInfos.GetOr([])) && dirInfos == Some(stored.dirInfos.GetOr([]))
      ensures clearLevel == Some(stored.clearLevel.GetOr(0)) && lastLevel == Some(stored.lastLevel.GetOr(0))
    {
      customCachePath := Some(stored.customCachePath.GetOr([CachInfo(caches, [], DefaultMaxSize), CachInfo(temporary, [], DefaultMaxSize)]));
      defaultCachePath := Some(stored.defaultCachePath.GetOr([]));
      currentCachSize := Some(stored.currentCachSize.GetOr(0));
      fileInfos := Some(stored.fileInfos.GetOr([]));
      dirInfos := Some(stored.dirInfos.GetOr([]));
      clearLevel := Some(stored.clearLevel.GetOr(0));
      lastLevel := Some(stored.lastLevel.GetOr(0));
    }

    /** `setInfo(_:)` */
    method SetInfo(info: CachInfo)
      modifies this`customCachePath
      ensures customCachePath == WithInfo(old(customCachePath), info)
    {
      if customCachePath.Some? && !HasPath(customCachePath.value, info.path) {
        customCachePath := Some(customCachePath.value + [info]);
      }
    }

    /** `getLog(_:)` */
    method GetLog(directGet: bool) returns (r: Option<Report>)
      modifies this`clearLevel, this`lastLevel
      ensures var o := LogStep(Levels(old(clearLevel), old(lastLevel)), currentCachSize.GetOr(0), directGet);
              Levels(clearLevel, lastLevel) == o.levels
              && r == (if o.emit then Some(ReportOf(fileInfos, dirInfos, currentCachSize, directGet)) else None)
    {
      var files := fileInfos.GetOr([]);
      var size := currentCachSize.GetOr(0);
      var canGet := directGet;
      var currentMB := size / MiB;
      if !canGet {
        if size > DirThreshold {
          clearLevel := Some(currentMB);
          var last := lastLevel.GetOr(0);
          var current := clearLevel.GetOr(0);
          if last + 99 < current {
            canGet := true;
          }
        }
      }
      if canGet && currentMB > 10 {
        lastLevel := clearLevel;
        r := Some(Report(Reverse(files), Reverse(dirInfos.GetOr([])), currentCachSize.GetOr(0),
                         if directGet then "1" else "0"));
      } else {
        r := None;
      }
    }

    /** `check(_:)`: scans every watched directory and records the totals. */
    method Check(disk: Disk)
      modifies this`currentCachSize, this`fileInfos, this`dirInfos
      ensures var s := SurveyOf(disk.root, customCachePath.GetOr([]) + defaultCachePath.GetOr([]));
              && currentCachSize == Some(s.size)
              && fileInfos == Some(RecordedFiles(s))
              && dirInfos == Some(RecordedDirs(s))
    {
      var checkPaths := customCachePath.GetOr([]) + defaultCachePath.GetOr([]);
      var survey := ScanAll(disk.root, checkPaths);
      currentCachSize := Some(survey.size);
      fileInfos := Some(RecordedFiles(survey));
      dirInfos := Some(RecordedDirs(survey));
    }

    /** The `while let last = fileInfos?.last` loop of `clearAll`. */
    method DropFileInfos(disk: Disk, filterKeys: seq<string>)
      modifies this`fileInfos, disk
      ensures fileInfos == (if old(fileInfos).Some? then Some([]) else None)
      ensures disk.root == RemoveAll(old(disk.root), Doomed(Reverse(old(fileInfos).GetOr([])), filterKeys))
    {
      ghost var start := fileInfos.GetOr([]);
      ghost var k: nat := |start|;
      while fileInfos.Some? && |fileInfos.value| > 0
        invariant fileInfos.Some? <==> old(fileInfos).Some?
        invariant k <= |start| && fileInfos.GetOr([]) == start[..k]
        invariant disk.root == RemoveAll(old(disk.root), Doomed(Reverse(start[k..]), filterKeys))
        decreases k
      {
        var last := fileInfos.value[|fileInfos.value| - 1];
        fileInfos := Some(fileInfos.value[..|fileInfos.value| - 1]);
        ReverseSuffixStep(start, k);
        DoomedSnoc(Reverse(start[k..]), last, filterKeys);
        RemoveAllSnoc(old(disk.root), Doomed(Reverse(start[k..]), filterKeys),
                      if ShouldRemove(last, filterKeys) then [last.path] else []);
        k := k - 1;
        assert start[..k + 1][..k] == start[..k];
        if last.size > LargeFile {
          disk.root := RemoveAt(disk.root, last.path);
        } else {
          var excluded := AnyContained(PathText(last.path), filterKeys);
          if !excluded {
            disk.root := RemoveAt(disk.root, last.path);
          }
        }
      }
      assert start[|start|..] == [];
    }

    /** `clear(_:filters:)`: removes the listed children of `dir` in which no filter occurs. */
    method Clear(disk: Disk, dir: Path, filters: seq<string>)
      modifies disk
      ensures disk.root == Cleared(old(disk.root), dir, Names(Listing(old(disk.root), dir)), filters)
    {
      var files := Names(Listing(disk.root, dir));
      ghost var start := disk.root;
      for i := 0 to |files|
        invariant disk.root == Cleared(start, dir, files[..i], filters)
      {
        assert files[..i + 1][..i] == files[..i];
        var keep := AnyContained(files[i], filters);
        if !keep {
          disk.root := RemoveAt(disk.root, dir + [files[i]]);
        }
      }
      assert files[..|files|] == files;
    }

    /**
     * `clearAll(_:complete:)`: drops the recorded files, resets both levels,
     * clears each watched directory (unless `checkSize` holds and it is within
     * its limit), then runs `check`.
     */
    method ClearAll(disk: Disk, checkSize: bool, filterKeys: seq<string>)
      modifies this`fileInfos, this`clearLevel, this`lastLevel, this`currentCachSize, this`dirInfos, disk
      ensures clearLevel == Some(0) && lastLevel == Some(0)
      ensures disk.root == Sweep(RemoveAll(old(disk.root), Doomed(Reverse(old(fileInfos).GetOr([])), filterKeys)),
                                 customCachePath.GetOr([]), checkSize, filterKeys)
      ensures var s := SurveyOf(disk.root, customCachePath.GetOr([]) + defaultCachePath.GetOr([]));
              && currentCachSize == Some(s.size)
              && fileInfos == Some(RecordedFiles(s))
              && dirInfos == Some(RecordedDirs(s))
    {
      DropFileInfos(disk, filterKeys);
      clearLevel := Some(0);
      lastLevel := Some(0);
      SweepDirs(disk, customCachePath.GetOr([]), checkSize, filterKeys);
      Check(disk);
    }

    /** The loop of `clearAll` over the custom cache directories. */
    method SweepDirs(disk: Disk, infos: seq<CachInfo>, checkSize: bool, filterKeys: seq<string>)
      modifies disk
      ensures disk.root == Sweep(old(disk.root), infos, checkSize, filterKeys)
    {
      ghost var start := disk.root;
      for i := 0 to |infos|
        invariant disk.root == Sweep(start, infos[..i], checkSize, filterKeys)
      {
        SweepStep(start, infos, i, checkSize, filterKeys);
        var info := infos[i];
        var dirAtt, _ := ExploreFolder(disk.root, info.path);
        var canDelete := true;
        if checkSize && dirAtt.size < info.maxSize {
          canDelete := false;
        }
        if canDelete {
          Clear(disk, info.path, info.filterKey + filterKeys);
        }
      }
      assert infos[..|infos|] == infos;
    }
  }
}
