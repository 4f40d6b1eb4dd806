/**
 * `StoreCache.FileAttribute`: recursive sizing of a folder
 * (`exploreFolder`), pruning of the result (`filterMaxSize`), and the
 * selection of the largest files (`getFolderSizeAndMaxSubFiles`):
 * de-duplicate by `parent/name`, sort by size, keep the last `n`.
 */
module CacheScan {
  import opened Wrappers
  import opened Text
  import opened DiskTree

  datatype FileAttribute = FileAttribute(path: Path, size: nat, subFiles: seq<FileAttribute>)

  /** The sizes of a list of attributes added up. */
  function SumSizes(s: seq<FileAttribute>): nat {
    if |s| == 0 then 0 else SumSizes(s[..|s| - 1]) + s[|s| - 1].size
  }

  lemma {:induction false} SumSizesAppend(a: seq<FileAttribute>, b: seq<FileAttribute>)
    ensures SumSizes(a + b) == SumSizes(a) + SumSizes(b)
    decreases |b|
  {
    if |b| > 0 {
      assert (a + b)[..|a + b| - 1] == a + b[..|b| - 1];
      SumSizesAppend(a, b[..|b| - 1]);
    } else {
      assert a + b == a;
    }
  }

  /** `filePath.hasPrefix(".")`: hidden entries are skipped. */
  predicate Hidden(name: string) {
    HasPrefix(name, ".")
  }

  /**
   * The state of `exploreFolder`'s loop: `totalSize`, `subFilesAttributes`
   * and the files passed to `handleInfo` so far.
   */
  datatype Scan = Scan(size: nat, subFiles: seq<FileAttribute>, visited: seq<FileAttribute>)

  /** Scanning a folder at `path`; anything that is not a folder scans as empty. */
  function ScanEntry(path: Path, e: Entry): Scan
    decreases e, 1
  {
    match e
    case File(_, _) => Scan(0, [], [])
    case Folder(_, cs) => ScanChildren(path, e, |cs|)
  }

  /** The loop of `exploreFolder` after its first `n` children. */
  function ScanChildren(path: Path, parent: Entry, n: nat): Scan
    requires parent.Folder? && n <= |parent.children|
    decreases parent, 0, n
  {
    if n == 0 then Scan(0, [], [])
    else
      var acc := ScanChildren(path, parent, n - 1);
      var c := parent.children[n - 1];
      if Hidden(c.name) then acc
      else match c
        case Folder(name, _) =>
          var sub := ScanEntry(path + [name], c);
          Scan(acc.size + sub.size,
               acc.subFiles + [FileAttribute(path + [name], sub.size, sub.subFiles)],
               acc.visited + sub.visited)
        case File(name, Some(s)) =>
          var att := FileAttribute(path + [name], s, []);
          Scan(acc.size + s, acc.subFiles + [att], acc.visited + [att])
        case File(_, None) => acc
  }

  /**
   * `exploreFolder(atPath:handleInfo:)` on the tree `root`: the folder's
   * attribute, and the files `handleInfo` receives, in order. A path that
   * is not a folder has size 0 and no children.
   */
  function Explore(root: Entry, path: Path): (FileAttribute, seq<FileAttribute>) {
    match Lookup(root, path)
    case Some(Folder(n, cs)) =>
      var s := ScanEntry(path, Folder(n, cs));
      (FileAttribute(path, s.size, s.subFiles), s.visited)
    case _ => (FileAttribute(path, 0, []), [])
  }

  /** `p` lies under `dir` without passing through a hidden name. */
  predicate VisibleUnder(p: Path, dir: Path) {
    |p| > |dir| && p[..|dir|] == dir && forall j :: |dir| <= j < |p| ==> !Hidden(p[j])
  }

  /** Every file in `vs` is a leaf lying visibly under `dir`. */
  predicate LeavesUnder(vs: seq<FileAttribute>, dir: Path) {
    forall i :: 0 <= i < |vs| ==> vs[i].subFiles == [] && VisibleUnder(vs[i].path, dir)
  }

  /** Leaves under `dir` followed by leaves under its visible child `name` are leaves under `dir`. */
  lemma LeavesAppendChild(a: seq<FileAttribute>, b: seq<FileAttribute>, dir: Path, name: string)
    requires !Hidden(name) && LeavesUnder(a, dir) && LeavesUnder(b, dir + [name])
    ensures LeavesUnder(a + b, dir)
  {
    forall i | 0 <= i < |a + b|
      ensures (a + b)[i].subFiles == [] && VisibleUnder((a + b)[i].path, dir)
    {
      if i >= |a| {
        assert (a + b)[i] == b[i - |a|];
        VisibleUnderParent(b[i - |a|].path, dir, name);
      }
    }
  }

  /** What the scan promises about its result. */
  predicate ScanSound(path: Path, s: Scan) {
    && s.size == SumSizes(s.visited)
    && s.size == SumSizes(s.subFiles)
    && LeavesUnder(s.visited, path)
    && (forall i :: 0 <= i < |s.subFiles| ==> |s.subFiles[i].path| == |path| + 1 && VisibleUnder(s.subFiles[i].path, path))
  }

  /**
   * The folder's size is the sum of the sizes of the files handed to
   * `handleInfo`, and also of its direct children; each handled file is a
   * leaf reached from the folder through visible names only.
   */
  lemma {:induction false} ScanEntryConsistent(path: Path, e: Entry)
    ensures ScanSound(path, ScanEntry(path, e))
    decreases e, 1
  {
    match e
    case File(_, _) =>
    case Folder(_, cs) => ScanChildrenConsistent(path, e, |cs|);
  }

  lemma {:induction false} ScanChildrenConsistent(path: Path, parent: Entry, n: nat)
    requires parent.Folder? && n <= |parent.children|
    ensures ScanSound(path, ScanChildren(path, parent, n))
    decreases parent, 0, n
  {
    if n > 0 {
      var acc := ScanChildren(path, parent, n - 1);
      ScanChildrenConsistent(path, parent, n - 1);
      var c := parent.children[n - 1];
      if !Hidden(c.name) {
        match c
        case Folder(name, _) =>
          ScanEntryConsistent(path + [name], c);
          StepFolderSound(path, name, acc, ScanEntry(path + [name], c));
        case File(name, Some(s)) =>
          StepFileSound(path, name, s, acc);
        case File(_, None) =>
      }
    }
  }

  /** Adding a visible sub-folder's scan keeps the scan sound. */
  lemma StepFolderSound(path: Path, name: string, acc: Scan, sub: Scan)
    requires !Hidden(name)
    requires ScanSound(path, acc) && ScanSound(path + [name], sub)
    ensures ScanSound(path, Scan(acc.size + sub.size,
                                 acc.subFiles + [FileAttribute(path + [name], sub.size, sub.subFiles)],
                                 acc.visited + sub.visited))
  {
    var r := Scan(acc.size + sub.size,
                  acc.subFiles + [FileAttribute(path + [name], sub.size, sub.subFiles)],
                  acc.visited + sub.visited);
    SumSizesAppend(acc.visited, sub.visited);
    SumSizesAppend(acc.subFiles, [FileAttribute(path + [name], sub.size, sub.subFiles)]);
    assert SumSizes([FileAttribute(path + [name], sub.size, sub.subFiles)]) == sub.size;
    LeavesAppendChild(acc.visited, sub.visited, path, name);
    var q := path + [name];
    assert q[..|path|] == path;
    assert VisibleUnder(q, path);
  }

  /** What lies visibly under a visible child lies visibly under its parent. */
  lemma VisibleUnderParent(p: Path, dir: Path, name: string)
    requires !Hidden(name) && VisibleUnder(p, dir + [name])
    ensures VisibleUnder(p, dir)
  {
    var q := dir + [name];
    assert p[..|q|] == q;
    assert p[..|dir|] == q[..|dir|];
    forall j | |dir| <= j < |p|
      ensures !Hidden(p[j])
    {
      if j == |dir| {
        assert p[j] == q[j];
      }
    }
  }

  /** Adding a visible file of known size keeps the scan sound. */
  lemma StepFileSound(path: Path, name: string, s: nat, acc: Scan)
    requires !Hidden(name)
    requires ScanSound(path, acc)
    ensures ScanSound(path, Scan(acc.size + s, acc.subFiles + [FileAttribute(path + [name], s, [])],
                                 acc.visited + [FileAttribute(path + [name], s, [])]))
  {
    var att := FileAttribute(path + [name], s, []);
    SumSizesAppend(acc.visited, [att]);
    SumSizesAppend(acc.subFiles, [att]);
    assert SumSizes([att]) == s;
    var q := path + [name];
    assert q[..|path|] == path;
    assert VisibleUnder(q, path);
  }

  // ---- What the scan finds in the tree ----

  /** How many of the files in `vs` lie at `p`. */
  function Occurrences(vs: seq<FileAttribute>, p: Path): nat {
    if |vs| == 0 then 0
    else Occurrences(vs[..|vs| - 1], p) + (if vs[|vs| - 1].path == p then 1 else 0)
  }

  lemma {:induction false} OccurrencesAppend(a: seq<FileAttribute>, b: seq<FileAttribute>, p: Path)
    ensures Occurrences(a + b, p) == Occurrences(a, p) + Occurrences(b, p)
    decreases |b|
  {
    if |b| > 0 {
      assert (a + b)[..|a + b| - 1] == a + b[..|b| - 1];
      OccurrencesAppend(a, b[..|b| - 1], p);
    } else {
      assert a + b == a;
    }
  }

  /** Files lying under `dir` are never at a path outside it. */
  lemma {:induction false} OccurrencesOutside(vs: seq<FileAttribute>, dir: Path, p: Path)
    requires LeavesUnder(vs, dir) && !(dir <= p)
    ensures Occurrences(vs, p) == 0
    decreases |vs|
  {
    if |vs| > 0 {
      var init := vs[..|vs| - 1];
      assert forall i :: 0 <= i < |init| ==> init[i] == vs[i];
      OccurrencesOutside(init, dir, p);
      assert vs[|vs| - 1].path[..|dir|] == dir;
    }
  }

  /** `f` is a sized file of `e`, under its own name, reached from `path` through visible names. */
  predicate FileOf(e: Entry, path: Path, f: FileAttribute) {
    && VisibleUnder(f.path, path)
    && f.subFiles == []
    && Lookup(e, f.path[|path|..]) == Some(File(f.path[|f.path| - 1], Some(f.size)))
  }

  /** Every file in `vs` is a file of `e` in that sense. */
  predicate FilesOf(e: Entry, path: Path, vs: seq<FileAttribute>) {
    forall i :: 0 <= i < |vs| ==> FileOf(e, path, vs[i])
  }

  /** There is a file of known size at the relative path `q`. */
  predicate SizedFileAt(e: Entry, q: Path) {
    Lookup(e, q).Some? && Lookup(e, q).value.File? && Lookup(e, q).value.size.Some?
  }

  /** No component of `q` is hidden. */
  predicate AllVisible(q: Path) {
    forall j :: 0 <= j < |q| ==> !Hidden(q[j])
  }

  lemma FilesOfAppend(e: Entry, path: Path, a: seq<FileAttribute>, b: seq<FileAttribute>)
    requires FilesOf(e, path, a) && FilesOf(e, path, b)
    ensures FilesOf(e, path, a + b)
  {
    forall i | 0 <= i < |a + b| ensures FileOf(e, path, (a + b)[i]) {
      if i < |a| {
        assert (a + b)[i] == a[i];
      } else {
        assert (a + b)[i] == b[i - |a|];
      }
    }
  }

  /** A file of a visible child folder of `parent` is a file of `parent`. */
  lemma FileOfChild(parent: Entry, path: Path, k: nat, f: FileAttribute)
    requires parent.Folder? && WellFormed(parent) && k < |parent.children|
    requires !Hidden(parent.children[k].name)
    requires FileOf(parent.children[k], path + [parent.children[k].name], f)
    ensures FileOf(parent, path, f)
  {
    var name := parent.children[k].name;
    VisibleUnderParent(f.path, path, name);
    var rel := f.path[|path|..];
    assert f.path[..|path| + 1] == path + [name];
    assert rel[0] == name;
    assert rel[1..] == f.path[|path + [name]|..];
    FindChildDistinct(parent.children, k);
  }

  /** A visible file of known size directly in `parent` is a file of `parent`. */
  lemma FileOfDirect(parent: Entry, path: Path, k: nat, s: nat)
    requires parent.Folder? && WellFormed(parent) && k < |parent.children|
    requires !Hidden(parent.children[k].name)
    requires parent.children[k] == File(parent.children[k].name, Some(s))
    ensures FileOf(parent, path, FileAttribute(path + [parent.children[k].name], s, []))
  {
    var name := parent.children[k].name;
    var p := path + [name];
    assert p[..|path|] == path;
    assert p[|path|..] == [name];
    FindChildDistinct(parent.children, k);
    assert Lookup(parent.children[k], [name][1..]) == Some(parent.children[k]);
  }

  /** In a well-formed tree every handled file is a sized file of the folder, at the path it reports. */
  lemma {:induction false} ScanEntryFiles(path: Path, e: Entry)
    requires WellFormed(e)
    ensures FilesOf(e, path, ScanEntry(path, e).visited)
    decreases e, 1
  {
    if e.Folder? {
      ScanChildrenFiles(path, e, |e.children|);
    }
  }

  lemma {:induction false} ScanChildrenFiles(path: Path, parent: Entry, n: nat)
    requires parent.Folder? && WellFormed(parent) && n <= |parent.children|
    ensures FilesOf(parent, path, ScanChildren(path, parent, n).visited)
    decreases parent, 0, n
  {
    if n > 0 {
      var acc := ScanChildren(path, parent, n - 1);
      ScanChildrenFiles(path, parent, n - 1);
      var c := parent.children[n - 1];
      if !Hidden(c.name) {
        match c
        case Folder(name, _) =>
          var sub := ScanEntry(path + [name], c);
          ScanEntryFiles(path + [name], c);
          forall i | 0 <= i < |sub.visited| ensures FileOf(parent, path, sub.visited[i]) {
            FileOfChild(parent, path, n - 1, sub.visited[i]);
          }
          FilesOfAppend(parent, path, acc.visited, sub.visited);
        case File(name, Some(s)) =>
          FileOfDirect(parent, path, n - 1, s);
          FilesOfAppend(parent, path, acc.visited, [FileAttribute(path + [name], s, [])]);
        case File(_, None) =>
      }
    }
  }

  /** In a well-formed tree every visible file of known size is handled exactly once. */
  lemma {:induction false} ScanEntryComplete(path: Path, e: Entry, q: Path)
    requires WellFormed(e) && |q| >= 1 && AllVisible(q) && SizedFileAt(e, q)
    ensures Occurrences(ScanEntry(path, e).visited, path + q) == 1
    decreases e, 1, 0, 0
  {
    assert e.Folder?;
    ScanChildrenComplete(path, e, |e.children|, q);
  }

  /** A file of known size in a well-formed folder lies in the one child carrying its first name. */
  lemma LocateChild(parent: Entry, q: Path)
    requires parent.Folder? && WellFormed(parent) && |q| >= 1 && AllVisible(q) && SizedFileAt(parent, q)
    ensures FindChild(parent.children, q[0]).Some?
    ensures var k := FindChild(parent.children, q[0]).value;
            && SizedFileAt(parent.children[k], q[1..]) && WellFormed(parent.children[k])
            && !Hidden(parent.children[k].name)
            && forall j :: 0 <= j < |parent.children| && j != k ==> parent.children[j].name != q[0]
  {
    assert !Hidden(q[0]);
  }

  /** Files under a sibling folder are never at the path of a file in another child. */
  lemma OccurrencesSibling(vs: seq<FileAttribute>, path: Path, name: string, q: Path)
    requires |q| >= 1 && name != q[0] && LeavesUnder(vs, path + [name])
    ensures Occurrences(vs, path + q) == 0
  {
    assert (path + q)[|path|] != (path + [name])[|path|];
    OccurrencesOutside(vs, path + [name], path + q);
  }

  lemma OccurrencesSnoc(vs: seq<FileAttribute>, f: FileAttribute, p: Path)
    ensures Occurrences(vs + [f], p) == Occurrences(vs, p) + (if f.path == p then 1 else 0)
  {
    assert (vs + [f])[..|vs|] == vs;
  }

  /**
   * After the first `n` children the file at `q` has been handled once if
   * the child it lies in is among them, and not at all otherwise.
   */
  lemma {:induction false} ScanChildrenComplete(path: Path, parent: Entry, n: nat, q: Path)
    requires parent.Folder? && WellFormed(parent) && n <= |parent.children|
    requires |q| >= 1 && AllVisible(q) && SizedFileAt(parent, q)
    ensures FindChild(parent.children, q[0]).Some?
    ensures Occurrences(ScanChildren(path, parent, n).visited, path + q)
            == if FindChild(parent.children, q[0]).value < n then 1 else 0
    decreases parent, 0, n, 1
  {
    LocateChild(parent, q);
    if n > 0 {
      ScanChildrenComplete(path, parent, n - 1, q);
      var c := parent.children[n - 1];
      if !Hidden(c.name) {
        match c
        case Folder(_, _) => CompleteFolderStep(path, parent, n, q);
        case File(_, _) => CompleteFileStep(path, parent, n, q);
      }
    }
  }

  /** The step of `ScanChildrenComplete` over a visible child folder. */
  lemma {:induction false} CompleteFolderStep(path: Path, parent: Entry, n: nat, q: Path)
    requires parent.Folder? && WellFormed(parent) && 0 < n <= |parent.children|
    requires |q| >= 1 && AllVisible(q) && SizedFileAt(parent, q)
    requires !Hidden(parent.children[n - 1].name) && parent.children[n - 1].Folder?
    requires FindChild(parent.children, q[0]).Some?
    requires Occurrences(ScanChildren(path, parent, n - 1).visited, path + q)
             == if FindChild(parent.children, q[0]).value < n - 1 then 1 else 0
    ensures Occurrences(ScanChildren(path, parent, n).visited, path + q)
            == if FindChild(parent.children, q[0]).value < n then 1 else 0
    decreases parent, 0, n, 0
  {
    LocateChild(parent, q);
    var k := FindChild(parent.children, q[0]).value;
    var c := parent.children[n - 1];
    var name := c.name;
    var acc := ScanChildren(path, parent, n - 1);
    var sub := ScanEntry(path + [name], c);
    assert ScanChildren(path, parent, n).visited == acc.visited + sub.visited;
    OccurrencesAppend(acc.visited, sub.visited, path + q);
    if k == n - 1 {
      var r := q[1..];
      assert Lookup(c, []) == Some(c);
      assert |r| >= 1;
      assert path + [name] + r == path + q;
      assert AllVisible(r) by {
        forall j | 0 <= j < |r| ensures !Hidden(r[j]) {
          assert r[j] == q[j + 1];
        }
      }
      ScanEntryComplete(path + [name], c, r);
    } else {
      ScanEntryConsistent(path + [name], c);
      OccurrencesSibling(sub.visited, path, name, q);
    }
  }

  /** Handling one more file adds an occurrence of `path + q` exactly when that file is the one at `q`. */
  lemma SizedFileStep(path: Path, acc: seq<FileAttribute>, name: string, s: nat, q: Path, hit: bool)
    requires |q| >= 1
    requires hit ==> q == [name]
    requires !hit ==> name != q[0]
    ensures Occurrences(acc + [FileAttribute(path + [name], s, [])], path + q)
            == Occurrences(acc, path + q) + (if hit then 1 else 0)
  {
    OccurrencesSnoc(acc, FileAttribute(path + [name], s, []), path + q);
    if !hit {
      assert (path + q)[|path|] != (path + [name])[|path|];
    }
  }

  /** The step of `ScanChildrenComplete` over a visible file. */
  lemma CompleteFileStep(path: Path, parent: Entry, n: nat, q: Path)
    requires parent.Folder? && WellFormed(parent) && 0 < n <= |parent.children|
    requires |q| >= 1 && AllVisible(q) && SizedFileAt(parent, q)
    requires !Hidden(parent.children[n - 1].name) && parent.children[n - 1].File?
    requires FindChild(parent.children, q[0]).Some?
    requires Occurrences(ScanChildren(path, parent, n - 1).visited, path + q)
             == if FindChild(parent.children, q[0]).value < n - 1 then 1 else 0
    ensures Occurrences(ScanChildren(path, parent, n).visited, path + q)
            == if FindChild(parent.children, q[0]).value < n then 1 else 0
  {
    LocateChild(parent, q);
    var k := FindChild(parent.children, q[0]).value;
    var c := parent.children[n - 1];
    assert k != n - 1 ==> c.name != q[0];
    var acc := ScanChildren(path, parent, n - 1);
    if c.size.Some? {
      if k == n - 1 {
        assert |q[1..]| == 0;
        assert q == [c.name];
      }
      SizedFileStep(path, acc.visited, c.name, c.size.value, q, k == n - 1);
    } else {
      assert Lookup(c, []) == Some(c);
      assert k != n - 1;
    }
  }

  /**
   * The scan's promises together: the sizes add up, and in a well-formed
   * tree the handled files are exactly the visible files of known size
   * below the folder, each handled once.
   */
  lemma ScanEntrySound(path: Path, e: Entry)
    ensures ScanSound(path, ScanEntry(path, e))
    ensures WellFormed(e) ==> FilesOf(e, path, ScanEntry(path, e).visited)
    ensures forall q :: WellFormed(e) && |q| >= 1 && AllVisible(q) && SizedFileAt(e, q) ==>
              Occurrences(ScanEntry(path, e).visited, path + q) == 1
  {
    ScanEntryConsistent(path, e);
    if WellFormed(e) {
      ScanEntryFiles(path, e);
      forall q | |q| >= 1 && AllVisible(q) && SizedFileAt(e, q)
        ensures Occurrences(ScanEntry(path, e).visited, path + q) == 1
      {
        ScanEntryComplete(path, e, q);
      }
    }
  }

  /** In a well-formed tree each file `exploreFolder` handles is the file of known size at its path. */
  lemma ExploreFiles(root: Entry, path: Path)
    requires WellFormed(root)
    ensures forall i :: 0 <= i < |Explore(root, path).1| ==>
              var f := Explore(root, path).1[i];
              VisibleUnder(f.path, path) && f.subFiles == [] && Lookup(root, f.path) == Some(File(f.path[|f.path| - 1], Some(f.size)))
  {
    match Lookup(root, path)
    case Some(Folder(n, cs)) =>
      var e := Folder(n, cs);
      LookupWellFormed(root, path);
      ScanEntryFiles(path, e);
      var vs := ScanEntry(path, e).visited;
      forall i | 0 <= i < |vs|
        ensures Lookup(root, vs[i].path) == Some(File(vs[i].path[|vs[i].path| - 1], Some(vs[i].size)))
      {
        assert FileOf(e, path, vs[i]);
        var rel := vs[i].path[|path|..];
        assert path + rel == vs[i].path;
        LookupAppend(root, path, rel);
      }
    case _ =>
  }

  /** In a well-formed tree each visible file of known size below the folder is handled exactly once. */
  lemma ExploreComplete(root: Entry, path: Path, p: Path)
    requires WellFormed(root) && VisibleUnder(p, path) && SizedFileAt(root, p)
    ensures Occurrences(Explore(root, path).1, p) == 1
  {
    var q := p[|path|..];
    assert path + q == p;
    LookupPrefix(root, path, q);
    LookupAppend(root, path, q);
    var e := Lookup(root, path).value;
    assert SizedFileAt(e, q);
    assert e.Folder?;
    LookupWellFormed(root, path);
    assert AllVisible(q) by {
      forall j | 0 <= j < |q| ensures !Hidden(q[j]) {
        assert q[j] == p[|path| + j];
      }
    }
    ScanEntryComplete(path, e, q);
  }

  /**
   * `exploreFolder` complete: the attribute's size and the handled files
   * agree; in a well-formed tree each handled file is the file of known
   * size at its path, and each visible file of known size below the folder
   * is handled exactly once.
   */
  lemma ExploreSound(root: Entry, path: Path)
    ensures Explore(root, path).0.path == path
    ensures Explore(root, path).0.size == SumSizes(Explore(root, path).1)
    ensures Explore(root, path).0.size == SumSizes(Explore(root, path).0.subFiles)
    ensures forall i :: 0 <= i < |Explore(root, path).1| ==> VisibleUnder(Explore(root, path).1[i].path, path)
    ensures WellFormed(root) ==>
              forall i :: 0 <= i < |Explore(root, path).1| ==>
                var f := Explore(root, path).1[i];
                VisibleUnder(f.path, path) && f.subFiles == [] && Lookup(root, f.path) == Some(File(f.path[|f.path| - 1], Some(f.size)))
    ensures forall p :: WellFormed(root) && VisibleUnder(p, path) && SizedFileAt(root, p) ==>
              Occurrences(Explore(root, path).1, p) == 1
  {
    match Lookup(root, path) {
      case Some(Folder(n, cs)) => ScanEntryConsistent(path, Folder(n, cs));
      case _ =>
    }
    if WellFormed(root) {
      ExploreFiles(root, path);
      forall p | VisibleUnder(p, path) && SizedFileAt(root, p) ensures Occurrences(Explore(root, path).1, p) == 1 {
        ExploreComplete(root, path, p);
      }
    }
  }

  /** `exploreFolder`'s loop, for a folder entry. */
  method ScanFolder(path: Path, e: Entry) returns (r: Scan)
    requires e.Folder?
    ensures r == ScanEntry(path, e)
    decreases e
  {
    var totalSize: nat := 0;
    var subFilesAttributes: seq<FileAttribute> := [];
    var handled: seq<FileAttribute> := [];
    var i := 0;
    while i < |e.children|
      invariant 0 <= i <= |e.children|
      invariant Scan(totalSize, subFilesAttributes, handled) == ScanChildren(path, e, i)
    {
      var c := e.children[i];
      if !Hidden(c.name) {
        match c {
          case Folder(name, _) =>
            var dir := ScanFolder(path + [name], c);
            totalSize := totalSize + dir.size;
            subFilesAttributes := subFilesAttributes + [FileAttribute(path + [name], dir.size, dir.subFiles)];
            handled := handled + dir.visited;
          case File(name, size) =>
            if size.Some? {
              var att := FileAttribute(path + [name], size.value, []);
              totalSize := totalSize + size.value;
              subFilesAttributes := subFilesAttributes + [att];
              handled := handled + [att];
            }
        }
      }
      i := i + 1;
    }
    r := Scan(totalSize, subFilesAttributes, handled);
  }

  /** `exploreFolder(atPath:handleInfo:)`; `handled` lists the `handleInfo` calls. */
  method ExploreFolder(root: Entry, path: Path) returns (att: FileAttribute, handled: seq<FileAttribute>)
    ensures (att, handled) == Explore(root, path)
  {
    var found := Lookup(root, path);
    if found.Some? && found.value.Folder? {
      var s := ScanFolder(path, found.value);
      att := FileAttribute(path, s.size, s.subFiles);
      handled := s.visited;
    } else {
      att := FileAttribute(path, 0, []);
      handled := [];
    }
  }

  // ---- filterMaxSize ----

  /** `filterMaxSize(m)`: drop every child of size at most `m`, at every depth. */
  function FilterMaxSize(a: FileAttribute, m: int): (r: FileAttribute)
    ensures r.path == a.path && r.size == a.size
    decreases a, 1
  {
    FileAttribute(a.path, a.size, FilterFrom(a, m, 0))
  }

  /** The filtered children of `parent` from index `i` on. */
  function FilterFrom(parent: FileAttribute, m: int, i: nat): seq<FileAttribute>
    requires i <= |parent.subFiles|
    decreases parent, 0, |parent.subFiles| - i
  {
    if i == |parent.subFiles| then []
    else
      var c := parent.subFiles[i];
      (if c.size > m then [FilterMaxSize(c, m)] else []) + FilterFrom(parent, m, i + 1)
  }

  /** Every descendant is larger than `m`. */
  predicate AllAbove(a: FileAttribute, m: int) {
    forall i :: 0 <= i < |a.subFiles| ==> a.subFiles[i].size > m && AllAbove(a.subFiles[i], m)
  }

  lemma {:induction false} FilterMaxSizeAbove(a: FileAttribute, m: int)
    ensures AllAbove(FilterMaxSize(a, m), m)
    decreases a, 1
  {
    FilterFromAbove(a, m, 0);
  }

  lemma {:induction false} FilterFromAbove(parent: FileAttribute, m: int, i: nat)
    requires i <= |parent.subFiles|
    ensures forall j :: 0 <= j < |FilterFrom(parent, m, i)| ==>
              FilterFrom(parent, m, i)[j].size > m && AllAbove(FilterFrom(parent, m, i)[j], m)
    decreases parent, 0, |parent.subFiles| - i
  {
    if i < |parent.subFiles| {
      var c := parent.subFiles[i];
      FilterFromAbove(parent, m, i + 1);
      if c.size > m {
        FilterMaxSizeAbove(c, m);
      }
    }
  }

  /** A tree whose descendants are all above `m` is left as it is. */
  lemma {:induction false} FilterMaxSizeFixpoint(a: FileAttribute, m: int)
    requires AllAbove(a, m)
    ensures FilterMaxSize(a, m) == a
    decreases a, 1
  {
    FilterFromFixpoint(a, m, 0);
  }

  lemma {:induction false} FilterFromFixpoint(parent: FileAttribute, m: int, i: nat)
    requires i <= |parent.subFiles|
    requires AllAbove(parent, m)
    ensures FilterFrom(parent, m, i) == parent.subFiles[i..]
    decreases parent, 0, |parent.subFiles| - i
  {
    if i < |parent.subFiles| {
      FilterMaxSizeFixpoint(parent.subFiles[i], m);
      FilterFromFixpoint(parent, m, i + 1);
      assert parent.subFiles[i..] == [parent.subFiles[i]] + parent.subFiles[i + 1..];
    }
  }

  /** Between index `i` and the end, a child survives pruned exactly when it is larger than `m`. */
  lemma {:induction false} FilterFromMembers(parent: FileAttribute, m: int, i: nat)
    requires i <= |parent.subFiles|
    ensures forall j :: i <= j < |parent.subFiles| && parent.subFiles[j].size > m ==>
              FilterMaxSize(parent.subFiles[j], m) in FilterFrom(parent, m, i)
    ensures forall g :: g in FilterFrom(parent, m, i) ==>
              exists j :: i <= j < |parent.subFiles| && parent.subFiles[j].size > m && g == FilterMaxSize(parent.subFiles[j], m)
    decreases |parent.subFiles| - i
  {
    if i < |parent.subFiles| {
      FilterFromMembers(parent, m, i + 1);
      var c := parent.subFiles[i];
      var rest := FilterFrom(parent, m, i + 1);
      assert FilterFrom(parent, m, i) == (if c.size > m then [FilterMaxSize(c, m)] else []) + rest;
    }
  }

  /**
   * `filterMaxSize` keeps every child larger than `m` (pruned in turn),
   * and every child it keeps is one of those.
   */
  lemma FilterMaxSizeKeeps(a: FileAttribute, m: int)
    ensures forall j :: 0 <= j < |a.subFiles| && a.subFiles[j].size > m ==>
              FilterMaxSize(a.subFiles[j], m) in FilterMaxSize(a, m).subFiles
    ensures forall g :: g in FilterMaxSize(a, m).subFiles ==>
              exists j :: 0 <= j < |a.subFiles| && a.subFiles[j].size > m && g == FilterMaxSize(a.subFiles[j], m)
  {
    FilterFromMembers(a, m, 0);
  }

  /** Pruning twice is pruning once. */
  lemma FilterMaxSizeIdempotent(a: FileAttribute, m: int)
    ensures FilterMaxSize(FilterMaxSize(a, m), m) == FilterMaxSize(a, m)
  {
    FilterMaxSizeAbove(a, m);
    FilterMaxSizeFixpoint(FilterMaxSize(a, m), m);
  }

  /** The paths of a list of attributes, in order. */
  function Paths(s: seq<FileAttribute>): (r: seq<Path>)
    ensures |r| == |s|
  {
    if |s| == 0 then [] else [s[0].path] + Paths(s[1..])
  }

  /** `xs` is `ys` with some elements left out, order kept. */
  predicate IsSubsequence<T(==)>(xs: seq<T>, ys: seq<T>)
    decreases |ys|
  {
    if |xs| == 0 then true
    else if |ys| == 0 then false
    else (xs[0] == ys[0] && IsSubsequence(xs[1..], ys[1..])) || IsSubsequence(xs, ys[1..])
  }

  /** The kept children keep their relative order. */
  lemma {:induction false} FilterFromOrder(parent: FileAttribute, m: int, i: nat)
    requires i <= |parent.subFiles|
    ensures IsSubsequence(Paths(FilterFrom(parent, m, i)), Paths(parent.subFiles[i..]))
    decreases |parent.subFiles| - i
  {
    if i < |parent.subFiles| {
      FilterFromOrder(parent, m, i + 1);
      var rest := FilterFrom(parent, m, i + 1);
      var c := parent.subFiles[i];
      assert parent.subFiles[i..][1..] == parent.subFiles[i + 1..];
      var ys := Paths(parent.subFiles[i..]);
      assert ys[0] == c.path && ys[1..] == Paths(parent.subFiles[i + 1..]);
      if c.size > m {
        var r := FilterFrom(parent, m, i);
        assert r == [FilterMaxSize(c, m)] + rest;
        assert r[1..] == rest;
      } else {
        assert FilterFrom(parent, m, i) == rest;
        if |Paths(rest)| > 0 {
          assert IsSubsequence(Paths(rest), ys[1..]);
        }
      }
    }
  }

  /** `filterMaxSize` keeps the root, and its children stay in their original order. */
  lemma FilterMaxSizeOrder(a: FileAttribute, m: int)
    ensures IsSubsequence(Paths(FilterMaxSize(a, m).subFiles), Paths(a.subFiles))
  {
    FilterFromOrder(a, m, 0);
    assert a.subFiles[0..] == a.subFiles;
  }

  // ---- getFolderSizeAndMaxSubFiles ----

  /** `deletingLastPathComponent().lastPathComponent + "/" + lastPathComponent` of a file's path. */
  function DedupKey(f: FileAttribute): string {
    var p := f.path;
    var name := if |p| == 0 then "/" else p[|p| - 1];
    var parent := if |p| >= 2 then p[|p| - 2] else "/";
    parent + "/" + name
  }

  /** No element of `s` has key `k`. */
  predicate KeyFree(s: seq<FileAttribute>, k: string) {
    forall i :: 0 <= i < |s| ==> DedupKey(s[i]) != k
  }

  /** No two elements share a key. */
  predicate UniqueKeys(s: seq<FileAttribute>) {
    forall i, j :: 0 <= i < j < |s| ==> DedupKey(s[i]) != DedupKey(s[j])
  }

  /** The elements whose key is not `k`, in order. */
  function WithoutKey(s: seq<FileAttribute>, k: string): (r: seq<FileAttribute>)
    ensures KeyFree(r, k)
  {
    if |s| == 0 then []
    else (if DedupKey(s[0]) == k then [] else [s[0]]) + WithoutKey(s[1..], k)
  }

  /** Dropping key `k` keeps exactly the elements whose key is not `k`. */
  lemma {:induction false} WithoutKeyMembers(s: seq<FileAttribute>, k: string)
    ensures forall g :: g in WithoutKey(s, k) ==> g in s
    ensures forall i :: 0 <= i < |s| && DedupKey(s[i]) != k ==> s[i] in WithoutKey(s, k)
  {
    if |s| > 0 {
      WithoutKeyMembers(s[1..], k);
      var head := if DedupKey(s[0]) == k then [] else [s[0]];
      var rest := WithoutKey(s[1..], k);
      assert WithoutKey(s, k) == head + rest;
      forall g | g in WithoutKey(s, k) ensures g in s {
        if g in rest {
          assert g in s[1..];
        }
      }
      forall i | 0 <= i < |s| && DedupKey(s[i]) != k ensures s[i] in WithoutKey(s, k) {
        if i > 0 {
          assert s[i] == s[1..][i - 1];
          assert s[i] in rest;
        }
      }
    }
  }

  /** An element whose key is not `k` survives dropping `k`. */
  lemma WithoutKeyKeeps(s: seq<FileAttribute>, k: string, j: nat)
    requires j < |s| && DedupKey(s[j]) != k
    ensures s[j] in WithoutKey(s, k)
  {
    WithoutKeyMembers(s, k);
  }

  /** Dropping a key keeps the other keys unique. */
  lemma {:induction false} WithoutKeyUnique(s: seq<FileAttribute>, k: string)
    requires UniqueKeys(s)
    ensures UniqueKeys(WithoutKey(s, k))
  {
    if |s| > 0 {
      var rest := WithoutKey(s[1..], k);
      assert UniqueKeys(s[1..]) by {
        assert forall i :: 0 <= i < |s[1..]| ==> s[1..][i] == s[i + 1];
      }
      WithoutKeyUnique(s[1..], k);
      WithoutKeyMembers(s[1..], k);
      if DedupKey(s[0]) != k {
        assert KeyFree(rest, DedupKey(s[0])) by {
          forall i | 0 <= i < |rest| ensures DedupKey(rest[i]) != DedupKey(s[0]) {
            assert rest[i] in s[1..];
            var j :| 0 <= j < |s[1..]| && s[1..][j] == rest[i];
            assert s[j + 1] == rest[i];
          }
        }
        KeyFreeCons(s[0], rest);
      }
    }
  }

  /** Putting a file with a new key in front keeps the keys unique. */
  lemma KeyFreeCons(x: FileAttribute, s: seq<FileAttribute>)
    requires UniqueKeys(s) && KeyFree(s, DedupKey(x))
    ensures UniqueKeys([x] + s)
  {
    var r := [x] + s;
    forall i, j | 0 <= i < j < |r| ensures DedupKey(r[i]) != DedupKey(r[j]) {
      assert r[j] == s[j - 1];
      if i > 0 {
        assert r[i] == s[i - 1];
      }
    }
  }

  /**
   * One `handleInfo` call: append the file, then rebuild the list through a
   * dictionary keyed by `DedupKey` whose merge keeps the newer file.
   */
  function Admit(s: seq<FileAttribute>, f: FileAttribute): seq<FileAttribute> {
    WithoutKey(s, DedupKey(f)) + [f]
  }

  /** The de-duplicated list after handling `files` in order. */
  function Dedup(files: seq<FileAttribute>): seq<FileAttribute> {
    if |files| == 0 then [] else Admit(Dedup(files[..|files| - 1]), files[|files| - 1])
  }

  /** After de-duplication no two files share a key. */
  lemma {:induction false} DedupUnique(files: seq<FileAttribute>)
    ensures UniqueKeys(Dedup(files))
  {
    if |files| > 0 {
      var f := files[|files| - 1];
      DedupUnique(files[..|files| - 1]);
      WithoutKeyUnique(Dedup(files[..|files| - 1]), DedupKey(f));
      UniqueKeysAppend(WithoutKey(Dedup(files[..|files| - 1]), DedupKey(f)), f);
    }
  }

  /** Every de-duplicated file is one of the handled files. */
  lemma {:induction false} DedupFromInput(files: seq<FileAttribute>)
    ensures forall g :: g in Dedup(files) ==> g in files
  {
    if |files| > 0 {
      var init := files[..|files| - 1];
      DedupFromInput(init);
      WithoutKeyMembers(Dedup(init), DedupKey(files[|files| - 1]));
      forall g | g in Dedup(files) ensures g in files {
        if g in WithoutKey(Dedup(init), DedupKey(files[|files| - 1])) {
          assert g in Dedup(init);
          assert g in init;
        }
      }
    }
  }

  lemma KeyFreeInit(s: seq<FileAttribute>, f: FileAttribute, k: string)
    requires KeyFree(s + [f], k)
    ensures KeyFree(s, k) && DedupKey(f) != k
  {
    assert forall j :: 0 <= j < |s| ==> (s + [f])[j] == s[j];
    assert (s + [f])[|s|] == f;
  }

  /** The newest handled file with each key is the one kept. */
  lemma {:induction false} DedupKeepsNewest(files: seq<FileAttribute>)
    ensures forall i :: 0 <= i < |files| && KeyFree(files[i + 1..], DedupKey(files[i])) ==> files[i] in Dedup(files)
  {
    if |files| > 0 {
      var init := files[..|files| - 1];
      var f := files[|files| - 1];
      DedupKeepsNewest(init);
      var d := Dedup(init);
      forall i | 0 <= i < |files| - 1 && KeyFree(files[i + 1..], DedupKey(files[i]))
        ensures files[i] in Dedup(files)
      {
        assert files[i + 1..] == init[i + 1..] + [f];
        KeyFreeInit(init[i + 1..], f, DedupKey(files[i]));
        assert init[i] == files[i];
        assert files[i] in d;
        var j :| 0 <= j < |d| && d[j] == files[i];
        WithoutKeyKeeps(d, DedupKey(f), j);
      }
    }
  }

  /**
   * After de-duplication no two files share a key, every file comes from the
   * input, and the newest file with each key is the one kept.
   */
  lemma DedupProperties(files: seq<FileAttribute>)
    ensures UniqueKeys(Dedup(files))
    ensures forall g :: g in Dedup(files) ==> g in files
    ensures forall i :: 0 <= i < |files| && KeyFree(files[i + 1..], DedupKey(files[i])) ==> files[i] in Dedup(files)
  {
    DedupUnique(files);
    DedupFromInput(files);
    DedupKeepsNewest(files);
  }

  predicate SortedBySize(s: seq<FileAttribute>) {
    forall i, j :: 0 <= i < j < |s| ==> s[i].size <= s[j].size
  }

  /** Inserts `x` after every element no larger than it. */
  function InsertBySize(x: FileAttribute, s: seq<FileAttribute>): (r: seq<FileAttribute>)
    requires SortedBySize(s)
    ensures SortedBySize(r)
    ensures multiset(r) == multiset(s) + multiset{x}
    ensures |r| == |s| + 1
  {
    if |s| == 0 then [x]
    else if s[|s| - 1].size <= x.size then
      SortedSnoc(s, x);
      s + [x]
    else
      var last := s[|s| - 1];
      var init := s[..|s| - 1];
      assert s == init + [last];
      var r := InsertBySize(x, init);
      InsertedBelow(x, init, last, r);
      r + [last]
  }

  /** Appending an element no smaller than any other keeps a list sorted. */
  lemma SortedSnoc(s: seq<FileAttribute>, y: FileAttribute)
    requires SortedBySize(s)
    requires forall i :: 0 <= i < |s| ==> s[i].size <= y.size
    ensures SortedBySize(s + [y])
  {
    var r := s + [y];
    forall i, j | 0 <= i < j < |r| ensures r[i].size <= r[j].size {
      assert r[i] == s[i];
      if j < |s| {
        assert r[j] == s[j];
      }
    }
  }

  /** The insertion below `last` holds only elements no larger than `last`. */
  lemma InsertedBelow(x: FileAttribute, init: seq<FileAttribute>, last: FileAttribute, r: seq<FileAttribute>)
    requires SortedBySize(init + [last]) && x.size < last.size
    requires SortedBySize(r) && multiset(r) == multiset(init) + multiset{x}
    ensures SortedBySize(r + [last])
  {
    var s := init + [last];
    forall i | 0 <= i < |r| ensures r[i].size <= last.size {
      assert r[i] in multiset(r);
      if r[i] != x {
        assert r[i] in init;
        var j :| 0 <= j < |init| && init[j] == r[i];
        assert s[j] == r[i] && s[|init|] == last;
      }
    }
    SortedSnoc(r, last);
  }

  /** `sort { $0.size < $1.size }`, as a stable insertion sort. */
  function SortBySize(s: seq<FileAttribute>): (r: seq<FileAttribute>)
    ensures SortedBySize(r)
    ensures multiset(r) == multiset(s)
    ensures |r| == |s|
  {
    if |s| == 0 then []
    else
      assert s == s[..|s| - 1] + [s[|s| - 1]];
      InsertBySize(s[|s| - 1], SortBySize(s[..|s| - 1]))
  }

  /** Appending a file with a new key keeps the keys unique. */
  lemma UniqueKeysAppend(s: seq<FileAttribute>, x: FileAttribute)
    requires UniqueKeys(s) && KeyFree(s, DedupKey(x))
    ensures UniqueKeys(s + [x])
  {
    var r := s + [x];
    forall i, j | 0 <= i < j < |r| ensures DedupKey(r[i]) != DedupKey(r[j]) {
      assert r[i] == s[i];
      if j < |s| {
        assert r[j] == s[j];
      }
    }
  }

  /** Inserting a file whose key is new keeps the keys unique. */
  lemma {:induction false} InsertKeepsUniqueKeys(x: FileAttribute, s: seq<FileAttribute>)
    requires SortedBySize(s) && UniqueKeys(s) && KeyFree(s, DedupKey(x))
    ensures UniqueKeys(InsertBySize(x, s))
    decreases |s|
  {
    if |s| == 0 {
    } else if s[|s| - 1].size <= x.size {
      UniqueKeysAppend(s, x);
    } else {
      var last := s[|s| - 1];
      var init := s[..|s| - 1];
      InitKeepsOrder(s, DedupKey(x));
      InsertKeepsUniqueKeys(x, init);
      var r' := InsertBySize(x, init);
      KeyFreePermuted(r', init, x, DedupKey(last));
      UniqueKeysAppend(r', last);
    }
  }

  /** All but the last of a sorted list with unique keys: sorted, unique, and without the last key. */
  lemma InitKeepsOrder(s: seq<FileAttribute>, k: string)
    requires |s| > 0 && SortedBySize(s) && UniqueKeys(s) && KeyFree(s, k)
    ensures var init := s[..|s| - 1];
            SortedBySize(init) && UniqueKeys(init) && KeyFree(init, k) && KeyFree(init, DedupKey(s[|s| - 1]))
  {
    var init := s[..|s| - 1];
    assert forall i :: 0 <= i < |init| ==> init[i] == s[i];
  }

  /** A rearrangement of `init` plus `x` avoids every key that `init` and `x` avoid. */
  lemma KeyFreePermuted(r: seq<FileAttribute>, init: seq<FileAttribute>, x: FileAttribute, k: string)
    requires multiset(r) == multiset(init) + multiset{x}
    requires KeyFree(init, k) && DedupKey(x) != k
    ensures KeyFree(r, k)
  {
    forall i | 0 <= i < |r| ensures DedupKey(r[i]) != k {
      assert r[i] in multiset(init) + multiset{x};
      if r[i] != x {
        assert r[i] in init;
        var j :| 0 <= j < |init| && init[j] == r[i];
      }
    }
  }

  /** Sorting by size does not create two files with the same key. */
  lemma {:induction false} SortKeepsUniqueKeys(s: seq<FileAttribute>)
    requires UniqueKeys(s)
    ensures UniqueKeys(SortBySize(s))
  {
    if |s| > 0 {
      var init := s[..|s| - 1];
      var x := s[|s| - 1];
      SortKeepsUniqueKeys(init);
      var sorted := SortBySize(init);
      forall i | 0 <= i < |sorted| ensures DedupKey(sorted[i]) != DedupKey(x) {
        assert sorted[i] in multiset(init);
        var j :| 0 <= j < |init| && init[j] == sorted[i];
        assert s[j] == sorted[i];
      }
      InsertKeepsUniqueKeys(x, sorted);
    }
  }

  /** The last `n` elements, in order: `reversed()[0 ..< n].reversed()`. */
  function Last<T>(s: seq<T>, n: nat): (r: seq<T>)
    ensures |r| == (if |s| > n then n else |s|)
    ensures r == s[|s| - |r|..]
  {
    if |s| > n then s[|s| - n..] else s
  }

  /** The files `getFolderSizeAndMaxSubFiles` returns, given the handled files. */
  function TopFiles(handled: seq<FileAttribute>, maxFileCount: nat): seq<FileAttribute> {
    Last(SortBySize(Dedup(handled)), maxFileCount)
  }

  /**
   * At most `maxFileCount` files, ascending by size, with distinct keys, all
   * of them handled files; and every de-duplicated file left out is no larger
   * than every file kept.
   */
  lemma TopFilesProperties(handled: seq<FileAttribute>, maxFileCount: nat)
    ensures var r := TopFiles(handled, maxFileCount);
            && |r| <= maxFileCount
            && SortedBySize(r)
            && UniqueKeys(r)
            && (forall i :: 0 <= i < |r| ==> r[i] in handled)
    ensures var all := SortBySize(Dedup(handled));
            var r := TopFiles(handled, maxFileCount);
            forall d, k :: 0 <= d < |all| - |r| && 0 <= k < |r| ==> all[d].size <= r[k].size
  {
    var d := Dedup(handled);
    DedupProperties(handled);
    SortKeepsUniqueKeys(d);
    SuffixProperties(SortBySize(d), maxFileCount);
    var r := TopFiles(handled, maxFileCount);
    forall i | 0 <= i < |r| ensures r[i] in handled {
      assert r[i] in SortBySize(d);
      assert r[i] in multiset(SortBySize(d));
      assert r[i] in d;
    }
  }

  /** A suffix of a sorted list is sorted, comes from it, and is no smaller than what precedes it. */
  lemma SuffixSorted(s: seq<FileAttribute>, off: nat)
    requires SortedBySize(s) && off <= |s|
    ensures SortedBySize(s[off..])
    ensures forall f :: f in s[off..] ==> f in s
    ensures forall d, k :: 0 <= d < off && 0 <= k < |s| - off ==> s[d].size <= s[off..][k].size
  {
    forall i, j | 0 <= i < j < |s| - off ensures s[off..][i].size <= s[off..][j].size {
      assert s[off..][i] == s[off + i] && s[off..][j] == s[off + j];
    }
    forall f | f in s[off..] ensures f in s {
      var i :| 0 <= i < |s| - off && s[off..][i] == f;
      assert s[off + i] == f;
    }
    forall d, k | 0 <= d < off && 0 <= k < |s| - off ensures s[d].size <= s[off..][k].size {
      assert s[off..][k] == s[off + k];
    }
  }

  /** A suffix of a list with unique keys has unique keys. */
  lemma SuffixUnique(s: seq<FileAttribute>, off: nat)
    requires UniqueKeys(s) && off <= |s|
    ensures UniqueKeys(s[off..])
  {
    forall i, j | 0 <= i < j < |s| - off ensures DedupKey(s[off..][i]) != DedupKey(s[off..][j]) {
      assert s[off..][i] == s[off + i] && s[off..][j] == s[off + j];
    }
  }

  /** The last `n` of a sorted list are sorted, come from it, and are no smaller than the rest. */
  lemma LastOfSorted(sorted: seq<FileAttribute>, n: nat)
    requires SortedBySize(sorted)
    ensures var r := Last(sorted, n);
            && SortedBySize(r)
            && (forall f :: f in r ==> f in sorted)
            && forall d, k :: 0 <= d < |sorted| - |r| && 0 <= k < |r| ==> sorted[d].size <= r[k].size
  {
    SuffixSorted(sorted, |sorted| - |Last(sorted, n)|);
  }

  /** The last `n` of a sorted list with unique keys are sorted, unique, and no smaller than the rest. */
  lemma SuffixProperties(all: seq<FileAttribute>, n: nat)
    requires SortedBySize(all) && UniqueKeys(all)
    ensures var r := Last(all, n);
            && SortedBySize(r) && UniqueKeys(r)
            && (forall f :: f in r ==> f in all)
            && forall d, k :: 0 <= d < |all| - |r| && 0 <= k < |r| ==> all[d].size <= r[k].size
  {
    LastOfSorted(all, n);
    SuffixUnique(all, |all| - |Last(all, n)|);
  }

  /** The `handleInfo` calls of one scan, in order: each file admitted into the dictionary. */
  method HandleInfos(handled: seq<FileAttribute>) returns (files: seq<FileAttribute>)
    ensures files == Dedup(handled)
  {
    files := [];
    var i := 0;
    while i < |handled|
      invariant 0 <= i <= |handled|
      invariant files == Dedup(handled[..i])
    {
      PrefixStep(handled, i);
      files := Admit(files, handled[i]);
      i := i + 1;
    }
    assert handled[..i] == handled;
  }

  /** `getFolderSizeAndMaxSubFiles(_:maxFileCount:)` */
  method GetFolderSizeAndMaxSubFiles(root: Entry, path: Path, maxFileCount: nat)
    returns (att: FileAttribute, files: seq<FileAttribute>)
    ensures att == Explore(root, path).0
    ensures files == TopFiles(Explore(root, path).1, maxFileCount)
  {
    var handled;
    att, handled := ExploreFolder(root, path);
    files := HandleInfos(handled);
    files := SortBySize(files);
    if |files| > maxFileCount {
      files := files[|files| - maxFileCount..];
    }
  }
}
