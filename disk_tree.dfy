/**
 * The part of the file system the cache accountant walks: a tree of named
 * folders and files, addressed by component paths, with the two operations
 * `StoreCache` uses on it (listing a folder and removing an item).
 */
module DiskTree {
  import opened Wrappers

  /** A path as its components below the file-system root. */
  type Path = seq<string>

  /**
   * A file carries its size when `attributesOfItem` can report one; a
   * folder lists its children in `contentsOfDirectory` order.
   */
  datatype Entry = File(name: string, size: Option<nat>) | Folder(name: string, children: seq<Entry>)

  /** The path as text: `/a/b` for `["a", "b"]`. */
  function PathText(p: Path): (t: string)
    ensures |p| == 0 <==> t == ""
  {
    if |p| == 0 then "" else PathText(p[..|p| - 1]) + "/" + p[|p| - 1]
  }

  /** Index of the first child with the given name. */
  function FindChild(cs: seq<Entry>, name: string): (r: Option<nat>)
    ensures r.Some? ==> r.value < |cs| && cs[r.value].name == name
    ensures r.Some? ==> forall j :: 0 <= j < r.value ==> cs[j].name != name
    ensures r.None? ==> forall j :: 0 <= j < |cs| ==> cs[j].name != name
  {
    if |cs| == 0 then None
    else if cs[0].name == name then Some(0)
    else match FindChild(cs[1..], name)
      case None => None
      case Some(i) => Some(i + 1)
  }

  /** The item at a path, if there is one. */
  function Lookup(e: Entry, p: Path): Option<Entry>
    decreases |p|
  {
    if |p| == 0 then Some(e)
    else match e
      case File(_, _) => None
      case Folder(_, cs) =>
        match FindChild(cs, p[0])
        case None => None
        case Some(i) => Lookup(cs[i], p[1..])
  }

  /** `contentsOfDirectory`: the children of the folder at a path; nothing if there is none. */
  function Listing(e: Entry, p: Path): seq<Entry> {
    match Lookup(e, p)
    case Some(Folder(_, cs)) => cs
    case _ => []
  }

  /** The children not named `name`, in order. */
  function WithoutName(cs: seq<Entry>, name: string): (r: seq<Entry>)
    ensures forall j :: 0 <= j < |r| ==> r[j].name != name && r[j] in cs
    ensures |r| <= |cs|
  {
    if |cs| == 0 then []
    else (if cs[0].name == name then [] else [cs[0]]) + WithoutName(cs[1..], name)
  }

  /**
   * `removeItem(atPath:)`: the item at the path, with everything under it,
   * is gone; a missing path changes nothing. The root itself is never removed.
   */
  function RemoveAt(e: Entry, p: Path): (r: Entry)
    ensures r.name == e.name && r.Folder? == e.Folder?
    decreases |p|
  {
    if |p| == 0 then e
    else match e
      case File(_, _) => e
      case Folder(n, cs) =>
        if |p| == 1 then Folder(n, WithoutName(cs, p[0]))
        else match FindChild(cs, p[0])
          case None => e
          case Some(i) => Folder(n, cs[i := RemoveAt(cs[i], p[1..])])
  }

  /** After removing a path, nothing is found there. */
  lemma {:induction false} RemovedIsGone(e: Entry, p: Path)
    requires |p| >= 1
    ensures Lookup(RemoveAt(e, p), p) == None
    decreases |p|
  {
    match e
    case File(_, _) =>
    case Folder(n, cs) =>
      if |p| == 1 {
        assert FindChild(WithoutName(cs, p[0]), p[0]) == None;
      } else {
        match FindChild(cs, p[0])
        case None =>
        case Some(i) =>
          var cs' := cs[i := RemoveAt(cs[i], p[1..])];
          assert forall j :: 0 <= j < |cs| ==> cs'[j].name == cs[j].name;
          assert FindChild(cs', p[0]) == Some(i) by {
            FindChildSameNames(cs, cs', p[0]);
          }
          RemovedIsGone(cs[i], p[1..]);
      }
  }

  /** `FindChild` looks only at names. */
  lemma {:induction false} FindChildSameNames(cs: seq<Entry>, ds: seq<Entry>, name: string)
    requires |cs| == |ds|
    requires forall j :: 0 <= j < |cs| ==> cs[j].name == ds[j].name
    ensures FindChild(cs, name) == FindChild(ds, name)
  {
    if |cs| > 0 {
      FindChildSameNames(cs[1..], ds[1..], name);
    }
  }

  /** Removing a direct child of a folder leaves that folder with the other children. */
  lemma {:induction false} RemoveChildOf(e: Entry, dir: Path, x: string)
    requires Lookup(e, dir).Some? && Lookup(e, dir).value.Folder?
    ensures var f := Lookup(e, dir).value;
            Lookup(RemoveAt(e, dir + [x]), dir) == Some(Folder(f.name, WithoutName(f.children, x)))
    decreases |dir|
  {
    if |dir| == 0 {
      assert dir + [x] == [x];
    } else {
      var cs := e.children;
      var i := FindChild(cs, dir[0]).value;
      assert (dir + [x])[0] == dir[0] && (dir + [x])[1..] == dir[1..] + [x];
      var cs' := cs[i := RemoveAt(cs[i], dir[1..] + [x])];
      assert forall j :: 0 <= j < |cs| ==> cs'[j].name == cs[j].name;
      FindChildSameNames(cs, cs', dir[0]);
      RemoveChildOf(cs[i], dir[1..], x);
    }
  }

  /** Removing a direct child of something that is not a folder changes nothing there. */
  lemma {:induction false} RemoveChildOfNonFolder(e: Entry, dir: Path, x: string)
    requires !(Lookup(e, dir).Some? && Lookup(e, dir).value.Folder?)
    ensures RemoveAt(e, dir + [x]) == e
    decreases |dir|
  {
    if |dir| == 0 {
      assert dir + [x] == [x];
    } else {
      assert (dir + [x])[0] == dir[0] && (dir + [x])[1..] == dir[1..] + [x];
      match e
      case File(_, _) =>
      case Folder(n, cs) =>
        match FindChild(cs, dir[0])
        case None =>
        case Some(i) =>
          RemoveChildOfNonFolder(cs[i], dir[1..], x);
          assert cs[i := cs[i]] == cs;
      }
  }

  /** The children whose names are not in `gone`, in order. */
  function WithoutNames(cs: seq<Entry>, gone: set<string>): seq<Entry> {
    if |cs| == 0 then []
    else (if cs[0].name in gone then [] else [cs[0]]) + WithoutNames(cs[1..], gone)
  }

  /** Removing one more name is removing a larger set of names. */
  lemma {:induction false} WithoutOneMoreName(cs: seq<Entry>, gone: set<string>, x: string)
    ensures WithoutName(WithoutNames(cs, gone), x) == WithoutNames(cs, gone + {x})
  {
    if |cs| > 0 {
      WithoutOneMoreName(cs[1..], gone, x);
      var head := if cs[0].name in gone then [] else [cs[0]];
      WithoutNameAppend(head, WithoutNames(cs[1..], gone), x);
    }
  }

  lemma {:induction false} WithoutNameAppend(a: seq<Entry>, b: seq<Entry>, x: string)
    ensures WithoutName(a + b, x) == WithoutName(a, x) + WithoutName(b, x)
  {
    if |a| > 0 {
      var head := if a[0].name == x then [] else [a[0]];
      assert (a + b)[0] == a[0];
      assert (a + b)[1..] == a[1..] + b;
      WithoutNameAppend(a[1..], b, x);
      assert WithoutName(a + b, x) == head + (WithoutName(a[1..], x) + WithoutName(b, x));
      assert WithoutName(a, x) == head + WithoutName(a[1..], x);
    } else {
      assert a + b == b;
    }
  }

  /** `FindChild` in a folder some of whose other names were removed finds the same child. */
  lemma {:induction false} FindChildWithoutName(cs: seq<Entry>, x: string, name: string)
    requires name != x
    ensures match FindChild(cs, name)
            case None => FindChild(WithoutName(cs, x), name) == None
            case Some(i) => FindChild(WithoutName(cs, x), name).Some? &&
                            WithoutName(cs, x)[FindChild(WithoutName(cs, x), name).value] == cs[i]
  {
    if |cs| > 0 {
      FindChildWithoutName(cs[1..], x, name);
      var w := WithoutName(cs[1..], x);
      if cs[0].name == x {
        assert WithoutName(cs, x) == w;
      } else {
        assert WithoutName(cs, x) == [cs[0]] + w;
        assert ([cs[0]] + w)[1..] == w;
      }
    }
  }

  /** Once nothing is at a path, no later removal puts anything there. */
  lemma {:induction false} StaysGone(e: Entry, p: Path, q: Path)
    requires Lookup(e, p) == None
    ensures Lookup(RemoveAt(e, q), p) == None
    decreases |q|
  {
    if |q| > 0 && e.Folder? {
      var cs := e.children;
      if |q| == 1 {
        if p[0] != q[0] {
          FindChildWithoutName(cs, q[0], p[0]);
        }
      } else {
        match FindChild(cs, q[0])
        case None =>
        case Some(i) =>
          var cs' := cs[i := RemoveAt(cs[i], q[1..])];
          assert forall j :: 0 <= j < |cs| ==> cs'[j].name == cs[j].name;
          FindChildSameNames(cs, cs', p[0]);
          if FindChild(cs, p[0]) == Some(i) {
            StaysGone(cs[i], p[1..], q[1..]);
          }
      }
    }
  }

  /** `contentsOfDirectory` never lists a name twice: children's names are distinct in every folder. */
  predicate WellFormed(e: Entry) {
    match e
    case File(_, _) => true
    case Folder(_, cs) =>
      && (forall i, j :: 0 <= i < j < |cs| ==> cs[i].name != cs[j].name)
      && (forall i :: 0 <= i < |cs| ==> WellFormed(cs[i]))
  }

  /** In a well-formed folder a child's name finds that child. */
  lemma FindChildDistinct(cs: seq<Entry>, i: nat)
    requires i < |cs|
    requires forall a, b :: 0 <= a < b < |cs| ==> cs[a].name != cs[b].name
    ensures FindChild(cs, cs[i].name) == Some(i)
  {
  }

  /** Looking up a longer path is looking up the rest of it from what the prefix finds. */
  lemma {:induction false} LookupAppend(e: Entry, a: Path, b: Path)
    requires Lookup(e, a).Some?
    ensures Lookup(e, a + b) == Lookup(Lookup(e, a).value, b)
    decreases |a|
  {
    if |a| > 0 {
      assert (a + b)[0] == a[0] && (a + b)[1..] == a[1..] + b;
      var i := FindChild(e.children, a[0]).value;
      LookupAppend(e.children[i], a[1..], b);
    } else {
      assert a + b == b;
    }
  }

  /** Whatever a path finds, each of its prefixes finds something. */
  lemma {:induction false} LookupPrefix(e: Entry, a: Path, b: Path)
    ensures Lookup(e, a + b).Some? ==> Lookup(e, a).Some?
    decreases |a|
  {
    if |a| > 0 {
      assert (a + b)[0] == a[0] && (a + b)[1..] == a[1..] + b;
      if e.Folder? && FindChild(e.children, a[0]).Some? {
        var i := FindChild(e.children, a[0]).value;
        LookupPrefix(e.children[i], a[1..], b);
      }
    }
  }

  /** What a well-formed tree holds at any path is well-formed. */
  lemma {:induction false} LookupWellFormed(e: Entry, p: Path)
    requires WellFormed(e) && Lookup(e, p).Some?
    ensures WellFormed(Lookup(e, p).value)
    decreases |p|
  {
    if |p| > 0 {
      var i := FindChild(e.children, p[0]).value;
      LookupWellFormed(e.children[i], p[1..]);
    }
  }

  /**
   * Removing a path that is not a prefix of `p` leaves the file at `p` where
   * it was: only the removed item and what lies under it go.
   */
  lemma {:induction false} RemoveElsewhere(e: Entry, q: Path, p: Path)
    requires !(q <= p)
    requires Lookup(e, p).Some? && Lookup(e, p).value.File?
    ensures Lookup(RemoveAt(e, q), p) == Lookup(e, p)
    decreases |p|
  {
    if |p| > 0 {
      var cs := e.children;
      var j := FindChild(cs, p[0]).value;
      if |q| == 1 {
        FindChildWithoutName(cs, q[0], p[0]);
      } else {
        match FindChild(cs, q[0])
        case None =>
        case Some(i) =>
          var cs' := cs[i := RemoveAt(cs[i], q[1..])];
          assert forall k :: 0 <= k < |cs| ==> cs'[k].name == cs[k].name;
          FindChildSameNames(cs, cs', p[0]);
          if i == j {
            assert !(q[1..] <= p[1..]);
            RemoveElsewhere(cs[i], q[1..], p[1..]);
          }
      }
    }
  }
}
