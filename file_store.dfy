/**
 * `FileStore`: a byte store that keeps one file per key under
 * `<root>/QuickStoreDir/<subDir>`, named by `FileStore.encodeKey`, with lazy
 * migration of the older `<raw key>.key` files. The file system and the
 * process-wide registries are the fields of `Environment`.
 */
module FileStore {
  import opened Wrappers
  import opened Text
  import opened Base64
  import opened KeyEncoder

  const MainDir: string := "QuickStoreDir"
  const PathExt: string := "key"

  /** The `.`-components of the bundle id beyond the third are dropped; a `.count > 3` guard. */
  function FirstThree(components: seq<string>): (r: seq<string>)
    ensures |r| <= 3
    ensures |components| <= 3 ==> r == components
    ensures |components| > 3 ==> r == components[..3]
  {
    if |components| > 3 then components[..3] else components
  }

  /** `FileStore.sharedGroupIdentifier` */
  function SharedGroupIdentifier(bundleID: string, groupName: string): string {
    Join([groupName] + FirstThree(Split(bundleID, '.')), '.')
  }

  /**
   * The identifier is the group name followed by at most three components
   * of the bundle id, in order; so it has at most four components.
   */
  lemma SharedGroupComponents(bundleID: string, groupName: string)
    requires '.' !in groupName
    ensures Split(SharedGroupIdentifier(bundleID, groupName), '.')
            == [groupName] + FirstThree(Split(bundleID, '.'))
    ensures |Split(SharedGroupIdentifier(bundleID, groupName), '.')| <= 4
  {
    var parts := [groupName] + FirstThree(Split(bundleID, '.'));
    assert forall i :: 1 <= i < |parts| ==> parts[i] in Split(bundleID, '.');
    SplitJoin(parts, '.');
  }

  /** `URL.appendingPathComponent`, on the `.path` text: an empty component adds nothing. */
  function AppendComponent(dir: string, component: string): string {
    if component == "" then dir else dir + "/" + component
  }

  /** `targetDir`: `<root>/QuickStoreDir/<subDir>` */
  function TargetDir(root: string, subDir: string): string {
    AppendComponent(AppendComponent(root, MainDir), subDir)
  }

  /** Where a key's bytes live: the target directory plus the encoded key. */
  function EncodedPath(root: string, subDir: string, key: string): string {
    AppendComponent(TargetDir(root, subDir), EncodeKey(key))
  }

  /** Where older versions kept a key: `<target>/<raw key>.key`. */
  function LegacyPath(root: string, subDir: string, key: string): string {
    AppendComponent(TargetDir(root, subDir), key) + "." + PathExt
  }

  /** An encoded file is never a legacy file, of the same key or of any other. */
  lemma EncodedPathIsNotLegacy(root: string, subDir: string, key: string, other: string)
    ensures EncodedPath(root, subDir, key) != LegacyPath(root, subDir, other)
  {
    EncodeKeyTail(key);
    NotKeyFile(TargetDir(root, subDir), EncodeKey(key), other);
  }

  /** A component whose last four characters hold no `.` does not end in `.key`. */
  lemma NotKeyFile(dir: string, name: string, other: string)
    requires |name| >= 4
    requires forall i :: |name| - 4 <= i < |name| ==> name[i] != '.'
    ensures AppendComponent(dir, name) != AppendComponent(dir, other) + "." + PathExt
  {
    var e := AppendComponent(dir, name);
    var l := AppendComponent(dir, other) + "." + PathExt;
    assert e[|e| - 4] == name[|name| - 4];
    assert l[|l| - 4] == '.';
  }

  /** Different ASCII keys are stored at different paths of the same directory. */
  lemma EncodedPathInjective(root: string, subDir: string, k1: string, k2: string)
    requires IsAscii(k1) && IsAscii(k2)
    requires k1 != k2
    ensures EncodedPath(root, subDir, k1) != EncodedPath(root, subDir, k2)
  {
    var t := TargetDir(root, subDir);
    EncodeKeyTail(k1);
    EncodeKeyTail(k2);
    if EncodedPath(root, subDir, k1) == EncodedPath(root, subDir, k2) {
      assert EncodeKey(k1) == EncodedPath(root, subDir, k1)[|t| + 1..];
      assert EncodeKey(k2) == EncodedPath(root, subDir, k2)[|t| + 1..];
      EncodeKeyInjective(k1, k2);
    }
  }

  /** The group container when asked for and resolvable; for a plain store the documents directory. */
  function Chosen(isAppGroup: bool, documents: string, container: Option<string>): Option<string> {
    if isAppGroup then container else Some(documents)
  }

  /** `mainDirUrl`: the chosen URL, falling back to the documents directory. */
  function RootOf(isAppGroup: bool, documents: string, container: Option<string>): (r: string)
    ensures isAppGroup && container.Some? ==> r == container.value
    ensures !(isAppGroup && container.Some?) ==> r == documents
  {
    Chosen(isAppGroup, documents, container).GetOr(documents)
  }

  // ---- What one `set` or `value` does to the files ----

  /** The files after `set`: the bytes written at `path`, or `path` removed. */
  function Written(files: map<string, seq<byte>>, path: string, value: Option<seq<byte>>): map<string, seq<byte>> {
    match value
    case Some(v) => files[path := v]
    case None => files - {path}
  }

  datatype ReadOutcome = ReadOutcome(data: Option<seq<byte>>, files: map<string, seq<byte>>)

  /**
   * The result and the files after `value`: the file at `path` if present;
   * otherwise the legacy file, which is then removed and rewritten at `path`.
   */
  function Read(files: map<string, seq<byte>>, path: string, legacy: string): ReadOutcome {
    if path in files then ReadOutcome(Some(files[path]), files)
    else if legacy in files then ReadOutcome(Some(files[legacy]), (files - {legacy})[path := files[legacy]])
    else ReadOutcome(None, files)
  }

  /** Reading a path right after writing it returns the bytes written and changes nothing. */
  lemma ReadAfterWrite(files: map<string, seq<byte>>, path: string, legacy: string, v: seq<byte>)
    ensures Read(Written(files, path, Some(v)), path, legacy) == ReadOutcome(Some(v), Written(files, path, Some(v)))
  {
  }

  /** A write or a delete at one path leaves every other path as it was. */
  lemma WriteKeepsOthers(files: map<string, seq<byte>>, path: string, value: Option<seq<byte>>, other: string)
    requires other != path
    ensures other in Written(files, path, value) <==> other in files
    ensures other in files ==> Written(files, path, value)[other] == files[other]
  {
  }

  /** Deleting a key that is absent changes nothing. */
  lemma DeleteAbsent(files: map<string, seq<byte>>, path: string)
    requires path !in files
    ensures Written(files, path, None) == files
  {
  }

  /** Deleting leaves the legacy file, so a later read still finds the legacy bytes. */
  lemma DeleteKeepsLegacy(files: map<string, seq<byte>>, path: string, legacy: string)
    requires legacy != path && legacy in files
    ensures path !in Written(files, path, None)
    ensures Read(Written(files, path, None), path, legacy).data == Some(files[legacy])
  {
  }

  /**
   * A miss with a legacy file returns its bytes, removes it and writes the
   * bytes at `path`; a second read returns the same bytes and changes nothing.
   */
  lemma MigrateOnce(files: map<string, seq<byte>>, path: string, legacy: string)
    requires legacy != path
    requires path !in files && legacy in files
    ensures Read(files, path, legacy).data == Some(files[legacy])
    ensures legacy !in Read(files, path, legacy).files
    ensures path in Read(files, path, legacy).files
    ensures Read(Read(files, path, legacy).files, path, legacy)
            == ReadOutcome(Some(files[legacy]), Read(files, path, legacy).files)
  {
  }

  /** Reading twice is reading once: the second read returns the same bytes and changes nothing. */
  lemma ReadTwice(files: map<string, seq<byte>>, path: string, legacy: string)
    requires legacy != path
    ensures Read(Read(files, path, legacy).files, path, legacy) == Read(files, path, legacy)
  {
  }

  /** A miss with nothing to migrate returns nil and changes nothing. */
  lemma ReadMiss(files: map<string, seq<byte>>, path: string, legacy: string)
    requires path !in files && legacy !in files
    ensures Read(files, path, legacy) == ReadOutcome(None, files)
  {
  }

  /** Key-level round trip: after `set(k, v)`, `value(k)` gives `v` back. */
  lemma SetThenValue(files: map<string, seq<byte>>, root: string, subDir: string, key: string, v: seq<byte>)
    ensures var after := Written(files, EncodedPath(root, subDir, key), Some(v));
            Read(after, EncodedPath(root, subDir, key), LegacyPath(root, subDir, key)) == ReadOutcome(Some(v), after)
  {
    ReadAfterWrite(files, EncodedPath(root, subDir, key), LegacyPath(root, subDir, key), v);
  }

  /** Key-level isolation: `set` of one ASCII key leaves every other key's file alone. */
  lemma SetKeepsOtherKeys(files: map<string, seq<byte>>, root: string, subDir: string,
                          key: string, value: Option<seq<byte>>, other: string)
    requires IsAscii(key) && IsAscii(other) && key != other
    ensures var p := EncodedPath(root, subDir, other);
            var after := Written(files, EncodedPath(root, subDir, key), value);
            (p in after <==> p in files) && (p in files ==> after[p] == files[p])
  {
    EncodedPathInjective(root, subDir, key, other);
    WriteKeepsOthers(files, EncodedPath(root, subDir, key), value, EncodedPath(root, subDir, other));
  }

  /** `set(k, nil)` after a legacy file exists: a later `value(k)` finds the legacy bytes. */
  lemma DeleteThenLegacyValue(files: map<string, seq<byte>>, root: string, subDir: string, key: string)
    requires LegacyPath(root, subDir, key) in files
    ensures var after := Written(files, EncodedPath(root, subDir, key), None);
            Read(after, EncodedPath(root, subDir, key), LegacyPath(root, subDir, key)).data
            == Some(files[LegacyPath(root, subDir, key)])
  {
    EncodedPathIsNotLegacy(root, subDir, key, key);
    DeleteKeepsLegacy(files, EncodedPath(root, subDir, key), LegacyPath(root, subDir, key));
  }

  /**
   * The process-wide state `FileStore` uses: the files, the directories,
   * the static `filePaths` and `cachPaths` registries, and the platform
   * lookups as constants.
   */
  class Environment {
    var files: map<string, seq<byte>>
    var dirs: set<string>
    /** `FileStore.filePaths`: a dictionary whose values are always 0, so a set of paths. */
    var filePaths: set<string>
    var cachPaths: set<string>
    const documents: string
    const bundleID: string
    const groupName: string
    /** App-group containers by shared group identifier. */
    const containers: map<string, string>
    /** The app-group container this app resolves to, if any. */
    const container: Option<string>

    constructor(documents: string, bundleID: string, groupName: string, containers: map<string, string>)
      ensures this.documents == documents && this.bundleID == bundleID
      ensures this.groupName == groupName && this.containers == containers
      ensures container == ContainerFor(bundleID, groupName, containers)
      ensures files == map[] && dirs == {} && filePaths == {} && cachPaths == {}
    {
      this.documents := documents;
      this.bundleID := bundleID;
      this.groupName := groupName;
      this.containers := containers;
      container := ContainerFor(bundleID, groupName, containers);
      files := map[];
      dirs := {};
      filePaths := {};
      cachPaths := {};
    }
  }

  /** `containerURL(forSecurityApplicationGroupIdentifier: sharedGroupIdentifier)` */
  function ContainerFor(bundleID: string, groupName: string, containers: map<string, string>): Option<string> {
    var id := SharedGroupIdentifier(bundleID, groupName);
    if id in containers then Some(containers[id]) else None
  }

  /** `cachPaths` after the lazy root is first resolved: the chosen URL, if any, is inserted. */
  function CachPathsAfterResolve(cachPaths: set<string>, resolved: Option<string>, chosen: Option<string>): set<string> {
    if resolved.None? && chosen.Some? then cachPaths + {chosen.value} else cachPaths
  }

  class FileStore {
    const isAppGroup: bool
    const subDir: string
    /** The lazy `mainDirUrl`: None until first used. */
    var mainDirUrl: Option<string>

    /** `init(_:options:)`: the subdirectory is the `id` option, or empty. */
    constructor(isAppGroup: bool, options: map<string, string>)
      ensures this.isAppGroup == isAppGroup
      ensures subDir == (if "id" in options then options["id"] else "")
      ensures mainDirUrl == None
    {
      this.isAppGroup := isAppGroup;
      subDir := if "id" in options then options["id"] else "";
      mainDirUrl := None;
    }

    /** The lazy root, once resolved, is the one `RootOf` chooses. */
    predicate Valid(env: Environment)
      reads this
    {
      mainDirUrl.Some? ==> mainDirUrl.value == RootOf(isAppGroup, env.documents, env.container)
    }

    function Root(env: Environment): string {
      RootOf(isAppGroup, env.documents, env.container)
    }

    /** `mainDirUrl`: resolved on first use, registering the chosen URL in `cachPaths`. */
    method MainDirUrl(env: Environment) returns (root: string)
      requires Valid(env)
      modifies this, env`cachPaths
      ensures Valid(env)
      ensures root == Root(env) && mainDirUrl == Some(root)
      ensures env.cachPaths == CachPathsAfterResolve(old(env.cachPaths), old(mainDirUrl),
                                                     Chosen(isAppGroup, env.documents, env.container))
    {
      if mainDirUrl.Some? {
        return mainDirUrl.value;
      }
      var m := if isAppGroup then env.container else Some(env.documents);
      if m.Some? {
        env.cachPaths := env.cachPaths + {m.value};
      }
      root := m.GetOr(env.documents);
      mainDirUrl := Some(root);
    }

    /** `setFilePath`: registers a path; registering twice is the same as once. */
    method SetFilePath(env: Environment, path: string)
      modifies env`filePaths
      ensures env.filePaths == old(env.filePaths) + {path}
    {
      env.filePaths := env.filePaths + {path};
    }

    /** `set(_:value:)`: writes or deletes the encoded file; the path is registered either way. */
    method Set(env: Environment, key: string, value: Option<seq<byte>>)
      requires Valid(env)
      modifies this, env`files, env`dirs, env`filePaths, env`cachPaths
      ensures Valid(env) && mainDirUrl == Some(Root(env))
      ensures env.files == Written(old(env.files), EncodedPath(Root(env), subDir, key), value)
      ensures env.dirs == old(env.dirs) + {TargetDir(Root(env), subDir)}
      ensures env.filePaths == old(env.filePaths) + {EncodedPath(Root(env), subDir, key)}
      ensures env.cachPaths == CachPathsAfterResolve(old(env.cachPaths), old(mainDirUrl),
                                                     Chosen(isAppGroup, env.documents, env.container))
    {
      var root := MainDirUrl(env);
      var target := TargetDir(root, subDir);
      if target !in env.dirs {
        env.dirs := env.dirs + {target};
      }
      var dir := AppendComponent(target, EncodeKey(key));
      match value {
        case Some(v) => env.files := env.files[dir := v];
        case None => env.files := env.files - {dir};
      }
      SetFilePath(env, dir);
    }

    /** `value(_:)`: reads the encoded file, migrating a legacy file on a miss. */
    method Value(env: Environment, key: string) returns (data: Option<seq<byte>>)
      requires Valid(env)
      modifies this, env`files, env`filePaths, env`cachPaths
      ensures Valid(env) && mainDirUrl == Some(Root(env))
      ensures var o := Read(old(env.files), EncodedPath(Root(env), subDir, key), LegacyPath(Root(env), subDir, key));
              data == o.data && env.files == o.files
      ensures env.filePaths == old(env.filePaths) + (if data.Some? then {EncodedPath(Root(env), subDir, key)} else {})
      ensures env.cachPaths == CachPathsAfterResolve(old(env.cachPaths), old(mainDirUrl),
                                                     Chosen(isAppGroup, env.documents, env.container))
    {
      var root := MainDirUrl(env);
      var target := TargetDir(root, subDir);
      var dir := AppendComponent(target, EncodeKey(key));
      data := if dir in env.files then Some(env.files[dir]) else None;
      if data.None? {
        var olddir := AppendComponent(target, key) + "." + PathExt;
        data := if olddir in env.files then Some(env.files[olddir]) else None;
        if data.Some? {
          env.files := env.files - {olddir};
          env.files := env.files[dir := data.value];
        }
      }
      if data.Some? {
        SetFilePath(env, dir);
      }
    }
  }
}
