/**
 * `QuickStore`: the typed layer over a byte store. A target type names a
 * class, whether its store lives in the app group and which cipher it uses;
 * `Target.set` and `Target.value` turn values into bytes stored under
 * `<className>.<key>`, and the property wrappers `QuickStore`,
 * `QuickStoreEnum` and `QuickStoreCodable` keep an in-memory `current`
 * in front of the store.
 */
module QuickStore {
  import opened Wrappers
  import opened Base64
  import opened KeyEncoder
  import opened FileStore
  import QuickStoreCrypt

  // ---- Keys ----

  /** The store key of `key` for a target: the class name, a dot, the key. */
  function StoredKey(className: string, key: string): string {
    className + "." + key
  }

  /** Within one class, different keys are stored under different store keys. */
  lemma StoredKeyInjective(className: string, k1: string, k2: string)
    requires StoredKey(className, k1) == StoredKey(className, k2)
    ensures k1 == k2
  {
    var n := |className| + 1;
    assert k1 == StoredKey(className, k1)[n..];
    assert k2 == StoredKey(className, k2)[n..];
  }

  /** A wrapper's key: the raw key followed by `otherKey`, with no separator. */
  function WrapperKey(rawValue: string, otherKey: Option<string>): string {
    rawValue + otherKey.GetOr("")
  }

  /** For lack of a separator, different wrappers can share a stored key. */
  lemma WrapperKeysCollide()
    ensures WrapperKey("ab", None) == WrapperKey("a", Some("b"))
    ensures WrapperKey("ab", Some("c")) == WrapperKey("a", Some("bc"))
  {
    assert "a" + "b" == "ab";
    assert "ab" + "c" == "a" + "bc";
  }

  // ---- Values and bytes ----

  /** What `set` is handed: a `Data` value, or any other value. */
  datatype Payload<T> = Bytes(data: seq<byte>) | Item(item: T)

  /**
   * `JSONSerialization` for arrays of `T`: `toData` is `[T].toData`, nil when
   * the array is not valid JSON; `fromData` parses and casts with `as? [T]`,
   * nil when parsing throws or the cast fails.
   */
  datatype Codec<!T> = Codec(toData: seq<T> -> Option<seq<byte>>, fromData: seq<byte> -> Option<seq<T>>)

  /** The codec writes the one-element array `[v]` and reads it back. */
  ghost predicate Faithful<T>(codec: Codec<T>, v: T) {
    codec.toData([v]).Some? && codec.fromData(codec.toData([v]).value) == Some([v])
  }

  /** A type `JSONSerialization` can neither write nor produce. */
  function Unwritable<T>(): Codec<T> {
    Codec((a: seq<T>) => None, (d: seq<byte>) => None)
  }

  /** `set`'s `newValue`: `Data` as it is, any other value as the JSON of `[value]`, nil as nil. */
  function Serialize<T>(codec: Codec<T>, value: Option<Payload<T>>): Option<seq<byte>> {
    match value
    case None => None
    case Some(Bytes(d)) => Some(d)
    case Some(Item(v)) => codec.toData([v])
  }

  /** `value(_:type:)` past the `Data` test: the first element of the parsed array. */
  function Deserialize<T>(codec: Codec<T>, data: Option<seq<byte>>): Option<T> {
    if data.None? then None
    else match codec.fromData(data.value)
      case None => None
      case Some(items) => if |items| == 0 then None else Some(items[0])
  }

  // ---- Ciphers ----

  /** `QuickStoreCryptProtocol`: `encrypt(key, value:)` and `decrypt(key, value:)`. */
  datatype Cipher = Cipher(encrypt: (string, seq<byte>) -> seq<byte>, decrypt: (string, seq<byte>) -> seq<byte>)

  /** Decrypting under a key undoes encrypting under the same key. */
  ghost predicate Inverts(c: Cipher) {
    forall k, v :: c.decrypt(k, c.encrypt(k, v)) == v
  }

  /** `SimpleCrypt` as the code has it. */
  function SimpleCrypt(): Cipher {
    Cipher(QuickStoreCrypt.Encrypt, QuickStoreCrypt.Decrypt)
  }

  /** `SimpleCrypt` with the shift taken modulo 256 and `decrypt` decoding. */
  function SimpleCryptFixed(): Cipher {
    Cipher(QuickStoreCrypt.EncryptFixed, QuickStoreCrypt.DecryptFixed)
  }

  lemma SimpleCryptDoesNotInvert()
    ensures !Inverts(SimpleCrypt())
  {
    QuickStoreCrypt.DecryptNeverInverts("", [0]);
    assert SimpleCrypt().decrypt("", SimpleCrypt().encrypt("", [0])) != [0];
  }

  lemma SimpleCryptFixedInverts()
    ensures Inverts(SimpleCryptFixed())
  {
    forall k, v ensures SimpleCryptFixed().decrypt(k, SimpleCryptFixed().encrypt(k, v)) == v {
      QuickStoreCrypt.FixedRoundTrip(k, v);
    }
  }

  /** `newValue.map { crypt.encrypt(key, value: $0) }` when the target has a cipher. */
  function Seal(crypt: Option<Cipher>, key: string, data: Option<seq<byte>>): Option<seq<byte>> {
    if crypt.Some? && data.Some? then Some(crypt.value.encrypt(key, data.value)) else data
  }

  /** `data.map { crypt.decrypt(newKey, value: $0) }` when the target has a cipher. */
  function Unseal(crypt: Option<Cipher>, key: string, data: Option<seq<byte>>): Option<seq<byte>> {
    if crypt.Some? && data.Some? then Some(crypt.value.decrypt(key, data.value)) else data
  }

  /** With no cipher, or one that inverts, unsealing under the sealing key restores the bytes. */
  lemma UnsealSeal(crypt: Option<Cipher>, key: string, data: Option<seq<byte>>)
    requires crypt.None? || Inverts(crypt.value)
    ensures Unseal(crypt, key, Seal(crypt, key, data)) == data
  {
  }

  // ---- `Target.set` and `Target.value` on the files ----

  /**
   * A `QuickStoreProtocol` type: its `className`, `isAppGroup`,
   * `excludeStoreCache` and `crypt`. The protocol's defaults are
   * `isAppGroup == false` and `crypt == Some(SimpleCrypt())`.
   */
  datatype Target = Target(className: string, isAppGroup: bool, excludeStoreCache: bool, crypt: Option<Cipher>)

  /** The files after `Target.set(key, value:)`, given the bytes `set` serialised. */
  function SetFiles(files: map<string, seq<byte>>, root: string, target: Target, key: string,
                    data: Option<seq<byte>>): map<string, seq<byte>> {
    var k := StoredKey(target.className, key);
    Written(files, EncodedPath(root, target.className, k), Seal(target.crypt, key, data))
  }

  /** What `Target.value(key)` reads, and the files after it: decrypted under the prefixed key. */
  function ValueOutcome(files: map<string, seq<byte>>, root: string, target: Target, key: string): ReadOutcome {
    var k := StoredKey(target.className, key);
    var o := Read(files, EncodedPath(root, target.className, k), LegacyPath(root, target.className, k));
    ReadOutcome(Unseal(target.crypt, k, o.data), o.files)
  }

  /** `Target.value` decrypting under the key `set` encrypted with. */
  function ValueOutcomeFixed(files: map<string, seq<byte>>, root: string, target: Target, key: string): ReadOutcome {
    var k := StoredKey(target.className, key);
    var o := Read(files, EncodedPath(root, target.className, k), LegacyPath(root, target.className, k));
    ReadOutcome(Unseal(target.crypt, key, o.data), o.files)
  }

  /** With no cipher, `value` returns exactly the bytes `set` wrote, and changes nothing. */
  lemma SetThenValueWithoutCipher(files: map<string, seq<byte>>, root: string, target: Target, key: string, b: seq<byte>)
    requires target.crypt.None?
    ensures var after := SetFiles(files, root, target, key, Some(b));
            ValueOutcome(after, root, target, key) == ReadOutcome(Some(b), after)
  {
    SetThenValue(files, root, target.className, StoredKey(target.className, key), b);
  }

  /** With no cipher, a value `set` wraps in an array comes back from `value` as that value. */
  lemma SetThenValueOfItem<T>(files: map<string, seq<byte>>, root: string, target: Target, key: string,
                                 codec: Codec<T>, v: T)
    requires target.crypt.None? && Faithful(codec, v)
    ensures var after := SetFiles(files, root, target, key, Serialize(codec, Some(Item(v))));
            Deserialize(codec, ValueOutcome(after, root, target, key).data) == Some(v)
  {
    SetThenValueWithoutCipher(files, root, target, key, codec.toData([v]).value);
  }

  /** `set(key, nil)` deletes: with no legacy file left, `value` then finds nothing. */
  lemma SetNilThenValue(files: map<string, seq<byte>>, root: string, target: Target, key: string)
    requires LegacyPath(root, target.className, StoredKey(target.className, key)) !in files
    ensures ValueOutcome(SetFiles(files, root, target, key, None), root, target, key).data == None
  {
  }

  /** A `set` under one ASCII key leaves what every other key reads unchanged. */
  lemma SetKeepsOtherValues(files: map<string, seq<byte>>, root: string, target: Target, key: string,
                            data: Option<seq<byte>>, other: string)
    requires IsAscii(StoredKey(target.className, key)) && IsAscii(StoredKey(target.className, other))
    requires key != other
    ensures ValueOutcome(SetFiles(files, root, target, key, data), root, target, other).data
            == ValueOutcome(files, root, target, other).data
  {
    var c := target.className;
    var k := StoredKey(c, key);
    var o := StoredKey(c, other);
    if k == o {
      StoredKeyInjective(c, key, other);
    }
    EncodedPathInjective(root, c, k, o);
    EncodedPathIsNotLegacy(root, c, k, o);
    WriteKeepsOthers(files, EncodedPath(root, c, k), Seal(target.crypt, key, data), EncodedPath(root, c, o));
    WriteKeepsOthers(files, EncodedPath(root, c, k), Seal(target.crypt, key, data), LegacyPath(root, c, o));
  }

  /** Shifting up by one amount and down by a different one moves every byte. */
  lemma MismatchedShift(x: byte, up: int, down: int)
    requires 0 <= up < 256 && 0 <= down < 256 && up != down
    ensures ((x + up) % 256 + (256 - down)) % 256 != x
  {
    var y := (x + up) % 256;
    assert y == x + up || y == x + up - 256;
    var z := y + (256 - down);
    assert z % 256 == z || z % 256 == z - 256;
  }

  /** Adding a length that is not a multiple of 256 changes a length modulo 256. */
  lemma ShiftsDiffer(a: nat, c: nat)
    requires c % 256 != 0
    ensures a % 256 != (c + a) % 256
  {
  }

  /** The repaired cipher, encrypting under one key and decrypting under another, only shifts. */
  lemma FixedCipherAcrossKeys(k1: string, k2: string, b: seq<byte>)
    ensures QuickStoreCrypt.DecryptFixed(k2, QuickStoreCrypt.EncryptFixed(k1, b))
            == QuickStoreCrypt.ShiftDown(QuickStoreCrypt.ShiftUp(b, |k1| % 256), |k2| % 256)
  {
    var shifted := QuickStoreCrypt.ShiftUp(b, |k1| % 256);
    Base64.TextOfEncodeData(shifted);
    Base64.DecodeEncode(shifted);
  }

  /** The repaired cipher under two keys whose lengths differ modulo 256 moves the first byte. */
  lemma FixedCipherKeyMismatch(k1: string, k2: string, b: seq<byte>)
    requires |k1| % 256 != |k2| % 256
    requires |b| > 0
    ensures QuickStoreCrypt.DecryptFixed(k2, QuickStoreCrypt.EncryptFixed(k1, b)) != b
  {
    FixedCipherAcrossKeys(k1, k2, b);
    MismatchedShifts(b, |k1| % 256, |k2| % 256);
  }

  /** Shifting up by one amount and down by another moves the first byte. */
  lemma MismatchedShifts(b: seq<byte>, up: int, down: int)
    requires 0 <= up < 256 && 0 <= down < 256 && up != down
    requires |b| > 0
    ensures QuickStoreCrypt.ShiftDown(QuickStoreCrypt.ShiftUp(b, up), down) != b
  {
    var back := QuickStoreCrypt.ShiftDown(QuickStoreCrypt.ShiftUp(b, up), down);
    MismatchedShift(b[0], up, down);
    assert back[0] != b[0];
  }

  /**
   * `set` encrypts under the raw key and `value` decrypts under the prefixed
   * key, so even the repaired cipher loses the bytes whenever the two key
   * lengths differ modulo 256.
   */
  lemma KeyMismatchBreaksFixedCipher(files: map<string, seq<byte>>, root: string, target: Target, key: string,
                                     b: seq<byte>)
    requires target.crypt == Some(SimpleCryptFixed())
    requires (|target.className| + 1) % 256 != 0
    requires |b| > 0
    ensures ValueOutcome(SetFiles(files, root, target, key, Some(b)), root, target, key).data != Some(b)
  {
    var k := StoredKey(target.className, key);
    SetThenValue(files, root, target.className, k, QuickStoreCrypt.EncryptFixed(key, b));
    assert |k| == (|target.className| + 1) + |key|;
    ShiftsDiffer(|key|, |target.className| + 1);
    FixedCipherKeyMismatch(key, k, b);
  }

  /** With `SimpleCrypt` as written, no non-empty value survives `set` then `value`. */
  lemma SimpleCryptLosesEveryValue(files: map<string, seq<byte>>, root: string, target: Target, key: string,
                                   b: seq<byte>)
    requires target.crypt == Some(SimpleCrypt())
    requires |b| > 0
    ensures ValueOutcome(SetFiles(files, root, target, key, Some(b)), root, target, key).data != Some(b)
  {
    var k := StoredKey(target.className, key);
    var e := QuickStoreCrypt.Encrypt(key, b);
    SetThenValue(files, root, target.className, k, e);
    QuickStoreCrypt.EncodingGrows(|b|);
    QuickStoreCrypt.EncodingGrows(|e|);
    assert |QuickStoreCrypt.Decrypt(k, e)| > |b|;
  }

  /** Decrypting under the key `set` used: every inverting cipher round-trips. */
  lemma SetThenValueFixed(files: map<string, seq<byte>>, root: string, target: Target, key: string, b: seq<byte>)
    requires target.crypt.None? || Inverts(target.crypt.value)
    ensures var after := SetFiles(files, root, target, key, Some(b));
            ValueOutcomeFixed(after, root, target, key) == ReadOutcome(Some(b), after)
  {
    var k := StoredKey(target.className, key);
    SetThenValue(files, root, target.className, k, Seal(target.crypt, key, Some(b)).value);
    UnsealSeal(target.crypt, key, Some(b));
  }

  /** The repaired pair round-trips through the repaired cipher. */
  lemma SimpleCryptFixedRoundTrip(files: map<string, seq<byte>>, root: string, target: Target, key: string,
                                  b: seq<byte>)
    requires target.crypt == Some(SimpleCryptFixed())
    ensures ValueOutcomeFixed(SetFiles(files, root, target, key, Some(b)), root, target, key).data == Some(b)
  {
    SimpleCryptFixedInverts();
    SetThenValueFixed(files, root, target, key, b);
  }

  /** Reading a key twice is reading it once. */
  lemma ValueTwice(files: map<string, seq<byte>>, root: string, target: Target, key: string)
    ensures ValueOutcome(ValueOutcome(files, root, target, key).files, root, target, key)
            == ValueOutcome(files, root, target, key)
  {
    var k := StoredKey(target.className, key);
    EncodedPathIsNotLegacy(root, target.className, k, k);
    ReadTwice(files, EncodedPath(root, target.className, k), LegacyPath(root, target.className, k));
  }

  // ---- The store registry ----

  /** Where `Target.set` and `Target.value` keep a key's bytes. */
  function ValuePath(root: string, target: Target, key: string): string {
    EncodedPath(root, target.className, StoredKey(target.className, key))
  }

  /**
   * The registry after `Target.store`: the class has a store, the one it
   * had if it had one, and no other class's entry changed.
   */
  predicate Registers(before: map<string, FileStore>, after: map<string, FileStore>, className: string) {
    && className in after
    && after == before[className := after[className]]
    && (className in before ==> after[className] == before[className])
  }

  /** Using the registry twice registers what using it once does. */
  lemma RegistersTwice(s0: map<string, FileStore>, s1: map<string, FileStore>, s2: map<string, FileStore>,
                       className: string)
    requires Registers(s0, s1, className) && Registers(s1, s2, className)
    ensures Registers(s0, s2, className) && s2 == s1
  {
    assert s2 == s1[className := s1[className]];
    assert s2 == s1;
  }

  /** `GlobalConfig.storeDic`, with the keys of `FilterKeys.filterKey` beside it. */
  class GlobalConfig {
    var storeDic: map<string, FileStore>
    var filterKeys: set<string>

    constructor()
      ensures storeDic == map[] && filterKeys == {}
    {
      storeDic := map[];
      filterKeys := {};
    }

    /** `FilterKeys.filterKey?[key] = 0`: an excluded class's encoded name joins the keys the cache cleaner keeps. */
    method AddFilterKey(className: string)
      modifies this`filterKeys
      ensures filterKeys == old(filterKeys) + {EncodeKey(className)}
    {
      filterKeys := filterKeys + {EncodeKey(className)};
    }

    /** The class's store is registered and has resolved its root. */
    predicate Resolved(target: Target)
      reads this`storeDic, storeDic.Values
    {
      target.className in storeDic && storeDic[target.className].mainDirUrl.Some?
    }

    /**
     * `cachPaths` after the target's store is used: the URL the store
     * chooses joins it on the store's first use, and only then.
     */
    function CachPathsAfter(env: Environment, target: Target, cachPaths: set<string>): set<string>
      reads this`storeDic, storeDic.Values
    {
      if target.className in storeDic then
        var store := storeDic[target.className];
        CachPathsAfterResolve(cachPaths, store.mainDirUrl, Chosen(store.isAppGroup, env.documents, env.container))
      else CachPathsAfterResolve(cachPaths, None, Chosen(target.isAppGroup, env.documents, env.container))
    }

    /** Every registered store has its class name as `id` and its own root once resolved. */
    ghost predicate Valid(env: Environment)
      reads this`storeDic, storeDic.Values
    {
      forall k :: k in storeDic ==> storeDic[k].subDir == k && storeDic[k].Valid(env)
    }

    /** The root a target's store uses: the registered store's, or the one a new store would choose. */
    function RootFor(env: Environment, target: Target): string
      reads this`storeDic
    {
      if target.className in storeDic then storeDic[target.className].Root(env)
      else RootOf(target.isAppGroup, env.documents, env.container)
    }

    /** `Target.store`: the store registered for the class, or a new `FileStore` registered under it. */
    method StoreFor(env: Environment, target: Target) returns (store: FileStore)
      requires Valid(env)
      modifies this`storeDic
      ensures Valid(env)
      ensures storeDic == old(storeDic)[target.className := store]
      ensures target.className in old(storeDic) ==> store == old(storeDic)[target.className]
      ensures target.className !in old(storeDic) ==>
                fresh(store) && store.isAppGroup == target.isAppGroup && store.mainDirUrl == None
      ensures store.subDir == target.className && store.Valid(env)
      ensures RootFor(env, target) == old(RootFor(env, target))
      ensures fresh(storeDic.Values - old(storeDic.Values))
    {
      if target.className in storeDic {
        store := storeDic[target.className];
        return;
      }
      store := new FileStore(target.isAppGroup, map["id" := target.className]);
      storeDic := storeDic[target.className := store];
    }
  }

  /** `Target.set(_:value:)` */
  method TargetSet<T>(config: GlobalConfig, env: Environment, target: Target, key: string,
                      value: Option<Payload<T>>, codec: Codec<T>)
    requires config.Valid(env)
    modifies config`storeDic, config.storeDic.Values, env`files, env`dirs, env`filePaths, env`cachPaths
    ensures config.Valid(env)
    ensures config.RootFor(env, target) == old(config.RootFor(env, target))
    ensures fresh(config.storeDic.Values - old(config.storeDic.Values))
    ensures env.files == SetFiles(old(env.files), old(config.RootFor(env, target)), target, key, Serialize(codec, value))
    ensures env.dirs == old(env.dirs) + {TargetDir(old(config.RootFor(env, target)), target.className)}
    ensures env.filePaths == old(env.filePaths) + {ValuePath(old(config.RootFor(env, target)), target, key)}
    ensures Registers(old(config.storeDic), config.storeDic, target.className) && config.Resolved(target)
    ensures env.cachPaths == old(config.CachPathsAfter(env, target, env.cachPaths))
  {
    var newKey := StoredKey(target.className, key);
    var newValue := Serialize(codec, value);
    newValue := Seal(target.crypt, key, newValue);
    var store := config.StoreFor(env, target);
    assert target.className in old(config.storeDic) ==> store in old(config.storeDic).Values;
    store.Set(env, newKey, newValue);
  }

  /** `Target.value(_:)` up to the type test: the stored bytes, decrypted. */
  method TargetData(config: GlobalConfig, env: Environment, target: Target, key: string)
    returns (data: Option<seq<byte>>)
    requires config.Valid(env)
    modifies config`storeDic, config.storeDic.Values, env`files, env`filePaths, env`cachPaths
    ensures config.Valid(env)
    ensures config.RootFor(env, target) == old(config.RootFor(env, target))
    ensures fresh(config.storeDic.Values - old(config.storeDic.Values))
    ensures var o := ValueOutcome(old(env.files), old(config.RootFor(env, target)), target, key);
            data == o.data && env.files == o.files
    ensures env.filePaths == PathsAfterLookup(old(env.filePaths), old(env.files), old(config.RootFor(env, target)),
                                              target, key, true)
    ensures Registers(old(config.storeDic), config.storeDic, target.className) && config.Resolved(target)
    ensures env.cachPaths == old(config.CachPathsAfter(env, target, env.cachPaths))
  {
    var newKey := StoredKey(target.className, key);
    var store := config.StoreFor(env, target);
    assert target.className in old(config.storeDic) ==> store in old(config.storeDic).Values;
    data := store.Value(env, newKey);
    data := Unseal(target.crypt, newKey, data);
  }

  /** `Target.value(_:type:)` for a type other than `Data`: the first element of the stored array. */
  method TargetValue<T>(config: GlobalConfig, env: Environment, target: Target, key: string, codec: Codec<T>)
    returns (v: Option<T>)
    requires config.Valid(env)
    modifies config`storeDic, config.storeDic.Values, env`files, env`filePaths, env`cachPaths
    ensures config.Valid(env)
    ensures config.RootFor(env, target) == old(config.RootFor(env, target))
    ensures fresh(config.storeDic.Values - old(config.storeDic.Values))
    ensures var o := ValueOutcome(old(env.files), old(config.RootFor(env, target)), target, key);
            v == Deserialize(codec, o.data) && env.files == o.files
    ensures env.filePaths == PathsAfterLookup(old(env.filePaths), old(env.files), old(config.RootFor(env, target)),
                                              target, key, true)
    ensures Registers(old(config.storeDic), config.storeDic, target.className) && config.Resolved(target)
    ensures env.cachPaths == old(config.CachPathsAfter(env, target, env.cachPaths))
  {
    var data := TargetData(config, env, target, key);
    v := Deserialize(codec, data);
  }

  // ---- The property wrappers ----

  /** Which wrapper, and how it turns its value into what it hands `set`, and back. */
  datatype Format<!V, !R> =
    | Plain(codec: Codec<V>)
    | Enum(rawCodec: Codec<R>, rawValue: V -> R, fromRaw: R -> Option<V>)
    | Codable(encode: V -> Option<seq<byte>>, decode: seq<byte> -> Option<V>)

  /** A getter's result and the `current` it leaves. */
  datatype Got<V> = Got(value: Option<V>, current: Option<V>)

  /** The `QuickStore` getter, given what `getCach` returns. */
  function PlainGet<V>(current: Option<V>, useMemeryCach: bool, stored: Option<V>): Got<V> {
    var value := if useMemeryCach then current else stored.OrElse(current);
    if value.Some? then Got(value, current) else Got(stored, stored)
  }

  /** The `QuickStoreEnum` getter as written: a stored raw value, with `useMemeryCach` off, yields `current`. */
  function EnumGet<V, R>(current: Option<V>, useMemeryCach: bool, stored: Option<R>, fromRaw: R -> Option<V>): Got<V> {
    if !useMemeryCach && stored.Some? then Got(current, current)
    else if current.None? && stored.Some? then Got(fromRaw(stored.value), fromRaw(stored.value))
    else Got(current, current)
  }

  /** The `QuickStoreCodable` getter, and the `QuickStoreEnum` getter returning the decoded value. */
  function ConvertingGet<V, S>(current: Option<V>, useMemeryCach: bool, stored: Option<S>, convert: S -> Option<V>): Got<V> {
    if !useMemeryCach && stored.Some? then Got(convert(stored.value), current)
    else if current.None? && stored.Some? then Got(convert(stored.value), convert(stored.value))
    else Got(current, current)
  }

  /** `wrappedValue`'s getter for each wrapper, given the bytes `getCach` finds. */
  function Getter<V, R>(format: Format<V, R>, current: Option<V>, useMemeryCach: bool, data: Option<seq<byte>>): Got<V> {
    match format
    case Plain(codec) => PlainGet(current, useMemeryCach, Deserialize(codec, data))
    case Enum(rawCodec, _, fromRaw) => EnumGet(current, useMemeryCach, Deserialize(rawCodec, data), fromRaw)
    case Codable(_, decode) => ConvertingGet(current, useMemeryCach, data, decode)
  }

  /** What each wrapper's setter hands `set`, serialised; a failed `Codable` encoding is nil. */
  function Encoded<V, R>(format: Format<V, R>, value: Option<V>): Option<seq<byte>> {
    match format
    case Plain(codec) => Serialize(codec, if value.Some? then Some(Item(value.value)) else None)
    case Enum(rawCodec, rawValue, _) => Serialize(rawCodec, if value.Some? then Some(Item(rawValue(value.value))) else None)
    case Codable(encode, _) => if value.Some? then encode(value.value) else None
  }

  /**
   * `current = getCach()` in `otherKey`'s `didSet`: read as `Value` itself.
   * `JSONSerialization` yields no enum case and no `Codable` model, so only
   * the plain wrapper finds anything.
   */
  function Reloaded<V, R>(format: Format<V, R>, data: Option<seq<byte>>): Option<V> {
    match format
    case Plain(codec) => Deserialize(codec, data)
    case Enum(_, _, _) => None
    case Codable(_, _) => None
  }

  /** The wrapper's value survives the trip through the store. */
  ghost predicate RoundTrips<V, R>(format: Format<V, R>, v: V) {
    match format
    case Plain(codec) => Faithful(codec, v)
    case Enum(rawCodec, rawValue, fromRaw) => Faithful(rawCodec, rawValue(v)) && fromRaw(rawValue(v)) == Some(v)
    case Codable(encode, decode) => encode(v).Some? && decode(encode(v).value) == Some(v)
  }

  /** `getCach`: nothing when `cach` is off, otherwise `Target.value` of the wrapper's key. */
  function Lookup(files: map<string, seq<byte>>, root: string, target: Target, key: string, cach: bool): ReadOutcome {
    if cach then ValueOutcome(files, root, target, key) else ReadOutcome(None, files)
  }

  /** Looking up twice is looking up once. */
  lemma LookupTwice(files: map<string, seq<byte>>, root: string, target: Target, key: string, cach: bool)
    ensures Lookup(Lookup(files, root, target, key, cach).files, root, target, key, cach)
            == Lookup(files, root, target, key, cach)
  {
    if cach {
      ValueTwice(files, root, target, key);
    }
  }

  /** `filePaths` after `getCach`: the key's path joins it when data was found. */
  function PathsAfterLookup(filePaths: set<string>, files: map<string, seq<byte>>, root: string, target: Target,
                            key: string, cach: bool): set<string> {
    if Lookup(files, root, target, key, cach).data.Some? then filePaths + {ValuePath(root, target, key)}
    else filePaths
  }

  /**
   * A lookup registers its path exactly when it finds data, which it does
   * exactly when the encoded or the legacy file of the key exists; and a
   * second lookup registers nothing new.
   */
  lemma PathsAfterLookupProperties(filePaths: set<string>, files: map<string, seq<byte>>, root: string,
                                   target: Target, key: string, cach: bool)
    ensures var k := StoredKey(target.className, key);
            var after := PathsAfterLookup(filePaths, files, root, target, key, cach);
            after == filePaths + (if cach && (EncodedPath(root, target.className, k) in files
                                              || LegacyPath(root, target.className, k) in files)
                                  then {ValuePath(root, target, key)} else {})
    ensures var once := PathsAfterLookup(filePaths, files, root, target, key, cach);
            PathsAfterLookup(once, Lookup(files, root, target, key, cach).files, root, target, key, cach) == once
  {
    LookupTwice(files, root, target, key, cach);
  }

  /**
   * The registries after `getCach` of `key`, given their values before it:
   * the key's path joins `filePaths` when data was found; with `cach` on the
   * class's store is registered and resolved and `cachPaths` is
   * `cachPathsUsed`, what a use of the store yields; with `cach` off they
   * are unchanged.
   */
  ghost predicate LookedUp(config: GlobalConfig, env: Environment, target: Target, key: string, cach: bool,
                           files: map<string, seq<byte>>, filePaths: set<string>, root: string,
                           storeDic: map<string, FileStore>, cachPaths: set<string>, cachPathsUsed: set<string>)
    reads config`storeDic, config.storeDic.Values, env`filePaths, env`cachPaths
  {
    && env.filePaths == PathsAfterLookup(filePaths, files, root, target, key, cach)
    && (cach ==> Registers(storeDic, config.storeDic, target.className) && config.Resolved(target)
                 && env.cachPaths == cachPathsUsed)
    && (!cach ==> config.storeDic == storeDic && env.cachPaths == cachPaths)
  }

  /** With `useMemeryCach`, a non-nil `current` is returned as it is. */
  lemma MemoryHit<V, R>(format: Format<V, R>, c: V, data: Option<seq<byte>>)
    ensures Getter(format, Some(c), true, data) == Got(Some(c), Some(c))
  {
  }

  /** With `useMemeryCach`, a nil `current` is hydrated from the store, and kept. */
  lemma Hydrates<V, R>(format: Format<V, R>, data: Option<seq<byte>>)
    ensures var g := Getter(format, None, true, data);
            g.current == g.value
    ensures format.Plain? ==> Getter(format, None, true, data).value == Deserialize(format.codec, data)
    ensures format.Codable? ==> Getter(format, None, true, data).value
                                == (if data.Some? then format.decode(data.value) else None)
  {
  }

  /** Without `useMemeryCach`, the plain and `Codable` getters prefer what the store holds. */
  lemma StoreWins<V, R>(format: Format<V, R>, current: Option<V>, data: Option<seq<byte>>)
    requires data.Some?
    ensures format.Plain? && Deserialize(format.codec, data).Some? ==>
              Getter(format, current, false, data) == Got(Deserialize(format.codec, data), current)
    ensures format.Codable? ==> Getter(format, current, false, data) == Got(format.decode(data.value), current)
  {
  }

  /**
   * The `QuickStoreEnum` getter as written ignores a stored raw value when
   * `useMemeryCach` is off, even for a fresh wrapper, while the repaired
   * getter returns the decoded value.
   */
  lemma EnumIgnoresStore<V, R>(fromRaw: R -> Option<V>, raw: R)
    ensures EnumGet(None, false, Some(raw), fromRaw) == Got(None, None)
    ensures ConvertingGet(None, false, Some(raw), fromRaw).value == fromRaw(raw)
  {
  }

  /** Asking again, with the store unchanged, gives the same answer and the same `current`. */
  lemma GetterStable<V, R>(format: Format<V, R>, current: Option<V>, useMemeryCach: bool, data: Option<seq<byte>>)
    ensures var g := Getter(format, current, useMemeryCach, data);
            Getter(format, g.current, useMemeryCach, data) == g
  {
  }

  /** After construction `current` is the stored value if one is found, otherwise the default. */
  lemma InitialCurrent<V, R>(format: Format<V, R>, useMemeryCach: bool, data: Option<seq<byte>>, default: Option<V>)
    ensures format.Plain? ==>
              Getter(format, None, useMemeryCach, data).value.OrElse(default)
              == Deserialize(format.codec, data).OrElse(default)
    ensures format.Codable? && data.Some? ==>
              Getter(format, None, useMemeryCach, data).value.OrElse(default)
              == format.decode(data.value).OrElse(default)
    ensures format.Enum? && !useMemeryCach ==>
              Getter(format, None, useMemeryCach, data).value.OrElse(default) == default
  {
  }

  /**
   * Set-then-get on one wrapper returns the value set; and a fresh wrapper on
   * the same key reads it back, except the as-written enum getter with
   * `useMemeryCach` off.
   */
  lemma SetThenGet<V, R>(format: Format<V, R>, files: map<string, seq<byte>>, root: string,
                                target: Target, key: string, useMemeryCach: bool, v: V)
    requires target.crypt.None?
    requires RoundTrips(format, v)
    ensures var data := Lookup(SetFiles(files, root, target, key, Encoded(format, Some(v))), root, target, key, true).data;
            Getter(format, Some(v), useMemeryCach, data).value == Some(v)
            && (!(format.Enum? && !useMemeryCach) ==> Getter(format, None, useMemeryCach, data).value == Some(v))
  {
    var b := Encoded(format, Some(v)).value;
    SetThenValueWithoutCipher(files, root, target, key, b);
  }

  /** The repaired enum getter reads a stored value back into a fresh wrapper. */
  lemma SetThenGetEnumFixed<V, R>(format: Format<V, R>, files: map<string, seq<byte>>, root: string,
                                         target: Target, key: string, useMemeryCach: bool, v: V)
    requires format.Enum? && target.crypt.None?
    requires RoundTrips(format, v)
    ensures var data := Lookup(SetFiles(files, root, target, key, Encoded(format, Some(v))), root, target, key, true).data;
            ConvertingGet(None, useMemeryCach, Deserialize(format.rawCodec, data), format.fromRaw).value == Some(v)
  {
    var b := Encoded(format, Some(v)).value;
    SetThenValueWithoutCipher(files, root, target, key, b);
  }

  /** `set(nil)` then a fresh get, with no legacy file, finds nothing. */
  lemma SetNilThenGet<V, R>(format: Format<V, R>, files: map<string, seq<byte>>, root: string,
                            target: Target, key: string, useMemeryCach: bool)
    requires LegacyPath(root, target.className, StoredKey(target.className, key)) !in files
    ensures var data := Lookup(SetFiles(files, root, target, key, Encoded(format, None)), root, target, key, true).data;
            Getter(format, None, useMemeryCach, data) == Got(None, None)
  {
    SetNilThenValue(files, root, target, key);
  }

  /** `QuickStore`, `QuickStoreEnum` and `QuickStoreCodable`, told apart by `format`. */
  class QuickStore<V, R> {
    const target: Target
    const format: Format<V, R>
    var key: string
    var cach: bool
    var useMemeryCach: bool
    var otherKey: Option<string>
    var syncQueue: bool
    var isInit: bool
    /** `current`, kept in `queueValue`. */
    var current: Option<V>

    function FullKey(): string
      reads this`key, this`otherKey
    {
      WrapperKey(key, otherKey)
    }

    /**
     * `init(_:_:_:cach:useMemeryCach:syncQueue:)`: loads `current` through
     * the getter, falling back to the default without writing it; the
     * main-queue block that registers an excluded class with the cache
     * cleaner runs after it.
     */
    constructor(config: GlobalConfig, env: Environment, target: Target, format: Format<V, R>, key: string,
                defaultValue: Option<V>, cach: bool, useMemeryCach: bool, syncQueue: bool)
      requires config.Valid(env)
      modifies config, config.storeDic.Values, env`files, env`filePaths, env`cachPaths
      ensures config.Valid(env)
      ensures config.RootFor(env, target) == old(config.RootFor(env, target))
      ensures fresh(config.storeDic.Values - old(config.storeDic.Values))
      ensures config.filterKeys == old(config.filterKeys)
                                   + (if target.excludeStoreCache then {EncodeKey(target.className)} else {})
      ensures this.target == target && this.key == key && this.cach == cach
      ensures this.useMemeryCach == useMemeryCach && this.syncQueue == syncQueue
      ensures otherKey == None && !isInit
      ensures var o := Lookup(old(env.files), old(config.RootFor(env, target)), target, key, cach);
              current == Getter(format, None, useMemeryCach, o.data).value.OrElse(defaultValue)
              && env.files == o.files
      ensures LookedUp(config, env, target, key, cach, old(env.files), old(env.filePaths),
              old(config.RootFor(env, target)), old(config.storeDic), old(env.cachPaths),
              old(config.CachPathsAfter(env, target, env.cachPaths)))
    {
      this.target := target;
      this.format := format;
      this.key := key;
      this.cach := cach;
      this.useMemeryCach := useMemeryCach;
      otherKey := None;
      this.syncQueue := syncQueue;
      isInit := false;
      current := None;
      new;
      assert FullKey() == key;
      Load(config, env, defaultValue);
      if target.excludeStoreCache {
        config.AddFilterKey(target.className);
      }
    }

    /** `current = wrappedValue ?? defaultValue` */
    method Load(config: GlobalConfig, env: Environment, defaultValue: Option<V>)
      requires config.Valid(env)
      modifies this`current, config`storeDic, config.storeDic.Values, env`files, env`filePaths, env`cachPaths
      ensures config.Valid(env)
      ensures config.RootFor(env, target) == old(config.RootFor(env, target))
      ensures fresh(config.storeDic.Values - old(config.storeDic.Values))
      ensures var o := Lookup(old(env.files), old(config.RootFor(env, target)), target, FullKey(), cach);
              current == Getter(format, old(current), useMemeryCach, o.data).value.OrElse(defaultValue)
              && env.files == (if useMemeryCach && old(current).Some? then old(env.files) else o.files)
      ensures if useMemeryCach && old(current).Some? then env.filePaths == old(env.filePaths) && config.storeDic == old(config.storeDic)
                   && env.cachPaths == old(env.cachPaths)
              else LookedUp(config, env, target, FullKey(), cach, old(env.files), old(env.filePaths),
                   old(config.RootFor(env, target)), old(config.storeDic), old(env.cachPaths),
                   old(config.CachPathsAfter(env, target, env.cachPaths)))
    {
      var v := Get(config, env);
      current := v.OrElse(defaultValue);
    }

    /** `getCach` up to the type test; a second lookup finds and registers the same. */
    method GetCach(config: GlobalConfig, env: Environment) returns (data: Option<seq<byte>>)
      requires config.Valid(env)
      modifies config`storeDic, config.storeDic.Values, env`files, env`filePaths, env`cachPaths
      ensures config.Valid(env)
      ensures config.RootFor(env, target) == old(config.RootFor(env, target))
      ensures fresh(config.storeDic.Values - old(config.storeDic.Values))
      ensures var o := Lookup(old(env.files), old(config.RootFor(env, target)), target, FullKey(), cach);
              data == o.data && env.files == o.files
              && Lookup(env.files, config.RootFor(env, target), target, FullKey(), cach) == o
      ensures LookedUp(config, env, target, FullKey(), cach, old(env.files), old(env.filePaths),
              old(config.RootFor(env, target)), old(config.storeDic), old(env.cachPaths),
              old(config.CachPathsAfter(env, target, env.cachPaths)))
      ensures PathsAfterLookup(env.filePaths, env.files, config.RootFor(env, target), target, FullKey(), cach)
              == env.filePaths
    {
      LookupTwice(env.files, config.RootFor(env, target), target, FullKey(), cach);
      PathsAfterLookupProperties(env.filePaths, env.files, config.RootFor(env, target), target, FullKey(), cach);
      data := None;
      if cach {
        data := TargetData(config, env, target, FullKey());
      }
    }

    /** `setCach`: `Target.set` of the wrapper's key when `cach` is on; nothing otherwise. */
    method SetCach<T>(config: GlobalConfig, env: Environment, value: Option<Payload<T>>, codec: Codec<T>)
      requires config.Valid(env)
      modifies config`storeDic, config.storeDic.Values, env`files, env`dirs, env`filePaths, env`cachPaths
      ensures config.Valid(env)
      ensures config.RootFor(env, target) == old(config.RootFor(env, target))
      ensures fresh(config.storeDic.Values - old(config.storeDic.Values))
      ensures env.files == if cach then SetFiles(old(env.files), old(config.RootFor(env, target)), target, FullKey(),
                                                 Serialize(codec, value))
                           else old(env.files)
      ensures cach ==>
                env.dirs == old(env.dirs) + {TargetDir(old(config.RootFor(env, target)), target.className)}
                && env.filePaths == old(env.filePaths) + {ValuePath(old(config.RootFor(env, target)), target, FullKey())}
                && Registers(old(config.storeDic), config.storeDic, target.className) && config.Resolved(target)
                && env.cachPaths == old(config.CachPathsAfter(env, target, env.cachPaths))
      ensures !cach ==> env.dirs == old(env.dirs) && env.filePaths == old(env.filePaths)
                        && config.storeDic == old(config.storeDic) && env.cachPaths == old(env.cachPaths)
    {
      if cach {
        TargetSet(config, env, target, FullKey(), value, codec);
      }
    }

    /** `wrappedValue`'s getter. */
    method Get(config: GlobalConfig, env: Environment) returns (value: Option<V>)
      requires config.Valid(env)
      modifies this`current, config`storeDic, config.storeDic.Values, env`files, env`filePaths, env`cachPaths
      ensures config.Valid(env)
      ensures config.RootFor(env, target) == old(config.RootFor(env, target))
      ensures fresh(config.storeDic.Values - old(config.storeDic.Values))
      ensures var o := Lookup(old(env.files), old(config.RootFor(env, target)), target, FullKey(), cach);
              Got(value, current) == Getter(format, old(current), useMemeryCach, o.data)
              && env.files == (if useMemeryCach && old(current).Some? then old(env.files) else o.files)
      ensures if useMemeryCach && old(current).Some? then env.filePaths == old(env.filePaths) && config.storeDic == old(config.storeDic)
                   && env.cachPaths == old(env.cachPaths)
              else LookedUp(config, env, target, FullKey(), cach, old(env.files), old(env.filePaths),
                   old(config.RootFor(env, target)), old(config.storeDic), old(env.cachPaths),
                   old(config.CachPathsAfter(env, target, env.cachPaths)))
    {
      match format {
        case Plain(_) => value := GetPlain(config, env);
        case Enum(_, _, _) => value := GetEnum(config, env);
        case Codable(_, _) => value := GetCodable(config, env);
      }
    }

    /** The `QuickStore` getter: with `useMemeryCach` off the store is read before `current`. */
    method GetPlain(config: GlobalConfig, env: Environment) returns (value: Option<V>)
      requires format.Plain?
      requires config.Valid(env)
      modifies this`current, config`storeDic, config.storeDic.Values, env`files, env`filePaths, env`cachPaths
      ensures config.Valid(env)
      ensures config.RootFor(env, target) == old(config.RootFor(env, target))
      ensures fresh(config.storeDic.Values - old(config.storeDic.Values))
      ensures var o := Lookup(old(env.files), old(config.RootFor(env, target)), target, FullKey(), cach);
              Got(value, current) == PlainGet(old(current), useMemeryCach, Deserialize(format.codec, o.data))
              && env.files == (if useMemeryCach && old(current).Some? then old(env.files) else o.files)
      ensures if useMemeryCach && old(current).Some? then env.filePaths == old(env.filePaths) && config.storeDic == old(config.storeDic)
                   && env.cachPaths == old(env.cachPaths)
              else LookedUp(config, env, target, FullKey(), cach, old(env.files), old(env.filePaths),
                   old(config.RootFor(env, target)), old(config.storeDic), old(env.cachPaths),
                   old(config.CachPathsAfter(env, target, env.cachPaths)))
    {
      if useMemeryCach {
        value := GetPlainMemoryFirst(config, env);
      } else {
        value := GetPlainStoreFirst(config, env);
      }
    }

    /** `value = getCach() ?? current`, then a lookup again if that is nil. */
    method GetPlainStoreFirst(config: GlobalConfig, env: Environment) returns (value: Option<V>)
      requires format.Plain? && !useMemeryCach
      requires config.Valid(env)
      modifies this`current, config`storeDic, config.storeDic.Values, env`files, env`filePaths, env`cachPaths
      ensures config.Valid(env)
      ensures config.RootFor(env, target) == old(config.RootFor(env, target))
      ensures fresh(config.storeDic.Values - old(config.storeDic.Values))
      ensures var o := Lookup(old(env.files), old(config.RootFor(env, target)), target, FullKey(), cach);
              Got(value, current) == PlainGet(old(current), false, Deserialize(format.codec, o.data)) && env.files == o.files
      ensures LookedUp(config, env, target, FullKey(), cach, old(env.files), old(env.filePaths),
              old(config.RootFor(env, target)), old(config.storeDic), old(env.cachPaths),
              old(config.CachPathsAfter(env, target, env.cachPaths)))
    {
      var data := GetCach(config, env);
      value := Deserialize(format.codec, data).OrElse(current);
      if value.None? {
        ghost var dic := config.storeDic;
        data := GetCach(config, env);
        if cach {
          RegistersTwice(old(config.storeDic), dic, config.storeDic, target.className);
        }
        value := Deserialize(format.codec, data);
        current := value;
      }
    }

    /** `current`, or when it is nil what `getCach` finds, which `current` keeps. */
    method GetPlainMemoryFirst(config: GlobalConfig, env: Environment) returns (value: Option<V>)
      requires format.Plain? && useMemeryCach
      requires config.Valid(env)
      modifies this`current, config`storeDic, config.storeDic.Values, env`files, env`filePaths, env`cachPaths
      ensures config.Valid(env)
      ensures config.RootFor(env, target) == old(config.RootFor(env, target))
      ensures fresh(config.storeDic.Values - old(config.storeDic.Values))
      ensures var o := Lookup(old(env.files), old(config.RootFor(env, target)), target, FullKey(), cach);
              Got(value, current) == PlainGet(old(current), true, Deserialize(format.codec, o.data))
              && env.files == (if old(current).Some? then old(env.files) else o.files)
      ensures if old(current).Some? then env.filePaths == old(env.filePaths) && config.storeDic == old(config.storeDic)
                   && env.cachPaths == old(env.cachPaths)
              else LookedUp(config, env, target, FullKey(), cach, old(env.files), old(env.filePaths),
                   old(config.RootFor(env, target)), old(config.storeDic), old(env.cachPaths),
                   old(config.CachPathsAfter(env, target, env.cachPaths)))
    {
      value := current;
      if value.None? {
        var data := GetCach(config, env);
        value := Deserialize(format.codec, data);
        current := value;
      }
    }

    /** The `QuickStoreEnum` getter, as written: it returns `current` when a raw value is stored. */
    method GetEnum(config: GlobalConfig, env: Environment) returns (value: Option<V>)
      requires format.Enum?
      requires config.Valid(env)
      modifies this`current, config`storeDic, config.storeDic.Values, env`files, env`filePaths, env`cachPaths
      ensures config.Valid(env)
      ensures config.RootFor(env, target) == old(config.RootFor(env, target))
      ensures fresh(config.storeDic.Values - old(config.storeDic.Values))
      ensures var o := Lookup(old(env.files), old(config.RootFor(env, target)), target, FullKey(), cach);
              Got(value, current) == EnumGet(old(current), useMemeryCach, Deserialize(format.rawCodec, o.data), format.fromRaw)
              && env.files == (if useMemeryCach && old(current).Some? then old(env.files) else o.files)
      ensures if useMemeryCach && old(current).Some? then env.filePaths == old(env.filePaths) && config.storeDic == old(config.storeDic)
                   && env.cachPaths == old(env.cachPaths)
              else LookedUp(config, env, target, FullKey(), cach, old(env.files), old(env.filePaths),
                   old(config.RootFor(env, target)), old(config.storeDic), old(env.cachPaths),
                   old(config.CachPathsAfter(env, target, env.cachPaths)))
    {
      if useMemeryCach {
        value := GetEnumMemoryFirst(config, env);
      } else {
        value := GetEnumStoreFirst(config, env);
      }
    }

    /** A stored raw value returns `current`; otherwise a nil `current` is looked up again. */
    method GetEnumStoreFirst(config: GlobalConfig, env: Environment) returns (value: Option<V>)
      requires format.Enum? && !useMemeryCach
      requires config.Valid(env)
      modifies this`current, config`storeDic, config.storeDic.Values, env`files, env`filePaths, env`cachPaths
      ensures config.Valid(env)
      ensures config.RootFor(env, target) == old(config.RootFor(env, target))
      ensures fresh(config.storeDic.Values - old(config.storeDic.Values))
      ensures var o := Lookup(old(env.files), old(config.RootFor(env, target)), target, FullKey(), cach);
              Got(value, current) == EnumGet(old(current), false, Deserialize(format.rawCodec, o.data), format.fromRaw) && env.files == o.files
      ensures LookedUp(config, env, target, FullKey(), cach, old(env.files), old(env.filePaths),
              old(config.RootFor(env, target)), old(config.storeDic), old(env.cachPaths),
              old(config.CachPathsAfter(env, target, env.cachPaths)))
    {
      value := current;
      var data := GetCach(config, env);
      var raw := Deserialize(format.rawCodec, data);
      if raw.Some? {
        return;
      }
      if current.None? {
        ghost var dic := config.storeDic;
        data := GetCach(config, env);
        if cach {
          RegistersTwice(old(config.storeDic), dic, config.storeDic, target.className);
        }
        raw := Deserialize(format.rawCodec, data);
        if raw.Some? {
          // The second lookup finds what the first did, and that was no raw value.
          assert false;
        }
      }
    }

    /** A nil `current` takes the case of a stored raw value. */
    method GetEnumMemoryFirst(config: GlobalConfig, env: Environment) returns (value: Option<V>)
      requires format.Enum? && useMemeryCach
      requires config.Valid(env)
      modifies this`current, config`storeDic, config.storeDic.Values, env`files, env`filePaths, env`cachPaths
      ensures config.Valid(env)
      ensures config.RootFor(env, target) == old(config.RootFor(env, target))
      ensures fresh(config.storeDic.Values - old(config.storeDic.Values))
      ensures var o := Lookup(old(env.files), old(config.RootFor(env, target)), target, FullKey(), cach);
              Got(value, current) == EnumGet(old(current), true, Deserialize(format.rawCodec, o.data), format.fromRaw)
              && env.files == (if old(current).Some? then old(env.files) else o.files)
      ensures if old(current).Some? then env.filePaths == old(env.filePaths) && config.storeDic == old(config.storeDic)
                   && env.cachPaths == old(env.cachPaths)
              else LookedUp(config, env, target, FullKey(), cach, old(env.files), old(env.filePaths),
                   old(config.RootFor(env, target)), old(config.storeDic), old(env.cachPaths),
                   old(config.CachPathsAfter(env, target, env.cachPaths)))
    {
      value := current;
      if current.None? {
        var data := GetCach(config, env);
        var raw := Deserialize(format.rawCodec, data);
        if raw.Some? {
          value := format.fromRaw(raw.value);
          current := value;
        }
      }
    }

    /** The `QuickStoreCodable` getter: with `useMemeryCach` off stored data is decoded before `current` is consulted. */
    method GetCodable(config: GlobalConfig, env: Environment) returns (value: Option<V>)
      requires format.Codable?
      requires config.Valid(env)
      modifies this`current, config`storeDic, config.storeDic.Values, env`files, env`filePaths, env`cachPaths
      ensures config.Valid(env)
      ensures config.RootFor(env, target) == old(config.RootFor(env, target))
      ensures fresh(config.storeDic.Values - old(config.storeDic.Values))
      ensures var o := Lookup(old(env.files), old(config.RootFor(env, target)), target, FullKey(), cach);
              Got(value, current) == ConvertingGet(old(current), useMemeryCach, o.data, format.decode)
              && env.files == (if useMemeryCach && old(current).Some? then old(env.files) else o.files)
      ensures if useMemeryCach && old(current).Some? then env.filePaths == old(env.filePaths) && config.storeDic == old(config.storeDic)
                   && env.cachPaths == old(env.cachPaths)
              else LookedUp(config, env, target, FullKey(), cach, old(env.files), old(env.filePaths),
                   old(config.RootFor(env, target)), old(config.storeDic), old(env.cachPaths),
                   old(config.CachPathsAfter(env, target, env.cachPaths)))
    {
      if useMemeryCach {
        value := GetCodableMemoryFirst(config, env);
      } else {
        value := GetCodableStoreFirst(config, env);
      }
    }

    /** Stored data is decoded and returned; otherwise a nil `current` is looked up again. */
    method GetCodableStoreFirst(config: GlobalConfig, env: Environment) returns (value: Option<V>)
      requires format.Codable? && !useMemeryCach
      requires config.Valid(env)
      modifies this`current, config`storeDic, config.storeDic.Values, env`files, env`filePaths, env`cachPaths
      ensures config.Valid(env)
      ensures config.RootFor(env, target) == old(config.RootFor(env, target))
      ensures fresh(config.storeDic.Values - old(config.storeDic.Values))
      ensures var o := Lookup(old(env.files), old(config.RootFor(env, target)), target, FullKey(), cach);
              Got(value, current) == ConvertingGet(old(current), false, o.data, format.decode) && env.files == o.files
      ensures LookedUp(config, env, target, FullKey(), cach, old(env.files), old(env.filePaths),
              old(config.RootFor(env, target)), old(config.storeDic), old(env.cachPaths),
              old(config.CachPathsAfter(env, target, env.cachPaths)))
    {
      value := current;
      var data := GetCach(config, env);
      if data.Some? {
        value := format.decode(data.value);
        return;
      }
      if value.None? {
        ghost var dic := config.storeDic;
        data := GetCach(config, env);
        if cach {
          RegistersTwice(old(config.storeDic), dic, config.storeDic, target.className);
        }
        if data.Some? {
          // The second lookup finds what the first did, and that was nothing.
          assert false;
        }
      }
    }

    /** A nil `current` takes the decoding of stored data. */
    method GetCodableMemoryFirst(config: GlobalConfig, env: Environment) returns (value: Option<V>)
      requires format.Codable? && useMemeryCach
      requires config.Valid(env)
      modifies this`current, config`storeDic, config.storeDic.Values, env`files, env`filePaths, env`cachPaths
      ensures config.Valid(env)
      ensures config.RootFor(env, target) == old(config.RootFor(env, target))
      ensures fresh(config.storeDic.Values - old(config.storeDic.Values))
      ensures var o := Lookup(old(env.files), old(config.RootFor(env, target)), target, FullKey(), cach);
              Got(value, current) == ConvertingGet(old(current), true, o.data, format.decode)
              && env.files == (if old(current).Some? then old(env.files) else o.files)
      ensures if old(current).Some? then env.filePaths == old(env.filePaths) && config.storeDic == old(config.storeDic)
                   && env.cachPaths == old(env.cachPaths)
              else LookedUp(config, env, target, FullKey(), cach, old(env.files), old(env.filePaths),
                   old(config.RootFor(env, target)), old(config.storeDic), old(env.cachPaths),
                   old(config.CachPathsAfter(env, target, env.cachPaths)))
    {
      value := current;
      if value.None? {
        var data := GetCach(config, env);
        if data.Some? {
          value := format.decode(data.value);
          current := value;
        }
      }
    }

    /** `wrappedValue`'s setter: `current` takes the value, and `setCach` stores it. */
    method Put(config: GlobalConfig, env: Environment, newValue: Option<V>)
      requires config.Valid(env)
      modifies this`current, config`storeDic, config.storeDic.Values, env`files, env`dirs, env`filePaths, env`cachPaths
      ensures config.Valid(env)
      ensures config.RootFor(env, target) == old(config.RootFor(env, target))
      ensures fresh(config.storeDic.Values - old(config.storeDic.Values))
      ensures current == newValue
      ensures env.files == if cach then SetFiles(old(env.files), old(config.RootFor(env, target)), target, FullKey(),
                                                 Encoded(format, newValue))
                           else old(env.files)
      ensures cach ==>
                env.dirs == old(env.dirs) + {TargetDir(old(config.RootFor(env, target)), target.className)}
                && env.filePaths == old(env.filePaths) + {ValuePath(old(config.RootFor(env, target)), target, FullKey())}
                && Registers(old(config.storeDic), config.storeDic, target.className) && config.Resolved(target)
                && env.cachPaths == old(config.CachPathsAfter(env, target, env.cachPaths))
      ensures !cach ==> env.dirs == old(env.dirs) && env.filePaths == old(env.filePaths)
                        && config.storeDic == old(config.storeDic) && env.cachPaths == old(env.cachPaths)
    {
      match format {
        case Plain(codec) =>
          current := newValue;
          SetCach(config, env, if newValue.Some? then Some(Item(newValue.value)) else None, codec);
        case Enum(rawCodec, rawValue, _) =>
          current := newValue;
          SetCach(config, env, if newValue.Some? then Some(Item(rawValue(newValue.value))) else None, rawCodec);
        case Codable(encode, _) =>
          var data := if newValue.Some? then encode(newValue.value) else None;
          current := newValue;
          SetCach(config, env, if data.Some? then Some(Bytes(data.value)) else None, Unwritable<V>());
      }
    }

    /** Setting `otherKey`: its `didSet` reloads `current` from the new key. */
    method SetOtherKey(config: GlobalConfig, env: Environment, newKey: Option<string>)
      requires config.Valid(env)
      modifies this`otherKey, this`current, config`storeDic, config.storeDic.Values, env`files, env`filePaths, env`cachPaths
      ensures config.Valid(env)
      ensures config.RootFor(env, target) == old(config.RootFor(env, target))
      ensures fresh(config.storeDic.Values - old(config.storeDic.Values))
      ensures otherKey == newKey
      ensures var o := Lookup(old(env.files), old(config.RootFor(env, target)), target, WrapperKey(key, newKey), cach);
              current == Reloaded(format, o.data) && env.files == o.files
      ensures LookedUp(config, env, target, WrapperKey(key, newKey), cach, old(env.files), old(env.filePaths),
              old(config.RootFor(env, target)), old(config.storeDic), old(env.cachPaths),
              old(config.CachPathsAfter(env, target, env.cachPaths)))
    {
      otherKey := newKey;
      var data := GetCach(config, env);
      current := Reloaded(format, data);
    }
  }
}
