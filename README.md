# QuickStoreKit in Dafny

QuickStoreKit is a Swift key-value store. A type that adopts
`QuickStoreProtocol` gets static `set`/`value` methods that keep values as
bytes under `<className>.<key>`. The `@QuickStore`, `@QuickStoreEnum` and
`@QuickStoreCodable` property wrappers keep an in-memory `current` value in
front of the store. The bytes live in `FileStore`, one file per key under
`<root>/QuickStoreDir/<className>`. File names come from `FileStore.encodeKey`,
and older `<raw key>.key` files are migrated when first read. Values can be
sealed with `SimpleCrypt`. `StoreCache` watches cache directories: it sizes
them, records the largest files and directories, reports once in a while, and
clears what its filter keys do not protect.

The model has ten modules:

- `Wrappers` holds `Option`.
- `Text` models `components(separatedBy:)`, `joined(separator:)`, `hasPrefix`, `contains` and decimal numerals.
- `Base64` is the base64 codec of section 4 of RFC 4648, with its decoder and round trip.
- `KeyEncoder` models `encodeKey`, including the JSON text of the shifted `[UInt8]` that gets base64-encoded. It also has an inverse `DecodeKey` for ASCII keys.
- `FileStore` models the path layout and the effect of `set` and `value` on a `map<string, seq<byte>>` of files. An `Environment` class holds the files and the static `filePaths` and `cachPaths` registries. A `FileStore` class has the lazy `mainDirUrl`.
- `QuickStoreCrypt` has `SimpleCrypt` as written, plus a repaired pair.
- `QuickStore` covers key derivation, value wrapping, the cipher layer, the `store` registry (`GlobalConfig`), and the `QuickStore` wrapper class. The class is one class whose `format` tells the plain, enum and `Codable` wrappers apart.
- `DiskTree` is a folder tree with lookup, listing and removal.
- `CacheScan` covers `FileAttribute.exploreFolder`, `filterMaxSize` and `getFolderSizeAndMaxSubFiles`.
- `StoreCache` covers `setInfo`, `getLog`, `check`, `clearAll` and `clear`, over a `StoreCache` class whose fields are the persisted properties.

Every dispatch-queue block runs at once, in program order. A method that changes state is proved against a function of the old state: `Written`/`Read`, `SetFiles`/`ValueOutcome`, `Getter`, `SurveyOf`, `Doomed`/`RemoveAll`, `Cleared` and `Sweep`. The lemmas state the properties of those functions.

## Model

| member | source | states |
|---|---|---|
| KeyEncoder.EncodeKey | QuickStoreKit/FileStore.swift:58-64 | `encodeKey`: each `.`-separated segment becomes the base64 text of the JSON array of its UTF-8 bytes shifted by the segment's length modulo 256, rejoined with `.`; `EncodeKeyByComponents`, `DecodeEncodeKey`, `EncodeKeyInjective` and `EncodeKeyTail` state its properties |
| KeyEncoder.EncodeKeyByComponents | QuickStoreKit/FileStore.swift:58-64 | the one-pass `EncodeKey` equals splitting on `.`, encoding every component, and joining with `.` |
| KeyEncoder.EncodeKeySegments | QuickStoreKit/FileStore.swift:58-64 | the encoded key has exactly as many `.`-separated segments as the key, and segment i is the encoding of segment i |
| KeyEncoder.EncodeSegment | QuickStoreKit/FileStore.swift:59-61 | one encoded segment is whole base64 groups (a non-zero multiple of 4 characters) and contains no `.` |
| KeyEncoder.JsonByteArray | QuickStoreKit/QuickStore.swift:368-370 | the JSON text of a byte array starts with `[`, ends with `]`, and holds only digits, commas and brackets |
| KeyEncoder.ParseJsonByteArray | QuickStoreKit/QuickStore.swift:368-370 | the JSON text of a byte array parses back to that array |
| KeyEncoder.Utf8OfAscii | QuickStoreKit/FileStore.swift:60 | on ASCII text the UTF-8 bytes are the code points, one per character |
| KeyEncoder.Utf8Char | QuickStoreKit/FileStore.swift:60 | one character becomes one to four UTF-8 bytes, and an ASCII character becomes its own code |
| KeyEncoder.DecodeEncodeKey | QuickStoreKit/FileStore.swift:58-64 | `DecodeKey` undoes `EncodeKey` on every ASCII key |
| KeyEncoder.EncodeKeyInjective | QuickStoreKit/FileStore.swift:58-64 | two different ASCII keys never get the same encoded name |
| KeyEncoder.EncodeKeyTail | QuickStoreKit/FileStore.swift:58-64 | an encoded key has at least four characters, and none of its last four is `.` |
| Base64.Encode | QuickStoreKit/FileStore.swift:60 | base64 text is 4 characters per started group of 3 bytes, all from the alphabet or `=` |
| Base64.DecodeEncode | QuickStoreKit/FileStore.swift:60 | decoding base64 text gives the bytes back |
| Base64.EncodeInjective | QuickStoreKit/FileStore.swift:60 | different byte strings have different base64 text |
| Base64.TextOfEncodeData | QuickStoreKit/QuickStoreCrypt.swift:22 | the bytes of `base64EncodedData()`, read as text, are the base64 text |
| FileStore.FirstThree | QuickStoreKit/FileStore.swift:33-36 | at most three components are kept; a list of three or fewer is unchanged, and a longer one keeps its first three |
| FileStore.SharedGroupIdentifier | QuickStoreKit/FileStore.swift:32-40 | `sharedGroupIdentifier`: the group name, then at most the first three bundle-id components, joined with `.`; `SharedGroupComponents` states its shape |
| FileStore.SharedGroupComponents | QuickStoreKit/FileStore.swift:32-40 | the identifier's components are the group name followed by the first at most three bundle-id components, so there are at most four |
| FileStore.RootOf | QuickStoreKit/FileStore.swift:43-50 | the root is the group container when `isAppGroup` holds and it resolves, otherwise the documents directory |
| FileStore.EncodedPathIsNotLegacy | QuickStoreKit/FileStore.swift:85-89 | an encoded file path is never a legacy `<key>.key` path, of this key or any other |
| FileStore.EncodedPathInjective | QuickStoreKit/FileStore.swift:74-75 | different ASCII keys are stored at different paths |
| FileStore.Written | QuickStoreKit/FileStore.swift:76-80 | the files after `set`: the bytes at the path, or the path removed for nil; `WriteKeepsOthers`, `DeleteAbsent` and `ReadAfterWrite` state its properties |
| FileStore.Read | QuickStoreKit/FileStore.swift:84-100 | the result and files after `value`: the file at the encoded path, else the legacy file, which is moved to the encoded path, else nil; `ReadAfterWrite`, `MigrateOnce`, `ReadTwice` and `ReadMiss` state its properties |
| FileStore.ReadAfterWrite | QuickStoreKit/FileStore.swift:76-87 | reading a path right after writing bytes there returns those bytes and changes no file |
| FileStore.WriteKeepsOthers | QuickStoreKit/FileStore.swift:76-80 | a write or delete at one path leaves every other path as it was, present or absent |
| FileStore.DeleteAbsent | QuickStoreKit/FileStore.swift:78-80 | deleting an absent path changes nothing |
| FileStore.DeleteKeepsLegacy | QuickStoreKit/FileStore.swift:76-95 | a delete removes the encoded file but not the legacy file, so the next read returns the legacy bytes |
| FileStore.MigrateOnce | QuickStoreKit/FileStore.swift:88-95 | a miss with a legacy file returns its bytes, removes it and writes them at the encoded path; a second read returns the same bytes with no change |
| FileStore.ReadTwice | QuickStoreKit/FileStore.swift:84-100 | reading twice returns the same as reading once and leaves the same files |
| FileStore.ReadMiss | QuickStoreKit/FileStore.swift:87-99 | with neither file present the read returns nil and changes nothing |
| FileStore.SetThenValue | QuickStoreKit/FileStore.swift:70-87 | `value(k)` after `set(k, v)` returns `v` and changes nothing |
| FileStore.SetKeepsOtherKeys | QuickStoreKit/FileStore.swift:70-82 | `set` of one ASCII key leaves the file of every other ASCII key unchanged |
| FileStore.DeleteThenLegacyValue | QuickStoreKit/FileStore.swift:76-95 | after `set(k, nil)`, a legacy file of `k` is still found by `value(k)` |
| FileStore.FileStore.constructor | QuickStoreKit/FileStore.swift:14-17 | the sub-directory is the `id` option or empty, and the root is not yet resolved |
| FileStore.FileStore.MainDirUrl | QuickStoreKit/FileStore.swift:43-50 | the root is `RootOf`'s choice and is remembered; on first use only, a non-nil chosen URL is added to `cachPaths` |
| FileStore.FileStore.SetFilePath | QuickStoreKit/FileStore.swift:102-106 | the path joins `filePaths`, and registering a path twice is the same as once |
| FileStore.FileStore.Set | QuickStoreKit/FileStore.swift:70-82 | the files become `Written` at the encoded path; the target directory exists; the encoded path is registered, on delete too |
| FileStore.FileStore.Value | QuickStoreKit/FileStore.swift:84-100 | result and files are `Read` at the encoded and legacy paths; the encoded path is registered only when data was found |
| QuickStoreCrypt.EncryptShift | QuickStoreKit/QuickStoreCrypt.swift:20 | the shift keeps the length, and every shifted byte is at most 254 |
| QuickStoreCrypt.Encrypt | QuickStoreKit/QuickStoreCrypt.swift:18-23 | the result has length four bytes for every started group of three input bytes |
| QuickStoreCrypt.DecryptShift | QuickStoreKit/QuickStoreCrypt.swift:28 | the back shift keeps the length |
| QuickStoreCrypt.Decrypt | QuickStoreKit/QuickStoreCrypt.swift:25-31 | the result has length four bytes for every started group of three input bytes, because the input is base64-encoded, not decoded |
| QuickStoreCrypt.EncryptCollapses | QuickStoreKit/QuickStoreCrypt.swift:20 | byte values 0 and 255 get the same shift and the same ciphertext under every key |
| QuickStoreCrypt.DecryptShiftUndoesEncryptShift | QuickStoreKit/QuickStoreCrypt.swift:18-31 | for bytes below 255 and the same key, the back shift undoes the shift |
| QuickStoreCrypt.DecryptNeverInverts | QuickStoreKit/QuickStoreCrypt.swift:25-31 | `decrypt(k, encrypt(k, v))` is longer than `v` for every non-empty `v`, so it is never `v` |
| QuickStoreCrypt.KeyOnlyThroughLength | QuickStoreKit/QuickStoreCrypt.swift:18-31 | keys whose lengths agree modulo 255 give the same `encrypt` and the same `decrypt` |
| QuickStoreCrypt.ShiftDownUp | QuickStoreKit/QuickStoreCrypt.swift:20 | the shift taken modulo 256 is undone by the matching back shift |
| QuickStoreCrypt.EncryptFixed | QuickStoreKit/QuickStoreCrypt.swift:18-23 | the repaired encryption has length four bytes for every started group of three input bytes |
| QuickStoreCrypt.FixedRoundTrip | QuickStoreKit/QuickStoreCrypt.swift:18-31 | the repaired pair gives every byte string back under the same key |
| QuickStore.StoredKey | QuickStoreKit/QuickStore.swift:51 | the store key `<className>.<key>`; `StoredKeyInjective` states that it separates keys |
| QuickStore.WrapperKey | QuickStoreKit/QuickStore.swift:197-200 | a wrapper's key, `rawValue` followed by `otherKey` with no separator; `WrapperKeysCollide` shows two wrappers sharing one |
| QuickStore.SetFiles | QuickStoreKit/QuickStore.swift:50-67 | the files after `Target.set`: the serialised value sealed under the raw key and written, or deleted, at the encoded path of `<className>.<key>`; `SetThenValueWithoutCipher`, `SetNilThenValue` and `SetKeepsOtherValues` state its properties |
| QuickStore.ValueOutcome | QuickStoreKit/QuickStore.swift:79-89 | what `Target.value` reads: the encoded or legacy file of `<className>.<key>`, unsealed under that prefixed key, and the files after the migration; `ValueTwice`, `SimpleCryptLosesEveryValue` and `KeyMismatchBreaksFixedCipher` state its properties |
| QuickStore.StoredKeyInjective | QuickStoreKit/QuickStore.swift:51 | within one class, different keys give different store keys |
| QuickStore.WrapperKeysCollide | QuickStoreKit/QuickStore.swift:197-200 | with no separator before `otherKey`, key `ab` and key `a` with `otherKey` `b` share a store key |
| QuickStore.UnsealSeal | QuickStoreKit/QuickStore.swift:60-86 | with no cipher, or an inverting one, unsealing under the sealing key restores the bytes, nil included |
| QuickStore.SimpleCryptDoesNotInvert | QuickStoreKit/QuickStoreCrypt.swift:25-31 | `SimpleCrypt` as written is not an inverting cipher |
| QuickStore.SimpleCryptFixedInverts | QuickStoreKit/QuickStoreCrypt.swift:18-31 | the repaired cipher inverts under every key |
| QuickStore.SetThenValueWithoutCipher | QuickStoreKit/QuickStore.swift:50-89 | with no cipher, `value` after `set` of `Data` returns the same bytes and changes no file |
| QuickStore.SetThenValueOfItem | QuickStoreKit/QuickStore.swift:53-95 | with no cipher, a non-`Data` value is stored as `[v]` and read back as its first element, `v` |
| QuickStore.SetNilThenValue | QuickStoreKit/QuickStore.swift:53-66 | `set(key, nil)` deletes the file, so with no legacy file `value` then finds nothing |
| QuickStore.SetKeepsOtherValues | QuickStoreKit/QuickStore.swift:50-67 | `set` under one ASCII key leaves what every other key reads unchanged |
| QuickStore.KeyMismatchBreaksFixedCipher | QuickStoreKit/QuickStore.swift:60-86 | because `set` encrypts under the raw key and `value` decrypts under the prefixed key, even an inverting shift cipher loses every non-empty value when the class name plus dot is not a multiple of 256 long |
| QuickStore.SimpleCryptLosesEveryValue | QuickStoreKit/QuickStore.swift:60-86 | with `SimpleCrypt` as written, `value` after `set` never returns a non-empty value that was set |
| QuickStore.SetThenValueFixed | QuickStoreKit/QuickStore.swift:60-86 | decrypting under the key `set` used, any inverting cipher round-trips and the files are unchanged by the read |
| QuickStore.SimpleCryptFixedRoundTrip | QuickStoreKit/QuickStore.swift:60-86 | the repaired cipher with the repaired key choice returns every value set |
| QuickStore.ValueTwice | QuickStoreKit/QuickStore.swift:79-87 | reading a key twice returns the same as reading it once and leaves the same files |
| QuickStore.GlobalConfig.AddFilterKey | QuickStoreKit/QuickStore.swift:131-136 | the encoded class name joins the filter keys, and nothing else changes |
| QuickStore.GlobalConfig.StoreFor | QuickStoreKit/QuickStore.swift:36-43 | a registered store is returned as it is; otherwise a new store with the class name as `id` is created and registered; the registry changes at that one key only |
| QuickStore.TargetSet | QuickStoreKit/QuickStore.swift:36-67 | the files become the encrypted serialisation written under `<className>.<key>` in the class's store; the class's directory joins `dirs` and the value's path joins `filePaths`; the class's store is registered (a registered store kept, no other class's entry touched) and has resolved its root; `cachPaths` gains the chosen URL on the store's first use only |
| QuickStore.TargetData | QuickStoreKit/QuickStore.swift:36-89 | the result is the stored bytes decrypted under the prefixed key, after any legacy migration, and the files are what that read leaves; the value's path joins `filePaths` exactly when data was found; the class's store is registered (a registered store kept, no other class's entry touched) and has resolved its root; `cachPaths` gains the chosen URL on the store's first use only |
| QuickStore.TargetValue | QuickStoreKit/QuickStore.swift:36-101 | the result is the first element of the stored array, or nil, and the files are what the read leaves; the value's path joins `filePaths` exactly when data was found; the class's store is registered (a registered store kept, no other class's entry touched) and has resolved its root; `cachPaths` gains the chosen URL on the store's first use only |
| QuickStore.RegistersTwice | QuickStoreKit/QuickStore.swift:36-43 | using the class's store a second time registers nothing new: the registry is the one after the first use |
| QuickStore.PathsAfterLookupProperties | QuickStoreKit/FileStore.swift:84-106 | a lookup registers the key's path exactly when `cach` is on and the encoded or the legacy file exists, and a second lookup registers nothing new |
| QuickStore.LookupTwice | QuickStoreKit/QuickStore.swift:209-228 | `getCach` twice returns the same as once; with `cach` off it finds nothing and changes nothing |
| QuickStore.Getter | QuickStoreKit/QuickStore.swift:172-279 | each wrapper's `wrappedValue` getter, given the bytes `getCach` finds: the value returned and the new `current`; `MemoryHit`, `Hydrates`, `StoreWins`, `EnumIgnoresStore` and `GetterStable` state its properties |
| QuickStore.MemoryHit | QuickStoreKit/QuickStore.swift:177-186 | with `useMemeryCach` and a non-nil `current`, every getter returns `current` |
| QuickStore.Hydrates | QuickStoreKit/QuickStore.swift:182-185 | a nil `current` is filled from the store and kept |
| QuickStore.StoreWins | QuickStoreKit/QuickStore.swift:178-181 | without `useMemeryCach`, the plain and `Codable` getters return what the store holds and leave `current` |
| QuickStore.EnumIgnoresStore | QuickStoreKit/QuickStore.swift:243-246 | without `useMemeryCach`, the enum getter returns `current` although a raw value is stored, where the converting getter returns the decoded value |
| QuickStore.GetterStable | QuickStoreKit/QuickStore.swift:172-187 | asking again, with the store unchanged, gives the same value and the same `current` |
| QuickStore.InitialCurrent | QuickStoreKit/QuickStore.swift:141 | after construction `current` is the stored value if one is found, otherwise the default; as written, the enum wrapper without `useMemeryCach` always takes the default |
| QuickStore.SetThenGet | QuickStoreKit/QuickStore.swift:172-187 | set-then-get returns the value set, and so does a fresh wrapper except the as-written enum getter without `useMemeryCach` |
| QuickStore.SetThenGetEnumFixed | QuickStoreKit/QuickStore.swift:241-252 | the repaired enum getter reads a stored value into a fresh wrapper |
| QuickStore.SetNilThenGet | QuickStoreKit/QuickStore.swift:172-187 | after setting nil, a fresh getter finds nothing, when no legacy file exists |
| QuickStore.QuickStore.constructor | QuickStoreKit/QuickStore.swift:125-145 | an excluded class's encoded name joins the filter keys; `current` is the getter's value or the default; nothing is written; `filePaths`, the registry and `cachPaths` change as one `getCach` of the key changes them, and not at all with `cach` off |
| QuickStore.QuickStore.Load | QuickStoreKit/QuickStore.swift:141 | `current` becomes the getter's value, or the default when that is nil; on a memory hit `filePaths`, the registry and `cachPaths` are unchanged; otherwise they change as one `getCach` changes them |
| QuickStore.QuickStore.GetCach | QuickStoreKit/QuickStore.swift:209-228 | the result is `Target.value` of `rawValue + otherKey` when `cach` is on, nil otherwise; the key's path joins `filePaths` exactly when data was found; with `cach` on the class's store is registered and resolved, with it off the registry and `cachPaths` are unchanged; a second lookup would register nothing new |
| QuickStore.QuickStore.SetCach | QuickStoreKit/QuickStore.swift:194-207 | with `cach` on the files become `Target.set` of `rawValue + otherKey`, the class's directory joins `dirs`, the value's path joins `filePaths`, the class's store is registered and resolved, and `cachPaths` gains the chosen URL on the store's first use only; with `cach` off no file, directory, path or registry entry changes |
| QuickStore.QuickStore.Get | QuickStoreKit/QuickStore.swift:172-187 | result and new `current` are `Getter`'s for the wrapper's format; on a memory hit `filePaths`, the registry and `cachPaths` are unchanged; otherwise they change as one `getCach` changes them |
| QuickStore.QuickStore.GetPlain | QuickStoreKit/QuickStore.swift:177-187 | the plain getter: store first without `useMemeryCach`, hydrate a nil `current`; on a memory hit `filePaths`, the registry and `cachPaths` are unchanged; otherwise they change as one `getCach` changes them |
| QuickStore.QuickStore.GetPlainStoreFirst | QuickStoreKit/QuickStore.swift:178-186 | without `useMemeryCach`: value and new `current` are the plain `Getter`'s over one `getCach` of the key, and the registries change as that lookup changes them |
| QuickStore.QuickStore.GetPlainMemoryFirst | QuickStoreKit/QuickStore.swift:177-186 | with `useMemeryCach`: a non-nil `current` is returned with no file, path or registry change; a nil one is filled by one `getCach`, with the registries changed as it changes them |
| QuickStore.QuickStore.GetEnum | QuickStoreKit/QuickStore.swift:241-252 | the enum getter as written, returning `current` when a raw value is stored without `useMemeryCach`; on a memory hit `filePaths`, the registry and `cachPaths` are unchanged; otherwise they change as one `getCach` changes them |
| QuickStore.QuickStore.GetEnumStoreFirst | QuickStoreKit/QuickStore.swift:241-252 | without `useMemeryCach`: value and new `current` are the as-written enum `Getter`'s over one `getCach`, and the registries change as that lookup changes them |
| QuickStore.QuickStore.GetEnumMemoryFirst | QuickStoreKit/QuickStore.swift:241-252 | with `useMemeryCach`: a non-nil `current` is returned with no file, path or registry change; a nil one is filled from the decoded raw value of one `getCach` |
| QuickStore.QuickStore.GetCodable | QuickStoreKit/QuickStore.swift:268-279 | the `Codable` getter: a stored model is decoded and returned without touching `current` when `useMemeryCach` is off; on a memory hit `filePaths`, the registry and `cachPaths` are unchanged; otherwise they change as one `getCach` changes them |
| QuickStore.QuickStore.GetCodableStoreFirst | QuickStoreKit/QuickStore.swift:268-279 | without `useMemeryCach`: a stored model is decoded and returned with `current` kept, as the `Codable` `Getter` states; the registries change as one `getCach` changes them |
| QuickStore.QuickStore.GetCodableMemoryFirst | QuickStoreKit/QuickStore.swift:268-279 | with `useMemeryCach`: a non-nil `current` is returned with no file, path or registry change; a nil one is filled from the decoded model of one `getCach` |
| QuickStore.QuickStore.Put | QuickStoreKit/QuickStore.swift:172-176 | `current` takes the new value; with `cach` on the files become `Target.set` of `rawValue + otherKey`, the class's directory joins `dirs`, the value's path joins `filePaths`, the class's store is registered and resolved, and `cachPaths` gains the chosen URL on the store's first use only; with `cach` off no file, directory, path or registry entry changes, the file holding the format's encoding of the value, or gone for nil |
| QuickStore.QuickStore.SetOtherKey | QuickStoreKit/QuickStore.swift:117-121 | `otherKey` changes and `current` is reloaded from the new key; `filePaths`, the registry and `cachPaths` change as one `getCach` of the new key changes them |
| CacheScan.ScanEntry | QuickStoreKit/StoreCache.swift:61-94 | `exploreFolder` on one entry: a folder is scanned through its listing, anything else scans as empty; `ScanEntrySound` states what the scan means for the tree |
| CacheScan.ScanChildren | QuickStoreKit/StoreCache.swift:66-93 | the loop state after the first `n` listed names: hidden names skipped, folders recursed, files of known size added and handled; `ScanChildrenComplete` and `ScanEntryConsistent` state its properties |
| CacheScan.Explore | QuickStoreKit/StoreCache.swift:61-94 | `exploreFolder(atPath:handleInfo:)` on the tree: the folder's attribute and the handled files in order; `ExploreSound`, `ExploreFiles` and `ExploreComplete` state its properties |
| CacheScan.ScanEntrySound | QuickStoreKit/StoreCache.swift:61-94 | the sizes add up over the handled files and over the direct children; and, when no folder lists a name twice, the handled files are exactly the visible files of known size below the folder, each at its own path and handled exactly once |
| CacheScan.ScanEntryConsistent | QuickStoreKit/StoreCache.swift:61-94 | a folder's size is the sum of the sizes of the files handed to `handleInfo`, and of its direct children; each such file is a leaf reached through visible names only |
| CacheScan.ScanEntryFiles | QuickStoreKit/StoreCache.swift:66-89 | in a tree whose folders list each name once, every handled file is the file of known size found at its path, under its own name |
| CacheScan.ScanEntryComplete | QuickStoreKit/StoreCache.swift:66-89 | in such a tree, every file of known size reached through visible names is handed to `handleInfo` exactly once |
| CacheScan.ScanChildrenComplete | QuickStoreKit/StoreCache.swift:67-89 | after the first `n` entries of the listing, such a file has been handled once if the entry it lies in is among them, and not at all otherwise |
| CacheScan.ExploreSound | QuickStoreKit/StoreCache.swift:61-94 | `exploreFolder`'s attribute keeps the path and its size equals the sum over the handled files and over its children; in a tree whose folders list each name once, the handled files are exactly the visible files of known size below the path, in both directions, each handled exactly once |
| CacheScan.ExploreFiles | QuickStoreKit/StoreCache.swift:61-94 | in such a tree each handled file lies visibly below the path, is a leaf, and is the file of known size at its own path |
| CacheScan.ExploreComplete | QuickStoreKit/StoreCache.swift:61-94 | in such a tree each visible file of known size below the path occurs exactly once among the handled files |
| CacheScan.ScanFolder | QuickStoreKit/StoreCache.swift:66-93 | the loop over a folder's listing computes `ScanEntry`: hidden names skipped, sub-folders recursed, files of unknown size ignored |
| CacheScan.ExploreFolder | QuickStoreKit/StoreCache.swift:61-94 | the attribute and handled files are `Explore`'s; a path that is not a folder has size 0 |
| CacheScan.FilterMaxSize | QuickStoreKit/StoreCache.swift:107-116 | pruning keeps the root's path and size |
| CacheScan.FilterMaxSizeAbove | QuickStoreKit/StoreCache.swift:107-116 | every descendant of the pruned tree is larger than the bound |
| CacheScan.FilterMaxSizeFixpoint | QuickStoreKit/StoreCache.swift:107-116 | a tree all of whose descendants exceed the bound is unchanged by pruning |
| CacheScan.FilterMaxSizeIdempotent | QuickStoreKit/StoreCache.swift:107-116 | pruning twice is pruning once |
| CacheScan.FilterMaxSizeOrder | QuickStoreKit/StoreCache.swift:109-111 | the kept children stay in their original relative order |
| CacheScan.FilterMaxSizeKeeps | QuickStoreKit/StoreCache.swift:107-116 | every child larger than the bound is kept, pruned in turn, and every kept child is the pruning of one larger than the bound |
| CacheScan.WithoutKey | QuickStoreKit/StoreCache.swift:200-207 | after dropping a key no element has it |
| CacheScan.WithoutKeyMembers | QuickStoreKit/StoreCache.swift:200-207 | dropping a key keeps exactly the elements with other keys |
| CacheScan.DedupKey | QuickStoreKit/StoreCache.swift:201-203 | the dictionary key of a file: its parent's name, `/`, its own name; `DedupUnique` and `DedupKeepsNewest` are stated over it |
| CacheScan.Admit | QuickStoreKit/StoreCache.swift:197-207 | one `handleInfo` call: the new file appended and any older file with its key dropped; `DedupKeepsNewest` states the effect |
| CacheScan.Dedup | QuickStoreKit/StoreCache.swift:196-208 | the list after every `handleInfo` call in turn; `DedupProperties` states its properties |
| CacheScan.DedupUnique | QuickStoreKit/StoreCache.swift:197-208 | after the `handleInfo` calls no two files share a `parent/name` key |
| CacheScan.DedupFromInput | QuickStoreKit/StoreCache.swift:197-208 | every de-duplicated file was handled |
| CacheScan.DedupKeepsNewest | QuickStoreKit/StoreCache.swift:205-207 | the newest handled file with each key is the one kept |
| CacheScan.DedupProperties | QuickStoreKit/StoreCache.swift:197-208 | keys unique, files from the input, newest kept |
| CacheScan.HandleInfos | QuickStoreKit/StoreCache.swift:197-208 | the closure run on each handled file in turn gives the de-duplicated list |
| CacheScan.InsertBySize | QuickStoreKit/StoreCache.swift:209-211 | inserting into a sorted list keeps it sorted and adds exactly the one element |
| CacheScan.SortBySize | QuickStoreKit/StoreCache.swift:209-211 | the result is ascending by size and a permutation of the input |
| CacheScan.SortKeepsUniqueKeys | QuickStoreKit/StoreCache.swift:209-211 | sorting keeps the keys pairwise distinct |
| CacheScan.Last | QuickStoreKit/StoreCache.swift:212-214 | `reversed()[0 ..< n].reversed()` is the suffix of length at most `n` |
| CacheScan.LastOfSorted | QuickStoreKit/StoreCache.swift:212-214 | the last `n` of a sorted list are sorted, come from it, and are no smaller than every element dropped |
| CacheScan.SuffixProperties | QuickStoreKit/StoreCache.swift:209-214 | the kept suffix is also unique in its keys |
| CacheScan.TopFiles | QuickStoreKit/StoreCache.swift:195-216 | the files returned: the de-duplicated list sorted by size, its last `maxFileCount` kept; `TopFilesProperties` states its properties |
| CacheScan.TopFilesProperties | QuickStoreKit/StoreCache.swift:195-216 | at most `maxFileCount` files, ascending, distinct keys, all handled; every dropped file is no larger than every kept one |
| CacheScan.GetFolderSizeAndMaxSubFiles | QuickStoreKit/StoreCache.swift:195-216 | returns the folder's attribute and the top files of its scan |
| DiskTree.RemoveAt | QuickStoreKit/StoreCache.swift:225 | `removeItem(atPath:)` on the tree: the item and everything under it gone, a missing path a no-op, and the root keeps its name and kind; `RemovedIsGone`, `StaysGone`, `RemoveChildOf` and `RemoveElsewhere` state its properties |
| DiskTree.RemovedIsGone | QuickStoreKit/StoreCache.swift:225 | after `removeItem` nothing is found at the path |
| DiskTree.StaysGone | QuickStoreKit/StoreCache.swift:222-238 | a later removal never brings back anything at a path already empty |
| DiskTree.RemoveChildOf | QuickStoreKit/StoreCache.swift:273 | removing a direct child leaves the folder with its other children, in order |
| DiskTree.FindChildDistinct | QuickStoreKit/StoreCache.swift:66-68 | in a listing without repeated names, a child's name finds that child |
| DiskTree.LookupAppend | QuickStoreKit/StoreCache.swift:68 | following a path and then more components is following the longer path |
| DiskTree.LookupPrefix | QuickStoreKit/StoreCache.swift:68 | an item found at a path has something at each prefix of the path |
| DiskTree.LookupWellFormed | QuickStoreKit/StoreCache.swift:66 | what lies at a path of a tree without repeated names likewise has no repeated names |
| DiskTree.RemoveElsewhere | QuickStoreKit/StoreCache.swift:225 | `removeItem` at a path that is not a prefix of a file's path leaves that file as it was |
| StoreCache.WithInfo | QuickStoreKit/StoreCache.swift:121-127 | `customCachePath` after `setInfo`: the entry appended when none has its path, nil left nil; `SetInfoProperties` states its properties |
| StoreCache.SetInfoProperties | QuickStoreKit/StoreCache.swift:121-127 | `setInfo` is idempotent, grows the list by at most one, keeps the existing entries, leaves nil as nil, and afterwards an entry has the path |
| StoreCache.StoreCache.SetInfo | QuickStoreKit/StoreCache.swift:121-127 | `customCachePath` becomes `WithInfo` of its old value |
| StoreCache.LogStep | QuickStoreKit/StoreCache.swift:131-147 | whether `getLog` reports, and the new clear and last levels; `LogQuietBelowThreshold`, `LogNeedsTenMiB`, `LogHysteresis`, `LogScenario` and `LogForcedCopiesStaleLevel` state its properties |
| StoreCache.LogQuietBelowThreshold | QuickStoreKit/StoreCache.swift:136-146 | a non-forced call at or below 100 MiB reports nothing and changes neither level |
| StoreCache.LogNeedsTenMiB | QuickStoreKit/StoreCache.swift:146 | any report needs more than 10 MiB |
| StoreCache.LogHysteresis | QuickStoreKit/StoreCache.swift:137-147 | after a non-forced report both levels are the current MiB, and a repeat at the same size reports nothing |
| StoreCache.LogScenario | QuickStoreKit/StoreCache.swift:137-147 | from levels 0, the sizes 50, 105, 150 and 260 MiB give nothing, a report, nothing, a report |
| StoreCache.LogForcedCopiesStaleLevel | QuickStoreKit/StoreCache.swift:147 | a forced report copies the clear level, however stale, into the last level |
| StoreCache.ReportOf | QuickStoreKit/StoreCache.swift:149-159 | `isClear` is `"1"` exactly when forced and `"0"` otherwise; the files are the recorded list reversed, so the largest comes first |
| StoreCache.StoreCache.GetLog | QuickStoreKit/StoreCache.swift:131-163 | the levels become `LogStep`'s, and the report is returned exactly when `LogStep` emits |
| StoreCache.SurveyOf | QuickStoreKit/StoreCache.swift:167-179 | the loop of `check` over the watched directories: the collected top files, the large pruned directories and the total size; `SurveyStep`, `SurveySize`, `SurveyDirs` and `SurveyFilesHandled` state its properties |
| StoreCache.RecordedFiles | QuickStoreKit/StoreCache.swift:180-185 | the collected files sorted by size with the last 10 kept; `CheckFilesProperties` and `RecordedFilesInTree` state its properties |
| StoreCache.RecordedDirs | QuickStoreKit/StoreCache.swift:188-190 | the collected directories sorted by size; `CheckDirsProperties` states its properties |
| StoreCache.SurveyStep | QuickStoreKit/StoreCache.swift:171-179 | one more watched directory extends the survey by its scan |
| StoreCache.SurveySize | QuickStoreKit/StoreCache.swift:170-179 | the total is the sum of the sizes of every visible file scanned |
| StoreCache.SurveyDirs | QuickStoreKit/StoreCache.swift:175-178 | every reported directory is above 100 MiB, and so is everything left inside it |
| StoreCache.SurveyFilesHandled | QuickStoreKit/StoreCache.swift:172-173 | every collected file was handed to `handleInfo` by one of the scans |
| StoreCache.CheckFilesProperties | QuickStoreKit/StoreCache.swift:180-185 | the recorded files are at most 10, ascending, each one scanned |
| StoreCache.CheckDirsProperties | QuickStoreKit/StoreCache.swift:188-190 | the recorded directories are ascending, each above 100 MiB through and through |
| StoreCache.AllHandledInTree | QuickStoreKit/StoreCache.swift:167-173 | in a tree without repeated names, every file the scans of `check` hand to `handleInfo` is the file of that size at its own path |
| StoreCache.RecordedFilesInTree | QuickStoreKit/StoreCache.swift:165-190 | in such a tree, every file `check` records is the file of that size at its own path |
| StoreCache.ScanAll | QuickStoreKit/StoreCache.swift:167-179 | the loop over custom plus default directories computes `SurveyOf` |
| StoreCache.StoreCache.Check | QuickStoreKit/StoreCache.swift:165-193 | size, files and directories become the survey's total, top 10 and sorted directories |
| StoreCache.ContainsAnyIff | QuickStoreKit/StoreCache.swift:228-233 | the filter test holds exactly when some key occurs in the path |
| StoreCache.AnyContained | QuickStoreKit/StoreCache.swift:228-233 | the loop with `break` computes the filter test |
| StoreCache.ShouldRemove | QuickStoreKit/StoreCache.swift:224-234 | `clearAll`'s test for one recorded file: above 50 MiB, or no filter key in its path; `DoomedProperties` states what it removes and spares |
| StoreCache.Doomed | QuickStoreKit/StoreCache.swift:222-238 | the paths the loop removes, last recorded file first; `DoomedProperties` states its properties |
| StoreCache.RemoveAll | QuickStoreKit/StoreCache.swift:222-238 | the tree after removing the paths one after the other; `RemoveAllGone` and `RemoveAllElsewhere` state its properties |
| StoreCache.DoomedProperties | QuickStoreKit/StoreCache.swift:222-238 | a recorded file above 50 MiB is always removed; a removed path belongs to a file above 50 MiB or matching no filter key |
| StoreCache.RemoveAllGone | QuickStoreKit/StoreCache.swift:222-238 | after the loop nothing is left at any removed path |
| StoreCache.RemoveAllElsewhere | QuickStoreKit/StoreCache.swift:222-238 | a file none of whose prefixes is removed is left as it was by the whole loop |
| StoreCache.FileNotPrefix | QuickStoreKit/StoreCache.swift:225 | a file's path is a prefix of no other path that finds an item |
| StoreCache.DoomedSpares | QuickStoreKit/StoreCache.swift:222-238 | the removals spare a file that no path accepted for removal leads to |
| StoreCache.DropSparesFiltered | QuickStoreKit/StoreCache.swift:222-238 | a recorded file of at most 50 MiB whose path contains a filter key is still in the tree after the loop, when every recorded file is the file of its size at its own path; records may repeat a path |
| StoreCache.CheckThenDropSpares | QuickStoreKit/StoreCache.swift:165-238 | on a tree without repeated names, a file that `check` records, of at most 50 MiB and with a filter key in its path, is still at its path after the removal loop |
| StoreCache.StoreCache.DropFileInfos | QuickStoreKit/StoreCache.swift:222-238 | `fileInfos` ends empty (nil stays nil), and the disk loses exactly the doomed paths, last recorded first |
| StoreCache.Gone | QuickStoreKit/StoreCache.swift:264-271 | a name is deleted exactly when it is listed and no filter occurs in it |
| StoreCache.Cleared | QuickStoreKit/StoreCache.swift:259-279 | `clear` after the first names of the listing: each name in which no filter occurs removed; `ClearedFolder` and `ClearKeepsMatching` state its properties |
| StoreCache.ClearedFolder | QuickStoreKit/StoreCache.swift:259-279 | clearing some listed names leaves the folder without exactly those it deletes |
| StoreCache.ClearKeepsMatching | QuickStoreKit/StoreCache.swift:259-279 | `clear` keeps exactly the direct children in which some filter occurs |
| StoreCache.StoreCache.Clear | QuickStoreKit/StoreCache.swift:259-279 | the disk becomes `Cleared` over the folder's listing |
| StoreCache.SweepOne | QuickStoreKit/StoreCache.swift:243-253 | one watched directory in `clearAll`: left alone when `checkSize` holds and it is under its limit, otherwise cleared with its own and the global filter keys; `SweepOneEffect` states its effect |
| StoreCache.Sweep | QuickStoreKit/StoreCache.swift:242-254 | the loop over the custom cache directories, one `SweepOne` after another; `StoreCache.SweepDirs` is proved against it |
| StoreCache.SweepOneEffect | QuickStoreKit/StoreCache.swift:242-254 | with `checkSize` and a directory under its limit nothing changes; otherwise only the children its own or the global keys protect are kept |
| StoreCache.StoreCache.SweepDirs | QuickStoreKit/StoreCache.swift:242-254 | the disk becomes `Sweep` over the custom cache directories |
| StoreCache.StoreCache.ClearAll | QuickStoreKit/StoreCache.swift:218-257 | both levels become 0, the disk loses the doomed files and is swept, then `check` records the new survey |
| StoreCache.StoreCache.constructor | QuickStoreKit/StoreCache.swift:25-35 | each persisted property starts from the value the store holds for it, and from its default when it holds none: the caches and temporary directories watched with the default limit, empty lists and zeros |

## Left out

- Concurrency is not modelled. Every `DispatchQueue` block, sync or async, runs at once in program order. This covers `queue.handle`, `Thread.isMainThread`, `Safe`, `SafeProperty` and `SafeQueueHandle`. The filter-key registration that `init` sends to the main queue happens inside the constructor.
- Real file I/O is replaced. `FileStore` works on a map from path text to bytes, and `StoreCache` on a `DiskTree.Entry` tree. Every write and removal succeeds. Directory creation records the directory in a set.
- Platform lookups are replaced by fields of `Environment` and parameters: the bundle id, the documents directory, the app-group container, and the caches and temporary directories.
- General JSON and `Codable` are abstract. `JSONSerialization` is a `Codec` pair, and the `Codable` encoder and decoder are functions in `Format`. Only the `[UInt8]` JSON text inside `encodeKey` is concrete.
- QuickStore.Reloaded: the reload in `otherKey`'s `didSet` reads the store as `Value`. For the enum and `Codable` wrappers this is taken to find nothing, because `JSONSerialization` yields neither an enum case nor a model.
- The `T.self == Data.self` test in `value(_:type:)` becomes two members. `TargetData` is the `Data` case and `TargetValue` is the other case.
- The `encrypt:` parameter of `value` is unused in the source, so it is absent here.
- `cachValue` and `update()` (QuickStoreKit/QuickStore.swift:190-192, 230-232, 257-260) are not separate members. They are `GetCach` and the reload that `SetOtherKey` performs.
- `GlobalConfig.storeType` and `cryptType` are fixed to `FileStore` and a cipher chosen per `Target`. The protocol defaults (no app group, `SimpleCrypt`) are values of `Target`, not rules.
- `FilterKeys` is modelled as the set `filterKeys` of `GlobalConfig`, not as a persisted `@QuickStore` dictionary. `clearAll` receives its keys as a parameter.
- QuickStore.GlobalConfig.AddFilterKey: always inserts. In the source, the `?` in `FilterKeys.filterKey?[key] = 0` skips the insertion when the dictionary is nil, and this model has no nil dictionary.
- KeyEncoder.EncodeKey: the `?? key` fallback is not modelled, because UTF-8 conversion and `[UInt8]` encoding cannot fail. `key.count` is taken as the number of Unicode scalars, which is Swift's grapheme count on ASCII.
- QuickStoreCrypt.EncryptShift: `key.count` is taken as the number of Unicode scalars. That equals Swift's grapheme count only on ASCII keys, so the shift of a key with combining characters may differ.
- QuickStoreCrypt.DecryptShift: `key.count` is taken as the number of Unicode scalars, as in `EncryptShift`.
- QuickStore.QuickStore.Put: a plain wrapper whose `Value` is `Data` hands the bytes to `set` unwrapped (`Bytes`). The model routes every wrapper value through `Item` and the format's `Codec`, so that case is covered only as far as a codec can stand for it.
- QuickStore.QuickStore.GetPlain: likewise, a plain wrapper whose `Value` is `Data` reads the bytes as they are (`TargetData`). The model always decodes them through the format's `Codec`.
- QuickStore.QuickStore.constructor: `syncQueue` and `isInit` are stored before the initial load. They only choose how the queue is used, and queues are not modelled.
- CacheScan.ExploreSound: the statements about which files are handled assume that no folder lists a name twice (`DiskTree.WellFormed`), as a file system guarantees.
- StoreCache.DropSparesFiltered: assumes every recorded file is still the file of its size at its path. `CheckThenDropSpares` covers a disk unchanged since `check`; a disk that changes between `check` and `clearAll` is not tracked.
- KeyEncoder.EncodeKeyInjective: stated for ASCII keys only. On other keys a segment's character count and byte count differ.
- FileStore.SharedGroupComponents: requires a group name without `.`. Otherwise the identifier has more components than the statement counts.
- CacheScan.Admit: `Dictionary(_:uniquingKeysWith:)` has no defined order. The model rebuilds the list with the new file last. The order only matters for files of equal size after the sort.
- CacheScan.SortBySize: Swift's `sort` is modelled as a stable insertion sort. The source does not promise an order for files of equal size.
- Text.Contains: an empty filter key is taken to occur in every path.
- `Int64` sizes and `Int` levels are unbounded, so overflow is not modelled.
- `getLog` dictionary details are not modelled: the key names, the JSON text of the directories, and the `String` conversions. `Report` keeps only their contents.
- In `clearAll`, the total `allSize` and the rescan after clearing only feed that unused total, so neither is modelled. The `complete` callbacks are left out too.
- Logging with `print` on a failed removal or size read is left out. A file whose size cannot be read is `File(name, None)`.

## Findings

The classes model the code as written, since the quirks below are part of its observable behaviour. The corrected members are stated beside them, and the lemmas about them show what the evident intent achieves.

| source | as written | input that shows it | evidently intended | confidence | as-written member | corrected member |
|---|---|---|---|---|---|---|
| QuickStoreKit/QuickStoreCrypt.swift:26 | `decrypt` base64-encodes its input again instead of decoding it | any key and `v = [0]`: `decrypt(k, encrypt(k, v))` has 8 bytes | base64-decode, then shift back | not executed | QuickStoreCrypt.DecryptNeverInverts | QuickStoreCrypt.FixedRoundTrip |
| QuickStoreKit/QuickStoreCrypt.swift:20 | the shift is taken modulo 255, so bytes 0 and 255 meet | key `""`, values `[0]` and `[255]` encrypt alike | shift modulo 256, a bijection on bytes | not executed | QuickStoreCrypt.EncryptCollapses | QuickStoreCrypt.ShiftDownUp |
| QuickStoreKit/QuickStore.swift:84 | `value` decrypts under `<className>.<key>`, while `set` (line 62) encrypts under `<key>` | class `A`, key `k`, value `[0]`, repaired cipher: the shifts differ by 2, so the byte comes back as 254 | decrypt under the key used to encrypt | not executed | QuickStore.KeyMismatchBreaksFixedCipher | QuickStore.SetThenValueFixed |
| QuickStoreKit/QuickStore.swift:245 | the enum getter returns `current` when a raw value is stored and `useMemeryCach` is off | a fresh wrapper (`current` nil), `useMemeryCach` off, a stored raw value: the getter returns nil | return the decoded value, as the `Codable` getter does | not executed | QuickStore.EnumIgnoresStore | QuickStore.SetThenGetEnumFixed |
