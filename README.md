# Offline-map storage helpers

A Dafny model of the offline-map storage helpers of the data-collection app
(`data-collection/data-collection/AppFiles.swift`). The app stages an offline
map under the platform temporary directory while it downloads, at
`<tmp>/data_collection/offlineMap/<itemID>`, and keeps it under the user
documents directory once downloaded, at
`<Documents>/data_collection/offlineMap/<itemID>`. Three `FileManager`
extensions manage these directories:

- `prepareTemporaryOfflineMapDirectory` creates the staging location with its
  intermediate directories, then removes the leaf again;
- `prepareOfflineMapDirectory` creates the persisted location with its
  intermediate directories;
- `deleteContentsOfOfflineMapDirectory` removes the persisted location and
  everything in it.

Files:

- `Wrappers.dfy`: `Option`, where `None` stands for a thrown error.
- `FileSystem.dfy`: the platform. A path is a `seq<string>` of components.
  The filesystem is the set of existing directories. `Created` and `Removed`
  give `createDirectory(withIntermediateDirectories: true)` and `removeItem`
  their meaning; these are the axioms of the model. The class `FileManager`
  holds the directory set and offers the two calls as methods. The two
  platform roots are constants inside one sandbox container, and neither is
  a prefix of the other. The invariant `IsTree` says every ancestor of an
  existing directory exists. It is `FileManager.Valid()`: it limits the
  start states to ones a real filesystem can be in, and every operation
  keeps it. None of the net-effect lemmas needs it; they hold for any
  directory set.
- `AppFiles.dfy`: the two `String` constants `DataCollection` and
  `OfflineMap` (`"data_collection"`, `"offlineMap"`), the predicate
  `IsItemID` for item IDs that name one child directory, the two URL builders, the
  three extensions, and the lemmas. Each extension becomes a method that
  takes the `FileManager` and the item ID as parameters. Each method is tied
  to a pure effect function (`PrepareTemporaryEffect`, `PrepareOfflineEffect`,
  `DeleteContentsEffect`) over the directory set, and the lemmas state what
  those effects do.

Both URL builders are functions, so the same item ID always gives the same path.

## Model

| member | source | states |
|---|---|---|
| `FileSystem.AppendingPathComponent` | data-collection/data-collection/AppFiles.swift:51-53 | appending a component gives a path one longer, that has the old path as a proper prefix and ends in the component |
| `FileSystem.RootsSeparated` | data-collection/data-collection/AppFiles.swift:50-63 | the temporary root and the documents root are not prefixes of each other |
| `FileSystem.UnderBothRootsImpossible` | data-collection/data-collection/AppFiles.swift:49-67 | no path lies at or below both the temporary root and the documents root |
| `FileSystem.Ancestry` | data-collection/data-collection/AppFiles.swift:25 | the directories created with intermediates are exactly the prefixes of the target, from the root down to the target |
| `FileSystem.Created` | data-collection/data-collection/AppFiles.swift:25 | after `createDirectory(withIntermediateDirectories: true)` a path exists iff it existed before or is a prefix of the target; it never fails, also when the target already exists |
| `FileSystem.Removed` | data-collection/data-collection/AppFiles.swift:26 | `removeItem` fails iff the target is absent; on success a path exists iff it existed and does not have the target as a prefix |
| `FileSystem.CreatedKeepsTree` | data-collection/data-collection/AppFiles.swift:25 | creating with intermediates keeps the directory set prefix-closed |
| `FileSystem.RemovedKeepsTree` | data-collection/data-collection/AppFiles.swift:26 | removing an existing item keeps the directory set prefix-closed |
| `FileSystem.CreateThenRemove` | data-collection/data-collection/AppFiles.swift:25-26 | create-then-remove of one path always succeeds; afterwards its proper ancestors exist, it and its subtree do not, and every other path is unchanged |
| `FileSystem.CreateThenRemoveIdempotent` | data-collection/data-collection/AppFiles.swift:25-26 | a second create-then-remove succeeds and leaves the same directory set |
| `FileSystem.FileManager.constructor` | data-collection/data-collection/AppFiles.swift:19 | a filesystem starts from any prefix-closed directory set |
| `FileSystem.FileManager.CreateDirectory` | data-collection/data-collection/AppFiles.swift:25 | the new directory set is `Created` of the old one, and it stays prefix-closed |
| `FileSystem.FileManager.RemoveItem` | data-collection/data-collection/AppFiles.swift:26 | reports failure iff the target was absent; the new directory set is `Removed` of the old one, unchanged on failure, and it stays prefix-closed |
| `AppFiles.TemporaryOfflineMapDirectoryURL` | data-collection/data-collection/AppFiles.swift:49-54 | the staging path is the temporary root followed by `data_collection`, `offlineMap` and the item ID |
| `AppFiles.OfflineMapDirectoryURL` | data-collection/data-collection/AppFiles.swift:62-67 | the persisted path is the documents root followed by `data_collection`, `offlineMap` and the item ID |
| `AppFiles.OfflineMapURLsShareSuffix` | data-collection/data-collection/AppFiles.swift:49-72 | both paths for one item ID end in `data_collection`, `offlineMap`, item ID |
| `AppFiles.OfflineMapURLsSeparated` | data-collection/data-collection/AppFiles.swift:49-67 | for any two item IDs the staging path and the persisted path differ, and no path lies at or below both |
| `AppFiles.OfflineMapURLsInjective` | data-collection/data-collection/AppFiles.swift:49-67 | distinct item IDs give distinct staging paths and distinct persisted paths |
| `AppFiles.PrepareTemporaryEffect` | data-collection/data-collection/AppFiles.swift:23-27 | the effect of `prepareTemporaryOfflineMapDirectory` on the directory set: it never throws, and the staging path is absent afterwards |
| `AppFiles.PrepareOfflineEffect` | data-collection/data-collection/AppFiles.swift:30-33 | the effect of `prepareOfflineMapDirectory` on the directory set: nothing is removed and the persisted path exists afterwards |
| `AppFiles.DeleteContentsEffect` | data-collection/data-collection/AppFiles.swift:35-38 | the effect of `deleteContentsOfOfflineMapDirectory` on the directory set: it throws iff the persisted path is absent; otherwise nothing is added and the persisted path is gone |
| `AppFiles.PrepareTemporaryNetEffect` | data-collection/data-collection/AppFiles.swift:23-27 | preparing the staging area always succeeds; afterwards every proper ancestor of the staging path exists, the path and its subtree do not, and every other directory is unchanged |
| `AppFiles.PrepareTemporaryIdempotent` | data-collection/data-collection/AppFiles.swift:23-27 | preparing the staging area twice in a row succeeds both times and leaves the same directory set |
| `AppFiles.PrepareOfflineNetEffect` | data-collection/data-collection/AppFiles.swift:30-33 | after preparing, the persisted path and all its ancestors exist, nothing is removed, and every added directory is a prefix of the persisted path |
| `AppFiles.DeleteContentsNetEffect` | data-collection/data-collection/AppFiles.swift:35-38 | deleting fails iff the persisted path is absent; on success a path exists iff it existed before and does not lie at or below the persisted path, so the path and everything beneath it are gone and nothing else changes |
| `AppFiles.PrepareDeleteDelete` | data-collection/data-collection/AppFiles.swift:30-38 | prepare then delete succeeds, and a second delete fails |
| `AppFiles.TemporaryKeepsDocuments` | data-collection/data-collection/AppFiles.swift:23-27 | preparing the staging area leaves every path under the documents root as it was |
| `AppFiles.OfflineKeepsTemporary` | data-collection/data-collection/AppFiles.swift:30-38 | preparing or deleting the persisted location leaves every path under the temporary root as it was |
| `AppFiles.PrepareTemporaryOfflineMapDirectory` | data-collection/data-collection/AppFiles.swift:23-27 | creates the staging path with intermediates, then removes it; always succeeds, and the new directory set is `PrepareTemporaryEffect` of the old one |
| `AppFiles.PrepareOfflineMapDirectory` | data-collection/data-collection/AppFiles.swift:30-33 | creates the persisted path with intermediates; the new directory set is `PrepareOfflineEffect` of the old one |
| `AppFiles.DeleteContentsOfOfflineMapDirectory` | data-collection/data-collection/AppFiles.swift:35-38 | fails iff the persisted path is absent; the new directory set is `DeleteContentsEffect` of the old one, unchanged on failure |

## Left out

- The platform lookups `NSTemporaryDirectory()` and `FileManager.default.urls(for: .documentDirectory, in: .userDomainMask)[0]` are platform I/O. They are modelled as two fixed paths inside one sandbox container, and their component names are placeholders.
- Regular files are not modelled, only directories. The downloaded map's contents count as paths beneath the map's directory.
- `FileSystem.FileManager.CreateDirectory` never fails. In a set of directories there is nothing that could make it fail. Platform I/O errors (full disk, permissions, a regular file in the way) are not modelled. So `prepareOfflineMapDirectory` cannot fail in the model either, and its method has no failure outcome.
- The error kinds and messages of the platform's throws are not modelled. Every throw is one failure outcome, `None` or `ok == false`.
- Item IDs must be one plain component: not empty, no `/`, and not `.` or `..` (`AppFiles.IsItemID`). Foundation's percent-encoding, its splitting of an ID with a `/` into several components, and the resolution of relative names are not visible in the file.
- `.webMapItemID` is defined in another file that is not part of this model. It is a parameter of the three methods.
- The `ArcGIS` import is not modelled, because nothing in the file uses it.
- Crash atomicity and concurrent callers on the same item ID are not modelled.
- `AddressLocator.swift` (the reverse-geocoding selector) and `MapViewController+Extras.swift` (UI presentation) are not part of this model.
