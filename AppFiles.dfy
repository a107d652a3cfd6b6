/**
 * The offline-map storage helpers: where the app stages an offline map while
 * it downloads (under the temporary directory) and where it keeps it once
 * downloaded (under the documents directory), and the three FileManager
 * extensions that prepare and delete those directories.
 *
 * Swift extension methods on FileManager become methods that take the
 * FileManager as their first parameter; the app-wide `.webMapItemID` they
 * read is passed in.
 */
module AppFiles {
  import opened Wrappers
  import opened FileSystem

  const DataCollection: string := "data_collection"
  const OfflineMap: string := "offlineMap"

  /**
   * A portal item ID that names exactly one child directory: not empty,
   * without a separator, and not one of the relative names.
   */
  predicate IsItemID(itemID: string)
  {
    itemID != "" && '/' !in itemID && itemID != "." && itemID != ".."
  }

  /** Where the offline map for `itemID` is staged while it downloads. */
  function TemporaryOfflineMapDirectoryURL(itemID: string): (r: Path)
    requires IsItemID(itemID)
    ensures r == TemporaryDirectory + [DataCollection, OfflineMap, itemID]
  {
    AppendingPathComponent(
      AppendingPathComponent(
        AppendingPathComponent(TemporaryDirectory, DataCollection),
        OfflineMap),
      itemID)
  }

  /** Where the offline map for `itemID` is kept once downloaded. */
  function OfflineMapDirectoryURL(itemID: string): (r: Path)
    requires IsItemID(itemID)
    ensures r == DocumentDirectory + [DataCollection, OfflineMap, itemID]
  {
    AppendingPathComponent(
      AppendingPathComponent(
        AppendingPathComponent(DocumentDirectory, DataCollection),
        OfflineMap),
      itemID)
  }

  /** Both locations end in the same three components: `data_collection/offlineMap/<itemID>`. */
  lemma OfflineMapURLsShareSuffix(itemID: string)
    requires IsItemID(itemID)
    ensures var t, o := TemporaryOfflineMapDirectoryURL(itemID), OfflineMapDirectoryURL(itemID);
      |t| >= 3 && |o| >= 3 && t[|t| - 3..] == o[|o| - 3..] == [DataCollection, OfflineMap, itemID]
  {
  }

  /**
   * No path lies at or below both a staging location and a persisted
   * location, whatever the two item IDs; in particular the two never coincide.
   */
  lemma OfflineMapURLsSeparated(tempID: string, storedID: string, p: Path)
    requires IsItemID(tempID) && IsItemID(storedID)
    ensures TemporaryOfflineMapDirectoryURL(tempID) != OfflineMapDirectoryURL(storedID)
    ensures !(TemporaryOfflineMapDirectoryURL(tempID) <= p && OfflineMapDirectoryURL(storedID) <= p)
  {
    var t, o := TemporaryOfflineMapDirectoryURL(tempID), OfflineMapDirectoryURL(storedID);
    assert TemporaryDirectory <= t;
    assert DocumentDirectory <= o;
    UnderBothRootsImpossible(t);
    UnderBothRootsImpossible(p);
  }

  /** Distinct item IDs are staged, and kept, in distinct directories. */
  lemma OfflineMapURLsInjective(a: string, b: string)
    requires IsItemID(a) && IsItemID(b) && a != b
    ensures TemporaryOfflineMapDirectoryURL(a) != TemporaryOfflineMapDirectoryURL(b)
    ensures OfflineMapDirectoryURL(a) != OfflineMapDirectoryURL(b)
  {
    var n := |TemporaryDirectory| + 2;
    assert TemporaryOfflineMapDirectoryURL(a)[n] == a;
    assert TemporaryOfflineMapDirectoryURL(b)[n] == b;
    var m := |DocumentDirectory| + 2;
    assert OfflineMapDirectoryURL(a)[m] == a;
    assert OfflineMapDirectoryURL(b)[m] == b;
  }

  /** The directory set after `prepareTemporaryOfflineMapDirectory`, or `None` if it throws. */
  function PrepareTemporaryEffect(dirs: set<Path>, itemID: string): (r: Option<set<Path>>)
    requires IsItemID(itemID)
    ensures r.Some? && TemporaryOfflineMapDirectoryURL(itemID) !in r.value
  {
    var url := TemporaryOfflineMapDirectoryURL(itemID);
    Removed(Created(dirs, url), url)
  }

  /** The directory set after `prepareOfflineMapDirectory` (which cannot throw in this model). */
  function PrepareOfflineEffect(dirs: set<Path>, itemID: string): (r: set<Path>)
    requires IsItemID(itemID)
    ensures dirs <= r && OfflineMapDirectoryURL(itemID) in r
  {
    Created(dirs, OfflineMapDirectoryURL(itemID))
  }

  /** The directory set after `deleteContentsOfOfflineMapDirectory`, or `None` if it throws. */
  function DeleteContentsEffect(dirs: set<Path>, itemID: string): (r: Option<set<Path>>)
    requires IsItemID(itemID)
    ensures r.Some? <==> OfflineMapDirectoryURL(itemID) in dirs
    ensures r.Some? ==> r.value <= dirs && OfflineMapDirectoryURL(itemID) !in r.value
  {
    Removed(dirs, OfflineMapDirectoryURL(itemID))
  }

  /**
   * Preparing the staging area always succeeds. Afterwards every proper
   * ancestor of the staging location exists, the location itself and
   * everything beneath it do not, and no other directory has changed.
   */
  lemma PrepareTemporaryNetEffect(dirs: set<Path>, itemID: string)
    requires IsItemID(itemID)
    ensures PrepareTemporaryEffect(dirs, itemID).Some?
    ensures var url, r := TemporaryOfflineMapDirectoryURL(itemID), PrepareTemporaryEffect(dirs, itemID).value;
      && url !in r
      && (forall i :: 0 <= i < |url| ==> url[..i] in r)
      && (forall p :: p in r <==> p < url || (p in dirs && !(url <= p)))
  {
    CreateThenRemove(dirs, TemporaryOfflineMapDirectoryURL(itemID));
  }

  /** Preparing the staging area twice in a row succeeds both times and leaves the same directories. */
  lemma PrepareTemporaryIdempotent(dirs: set<Path>, itemID: string)
    requires IsItemID(itemID)
    ensures var r1 := PrepareTemporaryEffect(dirs, itemID);
      r1.Some? && PrepareTemporaryEffect(r1.value, itemID) == r1
  {
    CreateThenRemoveIdempotent(dirs, TemporaryOfflineMapDirectoryURL(itemID));
  }

  /**
   * After preparing the persisted location, it and all its ancestors exist,
   * every directory that existed still does, and the only directories added
   * are ancestors of that location.
   */
  lemma PrepareOfflineNetEffect(dirs: set<Path>, itemID: string)
    requires IsItemID(itemID)
    ensures var url, r := OfflineMapDirectoryURL(itemID), PrepareOfflineEffect(dirs, itemID);
      && (forall i :: 0 <= i <= |url| ==> url[..i] in r)
      && dirs <= r
      && (forall p :: p in r && p !in dirs ==> p <= url)
  {
    var url := OfflineMapDirectoryURL(itemID);
    forall i | 0 <= i <= |url|
      ensures url[..i] in PrepareOfflineEffect(dirs, itemID)
    {
      assert url[..i] <= url;
    }
  }

  /**
   * Deleting the persisted location throws exactly when it does not exist;
   * otherwise it and everything beneath it are gone and nothing else changed.
   */
  lemma DeleteContentsNetEffect(dirs: set<Path>, itemID: string)
    requires IsItemID(itemID)
    ensures var url, r := OfflineMapDirectoryURL(itemID), DeleteContentsEffect(dirs, itemID);
      && (r.Some? <==> url in dirs)
      && (r.Some? ==> url !in r.value && r.value <= dirs)
      && (r.Some? ==> forall p :: p in r.value <==> p in dirs && !(url <= p))
  {
  }

  /** Prepare, delete, delete: the first delete succeeds and the second throws. */
  lemma PrepareDeleteDelete(dirs: set<Path>, itemID: string)
    requires IsItemID(itemID)
    ensures var d1 := DeleteContentsEffect(PrepareOfflineEffect(dirs, itemID), itemID);
      d1.Some? && DeleteContentsEffect(d1.value, itemID) == None
  {
    var url := OfflineMapDirectoryURL(itemID);
    assert url in PrepareOfflineEffect(dirs, itemID);
  }

  /** Work on the staging area leaves every directory under the documents directory as it was. */
  lemma TemporaryKeepsDocuments(dirs: set<Path>, itemID: string, p: Path)
    requires IsItemID(itemID) && DocumentDirectory <= p
    ensures PrepareTemporaryEffect(dirs, itemID).Some?
    ensures p in PrepareTemporaryEffect(dirs, itemID).value <==> p in dirs
  {
    var url := TemporaryOfflineMapDirectoryURL(itemID);
    PrepareTemporaryNetEffect(dirs, itemID);
    assert TemporaryDirectory <= url;
    UnderBothRootsImpossible(p);
    if p < url {
      UnderBothRootsImpossible(url);
      AncestorsComparable(TemporaryDirectory, p, url);
    }
    if url <= p {
      UnderBothRootsImpossible(p);
    }
  }

  /** Work on the persisted location leaves every directory under the temporary directory as it was. */
  lemma OfflineKeepsTemporary(dirs: set<Path>, itemID: string, p: Path)
    requires IsItemID(itemID) && TemporaryDirectory <= p
    ensures p in PrepareOfflineEffect(dirs, itemID) <==> p in dirs
    ensures var d := DeleteContentsEffect(dirs, itemID);
      d.Some? ==> (p in d.value <==> p in dirs)
  {
    var url := OfflineMapDirectoryURL(itemID);
    assert DocumentDirectory <= url;
    UnderBothRootsImpossible(p);
    if p <= url {
      UnderBothRootsImpossible(url);
      AncestorsComparable(DocumentDirectory, p, url);
    }
  }

  /** `FileManager.prepareTemporaryOfflineMapDirectory()`. */
  method PrepareTemporaryOfflineMapDirectory(fm: FileManager, webMapItemID: string) returns (ok: bool)
    requires fm.Valid() && IsItemID(webMapItemID)
    modifies fm
    ensures fm.Valid()
    ensures ok
    ensures PrepareTemporaryEffect(old(fm.directories), webMapItemID) == Some(fm.directories)
  {
    var url := TemporaryOfflineMapDirectoryURL(webMapItemID);
    fm.CreateDirectory(url);
    assert url in fm.directories;
    ok := fm.RemoveItem(url);
  }

  /** `FileManager.prepareOfflineMapDirectory()`. */
  method PrepareOfflineMapDirectory(fm: FileManager, webMapItemID: string)
    requires fm.Valid() && IsItemID(webMapItemID)
    modifies fm
    ensures fm.Valid()
    ensures fm.directories == PrepareOfflineEffect(old(fm.directories), webMapItemID)
  {
    var url := OfflineMapDirectoryURL(webMapItemID);
    fm.CreateDirectory(url);
  }

  /** `FileManager.deleteContentsOfOfflineMapDirectory()`; `ok` is false exactly when it throws. */
  method DeleteContentsOfOfflineMapDirectory(fm: FileManager, webMapItemID: string) returns (ok: bool)
    requires fm.Valid() && IsItemID(webMapItemID)
    modifies fm
    ensures fm.Valid()
    ensures ok <==> OfflineMapDirectoryURL(webMapItemID) in old(fm.directories)
    ensures DeleteContentsEffect(old(fm.directories), webMapItemID) == if ok then Some(fm.directories) else None
    ensures !ok ==> fm.directories == old(fm.directories)
  {
    var url := OfflineMapDirectoryURL(webMapItemID);
    ok := fm.RemoveItem(url);
  }
}
