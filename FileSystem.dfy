/**
 * An abstract model of the part of Foundation's FileManager that the
 * offline-map storage helpers rely on. The filesystem is the set of
 * directories that exist, each named by its sequence of path components;
 * the empty sequence is the filesystem root. The two platform calls,
 * createDirectory with intermediate directories and removeItem, are given
 * their meaning here: they are the axioms the rest of the model builds on.
 */
module FileSystem {
  import opened Wrappers

  /** A path as its sequence of components; `p <= q` means `p` is `q` or an ancestor of `q`. */
  type Path = seq<string>

  /** `url.appendingPathComponent(component)` for a component without a separator. */
  function AppendingPathComponent(url: Path, component: string): (r: Path)
    ensures |r| == |url| + 1 && url < r && r[|url|] == component
  {
    url + [component]
  }

  /**
   * The application's sandbox container. Its components stand for the values
   * the platform returns at run time; only their shape matters to the model.
   */
  const AppContainer: Path := ["var", "mobile", "Containers", "Data", "Application", "app"]

  /** `NSTemporaryDirectory()`. */
  const TemporaryDirectory: Path := AppContainer + ["tmp"]

  /** `FileManager.default.urls(for: .documentDirectory, in: .userDomainMask)[0]`. */
  const DocumentDirectory: Path := AppContainer + ["Documents"]

  /** The two platform roots are separate: neither lies at or below the other. */
  lemma RootsSeparated()
    ensures !(TemporaryDirectory <= DocumentDirectory)
    ensures !(DocumentDirectory <= TemporaryDirectory)
  {
    assert TemporaryDirectory[|AppContainer|] != DocumentDirectory[|AppContainer|];
  }

  /** Two ancestors of one path are ancestors one of the other. */
  lemma {:induction false} AncestorsComparable(a: Path, b: Path, p: Path)
    requires a <= p && b <= p
    ensures a <= b || b <= a
  {
    if |a| <= |b| {
      assert b[..|a|] == p[..|a|] == a;
    } else {
      assert a[..|b|] == p[..|b|] == b;
    }
  }

  /** A path that lies at or below both roots cannot exist. */
  lemma UnderBothRootsImpossible(p: Path)
    ensures !(TemporaryDirectory <= p && DocumentDirectory <= p)
  {
    RootsSeparated();
    if TemporaryDirectory <= p && DocumentDirectory <= p {
      AncestorsComparable(TemporaryDirectory, DocumentDirectory, p);
      assert false;
    }
  }

  /** Every ancestor of `url`, from the filesystem root down to `url` itself. */
  function Ancestry(url: Path): (r: set<Path>)
    ensures forall p :: p in r <==> p <= url
  {
    var r := set i | 0 <= i <= |url| :: url[..i];
    assert forall p :: p <= url ==> p == url[..|p|] && p in r;
    r
  }

  /**
   * The existing directories form a tree: every ancestor of an existing
   * directory exists as well.
   */
  predicate IsTree(dirs: set<Path>)
  {
    forall p, i :: p in dirs && 0 <= i <= |p| ==> p[..i] in dirs
  }

  /**
   * `createDirectory(at: url, withIntermediateDirectories: true)`: `url` and
   * all its missing ancestors are created; an existing `url` is no error.
   */
  function Created(dirs: set<Path>, url: Path): (r: set<Path>)
    ensures forall p :: p in r <==> p in dirs || p <= url
  {
    dirs + Ancestry(url)
  }

  /**
   * `removeItem(at: url)`: throws (`None`) when nothing exists at `url`;
   * otherwise `url` and everything beneath it is removed, and nothing else.
   */
  function Removed(dirs: set<Path>, url: Path): (r: Option<set<Path>>)
    ensures r.Some? <==> url in dirs
    ensures r.Some? ==> forall p :: p in r.value <==> p in dirs && !(url <= p)
  {
    if url in dirs then Some(set p | p in dirs && !(url <= p)) else None
  }

  /** Creating a directory keeps the filesystem a tree. */
  lemma CreatedKeepsTree(dirs: set<Path>, url: Path)
    requires IsTree(dirs)
    ensures IsTree(Created(dirs, url))
  {
    var r := Created(dirs, url);
    forall p, i | p in r && 0 <= i <= |p|
      ensures p[..i] in r
    {
      if p !in dirs {
        assert p[..i] <= p <= url;
      }
    }
  }

  /** Removing a directory keeps the filesystem a tree. */
  lemma RemovedKeepsTree(dirs: set<Path>, url: Path)
    requires IsTree(dirs) && url in dirs
    ensures IsTree(Removed(dirs, url).value)
  {
    var r := Removed(dirs, url).value;
    forall p, i | p in r && 0 <= i <= |p|
      ensures p[..i] in r
    {
      assert p[..i] <= p;
      assert url <= p[..i] ==> url <= p;
    }
  }

  /**
   * The staging idiom at the level of the platform: create with
   * intermediates, then remove the leaf. Both calls succeed; afterwards the
   * proper ancestors of `url` exist, `url` and everything beneath it do
   * not, and every other directory is as it was.
   */
  lemma CreateThenRemove(dirs: set<Path>, url: Path)
    ensures Removed(Created(dirs, url), url).Some?
    ensures var r := Removed(Created(dirs, url), url).value;
      && url !in r
      && (forall i :: 0 <= i < |url| ==> url[..i] in r)
      && (forall p :: p in r <==> p < url || (p in dirs && !(url <= p)))
  {
    var c := Created(dirs, url);
    assert url in c;
    var r := Removed(c, url).value;
    forall i | 0 <= i < |url|
      ensures url[..i] in r
    {
      assert url[..i] <= url;
      assert !(url <= url[..i]);
    }
    forall p
      ensures p in r <==> p < url || (p in dirs && !(url <= p))
    {
      if p < url {
        assert !(url <= p);
      }
    }
  }

  /** Running the staging idiom a second time succeeds and changes nothing. */
  lemma CreateThenRemoveIdempotent(dirs: set<Path>, url: Path)
    ensures var r1 := Removed(Created(dirs, url), url);
      r1.Some? && Removed(Created(r1.value, url), url) == r1
  {
    CreateThenRemove(dirs, url);
    var r1 := Removed(Created(dirs, url), url).value;
    CreateThenRemove(r1, url);
    var r2 := Removed(Created(r1, url), url).value;
    assert forall p :: p in r2 <==> p in r1;
    assert r2 == r1;
  }

  /**
   * The platform filesystem. `directories` is the set of directories that
   * exist; the methods are the two FileManager calls the storage helpers use.
   */
  class FileManager {
    var directories: set<Path>

    predicate Valid()
      reads this
    {
      IsTree(directories)
    }

    constructor (existing: set<Path>)
      requires IsTree(existing)
      ensures Valid() && directories == existing
    {
      directories := existing;
    }

    /** `createDirectory(at: url, withIntermediateDirectories: true)`. */
    method CreateDirectory(url: Path)
      requires Valid()
      modifies this
      ensures Valid()
      ensures directories == Created(old(directories), url)
    {
      CreatedKeepsTree(directories, url);
      directories := Created(directories, url);
    }

    /** `removeItem(at: url)`; `ok` is false exactly when the call throws. */
    method RemoveItem(url: Path) returns (ok: bool)
      requires Valid()
      modifies this
      ensures Valid()
      ensures ok <==> url in old(directories)
      ensures Removed(old(directories), url) == if ok then Some(directories) else None
      ensures !ok ==> directories == old(directories)
    {
      var r := Removed(directories, url);
      if r.Some? {
        RemovedKeepsTree(directories, url);
        directories := r.value;
        ok := true;
      } else {
        ok := false;
      }
    }
  }
}
