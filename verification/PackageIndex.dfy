/** From the stored files to the packages: the catalog of a store's keys, indexed with what the store
    says of each package. */
module PackageIndex {
  import opened Catalog
  import opened Keys
  import opened Ordering
  import opened Paths
  import opened Sync
  import opened Versions
  import opened Wrappers

  const MANTL_JSON := "mantl.json"
  const PACKAGE_JSON := "package.json"

  /** What the store says of a package directory: whether it has a mantl.json, and the version in its
      package.json.  A failed read counts as a missing file. */
  function StoreReader(kv: Store, fails: string -> bool, versionOf: string -> Option<string>): Reader {
    Reader(dir => !fails(dir + MANTL_JSON) && dir + MANTL_JSON in kv,
           dir => if fails(dir + PACKAGE_JSON) || dir + PACKAGE_JSON !in kv then None else versionOf(kv[dir + PACKAGE_JSON]))
  }

  /** The keys under the repository root. */
  function RootKeys(kv: Store): set<string> { set key | key in kv && REPOSITORY_ROOT <= key }

  /** `dir` is the directory of version index `i` of package `n` in repository `r`. */
  predicate InCatalog(cat: Nested, n: string, r: string, i: string, dir: string) {
    n in cat && r in cat[n] && i in cat[n][r] && cat[n][r][i] == dir
  }

  ghost predicate VersionIs(kv: Store, fails: string -> bool, versionOf: string -> Option<string>, dir: string, v: string) {
    var key := dir + PACKAGE_JSON;
    !fails(key) && key in kv && versionOf(kv[key]) == Some(v)
  }

  ghost predicate MantlIn(kv: Store, fails: string -> bool, dir: string) { !fails(dir + MANTL_JSON) && dir + MANTL_JSON in kv }

  /** A package as the stored files say: the versions of its directories' package.json, a version being
      supported when a directory of its index has a mantl.json. */
  ghost predicate SaysStore(kv: Store, fails: string -> bool, versionOf: string -> Option<string>, cat: Nested, n: string,
                            t: Table, supported: bool)
  {
    && (forall v :: v in t <==> exists r, i, dir | InCatalog(cat, n, r, i, dir) :: VersionIs(kv, fails, versionOf, dir, v))
    && (forall v | v in t :: exists r, dir | InCatalog(cat, n, r, t[v].index, dir) :: VersionIs(kv, fails, versionOf, dir, v))
    && (forall v | v in t :: t[v].supported <==> exists r, dir | InCatalog(cat, n, r, t[v].index, dir) :: MantlIn(kv, fails, dir))
    && (supported <==> exists r, i, dir | InCatalog(cat, n, r, i, dir) :: MantlIn(kv, fails, dir))
  }

  /** The keys of a package are its directories. */
  lemma KeyIsDirectory(cat: Nested, n: string, keys: seq<string>, dir: string)
    requires n in cat && ListsInOrder(cat[n], cat[n].Keys, keys)
    ensures dir in keys <==> exists r, i :: InCatalog(cat, n, r, i, dir)
  {
    var pairs: seq<Pair> :| ListsEntries(cat[n], cat[n].Keys, pairs, keys);
    if dir in keys {
      var j :| 0 <= j < |keys| && keys[j] == dir;
      assert InCatalog(cat, n, pairs[j].0, pairs[j].1, dir);
    }
    if r, i :| InCatalog(cat, n, r, i, dir) {
      assert (r, i) in pairs;
      var j :| 0 <= j < |pairs| && pairs[j] == (r, i);
      assert keys[j] == dir;
    }
  }

  lemma IndexOfDirectory(cat: Nested, listed: set<string>, n: string, r: string, i: string, dir: string)
    requires Agrees(cat, listed) && InCatalog(cat, n, r, i, dir)
    ensures LastSegment(dir) == i
  {
    CatalogVersionIndex(cat, listed, n, r, i);
  }

  lemma DescribedSays(kv: Store, fails: string -> bool, versionOf: string -> Option<string>, cat: Nested, listed: set<string>, n: string,
                      keys: seq<string>, t: Table, supported: bool, current: string)
    requires Agrees(cat, listed) && n in cat && ListsInOrder(cat[n], cat[n].Keys, keys)
    requires Described(t, supported, current, keys, StoreReader(kv, fails, versionOf))
    ensures SaysStore(kv, fails, versionOf, cat, n, t, supported)
  {
    forall v ensures v in t <==> exists r, i, dir | InCatalog(cat, n, r, i, dir) :: VersionIs(kv, fails, versionOf, dir, v) {
      VersionSomewhere(kv, fails, versionOf, cat, n, keys, v);
    }
    MantlSomewhere(kv, fails, versionOf, cat, n, keys);
    forall v | v in t
      ensures exists r, dir | InCatalog(cat, n, r, t[v].index, dir) :: VersionIs(kv, fails, versionOf, dir, v)
      ensures t[v].supported <==> exists r, dir | InCatalog(cat, n, r, t[v].index, dir) :: MantlIn(kv, fails, dir)
    {
      VersionSays(kv, fails, versionOf, cat, listed, n, keys, t[v].index, v);
    }
  }

  lemma VersionSomewhere(kv: Store, fails: string -> bool, versionOf: string -> Option<string>, cat: Nested, n: string, keys: seq<string>, v: string)
    requires n in cat && ListsInOrder(cat[n], cat[n].Keys, keys)
    ensures (exists key | key in keys :: StoreReader(kv, fails, versionOf).meta(key) == Some(v)) <==>
            exists r, i, dir | InCatalog(cat, n, r, i, dir) :: VersionIs(kv, fails, versionOf, dir, v)
  {
    if key :| key in keys && StoreReader(kv, fails, versionOf).meta(key) == Some(v) {
      KeyIsDirectory(cat, n, keys, key);
      assert VersionIs(kv, fails, versionOf, key, v);
    }
    if r, i, dir :| InCatalog(cat, n, r, i, dir) && VersionIs(kv, fails, versionOf, dir, v) {
      KeyIsDirectory(cat, n, keys, dir);
      assert StoreReader(kv, fails, versionOf).meta(dir) == Some(v);
    }
  }

  lemma MantlSomewhere(kv: Store, fails: string -> bool, versionOf: string -> Option<string>, cat: Nested, n: string, keys: seq<string>)
    requires n in cat && ListsInOrder(cat[n], cat[n].Keys, keys)
    ensures (exists key | key in keys :: StoreReader(kv, fails, versionOf).hasMantl(key)) <==>
            exists r, i, dir | InCatalog(cat, n, r, i, dir) :: MantlIn(kv, fails, dir)
  {
    if key :| key in keys && StoreReader(kv, fails, versionOf).hasMantl(key) {
      KeyIsDirectory(cat, n, keys, key);
      assert MantlIn(kv, fails, key);
    }
    if r, i, dir :| InCatalog(cat, n, r, i, dir) && MantlIn(kv, fails, dir) {
      KeyIsDirectory(cat, n, keys, dir);
      assert StoreReader(kv, fails, versionOf).hasMantl(dir);
    }
  }

  lemma VersionSays(kv: Store, fails: string -> bool, versionOf: string -> Option<string>, cat: Nested, listed: set<string>, n: string,
                    keys: seq<string>, idx: string, v: string)
    requires Agrees(cat, listed) && n in cat && ListsInOrder(cat[n], cat[n].Keys, keys)
    requires RetainedAt(keys, StoreReader(kv, fails, versionOf), v, idx)
    ensures exists r, dir | InCatalog(cat, n, r, idx, dir) :: VersionIs(kv, fails, versionOf, dir, v)
    ensures SupportedAt(keys, StoreReader(kv, fails, versionOf), idx) <==>
            exists r, dir | InCatalog(cat, n, r, idx, dir) :: MantlIn(kv, fails, dir)
  {
    var rd := StoreReader(kv, fails, versionOf);
    var j :| 0 <= j < |keys| && LastKeyOf(keys, rd, v, j) && LastSegment(keys[j]) == idx;
    KeyIsDirectory(cat, n, keys, keys[j]);
    var r, i :| InCatalog(cat, n, r, i, keys[j]);
    IndexOfDirectory(cat, listed, n, r, i, keys[j]);
    assert VersionIs(kv, fails, versionOf, keys[j], v);
    if SupportedAt(keys, rd, idx) {
      var dir :| dir in keys && rd.hasMantl(dir) && LastSegment(dir) == idx;
      KeyIsDirectory(cat, n, keys, dir);
      var r', i' :| InCatalog(cat, n, r', i', dir);
      IndexOfDirectory(cat, listed, n, r', i', dir);
      assert MantlIn(kv, fails, dir);
    }
    if r', dir :| InCatalog(cat, n, r', idx, dir) && MantlIn(kv, fails, dir) {
      KeyIsDirectory(cat, n, keys, dir);
      IndexOfDirectory(cat, listed, n, r', idx, dir);
      assert rd.hasMantl(dir);
    }
  }

  /** `getPackages`: every package of the stored keys, in name order, as the stored files say. */
  method GetPackages(kv: Store, fails: string -> bool, versionOf: string -> Option<string>)
    returns (packages: seq<Package>, cat: Nested, names: seq<string>)
    ensures forall key | key in kv && "mantl-install/repository" <= key :: IsFiled(cat, key)
    ensures forall n, r, i | n in cat && r in cat[n] && i in cat[n][r] ::
              IsFrom(cat, (set key | key in kv && "mantl-install/repository" <= key), n, r, i)
    ensures Agrees(cat, RootKeys(kv)) && Increasing(names) && Elems(names) == cat.Keys && |packages| == |names|
    ensures forall i | 0 <= i < |packages| ::
              packages[i].name == names[i] && SaysStore(kv, fails, versionOf, cat, names[i], packages[i].versions, packages[i].supported)
  {
    var rd := StoreReader(kv, fails, versionOf);
    cat := NewPackageCatalog(RootKeys(kv));
    var keyMap;
    packages, keyMap, names := PackagesIndex(cat, rd);
    forall i | 0 <= i < |packages|
      ensures packages[i].name == names[i] && SaysStore(kv, fails, versionOf, cat, names[i], packages[i].versions, packages[i].supported)
    {
      assert names[i] in Elems(names);
      IndexedDescribes(packages[i].versions, packages[i].supported, packages[i].currentVersion, keyMap[names[i]], rd);
      DescribedSays(kv, fails, versionOf, cat, RootKeys(kv), names[i], keyMap[names[i]], packages[i].versions, packages[i].supported,
                    packages[i].currentVersion);
    }
  }

  // ---------------------------------------------------------------- in terms of the files

  /** Every nine-segment key is a file of a package, whose container depends on its name alone. */
  ghost predicate PackageFilesOnly(kv: Store, container: string -> string) {
    forall key | key in RootKeys(kv) && |Split(key)| == 9 :: IsPackageFile(key, container)
  }

  ghost predicate IsPackageFile(key: string, container: string -> string) {
    exists i, n, version | IsPackage(container, n) && CleanSeg(version) :: IsFileOf(key, i, PackageId(container(n), n), version)
  }

  predicate IsPackage(container: string -> string, n: string) { CleanPackage(PackageId(container(n), n)) }

  lemma OnlyItsContainer(kv: Store, container: string -> string, i: Int, n: string, version: string)
    requires PackageFilesOnly(kv, container) && IsPackage(container, n) && CleanSeg(version)
    ensures OneContainer(RootKeys(kv), i, PackageId(container(n), n), version)
  {
    forall key | key in RootKeys(kv) && FilesUnder(key, n, Dec(i), version, DirOf(key))
      ensures IsFileOf(key, i, PackageId(container(n), n), version)
    {
      assert IsPackageFile(key, container);
      var i', n', version' :| IsPackage(container, n') && CleanSeg(version') && IsFileOf(key, i', PackageId(container(n'), n'), version');
      var file :| CleanSeg(file) && key == FileKey(i', PackageId(container(n'), n'), version', file);
      FileKeySplits(i', PackageId(container(n'), n'), version', file);
      DecInjective(i, i');
    }
  }

  lemma FileKeyInRoot(i: Int, p: PackageId, version: string, file: string)
    requires CleanPackage(p) && CleanSeg(version) && CleanSeg(file)
    ensures REPOSITORY_ROOT <= FileKey(i, p, version, file)
  {
    FileKeyIs(i, p, version, file);
    RepoKeyIs(i, FilePath(p, version, file));
    RootClean();
    assert RepoSegs(i, FilePath(p, version, file)) == ROOT + ([Dec(i)] + FilePath(p, version, file));
    JoinAppend(ROOT, [Dec(i)] + FilePath(p, version, file));
  }

  /** A package's directories are those of its stored files. */
  lemma CatalogFiles(kv: Store, container: string -> string, cat: Nested, n: string, idx: string, file: string)
    requires PackageFilesOnly(kv, container) && IsPackage(container, n) && CleanSeg(idx) && CleanSeg(file) && Agrees(cat, RootKeys(kv))
    ensures var p := PackageId(container(n), n);
            && (forall i: Int :: FileKey(i, p, idx, file) in kv ==>
                  exists dir | InCatalog(cat, n, Dec(i), idx, dir) :: dir + file == FileKey(i, p, idx, file))
            && (forall r, dir | InCatalog(cat, n, r, idx, dir) :: exists i: Int :: r == Dec(i) && dir + file == FileKey(i, p, idx, file))
  {
    var p := PackageId(container(n), n);
    forall i: Int | FileKey(i, p, idx, file) in kv
      ensures exists dir | InCatalog(cat, n, Dec(i), idx, dir) :: dir + file == FileKey(i, p, idx, file)
    {
      FileKeyInRoot(i, p, idx, file);
      FileFiled(cat, RootKeys(kv), i, p, idx, file);
      OnlyItsContainer(kv, container, i, n, idx);
      EntryIsDirectory(cat, RootKeys(kv), i, p, idx, file);
      assert InCatalog(cat, n, Dec(i), idx, cat[n][Dec(i)][idx]);
    }
    forall r, dir | InCatalog(cat, n, r, idx, dir) ensures exists i: Int :: r == Dec(i) && dir + file == FileKey(i, p, idx, file) {
      EntryOfFile(kv, container, cat, n, r, idx, file);
    }
  }

  lemma EntryOfFile(kv: Store, container: string -> string, cat: Nested, n: string, r: string, idx: string, file: string)
    requires PackageFilesOnly(kv, container) && IsPackage(container, n) && CleanSeg(idx) && CleanSeg(file) && Agrees(cat, RootKeys(kv))
    requires n in cat && r in cat[n] && idx in cat[n][r]
    ensures exists i: Int :: r == Dec(i) && cat[n][r][idx] + file == FileKey(i, PackageId(container(n), n), idx, file)
  {
    FiledFrom(cat, RootKeys(kv), n, r, idx);
    var key :| key in RootKeys(kv) && FilesUnder(key, n, r, idx, cat[n][r][idx]);
    assert IsPackageFile(key, container);
    var i, n', version :| IsPackage(container, n') && CleanSeg(version) && IsFileOf(key, i, PackageId(container(n'), n'), version);
    var other :| CleanSeg(other) && key == FileKey(i, PackageId(container(n'), n'), version, other);
    FileKeySplits(i, PackageId(container(n'), n'), version, other);
    OnlyItsContainer(kv, container, i, n, idx);
    EntryIsDirectory(cat, RootKeys(kv), i, PackageId(container(n), n), idx, file);
  }

  /** The catalog has a file with the given text exactly when some repository stores it. */
  lemma FileSomewhere(kv: Store, container: string -> string, cat: Nested, n: string, idx: string, file: string, text: string)
    requires PackageFilesOnly(kv, container) && IsPackage(container, n) && CleanSeg(idx) && CleanSeg(file) && Agrees(cat, RootKeys(kv))
    ensures (exists r, dir | InCatalog(cat, n, r, idx, dir) :: HasText(kv, dir + file, text)) <==>
            exists i: Int :: HasText(kv, FileKey(i, PackageId(container(n), n), idx, file), text)
  {
    CatalogFiles(kv, container, cat, n, idx, file);
    if r, dir :| InCatalog(cat, n, r, idx, dir) && HasText(kv, dir + file, text) {
      var i: Int :| r == Dec(i) && dir + file == FileKey(i, PackageId(container(n), n), idx, file);
    }
    if i: Int :| HasText(kv, FileKey(i, PackageId(container(n), n), idx, file), text) {
      var dir :| InCatalog(cat, n, Dec(i), idx, dir) && dir + file == FileKey(i, PackageId(container(n), n), idx, file);
    }
  }

  predicate HasText(kv: Store, key: string, text: string) { key in kv && kv[key] == text }

  lemma JsonFiles()
    ensures CleanSeg(MANTL_JSON) && CleanSeg(PACKAGE_JSON)
  {}

  /** From the stored files alone: a listed version is what a package.json stored under its index says, and
      it is supported exactly when some repository stores a mantl.json under that index. */
  lemma FilesSay(kv: Store, fails: string -> bool, versionOf: string -> Option<string>, container: string -> string, cat: Nested, n: string,
                 t: Table, supported: bool, v: string)
    requires PackageFilesOnly(kv, container) && IsPackage(container, n) && Agrees(cat, RootKeys(kv))
    requires SaysStore(kv, fails, versionOf, cat, n, t, supported) && forall key :: !fails(key)
    requires v in t && CleanSeg(t[v].index)
    ensures var p := PackageId(container(n), n);
            && (exists i: Int, text :: versionOf(text) == Some(v) && HasText(kv, FileKey(i, p, t[v].index, PACKAGE_JSON), text))
            && (t[v].supported <==> exists i: Int, text :: HasText(kv, FileKey(i, p, t[v].index, MANTL_JSON), text))
  {
    JsonFiles();
    SaysVersion(kv, fails, versionOf, container, cat, n, t[v].index, v);
    SaysMantl(kv, fails, container, cat, n, t[v].index);
  }

  /** And every version that a stored package.json says is listed. */
  lemma FileListed(kv: Store, fails: string -> bool, versionOf: string -> Option<string>, container: string -> string, cat: Nested, n: string,
                   t: Table, supported: bool, i: Int, idx: string, text: string, v: string)
    requires PackageFilesOnly(kv, container) && IsPackage(container, n) && Agrees(cat, RootKeys(kv))
    requires SaysStore(kv, fails, versionOf, cat, n, t, supported) && forall key :: !fails(key)
    requires CleanSeg(idx) && HasText(kv, FileKey(i, PackageId(container(n), n), idx, PACKAGE_JSON), text) && versionOf(text) == Some(v)
    ensures n in cat && v in t
  {
    JsonFiles();
    FileSomewhere(kv, container, cat, n, idx, PACKAGE_JSON, text);
    var r, dir :| InCatalog(cat, n, r, idx, dir) && HasText(kv, dir + PACKAGE_JSON, text);
    assert VersionIs(kv, fails, versionOf, dir, v);
  }

  lemma SaysVersion(kv: Store, fails: string -> bool, versionOf: string -> Option<string>, container: string -> string, cat: Nested, n: string,
                    idx: string, v: string)
    requires PackageFilesOnly(kv, container) && IsPackage(container, n) && Agrees(cat, RootKeys(kv)) && CleanSeg(idx) && CleanSeg(PACKAGE_JSON)
    requires exists r, dir | InCatalog(cat, n, r, idx, dir) :: VersionIs(kv, fails, versionOf, dir, v)
    ensures exists i: Int, text :: versionOf(text) == Some(v) && HasText(kv, FileKey(i, PackageId(container(n), n), idx, PACKAGE_JSON), text)
  {
    var r, dir :| InCatalog(cat, n, r, idx, dir) && VersionIs(kv, fails, versionOf, dir, v);
    var text := kv[dir + PACKAGE_JSON];
    assert HasText(kv, dir + PACKAGE_JSON, text);
    FileSomewhere(kv, container, cat, n, idx, PACKAGE_JSON, text);
  }

  lemma SaysMantl(kv: Store, fails: string -> bool, container: string -> string, cat: Nested, n: string, idx: string)
    requires PackageFilesOnly(kv, container) && IsPackage(container, n) && Agrees(cat, RootKeys(kv)) && CleanSeg(idx) && CleanSeg(MANTL_JSON)
    requires forall key :: !fails(key)
    ensures (exists r, dir | InCatalog(cat, n, r, idx, dir) :: MantlIn(kv, fails, dir)) <==>
            exists i: Int, text :: HasText(kv, FileKey(i, PackageId(container(n), n), idx, MANTL_JSON), text)
  {
    if r, dir :| InCatalog(cat, n, r, idx, dir) && MantlIn(kv, fails, dir) {
      assert HasText(kv, dir + MANTL_JSON, kv[dir + MANTL_JSON]);
      FileSomewhere(kv, container, cat, n, idx, MANTL_JSON, kv[dir + MANTL_JSON]);
    }
    if i: Int, text :| HasText(kv, FileKey(i, PackageId(container(n), n), idx, MANTL_JSON), text) {
      FileSomewhere(kv, container, cat, n, idx, MANTL_JSON, text);
      var r, dir :| InCatalog(cat, n, r, idx, dir) && HasText(kv, dir + MANTL_JSON, text);
      assert MantlIn(kv, fails, dir);
    }
  }
}
