/** The package catalog: the flat keys of the store as a three-level index by package name,
    repository index and version index. */
module Catalog {
  import opened Keys
  import opened Ordering
  import opened Paths

  type Nested = map<string, map<string, map<string, string>>>

  function LastSlash(s: string): int
    ensures -1 <= LastSlash(s) < |s|
  {
    if s == "" then -1 else if s[|s| - 1] == '/' then |s| - 1 else LastSlash(s[..|s| - 1])
  }

  /** The key up to and including its last slash. */
  function DirOf(key: string): string { key[..LastSlash(key) + 1] }

  /** A nine-segment key carries a package name, a repository index and a version index. */
  predicate Carries(key: string, name: string, repo: string, version: string) {
    var parts := Split(key);
    |parts| == 9 && parts[2] == repo && parts[6] == name && parts[7] == version
  }

  predicate HasEntry(cat: Nested, name: string, repo: string, version: string) {
    name in cat && repo in cat[name] && version in cat[name][repo]
  }

  /** `key` is the first of `keys` to carry the three. */
  ghost predicate FirstOf(keys: set<string>, key: string, name: string, repo: string, version: string) {
    key in keys && Carries(key, name, repo, version) &&
    forall key' | key' in keys && Carries(key', name, repo, version) :: key' == key || StrLess(key, key')
  }

  /** The index has an entry exactly when some key carries it, made from the first such key, and no
      empty level. */
  ghost predicate Agrees(cat: Nested, keys: set<string>) {
    && (forall n, r, v :: HasEntry(cat, n, r, v) ==>
          exists key | key in keys :: FirstOf(keys, key, n, r, v) && cat[n][r][v] == DirOf(key))
    && (forall key, n, r, v | key in keys && Carries(key, n, r, v) :: HasEntry(cat, n, r, v))
    && NoEmptyLevel(cat)
  }

  ghost predicate NoEmptyLevel(cat: Nested) {
    && (forall n | n in cat :: cat[n] != map[])
    && (forall n, r | n in cat && r in cat[n] :: cat[n][r] != map[])
  }

  function WithEntry(cat: Nested, n: string, r: string, v: string, dir: string): Nested {
    var byRepo := if n in cat then cat[n] else map[];
    var byVersion := if r in byRepo then byRepo[r] else map[];
    cat[n := byRepo[r := if v in byVersion then byVersion else byVersion[v := dir]]]
  }

  lemma WithEntryHas(cat: Nested, n: string, r: string, v: string, dir: string)
    ensures var cat' := WithEntry(cat, n, r, v, dir);
            && HasEntry(cat', n, r, v) && cat'[n][r][v] == (if HasEntry(cat, n, r, v) then cat[n][r][v] else dir)
            && (forall n', r', v' | (n', r', v') != (n, r, v) ::
                  (HasEntry(cat', n', r', v') <==> HasEntry(cat, n', r', v'))
                  && (HasEntry(cat, n', r', v') ==> cat'[n'][r'][v'] == cat[n'][r'][v']))
  {}

  lemma WithEntryNoEmpty(cat: Nested, n: string, r: string, v: string, dir: string)
    requires NoEmptyLevel(cat)
    ensures NoEmptyLevel(WithEntry(cat, n, r, v, dir))
  {
    var cat' := WithEntry(cat, n, r, v, dir);
    assert r in cat'[n] && v in cat'[n][r];
  }

  /** A greater key does not become the first to carry anything that is carried already. */
  lemma StillFirst(keys: set<string>, key: string, k: string, n: string, r: string, v: string)
    requires FirstOf(keys, k, n, r, v) && StrLess(k, key)
    ensures FirstOf(keys + {key}, k, n, r, v)
  {}

  /** One more key that carries an entry, greater than those before it. */
  lemma AgreesMore(cat: Nested, keys: set<string>, key: string, n0: string, r0: string, v0: string)
    requires Agrees(cat, keys) && (forall k | k in keys :: StrLess(k, key)) && Carries(key, n0, r0, v0)
    ensures Agrees(WithEntry(cat, n0, r0, v0, DirOf(key)), keys + {key})
  {
    var all, cat' := keys + {key}, WithEntry(cat, n0, r0, v0, DirOf(key));
    WithEntryHas(cat, n0, r0, v0, DirOf(key));
    WithEntryNoEmpty(cat, n0, r0, v0, DirOf(key));
    forall n, r, v | HasEntry(cat', n, r, v)
      ensures exists k | k in all :: FirstOf(all, k, n, r, v) && cat'[n][r][v] == DirOf(k)
    {
      EntryFirst(cat, keys, key, n0, r0, v0, n, r, v);
    }
    forall k, n, r, v | k in all && Carries(k, n, r, v) ensures HasEntry(cat', n, r, v) {
      if k != key { assert HasEntry(cat, n, r, v); }
    }
  }

  lemma EntryFirst(cat: Nested, keys: set<string>, key: string, n0: string, r0: string, v0: string, n: string, r: string, v: string)
    requires Agrees(cat, keys) && (forall k | k in keys :: StrLess(k, key)) && Carries(key, n0, r0, v0)
    requires HasEntry(WithEntry(cat, n0, r0, v0, DirOf(key)), n, r, v)
    ensures var all := keys + {key};
            exists k | k in all :: FirstOf(all, k, n, r, v) && WithEntry(cat, n0, r0, v0, DirOf(key))[n][r][v] == DirOf(k)
  {
    var all := keys + {key};
    WithEntryHas(cat, n0, r0, v0, DirOf(key));
    if HasEntry(cat, n, r, v) {
      var k :| k in keys && FirstOf(keys, k, n, r, v) && cat[n][r][v] == DirOf(k);
      StillFirst(keys, key, k, n, r, v);
    } else {
      assert FirstOf(all, key, n, r, v);
    }
  }

  /** One more key that carries nothing. */
  lemma AgreesSkip(cat: Nested, keys: set<string>, key: string)
    requires Agrees(cat, keys) && (forall k | k in keys :: StrLess(k, key)) && |Split(key)| != 9
    ensures Agrees(cat, keys + {key})
  {
    var all := keys + {key};
    forall n, r, v | HasEntry(cat, n, r, v)
      ensures exists k | k in all :: FirstOf(all, k, n, r, v) && cat[n][r][v] == DirOf(k)
    {
      var k :| k in keys && FirstOf(keys, k, n, r, v) && cat[n][r][v] == DirOf(k);
      StillFirst(keys, key, k, n, r, v);
    }
  }

  /** `NewPackageCatalog`, for the keys that the store lists. */
  method NewPackageCatalog(listed: set<string>) returns (pkgIndex: Nested)
    ensures Agrees(pkgIndex, listed)
    ensures forall key | key in listed :: IsFiled(pkgIndex, key)
    ensures forall n, r, v | n in pkgIndex && r in pkgIndex[n] && v in pkgIndex[n][r] :: IsFrom(pkgIndex, listed, n, r, v)
  {
    var keys := SortedKeys(listed);
    pkgIndex := map[];
    for i := 0 to |keys|
      invariant Agrees(pkgIndex, Elems(keys[..i]))
    {
      var key := keys[i];
      TakeNext(keys, i);
      var parts := Split(key);
      if |parts| == 9 {
        AgreesMore(pkgIndex, Elems(keys[..i]), key, parts[6], parts[2], parts[7]);
        pkgIndex := WithEntry(pkgIndex, parts[6], parts[2], parts[7], DirOf(key));
      } else {
        AgreesSkip(pkgIndex, Elems(keys[..i]), key);
      }
    }
    assert keys[..|keys|] == keys;
    forall key | key in listed ensures IsFiled(pkgIndex, key) { KeyFiled(pkgIndex, listed, key); }
    forall n, r, v | n in pkgIndex && r in pkgIndex[n] && v in pkgIndex[n][r] ensures IsFrom(pkgIndex, listed, n, r, v) {
      EntryFrom(pkgIndex, listed, n, r, v);
    }
  }

  // ---------------------------------------------------------------- what the index means

  /** A key of nine segments has an entry: by its seventh segment, the package name, then its third, the
      repository, then its eighth, the version index. */
  predicate IsFiled(cat: Nested, key: string) {
    var parts := Split(key);
    |parts| == 9 ==> parts[6] in cat && parts[2] in cat[parts[6]] && parts[7] in cat[parts[6]][parts[2]]
  }

  /** The key has these three segments, and `dir` followed by its last segment is the key. */
  predicate FilesUnder(key: string, n: string, r: string, v: string, dir: string) {
    var parts := Split(key);
    |parts| == 9 && parts[6] == n && parts[2] == r && parts[7] == v && dir + parts[8] == key
  }

  /** An entry is the directory of a listed key with its three segments, the first of all of these. */
  ghost predicate IsFrom(cat: Nested, listed: set<string>, n: string, r: string, v: string)
    requires n in cat && r in cat[n] && v in cat[n][r]
  {
    exists key | key in listed ::
      && FilesUnder(key, n, r, v, cat[n][r][v])
      && forall key' | key' in listed && key' != key && FilesUnder(key', n, r, v, DirOf(key')) :: StrLess(key, key')
  }

  /** The last slash stands before the last segment. */
  lemma DirAndFile(key: string)
    ensures var parts := Split(key); DirOf(key) + parts[|parts| - 1] == key
  {
    var parts := Split(key);
    var n := |parts| - 1;
    JoinSplit(key);
    assert parts == parts[..n] + [parts[n]];
    if n > 0 {
      JoinAppend(parts[..n], [parts[n]]);
      DirOfJoin(JoinSegs(parts[..n]), parts[n]);
    } else {
      NoDir(key);
    }
  }

  lemma {:induction false} NoDir(s: string)
    requires NoSlash(s)
    ensures DirOf(s) == ""
  {
    if s != "" { NoDir(s[..|s| - 1]); }
  }

  lemma KeyFiled(cat: Nested, listed: set<string>, key: string)
    requires Agrees(cat, listed) && key in listed
    ensures IsFiled(cat, key)
  {
    var parts := Split(key);
    if |parts| == 9 { assert Carries(key, parts[6], parts[2], parts[7]); }
  }

  lemma EntryFrom(cat: Nested, listed: set<string>, n: string, r: string, v: string)
    requires Agrees(cat, listed) && n in cat && r in cat[n] && v in cat[n][r]
    ensures IsFrom(cat, listed, n, r, v)
  {
    var key := FirstKey(cat, listed, n, r, v);
    DirAndFile(key);
    IsFirst(listed, key, n, r, v);
    assert FilesUnder(key, n, r, v, cat[n][r][v]);
  }

  lemma FirstKey(cat: Nested, listed: set<string>, n: string, r: string, v: string) returns (key: string)
    requires Agrees(cat, listed) && n in cat && r in cat[n] && v in cat[n][r]
    ensures FirstOf(listed, key, n, r, v) && cat[n][r][v] == DirOf(key)
  {
    assert HasEntry(cat, n, r, v);
    key :| key in listed && FirstOf(listed, key, n, r, v) && cat[n][r][v] == DirOf(key);
  }

  lemma IsFirst(listed: set<string>, key: string, n: string, r: string, v: string)
    requires FirstOf(listed, key, n, r, v)
    ensures forall key' | key' in listed && key' != key && FilesUnder(key', n, r, v, DirOf(key')) :: StrLess(key, key')
  {
    forall key' | key' in listed && key' != key && FilesUnder(key', n, r, v, DirOf(key')) ensures StrLess(key, key') {
      assert Carries(key', n, r, v);
    }
  }

  /** A file that a sync stores has its package's entry: by the package's name, not its container. */
  lemma FileFiled(cat: Nested, listed: set<string>, i: Int, p: PackageId, version: string, file: string)
    requires Agrees(cat, listed) && CleanPackage(p) && CleanSeg(version) && CleanSeg(file)
    requires FileKey(i, p, version, file) in listed
    ensures p.name in cat && Dec(i) in cat[p.name] && version in cat[p.name][Dec(i)]
    ensures exists key | key in listed :: FilesUnder(key, p.name, Dec(i), version, cat[p.name][Dec(i)][version])
  {
    var key := FileKey(i, p, version, file);
    FileKeySplits(i, p, version, file);
    KeyFiled(cat, listed, key);
    FiledFrom(cat, listed, p.name, Dec(i), version);
  }

  lemma FiledFrom(cat: Nested, listed: set<string>, n: string, r: string, v: string)
    requires Agrees(cat, listed) && n in cat && r in cat[n] && v in cat[n][r]
    ensures exists key | key in listed :: FilesUnder(key, n, r, v, cat[n][r][v])
  {
    EntryFrom(cat, listed, n, r, v);
    var key :| key in listed && FilesUnder(key, n, r, v, cat[n][r][v]);
  }

  /** The listed keys of the package's repository and version are all of its container. */
  ghost predicate OneContainer(listed: set<string>, i: Int, p: PackageId, version: string) {
    forall key | key in listed && FilesUnder(key, p.name, Dec(i), version, DirOf(key)) :: IsFileOf(key, i, p, version)
  }

  ghost predicate IsFileOf(key: string, i: Int, p: PackageId, version: string) {
    exists file :: CleanSeg(file) && key == FileKey(i, p, version, file)
  }

  /** Then the entry is what the keys of all its files begin with. */
  lemma EntryIsDirectory(cat: Nested, listed: set<string>, i: Int, p: PackageId, version: string, file: string)
    requires Agrees(cat, listed) && CleanPackage(p) && CleanSeg(version) && CleanSeg(file)
    requires p.name in cat && Dec(i) in cat[p.name] && version in cat[p.name][Dec(i)]
    requires OneContainer(listed, i, p, version)
    ensures cat[p.name][Dec(i)][version] + file == FileKey(i, p, version, file)
  {
    var dir := cat[p.name][Dec(i)][version];
    FiledFrom(cat, listed, p.name, Dec(i), version);
    var key :| key in listed && FilesUnder(key, p.name, Dec(i), version, dir);
    DirAndFile(key);
    SameStart(dir, DirOf(key), Split(key)[8]);
    assert IsFileOf(key, i, p, version);
    DirectoryOf(key, i, p, version);
    InDirectory(i, p, version, file);
  }

  lemma DirectoryOf(key: string, i: Int, p: PackageId, version: string)
    requires CleanPackage(p) && CleanSeg(version) && IsFileOf(key, i, p, version)
    ensures DirOf(key) == DirectoryKey(i, p, version)
  {
    var other :| CleanSeg(other) && key == FileKey(i, p, version, other);
    FileKeySplits(i, p, version, other);
    InDirectory(i, p, version, other);
    DirAndFile(key);
    SameStart(DirOf(key), DirectoryKey(i, p, version), other);
  }

  ghost function DirectoryKey(i: Int, p: PackageId, version: string): string {
    Rel(RepoSegs(i, PACKAGES + [p.container, p.name, version])) + "/"
  }

  lemma SameStart(a: string, b: string, c: string)
    requires a + c == b + c
    ensures a == b
  {
    assert |a| == |b| && a == (a + c)[..|a|] && b == (b + c)[..|b|];
  }

  lemma InDirectory(i: Int, p: PackageId, version: string, file: string)
    requires CleanPackage(p) && CleanSeg(version) && CleanSeg(file)
    ensures FileKey(i, p, version, file) == DirectoryKey(i, p, version) + file
  {
    var dir := RepoSegs(i, PACKAGES + [p.container, p.name, version]);
    FileKeyIs(i, p, version, file);
    RepoKeyIs(i, FilePath(p, version, file));
    assert RepoSegs(i, FilePath(p, version, file)) == dir + [file];
    JoinAppend(dir, [file]);
  }

  // ---------------------------------------------------------------- packageKeys

  type Pair = (string, string)

  predicate PairLess(a: Pair, b: Pair) { StrLess(a.0, b.0) || (a.0 == b.0 && StrLess(a.1, b.1)) }

  /** The entries of one package under the given repositories, in (repository, version) order, and
      the package keys they hold. */
  ghost predicate ListsEntries(repos: map<string, map<string, string>>, among: set<string>, pairs: seq<Pair>, keys: seq<string>) {
    && |keys| == |pairs|
    && (forall i | 0 <= i < |pairs| :: pairs[i].0 in among && pairs[i].0 in repos && pairs[i].1 in repos[pairs[i].0]
                                       && keys[i] == repos[pairs[i].0][pairs[i].1])
    && (forall r, v | r in among && r in repos && v in repos[r] :: (r, v) in pairs)
    && (forall i, j | 0 <= i < j < |pairs| :: PairLess(pairs[i], pairs[j]))
  }

  /** `keys` are the package keys of the entries under the given repositories, in their order. */
  ghost predicate ListsInOrder(repos: map<string, map<string, string>>, among: set<string>, keys: seq<string>) {
    exists pairs :: ListsEntries(repos, among, pairs, keys)
  }

  lemma PairTotal(a: Pair, b: Pair)
    ensures PairLess(a, b) || a == b || PairLess(b, a)
    ensures !(PairLess(a, b) && PairLess(b, a)) && !PairLess(a, a)
  {
    StrTotal(a.0, b.0);
    StrTotal(a.1, b.1);
  }

  /** Two increasing sequences of the same pairs agree from the start. */
  lemma {:induction false} SamePairs(a: seq<Pair>, b: seq<Pair>)
    requires forall i, j | 0 <= i < j < |a| :: PairLess(a[i], a[j])
    requires forall i, j | 0 <= i < j < |b| :: PairLess(b[i], b[j])
    requires forall x :: x in a <==> x in b
    ensures a == b
  {
    assert b != [] ==> b[0] in b;
    if a != [] {
      assert a[0] in b && b[0] in a;
      var i :| 0 <= i < |b| && b[i] == a[0];
      var j :| 0 <= j < |a| && a[j] == b[0];
      PairTotal(a[0], b[0]);
      PairsAfter(a);
      PairsAfter(b);
      SamePairs(a[1..], b[1..]);
      assert a == [a[0]] + a[1..] && b == [b[0]] + b[1..];
    }
  }

  lemma PairsAfter(a: seq<Pair>)
    requires a != [] && forall i, j | 0 <= i < j < |a| :: PairLess(a[i], a[j])
    ensures forall x :: x in a[1..] <==> x in a && x != a[0]
  {
    forall i | 0 < i < |a| ensures a[i] != a[0] { PairTotal(a[0], a[i]); }
    assert a == [a[0]] + a[1..];
  }

  /** There is only one such list, whatever order the maps were ranged over in. */
  lemma OneOrder(repos: map<string, map<string, string>>, among: set<string>, a: seq<string>, b: seq<string>)
    requires ListsInOrder(repos, among, a) && ListsInOrder(repos, among, b)
    ensures a == b
  {
    var p :| ListsEntries(repos, among, p, a);
    var q :| ListsEntries(repos, among, q, b);
    forall x: Pair ensures x in p <==> x in q {
      if x in p { assert (x.0, x.1) in q; }
      if x in q { assert (x.0, x.1) in p; }
    }
    SamePairs(p, q);
  }

  /** The keys of one repository, in version order. */
  method VersionKeys(repos: map<string, map<string, string>>, repo: string) returns (keys: seq<string>)
    requires repo in repos
    ensures ListsInOrder(repos, {repo}, keys)
  {
    var verIdxs := SortedKeys(repos[repo].Keys);
    keys := [];
    for i := 0 to |verIdxs|
      invariant |keys| == i
      invariant forall j | 0 <= j < i :: verIdxs[j] in repos[repo] && keys[j] == repos[repo][verIdxs[j]]
    {
      assert verIdxs[i] in Elems(verIdxs);
      keys := keys + [repos[repo][verIdxs[i]]];
    }
    VersionsListed(repos, repo, verIdxs, keys);
  }

  function PairedWith(repo: string, verIdxs: seq<string>): (r: seq<Pair>)
    ensures |r| == |verIdxs| && forall i | 0 <= i < |r| :: r[i] == (repo, verIdxs[i])
  {
    seq(|verIdxs|, i requires 0 <= i < |verIdxs| => (repo, verIdxs[i]))
  }

  lemma VersionsListed(repos: map<string, map<string, string>>, repo: string, verIdxs: seq<string>, keys: seq<string>)
    requires repo in repos && Increasing(verIdxs) && Elems(verIdxs) == repos[repo].Keys
    requires |keys| == |verIdxs|
    requires forall j | 0 <= j < |keys| :: verIdxs[j] in repos[repo] && keys[j] == repos[repo][verIdxs[j]]
    ensures ListsInOrder(repos, {repo}, keys)
  {
    var pairs := PairedWith(repo, verIdxs);
    forall r, v | r in {repo} && r in repos && v in repos[r] ensures (r, v) in pairs {
      assert v in Elems(verIdxs);
      var j :| 0 <= j < |verIdxs| && verIdxs[j] == v;
      assert pairs[j] == (repo, v);
    }
    assert forall i, j | 0 <= i < j < |pairs| :: PairLess(pairs[i], pairs[j]);
    assert ListsEntries(repos, {repo}, pairs, keys);
  }

  lemma ListsMore(repos: map<string, map<string, string>>, among: set<string>, pairs: seq<Pair>, keys: seq<string>,
                  repo: string, pairs2: seq<Pair>, keys2: seq<string>)
    requires ListsEntries(repos, among, pairs, keys) && ListsEntries(repos, {repo}, pairs2, keys2)
    requires forall r | r in among :: StrLess(r, repo)
    ensures ListsEntries(repos, among + {repo}, pairs + pairs2, keys + keys2)
  {
    var all, allKeys := pairs + pairs2, keys + keys2;
    forall i | 0 <= i < |all|
      ensures all[i].0 in among + {repo} && all[i].0 in repos && all[i].1 in repos[all[i].0]
      ensures allKeys[i] == repos[all[i].0][all[i].1]
    {
      if i >= |pairs| { assert all[i] == pairs2[i - |pairs|] && allKeys[i] == keys2[i - |pairs|]; }
    }
    forall r, v | r in among + {repo} && r in repos && v in repos[r] ensures (r, v) in all {
      if r == repo { assert (r, v) in pairs2; } else { assert (r, v) in pairs; }
    }
    forall i, j | 0 <= i < j < |all| ensures PairLess(all[i], all[j]) {
      if i < |pairs| <= j { assert all[i].0 in among && all[j] == pairs2[j - |pairs|]; }
      else if |pairs| <= i { assert all[i] == pairs2[i - |pairs|] && all[j] == pairs2[j - |pairs|]; }
    }
  }

  /** `packageKeys`: every entry of every package exactly once, in (repository, version) order. */
  method PackageKeys(cat: Nested) returns (keys: map<string, seq<string>>)
    ensures keys.Keys == cat.Keys
    ensures forall n | n in cat :: ListsInOrder(cat[n], cat[n].Keys, keys[n])
  {
    keys := map[];
    var names := SortedKeys(cat.Keys);
    for i := 0 to |names|
      invariant keys.Keys == Elems(names[..i])
      invariant forall n | n in keys :: n in cat && ListsInOrder(cat[n], cat[n].Keys, keys[n])
    {
      var name := names[i];
      assert name in Elems(names);
      TakeNext(names, i);
      var keySlice := PackageKeySlice(cat[name]);
      keys := keys[name := keySlice];
    }
    assert names[..|names|] == names;
  }

  /** The loops of `packageKeys` for one package. */
  method PackageKeySlice(repos: map<string, map<string, string>>) returns (keySlice: seq<string>)
    ensures ListsInOrder(repos, repos.Keys, keySlice)
  {
    keySlice := [];
    var repoIdxs := SortedKeys(repos.Keys);
    assert ListsEntries(repos, {}, [], []) && Elems(repoIdxs[..0]) == {};
    for i := 0 to |repoIdxs|
      invariant ListsInOrder(repos, Elems(repoIdxs[..i]), keySlice)
    {
      var repoIdx := repoIdxs[i];
      assert repoIdx in Elems(repoIdxs);
      TakeNext(repoIdxs, i);
      var more := VersionKeys(repos, repoIdx);
      InOrderMore(repos, Elems(repoIdxs[..i]), keySlice, repoIdx, more);
      keySlice := keySlice + more;
    }
    assert repoIdxs[..|repoIdxs|] == repoIdxs;
  }

  lemma InOrderMore(repos: map<string, map<string, string>>, among: set<string>, keys: seq<string>, repo: string, more: seq<string>)
    requires ListsInOrder(repos, among, keys) && ListsInOrder(repos, {repo}, more)
    requires forall r | r in among :: StrLess(r, repo)
    ensures ListsInOrder(repos, among + {repo}, keys + more)
  {
    var p :| ListsEntries(repos, among, p, keys);
    var q :| ListsEntries(repos, {repo}, q, more);
    ListsMore(repos, among, p, keys, repo, q, more);
  }

  // ---------------------------------------------------------------- packageVersionIndex

  lemma {:induction false} DirOfJoin(dir: string, file: string)
    requires NoSlash(file)
    ensures DirOf(dir + "/" + file) == dir + "/"
    decreases |file|
  {
    var s := dir + "/" + file;
    if file != "" {
      DirOfJoin(dir, file[..|file| - 1]);
      assert s[..|s| - 1] == dir + "/" + file[..|file| - 1];
      assert s[|s| - 1] == file[|file| - 1];
    }
  }

  /** The version index read back from a package key is the one that its key carries. */
  lemma VersionIndexOfEntry(key: string, name: string, repo: string, version: string)
    requires Carries(key, name, repo, version)
    ensures LastSegment(DirOf(key)) == version
  {
    var parts := Split(key);
    JoinSplit(key);
    assert parts == parts[..8] + [parts[8]];
    JoinAppend(parts[..8], [parts[8]]);
    var dir := JoinSegs(parts[..8]);
    DirOfJoin(dir, parts[8]);
    LastOfDirectory(parts[..8]);
  }

  /** So a package key found under a version index reads back as that index. */
  lemma CatalogVersionIndex(cat: Nested, keys: set<string>, name: string, repo: string, version: string)
    requires Agrees(cat, keys) && HasEntry(cat, name, repo, version)
    ensures LastSegment(cat[name][repo][version]) == version
  {
    var key :| key in keys && FirstOf(keys, key, name, repo, version) && cat[name][repo][version] == DirOf(key);
    VersionIndexOfEntry(key, name, repo, version);
  }
}
