/** Reading the repositories back: their indexes in numeric order, and a package definition laid
    over them file by file. */
module Repositories {
  import opened Paths
  import opened Keys
  import opened Sync
  import opened Wrappers

  // ---------------------------------------------------------------- repository indexes

  /** Up to and including the first slash. */
  function UpToSlash(s: string): string {
    if s == "" then "" else if s[0] == '/' then "/" else [s[0]] + UpToSlash(s[1..])
  }

  /** What kv.Keys lists for a prefix and the separator "/". */
  function ListedKeys(kv: Store, prefix: string): set<string> {
    set key | key in kv && prefix <= key :: prefix + UpToSlash(key[|prefix|..])
  }

  const REPOSITORY_PREFIX := REPOSITORY_ROOT + "/"

  predicate Ascending(s: seq<Int>) { forall i, j | 0 <= i < j < |s| :: s[i] <= s[j] }

  function InsertInt(x: Int, s: seq<Int>): seq<Int> {
    if s == [] || x <= s[0] then [x] + s else [s[0]] + InsertInt(x, s[1..])
  }

  lemma {:induction false} InsertIntMeans(x: Int, s: seq<Int>)
    requires Ascending(s)
    ensures var r := InsertInt(x, s);
            Ascending(r) && |r| == |s| + 1 && forall y :: y in r <==> y == x || y in s
  {
    if s != [] && x > s[0] {
      InsertIntMeans(x, s[1..]);
      var rest := InsertInt(x, s[1..]);
      assert s == [s[0]] + s[1..];
      forall k | 0 <= k < |rest| ensures s[0] <= rest[k] { assert rest[k] in rest; }
    }
  }

  /** The number that a listed key ends in. */
  function Number(key: string): Option<Int> { Atoi(LastSegment(key)) }

  type Numbering = string -> Option<Int>

  function Numbered(num: Numbering, listed: set<string>): set<string> { set key | key in listed && num(key).Some? }

  ghost predicate NumberAmong(num: Numbering, n: Int, listed: set<string>) { exists key | key in listed :: num(key) == Some(n) }

  /** The numbers of the listed keys in numeric order, one for each key that has one. */
  ghost predicate IndexesOf(num: Numbering, idxs: seq<Int>, listed: set<string>) {
    && Ascending(idxs)
    && |idxs| == |Numbered(num, listed)|
    && forall n :: n in idxs <==> NumberAmong(num, n, listed)
  }

  lemma IndexesMore(num: Numbering, idxs: seq<Int>, listed: set<string>, key: string)
    requires IndexesOf(num, idxs, listed) && key !in listed
    ensures IndexesOf(num, match num(key) case None => idxs case Some(n) => InsertInt(n, idxs), listed + {key})
  {
    var all, number := listed + {key}, num(key);
    assert Numbered(num, all) == Numbered(num, listed) + if number.Some? then {key} else {};
    if number.Some? { InsertIntMeans(number.value, idxs); }
    forall n: Int ensures NumberAmong(num, n, all) <==> number == Some(n) || NumberAmong(num, n, listed) {
      assert key in all;
      if k :| k in listed && num(k) == Some(n) { assert k in all; }
    }
  }

  /** `repositoryIndexes`, for the keys that were listed. */
  method RepositoryIndexes(listed: set<string>) returns (idxs: seq<Int>)
    ensures IndexesOf(Number, idxs, listed)
  {
    var num: Numbering := Number;
    idxs := [];
    var todo := listed;
    while todo != {}
      invariant todo <= listed && IndexesOf(num, idxs, listed - todo)
    {
      var key :| key in todo;
      IndexesMore(num, idxs, listed - todo, key);
      assert listed - (todo - {key}) == listed - todo + {key};
      todo := todo - {key};
      match num(key) {
        case None =>
        case Some(n) => idxs := InsertInt(n, idxs);
      }
    }
    assert listed - todo == listed;
  }

  datatype Repository = Repository(name: string, index: Int)

  function Indexes(repos: seq<Repository>): (idxs: seq<Int>)
    ensures |idxs| == |repos| && forall i | 0 <= i < |repos| :: idxs[i] == repos[i].index
  {
    seq(|repos|, i requires 0 <= i < |repos| => repos[i].index)
  }

  /** `repositoryName`: nothing when the read fails, and an empty name when there is none. */
  function RepositoryName(kv: Store, fails: string -> bool): Int -> Option<string> {
    (n: Int) => var key := RepoKey(n, NAME);
                if fails(key) then None else Some(if key in kv then kv[key] else "")
  }

  /** The repositories of the indexes whose name can be read. */
  function Readable(name: Int -> Option<string>, idxs: seq<Int>): seq<Repository> {
    if idxs == [] then []
    else
      var n := idxs[|idxs| - 1];
      Readable(name, idxs[..|idxs| - 1]) + match name(n) case None => [] case Some(text) => [Repository(text, n)]
  }

  lemma {:induction false} ReadableMeans(name: Int -> Option<string>, idxs: seq<Int>)
    requires Ascending(idxs)
    ensures var r := Indexes(Readable(name, idxs));
            Ascending(r) && forall n :: n in r <==> n in idxs && name(n).Some?
  {
    if idxs != [] {
      var n, before := idxs[|idxs| - 1], idxs[..|idxs| - 1];
      ReadableMeans(name, before);
      assert idxs == before + [n];
      var r := Indexes(Readable(name, before));
      assert forall k | 0 <= k < |r| :: r[k] in r && r[k] <= n;
      assert Indexes(Readable(name, idxs)) == r + if name(n).Some? then [n] else [];
    }
  }

  lemma {:induction false} ReadableNames(name: Int -> Option<string>, idxs: seq<Int>)
    ensures forall repo | repo in Readable(name, idxs) :: name(repo.index) == Some(repo.name)
  {
    if idxs != [] { ReadableNames(name, idxs[..|idxs| - 1]); }
  }

  /** `getRepositories`: a repository whose name cannot be read is skipped. */
  method GetRepositories(kv: Store, fails: string -> bool) returns (repos: seq<Repository>)
    ensures Ascending(Indexes(repos))
    ensures forall n :: n in Indexes(repos) <==>
              RepositoryName(kv, fails)(n).Some? && NumberAmong(Number, n, ListedKeys(kv, REPOSITORY_PREFIX))
    ensures forall repo | repo in repos ::
              var key := RepoKey(repo.index, NAME); !fails(key) && repo.name == if key in kv then kv[key] else ""
  {
    var idxs := RepositoryIndexes(ListedKeys(kv, REPOSITORY_PREFIX));
    var name := RepositoryName(kv, fails);
    repos := [];
    for i := 0 to |idxs|
      invariant repos == Readable(name, idxs[..i])
    {
      assert idxs[..i + 1][..i] == idxs[..i];
      match name(idxs[i]) {
        case None =>
        case Some(text) => repos := repos + [Repository(text, idxs[i])];
      }
    }
    assert idxs[..|idxs|] == idxs;
    ReadableMeans(name, idxs);
    ReadableNames(name, idxs);
  }

  // ---------------------------------------------------------------- the overlay

  /** The definition files of a package version. */
  datatype Files = Files(command: string, config: string, marathon: string, package: string, options: string, uninstall: string)

  const COMMAND := "command.json"
  const CONFIG := "config.json"
  const MARATHON := "marathon.json"
  const PACKAGE := "package.json"
  const MANTL := "mantl.json"
  const UNINSTALL := "uninstall.json"

  /** `getPackageDefinitionFile`: a failed read counts as a missing file. */
  function ReadFile(kv: Store, fails: string -> bool, key: string): string {
    if fails(key) || key !in kv then "" else kv[key]
  }

  function FileIn(kv: Store, fails: string -> bool, p: PackageId, version: string, file: string): Int -> string {
    (i: Int) => ReadFile(kv, fails, FileKey(i, p, version, file))
  }

  /** The last non-empty copy. */
  function Last(repos: seq<Int>, copy: Int -> string): string {
    if repos == [] then ""
    else
      var data := copy(repos[|repos| - 1]);
      if |data| > 0 then data else Last(repos[..|repos| - 1], copy)
  }

  function Over(data: string, below: string): string { if |data| > 0 then data else below }

  lemma LastNext(repos: seq<Int>, i: nat, copy: Int -> string)
    requires i < |repos|
    ensures Last(repos[..i + 1], copy) == Over(copy(repos[i]), Last(repos[..i], copy))
  {
    assert repos[..i + 1][..i] == repos[..i];
  }

  /** One repository laid over the definition so far: a non-empty file replaces, another keeps. */
  method LayOver(kv: Store, fails: string -> bool, repo: Int, p: PackageId, version: string, below: Files) returns (d: Files)
    ensures d.command == Over(FileIn(kv, fails, p, version, COMMAND)(repo), below.command)
    ensures d.config == Over(FileIn(kv, fails, p, version, CONFIG)(repo), below.config)
    ensures d.marathon == Over(FileIn(kv, fails, p, version, MARATHON)(repo), below.marathon)
    ensures d.package == Over(FileIn(kv, fails, p, version, PACKAGE)(repo), below.package)
    ensures d.options == Over(FileIn(kv, fails, p, version, MANTL)(repo), below.options)
    ensures d.uninstall == Over(FileIn(kv, fails, p, version, UNINSTALL)(repo), below.uninstall)
  {
    d := below;
    var pkgKey := PathJoin([PackagesKey(repo), PackageVersionKey(p, version)]);
    var data := ReadFile(kv, fails, PathJoin([pkgKey, COMMAND]));
    if |data| > 0 { d := d.(command := data); }
    data := ReadFile(kv, fails, PathJoin([pkgKey, CONFIG]));
    if |data| > 0 { d := d.(config := data); }
    data := ReadFile(kv, fails, PathJoin([pkgKey, MARATHON]));
    if |data| > 0 { d := d.(marathon := data); }
    data := ReadFile(kv, fails, PathJoin([pkgKey, PACKAGE]));
    if |data| > 0 { d := d.(package := data); }
    data := ReadFile(kv, fails, PathJoin([pkgKey, MANTL]));
    if |data| > 0 { d := d.(options := data); }
    data := ReadFile(kv, fails, PathJoin([pkgKey, UNINSTALL]));
    if |data| > 0 { d := d.(uninstall := data); }
  }

  /** Each file of the definition is the last non-empty copy of it. */
  ghost predicate IsOverlay(d: Files, kv: Store, fails: string -> bool, repos: seq<Int>, p: PackageId, version: string) {
    && d.command == Last(repos, FileIn(kv, fails, p, version, COMMAND))
    && d.config == Last(repos, FileIn(kv, fails, p, version, CONFIG))
    && d.marathon == Last(repos, FileIn(kv, fails, p, version, MARATHON))
    && d.package == Last(repos, FileIn(kv, fails, p, version, PACKAGE))
    && d.options == Last(repos, FileIn(kv, fails, p, version, MANTL))
    && d.uninstall == Last(repos, FileIn(kv, fails, p, version, UNINSTALL))
  }

  /** The repository has the file, it can be read, and it is not empty. */
  predicate HasFile(kv: Store, fails: string -> bool, n: Int, p: PackageId, version: string, file: string) {
    var key := FileKey(n, p, version, file);
    !fails(key) && key in kv && kv[key] != ""
  }

  /** `text` is what the last repository that has the file stores under its key, and empty if none has it. */
  ghost predicate LastStored(kv: Store, fails: string -> bool, repos: seq<Int>, p: PackageId, version: string, file: string, text: string) {
    if text == "" then forall i | 0 <= i < |repos| :: !HasFile(kv, fails, repos[i], p, version, file)
    else exists i | 0 <= i < |repos| ::
           && HasFile(kv, fails, repos[i], p, version, file) && kv[FileKey(repos[i], p, version, file)] == text
           && forall j | i < j < |repos| :: !HasFile(kv, fails, repos[j], p, version, file)
  }

  /** The last of the copies that is not empty. */
  lemma {:induction false} LastNonEmpty(repos: seq<Int>, copy: Int -> string)
    ensures var text := Last(repos, copy);
            if text == "" then forall i | 0 <= i < |repos| :: copy(repos[i]) == ""
            else exists i | 0 <= i < |repos| :: copy(repos[i]) == text && forall j | i < j < |repos| :: copy(repos[j]) == ""
  {
    if repos != [] && |copy(repos[|repos| - 1])| == 0 {
      var before := repos[..|repos| - 1];
      LastNonEmpty(before, copy);
      if Last(before, copy) != "" {
        var i :| 0 <= i < |before| && copy(before[i]) == Last(before, copy) && forall j | i < j < |before| :: copy(before[j]) == "";
        assert copy(repos[i]) == Last(before, copy);
      }
    }
  }

  lemma LastIsStored(kv: Store, fails: string -> bool, repos: seq<Int>, p: PackageId, version: string, file: string)
    ensures LastStored(kv, fails, repos, p, version, file, Last(repos, FileIn(kv, fails, p, version, file)))
  {
    var copy := FileIn(kv, fails, p, version, file);
    LastNonEmpty(repos, copy);
    forall n ensures HasFile(kv, fails, n, p, version, file) <==> copy(n) != ""
             ensures copy(n) != "" ==> kv[FileKey(n, p, version, file)] == copy(n)
    {}
    var text := Last(repos, copy);
    if text != "" {
      var i :| 0 <= i < |repos| && copy(repos[i]) == text && forall j | i < j < |repos| :: copy(repos[j]) == "";
      assert HasFile(kv, fails, repos[i], p, version, file);
    }
  }

  /** Each of the six files by its own name. */
  ghost predicate FilesAreStored(d: Files, kv: Store, fails: string -> bool, repos: seq<Int>, p: PackageId, version: string) {
    && LastStored(kv, fails, repos, p, version, "command.json", d.command)
    && LastStored(kv, fails, repos, p, version, "config.json", d.config)
    && LastStored(kv, fails, repos, p, version, "marathon.json", d.marathon)
    && LastStored(kv, fails, repos, p, version, "package.json", d.package)
    && LastStored(kv, fails, repos, p, version, "mantl.json", d.options)
    && LastStored(kv, fails, repos, p, version, "uninstall.json", d.uninstall)
  }

  /** The overlay loop of `GetPackageDefinition`. */
  method Overlay(kv: Store, fails: string -> bool, repos: seq<Int>, p: PackageId, version: string) returns (d: Files)
    ensures IsOverlay(d, kv, fails, repos, p, version)
    ensures FilesAreStored(d, kv, fails, repos, p, version)
  {
    d := LayAll(kv, fails, repos, p, version);
    LastIsStored(kv, fails, repos, p, version, COMMAND);
    LastIsStored(kv, fails, repos, p, version, CONFIG);
    LastIsStored(kv, fails, repos, p, version, MARATHON);
    LastIsStored(kv, fails, repos, p, version, PACKAGE);
    LastIsStored(kv, fails, repos, p, version, MANTL);
    LastIsStored(kv, fails, repos, p, version, UNINSTALL);
  }

  method LayAll(kv: Store, fails: string -> bool, repos: seq<Int>, p: PackageId, version: string) returns (d: Files)
    ensures IsOverlay(d, kv, fails, repos, p, version)
  {
    d := Files("", "", "", "", "", "");
    for i := 0 to |repos|
      invariant IsOverlay(d, kv, fails, repos[..i], p, version)
    {
      d := LayOver(kv, fails, repos[i], p, version, d);
      LastNext(repos, i, FileIn(kv, fails, p, version, COMMAND));
      LastNext(repos, i, FileIn(kv, fails, p, version, CONFIG));
      LastNext(repos, i, FileIn(kv, fails, p, version, MARATHON));
      LastNext(repos, i, FileIn(kv, fails, p, version, PACKAGE));
      LastNext(repos, i, FileIn(kv, fails, p, version, MANTL));
      LastNext(repos, i, FileIn(kv, fails, p, version, UNINSTALL));
    }
    assert repos[..|repos|] == repos;
  }

  // ---------------------------------------------------------------- after a sync

  /** A source's copy of a file. */
  function Copy(s: Source, path: Segs): string { if path in s.files then s.files[path] else "" }

  lemma RepoKeyPrefix(i: Int, rel: Segs)
    requires CleanSegs(rel) && rel != []
    ensures RepoKey(i, rel) == REPOSITORY_PREFIX + (Dec(i) + "/" + Rel(rel))
    ensures REPOSITORY_ROOT <= RepoKey(i, rel)
  {
    RepoKeyIs(i, rel);
    RootClean();
    assert RepoSegs(i, rel) == ROOT + ([Dec(i)] + rel);
    JoinAppend(ROOT, [Dec(i)] + rel);
    JoinAppend([Dec(i)], rel);
  }

  /** What a repository has stored of a file. */
  function StoredText(kv: Store, n: Int, path: Segs): string {
    if RepoKey(n, path) in kv then kv[RepoKey(n, path)] else ""
  }

  /** It is no file that a source has now: the source dropped it, or its repository is no longer configured. */
  ghost predicate Stale(kv: Store, ss: seq<Source>, n: Int, path: Segs) {
    StoredText(kv, n, path) != "" && forall s | s in ss && s.index == n :: path !in s.files
  }

  /** In a synced store nothing is stale. */
  lemma SyncedNotStale(kv: Store, ss: seq<Source>, n: Int, path: Segs)
    requires Synced(kv, ss) && CleanSegs(path) && path != [] && IsArtifact(Rel(path))
    ensures !Stale(kv, ss, n, path)
  {
    var key := RepoKey(n, path);
    if key in kv {
      RepoKeyPrefix(n, path);
      assert KeyOf(key, ss);
      var s' :| s' in ss && (key == NameKey(s') || key == UpdatedKey(s') || exists q | q in Artifacts(s') :: key == RepoKey(s'.index, q));
      BookkeepingDisjoint(n, path, s'.index);
      var q :| q in Artifacts(s') && key == RepoKey(s'.index, q);
      RepoKeyInjective(n, path, s'.index, q);
    }
  }

  /** In a synced store a repository has exactly its source's copy of an artifact. */
  lemma SyncedCopy(kv: Store, ss: seq<Source>, s: Source, path: Segs)
    requires Synced(kv, ss) && s in ss && CleanSegs(path) && path != [] && IsArtifact(Rel(path))
    ensures StoredText(kv, s.index, path) == Copy(s, path)
  {
    SyncedNotStale(kv, ss, s.index, path);
    if path in s.files {
      assert path in Artifacts(s) && Stored(kv, s, path);
    } else {
      forall s' | s' in ss && s'.index == s.index ensures path !in s'.files { SourceByIndex(ss, s, s'); }
    }
  }

  lemma {:induction false} UpToFirst(x: string, rest: string)
    requires NoSlash(x)
    ensures UpToSlash(x + "/" + rest) == x + "/" && UpToSlash(x) == x
  {
    var s := x + "/" + rest;
    if x != "" {
      assert s[1..] == x[1..] + "/" + rest;
      UpToFirst(x[1..], rest);
      assert [x[0]] + (x[1..] + "/") == x + "/";
    }
  }

  /** A key of a repository is listed as the repository's directory, whose last part is the index. */
  lemma ListedAs(i: Int, rel: Segs)
    requires CleanSegs(rel) && rel != []
    ensures var key := RepoKey(i, rel);
            REPOSITORY_PREFIX <= key &&
            var l := REPOSITORY_PREFIX + UpToSlash(key[|REPOSITORY_PREFIX|..]);
            Number(l) == Some(i)
  {
    var key := RepoKey(i, rel);
    RepoKeyPrefix(i, rel);
    DecRead(i);
    assert key[|REPOSITORY_PREFIX|..] == Dec(i) + "/" + Rel(rel);
    UpToFirst(Dec(i), Rel(rel));
    var l := REPOSITORY_PREFIX + (Dec(i) + "/");
    RepoKeyIs(i, []);
    RootClean();
    assert RepoSegs(i, []) == ROOT + [Dec(i)];
    JoinAppend(ROOT, [Dec(i)]);
    var dir := Rel(ROOT + [Dec(i)]);
    assert dir == REPOSITORY_ROOT + "/" + Dec(i);
    assert TrimSlash(l) == l[..|l| - 1] == dir;
    SplitJoin(ROOT + [Dec(i)]);
  }

  /** Every completely stored source has its repository listed. */
  lemma SourcesListed(kv: Store, ss: seq<Source>, idxs: seq<Int>)
    requires AllComplete(kv, ss)
    requires forall n :: n in idxs <==> NumberAmong(Number, n, ListedKeys(kv, REPOSITORY_PREFIX))
    ensures forall s | s in ss :: s.index in idxs
  {
    RootClean();
    forall s | s in ss ensures s.index in idxs {
      ListedAs(s.index, NAME);
      assert NameKey(s) in kv;
      var l := REPOSITORY_PREFIX + UpToSlash(NameKey(s)[|REPOSITORY_PREFIX|..]);
      assert l in ListedKeys(kv, REPOSITORY_PREFIX);
    }
  }

  /** After a sync the listed repositories are the sources' indexes. */
  lemma SyncedIndexes(kv: Store, ss: seq<Source>, idxs: seq<Int>)
    requires Synced(kv, ss)
    requires forall n :: n in idxs <==> NumberAmong(Number, n, ListedKeys(kv, REPOSITORY_PREFIX))
    ensures forall n :: n in idxs <==> exists s | s in ss :: s.index == n
  {
    RootClean();
    SourcesListed(kv, ss, idxs);
    forall n | n in idxs ensures exists s | s in ss :: s.index == n {
      var l :| l in ListedKeys(kv, REPOSITORY_PREFIX) && Number(l) == Some(n);
      var key :| key in kv && REPOSITORY_PREFIX <= key && l == REPOSITORY_PREFIX + UpToSlash(key[|REPOSITORY_PREFIX|..]);
      assert REPOSITORY_ROOT <= key by { assert REPOSITORY_PREFIX[..|REPOSITORY_ROOT|] == REPOSITORY_ROOT; }
      assert KeyOf(key, ss);
      var s :| s in ss && (key == NameKey(s) || key == UpdatedKey(s) || exists q | q in Artifacts(s) :: key == RepoKey(s.index, q));
      var rel: Segs :| rel != [] && CleanSegs(rel) && key == RepoKey(s.index, rel);
      ListedAs(s.index, rel);
    }
  }

  /** The repository of every completely stored source is among those that the program finds, under the
      source's own name. */
  lemma SourceFound(kv: Store, fails: string -> bool, ss: seq<Source>, repos: seq<Repository>, s: Source)
    requires AllComplete(kv, ss) && s in ss && forall key :: !fails(key)
    requires forall n :: n in Indexes(repos) <==> RepositoryName(kv, fails)(n).Some? && NumberAmong(Number, n, ListedKeys(kv, REPOSITORY_PREFIX))
    requires forall repo | repo in repos ::
               var key := RepoKey(repo.index, NAME); !fails(key) && repo.name == if key in kv then kv[key] else ""
    ensures Repository(s.name, s.index) in repos
  {
    NothingSkipped(kv, fails, Indexes(repos));
    SourcesListed(kv, ss, Indexes(repos));
    var i :| 0 <= i < |repos| && Indexes(repos)[i] == s.index;
    assert repos[i] in repos && Complete(kv, s);
    assert repos[i] == Repository(s.name, s.index);
  }

  /** `text` is the non-empty copy of the source with the highest index that has one, and empty if
      none has. */
  ghost predicate FromHighest(ss: seq<Source>, path: Segs, text: string) {
    if text == "" then forall s | s in ss :: Copy(s, path) == ""
    else exists s | s in ss :: Copy(s, path) == text && forall s' | s' in ss && s'.index > s.index :: Copy(s', path) == ""
  }

  lemma {:induction false} LastIsHighest(repos: seq<Int>, copy: Int -> string)
    requires Ascending(repos)
    ensures var text := Last(repos, copy);
            if text == "" then forall i | i in repos :: copy(i) == ""
            else exists i | i in repos :: copy(i) == text && forall j | j in repos && j > i :: copy(j) == ""
  {
    if repos != [] {
      var n := |repos| - 1;
      assert repos == repos[..n] + [repos[n]];
      if |copy(repos[n])| > 0 {
        assert repos[n] in repos;
        assert forall j | j in repos :: j <= repos[n];
      } else {
        LastIsHighest(repos[..n], copy);
      }
    }
  }

  /** Every stale copy of the file lies below a source that has the file. */
  ghost predicate StaleHidden(kv: Store, ss: seq<Source>, repos: seq<Int>, path: Segs) {
    forall n | n in repos && Stale(kv, ss, n, path) :: Above(ss, n, path)
  }

  ghost predicate Above(ss: seq<Source>, n: Int, path: Segs) { exists s | s in ss :: s.index > n && Copy(s, path) != "" }

  /** No stale copy happens to have a source's text. */
  ghost predicate StaleDiffers(kv: Store, ss: seq<Source>, repos: seq<Int>, path: Segs) {
    forall n, s | n in repos && s in ss && Stale(kv, ss, n, path) :: StoredText(kv, n, path) != Copy(s, path)
  }

  lemma OwnCopy(kv: Store, ss: seq<Source>, s: Source, path: Segs)
    requires AllComplete(kv, ss) && s in ss && CleanSegs(path) && path != [] && IsArtifact(Rel(path))
    ensures Copy(s, path) != "" ==> StoredText(kv, s.index, path) == Copy(s, path)
    ensures StoredText(kv, s.index, path) != "" && !Stale(kv, ss, s.index, path) ==> StoredText(kv, s.index, path) == Copy(s, path)
  {
    if path in s.files {
      assert path in Artifacts(s) && Stored(kv, s, path);
    } else {
      forall s' | s' in ss && s'.index == s.index ensures path !in s'.files { SourceByIndex(ss, s, s'); }
    }
  }

  /** The overlay shows the highest source's copy exactly when every stale copy is hidden by a source
      above it, stale copies with a source's text aside. */
  lemma FileFromSources(kv: Store, ss: seq<Source>, repos: seq<Int>, copy: Int -> string, path: Segs)
    requires AllComplete(kv, ss) && Ascending(repos) && forall s | s in ss :: s.index in repos
    requires CleanSegs(path) && path != [] && IsArtifact(Rel(path))
    requires forall n | n in repos :: copy(n) == StoredText(kv, n, path)
    ensures StaleHidden(kv, ss, repos, path) ==> FromHighest(ss, path, Last(repos, copy))
    ensures FromHighest(ss, path, Last(repos, copy)) && StaleDiffers(kv, ss, repos, path) ==> StaleHidden(kv, ss, repos, path)
  {
    var text := Last(repos, copy);
    LastIsHighest(repos, copy);
    forall s | s in ss ensures Copy(s, path) != "" ==> copy(s.index) == Copy(s, path) { OwnCopy(kv, ss, s, path); }
    if text != "" {
      var i :| i in repos && copy(i) == text && forall j | j in repos && j > i :: copy(j) == "";
      if !Stale(kv, ss, i, path) {
        var s :| s in ss && s.index == i && path in s.files;
        OwnCopy(kv, ss, s, path);
        assert Copy(s, path) == text;
        TopHides(kv, ss, repos, copy, path, s);
      }
    }
  }

  /** Below a source whose copy is on top, every stale copy is hidden. */
  lemma TopHides(kv: Store, ss: seq<Source>, repos: seq<Int>, copy: Int -> string, path: Segs, s: Source)
    requires s in ss && path in s.files && Copy(s, path) != "" && forall j | j in repos && j > s.index :: copy(j) == ""
    requires forall n | n in repos :: copy(n) == StoredText(kv, n, path)
    ensures StaleHidden(kv, ss, repos, path)
  {
    forall n | n in repos && Stale(kv, ss, n, path) ensures Above(ss, n, path) { assert n < s.index; }
  }

  lemma FilePathArtifact(p: PackageId, version: string, file: string)
    requires CleanPackage(p) && CleanSeg(version) && CleanSeg(file) && IsArtifact(file)
    ensures CleanSegs(FilePath(p, version, file)) && IsArtifact(Rel(FilePath(p, version, file)))
  {
    RootClean();
    var dir := PACKAGES + [p.container, p.name, version];
    assert FilePath(p, version, file) == dir + [file];
    JoinAppend(dir, [file]);
    ExtOfFile(Rel(dir), file);
  }

  lemma DefinitionFile(file: string)
    requires file in {COMMAND, CONFIG, MARATHON, PACKAGE, MANTL, UNINSTALL}
    ensures CleanSeg(file) && IsArtifact(file)
  {
    var n := |file| - 5;
    assert file == file[..n] + ".json";
    DotJson(file[..n]);
  }

  /** Each of the six files of the definition comes from the highest source that has one. */
  ghost predicate FromSources(ss: seq<Source>, p: PackageId, version: string, d: Files) {
    && FromHighest(ss, FilePath(p, version, COMMAND), d.command)
    && FromHighest(ss, FilePath(p, version, CONFIG), d.config)
    && FromHighest(ss, FilePath(p, version, MARATHON), d.marathon)
    && FromHighest(ss, FilePath(p, version, PACKAGE), d.package)
    && FromHighest(ss, FilePath(p, version, MANTL), d.options)
    && FromHighest(ss, FilePath(p, version, UNINSTALL), d.uninstall)
  }

  lemma NothingSkipped(kv: Store, fails: string -> bool, repos: seq<Int>)
    requires forall key :: !fails(key)
    requires forall n :: n in repos <==> RepositoryName(kv, fails)(n).Some? && NumberAmong(Number, n, ListedKeys(kv, REPOSITORY_PREFIX))
    ensures forall n :: n in repos <==> NumberAmong(Number, n, ListedKeys(kv, REPOSITORY_PREFIX))
  {
    forall n: Int ensures RepositoryName(kv, fails)(n).Some? { assert !fails(RepoKey(n, NAME)); }
  }

  /** The same for each of the six files. */
  ghost predicate AllHidden(kv: Store, ss: seq<Source>, repos: seq<Int>, p: PackageId, version: string) {
    && StaleHidden(kv, ss, repos, FilePath(p, version, COMMAND))
    && StaleHidden(kv, ss, repos, FilePath(p, version, CONFIG))
    && StaleHidden(kv, ss, repos, FilePath(p, version, MARATHON))
    && StaleHidden(kv, ss, repos, FilePath(p, version, PACKAGE))
    && StaleHidden(kv, ss, repos, FilePath(p, version, MANTL))
    && StaleHidden(kv, ss, repos, FilePath(p, version, UNINSTALL))
  }

  ghost predicate AllDiffer(kv: Store, ss: seq<Source>, repos: seq<Int>, p: PackageId, version: string) {
    && StaleDiffers(kv, ss, repos, FilePath(p, version, COMMAND))
    && StaleDiffers(kv, ss, repos, FilePath(p, version, CONFIG))
    && StaleDiffers(kv, ss, repos, FilePath(p, version, MARATHON))
    && StaleDiffers(kv, ss, repos, FilePath(p, version, PACKAGE))
    && StaleDiffers(kv, ss, repos, FilePath(p, version, MANTL))
    && StaleDiffers(kv, ss, repos, FilePath(p, version, UNINSTALL))
  }

  lemma SyncedHides(kv: Store, ss: seq<Source>, repos: seq<Int>, p: PackageId, version: string)
    requires Synced(kv, ss) && CleanPackage(p) && CleanSeg(version)
    ensures AllHidden(kv, ss, repos, p, version)
  {
    forall file | file in {COMMAND, CONFIG, MARATHON, PACKAGE, MANTL, UNINSTALL}
      ensures StaleHidden(kv, ss, repos, FilePath(p, version, file))
    {
      DefinitionFile(file);
      FilePathArtifact(p, version, file);
      forall n ensures !Stale(kv, ss, n, FilePath(p, version, file)) { SyncedNotStale(kv, ss, n, FilePath(p, version, file)); }
    }
  }

  /** One file of an overlay: it is from the sources if, and only if, no stale copy shows. */
  ghost predicate ShownFromSources(kv: Store, ss: seq<Source>, repos: seq<Int>, path: Segs, text: string) {
    && (StaleHidden(kv, ss, repos, path) ==> FromHighest(ss, path, text))
    && (FromHighest(ss, path, text) && StaleDiffers(kv, ss, repos, path) ==> StaleHidden(kv, ss, repos, path))
  }

  lemma OverlaidFile(kv: Store, fails: string -> bool, ss: seq<Source>, repos: seq<Int>, p: PackageId, version: string, file: string)
    requires AllComplete(kv, ss) && Ascending(repos) && forall key :: !fails(key)
    requires forall s | s in ss :: s.index in repos
    requires CleanPackage(p) && CleanSeg(version) && file in {COMMAND, CONFIG, MARATHON, PACKAGE, MANTL, UNINSTALL}
    ensures ShownFromSources(kv, ss, repos, FilePath(p, version, file), Last(repos, FileIn(kv, fails, p, version, file)))
  {
    DefinitionFile(file);
    var path, copy := FilePath(p, version, file), FileIn(kv, fails, p, version, file);
    FilePathArtifact(p, version, file);
    forall n | n in repos ensures copy(n) == StoredText(kv, n, path) { FileKeyIs(n, p, version, file); }
    FileFromSources(kv, ss, repos, copy, path);
  }

  /** Sync to overlay, end to end: when the sources are completely stored, whatever else is, each of the
      six files of a definition is the copy from the source with the numerically highest index that has a
      non-empty one, if and only if every stale copy lies below a source that has the file.  Only the
      if-part counts stale copies that happen to have a source's text. */
  lemma OverlayAfterSync(kv: Store, fails: string -> bool, ss: seq<Source>, repos: seq<Int>, p: PackageId, version: string, d: Files)
    requires AllComplete(kv, ss) && Ascending(repos) && forall key :: !fails(key)
    requires forall n :: n in repos <==> RepositoryName(kv, fails)(n).Some? && NumberAmong(Number, n, ListedKeys(kv, REPOSITORY_PREFIX))
    requires CleanPackage(p) && CleanSeg(version)
    requires IsOverlay(d, kv, fails, repos, p, version)
    ensures AllHidden(kv, ss, repos, p, version) ==> FromSources(ss, p, version, d)
    ensures FromSources(ss, p, version, d) && AllDiffer(kv, ss, repos, p, version) ==> AllHidden(kv, ss, repos, p, version)
  {
    NothingSkipped(kv, fails, repos);
    SourcesListed(kv, ss, repos);
    forall file | file in {COMMAND, CONFIG, MARATHON, PACKAGE, MANTL, UNINSTALL}
      ensures ShownFromSources(kv, ss, repos, FilePath(p, version, file), Last(repos, FileIn(kv, fails, p, version, file)))
    {
      OverlaidFile(kv, fails, ss, repos, p, version, file);
    }
  }

  /** The definition files of a package version, as `GetPackageDefinition` reads them: laid over the
      repositories `idxs` that are listed and named, in numeric order; and after a sync of the sources
      `ss`, when no read fails, each from the highest source that has it, if no stale copy is on top. */
  method DefinitionFiles(kv: Store, fails: string -> bool, p: PackageId, version: string, ghost ss: seq<Source>)
    returns (d: Files, ghost idxs: seq<Int>)
    requires CleanPackage(p) && CleanSeg(version)
    ensures IsOverlay(d, kv, fails, idxs, p, version) && FilesAreStored(d, kv, fails, idxs, p, version) && Ascending(idxs)
    ensures forall n :: n in idxs <==> RepositoryName(kv, fails)(n).Some? && NumberAmong(Number, n, ListedKeys(kv, REPOSITORY_PREFIX))
    ensures AllComplete(kv, ss) && AllHidden(kv, ss, idxs, p, version) && (forall key :: !fails(key)) ==> FromSources(ss, p, version, d)
    ensures Synced(kv, ss) && (forall key :: !fails(key)) ==> FromSources(ss, p, version, d)
  {
    var repos := GetRepositories(kv, fails);
    idxs := Indexes(repos);
    d := Overlay(kv, fails, Indexes(repos), p, version);
    if AllComplete(kv, ss) && forall key :: !fails(key) {
      OverlayAfterSync(kv, fails, ss, idxs, p, version, d);
      if Synced(kv, ss) { SyncedHides(kv, ss, idxs, p, version); }
    }
  }
}
