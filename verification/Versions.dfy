/** The versions of a package: which are supported, which is current, and which one a request
    resolves to.  Go's map iteration order is arbitrary, and sort.Sort is not stable; the
    contracts hold whatever order comes out. */
module Versions {
  import opened Ordering
  import opened Paths
  import opened Catalog
  import opened TextOrder
  import opened Keys
  import opened Wrappers

  datatype PackageVersion = PackageVersion(version: string, index: string, supported: bool)

  type Table = map<string, PackageVersion>

  class Package {
    const name: string
    var supported: bool
    var currentVersion: string
    var versions: Table

    constructor (name: string)
      ensures this.name == name && !supported && currentVersion == "" && versions == map[]
    {
      this.name, supported, currentVersion, versions := name, false, "", map[];
    }
  }

  // ---------------------------------------------------------------- what the store says of a package

  /** Reading the store: whether a package key has a mantl.json, and the version in its package.json,
      if that can be read. */
  datatype Reader = Reader(hasMantl: string -> bool, meta: string -> Option<string>)

  /** The retained versions: for each version string, the index of the last key that has it. */
  function Retained(keys: seq<string>, rd: Reader): map<string, string> {
    if keys == [] then map[]
    else
      var last := keys[|keys| - 1];
      var before := Retained(keys[..|keys| - 1], rd);
      match rd.meta(last)
      case None => before
      case Some(v) => before[v := LastSegment(last)]
  }

  /** The version indexes with a mantl.json, in key order. */
  function SupportedIndexes(keys: seq<string>, rd: Reader): seq<string> {
    if keys == [] then []
    else
      var last := keys[|keys| - 1];
      SupportedIndexes(keys[..|keys| - 1], rd) + if rd.hasMantl(last) then [LastSegment(last)] else []
  }

  /** The last of the indexes that some retained version has. */
  function LastMatch(idxs: seq<string>, r: map<string, string>): Option<string> {
    if idxs == [] then None
    else if idxs[|idxs| - 1] in r.Values then Some(idxs[|idxs| - 1])
    else LastMatch(idxs[..|idxs| - 1], r)
  }

  ghost predicate DistinctIndexes(r: map<string, string>) {
    forall v, w | v in r && w in r && r[v] == r[w] :: v == w
  }

  /** The retained versions, each supported exactly when its index is among `idxs`. */
  function Marked(r: map<string, string>, idxs: seq<string>): Table {
    map v | v in r :: PackageVersion(v, r[v], r[v] in idxs)
  }

  /** No index of the table is greater. */
  predicate IsLatest(t: Table, v: string) {
    v in t && forall w | w in t :: !StrLess(t[v].index, t[w].index)
  }

  /** Current: the version at the last supported index, or else the one at the greatest index. */
  ghost predicate IsCurrent(r: map<string, string>, idxs: seq<string>, current: string) {
    if r == map[] then current == ""
    else match LastMatch(idxs, r)
         case Some(idx) => current in r && r[current] == idx
         case None => IsLatest(Marked(r, idxs), current)
  }

  // ---------------------------------------------------------------- finding versions

  predicate ByMostRecent(t: Table, names: seq<string>) {
    && (forall i | 0 <= i < |names| :: names[i] in t)
    && (forall i, j | 0 <= i < j < |names| :: !StrLess(t[names[i]].index, t[names[j]].index))
  }

  function InsertRecent(t: Table, v: string, names: seq<string>): seq<string>
    requires v in t && forall w | w in names :: w in t
  {
    if names == [] || StrLess(t[names[0]].index, t[v].index) then [v] + names
    else [names[0]] + InsertRecent(t, v, names[1..])
  }

  lemma {:induction false} InsertRecentMeans(t: Table, v: string, names: seq<string>)
    requires v in t && ByMostRecent(t, names)
    ensures var r := InsertRecent(t, v, names);
            ByMostRecent(t, r) && |r| == |names| + 1 && forall w :: w in r <==> w == v || w in names
  {
    if names != [] {
      if StrLess(t[names[0]].index, t[v].index) {
        forall j | 0 <= j < |names| ensures !StrLess(t[v].index, t[names[j]].index) { AfterSmaller(t, names, j, v); }
      } else {
        InsertRecentMeans(t, v, names[1..]);
        var rest := InsertRecent(t, v, names[1..]);
        assert names == [names[0]] + names[1..];
        forall k | 0 <= k < |rest| ensures !StrLess(t[names[0]].index, t[rest[k]].index) { assert rest[k] in rest; }
      }
    }
  }

  lemma AfterSmaller(t: Table, names: seq<string>, j: nat, v: string)
    requires v in t && j < |names| && ByMostRecent(t, names) && StrLess(t[names[0]].index, t[v].index)
    ensures !StrLess(t[v].index, t[names[j]].index)
  {
    StrTotal(t[names[0]].index, t[v].index);
    if StrLess(t[v].index, t[names[j]].index) { StrTrans(t[names[0]].index, t[v].index, t[names[j]].index); }
  }

  /** `sort.Sort(packageVersionByMostRecent(...))`: every version once, greatest index first. */
  method SortByMostRecent(t: Table) returns (names: seq<string>)
    ensures ByMostRecent(t, names) && |names| == |t| && forall v :: v in names <==> v in t
  {
    names := [];
    var todo := t.Keys;
    while todo != {}
      invariant todo <= t.Keys && ByMostRecent(t, names) && |names| == |t.Keys| - |todo|
      invariant forall v :: v in names <==> v in t.Keys - todo
    {
      var v :| v in todo;
      InsertRecentMeans(t, v, names);
      names := InsertRecent(t, v, names);
      todo := todo - {v};
    }
  }

  /** `FindLatestPackageVersion` */
  method FindLatest(t: Table) returns (r: Option<string>)
    ensures r.None? <==> t == map[]
    ensures r.Some? ==> IsLatest(t, r.value)
  {
    var names := SortByMostRecent(t);
    if |names| > 0 {
      StrTotal(t[names[0]].index, t[names[0]].index);
      r := Some(names[0]);
    } else {
      r := None;
    }
  }

  function SupportedOnly(t: Table): Table { map v | v in t && t[v].supported :: t[v] }

  /** `FindLatestSupportedPackageVersion` */
  method FindLatestSupported(t: Table) returns (r: Option<string>)
    ensures r.None? <==> SupportedOnly(t) == map[]
    ensures r.Some? ==> IsLatest(SupportedOnly(t), r.value)
  {
    var names := SortByMostRecent(t);
    for i := 0 to |names|
      invariant forall j | 0 <= j < i :: !t[names[j]].supported
    {
      if t[names[i]].supported {
        StrTotal(t[names[i]].index, t[names[i]].index);
        assert names[i] in names && names[i] in SupportedOnly(t);
        return Some(names[i]);
      }
    }
    r := None;
  }

  /** Unicode case folding and trimming: an equivalence, and an idempotent function. */
  datatype Text = Text(equalFold: (string, string) -> bool, trim: string -> string)

  function Matching(t: Table, text: Text, version: string): set<string> {
    set v | v in t && text.equalFold(t[v].version, text.trim(version))
  }

  /** `GetPackageVersion`: any match, in map order. */
  method GetPackageVersion(t: Table, text: Text, version: string) returns (r: Option<string>)
    ensures r.None? <==> Matching(t, text, version) == {}
    ensures r.Some? ==> r.value in Matching(t, text, version)
  {
    var todo := t.Keys;
    while todo != {}
      invariant todo <= t.Keys && forall v | v in t.Keys - todo :: v !in Matching(t, text, version)
    {
      var v :| v in todo;
      if text.equalFold(t[v].version, text.trim(version)) {
        assert v in Matching(t, text, version);
        return Some(v);
      }
      todo := todo - {v};
    }
    r := None;
  }

  /** What a request resolves to: the requested version, or else the current one, or else the
      greatest supported index, or else the greatest index. */
  ghost predicate Resolves(t: Table, text: Text, current: string, request: string, r: Option<string>) {
    if t == map[] then r.None?
    else r.Some? &&
         if Matching(t, text, request) != {} then r.value in Matching(t, text, request)
         else if Matching(t, text, current) != {} then r.value in Matching(t, text, current)
         else if SupportedOnly(t) != map[] then IsLatest(SupportedOnly(t), r.value)
         else IsLatest(t, r.value)
  }

  /** `FindPackageVersion` */
  method FindPackageVersion(p: Package, text: Text, request: string) returns (r: Option<string>)
    ensures Resolves(p.versions, text, p.currentVersion, request, r)
    ensures r.None? <==> p.versions == map[]
  {
    r := GetPackageVersion(p.versions, text, request);
    if r.None? {
      r := GetPackageVersion(p.versions, text, p.currentVersion);
      if r.None? {
        r := FindLatestSupported(p.versions);
        if r.None? {
          r := FindLatest(p.versions);
        }
      }
    }
  }

  /** The version `v` is what the request asks for, up to case and surrounding space. */
  predicate Fits(t: Table, text: Text, request: string, v: string) { v in t && text.equalFold(t[v].version, text.trim(request)) }

  /** Among the versions of `t`, or only the supported ones, no index is greater than that of `v`. */
  ghost predicate Greatest(t: Table, v: string, supportedOnly: bool) {
    && v in t && (supportedOnly ==> t[v].supported)
    && forall w | w in t && (supportedOnly ==> t[w].supported) :: !StrLess(t[v].index, t[w].index)
  }

  /** What a request resolves to, version by version. */
  lemma ResolvesMeans(t: Table, text: Text, current: string, request: string, r: Option<string>)
    requires Resolves(t, text, current, request, r)
    ensures r.None? <==> t == map[]
    ensures (exists v :: Fits(t, text, request, v)) ==> r.Some? && Fits(t, text, request, r.value)
    ensures (forall v :: !Fits(t, text, request, v)) && (exists v :: Fits(t, text, current, v)) ==> r.Some? && Fits(t, text, current, r.value)
    ensures (forall v :: !Fits(t, text, request, v) && !Fits(t, text, current, v)) && r.Some? ==>
              Greatest(t, r.value, exists v :: v in t && t[v].supported)
  {
    assert forall v, q :: Fits(t, text, q, v) <==> v in Matching(t, text, q);
    assert forall v :: v in SupportedOnly(t) <==> v in t && t[v].supported;
  }

  // ---------------------------------------------------------------- packagesIndex

  lemma NextKey(keys: seq<string>, rd: Reader, i: nat)
    requires i < |keys|
    ensures SupportedIndexes(keys[..i + 1], rd) ==
            SupportedIndexes(keys[..i], rd) + (if rd.hasMantl(keys[i]) then [LastSegment(keys[i])] else [])
    ensures Marked(Retained(keys[..i + 1], rd), []) ==
            match rd.meta(keys[i])
            case None => Marked(Retained(keys[..i], rd), [])
            case Some(v) => Marked(Retained(keys[..i], rd), [])[v := PackageVersion(v, LastSegment(keys[i]), false)]
  {
    assert keys[..i + 1][..i] == keys[..i];
  }

  /** The first loop of `packagesIndex`: versions by name, a later key replacing an earlier one. */
  method CollectVersions(p: Package, keys: seq<string>, rd: Reader) returns (supportedVersions: seq<string>)
    requires p.versions == map[] && !p.supported
    modifies p`versions, p`supported
    ensures p.versions == Marked(Retained(keys, rd), [])
    ensures supportedVersions == SupportedIndexes(keys, rd)
    ensures p.supported <==> supportedVersions != []
  {
    supportedVersions := [];
    var supported := false;
    for i := 0 to |keys|
      invariant p.versions == Marked(Retained(keys[..i], rd), [])
      invariant supportedVersions == SupportedIndexes(keys[..i], rd)
      invariant supported <==> supportedVersions != []
    {
      var key := keys[i];
      NextKey(keys, rd, i);
      var versionIndex := LastSegment(key);
      if rd.hasMantl(key) {
        supported := true;
        supportedVersions := supportedVersions + [versionIndex];
      }
      var meta := rd.meta(key);
      if meta.Some? {
        p.versions := p.versions[meta.value := PackageVersion(meta.value, versionIndex, false)];
      }
    }
    assert keys[..|keys|] == keys;
    p.supported := supported;
  }

  /** The inner loop of the marking: every version at index `sv`, in map order. */
  method MarkIndex(p: Package, ghost r: map<string, string>, ghost done: seq<string>, sv: string)
    requires p.versions == Marked(r, done)
    modifies p`versions, p`currentVersion
    ensures p.versions == Marked(r, done + [sv])
    ensures if sv in r.Values then p.currentVersion in r && r[p.currentVersion] == sv
            else p.currentVersion == old(p.currentVersion)
  {
    var todo := p.versions.Keys;
    ghost var at: set<string> := {};
    while todo != {}
      invariant todo <= r.Keys && at == set v | v in r && v !in todo && r[v] == sv
      invariant p.versions == MarkedWith(r, done, at)
      invariant if at != {} then p.currentVersion in at else p.currentVersion == old(p.currentVersion)
    {
      var v :| v in todo;
      todo := todo - {v};
      if sv == p.versions[v].index {
        p.versions := p.versions[v := p.versions[v].(supported := true)];
        p.currentVersion := p.versions[v].version;
        at := at + {v};
      }
    }
    MarkedAll(r, done, sv, at);
  }

  /** Supported: the versions at an index in `done`, and those in `at`. */
  ghost function MarkedWith(r: map<string, string>, done: seq<string>, at: set<string>): Table {
    map v | v in r :: PackageVersion(v, r[v], r[v] in done || v in at)
  }

  lemma MarkedAll(r: map<string, string>, done: seq<string>, sv: string, at: set<string>)
    requires at == set v | v in r && r[v] == sv
    ensures MarkedWith(r, done, at) == Marked(r, done + [sv])
    ensures at != {} <==> sv in r.Values
  {
    if at != {} {
      var v :| v in at;
      assert r[v] in r.Values;
    }
    if sv in r.Values {
      var v :| v in r && r[v] == sv;
      assert v in at;
    }
  }

  /** What the store says of the package keys is what the package says. */
  ghost predicate Indexed(versions: Table, supported: bool, current: string, keys: seq<string>, rd: Reader) {
    var r, idxs := Retained(keys, rd), SupportedIndexes(keys, rd);
    && versions == Marked(r, idxs)
    && (supported <==> idxs != [])
    && ("" !in r ==> IsCurrent(r, idxs, current))
  }

  // What the results mean, in terms of the keys alone.

  ghost predicate LastKeyOf(keys: seq<string>, rd: Reader, v: string, i: nat) {
    && i < |keys| && rd.meta(keys[i]) == Some(v)
    && forall j | i < j < |keys| :: rd.meta(keys[j]) != Some(v)
  }

  ghost predicate SupportedAt(keys: seq<string>, rd: Reader, idx: string) {
    exists key | key in keys :: rd.hasMantl(key) && LastSegment(key) == idx
  }

  /** `v` is a version of some key, and its index is that of the last such key. */
  ghost predicate RetainedAt(keys: seq<string>, rd: Reader, v: string, idx: string) {
    exists i | 0 <= i < |keys| :: LastKeyOf(keys, rd, v, i) && LastSegment(keys[i]) == idx
  }

  /** The last key with a mantl.json whose index is among `idxs`. */
  ghost predicate LastMatching(keys: seq<string>, rd: Reader, idxs: set<string>, i: nat) {
    && i < |keys| && rd.hasMantl(keys[i]) && LastSegment(keys[i]) in idxs
    && forall j | i < j < |keys| && rd.hasMantl(keys[j]) :: LastSegment(keys[j]) !in idxs
  }

  lemma {:induction false} RetainedMeans(keys: seq<string>, rd: Reader)
    ensures forall v :: v in Retained(keys, rd) <==> exists key | key in keys :: rd.meta(key) == Some(v)
    ensures forall v | v in Retained(keys, rd) :: RetainedAt(keys, rd, v, Retained(keys, rd)[v])
  {
    if keys != [] {
      var n := |keys| - 1;
      var before, last := keys[..n], keys[n];
      RetainedMeans(before, rd);
      assert keys == before + [last];
      forall v | v in Retained(keys, rd) ensures RetainedAt(keys, rd, v, Retained(keys, rd)[v]) {
        RetainedNext(before, last, rd, v);
      }
    }
  }

  lemma RetainedNext(before: seq<string>, last: string, rd: Reader, v: string)
    ensures var idx := LastSegment(last); rd.meta(last) == Some(v) ==> RetainedAt(before + [last], rd, v, idx)
    ensures forall idx | rd.meta(last) != Some(v) && RetainedAt(before, rd, v, idx) :: RetainedAt(before + [last], rd, v, idx)
  {
    var keys := before + [last];
    if rd.meta(last) == Some(v) {
      assert LastKeyOf(keys, rd, v, |before|);
    } else {
      forall idx | RetainedAt(before, rd, v, idx) ensures RetainedAt(keys, rd, v, idx) {
        var i :| 0 <= i < |before| && LastKeyOf(before, rd, v, i) && LastSegment(before[i]) == idx;
        assert LastKeyOf(keys, rd, v, i);
      }
    }
  }

  lemma {:induction false} SupportedMeans(keys: seq<string>, rd: Reader)
    ensures forall idx :: idx in SupportedIndexes(keys, rd) <==> SupportedAt(keys, rd, idx)
  {
    if keys != [] {
      SupportedMeans(keys[..|keys| - 1], rd);
      assert keys == keys[..|keys| - 1] + [keys[|keys| - 1]];
    }
  }

  lemma LastMatchAppend(idxs: seq<string>, x: string, r: map<string, string>)
    ensures LastMatch(idxs + [x], r) == if x in r.Values then Some(x) else LastMatch(idxs, r)
  {
    assert (idxs + [x])[..|idxs|] == idxs;
  }

  /** `res` is the index of the last key with a mantl.json whose index is among `idxs`. */
  ghost predicate Matched(keys: seq<string>, rd: Reader, idxs: set<string>, res: Option<string>) {
    match res
    case None => forall key | key in keys && rd.hasMantl(key) :: LastSegment(key) !in idxs
    case Some(idx) => exists i | 0 <= i < |keys| :: LastMatching(keys, rd, idxs, i) && LastSegment(keys[i]) == idx
  }

  lemma MatchedNext(keys: seq<string>, last: string, rd: Reader, idxs: set<string>, res: Option<string>)
    requires Matched(keys, rd, idxs, res)
    ensures Matched(keys + [last], rd, idxs, if rd.hasMantl(last) && LastSegment(last) in idxs then Some(LastSegment(last)) else res)
  {
    if rd.hasMantl(last) && LastSegment(last) in idxs {
      assert LastMatching(keys + [last], rd, idxs, |keys|);
    } else if res.Some? {
      var i :| 0 <= i < |keys| && LastMatching(keys, rd, idxs, i) && LastSegment(keys[i]) == res.value;
      DecidesMore(keys, last, rd, idxs, i);
    }
  }

  /** The matching index is that of the last key with a mantl.json that any retained version has. */
  lemma {:induction false} LastMatchMeans(keys: seq<string>, rd: Reader, r: map<string, string>)
    ensures Matched(keys, rd, r.Values, LastMatch(SupportedIndexes(keys, rd), r))
  {
    if keys != [] {
      var n := |keys| - 1;
      var before, last := keys[..n], keys[n];
      assert keys == before + [last];
      LastMatchMeans(before, rd, r);
      MatchedNext(before, last, rd, r.Values, LastMatch(SupportedIndexes(before, rd), r));
      LastMatchAppend(SupportedIndexes(before, rd), LastSegment(last), r);
      assert SupportedIndexes(before, rd) + [] == SupportedIndexes(before, rd);
    }
  }

  lemma DecidesMore(keys: seq<string>, last: string, rd: Reader, idxs: set<string>, i: nat)
    requires LastMatching(keys, rd, idxs, i) && !(rd.hasMantl(last) && LastSegment(last) in idxs)
    ensures LastMatching(keys + [last], rd, idxs, i) && (keys + [last])[i] == keys[i]
  {}

  function VersionIndexes(t: Table): set<string> { set v | v in t :: t[v].index }

  lemma MarkedIndexes(r: map<string, string>, idxs: seq<string>)
    ensures VersionIndexes(Marked(r, idxs)) == r.Values
  {
    forall x | x in r.Values ensures x in VersionIndexes(Marked(r, idxs)) {
      var v :| v in r && r[v] == x;
      assert Marked(r, idxs)[v].index == x;
    }
  }

  /** A package as its keys say: its versions are those of the keys, each with the index of the last
      key that has it and supported exactly when some key with that index has a mantl.json; and the
      current version is at the index of the last key with a mantl.json that any version has, or at
      the greatest index if there is no such key. */
  ghost predicate Described(t: Table, supported: bool, current: string, keys: seq<string>, rd: Reader) {
    && (forall v :: v in t <==> exists key | key in keys :: rd.meta(key) == Some(v))
    && (forall v | v in t ::
          t[v].version == v && RetainedAt(keys, rd, v, t[v].index)
          && (t[v].supported <==> SupportedAt(keys, rd, t[v].index)))
    && (supported <==> exists key | key in keys :: rd.hasMantl(key))
    && (t != map[] && "" !in t ==> CurrentDescribed(t, current, keys, rd))
  }

  ghost predicate CurrentDescribed(t: Table, current: string, keys: seq<string>, rd: Reader) {
    && current in t
    && if exists key | key in keys :: rd.hasMantl(key) && LastSegment(key) in VersionIndexes(t)
       then exists i | 0 <= i < |keys| :: LastMatching(keys, rd, VersionIndexes(t), i) && LastSegment(keys[i]) == t[current].index
       else IsLatest(t, current)
  }

  lemma CurrentDescribes(t: Table, current: string, keys: seq<string>, rd: Reader)
    requires var r, idxs := Retained(keys, rd), SupportedIndexes(keys, rd);
             r != map[] && t == Marked(r, idxs) && IsCurrent(r, idxs, current)
    ensures CurrentDescribed(t, current, keys, rd)
  {
    var r, idxs := Retained(keys, rd), SupportedIndexes(keys, rd);
    LastMatchMeans(keys, rd, r);
    MarkedIndexes(r, idxs);
    if LastMatch(idxs, r).Some? {
      var i :| 0 <= i < |keys| && LastMatching(keys, rd, r.Values, i) && LastSegment(keys[i]) == LastMatch(idxs, r).value;
      assert keys[i] in keys;
    }
  }

  lemma IndexedDescribes(t: Table, supported: bool, current: string, keys: seq<string>, rd: Reader)
    requires Indexed(t, supported, current, keys, rd)
    ensures Described(t, supported, current, keys, rd)
  {
    var r, idxs := Retained(keys, rd), SupportedIndexes(keys, rd);
    RetainedMeans(keys, rd);
    SupportedMeans(keys, rd);
    SupportedAny(keys, rd);
    assert t.Keys == r.Keys;
    if t != map[] && "" !in t { CurrentDescribes(t, current, keys, rd); }
  }

  lemma {:induction false} SupportedAny(keys: seq<string>, rd: Reader)
    ensures SupportedIndexes(keys, rd) != [] <==> exists key | key in keys :: rd.hasMantl(key)
  {
    if keys != [] {
      SupportedAny(keys[..|keys| - 1], rd);
      assert keys == keys[..|keys| - 1] + [keys[|keys| - 1]];
    }
  }

  ghost predicate IndexedAs(p: Package, name: string, keys: seq<string>, rd: Reader)
    reads p
  {
    p.name == name && Indexed(p.versions, p.supported, p.currentVersion, keys, rd)
  }

  /** One package of `packagesIndex`. */
  method IndexPackage(name: string, keys: seq<string>, rd: Reader) returns (p: Package)
    ensures fresh(p) && IndexedAs(p, name, keys, rd)
    ensures Described(p.versions, p.supported, p.currentVersion, keys, rd)
  {
    p := new Package(name);
    var idxs := CollectVersions(p, keys, rd);
    ghost var r := Retained(keys, rd);
    for i := 0 to |idxs|
      invariant p.versions == Marked(r, idxs[..i])
      invariant p.supported <==> idxs != []
      invariant match LastMatch(idxs[..i], r)
                case Some(idx) => p.currentVersion in r && r[p.currentVersion] == idx
                case None => p.currentVersion == ""
    {
      MarkIndex(p, r, idxs[..i], idxs[i]);
      assert idxs[..i + 1] == idxs[..i] + [idxs[i]] && idxs[..i + 1][..i] == idxs[..i];
    }
    assert idxs[..|idxs|] == idxs;
    if p.currentVersion == "" {
      var latest := FindLatest(p.versions);
      if latest.Some? {
        p.currentVersion := p.versions[latest.value].version;
      }
    }
    IndexedDescribes(p.versions, p.supported, p.currentVersion, keys, rd);
  }

  /** `packagesIndex`: the packages of the catalog in name order, each indexed from its own keys. */
  method PackagesIndex(cat: Nested, rd: Reader)
    returns (packages: seq<Package>, keyMap: map<string, seq<string>>, names: seq<string>)
    ensures keyMap.Keys == cat.Keys
    ensures forall n | n in cat :: ListsInOrder(cat[n], cat[n].Keys, keyMap[n])
    ensures Increasing(names) && Elems(names) == cat.Keys && |packages| == |names|
    ensures forall i | 0 <= i < |packages| :: names[i] in keyMap && IndexedAs(packages[i], names[i], keyMap[names[i]], rd)
  {
    keyMap := PackageKeys(cat);
    names := SortedKeys(cat.Keys);
    packages := IndexAll(names, keyMap, rd);
  }

  method IndexAll(names: seq<string>, keyMap: map<string, seq<string>>, rd: Reader) returns (packages: seq<Package>)
    requires Elems(names) <= keyMap.Keys
    ensures |packages| == |names|
    ensures forall i | 0 <= i < |packages| :: names[i] in keyMap && IndexedAs(packages[i], names[i], keyMap[names[i]], rd)
  {
    packages := [];
    for i := 0 to |names|
      invariant |packages| == i
      invariant forall j | 0 <= j < i :: names[j] in keyMap && IndexedAs(packages[j], names[j], keyMap[names[j]], rd)
    {
      var pkg := IndexNext(names, keyMap, rd, i);
      packages := packages + [pkg];
    }
  }

  method IndexNext(names: seq<string>, keyMap: map<string, seq<string>>, rd: Reader, i: nat) returns (pkg: Package)
    requires Elems(names) <= keyMap.Keys && i < |names|
    ensures fresh(pkg) && names[i] in keyMap && IndexedAs(pkg, names[i], keyMap[names[i]], rd)
  {
    assert names[i] in Elems(names);
    pkg := IndexPackage(names[i], keyMap[names[i]], rd);
  }

  // ---------------------------------------------------------------- consequences

  /** The index that the current version is to have: the last supported one that some version has, or
      else the greatest. */
  ghost predicate IsChosen(r: map<string, string>, idxs: seq<string>, i: string) {
    match LastMatch(idxs, r)
    case Some(idx) => i == idx
    case None => i in r.Values && forall j | j in r.Values :: !StrLess(i, j)
  }

  /** At most one version has the chosen index. */
  ghost predicate OneChosen(r: map<string, string>, idxs: seq<string>) {
    forall v, w | v in r && w in r && IsChosen(r, idxs, r[v]) && IsChosen(r, idxs, r[w]) :: v == w
  }

  lemma CurrentIsChosen(r: map<string, string>, idxs: seq<string>, a: string)
    requires r != map[]
    ensures IsCurrent(r, idxs, a) <==> a in r && IsChosen(r, idxs, r[a])
  {
    if a in r && LastMatch(idxs, r).None? {
      var t := Marked(r, idxs);
      assert forall w | w in r :: r[w] in r.Values && w in t && t[w].index == r[w];
      forall j | j in r.Values && IsLatest(t, a) ensures !StrLess(r[a], j) {
        var w :| w in r && r[w] == j;
      }
    }
  }

  /** The current version does not depend on any iteration order if and only if at most one version
      has the chosen index; distinct indexes are enough. */
  lemma CurrentUnique(r: map<string, string>, idxs: seq<string>)
    requires r != map[]
    ensures (forall a, b | IsCurrent(r, idxs, a) && IsCurrent(r, idxs, b) :: a == b) <==> OneChosen(r, idxs)
    ensures DistinctIndexes(r) ==> OneChosen(r, idxs)
  {
    forall a ensures IsCurrent(r, idxs, a) <==> a in r && IsChosen(r, idxs, r[a]) { CurrentIsChosen(r, idxs, a); }
    forall v, w | v in r && w in r && IsChosen(r, idxs, r[v]) && IsChosen(r, idxs, r[w]) ensures r[v] == r[w] {
      StrTotal(r[v], r[w]);
    }
  }

  lemma IndexedIsCurrent(t: Table, supported: bool, current: string, keys: seq<string>, rd: Reader)
    requires Indexed(t, supported, current, keys, rd) && "" !in Retained(keys, rd)
    ensures forall a :: Indexed(t, supported, a, keys, rd) <==> IsCurrent(Retained(keys, rd), SupportedIndexes(keys, rd), a)
  {}

  /** Nothing else that `packagesIndex` says of a package depends on it; and for version strings that
      are not empty, what it says is the same in every order if and only if one version is chosen. */
  lemma IndexUnique(repos: map<string, map<string, string>>, rd: Reader, keys: seq<string>, keys': seq<string>,
                    t: Table, t': Table, supported: bool, supported': bool, current: string, current': string)
    requires ListsInOrder(repos, repos.Keys, keys) && Indexed(t, supported, current, keys, rd)
    requires ListsInOrder(repos, repos.Keys, keys') && Indexed(t', supported', current', keys', rd)
    ensures keys == keys' && t == t' && supported == supported'
    ensures var r := Retained(keys, rd);
            "" !in r && r != map[] ==>
              ((forall a, b | Indexed(t, supported, a, keys, rd) && Indexed(t, supported, b, keys, rd) :: a == b)
               <==> OneChosen(r, SupportedIndexes(keys, rd)))
  {
    OneOrder(repos, repos.Keys, keys, keys');
    var r, idxs := Retained(keys, rd), SupportedIndexes(keys, rd);
    if "" !in r && r != map[] {
      IndexedIsCurrent(t, supported, current, keys, rd);
      CurrentUnique(r, idxs);
    }
  }

  lemma {:induction false} LastMatchFound(idxs: seq<string>, r: map<string, string>)
    requires exists i | 0 <= i < |idxs| :: idxs[i] in r.Values
    ensures LastMatch(idxs, r).Some? && LastMatch(idxs, r).value in idxs
  {
    var n := |idxs| - 1;
    if idxs[n] !in r.Values {
      var i :| 0 <= i < |idxs| && idxs[i] in r.Values;
      assert idxs[..n][i] == idxs[i];
      LastMatchFound(idxs[..n], r);
    }
  }

  /** Version strings that folding and trimming keep apart, none of them empty. */
  ghost predicate PlainVersions(r: map<string, string>, text: Text) {
    && text.trim("") == ""
    && (forall v | v in r :: text.trim(v) == v && text.equalFold(v, v) && !text.equalFold(v, ""))
    && (forall v, w | v in r && w in r && text.equalFold(v, w) :: v == w)
  }

  /** A request without a version resolves to the current version; and that is a supported one as
      soon as any version is. */
  lemma UnversionedIsSupported(keys: seq<string>, rd: Reader, text: Text, current: string, res: Option<string>)
    requires var r, idxs := Retained(keys, rd), SupportedIndexes(keys, rd);
             && PlainVersions(r, text) && r != map[] && IsCurrent(r, idxs, current)
             && Resolves(Marked(r, idxs), text, current, "", res)
    ensures var t := Marked(Retained(keys, rd), SupportedIndexes(keys, rd));
            && res == Some(current)
            && ((exists v | v in t :: t[v].supported) ==> current in t && t[current].supported)
  {
    var r, idxs := Retained(keys, rd), SupportedIndexes(keys, rd);
    var t := Marked(r, idxs);
    assert current in r;
    assert Matching(t, text, "") == {};
    assert Matching(t, text, current) == {current};
    if v :| v in t && t[v].supported {
      var i :| 0 <= i < |idxs| && idxs[i] == r[v];
      LastMatchFound(idxs, r);
    }
  }

  /** Indexes are compared as text.  For printed numbers, the greatest number is the latest version if
      and only if every smaller one is at most its leading digits; so 10 is not later than 9. */
  lemma GreatestIsLatest(t: Table, num: map<string, nat>, v: string)
    requires num.Keys == t.Keys && forall w | w in t :: t[w].index == Digits(num[w])
    requires v in t && forall w | w in t :: num[w] <= num[v]
    ensures IsLatest(t, v) <==>
            forall w | w in t && num[w] < num[v] :: num[w] <= Leading(num[v], |Digits(num[w])|)
  {
    forall w | w in t
      ensures !StrLess(t[v].index, t[w].index) <==>
              num[w] == num[v] || num[w] <= Leading(num[v], |Digits(num[w])|)
    {
      StrTotal(Digits(num[v]), Digits(num[w]));
      if num[w] < num[v] { SmallerIsLess(num[w], num[v]); }
    }
  }

  /** With equally many digits throughout, the greatest number is the latest. */
  lemma PaddedIsLatest(t: Table, num: map<string, nat>, v: string)
    requires num.Keys == t.Keys && forall w | w in t :: t[w].index == Digits(num[w])
    requires v in t && forall w | w in t :: |Digits(num[w])| == |Digits(num[v])|
    ensures IsLatest(t, v) <==> forall w | w in t :: num[w] <= num[v]
  {
    forall w | w in t ensures StrLess(t[v].index, t[w].index) <==> num[v] < num[w] { SameLength(num[v], num[w]); }
  }
}
