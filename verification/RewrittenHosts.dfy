/** A run in which the order of a merge's keys shows.  The hosts of the API configuration hold the
    ZooKeeper placeholder, and the schema declares them a string, so the second call with an empty
    `mantl` map copies them over themselves; whether it copies the Mesos secret before or after that is
    up to the iteration order of the two keys of `mantl`. */
module RewrittenHosts {
  import opened ConfigHeap
  import opened ConfigOrder
  import opened ConfigRefinement
  import opened ConfigSharing
  import opened ConfigTree
  import opened Definitions
  import opened LiveHosts
  import opened MergeLoop
  import opened PackageDefinitions
  import opened Replacement
  import opened Requests
  import opened RewrittenSecret
  import opened Wrappers

  // ---------------------------------------------------------------- merges key by key

  /** A merge whose override has one key, with a map at it on both sides. */
  lemma OneKey(E: Envs, h: Heap, h': Heap, home: Homes, c: ConfigMap, o: ConfigMap, s: Schema, k: string)
    requires Placed(h, home) && c in h && o in h && home[c] == home[o]
    requires h[o].Keys == {k} && h[o][k].Ref? && k in h[c] && h[c][k].Ref?
    requires h' == Merged(E, h, home, h[c][k].o, h[o][k].o, Sub(s, k))
    ensures h' == Merged(E, h, home, c, o, s)
  {
    LoopStart(E, h, home, c, o, s);
    LoopChildMerged(E, h, h, h', home, c, o, s, {k}, k);
    assert {k} - {k} == {};
    LoopEnd(E, h, h', home, c, o, s);
  }

  /** A merge whose override has two keys, with maps at them on both sides. */
  lemma TwoKeys(E: Envs, h: Heap, h1: Heap, h2: Heap, home: Homes, c: ConfigMap, o: ConfigMap, s: Schema, k1: string, k2: string)
    requires Placed(h, home) && c in h && o in h && home[c] == home[o] && k1 != k2
    requires h[o].Keys == {k1, k2} && h[o][k1].Ref? && h[o][k2].Ref?
    requires k1 in h[c] && h[c][k1].Ref? && k2 in h[c] && h[c][k2].Ref?
    requires h1 == Merged(E, h, home, h[c][k1].o, h[o][k1].o, Sub(s, k1)) && Placed(h1, home)
    requires h2 == Merged(E, h1, home, h[c][k2].o, h[o][k2].o, Sub(s, k2))
    ensures h2 == Merged(E, h, home, c, o, s)
  {
    LoopStart(E, h, home, c, o, s);
    LoopChildMerged(E, h, h, h1, home, c, o, s, {k1, k2}, k1);
    assert {k1, k2} - {k1} == {k2} && {k2} - {k2} == {};
    LoopChildMerged(E, h, h1, h2, home, c, o, s, {k2}, k2);
    LoopEnd(E, h, h2, home, c, o, s);
  }

  // ---------------------------------------------------------------- the hosts on the way

  /** The maps that the lookup of the hosts passes. */
  ghost predicate Along(h: Heap, api: ConfigMap, m: ConfigMap, z: ConfigMap) {
    && api in h && m in h && z in h
    && Entry(h[api], MANTL) == Some(Ref(m)) && Entry(h[m], ZOOKEEPER) == Some(Ref(z))
  }

  lemma HostsAlong(h: Heap, api: ConfigMap, m: ConfigMap, z: ConfigMap, v: string)
    requires Along(h, api, m, z) && Entry(h[z], HOSTS) == Some(Leaf(Str(v)))
    ensures HostsIn(h, api) == Some(v)
  {
    assert HOSTS_PATH[1..] == [ZOOKEEPER, HOSTS] && [ZOOKEEPER, HOSTS][1..] == [HOSTS];
    assert Lookup(h, api, HOSTS_PATH) == Lookup(h, m, [ZOOKEEPER, HOSTS]) == Lookup(h, z, [HOSTS]);
  }

  /** A heap between two that keep these maps keeps them; and before the hosts are written it has the old ones. */
  lemma HostsBetween(h: Heap, h': Heap, w: Heap, home: Homes, api: ConfigMap, m: ConfigMap, z: ConfigMap, v: string, q: Path)
    requires Along(h, api, m, z) && Entry(h[z], HOSTS) == Some(Leaf(Str(v))) && z in home
    requires Between(h, h', w) && OldAt(h, w, home, q) && Keeps(h, h', api, m, m)
    requires h'[z] == h[z] || q == home[z] + [HOSTS]
    ensures HostsIn(w, api) == Some(v)
  {
    SameBetween(h, h', w, {api, m});
    assert Entry(w[z], HOSTS) == Entry(h[z], HOSTS);
    HostsAlong(w, api, m, z, v);
  }

  lemma HostsMoment(W: Path -> Heap, h: Heap, h': Heap, home: Homes, api: ConfigMap, m: ConfigMap, z: ConfigMap, v: string, q: Path)
    requires Along(h, api, m, z) && Entry(h[z], HOSTS) == Some(Leaf(Str(v))) && z in home
    requires Moments(h, h', home, W) && Keeps(h, h', api, m, m) && z in h'
    requires h'[z] == h[z] || q == home[z] + [HOSTS]
    ensures HostsIn(W(q), api) == Some(v)
  {
    assert Between(h, h', W(q)) && OldAt(h, W(q), home, q);
    HostsBetween(h, h', W(q), home, api, m, z, v, q);
  }

  // ---------------------------------------------------------------- the API merge of the second call

  const SECRET_PATH := [MANTL, MESOS, SECRET]

  function Grown(formats: Formats, hosts: string): string { WithHosts(Env(formats, Some(hosts)), hosts) }

  /** What the copy of the secret reads. */
  function HostsRead(formats: Formats, hosts: string, zookeeperFirst: bool): string {
    if zookeeperFirst then Grown(formats, hosts) else hosts
  }

  /** The API configuration's maps: `m` at mantl, `z` and `x` at its two keys. */
  ghost predicate ApiMaps(h: Heap, home: Homes, api: ConfigMap, m: ConfigMap, z: ConfigMap, x: ConfigMap, hosts: string, mesos: MesosConfig) {
    && Placed(h, home) && Along(h, api, m, z) && x in h && home[api] == []
    && h[api].Keys == {MANTL} && h[m].Keys == {ZOOKEEPER, MESOS} && h[m][MESOS] == Ref(x)
    && Denotes(h, Ref(api), ApiConfig(hosts, Some(mesos)))
    && Denotes(h, Ref(z), ZkConfig(hosts)) && Denotes(h, Ref(x), MesosTree(mesos))
    && Entry(h[z], HOSTS) == Some(Leaf(Str(hosts)))
  }

  lemma FindApiMaps(h: Heap, home: Homes, api: ConfigMap, hosts: string, mesos: MesosConfig) returns (m: ConfigMap, z: ConfigMap, x: ConfigMap)
    requires Placed(h, home) && api in h && home[api] == [] && Denotes(h, Ref(api), ApiConfig(hosts, Some(mesos)))
    ensures ApiMaps(h, home, api, m, z, x, hosts, mesos)
  {
    var a, t := ApiConfig(hosts, Some(mesos)), MantlConfig(hosts, Some(mesos));
    assert a.m.Keys == {MANTL} && t.m.Keys == {ZOOKEEPER, MESOS};
    assert Denotes(h, h[api][MANTL], t);
    m := h[api][MANTL].o;
    assert Denotes(h, h[m][ZOOKEEPER], ZkConfig(hosts)) && Denotes(h, h[m][MESOS], MesosTree(mesos));
    z, x := h[m][ZOOKEEPER].o, h[m][MESOS].o;
    assert ZkConfig(hosts).m.Keys == {HOSTS};
    assert Denotes(h, h[z][HOSTS], Str(hosts));
  }

  /** Where they are: neither of `z` and `x` is above any other. */
  ghost predicate Apart(home: Homes, api: ConfigMap, m: ConfigMap, z: ConfigMap, x: ConfigMap) {
    && api in home && m in home && z in home && x in home
    && !(home[z] <= home[api]) && !(home[z] <= home[m]) && !(home[z] <= home[x])
    && !(home[x] <= home[api]) && !(home[x] <= home[m]) && !(home[x] <= home[z])
  }

  lemma ApiHomes(h: Heap, home: Homes, api: ConfigMap, m: ConfigMap, z: ConfigMap, x: ConfigMap, hosts: string, mesos: MesosConfig)
    requires ApiMaps(h, home, api, m, z, x, hosts, mesos)
    ensures Apart(home, api, m, z, x) && home[z] + [HOSTS] == HOSTS_PATH
  {
    assert home[m] == [] + [MANTL] == [MANTL];
    assert home[z] == [MANTL] + [ZOOKEEPER];
    assert home[x] == [MANTL] + [MESOS];
    assert home[z][1] == ZOOKEEPER && home[x][1] == MESOS;
  }

  /** `c`, at mantl in the options, has the API's maps at the two keys. */
  ghost predicate Holds(h: Heap, options: ConfigMap, c: ConfigMap, z: ConfigMap, x: ConfigMap) {
    && options in h && c in h && Entry(h[options], MANTL) == Some(Ref(c))
    && Entry(h[c], ZOOKEEPER) == Some(Ref(z)) && Entry(h[c], MESOS) == Some(Ref(x))
  }

  /** The merge of a map into itself leaves the maps that are not below it alone. */
  lemma MergedElsewhere(E: Envs, h: Heap, h': Heap, home: Homes, x: ConfigMap, s: Schema, y: ConfigMap)
    requires Placed(h, home) && x in h && y in h && !(home[x] <= home[y])
    requires h' == Merged(E, h, home, x, x, s)
    ensures h'[y] == h[y]
  {}

  /** A merge into one map keeps the others. */
  ghost predicate Keeps(h: Heap, h': Heap, api: ConfigMap, m: ConfigMap, y: ConfigMap) {
    && api in h && m in h && y in h && api in h' && m in h' && y in h'
    && h'[api] == h[api] && h'[m] == h[m] && h'[y] == h[y]
  }

  lemma HostsCopied(E: Envs, h: Heap, h': Heap, home: Homes, z: ConfigMap, s: Schema, formats: Formats, hosts: string)
    requires Placed(h, home) && z in h && Entry(h[z], HOSTS) == Some(Leaf(Str(hosts))) && Sub(s, HOSTS).typ == StringType
    requires h' == Merged(E, h, home, z, z, s) && E(home[z] + [HOSTS]) == Env(formats, Some(hosts))
    ensures Entry(h'[z], HOSTS) == Some(Leaf(Str(Grown(formats, hosts))))
  {
    assert home[z][|home[z]|..] == [];
    assert SchemaAt(s, []) == s;
    assert h'[z] == MergedFields(E, home[z], h[z], h[z], s);
  }

  lemma AlongKept(h: Heap, h': Heap, api: ConfigMap, m: ConfigMap, z: ConfigMap)
    requires Along(h, api, m, z) && Keeps(h, h', api, m, m) && z in h'
    ensures Along(h', api, m, z)
  {}

  /** The merge of `z` into itself copies the hosts with the hosts as they were. */
  lemma ZookeeperReads(E: Envs, W: Path -> Heap, h: Heap, h': Heap, home: Homes, api: ConfigMap, m: ConfigMap, z: ConfigMap, x: ConfigMap,
                       s: Schema, hosts: string)
    requires Placed(h, home) && Along(h, api, m, z) && x in h && Apart(home, api, m, z, x)
    requires Entry(h[z], HOSTS) == Some(Leaf(Str(hosts)))
    requires h' == Merged(E, h, home, z, z, s) && Moments(h, h', home, W)
    ensures HostsIn(W(home[z] + [HOSTS]), api) == Some(hosts)
  {
    MergedElsewhere(E, h, h', home, z, s, api);
    MergedElsewhere(E, h, h', home, z, s, m);
    MergedElsewhere(E, h, h', home, z, s, x);
    HostsMoment(W, h, h', home, api, m, z, hosts, home[z] + [HOSTS]);
  }

  /** So it grows them. */
  lemma ZookeeperMerged(E: Envs, h: Heap, h': Heap, home: Homes, api: ConfigMap, m: ConfigMap, z: ConfigMap, x: ConfigMap,
                        s: Schema, formats: Formats, hosts: string)
    requires Placed(h, home) && Along(h, api, m, z) && x in h && Apart(home, api, m, z, x)
    requires Entry(h[z], HOSTS) == Some(Leaf(Str(hosts))) && Sub(s, HOSTS).typ == StringType
    requires h' == Merged(E, h, home, z, z, s) && E(home[z] + [HOSTS]) == Env(formats, Some(hosts))
    ensures Keeps(h, h', api, m, x) && Entry(h'[z], HOSTS) == Some(Leaf(Str(Grown(formats, hosts))))
    ensures Along(h', api, m, z)
  {
    MergedElsewhere(E, h, h', home, z, s, api);
    MergedElsewhere(E, h, h', home, z, s, m);
    MergedElsewhere(E, h, h', home, z, s, x);
    HostsCopied(E, h, h', home, z, s, formats, hosts);
    AlongKept(h, h', api, m, z);
  }

  /** The merge of `x` into itself: it reads the hosts as they are. */
  lemma MesosMerged(E: Envs, W: Path -> Heap, h: Heap, h': Heap, home: Homes, api: ConfigMap, m: ConfigMap, z: ConfigMap, x: ConfigMap,
                    s: Schema, v: string)
    requires Placed(h, home) && Along(h, api, m, z) && x in h && Apart(home, api, m, z, x)
    requires Entry(h[z], HOSTS) == Some(Leaf(Str(v)))
    requires h' == Merged(E, h, home, x, x, s) && Moments(h, h', home, W)
    ensures forall q :: HostsIn(W(q), api) == Some(v)
    ensures Keeps(h, h', api, m, z) && Along(h', api, m, z)
  {
    MergedElsewhere(E, h, h', home, x, s, api);
    MergedElsewhere(E, h, h', home, x, s, m);
    MergedElsewhere(E, h, h', home, x, s, z);
    forall q ensures HostsIn(W(q), api) == Some(v) { HostsMoment(W, h, h', home, api, m, z, v, q); }
    AlongKept(h, h', api, m, z);
  }

  lemma FlatFrame(h: Heap, h': Heap, x: ConfigMap, t: Json)
    requires x in h && x in h' && h'[x] == h[x] && Denotes(h, Ref(x), t) && FlatOk(t)
    ensures Denotes(h', Ref(x), t)
  {
    forall k | k in t.m ensures Denotes(h', h'[x][k], t.m[k]) { assert Denotes(h, h[x][k], t.m[k]); }
  }

  lemma FlatSelf(env: Env, hosts: string, mesos: MesosConfig)
    ensures FlatOk(ZkConfig(hosts)) && Mergeable(ZkConfig(hosts), ZkConfig(hosts), ZK_SCHEMA)
    ensures FlatOk(MesosTree(mesos)) && Mergeable(MesosTree(mesos), MesosTree(mesos), MESOS_SCHEMA)
  {
    FlatMerges(env, ZkConfig(hosts), ZkConfig(hosts), ZK_SCHEMA);
    FlatMerges(env, MesosTree(mesos), MesosTree(mesos), MESOS_SCHEMA);
  }

  /** The key `zookeeper` of the loop. */
  method MergeZookeeper(d: PackageDefinition, z: ConfigMap, ghost place: Homes, ghost m: ConfigMap, ghost x: ConfigMap, ghost hosts: string)
    returns (ghost E: Envs)
    requires Placed(Snap(place.Keys), place) && Along(Snap(place.Keys), d.apiConfig, m, z) && x in place && Apart(place, d.apiConfig, m, z, x)
    requires Denotes(Snap(place.Keys), Ref(z), ZkConfig(hosts)) && Entry(z.fields, HOSTS) == Some(Leaf(Str(hosts)))
    modifies place.Keys
    ensures Snap(place.Keys) == Merged(E, old(Snap(place.Keys)), place, z, z, ZK_SCHEMA)
    ensures E(place[z] + [HOSTS]) == Env(d.files.formats, Some(hosts))
    ensures Keeps(old(Snap(place.Keys)), Snap(place.Keys), d.apiConfig, m, x) && Along(Snap(place.Keys), d.apiConfig, m, z)
    ensures Entry(z.fields, HOSTS) == Some(Leaf(Str(Grown(d.files.formats, hosts))))
  {
    ghost var h := Snap(place.Keys);
    FlatSelf(Env(d.files.formats, None), hosts, MesosConfig("", "", "", false));
    ghost var W := d.MergeConfig(z, z, ZK_SCHEMA, place, ZkConfig(hosts), ZkConfig(hosts));
    E := d.EnvAt(W);
    ZookeeperReads(E, W, h, Snap(place.Keys), place, d.apiConfig, m, z, x, ZK_SCHEMA, hosts);
    ZookeeperMerged(E, h, Snap(place.Keys), place, d.apiConfig, m, z, x, ZK_SCHEMA, d.files.formats, hosts);
  }

  /** The key `mesos` of the loop. */
  method MergeMesos(d: PackageDefinition, x: ConfigMap, ghost place: Homes, ghost m: ConfigMap, ghost z: ConfigMap, ghost mesos: MesosConfig, ghost v: string)
    returns (ghost E: Envs)
    requires Placed(Snap(place.Keys), place) && Along(Snap(place.Keys), d.apiConfig, m, z) && x in place && Apart(place, d.apiConfig, m, z, x)
    requires Denotes(Snap(place.Keys), Ref(x), MesosTree(mesos)) && Entry(z.fields, HOSTS) == Some(Leaf(Str(v)))
    modifies place.Keys
    ensures Snap(place.Keys) == Merged(E, old(Snap(place.Keys)), place, x, x, MESOS_SCHEMA)
    ensures Always(E, Env(d.files.formats, Some(v)))
    ensures Keeps(old(Snap(place.Keys)), Snap(place.Keys), d.apiConfig, m, z) && Along(Snap(place.Keys), d.apiConfig, m, z)
  {
    ghost var h := Snap(place.Keys);
    FlatSelf(Env(d.files.formats, None), "", mesos);
    ghost var W := d.MergeConfig(x, x, MESOS_SCHEMA, place, MesosTree(mesos), MesosTree(mesos));
    E := d.EnvAt(W);
    MesosMerged(E, W, h, Snap(place.Keys), place, d.apiConfig, m, z, x, MESOS_SCHEMA, v);
  }

  // ---------------------------------------------------------------- the two orders

  /** Below `p` as `E1` reads, elsewhere as `E2`. */
  ghost function Joined(E1: Envs, E2: Envs, p: Path): Envs { q => if p <= q then E1(q) else E2(q) }

  lemma JoinedEnvs(E1: Envs, E2: Envs, h: Heap, h1: Heap, h2: Heap, home: Homes, p: Path, k1: string, k2: string,
                   y1: ConfigMap, y2: ConfigMap, s1: Schema, s2: Schema)
    requires Placed(h, home) && Placed(h1, home) && y1 in h && y2 in h && h1.Keys == h.Keys
    requires home[y1] == p + [k1] && home[y2] == p + [k2] && k1 != k2
    requires h1 == Merged(E1, h, home, y1, y1, s1) && h2 == Merged(E2, h1, home, y2, y2, s2)
    ensures h1 == Merged(Joined(E1, E2, p + [k1]), h, home, y1, y1, s1)
    ensures h2 == Merged(Joined(E1, E2, p + [k1]), h1, home, y2, y2, s2)
  {
    var E := Joined(E1, E2, p + [k1]);
    forall q | home[y2] <= q ensures E(q) == E2(q) {
      StepPrefix(p, k1, q);
      StepPrefix(p, k2, q);
    }
    MergedEnvs(E1, E, h, home, y1, y1, s1);
    MergedEnvs(E2, E, h1, home, y2, y2, s2);
  }

  /** The two merges, one after the other, are the merge of the whole API configuration. */
  lemma MergesJoin(E1: Envs, E2: Envs, h: Heap, h1: Heap, h2: Heap, home: Homes, options: ConfigMap, api: ConfigMap, c: ConfigMap, m: ConfigMap,
                   s: Schema, k: string, k1: string, k2: string, y1: ConfigMap, y2: ConfigMap)
    requires Placed(h, home) && options in h && api in h && home[options] == home[api] == [] && c in h && m in h
    requires h[api].Keys == {k} && h[api][k] == Ref(m) && Entry(h[options], k) == Some(Ref(c))
    requires k1 != k2 && h[m].Keys == {k1, k2} && h[m][k1] == Ref(y1) && h[m][k2] == Ref(y2)
    requires Entry(h[c], k1) == Some(Ref(y1)) && Entry(h[c], k2) == Some(Ref(y2))
    requires y1 in h && h1 == Merged(E1, h, home, y1, y1, Sub(Sub(s, k), k1)) && Placed(h1, home)
    requires y2 in h && h2 == Merged(E2, h1, home, y2, y2, Sub(Sub(s, k), k2))
    ensures h2 == Merged(Joined(E1, E2, [k] + [k1]), h, home, options, api, s)
  {
    var E := Joined(E1, E2, [k] + [k1]);
    assert home[c] == home[m] == [] + [k] == [k];
    assert home[y1] == [k] + [k1] && home[y2] == [k] + [k2];
    JoinedEnvs(E1, E2, h, h1, h2, home, [k], k1, k2, y1, y2, Sub(Sub(s, k), k1), Sub(Sub(s, k), k2));
    TwoKeys(E, h, h1, h2, home, c, m, Sub(s, k), k1, k2);
    OneKey(E, h, h2, home, options, api, s, k);
  }

  /** What the merge reads at the two paths that matter. */
  ghost predicate ReadInOrder(E: Envs, formats: Formats, hosts: string, zookeeperFirst: bool) {
    && E(HOSTS_PATH) == Env(formats, Some(hosts))
    && E(SECRET_PATH) == Env(formats, Some(HostsRead(formats, hosts, zookeeperFirst)))
  }

  lemma Schemas()
    ensures Sub(Sub(SCHEMA, MANTL), ZOOKEEPER) == ZK_SCHEMA && Sub(Sub(SCHEMA, MANTL), MESOS) == MESOS_SCHEMA
    ensures [MANTL] + [ZOOKEEPER] + [HOSTS] == HOSTS_PATH && [MANTL] + [MESOS] + [SECRET] == SECRET_PATH
    ensures [MANTL] + [ZOOKEEPER] == [MANTL, ZOOKEEPER] && [MANTL] + [MESOS] == [MANTL, MESOS]
  {}

  lemma JoinedReads(E1: Envs, E2: Envs)
    ensures var E := Joined(E1, E2, [MANTL] + [ZOOKEEPER]); E(HOSTS_PATH) == E1(HOSTS_PATH) && E(SECRET_PATH) == E2(SECRET_PATH)
    ensures var E := Joined(E1, E2, [MANTL] + [MESOS]); E(HOSTS_PATH) == E2(HOSTS_PATH) && E(SECRET_PATH) == E1(SECRET_PATH)
  {
    Schemas();
    StepPrefix([MANTL], ZOOKEEPER, HOSTS_PATH);
    StepPrefix([MANTL], ZOOKEEPER, SECRET_PATH);
    StepPrefix([MANTL], MESOS, HOSTS_PATH);
    StepPrefix([MANTL], MESOS, SECRET_PATH);
  }

  method ZookeeperThenMesos(d: PackageDefinition, z: ConfigMap, x: ConfigMap, ghost place: Homes, ghost m: ConfigMap,
                            ghost hosts: string, ghost mesos: MesosConfig)
    returns (ghost E1: Envs, ghost E2: Envs, ghost h1: Heap)
    requires ApiMaps(Snap(place.Keys), place, d.apiConfig, m, z, x, hosts, mesos)
    modifies place.Keys
    ensures h1 == Merged(E1, old(Snap(place.Keys)), place, z, z, ZK_SCHEMA) && Placed(h1, place)
    ensures Snap(place.Keys) == Merged(E2, h1, place, x, x, MESOS_SCHEMA)
    ensures E1(HOSTS_PATH) == Env(d.files.formats, Some(hosts))
    ensures E2(SECRET_PATH) == Env(d.files.formats, Some(Grown(d.files.formats, hosts)))
  {
    ghost var h := Snap(place.Keys);
    ApiHomes(h, place, d.apiConfig, m, z, x, hosts, mesos);
    FlatSelf(Env(d.files.formats, None), hosts, mesos);
    E1 := MergeZookeeper(d, z, place, m, x, hosts);
    h1 := Snap(place.Keys);
    MergedPlaced(E1, h, place, z, z, ZK_SCHEMA);
    FlatFrame(h, h1, x, MesosTree(mesos));
    E2 := MergeMesos(d, x, place, m, z, mesos, Grown(d.files.formats, hosts));
  }

  method MesosThenZookeeper(d: PackageDefinition, z: ConfigMap, x: ConfigMap, ghost place: Homes, ghost m: ConfigMap,
                            ghost hosts: string, ghost mesos: MesosConfig)
    returns (ghost E1: Envs, ghost E2: Envs, ghost h1: Heap)
    requires ApiMaps(Snap(place.Keys), place, d.apiConfig, m, z, x, hosts, mesos)
    modifies place.Keys
    ensures h1 == Merged(E1, old(Snap(place.Keys)), place, x, x, MESOS_SCHEMA) && Placed(h1, place)
    ensures Snap(place.Keys) == Merged(E2, h1, place, z, z, ZK_SCHEMA)
    ensures E1(SECRET_PATH) == Env(d.files.formats, Some(hosts))
    ensures E2(HOSTS_PATH) == Env(d.files.formats, Some(hosts))
  {
    ghost var h := Snap(place.Keys);
    ApiHomes(h, place, d.apiConfig, m, z, x, hosts, mesos);
    FlatSelf(Env(d.files.formats, None), hosts, mesos);
    E1 := MergeMesos(d, x, place, m, z, mesos, hosts);
    h1 := Snap(place.Keys);
    MergedPlaced(E1, h, place, x, x, MESOS_SCHEMA);
    FlatFrame(h, h1, z, ZkConfig(hosts));
    E2 := MergeZookeeper(d, z, place, m, x, hosts);
  }

  /** Where the merge starts. */
  ghost predicate AtMerge(h: Heap, home: Homes, options: ConfigMap, api: ConfigMap, c: ConfigMap, m: ConfigMap, z: ConfigMap, x: ConfigMap,
                        hosts: string, mesos: MesosConfig)
  {
    ApiMaps(h, home, api, m, z, x, hosts, mesos) && Holds(h, options, c, z, x) && home[options] == []
  }

  lemma ZookeeperThenMesosMerged(E1: Envs, E2: Envs, h: Heap, h1: Heap, h2: Heap, home: Homes, options: ConfigMap, api: ConfigMap,
                                 c: ConfigMap, m: ConfigMap, z: ConfigMap, x: ConfigMap, hosts: string, mesos: MesosConfig)
    requires AtMerge(h, home, options, api, c, m, z, x, hosts, mesos)
    requires h1 == Merged(E1, h, home, z, z, ZK_SCHEMA) && Placed(h1, home) && h2 == Merged(E2, h1, home, x, x, MESOS_SCHEMA)
    ensures h2 == Merged(Joined(E1, E2, [MANTL] + [ZOOKEEPER]), h, home, options, api, SCHEMA)
  {
    Schemas();
    MergesJoin(E1, E2, h, h1, h2, home, options, api, c, m, SCHEMA, MANTL, ZOOKEEPER, MESOS, z, x);
  }

  lemma MesosThenZookeeperMerged(E1: Envs, E2: Envs, h: Heap, h1: Heap, h2: Heap, home: Homes, options: ConfigMap, api: ConfigMap,
                                 c: ConfigMap, m: ConfigMap, z: ConfigMap, x: ConfigMap, hosts: string, mesos: MesosConfig)
    requires AtMerge(h, home, options, api, c, m, z, x, hosts, mesos)
    requires h1 == Merged(E1, h, home, x, x, MESOS_SCHEMA) && Placed(h1, home) && h2 == Merged(E2, h1, home, z, z, ZK_SCHEMA)
    ensures h2 == Merged(Joined(E1, E2, [MANTL] + [MESOS]), h, home, options, api, SCHEMA)
  {
    Schemas();
    Swap(ZOOKEEPER, MESOS);
    MergesJoin(E1, E2, h, h1, h2, home, options, api, c, m, SCHEMA, MANTL, MESOS, ZOOKEEPER, x, z);
  }

  lemma Swap(a: string, b: string)
    ensures {a, b} == {b, a}
  {}

  /** `mergeConfig` of the API configuration into the options, with the loop at mantl in the given order. */
  method MergeMantl(d: PackageDefinition, options: ConfigMap, zookeeperFirst: bool, ghost place: Homes, ghost c: ConfigMap,
                    ghost m: ConfigMap, ghost z: ConfigMap, ghost x: ConfigMap, ghost hosts: string, ghost mesos: MesosConfig)
    returns (ghost E: Envs)
    requires AtMerge(Snap(place.Keys), place, options, d.apiConfig, c, m, z, x, hosts, mesos)
    modifies place.Keys
    ensures Snap(place.Keys) == Merged(E, old(Snap(place.Keys)), place, options, d.apiConfig, SCHEMA)
    ensures ReadInOrder(E, d.files.formats, hosts, zookeeperFirst)
  {
    ghost var h := Snap(place.Keys);
    ghost var E1, E2, h1;
    var zookeeper, other := MantlMaps(options, place, c, z, x);
    if zookeeperFirst {
      E1, E2, h1 := ZookeeperThenMesos(d, zookeeper, other, place, m, hosts, mesos);
      E := Joined(E1, E2, [MANTL] + [ZOOKEEPER]);
      ZookeeperThenMesosMerged(E1, E2, h, h1, Snap(place.Keys), place, options, d.apiConfig, c, m, z, x, hosts, mesos);
    } else {
      E1, E2, h1 := MesosThenZookeeper(d, zookeeper, other, place, m, hosts, mesos);
      E := Joined(E1, E2, [MANTL] + [MESOS]);
      MesosThenZookeeperMerged(E1, E2, h, h1, Snap(place.Keys), place, options, d.apiConfig, c, m, z, x, hosts, mesos);
    }
    JoinedReads(E1, E2);
  }

  /** The maps that the loop comes to. */
  method MantlMaps(options: ConfigMap, ghost place: Homes, ghost c: ConfigMap, ghost z: ConfigMap, ghost x: ConfigMap)
    returns (zookeeper: ConfigMap, mesos: ConfigMap)
    requires Holds(Snap(place.Keys), options, c, z, x)
    ensures zookeeper == z && mesos == x
  {
    var kept := options.fields[MANTL].o;
    zookeeper, mesos := kept.fields[ZOOKEEPER].o, kept.fields[MESOS].o;
  }

  // ---------------------------------------------------------------- what the order leaves

  lemma FlatRewritten(E: Envs, q: Path, t: Json, s: Schema)
    requires FlatOk(t)
    ensures RewrittenAt(E, q, t, s, Maps(t)) == Obj(map k | k in t.m :: Transform(E(q + [k]), t.m[k], Sub(s, k).typ))
  {
    assert [] in Maps(t);
  }

  lemma HostsRewritten(E: Envs, formats: Formats, hosts: string, zookeeperFirst: bool)
    requires ReadInOrder(E, formats, hosts, zookeeperFirst)
    ensures RewrittenAt(E, [MANTL] + [ZOOKEEPER], ZkConfig(hosts), ZK_SCHEMA, Maps(ZkConfig(hosts))) == ZkConfig(Grown(formats, hosts))
  {
    Schemas();
    assert FlatOk(ZkConfig(hosts));
    FlatRewritten(E, [MANTL] + [ZOOKEEPER], ZkConfig(hosts), ZK_SCHEMA);
    var r := RewrittenAt(E, [MANTL] + [ZOOKEEPER], ZkConfig(hosts), ZK_SCHEMA, Maps(ZkConfig(hosts)));
    assert r.m.Keys == {HOSTS} && r.m[HOSTS] == Str(Grown(formats, hosts));
    assert r.m == map[HOSTS := Str(Grown(formats, hosts))];
  }

  function SecretAfter(formats: Formats, hosts: string, mesos: MesosConfig, zookeeperFirst: bool): MesosConfig {
    mesos.(secret := WithHosts(Env(formats, Some(HostsRead(formats, hosts, zookeeperFirst))), mesos.secret))
  }

  lemma SecretSet(mesos: MesosConfig, v: string)
    ensures MesosTree(mesos.(secret := v)).m == MesosTree(mesos).m[SECRET := Str(v)]
  {}

  lemma SecretSchema(k: string)
    ensures Sub(MESOS_SCHEMA, k).typ == if k == SECRET then StringType else OtherType("")
  {}

  lemma SecretFields(E: Envs, q: Path, t: Json, secret: string, formats: Formats, hosts: string)
    requires t.Obj? && forall k | k in t.m :: t.m[k].Str? || t.m[k].Bool?
    requires SECRET in t.m && t.m[SECRET] == Str(secret) && E(q + [SECRET]) == Env(formats, Some(hosts))
    ensures (map k | k in t.m :: Transform(E(q + [k]), t.m[k], Sub(MESOS_SCHEMA, k).typ))
            == t.m[SECRET := Str(WithHosts(Env(formats, Some(hosts)), secret))]
  {
    forall k | k in t.m { SecretSchema(k); }
  }

  lemma SecretRewritten(E: Envs, formats: Formats, hosts: string, mesos: MesosConfig, zookeeperFirst: bool)
    requires ReadInOrder(E, formats, hosts, zookeeperFirst)
    ensures RewrittenAt(E, [MANTL] + [MESOS], MesosTree(mesos), MESOS_SCHEMA, Maps(MesosTree(mesos)))
            == MesosTree(SecretAfter(formats, hosts, mesos, zookeeperFirst))
  {
    var t, v := MesosTree(mesos), SecretAfter(formats, hosts, mesos, zookeeperFirst).secret;
    assert t.m[SECRET] == Str(mesos.secret);
    Schemas();
    FlatRewritten(E, [MANTL] + [MESOS], t, MESOS_SCHEMA);
    SecretFields(E, [MANTL] + [MESOS], t, mesos.secret, formats, HostsRead(formats, hosts, zookeeperFirst));
    SecretSet(mesos, v);
  }

  lemma TwoRewritten(E: Envs, q: Path, k1: string, t1: Json, k2: string, t2: Json, s: Schema, S: Paths)
    requires k1 != k2 && t1.Obj? && t2.Obj?
    ensures RewrittenAt(E, q, Obj(map[k1 := t1, k2 := t2]), s, S) ==
            Obj(map[k1 := RewrittenAt(E, q + [k1], t1, Sub(s, k1), Tail(S, k1)), k2 := RewrittenAt(E, q + [k2], t2, Sub(s, k2), Tail(S, k2))])
  {}

  lemma MantlTails(m: Json, S: Paths)
    requires m.Obj? && ZOOKEEPER in m.m && MESOS in m.m && m.m[ZOOKEEPER].Obj? && m.m[MESOS].Obj? && S == Taken(Obj(map[]), m)
    ensures Tail(S, ZOOKEEPER) == Maps(m.m[ZOOKEEPER]) && Tail(S, MESOS) == Maps(m.m[MESOS])
  {
    TailOfTaken(Obj(map[]), m, ZOOKEEPER);
    TailOfTaken(Obj(map[]), m, MESOS);
  }

  lemma MantlRewritten(E: Envs, formats: Formats, hosts: string, mesos: MesosConfig, zookeeperFirst: bool)
    requires ReadInOrder(E, formats, hosts, zookeeperFirst)
    ensures var m := MantlConfig(hosts, Some(mesos));
            RewrittenAt(E, [MANTL], m, MANTL_SCHEMA, Taken(Obj(map[]), m))
            == MantlConfig(Grown(formats, hosts), Some(SecretAfter(formats, hosts, mesos, zookeeperFirst)))
  {
    var m := MantlConfig(hosts, Some(mesos));
    MantlTails(m, Taken(Obj(map[]), m));
    HostsRewritten(E, formats, hosts, zookeeperFirst);
    SecretRewritten(E, formats, hosts, mesos, zookeeperFirst);
    Schemas();
    TwoRewritten(E, [MANTL], ZOOKEEPER, ZkConfig(hosts), MESOS, MesosTree(mesos), Sub(SCHEMA, MANTL), Taken(Obj(map[]), m));
  }

  /** What the merge leaves of the API configuration. */
  lemma ApiRewritten(E: Envs, formats: Formats, hosts: string, mesos: MesosConfig, zookeeperFirst: bool)
    requires ReadInOrder(E, formats, hosts, zookeeperFirst)
    ensures var a := ApiConfig(hosts, Some(mesos));
            RewrittenAt(E, [], a, SCHEMA, Adopted(OPTIONS, USER, a))
            == ApiConfig(Grown(formats, hosts), Some(SecretAfter(formats, hosts, mesos, zookeeperFirst)))
  {
    var a, m := ApiConfig(hosts, Some(mesos)), MantlConfig(hosts, Some(mesos));
    assert a.m.Keys == {MANTL} && a.m[MANTL] == m && USER.m[MANTL] == Obj(map[]);
    TailOfAdopted(OPTIONS, USER, a, MANTL);
    MantlRewritten(E, formats, hosts, mesos, zookeeperFirst);
    assert [] + [MANTL] == [MANTL] && Sub(SCHEMA, MANTL) == MANTL_SCHEMA;
    var r := RewrittenAt(E, [], a, SCHEMA, Adopted(OPTIONS, USER, a));
    assert r.m == map[MANTL := r.m[MANTL]];
  }

  // ---------------------------------------------------------------- the run

  lemma MapAtTwo(h: Heap, o: ConfigMap, k1: string, k2: string, y: ConfigMap)
    ensures MapAt(h, o, [k1, k2]) == Some(y) <==>
            && o in h && k1 in h[o] && h[o][k1].Ref?
            && var c := h[o][k1].o; c in h && Entry(h[c], k2) == Some(Ref(y)) && y in h
  {
    assert [k1, k2][1..] == [k2] && [k2][1..] == [];
    if o in h && k1 in h[o] && h[o][k1].Ref? {
      var c := h[o][k1].o;
      assert MapAt(h, o, [k1, k2]) == MapAt(h, c, [k2]);
      if c in h && k2 in h[c] && h[c][k2].Ref? { assert MapAt(h, c, [k2]) == MapAt(h, h[c][k2].o, []); }
    }
  }

  lemma MantlKeysAdopted(hosts: string, mesos: MesosConfig)
    ensures var S := Adopted(OPTIONS, USER, ApiConfig(hosts, Some(mesos)));
            [MANTL, ZOOKEEPER] in S && [MANTL, MESOS] in S
  {
    var a, m := ApiConfig(hosts, Some(mesos)), MantlConfig(hosts, Some(mesos));
    assert a.m[MANTL] == m && USER.m[MANTL] == Obj(map[]);
    assert [MANTL, ZOOKEEPER][1..] == [ZOOKEEPER] && [MANTL, MESOS][1..] == [MESOS];
    assert m.m[ZOOKEEPER] == ZkConfig(hosts) && m.m[MESOS] == MesosTree(mesos);
    assert TakenAt(Obj(map[]), m, [ZOOKEEPER]) && TakenAt(Obj(map[]), m, [MESOS]);
  }

  /** The options hold the API's maps when the second API merge begins. */
  lemma MergeReady(h: Heap, home: Homes, options: ConfigMap, api: ConfigMap, hosts: string, mesos: MesosConfig)
    returns (c: ConfigMap, m: ConfigMap, z: ConfigMap, x: ConfigMap)
    requires Placed(h, home) && options in h && api in h && home[options] == home[api] == []
    requires Denotes(h, Ref(api), ApiConfig(hosts, Some(mesos)))
    requires Common(h, options, api) == Adopted(OPTIONS, USER, ApiConfig(hosts, Some(mesos)))
    ensures AtMerge(h, home, options, api, c, m, z, x, hosts, mesos)
  {
    m, z, x := FindApiMaps(h, home, api, hosts, mesos);
    MantlKeysAdopted(hosts, mesos);
    MapAtTwo(h, api, MANTL, ZOOKEEPER, z);
    MapAtTwo(h, api, MANTL, MESOS, x);
    assert MapAt(h, options, [MANTL, ZOOKEEPER]) == Some(z) && MapAt(h, options, [MANTL, MESOS]) == Some(x);
    MapAtTwo(h, options, MANTL, ZOOKEEPER, z);
    MapAtTwo(h, options, MANTL, MESOS, x);
    c := h[options][MANTL].o;
  }

  /** The API configuration that the second call leaves. */
  function ApiInOrder(formats: Formats, hosts: string, mesos: MesosConfig, zookeeperFirst: bool): Json {
    ApiConfig(Grown(formats, hosts), Some(SecretAfter(formats, hosts, mesos, zookeeperFirst)))
  }

  /** The two merges of the second call, the second with its loop at mantl in the given order. */
  method SecondMerges(d: PackageDefinition, formats: Formats, mustache: (string, Json) -> string, zookeeperFirst: bool,
                      ghost hosts: string, ghost mesos: MesosConfig)
    returns (ghost ut: Json)
    requires var api := ApiConfig(hosts, Some(mesos));
             d.files == SecretFiles(formats, mustache) && d.files.Ready(api, USER) && d.files.Ready(api, d.files.UserAfter(api, USER)) &&
             d.Valid(api, d.files.UserAfter(api, USER)) && d.Shared() == Adopted(OPTIONS, USER, api)
    modifies d.home.Keys
    ensures d.Valid(ApiInOrder(formats, hosts, mesos, zookeeperFirst), ut)
  {
    ghost var api := ApiConfig(hosts, Some(mesos));
    ghost var env, u := d.files.EnvOf(api), d.files.UserAfter(api, USER);
    ghost var pu := Merge(env, OPTIONS, u, SCHEMA);
    var options;
    ghost var place, O;
    options, place, O := d.ParseOptions(OPTIONS, api, u);
    d.MergeUser(options, SCHEMA, place, O, OPTIONS, api, u, env);
    ghost var h := Snap(place.Keys);
    AdoptedThrough(OPTIONS, USER, api);
    ghost var c, m, z, x := MergeReady(h, place, options, d.apiConfig, hosts, mesos);
    ghost var E := MergeMantl(d, options, zookeeperFirst, place, c, m, z, x, hosts, mesos);
    ApiMerge(E, h, place, options, d.home.Keys, d.apiConfig, d.userConfig, SCHEMA, OPTIONS, pu, api, u);
    ApiRewritten(E, formats, hosts, mesos, zookeeperFirst);
    ut := AbsorbAt(E, [], OPTIONS, u, api, SCHEMA);
    d.SharedSeen(place, ApiInOrder(formats, hosts, mesos, zookeeperFirst), ut);
  }

  /** A whole call on a definition that shares nothing yet, and then the merges of a second one.  What
      follows them touches neither configuration. */
  method CallInOrder(d: PackageDefinition, formats: Formats, mustache: (string, Json) -> string, zookeeperFirst: bool,
                     ghost hosts: string, ghost mesos: MesosConfig)
    returns (ghost ut: Json)
    requires d.files == SecretFiles(formats, mustache) && d.Valid(ApiConfig(hosts, Some(mesos)), USER) && d.Shared() == iset{}
    modifies d.home.Keys
    ensures d.Valid(ApiInOrder(formats, hosts, mesos, zookeeperFirst), ut)
  {
    ghost var api := ApiConfig(hosts, Some(mesos));
    CallsReady(formats, mustache, hosts, mesos);
    ghost var E := CallOnce(d, api, USER);
    AdoptedOnlyThese(d.files, api);
    ut := SecondMerges(d, formats, mustache, zookeeperFirst, hosts, mesos);
  }

  lemma AdoptedOnlyThese(files: Definition, api: Json)
    requires files.Ready(api, USER) && files.Merges(api)
    ensures files.SharedAfter(api, USER, iset{}) == Adopted(files.render(api).t, USER, api)
  {}

  /** The two orders leave the same API configuration if and only if the secret does not hold the
      placeholder, when the hosts hold it without being it. */
  lemma OrderShows(formats: Formats, hosts: string, mesos: MesosConfig)
    requires Contains(hosts, ZK_PLACEHOLDER) && hosts != ZK_PLACEHOLDER
    ensures ApiInOrder(formats, hosts, mesos, true) == ApiInOrder(formats, hosts, mesos, false) <==> !Contains(mesos.secret, ZK_PLACEHOLDER)
  {
    GrownHostsShow(formats, hosts, mesos.secret);
    var a, b := ApiInOrder(formats, hosts, mesos, true), ApiInOrder(formats, hosts, mesos, false);
    SecretIn(Grown(formats, hosts), SecretAfter(formats, hosts, mesos, true));
    SecretIn(Grown(formats, hosts), SecretAfter(formats, hosts, mesos, false));
  }

  lemma SecretIn(hosts: string, mesos: MesosConfig)
    ensures var a := ApiConfig(hosts, Some(mesos));
            && MANTL in a.m && a.m[MANTL].Obj? && MESOS in a.m[MANTL].m && a.m[MANTL].m[MESOS].Obj?
            && SECRET in a.m[MANTL].m[MESOS].m && a.m[MANTL].m[MESOS].m[SECRET] == Str(mesos.secret)
  {
    var a, m := ApiConfig(hosts, Some(mesos)), MantlConfig(hosts, Some(mesos));
    assert a.m[MANTL] == m && m.m[MESOS] == MesosTree(mesos);
  }
}
