/** A run in which repeated calls rewrite the shared API configuration.  The request brings an empty
    `mantl` map, mantl.json has none, the schema declares the hosts and the Mesos secret strings, and
    the secret holds the ZooKeeper placeholder. */
module RewrittenSecret {
  import opened ConfigLaws
  import opened ConfigSharing
  import opened ConfigTree
  import opened Definitions
  import opened PackageDefinitions
  import opened Replacement
  import opened Requests
  import opened Wrappers

  const MESOS_SCHEMA := Schema(ObjectType, map[SECRET := Schema(StringType, map[], Null)], Null)
  const ZK_SCHEMA := Schema(ObjectType, map[HOSTS := Schema(StringType, map[], Null)], Null)
  const MANTL_SCHEMA := Schema(ObjectType, map[ZOOKEEPER := ZK_SCHEMA, MESOS := MESOS_SCHEMA], Null)
  const SCHEMA := Schema(ObjectType, map[MANTL := MANTL_SCHEMA], Null)

  /** The trees that come up: maps down to the ZooKeeper and Mesos configuration, plain values in
      them. */
  predicate FlatOk(t: Json) { t.Obj? && forall k | k in t.m :: !t.m[k].Obj? && (k in {HOSTS, SECRET} ==> t.m[k].Str?) }

  predicate MantlOk(t: Json) { t.Obj? && t.m.Keys <= {ZOOKEEPER, MESOS} && forall k | k in t.m :: FlatOk(t.m[k]) }

  predicate SecretTree(t: Json) { t.Obj? && t.m.Keys <= {MANTL} && (MANTL in t.m ==> MantlOk(t.m[MANTL])) }

  /** Only hosts and secrets are declared, as strings. */
  predicate FlatSchema(s: Schema) {
    forall k | k in s.properties :: s.properties[k].typ == if k in {HOSTS, SECRET} then StringType else OtherType("")
  }

  lemma FlatSchemas(k: string)
    ensures FlatSchema(Sub(MANTL_SCHEMA, k))
  {}

  lemma FlatMerges(env: Env, c: Json, o: Json, s: Schema)
    requires FlatOk(c) && FlatOk(o) && FlatSchema(s)
    ensures Mergeable(c, o, s) && FlatOk(Merge(env, c, o, s))
  {}

  lemma MantlMerges(env: Env, c: Json, o: Json)
    requires MantlOk(c) && MantlOk(o)
    ensures Mergeable(c, o, MANTL_SCHEMA) && MantlOk(Merge(env, c, o, MANTL_SCHEMA))
  {
    forall k | BothMaps(c, o, k)
      ensures Mergeable(c.m[k], o.m[k], Sub(MANTL_SCHEMA, k)) && FlatOk(Merge(env, c.m[k], o.m[k], Sub(MANTL_SCHEMA, k)))
    {
      FlatSchemas(k);
      FlatMerges(env, c.m[k], o.m[k], Sub(MANTL_SCHEMA, k));
    }
  }

  lemma TreeMerges(env: Env, c: Json, o: Json)
    requires SecretTree(c) && SecretTree(o)
    ensures Mergeable(c, o, SCHEMA) && SecretTree(Merge(env, c, o, SCHEMA))
  {
    if MANTL in c.m && MANTL in o.m { MantlMerges(env, c.m[MANTL], o.m[MANTL]); }
  }

  lemma DefaultOk(env: Env)
    ensures DefaultsAccepted(SCHEMA) && SecretTree(Default(env, SCHEMA))
  {
    MantlDefault(env);
    assert Default(env, SCHEMA).m.Keys == {MANTL};
  }

  lemma MantlDefault(env: Env)
    ensures DefaultsAccepted(MANTL_SCHEMA) && MantlOk(Default(env, MANTL_SCHEMA))
  {
    NoDefaults(env, MESOS_SCHEMA);
    NoDefaults(env, ZK_SCHEMA);
    assert Default(env, MANTL_SCHEMA).m.Keys == {ZOOKEEPER, MESOS};
  }

  lemma NoDefaults(env: Env, s: Schema)
    requires forall k | k in s.properties :: s.properties[k].default == Null && s.properties[k].typ == StringType
    ensures DefaultsAccepted(s) && Default(env, s) == Obj(map[])
  {
    assert Default(env, s).m == map[];
  }

  lemma LayersOk(env: Env, p: Json, u: Json, a: Json)
    requires SecretTree(p) && SecretTree(u) && SecretTree(a)
    ensures LayersMergeable(env, p, u, a, SCHEMA)
  {
    TreeMerges(env, p, u);
    TreeMerges(env, Merge(env, p, u, SCHEMA), a);
    DefaultOk(env);
    TreeMerges(env, Default(env, SCHEMA), Options(env, p, u, a, SCHEMA));
  }

  lemma ApiTreeOk(hosts: string, mesos: MesosConfig)
    ensures SecretTree(ApiConfig(hosts, Some(mesos)))
  {
    var z, m := ZkConfig(hosts), MesosTree(mesos);
    assert z.m.Keys == {HOSTS} && FlatOk(z) && FlatOk(m);
    var c := MantlConfig(hosts, Some(mesos));
    assert c.m.Keys == {ZOOKEEPER, MESOS} && c.m[ZOOKEEPER] == z && c.m[MESOS] == m;
  }

  const USER := Obj(map[MANTL := Obj(map[])])
  const OPTIONS := Obj(map[])

  lemma AbsorbOk(env: Env, a: Json)
    requires SecretTree(a)
    ensures SecretTree(Absorb(env, OPTIONS, USER, a, SCHEMA))
  {
    if MANTL in a.m { MantlMerges(env, USER.m[MANTL], a.m[MANTL]); }
  }

  function SecretFiles(formats: Formats, mustache: (string, Json) -> string): Definition {
    Definition(formats, Some(SCHEMA), (a: Json) => Parsed(OPTIONS), mustache)
  }

  /** The calls trip no type assertion. */
  lemma CallsReady(formats: Formats, mustache: (string, Json) -> string, hosts: string, mesos: MesosConfig)
    ensures var files, api := SecretFiles(formats, mustache), ApiConfig(hosts, Some(mesos));
            files.Ready(api, USER) && files.Merges(api) && files.Ready(api, files.UserAfter(api, USER))
  {
    var files, api := SecretFiles(formats, mustache), ApiConfig(hosts, Some(mesos));
    var env := files.EnvOf(api);
    ApiTreeOk(hosts, mesos);
    DefaultOk(env);
    AbsorbOk(env, api);
    LayersOk(env, OPTIONS, USER, api);
    LayersOk(env, OPTIONS, Absorb(env, OPTIONS, USER, api, SCHEMA), api);
  }

  lemma NotSettled(env: Env, hosts: string, mesos: MesosConfig)
    requires env.hosts == HostsOf(ApiConfig(hosts, Some(mesos)))
    requires hosts != ZK_PLACEHOLDER && Contains(mesos.secret, ZK_PLACEHOLDER)
    ensures !AdoptedSettled(env, OPTIONS, USER, ApiConfig(hosts, Some(mesos)), SCHEMA)
  {
    ApiConfigSettled(env, hosts, Some(mesos), SCHEMA);
    MantlAdopted(env, OPTIONS, hosts, Some(mesos), SCHEMA);
    assert MesosTree(mesos).m[SECRET] == Str(mesos.secret);
    assert Sub(Sub(Sub(SCHEMA, MANTL), MESOS), SECRET).typ == StringType;
    assert !FlatFixed(hosts, MesosTree(mesos), Sub(Sub(SCHEMA, MANTL), MESOS));
  }

  /** After two calls the shared API configuration is no longer what `NewInstall` built. */
  method RewriteSecret(formats: Formats, mustache: (string, Json) -> string, hosts: string, mesos: MesosConfig)
    returns (d: PackageDefinition, ghost at: Json, ghost ut: Json)
    requires hosts != ZK_PLACEHOLDER && Contains(mesos.secret, ZK_PLACEHOLDER)
    ensures d.Valid(at, ut) && at != ApiConfig(hosts, Some(mesos))
  {
    var api, files := ApiConfig(hosts, Some(mesos)), SecretFiles(formats, mustache);
    CallsReady(formats, mustache, hosts, mesos);
    NotSettled(files.EnvOf(api), hosts, mesos);
    d := NewDefinition(files, api, USER);
    ghost var E;
    at, ut, E := CallTwice(d, api, USER);
  }
}
