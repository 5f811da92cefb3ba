/** Configuration trees, the schema, the typed value transformers, and the layered merge as
    a function on trees.  The heap version in ConfigHeap.dfy is proved against this one. */
module ConfigTree {
  import opened Replacement
  import opened Wrappers

  datatype Json =
    | Null
    | Bool(b: bool)
    | Num(n: real)
    | Str(s: string)
    | Arr(elems: seq<Json>)
    | Obj(m: map<string, Json>)

  /** The "type" of a schema group, with the names that the code looks for. */
  datatype Type = StringType | IntegerType | NumberType | ObjectType | OtherType(name: string)

  /** One group of config.json.  A missing default and a null default are both Go's nil. */
  datatype Schema = Schema(typ: Type, properties: map<string, Schema>, default: Json)

  type Path = seq<string>

  /** Library text formatting, left uninterpreted. */
  datatype Formats = Formats(marshal: seq<Json> -> string, intText: real -> string, numText: real -> string)

  /** What the transformers read besides the value: the formats, and the API's mantl.zookeeper.hosts
      when that is a string. */
  datatype Env = Env(formats: Formats, hosts: Option<string>)

  const ZK_PLACEHOLDER := "zookeeper.service.consul:2181"

  const NO_SCHEMA := Schema(OtherType(""), map[], Null)

  function Sub(s: Schema, k: string): Schema {
    if k in s.properties then s.properties[k] else NO_SCHEMA
  }

  function SchemaAt(s: Schema, q: Path): Schema
    decreases |q|
  {
    if q == [] then s else SchemaAt(Sub(s, q[0]), q[1..])
  }

  // ---------------------------------------------------------------- transformers

  /** The values a transformed type takes without a failed type assertion (a Go panic). */
  predicate Accepts(v: Json, typ: Type) {
    v.Arr? || ((typ == StringType ==> v.Str?) && (typ in {IntegerType, NumberType} ==> v.Str? || v.Num?))
  }

  function WithHosts(env: Env, text: string): string {
    if env.hosts.Some? && Contains(text, ZK_PLACEHOLDER)
    then ReplaceAll(text, ZK_PLACEHOLDER, env.hosts.value)
    else text
  }

  /** `transformedConfigValue`.  Outside `Accepts` the source panics; merges exclude that. */
  function Transform(env: Env, v: Json, typ: Type): (r: Json)
    ensures r.Obj? <==> v.Obj?
  {
    if v.Arr? then Str(env.formats.marshal(v.elems))
    else if typ == StringType && v.Str? then Str(WithHosts(env, v.s))
    else if typ == IntegerType && v.Num? then Str(env.formats.intText(v.n))
    else if typ == NumberType && v.Num? then Str(env.formats.numText(v.n))
    else v
  }

  predicate HostsHarmless(env: Env) {
    env.hosts.Some? ==> env.hosts.value == ZK_PLACEHOLDER || Clean(ZK_PLACEHOLDER, env.hosts.value)
  }

  lemma PlaceholderUnbordered()
    ensures Unbordered(ZK_PLACEHOLDER)
  {
    var p := ZK_PLACEHOLDER;
    assert forall i | 0 < i < |p| :: p[i] != 'z';
    forall m | 0 < m < |p| ensures p[..m] != p[|p| - m..] {
      assert p[..m][0] == 'z' && p[|p| - m..][0] == p[|p| - m];
    }
  }

  ghost predicate SecondPassHarmless(env: Env, v: Json, typ: Type) {
    Transform(env, Transform(env, v, typ), typ) == Transform(env, v, typ)
  }

  /** A second pass of the transformers changes no accepted value of any type other than an
      array, if and only if the hosts value is harmless. */
  lemma TransformTwice(env: Env)
    ensures (forall v: Json, typ | !v.Arr? && Accepts(v, typ) :: SecondPassHarmless(env, v, typ)) <==> HostsHarmless(env)
  {
    TextTwice(env);
    if HostsHarmless(env) {
      forall v: Json, typ | !v.Arr? && Accepts(v, typ) ensures SecondPassHarmless(env, v, typ) {
        ScalarTwice(env, v, typ);
      }
    } else {
      var text :| WithHosts(env, WithHosts(env, text)) != WithHosts(env, text);
      assert Accepts(Str(text), StringType) && !SecondPassHarmless(env, Str(text), StringType);
    }
  }

  lemma ScalarTwice(env: Env, v: Json, typ: Type)
    requires !v.Arr? && Accepts(v, typ) && HostsHarmless(env)
    ensures SecondPassHarmless(env, v, typ)
  {
    TextTwice(env);
    if typ == StringType { assert WithHosts(env, WithHosts(env, v.s)) == WithHosts(env, v.s); }
  }

  lemma TextTwice(env: Env)
    ensures (forall text :: WithHosts(env, WithHosts(env, text)) == WithHosts(env, text)) <==> HostsHarmless(env)
  {
    if env.hosts.Some? {
      var p, h := ZK_PLACEHOLDER, env.hosts.value;
      PlaceholderUnbordered();
      ReplacingTwice(p, h);
      forall text ensures WithHosts(env, text) == ReplaceAll(text, p, h) {
        if !Contains(text, p) { ReplaceAbsent(text, p, h); }
      }
    }
  }

  // ---------------------------------------------------------------- defaults and merge

  /** `defaultConfig` */
  function Default(env: Env, s: Schema): Json {
    Obj(map k | k in s.properties && (s.properties[k].default != Null || s.properties[k].typ == ObjectType) ::
          if s.properties[k].default != Null
          then Transform(env, s.properties[k].default, s.properties[k].typ)
          else Default(env, s.properties[k]))
  }

  predicate DefaultsAccepted(s: Schema)
    decreases s, 0
  {
    forall k | k in s.properties :: GroupAccepted(s.properties[k])
  }

  predicate GroupAccepted(group: Schema)
    decreases group, 1
  {
    if group.default != Null then Accepts(group.default, group.typ) else group.typ == ObjectType ==> DefaultsAccepted(group)
  }

  predicate BothMaps(c: Json, o: Json, k: string)
    requires c.Obj? && o.Obj?
  {
    k in c.m && k in o.m && c.m[k].Obj? && o.m[k].Obj?
  }

  /** `mergeConfig` as a function on trees. */
  function Merge(env: Env, c: Json, o: Json, s: Schema): (r: Json)
    requires c.Obj? && o.Obj?
    ensures r.Obj?
    decreases c
  {
    Obj(map k | k in c.m.Keys + o.m.Keys ::
          if k !in o.m then c.m[k]
          else if BothMaps(c, o, k) then Merge(env, c.m[k], o.m[k], Sub(s, k))
          else Transform(env, o.m[k], Sub(s, k).typ))
  }

  /** For the value at each path, what the transformers read when it is copied. */
  type Envs = Path -> Env

  /** No type assertion fails while `o` is merged into `c`. */
  predicate Mergeable(c: Json, o: Json, s: Schema)
    decreases c
  {
    c.Obj? && o.Obj? &&
    forall k | k in o.m ::
      if BothMaps(c, o, k) then Mergeable(c.m[k], o.m[k], Sub(s, k)) else Accepts(o.m[k], Sub(s, k).typ)
  }

  /** `getConfigVal`: a missing key is skipped, and a map is never the answer. */
  function GetConfigVal(t: Json, keys: Path): (r: Option<Json>)
    requires t.Obj?
    ensures r.Some? ==> !r.value.Obj?
    decreases |keys|
  {
    if keys == [] then None
    else if keys[0] in t.m && t.m[keys[0]].Obj? then GetConfigVal(t.m[keys[0]], keys[1..])
    else if keys[0] in t.m then Some(t.m[keys[0]])
    else GetConfigVal(t, keys[1..])
  }

  /** `Options`, for a rendered and parsed mantl.json `p`, user config `u` and API config `a`. */
  function Options(env: Env, p: Json, u: Json, a: Json, s: Schema): (r: Json)
    requires p.Obj? && u.Obj? && a.Obj?
    ensures r.Obj?
  {
    Merge(env, Merge(env, p, u, s), a, s)
  }

  /** `MergedConfig`.  Without a mantl.json the user and API layers are not merged at all. */
  function MergedConfig(env: Env, p: Option<Json>, u: Json, a: Json, s: Schema): (r: Json)
    requires u.Obj? && a.Obj? && (p.Some? ==> p.value.Obj?)
    ensures r.Obj?
  {
    if p.None? then Merge(env, Default(env, s), Obj(map[]), s)
    else Merge(env, Default(env, s), Options(env, p.value, u, a, s), s)
  }

  // ---------------------------------------------------------------- the API configuration

  datatype MesosConfig = MesosConfig(principal: string, secret: string, secretPath: string, auth: bool)

  const MANTL := "mantl"
  const ZOOKEEPER := "zookeeper"
  const MESOS := "mesos"
  const HOSTS := "hosts"
  const SECRET := "secret"

  const HOSTS_PATH := [MANTL, ZOOKEEPER, HOSTS]

  /** The API's mantl.zookeeper.hosts, when it is a string. */
  function HostsOf(api: Json): Option<string>
    requires api.Obj?
  {
    match GetConfigVal(api, HOSTS_PATH)
    case Some(Str(h)) => Some(h)
    case _ => None
  }

  function ZkConfig(hosts: string): Json { Obj(map[HOSTS := Str(hosts)]) }

  function MesosTree(m: MesosConfig): Json {
    Obj(map["principal" := Str(m.principal), SECRET := Str(m.secret), "secret-path" := Str(m.secretPath),
            "authentication-enabled" := Bool(m.auth)])
  }

  function MantlConfig(hosts: string, mesos: Option<MesosConfig>): Json {
    Obj(match mesos
        case None => map[ZOOKEEPER := ZkConfig(hosts)]
        case Some(m) => map[ZOOKEEPER := ZkConfig(hosts), MESOS := MesosTree(m)])
  }

  /** The API configuration that `NewInstall` builds. */
  function ApiConfig(hosts: string, mesos: Option<MesosConfig>): Json {
    Obj(map[MANTL := MantlConfig(hosts, mesos)])
  }
}
