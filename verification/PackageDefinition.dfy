/** The package definition: `mergeConfig` and its callers on heap maps. */
module PackageDefinitions {
  import opened ConfigBuild
  import opened ConfigHeap
  import opened ConfigOrder
  import opened ConfigRefinement
  import opened ConfigSharing
  import opened ConfigTree
  import opened Definitions
  import opened LiveHosts
  import opened MergeLoop
  import opened Wrappers

  datatype OptionsOutcome = BadOptions | NoOptions | Got(o: ConfigMap)

  /** The default of one group, if it has one. */
  ghost function GroupTree(env: Env, group: Schema): Option<Json> {
    if group.default != Null then Some(Transform(env, group.default, group.typ))
    else if group.typ == ObjectType then Some(Default(env, group))
    else None
  }

  /** `m` has the default of the group at `k`, and nothing there if it has none. */
  ghost predicate GroupIn(env: Env, group: Schema, k: string, m: map<string, Json>) {
    && GroupAccepted(group)
    && var t := GroupTree(env, group);
       if t.Some? then k in m && m[k] == t.value else k !in m
  }

  lemma DefaultGroup(env: Env, s: Schema, k: string)
    requires DefaultsAccepted(s) && k in s.properties
    ensures GroupIn(env, s.properties[k], k, Default(env, s).m)
  {}

  lemma DefaultKeys(env: Env, s: Schema)
    ensures Default(env, s).m.Keys <= s.properties.Keys
  {}

  lemma KeysLeft(keys: set<string>, todo: set<string>)
    requires keys <= todo
    ensures keys - todo == {}
  {}

  lemma KeyLeft(keys: set<string>, todo: set<string>, k: string)
    requires k in todo
    ensures keys - (todo - {k}) == keys - todo + if k in keys then {k} else {}
  {}

  class PackageDefinition {
    const files: Definition
    const apiConfig: ConfigMap
    const userConfig: ConfigMap
    // the path of each map of the API and user configuration
    ghost const home: Homes

    constructor (files: Definition, apiConfig: ConfigMap, userConfig: ConfigMap, ghost home: Homes)
      ensures this.files == files && this.apiConfig == apiConfig && this.userConfig == userConfig && this.home == home
    {
      this.files, this.apiConfig, this.userConfig, this.home := files, apiConfig, userConfig, home;
    }

    /** In `h` the transformers read what `env` says from the live API configuration. */
    ghost predicate Reads(h: Heap, env: Env) {
      apiConfig in h && Closed(h, h.Keys) && env == Env(files.formats, HostsIn(h, apiConfig))
    }

    lemma ReadsOf(h: Heap, at: Json)
      requires apiConfig in h && Closed(h, h.Keys) && Denotes(h, Ref(apiConfig), at)
      ensures Reads(h, files.EnvOf(at))
    {
      LookupDenotes(h, apiConfig, at, HOSTS_PATH);
    }

    lemma ReadsFrame(h: Heap, h': Heap, S: set<ConfigMap>, env: Env)
      requires Closed(h, S) && SameOn(h, h', S) && apiConfig in S
      requires Closed(h, h.Keys) && Closed(h', h'.Keys)
      ensures Reads(h, env) <==> Reads(h', env)
    {
      LookupFrame(h, h', S, apiConfig, HOSTS_PATH);
    }

    /** What was read at each path, when the values there were copied in the heaps `W`. */
    ghost function EnvAt(W: Path -> Heap): Envs { q => Env(files.formats, HostsIn(W(q), apiConfig)) }

    /** `getConfigVal` */
    static method GetConfigVal(m: ConfigMap, keys: Path, ghost S: set<ConfigMap>) returns (r: Option<Value>)
      requires m in S && Closed(Snap(S), S)
      ensures r == Lookup(Snap(S), m, keys)
      ensures r.Some? ==> r.value.Leaf?
    {
      ghost var h := Snap(S);
      var nested := m;
      var i := 0;
      while i < |keys|
        invariant 0 <= i <= |keys| && nested in S
        invariant Lookup(h, m, keys) == Lookup(h, nested, keys[i..])
      {
        var key := keys[i];
        assert keys[i..][0] == key && keys[i..][1..] == keys[i + 1..];
        if key in nested.fields {
          var v := nested.fields[key];
          if v.Ref? {
            nested := v.o;
          } else {
            return Some(v);
          }
        }
        i := i + 1;
      }
      return None;
    }

    /** `transformedConfigValue` with the transformer table; the hosts are read from the live API
        configuration each time. */
    method TransformedConfigValue(val: Value, typ: Type, ghost S: set<ConfigMap>, ghost env: Env) returns (r: Value)
      requires Reads(Snap(S), env)
      requires Accepts(if val.Leaf? then val.j else Obj(map[]), typ)
      ensures r == TransformValue(env, val, typ)
    {
      if val.Leaf? && val.j.Arr? {
        return Value.Leaf(Str(files.formats.marshal(val.j.elems)));
      }
      if val.Leaf? && typ == StringType {
        var text := val.j.s;
        var hosts := GetConfigVal(apiConfig, HOSTS_PATH, S);
        if hosts.Some? && hosts.value.Leaf? && hosts.value.j.Str? {
          text := WithHosts(Env(files.formats, Some(hosts.value.j.s)), text);
        }
        return Value.Leaf(Str(text));
      }
      if val.Leaf? && typ == IntegerType && !val.j.Str? {
        return Value.Leaf(Str(files.formats.intText(val.j.n)));
      }
      if val.Leaf? && typ == NumberType && !val.j.Str? {
        return Value.Leaf(Str(files.formats.numText(val.j.n)));
      }
      return val;
    }

    /** `mergeConfig`.  Whatever the iteration order and whatever is shared, with the API configuration
        too, the heap afterwards is the closed form: the value at each path transformed with the hosts of
        some moment at which it was not yet written. */
    method MergeConfig(config: ConfigMap, override: ConfigMap, schema: Schema,
                       ghost home: Homes, ghost ct: Json, ghost ot: Json) returns (ghost W: Path -> Heap)
      requires config in home && override in home && apiConfig in home && home[config] == home[override]
      requires Placed(Snap(home.Keys), home)
      requires Denotes(Snap(home.Keys), Ref(config), ct) && Denotes(Snap(home.Keys), Ref(override), ot)
      requires Mergeable(ct, ot, schema)
      modifies home.Keys
      ensures Snap(home.Keys) == Merged(EnvAt(W), old(Snap(home.Keys)), home, config, override, schema)
      ensures Moments(old(Snap(home.Keys)), Snap(home.Keys), home, W)
      decreases ct, 1
    {
      ghost var h0 := Snap(home.Keys);
      var todo := override.fields.Keys;
      W := q => h0;
      LoopStart(EnvAt(W), h0, home, config, override, schema);
      while todo != {}
        invariant todo <= h0[override].Keys
        invariant LoopState(EnvAt(W), h0, Snap(home.Keys), home, config, override, schema, todo)
        invariant Moments(h0, Snap(home.Keys), home, W)
      {
        var k :| k in todo;
        W := MergeKey(config, override, schema, k, h0, todo, home, ct, ot, W);
        todo := todo - {k};
      }
      LoopEnd(EnvAt(W), h0, Snap(home.Keys), home, config, override, schema);
    }

    /** The body of the loop of `mergeConfig`, for one key of the override. */
    method MergeKey(config: ConfigMap, override: ConfigMap, schema: Schema, k: string,
                    ghost h0: Heap, ghost todo: set<string>, ghost home: Homes, ghost ct: Json, ghost ot: Json, ghost W: Path -> Heap)
      returns (ghost W': Path -> Heap)
      requires Placed(h0, home) && config in home && override in home && apiConfig in home && home[config] == home[override]
      requires Denotes(h0, Ref(config), ct) && Denotes(h0, Ref(override), ot) && Mergeable(ct, ot, schema)
      requires todo <= h0[override].Keys && k in todo
      requires LoopState(EnvAt(W), h0, Snap(home.Keys), home, config, override, schema, todo)
      requires Moments(h0, Snap(home.Keys), home, W)
      modifies home.Keys
      ensures LoopState(EnvAt(W'), h0, Snap(home.Keys), home, config, override, schema, todo - {k})
      ensures Moments(h0, Snap(home.Keys), home, W')
      decreases ct, 0
    {
      ghost var h := Snap(home.Keys);
      LoopUnmerged(EnvAt(W), h0, h, home, config, override, schema, todo, k);
      LoopPlaced(EnvAt(W), h0, h, home, config, override, schema, todo);
      var v := override.fields[k];
      if k in config.fields && config.fields[k].Ref? && v.Ref? {
        LoopChildReady(EnvAt(W), h0, h, home, config, override, schema, todo, k, ct, ot);
        ghost var Wk := MergeConfig(config.fields[k].o, v.o, Sub(schema, k), home, ct.m[k], ot.m[k]);
        W' := AfterChild(W, Wk, h0, h, Snap(home.Keys), home, config, override, schema, todo, k);
      } else {
        LoopLeafReady(h0, config, override, schema, k, ct, ot);
        CopyValue(config, k, v, Sub(schema, k).typ, home.Keys);
        W' := AfterCopy(W, h0, h, Snap(home.Keys), home, config, override, schema, todo, k);
      }
    }

    lemma EnvAtCopying(W: Path -> Heap, p: Path, k: string, h: Heap, todo: set<string>)
      requires k in todo
      ensures var E := EnvAt(Copying(W, p + [k], h));
              && E(p + [k]) == Env(files.formats, HostsIn(h, apiConfig))
              && forall q | !(p < q && q[|p|] in todo) :: EnvAt(W)(q) == E(q)
    {
      assert p < p + [k] && (p + [k])[|p|] == k;
    }

    /** One value copied: what it read is what the hosts were just before. */
    lemma AfterCopy(W: Path -> Heap, h0: Heap, h: Heap, h': Heap, home: Homes, c: ConfigMap, o: ConfigMap, s: Schema, todo: set<string>, k: string)
      returns (W': Path -> Heap)
      requires Placed(h0, home) && c in h0 && o in h0 && home[c] == home[o]
      requires LoopState(EnvAt(W), h0, h, home, c, o, s, todo) && k in todo && todo <= h0[o].Keys
      requires Moments(h0, h, home, W)
      requires !(k in h0[c] && h0[c][k].Ref? && h0[o][k].Ref?)
      requires h' == Copied(files.formats, apiConfig, h, c, k, h0[o][k], Sub(s, k).typ)
      ensures LoopState(EnvAt(W'), h0, h', home, c, o, s, todo - {k})
      ensures Moments(h0, h', home, W')
    {
      var at := home[c] + [k];
      W' := Copying(W, at, h);
      EnvAtCopying(W, home[c], k, h, todo);
      LoopCopied(EnvAt(W), EnvAt(W'), h0, h, h', home, c, o, s, todo, k);
      CopyMoments(h0, h, h', home, W, at);
    }

    /** One sub-map merged: what was read below it is what its own merge read. */
    lemma AfterChild(W: Path -> Heap, Wk: Path -> Heap, h0: Heap, h: Heap, h': Heap, home: Homes, c: ConfigMap, o: ConfigMap, s: Schema,
                     todo: set<string>, k: string)
      returns (W': Path -> Heap)
      requires Placed(h0, home) && Placed(h, home) && c in h0 && o in h0 && home[c] == home[o]
      requires LoopState(EnvAt(W), h0, h, home, c, o, s, todo) && k in todo && todo <= h0[o].Keys
      requires Moments(h0, h, home, W) && Moments(h, h', home, Wk)
      requires k in h0[c] && h0[c][k].Ref? && h0[o][k].Ref?
      requires h' == Merged(EnvAt(Wk), h, home, h0[c][k].o, h0[o][k].o, Sub(s, k))
      ensures LoopState(EnvAt(W'), h0, h', home, c, o, s, todo - {k})
      ensures Moments(h0, h', home, W')
    {
      W' := Merging(W, home[c] + [k], Wk);
      EnvAtMerging(W, home[c], k, Wk, todo);
      LoopChildDone(EnvAt(W), EnvAt(Wk), EnvAt(W'), h0, h, h', home, c, o, s, todo, k);
      LoopMergeMoments(EnvAt(W'), h0, h, h', home, c, o, s, todo, k, W, Wk);
    }

    lemma EnvAtMerging(W: Path -> Heap, p: Path, k: string, Wk: Path -> Heap, todo: set<string>)
      requires k in todo
      ensures var E := EnvAt(Merging(W, p + [k], Wk));
              && (forall q | !(p < q && q[|p|] in todo) :: EnvAt(W)(q) == E(q))
              && forall q | p + [k] <= q :: EnvAt(Wk)(q) == E(q)
    {
      forall q | !(p < q && q[|p|] in todo) ensures EnvAt(W)(q) == EnvAt(Merging(W, p + [k], Wk))(q) { StepPrefix(p, k, q); }
    }

    /** Where the API's region is as it was, every value reads the same. */
    lemma QuietReadings(W: Path -> Heap, h: Heap, h': Heap, place: Homes, R: set<ConfigMap>, env: Env)
      requires Closed(h, R) && SameOn(h, h', R) && apiConfig in R && Reads(h, env)
      requires Moments(h, h', place, W)
      ensures Always(EnvAt(W), env)
    {
      forall q ensures EnvAt(W)(q) == env {
        assert Between(h, h', W(q)) && OldAt(h, W(q), place, q);
        SameBetween(h, h', W(q), R);
        LookupFrame(h, W(q), R, apiConfig, HOSTS_PATH);
      }
    }

    lemma ReadingAt(E: Envs, h: Heap, place: Homes, c: ConfigMap, s: Schema, at: Json, w: Heap, q: Path)
      requires Placed(h, place) && c in h && apiConfig in h && place[c] == place[apiConfig] == [] && Denotes(h, Ref(apiConfig), at)
      requires Between(h, Merged(E, h, place, c, apiConfig, s), w) && OldAt(h, w, place, q)
      ensures var r := HostsIn(w, apiConfig);
              && (r == HostsIn(h, apiConfig) || r == HostsIn(Merged(E, h, place, c, apiConfig, s), apiConfig))
              && (EndPath([], at, HOSTS_PATH) == Some(q) ==> r == HostsIn(h, apiConfig))
    {
      LookupMoment(E, h, place, c, apiConfig, s, [], apiConfig, at, HOSTS_PATH, w);
    }

    /** What the merge of the API configuration reads. */
    lemma ApiReadings(W: Path -> Heap, h: Heap, place: Homes, c: ConfigMap, s: Schema, at: Json)
      requires Placed(h, place) && c in h && apiConfig in h && place[c] == place[apiConfig] == [] && Denotes(h, Ref(apiConfig), at)
      requires Moments(h, Merged(EnvAt(W), h, place, c, apiConfig, s), place, W)
      ensures Readings(EnvAt(W), files.EnvOf(at), Env(files.formats, HostsOf(Rewritten(files.EnvOf(at), at, s, Common(h, c, apiConfig)))), at)
    {
      var E, env := EnvAt(W), files.EnvOf(at);
      var h1 := Merged(E, h, place, c, apiConfig, s);
      ReadsOf(h, at);
      forall q ensures E(q) == env || E(q) == Env(files.formats, HostsIn(h1, apiConfig))
               ensures EndPath([], at, HOSTS_PATH) == Some(q) ==> E(q) == env
      {
        assert Between(h, h1, W(q)) && OldAt(h, W(q), place, q);
        ReadingAt(E, h, place, c, s, at, W(q), q);
      }
      HostsAfter(E, h, place, c, s, at);
    }

    lemma HostsAfter(E: Envs, h: Heap, place: Homes, c: ConfigMap, s: Schema, at: Json)
      requires Placed(h, place) && c in h && apiConfig in h && place[c] == place[apiConfig] == [] && Denotes(h, Ref(apiConfig), at)
      requires EndPath([], at, HOSTS_PATH).Some? ==> E(EndPath([], at, HOSTS_PATH).value) == files.EnvOf(at)
      ensures HostsIn(Merged(E, h, place, c, apiConfig, s), apiConfig) == HostsOf(Rewritten(files.EnvOf(at), at, s, Common(h, c, apiConfig)))
    {
      var S := Common(h, c, apiConfig);
      RewrittenDenotes(E, h, place, c, apiConfig, s, at);
      EndValue(E, [], at, s, S, HOSTS_PATH, files.EnvOf(at));
      LookupDenotes(Merged(E, h, place, c, apiConfig, s), apiConfig, RewrittenAt(E, [], at, s, S), HOSTS_PATH);
    }

    /** `config[k] = transformedConfigValue(v, typ)`: a map is stored by reference. */
    method CopyValue(config: ConfigMap, k: string, v: Value, typ: Type, ghost S: set<ConfigMap>)
      requires config in S && apiConfig in S && Closed(Snap(S), S)
      requires Accepts(if v.Leaf? then v.j else Obj(map[]), typ)
      modifies config
      ensures Snap(S) == Copied(files.formats, apiConfig, old(Snap(S)), config, k, v, typ)
    {
      var w := TransformedConfigValue(v, typ, S, Env(files.formats, HostsIn(Snap(S), apiConfig)));
      config.Set(k, w, S);
    }

    // -------------------------------------------------------------- defaultConfig

    /** `defaultConfig`, in fresh maps. */
    method DefaultConfig(s: Schema, ghost p: Path, ghost env: Env) returns (config: ConfigMap, ghost place: Homes)
      requires Reads(Snap(home.Keys), env) && DefaultsAccepted(s)
      ensures fresh(place.Keys) && config in place && place[config] == p
      ensures Placed(Snap(place.Keys), place) && Denotes(Snap(place.Keys), Ref(config), Default(env, s))
      decreases s, 3
    {
      config := new ConfigMap();
      ghost var kids, m := map[], Default(env, s).m;
      kids := AddGroups(config, s, p, m, env);
      FinishBuild(config, kids, p, m);
      place := kids[config := p];
    }

    /** The loop of `defaultConfig`. */
    method AddGroups(config: ConfigMap, s: Schema, ghost p: Path, ghost m: map<string, Json>, ghost env: Env) returns (ghost kids: Homes)
      requires config !in home && config.fields == map[] && Reads(Snap(home.Keys), env)
      requires DefaultsAccepted(s) && m == Default(env, s).m
      modifies config
      ensures fresh(kids.Keys) && config.fields.Keys == m.Keys
      ensures Built(config.fields, Snap(kids.Keys), kids, p, m)
      decreases s, 2
    {
      kids := map[];
      BuiltNothing(p, m);
      DefaultKeys(env, s);
      KeysLeft(m.Keys, s.properties.Keys);
      var todo := s.properties.Keys;
      while todo != {}
        invariant todo <= s.properties.Keys && fresh(kids.Keys)
        invariant Reads(Snap(home.Keys), env) && Entering(config, kids, p, m, todo)
      {
        var k :| k in todo;
        kids := AddGroup(config, k, s, kids, p, m, env, todo);
        todo := todo - {k};
      }
    }

    /** The defaults of all groups but `todo` have been entered. */
    ghost predicate Entering(config: ConfigMap, kids: Homes, p: Path, m: map<string, Json>, todo: set<string>)
      reads config, kids.Keys
    {
      config !in kids && config.fields.Keys == m.Keys - todo && Built(config.fields, Snap(kids.Keys), kids, p, m)
    }

    /** Enters the default of group `k`, if it has one. */
    method AddGroup(config: ConfigMap, k: string, s: Schema, ghost kids: Homes, ghost p: Path, ghost m: map<string, Json>, ghost env: Env,
                    ghost todo: set<string>)
      returns (ghost kids': Homes)
      requires config !in home && Reads(Snap(home.Keys), env) && Entering(config, kids, p, m, todo)
      requires DefaultsAccepted(s) && m == Default(env, s).m && k in s.properties && k in todo
      modifies config
      ensures kids.Keys <= kids'.Keys && fresh(kids'.Keys - kids.Keys)
      ensures Reads(Snap(home.Keys), env) && Entering(config, kids', p, m, todo - {k})
      decreases s, 1
    {
      kids' := EnterGroup(config, k, s, kids, p, m, env, Snap(home.Keys));
      KeyLeft(m.Keys, todo, k);
    }

    /** The same, without looking at the API's maps again. */
    method EnterGroup(config: ConfigMap, k: string, s: Schema, ghost kids: Homes, ghost p: Path, ghost m: map<string, Json>, ghost env: Env,
                      ghost h: Heap)
      returns (ghost kids': Homes)
      requires config !in home && config !in kids && Snap(home.Keys) == h && Reads(h, env)
      requires Built(config.fields, Snap(kids.Keys), kids, p, m)
      requires DefaultsAccepted(s) && m == Default(env, s).m && k in s.properties
      modifies config
      ensures kids.Keys <= kids'.Keys && fresh(kids'.Keys - kids.Keys)
      ensures Built(config.fields, Snap(kids'.Keys), kids', p, m)
      ensures config.fields.Keys == old(config.fields.Keys) + if k in m then {k} else {}
      decreases s, 0
    {
      var group := s.properties[k];
      DefaultGroup(env, s, k);
      var v, kids2 := GroupDefault(group, GroupTree(env, group), p + [k], env);
      kids' := AttachIfSome(config, k, v, kids, kids2, p, m);
    }

    /** One group of `defaultConfig`: its own default, or the defaults of an object's groups. */
    method GroupDefault(group: Schema, ghost t: Option<Json>, ghost p: Path, ghost env: Env) returns (r: Option<Value>, ghost place: Homes)
      requires Reads(Snap(home.Keys), env)
      requires GroupAccepted(group) && t == GroupTree(env, group)
      ensures fresh(place.Keys) && Placed(Snap(place.Keys), place)
      ensures r.Some? <==> t.Some?
      ensures group.default != Null ==> t == Some(Transform(env, group.default, group.typ))
      ensures group.default == Null ==> t == if group.typ == ObjectType then Some(Default(env, group)) else None
      ensures r.Some? ==>
                && Denotes(Snap(place.Keys), r.value, t.value)
                && (r.value.Ref? ==> r.value.o in place && place[r.value.o] == p)
      decreases group, 4
    {
      place := map[];
      if group.default != Null {
        var v;
        v, place := Unmarshal(group.default, p);
        TransformDenotes(env, Snap(place.Keys), v, group.default, group.typ);
        var w := TransformedConfigValue(v, group.typ, home.Keys, env);
        r := Some(w);
      } else if group.typ == ObjectType {
        var sub;
        sub, place := DefaultConfig(group, p, env);
        r := Some(Ref(sub));
      } else {
        r := None;
      }
    }

    // -------------------------------------------------------------- Options and MergedConfig

    ghost predicate Valid(at: Json, ut: Json)
      reads home.Keys
    {
      SharedOk(Snap(home.Keys), home, home.Keys, apiConfig, userConfig, at, ut)
    }

    /** The paths at which the user's configuration holds the API's maps. */
    ghost function Shared(): Paths
      reads home.Keys
    {
      Common(Snap(home.Keys), userConfig, apiConfig)
    }

    /** `Options` */
    method Options(ghost at: Json, ghost ut: Json) returns (r: OptionsOutcome, ghost place: Homes, ghost E: Envs)
      requires files.schema.Some? && Valid(at, ut) && files.Ready(at, ut)
      modifies home.Keys
      ensures files.During(E, at, ut, old(Shared()))
      ensures Valid(files.ApiLeft(E, at, ut, old(Shared())), files.UserLeft(E, at, ut))
      ensures Shared() == files.SharedAfter(at, ut, old(Shared()))
      ensures home.Keys <= place.Keys && fresh(place.Keys - home.Keys) && forall x | x in home :: place[x] == home[x]
      ensures Placed(Snap(place.Keys), place)
      ensures match files.render(at)
              case NoFile => r.NoOptions?
              case Malformed => r.BadOptions?
              case Parsed(_) =>
                r.Got? && r.o in place && place[r.o] == [] && Denotes(Snap(place.Keys), Ref(r.o), files.OptionsLeft(E, at, ut))
    {
      place := home;
      E := q => files.EnvOf(at);
      var api := Export(apiConfig, home.Keys, at);
      match files.render(api) {
        case NoFile => return NoOptions, place, E;
        case Malformed => return BadOptions, place, E;
        case Parsed(p) =>
          var options;
          options, place, E := MergeLayers(p, files.schema.value, at, ut, files.EnvOf(at));
          r := Got(options);
      }
    }

    /** The parsed mantl.json in fresh maps, next to the shared configurations. */
    method ParseOptions(p: Json, ghost at: Json, ghost ut: Json) returns (options: ConfigMap, ghost place: Homes, ghost O: set<ConfigMap>)
      requires p.Obj? && Valid(at, ut)
      ensures fresh(O) && place.Keys == home.Keys + O && forall x | x in home :: place[x] == home[x]
      ensures options in O && place[options] == [] && Closed(Snap(place.Keys), O)
      ensures SharedOk(Snap(place.Keys), place, home.Keys, apiConfig, userConfig, at, ut)
      ensures Common(Snap(place.Keys), userConfig, apiConfig) == Shared()
      ensures Denotes(Snap(place.Keys), Ref(options), p)
    {
      var v, places := Unmarshal(p, []);
      options, O := v.o, places.Keys;
      ghost var h0, hO := Snap(home.Keys), Snap(O);
      place := home + places;
      assert place.Keys == home.Keys + O;
      SnapUnion(home.Keys, O);
      Join(h0, home, hO, places);
      SharedFrame(h0, Snap(place.Keys), home, place, home.Keys, apiConfig, userConfig, at, ut);
      DenotesFrame(hO, Snap(place.Keys), O, Ref(options), p);
    }

    /** The user's and then the API's configuration merged into the parsed mantl.json. */
    method MergeLayers(p: Json, s: Schema, ghost at: Json, ghost ut: Json, ghost env: Env)
      returns (options: ConfigMap, ghost place: Homes, ghost E: Envs)
      requires p.Obj? && Valid(at, ut) && env == files.EnvOf(at)
      requires Mergeable(p, ut, s) && Mergeable(Merge(env, p, ut, s), at, s)
      modifies home.Keys
      ensures Readings(E, env, Env(files.formats, HostsOf(Rewritten(env, at, s, Through(old(Shared()), p)))), at)
      ensures Valid(RewrittenAt(E, [], at, s, Through(old(Shared()), p)), AbsorbAt(E, [], p, ut, at, s))
      ensures Shared() == old(Shared()) + Adopted(p, ut, at)
      ensures home.Keys <= place.Keys && fresh(place.Keys - home.Keys) && forall x | x in home :: place[x] == home[x]
      ensures Placed(Snap(place.Keys), place) && options in place && place[options] == []
      ensures Denotes(Snap(place.Keys), Ref(options), MergeAt(E, [], Merge(env, p, ut, s), at, s))
    {
      ghost var O;
      options, place, O := ParseOptions(p, at, ut);
      MergeUser(options, s, place, O, p, at, ut, env);
      E := MergeApi(options, s, place, p, Merge(env, p, ut, s), at, ut, env, old(Shared()));
    }

    /** The first merge of `Options`: it touches nothing that the transformers read. */
    method MergeUser(options: ConfigMap, s: Schema, ghost place: Homes, ghost O: set<ConfigMap>, ghost p: Json, ghost at: Json, ghost ut: Json,
                     ghost env: Env)
      requires SharedOk(Snap(place.Keys), place, home.Keys, apiConfig, userConfig, at, ut) && env == files.EnvOf(at)
      requires Closed(Snap(place.Keys), O) && O !! home.Keys && options in O && place[options] == []
      requires Denotes(Snap(place.Keys), Ref(options), p) && Mergeable(p, ut, s)
      modifies place.Keys
      ensures SharedOk(Snap(place.Keys), place, home.Keys, apiConfig, userConfig, at, ut)
      ensures Denotes(Snap(place.Keys), Ref(options), Merge(env, p, ut, s))
      ensures Shares(Snap(place.Keys), options, userConfig, p, ut)
      ensures Common(Snap(place.Keys), userConfig, apiConfig) == Common(old(Snap(place.Keys)), userConfig, apiConfig)
      ensures Common(Snap(place.Keys), options, apiConfig) == Through(Common(old(Snap(place.Keys)), userConfig, apiConfig), p)
    {
      ghost var h := Snap(place.Keys);
      ReadsOf(h, at);
      ghost var W := MergeConfig(options, userConfig, s, place, p, ut);
      UserMerge(EnvAt(W), h, place, options, O, home.Keys, apiConfig, userConfig, s, p, at, ut);
      QuietReadings(W, h, Snap(place.Keys), place, home.Keys, env);
      MergeAlways(EnvAt(W), [], p, ut, s, env);
    }

    /** The second merge of `Options`. */
    method MergeApi(options: ConfigMap, s: Schema, ghost place: Homes, ghost p: Json, ghost pu: Json, ghost at: Json, ghost ut: Json,
                    ghost env: Env, ghost S: Paths) returns (ghost E: Envs)
      requires SharedOk(Snap(place.Keys), place, home.Keys, apiConfig, userConfig, at, ut) && env == files.EnvOf(at)
      requires home.Keys <= place.Keys && forall x | x in home :: place[x] == home[x]
      requires options in place && place[options] == [] && Denotes(Snap(place.Keys), Ref(options), pu)
      requires Shares(Snap(place.Keys), options, userConfig, p, ut) && Mergeable(pu, at, s)
      requires Common(Snap(place.Keys), userConfig, apiConfig) == S
      requires Common(Snap(place.Keys), options, apiConfig) == Through(S, p)
      modifies place.Keys
      ensures Readings(E, env, Env(files.formats, HostsOf(Rewritten(env, at, s, Through(S, p)))), at)
      ensures Valid(RewrittenAt(E, [], at, s, Through(S, p)), AbsorbAt(E, [], p, ut, at, s))
      ensures Shared() == S + Adopted(p, ut, at)
      ensures Placed(Snap(place.Keys), place)
      ensures Denotes(Snap(place.Keys), Ref(options), MergeAt(E, [], pu, at, s))
    {
      ghost var h := Snap(place.Keys);
      ghost var W := MergeConfig(options, apiConfig, s, place, pu, at);
      E := EnvAt(W);
      ApiReadings(W, h, place, options, s, at);
      ApiMerge(E, h, place, options, home.Keys, apiConfig, userConfig, s, p, pu, at, ut);
      SharedSeen(place, RewrittenAt(E, [], at, s, Through(S, p)), AbsorbAt(E, [], p, ut, at, s));
    }

    /** The shared configurations seen on their own. */
    lemma SharedSeen(place: Homes, at: Json, ut: Json)
      requires SharedOk(Snap(place.Keys), place, home.Keys, apiConfig, userConfig, at, ut)
      requires home.Keys <= place.Keys && forall x | x in home :: place[x] == home[x]
      ensures Valid(at, ut) && Shared() == Common(Snap(place.Keys), userConfig, apiConfig)
    {
      var h, h0 := Snap(place.Keys), Snap(home.Keys);
      assert SameOn(h, h0, home.Keys);
      HomePlaced(h, h0, place);
      SharedFrame(h, h0, place, home, home.Keys, apiConfig, userConfig, at, ut);
    }

    lemma HomePlaced(h: Heap, h0: Heap, place: Homes)
      requires Placed(h, place) && Closed(h, home.Keys) && home.Keys <= place.Keys && forall x | x in home :: place[x] == home[x]
      requires h0.Keys == home.Keys && SameOn(h, h0, home.Keys)
      ensures Placed(h0, home)
    {}

    /** `MergedConfig`.  Each call returns the configuration of the four layers as they are at the call;
        and what it leaves of the API's and the user's configuration, which it writes through, and what
        they share afterwards, is exactly what the definition says for what the call read. */
    method MergedConfig(ghost at: Json, ghost ut: Json) returns (r: Option<ConfigMap>, ghost place: Homes, ghost E: Envs)
      requires Valid(at, ut) && files.Ready(at, ut)
      modifies home.Keys
      ensures files.During(E, at, ut, old(Shared()))
      ensures Valid(files.ApiLeft(E, at, ut, old(Shared())), files.UserLeft(E, at, ut))
      ensures Shared() == files.SharedAfter(at, ut, old(Shared()))
      ensures match files.ConfigLeft(E, at, ut, old(Shared()))
              case None => r.None?
              case Some(t) => r.Some? && Denotes(Snap(place.Keys), Ref(r.value), t)
    {
      place := home;
      E := q => files.EnvOf(at);
      if files.schema.None? { return None, place, E; }
      var options;
      options, place, E := Options(at, ut);
      if options.BadOptions? { return None, place, E; }
      ghost var before := Snap(home.Keys);
      LeftEnv(E, at, ut, old(Shared()));
      ReadsOf(before, files.ApiLeft(E, at, ut, old(Shared())));
      files.OptionsMerge(E, at, ut, old(Shared()));
      var config;
      config, place := OverDefaults(options, files.schema.value, place, files.OptionsLeft(E, at, ut), files.EnvAfter(at, ut, old(Shared())));
      assert Snap(home.Keys) == before;
      r := Some(config);
    }

    /** The hosts that a call leaves. */
    lemma LeftEnv(E: Envs, at: Json, ut: Json, S: Paths)
      requires files.Ready(at, ut) && files.During(E, at, ut, S)
      ensures files.EnvOf(files.ApiLeft(E, at, ut, S)) == files.EnvAfter(at, ut, S)
    {
      if files.Merges(at) {
        EndValue(E, [], at, files.schema.value, Through(S, files.render(at).t), HOSTS_PATH, files.EnvOf(at));
      }
    }

    /** The options over the schema's defaults. */
    method OverDefaults(options: OptionsOutcome, s: Schema, ghost place: Homes, ghost ot: Json, ghost env: Env)
      returns (config: ConfigMap, ghost place': Homes)
      requires home.Keys <= place.Keys && Reads(Snap(home.Keys), env)
      requires DefaultsAccepted(s) && Mergeable(Default(env, s), ot, s) && Placed(Snap(place.Keys), place)
      requires match options
               case BadOptions => false
               case NoOptions => ot == Obj(map[])
               case Got(o) => o in place && place[o] == [] && Denotes(Snap(place.Keys), Ref(o), ot)
      modifies place.Keys
      ensures forall x | x in place :: x.fields == old(x.fields)
      ensures Denotes(Snap(place'.Keys), Ref(config), Merge(env, Default(env, s), ot, s))
    {
      if options.NoOptions? {
        config, place' := MergeNothing(s, place, env);
      } else {
        config, place' := MergeIntoDefaults(options.o, s, place, ot, env);
      }
    }

    /** Go ranges over a nil options map: the configuration is the defaults. */
    method MergeNothing(s: Schema, ghost place: Homes, ghost env: Env) returns (config: ConfigMap, ghost place': Homes)
      requires home.Keys <= place.Keys && Reads(Snap(home.Keys), env)
      requires DefaultsAccepted(s) && Placed(Snap(place.Keys), place)
      modifies place.Keys
      ensures forall x | x in place :: x.fields == old(x.fields)
      ensures Denotes(Snap(place'.Keys), Ref(config), Merge(env, Default(env, s), Obj(map[]), s))
    {
      var none := new ConfigMap();
      ghost var placeN := place[none := []];
      assert placeN.Keys == place.Keys + {none};
      SnapWith(place.Keys, none);
      config, place' := MergeIntoDefaults(none, s, placeN, Obj(map[]), env);
    }

    /** The last two lines of `MergedConfig`. */
    method MergeIntoDefaults(options: ConfigMap, s: Schema, ghost place: Homes, ghost ot: Json, ghost env: Env)
      returns (config: ConfigMap, ghost place': Homes)
      requires home.Keys <= place.Keys && Reads(Snap(home.Keys), env)
      requires DefaultsAccepted(s) && Mergeable(Default(env, s), ot, s)
      requires options in place && place[options] == [] && Placed(Snap(place.Keys), place)
      requires Denotes(Snap(place.Keys), Ref(options), ot)
      modifies place.Keys
      ensures forall x | x in place :: x.fields == old(x.fields)
      ensures Denotes(Snap(place'.Keys), Ref(config), Merge(env, Default(env, s), ot, s))
    {
      ghost var h0, D := Snap(place.Keys), place;
      config, D := DefaultConfig(s, [], env);
      ghost var hD := Snap(D.Keys);
      place' := place + D;
      assert place'.Keys == place.Keys + D.Keys;
      SnapUnion(place.Keys, D.Keys);
      ghost var h := Snap(place'.Keys);
      Join(h0, place, hD, D);
      DenotesFrame(h0, h, h0.Keys, Ref(options), ot);
      DenotesFrame(hD, h, hD.Keys, Ref(config), Default(env, s));
      ReadsFrame(Snap(home.Keys), h, home.Keys, env);
      MergeFresh(config, options, s, place', D.Keys, place.Keys, Default(env, s), ot, env);
      assert forall x | x in place :: x.fields == Snap(place'.Keys)[x];
    }

    /** A merge into maps that nothing else refers to. */
    method MergeFresh(config: ConfigMap, options: ConfigMap, s: Schema, ghost place: Homes, ghost D: set<ConfigMap>, ghost R: set<ConfigMap>,
                      ghost t: Json, ghost ot: Json, ghost env: Env)
      requires config in D && options in R && Closed(Snap(place.Keys), D) && D !! R && home.Keys <= R <= place.Keys
      requires Reads(Snap(place.Keys), env) && Closed(Snap(place.Keys), home.Keys) && apiConfig in home
      requires Placed(Snap(place.Keys), place) && place[config] == place[options] == []
      requires Denotes(Snap(place.Keys), Ref(config), t) && Denotes(Snap(place.Keys), Ref(options), ot) && Mergeable(t, ot, s)
      modifies place.Keys
      ensures SameOn(old(Snap(place.Keys)), Snap(place.Keys), R)
      ensures Denotes(Snap(place.Keys), Ref(config), Merge(env, t, ot, s))
    {
      ghost var h := Snap(place.Keys);
      ghost var W := MergeConfig(config, options, s, place, t, ot);
      OutsideUntouched(EnvAt(W), h, place, config, options, s, D, R);
      MergedDenotes(EnvAt(W), h, place, config, options, s, t, ot);
      QuietReadings(W, h, Snap(place.Keys), place, home.Keys, env);
      MergeAlways(EnvAt(W), [], t, ot, s, env);
    }

    // -------------------------------------------------------------- callers

    /** `renderJsonMustacheTemplate` */
    method RenderTemplate(template: string, ghost at: Json, ghost ut: Json) returns (r: Option<string>, ghost E: Envs)
      requires Valid(at, ut) && files.Ready(at, ut)
      modifies home.Keys
      ensures files.During(E, at, ut, old(Shared()))
      ensures Valid(files.ApiLeft(E, at, ut, old(Shared())), files.UserLeft(E, at, ut))
      ensures Shared() == files.SharedAfter(at, ut, old(Shared()))
      ensures r == files.RenderedLeft(E, template, at, ut, old(Shared()))
      ensures match files.ConfigLeft(E, at, ut, old(Shared()))
              case None => r.None?
              case Some(t) => r == Some(files.mustache(template, t))
    {
      var config;
      ghost var place;
      config, place, E := MergedConfig(at, ut);
      if config.None? { return None, E; }
      var t := Export(config.value, place.Keys, files.ConfigLeft(E, at, ut, old(Shared())).value);
      r := Some(files.mustache(template, t));
    }

    /** An install renders one template after another, each with a `MergedConfig` of its own on the
        same shared maps.  From a steady state all see the configuration of the first, and the API
        configuration never changes. */
    method RenderTemplates(templates: seq<string>, ghost at: Json, ghost ut: Json) returns (rs: seq<Option<string>>, ghost ut': Json)
      requires Valid(at, ut) && files.Ready(at, ut) && files.Steady(at, ut, Shared())
      modifies home.Keys
      ensures Valid(at, ut') && files.Ready(at, ut') && files.Steady(at, ut', Shared()) && files.Config(at, ut') == files.Config(at, ut)
      ensures |rs| == |templates| && forall i | 0 <= i < |rs| :: rs[i] == files.Rendered(templates[i], at, ut)
    {
      rs, ut' := [], ut;
      for i := 0 to |templates|
        invariant Valid(at, ut') && files.Ready(at, ut') && files.Steady(at, ut', Shared()) && files.Config(at, ut') == files.Config(at, ut)
        invariant |rs| == i && forall j | 0 <= j < i :: rs[j] == files.Rendered(templates[j], at, ut)
      {
        files.SteadyAfter(at, ut', Shared());
        ghost var S, E := Shared(), (q: Path) => files.EnvOf(at);
        var r;
        r, E := RenderTemplate(templates[i], at, ut');
        files.HostsStayMeans(E, at, ut', S);
        ut' := files.UserAfter(at, ut');
        rs := rs + [r];
      }
    }
  }
}
