/** A merge of the API configuration can rewrite the very hosts that its own transformers read, so that
    values copied before and after that are transformed differently.  These are the tree functions of
    such a merge, with what was read at each path as a parameter; where every path reads the same they
    are `Merge`, `Rewritten` and `Absorb`. */
module LiveHosts {
  import opened ConfigLaws
  import opened ConfigSharing
  import opened ConfigTree
  import opened Wrappers

  /** `Merge` for the maps at path `q`. */
  function MergeAt(E: Envs, q: Path, c: Json, o: Json, s: Schema): (r: Json)
    requires c.Obj? && o.Obj?
    ensures r.Obj?
    decreases c
  {
    Obj(map k | k in c.m.Keys + o.m.Keys ::
          if k !in o.m then c.m[k]
          else if BothMaps(c, o, k) then MergeAt(E, q + [k], c.m[k], o.m[k], Sub(s, k))
          else Transform(E(q + [k]), o.m[k], Sub(s, k).typ))
  }

  /** `Rewritten` for the map at path `q`. */
  ghost function RewrittenAt(E: Envs, q: Path, a: Json, s: Schema, S: Paths): (r: Json)
    requires a.Obj?
    ensures r.Obj?
    decreases a
  {
    Obj(map k | k in a.m ::
          if a.m[k].Obj? then RewrittenAt(E, q + [k], a.m[k], Sub(s, k), Tail(S, k))
          else if [] in S then Transform(E(q + [k]), a.m[k], Sub(s, k).typ)
          else a.m[k])
  }

  /** `Absorb` for the maps at path `q`. */
  function AbsorbAt(E: Envs, q: Path, p: Json, u: Json, a: Json, s: Schema): (r: Json)
    requires p.Obj? && u.Obj? && a.Obj?
    ensures r.Obj?
    decreases u
  {
    Obj(map k | k in u.m ::
          if !BothMaps(u, a, k) then u.m[k]
          else if k in p.m && p.m[k].Obj? then AbsorbAt(E, q + [k], p.m[k], u.m[k], a.m[k], Sub(s, k))
          else MergeAt(E, q + [k], u.m[k], a.m[k], Sub(s, k)))
  }

  // ---------------------------------------------------------------- every path reads the same

  ghost predicate Always(E: Envs, env: Env) { forall q :: E(q) == env }

  lemma {:induction false} MergeAlways(E: Envs, q: Path, c: Json, o: Json, s: Schema, env: Env)
    requires c.Obj? && o.Obj? && Always(E, env)
    ensures MergeAt(E, q, c, o, s) == Merge(env, c, o, s)
    decreases c
  {
    var r, r' := MergeAt(E, q, c, o, s), Merge(env, c, o, s);
    forall k | k in r.m ensures r.m[k] == r'.m[k] {
      if BothMaps(c, o, k) { MergeAlways(E, q + [k], c.m[k], o.m[k], Sub(s, k), env); }
    }
    assert r.m.Keys == r'.m.Keys;
  }

  lemma {:induction false} RewrittenAlways(E: Envs, q: Path, a: Json, s: Schema, S: Paths, env: Env)
    requires a.Obj? && Always(E, env)
    ensures RewrittenAt(E, q, a, s, S) == Rewritten(env, a, s, S)
    decreases a
  {
    var r, r' := RewrittenAt(E, q, a, s, S), Rewritten(env, a, s, S);
    forall k | k in a.m ensures r.m[k] == r'.m[k] {
      if a.m[k].Obj? { RewrittenAlways(E, q + [k], a.m[k], Sub(s, k), Tail(S, k), env); }
    }
    assert r.m.Keys == r'.m.Keys;
  }

  lemma {:induction false} AbsorbAlways(E: Envs, q: Path, p: Json, u: Json, a: Json, s: Schema, env: Env)
    requires p.Obj? && u.Obj? && a.Obj? && Always(E, env)
    ensures AbsorbAt(E, q, p, u, a, s) == Absorb(env, p, u, a, s)
    decreases u
  {
    var r, r' := AbsorbAt(E, q, p, u, a, s), Absorb(env, p, u, a, s);
    forall k | k in u.m ensures r.m[k] == r'.m[k] {
      if BothMaps(u, a, k) {
        if k in p.m && p.m[k].Obj? { AbsorbAlways(E, q + [k], p.m[k], u.m[k], a.m[k], Sub(s, k), env); }
        else { MergeAlways(E, q + [k], u.m[k], a.m[k], Sub(s, k), env); }
      }
    }
    assert r.m.Keys == r'.m.Keys;
  }

  /** A configuration that shares no map keeps its values. */
  lemma {:induction false} RewrittenNothing(E: Envs, q: Path, a: Json, s: Schema)
    requires a.Obj?
    ensures RewrittenAt(E, q, a, s, iset{}) == a
    decreases a
  {
    var r := RewrittenAt(E, q, a, s, iset{});
    forall k | k in a.m ensures r.m[k] == a.m[k] {
      assert Tail(iset{}, k) == iset{};
      if a.m[k].Obj? { RewrittenNothing(E, q + [k], a.m[k], Sub(s, k)); }
    }
    assert r.m.Keys == a.m.Keys;
  }

  // ---------------------------------------------------------------- the value that a lookup ends at

  /** The path of the value that a lookup in the map at `q` finds. */
  function EndPath(q: Path, a: Json, keys: Path): Option<Path>
    requires a.Obj?
    decreases |keys|
  {
    if keys == [] then None
    else if keys[0] !in a.m then EndPath(q, a, keys[1..])
    else if a.m[keys[0]].Obj? then EndPath(q + [keys[0]], a.m[keys[0]], keys[1..])
    else Some(q + [keys[0]])
  }

  /** What is read elsewhere does not matter to it. */
  lemma {:induction false} EndValue(E: Envs, q: Path, a: Json, s: Schema, S: Paths, keys: Path, env: Env)
    requires a.Obj? && (EndPath(q, a, keys).Some? ==> E(EndPath(q, a, keys).value) == env)
    ensures GetConfigVal(RewrittenAt(E, q, a, s, S), keys) == GetConfigVal(Rewritten(env, a, s, S), keys)
    decreases |keys|
  {
    if keys != [] {
      var k := keys[0];
      if k !in a.m { EndValue(E, q, a, s, S, keys[1..], env); }
      else if a.m[k].Obj? { EndValue(E, q + [k], a.m[k], Sub(s, k), Tail(S, k), keys[1..], env); }
    }
  }

  /** What a merge of the API configuration `a` can read, when it finds `env` at first and `env'` at the
      end: one or the other at every path, and at first for the hosts themselves. */
  ghost predicate Readings(E: Envs, env: Env, env': Env, a: Json)
    requires a.Obj?
  {
    && (forall q :: E(q) == env || E(q) == env')
    && match EndPath([], a, HOSTS_PATH) case None => true case Some(q) => E(q) == env
  }

  /** The API configuration is kept exactly when the values in its shared maps are fixed points, whatever
      the order of the copies. */
  lemma KeptWith(E: Envs, env: Env, a: Json, s: Schema, S: Paths)
    requires a.Obj? && env.hosts == HostsOf(a)
    requires Readings(E, env, Env(env.formats, HostsOf(Rewritten(env, a, s, S))), a)
    ensures RewrittenAt(E, [], a, s, S) == a <==> FixedOn(env, a, s, S)
    ensures LookupFixed(env, a, s, S, HOSTS_PATH) ==> Always(E, env)
  {
    EndValue(E, [], a, s, S, HOSTS_PATH, env);
    LookupKept(env, a, s, S, HOSTS_PATH);
    RewrittenSame(env, a, s, S);
    if RewrittenAt(E, [], a, s, S) == a || LookupFixed(env, a, s, S, HOSTS_PATH) { RewrittenAlways(E, [], a, s, S, env); }
  }

  // ---------------------------------------------------------------- what is read and failed assertions

  /** Equal up to the contents of the plain values. */
  predicate SameKinds(t: Json, t': Json) {
    if t.Obj? then t'.Obj? && t'.m.Keys == t.m.Keys && forall k | k in t.m :: SameKinds(t.m[k], t'.m[k])
    else !t'.Obj? && (t'.Arr? <==> t.Arr?) && (t'.Str? <==> t.Str?) && (t'.Num? <==> t.Num?)
  }

  lemma {:induction false} KindsSelf(t: Json)
    ensures SameKinds(t, t)
    decreases t
  {
    if t.Obj? { forall k | k in t.m ensures SameKinds(t.m[k], t.m[k]) { KindsSelf(t.m[k]); } }
  }

  lemma TransformKinds(env: Env, env': Env, v: Json, v': Json, typ: Type)
    requires SameKinds(v, v')
    ensures SameKinds(Transform(env, v, typ), Transform(env', v', typ))
  {}

  lemma {:induction false} MergeKinds(E: Envs, E': Envs, q: Path, c: Json, c': Json, o: Json, o': Json, s: Schema)
    requires c.Obj? && o.Obj? && SameKinds(c, c') && SameKinds(o, o')
    ensures SameKinds(MergeAt(E, q, c, o, s), MergeAt(E', q, c', o', s))
    decreases c
  {
    var r, r' := MergeAt(E, q, c, o, s), MergeAt(E', q, c', o', s);
    assert r.m.Keys == r'.m.Keys;
    forall k | k in r.m ensures SameKinds(r.m[k], r'.m[k]) {
      if k in o.m {
        assert BothMaps(c, o, k) <==> BothMaps(c', o', k);
        if BothMaps(c, o, k) { MergeKinds(E, E', q + [k], c.m[k], c'.m[k], o.m[k], o'.m[k], Sub(s, k)); }
        else { TransformKinds(E(q + [k]), E'(q + [k]), o.m[k], o'.m[k], Sub(s, k).typ); }
      }
    }
  }

  lemma {:induction false} DefaultKinds(env: Env, env': Env, s: Schema)
    ensures SameKinds(Default(env, s), Default(env', s))
    decreases s
  {
    var r, r' := Default(env, s), Default(env', s);
    forall k | k in r.m ensures SameKinds(r.m[k], r'.m[k]) {
      if s.properties[k].default == Null { DefaultKinds(env, env', s.properties[k]); }
      else if s.properties[k].default.Obj? { KindsSelf(s.properties[k].default); }
    }
    assert r.m.Keys == r'.m.Keys;
  }

  /** Whether a merge trips a type assertion does not depend on what the transformers read. */
  lemma {:induction false} MergeableKinds(c: Json, c': Json, o: Json, o': Json, s: Schema)
    requires SameKinds(c, c') && SameKinds(o, o') && Mergeable(c, o, s)
    ensures Mergeable(c', o', s)
    decreases c
  {
    forall k | k in o'.m ensures if BothMaps(c', o', k) then Mergeable(c'.m[k], o'.m[k], Sub(s, k)) else Accepts(o'.m[k], Sub(s, k).typ) {
      if BothMaps(c, o, k) { MergeableKinds(c.m[k], c'.m[k], o.m[k], o'.m[k], Sub(s, k)); }
    }
  }

  /** Such trees have maps, and plain values, at the same paths. */
  lemma {:induction false} KindsAt(t: Json, t': Json, q: Path)
    requires SameKinds(t, t')
    ensures match At(t, q)
            case None => At(t', q).None?
            case Some(v) => At(t', q).Some? && SameKinds(v, At(t', q).value)
    decreases |q|
  {
    if q != [] && t.Obj? && q[0] in t.m { KindsAt(t.m[q[0]], t'.m[q[0]], q[1..]); }
  }
}
