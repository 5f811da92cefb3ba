/** What a package definition's files say, and on trees what each call of `MergedConfig` gives and leaves. */
module Definitions {
  import opened ConfigLaws
  import opened ConfigSharing
  import opened ConfigTree
  import opened LiveHosts
  import opened Wrappers

  /** mantl.json after rendering and parsing: absent or empty, not parseable, or an object. */
  datatype OptionsFile = NoFile | Malformed | Parsed(t: Json)

  /** What the definition's files say: config.json as parsed, if it could be; mantl.json as rendered with
      an API configuration and parsed; and how a template renders with a configuration. */
  datatype Definition = Definition(formats: Formats, schema: Option<Schema>, render: Json -> OptionsFile, mustache: (string, Json) -> string)
  {
    ghost function EnvOf(at: Json): Env
      requires at.Obj?
    {
      Env(formats, HostsOf(at))
    }

    /** There are options to merge the user and API configuration into. */
    predicate Merges(at: Json) { schema.Some? && render(at).Parsed? }

    /** A call trips no type assertion. */
    ghost predicate Ready(at: Json, ut: Json) {
      && at.Obj? && ut.Obj?
      && (schema.Some? ==> DefaultsAccepted(schema.value))
      && (Merges(at) ==> render(at).t.Obj? && LayersMergeable(EnvOf(at), render(at).t, ut, at, schema.value))
    }

    /** The configuration that a call of `MergedConfig` stands for. */
    ghost function Config(at: Json, ut: Json): Option<Json>
      requires Ready(at, ut)
    {
      if schema.None? || render(at).Malformed? then None
      else Some(ConfigTree.MergedConfig(EnvOf(at), if render(at).NoFile? then None else Some(render(at).t), ut, at, schema.value))
    }

    ghost function Rendered(template: string, at: Json, ut: Json): Option<string>
      requires Ready(at, ut)
    {
      match Config(at, ut) case None => None case Some(t) => Some(mustache(template, t))
    }

    // What a call leaves behind when it keeps the hosts and the user's configuration holds the API's
    // maps at the paths `S`.

    ghost function ApiAfter(at: Json, ut: Json, S: Paths): (r: Json)
      requires Ready(at, ut)
      ensures r.Obj?
    {
      if Merges(at) then Rewritten(EnvOf(at), at, schema.value, Through(S, render(at).t)) else at
    }

    ghost function UserAfter(at: Json, ut: Json): (r: Json)
      requires Ready(at, ut)
      ensures r.Obj?
    {
      if Merges(at) then Absorb(EnvOf(at), render(at).t, ut, at, schema.value) else ut
    }

    ghost function SharedAfter(at: Json, ut: Json, S: Paths): Paths
      requires Ready(at, ut)
    {
      if Merges(at) then S + Adopted(render(at).t, ut, at) else S
    }

    /** The call does not change the hosts that its own transformers read. */
    ghost predicate HostsStay(at: Json, ut: Json, S: Paths)
      requires Ready(at, ut)
    {
      Merges(at) ==> LookupFixed(EnvOf(at), at, schema.value, Through(S, render(at).t), HOSTS_PATH)
    }

    // The same for any call, with what it read at each path.

    ghost function EnvAfter(at: Json, ut: Json, S: Paths): Env
      requires Ready(at, ut)
    {
      Env(formats, HostsOf(ApiAfter(at, ut, S)))
    }

    /** What a call can read as it copies the API configuration. */
    ghost predicate During(E: Envs, at: Json, ut: Json, S: Paths)
      requires Ready(at, ut)
    {
      Readings(E, EnvOf(at), EnvAfter(at, ut, S), at)
    }

    ghost function ApiLeft(E: Envs, at: Json, ut: Json, S: Paths): (r: Json)
      requires Ready(at, ut)
      ensures r.Obj?
    {
      if Merges(at) then RewrittenAt(E, [], at, schema.value, Through(S, render(at).t)) else at
    }

    ghost function UserLeft(E: Envs, at: Json, ut: Json): (r: Json)
      requires Ready(at, ut)
      ensures r.Obj?
    {
      if Merges(at) then AbsorbAt(E, [], render(at).t, ut, at, schema.value) else ut
    }

    ghost function OptionsLeft(E: Envs, at: Json, ut: Json): (r: Json)
      requires Ready(at, ut)
      ensures r.Obj?
    {
      if Merges(at) then MergeAt(E, [], Merge(EnvOf(at), render(at).t, ut, schema.value), at, schema.value) else Obj(map[])
    }

    ghost function ConfigLeft(E: Envs, at: Json, ut: Json, S: Paths): Option<Json>
      requires Ready(at, ut)
    {
      if schema.None? || render(at).Malformed? then None
      else Some(Merge(EnvAfter(at, ut, S), Default(EnvAfter(at, ut, S), schema.value), OptionsLeft(E, at, ut), schema.value))
    }

    ghost function RenderedLeft(E: Envs, template: string, at: Json, ut: Json, S: Paths): Option<string>
      requires Ready(at, ut)
    {
      match ConfigLeft(E, at, ut, S) case None => None case Some(t) => Some(mustache(template, t))
    }

    /** The options merge into the defaults whatever was read. */
    lemma OptionsMerge(E: Envs, at: Json, ut: Json, S: Paths)
      requires Ready(at, ut) && schema.Some?
      ensures Mergeable(Default(EnvAfter(at, ut, S), schema.value), OptionsLeft(E, at, ut), schema.value)
    {
      if Merges(at) {
        var env, env', p, s := EnvOf(at), EnvAfter(at, ut, S), render(at).t, schema.value;
        OptionsKinds(E, at, ut);
        DefaultKinds(env, env', s);
        MergeableKinds(Default(env, s), Default(env', s), ConfigTree.Options(env, p, ut, at, s), OptionsLeft(E, at, ut), s);
      }
    }

    /** Whatever a call reads, its configuration has maps and plain values at the same paths as when it
        reads the hosts that it starts with everywhere. */
    lemma ConfigShape(E: Envs, at: Json, ut: Json, S: Paths, q: Path)
      requires Ready(at, ut) && Config(at, ut).Some?
      ensures ConfigLeft(E, at, ut, S).Some?
      ensures var v, v' := At(Config(at, ut).value, q), At(ConfigLeft(E, at, ut, S).value, q);
              (v.Some? <==> v'.Some?) && (v.Some? ==> (v.value.Obj? <==> v'.value.Obj?))
    {
      var t, t' := Config(at, ut).value, ConfigLeft(E, at, ut, S).value;
      SameShape(E, at, ut, S);
      KindsAt(t, t', q);
    }

    lemma SameShape(E: Envs, at: Json, ut: Json, S: Paths)
      requires Ready(at, ut) && Config(at, ut).Some?
      ensures SameKinds(Config(at, ut).value, ConfigLeft(E, at, ut, S).value)
    {
      var env, env', s := EnvOf(at), EnvAfter(at, ut, S), schema.value;
      var same: Envs, same': Envs := q => env, q => env';
      var o := if Merges(at) then ConfigTree.Options(env, render(at).t, ut, at, s) else Obj(map[]);
      DefaultKinds(env, env', s);
      OptionsKinds(E, at, ut);
      MergeAlways(same, [], Default(env, s), o, s, env);
      MergeAlways(same', [], Default(env', s), OptionsLeft(E, at, ut), s, env');
      MergeKinds(same, same', [], Default(env, s), Default(env', s), o, OptionsLeft(E, at, ut), s);
    }

    lemma OptionsKinds(E: Envs, at: Json, ut: Json)
      requires Ready(at, ut) && schema.Some?
      ensures SameKinds(if Merges(at) then ConfigTree.Options(EnvOf(at), render(at).t, ut, at, schema.value) else Obj(map[]), OptionsLeft(E, at, ut))
    {
      if Merges(at) {
        var env, p, s := EnvOf(at), render(at).t, schema.value;
        var same: Envs := q => env;
        KindsSelf(Merge(env, p, ut, s));
        KindsSelf(at);
        MergeAlways(same, [], Merge(env, p, ut, s), at, s, env);
        MergeKinds(same, E, [], Merge(env, p, ut, s), Merge(env, p, ut, s), at, at, s);
      }
    }

    /** When there is a configuration: unless config.json or mantl.json cannot be read.  Without a
        mantl.json it is the defaults, whatever the user and API configurations are. */
    lemma ConfigIs(E: Envs, at: Json, ut: Json, S: Paths)
      requires Ready(at, ut)
      ensures ConfigLeft(E, at, ut, S).None? <==> schema.None? || render(at).Malformed?
      ensures schema.Some? && render(at).NoFile? ==> ConfigLeft(E, at, ut, S) == Some(Default(EnvOf(at), schema.value))
    {
      if schema.Some? && render(at).NoFile? {
        var d := Default(EnvOf(at), schema.value);
        assert Merge(EnvOf(at), d, Obj(map[]), schema.value).m == d.m;
      }
    }

    /** A call that keeps the hosts reads the same everywhere. */
    lemma HostsStayMeans(E: Envs, at: Json, ut: Json, S: Paths)
      requires Ready(at, ut) && HostsStay(at, ut, S) && During(E, at, ut, S)
      ensures EnvAfter(at, ut, S) == EnvOf(at)
      ensures ApiLeft(E, at, ut, S) == ApiAfter(at, ut, S) && UserLeft(E, at, ut) == UserAfter(at, ut)
      ensures ConfigLeft(E, at, ut, S) == Config(at, ut)
    {
      if Merges(at) {
        var env, p, s := EnvOf(at), render(at).t, schema.value;
        KeptWith(E, env, at, s, Through(S, p));
        LookupKept(env, at, s, Through(S, p), HOSTS_PATH);
        RewrittenAlways(E, [], at, s, Through(S, p), env);
        AbsorbAlways(E, [], p, ut, at, s, env);
        MergeAlways(E, [], Merge(env, p, ut, s), at, s, env);
      }
    }

    /** No call changes the API configuration any more: the values in the shared maps, and in those that
        a call makes shared, are fixed points of the transformers. */
    ghost predicate Steady(at: Json, ut: Json, S: Paths)
      requires Ready(at, ut)
    {
      Merges(at) ==>
        && FixedOn(EnvOf(at), at, schema.value, S)
        && AdoptedSettled(EnvOf(at), render(at).t, ut, at, schema.value)
    }

    /** In a steady state every call leaves a steady state that gives the same configuration. */
    lemma SteadyAfter(at: Json, ut: Json, S: Paths)
      requires Ready(at, ut) && Steady(at, ut, S)
      ensures HostsStay(at, ut, S) && ApiAfter(at, ut, S) == at
      ensures Ready(at, UserAfter(at, ut)) && Config(at, UserAfter(at, ut)) == Config(at, ut)
      ensures Steady(at, UserAfter(at, ut), SharedAfter(at, ut, S))
    {
      if Merges(at) {
        var env, p, s := EnvOf(at), render(at).t, schema.value;
        FixedOnLess(env, at, s, S, Through(S, p));
        LookupKept(env, at, s, Through(S, p), HOSTS_PATH);
        RewrittenSame(env, at, s, Through(S, p));
        AbsorbMergeable(env, p, ut, at, s);
        OptionsAgain(env, p, ut, at, s);
        AdoptedFixed(env, p, ut, at, s);
        AdoptedOnce(env, p, ut, at, s);
        FixedOnUnion(env, at, s, S, Adopted(p, ut, at));
      }
    }

    /** A definition with configurations of its own: the second call leaves the API configuration as it
        is, whatever it reads, if and only if the maps that the first adopts are settled. */
    lemma SecondCall(E: Envs, E2: Envs, at: Json, ut: Json)
      requires Ready(at, ut) && Merges(at) && Ready(at, UserAfter(at, ut))
      requires During(E, at, ut, iset{}) && During(E2, at, UserAfter(at, ut), SharedAfter(at, ut, iset{}))
      ensures ApiLeft(E, at, ut, iset{}) == at && UserLeft(E, at, ut) == UserAfter(at, ut)
      ensures ApiLeft(E2, at, UserAfter(at, ut), SharedAfter(at, ut, iset{})) == at <==>
              AdoptedSettled(EnvOf(at), render(at).t, ut, at, schema.value)
    {
      var env, p, s := EnvOf(at), render(at).t, schema.value;
      assert Through(iset{}, p) == iset{};
      FixedOnNothing(env, at, s);
      LookupKept(env, at, s, iset{}, HOSTS_PATH);
      HostsStayMeans(E, at, ut, iset{});
      RewrittenSame(env, at, s, iset{});
      AdoptedThrough(p, ut, at);
      assert SharedAfter(at, ut, iset{}) == Adopted(p, ut, at);
      KeptWith(E2, env, at, s, Adopted(p, ut, at));
      AdoptedFixed(env, p, ut, at, s);
    }
  }
}
