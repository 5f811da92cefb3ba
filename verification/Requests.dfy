/** Install requests: every one has a user configuration of its own, and all share the maps of the API
    configuration that `NewInstall` built. */
module Requests {
  import opened ConfigBuild
  import opened ConfigHeap
  import opened ConfigRefinement
  import opened ConfigSharing
  import opened ConfigTree
  import opened Definitions
  import opened PackageDefinitions
  import opened Wrappers

  lemma NothingCommon(h: Heap, A: set<ConfigMap>, U: set<ConfigMap>, api: ConfigMap, user: ConfigMap)
    requires Closed(h, A) && Closed(h, U) && A !! U && api in A && user in U
    ensures Common(h, user, api) == iset{}
  {
    forall r ensures r !in Common(h, user, api) {
      MapAtFrame(h, h, A, api, r);
      MapAtFrame(h, h, U, user, r);
    }
  }

  /** Maps of the API configuration `at`, with whatever else they lie among. */
  ghost predicate ApiOk(h: Heap, home: Homes, apiConfig: ConfigMap, at: Json) {
    Placed(h, home) && apiConfig in home && home[apiConfig] == [] && Denotes(h, Ref(apiConfig), at)
  }

  /** `GetPackageDefinition` for a parsed request: the API's maps are the ones that all requests use, the
      user's are new, so the two share nothing yet. */
  method NextDefinition(files: Definition, apiConfig: ConfigMap, user: Json, ghost home: Homes, ghost at: Json) returns (d: PackageDefinition)
    requires at.Obj? && user.Obj? && ApiOk(Snap(home.Keys), home, apiConfig, at)
    ensures d.files == files && d.apiConfig == apiConfig
    ensures fresh(d) && home.Keys <= d.home.Keys && fresh(d.home.Keys - home.Keys)
    ensures d.Valid(at, user) && d.Shared() == iset{}
  {
    var u, homeU := Unmarshal(user, []);
    ghost var all := home + homeU;
    assert all.Keys == home.Keys + homeU.Keys;
    SnapUnion(home.Keys, homeU.Keys);
    Join(Snap(home.Keys), home, Snap(homeU.Keys), homeU);
    ghost var h := Snap(all.Keys);
    DenotesFrame(Snap(home.Keys), h, home.Keys, Ref(apiConfig), at);
    DenotesFrame(Snap(homeU.Keys), h, homeU.Keys, u, user);
    NothingCommon(h, home.Keys, homeU.Keys, apiConfig, u.o);
    d := new PackageDefinition(files, apiConfig, u.o, all);
  }

  /** A definition with API and user configurations of its own, as `NewInstall` and the first request
      give them. */
  method NewDefinition(files: Definition, api: Json, user: Json) returns (d: PackageDefinition)
    requires api.Obj? && user.Obj?
    ensures fresh(d) && fresh(d.home.Keys) && d.files == files
    ensures d.Valid(api, user) && d.Shared() == iset{}
  {
    var a, home := Unmarshal(api, []);
    d := NextDefinition(files, a.o, user, home, api);
  }

  /** An install request: the package's files, the user's configuration, and the templates to render. */
  datatype Request = Request(files: Definition, user: Json, templates: seq<string>)
  {
    /** Its calls trip no type assertion and adopt only settled maps of the API's. */
    ghost predicate OnlySettled(api: Json)
      requires api.Obj?
    {
      && files.Ready(api, user)
      && (files.Merges(api) ==> AdoptedSettled(files.EnvOf(api), files.render(api).t, user, api, files.schema.value))
    }

    /** Every template with one and the same configuration. */
    ghost predicate RenderedIs(api: Json, rs: seq<Option<string>>)
      requires api.Obj?
    {
      files.Ready(api, user) && |rs| == |templates| && forall i | 0 <= i < |rs| :: rs[i] == files.Rendered(templates[i], api, user)
    }
  }

  /** One request on the API's maps as earlier requests left them. */
  method ServeOne(request: Request, apiConfig: ConfigMap, ghost home: Homes, ghost at: Json) returns (rs: seq<Option<string>>, ghost home': Homes)
    requires at.Obj? && ApiOk(Snap(home.Keys), home, apiConfig, at) && request.OnlySettled(at)
    modifies home.Keys
    ensures home.Keys <= home'.Keys && fresh(home'.Keys - home.Keys)
    ensures ApiOk(Snap(home'.Keys), home', apiConfig, at)
    ensures request.RenderedIs(at, rs)
  {
    var files := request.files;
    var d := NextDefinition(files, apiConfig, request.user, home, at);
    if files.Merges(at) { FixedOnNothing(files.EnvOf(at), at, files.schema.value); }
    ghost var ut;
    rs, ut := d.RenderTemplates(request.templates, at, request.user);
    home' := d.home;
  }

  /** Any number of requests, one after the other, on the one API configuration of the process.  If each
      adopts only settled maps, none changes it, and each renders all its templates with its own single
      configuration, whatever came before. */
  method ServeAll(requests: seq<Request>, apiConfig: ConfigMap, ghost home: Homes, ghost at: Json)
    returns (rss: seq<seq<Option<string>>>, ghost home': Homes)
    requires at.Obj? && ApiOk(Snap(home.Keys), home, apiConfig, at)
    requires forall i | 0 <= i < |requests| :: requests[i].OnlySettled(at)
    modifies home.Keys
    ensures home.Keys <= home'.Keys && ApiOk(Snap(home'.Keys), home', apiConfig, at)
    ensures |rss| == |requests| && forall i | 0 <= i < |rss| :: requests[i].RenderedIs(at, rss[i])
  {
    rss, home' := [], home;
    for i := 0 to |requests|
      invariant home.Keys <= home'.Keys && fresh(home'.Keys - home.Keys)
      invariant ApiOk(Snap(home'.Keys), home', apiConfig, at)
      invariant |rss| == i && forall j | 0 <= j < i :: requests[j].RenderedIs(at, rss[j])
    {
      var rs;
      assert requests[i].OnlySettled(at);
      rs, home' := ServeOne(requests[i], apiConfig, home', at);
      rss := rss + [rs];
    }
  }

  /** The process: `NewInstall` builds the API configuration, and requests come in. */
  method Serve(hosts: string, mesos: Option<MesosConfig>, requests: seq<Request>) returns (rss: seq<seq<Option<string>>>)
    requires forall i | 0 <= i < |requests| :: requests[i].OnlySettled(ApiConfig(hosts, mesos))
    ensures |rss| == |requests| && forall i | 0 <= i < |rss| :: requests[i].RenderedIs(ApiConfig(hosts, mesos), rss[i])
  {
    var api := ApiConfig(hosts, mesos);
    var a, home := Unmarshal(api, []);
    rss, home := ServeAll(requests, a.o, home, api);
  }

  /** Two calls on a definition that shares nothing yet: they leave the API configuration as it was if and
      only if the maps that the first adopts are settled. */
  method CallTwice(d: PackageDefinition, ghost api: Json, ghost user: Json) returns (ghost at: Json, ghost ut: Json, ghost E: Envs)
    requires d.files.Ready(api, user) && d.files.Merges(api) && d.files.Ready(api, d.files.UserAfter(api, user))
    requires d.Valid(api, user) && d.Shared() == iset{}
    modifies d.home.Keys
    ensures d.Valid(at, ut) && d.files.During(E, api, d.files.UserAfter(api, user), d.files.SharedAfter(api, user, iset{}))
    ensures at == d.files.ApiLeft(E, api, d.files.UserAfter(api, user), d.files.SharedAfter(api, user, iset{}))
    ensures at == api <==> AdoptedSettled(d.files.EnvOf(api), d.files.render(api).t, user, api, d.files.schema.value)
  {
    ghost var E1 := CallOnce(d, api, user);
    ut := d.files.UserAfter(api, user);
    var r;
    ghost var place;
    r, place, E := d.MergedConfig(api, ut);
    d.files.SecondCall(E1, E, api, user);
    at, ut := d.files.ApiLeft(E, api, ut, d.files.SharedAfter(api, user, iset{})), d.files.UserLeft(E, api, ut);
  }

  /** The first of them keeps the API configuration. */
  method CallOnce(d: PackageDefinition, ghost api: Json, ghost user: Json) returns (ghost E: Envs)
    requires d.files.Ready(api, user) && d.files.Merges(api) && d.Valid(api, user) && d.Shared() == iset{}
    modifies d.home.Keys
    ensures d.files.During(E, api, user, iset{})
    ensures d.Valid(api, d.files.UserAfter(api, user)) && d.Shared() == d.files.SharedAfter(api, user, iset{})
  {
    FirstHostsStay(d.files, api, user);
    var r;
    ghost var place;
    r, place, E := d.MergedConfig(api, user);
    d.files.HostsStayMeans(E, api, user, iset{});
  }

  /** A definition that shares nothing yet keeps its API configuration, hosts and all. */
  lemma FirstHostsStay(files: Definition, api: Json, user: Json)
    requires files.Ready(api, user) && files.Merges(api)
    ensures files.HostsStay(api, user, iset{}) && files.ApiAfter(api, user, iset{}) == api
  {
    var env, p, s := files.EnvOf(api), files.render(api).t, files.schema.value;
    assert Through(iset{}, p) == iset{};
    FixedOnNothing(env, api, s);
    LookupKept(env, api, s, iset{}, HOSTS_PATH);
    RewrittenSame(env, api, s, iset{});
  }
}
