/** Uninstalling a package.  Every external call may fail, and between any two calls of one request
    other requests make theirs.  What each request did is recorded in one shared trace. */
module Lifecycle {
  import opened Base64
  import opened Paths
  import opened Wrappers
  import Zookeeper

  /** The label keys that the code reads and writes. */
  datatype LabelKey =
    | PackageName | PackageVersion | PackageIndex | IsFramework | FrameworkNameKey | UninstallKey
    | DcosFrameworkName | TraefikEnable | OtherKey(key: string)

  type Labels = map<LabelKey, string>

  datatype App = App(id: string, labels: Labels)

  datatype Framework = Framework(id: string, name: string, active: bool)

  /** uninstall.json: the znodes to delete. */
  datatype Node = Node(path: string, always: bool)

  /** Case folding, and parsing of a decoded uninstall.json. */
  datatype Library = Library(equalFold: (string, string) -> bool, parse: Bytes -> Option<seq<Node>>)

  /** A missing label reads as the empty string. */
  function Label(app: App, k: LabelKey): string { if k in app.labels then app.labels[k] else "" }

  function FrameworkName(app: App): string {
    if Label(app, FrameworkNameKey) != "" then Label(app, FrameworkNameKey) else Label(app, DcosFrameworkName)
  }

  /** The framework that an uninstall stops: the package's label, or the DCOS label where that is missing
      or empty, or none. */
  lemma FrameworkNameIs(app: App)
    ensures FrameworkNameKey in app.labels && app.labels[FrameworkNameKey] != "" ==> FrameworkName(app) == app.labels[FrameworkNameKey]
    ensures (FrameworkNameKey !in app.labels || app.labels[FrameworkNameKey] == "") ==>
              FrameworkName(app) == if DcosFrameworkName in app.labels then app.labels[DcosFrameworkName] else ""
  {}

  function AlwaysPaths(nodes: seq<Node>): seq<string> {
    if nodes == [] then []
    else AlwaysPaths(nodes[..|nodes| - 1]) + if nodes[|nodes| - 1].always then [nodes[|nodes| - 1].path] else []
  }

  /** Exactly the nodes marked `always`, each as often as it is marked. */
  lemma {:induction false} AlwaysPathsMeans(nodes: seq<Node>)
    ensures forall path :: path in AlwaysPaths(nodes) <==> exists node | node in nodes :: node.always && node.path == path
    ensures |AlwaysPaths(nodes)| == |MarkedAlways(nodes)|
  {
    if nodes != [] {
      var n := |nodes| - 1;
      AlwaysPathsMeans(nodes[..n]);
      assert nodes == nodes[..n] + [nodes[n]];
      assert MarkedAlways(nodes) == MarkedAlways(nodes[..n]) + if nodes[n].always then {n} else {};
    }
  }

  function MarkedAlways(nodes: seq<Node>): set<nat> { set i: nat | i < |nodes| && nodes[i].always }

  /** The nodes that post-uninstall deletes for an app: none if its label cannot be read. */
  function PathsToDelete(lib: Library, app: App): seq<string> {
    match Decode(Label(app, UninstallKey))
    case None => []
    case Some(b) =>
      if Label(app, UninstallKey) == "" then []
      else match lib.parse(b) case None => [] case Some(nodes) => AlwaysPaths(nodes)
  }

  // ---------------------------------------------------------------- calls and their protocol

  datatype LookupOutcome = Unreachable | Ambiguous | NotActive | Found(fw: Framework)

  /** An external call of an uninstall request, with its outcome. */
  datatype Call =
    | Listed(apps: seq<App>)
    | Destroy(id: string, ok: bool)
    | Lookup(name: string, outcome: LookupOutcome)
    | Teardown(frameworkId: string, ok: bool)
    | ZkDelete(path: string)

  datatype Step = Step(req: nat, call: Call)

  /** How far a request has come, as far as its calls show. */
  datatype Phase =
    | Start
    | Matched(app: App)
    | Gone(app: App)
    | Stopping(app: App, frameworkId: string)
    | Clear(app: App, todo: seq<string>)
    | Ended

  /** The calls that may follow, and where they lead. */
  function Next(lib: Library, ph: Phase, c: Call): Option<Phase> {
    match ph
    case Start => if c.Listed? then Some(if |c.apps| == 1 then Matched(c.apps[0]) else Ended) else None
    case Matched(app) =>
      if c.Destroy? && c.id == app.id
      then Some(if !c.ok then Ended else if FrameworkName(app) == "" then Clear(app, PathsToDelete(lib, app)) else Gone(app))
      else None
    case Gone(app) =>
      if !c.Lookup? || c.name != FrameworkName(app) then None
      else (match c.outcome
            case NotActive => Some(Clear(app, PathsToDelete(lib, app)))
            case Found(fw) => if lib.equalFold(fw.name, c.name) then Some(Stopping(app, fw.id)) else None
            case _ => Some(Ended))
    case Stopping(app, id) =>
      if c.Teardown? && c.frameworkId == id then Some(if c.ok then Clear(app, PathsToDelete(lib, app)) else Ended) else None
    case Clear(app, todo) =>
      if c.ZkDelete? && todo != [] && c.path == todo[0] then Some(Clear(app, todo[1..])) else None
    case Ended => None
  }

  /** The phase after a sequence of calls, if the protocol allows it. */
  function Monitor(lib: Library, own: seq<Call>): Option<Phase> {
    if own == [] then Some(Start)
    else match Monitor(lib, own[..|own| - 1])
         case None => None
         case Some(ph) => Next(lib, ph, own[|own| - 1])
  }

  /** The calls of one request. */
  function Own(trace: seq<Step>, req: nat): seq<Call> {
    if trace == [] then []
    else
      var last := trace[|trace| - 1];
      Own(trace[..|trace| - 1], req) + if last.req == req then [last.call] else []
  }

  // ---------------------------------------------------------------- what the protocol means

  /** The framework of the app, if it names one, has been found inactive or shut down. */
  ghost predicate FrameworkDealtWith(lib: Library, app: App, own: seq<Call>) {
    FrameworkName(app) == "" ||
    (|own| >= 3 && own[2] == Lookup(FrameworkName(app), NotActive)) ||
    (|own| >= 4 && own[2].Lookup? && own[2].name == FrameworkName(app) && own[2].outcome.Found?
     && lib.equalFold(own[2].outcome.fw.name, FrameworkName(app)) && own[3] == Teardown(own[2].outcome.fw.id, true))
  }

  function DealtLength(app: App, own: seq<Call>): nat {
    if FrameworkName(app) == "" then 2 else if |own| >= 3 && own[2].Lookup? && own[2].outcome.NotActive? then 3 else 4
  }

  /** What must have happened for a request to be in a phase. */
  ghost predicate Reached(lib: Library, own: seq<Call>, ph: Phase) {
    match ph
    case Start => own == []
    case Matched(app) => own == [Listed([app])]
    case Gone(app) => own == [Listed([app]), Destroy(app.id, true)] && FrameworkName(app) != ""
    case Stopping(app, id) =>
      && |own| == 3 && own[0] == Listed([app]) && own[1] == Destroy(app.id, true) && FrameworkName(app) != ""
      && own[2].Lookup? && own[2].name == FrameworkName(app) && own[2].outcome.Found?
      && lib.equalFold(own[2].outcome.fw.name, FrameworkName(app)) && own[2].outcome.fw.id == id
    case Clear(app, todo) =>
      var n := DealtLength(app, own);
      && |own| >= n && own[0] == Listed([app]) && own[1] == Destroy(app.id, true) && FrameworkDealtWith(lib, app, own)
      && |own| - n + |todo| == |PathsToDelete(lib, app)|
      && PathsToDelete(lib, app)[|own| - n..] == todo
      && forall i | n <= i < |own| :: own[i] == ZkDelete(PathsToDelete(lib, app)[i - n])
    case Ended =>
      && own != [] && own[0].Listed? && |own| <= 4
      && (|own| > 1 ==> |own[0].apps| == 1 && own[1].Destroy? && own[1].id == own[0].apps[0].id)
      && (|own| > 2 ==> own[1].ok && own[2].Lookup?)
      && (|own| > 3 ==> own[2].outcome.Found? && own[3] == Teardown(own[2].outcome.fw.id, false)
                        && lib.equalFold(own[2].outcome.fw.name, own[2].name))
  }

  lemma ReachedNext(lib: Library, own: seq<Call>, ph: Phase, c: Call)
    requires Reached(lib, own, ph) && Next(lib, ph, c).Some?
    ensures Reached(lib, own + [c], Next(lib, ph, c).value)
  {
    if ph.Start? && |c.apps| == 1 { assert c.apps == [c.apps[0]]; }
  }

  /** The monitored calls of a request have exactly the shape that their phase says. */
  lemma {:induction false} MonitorMeans(lib: Library, own: seq<Call>)
    requires Monitor(lib, own).Some?
    ensures Reached(lib, own, Monitor(lib, own).value)
  {
    if own != [] {
      var before, c := own[..|own| - 1], own[|own| - 1];
      assert own == before + [c];
      var ph := Monitor(lib, before).value;
      MonitorMeans(lib, before);
      ReachedNext(lib, before, ph, c);
    }
  }

  lemma {:induction false} OwnAppend(trace: seq<Step>, more: seq<Step>, req: nat)
    ensures Own(trace + more, req) == Own(trace, req) + Own(more, req)
  {
    if more == [] {
      assert trace + more == trace;
    } else {
      var n := |more| - 1;
      assert (trace + more)[..|trace + more| - 1] == trace + more[..n];
      OwnAppend(trace, more[..n], req);
    }
  }

  lemma {:induction false} OwnMember(trace: seq<Step>, req: nat, c: Call)
    requires c in Own(trace, req)
    ensures exists j | 0 <= j < |trace| :: trace[j] == Step(req, c)
  {
    var n := |trace| - 1;
    if c in Own(trace[..n], req) {
      OwnMember(trace[..n], req, c);
      var j :| 0 <= j < n && trace[..n][j] == Step(req, c);
      assert trace[j] == Step(req, c);
    } else {
      assert trace[n] == Step(req, c);
    }
  }

  lemma OwnFrom(trace: seq<Step>, req: nat, i: nat)
    requires i < |trace| && trace[i].req == req
    ensures Own(trace[..i + 1], req) == Own(trace[..i], req) + [trace[i].call]
  {
    assert trace[..i + 1][..i] == trace[..i];
  }

  lemma {:induction false} MonitorPrefix(lib: Library, own: seq<Call>, n: nat)
    requires Monitor(lib, own).Some? && n <= |own|
    ensures Monitor(lib, own[..n]).Some?
  {
    if n < |own| {
      MonitorPrefix(lib, own[..|own| - 1], n);
      assert own[..|own| - 1][..n] == own[..n];
    } else {
      assert own[..n] == own;
    }
  }

  /** What a request must have called before a call that changes something, for the app it is about. */
  ghost predicate Due(lib: Library, before: seq<Call>, c: Call, app: App) {
    match c
    case Destroy(id, _) => before == [Listed([app])] && id == app.id
    case Teardown(id, _) =>
      && |before| == 3 && before[0] == Listed([app]) && before[1] == Destroy(app.id, true)
      && before[2].Lookup? && before[2].name == FrameworkName(app) && before[2].outcome.Found?
      && before[2].outcome.fw.id == id && lib.equalFold(before[2].outcome.fw.name, FrameworkName(app))
    case ZkDelete(path) =>
      && |before| >= 2 && before[0] == Listed([app]) && before[1] == Destroy(app.id, true)
      && FrameworkDealtWith(lib, app, before) && path in PathsToDelete(lib, app)
    case _ => true
  }

  /** Uninstall safety in any interleaved trace: a znode delete of a request comes after the
      request's only match was destroyed and its framework dealt with; a teardown comes after the
      destroy and a unique, case-insensitive match; a destroy is of the only match; and no request
      destroys or tears down twice. */
  lemma UninstallSafe(lib: Library, trace: seq<Step>, req: nat, i: nat)
    requires Monitor(lib, Own(trace, req)).Some? && i < |trace| && trace[i].req == req
    ensures exists app :: Due(lib, Own(trace[..i], req), trace[i].call, app)
    ensures forall c | c in Own(trace[..i], req) :: Happened(trace, req, i, c)
  {
    var before := Own(trace[..i], req);
    CallAllowed(lib, trace, req, i);
    MonitorMeans(lib, before);
    var app := CallDue(lib, before, Monitor(lib, before).value, trace[i].call);
    forall c | c in before ensures Happened(trace, req, i, c) {
      OwnMember(trace[..i], req, c);
      var j :| 0 <= j < i && trace[..i][j] == Step(req, c);
      assert trace[j] == Step(req, c);
    }
  }

  /** The request made the call before step `i`. */
  ghost predicate Happened(trace: seq<Step>, req: nat, i: nat, c: Call)
    requires i <= |trace|
  {
    exists j | 0 <= j < i :: trace[j] == Step(req, c)
  }

  lemma CallAllowed(lib: Library, trace: seq<Step>, req: nat, i: nat)
    requires Monitor(lib, Own(trace, req)).Some? && i < |trace| && trace[i].req == req
    ensures Monitor(lib, Own(trace[..i], req)).Some?
    ensures Next(lib, Monitor(lib, Own(trace[..i], req)).value, trace[i].call).Some?
  {
    var before, c := Own(trace[..i], req), trace[i].call;
    assert trace == trace[..i + 1] + trace[i + 1..];
    OwnAppend(trace[..i + 1], trace[i + 1..], req);
    OwnFrom(trace, req, i);
    var own := before + [c];
    MonitorPrefix(lib, Own(trace, req), |own|);
    assert Own(trace, req)[..|own|] == own && own[..|own| - 1] == before;
  }

  lemma CallDue(lib: Library, before: seq<Call>, ph: Phase, c: Call) returns (app: App)
    requires Reached(lib, before, ph) && Next(lib, ph, c).Some?
    ensures Due(lib, before, c, app)
  {
    match ph {
      case Matched(a) => app := a;
      case Gone(a) => app := a;
      case Stopping(a, _) => app := a;
      case Clear(a, todo) =>
        app := a;
        DropHead(PathsToDelete(lib, a), |before| - DealtLength(a, before), todo);
      case Start => app := App("", map[]);
    }
  }

  lemma DropHead(paths: seq<string>, n: nat, todo: seq<string>)
    requires n <= |paths| && paths[n..] == todo && todo != []
    ensures todo[0] in paths
  {
    assert paths[n] == todo[0];
  }

  // ---------------------------------------------------------------- the program

  class Cluster {
    const lib: Library
    ghost var trace: seq<Step>

    constructor (lib: Library)
      ensures this.lib == lib && trace == []
    {
      this.lib, trace := lib, [];
    }

    ghost predicate InPhase(req: nat, ph: Phase)
      reads this
    {
      Monitor(lib, Own(trace, req)) == Some(ph)
    }

    /** Calls of other requests. */
    ghost method Others(req: nat)
      modifies this`trace
      ensures old(trace) <= trace && Own(trace, req) == Own(old(trace), req)
    {
      var more: seq<Step> :| forall i | 0 <= i < |more| :: more[i].req != req;
      OwnAppend(trace, more, req);
      NotOwn(more, req);
      trace := trace + more;
    }

    /** Records one call of the request, after what others do meanwhile. */
    ghost method Record(req: nat, ph: Phase, c: Call)
      requires InPhase(req, ph) && Next(lib, ph, c).Some?
      modifies this`trace
      ensures old(trace) <= trace && InPhase(req, Next(lib, ph, c).value)
      ensures Own(trace, req) == Own(old(trace), req) + [c]
    {
      Others(req);
      var own := Own(trace, req);
      OwnAppend(trace, [Step(req, c)], req);
      trace := trace + [Step(req, c)];
      assert Own([Step(req, c)], req) == [c] by { assert [Step(req, c)][..0] == []; }
      assert Own(trace, req) == own + [c] && (own + [c])[..|own|] == own;
    }
  }

  lemma {:induction false} NotOwn(steps: seq<Step>, req: nat)
    requires forall i | 0 <= i < |steps| :: steps[i].req != req
    ensures Own(steps, req) == []
  {
    if steps != [] { NotOwn(steps[..|steps| - 1], req); }
  }

  // ---------------------------------------------------------------- finding the app

  function ByName(name: string, apps: seq<App>): seq<App> {
    if apps == [] then []
    else
      var app := apps[|apps| - 1];
      ByName(name, apps[..|apps| - 1]) + if Label(app, PackageName) == name then [app] else []
  }

  function SlashId(id: string): string { if id != "" && id[0] == '/' then id else "/" + id }

  function ById(id: string, apps: seq<App>): seq<App> {
    if apps == [] then []
    else
      var app := apps[|apps| - 1];
      ById(id, apps[..|apps| - 1]) + if app.id == SlashId(id) then [app] else []
  }

  /** `filterByPackageName` */
  method FilterByPackageName(name: string, apps: seq<App>) returns (packages: seq<App>)
    ensures packages == ByName(name, apps)
    ensures forall app :: app in packages <==>
              app in apps && if PackageName in app.labels then app.labels[PackageName] == name else name == ""
  {
    packages := [];
    for i := 0 to |apps|
      invariant packages == ByName(name, apps[..i])
    {
      assert apps[..i + 1][..i] == apps[..i];
      if Label(apps[i], PackageName) == name { packages := packages + [apps[i]]; }
    }
    assert apps[..|apps|] == apps;
    ByNameMeans(name, apps);
  }

  /** `filterByID` */
  method FilterById(id: string, apps: seq<App>) returns (packages: seq<App>)
    ensures packages == ById(id, apps)
    ensures forall app :: app in packages <==> app in apps && if ['/'] <= id then app.id == id else app.id == "/" + id
  {
    packages := [];
    for i := 0 to |apps|
      invariant packages == ById(id, apps[..i])
    {
      assert apps[..i + 1][..i] == apps[..i];
      if apps[i].id == SlashId(id) { packages := packages + [apps[i]]; }
    }
    assert apps[..|apps|] == apps;
    ByIdMeans(id, apps);
  }

  lemma {:induction false} ByNameMeans(name: string, apps: seq<App>)
    ensures forall app :: app in ByName(name, apps) <==> app in apps && Label(app, PackageName) == name
  {
    if apps != [] {
      assert apps == apps[..|apps| - 1] + [apps[|apps| - 1]];
      ByNameMeans(name, apps[..|apps| - 1]);
    }
  }

  lemma {:induction false} ByIdMeans(id: string, apps: seq<App>)
    ensures forall app :: app in ById(id, apps) <==> app in apps && app.id == SlashId(id)
  {
    if apps != [] {
      assert apps == apps[..|apps| - 1] + [apps[|apps| - 1]];
      ByIdMeans(id, apps[..|apps| - 1]);
    }
  }

  /** What Mesos answers to a state request. */
  datatype MesosState = NoState | Frameworks(frameworks: seq<Framework>)

  /** What Marathon answers to a listing: nothing, a status other than 200, or its apps. */
  datatype Listing = CallFailed | OtherStatus | Apps(apps: seq<App>)

  /** The apps asked for, of those that Marathon lists.  A status other than 200 comes back as no apps
      and no error. */
  function Matching(name: string, appId: string, answer: Listing): Option<seq<App>> {
    match answer
    case CallFailed => None
    case OtherStatus => Some([])
    case Apps(apps) => Some(if appId == "" then ByName(name, apps) else ById(appId, ByName(name, apps)))
  }

  /** An app is what a request asks for: it has the name label, and the id if one is given, which may
      lack its leading slash. */
  predicate AskedFor(name: string, appId: string, app: App) {
    && (if PackageName in app.labels then app.labels[PackageName] == name else name == "")
    && (appId == "" || (if ['/'] <= appId then app.id == appId else app.id == "/" + appId))
  }

  /** Exactly the apps asked for match. */
  lemma MatchingMeans(name: string, appId: string, apps: seq<App>)
    ensures forall app :: app in Matching(name, appId, Apps(apps)).value <==> app in apps && AskedFor(name, appId, app)
  {
    ByNameMeans(name, apps);
    ByIdMeans(appId, ByName(name, apps));
  }

  /** The app at position `i` is the only one asked for. */
  ghost predicate OnlyOne(name: string, appId: string, apps: seq<App>, i: nat) {
    i < |apps| && AskedFor(name, appId, apps[i]) && forall j | 0 <= j < |apps| && j != i :: !AskedFor(name, appId, apps[j])
  }

  lemma {:induction false} OnlyMatch(name: string, appId: string, apps: seq<App>, i: nat)
    requires OnlyOne(name, appId, apps, i)
    ensures Matching(name, appId, Apps(apps)) == Some([apps[i]])
  {
    var before, last := apps[..|apps| - 1], apps[|apps| - 1];
    assert apps == before + [last];
    MatchingNext(name, appId, before, last);
    if i < |before| {
      assert before[i] == apps[i] && !AskedFor(name, appId, last);
      OnlyMatch(name, appId, before, i);
      assert [apps[i]] + [] == [apps[i]];
    } else {
      assert last == apps[i];
      NoMatch(name, appId, before);
      assert [] + [last] == [last];
    }
  }

  lemma {:induction false} NoMatch(name: string, appId: string, apps: seq<App>)
    requires forall j | 0 <= j < |apps| :: !AskedFor(name, appId, apps[j])
    ensures Matching(name, appId, Apps(apps)) == Some([])
  {
    if apps != [] {
      var before, last := apps[..|apps| - 1], apps[|apps| - 1];
      assert apps == before + [last];
      MatchingNext(name, appId, before, last);
      NoMatch(name, appId, before);
    }
  }

  /** One more listed app comes last, if it is asked for. */
  lemma MatchingNext(name: string, appId: string, apps: seq<App>, app: App)
    ensures Matching(name, appId, Apps(apps + [app])).value
            == Matching(name, appId, Apps(apps)).value + if AskedFor(name, appId, app) then [app] else []
  {
    AskedIs(name, appId, app);
    ByNameNext(name, apps, app);
    ByIdNext(appId, ByName(name, apps), app);
    var r := Matching(name, appId, Apps(apps)).value;
    assert r + [] == r && ByName(name, apps) + [] == ByName(name, apps);
  }

  lemma AskedIs(name: string, appId: string, app: App)
    ensures AskedFor(name, appId, app) <==> Label(app, PackageName) == name && (appId == "" || app.id == SlashId(appId))
  {}

  lemma ByNameNext(name: string, apps: seq<App>, app: App)
    ensures ByName(name, apps + [app]) == ByName(name, apps) + if Label(app, PackageName) == name then [app] else []
  {
    assert (apps + [app])[..|apps|] == apps;
  }

  lemma ByIdNext(id: string, apps: seq<App>, app: App)
    ensures ById(id, apps + [app]) == ById(id, apps) + if app.id == SlashId(id) then [app] else []
  {
    assert (apps + [app])[..|apps|] == apps;
  }

  /** What the outside answers to an uninstall: Marathon's listing, whether its destroy succeeds, the
      state of Mesos, and whether its teardown succeeds. */
  datatype Outside = Outside(apps: Listing, destroyed: bool, mesos: MesosState, shutdown: bool)

  /** `FindInstalled` */
  method FindInstalled(c: Cluster, req: nat, name: string, appId: string, answer: Listing) returns (r: Option<seq<App>>)
    requires Own(c.trace, req) == []
    modifies c`trace
    ensures old(c.trace) <= c.trace
    ensures r == Matching(name, appId, answer)
    ensures Own(c.trace, req) == if r.None? then [] else [Listed(r.value)]
    ensures r.Some? ==> Next(c.lib, Start, Listed(r.value)).Some? && c.InPhase(req, Next(c.lib, Start, Listed(r.value)).value)
  {
    if answer.CallFailed? { return None; }
    var apps := if answer.Apps? then answer.apps else [];
    var matching := FilterByPackageName(name, apps);
    if appId != "" {
      matching := FilterById(appId, matching);
    }
    c.Record(req, Start, Listed(matching));
    r := Some(matching);
  }

  // ---------------------------------------------------------------- Mesos

  predicate Matches(lib: Library, name: string, fw: Framework) { lib.equalFold(fw.name, name) }

  /** `FindFrameworks`: one framework for each id that a framework of that name has. */
  method FindFrameworks(lib: Library, frameworks: seq<Framework>, name: string) returns (matching: map<string, Framework>)
    ensures forall id :: id in matching <==> exists fw | fw in frameworks :: fw.id == id && Matches(lib, name, fw)
    ensures forall id | id in matching :: matching[id].id == id && matching[id] in frameworks && Matches(lib, name, matching[id])
  {
    matching := map[];
    for i := 0 to |frameworks|
      invariant forall id :: id in matching <==> exists fw | fw in frameworks[..i] :: fw.id == id && Matches(lib, name, fw)
      invariant forall id | id in matching :: matching[id].id == id && matching[id] in frameworks && Matches(lib, name, matching[id])
    {
      var fw := frameworks[i];
      assert frameworks[..i + 1] == frameworks[..i] + [fw];
      if lib.equalFold(fw.name, name) { matching := matching[fw.id := fw]; }
    }
    assert frameworks[..|frameworks|] == frameworks;
  }

  /** `FindFramework`: found when exactly one id matches, ambiguous when more do. */
  method FindFramework(lib: Library, frameworks: seq<Framework>, name: string) returns (r: LookupOutcome)
    ensures !r.Unreachable?
    ensures r.NotActive? <==> forall fw | fw in frameworks :: !Matches(lib, name, fw)
    ensures r.Found? ==> r.fw in frameworks && Matches(lib, name, r.fw)
    ensures r.Found? ==> forall fw | fw in frameworks && Matches(lib, name, fw) :: fw.id == r.fw.id
    ensures r.Ambiguous? ==> exists fw, fw' | fw in frameworks && fw' in frameworks ::
              Matches(lib, name, fw) && Matches(lib, name, fw') && fw.id != fw'.id
  {
    var matching := FindFrameworks(lib, frameworks, name);
    if |matching| == 0 {
      assert forall fw | fw in frameworks :: Matches(lib, name, fw) ==> fw.id in matching;
      return NotActive;
    }
    var id :| id in matching;
    assert matching[id] in frameworks;
    if |matching| > 1 {
      var rest := matching.Keys - {id};
      assert |matching.Keys| > 1 && matching.Keys == rest + {id};
      var id' :| id' in rest;
      assert matching[id'] in frameworks;
      return Ambiguous;
    }
    assert matching.Keys == {id} by { OnlyKey(matching.Keys, id); }
    assert forall fw | fw in frameworks && Matches(lib, name, fw) :: fw.id in matching.Keys;
    r := Found(matching[id]);
  }

  lemma OnlyKey(s: set<string>, x: string)
    requires x in s && |s| <= 1
    ensures s == {x}
  {
    assert |s - {x}| == |s| - 1;
    assert s - {x} == {};
  }

  /** No framework of that name is left: there was none, or all that matched were one and it was shut down. */
  ghost predicate Stops(lib: Library, name: string, mesos: MesosState, shutdown: bool) {
    mesos.Frameworks? &&
    var fws := mesos.frameworks;
    || (forall fw | fw in fws :: !Matches(lib, name, fw))
    || (shutdown && forall fw, fw' | fw in fws && fw' in fws && Matches(lib, name, fw) && Matches(lib, name, fw') :: fw.id == fw'.id)
  }

  /** `ShutdownFrameworkByName` */
  method ShutdownFrameworkByName(c: Cluster, req: nat, app: App, mesos: MesosState, shutdown: bool) returns (ok: bool)
    requires c.InPhase(req, Gone(app))
    modifies c`trace
    ensures old(c.trace) <= c.trace && Own(old(c.trace), req) <= Own(c.trace, req)
    ensures ok <==> Stops(c.lib, FrameworkName(app), mesos, shutdown)
    ensures ok ==> c.InPhase(req, Clear(app, PathsToDelete(c.lib, app)))
    ensures !ok ==> c.InPhase(req, Ended)
  {
    var name := FrameworkName(app);
    var fw := Unreachable;
    if mesos.Frameworks? { fw := FindFramework(c.lib, mesos.frameworks, name); }
    c.Record(req, Gone(app), Lookup(name, fw));
    match fw {
      case Unreachable => ok := false;
      case Ambiguous => ok := false;
      case NotActive => ok := true;
      case Found(f) =>
        ok := shutdown;
        c.Record(req, Stopping(app, f.id), Teardown(f.id, ok));
    }
  }

  // ---------------------------------------------------------------- uninstall

  /** The tree after undisturbed deletes of the given paths. */
  function Cleared(t: Zookeeper.Tree, paths: seq<string>): Zookeeper.Tree {
    if paths == [] then t else Zookeeper.Without(Cleared(t, paths[..|paths| - 1]), paths[|paths| - 1])
  }

  /** The path names the node `n` or one above it, other than the root. */
  predicate Covers(path: string, n: Segs) {
    match Zookeeper.Parse(Zookeeper.TrimPrefix(path, "zk:"))
    case None => false
    case Some(k) => k != [] && k <= n
  }

  ghost predicate Covered(paths: seq<string>, n: Segs) { exists path | path in paths :: Covers(path, n) }

  /** Whatever the order of the paths, and whether or not some lie below others: exactly the subtrees go. */
  lemma {:induction false} ClearedMeans(t: Zookeeper.Tree, paths: seq<string>)
    requires Zookeeper.TreeOk(t)
    ensures Zookeeper.TreeOk(Cleared(t, paths))
    ensures forall n :: n in Cleared(t, paths) <==> n in t && !Covered(paths, n)
  {
    if paths != [] {
      var before, last := paths[..|paths| - 1], paths[|paths| - 1];
      ClearedMeans(t, before);
      assert paths == before + [last];
      forall n ensures Covered(paths, n) <==> Covered(before, n) || Covers(last, n) { CoveredMore(before, last, n); }
      WithoutMeans(Cleared(t, before), last);
    }
  }

  lemma CoveredMore(paths: seq<string>, last: string, n: Segs)
    ensures Covered(paths + [last], n) <==> Covered(paths, n) || Covers(last, n)
  {
    var all := paths + [last];
    if Covers(last, n) { assert last in all; }
    if Covered(paths, n) { var path :| path in paths && Covers(path, n); assert path in all; }
  }

  lemma WithoutMeans(t: Zookeeper.Tree, path: string)
    requires Zookeeper.TreeOk(t)
    ensures Zookeeper.TreeOk(Zookeeper.Without(t, path))
    ensures forall n :: n in Zookeeper.Without(t, path) <==> n in t && !Covers(path, n)
  {
    var k := Zookeeper.Parse(Zookeeper.TrimPrefix(path, "zk:"));
    if k.Some? {
      forall n | n in t && k.value <= n ensures k.value in t {
        Zookeeper.AncestorIn(t, n, |k.value|);
        assert n[..|k.value|] == k.value;
      }
    }
    forall n | n in Zookeeper.Without(t, path) && n != [] ensures n[..|n| - 1] in Zookeeper.Without(t, path) {}
  }

  /** What was deleted since `from` was childless then, and at or below one of the paths. */
  ghost predicate OnlyBelow(ds: seq<Zookeeper.Deletion>, from: nat, paths: seq<string>) {
    from <= |ds| && forall i | from <= i < |ds| :: Zookeeper.LegalDeletion(ds[i]) && BelowOne(paths, ds[i].node)
  }

  ghost predicate BelowOne(paths: seq<string>, n: Segs) { exists path | path in paths :: NamesAbove(path, n) }

  /** The path names `n` or a node above it. */
  predicate NamesAbove(path: string, n: Segs) {
    match Zookeeper.Parse(Zookeeper.TrimPrefix(path, "zk:")) case None => false case Some(k) => k <= n
  }

  /** What the deletes of an uninstall make of ZooKeeper's tree. */
  ghost predicate Removed(quiet: bool, t: Zookeeper.Tree, t': Zookeeper.Tree, ds: seq<Zookeeper.Deletion>, ds': seq<Zookeeper.Deletion>,
                          paths: seq<string>)
  {
    Removing(quiet, t, t', ds, ds', paths, paths)
  }

  /** The same when only the paths `done` have been deleted yet. */
  ghost predicate Removing(quiet: bool, t: Zookeeper.Tree, t': Zookeeper.Tree, ds: seq<Zookeeper.Deletion>, ds': seq<Zookeeper.Deletion>,
                           paths: seq<string>, done: seq<string>)
  {
    && Zookeeper.TreeOk(t') && ds <= ds' && OnlyBelow(ds', |ds|, paths)
    && (quiet ==> t' == Cleared(t, done))
  }

  lemma OnlyBelowMore(ds: seq<Zookeeper.Deletion>, ds': seq<Zookeeper.Deletion>, from: nat, paths: seq<string>, path: string)
    requires OnlyBelow(ds, from, paths) && ds <= ds' && path in paths
    requires ds' == ds || (Zookeeper.Parse(Zookeeper.TrimPrefix(path, "zk:")).Some? &&
                           Zookeeper.DeletedWithin(ds', |ds|, Zookeeper.Parse(Zookeeper.TrimPrefix(path, "zk:")).value))
    ensures OnlyBelow(ds', from, paths)
  {
    forall i | from <= i < |ds'| ensures Zookeeper.LegalDeletion(ds'[i]) && BelowOne(paths, ds'[i].node) {
      if i < |ds| { assert ds'[i] == ds[i]; } else { assert NamesAbove(path, ds'[i].node); }
    }
  }

  /** `postUninstall`: every node marked `always`, in order, whatever comes of each delete.  Undisturbed,
      exactly their subtrees are gone; otherwise only childless nodes at or below them were deleted. */
  method PostUninstall(c: Cluster, z: Zookeeper.Server, req: nat, app: App) returns (ok: bool)
    requires c.InPhase(req, Clear(app, PathsToDelete(c.lib, app))) && Zookeeper.TreeOk(z.nodes)
    modifies c`trace, z
    ensures old(c.trace) <= c.trace && Own(old(c.trace), req) <= Own(c.trace, req)
    ensures c.InPhase(req, Clear(app, []))
    ensures ok <==> Label(app, UninstallKey) == "" || match Decode(Label(app, UninstallKey))
                                                      case None => false
                                                      case Some(b) => c.lib.parse(b).Some?
    ensures Removed(z.quiet, old(z.nodes), z.nodes, old(z.deletions), z.deletions, PathsToDelete(c.lib, app))
  {
    var encoded := Label(app, UninstallKey);
    if encoded == "" { return true; }
    var decoded := Decode(encoded);
    if decoded.None? { return false; }
    var uninstall := c.lib.parse(decoded.value);
    if uninstall.None? { return false; }
    DeleteNodes(c, z, req, app, uninstall.value);
    ok := true;
  }

  /** Its loop. */
  method DeleteNodes(c: Cluster, z: Zookeeper.Server, req: nat, app: App, nodes: seq<Node>)
    requires c.InPhase(req, Clear(app, AlwaysPaths(nodes))) && Zookeeper.TreeOk(z.nodes)
    modifies c`trace, z
    ensures old(c.trace) <= c.trace && Own(old(c.trace), req) <= Own(c.trace, req)
    ensures c.InPhase(req, Clear(app, []))
    ensures Removed(z.quiet, old(z.nodes), z.nodes, old(z.deletions), z.deletions, AlwaysPaths(nodes))
  {
    ghost var t, ds := z.nodes, z.deletions;
    for i := 0 to |nodes|
      invariant old(c.trace) <= c.trace && Own(old(c.trace), req) <= Own(c.trace, req)
      invariant LeftToDelete(c, req, app, nodes, i)
      invariant Removing(z.quiet, t, z.nodes, ds, z.deletions, AlwaysPaths(nodes), AlwaysPaths(nodes[..i]))
    {
      RecordMarked(c, req, app, nodes, i);
      DeleteMarked(z, nodes, i, t, ds);
    }
    assert nodes[..|nodes|] == nodes && AlwaysPaths(nodes)[|AlwaysPaths(nodes)|..] == [];
  }

  /** The nodes from position `i` on are still to be deleted. */
  ghost predicate LeftToDelete(c: Cluster, req: nat, app: App, nodes: seq<Node>, i: nat)
    requires i <= |nodes|
    reads c
  {
    && AlwaysPaths(nodes[..i]) <= AlwaysPaths(nodes)
    && c.InPhase(req, Clear(app, AlwaysPaths(nodes)[|AlwaysPaths(nodes[..i])|..]))
  }

  method DeleteMarked(z: Zookeeper.Server, nodes: seq<Node>, i: nat, ghost t: Zookeeper.Tree, ghost ds: seq<Zookeeper.Deletion>)
    requires i < |nodes|
    requires Removing(z.quiet, t, z.nodes, ds, z.deletions, AlwaysPaths(nodes), AlwaysPaths(nodes[..i]))
    modifies z
    ensures Removing(z.quiet, t, z.nodes, ds, z.deletions, AlwaysPaths(nodes), AlwaysPaths(nodes[..i + 1]))
  {
    AlwaysNext(nodes, i);
    if nodes[i].always {
      MarkedIn(nodes, i);
      DeletePath(z, nodes[i].path, t, ds, AlwaysPaths(nodes), AlwaysPaths(nodes[..i]));
    } else {
      assert AlwaysPaths(nodes[..i + 1]) == AlwaysPaths(nodes[..i]);
    }
  }

  /** The call for one node, if it is marked. */
  ghost method RecordMarked(c: Cluster, req: nat, app: App, nodes: seq<Node>, i: nat)
    requires i < |nodes| && LeftToDelete(c, req, app, nodes, i)
    modifies c`trace
    ensures old(c.trace) <= c.trace && Own(old(c.trace), req) <= Own(c.trace, req)
    ensures LeftToDelete(c, req, app, nodes, i + 1)
  {
    AlwaysNext(nodes, i);
    AlwaysPrefix(nodes, i + 1);
    if nodes[i].always {
      var todo := AlwaysPaths(nodes)[|AlwaysPaths(nodes[..i])|..];
      assert todo[0] == nodes[i].path && todo[1..] == AlwaysPaths(nodes)[|AlwaysPaths(nodes[..i + 1])|..];
      c.Record(req, Clear(app, todo), ZkDelete(nodes[i].path));
    }
  }

  /** In the order of the nodes. */
  lemma AlwaysAppend(nodes: seq<Node>, node: Node)
    ensures AlwaysPaths([]) == [] && AlwaysPaths(nodes + [node]) == AlwaysPaths(nodes) + if node.always then [node.path] else []
  {
    assert (nodes + [node])[..|nodes|] == nodes;
  }

  lemma MarkedIn(nodes: seq<Node>, i: nat)
    requires i < |nodes| && nodes[i].always
    ensures nodes[i].path in AlwaysPaths(nodes)
  {
    AlwaysPathsMeans(nodes);
    assert nodes[i] in nodes;
  }

  /** Deletes one path; what comes of it is not looked at. */
  method DeletePath(z: Zookeeper.Server, path: string, ghost t: Zookeeper.Tree, ghost ds: seq<Zookeeper.Deletion>,
                    ghost paths: seq<string>, ghost done: seq<string>)
    requires path in paths && Removing(z.quiet, t, z.nodes, ds, z.deletions, paths, done)
    modifies z
    ensures Removing(z.quiet, t, z.nodes, ds, z.deletions, paths, done + [path])
  {
    ghost var before := z.deletions;
    var deleted := Zookeeper.Delete(z, path);
    OnlyBelowMore(before, z.deletions, |ds|, paths, path);
    assert (done + [path])[..|done|] == done;
  }

  lemma AlwaysNext(nodes: seq<Node>, i: nat)
    requires i < |nodes|
    ensures AlwaysPaths(nodes[..i + 1]) == AlwaysPaths(nodes[..i]) + if nodes[i].always then [nodes[i].path] else []
  {
    assert nodes[..i + 1][..i] == nodes[..i];
  }

  lemma {:induction false} AlwaysPrefix(nodes: seq<Node>, n: nat)
    requires n <= |nodes|
    ensures AlwaysPaths(nodes[..n]) <= AlwaysPaths(nodes)
    decreases |nodes| - n
  {
    if n < |nodes| {
      AlwaysNext(nodes, n);
      AlwaysPrefix(nodes, n + 1);
    } else {
      assert nodes[..n] == nodes;
    }
  }

  ghost predicate Uninstalls(lib: Library, app: App, outside: Outside) {
    outside.destroyed && (FrameworkName(app) == "" || Stops(lib, FrameworkName(app), outside.mesos, outside.shutdown))
  }

  /** `UninstallPackage`: it succeeds when the destroy does and the app's framework, if any, is stopped,
      whatever becomes of the post-uninstall. */
  method UninstallPackage(c: Cluster, z: Zookeeper.Server, req: nat, app: App, outside: Outside) returns (ok: bool)
    requires c.InPhase(req, Matched(app)) && Zookeeper.TreeOk(z.nodes)
    modifies c`trace, z
    ensures old(c.trace) <= c.trace && Own(old(c.trace), req) + [Destroy(app.id, outside.destroyed)] <= Own(c.trace, req)
    ensures ok <==> Uninstalls(c.lib, app, outside)
    ensures if ok then c.InPhase(req, Clear(app, [])) else c.InPhase(req, Ended)
    ensures ok ==> Removed(z.quiet, old(z.nodes), z.nodes, old(z.deletions), z.deletions, PathsToDelete(c.lib, app))
    ensures !ok ==> z.nodes == old(z.nodes) && z.deletions == old(z.deletions)
  {
    c.Record(req, Matched(app), Destroy(app.id, outside.destroyed));
    if !outside.destroyed { return false; }
    if FrameworkName(app) != "" {
      var stopped := ShutdownFrameworkByName(c, req, app, outside.mesos, outside.shutdown);
      if !stopped { return false; }
    }
    // a failing post-uninstall is logged and not reported
    var post := PostUninstall(c, z, req, app);
    ok := true;
  }

  datatype UninstallRequest = UninstallRequest(name: string, appId: string)

  /** `uninstallPackage` of the API: the status, how far the request came, and what becomes of ZooKeeper's
      tree.  Only a request that ends in 204 deletes anything. */
  method UninstallHandler(c: Cluster, z: Zookeeper.Server, req: nat, body: Option<UninstallRequest>, outside: Outside)
    returns (status: int, ghost ph: Phase)
    requires Own(c.trace, req) == [] && Zookeeper.TreeOk(z.nodes)
    modifies c`trace, z
    ensures old(c.trace) <= c.trace && c.InPhase(req, ph)
    ensures status == 400 <==> body.None?
    ensures body.None? ==> ph == Start
    ensures body.Some? ==>
              match Matching(body.value.name, body.value.appId, outside.apps)
              case None => status == 500 && ph == Start
              case Some(apps) =>
                && [Listed(apps)] <= Own(c.trace, req)
                && (|apps| == 1 ==> [Listed(apps)] + [Destroy(apps[0].id, outside.destroyed)] <= Own(c.trace, req))
                && if |apps| == 0 then status == 404 && Own(c.trace, req) == [Listed(apps)]
                   else if |apps| > 1 then status == 409 && Own(c.trace, req) == [Listed(apps)]
                   else if Uninstalls(c.lib, apps[0], outside)
                   then && status == 204 && ph == Clear(apps[0], [])
                        && Removed(z.quiet, old(z.nodes), z.nodes, old(z.deletions), z.deletions, PathsToDelete(c.lib, apps[0]))
                   else status == 500 && ph == Ended
    ensures status != 204 ==> z.nodes == old(z.nodes) && z.deletions == old(z.deletions)
    ensures body.Some? && outside.apps.CallFailed? ==> status == 500
    ensures body.Some? && outside.apps.OtherStatus? ==> status == 404
  {
    if body.None? { return 400, Start; }
    var apps := FindInstalled(c, req, body.value.name, body.value.appId, outside.apps);
    if apps.None? { return 500, Start; }
    ph := Next(c.lib, Start, Listed(apps.value)).value;
    if |apps.value| == 0 { return 404, ph; }
    if |apps.value| > 1 { return 409, ph; }
    var ok := UninstallPackage(c, z, req, apps.value[0], outside);
    if ok { return 204, Clear(apps.value[0], []); }
    return 500, Ended;
  }

  /** A request that asks for one app only, by its name or with its id, its leading slash left out or
      not, destroys exactly that app, and succeeds when that and the framework stop do. */
  method UninstallOne(c: Cluster, z: Zookeeper.Server, req: nat, body: UninstallRequest, outside: Outside, ghost i: nat)
    returns (status: int, ghost ph: Phase)
    requires Own(c.trace, req) == [] && Zookeeper.TreeOk(z.nodes)
    requires outside.apps.Apps? && OnlyOne(body.name, body.appId, outside.apps.apps, i)
    modifies c`trace, z
    ensures var app := outside.apps.apps[i];
            && [Listed([app])] + [Destroy(app.id, outside.destroyed)] <= Own(c.trace, req)
            && (status == 204 <==> Uninstalls(c.lib, app, outside)) && (status == 204 || status == 500)
  {
    OnlyMatch(body.name, body.appId, outside.apps.apps, i);
    status, ph := UninstallHandler(c, z, req, Some(body), outside);
  }
}
