/** The watcher of the request queue: every tick installs what the keys under the apps prefix ask
    for and deletes the keys.  Between ticks, anybody may change the store and Marathon in any way. */
module RequestQueue {
  import opened Wrappers
  import Lifecycle

  type App = Lifecycle.App
  type Store = map<string, string>

  const APPS_ROOT := "mantl-install/apps/"

  datatype KeyValue = KeyValue(key: string, value: string)

  predicate IsRequestKey(key: string) { APPS_ROOT < key }

  /** A request key is the prefix followed by a name. */
  lemma RequestKeyIs(key: string)
    ensures IsRequestKey(key) <==> exists name :: name != "" && key == APPS_ROOT + name
  {
    if IsRequestKey(key) {
      var name := key[|APPS_ROOT|..];
      assert name != "" && key == APPS_ROOT + name;
    }
  }

  predicate UniqueIds(apps: seq<App>) { forall i, j | 0 <= i < j < |apps| :: apps[i].id != apps[j].id }

  predicate HasId(apps: seq<App>, id: string) { exists i | 0 <= i < |apps| :: apps[i].id == id }

  function KeySet(kvps: seq<KeyValue>): set<string> {
    if kvps == [] then {} else KeySet(kvps[..|kvps| - 1]) + {kvps[|kvps| - 1].key}
  }

  function Listed(kv: Store): set<string> { set k | k in kv && APPS_ROOT <= k }

  lemma {:induction false} KeySetHas(kvps: seq<KeyValue>, i: nat)
    requires i < |kvps|
    ensures kvps[i].key in KeySet(kvps)
  {
    if i < |kvps| - 1 { KeySetHas(kvps[..|kvps| - 1], i); }
  }

  lemma {:induction false} KeyAt(kvps: seq<KeyValue>, key: string) returns (i: nat)
    requires key in KeySet(kvps)
    ensures i < |kvps| && kvps[i].key == key
  {
    i := |kvps| - 1;
    if kvps[i].key != key { i := KeyAt(kvps[..i], key); }
  }

  lemma {:induction false} NotInKeySet(kvps: seq<KeyValue>, key: string)
    requires forall j | 0 <= j < |kvps| :: kvps[j].key != key
    ensures key !in KeySet(kvps)
  {
    if kvps != [] { NotInKeySet(kvps[..|kvps| - 1], key); }
  }

  lemma KeySetMore(kvps: seq<KeyValue>, kvp: KeyValue)
    ensures KeySet(kvps + [kvp]) == KeySet(kvps) + {kvp.key}
  {
    assert (kvps + [kvp])[..|kvps|] == kvps;
  }

  /** A listing: keys in the store under the prefix, each once, with their values. */
  ghost predicate IsListing(kv: Store, kvps: seq<KeyValue>) {
    && KeySet(kvps) == Listed(kv)
    && (forall i | 0 <= i < |kvps| :: kvps[i].key in kv && kvps[i].value == kv[kvps[i].key])
    && (forall i, j | 0 <= i < j < |kvps| :: kvps[i].key != kvps[j].key)
  }

  // ---------------------------------------------------------------- what a tick does

  /** What the watcher does: handling a request, with Marathon's apps at that moment and the app that
      came of it, and attempting to delete its key. */
  datatype Act =
    | Handle(kvp: KeyValue, among: seq<App>, started: Option<App>)
    | DeleteAttempt(key: string, done: bool)

  /** What comes of one request: whether Marathon's answer arrives, whether it creates the app, and
      whether the request key is deleted. */
  datatype Outcome = Outcome(reached: bool, created: bool, deleted: bool)

  /** What comes of one tick: whether the keys can be listed, and what becomes of each. */
  datatype TickOutcome = TickOutcome(listed: bool, each: string -> Outcome)

  /** The app that a request value renders to, if it parses and its package can be rendered. */
  type Renderer = string -> Option<App>

  function StartedBy(acts: seq<Act>): seq<App> {
    if acts == [] then []
    else
      var last := acts[|acts| - 1];
      StartedBy(acts[..|acts| - 1]) + if last.Handle? && last.started.Some? then [last.started.value] else []
  }

  function RemovedBy(acts: seq<Act>): set<string> {
    set i | 0 <= i < |acts| && acts[i].DeleteAttempt? && acts[i].done :: acts[i].key
  }

  function CountHandled(acts: seq<Act>, key: string): nat {
    if acts == [] then 0
    else
      var last := acts[|acts| - 1];
      CountHandled(acts[..|acts| - 1], key) + if last.Handle? && last.kvp.key == key then 1 else 0
  }

  /** A handled key is a listed request key; its app is started exactly when its value renders, the id
      is free at that moment and Marathon creates it; and its delete is attempted right after.  Deletes
      are attempted only for keys handled right before. */
  ghost predicate ActOk(render: Renderer, each: string -> Outcome, kvps: seq<KeyValue>, apps: seq<App>, acts: seq<Act>, i: nat)
    requires i < |acts|
  {
    match acts[i]
    case Handle(kvp, among, started) =>
      var app := render(kvp.value);
      && kvp in kvps && IsRequestKey(kvp.key)
      && among == apps + StartedBy(acts[..i])
      && started == (if app.Some? && each(kvp.key).created && !HasId(among, app.value.id) then app else None)
      && i + 1 < |acts| && acts[i + 1] == DeleteAttempt(kvp.key, each(kvp.key).deleted)
    case DeleteAttempt(key, _) =>
      i > 0 && acts[i - 1].Handle? && acts[i - 1].kvp.key == key
  }

  /** What is done for some listed keys, starting from some apps: each request key is handled exactly
      once, and every act is as it is to be. */
  ghost predicate ActsOk(render: Renderer, each: string -> Outcome, kvps: seq<KeyValue>, apps: seq<App>, acts: seq<Act>) {
    && (forall key :: CountHandled(acts, key) == if IsRequestKey(key) && key in KeySet(kvps) then 1 else 0)
    && (forall i: nat | i < |acts| :: ActOk(render, each, kvps, apps, acts, i))
  }

  /** The record of a tick. */
  datatype Tick = Tick(before: Store, apps: seq<App>, listing: seq<KeyValue>, acts: seq<Act>, after: Store, appsAfter: seq<App>)

  ghost predicate TickOk(render: Renderer, o: TickOutcome, t: Tick) {
    && t.after == t.before - RemovedBy(t.acts)
    && t.appsAfter == t.apps + StartedBy(t.acts)
    && if o.listed then IsListing(t.before, t.listing) && ActsOk(render, o.each, t.listing, t.apps, t.acts) else t.acts == []
  }

  /** The store and Marathon's apps. */
  datatype World = World(kv: Store, apps: seq<App>)

  /** Where the first `i` ticks of a run end. */
  ghost function EndOf(start: World, log: seq<Tick>, i: nat): World
    requires i <= |log|
  {
    if i == 0 then start else World(log[i - 1].after, log[i - 1].appsAfter)
  }

  /** A run of the watcher: every tick starts from what others make of the end of the one before. */
  ghost predicate IsRun(render: Renderer, start: World, o: nat -> TickOutcome, others: (nat, World) -> World, log: seq<Tick>) {
    forall i: nat | i < |log| :: StepOk(render, start, o, others, log, i)
  }

  ghost predicate StepOk(render: Renderer, start: World, o: nat -> TickOutcome, others: (nat, World) -> World, log: seq<Tick>, i: nat)
    requires i < |log|
  {
    TickOk(render, o(i), log[i]) && World(log[i].before, log[i].apps) == others(i, EndOf(start, log, i))
  }

  lemma RunLonger(render: Renderer, start: World, o: nat -> TickOutcome, others: (nat, World) -> World, log: seq<Tick>, t: Tick)
    requires IsRun(render, start, o, others, log)
    requires TickOk(render, o(|log|), t) && World(t.before, t.apps) == others(|log|, EndOf(start, log, |log|))
    ensures IsRun(render, start, o, others, log + [t])
    ensures EndOf(start, log + [t], |log| + 1) == World(t.after, t.appsAfter)
  {
    var all := log + [t];
    forall i: nat | i < |all| ensures StepOk(render, start, o, others, all, i) {
      assert EndOf(start, all, i) == EndOf(start, log, i);
      if i < |log| { assert StepOk(render, start, o, others, log, i); }
    }
  }

  // ---------------------------------------------------------------- one more request

  lemma TwoMore(acts: seq<Act>, h: Act, d: Act)
    requires h.Handle? && d.DeleteAttempt?
    ensures StartedBy(acts + [h, d]) == StartedBy(acts) + (if h.started.Some? then [h.started.value] else [])
    ensures forall key :: CountHandled(acts + [h, d], key) == CountHandled(acts, key) + if h.kvp.key == key then 1 else 0
    ensures forall i | 0 <= i <= |acts| :: (acts + [h, d])[..i] == acts[..i]
  {
    var a, b := acts + [h], acts + [h, d];
    assert b[..|b| - 1] == a && a[..|a| - 1] == acts;
    assert StartedBy(b) == StartedBy(a);
  }

  lemma TwoMoreRemoved(acts: seq<Act>, h: Act, d: Act)
    requires h.Handle? && d.DeleteAttempt?
    ensures RemovedBy(acts + [h, d]) == RemovedBy(acts) + (if d.done then {d.key} else {})
  {
    var b := acts + [h, d];
    forall key ensures key in RemovedBy(b) <==> key in RemovedBy(acts) || (d.done && key == d.key) {
      if key in RemovedBy(acts) {
        var i :| 0 <= i < |acts| && acts[i].DeleteAttempt? && acts[i].done && acts[i].key == key;
        assert b[i] == acts[i];
      }
      assert b[|acts| + 1] == d;
    }
  }

  lemma Assoc(a: seq<App>, b: seq<App>, c: seq<App>)
    ensures a + b + c == a + (b + c)
  {}

  lemma ActKept(render: Renderer, each: string -> Outcome, kvps: seq<KeyValue>, kvp: KeyValue, apps: seq<App>, acts: seq<Act>,
                more: seq<Act>, i: nat)
    requires i < |acts| && ActOk(render, each, kvps, apps, acts, i)
    ensures ActOk(render, each, kvps + [kvp], apps, acts + more, i)
  {
    assert (acts + more)[..i] == acts[..i];
  }

  /** The bare root, listed but not handled. */
  lemma ActsSkip(render: Renderer, each: string -> Outcome, kvps: seq<KeyValue>, kvp: KeyValue, apps: seq<App>, acts: seq<Act>)
    requires ActsOk(render, each, kvps, apps, acts) && kvp.key == APPS_ROOT
    ensures ActsOk(render, each, kvps + [kvp], apps, acts)
  {
    KeySetMore(kvps, kvp);
    forall i: nat | i < |acts| ensures ActOk(render, each, kvps + [kvp], apps, acts, i) {
      ActKept(render, each, kvps, kvp, apps, acts, [], i);
      assert acts + [] == acts;
    }
  }

  lemma ActsMore(render: Renderer, each: string -> Outcome, kvps: seq<KeyValue>, kvp: KeyValue, apps: seq<App>, acts: seq<Act>, h: Act, d: Act)
    requires ActsOk(render, each, kvps, apps, acts) && IsRequestKey(kvp.key) && kvp.key !in KeySet(kvps)
    requires h.Handle? && h.kvp == kvp && d == DeleteAttempt(kvp.key, each(kvp.key).deleted)
    requires ActOk(render, each, kvps + [kvp], apps, acts + [h, d], |acts|)
    ensures ActsOk(render, each, kvps + [kvp], apps, acts + [h, d])
  {
    var all := acts + [h, d];
    TwoMore(acts, h, d);
    KeySetMore(kvps, kvp);
    forall i: nat | i < |all| ensures ActOk(render, each, kvps + [kvp], apps, all, i) {
      if i < |acts| { ActKept(render, each, kvps, kvp, apps, acts, [h, d], i); }
    }
  }

  // ---------------------------------------------------------------- the watcher

  class Daemon {
    var kv: Store
    var apps: seq<App>
    const render: Renderer

    constructor (kv: Store, apps: seq<App>, render: Renderer)
      ensures this.kv == kv && this.apps == apps && this.render == render
    {
      this.kv, this.apps, this.render := kv, apps, render;
    }

    /** kv.List */
    method List(reached: bool) returns (r: Option<seq<KeyValue>>)
      ensures r.Some? <==> reached
      ensures r.Some? ==> IsListing(kv, r.value)
    {
      if !reached { return None; }
      var kvps: seq<KeyValue> := [];
      var todo := kv.Keys;
      while todo != {}
        invariant todo <= kv.Keys
        invariant forall i | 0 <= i < |kvps| ::
                    kvps[i].key in kv.Keys - todo && kvps[i].value == kv[kvps[i].key]
        invariant KeySet(kvps) == Listed(kv) - todo
        invariant forall i, j | 0 <= i < j < |kvps| :: kvps[i].key != kvps[j].key
      {
        var k :| k in todo;
        if APPS_ROOT <= k {
          KeySetMore(kvps, KeyValue(k, kv[k]));
          kvps := kvps + [KeyValue(k, kv[k])];
        }
        todo := todo - {k};
      }
      r := Some(kvps);
    }

    /** marathon.CreateApp: a conflict when the id is taken; otherwise the app may or may not come
        to exist, and any status but 409 counts as success. */
    method CreateApp(app: App, o: Outcome) returns (ok: bool)
      modifies this`apps
      ensures apps == old(apps) + if o.created && !HasId(old(apps), app.id) then [app] else []
      ensures ok <==> o.reached && !HasId(old(apps), app.id)
    {
      if HasId(apps, app.id) { return false; }
      if o.created { apps := apps + [app]; }
      ok := o.reached;
    }

    /** `installPackageFromKVPair`: whatever comes of the install, the delete is attempted last. */
    method InstallFromKVPair(kvp: KeyValue, o: Outcome) returns (ghost h: Act, ghost d: Act)
      modifies this
      ensures h.Handle? && h.kvp == kvp && h.among == old(apps) && d == DeleteAttempt(kvp.key, o.deleted)
      ensures var app := render(kvp.value);
              h.started == if app.Some? && o.created && !HasId(old(apps), app.value.id) then app else None
      ensures kv == old(kv) - if o.deleted then {kvp.key} else {}
      ensures apps == old(apps) + if h.started.Some? then [h.started.value] else []
    {
      var app := render(kvp.value);
      h := Handle(kvp, apps, if app.Some? && o.created && !HasId(apps, app.value.id) then app else None);
      if app.Some? {
        var ok := CreateApp(app.value, o);
      }
      if o.deleted { kv := kv - {kvp.key}; }
      d := DeleteAttempt(kvp.key, o.deleted);
    }

    /** What the acts so far have made of the store and the apps. */
    ghost predicate Reached(kv0: Store, apps0: seq<App>, acts: seq<Act>)
      reads this
    {
      kv == kv0 - RemovedBy(acts) && apps == apps0 + StartedBy(acts)
    }

    /** One listed key: the bare root is passed over. */
    method HandleKey(kvp: KeyValue, each: string -> Outcome, ghost done: seq<KeyValue>, ghost kv0: Store, ghost apps0: seq<App>, ghost acts: seq<Act>)
      returns (ghost acts': seq<Act>)
      requires ActsOk(render, each, done, apps0, acts) && Reached(kv0, apps0, acts)
      requires APPS_ROOT <= kvp.key && kvp.key !in KeySet(done)
      modifies this
      ensures ActsOk(render, each, done + [kvp], apps0, acts') && Reached(kv0, apps0, acts')
    {
      acts' := acts;
      if kvp.key != APPS_ROOT {
        ghost var h, d;
        h, d := InstallFromKVPair(kvp, each(kvp.key));
        TwoMore(acts, h, d);
        TwoMoreRemoved(acts, h, d);
        Assoc(apps0, StartedBy(acts), if h.started.Some? then [h.started.value] else []);
        ActsMore(render, each, done, kvp, apps0, acts, h, d);
        acts' := acts + [h, d];
      } else {
        ActsSkip(render, each, done, kvp, apps0, acts);
      }
    }

    /** The loop over the listed keys. */
    method HandleAll(kvps: seq<KeyValue>, each: string -> Outcome) returns (ghost acts: seq<Act>)
      requires forall i, j | 0 <= i < j < |kvps| :: kvps[i].key != kvps[j].key
      requires forall key | key in KeySet(kvps) :: APPS_ROOT <= key
      modifies this
      ensures ActsOk(render, each, kvps, old(apps), acts) && Reached(old(kv), old(apps), acts)
    {
      acts := [];
      for i := 0 to |kvps|
        invariant ActsOk(render, each, kvps[..i], old(apps), acts) && Reached(old(kv), old(apps), acts)
      {
        assert kvps[..i + 1] == kvps[..i] + [kvps[i]];
        KeySetHas(kvps, i);
        NotInKeySet(kvps[..i], kvps[i].key);
        acts := HandleKey(kvps[i], each, kvps[..i], old(kv), old(apps), acts);
      }
      assert kvps[..|kvps|] == kvps;
    }

    /** One tick of `Watch`. */
    method OneTick(o: TickOutcome) returns (ghost t: Tick)
      modifies this
      ensures TickOk(render, o, t)
      ensures t.before == old(kv) && t.apps == old(apps) && t.after == kv && t.appsAfter == apps
    {
      t := Tick(kv, apps, [], [], kv, apps);
      var listed := List(o.listed);
      if listed.None? { return; }
      ghost var acts := HandleAll(listed.value, o.each);
      t := Tick(old(kv), old(apps), listed.value, acts, kv, apps);
    }

    /** `Watch`, for any number of ticks.  Between the ticks others make of the store and the apps
        whatever they like; each tick starts from that, and leaves what a tick is to leave. */
    method Watch(ticks: nat, o: nat -> TickOutcome, others: (nat, World) -> World) returns (ghost log: seq<Tick>)
      modifies this
      ensures IsRun(render, World(old(kv), old(apps)), o, others, log) && |log| == ticks
      ensures World(kv, apps) == EndOf(World(old(kv), old(apps)), log, ticks)
    {
      log := [];
      for i := 0 to ticks
        invariant IsRun(render, World(old(kv), old(apps)), o, others, log) && |log| == i
        invariant World(kv, apps) == EndOf(World(old(kv), old(apps)), log, i)
      {
        var now := others(i, World(kv, apps));
        kv, apps := now.kv, now.apps;
        ghost var t := OneTick(o(i));
        RunLonger(render, World(old(kv), old(apps)), o, others, log, t);
        log := log + [t];
      }
    }
  }

  // ---------------------------------------------------------------- what follows for a tick

  lemma {:induction false} CountFound(acts: seq<Act>, key: string)
    ensures CountHandled(acts, key) > 0 <==> exists i | 0 <= i < |acts| :: acts[i].Handle? && acts[i].kvp.key == key
  {
    if acts != [] {
      var n := |acts| - 1;
      CountFound(acts[..n], key);
      if CountHandled(acts[..n], key) > 0 {
        var i :| 0 <= i < n && acts[..n][i].Handle? && acts[..n][i].kvp.key == key;
        assert acts[i].Handle?;
      }
      if i :| 0 <= i < n && acts[i].Handle? && acts[i].kvp.key == key { assert acts[..n][i].Handle?; }
    }
  }

  /** The keys gone after a tick are exactly the stored request keys whose delete succeeded. */
  lemma RemovedAre(render: Renderer, o: TickOutcome, t: Tick, key: string)
    requires TickOk(render, o, t) && key in t.before
    ensures key !in t.after <==> o.listed && IsRequestKey(key) && o.each(key).deleted
    ensures key in t.after ==> t.after[key] == t.before[key]
  {
    if o.listed {
      var acts := t.acts;
      CountFound(acts, key);
      if key in RemovedBy(acts) {
        var i :| 0 <= i < |acts| && acts[i].DeleteAttempt? && acts[i].done && acts[i].key == key;
        assert ActOk(render, o.each, t.listing, t.apps, acts, i) && ActOk(render, o.each, t.listing, t.apps, acts, i - 1);
      } else if IsRequestKey(key) {
        assert CountHandled(acts, key) == 1;
        var i: nat :| i < |acts| && acts[i].Handle? && acts[i].kvp.key == key;
        assert ActOk(render, o.each, t.listing, t.apps, acts, i);
        assert acts[i + 1].key !in RemovedBy(acts);
      }
    }
  }

  /** Every stored request key is handled exactly once in a tick that can list, and no other key is. */
  lemma HandledOnce(render: Renderer, o: TickOutcome, t: Tick, key: string)
    requires TickOk(render, o, t)
    ensures CountHandled(t.acts, key) == if o.listed && key in t.before && IsRequestKey(key) then 1 else 0
  {
    assert o.listed ==> (key in KeySet(t.listing) <==> key in t.before && APPS_ROOT <= key);
  }

  lemma {:induction false} IdsStayUnique(render: Renderer, each: string -> Outcome, kvps: seq<KeyValue>, apps: seq<App>, acts: seq<Act>, n: nat)
    requires ActsOk(render, each, kvps, apps, acts) && UniqueIds(apps) && n <= |acts|
    ensures UniqueIds(apps + StartedBy(acts[..n]))
    decreases n
  {
    if n == 0 {
      assert apps + StartedBy(acts[..0]) == apps;
    } else {
      IdsStayUnique(render, each, kvps, apps, acts, n - 1);
      var before, last := acts[..n - 1], acts[n - 1];
      assert acts[..n][..n - 1] == before;
      if last.Handle? && last.started.Some? {
        assert ActOk(render, each, kvps, apps, acts, n - 1);
        var was := apps + StartedBy(before);
        assert apps + StartedBy(acts[..n]) == was + [last.started.value];
        assert forall i | 0 <= i < |was| :: was[i].id != last.started.value.id;
      } else {
        assert StartedBy(acts[..n]) == StartedBy(before);
      }
    }
  }

  /** A tick never makes two apps of one id: as long as others do not, Marathon has none. */
  lemma TickKeepsIds(render: Renderer, o: TickOutcome, t: Tick)
    requires TickOk(render, o, t) && UniqueIds(t.apps)
    ensures UniqueIds(t.appsAfter)
  {
    assert t.acts[..|t.acts|] == t.acts;
    if o.listed { IdsStayUnique(render, o.each, t.listing, t.apps, t.acts, |t.acts|); }
    else { assert t.appsAfter == t.apps; }
  }

  // ---------------------------------------------------------------- what follows for a run

  /** Others never make two apps of one id either. */
  ghost predicate OthersKeepIds(others: (nat, World) -> World) {
    forall i: nat, w: World {:trigger others(i, w)} | UniqueIds(w.apps) :: UniqueIds(others(i, w).apps)
  }

  /** Across any run, with failed listings, failed deletes and requests handled again, Marathon never
      holds two apps with one id. */
  lemma {:induction false} RunKeepsIds(render: Renderer, start: World, o: nat -> TickOutcome, others: (nat, World) -> World, log: seq<Tick>, i: nat)
    requires IsRun(render, start, o, others, log) && i < |log|
    requires UniqueIds(start.apps) && OthersKeepIds(others)
    ensures UniqueIds(log[i].apps) && UniqueIds(log[i].appsAfter)
    decreases i
  {
    if i > 0 { RunKeepsIds(render, start, o, others, log, i - 1); }
    assert StepOk(render, start, o, others, log, i);
    assert UniqueIds(EndOf(start, log, i).apps);
    TickKeepsIds(render, o(i), log[i]);
  }

  /** What one tick of a run does to a key. */
  lemma StepHandles(render: Renderer, start: World, o: nat -> TickOutcome, others: (nat, World) -> World, log: seq<Tick>, i: nat, key: string)
    requires IsRun(render, start, o, others, log) && i < |log|
    ensures CountHandled(log[i].acts, key) == if o(i).listed && key in log[i].before && IsRequestKey(key) then 1 else 0
  {
    assert StepOk(render, start, o, others, log, i);
    HandledOnce(render, o(i), log[i], key);
  }

  /** How often a key is handled in the first `n` ticks. */
  ghost function HandledIn(log: seq<Tick>, n: nat, key: string): nat
    requires n <= |log|
  {
    if n == 0 then 0 else HandledIn(log, n - 1, key) + CountHandled(log[n - 1].acts, key)
  }

  /** How many of them can list and find the request key in the store. */
  ghost function Finds(o: nat -> TickOutcome, log: seq<Tick>, n: nat, key: string): nat
    requires n <= |log|
  {
    if n == 0 then 0
    else Finds(o, log, n - 1, key) + if o(n - 1).listed && key in log[n - 1].before && IsRequestKey(key) then 1 else 0
  }

  /** Across any run a request key is handled exactly once for every tick that can list and finds it, so
      again after a failed delete, and no other key is handled at all. */
  lemma {:induction false} RunHandles(render: Renderer, start: World, o: nat -> TickOutcome, others: (nat, World) -> World, log: seq<Tick>,
                                      n: nat, key: string)
    requires IsRun(render, start, o, others, log) && n <= |log|
    ensures HandledIn(log, n, key) == Finds(o, log, n, key)
    decreases n
  {
    if n > 0 {
      RunHandles(render, start, o, others, log, n - 1, key);
      StepHandles(render, start, o, others, log, n - 1, key);
    }
  }

  /** A key that is there before a tick of a run and not after it is a request key that the tick handled
      and whose delete succeeded; so the watcher never removes a key outside the prefix. */
  lemma RunRemoves(render: Renderer, start: World, o: nat -> TickOutcome, others: (nat, World) -> World, log: seq<Tick>, i: nat, key: string)
    requires IsRun(render, start, o, others, log) && i < |log| && key in log[i].before
    ensures key !in log[i].after <==> o(i).listed && IsRequestKey(key) && o(i).each(key).deleted
    ensures key in log[i].after ==> log[i].after[key] == log[i].before[key]
  {
    assert StepOk(render, start, o, others, log, i);
    RemovedAre(render, o(i), log[i], key);
  }

  lemma StepStarts(render: Renderer, start: World, o: nat -> TickOutcome, others: (nat, World) -> World, log: seq<Tick>, i: nat)
    requires IsRun(render, start, o, others, log) && i < |log|
    ensures log[i].before == others(i, EndOf(start, log, i)).kv
  {
    assert StepOk(render, start, o, others, log, i);
  }

  /** Others leave the key in the store. */
  ghost predicate OthersLeave(others: (nat, World) -> World, key: string) {
    forall i: nat, w: World {:trigger others(i, w)} | key in w.kv :: key in others(i, w).kv
  }

  /** A request that others leave in the store is found, and so handled, by every tick that can list, for
      as long as no delete of it succeeds. */
  lemma {:induction false} RetriedUntilDeleted(render: Renderer, start: World, o: nat -> TickOutcome, others: (nat, World) -> World, log: seq<Tick>,
                                               n: nat, key: string)
    requires IsRun(render, start, o, others, log) && n < |log| && IsRequestKey(key) && key in start.kv && OthersLeave(others, key)
    requires forall i: nat | i < n :: !(o(i).listed && o(i).each(key).deleted)
    ensures key in log[n].before
    ensures CountHandled(log[n].acts, key) == if o(n).listed then 1 else 0
    decreases n
  {
    if n > 0 {
      RetriedUntilDeleted(render, start, o, others, log, n - 1, key);
      RunRemoves(render, start, o, others, log, n - 1, key);
    }
    StepStarts(render, start, o, others, log, n);
    StepHandles(render, start, o, others, log, n, key);
  }

  // ---------------------------------------------------------------- in terms of the requested names

  /** What one tick of a run does to the request `name`: it is handled once if the tick can list and finds
      it, and gone afterwards exactly if its delete then succeeds. */
  lemma RequestOfName(render: Renderer, start: World, o: nat -> TickOutcome, others: (nat, World) -> World, log: seq<Tick>, i: nat, name: string)
    requires IsRun(render, start, o, others, log) && i < |log| && name != ""
    ensures var key := APPS_ROOT + name;
            && CountHandled(log[i].acts, key) == (if o(i).listed && key in log[i].before then 1 else 0)
            && (key in log[i].before ==> (key !in log[i].after <==> o(i).listed && o(i).each(key).deleted))
  {
    var key := APPS_ROOT + name;
    RequestKeyIs(key);
    StepHandles(render, start, o, others, log, i, key);
    if key in log[i].before { RunRemoves(render, start, o, others, log, i, key); }
  }

  /** No other key is handled or removed, the bare prefix included. */
  lemma OtherKeysStay(render: Renderer, start: World, o: nat -> TickOutcome, others: (nat, World) -> World, log: seq<Tick>, i: nat, key: string)
    requires IsRun(render, start, o, others, log) && i < |log| && forall name | name != "" :: key != APPS_ROOT + name
    ensures CountHandled(log[i].acts, key) == 0
    ensures key in log[i].before ==> key in log[i].after && log[i].after[key] == log[i].before[key]
  {
    RequestKeyIs(key);
    StepHandles(render, start, o, others, log, i, key);
    if key in log[i].before { RunRemoves(render, start, o, others, log, i, key); }
  }

  /** What a handled request starts: the app that its value renders to, under its own id, if that id was
      free and Marathon creates it. */
  lemma StartedApps(render: Renderer, start: World, o: nat -> TickOutcome, others: (nat, World) -> World, log: seq<Tick>, i: nat, name: string)
    returns (at: nat)
    requires IsRun(render, start, o, others, log) && i < |log| && name != ""
    requires o(i).listed && APPS_ROOT + name in log[i].before
    ensures var key := APPS_ROOT + name;
            && at < |log[i].acts| && log[i].acts[at].Handle? && log[i].acts[at].kvp == KeyValue(key, log[i].before[key])
            && var app, among := render(log[i].before[key]), log[i].apps + StartedBy(log[i].acts[..at]);
               && (log[i].acts[at].started.Some? <==>
                     app.Some? && o(i).each(key).created && forall j | 0 <= j < |among| :: among[j].id != app.value.id)
               && (log[i].acts[at].started.Some? ==> log[i].acts[at].started == app && app.value in log[i].appsAfter)
  {
    var key, acts := APPS_ROOT + name, log[i].acts;
    RequestOfName(render, start, o, others, log, i, name);
    assert StepOk(render, start, o, others, log, i);
    CountFound(acts, key);
    at :| at < |acts| && acts[at].Handle? && acts[at].kvp.key == key;
    assert ActOk(render, o(i).each, log[i].listing, log[i].apps, acts, at);
    if acts[at].started.Some? { StartedIs(acts, at); }
  }

  lemma {:induction false} StartedIs(acts: seq<Act>, i: nat)
    requires i < |acts| && acts[i].Handle? && acts[i].started.Some?
    ensures acts[i].started.value in StartedBy(acts)
  {
    if i < |acts| - 1 { StartedIs(acts[..|acts| - 1], i); }
  }
}
