/** Synchronising sources into the key/value store: the `updated` key as a commit mark.  The
    protocol is a state machine over any number of concurrent, failing and crashing syncs; the
    program is proved to make only steps of that machine. */
module Sync {
  import opened Paths
  import opened Keys
  import opened Wrappers

  datatype SourceType = FileSystem | Git | OtherType

  /** A source, with the files that a complete walk of its tree finds. */
  datatype Source = Source(name: string, path: string, kind: SourceType, index: Int, files: map<Segs, string>)

  type Store = map<string, string>

  predicate SourceOk(s: Source) { forall p | p in s.files :: p != [] && CleanSegs(p) }

  predicate SourcesOk(ss: seq<Source>) {
    && (forall i | 0 <= i < |ss| :: SourceOk(ss[i]))
    && (forall i, j | 0 <= i < j < |ss| :: ss[i].index != ss[j].index)
  }

  function Artifacts(s: Source): set<Segs> { set p | p in s.files && IsArtifact(Rel(p)) }

  function NameKey(s: Source): string { RepoKey(s.index, NAME) }

  /** `sourceTimestampKey` */
  function UpdatedKey(s: Source): string { RepoKey(s.index, UPDATED) }

  predicate Stored(kv: Store, s: Source, p: Segs)
    requires p in s.files
  {
    RepoKey(s.index, p) in kv && kv[RepoKey(s.index, p)] == s.files[p]
  }

  predicate Named(kv: Store, s: Source) { NameKey(s) in kv && kv[NameKey(s)] == s.name }

  predicate Complete(kv: Store, s: Source) {
    Named(kv, s) && forall p | p in Artifacts(s) :: Stored(kv, s, p)
  }

  /** The commit property: an `updated` key stands for a completely stored source. */
  ghost predicate Committed(kv: Store, ss: seq<Source>) {
    forall s | s in ss && UpdatedKey(s) in kv :: Complete(kv, s)
  }

  // ---------------------------------------------------------------- writes

  /** The three kinds of write that a sync makes. */
  datatype Write = ArtifactWrite(s: Source, p: Segs) | NameWrite(s: Source) | StampWrite(s: Source, text: string)

  function WriteKey(w: Write): string {
    match w
    case ArtifactWrite(s, p) => RepoKey(s.index, p)
    case NameWrite(s) => NameKey(s)
    case StampWrite(s, _) => UpdatedKey(s)
  }

  /** A write that keeps the protocol: the stamp comes last. */
  predicate WriteOk(kv: Store, ss: seq<Source>, w: Write) {
    && w.s in ss
    && (w.ArtifactWrite? ==> w.p in Artifacts(w.s))
    && (w.StampWrite? ==> Complete(kv, w.s))
  }

  function WriteValue(w: Write): string
    requires w.ArtifactWrite? ==> w.p in w.s.files
  {
    match w
    case ArtifactWrite(s, p) => s.files[p]
    case NameWrite(s) => s.name
    case StampWrite(_, text) => text
  }

  function Apply(kv: Store, w: Write): Store
    requires w.ArtifactWrite? ==> w.p in w.s.files
  {
    kv[WriteKey(w) := WriteValue(w)]
  }

  lemma SourceByIndex(ss: seq<Source>, s: Source, s': Source)
    requires SourcesOk(ss) && s in ss && s' in ss && s.index == s'.index
    ensures s == s'
  {}

  /** No write of the protocol changes what another has stored. */
  lemma WriteKeepsStored(kv: Store, ss: seq<Source>, w: Write, s: Source, p: Segs)
    requires SourcesOk(ss) && WriteOk(kv, ss, w) && s in ss && p in Artifacts(s)
    ensures Stored(kv, s, p) ==> Stored(Apply(kv, w), s, p)
    ensures w == ArtifactWrite(s, p) ==> Stored(Apply(kv, w), s, p)
  {
    BookkeepingDisjoint(s.index, p, w.s.index);
    if w.ArtifactWrite? && WriteKey(w) == RepoKey(s.index, p) {
      RepoKeyInjective(w.s.index, w.p, s.index, p);
      SourceByIndex(ss, w.s, s);
    }
  }

  lemma WriteKeepsNamed(kv: Store, ss: seq<Source>, w: Write, s: Source)
    requires SourcesOk(ss) && WriteOk(kv, ss, w) && s in ss
    ensures Named(kv, s) ==> Named(Apply(kv, w), s)
    ensures w == NameWrite(s) ==> Named(Apply(kv, w), s)
    ensures UpdatedKey(s) in Apply(kv, w) && UpdatedKey(s) !in kv ==> w.StampWrite? && w.s == s
  {
    RootClean();
    match w {
      case ArtifactWrite(s', p) => BookkeepingDisjoint(s'.index, p, s.index);
      case NameWrite(s') =>
        KeyOfOne(ss, s', s, NAME);
        NamesApart(s'.index, s.index);
      case StampWrite(s', _) =>
        KeyOfOne(ss, s', s, UPDATED);
        NamesApart(s.index, s'.index);
    }
  }

  lemma NamesApart(i: Int, j: Int)
    ensures RepoKey(i, NAME) != RepoKey(j, UPDATED)
  {
    RootClean();
    if RepoKey(i, NAME) == RepoKey(j, UPDATED) { RepoKeyInjective(i, NAME, j, UPDATED); }
  }

  lemma KeyOfOne(ss: seq<Source>, s: Source, s': Source, rel: Segs)
    requires SourcesOk(ss) && s in ss && s' in ss && CleanSegs(rel)
    ensures RepoKey(s.index, rel) == RepoKey(s'.index, rel) ==> s == s'
  {
    if RepoKey(s.index, rel) == RepoKey(s'.index, rel) {
      RepoKeyInjective(s.index, rel, s'.index, rel);
      SourceByIndex(ss, s, s');
    }
  }

  /** The store only gains: what is stored stays, and the commit property is kept. */
  ghost predicate Grows(kv: Store, kv': Store, ss: seq<Source>) {
    && kv.Keys <= kv'.Keys
    && (forall s, p | s in ss && p in Artifacts(s) && Stored(kv, s, p) :: Stored(kv', s, p))
    && (forall s | s in ss && Named(kv, s) :: Named(kv', s))
    && (Committed(kv, ss) ==> Committed(kv', ss))
    && (OnlySources(kv, ss) ==> OnlySources(kv', ss))
  }

  /** Every key under the repository root is one that a sync of the sources writes. */
  ghost predicate OnlySources(kv: Store, ss: seq<Source>) {
    forall key | key in kv && REPOSITORY_ROOT <= key :: KeyOf(key, ss)
  }

  ghost predicate KeyOf(key: string, ss: seq<Source>) {
    exists s | s in ss :: key == NameKey(s) || key == UpdatedKey(s) || exists p | p in Artifacts(s) :: key == RepoKey(s.index, p)
  }

  /** All sources are completely stored, whatever else is. */
  ghost predicate AllComplete(kv: Store, ss: seq<Source>) {
    SourcesOk(ss) && forall s | s in ss :: Complete(kv, s)
  }

  /** All sources are completely stored, and nothing else is. */
  ghost predicate Synced(kv: Store, ss: seq<Source>) { AllComplete(kv, ss) && OnlySources(kv, ss) }

  lemma WriteGrows(kv: Store, ss: seq<Source>, w: Write)
    requires SourcesOk(ss) && WriteOk(kv, ss, w)
    ensures Grows(kv, Apply(kv, w), ss)
  {
    var kv' := Apply(kv, w);
    forall s, p | s in ss && p in Artifacts(s) ensures Stored(kv, s, p) ==> Stored(kv', s, p) {
      WriteKeepsStored(kv, ss, w, s, p);
    }
    forall s | s in ss
      ensures Named(kv, s) ==> Named(kv', s)
      ensures UpdatedKey(s) in kv' && UpdatedKey(s) !in kv ==> Complete(kv, s)
    {
      WriteKeepsNamed(kv, ss, w, s);
    }
    assert KeyOf(WriteKey(w), ss);
  }

  // ---------------------------------------------------------------- the machine

  /** One running sync: its source, the artifacts still to write, and whether the name is written. */
  datatype Proc = Proc(s: Source, todo: set<Segs>, named: bool)

  datatype World = World(kv: Store, procs: map<nat, Proc>)

  /** What comes of a put: done; failed, and not applied; or reported failed although applied. */
  datatype Put = Done | Lost | Unacknowledged

  datatype Event =
    | Start(pid: nat, s: Source)
    | PutArtifact(pid: nat, p: Segs, put: Put)
    | PutName(pid: nat, put: Put)
    | PutStamp(pid: nat, text: string, put: Put)
    | Crash(pid: nat)

  ghost predicate Enabled(ss: seq<Source>, w: World, e: Event) {
    match e
    case Start(pid, s) => pid !in w.procs && s in ss
    case PutArtifact(pid, p, _) => pid in w.procs && p in w.procs[pid].todo * Artifacts(w.procs[pid].s)
    case PutName(pid, _) => pid in w.procs && w.procs[pid].todo == {} && !w.procs[pid].named
    case PutStamp(pid, _, _) => pid in w.procs && w.procs[pid].todo == {} && w.procs[pid].named
    case Crash(pid) => pid in w.procs
  }

  ghost predicate IsPut(e: Event) { e.PutArtifact? || e.PutName? || e.PutStamp? }

  ghost function EventWrite(w: World, e: Event): Write
    requires IsPut(e) && e.pid in w.procs
  {
    var s := w.procs[e.pid].s;
    match e
    case PutArtifact(_, p, _) => ArtifactWrite(s, p)
    case PutName(_, _) => NameWrite(s)
    case PutStamp(_, text, _) => StampWrite(s, text)
  }

  /** The sync after a put that was acknowledged. */
  ghost function ProcAfter(proc: Proc, e: Event): Option<Proc>
    requires IsPut(e)
  {
    match e
    case PutArtifact(_, p, _) => Some(proc.(todo := proc.todo - {p}))
    case PutName(_, _) => Some(proc.(named := true))
    case PutStamp(_, _, _) => None
  }

  /** The world after an enabled event: a sync that has finished, whose put fails, or that crashes,
      is gone. */
  ghost function After(ss: seq<Source>, w: World, e: Event): World
    requires Enabled(ss, w, e)
  {
    if e.Start? then w.(procs := w.procs[e.pid := Proc(e.s, Artifacts(e.s), false)])
    else if e.Crash? then w.(procs := w.procs - {e.pid})
    else
      var proc := ProcAfter(w.procs[e.pid], e);
      World(if e.put.Lost? then w.kv else Apply(w.kv, EventWrite(w, e)),
            if e.put.Done? && proc.Some? then w.procs[e.pid := proc.value] else w.procs - {e.pid})
  }

  /** A running sync has stored all that it no longer has to do. */
  ghost predicate ProcOk(kv: Store, ss: seq<Source>, proc: Proc) {
    && proc.s in ss && proc.todo <= Artifacts(proc.s)
    && (forall p | p in Artifacts(proc.s) - proc.todo :: Stored(kv, proc.s, p))
    && (proc.named ==> proc.todo == {} && Named(kv, proc.s))
  }

  ghost predicate WorldOk(ss: seq<Source>, w: World) {
    Committed(w.kv, ss) && forall pid | pid in w.procs :: ProcOk(w.kv, ss, w.procs[pid])
  }

  lemma GrowsProc(kv: Store, kv': Store, ss: seq<Source>, proc: Proc)
    requires Grows(kv, kv', ss) && ProcOk(kv, ss, proc)
    ensures ProcOk(kv', ss, proc)
  {}

  /** Every put of the machine is a write of the protocol, and leaves its sync in order. */
  lemma EventWriteOk(ss: seq<Source>, w: World, e: Event)
    requires SourcesOk(ss) && WorldOk(ss, w) && Enabled(ss, w, e) && IsPut(e)
    ensures WriteOk(w.kv, ss, EventWrite(w, e))
    ensures var next := ProcAfter(w.procs[e.pid], e);
            next.Some? ==> ProcOk(Apply(w.kv, EventWrite(w, e)), ss, next.value)
  {
    var proc, wr := w.procs[e.pid], EventWrite(w, e);
    assert ProcOk(w.kv, ss, proc);
    WriteGrows(w.kv, ss, wr);
    GrowsProc(w.kv, Apply(w.kv, wr), ss, proc);
    if e.PutArtifact? { WriteKeepsStored(w.kv, ss, wr, wr.s, wr.p); }
    WriteKeepsNamed(w.kv, ss, wr, wr.s);
  }

  lemma EventKeeps(ss: seq<Source>, w: World, e: Event)
    requires SourcesOk(ss) && WorldOk(ss, w) && Enabled(ss, w, e)
    ensures WorldOk(ss, After(ss, w, e)) && Grows(w.kv, After(ss, w, e).kv, ss)
  {
    AfterGrows(ss, w, e);
    forall pid | pid in After(ss, w, e).procs ensures ProcOk(After(ss, w, e).kv, ss, After(ss, w, e).procs[pid]) {
      ProcKept(ss, w, e, pid);
    }
  }

  lemma AfterGrows(ss: seq<Source>, w: World, e: Event)
    requires SourcesOk(ss) && WorldOk(ss, w) && Enabled(ss, w, e)
    ensures Grows(w.kv, After(ss, w, e).kv, ss)
  {
    AfterStore(ss, w, e);
    if IsPut(e) && !e.put.Lost? {
      EventWriteOk(ss, w, e);
      WriteGrows(w.kv, ss, EventWrite(w, e));
    } else {
      GrowsSelf(w.kv, ss);
    }
  }

  lemma AfterStore(ss: seq<Source>, w: World, e: Event)
    requires Enabled(ss, w, e)
    ensures IsPut(e) ==> WriteValueDefined(EventWrite(w, e))
    ensures After(ss, w, e).kv == if IsPut(e) && !e.put.Lost? then Apply(w.kv, EventWrite(w, e)) else w.kv
  {}

  predicate WriteValueDefined(w: Write) { w.ArtifactWrite? ==> w.p in w.s.files }

  lemma GrowsSelf(kv: Store, ss: seq<Source>)
    ensures Grows(kv, kv, ss)
  {}

  lemma ProcKept(ss: seq<Source>, w: World, e: Event, pid: nat)
    requires SourcesOk(ss) && WorldOk(ss, w) && Enabled(ss, w, e) && pid in After(ss, w, e).procs
    requires Grows(w.kv, After(ss, w, e).kv, ss)
    ensures ProcOk(After(ss, w, e).kv, ss, After(ss, w, e).procs[pid])
  {
    if pid != e.pid {
      OtherProcs(ss, w, e, pid);
      GrowsProc(w.kv, After(ss, w, e).kv, ss, w.procs[pid]);
    } else {
      OwnProcKept(ss, w, e);
    }
  }

  lemma OtherProcs(ss: seq<Source>, w: World, e: Event, pid: nat)
    requires Enabled(ss, w, e) && pid != e.pid && pid in After(ss, w, e).procs
    ensures pid in w.procs && After(ss, w, e).procs[pid] == w.procs[pid]
  {}

  lemma OwnProcKept(ss: seq<Source>, w: World, e: Event)
    requires SourcesOk(ss) && WorldOk(ss, w) && Enabled(ss, w, e) && e.pid in After(ss, w, e).procs
    ensures ProcOk(After(ss, w, e).kv, ss, After(ss, w, e).procs[e.pid])
  {
    if IsPut(e) {
      assert e.put.Done?;
      EventWriteOk(ss, w, e);
      assert After(ss, w, e) == World(Apply(w.kv, EventWrite(w, e)), w.procs[e.pid := ProcAfter(w.procs[e.pid], e).value]);
    } else {
      assert After(ss, w, e).procs[e.pid] == Proc(e.s, Artifacts(e.s), false);
    }
  }

  /** A run: any enabled events in any order, from a store that keeps the commit property. */
  ghost predicate IsRun(ss: seq<Source>, worlds: seq<World>, events: seq<Event>) {
    && |worlds| == |events| + 1
    && worlds[0].procs == map[] && Committed(worlds[0].kv, ss)
    && forall i | 0 <= i < |events| ::
         Enabled(ss, worlds[i], events[i]) && worlds[i + 1] == After(ss, worlds[i], events[i])
  }

  /** In every state of every run, an `updated` key stands for a completely stored source. */
  lemma {:induction false} RunCommitted(ss: seq<Source>, worlds: seq<World>, events: seq<Event>, n: nat)
    requires SourcesOk(ss) && IsRun(ss, worlds, events) && n <= |events|
    ensures WorldOk(ss, worlds[n]) && Committed(worlds[n].kv, ss)
    ensures OnlySources(worlds[0].kv, ss) ==> OnlySources(worlds[n].kv, ss)
    decreases n
  {
    if n > 0 {
      RunCommitted(ss, worlds, events, n - 1);
      EventKeeps(ss, worlds[n - 1], events[n - 1]);
    }
  }
}
