/** The sync program against a key/value store that other syncs write to between any two of its
    calls, and whose calls may fail. */
module SyncProgram {
  import opened Paths
  import opened Keys
  import opened Sync
  import opened Wrappers

  /** No file but an artifact is ever sent. */
  ghost predicate OnlyArtifacts(ws: seq<Write>) { forall i | 0 <= i < |ws| && ws[i].ArtifactWrite? :: ws[i].p in Artifacts(ws[i].s) }

  class Consul {
    var kv: Store
    var ticks: nat
    const ss: seq<Source>
    // reads do not fail
    const readable: bool
    // writes do not fail
    const writable: bool
    // the text is a time in the format of `setTimestamp`, and not the zero time
    const validStamp: string -> bool
    const clock: nat -> string
    // the writes this program has sent
    ghost var writes: seq<Write>

    constructor (kv: Store, ss: seq<Source>, readable: bool, writable: bool, validStamp: string -> bool, clock: nat -> string)
      ensures this.kv == kv && this.ss == ss && this.readable == readable && this.writable == writable && writes == []
      ensures this.validStamp == validStamp && this.clock == clock
    {
      this.kv, this.ss, this.readable, this.writable, this.validStamp, this.clock := kv, ss, readable, writable, validStamp, clock;
      ticks, writes := 0, [];
    }

    ghost predicate Ok()
      reads this
    {
      SourcesOk(ss) && Committed(kv, ss) && (forall n :: validStamp(clock(n))) && OnlyArtifacts(writes)
    }

    predicate Stamped(s: Source)
      reads this`kv
    {
      UpdatedKey(s) in kv && validStamp(kv[UpdatedKey(s)])
    }

    /** From an earlier store to this one, things have only been added. */
    ghost predicate GrownFrom(before: Store)
      reads this`kv
    {
      && Grows(before, kv, ss)
      && forall s | s in ss && UpdatedKey(s) in before && validStamp(before[UpdatedKey(s)]) :: Stamped(s)
    }

    lemma GrownTrans(a: Store, b: Store)
      requires Grows(a, b, ss) && GrownFrom(b)
      requires forall s | s in ss && UpdatedKey(s) in a && validStamp(a[UpdatedKey(s)]) ::
                 UpdatedKey(s) in b && validStamp(b[UpdatedKey(s)])
      ensures GrownFrom(a)
    {}

    lemma StampKept(before: Store, w: Write, s: Source)
      requires SourcesOk(ss) && WriteOk(before, ss, w) && s in ss && (w.StampWrite? ==> validStamp(w.text))
      requires UpdatedKey(s) in before && validStamp(before[UpdatedKey(s)])
      ensures UpdatedKey(s) in Apply(before, w) && validStamp(Apply(before, w)[UpdatedKey(s)])
    {
      match w {
        case ArtifactWrite(s', p) => BookkeepingDisjoint(s'.index, p, s.index);
        case NameWrite(s') => NamesApart(s'.index, s.index);
        case StampWrite(s', _) =>
      }
    }

    /** One write of the protocol arrives. */
    method Arrive(w: Write)
      requires Ok() && WriteOk(kv, ss, w) && (w.StampWrite? ==> validStamp(w.text))
      modifies this`kv
      ensures Ok() && GrownFrom(old(kv)) && kv == Apply(old(kv), w)
    {
      ghost var before := kv;
      WriteGrows(kv, ss, w);
      forall s | s in ss && UpdatedKey(s) in kv && validStamp(kv[UpdatedKey(s)])
        ensures UpdatedKey(s) in Apply(before, w) && validStamp(Apply(before, w)[UpdatedKey(s)])
      {
        StampKept(before, w, s);
      }
      kv := Apply(kv, w);
    }

    /** What other syncs do between two calls of this one. */
    method Others()
      requires Ok()
      modifies this`kv
      ensures Ok() && GrownFrom(old(kv))
    {
      var ws: seq<Write> := *;
      for i := 0 to |ws|
        invariant Ok() && GrownFrom(old(kv))
      {
        if WriteOk(kv, ss, ws[i]) && (ws[i].StampWrite? ==> validStamp(ws[i].text)) {
          ghost var mid := kv;
          Arrive(ws[i]);
          GrownTrans(old(kv), mid);
        }
      }
    }

    /** kv.Put, for one write of the protocol. */
    method Put(key: string, value: string, w: Write) returns (ok: bool)
      requires Ok() && WriteOk(kv, ss, w) && (w.StampWrite? ==> validStamp(w.text))
      requires key == WriteKey(w) && value == WriteValue(w)
      modifies this`kv, this`writes
      ensures Ok() && GrownFrom(old(kv)) && writes == old(writes) + [w]
      ensures ok ==> key in kv && kv[key] == value
      ensures writable ==> ok
    {
      Others();
      writes := writes + [w];
      var outcome: Sync.Put := *;
      if writable { outcome := Sync.Put.Done; }
      if !outcome.Lost? {
        ghost var mid := kv;
        Arrive(w);
        GrownTrans(old(kv), mid);
      }
      ok := outcome.Done?;
    }

    /** kv.Get: nothing at all when the call fails. */
    method Get(key: string) returns (r: Option<Option<string>>)
      requires Ok()
      modifies this`kv
      ensures Ok() && GrownFrom(old(kv))
      ensures r == None || r == Some(if key in kv then Some(kv[key]) else None)
      ensures readable ==> r.Some?
    {
      Others();
      var reached: bool := *;
      r := if !reached && !readable then None else Some(if key in kv then Some(kv[key]) else None);
    }
  }

  /** `sourceLastUpdated`: the time of the last sync, if it can be read and is one. */
  method SourceLastUpdated(c: Consul, s: Source) returns (ts: Option<string>)
    requires c.Ok() && s in c.ss
    modifies c`kv
    ensures c.Ok() && c.GrownFrom(old(c.kv))
    ensures ts.Some? ==> c.Stamped(s)
    ensures c.readable && UpdatedKey(s) in old(c.kv) && c.validStamp(old(c.kv)[UpdatedKey(s)]) ==> ts.Some?
  {
    var got := c.Get(UpdatedKey(s));
    if got.None? || got.value.None? { return None; }
    ts := if c.validStamp(got.value.value) then Some(got.value.value) else None;
  }

  /** What a complete sync sends: every artifact once in some order, then the name, then the stamp. */
  ghost predicate SentAll(ws: seq<Write>, s: Source) {
    var n := |Artifacts(s)|;
    && |ws| == n + 2
    && (forall p | p in Artifacts(s) :: ArtifactWrite(s, p) in ws[..n])
    && ws[n] == NameWrite(s)
    && ws[n + 1].StampWrite? && ws[n + 1].s == s
  }

  /** A complete sync of `s` was sent after the first `from` writes. */
  ghost predicate SentSince(ws: seq<Write>, from: nat, s: Source) {
    exists i, j | from <= i <= j <= |ws| :: SentAll(ws[i..j], s)
  }

  lemma SentMore(ws: seq<Write>, ws': seq<Write>, from: nat, s: Source)
    requires SentSince(ws, from, s) && ws <= ws'
    ensures SentSince(ws', from, s)
  {
    var i, j :| from <= i <= j <= |ws| && SentAll(ws[i..j], s);
    assert ws'[i..j] == ws[i..j];
  }

  /** The artifacts walked so far are sent and stored. */
  ghost predicate Walked(kv: Store, s: Source, todo: set<Segs>, sent: seq<Write>) {
    var done := Artifacts(s) - todo;
    |sent| == |done| && forall p | p in done :: Stored(kv, s, p) && ArtifactWrite(s, p) in sent
  }

  lemma StoredStays(kv: Store, kv': Store, ss: seq<Source>, s: Source)
    requires s in ss && Grows(kv, kv', ss)
    ensures forall p | p in Artifacts(s) && Stored(kv, s, p) :: Stored(kv', s, p)
  {}

  lemma WalkedMore(kv: Store, kv': Store, s: Source, todo: set<Segs>, sent: seq<Write>, p: Segs)
    requires forall q | q in Artifacts(s) && Stored(kv, s, q) :: Stored(kv', s, q)
    requires Walked(kv, s, todo, sent) && p in todo && p in s.files
    ensures p !in Artifacts(s) ==> Walked(kv', s, todo - {p}, sent)
    ensures p in Artifacts(s) && Stored(kv', s, p) ==> Walked(kv', s, todo - {p}, sent + [ArtifactWrite(s, p)])
  {
    var done := Artifacts(s) - todo;
    assert Artifacts(s) - (todo - {p}) == done + if p in Artifacts(s) then {p} else {};
  }

  /** The walk function of `sync`: an artifact is written, another file is passed over. */
  method AddSourceArtifact(c: Consul, s: Source, sourcePath: string, p: Segs) returns (ok: bool)
    requires c.Ok() && s in c.ss && p in s.files
    modifies c`kv, c`writes
    ensures c.Ok() && c.GrownFrom(old(c.kv))
    ensures c.writes == old(c.writes) + (if p in Artifacts(s) then [ArtifactWrite(s, p)] else [])
    ensures c.writable ==> ok
    ensures ok && p in Artifacts(s) ==> Stored(c.kv, s, p)
  {
    JoinNotEmpty(p);
    ExtOfFile(sourcePath, Rel(p));
    ok := true;
    if IsArtifact(sourcePath + "/" + Rel(p)) {
      ok := c.Put(PathJoin([RootKey(s.index), Rel(p)]), s.files[p], ArtifactWrite(s, p));
    }
  }

  lemma NothingWalked(kv: Store, s: Source)
    ensures Walked(kv, s, s.files.Keys, [])
  {
    assert Artifacts(s) - s.files.Keys == {};
  }

  lemma SentAssoc(a: seq<Write>, b: seq<Write>, c: seq<Write>)
    ensures a + b + c == a + (b + c)
  {}

  /** The walk of `sync`, in some order, up to the first failure. */
  method SyncFiles(c: Consul, s: Source, sourcePath: string) returns (ok: bool, ghost sent: seq<Write>)
    requires c.Ok() && s in c.ss
    modifies c`kv, c`writes
    ensures c.Ok() && c.GrownFrom(old(c.kv)) && c.writes == old(c.writes) + sent
    ensures c.writable ==> ok
    ensures ok ==> Walked(c.kv, s, {}, sent)
  {
    sent, ok := [], true;
    var todo := s.files.Keys;
    NothingWalked(c.kv, s);
    while todo != {}
      invariant todo <= s.files.Keys && ok
      invariant c.Ok() && c.GrownFrom(old(c.kv)) && c.writes == old(c.writes) + sent
      invariant Walked(c.kv, s, todo, sent)
    {
      var p :| p in todo;
      ghost var mid, more := c.kv, if p in Artifacts(s) then [ArtifactWrite(s, p)] else [];
      ok := AddSourceArtifact(c, s, sourcePath, p);
      c.GrownTrans(old(c.kv), mid);
      StoredStays(mid, c.kv, c.ss, s);
      WalkedMore(mid, c.kv, s, todo, sent, p);
      SentAssoc(old(c.writes), sent, more);
      assert sent + [] == sent;
      sent := sent + more;
      if !ok { return; }
      todo := todo - {p};
    }
  }

  /** The end of `sync`: the name, then the timestamp. */
  method SetNameAndTimestamp(c: Consul, s: Source) returns (ok: bool, ghost sent: seq<Write>)
    requires c.Ok() && s in c.ss && forall p | p in Artifacts(s) :: Stored(c.kv, s, p)
    modifies c`kv, c`writes, c`ticks
    ensures c.Ok() && c.GrownFrom(old(c.kv)) && c.writes == old(c.writes) + sent
    ensures c.writable ==> ok
    ensures ok ==> Complete(c.kv, s) && c.Stamped(s)
    ensures ok ==> |sent| == 2 && sent[0] == NameWrite(s) && sent[1].StampWrite? && sent[1].s == s
  {
    sent := [NameWrite(s)];
    ok := c.Put(NameKey(s), s.name, NameWrite(s));
    if !ok { return; }
    ghost var mid := c.kv;
    var now := c.clock(c.ticks);
    c.ticks := c.ticks + 1;
    sent := sent + [StampWrite(s, now)];
    ok := c.Put(UpdatedKey(s), now, StampWrite(s, now));
    c.GrownTrans(old(c.kv), mid);
  }

  /** `sync`: the artifacts, then the name, then the timestamp. */
  method SyncTree(c: Consul, s: Source, sourcePath: string) returns (ok: bool)
    requires c.Ok() && s in c.ss
    modifies c`kv, c`writes, c`ticks
    ensures c.Ok() && c.GrownFrom(old(c.kv)) && old(c.writes) <= c.writes
    ensures c.writable ==> ok
    ensures ok ==> Complete(c.kv, s) && c.Stamped(s) && SentAll(c.writes[|old(c.writes)|..], s)
  {
    ghost var sent, last;
    ok, sent := SyncFiles(c, s, sourcePath);
    if !ok { return; }
    assert Artifacts(s) - {} == Artifacts(s);
    ghost var mid := c.kv;
    ok, last := SetNameAndTimestamp(c, s);
    c.GrownTrans(old(c.kv), mid);
    if ok { SentInOrder(old(c.writes), sent, last, s); }
  }

  lemma SentInOrder(before: seq<Write>, sent: seq<Write>, last: seq<Write>, s: Source)
    requires |sent| == |Artifacts(s)| && forall p | p in Artifacts(s) :: ArtifactWrite(s, p) in sent
    requires |last| == 2 && last[0] == NameWrite(s) && last[1].StampWrite? && last[1].s == s
    ensures SentAll((before + sent + last)[|before|..], s)
  {
    assert (before + sent + last)[|before|..] == sent + last;
    assert (sent + last)[..|sent|] == sent;
  }

  /** `syncSource` and `syncGitSource`.  A clone may fail; a source of no known type is an error. */
  method SyncSource(c: Consul, s: Source) returns (ok: bool)
    requires c.Ok() && s in c.ss
    modifies c`kv, c`writes, c`ticks
    ensures c.Ok() && c.GrownFrom(old(c.kv)) && old(c.writes) <= c.writes
    ensures ok ==> Complete(c.kv, s) && c.Stamped(s) && SentAll(c.writes[|old(c.writes)|..], s)
    ensures c.writable && s.kind.FileSystem? ==> ok
    ensures s.kind.OtherType? ==> !ok && c.writes == old(c.writes)
  {
    match s.kind {
      case FileSystem => ok := SyncTree(c, s, s.path);
      case Git =>
        var temp: string := *;
        var cloned: bool := *;
        if !cloned { return false; }
        ok := SyncTree(c, s, PathJoin([temp, s.name]));
      case OtherType => ok := false;
    }
  }

  ghost predicate StampedIn(c: Consul, kv: Store, s: Source) { UpdatedKey(s) in kv && c.validStamp(kv[UpdatedKey(s)]) }

  ghost predicate AllStampedIn(c: Consul, kv: Store) { forall s | s in c.ss :: StampedIn(c, kv, s) }

  /** One source of `SyncSources`: synced when forced or not known to be up to date. */
  method SyncIfNeeded(c: Consul, s: Source, force: bool, ghost from: Store) returns (ok: bool)
    requires c.Ok() && s in c.ss && c.GrownFrom(from)
    modifies c`kv, c`writes, c`ticks
    ensures c.Ok() && c.GrownFrom(from) && old(c.writes) <= c.writes
    ensures forall s' | s' in c.ss && StampedIn(c, old(c.kv), s') :: c.Stamped(s')
    ensures ok ==> c.Stamped(s)
    ensures ok && force ==> SentAll(c.writes[|old(c.writes)|..], s)
    ensures c.writable && s.kind.FileSystem? ==> ok
    ensures !force && c.readable && StampedIn(c, from, s) ==> ok && c.writes == old(c.writes)
  {
    ghost var mid := c.kv;
    var ts := SourceLastUpdated(c, s);
    c.GrownTrans(from, mid);
    ok := true;
    if ts.None? || force {
      mid := c.kv;
      ok := SyncSource(c, s);
      c.GrownTrans(from, mid);
    }
  }

  lemma AllCommitted(kv: Store, ss: seq<Source>)
    requires SourcesOk(ss) && Committed(kv, ss)
    ensures (forall s | s in ss :: UpdatedKey(s) in kv) ==>
              && (forall s | s in ss :: Complete(kv, s))
              && (OnlySources(kv, ss) ==> Synced(kv, ss))
  {}

  /** One more source sent. */
  lemma SentNext(ss: seq<Source>, s: Source, ws: seq<Write>, ws': seq<Write>, from: nat)
    requires from <= |ws| && ws <= ws' && SentAll(ws'[|ws|..], s) && AllSent(ws, from, ss)
    ensures AllSent(ws', from, ss + [s])
  {
    forall s' | s' in ss { SentMore(ws, ws', from, s'); }
    assert ws'[|ws|..|ws'|] == ws'[|ws|..];
  }

  ghost predicate AllStamped(c: Consul, ss: seq<Source>)
    reads c`kv
  {
    forall s | s in ss :: c.Stamped(s)
  }

  ghost predicate AllSent(ws: seq<Write>, from: nat, ss: seq<Source>) { forall s | s in ss :: SentSince(ws, from, s) }

  /** The loop of `SyncSources`. */
  method SyncEach(c: Consul, force: bool) returns (ok: bool)
    requires c.Ok()
    modifies c`kv, c`writes, c`ticks
    ensures c.Ok() && c.GrownFrom(old(c.kv)) && old(c.writes) <= c.writes
    ensures ok ==> AllStamped(c, c.ss)
    ensures ok && force ==> AllSent(c.writes, |old(c.writes)|, c.ss)
    ensures c.writable && (forall s | s in c.ss :: s.kind.FileSystem?) ==> ok
    ensures !force && c.readable && AllStampedIn(c, old(c.kv)) ==> ok && c.writes == old(c.writes)
  {
    ok := true;
    for i := 0 to |c.ss|
      invariant ok && c.Ok() && c.GrownFrom(old(c.kv)) && old(c.writes) <= c.writes
      invariant AllStamped(c, c.ss[..i])
      invariant force ==> AllSent(c.writes, |old(c.writes)|, c.ss[..i])
      invariant !force && c.readable && AllStampedIn(c, old(c.kv)) ==> c.writes == old(c.writes)
    {
      TakeMore(c.ss, i);
      ok := SyncNext(c, c.ss[..i], c.ss[i], force, old(c.kv), |old(c.writes)|);
      if !ok { return; }
    }
    assert c.ss[..|c.ss|] == c.ss;
  }

  /** The file's text ends in .json. */
  predicate JsonFile(p: Segs) { |Rel(p)| >= 5 && Rel(p)[|Rel(p)| - 5..] == ".json" }

  /** What a complete and stamped source has in the store, file by file. */
  lemma StoredMeans(c: Consul, s: Source)
    requires Complete(c.kv, s) && c.Stamped(s)
    ensures forall p | p in s.files && JsonFile(p) :: RepoKey(s.index, p) in c.kv && c.kv[RepoKey(s.index, p)] == s.files[p]
    ensures RepoKey(s.index, ["name"]) in c.kv && c.kv[RepoKey(s.index, ["name"])] == s.name
    ensures RepoKey(s.index, ["updated"]) in c.kv && c.validStamp(c.kv[RepoKey(s.index, ["updated"])])
  {
    forall p | p in s.files && JsonFile(p) ensures p in Artifacts(s) { ArtifactIs(Rel(p)); }
  }

  /** What is sent of a file is sent under its key, and only files that end in .json are. */
  lemma SentMeans(c: Consul, i: nat)
    requires c.Ok() && i < |c.writes| && c.writes[i].ArtifactWrite?
    ensures var w := c.writes[i]; w.p in w.s.files && JsonFile(w.p) && WriteKey(w) == RepoKey(w.s.index, w.p) && WriteValue(w) == w.s.files[w.p]
  {
    ArtifactIs(Rel(c.writes[i].p));
  }

  lemma TakeMore(ss: seq<Source>, i: nat)
    requires i < |ss|
    ensures ss[..i + 1] == ss[..i] + [ss[i]]
  {}

  /** One source after those in `done`. */
  method SyncNext(c: Consul, ghost done: seq<Source>, s: Source, force: bool, ghost from: Store, ghost sent: nat) returns (ok: bool)
    requires c.Ok() && s in c.ss && c.GrownFrom(from) && sent <= |c.writes|
    requires AllStamped(c, done) && (forall s' | s' in done :: s' in c.ss) && (force ==> AllSent(c.writes, sent, done))
    modifies c`kv, c`writes, c`ticks
    ensures c.Ok() && c.GrownFrom(from) && old(c.writes) <= c.writes
    ensures ok ==> AllStamped(c, done + [s])
    ensures ok && force ==> AllSent(c.writes, sent, done + [s])
    ensures c.writable && s.kind.FileSystem? ==> ok
    ensures !force && c.readable && StampedIn(c, from, s) ==> ok && c.writes == old(c.writes)
  {
    ok := SyncIfNeeded(c, s, force, from);
    if ok && force { SentNext(done, s, old(c.writes), c.writes, sent); }
  }

  /** `SyncSources`: if it succeeds, every source is completely stored and stamped, and when forced
      each was sent completely; it does succeed when no write fails and the sources are directories;
      and when every source already is stamped, and nothing is forced, it sends no write. */
  method SyncSources(c: Consul, force: bool) returns (ok: bool)
    requires c.Ok()
    modifies c`kv, c`writes, c`ticks
    ensures c.Ok() && c.GrownFrom(old(c.kv)) && old(c.writes) <= c.writes
    ensures ok ==> forall s | s in c.ss :: Complete(c.kv, s) && c.Stamped(s)
    ensures ok ==> forall s, p | s in c.ss && p in s.files && JsonFile(p) ::
                     RepoKey(s.index, p) in c.kv && c.kv[RepoKey(s.index, p)] == s.files[p]
    ensures ok && OnlySources(old(c.kv), c.ss) ==> Synced(c.kv, c.ss)
    ensures ok && force ==> forall s | s in c.ss :: SentSince(c.writes, |old(c.writes)|, s)
    ensures c.writable && (forall s | s in c.ss :: s.kind.FileSystem?) ==> ok
    ensures !force && c.readable && AllStampedIn(c, old(c.kv)) ==> ok && c.writes == old(c.writes)
  {
    ok := SyncEach(c, force);
    AllCommitted(c.kv, c.ss);
    if ok { forall s | s in c.ss { StoredMeans(c, s); } }
  }
}
