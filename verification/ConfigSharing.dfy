/** Merging the same layers again.  A merge stores sub-maps by reference, so a call can leave maps of
    the API configuration inside the user's, and a later call merges those into themselves.  On trees:
    what each call makes of the user and API configurations, which maps become shared, and exactly
    when nothing changes any more. */
module ConfigSharing {
  import opened ConfigLaws
  import opened ConfigTree
  import opened Replacement
  import opened Wrappers

  // ---------------------------------------------------------------- a map merged into itself

  /** Every value of `a` is accepted by, and a fixed point of, the transformers for its declared type. */
  predicate Settled(env: Env, a: Json, s: Schema)
    decreases a
  {
    a.Obj? &&
    forall k | k in a.m ::
      if a.m[k].Obj? then Settled(env, a.m[k], Sub(s, k))
      else Accepts(a.m[k], Sub(s, k).typ) && Transform(env, a.m[k], Sub(s, k).typ) == a.m[k]
  }

  /** A configuration can be merged into itself and is unchanged by it exactly when it is settled. */
  lemma {:induction false} SelfMerge(env: Env, a: Json, s: Schema)
    requires a.Obj?
    ensures Settled(env, a, s) <==> Mergeable(a, a, s) && Merge(env, a, a, s) == a
    decreases a
  {
    var r := Merge(env, a, a, s);
    forall k | k in a.m && a.m[k].Obj?
      ensures Settled(env, a.m[k], Sub(s, k)) <==> Mergeable(a.m[k], a.m[k], Sub(s, k)) && r.m[k] == a.m[k]
    {
      SelfMerge(env, a.m[k], Sub(s, k));
    }
    assert r.m.Keys == a.m.Keys;
    if Settled(env, a, s) { assert forall k | k in a.m :: r.m[k] == a.m[k]; }
  }

  /** The maps of `a` that a merge into `u` stores by reference are settled. */
  predicate TakenSettled(env: Env, u: Json, a: Json, s: Schema)
    requires u.Obj? && a.Obj?
    decreases a
  {
    forall k | k in a.m && a.m[k].Obj? ::
      if BothMaps(u, a, k) then TakenSettled(env, u.m[k], a.m[k], Sub(s, k)) else Settled(env, a.m[k], Sub(s, k))
  }

  /** A layer can be merged a second time and changes nothing exactly when the maps that the first
      merge stored are settled. */
  lemma {:induction false} MergeAgain(env: Env, c: Json, a: Json, s: Schema)
    requires Mergeable(c, a, s)
    ensures var r := Merge(env, c, a, s);
            TakenSettled(env, c, a, s) <==> Mergeable(r, a, s) && Merge(env, r, a, s) == r
    decreases c
  {
    var r := Merge(env, c, a, s);
    var r2 := Merge(env, r, a, s);
    forall k | k in a.m && a.m[k].Obj?
      ensures BothMaps(r, a, k)
      ensures (if BothMaps(c, a, k) then TakenSettled(env, c.m[k], a.m[k], Sub(s, k)) else Settled(env, a.m[k], Sub(s, k))) <==>
              Mergeable(r.m[k], a.m[k], Sub(s, k)) && r2.m[k] == r.m[k]
    {
      if BothMaps(c, a, k) { MergeAgain(env, c.m[k], a.m[k], Sub(s, k)); } else { SelfMerge(env, a.m[k], Sub(s, k)); }
    }
    assert r2.m.Keys == r.m.Keys;
    forall k | k in r.m && !(k in a.m && a.m[k].Obj?) ensures r2.m[k] == r.m[k] {}
    if TakenSettled(env, c, a, s) { assert forall k | k in r.m :: r2.m[k] == r.m[k]; }
  }

  // ---------------------------------------------------------------- the user configuration

  /** What one `Options` call leaves in the user configuration: where mantl.json has no map, the
      user's map is stored by reference and then written through by the API merge. */
  function Absorb(env: Env, p: Json, u: Json, a: Json, s: Schema): (r: Json)
    requires p.Obj? && u.Obj? && a.Obj?
    ensures r.Obj?
    decreases u
  {
    Obj(map k | k in u.m ::
          if !BothMaps(u, a, k) then u.m[k]
          else if k in p.m && p.m[k].Obj? then Absorb(env, p.m[k], u.m[k], a.m[k], Sub(s, k))
          else Merge(env, u.m[k], a.m[k], Sub(s, k)))
  }

  /** The API's maps that one `Options` call leaves in the user configuration are settled. */
  predicate AdoptedSettled(env: Env, p: Json, u: Json, a: Json, s: Schema)
    requires p.Obj? && u.Obj? && a.Obj?
    decreases u, 1
  {
    forall k | k in u.m && BothMaps(u, a, k) :: AdoptedSettledAt(env, p, u, a, s, k)
  }

  predicate AdoptedSettledAt(env: Env, p: Json, u: Json, a: Json, s: Schema, k: string)
    requires p.Obj? && u.Obj? && a.Obj? && BothMaps(u, a, k)
    decreases u, 0
  {
    if k in p.m && p.m[k].Obj? then AdoptedSettled(env, p.m[k], u.m[k], a.m[k], Sub(s, k))
    else TakenSettled(env, u.m[k], a.m[k], Sub(s, k))
  }

  /** The first merge of the second call. */
  function UserAgain(env: Env, p: Json, u: Json, a: Json, s: Schema): (c: Json)
    requires p.Obj? && u.Obj? && a.Obj?
    ensures c.Obj?
  {
    Merge(env, p, Absorb(env, p, u, a, s), s)
  }

  /** Below a key that both the user and the API have a map at. */
  lemma AgainBelow(env: Env, p: Json, u: Json, a: Json, s: Schema, k: string)
    requires Mergeable(p, u, s) && Mergeable(Merge(env, p, u, s), a, s) && BothMaps(u, a, k)
    ensures var c, c' := Merge(env, p, u, s), UserAgain(env, p, u, a, s);
            && BothMaps(c, a, k) && BothMaps(c', a, k)
            && Merge(env, c, a, s).m[k] == Merge(env, c.m[k], a.m[k], Sub(s, k))
            && Merge(env, c', a, s).m[k] == Merge(env, c'.m[k], a.m[k], Sub(s, k))
            && if k in p.m && p.m[k].Obj?
               then && Mergeable(p.m[k], u.m[k], Sub(s, k)) && Mergeable(Merge(env, p.m[k], u.m[k], Sub(s, k)), a.m[k], Sub(s, k))
                    && c.m[k] == Merge(env, p.m[k], u.m[k], Sub(s, k))
                    && c'.m[k] == UserAgain(env, p.m[k], u.m[k], a.m[k], Sub(s, k))
               else && Mergeable(u.m[k], a.m[k], Sub(s, k))
                    && c.m[k] == u.m[k] && c'.m[k] == Merge(env, u.m[k], a.m[k], Sub(s, k))
  {}

  /** Where they do not, nothing has changed. */
  lemma AgainBeside(env: Env, p: Json, u: Json, a: Json, s: Schema, k: string)
    requires Mergeable(p, u, s) && Mergeable(Merge(env, p, u, s), a, s) && !BothMaps(u, a, k)
    ensures var c, c' := Merge(env, p, u, s), UserAgain(env, p, u, a, s);
            && (k in c'.m <==> k in c.m) && (k in c.m ==> c'.m[k] == c.m[k])
            && (k in a.m ==> if BothMaps(c', a, k) then Mergeable(c'.m[k], a.m[k], Sub(s, k)) else Accepts(a.m[k], Sub(s, k).typ))
            && (k in u.m ==> Absorb(env, p, u, a, s).m[k] == u.m[k])
  {}

  /** The changed user configuration can be merged again. */
  lemma {:induction false} AbsorbMergeable(env: Env, p: Json, u: Json, a: Json, s: Schema)
    requires Mergeable(p, u, s) && a.Obj?
    ensures Mergeable(p, Absorb(env, p, u, a, s), s)
    decreases u
  {
    var u' := Absorb(env, p, u, a, s);
    forall k | k in u'.m
      ensures if BothMaps(p, u', k) then Mergeable(p.m[k], u'.m[k], Sub(s, k)) else Accepts(u'.m[k], Sub(s, k).typ)
    {
      if BothMaps(u, a, k) && BothMaps(p, u, k) { AbsorbMergeable(env, p.m[k], u.m[k], a.m[k], Sub(s, k)); }
    }
  }

  /** The options are the same again, and computed without a failed type assertion, exactly when the
      adopted maps are settled. */
  lemma {:induction false} OptionsAgain(env: Env, p: Json, u: Json, a: Json, s: Schema)
    requires Mergeable(p, u, s) && Mergeable(Merge(env, p, u, s), a, s)
    ensures var c' := UserAgain(env, p, u, a, s);
            AdoptedSettled(env, p, u, a, s) <==>
            Mergeable(c', a, s) && Merge(env, c', a, s) == Options(env, p, u, a, s)
    decreases u
  {
    var c, c' := Merge(env, p, u, s), UserAgain(env, p, u, a, s);
    var r, r' := Merge(env, c, a, s), Merge(env, c', a, s);
    forall k | k in u.m && BothMaps(u, a, k)
      ensures BothMaps(c', a, k)
      ensures AdoptedSettledAt(env, p, u, a, s, k) <==> Mergeable(c'.m[k], a.m[k], Sub(s, k)) && r'.m[k] == r.m[k]
    {
      AgainBelow(env, p, u, a, s, k);
      if k in p.m && p.m[k].Obj? { OptionsAgain(env, p.m[k], u.m[k], a.m[k], Sub(s, k)); }
      else { MergeAgain(env, u.m[k], a.m[k], Sub(s, k)); }
    }
    AllAgainBeside(env, p, u, a, s);
    if AdoptedSettled(env, p, u, a, s) { assert r'.m == r.m by { assert forall k | k in r.m :: r'.m[k] == r.m[k]; } }
  }

  lemma AllAgainBeside(env: Env, p: Json, u: Json, a: Json, s: Schema)
    requires Mergeable(p, u, s) && Mergeable(Merge(env, p, u, s), a, s)
    ensures var c, c' := Merge(env, p, u, s), UserAgain(env, p, u, a, s);
            var r, r' := Merge(env, c, a, s), Merge(env, c', a, s);
            && r'.m.Keys == r.m.Keys
            && (forall k | k in r.m && !BothMaps(u, a, k) :: r'.m[k] == r.m[k])
            && (forall k | k in a.m && !BothMaps(u, a, k) ::
                  if BothMaps(c', a, k) then Mergeable(c'.m[k], a.m[k], Sub(s, k)) else Accepts(a.m[k], Sub(s, k).typ))
  {
    var c, c' := Merge(env, p, u, s), UserAgain(env, p, u, a, s);
    forall k | !BothMaps(u, a, k)
      ensures (k in c'.m <==> k in c.m) && (k in c.m ==> c'.m[k] == c.m[k])
      ensures k in a.m ==> if BothMaps(c', a, k) then Mergeable(c'.m[k], a.m[k], Sub(s, k)) else Accepts(a.m[k], Sub(s, k).typ)
    {
      AgainBeside(env, p, u, a, s, k);
    }
    assert c'.m.Keys == c.m.Keys;
  }

  // ---------------------------------------------------------------- the API configuration

  /** Paths at which two configurations hold the very same map. */
  type Paths = iset<Path>

  ghost function Tail(S: Paths, k: string): Paths { iset q: Path | [k] + q in S }

  /** What a merge makes of the API configuration: its maps at the paths `S` are merged into themselves. */
  ghost function Rewritten(env: Env, a: Json, s: Schema, S: Paths): (r: Json)
    requires a.Obj?
    ensures r.Obj?
    decreases a
  {
    Obj(map k | k in a.m ::
          if a.m[k].Obj? then Rewritten(env, a.m[k], Sub(s, k), Tail(S, k))
          else if [] in S then Transform(env, a.m[k], Sub(s, k).typ)
          else a.m[k])
  }

  /** The values in the maps at the paths `S` are fixed points of the transformers. */
  ghost predicate FixedOn(env: Env, a: Json, s: Schema, S: Paths)
    requires a.Obj?
    decreases a
  {
    forall k | k in a.m ::
      if a.m[k].Obj? then FixedOn(env, a.m[k], Sub(s, k), Tail(S, k))
      else [] in S ==> Transform(env, a.m[k], Sub(s, k).typ) == a.m[k]
  }

  lemma {:induction false} RewrittenSame(env: Env, a: Json, s: Schema, S: Paths)
    requires a.Obj?
    ensures Rewritten(env, a, s, S) == a <==> FixedOn(env, a, s, S)
    decreases a
  {
    var r := Rewritten(env, a, s, S);
    forall k | k in a.m && a.m[k].Obj? ensures r.m[k] == a.m[k] <==> FixedOn(env, a.m[k], Sub(s, k), Tail(S, k)) {
      RewrittenSame(env, a.m[k], Sub(s, k), Tail(S, k));
    }
    assert r.m.Keys == a.m.Keys;
    if FixedOn(env, a, s, S) { assert forall k | k in a.m :: r.m[k] == a.m[k]; }
  }

  lemma {:induction false} FixedOnUnion(env: Env, a: Json, s: Schema, S: Paths, T: Paths)
    requires a.Obj?
    ensures FixedOn(env, a, s, S + T) <==> FixedOn(env, a, s, S) && FixedOn(env, a, s, T)
    decreases a
  {
    forall k | k in a.m && a.m[k].Obj?
      ensures FixedOn(env, a.m[k], Sub(s, k), Tail(S + T, k)) <==>
              FixedOn(env, a.m[k], Sub(s, k), Tail(S, k)) && FixedOn(env, a.m[k], Sub(s, k), Tail(T, k))
    {
      assert Tail(S + T, k) == Tail(S, k) + Tail(T, k);
      FixedOnUnion(env, a.m[k], Sub(s, k), Tail(S, k), Tail(T, k));
    }
  }

  lemma FixedOnLess(env: Env, a: Json, s: Schema, S: Paths, T: Paths)
    requires a.Obj? && T <= S && FixedOn(env, a, s, S)
    ensures FixedOn(env, a, s, T)
  {
    assert S + T == S;
    FixedOnUnion(env, a, s, S, T);
  }

  lemma {:induction false} FixedOnNothing(env: Env, a: Json, s: Schema)
    requires a.Obj?
    ensures FixedOn(env, a, s, iset{})
    decreases a
  {
    forall k | k in a.m && a.m[k].Obj? ensures FixedOn(env, a.m[k], Sub(s, k), Tail(iset{}, k)) {
      assert Tail(iset{}, k) == iset{};
      FixedOnNothing(env, a.m[k], Sub(s, k));
    }
  }

  /** The value that a lookup of `keys` ends at is a fixed point, if its map is merged into itself. */
  ghost predicate LookupFixed(env: Env, a: Json, s: Schema, S: Paths, keys: Path)
    requires a.Obj?
    decreases |keys|
  {
    if keys == [] then true
    else if keys[0] !in a.m then LookupFixed(env, a, s, S, keys[1..])
    else if a.m[keys[0]].Obj? then LookupFixed(env, a.m[keys[0]], Sub(s, keys[0]), Tail(S, keys[0]), keys[1..])
    else [] in S ==> Transform(env, a.m[keys[0]], Sub(s, keys[0]).typ) == a.m[keys[0]]
  }

  /** The hosts stay the same exactly when the value found is fixed. */
  lemma {:induction false} LookupKept(env: Env, a: Json, s: Schema, S: Paths, keys: Path)
    requires a.Obj?
    ensures LookupFixed(env, a, s, S, keys) <==> GetConfigVal(Rewritten(env, a, s, S), keys) == GetConfigVal(a, keys)
    ensures FixedOn(env, a, s, S) ==> LookupFixed(env, a, s, S, keys)
    decreases |keys|
  {
    if keys != [] {
      if keys[0] !in a.m { LookupKept(env, a, s, S, keys[1..]); }
      else if a.m[keys[0]].Obj? { LookupKept(env, a.m[keys[0]], Sub(s, keys[0]), Tail(S, keys[0]), keys[1..]); }
    }
  }

  // ---------------------------------------------------------------- which maps are adopted

  predicate TakenAt(u: Json, a: Json, r: Path)
    requires u.Obj? && a.Obj?
    decreases |r|
  {
    r != [] && r[0] in a.m && a.m[r[0]].Obj? &&
    if BothMaps(u, a, r[0]) then TakenAt(u.m[r[0]], a.m[r[0]], r[1..]) else IsMap(a.m[r[0]], r[1..])
  }

  /** One `Options` call stores the API's map at path `r` in the user configuration. */
  predicate AdoptedAt(p: Json, u: Json, a: Json, r: Path)
    requires p.Obj? && u.Obj? && a.Obj?
    decreases |r|
  {
    r != [] && BothMaps(u, a, r[0]) &&
    if r[0] in p.m && p.m[r[0]].Obj? then AdoptedAt(p.m[r[0]], u.m[r[0]], a.m[r[0]], r[1..])
    else TakenAt(u.m[r[0]], a.m[r[0]], r[1..])
  }

  ghost function Maps(a: Json): Paths { iset r: Path | IsMap(a, r) }

  ghost function Taken(u: Json, a: Json): Paths
    requires u.Obj? && a.Obj?
  {
    iset r: Path | TakenAt(u, a, r)
  }

  ghost function Adopted(p: Json, u: Json, a: Json): Paths
    requires p.Obj? && u.Obj? && a.Obj?
  {
    iset r: Path | AdoptedAt(p, u, a, r)
  }

  lemma Front(k: string, q: Path)
    ensures ([k] + q)[0] == k && ([k] + q)[1..] == q
  {}

  lemma TailOfMaps(a: Json, k: string)
    requires a.Obj? && k in a.m
    ensures Tail(Maps(a), k) == Maps(a.m[k])
    ensures [] in Maps(a)
  {
    forall q ensures IsMap(a, [k] + q) <==> IsMap(a.m[k], q) { Front(k, q); }
  }

  lemma TailOfTaken(u: Json, a: Json, k: string)
    requires u.Obj? && a.Obj? && k in a.m && a.m[k].Obj?
    ensures Tail(Taken(u, a), k) == if BothMaps(u, a, k) then Taken(u.m[k], a.m[k]) else Maps(a.m[k])
    ensures [] !in Taken(u, a)
  {
    forall q ensures TakenAt(u, a, [k] + q) <==> if BothMaps(u, a, k) then TakenAt(u.m[k], a.m[k], q) else IsMap(a.m[k], q) {
      Front(k, q);
    }
  }

  lemma TailOfAdopted(p: Json, u: Json, a: Json, k: string)
    requires p.Obj? && u.Obj? && a.Obj? && k in a.m && a.m[k].Obj?
    ensures Tail(Adopted(p, u, a), k) ==
            if !BothMaps(u, a, k) then iset{}
            else if k in p.m && p.m[k].Obj? then Adopted(p.m[k], u.m[k], a.m[k])
            else Taken(u.m[k], a.m[k])
    ensures [] !in Adopted(p, u, a)
  {
    forall q ensures AdoptedAt(p, u, a, [k] + q) <==>
                     (BothMaps(u, a, k) &&
                      if k in p.m && p.m[k].Obj? then AdoptedAt(p.m[k], u.m[k], a.m[k], q) else TakenAt(u.m[k], a.m[k], q))
    {
      Front(k, q);
    }
  }

  lemma NoMapBelow(v: Json, r: Path)
    ensures !v.Obj? ==> !IsMap(v, r)
  {}

  /** The shared maps that a configuration still shares when it has maps of its own along `p`. */
  ghost function Through(S: Paths, p: Json): Paths { iset r: Path | r in S && !IsMap(p, r) }

  lemma {:induction false} AdoptedNotIn(p: Json, u: Json, a: Json, r: Path)
    requires p.Obj? && u.Obj? && a.Obj?
    ensures AdoptedAt(p, u, a, r) ==> !IsMap(p, r)
    decreases |r|
  {
    if r != [] && BothMaps(u, a, r[0]) && r[0] in p.m {
      if p.m[r[0]].Obj? { AdoptedNotIn(p.m[r[0]], u.m[r[0]], a.m[r[0]], r[1..]); } else { NoMapBelow(p.m[r[0]], r[1..]); }
    }
  }

  /** Where mantl.json has a map nothing is adopted. */
  lemma AdoptedThrough(p: Json, u: Json, a: Json)
    requires p.Obj? && u.Obj? && a.Obj?
    ensures Through(Adopted(p, u, a), p) == Adopted(p, u, a)
  {
    forall r ensures AdoptedAt(p, u, a, r) ==> !IsMap(p, r) { AdoptedNotIn(p, u, a, r); }
  }

  lemma {:induction false} NothingTaken(env: Env, u: Json, a: Json, s: Schema, r: Path)
    requires u.Obj? && a.Obj?
    ensures !TakenAt(Merge(env, u, a, s), a, r)
    decreases |r|
  {
    if r != [] && r[0] in a.m && a.m[r[0]].Obj? {
      var k := r[0];
      if BothMaps(u, a, k) { NothingTaken(env, u.m[k], a.m[k], Sub(s, k), r[1..]); } else { NothingTakenFrom(a.m[k], r[1..]); }
    }
  }

  lemma {:induction false} NothingTakenFrom(a: Json, r: Path)
    requires a.Obj?
    ensures !TakenAt(a, a, r)
    decreases |r|
  {
    if r != [] && r[0] in a.m && a.m[r[0]].Obj? { NothingTakenFrom(a.m[r[0]], r[1..]); }
  }

  lemma {:induction false} NothingAdoptedAt(env: Env, p: Json, u: Json, a: Json, s: Schema, r: Path)
    requires p.Obj? && u.Obj? && a.Obj?
    ensures !AdoptedAt(p, Absorb(env, p, u, a, s), a, r)
    decreases |r|
  {
    if r != [] && BothMaps(u, a, r[0]) {
      var k := r[0];
      if k in p.m && p.m[k].Obj? { NothingAdoptedAt(env, p.m[k], u.m[k], a.m[k], Sub(s, k), r[1..]); }
      else { NothingTaken(env, u.m[k], a.m[k], Sub(s, k), r[1..]); }
    }
  }

  lemma {:induction false} AllTaken(env: Env, a: Json, s: Schema)
    requires a.Obj?
    ensures TakenSettled(env, a, a, s)
    decreases a
  {
    forall k | k in a.m && a.m[k].Obj? ensures TakenSettled(env, a.m[k], a.m[k], Sub(s, k)) { AllTaken(env, a.m[k], Sub(s, k)); }
  }

  lemma {:induction false} TakenOnce(env: Env, u: Json, a: Json, s: Schema)
    requires u.Obj? && a.Obj?
    ensures TakenSettled(env, Merge(env, u, a, s), a, s)
    decreases a
  {
    var r := Merge(env, u, a, s);
    forall k | k in a.m && a.m[k].Obj? ensures BothMaps(r, a, k) && TakenSettled(env, r.m[k], a.m[k], Sub(s, k)) {
      if BothMaps(u, a, k) { TakenOnce(env, u.m[k], a.m[k], Sub(s, k)); } else { AllTaken(env, a.m[k], Sub(s, k)); }
    }
  }

  lemma {:induction false} AdoptedSettledOnce(env: Env, p: Json, u: Json, a: Json, s: Schema)
    requires p.Obj? && u.Obj? && a.Obj?
    ensures AdoptedSettled(env, p, Absorb(env, p, u, a, s), a, s)
    decreases u
  {
    var u' := Absorb(env, p, u, a, s);
    forall k | k in u'.m && BothMaps(u', a, k) ensures AdoptedSettledAt(env, p, u', a, s, k) {
      if k in p.m && p.m[k].Obj? { AdoptedSettledOnce(env, p.m[k], u.m[k], a.m[k], Sub(s, k)); }
      else { TakenOnce(env, u.m[k], a.m[k], Sub(s, k)); }
    }
  }

  /** A second call adopts nothing new. */
  lemma AdoptedOnce(env: Env, p: Json, u: Json, a: Json, s: Schema)
    requires p.Obj? && u.Obj? && a.Obj?
    ensures Adopted(p, Absorb(env, p, u, a, s), a) == iset{}
    ensures AdoptedSettled(env, p, Absorb(env, p, u, a, s), a, s)
  {
    forall r ensures !AdoptedAt(p, Absorb(env, p, u, a, s), a, r) { NothingAdoptedAt(env, p, u, a, s, r); }
    AdoptedSettledOnce(env, p, u, a, s);
  }

  lemma {:induction false} MapsFixed(env: Env, a: Json, s: Schema)
    requires a.Obj?
    ensures Settled(env, a, s) <==> Mergeable(a, a, s) && FixedOn(env, a, s, Maps(a))
    decreases a
  {
    forall k | k in a.m && a.m[k].Obj?
      ensures Settled(env, a.m[k], Sub(s, k)) <==>
              Mergeable(a.m[k], a.m[k], Sub(s, k)) && FixedOn(env, a.m[k], Sub(s, k), Tail(Maps(a), k))
    {
      TailOfMaps(a, k);
      MapsFixed(env, a.m[k], Sub(s, k));
    }
    assert [] in Maps(a);
  }

  lemma {:induction false} TakenFixed(env: Env, u: Json, a: Json, s: Schema)
    requires Mergeable(u, a, s)
    ensures TakenSettled(env, u, a, s) <==> Mergeable(Merge(env, u, a, s), a, s) && FixedOn(env, a, s, Taken(u, a))
    decreases a
  {
    var r := Merge(env, u, a, s);
    forall k | k in a.m && a.m[k].Obj?
      ensures BothMaps(r, a, k)
      ensures (if BothMaps(u, a, k) then TakenSettled(env, u.m[k], a.m[k], Sub(s, k)) else Settled(env, a.m[k], Sub(s, k))) <==>
              Mergeable(r.m[k], a.m[k], Sub(s, k)) && FixedOn(env, a.m[k], Sub(s, k), Tail(Taken(u, a), k))
    {
      TailOfTaken(u, a, k);
      if BothMaps(u, a, k) { TakenFixed(env, u.m[k], a.m[k], Sub(s, k)); } else { MapsFixed(env, a.m[k], Sub(s, k)); }
    }
    assert [] !in Taken(u, a);
  }

  /** Exactly when the adopted maps are settled, the next call trips no type assertion on them and
      leaves them, and so the API configuration, as they are. */
  lemma {:induction false} AdoptedFixed(env: Env, p: Json, u: Json, a: Json, s: Schema)
    requires Mergeable(p, u, s) && Mergeable(Merge(env, p, u, s), a, s)
    ensures AdoptedSettled(env, p, u, a, s) <==>
            Mergeable(UserAgain(env, p, u, a, s), a, s) && FixedOn(env, a, s, Adopted(p, u, a))
    decreases u
  {
    var c' := UserAgain(env, p, u, a, s);
    forall k | k in u.m && BothMaps(u, a, k)
      ensures BothMaps(c', a, k)
      ensures AdoptedSettledAt(env, p, u, a, s, k) <==>
              Mergeable(c'.m[k], a.m[k], Sub(s, k)) && FixedOn(env, a.m[k], Sub(s, k), Tail(Adopted(p, u, a), k))
    {
      AgainBelow(env, p, u, a, s, k);
      TailOfAdopted(p, u, a, k);
      if k in p.m && p.m[k].Obj? { AdoptedFixed(env, p.m[k], u.m[k], a.m[k], Sub(s, k)); }
      else { TakenFixed(env, u.m[k], a.m[k], Sub(s, k)); }
    }
    forall k | k in a.m && a.m[k].Obj? && !BothMaps(u, a, k) ensures FixedOn(env, a.m[k], Sub(s, k), Tail(Adopted(p, u, a), k)) {
      TailOfAdopted(p, u, a, k);
      FixedOnNothing(env, a.m[k], Sub(s, k));
    }
    AllAgainBeside(env, p, u, a, s);
    assert [] !in Adopted(p, u, a);
  }

  // ---------------------------------------------------------------- the configuration of an install

  predicate TextFixed(hosts: string, text: string, typ: Type) {
    typ == StringType ==> hosts == ZK_PLACEHOLDER || !Contains(text, ZK_PLACEHOLDER)
  }

  /** Every text of `t` that the schema declares a string is left alone by the host replacement, and
      every bool is declared neither a string nor a number. */
  predicate FlatFixed(hosts: string, t: Json, s: Schema)
    requires t.Obj?
  {
    forall k | k in t.m ::
      && (t.m[k].Str? ==> TextFixed(hosts, t.m[k].s, Sub(s, k).typ))
      && (t.m[k].Bool? ==> Sub(s, k).typ !in {StringType, IntegerType, NumberType})
  }

  lemma WithHostsFixed(env: Env, text: string)
    ensures WithHosts(env, text) == text <==>
            env.hosts.None? || env.hosts.value == ZK_PLACEHOLDER || !Contains(text, ZK_PLACEHOLDER)
  {
    if env.hosts.Some? && Contains(text, ZK_PLACEHOLDER) {
      if env.hosts.value == ZK_PLACEHOLDER { ReplaceBySelf(text, ZK_PLACEHOLDER); }
      else { OccurrenceChanges(text, ZK_PLACEHOLDER, env.hosts.value); }
    }
  }

  /** When the whole API configuration that an install builds is settled: no text of it that the schema
      declares a string holds the placeholder, unless the hosts are the placeholder itself; and its
      one bool is not declared a string or a number. */
  lemma ApiConfigSettled(env: Env, hosts: string, mesos: Option<MesosConfig>, s: Schema)
    requires env.hosts == HostsOf(ApiConfig(hosts, mesos))
    ensures env.hosts == Some(hosts)
    ensures var sm := Sub(s, MANTL);
            Settled(env, ApiConfig(hosts, mesos), s) <==>
            FlatFixed(hosts, ZkConfig(hosts), Sub(sm, ZOOKEEPER)) &&
            (mesos.Some? ==> FlatFixed(hosts, MesosTree(mesos.value), Sub(sm, MESOS)))
  {
    ApiHosts(hosts, mesos);
    var a, m, sm := ApiConfig(hosts, mesos), MantlConfig(hosts, mesos), Sub(s, MANTL);
    assert Settled(env, a, s) <==> Settled(env, m, sm) by { assert a.m.Keys == {MANTL}; }
    FlatSettled(env, hosts, ZkConfig(hosts), Sub(sm, ZOOKEEPER));
    if mesos.Some? {
      FlatSettled(env, hosts, MesosTree(mesos.value), Sub(sm, MESOS));
      assert m.m.Keys == {ZOOKEEPER, MESOS};
    } else {
      assert m.m.Keys == {ZOOKEEPER};
    }
  }

  lemma ApiHosts(hosts: string, mesos: Option<MesosConfig>)
    ensures HostsOf(ApiConfig(hosts, mesos)) == Some(hosts)
  {
    assert HOSTS_PATH[1..] == [ZOOKEEPER, HOSTS] && [ZOOKEEPER, HOSTS][1..] == [HOSTS];
    assert GetConfigVal(ApiConfig(hosts, mesos), HOSTS_PATH) == GetConfigVal(MantlConfig(hosts, mesos), [ZOOKEEPER, HOSTS])
           == GetConfigVal(ZkConfig(hosts), [HOSTS]) == Some(Str(hosts));
  }

  lemma FlatSettled(env: Env, hosts: string, t: Json, s: Schema)
    requires env.hosts == Some(hosts) && t.Obj? && forall k | k in t.m :: t.m[k].Str? || t.m[k].Bool?
    ensures Settled(env, t, s) <==> FlatFixed(hosts, t, s)
  {
    forall k | k in t.m && t.m[k].Str?
      ensures Transform(env, t.m[k], Sub(s, k).typ) == t.m[k] <==> TextFixed(hosts, t.m[k].s, Sub(s, k).typ)
    {
      WithHostsFixed(env, t.m[k].s);
    }
  }

  /** A request with an empty `mantl` map, and a mantl.json without one, adopts all of the API's maps
      below `mantl`: exactly when the whole API configuration is settled do calls leave it as it is. */
  lemma MantlAdopted(env: Env, p: Json, hosts: string, mesos: Option<MesosConfig>, s: Schema)
    requires env.hosts == Some(hosts) && p.Obj? && !(MANTL in p.m && p.m[MANTL].Obj?)
    ensures AdoptedSettled(env, p, Obj(map[MANTL := Obj(map[])]), ApiConfig(hosts, mesos), s) <==>
            Settled(env, ApiConfig(hosts, mesos), s)
  {
    var u, a, sm := Obj(map[MANTL := Obj(map[])]), ApiConfig(hosts, mesos), Sub(s, MANTL);
    var m := MantlConfig(hosts, mesos);
    assert a.m.Keys == {MANTL} && u.m.Keys == {MANTL};
    assert AdoptedSettled(env, p, u, a, s) <==> AdoptedSettledAt(env, p, u, a, s, MANTL);
    assert AdoptedSettledAt(env, p, u, a, s, MANTL) <==> TakenSettled(env, Obj(map[]), m, sm);
    assert forall k | k in m.m :: m.m[k].Obj?;
  }

  /** A request without maps of the API's names adopts nothing, and no call changes the API configuration. */
  lemma NothingAdopted(env: Env, p: Json, u: Json, a: Json, s: Schema)
    requires p.Obj? && u.Obj? && a.Obj? && forall k :: !BothMaps(u, a, k)
    ensures AdoptedSettled(env, p, u, a, s)
  {}
}
