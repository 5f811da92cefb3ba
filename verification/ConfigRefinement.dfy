/** From heaps to trees: the closed form of a heap merge denotes the tree merge, for the merged
    configuration and for a configuration whose maps it adopted on the way. */
module ConfigRefinement {
  import opened ConfigHeap
  import opened ConfigLaws
  import opened ConfigSharing
  import opened ConfigTree
  import opened LiveHosts
  import opened Wrappers

  // ---------------------------------------------------------------- below one key

  lemma MergedBelow(E: Envs, h: Heap, home: Homes, c: ConfigMap, o: ConfigMap, s: Schema, k: string)
    requires Placed(h, home) && c in h && o in h && home[c] == home[o]
    requires k in h[c] && h[c][k].Ref? && k in h[o] && h[o][k].Ref?
    ensures var S := Below(home, home[c] + [k]);
            var hk := Merged(E, h, home, h[c][k].o, h[o][k].o, Sub(s, k));
            Closed(hk, S) && SameOn(hk, Merged(E, h, home, c, o, s), S)
  {
    var hk := Merged(E, h, home, h[c][k].o, h[o][k].o, Sub(s, k));
    assert home[h[c][k].o] == home[c] + [k] && home[h[o][k].o] == home[o] + [k];
    MergedPlaced(E, h, home, h[c][k].o, h[o][k].o, Sub(s, k));
    BelowClosed(hk, home, home[c] + [k]);
    forall x | x in Below(home, home[c] + [k]) { ChildNewFields(E, h, h, home, c, o, s, k, x); }
  }

  lemma MergedBelowSame(E: Envs, h: Heap, home: Homes, c: ConfigMap, o: ConfigMap, s: Schema, k: string)
    requires Placed(h, home) && c in h && o in h && home[c] == home[o]
    requires !(k in h[c] && h[c][k].Ref? && k in h[o] && h[o][k].Ref?)
    ensures var S := Below(home, home[c] + [k]);
            Closed(h, S) && SameOn(h, Merged(E, h, home, c, o, s), S)
  {
    BelowClosed(h, home, home[c] + [k]);
    forall x | x in Below(home, home[c] + [k]) ensures NewFields(E, h, home, c, o, s, x) == h[x] {
      assert home[x][|home[c]|] == (home[c] + [k])[|home[c]|];
      OtherNewFields(E, h, home, c, o, s, x);
    }
  }

  lemma NewRootFields(E: Envs, h: Heap, home: Homes, c: ConfigMap, o: ConfigMap, s: Schema)
    requires Placed(h, home) && c in h && o in h && home[c] == home[o]
    ensures Merged(E, h, home, c, o, s)[c] == MergedFields(E, home[c], h[c], h[o], s)
    ensures forall x | x in h && home[x] == home[c] && x != c :: Merged(E, h, home, c, o, s)[x] == h[x]
  {
    forall x | x in h && home[x] == home[c] && x != c { OtherNewFields(E, h, home, c, o, s, x); }
  }

  // ---------------------------------------------------------------- the merged configuration

  /** The heap merge denotes the tree merge. */
  lemma {:induction false} MergedDenotes(E: Envs, h: Heap, home: Homes, c: ConfigMap, o: ConfigMap, s: Schema, ct: Json, ot: Json)
    requires Placed(h, home) && c in h && o in h && home[c] == home[o]
    requires Denotes(h, Ref(c), ct) && Denotes(h, Ref(o), ot)
    ensures Denotes(Merged(E, h, home, c, o, s), Ref(c), MergeAt(E, home[c], ct, ot, s))
    decreases ct, 1
  {
    NewRootFields(E, h, home, c, o, s);
    forall k | k in MergeAt(E, home[c], ct, ot, s).m
      ensures Denotes(Merged(E, h, home, c, o, s), MergedFields(E, home[c], h[c], h[o], s)[k], MergeAt(E, home[c], ct, ot, s).m[k])
    {
      MergedDenotesAt(E, h, home, c, o, s, ct, ot, k);
    }
  }

  lemma {:induction false} MergedDenotesAt(E: Envs, h: Heap, home: Homes, c: ConfigMap, o: ConfigMap, s: Schema, ct: Json, ot: Json, k: string)
    requires Placed(h, home) && c in h && o in h && home[c] == home[o]
    requires Denotes(h, Ref(c), ct) && Denotes(h, Ref(o), ot) && k in MergeAt(E, home[c], ct, ot, s).m
    ensures Denotes(Merged(E, h, home, c, o, s), MergedFields(E, home[c], h[c], h[o], s)[k], MergeAt(E, home[c], ct, ot, s).m[k])
    decreases ct, 0
  {
    if k in ct.m { assert Denotes(h, h[c][k], ct.m[k]); }
    if k in ot.m { assert Denotes(h, h[o][k], ot.m[k]); }
    if BothMaps(ct, ot, k) {
      var h' := Merged(E, h, home, c, o, s);
      assert home[h[c][k].o] == home[c] + [k] && home[h[o][k].o] == home[o] + [k];
      MergedBelow(E, h, home, c, o, s, k);
      MergedDenotes(E, h, home, h[c][k].o, h[o][k].o, Sub(s, k), ct.m[k], ot.m[k]);
      DenotesFrame(Merged(E, h, home, h[c][k].o, h[o][k].o, Sub(s, k)), h', Below(home, home[c] + [k]),
                   h[c][k], MergeAt(E, home[c] + [k], ct.m[k], ot.m[k], Sub(s, k)));
    } else {
      CopiedDenotes(E, h, home, c, o, s, if k in ot.m then h[o][k] else h[c][k], if k in ot.m then ot.m[k] else ct.m[k], k);
    }
  }

  /** A value at a key where not both have a map denotes afterwards what it did, up to its transformation. */
  lemma CopiedDenotes(E: Envs, h: Heap, home: Homes, c: ConfigMap, o: ConfigMap, s: Schema, v: Value, t: Json, k: string)
    requires Placed(h, home) && c in h && o in h && home[c] == home[o]
    requires !(k in h[c] && h[c][k].Ref? && k in h[o] && h[o][k].Ref?)
    requires Denotes(h, v, t) && (v.Ref? ==> v.o in h && home[v.o] == home[c] + [k])
    ensures Denotes(Merged(E, h, home, c, o, s), v, t)
    ensures forall typ :: Denotes(Merged(E, h, home, c, o, s), TransformValue(E(home[c] + [k]), v, typ), Transform(E(home[c] + [k]), t, typ))
  {
    MergedBelowSame(E, h, home, c, o, s, k);
    DenotesFrame(h, Merged(E, h, home, c, o, s), Below(home, home[c] + [k]), v, t);
  }

  // ---------------------------------------------------------------- what stays as it is

  /** A merge into a closed region leaves every map outside it alone. */
  lemma OutsideUntouched(E: Envs, h: Heap, home: Homes, c: ConfigMap, o: ConfigMap, s: Schema, O: set<ConfigMap>, R: set<ConfigMap>)
    requires Placed(h, home) && c in O && o in h
    requires Closed(h, O) && R <= h.Keys && O !! R
    ensures SameOn(h, Merged(E, h, home, c, o, s), R)
  {
    forall x | x in R ensures NewFields(E, h, home, c, o, s, x) == h[x] {
      if home[c] <= home[x] { MapAtFrame(h, h, O, c, home[x][|home[c]|..]); }
    }
  }

  /** A closed region that holds the override stays closed. */
  lemma MergedClosed(E: Envs, h: Heap, home: Homes, c: ConfigMap, o: ConfigMap, s: Schema, R: set<ConfigMap>)
    requires Placed(h, home) && c in h && o in R && Closed(h, R)
    ensures Closed(Merged(E, h, home, c, o, s), R)
  {
    forall x | x in R && home[c] <= home[x] { MapAtFrame(h, h, R, o, home[x][|home[c]|..]); }
  }

  // ---------------------------------------------------------------- the override, where it shares maps

  /** The paths at which two configurations hold the very same map. */
  ghost function Common(h: Heap, c: ConfigMap, o: ConfigMap): Paths {
    iset r: Path | MapAt(h, c, r).Some? && MapAt(h, c, r) == MapAt(h, o, r)
  }

  lemma CommonTail(h: Heap, c: ConfigMap, o: ConfigMap, k: string)
    requires c in h && o in h
    ensures Tail(Common(h, c, o), k) ==
            if k in h[c] && h[c][k].Ref? && k in h[o] && h[o][k].Ref? then Common(h, h[c][k].o, h[o][k].o) else iset{}
    ensures [] in Common(h, c, o) <==> c == o
  {
    forall q ensures ([k] + q)[0] == k && ([k] + q)[1..] == q {}
  }

  /** What the merge makes of the override: the maps that the configuration shares with it, at the
      same paths, are merged into themselves, and the others keep their contents. */
  lemma {:induction false} RewrittenDenotes(E: Envs, h: Heap, home: Homes, c: ConfigMap, o: ConfigMap, s: Schema, at: Json)
    requires Placed(h, home) && c in h && o in h && home[c] == home[o]
    requires Denotes(h, Ref(o), at)
    ensures Denotes(Merged(E, h, home, c, o, s), Ref(o), RewrittenAt(E, home[c], at, s, Common(h, c, o)))
    decreases at, 1
  {
    var h', t := Merged(E, h, home, c, o, s), RewrittenAt(E, home[c], at, s, Common(h, c, o));
    NewRootFields(E, h, home, c, o, s);
    assert h'[o].Keys == h[o].Keys;
    forall k | k in at.m ensures Denotes(h', h'[o][k], t.m[k]) {
      RewrittenDenotesAt(E, h, home, c, o, s, at, k);
    }
  }

  lemma {:induction false} RewrittenDenotesAt(E: Envs, h: Heap, home: Homes, c: ConfigMap, o: ConfigMap, s: Schema, at: Json, k: string)
    requires Placed(h, home) && c in h && o in h && home[c] == home[o]
    requires Denotes(h, Ref(o), at) && k in at.m
    ensures var h' := Merged(E, h, home, c, o, s);
            k in h'[o] && Denotes(h', h'[o][k], RewrittenAt(E, home[c], at, s, Common(h, c, o)).m[k])
    decreases at, 0
  {
    var h' := Merged(E, h, home, c, o, s);
    NewRootFields(E, h, home, c, o, s);
    CommonTail(h, c, o, k);
    assert Denotes(h, h[o][k], at.m[k]);
    if at.m[k].Obj? {
      if k in h[c] && h[c][k].Ref? {
        var hk := Merged(E, h, home, h[c][k].o, h[o][k].o, Sub(s, k));
        assert home[h[c][k].o] == home[c] + [k] && home[h[o][k].o] == home[o] + [k];
        RewrittenDenotes(E, h, home, h[c][k].o, h[o][k].o, Sub(s, k), at.m[k]);
        MergedBelow(E, h, home, c, o, s, k);
        DenotesFrame(hk, h', Below(home, home[c] + [k]), h[o][k],
                     RewrittenAt(E, home[c] + [k], at.m[k], Sub(s, k), Common(h, h[c][k].o, h[o][k].o)));
      } else {
        MergedBelowSame(E, h, home, c, o, s, k);
        DenotesFrame(h, h', Below(home, home[c] + [k]), h[o][k], at.m[k]);
        RewrittenNothing(E, home[c] + [k], at.m[k], Sub(s, k));
      }
    }
  }

  // ---------------------------------------------------------------- the hosts on the way

  /** The override keeps its keys and its sub-maps. */
  lemma OverrideFields(E: Envs, h: Heap, home: Homes, c: ConfigMap, o: ConfigMap, s: Schema, r: Path, x: ConfigMap)
    requires Placed(h, home) && c in h && o in h && home[c] == home[o]
    requires MapAt(h, o, r) == Some(x)
    ensures x in h
    ensures var f := Merged(E, h, home, c, o, s)[x];
            f.Keys == h[x].Keys && forall k | k in f :: if h[x][k].Ref? then f[k] == h[x][k] else f[k].Leaf?
  {
    MapAtHome(h, home, o, r);
    assert home[x][|home[c]|..] == r;
  }

  lemma {:induction false} MapAtMore(h: Heap, o: ConfigMap, r: Path, x: ConfigMap, k: string)
    requires MapAt(h, o, r) == Some(x) && x in h && k in h[x] && h[x][k].Ref? && h[x][k].o in h
    ensures MapAt(h, o, r + [k]) == Some(h[x][k].o)
    decreases |r|
  {
    if r == [] {
      assert MapAt(h, h[x][k].o, []) == Some(h[x][k].o);
    } else {
      assert (r + [k])[1..] == r[1..] + [k];
      MapAtMore(h, h[o][r[0]].o, r[1..], x, k);
    }
  }

  /** At any moment of a merge, a lookup in the override finds what it found before or what it finds
      afterwards; and what it found before as long as that value has not been written. */
  lemma {:induction false} LookupMoment(E: Envs, h: Heap, home: Homes, c: ConfigMap, o: ConfigMap, s: Schema, r: Path, m: ConfigMap, t: Json,
                                        keys: Path, h': Heap)
    requires Placed(h, home) && c in h && o in h && home[c] == home[o]
    requires MapAt(h, o, r) == Some(m) && Denotes(h, Ref(m), t)
    requires Between(h, Merged(E, h, home, c, o, s), h')
    ensures Lookup(h', m, keys) == Lookup(h, m, keys) || Lookup(h', m, keys) == Lookup(Merged(E, h, home, c, o, s), m, keys)
    ensures match EndPath(home[m], t, keys)
            case None => true
            case Some(q) => OldAt(h, h', home, q) ==> Lookup(h', m, keys) == Lookup(h, m, keys)
    decreases |keys|
  {
    if keys != [] {
      var k, h1 := keys[0], Merged(E, h, home, c, o, s);
      OverrideFields(E, h, home, c, o, s, r, m);
      assert Entry(h'[m], k) == Entry(h[m], k) || Entry(h'[m], k) == Entry(h1[m], k);
      if k !in t.m {
        LookupMoment(E, h, home, c, o, s, r, m, t, keys[1..], h');
      } else {
        assert Denotes(h, h[m][k], t.m[k]);
        if t.m[k].Obj? {
          MapAtMore(h, o, r, m, k);
          LookupMoment(E, h, home, c, o, s, r + [k], h[m][k].o, t.m[k], keys[1..], h');
        }
      }
    }
  }

  lemma SameEntries(f: Fields, g: Fields)
    requires forall k :: Entry(f, k) == Entry(g, k)
    ensures f == g
  {
    forall k ensures k in f <==> k in g { assert Entry(f, k) == Entry(g, k); }
    forall k | k in f ensures f[k] == g[k] { assert Entry(f, k) == Entry(g, k); }
  }

  /** A region that is the same before and after is the same at every moment between. */
  lemma SameBetween(h: Heap, h1: Heap, h': Heap, R: set<ConfigMap>)
    requires Between(h, h1, h') && SameOn(h, h1, R)
    ensures SameOn(h, h', R)
  {
    forall x | x in R ensures h[x] == h'[x] {
      forall k ensures Entry(h[x], k) == Entry(h'[x], k) { assert h1[x] == h[x]; }
      SameEntries(h[x], h'[x]);
    }
  }

  // ---------------------------------------------------------------- the maps of the results

  /** The map that the configuration has at `r` after the merge. */
  ghost function MapAfter(h: Heap, c: ConfigMap, o: ConfigMap, r: Path): Option<ConfigMap>
    decreases |r|
  {
    if c !in h || o !in h then None
    else if r == [] then Some(c)
    else if r[0] !in h[o] then MapAt(h, c, r)
    else if h[o][r[0]].Leaf? then None
    else if r[0] in h[c] && h[c][r[0]].Ref? then MapAfter(h, h[c][r[0]].o, h[o][r[0]].o, r[1..])
    else MapAt(h, h[o][r[0]].o, r[1..])
  }

  lemma {:induction false} MergedMapAt(E: Envs, h: Heap, home: Homes, c: ConfigMap, o: ConfigMap, s: Schema, r: Path)
    requires Placed(h, home) && c in h && o in h && home[c] == home[o]
    ensures MapAt(Merged(E, h, home, c, o, s), c, r) == MapAfter(h, c, o, r)
    decreases |r|
  {
    if r != [] {
      var k, h' := r[0], Merged(E, h, home, c, o, s);
      NewRootFields(E, h, home, c, o, s);
      if k in h[c] && h[c][k].Ref? && k in h[o] && h[o][k].Ref? {
        assert home[h[c][k].o] == home[c] + [k] && home[h[o][k].o] == home[o] + [k];
        MergedBelow(E, h, home, c, o, s, k);
        MergedMapAt(E, h, home, h[c][k].o, h[o][k].o, Sub(s, k), r[1..]);
        MapAtFrame(Merged(E, h, home, h[c][k].o, h[o][k].o, Sub(s, k)), h', Below(home, home[c] + [k]), h[c][k].o, r[1..]);
      } else if k in h'[c] && h'[c][k].Ref? {
        MergedBelowSame(E, h, home, c, o, s, k);
        assert home[h'[c][k].o] == home[c] + [k];
        MapAtFrame(h, h', Below(home, home[c] + [k]), h'[c][k].o, r[1..]);
      }
    }
  }

  /** The override holds the same maps at the same paths. */
  lemma {:induction false} OverrideMapAt(E: Envs, h: Heap, home: Homes, c: ConfigMap, o: ConfigMap, s: Schema, r: Path)
    requires Placed(h, home) && c in h && o in h && home[c] == home[o]
    ensures MapAt(Merged(E, h, home, c, o, s), o, r) == MapAt(h, o, r)
    decreases |r|
  {
    if r != [] {
      var k, h' := r[0], Merged(E, h, home, c, o, s);
      NewRootFields(E, h, home, c, o, s);
      if k in h[o] && h[o][k].Ref? {
        assert home[h[o][k].o] == home[o] + [k];
        if k in h[c] && h[c][k].Ref? {
          assert home[h[c][k].o] == home[c] + [k];
          MergedBelow(E, h, home, c, o, s, k);
          OverrideMapAt(E, h, home, h[c][k].o, h[o][k].o, Sub(s, k), r[1..]);
          MapAtFrame(Merged(E, h, home, h[c][k].o, h[o][k].o, Sub(s, k)), h', Below(home, home[c] + [k]), h[o][k].o, r[1..]);
        } else {
          MergedBelowSame(E, h, home, c, o, s, k);
          MapAtFrame(h, h', Below(home, home[c] + [k]), h[o][k].o, r[1..]);
        }
      }
    }
  }

  lemma {:induction false} MapAtIsMap(h: Heap, o: ConfigMap, t: Json, r: Path)
    requires Denotes(h, Ref(o), t)
    ensures MapAt(h, o, r).Some? <==> IsMap(t, r)
    decreases |r|
  {
    if r != [] && r[0] in t.m {
      assert Denotes(h, h[o][r[0]], t.m[r[0]]);
      if t.m[r[0]].Obj? { MapAtIsMap(h, h[o][r[0]].o, t.m[r[0]], r[1..]); }
      else { NoMapBelow(t.m[r[0]], r[1..]); }
    }
  }

  /** Merging `o` into `c` makes `c` hold the map `x` of `o` where it already did, or where it takes it. */
  lemma {:induction false} TakenMapAfter(h: Heap, c: ConfigMap, o: ConfigMap, ct: Json, at: Json, r: Path, x: ConfigMap)
    requires Denotes(h, Ref(c), ct) && Denotes(h, Ref(o), at) && MapAt(h, o, r) == Some(x)
    ensures MapAfter(h, c, o, r) == Some(x) <==> MapAt(h, c, r) == Some(x) || TakenAt(ct, at, r)
    decreases |r|
  {
    if r != [] {
      var k := r[0];
      assert Denotes(h, h[o][k], at.m[k]);
      if k in ct.m { assert Denotes(h, h[c][k], ct.m[k]); }
      if BothMaps(ct, at, k) {
        TakenMapAfter(h, h[c][k].o, h[o][k].o, ct.m[k], at.m[k], r[1..], x);
      } else {
        MapAtIsMap(h, h[o][k].o, at.m[k], r[1..]);
      }
    }
  }

  // ---------------------------------------------------------------- the adopted user maps

  /** `c` was made from `p` by merging `u` in: where `p` had a map, `c` still has a map of its
      own; elsewhere it has taken over the map of `u`. */
  ghost predicate Shares(h: Heap, c: ConfigMap, u: ConfigMap, p: Json, ut: Json)
    decreases ut
  {
    && c != u && c in h && u in h && p.Obj? && ut.Obj?
    && forall k | k in ut.m && ut.m[k].Obj? ::
         && k in h[c] && k in h[u] && h[c][k].Ref? && h[u][k].Ref?
         && if k in p.m && p.m[k].Obj? then Shares(h, h[c][k].o, h[u][k].o, p.m[k], ut.m[k])
            else h[c][k] == h[u][k]
  }

  lemma {:induction false} SharesFrame(h: Heap, h': Heap, S: set<ConfigMap>, c: ConfigMap, u: ConfigMap, p: Json, ut: Json)
    requires Closed(h, S) && SameOn(h, h', S) && c in S && u in S
    requires Shares(h, c, u, p, ut)
    ensures Shares(h', c, u, p, ut)
    decreases ut
  {
    forall k | k in ut.m && ut.m[k].Obj? && k in p.m && p.m[k].Obj? {
      SharesFrame(h, h', S, h[c][k].o, h[u][k].o, p.m[k], ut.m[k]);
    }
  }

  lemma {:induction false} SharesAfter(E: Envs, h: Heap, home: Homes, c: ConfigMap, u: ConfigMap, s: Schema, p: Json, ut: Json,
                                       O: set<ConfigMap>, R: set<ConfigMap>)
    requires Placed(h, home) && Closed(h, O) && Closed(h, R) && O !! R
    requires c in O && u in R && home[c] == home[u]
    requires Denotes(h, Ref(c), p) && Denotes(h, Ref(u), ut)
    ensures Shares(Merged(E, h, home, c, u, s), c, u, p, ut)
    decreases ut, 1
  {
    var h': Heap := Merged(E, h, home, c, u, s);
    NewRootFields(E, h, home, c, u, s);
    assert h'[u] == h[u];
    forall k | k in ut.m && ut.m[k].Obj?
      ensures k in h[u] && h[u][k].Ref? && k in h'[c] && h'[c][k].Ref?
      ensures if k in p.m && p.m[k].Obj? then Shares(h', h'[c][k].o, h[u][k].o, p.m[k], ut.m[k]) else h'[c][k] == h[u][k]
    {
      SharesAfterAt(E, h, home, c, u, s, p, ut, O, R, k);
    }
  }

  lemma {:induction false} SharesAfterAt(E: Envs, h: Heap, home: Homes, c: ConfigMap, u: ConfigMap, s: Schema, p: Json, ut: Json,
                                         O: set<ConfigMap>, R: set<ConfigMap>, k: string)
    requires Placed(h, home) && Closed(h, O) && Closed(h, R) && O !! R
    requires c in O && u in R && home[c] == home[u]
    requires Denotes(h, Ref(c), p) && Denotes(h, Ref(u), ut)
    requires k in ut.m && ut.m[k].Obj?
    ensures k in h[u] && h[u][k].Ref?
    ensures if k in p.m && p.m[k].Obj?
            then k in h[c] && h[c][k].Ref? && Shares(Merged(E, h, home, c, u, s), h[c][k].o, h[u][k].o, p.m[k], ut.m[k])
            else !(k in h[c] && h[c][k].Ref?)
    decreases ut, 0
  {
    assert Denotes(h, h[u][k], ut.m[k]);
    if k in p.m { assert Denotes(h, h[c][k], p.m[k]); }
    if k in p.m && p.m[k].Obj? {
      assert home[h[c][k].o] == home[c] + [k] && home[h[u][k].o] == home[u] + [k];
      SharesAfter(E, h, home, h[c][k].o, h[u][k].o, Sub(s, k), p.m[k], ut.m[k], O, R);
      MergedBelow(E, h, home, c, u, s, k);
      SharesFrame(Merged(E, h, home, h[c][k].o, h[u][k].o, Sub(s, k)), Merged(E, h, home, c, u, s),
                  Below(home, home[c] + [k]), h[c][k].o, h[u][k].o, p.m[k], ut.m[k]);
    }
  }

  /** What the API merge leaves in the user configuration whose maps were taken over. */
  lemma {:induction false} AbsorbDenotes(E: Envs, h: Heap, home: Homes, c: ConfigMap, u: ConfigMap, o: ConfigMap, s: Schema,
                                         p: Json, ut: Json, at: Json)
    requires Placed(h, home) && c in h && u in h && o in h && home[c] == home[u] == home[o]
    requires Shares(h, c, u, p, ut)
    requires Denotes(h, Ref(u), ut) && Denotes(h, Ref(o), at)
    ensures Denotes(Merged(E, h, home, c, o, s), Ref(u), AbsorbAt(E, home[c], p, ut, at, s))
    decreases ut
  {
    var h', t := Merged(E, h, home, c, o, s), AbsorbAt(E, home[c], p, ut, at, s);
    NewRootFields(E, h, home, c, o, s);
    forall k | k in t.m ensures Denotes(h', h'[u][k], t.m[k]) {
      var S := Below(home, home[c] + [k]);
      assert Denotes(h, h[u][k], ut.m[k]);
      if k in at.m { assert Denotes(h, h[o][k], at.m[k]); }
      if BothMaps(ut, at, k) {
        MergedBelow(E, h, home, c, o, s, k);
        if k in p.m && p.m[k].Obj? {
          AbsorbDenotes(E, h, home, h[c][k].o, h[u][k].o, h[o][k].o, Sub(s, k), p.m[k], ut.m[k], at.m[k]);
        } else {
          MergedDenotes(E, h, home, h[c][k].o, h[o][k].o, Sub(s, k), ut.m[k], at.m[k]);
        }
        DenotesFrame(Merged(E, h, home, h[c][k].o, h[o][k].o, Sub(s, k)), h', S, h[u][k], t.m[k]);
      } else if ut.m[k].Obj? {
        MergedBelowSame(E, h, home, c, o, s, k);
        DenotesFrame(h, h', S, h[u][k], t.m[k]);
      }
    }
  }

  /** Freshly parsed options take over a map of the user's exactly where mantl.json has none. */
  lemma {:induction false} UserMapTaken(h: Heap, c: ConfigMap, u: ConfigMap, p: Json, ut: Json, O: set<ConfigMap>, R: set<ConfigMap>,
                                        r: Path, x: ConfigMap)
    requires Closed(h, O) && Closed(h, R) && O !! R && c in O && u in R && x in R
    requires Denotes(h, Ref(c), p) && Denotes(h, Ref(u), ut)
    ensures MapAfter(h, c, u, r) == Some(x) <==> MapAt(h, u, r) == Some(x) && !IsMap(p, r)
    decreases |r|
  {
    if r != [] {
      var k := r[0];
      if k in p.m { assert Denotes(h, h[c][k], p.m[k]); }
      if k in ut.m {
        assert Denotes(h, h[u][k], ut.m[k]);
        if BothMaps(p, ut, k) {
          UserMapTaken(h, h[c][k].o, h[u][k].o, p.m[k], ut.m[k], O, R, r[1..], x);
        } else if k in p.m && !p.m[k].Obj? {
          NoMapBelow(p.m[k], r[1..]);
        }
      } else {
        MapAtFrame(h, h, O, c, r);
      }
    }
  }

  /** What the API merge then leaves in the user's configuration: the API's map at `r` is the user's if
      it already was, or if it is adopted. */
  lemma {:induction false} UserMapAfter(E: Envs, h: Heap, home: Homes, c: ConfigMap, u: ConfigMap, o: ConfigMap, s: Schema,
                                        p: Json, ut: Json, at: Json, r: Path, x: ConfigMap)
    requires Placed(h, home) && c in h && u in h && o in h && home[c] == home[u] == home[o]
    requires Shares(h, c, u, p, ut)
    requires Denotes(h, Ref(u), ut) && Denotes(h, Ref(o), at) && MapAt(h, o, r) == Some(x)
    ensures MapAt(Merged(E, h, home, c, o, s), u, r) == Some(x) <==> MapAt(h, u, r) == Some(x) || AdoptedAt(p, ut, at, r)
    decreases |r|
  {
    var h' := Merged(E, h, home, c, o, s);
    NewRootFields(E, h, home, c, o, s);
    if r != [] {
      var k, S := r[0], Below(home, home[c] + [r[0]]);
      assert Denotes(h, h[o][k], at.m[k]);
      if k in ut.m { assert Denotes(h, h[u][k], ut.m[k]); }
      if BothMaps(ut, at, k) {
        var hk := Merged(E, h, home, h[c][k].o, h[o][k].o, Sub(s, k));
        assert home[h[c][k].o] == home[h[u][k].o] == home[h[o][k].o] == home[c] + [k];
        MergedBelow(E, h, home, c, o, s, k);
        MapAtFrame(hk, h', S, h[u][k].o, r[1..]);
        if k in p.m && p.m[k].Obj? {
          UserMapAfter(E, h, home, h[c][k].o, h[u][k].o, h[o][k].o, Sub(s, k), p.m[k], ut.m[k], at.m[k], r[1..], x);
        } else {
          MergedMapAt(E, h, home, h[c][k].o, h[o][k].o, Sub(s, k), r[1..]);
          TakenMapAfter(h, h[c][k].o, h[o][k].o, ut.m[k], at.m[k], r[1..], x);
        }
      }
    }
  }

  // ---------------------------------------------------------------- Options, as two merges

  /** The shared configurations: the API's and the user's, in a region `R` that no reference leaves. */
  ghost predicate SharedOk(h: Heap, home: Homes, R: set<ConfigMap>, api: ConfigMap, user: ConfigMap, at: Json, ut: Json) {
    && Placed(h, home) && Closed(h, R)
    && api in R && user in R && api != user && home[api] == home[user] == []
    && Denotes(h, Ref(api), at) && Denotes(h, Ref(user), ut)
  }

  lemma SharedFrame(h: Heap, h': Heap, home: Homes, home': Homes, R: set<ConfigMap>, api: ConfigMap, user: ConfigMap, at: Json, ut: Json)
    requires SharedOk(h, home, R, api, user, at, ut)
    requires SameOn(h, h', R) && Placed(h', home') && forall x | x in R :: home'[x] == home[x]
    ensures SharedOk(h', home', R, api, user, at, ut)
    ensures Common(h', user, api) == Common(h, user, api)
  {
    DenotesFrame(h, h', R, Ref(api), at);
    DenotesFrame(h, h', R, Ref(user), ut);
    forall r ensures MapAt(h', user, r) == MapAt(h, user, r) && MapAt(h', api, r) == MapAt(h, api, r) {
      MapAtFrame(h, h', R, user, r);
      MapAtFrame(h, h', R, api, r);
    }
  }

  /** Merging the user configuration into freshly parsed options. */
  lemma UserMerge(E: Envs, h: Heap, home: Homes, c: ConfigMap, O: set<ConfigMap>, R: set<ConfigMap>,
                  api: ConfigMap, user: ConfigMap, s: Schema, p: Json, at: Json, ut: Json)
    requires SharedOk(h, home, R, api, user, at, ut)
    requires Closed(h, O) && O !! R && c in O && home[c] == [] && Denotes(h, Ref(c), p)
    ensures var h' := Merged(E, h, home, c, user, s);
            && SameOn(h, h', R) && SharedOk(h', home, R, api, user, at, ut)
            && Denotes(h', Ref(c), MergeAt(E, home[c], p, ut, s))
            && Shares(h', c, user, p, ut)
            && Common(h', user, api) == Common(h, user, api)
            && Common(h', c, api) == Through(Common(h, user, api), p)
  {
    var h' := Merged(E, h, home, c, user, s);
    OutsideUntouched(E, h, home, c, user, s, O, R);
    MergedDenotes(E, h, home, c, user, s, p, ut);
    SharesAfter(E, h, home, c, user, s, p, ut, O, R);
    MergedPlaced(E, h, home, c, user, s);
    SharedFrame(h, h', home, home, R, api, user, at, ut);
    forall r ensures r in Common(h', c, api) <==> r in Through(Common(h, user, api), p) {
      MapAtFrame(h, h', R, api, r);
      MergedMapAt(E, h, home, c, user, s, r);
      if MapAt(h, api, r).Some? { UserMapTaken(h, c, user, p, ut, O, R, r, MapAt(h, api, r).value); }
    }
  }

  /** Merging the API configuration into the result. */
  lemma ApiMerge(E: Envs, h: Heap, home: Homes, c: ConfigMap, R: set<ConfigMap>,
                 api: ConfigMap, user: ConfigMap, s: Schema, p: Json, pu: Json, at: Json, ut: Json)
    requires SharedOk(h, home, R, api, user, at, ut)
    requires c in h && home[c] == [] && Denotes(h, Ref(c), pu) && Shares(h, c, user, p, ut)
    ensures var h' := Merged(E, h, home, c, api, s);
            && SharedOk(h', home, R, api, user, RewrittenAt(E, home[c], at, s, Common(h, c, api)), AbsorbAt(E, home[c], p, ut, at, s))
            && Denotes(h', Ref(c), MergeAt(E, home[c], pu, at, s))
            && Common(h', user, api) == Common(h, user, api) + Adopted(p, ut, at)
  {
    var h' := Merged(E, h, home, c, api, s);
    MergedDenotes(E, h, home, c, api, s, pu, at);
    RewrittenDenotes(E, h, home, c, api, s, at);
    AbsorbDenotes(E, h, home, c, user, api, s, p, ut, at);
    MergedPlaced(E, h, home, c, api, s);
    MergedClosed(E, h, home, c, api, s, R);
    CommonAfter(E, h, home, c, api, user, s, p, at, ut);
  }

  lemma CommonAfter(E: Envs, h: Heap, home: Homes, c: ConfigMap, api: ConfigMap, user: ConfigMap, s: Schema, p: Json, at: Json, ut: Json)
    requires Placed(h, home) && c in h && user in h && api in h && home[c] == home[user] == home[api]
    requires Denotes(h, Ref(user), ut) && Denotes(h, Ref(api), at) && Shares(h, c, user, p, ut)
    ensures Common(Merged(E, h, home, c, api, s), user, api) == Common(h, user, api) + Adopted(p, ut, at)
  {
    var h' := Merged(E, h, home, c, api, s);
    forall r ensures r in Common(h', user, api) <==> r in Common(h, user, api) + Adopted(p, ut, at) {
      OverrideMapAt(E, h, home, c, api, s, r);
      MapAtIsMap(h, api, at, r);
      AdoptedIsMap(p, ut, at, r);
      if MapAt(h, api, r).Some? {
        UserMapAfter(E, h, home, c, user, api, s, p, ut, at, r, MapAt(h, api, r).value);
      }
    }
  }

  lemma {:induction false} TakenIsMap(u: Json, a: Json, r: Path)
    requires u.Obj? && a.Obj?
    ensures TakenAt(u, a, r) ==> IsMap(a, r)
    decreases |r|
  {
    if r != [] && r[0] in a.m && BothMaps(u, a, r[0]) { TakenIsMap(u.m[r[0]], a.m[r[0]], r[1..]); }
  }

  lemma {:induction false} AdoptedIsMap(p: Json, u: Json, a: Json, r: Path)
    requires p.Obj? && u.Obj? && a.Obj?
    ensures AdoptedAt(p, u, a, r) ==> IsMap(a, r)
    decreases |r|
  {
    if r != [] && BothMaps(u, a, r[0]) {
      if r[0] in p.m && p.m[r[0]].Obj? { AdoptedIsMap(p.m[r[0]], u.m[r[0]], a.m[r[0]], r[1..]); }
      else { TakenIsMap(u.m[r[0]], a.m[r[0]], r[1..]); }
    }
  }
}
