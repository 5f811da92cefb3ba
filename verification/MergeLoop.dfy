/** The loop of `mergeConfig`: after any set of keys, in any order, the heap is the closed form
    for those keys and the starting heap for the others. */
module MergeLoop {
  import opened ConfigHeap
  import opened ConfigTree

  ghost function MixedFields(E: Envs, h0: Heap, p: Path, c: ConfigMap, o: ConfigMap, s: Schema, todo: set<string>): Fields
    requires c in h0 && o in h0
  {
    var f := MergedFields(E, p, h0[c], h0[o], s);
    map k | k in f && (k in todo ==> k in h0[c]) :: if k in todo then h0[c][k] else f[k]
  }

  /** Half-way through a merge of `o` into `c`, with the keys `todo` still to come. */
  ghost predicate LoopState(E: Envs, h0: Heap, h: Heap, home: Homes, c: ConfigMap, o: ConfigMap, s: Schema, todo: set<string>)
    requires Placed(h0, home) && c in h0 && o in h0
  {
    && h.Keys == h0.Keys
    && (forall x | x in h0 && x != c ::
          h[x] == if home[c] < home[x] && home[x][|home[c]|] in todo then h0[x] else NewFields(E, h0, home, c, o, s, x))
    && h[c] == MixedFields(E, h0, home[c], c, o, s, todo)
  }

  lemma LoopPlaced(E: Envs, h0: Heap, h: Heap, home: Homes, c: ConfigMap, o: ConfigMap, s: Schema, todo: set<string>)
    requires Placed(h0, home) && c in h0 && o in h0 && home[c] == home[o]
    requires LoopState(E, h0, h, home, c, o, s, todo)
    ensures Placed(h, home)
  {
    forall x | x in h0 { NewFieldsPlaced(E, h0, home, c, o, s, x); }
    assert NewFields(E, h0, home, c, o, s, c) == MergedFields(E, home[c], h0[c], h0[o], s);
  }

  lemma LoopStart(E: Envs, h0: Heap, home: Homes, c: ConfigMap, o: ConfigMap, s: Schema)
    requires Placed(h0, home) && c in h0 && o in h0 && home[c] == home[o]
    ensures LoopState(E, h0, h0, home, c, o, s, h0[o].Keys)
  {
    forall x | x in h0 && x != c { OtherNewFields(E, h0, home, c, o, s, x); }
    assert MixedFields(E, h0, home[c], c, o, s, h0[o].Keys) == h0[c];
  }

  lemma LoopEnd(E: Envs, h0: Heap, h: Heap, home: Homes, c: ConfigMap, o: ConfigMap, s: Schema)
    requires Placed(h0, home) && c in h0 && o in h0 && home[c] == home[o]
    requires LoopState(E, h0, h, home, c, o, s, {})
    ensures h == Merged(E, h0, home, c, o, s)
  {
    assert MixedFields(E, h0, home[c], c, o, s, {}) == MergedFields(E, home[c], h0[c], h0[o], s);
    assert NewFields(E, h0, home, c, o, s, c) == MergedFields(E, home[c], h0[c], h0[o], s);
  }

  /** What is not yet merged is still as it was, and so is the override. */
  lemma LoopUnmerged(E: Envs, h0: Heap, h: Heap, home: Homes, c: ConfigMap, o: ConfigMap, s: Schema, todo: set<string>, k: string)
    requires Placed(h0, home) && c in h0 && o in h0 && home[c] == home[o]
    requires LoopState(E, h0, h, home, c, o, s, todo) && k in todo && todo <= h0[o].Keys
    ensures SameOn(h0, h, Below(home, home[c] + [k]))
    ensures k in h[o] && h[o][k] == h0[o][k]
    ensures k in h[c] <==> k in h0[c]
    ensures k in h0[c] ==> h[c][k] == h0[c][k]
    ensures h[o].Keys == h0[o].Keys || o == c
  {
    forall x | x in Below(home, home[c] + [k]) ensures h[x] == h0[x] { StepPrefix(home[c], k, home[x]); }
    if o != c { OtherNewFields(E, h0, home, c, o, s, o); }
  }

  /** What is read for the values still to come does not matter yet. */
  lemma LoopEnvs(E: Envs, E': Envs, h0: Heap, h: Heap, home: Homes, c: ConfigMap, o: ConfigMap, s: Schema, todo: set<string>)
    requires Placed(h0, home) && c in h0 && o in h0 && home[c] == home[o]
    requires LoopState(E, h0, h, home, c, o, s, todo)
    requires forall q | !(home[c] < q && q[|home[c]|] in todo) :: E(q) == E'(q)
    ensures LoopState(E', h0, h, home, c, o, s, todo)
  {
    var p := home[c];
    forall x | x in h0 && x != c
      ensures h[x] == if p < home[x] && home[x][|p|] in todo then h0[x] else NewFields(E', h0, home, c, o, s, x)
    {
      if !(p < home[x] && home[x][|p|] in todo) { LoopNewEnvs(E, E', h0, home, c, o, s, todo, x); }
    }
    forall k | k !in todo ensures E(p + [k]) == E'(p + [k]) { assert (p + [k])[|p|] == k; }
    assert MixedFields(E, h0, p, c, o, s, todo) == MixedFields(E', h0, p, c, o, s, todo);
  }

  lemma LoopNewEnvs(E: Envs, E': Envs, h0: Heap, home: Homes, c: ConfigMap, o: ConfigMap, s: Schema, todo: set<string>, x: ConfigMap)
    requires Placed(h0, home) && c in h0 && o in h0 && x in h0 && x != c
    requires forall q | !(home[c] < q && q[|home[c]|] in todo) :: E(q) == E'(q)
    requires !(home[c] < home[x] && home[x][|home[c]|] in todo)
    ensures NewFields(E, h0, home, c, o, s, x) == NewFields(E', h0, home, c, o, s, x)
  {
    if home[c] < home[x] {
      forall k ensures E(home[x] + [k]) == E'(home[x] + [k]) { assert (home[x] + [k])[|home[c]|] == home[x][|home[c]|]; }
      NewFieldsEnvs(E, E', h0, home, c, o, s, x);
    } else {
      OtherNewFields(E, h0, home, c, o, s, x);
      OtherNewFields(E', h0, home, c, o, s, x);
    }
  }

  /** The value at key `k` is not written while it is still to come. */
  lemma LoopOld(E: Envs, h0: Heap, h: Heap, home: Homes, c: ConfigMap, o: ConfigMap, s: Schema, todo: set<string>, k: string)
    requires Placed(h0, home) && c in h0 && o in h0 && home[c] == home[o]
    requires LoopState(E, h0, h, home, c, o, s, todo) && k in todo && todo <= h0[o].Keys
    ensures OldAt(h0, h, home, home[c] + [k])
  {
    LoopUnmerged(E, h0, h, home, c, o, s, todo, k);
    forall x, j | x in h0 && x in h && x in home && home[x] + [j] == home[c] + [k] ensures Entry(h[x], j) == Entry(h0[x], j) {
      assert (home[x] + [j])[..|home[x]|] == home[x] && (home[c] + [k])[..|home[c]|] == home[c] && j == k;
      if x != c { OtherNewFields(E, h0, home, c, o, s, x); }
    }
  }

  /** Copying one value, or merging one sub-map, changes only what is as it was at the start. */
  lemma LoopAdvances(E: Envs, h0: Heap, h: Heap, h': Heap, home: Homes, c: ConfigMap, o: ConfigMap, s: Schema, todo: set<string>, k: string)
    requires Placed(h0, home) && c in h0 && o in h0 && home[c] == home[o]
    requires LoopState(E, h0, h, home, c, o, s, todo) && k in todo && todo <= h0[o].Keys
    requires LoopState(E, h0, h', home, c, o, s, todo - {k})
    ensures Advances(h0, h, h')
  {
    var p := home[c];
    forall x, j | x in h0 ensures Entry(h'[x], j) == Entry(h[x], j) || Entry(h[x], j) == Entry(h0[x], j) {
      if x == c {
        MixedStep(E, h0, p, c, o, s, todo, k);
        LoopUnmerged(E, h0, h, home, c, o, s, todo, k);
      }
    }
  }

  /** The moments of a merge of two sub-maps, seen from the start of the whole merge. */
  lemma LoopChildMoments(E: Envs, h0: Heap, h: Heap, h': Heap, home: Homes, c: ConfigMap, o: ConfigMap, s: Schema, todo: set<string>, k: string,
                         W: Path -> Heap, q: Path)
    requires Placed(h0, home) && c in h0 && o in h0 && home[c] == home[o]
    requires LoopState(E, h0, h, home, c, o, s, todo) && k in todo && todo <= h0[o].Keys
    requires Advances(h0, h, h') && Between(h, h', W(q)) && OldAt(h, W(q), home, q) && home[c] + [k] <= q
    ensures Between(h0, h', W(q)) && OldAt(h0, W(q), home, q)
  {
    LoopUnmerged(E, h0, h, home, c, o, s, todo, k);
    LoopOld(E, h0, h, home, c, o, s, todo, k);
    forall x, j | x in h0 && x in W(q) && x in home && home[x] + [j] == q ensures Entry(W(q)[x], j) == Entry(h0[x], j) {
      assert Entry(W(q)[x], j) == Entry(h[x], j);
      if |q| > |home[c]| + 1 {
        assert home[x] == q[..|q| - 1];
        assert home[c] + [k] <= home[x];
        assert x in Below(home, home[c] + [k]);
      } else {
        assert q == home[c] + [k];
      }
    }
  }

  lemma LoopChildMerged(E: Envs, h0: Heap, h: Heap, h': Heap, home: Homes, c: ConfigMap, o: ConfigMap, s: Schema, todo: set<string>, k: string)
    requires Placed(h0, home) && Placed(h, home) && c in h0 && o in h0 && home[c] == home[o]
    requires LoopState(E, h0, h, home, c, o, s, todo) && k in todo && todo <= h0[o].Keys
    requires k in h0[c] && h0[c][k].Ref? && h0[o][k].Ref?
    requires h' == Merged(E, h, home, h0[c][k].o, h0[o][k].o, Sub(s, k))
    ensures LoopState(E, h0, h', home, c, o, s, todo - {k})
  {
    forall x | x in h0 && x != c
      ensures h'[x] == if home[c] < home[x] && home[x][|home[c]|] in todo - {k} then h0[x] else NewFields(E, h0, home, c, o, s, x)
    {
      LoopChildMergedAt(E, h0, h, home, c, o, s, todo, k, x);
    }
    assert home[h0[c][k].o] == home[c] + [k];
    assert !(home[c] + [k] <= home[c]);
    MixedStep(E, h0, home[c], c, o, s, todo, k);
  }

  lemma LoopChildMergedAt(E: Envs, h0: Heap, h: Heap, home: Homes, c: ConfigMap, o: ConfigMap, s: Schema, todo: set<string>, k: string, x: ConfigMap)
    requires Placed(h0, home) && Placed(h, home) && c in h0 && o in h0 && home[c] == home[o]
    requires LoopState(E, h0, h, home, c, o, s, todo) && k in todo && todo <= h0[o].Keys
    requires k in h0[c] && h0[c][k].Ref? && h0[o][k].Ref?
    requires x in h0 && x != c
    ensures NewFields(E, h, home, h0[c][k].o, h0[o][k].o, Sub(s, k), x)
            == if home[c] < home[x] && home[x][|home[c]|] in todo - {k} then h0[x] else NewFields(E, h0, home, c, o, s, x)
  {
    StepPrefix(home[c], k, home[x]);
    if home[c] + [k] <= home[x] {
      LoopUnmerged(E, h0, h, home, c, o, s, todo, k);
      ChildNewFields(E, h0, h, home, c, o, s, k, x);
    } else {
      assert NewFields(E, h, home, h0[c][k].o, h0[o][k].o, Sub(s, k), x) == h[x];
    }
  }

  /** One more key merged: its value is the merged one. */
  lemma MixedStep(E: Envs, h0: Heap, p: Path, c: ConfigMap, o: ConfigMap, s: Schema, todo: set<string>, k: string)
    requires c in h0 && o in h0 && k in todo && todo <= h0[o].Keys
    ensures MixedFields(E, h0, p, c, o, s, todo - {k}) ==
            MixedFields(E, h0, p, c, o, s, todo)[k := MergedFields(E, p, h0[c], h0[o], s)[k]]
  {}

  lemma LoopLeafMerged(E: Envs, h0: Heap, h: Heap, h': Heap, home: Homes, c: ConfigMap, o: ConfigMap, s: Schema, todo: set<string>, k: string)
    requires Placed(h0, home) && c in h0 && o in h0 && home[c] == home[o]
    requires LoopState(E, h0, h, home, c, o, s, todo) && k in todo && todo <= h0[o].Keys
    requires !(k in h0[c] && h0[c][k].Ref? && h0[o][k].Ref?)
    requires h' == h[c := h[c][k := TransformValue(E(home[c] + [k]), h0[o][k], Sub(s, k).typ)]]
    ensures LoopState(E, h0, h', home, c, o, s, todo - {k})
  {
    forall x | x in h0 && x != c
      ensures h'[x] == if home[c] < home[x] && home[x][|home[c]|] in todo - {k} then h0[x] else NewFields(E, h0, home, c, o, s, x)
    {
      LoopLeafElsewhere(E, h0, h, home, c, o, s, todo, k, x);
    }
    LoopLeafHere(E, h0, home[c], c, o, s, todo, k);
  }

  /** Where not both have a map, nothing below the key is merged. */
  lemma LoopLeafElsewhere(E: Envs, h0: Heap, h: Heap, home: Homes, c: ConfigMap, o: ConfigMap, s: Schema, todo: set<string>, k: string, x: ConfigMap)
    requires Placed(h0, home) && c in h0 && o in h0 && x in h0 && x != c
    requires LoopState(E, h0, h, home, c, o, s, todo)
    requires !(k in h0[c] && h0[c][k].Ref? && k in h0[o] && h0[o][k].Ref?)
    ensures h[x] == if home[c] < home[x] && home[x][|home[c]|] in todo - {k} then h0[x] else NewFields(E, h0, home, c, o, s, x)
  {
    OtherNewFields(E, h0, home, c, o, s, x);
  }

  lemma LoopLeafHere(E: Envs, h0: Heap, p: Path, c: ConfigMap, o: ConfigMap, s: Schema, todo: set<string>, k: string)
    requires c in h0 && o in h0 && k in todo && todo <= h0[o].Keys
    requires !(k in h0[c] && h0[c][k].Ref? && h0[o][k].Ref?)
    ensures MixedFields(E, h0, p, c, o, s, todo)[k := TransformValue(E(p + [k]), h0[o][k], Sub(s, k).typ)]
            == MixedFields(E, h0, p, c, o, s, todo - {k})
  {
    MixedStep(E, h0, p, c, o, s, todo, k);
  }

  /** The same, seen from what was read before the copy. */
  lemma LoopCopied(E0: Envs, E: Envs, h0: Heap, h: Heap, h': Heap, home: Homes, c: ConfigMap, o: ConfigMap, s: Schema, todo: set<string>, k: string)
    requires Placed(h0, home) && c in h0 && o in h0 && home[c] == home[o]
    requires LoopState(E0, h0, h, home, c, o, s, todo) && k in todo && todo <= h0[o].Keys
    requires forall q | !(home[c] < q && q[|home[c]|] in todo) :: E0(q) == E(q)
    requires !(k in h0[c] && h0[c][k].Ref? && h0[o][k].Ref?)
    requires h' == h[c := h[c][k := TransformValue(E(home[c] + [k]), h0[o][k], Sub(s, k).typ)]]
    ensures LoopState(E, h0, h', home, c, o, s, todo - {k})
    ensures Advances(h0, h, h') && OldAt(h0, h, home, home[c] + [k])
  {
    LoopEnvs(E0, E, h0, h, home, c, o, s, todo);
    LoopLeafMerged(E, h0, h, h', home, c, o, s, todo, k);
    LoopAdvances(E, h0, h, h', home, c, o, s, todo, k);
    LoopOld(E, h0, h, home, c, o, s, todo, k);
  }

  /** One sub-map merged, seen from what was read before and in its own merge. */
  lemma LoopChildDone(E0: Envs, Ek: Envs, E: Envs, h0: Heap, h: Heap, h': Heap, home: Homes, c: ConfigMap, o: ConfigMap, s: Schema,
                      todo: set<string>, k: string)
    requires Placed(h0, home) && Placed(h, home) && c in h0 && o in h0 && home[c] == home[o]
    requires LoopState(E0, h0, h, home, c, o, s, todo) && k in todo && todo <= h0[o].Keys
    requires k in h0[c] && h0[c][k].Ref? && h0[o][k].Ref?
    requires forall q | !(home[c] < q && q[|home[c]|] in todo) :: E0(q) == E(q)
    requires forall q | home[c] + [k] <= q :: Ek(q) == E(q)
    requires h' == Merged(Ek, h, home, h0[c][k].o, h0[o][k].o, Sub(s, k))
    ensures LoopState(E, h0, h, home, c, o, s, todo) && LoopState(E, h0, h', home, c, o, s, todo - {k})
    ensures Advances(h0, h, h')
  {
    LoopEnvs(E0, E, h0, h, home, c, o, s, todo);
    assert home[h0[c][k].o] == home[c] + [k];
    MergedEnvs(Ek, E, h, home, h0[c][k].o, h0[o][k].o, Sub(s, k));
    LoopChildMerged(E, h0, h, h', home, c, o, s, todo, k);
    LoopAdvances(E, h0, h, h', home, c, o, s, todo, k);
  }

  lemma LoopMergeMoments(E: Envs, h0: Heap, h: Heap, h': Heap, home: Homes, c: ConfigMap, o: ConfigMap, s: Schema, todo: set<string>, k: string,
                         W: Path -> Heap, Wk: Path -> Heap)
    requires Placed(h0, home) && c in h0 && o in h0 && home[c] == home[o]
    requires LoopState(E, h0, h, home, c, o, s, todo) && k in todo && todo <= h0[o].Keys
    requires Advances(h0, h, h') && Moments(h0, h, home, W) && Moments(h, h', home, Wk)
    ensures Moments(h0, h', home, Merging(W, home[c] + [k], Wk))
  {
    var at := home[c] + [k];
    MomentsAdvance(h0, h, h', home, W);
    forall q ensures Between(h0, h', Merging(W, at, Wk)(q)) && OldAt(h0, Merging(W, at, Wk)(q), home, q) {
      if at <= q {
        assert Between(h, h', Wk(q)) && OldAt(h, Wk(q), home, q);
        LoopChildMoments(E, h0, h, h', home, c, o, s, todo, k, Wk, q);
      } else {
        assert Between(h0, h', W(q)) && OldAt(h0, W(q), home, q);
      }
    }
  }

  /** Two sub-maps about to be merged stand for what they stood for at the start. */
  lemma LoopChildReady(E: Envs, h0: Heap, h: Heap, home: Homes, c: ConfigMap, o: ConfigMap, s: Schema, todo: set<string>, k: string,
                       ct: Json, ot: Json)
    requires Placed(h0, home) && c in h0 && o in h0 && home[c] == home[o]
    requires LoopState(E, h0, h, home, c, o, s, todo) && k in todo && todo <= h0[o].Keys
    requires k in h0[c] && h0[c][k].Ref? && h0[o][k].Ref?
    requires Denotes(h0, Ref(c), ct) && Denotes(h0, Ref(o), ot) && Mergeable(ct, ot, s)
    ensures Placed(h, home)
    ensures k in ct.m && k in ot.m && ct.m[k] < ct && Mergeable(ct.m[k], ot.m[k], Sub(s, k))
    ensures Denotes(h, h0[c][k], ct.m[k]) && Denotes(h, h0[o][k], ot.m[k])
    ensures home[h0[c][k].o] == home[h0[o][k].o]
  {
    var S := Below(home, home[c] + [k]);
    BelowClosed(h0, home, home[c] + [k]);
    LoopUnmerged(E, h0, h, home, c, o, s, todo, k);
    LoopPlaced(E, h0, h, home, c, o, s, todo);
    assert Denotes(h0, h0[c][k], ct.m[k]) && Denotes(h0, h0[o][k], ot.m[k]);
    DenotesFrame(h0, h, S, h0[c][k], ct.m[k]);
    DenotesFrame(h0, h, S, h0[o][k], ot.m[k]);
  }

  /** A value about to be copied is one the transformers take. */
  lemma LoopLeafReady(h0: Heap, c: ConfigMap, o: ConfigMap, s: Schema, k: string, ct: Json, ot: Json)
    requires Denotes(h0, Ref(c), ct) && Denotes(h0, Ref(o), ot) && Mergeable(ct, ot, s)
    requires k in h0[o] && !(k in h0[c] && h0[c][k].Ref? && h0[o][k].Ref?)
    ensures Accepts(if h0[o][k].Leaf? then h0[o][k].j else Obj(map[]), Sub(s, k).typ)
  {
    assert Denotes(h0, h0[o][k], ot.m[k]);
    if k in ct.m { assert Denotes(h0, h0[c][k], ct.m[k]); }
  }
}
