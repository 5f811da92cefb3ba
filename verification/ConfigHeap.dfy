/** Go's nested maps as heap objects.  Sub-maps are held by reference and may be shared, so a
    merge can write through a map that another configuration also holds.  What keeps this
    manageable is that a map is only ever shared between places at the same path: `home` gives
    every map that path, and a merge reads and writes path by path. */
module ConfigHeap {
  import opened ConfigTree
  import opened Wrappers

  type Scalar = j: Json | !j.Obj? witness Null

  datatype Value = Leaf(j: Scalar) | Ref(o: ConfigMap)

  class ConfigMap {
    var fields: map<string, Value>

    constructor ()
      ensures fields == map[]
    {
      fields := map[];
    }

    /** `m[k] = v`, as seen on a whole region. */
    method Set(k: string, v: Value, ghost S: set<ConfigMap>)
      requires this in S
      modifies this
      ensures fields == old(fields)[k := v]
      ensures Snap(S) == old(Snap(S))[this := old(fields)[k := v]]
    {
      fields := fields[k := v];
    }
  }

  type Fields = map<string, Value>
  type Heap = map<ConfigMap, Fields>
  type Homes = map<ConfigMap, Path>

  ghost function Snap(S: set<ConfigMap>): (h: Heap)
    reads S
    ensures h.Keys == S
  {
    map o | o in S :: o.fields
  }

  // ---------------------------------------------------------------- what a value stands for

  ghost predicate Denotes(h: Heap, v: Value, t: Json)
    decreases t
  {
    match v
    case Leaf(j) => t == j
    case Ref(o) =>
      && t.Obj? && o in h && h[o].Keys == t.m.Keys
      && forall k | k in t.m :: Denotes(h, h[o][k], t.m[k])
  }

  /** The map reached from `o` along `r`. */
  ghost function MapAt(h: Heap, o: ConfigMap, r: Path): Option<ConfigMap>
    decreases |r|
  {
    if o !in h then None
    else if r == [] then Some(o)
    else if r[0] in h[o] && h[o][r[0]].Ref? then MapAt(h, h[o][r[0]].o, r[1..])
    else None
  }

  /** References lead one step further along the path. */
  ghost predicate Placed(h: Heap, home: Homes) {
    && h.Keys == home.Keys
    && forall o, k | o in h && k in h[o] && h[o][k].Ref? ::
         h[o][k].o in h && home[h[o][k].o] == home[o] + [k]
  }

  /** No reference leaves `S`. */
  ghost predicate Closed(h: Heap, S: set<ConfigMap>) {
    && S <= h.Keys
    && forall o, k | o in S && k in h[o] && h[o][k].Ref? :: h[o][k].o in S
  }

  ghost predicate SameOn(h: Heap, h': Heap, S: set<ConfigMap>) {
    S <= h.Keys && S <= h'.Keys && forall o | o in S :: h[o] == h'[o]
  }

  lemma StepPrefix(p: Path, k: string, q: Path)
    ensures p + [k] <= q <==> p < q && q[|p|] == k
  {
    if p + [k] <= q { assert q[|p|] == (p + [k])[|p|]; }
    if p < q { assert q[..|p| + 1] == p + [q[|p|]]; }
  }

  /** The maps at or below a path. */
  ghost function Below(home: Homes, q: Path): set<ConfigMap> {
    set o | o in home && q <= home[o]
  }

  lemma BelowClosed(h: Heap, home: Homes, q: Path)
    requires Placed(h, home)
    ensures Closed(h, Below(home, q))
  {
    forall o, k | o in Below(home, q) && k in h[o] && h[o][k].Ref? ensures h[o][k].o in Below(home, q) {
      assert q <= home[o] + [k];
    }
  }

  lemma {:induction false} DenotesFrame(h: Heap, h': Heap, S: set<ConfigMap>, v: Value, t: Json)
    requires Closed(h, S) && SameOn(h, h', S)
    requires v.Ref? ==> v.o in S
    requires Denotes(h, v, t)
    ensures Denotes(h', v, t)
    decreases t
  {
    if v.Ref? {
      forall k | k in t.m ensures Denotes(h', h'[v.o][k], t.m[k]) {
        DenotesFrame(h, h', S, h[v.o][k], t.m[k]);
      }
    }
  }

  lemma {:induction false} MapAtFrame(h: Heap, h': Heap, S: set<ConfigMap>, o: ConfigMap, r: Path)
    requires Closed(h, S) && SameOn(h, h', S) && o in S
    ensures MapAt(h', o, r) == MapAt(h, o, r)
    ensures MapAt(h, o, r).Some? ==> MapAt(h, o, r).value in S
    decreases |r|
  {
    if r != [] && r[0] in h[o] && h[o][r[0]].Ref? { MapAtFrame(h, h', S, h[o][r[0]].o, r[1..]); }
  }

  lemma {:induction false} MapAtHome(h: Heap, home: Homes, o: ConfigMap, r: Path)
    requires Placed(h, home) && o in h
    ensures MapAt(h, o, r).Some? ==> MapAt(h, o, r).value in h && home[MapAt(h, o, r).value] == home[o] + r
    decreases |r|
  {
    if r == [] {
      assert home[o] + r == home[o];
    } else if r[0] in h[o] && h[o][r[0]].Ref? {
      MapAtHome(h, home, h[o][r[0]].o, r[1..]);
      assert home[o] + [r[0]] + r[1..] == home[o] + r;
    }
  }

  // ---------------------------------------------------------------- one merge, in closed form

  function TransformValue(env: Env, v: Value, typ: Type): Value {
    if v.Leaf? then Leaf(Transform(env, v.j, typ)) else v
  }

  function MergedFields(E: Envs, p: Path, cf: Fields, of: Fields, s: Schema): Fields {
    map k | k in cf.Keys + of.Keys ::
      if k !in of then cf[k]
      else if k in cf && cf[k].Ref? && of[k].Ref? then cf[k]
      else TransformValue(E(p + [k]), of[k], Sub(s, k).typ)
  }

  /** The fields of `x` after merging `o` into `c`: those of a map that `c` has at some path get
      the fields of the map that `o` has at the same path; every other map keeps its own. */
  ghost function NewFields(E: Envs, h: Heap, home: Homes, c: ConfigMap, o: ConfigMap, s: Schema, x: ConfigMap): Fields
    requires Placed(h, home) && c in h && o in h && x in h
  {
    var p := home[c];
    if !(p <= home[x]) then h[x] else
    var r := home[x][|p|..];
    if MapAt(h, c, r) == Some(x) && MapAt(h, o, r).Some?
    then (MapAtHome(h, home, o, r); MergedFields(E, home[x], h[x], h[MapAt(h, o, r).value], SchemaAt(s, r)))
    else h[x]
  }

  ghost function Merged(E: Envs, h: Heap, home: Homes, c: ConfigMap, o: ConfigMap, s: Schema): (h': Heap)
    requires Placed(h, home) && c in h && o in h
    ensures h'.Keys == h.Keys
  {
    map x | x in h :: NewFields(E, h, home, c, o, s, x)
  }

  // ---------------------------------------------------------------- lookups

  ghost function Entry(f: Fields, k: string): Option<Value> { if k in f then Some(f[k]) else None }

  /** `getConfigVal` on the heap. */
  ghost function Lookup(h: Heap, m: ConfigMap, keys: Path): Option<Value>
    decreases |keys|
  {
    if keys == [] || m !in h then None
    else match Entry(h[m], keys[0])
         case None => Lookup(h, m, keys[1..])
         case Some(Ref(o)) => Lookup(h, o, keys[1..])
         case Some(v) => Some(v)
  }

  /** The hosts that a transformer finds in the configuration `api`. */
  ghost function HostsIn(h: Heap, api: ConfigMap): Option<string> {
    match Lookup(h, api, HOSTS_PATH)
    case Some(Leaf(j)) => if j.Str? then Some(j.s) else None
    case _ => None
  }

  lemma {:induction false} LookupDenotes(h: Heap, m: ConfigMap, t: Json, keys: Path)
    requires Denotes(h, Ref(m), t)
    ensures Lookup(h, m, keys) == match GetConfigVal(t, keys) case None => None case Some(v) => Some(Leaf(v))
    decreases |keys|
  {
    if keys != [] {
      var k := keys[0];
      if k !in t.m {
        LookupDenotes(h, m, t, keys[1..]);
      } else {
        assert Denotes(h, h[m][k], t.m[k]);
        if t.m[k].Obj? { LookupDenotes(h, h[m][k].o, t.m[k], keys[1..]); }
      }
    }
  }

  lemma {:induction false} LookupFrame(h: Heap, h': Heap, S: set<ConfigMap>, m: ConfigMap, keys: Path)
    requires Closed(h, S) && SameOn(h, h', S) && m in S
    ensures Lookup(h', m, keys) == Lookup(h, m, keys)
    decreases |keys|
  {
    if keys != [] {
      match Entry(h[m], keys[0]) {
        case None => LookupFrame(h, h', S, m, keys[1..]);
        case Some(Ref(o)) => LookupFrame(h, h', S, o, keys[1..]);
        case Some(_) =>
      }
    }
  }

  // ---------------------------------------------------------------- on the way

  /** Every entry of `h` is the one that `h0` has or the one that `h1` has. */
  ghost predicate Between(h0: Heap, h1: Heap, h: Heap) {
    && h.Keys == h0.Keys == h1.Keys
    && forall x, k | x in h0 :: Entry(h[x], k) == Entry(h0[x], k) || Entry(h[x], k) == Entry(h1[x], k)
  }

  /** From `h` to `h'`, only entries still as in `h0` are changed. */
  ghost predicate Advances(h0: Heap, h: Heap, h': Heap) {
    && h.Keys == h0.Keys == h'.Keys
    && forall x, k | x in h0 :: Entry(h'[x], k) == Entry(h[x], k) || Entry(h[x], k) == Entry(h0[x], k)
  }

  /** The value at path `q` has not been written yet. */
  ghost predicate OldAt(h0: Heap, h: Heap, home: Homes, q: Path) {
    forall x, k | x in h0 && x in h && x in home && home[x] + [k] == q :: Entry(h[x], k) == Entry(h0[x], k)
  }

  /** For each path, a heap on the way from `h0` to `h` in which the value there was not yet written. */
  ghost predicate Moments(h0: Heap, h: Heap, home: Homes, W: Path -> Heap) {
    forall q :: Between(h0, h, W(q)) && OldAt(h0, W(q), home, q)
  }

  lemma MomentsAdvance(h0: Heap, h: Heap, h': Heap, home: Homes, W: Path -> Heap)
    requires Moments(h0, h, home, W) && Advances(h0, h, h')
    ensures Moments(h0, h', home, W)
  {
    forall q ensures Between(h0, h', W(q)) && OldAt(h0, W(q), home, q) {
      assert Between(h0, h, W(q)) && OldAt(h0, W(q), home, q);
    }
  }

  /** The same, after the value at `at` was copied in `h`. */
  ghost function Copying(W: Path -> Heap, at: Path, h: Heap): Path -> Heap { q => if q == at then h else W(q) }

  /** The same, after the maps at `at` were merged. */
  ghost function Merging(W: Path -> Heap, at: Path, Wk: Path -> Heap): Path -> Heap { q => if at <= q then Wk(q) else W(q) }

  lemma CopyMoments(h0: Heap, h: Heap, h': Heap, home: Homes, W: Path -> Heap, at: Path)
    requires Moments(h0, h, home, W) && Advances(h0, h, h') && OldAt(h0, h, home, at)
    ensures Moments(h0, h', home, Copying(W, at, h))
  {
    MomentsAdvance(h0, h, h', home, W);
    forall q ensures Between(h0, h', Copying(W, at, h)(q)) && OldAt(h0, Copying(W, at, h)(q), home, q) {
      assert Between(h0, h', W(q)) && OldAt(h0, W(q), home, q);
    }
  }

  // ---------------------------------------------------------------- the closed form, key by key

  /** Seen from a key that both have a map at, the merge is the merge of the two sub-maps; and
      nothing but the sub-maps' own paths matters to it. */
  lemma ChildNewFields(E: Envs, h0: Heap, h: Heap, home: Homes, c: ConfigMap, o: ConfigMap, s: Schema, k: string, x: ConfigMap)
    requires Placed(h0, home) && Placed(h, home)
    requires c in h0 && o in h0 && home[c] == home[o]
    requires k in h0[c] && h0[c][k].Ref? && k in h0[o] && h0[o][k].Ref?
    requires x in h0 && home[c] + [k] <= home[x]
    requires SameOn(h0, h, Below(home, home[c] + [k]))
    ensures NewFields(E, h, home, h0[c][k].o, h0[o][k].o, Sub(s, k), x) == NewFields(E, h0, home, c, o, s, x)
  {
    var p, c', o' := home[c], h0[c][k].o, h0[o][k].o;
    var S := Below(home, p + [k]);
    var r := home[x][|p|..];
    assert r[0] == (p + [k])[|p|] && r[1..] == home[x][|p + [k]|..] && p <= home[x];
    BelowClosed(h0, home, p + [k]);
    MapAtFrame(h0, h, S, c', r[1..]);
    MapAtFrame(h0, h, S, o', r[1..]);
    assert MapAt(h0, c, r) == MapAt(h0, c', r[1..]);
    assert MapAt(h0, o, r) == MapAt(h0, o', r[1..]);
  }

  /** Where not both have a map, the maps below stay as they are. */
  lemma OtherNewFields(E: Envs, h: Heap, home: Homes, c: ConfigMap, o: ConfigMap, s: Schema, x: ConfigMap)
    requires Placed(h, home) && c in h && o in h && x in h && x != c
    ensures NewFields(E, h, home, c, o, s, x) != h[x] ==>
              home[c] < home[x] &&
              var k := home[x][|home[c]|];
              k in h[c] && h[c][k].Ref? && k in h[o] && h[o][k].Ref?
  {}

  /** New fields refer only to places one step further along the path. */
  lemma NewFieldsPlaced(E: Envs, h: Heap, home: Homes, c: ConfigMap, o: ConfigMap, s: Schema, x: ConfigMap)
    requires Placed(h, home) && c in h && o in h && x in h && home[c] == home[o]
    ensures var f := NewFields(E, h, home, c, o, s, x);
            forall k | k in f && f[k].Ref? :: f[k].o in h && home[f[k].o] == home[x] + [k]
  {
    var p := home[c];
    if p <= home[x] {
      var r := home[x][|p|..];
      MapAtHome(h, home, o, r);
      assert p + r == home[x];
    }
  }

  lemma MergedPlaced(E: Envs, h: Heap, home: Homes, c: ConfigMap, o: ConfigMap, s: Schema)
    requires Placed(h, home) && c in h && o in h && home[c] == home[o]
    ensures Placed(Merged(E, h, home, c, o, s), home)
  {
    forall x | x in h { NewFieldsPlaced(E, h, home, c, o, s, x); }
  }

  /** Only maps reachable from the configuration change. */
  lemma OnlyReachableChange(E: Envs, h: Heap, home: Homes, c: ConfigMap, o: ConfigMap, s: Schema, x: ConfigMap)
    requires Placed(h, home) && c in h && o in h && x in h
    ensures Merged(E, h, home, c, o, s)[x] != h[x] ==> exists r :: MapAt(h, c, r) == Some(x) && MapAt(h, o, r).Some?
  {
    if home[c] <= home[x] {
      var r := home[x][|home[c]|..];
      assert (MapAt(h, c, r) == Some(x) && MapAt(h, o, r).Some?) || NewFields(E, h, home, c, o, s, x) == h[x];
    }
  }

  /** A map that both share at a path is merged into itself: it is left alone exactly when each of its own
      values is a fixed point of the transformers there. */
  lemma SharedMapUnchanged(E: Envs, h: Heap, home: Homes, c: ConfigMap, o: ConfigMap, s: Schema, x: ConfigMap, r: Path)
    requires Placed(h, home) && c in h && o in h && home[c] == home[o]
    requires MapAt(h, c, r) == Some(x) && MapAt(h, o, r) == Some(x)
    ensures x in h
    ensures Merged(E, h, home, c, o, s)[x] == h[x] <==>
            forall k | k in h[x] :: TransformValue(E(home[x] + [k]), h[x][k], Sub(SchemaAt(s, r), k).typ) == h[x][k]
  {
    MapAtHome(h, home, c, r);
    assert home[x][|home[c]|..] == r;
    assert NewFields(E, h, home, c, o, s, x) == MergedFields(E, home[x], h[x], h[x], SchemaAt(s, r));
    SelfMerged(E, home[x], h[x], SchemaAt(s, r));
  }

  lemma SelfMerged(E: Envs, p: Path, f: Fields, s: Schema)
    ensures MergedFields(E, p, f, f, s) == f <==> forall k | k in f :: TransformValue(E(p + [k]), f[k], Sub(s, k).typ) == f[k]
  {
    var r := MergedFields(E, p, f, f, s);
    assert r.Keys == f.Keys;
    forall k | k in f ensures r[k] == TransformValue(E(p + [k]), f[k], Sub(s, k).typ) {}
    if forall k | k in f :: TransformValue(E(p + [k]), f[k], Sub(s, k).typ) == f[k] {
      forall k | k in f ensures r[k] == f[k] {}
      assert r == f;
    }
    if r == f {
      forall k | k in f ensures TransformValue(E(p + [k]), f[k], Sub(s, k).typ) == f[k] { assert r[k] == f[k]; }
    }
  }

  lemma MergedFieldsEnvs(E: Envs, E': Envs, p: Path, cf: Fields, of: Fields, s: Schema)
    requires forall k | k in of :: E(p + [k]) == E'(p + [k])
    ensures MergedFields(E, p, cf, of, s) == MergedFields(E', p, cf, of, s)
  {}

  /** Only what is read at the paths below the merged maps matters. */
  lemma NewFieldsEnvs(E: Envs, E': Envs, h: Heap, home: Homes, c: ConfigMap, o: ConfigMap, s: Schema, x: ConfigMap)
    requires Placed(h, home) && c in h && o in h && x in h
    requires home[c] <= home[x] ==> forall k :: E(home[x] + [k]) == E'(home[x] + [k])
    ensures NewFields(E, h, home, c, o, s, x) == NewFields(E', h, home, c, o, s, x)
  {
    if home[c] <= home[x] {
      var r := home[x][|home[c]|..];
      MapAtHome(h, home, o, r);
      var y := MapAt(h, o, r);
      if y.Some? { MergedFieldsEnvs(E, E', home[x], h[x], h[y.value], SchemaAt(s, r)); }
    }
  }

  lemma MergedEnvs(E: Envs, E': Envs, h: Heap, home: Homes, c: ConfigMap, o: ConfigMap, s: Schema)
    requires Placed(h, home) && c in h && o in h
    requires forall q | home[c] <= q :: E(q) == E'(q)
    ensures Merged(E, h, home, c, o, s) == Merged(E', h, home, c, o, s)
  {
    forall x | x in h ensures NewFields(E, h, home, c, o, s, x) == NewFields(E', h, home, c, o, s, x) {
      if home[c] <= home[x] { EnvsBelow(E, E', home[c], home[x]); }
      NewFieldsEnvs(E, E', h, home, c, o, s, x);
    }
  }

  lemma EnvsBelow(E: Envs, E': Envs, p: Path, q: Path)
    requires p <= q && forall q | p <= q :: E(q) == E'(q)
    ensures forall k :: E(q + [k]) == E'(q + [k])
  {
    forall k ensures E(q + [k]) == E'(q + [k]) { assert p <= q + [k]; }
  }
}
