/** Laws of the layered merge on trees: what each path of the result holds, which layer it
    comes from, the typed normal form, and when merging again changes nothing. */
module ConfigLaws {
  import opened ConfigTree
  import opened Wrappers

  // ---------------------------------------------------------------- one merge, path by path

  function At(t: Json, q: Path): Option<Json>
    decreases |q|
  {
    if q == [] then Some(t)
    else if t.Obj? && q[0] in t.m then At(t.m[q[0]], q[1..])
    else None
  }

  /** The value at `q`, when it is not a map. */
  function Leaf(t: Json, q: Path): Option<Json> {
    match At(t, q) case Some(v) => if v.Obj? then None else Some(v) case None => None
  }

  /** `t` settles what is at `q`: it has something there, or a value above it that is no map. */
  predicate Decides(t: Json, q: Path)
    decreases |q|
  {
    q == [] || !t.Obj? || (q[0] in t.m && Decides(t.m[q[0]], q[1..]))
  }

  /** Every proper prefix of `q` is a map in `t`. */
  predicate HasParents(t: Json, q: Path)
    decreases |q|
  {
    q == [] || (t.Obj? && (|q| == 1 || (q[0] in t.m && HasParents(t.m[q[0]], q[1..]))))
  }

  /** The complete law of a merge: the override decides a path, or else the base keeps it; and
      an override value is transformed exactly where the base already had the enclosing map. */
  lemma {:induction false} MergeLeaf(env: Env, c: Json, o: Json, s: Schema, q: Path)
    requires Mergeable(c, o, s)
    ensures Leaf(Merge(env, c, o, s), q) ==
            if !Decides(o, q) then Leaf(c, q)
            else if Leaf(o, q).None? then None
            else if HasParents(c, q) then Some(Transform(env, Leaf(o, q).value, SchemaAt(s, q).typ))
            else Leaf(o, q)
    decreases |q|
  {
    if q != [] {
      var k, r := q[0], q[1..];
      if BothMaps(c, o, k) {
        MergeLeaf(env, c.m[k], o.m[k], Sub(s, k), r);
      } else if k in o.m {
        LeafBelowNoMap(o.m[k], r);
        LeafBelowNoMap(Transform(env, o.m[k], Sub(s, k).typ), r);
        if k in c.m { LeafBelowNoMap(c.m[k], r); }
        assert At(o, q) == At(o.m[k], r);
        assert At(Merge(env, c, o, s), q) == At(Transform(env, o.m[k], Sub(s, k).typ), r);
        if r == [] {
          assert |q| == 1 && HasParents(c, q);
          assert SchemaAt(s, q) == SchemaAt(Sub(s, k), r) == Sub(s, k);
        } else {
          assert |q| > 1;
          assert HasParents(c, q) ==> k in c.m && HasParents(c.m[k], r) && c.m[k].Obj?;
        }
      }
    }
  }

  lemma LeafBelowNoMap(v: Json, r: Path)
    ensures !v.Obj? ==> Decides(v, r) && (r != [] ==> Leaf(v, r).None?)
    ensures !Decides(v, r) ==> Leaf(v, r).None?
    decreases |r|
  {
    if r != [] && v.Obj? && r[0] in v.m { LeafBelowNoMap(v.m[r[0]], r[1..]); }
  }

  lemma AtBelow(t: Json, q: Path, i: nat)
    requires t.Obj? && 0 < i <= |q| && q[0] in t.m
    ensures At(t, q[..i]) == At(t.m[q[0]], q[1..][..i - 1])
  {
    assert q[..i][0] == q[0] && q[..i][1..] == q[1..][..i - 1];
  }

  predicate IsMap(t: Json, q: Path) { At(t, q).Some? && At(t, q).value.Obj? }

  /** `t` has a value that is no map strictly above `q`. */
  predicate Blocks(t: Json, q: Path)
    decreases |q|
  {
    q != [] && (!t.Obj? || (q[0] in t.m && Blocks(t.m[q[0]], q[1..])))
  }

  /** Strictly above `q`, `o` puts a map in the place of a value of `c`. */
  predicate Hides(c: Json, o: Json, q: Path) {
    exists i | 0 < i < |q| :: Leaf(c, q[..i]).Some? && IsMap(o, q[..i])
  }

  lemma HidesBelow(c: Json, o: Json, q: Path)
    requires c.Obj? && o.Obj? && q != [] && q[0] in c.m && q[0] in o.m
    ensures Hides(c, o, q) <==>
            (|q| > 1 && !c.m[q[0]].Obj? && o.m[q[0]].Obj?) || Hides(c.m[q[0]], o.m[q[0]], q[1..])
  {
    var k, r := q[0], q[1..];
    forall i | 0 < i <= |q| ensures At(c, q[..i]) == At(c.m[k], r[..i - 1]) && At(o, q[..i]) == At(o.m[k], r[..i - 1]) {
      AtBelow(c, q, i);
      AtBelow(o, q, i);
    }
    if Hides(c.m[k], o.m[k], r) {
      var i :| 0 < i < |r| && Leaf(c.m[k], r[..i]).Some? && IsMap(o.m[k], r[..i]);
      assert Leaf(c, q[..i + 1]).Some? && IsMap(o, q[..i + 1]);
    }
    if |q| > 1 && !c.m[k].Obj? && o.m[k].Obj? { assert Leaf(c, q[..1]).Some? && IsMap(o, q[..1]); }
    if i :| 0 < i < |q| && Leaf(c, q[..i]).Some? && IsMap(o, q[..i]) {
      if i > 1 { assert Leaf(c.m[k], r[..i - 1]).Some? && IsMap(o.m[k], r[..i - 1]); }
    }
  }

  lemma NothingHidden(c: Json, o: Json, q: Path)
    requires c.Obj? && o.Obj? && q != [] && (q[0] !in c.m || q[0] !in o.m)
    ensures !Hides(c, o, q)
  {
    forall i | 0 < i < |q| ensures Leaf(c, q[..i]).None? || !IsMap(o, q[..i]) { assert q[..i][0] == q[0]; }
  }

  lemma NoMapHides(c: Json, o: Json, q: Path)
    ensures !o.Obj? ==> !Hides(c, o, q)
  {
    if !o.Obj? {
      forall i | 0 < i < |q| ensures !IsMap(o, q[..i]) {}
    }
  }

  /** When a merged tree settles a path: the override does, or the base does and no map of the
      override has taken the place of the value that settles it. */
  lemma {:induction false} MergeDecides(env: Env, c: Json, o: Json, s: Schema, q: Path)
    requires c.Obj? && o.Obj?
    ensures Decides(Merge(env, c, o, s), q) <==> Decides(o, q) || (Decides(c, q) && !Hides(c, o, q))
    decreases |q|
  {
    if q != [] {
      var k, r := q[0], q[1..];
      if k in c.m && k in o.m {
        HidesBelow(c, o, q);
        if BothMaps(c, o, k) {
          MergeDecides(env, c.m[k], o.m[k], Sub(s, k), r);
        } else {
          LeafBelowNoMap(Transform(env, o.m[k], Sub(s, k).typ), r);
          LeafBelowNoMap(o.m[k], r);
          LeafBelowNoMap(c.m[k], r);
          NoMapHides(c.m[k], o.m[k], r);
        }
      } else {
        NothingHidden(c, o, q);
        if k in o.m {
          LeafBelowNoMap(Transform(env, o.m[k], Sub(s, k).typ), r);
          LeafBelowNoMap(o.m[k], r);
        }
      }
    }
  }

  /** When a merged tree has every map above a path. */
  lemma {:induction false} MergeHasParents(env: Env, c: Json, o: Json, s: Schema, q: Path)
    requires c.Obj? && o.Obj?
    ensures HasParents(Merge(env, c, o, s), q) <==> HasParents(o, q) || (HasParents(c, q) && !Blocks(o, q))
    decreases |q|
  {
    if |q| > 1 && BothMaps(c, o, q[0]) { MergeHasParents(env, c.m[q[0]], o.m[q[0]], Sub(s, q[0]), q[1..]); }
  }

  // ---------------------------------------------------------------- four layers

  datatype Layer = DefaultLayer | MantlLayer | UserLayer | ApiLayer

  /** The leaf at `q` of the mantl.json and user layers merged, up to a transformation. */
  function UpperLeaf(p: Json, u: Json, q: Path): Option<Json> { if Decides(u, q) then Leaf(u, q) else Leaf(p, q) }

  /** A map of the API layer has taken the place of a value of the merged layers below it. */
  predicate ApiHides(p: Json, u: Json, a: Json, q: Path) {
    exists i | 0 < i < |q| :: UpperLeaf(p, u, q[..i]).Some? && IsMap(a, q[..i])
  }

  /** The three upper layers settle `q`, so that no default shows there. */
  predicate Settles(p: Json, u: Json, a: Json, q: Path) {
    Decides(a, q) || ((Decides(u, q) || (Decides(p, q) && !Hides(p, u, q))) && !ApiHides(p, u, a, q))
  }

  function ShownAbove(p: Json, u: Json, a: Json, q: Path): Option<Layer> {
    if Decides(a, q) then (if Leaf(a, q).Some? then Some(ApiLayer) else None)
    else if Decides(u, q) then (if Leaf(u, q).Some? then Some(UserLayer) else None)
    else if Leaf(p, q).Some? then Some(MantlLayer)
    else None
  }

  /** The layer whose leaf the merged configuration shows at `q`, for any four layers. */
  function Shown(d: Json, p: Json, u: Json, a: Json, q: Path): Option<Layer> {
    if ShownAbove(p, u, a, q).Some? then ShownAbove(p, u, a, q)
    else if !Settles(p, u, a, q) && Leaf(d, q).Some? then Some(DefaultLayer)
    else None
  }

  /** The highest layer that has a leaf at `q`: API, user, mantl.json, then the defaults. */
  function Highest(d: Json, p: Json, u: Json, a: Json, q: Path): Option<Layer> {
    if Leaf(a, q).Some? then Some(ApiLayer)
    else if Leaf(u, q).Some? then Some(UserLayer)
    else if Leaf(p, q).Some? then Some(MantlLayer)
    else if Leaf(d, q).Some? then Some(DefaultLayer)
    else None
  }

  /** No higher layer settles `q` without a leaf over the highest leaf. */
  predicate Unbarred(d: Json, p: Json, u: Json, a: Json, q: Path) {
    match Highest(d, p, u, a, q)
    case Some(UserLayer) => !Decides(a, q)
    case Some(MantlLayer) => !Decides(a, q) && !Decides(u, q)
    case Some(DefaultLayer) => !Settles(p, u, a, q)
    case _ => true
  }

  function TransformedIf(b: bool, env: Env, v: Option<Json>, typ: Type): Option<Json> {
    if b && v.Some? then Some(Transform(env, v.value, typ)) else v
  }

  /** The value that an upper layer `l` has at `q`, as it comes out of the options. */
  function OptionsValue(env: Env, p: Json, u: Json, a: Json, s: Schema, l: Layer, q: Path): Option<Json> {
    var typ := SchemaAt(s, q).typ;
    match l
    case DefaultLayer => None
    case MantlLayer => Leaf(p, q)
    case UserLayer => TransformedIf(HasParents(p, q), env, Leaf(u, q), typ)
    case ApiLayer => TransformedIf(HasParents(u, q) || (HasParents(p, q) && !Blocks(u, q)), env, Leaf(a, q), typ)
  }

  /** The value that layer `l` has at `q`, as it comes out of the merges. */
  function ShownValue(env: Env, d: Json, p: Json, u: Json, a: Json, s: Schema, l: Layer, q: Path): Option<Json> {
    if l == DefaultLayer then Leaf(d, q)
    else TransformedIf(HasParents(d, q), env, OptionsValue(env, p, u, a, s, l, q), SchemaAt(s, q).typ)
  }

  predicate LayersMergeable(env: Env, p: Json, u: Json, a: Json, s: Schema) {
    && Mergeable(p, u, s) && Mergeable(Merge(env, p, u, s), a, s)
    && Mergeable(Default(env, s), Options(env, p, u, a, s), s)
  }

  lemma LeafDecides(t: Json, q: Path)
    ensures Leaf(t, q).Some? ==> Decides(t, q)
    decreases |q|
  {
    if q != [] && t.Obj? && q[0] in t.m { LeafDecides(t.m[q[0]], q[1..]); }
  }

  lemma UpperLeafIs(env: Env, p: Json, u: Json, s: Schema, q: Path)
    requires Mergeable(p, u, s)
    ensures Leaf(Merge(env, p, u, s), q).Some? <==> UpperLeaf(p, u, q).Some?
  {
    MergeLeaf(env, p, u, s, q);
  }

  /** The options settle a path exactly when the three layers do. */
  lemma OptionsSettle(env: Env, p: Json, u: Json, a: Json, s: Schema, q: Path)
    requires Mergeable(p, u, s) && Mergeable(Merge(env, p, u, s), a, s)
    ensures Decides(Options(env, p, u, a, s), q) <==> Settles(p, u, a, q)
  {
    var pu := Merge(env, p, u, s);
    MergeDecides(env, p, u, s, q);
    MergeDecides(env, pu, a, s, q);
    forall i | 0 < i < |q| ensures Leaf(pu, q[..i]).Some? <==> UpperLeaf(p, u, q[..i]).Some? {
      UpperLeafIs(env, p, u, s, q[..i]);
    }
    assert Hides(pu, a, q) <==> ApiHides(p, u, a, q);
  }

  /** The leaf of the options comes from the highest of the three layers that settles the path. */
  lemma OptionsAt(env: Env, p: Json, u: Json, a: Json, s: Schema, q: Path)
    requires Mergeable(p, u, s) && Mergeable(Merge(env, p, u, s), a, s)
    ensures Leaf(Options(env, p, u, a, s), q) ==
            match ShownAbove(p, u, a, q) case None => None case Some(l) => OptionsValue(env, p, u, a, s, l, q)
  {
    MergeLeaf(env, p, u, s, q);
    MergeLeaf(env, Merge(env, p, u, s), a, s, q);
    MergeHasParents(env, p, u, s, q);
  }

  lemma OverDefaults(env: Env, d: Json, opts: Json, s: Schema, q: Path)
    requires Mergeable(d, opts, s)
    ensures Leaf(Merge(env, d, opts, s), q) ==
            if Leaf(opts, q).Some? then TransformedIf(HasParents(d, q), env, Leaf(opts, q), SchemaAt(s, q).typ)
            else if Decides(opts, q) then None
            else Leaf(d, q)
  {
    MergeLeaf(env, d, opts, s, q);
    LeafDecides(opts, q);
  }

  /** What the merged configuration holds at any path, for any four layers. */
  lemma LayersAt(env: Env, p: Json, u: Json, a: Json, s: Schema, q: Path)
    requires LayersMergeable(env, p, u, a, s)
    ensures var d := Default(env, s);
            Leaf(MergedConfig(env, Some(p), u, a, s), q) ==
            match Shown(d, p, u, a, q) case None => None case Some(l) => ShownValue(env, d, p, u, a, s, l, q)
  {
    OverDefaults(env, Default(env, s), Options(env, p, u, a, s), s, q);
    OptionsSettle(env, p, u, a, s, q);
    OptionsAt(env, p, u, a, s, q);
    ShownHasLeaf(p, u, a, q);
  }

  lemma ShownHasLeaf(p: Json, u: Json, a: Json, q: Path)
    ensures match ShownAbove(p, u, a, q)
            case None => true
            case Some(ApiLayer) => Leaf(a, q).Some?
            case Some(UserLayer) => Leaf(u, q).Some?
            case Some(MantlLayer) => Leaf(p, q).Some?
            case _ => false
  {}

  /** `w` is `v`, or what one or two passes of the transformers make of it. */
  predicate UpToTransforms(env: Env, v: Json, w: Json, typ: Type) {
    w == v || w == Transform(env, v, typ) || w == Transform(env, Transform(env, v, typ), typ)
  }

  function LeafOf(d: Json, p: Json, u: Json, a: Json, l: Layer, q: Path): Option<Json> {
    match l
    case DefaultLayer => Leaf(d, q)
    case MantlLayer => Leaf(p, q)
    case UserLayer => Leaf(u, q)
    case ApiLayer => Leaf(a, q)
  }

  /** The highest layer that has a leaf is the one shown, if and only if no higher layer settles the
      path without a leaf; and its value is then shown up to the typed transformations. */
  lemma LayerPrecedence(env: Env, p: Json, u: Json, a: Json, s: Schema, q: Path)
    requires LayersMergeable(env, p, u, a, s)
    ensures var d := Default(env, s);
            var high, got := Highest(d, p, u, a, q), Leaf(MergedConfig(env, Some(p), u, a, s), q);
            && (Shown(d, p, u, a, q) == high <==> Unbarred(d, p, u, a, q))
            && (Unbarred(d, p, u, a, q) ==>
                  match high
                  case None => got.None?
                  case Some(l) => got.Some? && UpToTransforms(env, LeafOf(d, p, u, a, l, q).value, got.value, SchemaAt(s, q).typ))
  {
    LayersAt(env, p, u, a, s, q);
    LeafDecides(a, q);
    LeafDecides(u, q);
    LeafDecides(p, q);
  }

  /** The two trees agree on which of their common paths are maps. */
  predicate Agree(a: Json, b: Json)
    decreases a
  {
    a.Obj? && b.Obj? &&
    forall k | k in a.m && k in b.m ::
      (a.m[k].Obj? <==> b.m[k].Obj?) && (a.m[k].Obj? ==> Agree(a.m[k], b.m[k]))
  }

  /** Where `o` agrees with `t` and settles `q` without a leaf, `t` has no leaf either. */
  lemma {:induction false} AgreedDecision(t: Json, o: Json, q: Path)
    requires Agree(t, o) && Decides(o, q)
    ensures Leaf(o, q).None? ==> Leaf(t, q).None?
    decreases |q|
  {
    if q != [] {
      var k, r := q[0], q[1..];
      if k in t.m {
        assert At(o, q) == At(o.m[k], r) && At(t, q) == At(t.m[k], r);
        if o.m[k].Obj? { AgreedDecision(t.m[k], o.m[k], r); } else { LeafBelowNoMap(t.m[k], r); }
      }
    }
  }

  lemma AgreedLeaf(t: Json, o: Json, q: Path)
    requires Agree(t, o) && Leaf(t, q).Some? && Leaf(o, q).None?
    ensures !Decides(o, q)
  {
    if Decides(o, q) { AgreedDecision(t, o, q); }
  }

  /** Layers that agree on which paths are maps are never barred. */
  lemma AgreeingLayers(d: Json, p: Json, u: Json, a: Json, q: Path)
    requires Agree(d, p) && Agree(d, u) && Agree(d, a) && Agree(p, u) && Agree(p, a) && Agree(u, a)
    ensures Unbarred(d, p, u, a, q)
  {
    match Highest(d, p, u, a, q) {
      case Some(UserLayer) => AgreedLeaf(u, a, q);
      case Some(MantlLayer) => AgreedLeaf(p, a, q); AgreedLeaf(p, u, q);
      case Some(DefaultLayer) => AgreedLeaf(d, a, q); AgreedLeaf(d, u, q); AgreedLeaf(d, p, q);
      case _ =>
    }
  }

  /** Layers that disagree: a user's empty map over a mantl.json value hides the value, although it is
      the highest, and lets the default below it through.  The keys are any, and so is the API's
      configuration, as long as it has nothing there. */
  lemma DisagreementSkipsLayers(env: Env, x: string, y: string, hosts: string, mesos: Option<MesosConfig>)
    requires x != MANTL
    ensures var s, p, u, a := OneGroup(x, y), Obj(map[x := Bool(false)]), Obj(map[x := Obj(map[])]), ApiConfig(hosts, mesos);
            var d, got := Default(env, s), MergedConfig(env, Some(p), u, a, s);
            && LayersMergeable(env, p, u, a, s)
            && Highest(d, p, u, a, [x]) == Some(MantlLayer) && Leaf(p, [x]) == Some(Bool(false)) && Leaf(got, [x]).None?
            && Highest(d, p, u, a, [x, y]) == Some(DefaultLayer) && Leaf(got, [x, y]) == Some(Bool(true))
  {
    var s, p, u, a := OneGroup(x, y), Obj(map[x := Bool(false)]), Obj(map[x := Obj(map[])]), ApiConfig(hosts, mesos);
    var d := Default(env, s);
    OneGroupMergeable(env, x, y, hosts, mesos);
    OneGroupDefault(env, x, y);
    assert x !in a.m;
    MapOverValue(d, p, u, a, x);
    LayersAt(env, p, u, a, s, [x]);
    DefaultShows(d, p, u, a, x, y, Bool(true));
    LayersAt(env, p, u, a, s, [x, y]);
  }

  lemma MapOverValue(d: Json, p: Json, u: Json, a: Json, x: string)
    requires d.Obj? && p.Obj? && u.Obj? && a.Obj? && x !in a.m
    requires x in p.m && !p.m[x].Obj? && x in u.m && u.m[x].Obj?
    ensures Leaf(p, [x]) == Some(p.m[x])
    ensures Highest(d, p, u, a, [x]) == Some(MantlLayer) && Shown(d, p, u, a, [x]).None?
  {
    OneStep(p, x, []); OneStep(u, x, []); OneStep(a, x, []);
    assert [x] + [] == [x];
  }

  lemma DefaultShows(d: Json, p: Json, u: Json, a: Json, x: string, y: string, v: Json)
    requires d.Obj? && p.Obj? && u.Obj? && a.Obj? && x !in a.m && !v.Obj?
    requires x in p.m && !p.m[x].Obj? && x in u.m && u.m[x] == Obj(map[])
    requires x in d.m && d.m[x] == Obj(map[y := v])
    ensures Leaf(d, [x, y]) == Some(v)
    ensures Highest(d, p, u, a, [x, y]) == Some(DefaultLayer) && Shown(d, p, u, a, [x, y]) == Some(DefaultLayer)
  {
    var q := [x, y];
    assert q == [x] + [y] && [y] == [y] + [] && q[..1] == [x] && [x] == [x] + [];
    OneStep(p, x, [y]); OneStep(u, x, [y]); OneStep(a, x, [y]); OneStep(d, x, [y]);
    OneStep(u.m[x], y, []); OneStep(d.m[x], y, []);
    OneStep(p, x, []); OneStep(u, x, []);
    assert Leaf(p, q[..1]).Some? && IsMap(u, q[..1]);
  }

  /** A schema with one object group, in it a value that defaults to true. */
  function OneGroup(x: string, y: string): Schema {
    Schema(ObjectType, map[x := Schema(ObjectType, map[y := Schema(OtherType(""), map[], Bool(true))], Null)], Null)
  }

  lemma OneStep(t: Json, k: string, r: Path)
    requires t.Obj?
    ensures At(t, [k] + r) == if k in t.m then At(t.m[k], r) else None
    ensures Decides(t, [k] + r) <==> k in t.m && Decides(t.m[k], r)
  {
    assert ([k] + r)[1..] == r;
  }

  lemma OneGroupDefault(env: Env, x: string, y: string)
    ensures var d := Default(env, OneGroup(x, y));
            d.m.Keys == {x} && d.m[x].Obj? && d.m[x].m == map[y := Bool(true)]
  {
    var g := OneGroup(x, y).properties[x];
    assert Default(env, g).m == map[y := Bool(true)];
  }

  lemma OneGroupMergeable(env: Env, x: string, y: string, hosts: string, mesos: Option<MesosConfig>)
    requires x != MANTL
    ensures LayersMergeable(env, Obj(map[x := Bool(false)]), Obj(map[x := Obj(map[])]), ApiConfig(hosts, mesos), OneGroup(x, y))
  {
    var s, p, u, a := OneGroup(x, y), Obj(map[x := Bool(false)]), Obj(map[x := Obj(map[])]), ApiConfig(hosts, mesos);
    assert a.m.Keys == {MANTL};
    var opts := Options(env, p, u, a, s);
    assert opts.m.Keys == {x, MANTL} && opts.m[x] == Obj(map[]) && opts.m[MANTL] == a.m[MANTL];
    OneGroupDefault(env, x, y);
  }

  // ---------------------------------------------------------------- typed normal form

  /** Property groups are objects without a default of their own. */
  predicate GroupsAreObjects(s: Schema) {
    forall k | k in s.properties ::
      var g := s.properties[k];
      (g.properties != map[] ==> g.typ == ObjectType && g.default == Null) && GroupsAreObjects(g)
  }

  /** At every declared path: no array, and a string wherever an integer or number is declared. */
  predicate NormalForm(t: Json, s: Schema)
    decreases s
  {
    t.Obj? ==>
      forall k | k in t.m && k in s.properties ::
        && !t.m[k].Arr?
        && (s.properties[k].typ in {IntegerType, NumberType} ==> t.m[k].Str?)
        && NormalForm(t.m[k], s.properties[k])
  }

  /** `c` has a map for every property group. */
  predicate HasGroups(c: Json, s: Schema)
    decreases s
  {
    c.Obj? &&
    forall k | k in s.properties && s.properties[k].properties != map[] ::
      k in c.m && HasGroups(c.m[k], s.properties[k])
  }

  lemma NoGroupsNormal(t: Json, s: Schema)
    requires s.properties == map[]
    ensures NormalForm(t, s)
  {}

  lemma {:induction false} DefaultNormal(env: Env, s: Schema)
    requires GroupsAreObjects(s) && DefaultsAccepted(s)
    ensures NormalForm(Default(env, s), s) && HasGroups(Default(env, s), s)
  {
    var d := Default(env, s);
    forall k | k in s.properties
      ensures k in d.m ==> !d.m[k].Arr? && (s.properties[k].typ in {IntegerType, NumberType} ==> d.m[k].Str?)
                           && NormalForm(d.m[k], s.properties[k])
      ensures s.properties[k].properties != map[] ==> k in d.m && HasGroups(d.m[k], s.properties[k])
    {
      var g := s.properties[k];
      if g.default != Null { NoGroupsNormal(Transform(env, g.default, g.typ), g); }
      else if g.typ == ObjectType { DefaultNormal(env, g); }
    }
  }

  lemma {:induction false} MergeNormal(env: Env, c: Json, o: Json, s: Schema)
    requires Mergeable(c, o, s) && HasGroups(c, s) && NormalForm(c, s)
    ensures NormalForm(Merge(env, c, o, s), s)
    decreases s
  {
    var r := Merge(env, c, o, s);
    forall k | k in r.m && k in s.properties
      ensures !r.m[k].Arr? && (s.properties[k].typ in {IntegerType, NumberType} ==> r.m[k].Str?)
              && NormalForm(r.m[k], s.properties[k])
    {
      var g := s.properties[k];
      if k in o.m {
        if BothMaps(c, o, k) {
          if g.properties == map[] { NoGroupsNormal(r.m[k], g); } else { MergeNormal(env, c.m[k], o.m[k], g); }
        } else if g.properties == map[] {
          NoGroupsNormal(r.m[k], g);
        }
      }
    }
  }

  /** The merged configuration is in normal form, with or without a mantl.json. */
  lemma MergedConfigNormal(env: Env, p: Option<Json>, u: Json, a: Json, s: Schema)
    requires GroupsAreObjects(s) && DefaultsAccepted(s)
    requires u.Obj? && a.Obj? && (p.Some? ==> p.value.Obj? && Mergeable(Default(env, s), Options(env, p.value, u, a, s), s))
    ensures NormalForm(MergedConfig(env, p, u, a, s), s)
  {
    DefaultNormal(env, s);
    MergeNormal(env, Default(env, s), if p.None? then Obj(map[]) else Options(env, p.value, u, a, s), s);
  }
}
