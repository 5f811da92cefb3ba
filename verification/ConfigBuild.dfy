/** Fresh maps: what `json.Unmarshal` and `defaultConfig` allocate, and reading a map back. */
module ConfigBuild {
  import opened ConfigHeap
  import opened ConfigTree
  import opened Wrappers

  lemma TransformDenotes(env: Env, h: Heap, v: Value, t: Json, typ: Type)
    requires Denotes(h, v, t)
    ensures Denotes(h, TransformValue(env, v, typ), Transform(env, t, typ))
  {}

  /** Two separate regions side by side. */
  lemma Join(h1: Heap, home1: Homes, h2: Heap, home2: Homes)
    requires Placed(h1, home1) && Placed(h2, home2) && h1.Keys !! h2.Keys
    ensures Placed(h1 + h2, home1 + home2)
    ensures Closed(h1 + h2, h1.Keys) && SameOn(h1, h1 + h2, h1.Keys)
    ensures Closed(h1 + h2, h2.Keys) && SameOn(h2, h1 + h2, h2.Keys)
    ensures Closed(h1, h1.Keys) && Closed(h2, h2.Keys)
  {}

  /** The fields `f` of a map at path `p` under construction, with its sub-maps in `h`. */
  ghost predicate Built(f: Fields, h: Heap, kids: Homes, p: Path, m: map<string, Json>) {
    && Placed(h, kids)
    && forall k | k in f ::
         && k in m && Denotes(h, f[k], m[k])
         && (f[k].Ref? ==> f[k].o in kids && kids[f[k].o] == p + [k])
  }

  lemma BuiltNothing(p: Path, m: map<string, Json>)
    ensures Built(map[], Snap({}), map[], p, m)
  {}

  lemma BuiltMore(f: Fields, h: Heap, kids: Homes, p: Path, m: map<string, Json>, k: string, v: Value, h2: Heap, kids2: Homes)
    requires Built(f, h, kids, p, m) && k in m
    requires Placed(h2, kids2) && h.Keys !! h2.Keys
    requires Denotes(h2, v, m[k]) && (v.Ref? ==> v.o in kids2 && kids2[v.o] == p + [k])
    ensures Built(f[k := v], h + h2, kids + kids2, p, m)
  {
    Join(h, kids, h2, kids2);
    DenotesFrame(h2, h + h2, h2.Keys, v, m[k]);
    forall j | j in f { DenotesFrame(h, h + h2, h.Keys, f[j], m[j]); }
  }

  lemma BuiltDone(f: Fields, h: Heap, kids: Homes, p: Path, m: map<string, Json>, obj: ConfigMap)
    requires Built(f, h, kids, p, m) && f.Keys == m.Keys && obj !in h
    ensures Denotes(h[obj := f], Ref(obj), Obj(m)) && Placed(h[obj := f], kids[obj := p])
  {
    var h' := h[obj := f];
    forall k | k in m ensures Denotes(h', f[k], m[k]) { DenotesFrame(h, h', h.Keys, f[k], m[k]); }
  }

  lemma SnapUnion(S1: set<ConfigMap>, S2: set<ConfigMap>)
    requires S1 !! S2
    ensures Snap(S1 + S2) == Snap(S1) + Snap(S2)
  {}

  lemma SnapWith(S: set<ConfigMap>, o: ConfigMap)
    requires o !in S
    ensures Snap(S + {o}) == Snap(S)[o := o.fields]
  {}

  /** The finished map, with its sub-maps. */
  lemma FinishBuild(obj: ConfigMap, kids: Homes, p: Path, m: map<string, Json>)
    requires obj !in kids && obj.fields.Keys == m.Keys && Built(obj.fields, Snap(kids.Keys), kids, p, m)
    ensures var place := kids[obj := p];
            Placed(Snap(place.Keys), place) && Denotes(Snap(place.Keys), Ref(obj), Obj(m))
  {
    BuiltDone(obj.fields, Snap(kids.Keys), kids, p, m, obj);
    assert kids[obj := p].Keys == kids.Keys + {obj};
    SnapWith(kids.Keys, obj);
  }

  /** Enters the value `w`, with its own sub-maps, into the map under construction. */
  method Attach(obj: ConfigMap, k: string, w: Value, ghost kids: Homes, ghost kids2: Homes, ghost p: Path, ghost m: map<string, Json>)
    requires obj !in kids && obj !in kids2 && kids.Keys !! kids2.Keys
    requires Built(obj.fields, Snap(kids.Keys), kids, p, m) && k in m
    requires Placed(Snap(kids2.Keys), kids2)
    requires Denotes(Snap(kids2.Keys), w, m[k]) && (w.Ref? ==> w.o in kids2 && kids2[w.o] == p + [k])
    modifies obj
    ensures obj.fields == old(obj.fields)[k := w]
    ensures Built(obj.fields, Snap((kids + kids2).Keys), kids + kids2, p, m)
  {
    BuiltMore(obj.fields, Snap(kids.Keys), kids, p, m, k, w, Snap(kids2.Keys), kids2);
    obj.Set(k, w, {obj});
    assert (kids + kids2).Keys == kids.Keys + kids2.Keys;
    SnapUnion(kids.Keys, kids2.Keys);
  }

  /** The same when there may be no value. */
  method AttachIfSome(obj: ConfigMap, k: string, w: Option<Value>, ghost kids: Homes, ghost kids2: Homes, ghost p: Path, ghost m: map<string, Json>)
    returns (ghost kids': Homes)
    requires obj !in kids && obj !in kids2 && kids.Keys !! kids2.Keys
    requires Built(obj.fields, Snap(kids.Keys), kids, p, m) && Placed(Snap(kids2.Keys), kids2)
    requires w.Some? <==> k in m
    requires w.Some? ==> Denotes(Snap(kids2.Keys), w.value, m[k]) && (w.value.Ref? ==> w.value.o in kids2 && kids2[w.value.o] == p + [k])
    modifies obj
    ensures kids.Keys <= kids'.Keys <= kids.Keys + kids2.Keys
    ensures obj.fields.Keys == old(obj.fields.Keys) + if k in m then {k} else {}
    ensures Built(obj.fields, Snap(kids'.Keys), kids', p, m)
  {
    kids' := kids;
    if w.Some? {
      Attach(obj, k, w.value, kids, kids2, p, m);
      kids' := kids + kids2;
    }
  }

  /** `json.Unmarshal` into an empty interface: fresh maps that stand for `t`. */
  method Unmarshal(t: Json, ghost p: Path) returns (v: Value, ghost place: Homes)
    ensures fresh(place.Keys)
    ensures Placed(Snap(place.Keys), place) && Denotes(Snap(place.Keys), v, t)
    ensures v.Ref? ==> v.o in place && place[v.o] == p
    decreases t, 1
  {
    if !t.Obj? { return Leaf(t), map[]; }
    var obj := new ConfigMap();
    ghost var kids: Homes := map[];
    var todo := t.m.Keys;
    while todo != {}
      invariant todo <= t.m.Keys && obj.fields.Keys == t.m.Keys - todo
      invariant fresh(obj) && fresh(kids.Keys) && obj !in kids
      invariant Built(obj.fields, Snap(kids.Keys), kids, p, t.m)
    {
      var k :| k in todo;
      kids := UnmarshalKey(obj, k, t, kids, p);
      todo := todo - {k};
    }
    FinishBuild(obj, kids, p, t.m);
    v, place := Ref(obj), kids[obj := p];
  }

  /** Enters the value at key `k`. */
  method UnmarshalKey(obj: ConfigMap, k: string, t: Json, ghost kids: Homes, ghost p: Path) returns (ghost kids': Homes)
    requires t.Obj? && k in t.m && obj !in kids
    requires Built(obj.fields, Snap(kids.Keys), kids, p, t.m)
    modifies obj
    ensures kids.Keys <= kids'.Keys && fresh(kids'.Keys - kids.Keys)
    ensures obj.fields.Keys == old(obj.fields.Keys) + {k}
    ensures Built(obj.fields, Snap(kids'.Keys), kids', p, t.m)
    decreases t, 0
  {
    var w, kids2 := Unmarshal(t.m[k], p + [k]);
    Attach(obj, k, w, kids, kids2, p, t.m);
    kids' := kids + kids2;
  }

  /** What a library that walks a map sees of it. */
  method Export(m: ConfigMap, ghost S: set<ConfigMap>, ghost t: Json) returns (j: Json)
    requires Denotes(Snap(S), Ref(m), t)
    ensures j == t
    decreases t
  {
    var todo, got: map<string, Json> := m.fields.Keys, map[];
    while todo != {}
      invariant todo <= t.m.Keys && got.Keys == t.m.Keys - todo
      invariant forall k | k in got :: got[k] == t.m[k]
    {
      var k :| k in todo;
      assert Denotes(Snap(S), m.fields[k], t.m[k]);
      var w: Json;
      match m.fields[k] {
        case Leaf(x) => w := x;
        case Ref(o) => w := Export(o, S, t.m[k]);
      }
      got := got[k := w];
      todo := todo - {k};
    }
    j := Obj(got);
    assert got == t.m;
  }
}
