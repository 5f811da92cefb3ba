/** What single values become: the transformers value by value, the defaults that a schema declares and
    where they show, the API configuration path by path, and what a lookup finds. */
module ConfigValues {
  import opened ConfigLaws
  import opened ConfigTree
  import opened Replacement
  import opened Wrappers

  // ---------------------------------------------------------------- the transformers

  /** The text `text` as a value declared a string: `shown` is `text` with every placeholder in it
      replaced by the hosts, going from left to right. */
  ghost predicate HostsPutIn(hosts: Option<string>, text: string, shown: string)
    decreases |text|
  {
    if hosts.None? || !Contains(text, ZK_PLACEHOLDER) then shown == text
    else exists x, z, rest ::
           && text == x + ZK_PLACEHOLDER + z
           && (forall i | 0 <= i < |x| :: !OccursAt(text, ZK_PLACEHOLDER, i))
           && |z| < |text| && HostsPutIn(hosts, z, rest)
           && shown == x + hosts.value + rest
  }

  lemma {:induction false} Earliest(text: string, p: string, n: nat) returns (i: nat)
    requires OccursAt(text, p, n)
    ensures i <= n && OccursAt(text, p, i) && forall j | 0 <= j < i :: !OccursAt(text, p, j)
  {
    i := n;
    if j: nat :| j < n && OccursAt(text, p, j) { i := Earliest(text, p, j); }
  }

  lemma FirstOccurrence(text: string, p: string) returns (x: string, z: string)
    requires p != "" && Contains(text, p)
    ensures text == x + p + z && forall i | 0 <= i < |x| :: !OccursAt(text, p, i)
  {
    var n :| 0 <= n <= |text| && OccursAt(text, p, n);
    var i := Earliest(text, p, n);
    x, z := text[..i], text[i + |p|..];
    assert text == text[..i] + text[i..i + |p|] + text[i + |p|..];
  }

  lemma {:induction false} HostsAreIn(hosts: Option<string>, formats: Formats, text: string)
    ensures HostsPutIn(hosts, text, WithHosts(Env(formats, hosts), text))
    decreases |text|
  {
    if hosts.Some? && Contains(text, ZK_PLACEHOLDER) {
      var x, z := FirstOccurrence(text, ZK_PLACEHOLDER);
      ReplaceFirst(x, ZK_PLACEHOLDER, z, hosts.value);
      HostsAreIn(hosts, formats, z);
      if !Contains(z, ZK_PLACEHOLDER) { ReplaceAbsent(z, ZK_PLACEHOLDER, hosts.value); }
    }
  }

  /** What each kind of value becomes for each type. */
  lemma TransformShows(env: Env, v: Json, typ: Type)
    ensures v.Arr? ==> Transform(env, v, typ) == Str(env.formats.marshal(v.elems))
    ensures v.Num? && typ == IntegerType ==> Transform(env, v, typ) == Str(env.formats.intText(v.n))
    ensures v.Num? && typ == NumberType ==> Transform(env, v, typ) == Str(env.formats.numText(v.n))
    ensures v.Num? && typ !in {IntegerType, NumberType} ==> Transform(env, v, typ) == v
    ensures v.Str? && typ != StringType ==> Transform(env, v, typ) == v
    ensures v.Str? && typ == StringType ==> Transform(env, v, typ).Str? && HostsPutIn(env.hosts, v.s, Transform(env, v, typ).s)
    ensures v.Null? || v.Bool? || v.Obj? ==> Transform(env, v, typ) == v
  {
    if v.Str? { HostsAreIn(env.hosts, env.formats, v.s); }
  }

  // ---------------------------------------------------------------- the defaults

  /** The groups strictly above `q` are objects without a default of their own, and `q` is declared. */
  predicate PlainGroups(s: Schema, q: Path)
    decreases |q|
  {
    q != [] && q[0] in s.properties &&
    (|q| == 1 || (s.properties[q[0]].default == Null && s.properties[q[0]].typ == ObjectType && PlainGroups(s.properties[q[0]], q[1..])))
  }

  /** The group at `q` brings a default of its own. */
  predicate OwnDefault(s: Schema, q: Path) { PlainGroups(s, q) && SchemaAt(s, q).default != Null }

  /** Below such a group the defaults are what its own default is, transformed as a whole. */
  lemma {:induction false} DefaultAt(env: Env, s: Schema, q: Path, r: Path)
    requires OwnDefault(s, q)
    ensures var g := SchemaAt(s, q);
            At(Default(env, s), q + r) == if g.default.Obj? then At(g.default, r) else At(Transform(env, g.default, g.typ), r)
    decreases |q|
  {
    var d, g := Default(env, s), s.properties[q[0]];
    assert (q + r)[0] == q[0] && (q + r)[1..] == q[1..] + r;
    if |q| == 1 {
      assert q[1..] == [] && [] + r == r;
      assert SchemaAt(s, q) == g;
    } else {
      DefaultAt(env, g, q[1..], r);
    }
  }

  /** Elsewhere there is no default value. */
  lemma {:induction false} NoDefaultAt(env: Env, s: Schema, q: Path)
    requires forall i | 0 < i <= |q| :: !OwnDefault(s, q[..i])
    ensures Leaf(Default(env, s), q).None?
    decreases |q|
  {
    if q != [] && q[0] in s.properties {
      var g := s.properties[q[0]];
      assert q[..1] == [q[0]] && PlainGroups(s, q[..1]) && SchemaAt(s, q[..1]) == g;
      assert !OwnDefault(s, q[..1]);
      if g.typ == ObjectType {
        forall i | 0 < i <= |q[1..]| ensures !OwnDefault(g, q[1..][..i]) {
          assert q[..i + 1][1..] == q[1..][..i] && q[..i + 1][0] == q[0];
          assert !OwnDefault(s, q[..i + 1]);
        }
        NoDefaultAt(env, g, q[1..]);
      }
    }
  }

  /** The default layer from the schema alone: at a declared path below plain groups there is a value
      exactly when the group has a default that is no map, and it is that default: a text unless it is
      declared a string and holds the placeholder, a number as text where one is declared, an array as
      its marshalled text. */
  lemma DefaultLeaf(env: Env, s: Schema, q: Path)
    requires PlainGroups(s, q)
    ensures var g, got := SchemaAt(s, q), Leaf(Default(env, s), q);
            && (got.Some? <==> g.default != Null && !g.default.Obj?)
            && (got.Some? ==> got.value == Transform(env, g.default, g.typ))
            && (g.default.Str? && (g.typ != StringType || !Contains(g.default.s, ZK_PLACEHOLDER)) ==> got == Some(g.default))
            && (g.default.Str? && g.typ == StringType ==> got.value.Str? && HostsPutIn(env.hosts, g.default.s, got.value.s))
  {
    var g := SchemaAt(s, q);
    TransformShows(env, g.default, g.typ);
    assert q + [] == q;
    if g.default != Null {
      DefaultAt(env, s, q, []);
    } else {
      forall i | 0 < i <= |q| ensures !OwnDefault(s, q[..i]) {
        if i < |q| { PlainAbove(s, q, i); } else { assert q[..i] == q; }
      }
      NoDefaultAt(env, s, q);
    }
  }

  lemma {:induction false} PlainAbove(s: Schema, q: Path, i: nat)
    requires PlainGroups(s, q) && 0 < i < |q|
    ensures SchemaAt(s, q[..i]).default == Null
    decreases |q|
  {
    assert q[..i][0] == q[0] && q[..i][1..] == q[1..][..i - 1];
    if i > 1 { PlainAbove(s.properties[q[0]], q[1..], i - 1); }
  }

  /** A default shows in the merged configuration when there is no mantl.json, or when the layers above
      do not settle its path. */
  lemma DefaultInConfig(env: Env, p: Option<Json>, u: Json, a: Json, s: Schema, q: Path)
    requires u.Obj? && a.Obj? && (p.Some? ==> LayersMergeable(env, p.value, u, a, s))
    requires p.Some? ==> !Settles(p.value, u, a, q)
    ensures Leaf(MergedConfig(env, p, u, a, s), q) == Leaf(Default(env, s), q)
  {
    var d := Default(env, s);
    match p {
      case None =>
        assert Merge(env, d, Obj(map[]), s).m == d.m;
      case Some(t) =>
        OptionsSettle(env, t, u, a, s, q);
        OverDefaults(env, d, Options(env, t, u, a, s), s, q);
        LeafDecides(Options(env, t, u, a, s), q);
    }
  }

  // ---------------------------------------------------------------- the API configuration

  /** The value that the API configuration has at a path. */
  function ApiValue(hosts: string, mesos: Option<MesosConfig>, q: Path): Option<Json> {
    if q == ["mantl", "zookeeper", "hosts"] then Some(Str(hosts))
    else if mesos.None? then None
    else if q == ["mantl", "mesos", "principal"] then Some(Str(mesos.value.principal))
    else if q == ["mantl", "mesos", "secret"] then Some(Str(mesos.value.secret))
    else if q == ["mantl", "mesos", "secret-path"] then Some(Str(mesos.value.secretPath))
    else if q == ["mantl", "mesos", "authentication-enabled"] then Some(Bool(mesos.value.auth))
    else None
  }

  lemma OneBelow(t: Json, q: Path)
    requires t.Obj? && forall k | k in t.m :: !t.m[k].Obj?
    ensures Leaf(t, q) == if |q| == 1 && q[0] in t.m then Some(t.m[q[0]]) else None
  {
    if q != [] && q[0] in t.m {
      assert At(t, q) == At(t.m[q[0]], q[1..]);
      if |q| == 1 { assert q[1..] == []; }
    }
  }

  /** A tree with a map, or nothing, at the first key. */
  lemma Below(t: Json, q: Path)
    requires t.Obj? && forall k | k in t.m :: t.m[k].Obj?
    ensures Leaf(t, q) == if q != [] && q[0] in t.m then Leaf(t.m[q[0]], q[1..]) else None
  {}

  /** The API configuration of an install, path by path. */
  lemma ApiLeaves(hosts: string, mesos: Option<MesosConfig>, q: Path)
    ensures Leaf(ApiConfig(hosts, mesos), q) == ApiValue(hosts, mesos, q)
  {
    var a, m := ApiConfig(hosts, mesos), MantlConfig(hosts, mesos);
    assert a.m.Keys == {MANTL} && a.m[MANTL] == m;
    assert m.m.Keys == if mesos.Some? then {ZOOKEEPER, MESOS} else {ZOOKEEPER};
    Below(a, q);
    if q != [] && q[0] == MANTL {
      Below(m, q[1..]);
      if |q| > 1 {
        assert q[1..][1..] == q[2..];
        if q[1] == ZOOKEEPER { OneBelow(ZkConfig(hosts), q[2..]); }
        if q[1] == MESOS && mesos.Some? { OneBelow(MesosTree(mesos.value), q[2..]); }
      }
    }
    if |q| == 3 { assert q == [q[0], q[1], q[2]]; }
  }

  // ---------------------------------------------------------------- lookups

  /** A lookup stops at the value it comes to, and never finds a map. */
  lemma {:induction false} LookupFinds(t: Json, q: Path, r: Path)
    requires t.Obj?
    ensures Leaf(t, q).Some? ==> GetConfigVal(t, q + r) == Leaf(t, q)
    ensures IsMap(t, q) ==> GetConfigVal(t, q + r) == GetConfigVal(At(t, q).value, r)
    ensures IsMap(t, q) && r == [] ==> GetConfigVal(t, q + r).None?
    decreases |q|
  {
    if q == [] {
      assert q + r == r;
    } else {
      assert (q + r)[0] == q[0] && (q + r)[1..] == q[1..] + r;
      if q[0] in t.m {
        if t.m[q[0]].Obj? { LookupFinds(t.m[q[0]], q[1..], r); } else { assert At(t, q) == At(t.m[q[0]], q[1..]) && (|q| == 1 ==> q[1..] == []); }
      }
    }
  }

  /** It passes over a key that the map it has come to lacks. */
  lemma LookupSkips(t: Json, q: Path, k: string, r: Path)
    requires t.Obj? && IsMap(t, q) && k !in At(t, q).value.m
    ensures GetConfigVal(t, q + [k] + r) == GetConfigVal(t, q + r)
  {
    LookupFinds(t, q, [k] + r);
    LookupFinds(t, q, r);
    assert q + [k] + r == q + ([k] + r) && ([k] + r)[1..] == r;
  }
}
