/** Where the order of a merge's keys begins to matter.  The string transformer reads the hosts from
    the live API configuration, so a merge that writes the hosts changes what later copies read. */
module ConfigOrder {
  import opened ConfigHeap
  import opened ConfigTree
  import opened Replacement
  import opened Wrappers

  /** `config[k] = transformedConfigValue(v, typ)`, with the hosts as they are at that moment. */
  ghost function Copied(formats: Formats, api: ConfigMap, h: Heap, x: ConfigMap, k: string, v: Value, typ: Type): (h': Heap)
    requires x in h
    ensures h'.Keys == h.Keys
  {
    h[x := h[x][k := TransformValue(Env(formats, HostsIn(h, api)), v, typ)]]
  }

  /** The entry that a lookup ends at. */
  ghost function LookupEnd(h: Heap, m: ConfigMap, keys: Path): Option<(ConfigMap, string)>
    decreases |keys|
  {
    if keys == [] || m !in h then None
    else match Entry(h[m], keys[0])
         case None => LookupEnd(h, m, keys[1..])
         case Some(Ref(o)) => LookupEnd(h, o, keys[1..])
         case Some(_) => Some((m, keys[0]))
  }

  lemma {:induction false} LookupAtEnd(h: Heap, m: ConfigMap, keys: Path)
    ensures match LookupEnd(h, m, keys)
            case None => Lookup(h, m, keys).None?
            case Some((z, k)) => z in h && k in h[z] && h[z][k].Leaf? && Lookup(h, m, keys) == Some(h[z][k])
    decreases |keys|
  {
    if keys != [] && m in h {
      match Entry(h[m], keys[0]) {
        case None => LookupAtEnd(h, m, keys[1..]);
        case Some(Ref(o)) => LookupAtEnd(h, o, keys[1..]);
        case Some(_) =>
      }
    }
  }

  /** Overwriting a plain value by a plain value moves no lookup. */
  lemma {:induction false} LookupEndKept(h: Heap, x: ConfigMap, k: string, v: Value, m: ConfigMap, keys: Path)
    requires x in h && k in h[x] && h[x][k].Leaf? && v.Leaf?
    ensures LookupEnd(h[x := h[x][k := v]], m, keys) == LookupEnd(h, m, keys)
    decreases |keys|
  {
    if keys != [] && m in h {
      match Entry(h[m], keys[0]) {
        case None => LookupEndKept(h, x, k, v, m, keys[1..]);
        case Some(Ref(o)) => LookupEndKept(h, x, k, v, o, keys[1..]);
        case Some(_) =>
      }
    }
  }

  /** A longer replacement makes a text that holds the pattern longer. */
  lemma {:induction false} LongerReplacement(text: string, p: string, a: string, b: string)
    requires p != "" && |a| < |b|
    ensures |ReplaceAll(text, p, a)| <= |ReplaceAll(text, p, b)|
    ensures Contains(text, p) ==> |ReplaceAll(text, p, a)| < |ReplaceAll(text, p, b)|
  {
    if |text| < |p| {
    } else if OccursAt(text, p, 0) {
      LongerReplacement(text[|p|..], p, a, b);
    } else {
      LongerReplacement(text[1..], p, a, b);
      if i :| 0 <= i <= |text| && OccursAt(text, p, i) {
        assert text[1..][i - 1..i - 1 + |p|] == text[i..i + |p|];
        assert OccursAt(text[1..], p, i - 1);
      }
    }
  }

  /** Hosts that hold the placeholder grow when they are copied over themselves. */
  lemma HostsGrow(formats: Formats, hosts: string)
    requires Contains(hosts, ZK_PLACEHOLDER) && hosts != ZK_PLACEHOLDER
    ensures |hosts| < |WithHosts(Env(formats, Some(hosts)), hosts)|
  {
    var p := ZK_PLACEHOLDER;
    var i :| 0 <= i <= |hosts| && OccursAt(hosts, p, i);
    assert hosts[..|hosts|] == hosts;
    OccurrenceChanges(hosts, p, hosts);
  }

  lemma GrownHostsShow(formats: Formats, hosts: string, text: string)
    requires Contains(hosts, ZK_PLACEHOLDER) && hosts != ZK_PLACEHOLDER
    ensures var grown := WithHosts(Env(formats, Some(hosts)), hosts);
            WithHosts(Env(formats, Some(hosts)), text) == WithHosts(Env(formats, Some(grown)), text) <==>
            !Contains(text, ZK_PLACEHOLDER)
  {
    HostsGrow(formats, hosts);
    LongerReplacement(text, ZK_PLACEHOLDER, hosts, WithHosts(Env(formats, Some(hosts)), hosts));
  }

  lemma HostsAtEnd(h: Heap, api: ConfigMap, z: ConfigMap, hk: string, hosts: string)
    requires LookupEnd(h, api, HOSTS_PATH) == Some((z, hk)) && z in h && hk in h[z] && h[z][hk] == Leaf(Str(hosts))
    ensures HostsIn(h, api) == Some(hosts)
  {
    LookupAtEnd(h, api, HOSTS_PATH);
  }

  /** The heap after the hosts, held at `z`, are copied over themselves and then a text is copied to `x`. */
  ghost function HostsFirst(formats: Formats, api: ConfigMap, h: Heap, z: ConfigMap, hk: string, hosts: string, x: ConfigMap, k: string, text: string): Heap
    requires z in h && x in h
  {
    Copied(formats, api, Copied(formats, api, h, z, hk, Leaf(Str(hosts)), StringType), x, k, Leaf(Str(text)), StringType)
  }

  /** The same in the other order. */
  ghost function TextFirst(formats: Formats, api: ConfigMap, h: Heap, z: ConfigMap, hk: string, hosts: string, x: ConfigMap, k: string, text: string): Heap
    requires z in h && x in h
  {
    Copied(formats, api, Copied(formats, api, h, x, k, Leaf(Str(text)), StringType), z, hk, Leaf(Str(hosts)), StringType)
  }

  /** The exact limit of order-independence.  A merge copies the API's hosts over themselves, and they
      hold the placeholder without being it; it also copies another text over a plain value, in the same
      map or in another.  The two orders give the same heap if and only if the other text does
      not hold the placeholder. */
  lemma OrderMatters(formats: Formats, api: ConfigMap, h: Heap, z: ConfigMap, hk: string, hosts: string, x: ConfigMap, k: string, text: string)
    requires LookupEnd(h, api, HOSTS_PATH) == Some((z, hk)) && z in h && hk in h[z] && h[z][hk] == Leaf(Str(hosts))
    requires Contains(hosts, ZK_PLACEHOLDER) && hosts != ZK_PLACEHOLDER
    requires x in h && k in h[x] && h[x][k].Leaf? && (x, k) != (z, hk)
    ensures HostsFirst(formats, api, h, z, hk, hosts, x, k, text) == TextFirst(formats, api, h, z, hk, hosts, x, k, text)
            <==> !Contains(text, ZK_PLACEHOLDER)
  {
    var env := Env(formats, Some(hosts));
    var grown := WithHosts(env, hosts);
    var after := Env(formats, Some(grown));
    HostsAtEnd(h, api, z, hk, hosts);
    var h1 := Copied(formats, api, h, z, hk, Leaf(Str(hosts)), StringType);
    LookupEndKept(h, z, hk, Leaf(Str(grown)), api, HOSTS_PATH);
    HostsAtEnd(h1, api, z, hk, grown);
    var h2 := Copied(formats, api, h, x, k, Leaf(Str(text)), StringType);
    LookupEndKept(h, x, k, Leaf(Str(WithHosts(env, text))), api, HOSTS_PATH);
    HostsAtEnd(h2, api, z, hk, hosts);
    GrownHostsShow(formats, hosts, text);
    BothWritten(h, z, hk, Leaf(Str(grown)), x, k, Leaf(Str(WithHosts(env, text))), Leaf(Str(WithHosts(after, text))));
  }

  lemma BothWritten(h: Heap, z: ConfigMap, hk: string, w: Value, x: ConfigMap, k: string, v: Value, v': Value)
    requires z in h && x in h && (x, k) != (z, hk)
    ensures var h1, h2 := h[z := h[z][hk := w]], h[x := h[x][k := v]];
            h1[x := h1[x][k := v']] == h2[z := h2[z][hk := w]] <==> v == v'
  {
    var h1, h2 := h[z := h[z][hk := w]], h[x := h[x][k := v]];
    var a, b := h1[x := h1[x][k := v']], h2[z := h2[z][hk := w]];
    assert a[x][k] == v' && b[x][k] == v;
    if v == v' {
      assert a[x] == b[x] && a[z] == b[z];
      assert a == b;
    }
  }
}
