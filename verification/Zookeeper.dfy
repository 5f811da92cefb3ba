/** Recursive znode deletion against a server that other clients may be changing meanwhile. */
module Zookeeper {
  import opened Paths
  import opened Ordering
  import opened Wrappers

  // ---------------------------------------------------------------- trees and listings

  type Tree = set<Segs>

  /** A parent-closed tree with well-formed node names. */
  predicate TreeOk(t: Tree) {
    [] in t && forall n | n in t :: CleanSegs(n) && (n != [] ==> n[..|n| - 1] in t)
  }

  /** The proper descendants of `k`. */
  function BelowNode(t: Tree, k: Segs): Tree { set n | n in t && k < n }

  function Subtree(t: Tree, k: Segs): Tree { set n | n in t && k <= n }

  function Names(t: Tree, k: Segs): set<string> { set n | n in t && |n| == |k| + 1 && k < n :: n[|k|] }

  /** The node that the server takes a path text for, if it takes it at all. */
  function Parse(s: string): Option<Segs> {
    if s == "/" then Some([])
    else if s != "" && s[0] == '/' && CleanSegs(Split(s[1..])) then Some(Split(s[1..]))
    else None
  }

  lemma ParseAbs(p: Segs)
    requires CleanSegs(p)
    ensures Parse(Abs(p)) == Some(p)
  {
    if p != [] {
      SplitJoin(p);
      JoinNotEmpty(p);
      assert Abs(p)[1..] == JoinSegs(p);
    }
  }

  lemma ParseIsAbs(s: string)
    requires Parse(s).Some?
    ensures CleanSegs(Parse(s).value) && s == Abs(Parse(s).value)
  {
    if s != "/" { JoinSplit(s[1..]); assert s == "/" + s[1..]; }
  }

  /** Node order: segment by segment, parents before children. */
  predicate SegsLess(a: Segs, b: Segs) {
    b != [] && (a == [] || StrLess(a[0], b[0]) || (a[0] == b[0] && SegsLess(a[1..], b[1..])))
  }

  lemma {:induction false} SegsLessNotPrefix(a: Segs, b: Segs)
    requires SegsLess(a, b)
    ensures !(b <= a)
  {
    if a != [] {
      StrTotal(a[0], b[0]);
      if a[0] == b[0] {
        SegsLessNotPrefix(a[1..], b[1..]);
        assert b[1..] <= a[1..] || !(b <= a);
      }
    }
  }

  /** `rels` lists the proper descendants of `k`, relative to it, each once and in node order. */
  ghost predicate Lists(t: Tree, k: Segs, rels: seq<Segs>) {
    && (forall i | 0 <= i < |rels| :: rels[i] != [] && k + rels[i] in t)
    && (forall n | n in t && k < n :: n[|k|..] in rels)
    && (forall i, j | 0 <= i < j < |rels| :: SegsLess(rels[i], rels[j]))
  }

  // ---------------------------------------------------------------- the server

  datatype Change = Create(node: Segs) | Remove(node: Segs)

  /** One successful delete of this client: the node, and the tree it was deleted from. */
  datatype Deletion = Deletion(node: Segs, before: Tree)

  class Server {
    var nodes: Tree
    // how many more nodes other clients will create while this client works
    var budget: nat
    // no other clients and no failing calls
    const quiet: bool
    ghost var deletions: seq<Deletion>
    // how many listings of this client were refused, names it was listed, and deletes it attempted
    ghost var refused: nat
    ghost var named: nat
    ghost var tried: nat

    constructor (nodes: Tree, budget: nat, quiet: bool)
      ensures this.nodes == nodes && this.budget == budget && this.quiet == quiet && deletions == []
      ensures refused == named == tried == 0
    {
      this.nodes, this.budget, this.quiet, deletions := nodes, budget, quiet, [];
      refused, named, tried := 0, 0, 0;
    }

    /** An upper bound on the nodes below `k` that can still be met. */
    ghost function Room(k: Segs): nat
      reads this
    {
      budget + |BelowNode(nodes, k)|
    }

    /** What other clients do between two calls of this one: anything that keeps a tree a tree. */
    method Others()
      requires TreeOk(nodes)
      modifies this`nodes, this`budget
      ensures TreeOk(nodes) && budget <= old(budget)
      ensures forall k :: Room(k) <= old(Room(k))
      ensures quiet ==> nodes == old(nodes) && budget == old(budget)
    {
      if quiet { return; }
      var changes: seq<Change> := *;
      for i := 0 to |changes|
        invariant TreeOk(nodes) && budget <= old(budget)
        invariant forall k :: Room(k) <= old(Room(k))
      {
        match changes[i] {
          case Create(n) =>
            if budget > 0 && n != [] && n !in nodes && CleanSegs(n) && n[..|n| - 1] in nodes {
              forall k { BelowCreate(nodes, n, k); }
              nodes, budget := nodes + {n}, budget - 1;
            }
          case Remove(n) =>
            if n != [] && n in nodes && BelowNode(nodes, n) == {} {
              forall k { BelowRemove(nodes, n, k); }
              RemoveOk(nodes, n);
              nodes := nodes - {n};
            }
        }
      }
    }

    /** conn.Children: the names, in no particular order. */
    method Children(path: string) returns (r: Option<set<string>>)
      requires TreeOk(nodes)
      modifies this`nodes, this`budget, this`refused, this`named
      ensures TreeOk(nodes) && budget <= old(budget)
      ensures forall k :: Room(k) <= old(Room(k))
      ensures r.Some? ==> Parse(path).Some? && Parse(path).value in nodes && r.value == Names(nodes, Parse(path).value)
      ensures refused == old(refused) + (if r.None? then 1 else 0)
      ensures named == old(named) + (if r.None? then 0 else |r.value|)
      ensures quiet ==> nodes == old(nodes) && budget == old(budget)
      ensures quiet ==> (r.Some? <==> Parse(path).Some? && Parse(path).value in nodes)
    {
      Others();
      var reachable: bool := *;
      var k := Parse(path);
      if (!quiet && !reachable) || k.None? || k.value !in nodes {
        refused := refused + 1;
        return None;
      }
      r := Some(Names(nodes, k.value));
      named := named + |r.value|;
    }

    /** conn.Delete, which refuses the root, a missing node and a node with children. */
    method Delete(path: string) returns (ok: bool)
      requires TreeOk(nodes)
      modifies this
      ensures TreeOk(nodes)
      ensures ok ==> Parse(path).Some? &&
                     exists before ::
                       && deletions == old(deletions) + [Deletion(Parse(path).value, before)]
                       && LegalDeletion(Deletion(Parse(path).value, before))
                       && nodes == before - {Parse(path).value}
      ensures !ok ==> deletions == old(deletions)
      ensures refused == old(refused) && named == old(named) && tried == old(tried) + 1
      ensures quiet ==> (ok <==> Parse(path).Some? && Parse(path).value != [] && Parse(path).value in old(nodes)
                                 && BelowNode(old(nodes), Parse(path).value) == {})
      ensures quiet ==> nodes == old(nodes) - if ok then {Parse(path).value} else {}
    {
      Others();
      tried := tried + 1;
      var reachable: bool := *;
      if !quiet && !reachable { return false; }
      var k := Parse(path);
      if k.None? || k.value == [] || k.value !in nodes || BelowNode(nodes, k.value) != {} { return false; }
      ghost var before := nodes;
      RemoveOk(nodes, k.value);
      nodes := nodes - {k.value};
      deletions := deletions + [Deletion(k.value, before)];
      ok := true;
    }
  }

  /** A node that was there and had no children. */
  ghost predicate LegalDeletion(d: Deletion) {
    d.node != [] && d.node in d.before && TreeOk(d.before) && BelowNode(d.before, d.node) == {}
  }

  lemma BelowCreate(t: Tree, n: Segs, k: Segs)
    requires n !in t
    ensures |BelowNode(t + {n}, k)| <= |BelowNode(t, k)| + 1
  {
    assert BelowNode(t + {n}, k) == if k < n then BelowNode(t, k) + {n} else BelowNode(t, k);
  }

  lemma BelowRemove(t: Tree, n: Segs, k: Segs)
    ensures |BelowNode(t - {n}, k)| <= |BelowNode(t, k)|
  {
    Smaller(BelowNode(t - {n}, k), BelowNode(t, k));
  }

  lemma {:induction false} Smaller(a: Tree, b: Tree)
    requires a <= b
    ensures |a| <= |b|
  {
    if a != {} {
      var x :| x in a;
      Smaller(a - {x}, b - {x});
    }
  }

  lemma RemoveOk(t: Tree, n: Segs)
    requires TreeOk(t) && n != [] && BelowNode(t, n) == {}
    ensures TreeOk(t - {n})
  {
    forall m | m in t - {n} && m != [] ensures m[..|m| - 1] in t - {n} {
      assert m[..|m| - 1] == n ==> m in BelowNode(t, n);
    }
  }

  // ---------------------------------------------------------------- znodeTree

  lemma {:induction false} AncestorIn(t: Tree, n: Segs, l: nat)
    requires TreeOk(t) && n in t && l <= |n|
    ensures n[..l] in t
    decreases |n|
  {
    if l < |n| {
      AncestorIn(t, n[..|n| - 1], l);
      assert n[..|n| - 1][..l] == n[..l];
    } else {
      assert n[..l] == n;
    }
  }

  /** A child that is there has less below it; one that is gone has nothing. */
  lemma ChildRoom(t: Tree, k: Segs, c: string)
    requires TreeOk(t)
    ensures |BelowNode(t, k + [c])| < |BelowNode(t, k)| || BelowNode(t, k + [c]) == {}
  {
    var n := k + [c];
    if n in t {
      assert n !in BelowNode(t, n) && n in BelowNode(t, k);
      Smaller(BelowNode(t, n) + {n}, BelowNode(t, k));
    } else {
      forall m | m in t ensures !(n < m) {
        if |n| <= |m| { AncestorIn(t, m, |n|); }
        assert |n| < |m| && m[..|n|] == n ==> n in t;
      }
    }
  }

  lemma NamesBelow(t: Tree, k: Segs)
    ensures Names(t, k) != {} ==> |BelowNode(t, k)| > 0
  {
    if Names(t, k) != {} {
      var n :| n in t && |n| == |k| + 1 && k < n;
      assert n in BelowNode(t, k);
    }
  }

  /** The descendants of `k` under the given children are listed. */
  ghost predicate ListsUnder(t: Tree, k: Segs, names: set<string>, rels: seq<Segs>) {
    && (forall i | 0 <= i < |rels| :: rels[i] != [] && k + rels[i] in t && rels[i][0] in names)
    && (forall n | n in t && k < n && n[|k|] in names :: n[|k|..] in rels)
    && (forall i, j | 0 <= i < j < |rels| :: SegsLess(rels[i], rels[j]))
  }

  function Under(c: string, sub: seq<Segs>): (r: seq<Segs>)
    ensures |r| == |sub| + 1 && r[0] == [c] && forall i | 0 <= i < |sub| :: r[i + 1] == [c] + sub[i]
  {
    [[c]] + seq(|sub|, i requires 0 <= i < |sub| => [c] + sub[i])
  }

  lemma ListsMore(t: Tree, k: Segs, names: set<string>, c: string, rels: seq<Segs>, sub: seq<Segs>)
    requires TreeOk(t) && k + [c] in t
    requires ListsUnder(t, k, names, rels) && Lists(t, k + [c], sub)
    requires forall x | x in names :: StrLess(x, c)
    ensures ListsUnder(t, k, names + {c}, rels + Under(c, sub))
  {
    UnderAll(t, k, c, sub);
    CoversMore(t, k, names, c, rels, sub);
    SortedAppend(rels, Under(c, sub), names, c);
    InTreeAppend(t, k, names, c, rels, Under(c, sub));
  }

  lemma InTreeAppend(t: Tree, k: Segs, names: set<string>, c: string, a: seq<Segs>, b: seq<Segs>)
    requires forall i | 0 <= i < |a| :: a[i] != [] && k + a[i] in t && a[i][0] in names
    requires forall i | 0 <= i < |b| :: b[i] != [] && k + b[i] in t && b[i][0] == c
    ensures forall i | 0 <= i < |a + b| :: (a + b)[i] != [] && k + (a + b)[i] in t && (a + b)[i][0] in names + {c}
  {}

  /** A child and what is below it, in order. */
  lemma UnderAll(t: Tree, k: Segs, c: string, sub: seq<Segs>)
    requires k + [c] in t && Lists(t, k + [c], sub)
    ensures var added := Under(c, sub);
            && (forall i | 0 <= i < |added| :: added[i] != [] && k + added[i] in t && added[i][0] == c)
            && (forall i, j | 0 <= i < j < |added| :: SegsLess(added[i], added[j]))
  {
    var added := Under(c, sub);
    forall i | 0 <= i < |added| ensures added[i] != [] && k + added[i] in t && added[i][0] == c {
      UnderAt(t, k, c, sub, i);
    }
    forall i, j | 0 <= i < j < |added| ensures SegsLess(added[i], added[j]) { UnderSorted(t, k, c, sub, i, j); }
  }

  lemma CoversMore(t: Tree, k: Segs, names: set<string>, c: string, rels: seq<Segs>, sub: seq<Segs>)
    requires Lists(t, k + [c], sub) && forall n | n in t && k < n && n[|k|] in names :: n[|k|..] in rels
    ensures forall n | n in t && k < n && n[|k|] in names + {c} :: n[|k|..] in rels + Under(c, sub)
  {
    forall n | n in t && k < n && n[|k|] in names + {c} ensures n[|k|..] in rels + Under(c, sub) {
      if n[|k|] == c { UnderHas(t, k, c, sub, n); }
    }
  }

  lemma SortedAppend(a: seq<Segs>, b: seq<Segs>, names: set<string>, c: string)
    requires forall i, j | 0 <= i < j < |a| :: SegsLess(a[i], a[j])
    requires forall i, j | 0 <= i < j < |b| :: SegsLess(b[i], b[j])
    requires forall i | 0 <= i < |a| :: a[i] != [] && a[i][0] in names
    requires forall i | 0 <= i < |b| :: b[i] != [] && b[i][0] == c
    requires forall x | x in names :: StrLess(x, c)
    ensures forall i, j | 0 <= i < j < |a + b| :: SegsLess((a + b)[i], (a + b)[j])
  {
    forall i, j | 0 <= i < j < |a + b| ensures SegsLess((a + b)[i], (a + b)[j]) {
      if i < |a| <= j { assert a[i][0] in names && b[j - |a|][0] == c; }
    }
  }

  lemma AppendAssoc(k: Segs, c: string, x: Segs)
    ensures k + ([c] + x) == k + [c] + x
  {}

  lemma UnderAt(t: Tree, k: Segs, c: string, sub: seq<Segs>, i: nat)
    requires k + [c] in t && Lists(t, k + [c], sub) && i < |Under(c, sub)|
    ensures var x := Under(c, sub)[i]; x != [] && k + x in t && x[0] == c
  {
    if i > 0 {
      AppendAssoc(k, c, sub[i - 1]);
    }
  }

  lemma UnderSorted(t: Tree, k: Segs, c: string, sub: seq<Segs>, i: nat, j: nat)
    requires Lists(t, k + [c], sub) && i < j < |Under(c, sub)|
    ensures SegsLess(Under(c, sub)[i], Under(c, sub)[j])
  {
    var x, y := Under(c, sub)[i], Under(c, sub)[j];
    assert y == [c] + sub[j - 1] && y[1..] == sub[j - 1];
    if i > 0 {
      assert x == [c] + sub[i - 1] && x[1..] == sub[i - 1];
    } else {
      assert x[1..] == [];
    }
  }

  lemma UnderHas(t: Tree, k: Segs, c: string, sub: seq<Segs>, n: Segs)
    requires Lists(t, k + [c], sub) && n in t && k < n && n[|k|] == c
    ensures n[|k|..] in Under(c, sub)
  {
    var rest := n[|k| + 1..];
    AppendAssoc(k, c, rest);
    assert n[|k|..] == [c] + rest && n == k + [c] + rest;
    if rest == [] {
      assert Under(c, sub)[0] == n[|k|..];
    } else {
      assert n[|k + [c]|..] == rest;
      var i :| 0 <= i < |sub| && sub[i] == rest;
      assert Under(c, sub)[i + 1] == n[|k|..];
    }
  }

  lemma ListsAll(t: Tree, k: Segs, rels: seq<Segs>)
    requires TreeOk(t) && ListsUnder(t, k, Names(t, k), rels)
    ensures Lists(t, k, rels)
  {
    forall n | n in t && k < n ensures n[|k|..] in rels {
      AncestorIn(t, n, |k| + 1);
      assert n[..|k| + 1][|k|] == n[|k|] && k < n[..|k| + 1];
      assert n[|k|] in Names(t, k);
    }
  }

  /** The texts returned are the paths `rels`, written relative to the root of the listing. */
  ghost predicate Written(nx: Segs, rels: seq<Segs>, texts: seq<string>) {
    && |rels| == |texts|
    && forall i | 0 <= i < |rels| :: rels[i] != [] && CleanSegs(rels[i]) && texts[i] == Rel(nx + rels[i])
  }

  lemma WrittenUnder(nx: Segs, c: string, sub: seq<Segs>, subTexts: seq<string>)
    requires CleanSeg(c) && Written(nx + [c], sub, subTexts)
    ensures Written(nx, Under(c, sub), [Rel(nx + [c])] + subTexts)
  {
    var added, texts := Under(c, sub), [Rel(nx + [c])] + subTexts;
    forall i | 0 <= i < |added| ensures added[i] != [] && CleanSegs(added[i]) && texts[i] == Rel(nx + added[i]) {
      if i > 0 { UnderWritten(nx, c, sub[i - 1]); }
    }
  }

  lemma ChildPaths(k: Segs, nx: Segs, c: string)
    requires CleanSegs(k) && CleanSegs(nx) && CleanSeg(c)
    ensures CleanSegs(nx + [c]) && PathJoin([Rel(nx), c]) == Rel(nx + [c])
    ensures PathJoin([Abs(k), c]) == Abs(k + [c]) && Parse(Abs(k + [c])) == Some(k + [c])
  {
    assert Rel([c]) == c;
    PathJoinRel(nx, [c]);
    PathJoinAbs(k, [c]);
    ParseAbs(k + [c]);
  }

  lemma UnderWritten(nx: Segs, c: string, x: Segs)
    requires CleanSeg(c) && CleanSegs(x)
    ensures CleanSegs([c] + x) && nx + ([c] + x) == nx + [c] + x
  {}

  lemma WrittenAppend(nx: Segs, a: seq<Segs>, aTexts: seq<string>, b: seq<Segs>, bTexts: seq<string>)
    requires Written(nx, a, aTexts) && Written(nx, b, bTexts)
    ensures Written(nx, a + b, aTexts + bTexts)
  {}

  /** `znodeTree`: without interference, the complete listing; with it, no more than a listing. */
  method ZnodeTree(z: Server, keyPath: string, nextKeyPath: string, ghost nx: Segs)
    returns (r: Option<seq<string>>, ghost rels: seq<Segs>)
    requires TreeOk(z.nodes) && CleanSegs(nx) && nextKeyPath == Rel(nx)
    modifies z`nodes, z`budget, z`refused, z`named
    ensures TreeOk(z.nodes) && z.budget <= old(z.budget)
    ensures forall k :: z.Room(k) <= old(z.Room(k))
    ensures r.Some? ==> Parse(keyPath).Some? && Written(nx, rels, r.value)
    ensures r.None? <==> z.refused > old(z.refused)
    ensures z.refused >= old(z.refused) && (r.Some? ==> |r.value| == z.named - old(z.named))
    ensures z.quiet ==> z.nodes == old(z.nodes) && z.budget == old(z.budget)
    ensures z.quiet ==> (r.Some? <==> Parse(keyPath).Some? && Parse(keyPath).value in z.nodes)
    ensures z.quiet && r.Some? ==> Lists(z.nodes, Parse(keyPath).value, rels)
    decreases if Parse(keyPath).Some? then z.Room(Parse(keyPath).value) else 0, 1
  {
    rels := [];
    var names := z.Children(keyPath);
    if names.None? { return None, rels; }
    ghost var k, t, room := Parse(keyPath).value, z.nodes, z.budget;
    NamesBelow(t, k);
    ParseIsAbs(keyPath);
    var children := SortedKeys(names.value);
    var nested: seq<string> := [];
    for i := 0 to |children|
      invariant TreeOk(z.nodes) && z.budget <= room
      invariant forall k :: z.Room(k) <= old(z.Room(k))
      invariant Written(nx, rels, nested)
      invariant z.refused == old(z.refused) && |nested| + |children| - i == z.named - old(z.named)
      invariant z.quiet ==> z.nodes == t && z.budget == room
      invariant z.quiet ==> ListsUnder(t, k, Elems(children[..i]), rels)
    {
      var child := children[i];
      NameIsChild(t, k, child, names.value);
      ChildRoom(z.nodes, k, child);
      var sub;
      ghost var subRels;
      sub, subRels := ChildTree(z, keyPath, nextKeyPath, child, k, nx, old(z.Room(k)));
      if sub.None? { return None, rels; }
      TakeNext(children, i);
      if z.quiet { ListsMore(t, k, Elems(children[..i]), child, rels, subRels); }
      WrittenAppend(nx, rels, nested, Under(child, subRels), sub.value);
      nested := nested + sub.value;
      rels := rels + Under(child, subRels);
    }
    assert children[..|children|] == children;
    if z.quiet { ListsAll(t, k, rels); }
    r := Some(nested);
  }

  lemma NameIsChild(t: Tree, k: Segs, c: string, names: set<string>)
    requires TreeOk(t) && c in names && names == Names(t, k)
    ensures k + [c] in t && CleanSeg(c)
  {
    var n :| n in t && |n| == |k| + 1 && k < n && n[|k|] == c;
    assert n == k + [c] && CleanSeg(n[|k|]);
  }

  /** One child of the listing, and what is below it. */
  method ChildTree(z: Server, keyPath: string, nextKeyPath: string, child: string, ghost k: Segs, ghost nx: Segs, ghost bound: nat)
    returns (r: Option<seq<string>>, ghost subRels: seq<Segs>)
    requires TreeOk(z.nodes) && CleanSegs(nx) && nextKeyPath == Rel(nx)
    requires CleanSegs(k) && keyPath == Abs(k) && CleanSeg(child)
    requires z.Room(k + [child]) < bound
    modifies z`nodes, z`budget, z`refused, z`named
    ensures TreeOk(z.nodes) && z.budget <= old(z.budget)
    ensures forall k :: z.Room(k) <= old(z.Room(k))
    ensures r.Some? ==> Written(nx, Under(child, subRels), r.value)
    ensures r.None? <==> z.refused > old(z.refused)
    ensures z.refused >= old(z.refused) && (r.Some? ==> |r.value| == z.named - old(z.named) + 1)
    ensures z.quiet ==> z.nodes == old(z.nodes) && z.budget == old(z.budget)
    ensures z.quiet ==> (r.Some? <==> k + [child] in z.nodes)
    ensures z.quiet && r.Some? ==> Lists(z.nodes, k + [child], subRels)
    decreases bound, 0
  {
    var nextChild, childPath := PathJoin([nextKeyPath, child]), PathJoin([keyPath, child]);
    ChildPaths(k, nx, child);
    var sub;
    sub, subRels := ZnodeTree(z, childPath, nextChild, nx + [child]);
    if sub.None? { return None, subRels; }
    WrittenUnder(nx, child, subRels, sub.value);
    r := Some([nextChild] + sub.value);
  }

  // ---------------------------------------------------------------- deleteTree

  /** The listed nodes from position `i` on. */
  function ListedFrom(k: Segs, rels: seq<Segs>, i: nat): Tree { set j | i <= j < |rels| :: k + rels[j] }

  lemma ListedFromNext(k: Segs, rels: seq<Segs>, i: nat)
    requires i < |rels|
    ensures ListedFrom(k, rels, i) == ListedFrom(k, rels, i + 1) + {k + rels[i]}
  {}

  lemma PrefixTrans(k: Segs, n: Segs, m: Segs)
    ensures k <= n && n < m ==> k < m
  {
    if k <= n && n < m { assert m[..|k|] == n[..|k|]; }
  }

  /** Working backwards, the next node is still there and all that was below it is gone. */
  lemma NextIsChildless(t: Tree, k: Segs, rels: seq<Segs>, i: nat)
    requires Lists(t, k, rels) && i < |rels|
    ensures var now := t - ListedFrom(k, rels, i + 1);
            && k + rels[i] in now && BelowNode(now, k + rels[i]) == {}
            && now - {k + rels[i]} == t - ListedFrom(k, rels, i)
  {
    ListedFromNext(k, rels, i);
    var n, now := k + rels[i], t - ListedFrom(k, rels, i + 1);
    forall j | i < j < |rels| ensures k + rels[j] != n {
      SegsLessNotPrefix(rels[i], rels[j]);
      assert (k + rels[j])[|k|..] == rels[j] && n[|k|..] == rels[i];
    }
    forall m | m in now ensures !(n < m) {
      if k < m {
        var j :| 0 <= j < |rels| && rels[j] == m[|k|..];
        assert m == k + rels[j];
        if j < i { SegsLessNotPrefix(rels[j], rels[i]); }
        assert n <= m ==> m[|k|..][..|rels[i]|] == n[|k|..] == rels[i];
      }
      PrefixTrans(k, n, m);
    }
  }

  lemma AllListedIsSubtree(t: Tree, k: Segs, rels: seq<Segs>)
    requires Lists(t, k, rels)
    ensures t - ListedFrom(k, rels, 0) - {k} == t - Subtree(t, k)
  {
    forall n | n in t ensures n in ListedFrom(k, rels, 0) || n == k <==> k <= n {
      if k < n {
        var j :| 0 <= j < |rels| && rels[j] == n[|k|..];
        assert n == k + rels[j];
      }
    }
  }

  lemma KeyIsLast(t: Tree, k: Segs, rels: seq<Segs>)
    requires Lists(t, k, rels) && k in t
    ensures var now := t - ListedFrom(k, rels, 0); k in now && BelowNode(now, k) == {}
  {
    AllListedIsSubtree(t, k, rels);
    var now := t - ListedFrom(k, rels, 0);
    forall j | 0 <= j < |rels| ensures k + rels[j] != k { assert |k + rels[j]| > |k|; }
    forall m | m in now ensures !(k < m) { assert m != k ==> m in now - {k}; }
  }

  /** `keyPath + "/" + rel`: the listed node's path, except for the root, where it is no path. */
  lemma ZnodePath(k: Segs, r: Segs)
    requires CleanSegs(k) && CleanSegs(r) && r != []
    ensures Parse(Abs(k) + "/" + Rel(r)) == if k == [] then None else Some(k + r)
  {
    if k == [] {
      var s := Abs(k) + "/" + Rel(r);
      assert s[1..] == "" + "/" + Rel(r) && s == "/" + s[1..];
      SplitAtSlash("", Rel(r));
      assert !CleanSeg(Split(s[1..])[0]);
    } else {
      JoinAppend(k, r);
      assert Abs(k) + "/" + Rel(r) == Abs(k + r);
      ParseAbs(k + r);
    }
  }

  lemma ListedPath(k: Segs, rels: seq<Segs>, texts: seq<string>, i: nat)
    requires CleanSegs(k) && Written([], rels, texts) && i < |rels|
    ensures Parse(Abs(k) + "/" + texts[i]) == if k == [] then None else Some(k + rels[i])
  {
    assert [] + rels[i] == rels[i];
    ZnodePath(k, rels[i]);
  }

  /** All that was deleted since `from` was at or below `k`, and deleted legally. */
  ghost predicate DeletedWithin(ds: seq<Deletion>, from: nat, k: Segs) {
    from <= |ds| && forall i | from <= i < |ds| :: k <= ds[i].node && LegalDeletion(ds[i])
  }

  lemma DeletedMore(ds: seq<Deletion>, from: nat, k: Segs, d: Deletion)
    requires DeletedWithin(ds, from, k) && k <= d.node && LegalDeletion(d)
    ensures DeletedWithin(ds + [d], from, k)
  {}

  /** `deleteNode`, for a path at or below `k` or no path at all. */
  method DeleteNode(z: Server, keyPath: string, ghost k: Segs, ghost from: nat) returns (ok: bool)
    requires TreeOk(z.nodes) && DeletedWithin(z.deletions, from, k)
    requires Parse(keyPath).Some? ==> k <= Parse(keyPath).value
    modifies z
    ensures TreeOk(z.nodes) && DeletedWithin(z.deletions, from, k)
    ensures old(z.deletions) <= z.deletions && |z.deletions| == |old(z.deletions)| + if ok then 1 else 0
    ensures z.refused == old(z.refused) && z.named == old(z.named) && z.tried == old(z.tried) + 1
    ensures z.quiet ==> (ok <==> Parse(keyPath).Some? && Parse(keyPath).value != [] && Parse(keyPath).value in old(z.nodes)
                                 && BelowNode(old(z.nodes), Parse(keyPath).value) == {})
    ensures z.quiet ==> z.nodes == old(z.nodes) - if ok then {Parse(keyPath).value} else {}
  {
    ghost var ds := z.deletions;
    ok := z.Delete(keyPath);
    if ok {
      ghost var before :| z.deletions == ds + [Deletion(Parse(keyPath).value, before)] && LegalDeletion(Deletion(Parse(keyPath).value, before));
      DeletedMore(ds, from, k, Deletion(Parse(keyPath).value, before));
    }
  }

  /** The listed nodes from position `i` on have been seen to, in an undisturbed tree by deleting them. */
  ghost predicate SeenTo(quiet: bool, t: Tree, now: Tree, from: nat, ds: seq<Deletion>, k: Segs, rels: seq<Segs>, i: nat) {
    quiet && i <= |rels| ==>
      if k == [] then now == t && |ds| == from
      else now == t - ListedFrom(k, rels, i) && |ds| == from + |rels| - i
  }

  /** One turn of the counting-down loop. */
  method DeleteListedAt(z: Server, keyPath: string, result: seq<string>, i: nat,
                        ghost t: Tree, ghost k: Segs, ghost rels: seq<Segs>, ghost from: nat)
    requires CleanSegs(k) && keyPath == Abs(k) && Written([], rels, result) && i < |rels|
    requires TreeOk(z.nodes) && DeletedWithin(z.deletions, from, k) && (z.quiet ==> Lists(t, k, rels))
    requires SeenTo(z.quiet, t, z.nodes, from, z.deletions, k, rels, i + 1)
    modifies z
    ensures TreeOk(z.nodes) && old(z.deletions) <= z.deletions && DeletedWithin(z.deletions, from, k)
    ensures z.refused == old(z.refused) && z.named == old(z.named) && z.tried == old(z.tried) + 1
    ensures SeenTo(z.quiet, t, z.nodes, from, z.deletions, k, rels, i)
  {
    var znode := keyPath + "/" + result[i];
    ListedPath(k, rels, result, i);
    if z.quiet { NextIsChildless(t, k, rels, i); }
    var deleted := DeleteNode(z, znode, k, from);
  }

  /** The counting-down loop of `deleteTree`: failures are skipped over. */
  method DeleteListed(z: Server, keyPath: string, result: seq<string>, ghost k: Segs, ghost rels: seq<Segs>)
    requires CleanSegs(k) && keyPath == Abs(k) && Written([], rels, result)
    requires TreeOk(z.nodes) && (z.quiet ==> Lists(z.nodes, k, rels))
    modifies z
    ensures TreeOk(z.nodes) && old(z.deletions) <= z.deletions && DeletedWithin(z.deletions, |old(z.deletions)|, k)
    ensures z.refused == old(z.refused) && z.named == old(z.named) && z.tried == old(z.tried) + |result|
    ensures SeenTo(z.quiet, old(z.nodes), z.nodes, |old(z.deletions)|, z.deletions, k, rels, 0)
  {
    ghost var t, from := z.nodes, |z.deletions|;
    var i := |result|;
    assert ListedFrom(k, rels, |rels|) == {};
    while i > 0
      invariant 0 <= i <= |rels|
      invariant TreeOk(z.nodes) && old(z.deletions) <= z.deletions && DeletedWithin(z.deletions, from, k)
      invariant z.refused == old(z.refused) && z.named == old(z.named) && z.tried == old(z.tried) + |result| - i
      invariant SeenTo(z.quiet, t, z.nodes, from, z.deletions, k, rels, i)
    {
      i := i - 1;
      DeleteListedAt(z, keyPath, result, i, t, k, rels, from);
    }
  }

  lemma {:induction false} ListedFromSize(k: Segs, rels: seq<Segs>, i: nat)
    requires i <= |rels| && forall a, b | 0 <= a < b < |rels| :: SegsLess(rels[a], rels[b])
    ensures |ListedFrom(k, rels, i)| == |rels| - i
    decreases |rels| - i
  {
    if i < |rels| {
      ListedFromSize(k, rels, i + 1);
      ListedFromNext(k, rels, i);
      NotListedLater(k, rels, i);
    } else {
      assert ListedFrom(k, rels, i) == {};
    }
  }

  lemma NotListedLater(k: Segs, rels: seq<Segs>, i: nat)
    requires i < |rels| && forall a, b | 0 <= a < b < |rels| :: SegsLess(rels[a], rels[b])
    ensures k + rels[i] !in ListedFrom(k, rels, i + 1)
  {
    forall j | i < j < |rels| ensures k + rels[j] != k + rels[i] {
      SegsLessNotPrefix(rels[i], rels[j]);
      assert (k + rels[j])[|k|..] == rels[j] && (k + rels[i])[|k|..] == rels[i];
    }
  }

  /** The listing and the node make up the subtree, node for node. */
  lemma SubtreeSize(t: Tree, k: Segs, rels: seq<Segs>)
    requires Lists(t, k, rels) && k in t
    ensures |Subtree(t, k)| == |rels| + 1
  {
    ListedFromSize(k, rels, 0);
    AllListedIsSubtree(t, k, rels);
    forall j | 0 <= j < |rels| ensures k + rels[j] != k { assert |k + rels[j]| > |k|; }
    forall n | n in t ensures n in Subtree(t, k) <==> n in ListedFrom(k, rels, 0) + {k} {
      assert n !in Subtree(t, k) <==> n in t - ListedFrom(k, rels, 0) - {k};
    }
    forall j | 0 <= j < |rels| ensures k + rels[j] in t {}
    assert Subtree(t, k) == ListedFrom(k, rels, 0) + {k};
  }

  /** `deleteTree`: if any listing is refused nothing is deleted; otherwise a delete is attempted for each
      name listed and for the node itself. */
  method DeleteTree(z: Server, keyPath: string) returns (ok: bool)
    requires TreeOk(z.nodes)
    modifies z
    ensures TreeOk(z.nodes) && old(z.deletions) <= z.deletions && z.refused >= old(z.refused)
    ensures z.refused > old(z.refused) ==> !ok && z.deletions == old(z.deletions) && z.tried == old(z.tried)
    ensures z.refused == old(z.refused) ==>
              && Parse(keyPath).Some? && DeletedWithin(z.deletions, |old(z.deletions)|, Parse(keyPath).value)
              && z.tried - old(z.tried) == z.named - old(z.named) + 1
    ensures z.quiet ==> (z.refused == old(z.refused) <==> Parse(keyPath).Some? && Parse(keyPath).value in old(z.nodes))
    ensures z.quiet ==> (ok <==> z.refused == old(z.refused) && Parse(keyPath).value != [])
    ensures z.quiet && ok ==>
              && z.nodes == old(z.nodes) - Subtree(old(z.nodes), Parse(keyPath).value)
              && |z.deletions| == |old(z.deletions)| + |Subtree(old(z.nodes), Parse(keyPath).value)|
    ensures z.quiet && !ok ==> z.nodes == old(z.nodes) && z.deletions == old(z.deletions)
  {
    ghost var t, from := z.nodes, |z.deletions|;
    var result;
    ghost var rels;
    result, rels := ZnodeTree(z, keyPath, "", []);
    if result.None? { return false; }
    ghost var k := Parse(keyPath).value;
    ParseIsAbs(keyPath);
    DeleteListed(z, keyPath, result.value, k, rels);
    if z.quiet {
      KeyIsLast(t, k, rels);
      AllListedIsSubtree(t, k, rels);
      SubtreeSize(t, k, rels);
    }
    ok := DeleteNode(z, keyPath, k, from);
  }

  function TrimPrefix(s: string, p: string): string { if p <= s then s[|p|..] else s }

  /** `Delete`, once connected. */
  method Delete(z: Server, keyPath: string) returns (ok: bool)
    requires TreeOk(z.nodes)
    modifies z
    ensures TreeOk(z.nodes) && old(z.deletions) <= z.deletions && z.refused >= old(z.refused)
    ensures z.refused > old(z.refused) ==> !ok && z.deletions == old(z.deletions)
    ensures z.refused == old(z.refused) ==>
              && Parse(TrimPrefix(keyPath, "zk:")).Some?
              && DeletedWithin(z.deletions, |old(z.deletions)|, Parse(TrimPrefix(keyPath, "zk:")).value)
              && z.tried - old(z.tried) == z.named - old(z.named) + 1
    ensures z.quiet ==> (ok <==> Deletable(old(z.nodes), keyPath)) && z.nodes == Without(old(z.nodes), keyPath)
  {
    ok := DeleteTree(z, TrimPrefix(keyPath, "zk:"));
  }

  /** The texts that name a node: its absolute path, with or without the prefix. */
  predicate PathOf(path: string, k: Segs) { CleanSegs(k) && (path == Abs(k) || path == "zk:" + Abs(k)) }

  /** `Delete` takes exactly these. */
  lemma NamesNode(path: string, k: Segs)
    ensures PathOf(path, k) <==> Parse(TrimPrefix(path, "zk:")) == Some(k)
  {
    if PathOf(path, k) {
      ParseAbs(k);
      assert Abs(k)[0] == '/';
      assert path != Abs(k) ==> path[..3] == "zk:" && path[3..] == Abs(k);
    }
    if Parse(TrimPrefix(path, "zk:")) == Some(k) {
      ParseIsAbs(TrimPrefix(path, "zk:"));
      if "zk:" <= path { assert path == path[..3] + path[3..]; }
    }
  }

  /** An undisturbed delete of a node by either text: it succeeds exactly when the node is there and not
      the root, and then exactly its subtree is gone. */
  method DeleteNamed(z: Server, path: string, ghost k: Segs) returns (ok: bool)
    requires TreeOk(z.nodes) && PathOf(path, k)
    modifies z
    ensures TreeOk(z.nodes)
    ensures z.quiet ==> (ok <==> k != [] && k in old(z.nodes))
    ensures z.quiet ==> z.nodes == if ok then old(z.nodes) - Subtree(old(z.nodes), k) else old(z.nodes)
  {
    NamesNode(path, k);
    ok := Delete(z, path);
  }

  /** The path names a node that is there and not the root. */
  predicate Deletable(t: Tree, keyPath: string) {
    var k := Parse(TrimPrefix(keyPath, "zk:"));
    k.Some? && k.value != [] && k.value in t
  }

  /** The tree after an undisturbed delete. */
  function Without(t: Tree, keyPath: string): Tree {
    if Deletable(t, keyPath) then t - Subtree(t, Parse(TrimPrefix(keyPath, "zk:")).value) else t
  }
}
