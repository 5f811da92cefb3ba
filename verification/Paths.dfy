/** Slash-separated paths: splitting, joining and cleaning, as Go's strings.Split and path.Join
    do it, and the round trips between a path and its segments. */
module Paths {
  type Segs = seq<string>

  predicate NoSlash(s: string) { '/' !in s }

  predicate IsDot(s: string) { |s| == 1 && s[0] == '.' }

  predicate IsDotDot(s: string) { |s| == 2 && s[0] == '.' && s[1] == '.' }

  /** A segment that `path.Join` keeps as it is. */
  predicate CleanSeg(s: string) { s != "" && !IsDot(s) && !IsDotDot(s) && NoSlash(s) }

  predicate CleanSegs(p: Segs) { forall i | 0 <= i < |p| :: CleanSeg(p[i]) }

  /** strings.Split(s, "/") */
  function Split(s: string): (p: Segs)
    ensures p != [] && forall i | 0 <= i < |p| :: NoSlash(p[i])
  {
    if s == "" then [""]
    else
      var rest := Split(s[1..]);
      if s[0] == '/' then [""] + rest else [[s[0]] + rest[0]] + rest[1..]
  }

  /** strings.Join(p, "/") */
  function JoinSegs(p: Segs): string {
    if p == [] then "" else if |p| == 1 then p[0] else p[0] + "/" + JoinSegs(p[1..])
  }

  function TrimSlash(s: string): string {
    if s != "" && s[|s| - 1] == '/' then s[..|s| - 1] else s
  }

  /** The last segment of a key, a trailing slash aside. */
  function LastSegment(key: string): string {
    var parts := Split(TrimSlash(key));
    parts[|parts| - 1]
  }

  lemma {:induction false} SplitText(x: string, s: string)
    requires NoSlash(x)
    ensures Split(x + s) == [x + Split(s)[0]] + Split(s)[1..]
  {
    if x == "" {
      assert x + s == s && x + Split(s)[0] == Split(s)[0];
    } else {
      assert (x + s)[1..] == x[1..] + s && (x + s)[0] == x[0];
      SplitText(x[1..], s);
      assert [x[0]] + (x[1..] + Split(s)[0]) == x + Split(s)[0];
    }
  }

  lemma SplitAtSlash(x: string, s: string)
    requires NoSlash(x)
    ensures Split(x + "/" + s) == [x] + Split(s)
  {
    SplitText(x, "/" + s);
    assert ("/" + s)[1..] == s && x + "/" + s == x + ("/" + s);
    assert Split("/" + s) == [""] + Split(s) && ([""] + Split(s))[1..] == Split(s);
    assert x + "" == x;
  }

  /** Split undoes Join. */
  lemma {:induction false} SplitJoin(p: Segs)
    requires p != [] && forall i | 0 <= i < |p| :: NoSlash(p[i])
    ensures Split(JoinSegs(p)) == p
  {
    if |p| == 1 {
      SplitText(p[0], "");
      assert p[0] + "" == p[0];
    } else {
      SplitJoin(p[1..]);
      SplitAtSlash(p[0], JoinSegs(p[1..]));
    }
  }

  /** Join undoes Split. */
  lemma {:induction false} JoinSplit(s: string)
    ensures JoinSegs(Split(s)) == s
  {
    if s != "" {
      JoinSplit(s[1..]);
      var rest := Split(s[1..]);
      if s[0] == '/' {
        assert ([""] + rest)[1..] == rest;
        assert "" + "/" + s[1..] == s;
      } else {
        assert ([[s[0]] + rest[0]] + rest[1..])[1..] == rest[1..];
        assert [s[0]] + s[1..] == s;
      }
    }
  }

  lemma {:induction false} JoinAppend(a: Segs, b: Segs)
    requires a != [] && b != []
    ensures JoinSegs(a + b) == JoinSegs(a) + "/" + JoinSegs(b)
  {
    if |a| == 1 {
      assert (a + b)[1..] == b;
    } else {
      assert (a + b)[1..] == a[1..] + b;
      JoinAppend(a[1..], b);
    }
  }

  /** A directory's last segment is the last of its path. */
  lemma LastOfDirectory(p: Segs)
    requires p != [] && forall i | 0 <= i < |p| :: NoSlash(p[i])
    ensures LastSegment(JoinSegs(p) + "/") == p[|p| - 1]
  {
    var dir := JoinSegs(p) + "/";
    assert TrimSlash(dir) == dir[..|dir| - 1] == JoinSegs(p);
    SplitJoin(p);
  }

  /** So it is without the trailing slash. */
  lemma LastOfPath(dir: Segs, last: string)
    requires (forall i | 0 <= i < |dir| :: NoSlash(dir[i])) && last != "" && NoSlash(last)
    ensures LastSegment(JoinSegs(dir + [last])) == last
  {
    var s := JoinSegs(dir + [last]);
    SplitJoin(dir + [last]);
    if dir != [] { JoinAppend(dir, [last]); }
    EndsAlike(if dir == [] then "" else JoinSegs(dir) + "/", last, s);
  }

  lemma EndsAlike(x: string, last: string, s: string)
    requires last != "" && NoSlash(last) && s == x + last
    ensures TrimSlash(s) == s
  {
    assert s[|s| - 1] == last[|last| - 1];
  }

  // ---------------------------------------------------------------- path.Join

  /** The segments that are left after `path.Clean`: "" and "." go, ".." takes one away. */
  function CleanOnto(rooted: bool, done: Segs, p: Segs): Segs
    decreases |p|
  {
    if p == [] then done
    else if p[0] == "" || IsDot(p[0]) then CleanOnto(rooted, done, p[1..])
    else if IsDotDot(p[0]) && done != [] && !IsDotDot(done[|done| - 1]) then CleanOnto(rooted, done[..|done| - 1], p[1..])
    else if IsDotDot(p[0]) && rooted then CleanOnto(rooted, done, p[1..])
    else CleanOnto(rooted, done + [p[0]], p[1..])
  }

  /** path.Clean */
  function Clean(s: string): string {
    var rooted := s != "" && s[0] == '/';
    var r := (if rooted then "/" else "") + JoinSegs(CleanOnto(rooted, [], Split(s)));
    if r == "" then "." else r
  }

  function NonEmpty(p: Segs): Segs {
    if p == [] then [] else if p[0] == "" then NonEmpty(p[1..]) else [p[0]] + NonEmpty(p[1..])
  }

  /** path.Join */
  function PathJoin(elems: Segs): string {
    var p := NonEmpty(elems);
    if p == [] then "" else Clean(JoinSegs(p))
  }

  lemma {:induction false} CleanKeeps(rooted: bool, done: Segs, p: Segs)
    requires forall i | 0 <= i < |p| :: p[i] == "" || CleanSeg(p[i])
    ensures CleanOnto(rooted, done, p) == done + NonEmpty(p)
    decreases |p|
  {
    if p != [] {
      CleanKeeps(rooted, if p[0] == "" then done else done + [p[0]], p[1..]);
    }
  }

  lemma {:induction false} CleanOntoAppend(rooted: bool, done: Segs, a: Segs, b: Segs)
    ensures CleanOnto(rooted, done, a + b) == CleanOnto(rooted, CleanOnto(rooted, done, a), b)
    decreases |a|
  {
    if a == [] {
      assert a + b == b;
    } else {
      assert (a + b)[1..] == a[1..] + b && (a + b)[0] == a[0];
      var next :=
        if a[0] == "" || IsDot(a[0]) then done
        else if IsDotDot(a[0]) && done != [] && !IsDotDot(done[|done| - 1]) then done[..|done| - 1]
        else if IsDotDot(a[0]) && rooted then done
        else done + [a[0]];
      CleanOntoAppend(rooted, next, a[1..], b);
    }
  }

  /** Segments between two others that stand for nothing: an empty one, a dot, or a name and two dots. */
  predicate StandsForNothing(x: Segs) {
    (|x| == 1 && (x[0] == "" || x[0] == ".")) || (|x| == 2 && CleanSeg(x[0]) && x[1] == "..")
  }

  lemma CleanOntoNothing(rooted: bool, done: Segs, x: Segs)
    requires StandsForNothing(x)
    ensures CleanOnto(rooted, done, x) == done
  {
    if |x| == 1 {
      assert x[1..] == [];
    } else {
      var more := done + [x[0]];
      assert x[1..] == [x[1]] && [x[1]][1..] == [];
      assert more[..|more| - 1] == done && more[|more| - 1] == x[0];
      assert CleanOnto(rooted, more, [x[1]]) == CleanOnto(rooted, done, []);
    }
  }

  /** `path.Clean` leaves them out. */
  lemma CleanLeavesOut(a: Segs, x: Segs, b: Segs)
    requires a != [] && b != [] && StandsForNothing(x)
    requires forall i | 0 <= i < |a + x + b| :: NoSlash((a + x + b)[i])
    ensures Clean(JoinSegs(a + x + b)) == Clean(JoinSegs(a + b))
  {
    var rooted := a[0] == "";
    RootedJoin(a + x + b);
    RootedJoin(a + b);
    assert forall i | 0 <= i < |a| :: a[i] == (a + x + b)[i];
    assert forall i | 0 <= i < |b| :: b[i] == (a + x + b)[|a| + |x| + i];
    SplitJoin(a + x + b);
    SplitJoin(a + b);
    CleanOntoAppend(rooted, [], a + x, b);
    CleanOntoAppend(rooted, [], a, x);
    CleanOntoAppend(rooted, [], a, b);
    CleanOntoNothing(rooted, CleanOnto(rooted, [], a), x);
  }

  lemma RootedJoin(p: Segs)
    requires |p| > 1 && NoSlash(p[0])
    ensures JoinSegs(p) != "" && (JoinSegs(p)[0] == '/' <==> p[0] == "")
  {
    assert p[0] != "" ==> JoinSegs(p)[0] == p[0][0];
  }

  /** Two dots at the start go above no root, and stay otherwise. */
  lemma CleanAtStart(rooted: bool, p: Segs)
    requires CleanSegs(p) && p != []
    ensures var up := [".."] + p;
            if rooted then Clean(Abs(up)) == Abs(p) else Clean(Rel(up)) == Rel(up)
  {
    var up := [".."] + p;
    assert up[1..] == p;
    CleanKeeps(rooted, if rooted then [] else [".."], p);
    NonEmptyClean(p);
    assert [] + p == p && [] + [".."] == [".."];
    assert CleanOnto(rooted, [], up) == if rooted then p else up;
    SplitJoin(up);
    if rooted {
      SplitAtSlash("", Rel(up));
      assert "" + "/" + Rel(up) == Abs(up);
      assert ([""] + up)[1..] == up;
      assert CleanOnto(true, [], [""] + up) == CleanOnto(true, [], up);
    } else {
      assert Rel(up)[0] == '.';
    }
  }

  lemma {:induction false} NonEmptyAppend(a: Segs, b: Segs)
    ensures NonEmpty(a + b) == NonEmpty(a) + NonEmpty(b)
  {
    if a == [] {
      assert a + b == b;
    } else {
      assert (a + b)[1..] == a[1..] + b;
      NonEmptyAppend(a[1..], b);
    }
  }

  lemma {:induction false} NonEmptyClean(p: Segs)
    requires CleanSegs(p)
    ensures NonEmpty(p) == p
  {
    if p != [] { NonEmptyClean(p[1..]); }
  }

  lemma JoinNotEmpty(p: Segs)
    requires CleanSegs(p)
    ensures JoinSegs(p) == "" <==> p == []
    ensures p != [] ==> JoinSegs(p)[0] != '/'
  {}

  /** An absolute path as text, and a relative one. */
  function Abs(p: Segs): string { "/" + JoinSegs(p) }

  function Rel(p: Segs): string { JoinSegs(p) }

  /** path.Join of clean relative parts is the relative path of all their segments. */
  lemma PathJoinRel(a: Segs, b: Segs)
    requires CleanSegs(a) && CleanSegs(b)
    ensures PathJoin([Rel(a), Rel(b)]) == Rel(a + b)
  {
    JoinNotEmpty(a);
    JoinNotEmpty(b);
    var elems := [Rel(a), Rel(b)];
    assert elems[1..] == [Rel(b)] && [Rel(b)][1..] == [];
    assert NonEmpty([Rel(b)]) == if b == [] then [] else [Rel(b)];
    var p := a + b;
    assert a == [] ==> p == b;
    assert b == [] ==> p == a;
    if p != [] {
      if a != [] && b != [] {
        JoinAppend(a, b);
        assert JoinSegs(elems) == Rel(p);
      }
      assert JoinSegs(NonEmpty(elems)) == Rel(p);
      CleanRel(p);
    }
  }

  lemma CleanRel(p: Segs)
    requires CleanSegs(p) && p != []
    ensures Clean(Rel(p)) == Rel(p)
  {
    JoinNotEmpty(p);
    SplitJoin(p);
    CleanKeeps(false, [], p);
    NonEmptyClean(p);
    assert [] + p == p;
    CleanUnrooted(Rel(p), p);
  }

  lemma CleanUnrooted(s: string, p: Segs)
    requires s != "" && s[0] != '/' && CleanOnto(false, [], Split(s)) == p && JoinSegs(p) == s
    ensures Clean(s) == s
  {}

  lemma CleanRooted(s: string, p: Segs)
    requires s != "" && s[0] == '/' && NonEmpty(Split(s)) == p
    requires forall i | 0 <= i < |Split(s)| :: Split(s)[i] == "" || CleanSeg(Split(s)[i])
    ensures Clean(s) == Abs(p)
  {
    CleanKeeps(true, [], Split(s));
    assert [] + p == p;
  }

  lemma CleanAbs(p: Segs)
    requires CleanSegs(p) && p != []
    ensures Clean(Abs(p)) == Abs(p)
    ensures Clean("//" + Rel(p)) == Abs(p)
  {
    SplitAbs(p);
    NonEmptyClean(p);
    assert NonEmpty([""]) == [] by { assert [""][1..] == []; }
    NonEmptyAppend([""], p);
    assert [] + p == p;
    CleanRooted(Abs(p), p);
    SplitAtSlash("", Abs(p));
    assert "//" + Rel(p) == "" + "/" + Abs(p);
    NonEmptyAppend([""], [""] + p);
    CleanRooted("//" + Rel(p), p);
  }

  lemma SplitAbs(p: Segs)
    requires CleanSegs(p)
    ensures Split(Abs(p)) == if p == [] then ["", ""] else [""] + p
  {
    SplitAtSlash("", Rel(p));
    assert "" + "/" + Rel(p) == Abs(p);
    if p != [] { SplitJoin(p); }
  }

  /** path.Join of an absolute path, the root included, and a clean relative one. */
  lemma PathJoinAbs(a: Segs, b: Segs)
    requires CleanSegs(a) && CleanSegs(b) && b != []
    ensures PathJoin([Abs(a), Rel(b)]) == Abs(a + b)
  {
    JoinNotEmpty(b);
    var elems := [Abs(a), Rel(b)];
    assert elems[1..] == [Rel(b)] && [Rel(b)][1..] == [];
    assert Abs(a)[0] == '/';
    assert NonEmpty([Rel(b)]) == [Rel(b)];
    assert NonEmpty(elems) == [Abs(a)] + NonEmpty(elems[1..]) == elems;
    assert JoinSegs(elems) == Abs(a) + "/" + Rel(b);
    if a == [] {
      assert a + b == b && Abs(a) + "/" + Rel(b) == "//" + Rel(b);
      CleanAbs(b);
    } else {
      JoinAppend(a, b);
      assert Abs(a) + "/" + Rel(b) == Abs(a + b);
      CleanAbs(a + b);
    }
  }
}
