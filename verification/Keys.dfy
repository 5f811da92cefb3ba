/** The layout of the key/value store: keys built from a repository index, a package, a version
    and a file, and read back from their segments. */
module Keys {
  import opened Paths
  import opened Wrappers

  // ---------------------------------------------------------------- decimal indexes

  /** Go's int on the platforms it runs on. */
  type Int = x: int | -0x8000_0000_0000_0000 <= x < 0x8000_0000_0000_0000

  predicate IsDigit(c: char) { '0' <= c <= '9' }

  function Digits(n: nat): (s: string)
    ensures s != "" && forall i | 0 <= i < |s| :: IsDigit(s[i])
  {
    var d := [('0' as int + n % 10) as char];
    if n < 10 then d else Digits(n / 10) + d
  }

  /** fmt.Sprintf("%d", n) */
  function Dec(n: Int): string {
    var m: int := n;
    if m < 0 then "-" + Digits(-m) else Digits(m)
  }

  function DigitsValue(s: string): Option<nat>
    requires s != ""
  {
    var last := s[|s| - 1];
    if !IsDigit(last) then None
    else if |s| == 1 then Some(last as int - '0' as int)
    else match DigitsValue(s[..|s| - 1])
         case None => None
         case Some(v) => Some(10 * v + (last as int - '0' as int))
  }

  /** strconv.Atoi, a sign allowed, an out-of-range number refused. */
  function Atoi(s: string): Option<Int> {
    if s == "" || s == "-" || s == "+" then None else
    var signed := s[0] == '-' || s[0] == '+';
    match DigitsValue(if signed then s[1..] else s)
    case None => None
    case Some(v) =>
      var m: int := v;
      var n := if s[0] == '-' then -m else m;
      if -0x8000_0000_0000_0000 <= n < 0x8000_0000_0000_0000 then Some(n) else None
  }

  lemma {:induction false} DigitsRead(n: nat)
    ensures DigitsValue(Digits(n)) == Some(n)
  {
    if n >= 10 {
      DigitsRead(n / 10);
      var s := Digits(n);
      assert s[..|s| - 1] == Digits(n / 10);
    }
  }

  /** Reading a printed index gives it back; a printed index is one clean segment. */
  lemma DecRead(n: Int)
    ensures Atoi(Dec(n)) == Some(n)
    ensures CleanSeg(Dec(n))
  {
    var m: int := n;
    var a := if m < 0 then -m else m;
    var d := Digits(a);
    DigitsRead(a);
    assert IsDigit(d[0]);
    if m < 0 {
      assert Dec(n) == ['-'] + d && Dec(n)[1..] == d;
    }
  }

  predicate AllDigits(s: string) { s != "" && forall i | 0 <= i < |s| :: IsDigit(s[i]) }

  lemma {:induction false} DigitsOnly(s: string)
    requires s != ""
    ensures DigitsValue(s).Some? <==> AllDigits(s)
  {
    if |s| > 1 { DigitsOnly(s[..|s| - 1]); }
  }

  /** A text of digits is read as the number that prints as it, leading zeros aside. */
  lemma {:induction false} DigitsValueIs(s: string)
    requires AllDigits(s)
    ensures DigitsValue(s).Some? && DigitsValue("0" + s) == DigitsValue(s)
    ensures s[0] != '0' || |s| == 1 ==> Digits(DigitsValue(s).value) == s
  {
    DigitsOnly(s);
    var n := |s| - 1;
    assert ("0" + s)[|s|] == s[n] && ("0" + s)[..|s|] == "0" + s[..n];
    if n > 0 {
      DigitsValueIs(s[..n]);
      DigitsOnly(s[..n]);
      assert s == s[..n] + [s[n]];
      if s[0] != '0' { PositiveValue(s[..n]); }
    } else {
      assert "0" + s[..n] == "0";
    }
  }

  lemma {:induction false} PositiveValue(s: string)
    requires AllDigits(s) && s[0] != '0' && DigitsValue(s).Some?
    ensures DigitsValue(s).value > 0
  {
    if |s| > 1 {
      DigitsOnly(s[..|s| - 1]);
      PositiveValue(s[..|s| - 1]);
    }
  }

  function InRange(n: int): Option<Int> { if -0x8000_0000_0000_0000 <= n < 0x8000_0000_0000_0000 then Some(n) else None }

  /** What is read as an index: digits with or without a sign, when the number fits, and nothing else. */
  lemma AtoiIs(s: string)
    ensures AllDigits(s) && DigitsValue(s).Some? ==> var v: int := DigitsValue(s).value;
              Atoi(s) == Atoi(['+'] + s) == InRange(v) && Atoi(['-'] + s) == InRange(-v)
    ensures Atoi(s).Some? ==> AllDigits(s) || (s != "" && s[0] in {'+', '-'} && AllDigits(s[1..]))
  {
    if s != "" { DigitsOnly(s); }
    if |s| > 1 { DigitsOnly(s[1..]); }
    if AllDigits(s) {
      AtoiUnsigned(s);
      AtoiSigned('+', s);
      AtoiSigned('-', s);
    }
  }

  lemma AtoiUnsigned(s: string)
    requires AllDigits(s) && DigitsValue(s).Some?
    ensures Atoi(s) == InRange(DigitsValue(s).value)
  {
    assert IsDigit(s[0]);
  }

  lemma AtoiSigned(c: char, s: string)
    requires (c == '+' || c == '-') && s != "" && DigitsValue(s).Some?
    ensures var v: int := DigitsValue(s).value; Atoi([c] + s) == InRange(if c == '-' then -v else v)
  {
    var t := [c] + s;
    assert t[1..] == s && t[0] == c && |t| > 1;
  }

  lemma DecInjective(m: Int, n: Int)
    requires Dec(m) == Dec(n)
    ensures m == n
  {
    DecRead(m);
    DecRead(n);
  }

  // ---------------------------------------------------------------- keys

  const ROOT: Segs := ["mantl-install", "repository"]
  const REPOSITORY_ROOT := "mantl-install/repository"
  const NAME: Segs := ["name"]
  const UPDATED: Segs := ["updated"]
  const PACKAGES: Segs := ["repo", "packages"]
  const PACKAGES_TEXT := "repo/packages"

  lemma RootClean()
    ensures CleanSegs(ROOT) && Rel(ROOT) == REPOSITORY_ROOT
    ensures CleanSegs(NAME) && CleanSegs(UPDATED) && CleanSegs(PACKAGES) && Rel(PACKAGES) == PACKAGES_TEXT
  {
    assert ROOT[1..] == ["repository"] && PACKAGES[1..] == ["packages"];
  }

  /** `rootKey` */
  function RootKey(index: Int): string { PathJoin([REPOSITORY_ROOT, Dec(index)]) }

  /** The key of something at path `rel` in the repository. */
  function RepoKey(index: Int, rel: Segs): string { PathJoin([RootKey(index), Rel(rel)]) }

  function RepoSegs(index: Int, rel: Segs): Segs { ROOT + [Dec(index)] + rel }

  lemma RepoKeyIs(index: Int, rel: Segs)
    requires CleanSegs(rel)
    ensures CleanSegs(RepoSegs(index, rel))
    ensures RootKey(index) == Rel(RepoSegs(index, [])) && RepoKey(index, rel) == Rel(RepoSegs(index, rel))
    ensures Split(RepoKey(index, rel)) == RepoSegs(index, rel)
  {
    RootClean();
    DecRead(index);
    PathJoinRel(ROOT, [Dec(index)]);
    assert Rel([Dec(index)]) == Dec(index);
    assert RepoSegs(index, []) == ROOT + [Dec(index)];
    PathJoinRel(ROOT + [Dec(index)], rel);
    SplitJoin(RepoSegs(index, rel));
  }

  /** Keys of different repositories, or of different paths, never collide. */
  lemma RepoKeyInjective(i: Int, a: Segs, j: Int, b: Segs)
    requires CleanSegs(a) && CleanSegs(b) && RepoKey(i, a) == RepoKey(j, b)
    ensures i == j && a == b
  {
    RepoKeyIs(i, a);
    RepoKeyIs(j, b);
    var x, y := RepoSegs(i, a), RepoSegs(j, b);
    assert x[2] == Dec(i) && y[2] == Dec(j) && x[3..] == a && y[3..] == b;
    DecInjective(i, j);
  }

  /** path.Ext */
  function Ext(s: string): string {
    if s == "" || s[|s| - 1] == '/' then ""
    else if s[|s| - 1] == '.' then "."
    else var e := Ext(s[..|s| - 1]); if e == "" then "" else e + [s[|s| - 1]]
  }

  /** `isSourceArtifact` */
  predicate IsArtifact(filePath: string) { Ext(filePath) == ".json" }

  /** An artifact is a file whose text ends in .json, and nothing else is. */
  lemma ArtifactIs(s: string)
    ensures IsArtifact(s) <==> |s| >= 5 && s[|s| - 5..] == ".json"
  {
    ExtEnds(s);
    if |s| >= 5 && s[|s| - 5..] == ".json" {
      assert s == s[..|s| - 5] + ".json";
      DotJson(s[..|s| - 5]);
    }
  }

  lemma {:induction false} ExtEnds(s: string)
    ensures |Ext(s)| <= |s| && s[|s| - |Ext(s)|..] == Ext(s)
  {
    if s != "" && s[|s| - 1] != '/' && s[|s| - 1] != '.' {
      var r, e := s[..|s| - 1], Ext(s[..|s| - 1]);
      ExtEnds(r);
      assert e != "" ==> s[|s| - |e| - 1..] == r[|r| - |e|..] + [s[|s| - 1]];
    }
  }

  lemma DotJson(x: string)
    ensures IsArtifact(x + ".json")
  {
    var s := x + ".json";
    assert s[..|s| - 1] == x + ".jso" && (x + ".jso")[..|x| + 3] == x + ".js" && (x + ".js")[..|x| + 2] == x + ".j"
           && (x + ".j")[..|x| + 1] == x + ".";
    assert Ext(x + ".") == "." && Ext(x + ".j") == ".j" && Ext(x + ".js") == ".js" && Ext(x + ".jso") == ".jso";
  }

  /** The extension of a file does not depend on the directory it is in. */
  lemma {:induction false} ExtOfFile(dir: string, rel: string)
    requires rel != ""
    ensures IsArtifact(dir + "/" + rel) == IsArtifact(rel)
  {
    ExtJoin(dir, rel);
  }

  lemma {:induction false} ExtJoin(dir: string, rel: string)
    ensures Ext(dir + "/" + rel) == Ext(rel)
  {
    var s := dir + "/" + rel;
    if rel != "" {
      ExtJoin(dir, rel[..|rel| - 1]);
      assert s[..|s| - 1] == dir + "/" + rel[..|rel| - 1];
    }
  }

  lemma {:induction false} NoDotNoExt(s: string)
    requires '.' !in s
    ensures Ext(s) == ""
  {
    if s != "" { NoDotNoExt(s[..|s| - 1]); }
  }

  lemma BookkeepingNoArtifact()
    ensures !IsArtifact(Rel(NAME)) && !IsArtifact(Rel(UPDATED))
  {
    NoDotNoExt("name");
    NoDotNoExt("updated");
  }

  /** `name` and `updated` never collide with an artifact, in any repository, nor with each other. */
  lemma BookkeepingDisjoint(i: Int, rel: Segs, j: Int)
    requires CleanSegs(rel) && IsArtifact(Rel(rel))
    ensures RepoKey(i, rel) != RepoKey(j, NAME) && RepoKey(i, rel) != RepoKey(j, UPDATED)
    ensures RepoKey(i, NAME) != RepoKey(j, UPDATED)
  {
    RootClean();
    BookkeepingNoArtifact();
    if RepoKey(i, rel) == RepoKey(j, NAME) { RepoKeyInjective(i, rel, j, NAME); }
    if RepoKey(i, rel) == RepoKey(j, UPDATED) { RepoKeyInjective(i, rel, j, UPDATED); }
    if RepoKey(i, NAME) == RepoKey(j, UPDATED) { RepoKeyInjective(i, NAME, j, UPDATED); }
  }

  // ---------------------------------------------------------------- package keys

  /** A package, with the upper-cased first letter of its name that the source calls the container. */
  datatype PackageId = PackageId(container: string, name: string)

  predicate CleanPackage(p: PackageId) { CleanSeg(p.container) && CleanSeg(p.name) }

  /** `PackagesKey` */
  function PackagesKey(index: Int): string { PathJoin([REPOSITORY_ROOT, Dec(index), PACKAGES_TEXT]) }

  /** `PackageVersionKey` */
  function PackageVersionKey(p: PackageId, version: string): string {
    PathJoin([PathJoin([p.container, p.name]), version])
  }

  /** The key that a definition file is read from. */
  function FileKey(index: Int, p: PackageId, version: string, file: string): string {
    PathJoin([PathJoin([PackagesKey(index), PackageVersionKey(p, version)]), file])
  }

  function FilePath(p: PackageId, version: string, file: string): Segs {
    PACKAGES + [p.container, p.name, version, file]
  }

  lemma Join3(x: string, y: string, z: string)
    ensures JoinSegs([x, y, z]) == x + "/" + (y + "/" + z)
  {
    assert [x, y, z][1..] == [y, z] && [y, z][1..] == [z];
    assert JoinSegs([y, z]) == y + "/" + z;
  }

  lemma NonEmpty3(x: string, y: string, z: string)
    requires x != "" && y != "" && z != ""
    ensures NonEmpty([x, y, z]) == [x, y, z]
  {
    assert [x, y, z][1..] == [y, z] && [y, z][1..] == [z];
    assert NonEmpty([z]) == [z];
    assert NonEmpty([y, z]) == [y, z];
  }

  lemma PathJoin3(a: Segs, b: Segs, c: Segs)
    requires CleanSegs(a) && CleanSegs(b) && CleanSegs(c) && a != [] && b != [] && c != []
    ensures PathJoin([Rel(a), Rel(b), Rel(c)]) == Rel(a + b + c)
  {
    JoinNotEmpty(a); JoinNotEmpty(b); JoinNotEmpty(c);
    NonEmpty3(Rel(a), Rel(b), Rel(c));
    Join3(Rel(a), Rel(b), Rel(c));
    Rel3(a, b, c);
    CleanRel(a + b + c);
  }

  lemma Rel3(a: Segs, b: Segs, c: Segs)
    requires a != [] && b != [] && c != []
    ensures Rel(a + b + c) == Rel(a) + "/" + (Rel(b) + "/" + Rel(c))
  {
    Assoc(a, b, c);
    JoinAppend(b, c);
    JoinAppend(a, b + c);
  }

  lemma Assoc(a: Segs, b: Segs, c: Segs)
    ensures a + b + c == a + (b + c)
  {}

  lemma KeyParts(root: Segs, d: string, pk: Segs, c: string, n: string, v: string, f: string)
    requires CleanSegs(root) && CleanSegs(pk) && root != [] && pk != []
    requires CleanSeg(d) && CleanSeg(c) && CleanSeg(n) && CleanSeg(v) && CleanSeg(f)
    ensures var key := PathJoin([PathJoin([PathJoin([Rel(root), d, Rel(pk)]), PathJoin([PathJoin([c, n]), v])]), f]);
            key == Rel(root + [d] + pk + [c, n, v, f])
  {
    PathJoin3(root, [d], pk);
    VersionPath(c, n, v);
    var k, w := root + [d] + pk, [c, n, v];
    PathJoinRel(k, w);
    PathJoinRel(k + w, [f]);
    assert k + w + [f] == k + [c, n, v, f];
  }

  lemma VersionPath(c: string, n: string, v: string)
    requires CleanSeg(c) && CleanSeg(n) && CleanSeg(v)
    ensures PathJoin([PathJoin([c, n]), v]) == Rel([c, n, v])
  {
    PathJoinRel([c], [n]);
    PathJoinRel([c] + [n], [v]);
    assert [c] + [n] + [v] == [c, n, v];
  }

  /** The file key is the repository key of the package's path: what sync writes, the overlay reads. */
  lemma FileKeyIs(index: Int, p: PackageId, version: string, file: string)
    requires CleanPackage(p) && CleanSeg(version) && CleanSeg(file)
    ensures CleanSegs(FilePath(p, version, file))
    ensures FileKey(index, p, version, file) == RepoKey(index, FilePath(p, version, file))
  {
    RootClean();
    DecRead(index);
    KeyParts(ROOT, Dec(index), PACKAGES, p.container, p.name, version, file);
    RepoKeyIs(index, FilePath(p, version, file));
    KeySegs(ROOT, Dec(index), PACKAGES, p.container, p.name, version, file);
  }

  lemma KeySegs(root: Segs, d: string, pk: Segs, c: string, n: string, v: string, f: string)
    ensures root + [d] + (pk + [c, n, v, f]) == root + [d] + pk + [c, n, v, f]
  {}

  /** A built key splits back into the repository, package, version and file it was built from. */
  lemma FileKeySplits(index: Int, p: PackageId, version: string, file: string)
    requires CleanPackage(p) && CleanSeg(version) && CleanSeg(file)
    ensures var parts := Split(FileKey(index, p, version, file));
            |parts| == 9 && parts[2] == Dec(index) && Atoi(parts[2]) == Some(index) && parts[5] == p.container && parts[6] == p.name
            && parts[7] == version && parts[8] == file
  {
    FileKeyIs(index, p, version, file);
    RepoKeyIs(index, FilePath(p, version, file));
    DecRead(index);
  }
}
