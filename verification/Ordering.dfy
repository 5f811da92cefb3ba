/** String order as Go compares strings, and sorting as package sort promises it. */
module Ordering {

  predicate StrLess(a: string, b: string) {
    b != "" && (a == "" || a[0] < b[0] || (a[0] == b[0] && StrLess(a[1..], b[1..])))
  }

  lemma {:induction false} StrTotal(a: string, b: string)
    ensures StrLess(a, b) || a == b || StrLess(b, a)
    ensures !(StrLess(a, b) && StrLess(b, a)) && !StrLess(a, a)
  {
    if a != "" {
      StrTotal(a[1..], a[1..]);
      if b != "" && a[0] == b[0] {
        StrTotal(a[1..], b[1..]);
        assert a == [a[0]] + a[1..] && b == [b[0]] + b[1..];
      }
    }
  }

  lemma {:induction false} StrTrans(a: string, b: string, c: string)
    requires StrLess(a, b) && StrLess(b, c)
    ensures StrLess(a, c)
  {
    if a != "" && a[0] == b[0] == c[0] { StrTrans(a[1..], b[1..], c[1..]); }
  }

  /** Strictly increasing, hence without duplicates. */
  predicate Increasing(s: seq<string>) {
    forall i, j | 0 <= i < j < |s| :: StrLess(s[i], s[j])
  }

  function Elems(s: seq<string>): set<string> { set x | x in s }

  /** Puts `x` where it belongs in an increasing sequence. */
  function Insert(x: string, s: seq<string>): (r: seq<string>)
    requires Increasing(s) && x !in s
    ensures Increasing(r) && Elems(r) == Elems(s) + {x} && |r| == |s| + 1
  {
    if s == [] then [x]
    else if StrLess(x, s[0]) then
      (forall i | 0 <= i < |s| ensures StrLess(x, s[i]) { if i > 0 { StrTrans(x, s[0], s[i]); } }
       [x] + s)
    else
      var rest := Insert(x, s[1..]);
      (StrTotal(x, s[0]);
       forall i | 0 <= i < |rest| ensures StrLess(s[0], rest[i]) { assert rest[i] in Elems(rest); }
       assert s == [s[0]] + s[1..];
       [s[0]] + rest)
  }

  /** The keys of a map, collected in Go's arbitrary order and sorted with sort.Strings. */
  method SortedKeys(keys: set<string>) returns (r: seq<string>)
    ensures Increasing(r) && Elems(r) == keys && |r| == |keys|
  {
    r := [];
    var todo := keys;
    while todo != {}
      invariant todo <= keys && Increasing(r) && Elems(r) == keys - todo && |r| == |keys| - |todo|
    {
      var x :| x in todo;
      assert x !in Elems(r);
      r := Insert(x, r);
      todo := todo - {x};
    }
  }

  /** There is only one way to list a set in increasing order. */
  lemma {:induction false} IncreasingUnique(a: seq<string>, b: seq<string>)
    requires Increasing(a) && Increasing(b) && Elems(a) == Elems(b)
    ensures a == b
  {
    assert b != [] ==> b[0] in Elems(b);
    if a != [] {
      assert a[0] in Elems(a) && a[0] in Elems(b);
      assert b[0] in Elems(b) && b[0] in Elems(a);
      FirstLeast(a, b[0]);
      FirstLeast(b, a[0]);
      StrTotal(a[0], b[0]);
      TailElems(a);
      TailElems(b);
      IncreasingUnique(a[1..], b[1..]);
      assert a == [a[0]] + a[1..] && b == [b[0]] + b[1..];
    }
  }

  lemma FirstLeast(s: seq<string>, x: string)
    requires Increasing(s) && x in s
    ensures !StrLess(x, s[0])
  {
    var i :| 0 <= i < |s| && s[i] == x;
    StrTotal(s[0], s[i]);
  }

  lemma TailElems(s: seq<string>)
    requires Increasing(s) && s != []
    ensures Elems(s[1..]) == Elems(s) - {s[0]}
  {
    forall i | 0 < i < |s| ensures s[i] != s[0] { StrTotal(s[0], s[i]); }
    assert s == [s[0]] + s[1..];
  }

  /** The elements before position `i`, and that they are smaller. */
  lemma TakeNext(s: seq<string>, i: nat)
    requires i < |s|
    ensures Elems(s[..i + 1]) == Elems(s[..i]) + {s[i]}
    ensures Increasing(s) ==> forall x | x in Elems(s[..i]) :: StrLess(x, s[i])
  {
    assert s[..i + 1] == s[..i] + [s[i]];
    if Increasing(s) {
      forall x | x in Elems(s[..i]) ensures StrLess(x, s[i]) {
        var j :| 0 <= j < i && s[..i][j] == x;
        assert s[j] == x;
      }
    }
  }
}
