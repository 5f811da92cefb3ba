/** How the text order of printed numbers relates to their numeric order. */
module TextOrder {
  import opened Keys
  import opened Ordering

  /** `n` without its last `k` digits. */
  function Cut(n: nat, k: nat): nat {
    if k == 0 then n else Cut(n / 10, k - 1)
  }

  /** The number that the first `len` digits of `n` make. */
  function Leading(n: nat, len: nat): nat {
    if |Digits(n)| <= len then n else Cut(n, |Digits(n)| - len)
  }

  lemma {:induction false} StrLessAppend(a: string, b: string, y: char)
    requires |a| <= |b|
    ensures StrLess(a, b + [y]) <==> StrLess(a, b) || a == b[..|a|]
  {
    assert a != "" ==> (b + [y])[1..] == b[1..] + [y] && b[..|a|] == [b[0]] + b[1..][..|a[1..]|];
    if a != "" && a[0] == b[0] {
      StrLessAppend(a[1..], b[1..], y);
      assert a == [a[0]] + a[1..];
    }
  }

  lemma {:induction false} StrLessLast(a: string, b: string, x: char, y: char)
    requires |a| == |b|
    ensures StrLess(a + [x], b + [y]) <==> StrLess(a, b) || (a == b && x < y)
  {
    if a == "" {
      assert (a + [x])[1..] == "" && (b + [y])[1..] == "";
    } else {
      assert (a + [x])[1..] == a[1..] + [x] && (b + [y])[1..] == b[1..] + [y];
      if a[0] == b[0] {
        StrLessLast(a[1..], b[1..], x, y);
        assert a == [a[0]] + a[1..] && b == [b[0]] + b[1..];
      }
    }
  }

  lemma DigitsSplit(n: nat)
    requires n >= 10
    ensures Digits(n) == Digits(n / 10) + [('0' as int + n % 10) as char]
  {}

  lemma {:induction false} DigitsGrow(m: nat, n: nat)
    requires m <= n
    ensures |Digits(m)| <= |Digits(n)|
  {
    if m >= 10 { DigitsGrow(m / 10, n / 10); }
  }

  /** Numbers with equally many digits are ordered as text as they are as numbers. */
  lemma {:induction false} SameLength(m: nat, n: nat)
    requires |Digits(m)| == |Digits(n)|
    ensures StrLess(Digits(m), Digits(n)) <==> m < n
    ensures Digits(m) == Digits(n) <==> m == n
  {
    var x, y := ('0' as int + m % 10) as char, ('0' as int + n % 10) as char;
    if m < 10 && n < 10 {
      assert Digits(m) == [x] && Digits(n) == [y] && [x][1..] == "" && [y][1..] == "";
    } else if m >= 10 && n >= 10 {
      SameLength(m / 10, n / 10);
      StrLessLast(Digits(m / 10), Digits(n / 10), x, y);
      DigitsSplit(m);
      DigitsSplit(n);
      var a, b := Digits(m / 10), Digits(n / 10);
      assert (a + [x])[..|a|] == a && (b + [y])[..|b|] == b && (a + [x])[|a|] == x && (b + [y])[|b|] == y;
    }
  }

  lemma {:induction false} ShorterLess(m: nat, n: nat)
    requires |Digits(m)| <= |Digits(n)|
    ensures var k := |Digits(n)| - |Digits(m)|;
            && Digits(n)[..|Digits(m)|] == Digits(Cut(n, k))
            && (k > 0 ==> (StrLess(Digits(m), Digits(n)) <==> m <= Cut(n, k)))
  {
    var a := Digits(m);
    if |a| == |Digits(n)| {
      assert Digits(n)[..|a|] == Digits(n);
    } else {
      var b := Digits(n / 10);
      DigitsSplit(n);
      ShorterLess(m, n / 10);
      assert (b + [Digits(n)[|b|]])[..|a|] == b[..|a|];
      StrLessAppend(a, b, Digits(n)[|b|]);
      SameLength(m, Cut(n, |Digits(n)| - |a|));
    }
  }

  /** A smaller number is less as text if and only if it is at most the leading digits of the greater. */
  lemma SmallerIsLess(m: nat, n: nat)
    requires m < n
    ensures StrLess(Digits(m), Digits(n)) <==> m <= Leading(n, |Digits(m)|)
    ensures Digits(m) != Digits(n)
  {
    DigitsGrow(m, n);
    if |Digits(m)| == |Digits(n)| { SameLength(m, n); } else { ShorterLess(m, n); }
  }

  /** The text order of any two printed numbers. */
  lemma DigitsOrder(m: nat, n: nat)
    ensures StrLess(Digits(m), Digits(n)) <==>
            if |Digits(m)| < |Digits(n)| then m <= Leading(n, |Digits(m)|) else Leading(m, |Digits(n)|) < n
  {
    if |Digits(m)| < |Digits(n)| {
      ShorterLess(m, n);
    } else if |Digits(m)| == |Digits(n)| {
      SameLength(m, n);
    } else {
      ShorterLess(n, m);
      SameLength(Cut(m, |Digits(m)| - |Digits(n)|), n);
      StrTotal(Digits(m), Digits(n));
      SameLength(n, Cut(m, |Digits(m)| - |Digits(n)|));
    }
  }
}
