/** Global, non-overlapping, left-to-right string replacement, as done by Go's
    strings.Contains and strings.Replace(s, old, new, -1).  The main result is the
    exact condition under which replacing twice is the same as replacing once. */
module Replacement {

  predicate OccursAt(s: string, p: string, i: int) {
    0 <= i && i + |p| <= |s| && s[i..i + |p|] == p
  }

  predicate Contains(s: string, p: string) {
    exists i | 0 <= i <= |s| :: OccursAt(s, p, i)
  }

  function ReplaceAll(s: string, p: string, h: string): string
    requires p != ""
  {
    if |s| < |p| then s
    else if OccursAt(s, p, 0) then h + ReplaceAll(s[|p|..], p, h)
    else [s[0]] + ReplaceAll(s[1..], p, h)
  }

  /** No proper non-empty prefix of `p` is also a suffix of it. */
  predicate Unbordered(p: string) {
    forall m | 0 < m < |p| :: p[..m] != p[|p| - m..]
  }

  /** An end of `p` is a beginning of `h`. */
  predicate TailMeetsHead(p: string, h: string) {
    exists m | 0 < m < |p| && m <= |h| :: p[|p| - m..] == h[..m]
  }

  /** A beginning of `p` is an end of `h`. */
  predicate HeadMeetsTail(p: string, h: string) {
    exists m | 0 < m < |p| && m <= |h| :: p[..m] == h[|h| - m..]
  }

  /** `h` lies strictly inside `p`. */
  predicate SitsInside(p: string, h: string) {
    exists i | 0 < i && i + |h| < |p| :: OccursAt(p, h, i)
  }

  /** `h` does not contain `p`, is not inside it, and does not overlap it at a boundary. */
  predicate Clean(p: string, h: string) {
    !Contains(h, p) && !SitsInside(p, h) && !TailMeetsHead(p, h) && !HeadMeetsTail(p, h)
  }

  ghost predicate ReplacingTwiceIsOnce(p: string, h: string)
    requires p != ""
  {
    forall s :: ReplaceAll(ReplaceAll(s, p, h), p, h) == ReplaceAll(s, p, h)
  }

  lemma {:induction false} ReplaceAbsent(s: string, p: string, h: string)
    requires p != "" && !Contains(s, p)
    ensures ReplaceAll(s, p, h) == s
  {
    if |s| >= |p| {
      assert !OccursAt(s, p, 0);
      ContainsShift(s[..1], s[1..], p);
      assert s == s[..1] + s[1..];
      ReplaceAbsent(s[1..], p, h);
    }
  }

  lemma ContainsShift(x: string, s: string, p: string)
    ensures Contains(s, p) ==> Contains(x + s, p)
    ensures forall i :: OccursAt(s, p, i) ==> OccursAt(x + s, p, i + |x|)
  {
    forall i | OccursAt(s, p, i) ensures OccursAt(x + s, p, i + |x|) {
      assert (x + s)[i + |x|..i + |x| + |p|] == s[i..i + |p|];
    }
    if Contains(s, p) {
      var i :| 0 <= i <= |s| && OccursAt(s, p, i);
      assert OccursAt(x + s, p, i + |x|);
    }
  }

  /** Replacing a string by itself changes nothing. */
  lemma {:induction false} ReplaceBySelf(s: string, p: string)
    requires p != ""
    ensures ReplaceAll(s, p, p) == s
  {
    if |s| >= |p| {
      if OccursAt(s, p, 0) { ReplaceBySelf(s[|p|..], p); } else { ReplaceBySelf(s[1..], p); }
    }
  }

  /** If the replaced text starts with `q`, either the original did, or some end of `q`
      and the replacement `h` begin alike. */
  lemma {:induction false} PrefixOfReplaced(s: string, p: string, h: string, q: string)
    requires p != "" && q <= ReplaceAll(s, p, h)
    ensures q <= s || exists j | 0 <= j < |q| :: q[j..] <= h || h <= q[j..]
    decreases |q|
  {
    if |s| >= |p| && q != "" {
      if OccursAt(s, p, 0) {
        var rest := ReplaceAll(s[|p|..], p, h);
        assert q[0..] == q;
        if |q| <= |h| {
          assert q == (h + rest)[..|q|] == h[..|q|];
        } else {
          assert h == (h + rest)[..|h|] == q[..|h|];
        }
      } else {
        var rest := ReplaceAll(s[1..], p, h);
        assert q[0] == s[0];
        assert q[1..] == ([s[0]] + rest)[1..|q|] == rest[..|q| - 1];
        PrefixOfReplaced(s[1..], p, h, q[1..]);
        if q[1..] <= s[1..] {
          assert q == [q[0]] + q[1..] && s == [s[0]] + s[1..];
        } else {
          var j :| 0 <= j < |q[1..]| && (q[1..][j..] <= h || h <= q[1..][j..]);
          assert q[1..][j..] == q[j + 1..];
        }
      }
    }
  }

  /** With a clean replacement no occurrence of `p` survives, inside or across pieces. */
  lemma {:induction false} NoneSurvives(s: string, p: string, h: string)
    requires p != "" && Clean(p, h)
    ensures !Contains(ReplaceAll(s, p, h), p)
  {
    var r := ReplaceAll(s, p, h);
    if |s| < |p| {
    } else if OccursAt(s, p, 0) {
      var rest := ReplaceAll(s[|p|..], p, h);
      NoneSurvives(s[|p|..], p, h);
      forall i | 0 <= i <= |r| ensures !OccursAt(r, p, i) {
        NoneAcross(h, rest, p, i);
      }
    } else {
      var rest := ReplaceAll(s[1..], p, h);
      NoneSurvives(s[1..], p, h);
      NoneAtFront(s, p, h);
      forall i | 0 <= i <= |r| ensures !OccursAt(r, p, i) {
        if 0 < i && i + |p| <= |r| {
          assert rest[i - 1..i - 1 + |p|] == r[i..i + |p|];
          assert !OccursAt(rest, p, i - 1);
        }
      }
    }
  }

  lemma NoneAcross(h: string, rest: string, p: string, i: nat)
    requires !Contains(h, p) && !Contains(rest, p) && !HeadMeetsTail(p, h)
    ensures !OccursAt(h + rest, p, i)
  {
    var r := h + rest;
    if i + |p| > |r| {
    } else if i >= |h| {
      assert rest[i - |h|..i - |h| + |p|] == r[i..i + |p|];
      assert !OccursAt(rest, p, i - |h|);
    } else if i + |p| <= |h| {
      assert h[i..i + |p|] == r[i..i + |p|];
      assert !OccursAt(h, p, i);
    } else {
      var m := |h| - i;
      assert r[i..i + |p|][..m] == r[i..|h|] == h[|h| - m..];
    }
  }

  /** No proper end of `p` and the replacement begin alike. */
  lemma EndsApart(p: string, h: string, i: nat)
    requires Clean(p, h) && 0 < i < |p|
    ensures !(p[i..] <= h) && !(h <= p[i..])
  {
    var m := |p| - i;
    if m <= |h| {
      assert p[|p| - m..] != h[..m];
      assert |h| == m ==> h[..m] == h;
    } else {
      assert !OccursAt(p, h, i);
      assert p[i..][..|h|] == p[i..i + |h|];
    }
  }

  lemma NoneAtFront(s: string, p: string, h: string)
    requires p != "" && Clean(p, h) && |s| >= |p| && !OccursAt(s, p, 0)
    ensures !OccursAt(ReplaceAll(s, p, h), p, 0)
  {
    var rest, q := ReplaceAll(s[1..], p, h), p[1..];
    var r := [s[0]] + rest;
    if s[0] == p[0] {
      assert p == [p[0]] + q && s == [s[0]] + s[1..];
      assert !(q <= s[1..]);
      forall j | 0 <= j < |q| ensures !(q[j..] <= h || h <= q[j..]) {
        EndsApart(p, h, j + 1);
        assert q[j..] == p[j + 1..];
      }
      if q <= rest { PrefixOfReplaced(s[1..], p, h, q); }
      assert |r| >= |p| ==> r[0..|p|][1..] == rest[..|q|];
    } else {
      assert |r| >= |p| ==> r[0..|p|][0] == s[0];
    }
  }

  /** A string that contains `p` is changed by replacing `p` with anything else. */
  lemma {:induction false} OccurrenceChanges(s: string, p: string, h: string)
    requires p != "" && h != p
    ensures |h| >= |p| ==> |ReplaceAll(s, p, h)| >= |s|
    ensures |h| <= |p| ==> |ReplaceAll(s, p, h)| <= |s|
    ensures Contains(s, p) ==> ReplaceAll(s, p, h) != s
    ensures Contains(s, p) && |h| != |p| ==> |ReplaceAll(s, p, h)| != |s|
  {
    if |s| < |p| {
    } else if OccursAt(s, p, 0) {
      OccurrenceChanges(s[|p|..], p, h);
      if |h| == |p| {
        assert s[..|p|] == p && ReplaceAll(s, p, h)[..|p|] == h;
      }
    } else {
      OccurrenceChanges(s[1..], p, h);
      if i :| 0 <= i <= |s| && OccursAt(s, p, i) {
        assert s[1..][i - 1..i - 1 + |p|] == s[i..i + |p|];
        assert OccursAt(s[1..], p, i - 1);
        assert ReplaceAll(s, p, h)[1..] == ReplaceAll(s[1..], p, h);
      }
    }
  }

  /** Up to the first occurrence the text is copied. */
  lemma {:induction false} ReplaceFirst(x: string, p: string, z: string, h: string)
    requires p != ""
    requires forall i | 0 <= i < |x| :: !OccursAt(x + p + z, p, i)
    ensures ReplaceAll(x + p + z, p, h) == x + h + ReplaceAll(z, p, h)
  {
    var s := x + p + z;
    if x == "" {
      ReplaceAtStart(p, z, h);
      assert s == p + z && x + h == h;
    } else {
      assert !OccursAt(s, p, 0);
      var s' := x[1..] + p + z;
      assert s[1..] == s';
      forall i | 0 <= i < |x[1..]| ensures !OccursAt(s', p, i) {
        assert !OccursAt(s, p, i + 1);
        assert |p| <= |s'| - i ==> s[i + 1..i + 1 + |p|] == s'[i..i + |p|];
      }
      ReplaceFirst(x[1..], p, z, h);
      assert x + h + ReplaceAll(z, p, h) == [x[0]] + (x[1..] + h + ReplaceAll(z, p, h));
    }
  }

  /** An unbordered `p` preceded by its own beginning is first met where it stands. */
  lemma FirstAfterOwnPrefix(m: nat, p: string, z: string)
    requires p != "" && Unbordered(p) && m < |p|
    ensures forall i | 0 <= i < m :: !OccursAt(p[..m] + p + z, p, i)
  {
    var s := p[..m] + p + z;
    forall i | 0 <= i < m ensures !OccursAt(s, p, i) {
      var k := |p| - (m - i);
      assert s[i..i + |p|][m - i..] == s[m..m + k] == p[..k];
      assert p[|p| - k..] != p[..k];
    }
  }

  /** A text on which a second replacement changes the result of the first, and that result. */
  lemma UncleanWitness(p: string, h: string) returns (s: string, r: string)
    requires p != "" && Unbordered(p) && h != p && !Clean(p, h)
    ensures ReplaceAll(s, p, h) == r && Contains(r, p)
  {
    if Contains(h, p) {
      s, r := p + "", h + "";
      ReplaceAtStart(p, "", h);
      assert r == h;
    } else if TailMeetsHead(p, h) {
      s, r := TailWitness(p, h);
    } else if HeadMeetsTail(p, h) {
      s, r := HeadWitness(p, h);
    } else {
      s, r := InsideWitness(p, h);
    }
  }

  lemma TailWitness(p: string, h: string) returns (s: string, r: string)
    requires p != "" && Unbordered(p) && TailMeetsHead(p, h)
    ensures ReplaceAll(s, p, h) == r && Contains(r, p)
  {
    var m :| 0 < m < |p| && m <= |h| && p[|p| - m..] == h[..m];
    var x := p[..|p| - m];
    s, r := x + p + "", x + h + "";
    FirstAfterOwnPrefix(|p| - m, p, "");
    ReplaceFirst(x, p, "", h);
    StartPlusBeginning(p, h, m);
  }

  lemma StartPlusBeginning(p: string, h: string, m: nat)
    requires 0 < m < |p| && m <= |h| && p[|p| - m..] == h[..m]
    ensures Contains(p[..|p| - m] + h + "", p)
  {
    var x := p[..|p| - m];
    var r := x + h + "";
    assert r[0..|p|] == x + h[..m] == p;
    assert OccursAt(r, p, 0);
  }

  lemma HeadWitness(p: string, h: string) returns (s: string, r: string)
    requires p != "" && HeadMeetsTail(p, h)
    ensures ReplaceAll(s, p, h) == r && Contains(r, p)
  {
    var m :| 0 < m < |p| && m <= |h| && p[..m] == h[|h| - m..];
    var y := p[m..];
    s, r := p + y, h + y;
    ReplaceAtStart(p, y, h);
    EndPlusRest(p, h, m);
  }

  lemma ReplaceAtStart(p: string, z: string, h: string)
    requires p != ""
    ensures ReplaceAll(p + z, p, h) == h + ReplaceAll(z, p, h)
  {
    assert (p + z)[0..|p|] == p && (p + z)[|p|..] == z;
  }

  lemma EndPlusRest(p: string, h: string, m: nat)
    requires 0 < m < |p| && m <= |h| && p[..m] == h[|h| - m..]
    ensures Contains(h + p[m..], p)
  {
    var r, i := h + p[m..], |h| - m;
    assert r[i..i + |p|] == h[i..] + p[m..] == p;
    assert OccursAt(r, p, i);
  }

  lemma InsideWitness(p: string, h: string) returns (s: string, r: string)
    requires p != "" && Unbordered(p) && SitsInside(p, h)
    ensures ReplaceAll(s, p, h) == r && Contains(r, p)
  {
    var i :| 0 < i && i + |h| < |p| && OccursAt(p, h, i);
    s, r := p[..i] + p + p[i + |h|..], p;
    ReplaceInside(p, h, i);
    assert OccursAt(p, p, 0);
  }

  lemma ReplaceInside(p: string, h: string, i: nat)
    requires p != "" && Unbordered(p) && 0 < i && i + |h| < |p| && OccursAt(p, h, i)
    ensures ReplaceAll(p[..i] + p + p[i + |h|..], p, h) == p
  {
    var x, z := p[..i], p[i + |h|..];
    FirstAfterOwnPrefix(i, p, z);
    ReplaceFirst(x, p, z, h);
    Reassemble(p, h, i);
  }

  lemma Reassemble(p: string, h: string, i: nat)
    requires OccursAt(p, h, i)
    ensures p[..i] + h + p[i + |h|..] == p
  {}

  /** The exact condition: a second replacement changes nothing, whatever the text, if and
      only if the replacement is the placeholder itself or is clean of it. */
  lemma ReplacingTwice(p: string, h: string)
    requires p != "" && Unbordered(p)
    ensures ReplacingTwiceIsOnce(p, h) <==> h == p || Clean(p, h)
  {
    if h == p {
      forall s ensures ReplaceAll(ReplaceAll(s, p, h), p, h) == ReplaceAll(s, p, h) {
        ReplaceBySelf(s, p);
      }
    } else if Clean(p, h) {
      forall s ensures ReplaceAll(ReplaceAll(s, p, h), p, h) == ReplaceAll(s, p, h) {
        NoneSurvives(s, p, h);
        ReplaceAbsent(ReplaceAll(s, p, h), p, h);
      }
    } else {
      var s, r := UncleanWitness(p, h);
      OccurrenceChanges(r, p, h);
    }
  }
}
