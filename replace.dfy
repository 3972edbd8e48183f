/**
  Literal, left-to-right, non-overlapping replace-all on strings: the behaviour of
  Python's `re.sub(pattern, replacement, text)` when the pattern matches one fixed
  string and the replacement holds no group references.
*/
module Replace {

  /** The pattern `pat` occurs in `s` starting at index `k`. */
  predicate OccursAt(s: string, pat: string, k: nat) {
    k + |pat| <= |s| && s[k..k + |pat|] == pat
  }

  /** The pattern `pat` occurs somewhere in `s`. */
  predicate Contains(s: string, pat: string) {
    exists k: nat | k <= |s| :: OccursAt(s, pat, k)
  }

  /** One of `x`, `y` is a prefix of the other: a window that starts with `x`
      could be (or could continue into) an occurrence of `y`. */
  predicate Overlaps(x: string, y: string) {
    x <= y || y <= x
  }

  /** Scans `s` from the left; at each position either the pattern matches there,
      and is replaced by `rep` with the scan resuming after the match, or one
      character is copied. */
  function ReplaceAll(s: string, pat: string, rep: string): (r: string)
    requires |pat| > 0
    decreases |s|
  {
    if |s| < |pat| then s
    else if pat <= s then rep + ReplaceAll(s[|pat|..], pat, rep)
    else [s[0]] + ReplaceAll(s[1..], pat, rep)
  }

  /** The number of replacements `ReplaceAll(s, pat, _)` makes. */
  function MatchCount(s: string, pat: string): nat
    requires |pat| > 0
    decreases |s|
  {
    if |s| < |pat| then 0
    else if pat <= s then 1 + MatchCount(s[|pat|..], pat)
    else MatchCount(s[1..], pat)
  }

  /** No occurrence of `q` can start inside a copy of `r`, whatever follows it. */
  predicate CannotStartInside(q: string, r: string) {
    forall k | 0 <= k < |r| :: !Overlaps(r[k..], q)
  }

  /** No proper suffix of `q` can run into a copy of `r`. */
  predicate CannotResumeInto(q: string, r: string) {
    forall m | 1 <= m < |q| :: !Overlaps(q[m..], r)
  }

  lemma OccursAtUnshift(s: string, pat: string, k: nat)
    requires 0 < k && OccursAt(s, pat, k)
    ensures OccursAt(s[1..], pat, k - 1)
  {
    assert s[1..][k - 1..k - 1 + |pat|] == s[k..k + |pat|];
  }

  lemma OccursAtShift(s: string, pat: string, k: nat, d: nat)
    requires d <= |s| && OccursAt(s[d..], pat, k)
    ensures OccursAt(s, pat, k + d)
  {
    assert s[d..][k..k + |pat|] == s[k + d..k + d + |pat|];
  }

  lemma MulSucc(n: nat, d: int)
    ensures (n + 1) * d == n * d + d
  {
  }

  /** Each replacement changes the length by `|rep| - |pat|`. */
  lemma {:induction false} ReplaceAllLength(s: string, pat: string, rep: string)
    requires |pat| > 0
    ensures |ReplaceAll(s, pat, rep)| == |s| + MatchCount(s, pat) * (|rep| - |pat|)
    decreases |s|
  {
    if |s| < |pat| {
    } else if pat <= s {
      ReplaceAllLength(s[|pat|..], pat, rep);
      MulSucc(MatchCount(s[|pat|..], pat), |rep| - |pat|);
    } else {
      ReplaceAllLength(s[1..], pat, rep);
    }
  }

  /** The scan makes no replacement exactly when the pattern does not occur. */
  lemma {:induction false} MatchCountZero(s: string, pat: string)
    requires |pat| > 0
    ensures MatchCount(s, pat) == 0 <==> !Contains(s, pat)
    decreases |s|
  {
    if |s| < |pat| {
      assert forall k: nat :: !OccursAt(s, pat, k);
    } else if pat <= s {
      assert OccursAt(s, pat, 0);
    } else {
      MatchCountZero(s[1..], pat);
      if Contains(s[1..], pat) {
        var k: nat :| k <= |s[1..]| && OccursAt(s[1..], pat, k);
        OccursAtShift(s, pat, k, 1);
      }
      if Contains(s, pat) {
        var k: nat :| k <= |s| && OccursAt(s, pat, k);
        assert k != 0;
        OccursAtUnshift(s, pat, k);
      }
    }
  }

  /** Text in which the pattern does not occur is returned unchanged. */
  lemma {:induction false} ReplaceAllAbsent(s: string, pat: string, rep: string)
    requires |pat| > 0 && !Contains(s, pat)
    ensures ReplaceAll(s, pat, rep) == s
    decreases |s|
  {
    if |s| < |pat| {
    } else {
      assert !OccursAt(s, pat, 0);
      if !Contains(s[1..], pat) {
        ReplaceAllAbsent(s[1..], pat, rep);
      } else {
        var k: nat :| k <= |s[1..]| && OccursAt(s[1..], pat, k);
        OccursAtShift(s, pat, k, 1);
      }
    }
  }

  /** A prefix `u` of the output that cannot run into a copy of `rep` anywhere was
      copied unchanged from the input. */
  lemma {:induction false} CopiedPrefix(t: string, pat: string, rep: string, u: string)
    requires |pat| > 0
    requires forall m | 0 <= m < |u| :: !Overlaps(u[m..], rep)
    requires u <= ReplaceAll(t, pat, rep)
    ensures u <= t
    decreases |t|
  {
    if u == [] || |t| < |pat| {
    } else if !(pat <= t) {
      var rest := ReplaceAll(t[1..], pat, rep);
      assert u[1..] <= rest;
      forall m | 0 <= m < |u[1..]| ensures !Overlaps(u[1..][m..], rep) {
        assert u[1..][m..] == u[m + 1..];
      }
      CopiedPrefix(t[1..], pat, rep, u[1..]);
    } else {
      SliceFromStart(u);
      assert false;
    }
  }

  lemma SliceFromStart(u: string)
    ensures u[0..] == u
  {
  }

  /** Replacing `pat` by `rep` creates no occurrence of `q` that was not already in
      the input, when `q` can neither start inside `rep` nor run into it. */
  lemma {:induction false} NoNewOccurrence(s: string, pat: string, rep: string, q: string)
    requires |pat| > 0 && |q| > 0
    requires CannotStartInside(q, rep) && CannotResumeInto(q, rep)
    ensures Contains(ReplaceAll(s, pat, rep), q) ==> Contains(s, q)
    decreases |s|
  {
    var out := ReplaceAll(s, pat, rep);
    if !Contains(out, q) || |s| < |pat| {
      return;
    }
    var k: nat :| k <= |out| && OccursAt(out, q, k);
    if pat <= s {
      var rest := ReplaceAll(s[|pat|..], pat, rep);
      assert out == rep + rest;
      if k < |rep| {
        StartsInside(rep, rest, q, k);
        assert false;
      }
      assert rest[k - |rep|..k - |rep| + |q|] == out[k..k + |q|];
      assert OccursAt(rest, q, k - |rep|);
      NoNewOccurrence(s[|pat|..], pat, rep, q);
      var k': nat :| k' <= |s[|pat|..]| && OccursAt(s[|pat|..], q, k');
      OccursAtShift(s, q, k', |pat|);
    } else {
      var rest := ReplaceAll(s[1..], pat, rep);
      assert out == [s[0]] + rest;
      if k == 0 {
        assert q[1..] <= rest;
        forall m | 0 <= m < |q[1..]| ensures !Overlaps(q[1..][m..], rep) {
          assert q[1..][m..] == q[m + 1..];
        }
        CopiedPrefix(s[1..], pat, rep, q[1..]);
        assert OccursAt(s, q, 0);
      } else {
        assert rest[k - 1..k - 1 + |q|] == out[k..k + |q|];
        assert OccursAt(rest, q, k - 1);
        NoNewOccurrence(s[1..], pat, rep, q);
        var k': nat :| k' <= |s[1..]| && OccursAt(s[1..], q, k');
        OccursAtShift(s, q, k', 1);
      }
    }
  }

  /** An occurrence of `q` in `rep + rest` that starts inside `rep` makes the tail of
      `rep` from there overlap `q`. */
  lemma StartsInside(rep: string, rest: string, q: string, k: nat)
    requires k < |rep| && OccursAt(rep + rest, q, k)
    ensures Overlaps(rep[k..], q)
  {
    var w := (rep + rest)[k..k + |q|];
    if k + |q| <= |rep| {
      assert w == rep[k..k + |q|];
    } else {
      assert w[..|rep| - k] == rep[k..];
    }
  }

  /** No occurrence of the pattern survives the replacement, when the pattern can
      neither start inside the replacement nor run into it. */
  lemma {:induction false} PatternRemoved(s: string, pat: string, rep: string)
    requires |pat| > 0
    requires CannotStartInside(pat, rep) && CannotResumeInto(pat, rep)
    ensures !Contains(ReplaceAll(s, pat, rep), pat)
    decreases |s|
  {
    var out := ReplaceAll(s, pat, rep);
    if |s| < |pat| {
      forall k: nat ensures !OccursAt(out, pat, k) { }
      return;
    }
    if Contains(out, pat) {
      var k: nat :| k <= |out| && OccursAt(out, pat, k);
      if pat <= s {
        var rest := ReplaceAll(s[|pat|..], pat, rep);
        assert out == rep + rest;
        if k < |rep| {
          StartsInside(rep, rest, pat, k);
        } else {
          assert rest[k - |rep|..k - |rep| + |pat|] == out[k..k + |pat|];
          assert OccursAt(rest, pat, k - |rep|);
          PatternRemoved(s[|pat|..], pat, rep);
        }
      } else {
        var rest := ReplaceAll(s[1..], pat, rep);
        assert out == [s[0]] + rest;
        if k == 0 {
          assert pat[1..] <= rest;
          forall m | 0 <= m < |pat[1..]| ensures !Overlaps(pat[1..][m..], rep) {
            assert pat[1..][m..] == pat[m + 1..];
          }
          CopiedPrefix(s[1..], pat, rep, pat[1..]);
        } else {
          assert rest[k - 1..k - 1 + |pat|] == out[k..k + |pat|];
          assert OccursAt(rest, pat, k - 1);
          PatternRemoved(s[1..], pat, rep);
        }
      }
    }
  }
}
