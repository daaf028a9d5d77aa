/** The case-insensitive glob behind mDNS selectors: an iterative matcher that only ever
    backtracks to the most recent star, against the inductive meaning of a pattern. */
module Glob {
  import opened Common

  /** Reference meaning: `*` stands for any run, `?` for one character, anything else for itself. */
  predicate Matches(p: string, s: string)
    decreases |p| + |s|
  {
    if p == "" then s == ""
    else if p[0] == '*' then Matches(p[1..], s) || (s != "" && Matches(p, s[1..]))
    else s != "" && (p[0] == '?' || p[0] == s[0]) && Matches(p[1..], s[1..])
  }

  predicate OnlyStars(p: string) {
    forall k :: 0 <= k < |p| ==> p[k] == '*'
  }

  /** What holds at every head of the matcher's loop. */
  ghost predicate AtHead(p: string, s: string, i: int, j: int, star: int, ss: int) {
    && 0 <= i <= |p| && 0 <= j <= |s| && -1 <= star < i
    && (star >= 0 ==> p[star] == '*' && 0 <= ss <= j)
  }

  /** The answer the loop gives when it is resumed at a given head. */
  ghost predicate Resume(p: string, s: string, i: int, j: int, star: int, ss: int)
    requires AtHead(p, s, i, j, star, ss)
    decreases |p| - star, if star >= 0 then |s| - ss else 0, |s| - j, |p| - i
  {
    if j == |s| then OnlyStars(p[i..])
    else if i < |p| && (p[i] == '?' || p[i] == s[j]) then Resume(p, s, i + 1, j + 1, star, ss)
    else if i < |p| && p[i] == '*' then Resume(p, s, i + 1, j, i, j)
    else star >= 0 && Resume(p, s, star + 1, ss + 1, star, ss + 1)
  }

  ghost predicate Verdict(p: string, s: string) {
    Resume(p, s, 0, 0, -1, 0)
  }

  /** The matcher itself. */
  method Glob(p: string, s: string) returns (r: bool)
    ensures r == Verdict(p, s)
    ensures r ==> Matches(p, s)
    ensures '*' !in s || '*' !in p ==> r == Matches(p, s)
  {
    GlobSound(p, s);
    if '*' !in s || '*' !in p { GlobComplete(p, s); }
    var star, ss := -1, 0;
    var i, j := 0, 0;
    while j < |s|
      invariant AtHead(p, s, i, j, star, ss)
      invariant Verdict(p, s) == Resume(p, s, i, j, star, ss)
      decreases |p| - star, if star >= 0 then |s| - ss else 0, |s| - j, |p| - i
    {
      if i < |p| && (p[i] == '?' || p[i] == s[j]) {
        i, j := i + 1, j + 1;
      } else if i < |p| && p[i] == '*' {
        star, ss := i, j;
        i := i + 1;
      } else if star >= 0 {
        i := star + 1;
        ss := ss + 1;
        j := ss;
      } else {
        return false;
      }
    }
    ghost var head := i;
    while i < |p| && p[i] == '*'
      invariant head <= i <= |p|
      invariant forall k :: head <= k < i ==> p[k] == '*'
    {
      i := i + 1;
    }
    if i < |p| { assert p[head..][i - head] != '*'; }
    return i == |p|;
  }

  method GlobMatch(pattern: string, s: string) returns (r: bool)
    ensures r ==> Matches(ToLower(pattern), ToLower(s))
    ensures '*' !in s || '*' !in pattern ==> r == Matches(ToLower(pattern), ToLower(s))
  {
    r := Glob(ToLower(pattern), ToLower(s));
  }

  // ---- Soundness ----

  lemma {:induction false} OnlyStarsMatchEmpty(p: string)
    ensures Matches(p, "") == OnlyStars(p)
  {
    if p != "" {
      OnlyStarsMatchEmpty(p[1..]);
      assert p == [p[0]] + p[1..];
      if OnlyStars(p[1..]) && p[0] == '*' {
        forall k | 0 <= k < |p| ensures p[k] == '*' { if k > 0 { assert p[k] == p[1..][k - 1]; } }
      }
    }
  }

  /** A resumed loop only says yes when the rest of the pattern matches the rest of the
      subject from here, or from the star it may still go back to. */
  lemma {:induction false} ResumeSound(p: string, s: string, i: int, j: int, star: int, ss: int)
    requires AtHead(p, s, i, j, star, ss)
    requires Resume(p, s, i, j, star, ss)
    ensures Matches(p[i..], s[j..]) || (star >= 0 && Matches(p[star..], s[ss..]))
    decreases |p| - star, if star >= 0 then |s| - ss else 0, |s| - j, |p| - i
  {
    if j == |s| {
      OnlyStarsMatchEmpty(p[i..]);
    } else if i < |p| && (p[i] == '?' || p[i] == s[j]) {
      ResumeSound(p, s, i + 1, j + 1, star, ss);
      assert p[i..][1..] == p[i + 1..] && s[j..][1..] == s[j + 1..];
      if Matches(p[i + 1..], s[j + 1..]) && p[i] == '*' {
        assert Matches(p[i..], s[j + 1..]);
      }
    } else if i < |p| && p[i] == '*' {
      ResumeSound(p, s, i + 1, j, i, j);
      assert p[i..][1..] == p[i + 1..];
    } else {
      ResumeSound(p, s, star + 1, ss + 1, star, ss + 1);
      assert p[star..][1..] == p[star + 1..] && s[ss..][1..] == s[ss + 1..];
    }
  }

  lemma GlobSound(p: string, s: string)
    ensures Verdict(p, s) ==> Matches(p, s)
  {
    if Verdict(p, s) { ResumeSound(p, s, 0, 0, -1, 0); }
  }

  // ---- Completeness ----

  /** A star-free stretch of pattern uses up exactly one character per pattern character. */
  lemma {:induction false} StarFreeStretch(p: string, s: string, n: nat)
    requires n <= |p| && Matches(p, s)
    requires forall k :: 0 <= k < n ==> p[k] != '*'
    ensures n <= |s| && Matches(p[n..], s[n..])
  {
    if n > 0 {
      assert forall k :: 0 <= k < n - 1 ==> p[1..][k] == p[k + 1];
      StarFreeStretch(p[1..], s[1..], n - 1);
      assert p[1..][n - 1..] == p[n..] && s[1..][n - 1..] == s[n..];
    }
  }

  /** The same, between two places in the middle of a pattern and a subject. */
  lemma StretchBetween(p: string, s: string, a: nat, b: nat, n: nat)
    requires a <= b <= |p| && n <= |s| && Matches(p[a..], s[n..])
    requires forall k :: a <= k < b ==> p[k] != '*'
    ensures n + (b - a) <= |s| && Matches(p[b..], s[n + (b - a)..])
  {
    forall k | 0 <= k < b - a ensures p[a..][k] != '*' { assert p[a..][k] == p[a + k]; }
    StarFreeStretch(p[a..], s[n..], b - a);
    assert p[a..][b - a..] == p[b..] && s[n..][b - a..] == s[n + (b - a)..];
  }

  /** What a star absorbs can always start earlier. */
  lemma {:induction false} StarAbsorbs(p: string, s: string, n: nat)
    requires p != "" && p[0] == '*' && n <= |s| && Matches(p, s[n..])
    ensures Matches(p, s)
  {
    if n > 0 {
      assert s[1..][n - 1..] == s[n..];
      StarAbsorbs(p, s[1..], n - 1);
    }
  }

  /** A match of a starred pattern starts the rest of the pattern at some position. */
  lemma {:induction false} StarStarts(p: string, s: string) returns (k: nat)
    requires p != "" && p[0] == '*' && Matches(p, s)
    ensures k <= |s| && Matches(p[1..], s[k..])
  {
    if Matches(p[1..], s) {
      k := 0;
    } else {
      k := StarStarts(p, s[1..]);
      assert s[1..][k..] == s[k + 1..];
      k := k + 1;
    }
  }

  /** Since the last star the loop has consumed one subject character per pattern character. */
  ghost predicate Aligned(p: string, i: int, j: int, star: int, ss: int)
    requires i <= |p|
  {
    star >= 0 ==> j - ss == i - star - 1 && forall k :: star < k < i ==> p[k] != '*'
  }

  /** If the pattern can still match from the last star, it can match from there with the
      stretch since that star placed at or after where the loop placed it. */
  lemma LaterPlacement(p: string, s: string, i: int, j: int, star: int, ss: int) returns (k: nat)
    requires AtHead(p, s, i, j, star, ss) && Aligned(p, i, j, star, ss)
    requires star >= 0 && Matches(p[star..], s[ss..])
    ensures j <= k <= |s| && Matches(p[i..], s[k..])
  {
    var n := StarStarts(p[star..], s[ss..]);
    assert p[star..][1..] == p[star + 1..] && s[ss..][n..] == s[ss + n..];
    StretchBetween(p, s, star + 1, i, ss + n);
    k := ss + n + (i - star - 1);
  }

  /** Going back to the last star only loses nothing: as long as one of the two ways to match
      is open, the resumed loop says yes. */
  lemma {:induction false} ResumeComplete(p: string, s: string, i: int, j: int, star: int, ss: int)
    requires AtHead(p, s, i, j, star, ss) && Aligned(p, i, j, star, ss)
    requires '*' !in s || '*' !in p
    requires Matches(p[i..], s[j..]) || (star >= 0 && Matches(p[star..], s[ss..]))
    ensures Resume(p, s, i, j, star, ss)
    decreases |p| - star, if star >= 0 then |s| - ss else 0, |s| - j, |p| - i
  {
    if j == |s| {
      if !Matches(p[i..], s[j..]) {
        var k := LaterPlacement(p, s, i, j, star, ss);
      }
      OnlyStarsMatchEmpty(p[i..]);
    } else if i < |p| && (p[i] == '?' || p[i] == s[j]) {
      assert p[i] in p && s[j] in s;
      assert p[i..][1..] == p[i + 1..] && s[j..][1..] == s[j + 1..];
      ResumeComplete(p, s, i + 1, j + 1, star, ss);
    } else if i < |p| && p[i] == '*' {
      if !Matches(p[i..], s[j..]) {
        var k := LaterPlacement(p, s, i, j, star, ss);
        assert s[j..][k - j..] == s[k..];
        StarAbsorbs(p[i..], s[j..], k - j);
      }
      ResumeComplete(p, s, i + 1, j, i, j);
    } else {
      assert p[star..][1..] == p[star + 1..] && s[ss..][1..] == s[ss + 1..];
      if Matches(p[star + 1..], s[ss..]) { StretchBetween(p, s, star + 1, i, ss); }
      ResumeComplete(p, s, star + 1, ss + 1, star, ss + 1);
    }
  }

  lemma GlobComplete(p: string, s: string)
    requires '*' !in s || '*' !in p
    ensures Verdict(p, s) == Matches(p, s)
  {
    GlobSound(p, s);
    if Matches(p, s) {
      assert p[0..] == p && s[0..] == s;
      ResumeComplete(p, s, 0, 0, -1, 0);
    }
  }

  // ---- Exactly when ----

  /** Without a star to go back to, the loop compares position by position and never lets the
      pattern be shorter than the subject. */
  lemma {:induction false} NoStarYetLockstep(p: string, s: string, i: int)
    requires 0 <= i <= |p| && i <= |s| && |p| < |s|
    requires forall k :: i <= k < |p| ==> p[k] == '*' ==> s[k] == '*'
    ensures !Resume(p, s, i, i, -1, 0)
    decreases |p| - i
  {
    if i < |p| && (p[i] == '?' || p[i] == s[i]) { NoStarYetLockstep(p, s, i + 1); }
  }

  lemma {:induction false} LiteralPrefixMatches(u: string, p: string, s: string)
    requires Matches(p, s)
    ensures Matches(u + p, u + s)
  {
    if u == "" {
      assert u + p == p && u + s == s;
    } else {
      LiteralPrefixMatches(u[1..], p, s);
      assert (u + p)[1..] == u[1..] + p && (u + s)[1..] == u[1..] + s;
      if u[0] == '*' { assert Matches(u + p, (u + s)[1..]); }
    }
  }

  lemma {:induction false} WildcardsMatch(n: nat, s: string)
    requires |s| == n
    ensures Matches(seq(n, _ => '?'), s)
  {
    if n > 0 {
      WildcardsMatch(n - 1, s[1..]);
      assert seq(n, _ => '?')[1..] == seq(n - 1, _ => '?');
    }
  }

  lemma {:induction false} LongPatternLockstep(p: string, s: string, i: int)
    requires 0 <= i <= |s| < |p|
    requires forall k :: i <= k < |p| ==> p[k] == '*' ==> k < |s| && s[k] == '*'
    ensures !Resume(p, s, i, i, -1, 0)
    decreases |s| - i
  {
    if i == |s| {
      assert p[i..][0] == p[i];
    } else if p[i] == '?' || p[i] == s[i] {
      LongPatternLockstep(p, s, i + 1);
    }
  }

  /** The subjects on which the matcher is right for every pattern are those without a star. */
  lemma ExactForSubject(s: string)
    ensures (forall p :: Verdict(p, s) == Matches(p, s)) <==> '*' !in s
  {
    if '*' !in s {
      forall p ensures Verdict(p, s) == Matches(p, s) { GlobComplete(p, s); }
    } else {
      var n :| 0 <= n < |s| && s[n] == '*';
      var k := FirstStar(s, n);
      var u, v := s[..k], s[k..];
      var rest := seq(|v|, _ => '?');
      var p := u + (['*'] + rest);
      assert s == u + v;
      WildcardsMatch(|v|, v);
      assert (['*'] + rest)[1..] == rest;
      LiteralPrefixMatches(u, ['*'] + rest, v);
      LongPatternLockstep(p, s, 0);
      assert Matches(p, s) && !Verdict(p, s);
    }
  }

  lemma {:induction false} FirstStar(s: string, n: nat) returns (k: nat)
    requires n < |s| && s[n] == '*'
    ensures k <= n && s[k] == '*' && forall t :: 0 <= t < k ==> s[t] != '*'
  {
    k := n;
    if t :| 0 <= t < n && s[t] == '*' { k := FirstStar(s, t); }
  }

  lemma {:induction false} LastStar(s: string, n: nat) returns (k: nat)
    requires n < |s| && s[n] == '*'
    ensures n <= k < |s| && s[k] == '*' && forall t :: k < t < |s| ==> s[t] != '*'
    decreases |s| - n
  {
    k := n;
    if t :| n < t < |s| && s[t] == '*' { k := LastStar(s, t); }
  }

  /** The patterns on which the matcher is right for every subject are those without a star. */
  lemma ExactForPattern(p: string)
    ensures (forall s :: Verdict(p, s) == Matches(p, s)) <==> '*' !in p
  {
    if '*' !in p {
      forall s ensures Verdict(p, s) == Matches(p, s) { GlobComplete(p, s); }
    } else {
      var n :| 0 <= n < |p| && p[n] == '*';
      var k := LastStar(p, n);
      var u, v := p[..k], p[k + 1..];
      var s := u + (['*', 'x'] + v);
      assert p == u + (['*'] + v);
      LiteralPrefixMatches([], v, v) by { SelfMatch(v); }
      assert [] + v == v;
      assert (['*'] + v)[1..] == v && (['*', 'x'] + v)[1..] == ['x'] + v && (['x'] + v)[1..] == v;
      assert Matches(['*'] + v, v);
      assert Matches(['*'] + v, ['x'] + v);
      assert Matches(['*'] + v, ['*', 'x'] + v);
      LiteralPrefixMatches(u, ['*'] + v, ['*', 'x'] + v);
      NoStarYetLockstep(p, s, 0);
      assert Matches(p, s) && !Verdict(p, s);
    }
  }

  lemma {:induction false} SelfMatch(p: string)
    ensures Matches(p, p)
  {
    if p != "" {
      SelfMatch(p[1..]);
      if p[0] == '*' { assert Matches(p, p[1..]); }
    }
  }
}
