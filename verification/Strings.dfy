/** Byte-wise string order, sorting and de-duplication. */
module Strings {
  import opened Common

  predicate LexLess(a: string, b: string) {
    if b == "" then false
    else if a == "" then true
    else a[0] < b[0] || (a[0] == b[0] && LexLess(a[1..], b[1..]))
  }

  /** Less is a proper prefix, or smaller at the first place where they differ. */
  lemma {:induction false} LexLessExactly(a: string, b: string)
    ensures LexLess(a, b) <==> a < b || exists i :: 0 <= i < |a| && i < |b| && a[..i] == b[..i] && a[i] < b[i]
  {
    if a != "" && b != "" && a[0] == b[0] {
      LexLessExactly(a[1..], b[1..]);
      if a[1..] < b[1..] { assert a == [a[0]] + a[1..] && b == [b[0]] + b[1..]; }
      if i :| 0 <= i < |a[1..]| && i < |b[1..]| && a[1..][..i] == b[1..][..i] && a[1..][i] < b[1..][i] {
        assert a[..i + 1] == [a[0]] + a[1..][..i] && b[..i + 1] == [b[0]] + b[1..][..i];
        assert a[i + 1] < b[i + 1];
      }
      if a < b { assert a[1..] < b[1..]; }
      if i :| 0 <= i < |a| && i < |b| && a[..i] == b[..i] && a[i] < b[i] {
        assert i > 0;
        assert a[1..][..i - 1] == a[..i][1..] && b[1..][..i - 1] == b[..i][1..];
        assert a[1..][i - 1] < b[1..][i - 1];
      }
    } else if a != "" && b != "" && a[0] < b[0] {
      assert a[..0] == b[..0];
    } else if a != "" && b != "" {
      forall i | 0 < i < |a| && i < |b| ensures a[..i] != b[..i] { assert a[..i][0] == a[0] && b[..i][0] == b[0]; }
    }
  }

  function TrimSuffix(s: string, suffix: string): string {
    if |suffix| <= |s| && s[|s| - |suffix|..] == suffix then s[..|s| - |suffix|] else s
  }

  /** A suffix comes off once, and only where it is. */
  lemma TrimsOnce(s: string, suffix: string)
    ensures TrimSuffix(s + suffix, suffix) == s
    ensures TrimSuffix(s, suffix) == s || TrimSuffix(s, suffix) + suffix == s
  {
    assert (s + suffix)[|s|..] == suffix;
  }

  ghost predicate Ascending(s: seq<string>) {
    forall i, j :: 0 <= i < j < |s| ==> !LexLess(s[j], s[i])
  }

  lemma {:induction false} LexTotal(a: string, b: string)
    ensures !(LexLess(a, b) && LexLess(b, a))
    ensures LexLess(a, b) || LexLess(b, a) || a == b
  {
    if a != "" && b != "" && a[0] == b[0] {
      LexTotal(a[1..], b[1..]);
      assert a == [a[0]] + a[1..] && b == [b[0]] + b[1..];
    }
  }

  lemma {:induction false} LexTransitive(a: string, b: string, c: string)
    requires !LexLess(b, a) && !LexLess(c, b)
    ensures !LexLess(c, a)
  {
    if a != "" && b != "" && c != "" && a[0] == b[0] == c[0] { LexTransitive(a[1..], b[1..], c[1..]); }
  }

  /** Insertion of x into an ascending list. */
  function Insert(s: seq<string>, x: string): (r: seq<string>)
    ensures multiset(r) == multiset(s) + multiset{x}
    ensures |r| == |s| + 1
  {
    if s == [] then [x]
    else if LexLess(x, s[0]) then
      [x] + s
    else
      assert s == [s[0]] + s[1..];
      [s[0]] + Insert(s[1..], x)
  }

  lemma {:induction false} InsertAscending(s: seq<string>, x: string)
    requires Ascending(s)
    ensures Ascending(Insert(s, x))
  {
    if s != [] {
      LexTotal(x, s[0]);
      var r := Insert(s, x);
      if LexLess(x, s[0]) {
        forall j | 1 <= j < |r| ensures !LexLess(r[j], x) {
          if j > 1 { LexTransitive(x, s[0], r[j]); }
        }
      } else {
        InsertAscending(s[1..], x);
        forall j | 1 <= j < |r| ensures !LexLess(r[j], s[0]) {
          assert r[j] in multiset(Insert(s[1..], x));
          if r[j] != x { assert r[j] in s[1..]; }
        }
      }
    }
  }

  /** sort.Strings. */
  function Sorted(s: seq<string>): (r: seq<string>)
    ensures multiset(r) == multiset(s) && |r| == |s|
  {
    if s == [] then []
    else
      assert s == s[..|s| - 1] + [s[|s| - 1]];
      Insert(Sorted(s[..|s| - 1]), s[|s| - 1])
  }

  lemma {:induction false} SortedAscending(s: seq<string>)
    ensures Ascending(Sorted(s))
  {
    if s != [] {
      SortedAscending(s[..|s| - 1]);
      InsertAscending(Sorted(s[..|s| - 1]), s[|s| - 1]);
    }
  }

  /** The non-empty strings of s, each once, in order of first appearance. */
  function Distinct(s: seq<string>): (r: seq<string>)
    ensures forall x :: x in r <==> x in s && x != ""
    ensures forall i, j :: 0 <= i < j < |r| ==> r[i] != r[j]
  {
    if s == [] then []
    else
      var front := Distinct(s[..|s| - 1]);
      var x := s[|s| - 1];
      if x != "" && x !in front then front + [x] else front
  }

  /** mergeUnique: the union of two lists without blanks or repeats, sorted. */
  method MergeUnique(a: seq<string>, b: seq<string>) returns (out: seq<string>)
    ensures out == Merged(a, b)
  {
    var all := a + b;
    var seen: set<string> := {};
    out := [];
    for i := 0 to |all|
      invariant out == Distinct(all[..i]) && seen == set x | x in out
    {
      assert all[..i + 1][..i] == all[..i];
      var s := all[i];
      if s != "" && s !in seen {
        seen := seen + {s};
        out := out + [s];
      }
    }
    assert all[..|all|] == all;
    out := Sorted(out);
  }

  function Merged(a: seq<string>, b: seq<string>): seq<string> {
    Sorted(Distinct(a + b))
  }

  /** Merging is union: the result holds exactly the non-empty strings of both lists, strictly
      ascending. */
  lemma MergedIsUnion(a: seq<string>, b: seq<string>)
    ensures forall x :: x in Merged(a, b) <==> x != "" && (x in a || x in b)
    ensures forall i, j :: 0 <= i < j < |Merged(a, b)| ==> LexLess(Merged(a, b)[i], Merged(a, b)[j])
  {
    var d := Distinct(a + b);
    var m := Merged(a, b);
    forall x ensures x in m <==> x in d {
      assert x in m <==> x in multiset(m);
      assert x in d <==> x in multiset(d);
    }
    SortedAscending(d);
    DistinctMultiset(d);
    forall i, j | 0 <= i < j < |m| ensures LexLess(m[i], m[j]) {
      LexTotal(m[i], m[j]);
      assert m[i] in m;
      if m[i] == m[j] { TwiceIn(m, i, j); }
    }
  }

  lemma {:induction false} DistinctMultiset(s: seq<string>)
    requires forall i, j :: 0 <= i < j < |s| ==> s[i] != s[j]
    ensures forall x :: x in s ==> multiset(s)[x] == 1
  {
    if s != [] {
      var n := |s| - 1;
      DistinctMultiset(s[..n]);
      assert s == s[..n] + [s[n]];
    }
  }

  /** mergeUniqueStr: add one string unless it is there already. */
  function MergeOne(existing: seq<string>, add: string): (r: seq<string>)
    ensures |r| >= |existing| && |r| > 0
  {
    if add in existing then existing else Sorted(existing + [add])
  }

  lemma MergeOneAdds(existing: seq<string>, add: string)
    ensures forall x :: x in MergeOne(existing, add) <==> x in existing || x == add
  {
    var r := MergeOne(existing, add);
    forall x ensures x in r <==> x in existing || x == add {
      assert x in r <==> x in multiset(r);
      assert x in existing + [add] <==> x in multiset(existing + [add]);
    }
  }
}
