/** Small shared vocabulary: optional values and sums over sequences and maps. */
module Common {
  datatype Option<+T> = None | Some(value: T) {
    function GetOr(fallback: T): T {
      if Some? then value else fallback
    }
  }

  function Max(a: int, b: int): int { if a >= b then a else b }

  function Min(a: int, b: int): int { if a <= b then a else b }

  /** Go's integer division and remainder truncate toward zero; Dafny's are Euclidean. */
  function TruncDiv(a: int, b: int): int
    requires b > 0
  {
    if a >= 0 then a / b else -((-a) / b)
  }

  function TruncMod(a: int, b: int): int
    requires b > 0
  {
    a - TruncDiv(a, b) * b
  }

  /** The quotient is the one that leaves a remainder smaller than the divisor, of the dividend's sign. */
  lemma TruncDivExact(a: int, b: int, q: int)
    requires b > 0
    ensures TruncDiv(a, b) == q <==> if a >= 0 then 0 <= a - q * b < b else -b < a - q * b <= 0
  {
    if a >= 0 {
      if 0 <= a - q * b < b { ModIs(a, b, q, a - q * b); }
    } else {
      assert (-a) - (-q) * b == -(a - q * b);
      if -b < a - q * b <= 0 { ModIs(-a, b, -q, -(a - q * b)); }
      if TruncDiv(a, b) == q { assert -a == (-a) / b * b + (-a) % b; }
    }
  }

  /** An element at two positions is there at least twice. */
  lemma TwiceIn<T>(s: seq<T>, i: nat, j: nat)
    requires i < j < |s| && s[i] == s[j]
    ensures multiset(s)[s[i]] >= 2
  {
    assert s == s[..i] + [s[i]] + s[i + 1..j] + [s[j]] + s[j + 1..];
  }

  /** Quotient and remainder are unique. */
  lemma ModIs(a: int, n: int, q: int, r: int)
    requires n > 0 && a == q * n + r && 0 <= r < n
    ensures a % n == r && a / n == q
  {
    var d := a / n - q;
    assert a == a / n * n + a % n;
    assert d * n == r - a % n;
    assert d >= 1 ==> d * n >= n;
    assert d <= -1 ==> d * n <= -n;
  }

  function Lower(c: char): char {
    if 'A' <= c <= 'Z' then c - 'A' + 'a' else c
  }

  /** strings.ToLower on ASCII text. */
  function ToLower(s: string): (r: string)
    ensures |r| == |s|
    ensures forall i :: 0 <= i < |s| ==> r[i] == Lower(s[i])
  {
    seq(|s|, i requires 0 <= i < |s| => Lower(s[i]))
  }

  function Sum(s: seq<int>): int {
    if s == [] then 0 else s[0] + Sum(s[1..])
  }

  lemma {:induction false} SumAppend(a: seq<int>, b: seq<int>)
    ensures Sum(a + b) == Sum(a) + Sum(b)
  {
    if a == [] {
      assert a + b == b;
    } else {
      assert (a + b)[1..] == a[1..] + b;
      SumAppend(a[1..], b);
    }
  }

  /** The sum of a map's values. */
  ghost function SumMap<K>(m: map<K, int>): int
    decreases |m|
  {
    if m == map[] then 0
    else
      var k :| k in m;
      m[k] + SumMap(m - {k})
  }

  lemma {:induction false} SumMapRemove<K>(m: map<K, int>, k: K)
    requires k in m
    ensures SumMap(m) == m[k] + SumMap(m - {k})
    decreases |m|
  {
    var j :| j in m && SumMap(m) == m[j] + SumMap(m - {j});
    if j != k {
      SumMapRemove(m - {j}, k);
      SumMapRemove(m - {k}, j);
      assert m - {j} - {k} == m - {k} - {j};
    }
  }

  lemma SumMapPut<K>(m: map<K, int>, k: K, v: int)
    ensures SumMap(m[k := v]) == SumMap(m) - (if k in m then m[k] else 0) + v
  {
    SumMapRemove(m[k := v], k);
    assert m[k := v] - {k} == m - {k};
    if k in m { SumMapRemove(m, k); } else { assert m - {k} == m; }
  }
}
