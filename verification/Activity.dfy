/** Query volume over time from the durable log: the dense series, and the stacked per-client
    breakdown with everyone outside the top folded into one row. */
module Activity {
  import opened Common
  import opened Strings

  /** A stored query; its time is in Unix milliseconds. */
  datatype Row = Row(ts: int, ip: string, vlan: string)

  datatype Client = Client(ip: string, vlan: string)

  /** [fromMs, toMs) cut into buckets of widthMs. */
  datatype Window = Window(fromMs: int, toMs: int, widthMs: int)

  predicate Proper(w: Window) { w.widthMs > 0 && w.fromMs <= w.toMs }

  function ClientOf(r: Row): Client { Client(r.ip, r.vlan) }

  predicate Inside(w: Window, r: Row) { w.fromMs <= r.ts < w.toMs }

  /** SQL's and Go's integer division alike truncate toward zero. */
  function BucketOf(w: Window, ts: int): int
    requires Proper(w)
  {
    TruncDiv(ts, w.widthMs)
  }

  function FirstBucket(w: Window): int
    requires Proper(w)
  {
    BucketOf(w, w.fromMs)
  }

  function Buckets(w: Window): int
    requires Proper(w)
  {
    BucketOf(w, w.toMs - 1) - FirstBucket(w) + 1
  }

  lemma TruncDivMonotone(a: int, b: int, n: int)
    requires n > 0 && a <= b
    ensures TruncDiv(a, n) <= TruncDiv(b, n)
    ensures TruncDiv(b, n) <= TruncDiv(a, n) + (b - a)
  {
    DivMonotone(a, b, n);
    DivMonotone(-b, -a, n);
    if a < 0 <= b {
      DivMonotone(0, b, n);
      DivMonotone(0, -a, n);
    }
  }

  lemma {:induction false} DivMonotone(a: int, b: int, n: int)
    requires n > 0 && a <= b
    ensures a / n <= b / n <= a / n + (b - a)
    decreases b - a
  {
    if a < b {
      var r := a % n;
      if r + 1 < n { ModIs(a + 1, n, a / n, r + 1); } else { ModIs(a + 1, n, a / n + 1, 0); }
      DivMonotone(a + 1, b, n);
    }
  }

  /** Every row of the window falls in one of its buckets. */
  lemma RowsHaveBuckets(w: Window, ts: int)
    requires Proper(w) && w.fromMs <= ts < w.toMs
    ensures 0 <= BucketOf(w, ts) - FirstBucket(w) < Buckets(w)
  {
    TruncDivMonotone(w.fromMs, ts, w.widthMs);
    TruncDivMonotone(ts, w.toMs - 1, w.widthMs);
  }

  lemma BucketsNotNegative(w: Window)
    requires Proper(w)
    ensures Buckets(w) >= 0
  {
    if w.fromMs < w.toMs {
      TruncDivMonotone(w.fromMs, w.toMs - 1, w.widthMs);
    } else {
      TruncDivMonotone(w.toMs - 1, w.fromMs, w.widthMs);
    }
  }

  // ---- Counting rows ----

  /** Rows of the window, those of one bucket, of one client, and of both. */
  function CountAll(rows: seq<Row>, w: Window): nat {
    if rows == [] then 0 else CountAll(rows[..|rows| - 1], w) + (if Inside(w, rows[|rows| - 1]) then 1 else 0)
  }

  function CountBucket(rows: seq<Row>, w: Window, b: int): nat
    requires Proper(w)
  {
    if rows == [] then 0
    else
      var r := rows[|rows| - 1];
      CountBucket(rows[..|rows| - 1], w, b) + (if Inside(w, r) && BucketOf(w, r.ts) == b then 1 else 0)
  }

  function CountClient(rows: seq<Row>, w: Window, k: Client): nat {
    if rows == [] then 0
    else
      var r := rows[|rows| - 1];
      CountClient(rows[..|rows| - 1], w, k) + (if Inside(w, r) && ClientOf(r) == k then 1 else 0)
  }

  function Cell(rows: seq<Row>, w: Window, b: int, k: Client): nat
    requires Proper(w)
  {
    if rows == [] then 0
    else
      var r := rows[|rows| - 1];
      Cell(rows[..|rows| - 1], w, b, k) + (if Inside(w, r) && BucketOf(w, r.ts) == b && ClientOf(r) == k then 1 else 0)
  }

  ghost function CellsOfBucket(rows: seq<Row>, w: Window, b: int, clients: seq<Client>): int
    requires Proper(w)
  {
    if clients == [] then 0
    else CellsOfBucket(rows, w, b, clients[..|clients| - 1]) + Cell(rows, w, b, clients[|clients| - 1])
  }

  ghost function CellsOfClient(rows: seq<Row>, w: Window, k: Client, buckets: seq<int>): int
    requires Proper(w)
  {
    if buckets == [] then 0
    else CellsOfClient(rows, w, k, buckets[..|buckets| - 1]) + Cell(rows, w, buckets[|buckets| - 1], k)
  }

  predicate Unique<T(==)>(s: seq<T>) {
    forall i, j :: 0 <= i < j < |s| ==> s[i] != s[j]
  }

  lemma {:induction false} NoCells(w: Window, b: int, k: Client, clients: seq<Client>, buckets: seq<int>)
    requires Proper(w)
    ensures CellsOfBucket([], w, b, clients) == 0 && CellsOfClient([], w, k, buckets) == 0
    decreases |clients| + |buckets|
  {
    if clients != [] { NoCells(w, b, k, clients[..|clients| - 1], []); }
    if buckets != [] { NoCells(w, b, k, [], buckets[..|buckets| - 1]); }
  }

  /** One more row adds one to a bucket's cells exactly when it is in that bucket and its client is
      among those summed. */
  lemma {:induction false} OneRowBucket(rows: seq<Row>, w: Window, b: int, clients: seq<Client>)
    requires Proper(w) && rows != [] && Unique(clients)
    ensures var r := rows[|rows| - 1];
            CellsOfBucket(rows, w, b, clients) == CellsOfBucket(rows[..|rows| - 1], w, b, clients)
              + (if Inside(w, r) && BucketOf(w, r.ts) == b && ClientOf(r) in clients then 1 else 0)
  {
    if clients != [] {
      OneRowBucket(rows, w, b, clients[..|clients| - 1]);
      assert clients == clients[..|clients| - 1] + [clients[|clients| - 1]];
    }
  }

  lemma {:induction false} OneRowClient(rows: seq<Row>, w: Window, k: Client, buckets: seq<int>)
    requires Proper(w) && rows != [] && Unique(buckets)
    ensures var r := rows[|rows| - 1];
            CellsOfClient(rows, w, k, buckets) == CellsOfClient(rows[..|rows| - 1], w, k, buckets)
              + (if Inside(w, r) && ClientOf(r) == k && BucketOf(w, r.ts) in buckets then 1 else 0)
  {
    if buckets != [] {
      OneRowClient(rows, w, k, buckets[..|buckets| - 1]);
      assert buckets == buckets[..|buckets| - 1] + [buckets[|buckets| - 1]];
    }
  }

  /** Summed over every client, a bucket's cells are its rows. */
  lemma {:induction false} BucketIsSumOfCells(rows: seq<Row>, w: Window, b: int, clients: seq<Client>)
    requires Proper(w) && Unique(clients)
    requires forall i :: 0 <= i < |rows| && Inside(w, rows[i]) ==> ClientOf(rows[i]) in clients
    ensures CellsOfBucket(rows, w, b, clients) == CountBucket(rows, w, b)
  {
    if rows == [] {
      NoCells(w, b, Client("", ""), clients, []);
    } else {
      BucketIsSumOfCells(rows[..|rows| - 1], w, b, clients);
      OneRowBucket(rows, w, b, clients);
    }
  }

  /** Summed over the buckets it occurs in, a client's cells are its rows. */
  lemma {:induction false} ClientIsSumOfCells(rows: seq<Row>, w: Window, k: Client, buckets: seq<int>)
    requires Proper(w) && Unique(buckets)
    requires forall i :: 0 <= i < |rows| && Inside(w, rows[i]) && ClientOf(rows[i]) == k ==> BucketOf(w, rows[i].ts) in buckets
    ensures CellsOfClient(rows, w, k, buckets) == CountClient(rows, w, k)
  {
    if rows == [] {
      NoCells(w, 0, k, [], buckets);
    } else {
      ClientIsSumOfCells(rows[..|rows| - 1], w, k, buckets);
      OneRowClient(rows, w, k, buckets);
    }
  }

  lemma {:induction false} CellOccurs(rows: seq<Row>, w: Window, b: int, k: Client)
    requires Proper(w)
    ensures Cell(rows, w, b, k) > 0 <==>
            exists i :: 0 <= i < |rows| && Inside(w, rows[i]) && BucketOf(w, rows[i].ts) == b && ClientOf(rows[i]) == k
  {
    if rows != [] {
      var front := rows[..|rows| - 1];
      CellOccurs(front, w, b, k);
      if i :| 0 <= i < |front| && Inside(w, front[i]) && BucketOf(w, front[i].ts) == b && ClientOf(front[i]) == k {
        assert rows[i] == front[i];
      }
      if i :| 0 <= i < |rows| && Inside(w, rows[i]) && BucketOf(w, rows[i].ts) == b && ClientOf(rows[i]) == k {
        if i < |front| { assert front[i] == rows[i]; }
      }
    }
  }

  // ---- The counts as sets of rows ----

  ghost function CountIf(rows: seq<Row>, p: Row -> bool): nat {
    if rows == [] then 0 else CountIf(rows[..|rows| - 1], p) + (if p(rows[|rows| - 1]) then 1 else 0)
  }

  lemma {:induction false} CountIfPlaces(rows: seq<Row>, p: Row -> bool, places: set<int>)
    requires forall j :: j in places ==> 0 <= j < |rows| && p(rows[j])
    requires forall j :: 0 <= j < |rows| && p(rows[j]) ==> j in places
    ensures CountIf(rows, p) == |places|
  {
    if rows == [] {
      forall j ensures j !in places {}
      assert places == {};
    } else {
      var n := |rows| - 1;
      CountIfPlaces(rows[..n], p, places - {n});
      if p(rows[n]) { assert |places| == |places - {n}| + 1; } else { assert places == places - {n}; }
    }
  }

  lemma WindowRows(rows: seq<Row>, w: Window)
    ensures CountAll(rows, w) == |set j | 0 <= j < |rows| && w.fromMs <= rows[j].ts < w.toMs|
  {
    var p := (r: Row) => Inside(w, r);
    WindowCount(rows, w, p);
    CountIfPlaces(rows, p, set j | 0 <= j < |rows| && w.fromMs <= rows[j].ts < w.toMs);
  }

  lemma {:induction false} WindowCount(rows: seq<Row>, w: Window, p: Row -> bool)
    requires forall r :: p(r) <==> Inside(w, r)
    ensures CountAll(rows, w) == CountIf(rows, p)
  {
    if rows != [] { WindowCount(rows[..|rows| - 1], w, p); }
  }

  lemma BucketRows(rows: seq<Row>, w: Window, b: int)
    requires w.widthMs > 0 && w.fromMs <= w.toMs
    ensures CountBucket(rows, w, b) == |set j | 0 <= j < |rows| && w.fromMs <= rows[j].ts < w.toMs && TruncDiv(rows[j].ts, w.widthMs) == b|
  {
    var p := (r: Row) => Inside(w, r) && BucketOf(w, r.ts) == b;
    BucketCounted(rows, w, b, p);
    CountIfPlaces(rows, p, set j | 0 <= j < |rows| && w.fromMs <= rows[j].ts < w.toMs && TruncDiv(rows[j].ts, w.widthMs) == b);
  }

  lemma {:induction false} BucketCounted(rows: seq<Row>, w: Window, b: int, p: Row -> bool)
    requires Proper(w) && forall r :: p(r) <==> Inside(w, r) && BucketOf(w, r.ts) == b
    ensures CountBucket(rows, w, b) == CountIf(rows, p)
  {
    if rows != [] { BucketCounted(rows[..|rows| - 1], w, b, p); }
  }

  lemma ClientRows(rows: seq<Row>, w: Window, k: Client)
    ensures CountClient(rows, w, k)
         == |set j | 0 <= j < |rows| && w.fromMs <= rows[j].ts < w.toMs && Client(rows[j].ip, rows[j].vlan) == k|
  {
    var p := (r: Row) => Inside(w, r) && ClientOf(r) == k;
    ClientCount(rows, w, k, p);
    CountIfPlaces(rows, p, set j | 0 <= j < |rows| && w.fromMs <= rows[j].ts < w.toMs && Client(rows[j].ip, rows[j].vlan) == k);
  }

  lemma {:induction false} ClientCount(rows: seq<Row>, w: Window, k: Client, p: Row -> bool)
    requires forall r :: p(r) <==> Inside(w, r) && ClientOf(r) == k
    ensures CountClient(rows, w, k) == CountIf(rows, p)
  {
    if rows != [] { ClientCount(rows[..|rows| - 1], w, k, p); }
  }

  /** A bucket's cells over some clients are its rows from those clients. */
  lemma CellsRows(rows: seq<Row>, w: Window, b: int, clients: seq<Client>)
    requires w.widthMs > 0 && w.fromMs <= w.toMs && Unique(clients)
    ensures CellsOfBucket(rows, w, b, clients)
         == |set j | 0 <= j < |rows| && w.fromMs <= rows[j].ts < w.toMs && TruncDiv(rows[j].ts, w.widthMs) == b
                     && Client(rows[j].ip, rows[j].vlan) in clients|
  {
    var p := (r: Row) => Inside(w, r) && BucketOf(w, r.ts) == b && ClientOf(r) in clients;
    CellsCount(rows, w, b, clients, p);
    CountIfPlaces(rows, p, set j | 0 <= j < |rows| && w.fromMs <= rows[j].ts < w.toMs && TruncDiv(rows[j].ts, w.widthMs) == b
                                   && Client(rows[j].ip, rows[j].vlan) in clients);
  }

  lemma {:induction false} CellsCount(rows: seq<Row>, w: Window, b: int, clients: seq<Client>, p: Row -> bool)
    requires Proper(w) && Unique(clients)
    requires forall r :: p(r) <==> Inside(w, r) && BucketOf(w, r.ts) == b && ClientOf(r) in clients
    ensures CellsOfBucket(rows, w, b, clients) == CountIf(rows, p)
  {
    if rows == [] {
      NoCells(w, b, Client("", ""), clients, []);
    } else {
      CellsCount(rows[..|rows| - 1], w, b, clients, p);
      OneRowBucket(rows, w, b, clients);
    }
  }

  lemma CellRows(rows: seq<Row>, w: Window, b: int, k: Client)
    requires w.widthMs > 0 && w.fromMs <= w.toMs
    ensures Cell(rows, w, b, k)
         == |set j | 0 <= j < |rows| && w.fromMs <= rows[j].ts < w.toMs && TruncDiv(rows[j].ts, w.widthMs) == b
                     && Client(rows[j].ip, rows[j].vlan) == k|
  {
    CellsRows(rows, w, b, [k]);
    assert [k][..0] == [];
    assert (set j | 0 <= j < |rows| && w.fromMs <= rows[j].ts < w.toMs && TruncDiv(rows[j].ts, w.widthMs) == b
                    && Client(rows[j].ip, rows[j].vlan) in [k])
        == (set j | 0 <= j < |rows| && w.fromMs <= rows[j].ts < w.toMs && TruncDiv(rows[j].ts, w.widthMs) == b
                    && Client(rows[j].ip, rows[j].vlan) == k);
  }

  lemma AllCellRows(rows: seq<Row>, w: Window)
    requires w.widthMs > 0 && w.fromMs <= w.toMs
    ensures forall b, k :: Cell(rows, w, b, k) ==
              |set n | 0 <= n < |rows| && w.fromMs <= rows[n].ts < w.toMs && TruncDiv(rows[n].ts, w.widthMs) == b
                       && Client(rows[n].ip, rows[n].vlan) == k|
  {
    forall b, k
      ensures Cell(rows, w, b, k) ==
              |set n | 0 <= n < |rows| && w.fromMs <= rows[n].ts < w.toMs && TruncDiv(rows[n].ts, w.widthMs) == b
                       && Client(rows[n].ip, rows[n].vlan) == k|
    {
      CellRows(rows, w, b, k);
    }
  }

  lemma AllCellsRows(rows: seq<Row>, w: Window, clients: seq<Client>)
    requires w.widthMs > 0 && w.fromMs <= w.toMs && Unique(clients)
    ensures forall b :: CellsOfBucket(rows, w, b, clients) ==
              |set n | 0 <= n < |rows| && w.fromMs <= rows[n].ts < w.toMs && TruncDiv(rows[n].ts, w.widthMs) == b
                       && Client(rows[n].ip, rows[n].vlan) in clients|
  {
    forall b
      ensures CellsOfBucket(rows, w, b, clients) ==
              |set n | 0 <= n < |rows| && w.fromMs <= rows[n].ts < w.toMs && TruncDiv(rows[n].ts, w.widthMs) == b
                       && Client(rows[n].ip, rows[n].vlan) in clients|
    {
      CellsRows(rows, w, b, clients);
    }
  }

  // ---- The dense series ----

  /** The sum of the window's first n buckets. */
  ghost function SumBuckets(rows: seq<Row>, w: Window, n: nat): int
    requires Proper(w)
  {
    if n == 0 then 0 else SumBuckets(rows, w, n - 1) + CountBucket(rows, w, FirstBucket(w) + n - 1)
  }

  lemma {:induction false} OneRowSeries(rows: seq<Row>, w: Window, n: nat)
    requires Proper(w) && rows != []
    ensures var r := rows[|rows| - 1];
            SumBuckets(rows, w, n) == SumBuckets(rows[..|rows| - 1], w, n)
              + (if Inside(w, r) && 0 <= BucketOf(w, r.ts) - FirstBucket(w) < n then 1 else 0)
  {
    if n > 0 { OneRowSeries(rows, w, n - 1); }
  }

  lemma {:induction false} EmptySeries(w: Window, n: nat)
    requires Proper(w)
    ensures SumBuckets([], w, n) == 0
  {
    if n > 0 { EmptySeries(w, n - 1); }
  }

  /** The series misses no row of the window and counts none twice. */
  lemma {:induction false} SeriesSumsToWindow(rows: seq<Row>, w: Window)
    requires Proper(w)
    ensures Buckets(w) >= 0 && SumBuckets(rows, w, Buckets(w)) == CountAll(rows, w)
  {
    BucketsNotNegative(w);
    if rows == [] {
      EmptySeries(w, Buckets(w));
    } else {
      SeriesSumsToWindow(rows[..|rows| - 1], w);
      OneRowSeries(rows, w, Buckets(w));
      var r := rows[|rows| - 1];
      if Inside(w, r) { RowsHaveBuckets(w, r.ts); }
    }
  }

  // ---- Ranking clients ----

  /** Larger total first, then address, then VLAN. */
  predicate Before(totals: map<Client, int>, a: Client, b: Client)
    requires a in totals && b in totals
  {
    if totals[a] != totals[b] then totals[a] > totals[b]
    else if a.ip != b.ip then LexLess(a.ip, b.ip)
    else LexLess(a.vlan, b.vlan)
  }

  lemma BeforeIsStrict(totals: map<Client, int>, a: Client, b: Client, c: Client)
    requires a in totals && b in totals && c in totals
    ensures !(Before(totals, a, b) && Before(totals, b, a))
    ensures !Before(totals, b, a) && !Before(totals, c, b) ==> !Before(totals, c, a)
  {
    LexTotal(a.ip, b.ip);
    LexTotal(a.vlan, b.vlan);
    LexTotal(b.ip, c.ip);
    LexTotal(b.vlan, c.vlan);
    if !LexLess(b.ip, a.ip) && !LexLess(c.ip, b.ip) { LexTransitive(a.ip, b.ip, c.ip); }
    if !LexLess(b.vlan, a.vlan) && !LexLess(c.vlan, b.vlan) { LexTransitive(a.vlan, b.vlan, c.vlan); }
    LexTotal(a.ip, c.ip);
  }

  ghost predicate Ranked(totals: map<Client, int>, s: seq<Client>) {
    && (forall i :: 0 <= i < |s| ==> s[i] in totals)
    && forall i, j :: 0 <= i < j < |s| ==> !Before(totals, s[j], s[i])
  }

  /** sort.Slice, as insertion into a ranked list. */
  function Place(totals: map<Client, int>, s: seq<Client>, k: Client): (r: seq<Client>)
    requires k in totals && forall i :: 0 <= i < |s| ==> s[i] in totals
    ensures |r| == |s| + 1 && multiset(r) == multiset(s) + multiset{k}
    ensures forall i :: 0 <= i < |r| ==> r[i] in totals
  {
    if s == [] then [k]
    else if Before(totals, k, s[0]) then [k] + s
    else
      assert s == [s[0]] + s[1..];
      [s[0]] + Place(totals, s[1..], k)
  }

  lemma {:induction false} PlaceRanked(totals: map<Client, int>, s: seq<Client>, k: Client)
    requires k in totals && Ranked(totals, s)
    ensures Ranked(totals, Place(totals, s, k))
  {
    if s != [] {
      var r := Place(totals, s, k);
      BeforeIsStrict(totals, k, s[0], s[0]);
      if Before(totals, k, s[0]) {
        forall j | 1 <= j < |r| ensures !Before(totals, r[j], k) {
          if j > 1 { BeforeIsStrict(totals, k, s[0], r[j]); }
        }
      } else {
        PlaceRanked(totals, s[1..], k);
        forall j | 1 <= j < |r| ensures !Before(totals, r[j], s[0]) {
          assert r[j] in multiset(Place(totals, s[1..], k));
          if r[j] != k { assert r[j] in s[1..]; }
        }
      }
    }
  }

  ghost predicate ListsAll(s: seq<Client>, clients: set<Client>) {
    Unique(s) && forall k :: k in s <==> k in clients
  }

  lemma PlaceLists(totals: map<Client, int>, s: seq<Client>, k: Client, clients: set<Client>)
    requires k in totals && (forall i :: 0 <= i < |s| ==> s[i] in totals) && ListsAll(s, clients) && k !in clients
    ensures ListsAll(Place(totals, s, k), clients + {k})
  {
    var r := Place(totals, s, k);
    forall x ensures x in r <==> x in clients + {k} {
      assert x in r <==> x in multiset(r);
      assert x in s <==> x in multiset(s);
    }
    OnceEach(s);
    forall i, j | 0 <= i < j < |r| ensures r[i] != r[j] {
      assert k !in s;
      assert multiset(s)[k] == 0;
      if r[i] == r[j] { TwiceIn(r, i, j); }
    }
  }

  lemma {:induction false} OnceEach(s: seq<Client>)
    requires Unique(s)
    ensures forall x :: multiset(s)[x] <= 1
  {
    if s != [] {
      OnceEach(s[..|s| - 1]);
      assert s == s[..|s| - 1] + [s[|s| - 1]];
      assert s[|s| - 1] !in s[..|s| - 1];
    }
  }

  method Rank(totals: map<Client, int>) returns (top: seq<Client>)
    ensures ListsAll(top, totals.Keys) && Ranked(totals, top)
  {
    top := [];
    var left := totals.Keys;
    while left != {}
      invariant left <= totals.Keys && ListsAll(top, totals.Keys - left) && Ranked(totals, top)
      decreases |left|
    {
      var k :| k in left;
      PlaceRanked(totals, top, k);
      PlaceLists(totals, top, k, totals.Keys - left);
      assert totals.Keys - left + {k} == totals.Keys - (left - {k});
      top := Place(totals, top, k);
      left := left - {k};
    }
    assert totals.Keys - left == totals.Keys;
  }

  // ---- The grouped query ----

  /** One result row of the GROUP BY. */
  datatype Group = Group(b: int, k: Client, c: int)

  /** The result rows are the non-empty cells, each once, in any order. */
  ghost predicate IsGrouping(groups: seq<Group>, rows: seq<Row>, w: Window)
    requires Proper(w)
  {
    && (forall i, j :: 0 <= i < j < |groups| ==> groups[i].b != groups[j].b || groups[i].k != groups[j].k)
    && CellsRight(groups, rows, w)
    && (forall i :: 0 <= i < |groups| ==> groups[i].c > 0)
    && forall b, k :: Cell(rows, w, b, k) > 0 ==> exists i :: 0 <= i < |groups| && groups[i].b == b && groups[i].k == k
  }

  ghost predicate CellsRight(groups: seq<Group>, rows: seq<Row>, w: Window)
    requires Proper(w)
  {
    forall i :: 0 <= i < |groups| ==> groups[i].c == Cell(rows, w, groups[i].b, groups[i].k)
  }

  /** The buckets in which the first n result rows mention a client. */
  ghost function BucketsFor(groups: seq<Group>, n: nat, k: Client): seq<int>
    requires n <= |groups|
  {
    if n == 0 then []
    else BucketsFor(groups, n - 1, k) + (if groups[n - 1].k == k then [groups[n - 1].b] else [])
  }

  lemma {:induction false} BucketsForUnique(groups: seq<Group>, rows: seq<Row>, w: Window, n: nat, k: Client)
    requires Proper(w) && IsGrouping(groups, rows, w) && n <= |groups|
    ensures Unique(BucketsFor(groups, n, k))
    ensures forall b :: b in BucketsFor(groups, n, k) <==> exists i :: 0 <= i < n && groups[i].b == b && groups[i].k == k
  {
    if n > 0 {
      BucketsForUnique(groups, rows, w, n - 1, k);
      assert groups[n - 1].k == k ==> groups[n - 1].b !in BucketsFor(groups, n - 1, k);
    }
  }

  /** A client's result rows add up to its queries in the window. */
  lemma TotalIsCount(groups: seq<Group>, rows: seq<Row>, w: Window, k: Client)
    requires Proper(w) && IsGrouping(groups, rows, w)
    ensures CellsOfClient(rows, w, k, BucketsFor(groups, |groups|, k)) == CountClient(rows, w, k)
  {
    var buckets := BucketsFor(groups, |groups|, k);
    BucketsForUnique(groups, rows, w, |groups|, k);
    forall i | 0 <= i < |rows| && Inside(w, rows[i]) && ClientOf(rows[i]) == k ensures BucketOf(w, rows[i].ts) in buckets {
      CellOccurs(rows, w, BucketOf(w, rows[i].ts), k);
    }
    ClientIsSumOfCells(rows, w, k, buckets);
  }

  // ---- The stacked breakdown ----

  datatype ActivityRow = ActivityRow(client: Client, isOther: bool, counts: seq<int>)

  datatype Activity = Activity(starts: seq<int>, rows: seq<ActivityRow>)

  datatype Answer<T> = BadRange | BadWidth | Done(value: T)

  ghost predicate SeenBy(groups: seq<Group>, n: nat, k: Client)
    requires n <= |groups|
  {
    exists i :: 0 <= i < n && groups[i].k == k
  }

  /** One client's cells and total after n result rows. */
  function CellsAfter(groups: seq<Group>, n: nat, k: Client): map<int, int>
    requires n <= |groups|
  {
    if n == 0 then map[]
    else if groups[n - 1].k == k then CellsAfter(groups, n - 1, k)[groups[n - 1].b := groups[n - 1].c]
    else CellsAfter(groups, n - 1, k)
  }

  function TotalAfter(groups: seq<Group>, n: nat, k: Client): int
    requires n <= |groups|
  {
    if n == 0 then 0 else TotalAfter(groups, n - 1, k) + (if groups[n - 1].k == k then groups[n - 1].c else 0)
  }

  /** What the tallying loop has gathered after n result rows. */
  ghost predicate Gathered(groups: seq<Group>, n: nat, perBucket: map<Client, map<int, int>>, totals: map<Client, int>)
    requires n <= |groups|
  {
    && perBucket.Keys == totals.Keys
    && (forall k :: k in totals <==> SeenBy(groups, n, k))
    && forall k :: k in totals ==> perBucket[k] == CellsAfter(groups, n, k) && totals[k] == TotalAfter(groups, n, k)
  }

  lemma {:induction false} UnseenIsEmpty(groups: seq<Group>, n: nat, k: Client)
    requires n <= |groups| && !SeenBy(groups, n, k)
    ensures CellsAfter(groups, n, k) == map[] && TotalAfter(groups, n, k) == 0
  {
    if n > 0 {
      assert groups[n - 1].k != k;
      UnseenIsEmpty(groups, n - 1, k);
    }
  }

  lemma SeenOneMore(groups: seq<Group>, n: nat, k: Client)
    requires n < |groups|
    ensures SeenBy(groups, n + 1, k) <==> k == groups[n].k || SeenBy(groups, n, k)
  {
    if k == groups[n].k { assert SeenBy(groups, n + 1, k); }
  }

  method Gather(groups: seq<Group>) returns (perBucket: map<Client, map<int, int>>, totals: map<Client, int>)
    ensures Gathered(groups, |groups|, perBucket, totals)
  {
    perBucket, totals := map[], map[];
    for i := 0 to |groups|
      invariant Gathered(groups, i, perBucket, totals)
    {
      var g := groups[i];
      if g.k !in perBucket {
        UnseenIsEmpty(groups, i, g.k);
        perBucket := perBucket[g.k := map[]];
      }
      perBucket := perBucket[g.k := perBucket[g.k][g.b := g.c]];
      totals := totals[g.k := (if g.k in totals then totals[g.k] else 0) + g.c];
      forall k ensures k in totals <==> SeenBy(groups, i + 1, k) { SeenOneMore(groups, i, k); }
    }
  }

  /** What the gathered cells and total of a client amount to. */
  lemma {:induction false} GatheredCells(groups: seq<Group>, rows: seq<Row>, w: Window, n: nat, k: Client)
    requires Proper(w) && CellsRight(groups, rows, w) && n <= |groups|
    ensures TotalAfter(groups, n, k) == CellsOfClient(rows, w, k, BucketsFor(groups, n, k))
    ensures forall b :: b in CellsAfter(groups, n, k) <==> b in BucketsFor(groups, n, k)
    ensures forall b :: b in CellsAfter(groups, n, k) ==> CellsAfter(groups, n, k)[b] == Cell(rows, w, b, k)
  {
    if n > 0 {
      GatheredCells(groups, rows, w, n - 1, k);
      var buckets := BucketsFor(groups, n - 1, k);
      if groups[n - 1].k == k {
        assert (buckets + [groups[n - 1].b])[..|buckets|] == buckets;
      } else {
        assert buckets + [] == buckets;
      }
    }
  }

  /** The clients seen in the window, and their totals and cells as counts of rows. */
  ghost predicate Faithful(rows: seq<Row>, w: Window, perBucket: map<Client, map<int, int>>, totals: map<Client, int>)
    requires Proper(w)
  {
    && perBucket.Keys == totals.Keys
    && (forall i :: 0 <= i < |rows| && Inside(w, rows[i]) ==> ClientOf(rows[i]) in totals)
    && (forall k :: k in totals ==> totals[k] == CountClient(rows, w, k) > 0)
    && forall k, b :: k in perBucket ==> At(perBucket[k], b) == Cell(rows, w, b, k)
  }

  function At(m: map<int, int>, b: int): int {
    if b in m then m[b] else 0
  }

  lemma GatheredIsFaithful(groups: seq<Group>, rows: seq<Row>, w: Window,
                           perBucket: map<Client, map<int, int>>, totals: map<Client, int>)
    requires Proper(w) && IsGrouping(groups, rows, w) && Gathered(groups, |groups|, perBucket, totals)
    ensures Faithful(rows, w, perBucket, totals)
  {
    var n := |groups|;
    forall i | 0 <= i < |rows| && Inside(w, rows[i]) ensures ClientOf(rows[i]) in totals {
      CellOccurs(rows, w, BucketOf(w, rows[i].ts), ClientOf(rows[i]));
      assert SeenBy(groups, n, ClientOf(rows[i]));
    }
    forall k | k in totals
      ensures totals[k] == CountClient(rows, w, k) > 0
           && forall b :: At(perBucket[k], b) == Cell(rows, w, b, k)
    {
      ClientIsFaithful(groups, rows, w, k);
    }
  }

  lemma ClientIsFaithful(groups: seq<Group>, rows: seq<Row>, w: Window, k: Client)
    requires Proper(w) && IsGrouping(groups, rows, w) && SeenBy(groups, |groups|, k)
    ensures TotalAfter(groups, |groups|, k) == CountClient(rows, w, k) > 0
    ensures forall b :: At(CellsAfter(groups, |groups|, k), b) == Cell(rows, w, b, k)
  {
    GatheredCells(groups, rows, w, |groups|, k);
    TotalIsCount(groups, rows, w, k);
    var i :| 0 <= i < |groups| && groups[i].k == k;
    CellAtMost(rows, w, groups[i].b, k);
    BucketsForUnique(groups, rows, w, |groups|, k);
  }

  lemma {:induction false} CellAtMost(rows: seq<Row>, w: Window, b: int, k: Client)
    requires Proper(w)
    ensures Cell(rows, w, b, k) <= CountClient(rows, w, k)
  {
    if rows != [] { CellAtMost(rows[..|rows| - 1], w, b, k); }
  }

  /** The dense counts of one client. */
  method ClientCounts(cells: map<int, int>, from: int, n: nat) returns (counts: seq<int>)
    ensures |counts| == n && forall i :: 0 <= i < n ==> counts[i] == At(cells, from + i)
  {
    counts := [];
    for i := 0 to n
      invariant |counts| == i && forall j :: 0 <= j < i ==> counts[j] == At(cells, from + j)
    {
      counts := counts + [At(cells, from + i)];
    }
  }

  function AddUp(a: seq<int>, b: seq<int>): seq<int>
    requires |a| == |b|
  {
    seq(|a|, i requires 0 <= i < |a| => a[i] + b[i])
  }

  /** The folded row: every remaining client's counts added together. */
  method FoldOthers(perBucket: map<Client, map<int, int>>, others: seq<Client>, from: int, n: nat,
                    ghost rows: seq<Row>, ghost w: Window) returns (counts: seq<int>)
    requires Proper(w)
    requires forall k, b :: k in perBucket ==> At(perBucket[k], b) == Cell(rows, w, b, k)
    requires forall i :: 0 <= i < |others| ==> others[i] in perBucket
    ensures |counts| == n && forall i :: 0 <= i < n ==> counts[i] == CellsOfBucket(rows, w, from + i, others)
  {
    counts := seq(n, _ => 0);
    for j := 0 to |others|
      invariant |counts| == n && forall i :: 0 <= i < n ==> counts[i] == CellsOfBucket(rows, w, from + i, others[..j])
    {
      assert others[..j + 1][..j] == others[..j];
      var more := ClientCounts(perBucket[others[j]], from, n);
      counts := AddUp(counts, more);
    }
    assert others[..|others|] == others;
  }

  /** What a result says about the log: the top clients' rows, then one row for all the rest. */
  ghost predicate Breakdown(out: seq<ActivityRow>, rows: seq<Row>, w: Window, ranked: seq<Client>, topN: nat)
    requires Proper(w) && Buckets(w) >= 0
  {
    var kept := Min(topN, |ranked|);
    && |out| == kept + (if |ranked| > topN then 1 else 0)
    && (forall j :: 0 <= j < |out| ==> |out[j].counts| == Buckets(w))
    && (forall j :: 0 <= j < kept ==> out[j].client == ranked[j] && !out[j].isOther)
    && (forall j, i :: 0 <= j < kept && 0 <= i < Buckets(w) ==>
          out[j].counts[i] ==
          |set n | 0 <= n < |rows| && w.fromMs <= rows[n].ts < w.toMs && TruncDiv(rows[n].ts, w.widthMs) == FirstBucket(w) + i
                   && Client(rows[n].ip, rows[n].vlan) == ranked[j]|)
    && (|ranked| > topN ==>
          && out[kept].isOther && out[kept].client == Client("", "")
          && var others := ranked[topN..];
             forall i :: 0 <= i < Buckets(w) ==>
               out[kept].counts[i] ==
               |set n | 0 <= n < |rows| && w.fromMs <= rows[n].ts < w.toMs && TruncDiv(rows[n].ts, w.widthMs) == FirstBucket(w) + i
                        && Client(rows[n].ip, rows[n].vlan) in others|)
  }

  /** Every client of the window, ranked by its queries in the window, ties by address and VLAN. */
  ghost predicate RankedClients(ranked: seq<Client>, rows: seq<Row>, w: Window) {
    && Unique(ranked)
    && (forall k :: k in ranked <==>
          exists n :: 0 <= n < |rows| && w.fromMs <= rows[n].ts < w.toMs && Client(rows[n].ip, rows[n].vlan) == k)
    && forall i, j :: 0 <= i < j < |ranked| ==>
         var a := |set n | 0 <= n < |rows| && w.fromMs <= rows[n].ts < w.toMs && Client(rows[n].ip, rows[n].vlan) == ranked[i]|;
         var b := |set n | 0 <= n < |rows| && w.fromMs <= rows[n].ts < w.toMs && Client(rows[n].ip, rows[n].vlan) == ranked[j]|;
         a > b || (a == b && (LexLess(ranked[i].ip, ranked[j].ip)
                              || (ranked[i].ip == ranked[j].ip && LexLess(ranked[i].vlan, ranked[j].vlan))))
  }

  method TopRows(perBucket: map<Client, map<int, int>>, top: seq<Client>, from: int, n: nat) returns (out: seq<ActivityRow>)
    requires forall i :: 0 <= i < |top| ==> top[i] in perBucket
    ensures |out| == |top|
    ensures forall j :: 0 <= j < |top| ==> out[j].client == top[j] && !out[j].isOther && |out[j].counts| == n
    ensures forall j, i :: 0 <= j < |top| && 0 <= i < n ==> out[j].counts[i] == At(perBucket[top[j]], from + i)
  {
    out := [];
    for j := 0 to |top|
      invariant |out| == j
      invariant forall a :: 0 <= a < j ==> out[a].client == top[a] && !out[a].isOther && |out[a].counts| == n
      invariant forall a, i :: 0 <= a < j && 0 <= i < n ==> out[a].counts[i] == At(perBucket[top[a]], from + i)
    {
      var counts := ClientCounts(perBucket[top[j]], from, n);
      out := out + [ActivityRow(top[j], false, counts)];
    }
  }

  lemma RankedTotals(ranked: seq<Client>, rows: seq<Row>, w: Window,
                     perBucket: map<Client, map<int, int>>, totals: map<Client, int>)
    requires Proper(w) && Faithful(rows, w, perBucket, totals) && ListsAll(ranked, totals.Keys) && Ranked(totals, ranked)
    ensures RankedClients(ranked, rows, w)
  {
    forall k
      ensures k in ranked <==>
                exists n :: 0 <= n < |rows| && w.fromMs <= rows[n].ts < w.toMs && Client(rows[n].ip, rows[n].vlan) == k
    {
      if k in ranked {
        ClientRows(rows, w, k);
        var mine := set n | 0 <= n < |rows| && w.fromMs <= rows[n].ts < w.toMs && Client(rows[n].ip, rows[n].vlan) == k;
        assert mine != {};
        var n :| n in mine;
      }
      if n :| 0 <= n < |rows| && w.fromMs <= rows[n].ts < w.toMs && Client(rows[n].ip, rows[n].vlan) == k {
        assert Inside(w, rows[n]) && ClientOf(rows[n]) in totals.Keys;
      }
    }
    forall i, j | 0 <= i < j < |ranked|
      ensures var a := |set n | 0 <= n < |rows| && w.fromMs <= rows[n].ts < w.toMs && Client(rows[n].ip, rows[n].vlan) == ranked[i]|;
              var b := |set n | 0 <= n < |rows| && w.fromMs <= rows[n].ts < w.toMs && Client(rows[n].ip, rows[n].vlan) == ranked[j]|;
              a > b || (a == b && (LexLess(ranked[i].ip, ranked[j].ip)
                                   || (ranked[i].ip == ranked[j].ip && LexLess(ranked[i].vlan, ranked[j].vlan))))
    {
      ClientRows(rows, w, ranked[i]);
      ClientRows(rows, w, ranked[j]);
      assert !Before(totals, ranked[j], ranked[i]);
      LexTotal(ranked[i].ip, ranked[j].ip);
      LexTotal(ranked[i].vlan, ranked[j].vlan);
    }
  }

  /** ClientActivity over the log's rows, given the grouped query's result in whatever order the
      database returns it. Times and width are nanoseconds; UnixMilli rounds down. The buckets run from
      the one that holds the first millisecond to the one that holds the last. There is a row for each
      of the topN clients with the most queries, ties broken by address and VLAN, and one for all the
      others together; a row's counts are the log's rows of that bucket and those clients. */
  method ClientActivity(from: int, to: int, width: int, topN: nat, groups: seq<Group>, ghost rows: seq<Row>)
    returns (r: Answer<Activity>, ghost ranked: seq<Client>, ghost others: seq<Client>,
             ghost f: int, ghost t: int, ghost w: int, ghost first: int)
    requires to > from && width >= 1_000_000 ==>
               from / 1_000_000 <= to / 1_000_000 && width / 1_000_000 > 0
               && IsGrouping(groups, rows, Window(from / 1_000_000, to / 1_000_000, width / 1_000_000))
    ensures r.BadRange? <==> to <= from
    ensures r.BadWidth? <==> to > from && width < 1_000_000
    ensures f == from / 1_000_000 && t == to / 1_000_000 && w == width / 1_000_000
    ensures r.Done? ==> w > 0 && first == TruncDiv(f, w) && others == if |ranked| > topN then ranked[topN..] else []
    ensures r.Done? ==> |r.value.starts| == TruncDiv(t - 1, w) - first + 1
                        && forall i :: 0 <= i < |r.value.starts| ==> r.value.starts[i] == (first + i) * w
    ensures r.Done? ==> |r.value.rows| == (if |ranked| > topN then topN + 1 else |ranked|)
                        && forall j :: 0 <= j < |r.value.rows| ==> |r.value.rows[j].counts| == |r.value.starts|
    ensures r.Done? ==> forall j :: 0 <= j < |r.value.rows| ==>
              && r.value.rows[j].isOther == (j == topN)
              && r.value.rows[j].client == if j == topN then Client("", "") else ranked[j]
    ensures r.Done? ==> forall j, i :: 0 <= j < |r.value.rows| && 0 <= i < |r.value.starts| && j < topN ==>
              r.value.rows[j].counts[i] ==
              |set n | 0 <= n < |rows| && f <= rows[n].ts < t && TruncDiv(rows[n].ts, w) == first + i
                       && Client(rows[n].ip, rows[n].vlan) == ranked[j]|
    ensures r.Done? && |ranked| > topN ==> forall i :: 0 <= i < |r.value.starts| ==>
              r.value.rows[topN].counts[i] ==
              |set n | 0 <= n < |rows| && f <= rows[n].ts < t && TruncDiv(rows[n].ts, w) == first + i
                       && Client(rows[n].ip, rows[n].vlan) in others|
    ensures r.Done? ==> f <= t && Buckets(Window(f, t, w)) >= 0
                        && Breakdown(r.value.rows, rows, Window(f, t, w), ranked, topN) && RankedClients(ranked, rows, Window(f, t, w))
    ensures r.Done? ==> Unique(ranked) && forall k :: k in ranked <==>
              exists n :: 0 <= n < |rows| && f <= rows[n].ts < t && Client(rows[n].ip, rows[n].vlan) == k
    ensures r.Done? ==> forall i, j :: 0 <= i < j < |ranked| ==>
              var a := |set n | 0 <= n < |rows| && f <= rows[n].ts < t && Client(rows[n].ip, rows[n].vlan) == ranked[i]|;
              var b := |set n | 0 <= n < |rows| && f <= rows[n].ts < t && Client(rows[n].ip, rows[n].vlan) == ranked[j]|;
              a > b || (a == b && (LexLess(ranked[i].ip, ranked[j].ip)
                                   || (ranked[i].ip == ranked[j].ip && LexLess(ranked[i].vlan, ranked[j].vlan))))
  {
    f, t, w, first := from / 1_000_000, to / 1_000_000, width / 1_000_000, 0;
    ranked, others := [], [];
    if to <= from { return BadRange, ranked, others, f, t, w, first; }
    var widthMs := TruncDiv(width, MS);
    if widthMs <= 0 { return BadWidth, ranked, others, f, t, w, first; }
    var win := Window(from / MS, to / MS, widthMs);
    first := TruncDiv(f, w);
    BucketsNotNegative(win);
    var out, all := StackRows(groups, win, topN, rows);
    var starts := Starts(win, Buckets(win));
    r, ranked := Done(Activity(starts, out)), all;
    if |all| > topN { others := all[topN..]; }
  }

  method StackRows(groups: seq<Group>, w: Window, topN: nat, ghost rows: seq<Row>)
    returns (out: seq<ActivityRow>, all: seq<Client>)
    requires Proper(w) && Buckets(w) >= 0 && IsGrouping(groups, rows, w)
    ensures RankedClients(all, rows, w) && Breakdown(out, rows, w, all, topN)
  {
    var perBucket, totals := Gather(groups);
    GatheredIsFaithful(groups, rows, w, perBucket, totals);
    all := Rank(totals);
    RankedTotals(all, rows, w, perBucket, totals);
    out := KeepAndFold(perBucket, all, w, topN, rows);
  }

  method KeepAndFold(perBucket: map<Client, map<int, int>>, all: seq<Client>, w: Window, topN: nat, ghost rows: seq<Row>)
    returns (out: seq<ActivityRow>)
    requires Proper(w) && Buckets(w) >= 0
    requires forall i :: 0 <= i < |all| ==> all[i] in perBucket
    requires forall k, b :: k in perBucket ==> At(perBucket[k], b) == Cell(rows, w, b, k)
    requires Unique(all)
    ensures Breakdown(out, rows, w, all, topN)
  {
    var top, others := all, [];
    if |all| > topN { top, others := all[..topN], all[topN..]; }
    out := TopRows(perBucket, top, FirstBucket(w), Buckets(w));
    if |others| > 0 {
      var counts := FoldOthers(perBucket, others, FirstBucket(w), Buckets(w), rows, w);
      out := out + [ActivityRow(Client("", ""), true, counts)];
    }
    CellsBreakDown(out, rows, w, all, topN);
  }

  lemma CellsBreakDown(out: seq<ActivityRow>, rows: seq<Row>, w: Window, ranked: seq<Client>, topN: nat)
    requires Proper(w) && Buckets(w) >= 0 && Unique(ranked)
    requires |out| == Min(topN, |ranked|) + (if |ranked| > topN then 1 else 0)
    requires forall j :: 0 <= j < |out| ==> |out[j].counts| == Buckets(w)
    requires forall j :: 0 <= j < Min(topN, |ranked|) ==> out[j].client == ranked[j] && !out[j].isOther
    requires forall j, i :: 0 <= j < Min(topN, |ranked|) && 0 <= i < Buckets(w) ==>
               out[j].counts[i] == Cell(rows, w, FirstBucket(w) + i, ranked[j])
    requires |ranked| > topN ==> out[topN].isOther && out[topN].client == Client("", "")
    requires |ranked| > topN ==> forall i :: 0 <= i < Buckets(w) ==>
               out[topN].counts[i] == CellsOfBucket(rows, w, FirstBucket(w) + i, ranked[topN..])
    ensures Breakdown(out, rows, w, ranked, topN)
  {
    AllCellRows(rows, w);
    if |ranked| > topN { AllCellsRows(rows, w, ranked[topN..]); }
  }

  const MS: int := 1_000_000

  method Starts(w: Window, n: nat) returns (starts: seq<int>)
    requires Proper(w)
    ensures |starts| == n && forall i :: 0 <= i < n ==> starts[i] == (FirstBucket(w) + i) * w.widthMs
  {
    starts := [];
    for i := 0 to n
      invariant |starts| == i && forall j :: 0 <= j < i ==> starts[j] == (FirstBucket(w) + j) * w.widthMs
    {
      starts := starts + [(FirstBucket(w) + i) * w.widthMs];
    }
  }

  /** One result row of the series query. */
  datatype BucketCount = BucketCount(b: int, c: int)

  ghost predicate IsBucketing(groups: seq<BucketCount>, rows: seq<Row>, w: Window)
    requires Proper(w)
  {
    && (forall i, j :: 0 <= i < j < |groups| ==> groups[i].b != groups[j].b)
    && (forall i :: 0 <= i < |groups| ==> groups[i].c == CountBucket(rows, w, groups[i].b))
    && forall b :: CountBucket(rows, w, b) > 0 ==> exists i :: 0 <= i < |groups| && groups[i].b == b
  }

  datatype Point = Point(start: int, count: int)

  function Counts(points: seq<Point>): seq<int> {
    seq(|points|, i requires 0 <= i < |points| => points[i].count)
  }

  /** Series: one point per bucket, from the one that holds the first millisecond to the one that holds
      the last, zero where the query returned nothing. Each counts the rows of the half-open window in
      its bucket, and together they count every row of the window. */
  method Series(from: int, to: int, width: int, groups: seq<BucketCount>, ghost rows: seq<Row>)
    returns (r: Answer<seq<Point>>, ghost f: int, ghost t: int, ghost w: int, ghost first: int)
    requires to > from && width >= 1_000_000 ==>
               from / 1_000_000 <= to / 1_000_000 && width / 1_000_000 > 0
               && IsBucketing(groups, rows, Window(from / 1_000_000, to / 1_000_000, width / 1_000_000))
    ensures r.BadRange? <==> to <= from
    ensures r.BadWidth? <==> to > from && width < 1_000_000
    ensures f == from / 1_000_000 && t == to / 1_000_000 && w == width / 1_000_000
    ensures r.Done? ==> w > 0 && first == TruncDiv(f, w) && |r.value| == TruncDiv(t - 1, w) - first + 1
    ensures r.Done? ==> forall i :: 0 <= i < |r.value| ==>
              && r.value[i].start == (first + i) * w
              && r.value[i].count == |set n | 0 <= n < |rows| && f <= rows[n].ts < t && TruncDiv(rows[n].ts, w) == first + i|
    ensures r.Done? ==> Sum(Counts(r.value)) == |set n | 0 <= n < |rows| && f <= rows[n].ts < t|
  {
    f, t, w, first := from / 1_000_000, to / 1_000_000, width / 1_000_000, 0;
    if to <= from { return BadRange, f, t, w, first; }
    var widthMs := TruncDiv(width, MS);
    if widthMs <= 0 { return BadWidth, f, t, w, first; }
    var win := Window(from / MS, to / MS, widthMs);
    first := TruncDiv(f, w);
    var counts := Collected(groups, win, rows);
    BucketsNotNegative(win);
    var n := Buckets(win);
    var out: seq<Point> := [];
    for i := 0 to n
      invariant |out| == i
      invariant forall j :: 0 <= j < i ==>
                  out[j] == Point((FirstBucket(win) + j) * widthMs, CountBucket(rows, win, FirstBucket(win) + j))
    {
      var b := FirstBucket(win) + i;
      out := out + [Point(b * widthMs, At(counts, b))];
    }
    r := Done(out);
    SeriesInRows(out, rows, win);
  }

  /** The series query's rows, by bucket. */
  method Collected(groups: seq<BucketCount>, w: Window, ghost rows: seq<Row>) returns (counts: map<int, int>)
    requires Proper(w) && IsBucketing(groups, rows, w)
    ensures forall b :: At(counts, b) == CountBucket(rows, w, b)
  {
    counts := map[];
    for i := 0 to |groups|
      invariant forall b :: b in counts <==> exists j :: 0 <= j < i && groups[j].b == b
      invariant forall b :: b in counts ==> counts[b] == CountBucket(rows, w, b)
    {
      counts := counts[groups[i].b := groups[i].c];
    }
  }

  lemma SeriesInRows(out: seq<Point>, rows: seq<Row>, w: Window)
    requires w.widthMs > 0 && w.fromMs <= w.toMs && |out| == Buckets(w)
    requires forall i :: 0 <= i < |out| ==> out[i].count == CountBucket(rows, w, FirstBucket(w) + i)
    ensures forall i :: 0 <= i < |out| ==>
              out[i].count ==
              |set n | 0 <= n < |rows| && w.fromMs <= rows[n].ts < w.toMs && TruncDiv(rows[n].ts, w.widthMs) == FirstBucket(w) + i|
    ensures Sum(Counts(out)) == |set n | 0 <= n < |rows| && w.fromMs <= rows[n].ts < w.toMs|
  {
    forall i | 0 <= i < |out|
      ensures out[i].count ==
              |set n | 0 <= n < |rows| && w.fromMs <= rows[n].ts < w.toMs && TruncDiv(rows[n].ts, w.widthMs) == FirstBucket(w) + i|
    {
      BucketRows(rows, w, FirstBucket(w) + i);
    }
    PointsSum(out, rows, w);
    SeriesSumsToWindow(rows, w);
    WindowRows(rows, w);
  }

  lemma {:induction false} PointsSum(out: seq<Point>, rows: seq<Row>, w: Window)
    requires Proper(w) && forall i :: 0 <= i < |out| ==> out[i].count == CountBucket(rows, w, FirstBucket(w) + i)
    ensures Sum(Counts(out)) == SumBuckets(rows, w, |out|)
  {
    if out != [] {
      var n := |out| - 1;
      PointsSum(out[..n], rows, w);
      assert Counts(out) == Counts(out[..n]) + [out[n].count];
      SumAppend(Counts(out[..n]), [out[n].count]);
      assert [out[n].count][1..] == [];
    }
  }

  // ---- What the breakdown adds up to ----

  ghost function Stack(out: seq<ActivityRow>, i: nat): int
    requires forall j :: 0 <= j < |out| ==> i < |out[j].counts|
  {
    if out == [] then 0 else Stack(out[..|out| - 1], i) + out[|out| - 1].counts[i]
  }

  lemma {:induction false} StackOfTop(out: seq<ActivityRow>, rows: seq<Row>, w: Window, clients: seq<Client>, i: nat)
    requires Proper(w) && |out| == |clients| && forall j :: 0 <= j < |out| ==> i < |out[j].counts|
    requires forall j :: 0 <= j < |out| ==> out[j].counts[i] == Cell(rows, w, FirstBucket(w) + i, clients[j])
    ensures Stack(out, i) == CellsOfBucket(rows, w, FirstBucket(w) + i, clients)
  {
    if out != [] { StackOfTop(out[..|out| - 1], rows, w, clients[..|clients| - 1], i); }
  }

  lemma {:induction false} CellsOfTwo(rows: seq<Row>, w: Window, b: int, a: seq<Client>, c: seq<Client>)
    requires Proper(w)
    ensures CellsOfBucket(rows, w, b, a + c) == CellsOfBucket(rows, w, b, a) + CellsOfBucket(rows, w, b, c)
  {
    if c == [] {
      assert a + c == a;
    } else {
      CellsOfTwo(rows, w, b, a, c[..|c| - 1]);
      assert (a + c)[..|a + c| - 1] == a + c[..|c| - 1];
    }
  }

  /** Stacked, the rows of a breakdown give every bucket's count in the series; there are at most
      topN + 1 of them; and no client folded away has more queries than one that is kept. */
  lemma BreakdownMatchesSeries(out: seq<ActivityRow>, rows: seq<Row>, w: Window, ranked: seq<Client>, topN: nat, i: nat)
    requires Proper(w) && Buckets(w) >= 0 && Breakdown(out, rows, w, ranked, topN) && RankedClients(ranked, rows, w)
    requires i < Buckets(w)
    ensures Stack(out, i) == CountBucket(rows, w, FirstBucket(w) + i)
    ensures |out| <= topN + 1
    ensures forall a, b :: 0 <= a < topN <= b < |ranked| ==> CountClient(rows, w, ranked[a]) >= CountClient(rows, w, ranked[b])
  {
    BreakdownStacks(out, rows, w, ranked, topN, i);
    AllRanked(rows, w, ranked);
    BucketIsSumOfCells(rows, w, FirstBucket(w) + i, ranked);
    forall a, b | 0 <= a < topN <= b < |ranked| ensures CountClient(rows, w, ranked[a]) >= CountClient(rows, w, ranked[b]) {
      RankedByCount(rows, w, ranked, a, b);
    }
  }

  lemma AllRanked(rows: seq<Row>, w: Window, ranked: seq<Client>)
    requires RankedClients(ranked, rows, w)
    ensures forall n :: 0 <= n < |rows| && Inside(w, rows[n]) ==> ClientOf(rows[n]) in ranked
  {
  }

  lemma RankedByCount(rows: seq<Row>, w: Window, ranked: seq<Client>, a: nat, b: nat)
    requires RankedClients(ranked, rows, w) && a < b < |ranked|
    ensures CountClient(rows, w, ranked[a]) >= CountClient(rows, w, ranked[b])
  {
    ClientRows(rows, w, ranked[a]);
    ClientRows(rows, w, ranked[b]);
  }

  lemma BreakdownStacks(out: seq<ActivityRow>, rows: seq<Row>, w: Window, ranked: seq<Client>, topN: nat, i: nat)
    requires Proper(w) && Buckets(w) >= 0 && Breakdown(out, rows, w, ranked, topN) && i < Buckets(w) && Unique(ranked)
    ensures Stack(out, i) == CellsOfBucket(rows, w, FirstBucket(w) + i, ranked)
  {
    var kept := Min(topN, |ranked|);
    forall j | 0 <= j < kept ensures out[j].counts[i] == Cell(rows, w, FirstBucket(w) + i, ranked[j]) {
      CellRows(rows, w, FirstBucket(w) + i, ranked[j]);
    }
    if |ranked| > topN { CellsRows(rows, w, FirstBucket(w) + i, ranked[topN..]); }
    StacksOfParts(out, rows, w, ranked, kept, i);
  }

  lemma StacksOfParts(out: seq<ActivityRow>, rows: seq<Row>, w: Window, ranked: seq<Client>, kept: nat, i: nat)
    requires Proper(w) && kept <= |ranked| && |out| == kept + (if |ranked| > kept then 1 else 0)
    requires forall j :: 0 <= j < |out| ==> i < |out[j].counts|
    requires forall j :: 0 <= j < kept ==> out[j].counts[i] == Cell(rows, w, FirstBucket(w) + i, ranked[j])
    requires |ranked| > kept ==> out[kept].counts[i] == CellsOfBucket(rows, w, FirstBucket(w) + i, ranked[kept..])
    ensures Stack(out, i) == CellsOfBucket(rows, w, FirstBucket(w) + i, ranked)
  {
    StackOfTop(out[..kept], rows, w, ranked[..kept], i);
    if |ranked| > kept {
      assert ranked == ranked[..kept] + ranked[kept..];
      CellsOfTwo(rows, w, FirstBucket(w) + i, ranked[..kept], ranked[kept..]);
      assert out[..|out| - 1] == out[..kept];
    } else {
      assert out[..kept] == out && ranked[..kept] == ranked;
    }
  }
}
