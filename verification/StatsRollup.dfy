/** The in-memory rollups: breakdown counters and a modular ring of time buckets, each a fast form
    of a count over everything observed. Times are Unix seconds. */
module StatsRollup {
  import opened Common

  datatype Entry = Entry(ts: int, verdict: string, source: string, vlan: string, qtype: nat, cacheOutcome: string)

  // ---- Breakdown counters ----

  function Bump<K>(m: map<K, int>, k: K): map<K, int> {
    m[k := (if k in m then m[k] else 0) + 1]
  }

  function Tally<K>(keys: seq<K>): map<K, int> {
    if keys == [] then map[] else Bump(Tally(keys[..|keys| - 1]), keys[|keys| - 1])
  }

  function CountOf<K(==)>(keys: seq<K>, k: K): nat {
    if keys == [] then 0 else CountOf(keys[..|keys| - 1], k) + (if keys[|keys| - 1] == k then 1 else 0)
  }

  /** A tally holds exactly the keys seen, each with its number of occurrences, and its values sum
      to the number of observations. */
  lemma {:induction false} TallyCounts<K>(keys: seq<K>)
    ensures forall k :: k in Tally(keys) <==> k in keys
    ensures forall k :: k in keys ==> Tally(keys)[k] == CountOf(keys, k)
    ensures SumMap(Tally(keys)) == |keys|
  {
    if keys != [] {
      var n := |keys| - 1;
      TallyCounts(keys[..n]);
      AbsentCount(keys[..n], keys[n]);
      var m := Tally(keys[..n]);
      SumMapPut(m, keys[n], (if keys[n] in m then m[keys[n]] else 0) + 1);
    }
  }

  lemma {:induction false} AbsentCount<K>(keys: seq<K>, k: K)
    ensures k !in keys ==> CountOf(keys, k) == 0
  {
    if keys != [] { AbsentCount(keys[..|keys| - 1], k); }
  }

  function Verdicts(h: seq<Entry>): seq<string> { seq(|h|, i requires 0 <= i < |h| => h[i].verdict) }
  function Sources(h: seq<Entry>): seq<string> { seq(|h|, i requires 0 <= i < |h| => h[i].source) }
  function Vlans(h: seq<Entry>): seq<string> { seq(|h|, i requires 0 <= i < |h| => h[i].vlan) }
  function Qtypes(h: seq<Entry>): seq<nat> { seq(|h|, i requires 0 <= i < |h| => h[i].qtype) }
  function Outcomes(h: seq<Entry>): seq<string> { seq(|h|, i requires 0 <= i < |h| => h[i].cacheOutcome) }

  // ---- Buckets ----

  /** The number of the bucket a time falls in, truncating toward zero. */
  function BucketNo(ts: int, width: int): int
    requires width > 0
  {
    TruncDiv(ts, width)
  }

  function BucketEpoch(ts: int, width: int): int
    requires width > 0
  {
    ts - TruncMod(ts, width)
  }

  function BucketIndex(epoch: int, width: int, n: int): int
    requires width > 0 && n > 0
  {
    var slot := TruncMod(TruncDiv(epoch, width), n);
    if slot < 0 then slot + n else slot
  }

  lemma TruncModBounds(a: int, n: int)
    requires n > 0
    ensures -n < TruncMod(a, n) < n
    ensures (if TruncMod(a, n) < 0 then TruncMod(a, n) + n else TruncMod(a, n)) == a % n
  {
    if a < 0 {
      var q := (-a) / n;
      assert TruncMod(a, n) == -((-a) - q * n) == -((-a) % n);
      NegMod(a, n);
    }
  }

  lemma NegMod(a: int, n: int)
    requires n > 0 && a < 0
    ensures a % n == if (-a) % n == 0 then 0 else n - (-a) % n
  {
    var r := (-a) % n;
    var q := (-a) / n;
    assert -a == q * n + r;
    if r == 0 {
      ModIs(a, n, -q, 0);
    } else {
      assert a == (-q - 1) * n + (n - r);
      ModIs(a, n, -q - 1, n - r);
    }
  }

  lemma DivMultiple(q: int, w: int)
    requires w > 0
    ensures TruncDiv(q * w, w) == q
  {
    if q >= 0 { ModIs(q * w, w, q, 0); } else { ModIs(-q * w, w, -q, 0); assert -(q * w) == -q * w; assert q * w < 0; }
  }

  /** Epochs are multiples of the width no further from the time than one width, before it or, for a time
      before 1970, after it; and the slot is the bucket number modulo the ring. */
  lemma EpochAndIndex(ts: int, width: int, n: int)
    requires width > 0 && n > 0
    ensures BucketEpoch(ts, width) == BucketNo(ts, width) * width
    ensures ts >= 0 ==> BucketEpoch(ts, width) <= ts < BucketEpoch(ts, width) + width
    ensures ts < 0 ==> BucketEpoch(ts, width) - width < ts <= BucketEpoch(ts, width)
    ensures forall q: int :: BucketIndex(q * width, width, n) == q % n
  {
    TruncDivExact(ts, width, TruncDiv(ts, width));
    forall q: int ensures BucketIndex(q * width, width, n) == q % n {
      DivMultiple(q, width);
      TruncModBounds(q, n);
    }
  }

  // ---- The ring of buckets ----

  datatype Bucket = Bucket(epoch: int, count: nat)

  /** One slot after everything observed so far. */
  function SlotAfter(h: seq<Entry>, width: int, n: int, i: int): Bucket
    requires width > 0 && n > 0
  {
    if h == [] then Bucket(0, 0)
    else
      var prev := SlotAfter(h[..|h| - 1], width, n, i);
      var epoch := BucketEpoch(h[|h| - 1].ts, width);
      if BucketIndex(epoch, width, n) != i then prev
      else if prev.epoch != epoch then Bucket(epoch, 1)
      else Bucket(epoch, prev.count + 1)
  }

  /** What the series reports for bucket q. */
  function Reported(h: seq<Entry>, width: int, n: int, q: int): nat
    requires width > 0 && n > 0
  {
    var b := SlotAfter(h, width, n, BucketIndex(q * width, width, n));
    if b.epoch == q * width then b.count else 0
  }

  /** How many observations fell in bucket q. */
  function CountIn(h: seq<Entry>, width: int, q: int): nat
    requires width > 0
  {
    if h == [] then 0
    else CountIn(h[..|h| - 1], width, q) + (if BucketNo(h[|h| - 1].ts, width) == q then 1 else 0)
  }

  /** How many fell in bucket q since one last fell in another bucket that shares its slot. */
  function CountSinceLap(h: seq<Entry>, width: int, n: int, q: int): nat
    requires width > 0 && n > 0
  {
    if h == [] then 0
    else
      var b := BucketNo(h[|h| - 1].ts, width);
      if b == q then CountSinceLap(h[..|h| - 1], width, n, q) + 1
      else if b % n == q % n then 0
      else CountSinceLap(h[..|h| - 1], width, n, q)
  }

  lemma MultipleInjective(a: int, b: int, w: int)
    requires w > 0
    ensures a * w == b * w <==> a == b
  {
    assert (a - b) * w == a * w - b * w;
    assert a - b >= 1 ==> (a - b) * w >= w;
    assert b - a >= 1 ==> (b - a) * w >= w;
  }

  /** For every history the reported count is the count since the slot last changed laps. */
  lemma {:induction false} ReportedClosedForm(h: seq<Entry>, width: int, n: int, q: int)
    requires width > 0 && n > 0
    ensures Reported(h, width, n, q) == CountSinceLap(h, width, n, q)
  {
    EpochAndIndex(0, width, n);
    if h != [] {
      ReportedClosedForm(h[..|h| - 1], width, n, q);
      var b := BucketNo(h[|h| - 1].ts, width);
      EpochAndIndex(h[|h| - 1].ts, width, n);
      MultipleInjective(b, q, width);
    }
  }

  /** After the first observation in bucket q none falls in another bucket of its slot. */
  ghost predicate NoLapAfter(h: seq<Entry>, width: int, n: int, q: int)
    requires width > 0 && n > 0
  {
    forall i, j :: 0 <= i < j < |h| && BucketNo(h[i].ts, width) == q && BucketNo(h[j].ts, width) % n == q % n
      ==> BucketNo(h[j].ts, width) == q
  }

  lemma {:induction false} AnyCounted(h: seq<Entry>, width: int, q: int)
    requires width > 0
    ensures CountIn(h, width, q) > 0 <==> exists i :: 0 <= i < |h| && BucketNo(h[i].ts, width) == q
  {
    if h != [] {
      var front := h[..|h| - 1];
      AnyCounted(front, width, q);
      if i :| 0 <= i < |front| && BucketNo(front[i].ts, width) == q { assert h[i] == front[i]; }
      if i :| 0 <= i < |h| && BucketNo(h[i].ts, width) == q {
        if i < |front| { assert front[i] == h[i]; }
      }
    }
  }

  lemma {:induction false} SinceLapAtMost(h: seq<Entry>, width: int, n: int, q: int)
    requires width > 0 && n > 0
    ensures CountSinceLap(h, width, n, q) <= CountIn(h, width, q)
  {
    if h != [] { SinceLapAtMost(h[..|h| - 1], width, n, q); }
  }

  lemma {:induction false} SinceLapExact(h: seq<Entry>, width: int, n: int, q: int)
    requires width > 0 && n > 0
    ensures CountSinceLap(h, width, n, q) == CountIn(h, width, q) <==> NoLapAfter(h, width, n, q)
  {
    if h != [] {
      var front, last := h[..|h| - 1], h[|h| - 1];
      var b := BucketNo(last.ts, width);
      SinceLapExact(front, width, n, q);
      SinceLapAtMost(front, width, n, q);
      AnyCounted(front, width, q);
      LapSplit(h, width, n, q);
    }
  }

  /** The last observation only adds pairs that end with it. */
  lemma LapSplit(h: seq<Entry>, width: int, n: int, q: int)
    requires width > 0 && n > 0 && h != []
    ensures var front, b := h[..|h| - 1], BucketNo(h[|h| - 1].ts, width);
            NoLapAfter(h, width, n, q) <==>
              NoLapAfter(front, width, n, q)
              && (b % n == q % n && b != q ==> !exists i :: 0 <= i < |front| && BucketNo(front[i].ts, width) == q)
  {
    var front, m := h[..|h| - 1], |h| - 1;
    assert forall i :: 0 <= i < m ==> front[i] == h[i];
  }

  /** A point of the series is exact precisely when its slot has not moved on to another lap since
      the bucket was first observed. */
  lemma PointExactly(h: seq<Entry>, width: int, n: int, q: int)
    requires width > 0 && n > 0
    ensures Reported(h, width, n, q) == CountIn(h, width, q) <==> NoLapAfter(h, width, n, q)
  {
    ReportedClosedForm(h, width, n, q);
    SinceLapExact(h, width, n, q);
  }

  /** Every observation is fewer than n buckets behind the newest before it. */
  ghost predicate NoStraggler(h: seq<Entry>, width: int, n: int)
    requires width > 0
  {
    forall i, j :: 0 <= i < j < |h| ==> BucketNo(h[i].ts, width) - n < BucketNo(h[j].ts, width)
  }

  lemma CloseAndCongruent(a: int, b: int, n: int)
    requires n > 0 && a % n == b % n && -n < a - b < n
    ensures a == b
  {
    assert a == a / n * n + a % n && b == b / n * n + b % n;
    var d := a / n - b / n;
    assert d * n == a - b;
    assert d >= 1 ==> d * n >= n;
    assert d <= -1 ==> d * n <= -n;
  }

  /** Without stragglers, and read no earlier than the newest observation, every one of the n
      points ending now is exact. */
  lemma SeriesExact(h: seq<Entry>, width: int, n: int, now: int, q: int)
    requires width > 0 && n > 0 && NoStraggler(h, width, n)
    requires forall i :: 0 <= i < |h| ==> BucketNo(h[i].ts, width) <= BucketNo(now, width)
    requires BucketNo(now, width) - n < q <= BucketNo(now, width)
    ensures Reported(h, width, n, q) == CountIn(h, width, q)
  {
    forall i, j | 0 <= i < j < |h| && BucketNo(h[i].ts, width) == q && BucketNo(h[j].ts, width) % n == q % n
      ensures BucketNo(h[j].ts, width) == q
    {
      CloseAndCongruent(BucketNo(h[j].ts, width), q, n);
    }
    PointExactly(h, width, n, q);
  }

  // ---- The accumulator ----

  datatype Point = Point(start: int, count: nat)

  datatype Totals = Totals(queries: int, byVerdict: map<string, int>, bySource: map<string, int>, byVLAN: map<string, int>,
                           byQType: map<nat, int>, byCacheOutcome: map<string, int>)

  /** What the counters stand for. */
  function TotalsOf(h: seq<Entry>): Totals {
    Totals(|h|, Tally(Verdicts(h)), Tally(Sources(h)), Tally(Vlans(h)), Tally(Qtypes(h)), Tally(Outcomes(h)))
  }

  lemma SlotOneMore(h: seq<Entry>, e: Entry, width: int, n: int, i: int)
    requires width > 0 && n > 0
    ensures var epoch := BucketEpoch(e.ts, width); var before := SlotAfter(h, width, n, i);
            SlotAfter(h + [e], width, n, i) ==
            if BucketIndex(epoch, width, n) != i then before
            else Bucket(epoch, if before.epoch == epoch then before.count + 1 else 1)
  {
    assert (h + [e])[..|h|] == h;
  }

  class Rollup {
    var totals: Totals
    const width: int
    const buckets: array<Bucket>
    ghost var history: seq<Entry>

    constructor (width: int, n: int)
      requires width > 0 && n > 0
      ensures Valid() && history == [] && this.width == width && buckets.Length == n && fresh(buckets)
    {
      totals := Totals(0, map[], map[], map[], map[], map[]);
      this.width := width;
      buckets := new Bucket[n](_ => Bucket(0, 0));
      history := [];
    }

    ghost predicate Valid()
      reads this, buckets
    {
      && width > 0 && buckets.Length > 0
      && totals == TotalsOf(history)
      && forall i :: 0 <= i < buckets.Length ==> buckets[i] == SlotAfter(history, width, buckets.Length, i)
    }

    method Observe(e: Entry)
      requires Valid()
      modifies this, buckets
      ensures Valid() && history == old(history) + [e]
    {
      totals := Totals(totals.queries + 1, Bump(totals.byVerdict, e.verdict), Bump(totals.bySource, e.source),
                       Bump(totals.byVLAN, e.vlan), Bump(totals.byQType, e.qtype), Bump(totals.byCacheOutcome, e.cacheOutcome));
      var epoch := BucketEpoch(e.ts, width);
      EpochAndIndex(e.ts, width, buckets.Length);
      var idx := BucketIndex(epoch, width, buckets.Length);
      if buckets[idx].epoch != epoch { buckets[idx] := Bucket(epoch, 0); }
      buckets[idx] := Bucket(buckets[idx].epoch, buckets[idx].count + 1);
      history := history + [e];
      Observed(old(history), e);
      forall i | 0 <= i < buckets.Length ensures buckets[i] == SlotAfter(history, width, buckets.Length, i) {
        SlotOneMore(old(history), e, width, buckets.Length, i);
      }
    }

    /** Exactly one point per slot, oldest first, ending with the bucket that contains now. */
    method RecentSeries(now: int) returns (out: seq<Point>)
      requires Valid()
      ensures |out| == buckets.Length
      ensures forall i :: 0 <= i < |out| ==>
                var q := TruncDiv(now, width) - (buckets.Length - 1 - i);
                out[i] == Point(q * width, Reported(history, width, buckets.Length, q))
    {
      var n := buckets.Length;
      var nowEpoch := BucketEpoch(now, width);
      EpochAndIndex(now, width, n);
      out := [];
      for i := 0 to n
        invariant |out| == i
        invariant forall k :: 0 <= k < i ==>
                    var q := BucketNo(now, width) - (n - 1 - k);
                    out[k] == Point(q * width, Reported(history, width, n, q))
      {
        var epoch := nowEpoch - (n - 1 - i) * width;
        assert epoch == (BucketNo(now, width) - (n - 1 - i)) * width;
        var idx := BucketIndex(epoch, width, n);
        var b := buckets[idx];
        out := out + [Point(epoch, if b.epoch == epoch then b.count else 0)];
      }
    }
  }

  lemma Observed(h: seq<Entry>, e: Entry)
    ensures TotalsOf(h + [e]) == Totals(|h| + 1, Bump(Tally(Verdicts(h)), e.verdict), Bump(Tally(Sources(h)), e.source),
                                        Bump(Tally(Vlans(h)), e.vlan), Bump(Tally(Qtypes(h)), e.qtype),
                                        Bump(Tally(Outcomes(h)), e.cacheOutcome))
  {
    var g := h + [e];
    assert Verdicts(g) == Verdicts(h) + [e.verdict] && Sources(g) == Sources(h) + [e.source] && Vlans(g) == Vlans(h) + [e.vlan];
    assert Qtypes(g) == Qtypes(h) + [e.qtype] && Outcomes(g) == Outcomes(h) + [e.cacheOutcome];
    TallyOneMore(Verdicts(h), e.verdict);
    TallyOneMore(Sources(h), e.source);
    TallyOneMore(Vlans(h), e.vlan);
    TallyOneMore(Qtypes(h), e.qtype);
    TallyOneMore(Outcomes(h), e.cacheOutcome);
  }

  lemma TallyOneMore<K>(keys: seq<K>, k: K)
    ensures Tally(keys + [k]) == Bump(Tally(keys), k)
  {
    assert (keys + [k])[..|keys|] == keys;
  }

  lemma {:induction false} CountIsPlaces<K>(keys: seq<K>, k: K)
    ensures CountOf(keys, k) == |set i | 0 <= i < |keys| && keys[i] == k|
  {
    if keys != [] {
      var n := |keys| - 1;
      CountIsPlaces(keys[..n], k);
      var before, after := set i | 0 <= i < n && keys[..n][i] == k, set i | 0 <= i < |keys| && keys[i] == k;
      assert after == if keys[n] == k then before + {n} else before;
    }
  }

  /** Each breakdown counts, under each value of its own field, the observations that have it, and has
      nothing else; the total counts them all. */
  lemma BreakdownsCount(h: seq<Entry>, text: string, number: nat)
    ensures var t := TotalsOf(h);
            && t.queries == |h|
            && Counted(t.byVerdict, text) == |set i | 0 <= i < |h| && h[i].verdict == text|
            && Counted(t.bySource, text) == |set i | 0 <= i < |h| && h[i].source == text|
            && Counted(t.byVLAN, text) == |set i | 0 <= i < |h| && h[i].vlan == text|
            && Counted(t.byQType, number) == |set i | 0 <= i < |h| && h[i].qtype == number|
            && Counted(t.byCacheOutcome, text) == |set i | 0 <= i < |h| && h[i].cacheOutcome == text|
  {
    TallyIsPlaces(Verdicts(h), text, set i | 0 <= i < |h| && h[i].verdict == text);
    TallyIsPlaces(Sources(h), text, set i | 0 <= i < |h| && h[i].source == text);
    TallyIsPlaces(Vlans(h), text, set i | 0 <= i < |h| && h[i].vlan == text);
    TallyIsPlaces(Qtypes(h), number, set i | 0 <= i < |h| && h[i].qtype == number);
    TallyIsPlaces(Outcomes(h), text, set i | 0 <= i < |h| && h[i].cacheOutcome == text);
  }

  function Counted<K>(m: map<K, int>, k: K): int {
    if k in m then m[k] else 0
  }

  lemma TallyIsPlaces<K>(keys: seq<K>, k: K, places: set<int>)
    requires forall i :: i in places <==> 0 <= i < |keys| && keys[i] == k
    ensures Counted(Tally(keys), k) == |places|
  {
    TallyCounts(keys);
    AbsentCount(keys, k);
    CountIsPlaces(keys, k);
    assert places == set i | 0 <= i < |keys| && keys[i] == k;
  }

  /** The query total is the sum of each of the five breakdowns, for every history. */
  lemma BreakdownsSumToTotal(h: seq<Entry>)
    ensures var t := TotalsOf(h);
            SumMap(t.byVerdict) == SumMap(t.bySource) == SumMap(t.byVLAN) == t.queries
            && SumMap(t.byQType) == SumMap(t.byCacheOutcome) == t.queries
  {
    TallyCounts(Verdicts(h));
    TallyCounts(Sources(h));
    TallyCounts(Vlans(h));
    TallyCounts(Qtypes(h));
    TallyCounts(Outcomes(h));
  }
}
