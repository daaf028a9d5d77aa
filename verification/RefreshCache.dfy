/** The browse cache's refresh schedule (RFC 6762 section 5.2) and known-answer lists (section
    7.1). Times and TTLs are nanoseconds; the fractional thresholds are exact percentages. */
module RefreshCache {
  import opened Common

  const SECOND := 1_000_000_000

  const THRESHOLDS: nat := 4

  /** A PTR record as it goes on the wire; its TTL is in seconds. */
  datatype WirePtr = WirePtr(name: string, target: string, ttl: nat)

  datatype CacheRecord = CacheRecord(rr: Option<WirePtr>, question: string, ttl: nat, storedAt: int, refreshesSent: nat)

  function Elapsed(r: CacheRecord, now: int): int { now - r.storedAt }

  predicate Expired(r: CacheRecord, now: int) { Elapsed(r, now) >= r.ttl }

  /** The elapsed time at which threshold k (80, 85, 90, 95 percent) is crossed. */
  function ThresholdAt(ttl: nat, k: nat): nat { ttl * (80 + 5 * k) / 100 }

  /** How many thresholds an elapsed time covers. */
  function Covered(ttl: nat, elapsed: int): (n: nat)
    ensures n <= THRESHOLDS
    ensures forall k :: 0 <= k < THRESHOLDS ==> (k < n <==> ThresholdAt(ttl, k) <= elapsed)
  {
    if elapsed < ThresholdAt(ttl, 0) then 0
    else if elapsed < ThresholdAt(ttl, 1) then 1
    else if elapsed < ThresholdAt(ttl, 2) then 2
    else if elapsed < ThresholdAt(ttl, 3) then 3
    else 4
  }

  function Refreshed(r: CacheRecord, now: int): CacheRecord {
    r.(refreshesSent := Max(r.refreshesSent, Covered(r.ttl, Elapsed(r, now))))
  }

  predicate Due(r: CacheRecord, now: int) {
    Covered(r.ttl, Elapsed(r, now)) > r.refreshesSent
  }

  /** dueThreshold: advance past every threshold now covered, and say whether there was one. */
  method DueThreshold(r: CacheRecord, now: int) returns (next: CacheRecord, fired: bool)
    requires r.refreshesSent <= THRESHOLDS
    ensures next == r.(refreshesSent := next.refreshesSent) && r.refreshesSent <= next.refreshesSent <= 4
    ensures fired <==> next.refreshesSent > r.refreshesSent
    ensures forall k :: r.refreshesSent <= k < 4 ==> (k < next.refreshesSent <==> now - r.storedAt >= r.ttl * [80, 85, 90, 95][k] / 100)
    ensures next == Refreshed(r, now) && fired == Due(r, now)
  {
    next, fired := r, false;
    var elapsed := Elapsed(r, now);
    while next.refreshesSent < THRESHOLDS
      invariant r.refreshesSent <= next.refreshesSent <= THRESHOLDS
      invariant next == r.(refreshesSent := next.refreshesSent)
      invariant next.refreshesSent == r.refreshesSent || next.refreshesSent <= Covered(r.ttl, elapsed)
      invariant fired == (next.refreshesSent > r.refreshesSent)
      decreases THRESHOLDS - next.refreshesSent
    {
      if elapsed < ThresholdAt(r.ttl, next.refreshesSent) { break; }
      next := next.(refreshesSent := next.refreshesSent + 1);
      fired := true;
    }
  }

  // ---- The schedule of one record ----

  /** The record after ticks at the given times, none of which re-stores it. */
  function AfterTicks(r: CacheRecord, times: seq<int>): CacheRecord {
    if times == [] then r else Refreshed(AfterTicks(r, times[..|times| - 1]), times[|times| - 1])
  }

  /** How many of those ticks report the record due. An expired record is gone. */
  function Reports(r: CacheRecord, times: seq<int>): nat {
    if times == [] then 0
    else
      var before := times[..|times| - 1];
      var now := times[|times| - 1];
      Reports(r, before) + (if !Expired(r, now) && Due(AfterTicks(r, before), now) then 1 else 0)
  }

  predicate Ordered(r: CacheRecord, times: seq<int>) {
    && (forall i :: 0 <= i < |times| ==> r.storedAt <= times[i])
    && forall i, j :: 0 <= i < j < |times| ==> times[i] <= times[j]
  }

  /** As parsed from a message: a whole number of seconds, not zero. */
  predicate WholeTTL(r: CacheRecord) {
    r.ttl > 0 && r.ttl % SECOND == 0
  }

  function LastElapsed(r: CacheRecord, times: seq<int>): int {
    if times == [] then 0 else Elapsed(r, times[|times| - 1])
  }

  lemma CoveredGrows(ttl: nat, a: int, b: int)
    requires a <= b
    ensures Covered(ttl, a) <= Covered(ttl, b)
  {
  }

  /** In every schedule the count of refreshes sent is the number of thresholds covered at the
      last tick. */
  lemma {:induction false} SentClosedForm(r: CacheRecord, times: seq<int>)
    requires Ordered(r, times) && r.refreshesSent == 0 && WholeTTL(r)
    ensures AfterTicks(r, times) == r.(refreshesSent := Covered(r.ttl, LastElapsed(r, times)))
  {
    if times != [] {
      var before := times[..|times| - 1];
      SentClosedForm(r, before);
      CoveredGrows(r.ttl, LastElapsed(r, before), LastElapsed(r, times));
    }
  }

  /** Ticks no further apart than gap, from the moment of storing until the record has expired. */
  predicate Schedule(r: CacheRecord, gap: nat, times: seq<int>) {
    && times != [] && Ordered(r, times) && Expired(r, times[|times| - 1])
    && times[0] - r.storedAt <= gap
    && forall i :: 0 < i < |times| ==> times[i] - times[i - 1] <= gap
  }

  /** A twentieth of the TTL separates consecutive thresholds, and the last from expiry. */
  lemma ThresholdSpacing(ttl: nat, k: nat)
    requires k < THRESHOLDS
    ensures ThresholdAt(ttl, k) + ttl / 20 <= if k + 1 < THRESHOLDS then ThresholdAt(ttl, k + 1) else ttl
    ensures ttl - ttl / 20 >= ThresholdAt(ttl, 3)
    ensures ttl > 0 ==> ttl / 20 < ttl
  {
    assert 5 * (ttl / 20 * 20) <= 5 * ttl;
  }

  lemma OneAtATime(ttl: nat, a: int, b: int)
    requires a <= b <= a + ttl / 20
    ensures Covered(ttl, b) <= Covered(ttl, a) + 1
  {
    var n := Covered(ttl, a);
    if n + 1 < THRESHOLDS { ThresholdSpacing(ttl, n); }
  }

  lemma {:induction false} EachCrossingReported(r: CacheRecord, gap: nat, times: seq<int>)
    requires Ordered(r, times) && r.refreshesSent == 0 && WholeTTL(r) && gap <= r.ttl / 20
    requires times != [] ==> times[0] - r.storedAt <= gap
    requires forall i :: 0 < i < |times| ==> times[i] - times[i - 1] <= gap
    requires times != [] ==> !Expired(r, times[|times| - 1])
    ensures Reports(r, times) == Covered(r.ttl, LastElapsed(r, times))
  {
    if times != [] {
      var before := times[..|times| - 1];
      EachCrossingReported(r, gap, before);
      SentClosedForm(r, before);
      OneAtATime(r.ttl, LastElapsed(r, before), LastElapsed(r, times));
      CoveredGrows(r.ttl, LastElapsed(r, before), LastElapsed(r, times));
    }
  }

  /** Ticking at least every twentieth of the TTL reports the record due exactly four times before
      it expires. */
  lemma {:induction false} FourReports(r: CacheRecord, gap: nat, times: seq<int>)
    requires r.refreshesSent == 0 && WholeTTL(r) && gap <= r.ttl / 20 && Schedule(r, gap, times)
    ensures Reports(r, times) == THRESHOLDS
  {
    var before := times[..|times| - 1];
    ThresholdSpacing(r.ttl, 3);
    assert before != [];
    if Expired(r, before[|before| - 1]) {
      FourReports(r, gap, before);
    } else {
      EachCrossingReported(r, gap, before);
      assert LastElapsed(r, before) >= ThresholdAt(r.ttl, 3);
    }
  }

  lemma {:induction false} QuietBefore(r: CacheRecord, times: seq<int>)
    requires r.refreshesSent == 0
    requires forall i :: 0 <= i < |times| ==> Elapsed(r, times[i]) < ThresholdAt(r.ttl, 0)
    ensures Reports(r, times) == 0 && AfterTicks(r, times) == r
  {
    if times != [] { QuietBefore(r, times[..|times| - 1]); }
  }

  lemma OneMoreTick(r: CacheRecord, before: seq<int>, now: int)
    requires Ordered(r, before + [now]) && r.refreshesSent == 0 && WholeTTL(r)
    ensures Reports(r, before + [now]) ==
            Reports(r, before) +
            (if !Expired(r, now) && Covered(r.ttl, Elapsed(r, now)) > Covered(r.ttl, LastElapsed(r, before)) then 1 else 0)
  {
    assert (before + [now])[..|before|] == before;
    assert Ordered(r, before) by {
      forall i | 0 <= i < |before| ensures before[i] == (before + [now])[i] {}
    }
    SentClosedForm(r, before);
  }

  /** Ticks a twentieth apart, with the sixteenth a nanosecond early and the seventeenth jumping
      over two thresholds at once. */
  ghost function SkippingSchedule(r: CacheRecord): (times: seq<int>)
    ensures |times| == 20
  {
    var g := r.ttl / 20;
    seq(20, i => if i == 15 then r.storedAt + 16 * g - 1 else r.storedAt + (i + 1) * g)
  }

  lemma Twentieth(r: CacheRecord)
    requires WholeTTL(r)
    ensures r.ttl == 20 * (r.ttl / 20) && r.ttl / 20 > 1
  {
    var s := r.ttl / SECOND;
    assert r.ttl == 20 * (50_000_000 * s);
    ModIs(r.ttl, 20, 50_000_000 * s, 0);
  }

  lemma SkippingGap(r: CacheRecord, i: nat)
    requires WholeTTL(r) && 0 < i < 20
    ensures var times := SkippingSchedule(r); times[i - 1] <= times[i] <= times[i - 1] + r.ttl / 20 + 1
  {
    Twentieth(r);
    var g := r.ttl / 20;
    assert (i + 1) * g == i * g + g;
  }

  lemma SkippingIsSchedule(r: CacheRecord)
    requires WholeTTL(r)
    ensures Schedule(r, r.ttl / 20 + 1, SkippingSchedule(r))
  {
    var times := SkippingSchedule(r);
    Twentieth(r);
    forall i | 0 < i < 20 ensures times[i - 1] <= times[i] <= times[i - 1] + r.ttl / 20 + 1 { SkippingGap(r, i); }
    StepwiseOrdered(times, 20);
    assert times[0] == r.storedAt + 1 * (r.ttl / 20) && times[19] == r.storedAt + 20 * (r.ttl / 20);
  }

  lemma {:induction false} StepwiseOrdered(times: seq<int>, n: nat)
    requires n <= |times| && forall i :: 0 < i < n ==> times[i - 1] <= times[i]
    ensures forall i, j :: 0 <= i < j < n ==> times[i] <= times[j]
  {
    if n > 1 {
      StepwiseOrdered(times, n - 1);
      assert times[n - 2] <= times[n - 1];
    }
  }

  lemma CoveredAtTwentieths(ttl: nat, g: nat)
    requires ttl == 20 * g && g > 0
    ensures forall e :: e < 16 * g ==> Covered(ttl, e) == 0
    ensures Covered(ttl, 17 * g) == 2 && Covered(ttl, 18 * g) == 3 && Covered(ttl, 19 * g) == 4
  {
    assert ThresholdAt(ttl, 0) == 16 * g && ThresholdAt(ttl, 1) == 17 * g
        && ThresholdAt(ttl, 2) == 18 * g && ThresholdAt(ttl, 3) == 19 * g;
  }

  lemma SkippingReports(r: CacheRecord)
    requires r.refreshesSent == 0 && WholeTTL(r)
    ensures Reports(r, SkippingSchedule(r)) == 3
  {
    SkippingIsSchedule(r);
    SkippingStart(r);
    ThreeOfFour(r, SkippingSchedule(r), r.ttl / 20);
  }

  lemma ThreeOfFour(r: CacheRecord, times: seq<int>, g: nat)
    requires r.refreshesSent == 0 && WholeTTL(r) && r.ttl == 20 * g && |times| == 20 && Ordered(r, times)
    requires Reports(r, times[..16]) == 0
    requires Elapsed(r, times[15]) == 16 * g - 1 && Elapsed(r, times[16]) == 17 * g && Elapsed(r, times[17]) == 18 * g
    requires Elapsed(r, times[18]) == 19 * g && Elapsed(r, times[19]) == 20 * g
    ensures Reports(r, times) == 3
  {
    CoveredAtTwentieths(r.ttl, g);
    TickAt(r, times, 16);
    TickAt(r, times, 17);
    TickAt(r, times, 18);
    TickAt(r, times, 19);
    assert times[..20] == times;
  }

  lemma EarlyTick(r: CacheRecord, i: nat)
    requires WholeTTL(r) && i < 16
    ensures Elapsed(r, SkippingSchedule(r)[i]) < ThresholdAt(r.ttl, 0)
  {
    Twentieth(r);
    var g := r.ttl / 20;
    assert ThresholdAt(r.ttl, 0) == 16 * g;
    if i < 15 { assert (i + 1) * g <= 15 * g; }
  }

  lemma SkippingStart(r: CacheRecord)
    requires r.refreshesSent == 0 && WholeTTL(r)
    ensures Reports(r, SkippingSchedule(r)[..16]) == 0
  {
    var start := SkippingSchedule(r)[..16];
    forall i | 0 <= i < 16 ensures Elapsed(r, start[i]) < ThresholdAt(r.ttl, 0) { EarlyTick(r, i); }
    QuietBefore(r, start);
  }

  lemma TickAt(r: CacheRecord, times: seq<int>, n: nat)
    requires 0 < n < |times| && Ordered(r, times) && r.refreshesSent == 0 && WholeTTL(r)
    ensures Reports(r, times[..n + 1]) ==
            Reports(r, times[..n]) +
            (if !Expired(r, times[n]) && Covered(r.ttl, Elapsed(r, times[n])) > Covered(r.ttl, Elapsed(r, times[n - 1])) then 1 else 0)
  {
    var before := times[..n];
    assert times[..n + 1] == before + [times[n]];
    OrderedPrefix(r, times, n + 1);
    assert LastElapsed(r, before) == Elapsed(r, times[n - 1]);
    OneMoreTick(r, before, times[n]);
  }

  lemma OrderedPrefix(r: CacheRecord, times: seq<int>, n: nat)
    requires Ordered(r, times) && n <= |times|
    ensures Ordered(r, times[..n])
  {
  }

  lemma WiderGap(r: CacheRecord, narrow: nat, wide: nat, times: seq<int>)
    requires Schedule(r, narrow, times) && narrow <= wide
    ensures Schedule(r, wide, times)
  {
  }

  /** The gap a twentieth of the TTL is exactly what it takes: with whole-second TTLs, every
      schedule with gaps up to a bound reports four times if and only if the bound is at most a
      twentieth of the TTL. */
  lemma FourReportsExactly(r: CacheRecord, gap: nat)
    requires r.refreshesSent == 0 && WholeTTL(r)
    ensures (forall times :: Schedule(r, gap, times) ==> Reports(r, times) == THRESHOLDS) <==> gap <= r.ttl / 20
  {
    if gap <= r.ttl / 20 {
      forall times | Schedule(r, gap, times) ensures Reports(r, times) == THRESHOLDS { FourReports(r, gap, times); }
    } else {
      SkippingIsSchedule(r);
      WiderGap(r, r.ttl / 20 + 1, gap, SkippingSchedule(r));
      SkippingReports(r);
    }
  }

  /** Some tick falls between first threshold and expiry. */
  ghost predicate TickInTime(r: CacheRecord, times: seq<int>) {
    exists i :: 0 <= i < |times| && ThresholdAt(r.ttl, 0) <= Elapsed(r, times[i]) < r.ttl
  }

  lemma SomeTickMore(r: CacheRecord, times: seq<int>)
    requires times != []
    ensures TickInTime(r, times) <==>
            TickInTime(r, times[..|times| - 1]) || ThresholdAt(r.ttl, 0) <= Elapsed(r, times[|times| - 1]) < r.ttl
  {
    var before := times[..|times| - 1];
    if TickInTime(r, before) {
      var i :| 0 <= i < |before| && ThresholdAt(r.ttl, 0) <= Elapsed(r, before[i]) < r.ttl;
      assert times[i] == before[i];
    }
    if TickInTime(r, times) {
      var i :| 0 <= i < |times| && ThresholdAt(r.ttl, 0) <= Elapsed(r, times[i]) < r.ttl;
      if i < |before| { assert before[i] == times[i]; }
    }
  }

  /** However sparse the ticks, a record is reported between one and four times if some tick
      falls between its first threshold and its expiry, and not at all otherwise. */
  lemma {:induction false} SomeReports(r: CacheRecord, times: seq<int>)
    requires Ordered(r, times) && r.refreshesSent == 0 && WholeTTL(r)
    ensures Reports(r, times) <= Covered(r.ttl, LastElapsed(r, times))
    ensures Reports(r, times) >= 1 <==> TickInTime(r, times)
  {
    if times != [] {
      var before := times[..|times| - 1];
      SomeReports(r, before);
      SentClosedForm(r, before);
      CoveredGrows(r.ttl, LastElapsed(r, before), LastElapsed(r, times));
      SomeTickMore(r, times);
    }
  }

  // ---- Known answers ----

  datatype KnownRecord = KnownRecord(rr: WirePtr, question: string, ttl: nat, elapsed: int)

  /** Strictly more than half of the TTL is left. */
  predicate Qualifies(k: KnownRecord, question: string) {
    k.question == question && 2 * (k.ttl - k.elapsed) > k.ttl
  }

  /** The record with its TTL cut down to whole remaining seconds, as a 32-bit count. */
  function CutDown(k: KnownRecord): WirePtr
    requires Qualifies(k, k.question)
  {
    k.rr.(ttl := (k.ttl - k.elapsed) / SECOND % 0x1_0000_0000)
  }

  function Offered(records: seq<KnownRecord>, question: string): (out: seq<WirePtr>)
    ensures forall x :: x in out <==> exists i :: 0 <= i < |records| && Qualifies(records[i], question) && x == CutDown(records[i])
  {
    if records == [] then []
    else
      var n := |records| - 1;
      var front := Offered(records[..n], question);
      if Qualifies(records[n], question) then front + [CutDown(records[n])] else front
  }

  /** Each record of the question with more than half of its TTL left is offered, with the whole
      seconds it has left, modulo 2 to the 32, for its TTL. */
  method KnownAnswers(records: seq<KnownRecord>, question: string) returns (out: seq<WirePtr>)
    ensures forall x :: x in out <==> exists i ::
              && 0 <= i < |records| && records[i].question == question
              && 2 * (records[i].ttl - records[i].elapsed) > records[i].ttl
              && x == WirePtr(records[i].rr.name, records[i].rr.target,
                              (records[i].ttl - records[i].elapsed) / 1_000_000_000 % 0x1_0000_0000)
    ensures out == Offered(records, question)
  {
    out := [];
    for i := 0 to |records|
      invariant out == Offered(records[..i], question)
    {
      assert records[..i + 1][..i] == records[..i];
      var rec := records[i];
      if rec.question != question { continue; }
      var remaining := rec.ttl - rec.elapsed;
      if remaining * 2 <= rec.ttl { continue; }
      out := out + [rec.rr.(ttl := remaining / SECOND % 0x1_0000_0000)];
    }
    assert records[..|records|] == records;
  }

  function KnownOf(r: CacheRecord, now: int): KnownRecord
    requires r.rr.Some?
  {
    KnownRecord(r.rr.value, r.question, r.ttl, Elapsed(r, now))
  }

  /** A record that has crossed its first refresh threshold is never offered as known, and one
      that is offered is offered for no longer than it has left. */
  lemma DueIsNotKnown(r: CacheRecord, now: int, question: string)
    requires r.rr.Some? && WholeTTL(r)
    ensures Covered(r.ttl, Elapsed(r, now)) > 0 ==> !Qualifies(KnownOf(r, now), question)
    ensures Qualifies(KnownOf(r, now), question) ==> CutDown(KnownOf(r, now)).ttl * SECOND <= r.ttl - Elapsed(r, now)
  {
  }

  // ---- The cache ----

  type Records = map<string, CacheRecord>

  function Ticked(m: Records, now: int): Records {
    map k | k in m && !Expired(m[k], now) :: Refreshed(m[k], now)
  }

  /** The keys a tick reports due, and those it reports expired. */
  function DueKeys(m: Records, now: int): set<string> {
    set k | k in m && !Expired(m[k], now) && Due(m[k], now)
  }

  function ExpiredKeys(m: Records, now: int): set<string> {
    set k | k in m && Expired(m[k], now)
  }

  /** A live record is due once it has crossed the first of its thresholds not yet reported. */
  lemma DueExactly(m: Records, now: int, k: string)
    ensures k in DueKeys(m, now) <==>
              && k in m && now - m[k].storedAt < m[k].ttl && m[k].refreshesSent < 4
              && now - m[k].storedAt >= m[k].ttl * [80, 85, 90, 95][m[k].refreshesSent] / 100
  {
  }

  ghost predicate Lists(keys: seq<string>, s: set<string>) {
    && (forall i, j :: 0 <= i < j < |keys| ==> keys[i] != keys[j])
    && (forall i :: 0 <= i < |keys| ==> keys[i] in s)
    && forall k :: k in s ==> k in keys
  }

  lemma ListOneMore(keys: seq<string>, s: set<string>, key: string)
    requires Lists(keys, s) && key !in s
    ensures Lists(keys + [key], s + {key})
  {
    forall k | k in s + {key} ensures k in keys + [key] {
      if k != key { assert k in keys; }
    }
  }

  /** The records when only those in left are still to be visited. */
  ghost function Midway(m: Records, left: set<string>, now: int): Records {
    map k | k in m && (k in left || !Expired(m[k], now)) :: if k in left then m[k] else Refreshed(m[k], now)
  }

  lemma VisitOne(m: Records, left: set<string>, now: int, key: string)
    requires left <= m.Keys && key in left
    ensures Midway(m, left - {key}, now) ==
            if Expired(m[key], now) then Midway(m, left, now) - {key} else Midway(m, left, now)[key := Refreshed(m[key], now)]
  {
  }

  /** What has been reported when only the records in left are still to be visited. */
  ghost predicate Reported(m: Records, left: set<string>, now: int, due: seq<string>, dueKeys: seq<string>, expired: seq<string>) {
    && Lists(expired, ExpiredKeys(m, now) - left)
    && Lists(dueKeys, DueKeys(m, now) - left)
    && |due| == |dueKeys|
    && forall i :: 0 <= i < |due| ==> dueKeys[i] in m && due[i] == m[dueKeys[i]].question
  }

  lemma ReportExpired(m: Records, left: set<string>, now: int, due: seq<string>, dueKeys: seq<string>, expired: seq<string>, key: string)
    requires Reported(m, left, now, due, dueKeys, expired) && key in left && key in m && Expired(m[key], now)
    ensures Reported(m, left - {key}, now, due, dueKeys, expired + [key])
  {
    ListOneMore(expired, ExpiredKeys(m, now) - left, key);
    assert ExpiredKeys(m, now) - (left - {key}) == ExpiredKeys(m, now) - left + {key};
    assert DueKeys(m, now) - (left - {key}) == DueKeys(m, now) - left;
  }

  lemma ReportLive(m: Records, left: set<string>, now: int, due: seq<string>, dueKeys: seq<string>, expired: seq<string>, key: string)
    requires Reported(m, left, now, due, dueKeys, expired) && key in left && key in m && !Expired(m[key], now)
    ensures if Due(m[key], now)
            then Reported(m, left - {key}, now, due + [m[key].question], dueKeys + [key], expired)
            else Reported(m, left - {key}, now, due, dueKeys, expired)
  {
    assert ExpiredKeys(m, now) - (left - {key}) == ExpiredKeys(m, now) - left;
    if Due(m[key], now) {
      ListOneMore(dueKeys, DueKeys(m, now) - left, key);
      assert DueKeys(m, now) - (left - {key}) == DueKeys(m, now) - left + {key};
    } else {
      assert DueKeys(m, now) - (left - {key}) == DueKeys(m, now) - left;
    }
  }

  lemma AllReported(m: Records, now: int, due: seq<string>, dueKeys: seq<string>, expired: seq<string>)
    requires Reported(m, {}, now, due, dueKeys, expired)
    ensures Lists(expired, ExpiredKeys(m, now)) && Lists(dueKeys, DueKeys(m, now))
  {
    assert ExpiredKeys(m, now) - {} == ExpiredKeys(m, now) && DueKeys(m, now) - {} == DueKeys(m, now);
  }

  class Cache {
    var records: Records

    constructor ()
      ensures records == map[]
    {
      records := map[];
    }

    ghost predicate Valid()
      reads this
    {
      forall k :: k in records ==> records[k].refreshesSent <= THRESHOLDS
    }

    /** Returns whether the key is new. now is the cache's own clock. */
    method Store(key: string, question: string, rr: Option<WirePtr>, ttl: nat, now: int) returns (isNew: bool)
      requires Valid()
      modifies this
      ensures Valid() && records == old(records)[key := CacheRecord(rr, question, ttl, now, 0)]
      ensures isNew == (key !in old(records))
    {
      isNew := key !in records;
      records := records[key := CacheRecord(rr, question, ttl, now, 0)];
    }

    method Remove(key: string)
      requires Valid()
      modifies this
      ensures Valid() && records == old(records) - {key}
    {
      records := records - {key};
    }

    /** Records are visited in no particular order; each list names the keys it reports. */
    method Tick(now: int) returns (due: seq<string>, expired: seq<string>, ghost dueKeys: seq<string>)
      requires Valid()
      modifies this
      ensures Valid() && records == Ticked(old(records), now)
      ensures records.Keys == set k | k in old(records) && now - old(records)[k].storedAt < old(records)[k].ttl
      ensures forall k :: k in expired <==> k in old(records) && now - old(records)[k].storedAt >= old(records)[k].ttl
      ensures Lists(expired, ExpiredKeys(old(records), now))
      ensures Lists(dueKeys, DueKeys(old(records), now)) && |due| == |dueKeys|
      ensures forall i :: 0 <= i < |due| ==> dueKeys[i] in old(records) && due[i] == old(records)[dueKeys[i]].question
    {
      due, expired, dueKeys := [], [], [];
      var left := records.Keys;
      ghost var was := records;
      assert records == Midway(was, left, now);
      while left != {}
        invariant left <= was.Keys && records == Midway(was, left, now)
        invariant Reported(was, left, now, due, dueKeys, expired)
        decreases |left|
      {
        var key :| key in left;
        var rec := records[key];
        VisitOne(was, left, now, key);
        if Expired(rec, now) {
          ReportExpired(was, left, now, due, dueKeys, expired, key);
          expired := expired + [key];
          records := records - {key};
        } else {
          ReportLive(was, left, now, due, dueKeys, expired, key);
          var next, fired := DueThreshold(rec, now);
          records := records[key := next];
          if fired {
            due := due + [rec.question];
            dueKeys := dueKeys + [key];
          }
        }
        left := left - {key};
      }
      AllReported(was, now, due, dueKeys, expired);
      assert records == Ticked(was, now);
    }

    method KnownAnswersFor(question: string, now: int) returns (out: seq<KnownRecord>, ghost keys: seq<string>)
      ensures Lists(keys, set k | k in records && records[k].question == question && records[k].rr.Some?)
      ensures |out| == |keys|
      ensures forall i :: 0 <= i < |out| ==>
                && keys[i] in records && records[keys[i]].rr.Some?
                && out[i] == KnownRecord(records[keys[i]].rr.value, records[keys[i]].question, records[keys[i]].ttl,
                                         now - records[keys[i]].storedAt)
      ensures forall i :: 0 <= i < |out| ==> keys[i] in records && records[keys[i]].rr.Some? && out[i] == KnownOf(records[keys[i]], now)
      ensures forall x :: x in out <==>
                exists k :: k in records && records[k].question == question && records[k].rr.Some? && KnownOf(records[k], now) == x
    {
      out, keys := [], [];
      var left := records.Keys;
      while left != {}
        invariant left <= records.Keys && |out| == |keys|
        invariant Lists(keys, set k | k in records && k !in left && records[k].question == question && records[k].rr.Some?)
        invariant forall i :: 0 <= i < |out| ==> keys[i] in records && records[keys[i]].rr.Some? && out[i] == KnownOf(records[keys[i]], now)
        decreases |left|
      {
        var key :| key in left;
        left := left - {key};
        var rec := records[key];
        if rec.question != question || rec.rr.None? { continue; }
        out := out + [KnownOf(rec, now)];
        keys := keys + [key];
      }
      forall k | k in records && records[k].question == question && records[k].rr.Some? ensures KnownOf(records[k], now) in out {
        assert k in keys;
        var i :| 0 <= i < |keys| && keys[i] == k;
        assert out[i] == KnownOf(records[k], now);
      }
      forall x | x in out
        ensures exists k :: k in records && records[k].question == question && records[k].rr.Some? && KnownOf(records[k], now) == x
      {
        var i :| 0 <= i < |out| && out[i] == x;
        assert keys[i] in records && KnownOf(records[keys[i]], now) == x;
      }
    }
  }
}
