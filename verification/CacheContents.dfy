/** What the cache holds, what a lookup finds in it, and when a hit starts a refresh, in plain times,
    masks and record fields. */
module CacheContents {
  import opened Common
  import opened IpNets
  import opened VlanTable
  import opened CacheEntry
  import opened CacheStore
  import opened CachePolicy
  import opened CacheProtocol
  import opened CacheSafety
  import opened FlushEpoch

  // ---- What is stored ----

  ghost predicate Holds(s: State, e: Entry) {
    (exists d :: d in s.direct && s.direct[d] == e) || (exists q, se :: q in s.scoped && se in s.scoped[q] && se.e == e)
  }

  lemma HeldIsAnswer(c: Config, steps: seq<Step>, e: Entry)
    requires Holds(Run(c, steps), e)
    ensures HoldsAnswer(c, Run(c, steps).fetches, e)
  {
    RunInv(c, steps);
    var s := Run(c, steps);
    if d :| d in s.direct && s.direct[d] == e {
      assert DirectOk(c, s.fetches, d, e);
    } else {
      var q, se :| q in s.scoped && se in s.scoped[q] && se.e == e;
      assert ScopedOk(c, s.fetches, q, se);
    }
  }

  /** In every run an entry of either tier is the answer of one call: its question in lower case, its
      records, the moment the call was made, and a lifetime that is the records' own, kept between
      five seconds and an hour, half an hour for a denial, or the fixed one for a failure. */
  lemma HeldForItsLifetime(c: Config, steps: seq<Step>, e: Entry)
    requires Holds(Run(c, steps), e)
    ensures var s := Run(c, steps);
            e.origin < |s.fetches| && s.fetches[e.origin].msg.Some? &&
            var x := s.fetches[e.origin]; var m := x.msg.value;
            && e.qname == ToLower(x.key.d.query.qname) && e.answer == m.answer && e.stored == x.now
            && !m.truncated && m.typ !in {OtherError, Meta, Update} && (m.typ == NameError ==> m.hasSOA)
            && (m.typ == ServerError ==> e.origTTL == c.failTTL > 0)
            && (m.typ != ServerError ==>
                  var longest := if m.typ in {NameError, NoData} then 1_800_000_000_000 else 3_600_000_000_000;
                  e.origTTL == if m.recordTTL < 5_000_000_000 then 5_000_000_000
                               else if m.recordTTL > longest then longest else m.recordTTL)
  {
    HeldIsAnswer(c, steps, e);
  }

  /** An entry lies in the direct tier, under its call's own key, when the call's address is not known
      or its answer is a failure or echoed no client subnet. */
  lemma HeldDirect(c: Config, steps: seq<Step>, d: DirectKey)
    requires d in Run(c, steps).direct
    ensures var s := Run(c, steps);
            s.direct[d].origin < |s.fetches| && s.fetches[s.direct[d].origin].msg.Some? &&
            var x := s.fetches[s.direct[d].origin];
            x.key.d == d && (x.msg.value.typ == ServerError || x.msg.value.subnet.None? || x.ip.None?)
  {
    RunInv(c, steps);
    assert DirectOk(c, Run(c, steps).fetches, d, Run(c, steps).direct[d]);
  }

  /** In every other case it lies among the scoped entries of the question, under the address cut to
      the echoed length, at most the width of the echoed family. */
  lemma HeldScoped(c: Config, steps: seq<Step>, q: Query, se: ScopedEntry)
    requires q in Run(c, steps).scoped && se in Run(c, steps).scoped[q]
    ensures var s := Run(c, steps);
            se.e.origin < |s.fetches| && s.fetches[se.e.origin].msg.Some? &&
            var x := s.fetches[se.e.origin]; var m := x.msg.value;
            && x.key.d.query == q && m.typ != ServerError && m.subnet.Some? && x.ip.Some?
            && se.prefix.bits == (if m.subnet.value.family == 2 then 128 else 32)
            && se.prefix.ones == (if m.subnet.value.scope < se.prefix.bits then m.subnet.value.scope else se.prefix.bits)
            && se.prefix == NetOf(x.ip.value, se.prefix.ones, se.prefix.bits)
  {
    RunInv(c, steps);
    assert ScopedOk(c, Run(c, steps).fetches, q, se);
  }

  /** Which answers go on to be stored: whole ones that are not errors of transport, denials only with
      a start of authority, and failures when they have a lifetime. A next plugin that fails without
      an answer counts as a failure; one that does neither leaves nothing. */
  lemma WorthStoring(c: Config, s: State, f: nat, reply: Option<Msg>, failed: bool)
    requires Enabled(c, s, Answer(f, reply, failed))
    ensures var y := Apply(c, s, Answer(f, reply, failed)).fetches[f];
            && (reply.Some? ==> y.msg == reply)
            && (reply.None? && failed ==> y.msg.Some? && y.msg.value.typ == ServerError)
            && (reply.None? && !failed ==> y.phase == Returned(NoAnswer))
            && (reply.Some? || failed ==>
                  var m := y.msg.value;
                  y.phase == if !m.truncated && m.typ !in {OtherError, Meta, Update} && (m.typ == NameError ==> m.hasSOA)
                                && (m.typ == ServerError ==> c.failTTL > 0) then Deciding else Returned(Shared(m, None)))
  {
  }

  /** A store that is allowed lands: afterwards the question's scoped list, or the call's direct key,
      holds the call's answer, and no other question or key has gained anything. */
  lemma StoreLands(c: Config, steps: seq<Step>, f: nat, evicted: set<DirectKey>)
    requires Enabled(c, Run(c, steps), StoreAnswer(f, evicted))
    ensures var s := Run(c, steps); var u := Apply(c, s, StoreAnswer(f, evicted)); var x := s.fetches[f]; var m := x.msg.value;
            && (m.typ != ServerError && m.subnet.Some? && x.ip.Some? ==>
                  && u.direct == s.direct && x.key.d.query in u.scoped
                  && (exists se :: se in u.scoped[x.key.d.query] && se.e.origin == f)
                  && forall q :: q != x.key.d.query ==>
                       (q in u.scoped <==> q in s.scoped) && (q in u.scoped ==> u.scoped[q] == s.scoped[q]))
            && (m.typ == ServerError || m.subnet.None? || x.ip.None? ==>
                  && u.scoped == s.scoped && x.key.d in u.direct && u.direct[x.key.d].origin == f
                  && forall d :: d in u.direct && d != x.key.d ==> d in s.direct && u.direct[d] == s.direct[d])
  {
    RunInv(c, steps);
    var s := Run(c, steps);
    assert FetchOk(c, s.epoch, s.fetches[f]);
    StoredHere(c, s, f, evicted);
  }

  lemma StoredHere(c: Config, s: State, f: nat, evicted: set<DirectKey>)
    requires f < |s.fetches| && s.fetches[f].msg.Some?
    ensures var x := s.fetches[f]; var u := Stored(c, s, f, evicted);
            match Place(x.msg.value, x.ip, c.failTTL)
            case Nowhere => true
            case Direct(_) =>
              && x.key.d in u.direct && u.direct[x.key.d].origin == f
              && forall d :: d in u.direct && d != x.key.d ==> d in s.direct && u.direct[d] == s.direct[d]
            case Scoped(prefix, ttl) =>
              && x.key.d.query in u.scoped
              && exists se :: se in u.scoped[x.key.d.query] && se.e.origin == f
  {
    var x := s.fetches[f];
    var p := Place(x.msg.value, x.ip, c.failTTL);
    if p.Scoped? { PutHolds(ScopedAt(s, x.key.d.query), p.prefix, EntryOf(f, x.key.d.query.qname, x.msg.value, x.now, p.ttl)); }
  }

  lemma PutHolds(l: ScopedList, prefix: Net, e: Entry)
    ensures ScopedEntry(prefix, e) in Put(l, prefix, e)
  {
    var p := Put(l, prefix, e);
    var i := FindPrefix(l, prefix);
    assert p[if i < |l| then i else |p| - 1] == ScopedEntry(prefix, e);
  }

  /** A request that has found nothing starts a call, for its own address and at its own time, exactly
      when none is running for its bucket and question, or for its own address the second time. */
  lemma CallsAsAsked(c: Config, s: State, t: nat)
    requires Enabled(c, s, Call(t))
    ensures var u := Apply(c, s, Call(t)); var r := s.tasks[t];
            var d := DirectKey(Lookup(c.table, r.ip).GetOr(""), r.query);
            var k := if r.stage.second then ForAddress(d, r.ip.value) else ForBucket(d);
            u.fetches == s.fetches + (if k in s.flights then [] else [Fetch(t, k, r.ip, r.now, None, None, Started)])
  {
  }

  // ---- What a lookup finds ----

  /** The direct tier serves the entry under the asker's own bucket and question while it is within
      its TTL or, with stale serving on, the grace period after it; otherwise the request goes on. */
  lemma DirectLookup(c: Config, s: State, t: nat, later: int)
    requires Enabled(c, s, TryDirect(t, later))
    ensures var r := s.tasks[t]; var d := DirectKey(Lookup(c.table, r.ip).GetOr(""), r.query);
            Apply(c, s, TryDirect(t, later)).tasks[t].stage ==
            if d in s.direct && (r.now < s.direct[d].stored + s.direct[d].origTTL
                                 || (c.staleTTL > 0 && r.now <= s.direct[d].stored + s.direct[d].origTTL + c.staleTTL))
            then Served(s.direct[d].origin) else AtCall(false)
  {
  }

  /** The scoped tier passes a request on to the direct tier exactly when no entry of the question that
      covers the address is within its TTL or the grace period. */
  lemma ScopedMiss(c: Config, s: State, t: nat, later: int)
    requires Enabled(c, s, TryScoped(t, later))
    ensures var r := s.tasks[t]; var stage := Apply(c, s, TryScoped(t, later)).tasks[t].stage;
            && (stage == AtDirect || stage.Served?)
            && (stage == AtDirect <==>
                  || r.ip.None? || r.query !in s.scoped
                  || forall k :: 0 <= k < |s.scoped[r.query]| && Contains(s.scoped[r.query][k].prefix, r.ip.value) ==>
                    var end := s.scoped[r.query][k].e.stored + s.scoped[r.query][k].e.origTTL;
                    r.now >= end && (c.staleTTL <= 0 || r.now > end + c.staleTTL))
  {
  }

  /** Otherwise it serves one of them: a fresh one if any is, and among equally usable ones the longest
      mask. */
  lemma ScopedServes(c: Config, s: State, t: nat, later: int) returns (at: nat)
    requires Enabled(c, s, TryScoped(t, later)) && Apply(c, s, TryScoped(t, later)).tasks[t].stage != AtDirect
    ensures s.tasks[t].ip.Some? && s.tasks[t].query in s.scoped && at < |s.scoped[s.tasks[t].query]|
    ensures var r := s.tasks[t]; var l := s.scoped[r.query]; var end := l[at].e.stored + l[at].e.origTTL;
            && Apply(c, s, TryScoped(t, later)).tasks[t].stage == Served(l[at].e.origin)
            && Contains(l[at].prefix, r.ip.value)
            && (r.now < end || (c.staleTTL > 0 && r.now <= end + c.staleTTL))
            && (r.now >= end ==> forall m :: 0 <= m < |l| && Contains(l[m].prefix, r.ip.value) ==> r.now >= l[m].e.stored + l[m].e.origTTL)
            && forall m :: 0 <= m < |l| && Contains(l[m].prefix, r.ip.value)
                           && r.now < l[m].e.stored + l[m].e.origTTL + (if r.now < end then 0 else c.staleTTL + 1)
                           ==> l[m].prefix.ones <= l[at].prefix.ones
  {
    var r := s.tasks[t];
    at := Best(ScopedAt(s, r.query), r.ip.value, r.now, c.staleTTL).value;
    BestMeans(ScopedAt(s, r.query), r.ip.value, r.now, c.staleTTL, at);
  }

  /** A hit past its TTL always starts a refresh; one still within it does when prefetching is on and
      no more than a tenth of a positive TTL is left. The refresh asks the same question for the same
      address. */
  lemma HitRefreshes(c: Config, s: State, t: nat, e: Entry, later: int)
    requires t < |s.tasks|
    ensures var u := Hit(c, s, t, e, later); var left := e.stored + e.origTTL - s.tasks[t].now;
            && |s.tasks| <= |u.tasks| <= |s.tasks| + 1
            && u.tasks[t].stage == Served(e.origin)
            && (|u.tasks| > |s.tasks| <==> left <= 0 || (c.prefetch && e.origTTL > 0 && 10 * left <= e.origTTL))
            && (|u.tasks| > |s.tasks| ==> u.tasks[|s.tasks|] == Task(false, s.tasks[t].ip, s.tasks[t].query, later, AtCall(false)))
  {
  }
}
