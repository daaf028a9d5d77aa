/** What every interleaving of the cache keeps. */
module CacheSafety {
  import opened Common
  import opened IpNets
  import opened VlanTable
  import opened CacheEntry
  import opened CacheStore
  import opened CachePolicy
  import opened CacheProtocol

  // ---- Invariants ----

  ghost predicate FetchOk(c: Config, epoch: nat, x: Fetch) {
    && x.key.d.bucket == BucketOf(c, x.ip)
    && (x.key.ForAddress? ==> x.ip == Some(x.key.ip))
    && (x.gen.None? <==> x.phase.Started?)
    && (x.gen.Some? ==> x.gen.value <= epoch)
    && (x.phase.Storing? ==> x.gen == Some(epoch))
    && (x.phase.Started? || x.phase.Asking? ==> x.msg.None?)
    && (x.phase.Deciding? || x.phase.Storing? ==> x.msg.Some? && !Place(x.msg.value, x.ip, c.failTTL).Nowhere?)
    && (x.phase.Returned? || x.phase.Finished? ==>
          x.phase.outcome == if x.msg.Some? then Result(c, x) else NoAnswer)
  }

  ghost predicate FetchesOk(c: Config, s: State) {
    && (forall f :: 0 <= f < |s.fetches| ==> FetchOk(c, s.epoch, s.fetches[f]))
    && (forall k :: k in s.flights ==> s.flights[k] < |s.fetches| && s.fetches[s.flights[k]].key == k)
  }

  /** A later view of the same calls: nothing recorded about one ever changes. */
  ghost predicate Grown(a: seq<Fetch>, b: seq<Fetch>) {
    |a| <= |b| && forall f :: 0 <= f < |a| ==> Later(a[f], b[f])
  }

  ghost predicate Later(x: Fetch, y: Fetch) {
    && y.task == x.task && y.key == x.key && y.ip == x.ip && y.now == x.now
    && (x.gen.Some? ==> y.gen == x.gen)
    && (x.msg.Some? ==> y.msg == x.msg)
    && (x.phase.Finished? ==> y == x)
  }

  /** The answer of a call may be given to a requester. */
  ghost predicate MayServe(c: Config, x: Fetch, t: Task) {
    && x.msg.Some?
    && x.key.d.query == t.query
    && var prefix := SharePrefix(x.msg.value, x.ip, c.failTTL);
       if prefix.None? || t.ip.None? then x.key.d.bucket == BucketOf(c, t.ip)
       else Contains(prefix.value, t.ip.value) || x.ip == t.ip
  }

  ghost predicate TaskOk(c: Config, fetches: seq<Fetch>, t: Task) {
    match t.stage
    case AtCall(second) => second ==> t.ip.Some?
    case Waiting(f, second) =>
      (second ==> t.ip.Some?) && f < |fetches| && fetches[f].key == KeyFor(c, t, second)
    case Served(f) => f < |fetches| && MayServe(c, fetches[f], t)
    case _ => true
  }

  ghost predicate TasksOk(c: Config, s: State) {
    forall t :: 0 <= t < |s.tasks| ==> TaskOk(c, s.fetches, s.tasks[t])
  }

  /** An entry holds the answer of the call it came from, for the lifetime that answer asks for. */
  ghost predicate HoldsAnswer(c: Config, fetches: seq<Fetch>, e: Entry) {
    && e.origin < |fetches|
    && fetches[e.origin].msg.Some?
    && var x := fetches[e.origin]; var p := Place(x.msg.value, x.ip, c.failTTL);
       !p.Nowhere? && e == EntryOf(e.origin, x.key.d.query.qname, x.msg.value, x.now, p.ttl)
  }

  /** An entry in the direct tier was fetched for its own bucket and question. */
  ghost predicate DirectOk(c: Config, fetches: seq<Fetch>, d: DirectKey, e: Entry) {
    && HoldsAnswer(c, fetches, e)
    && fetches[e.origin].key.d == d
    && Place(fetches[e.origin].msg.value, fetches[e.origin].ip, c.failTTL).Direct?
  }

  /** An entry in the scoped tier was fetched for its question and limited to its prefix. */
  ghost predicate ScopedOk(c: Config, fetches: seq<Fetch>, q: Query, se: ScopedEntry) {
    && HoldsAnswer(c, fetches, se.e)
    && fetches[se.e.origin].key.d.query == q
    && SharePrefix(fetches[se.e.origin].msg.value, fetches[se.e.origin].ip, c.failTTL) == Some(se.prefix)
  }

  ghost predicate CacheOk(c: Config, s: State) {
    && (forall d :: d in s.direct ==> DirectOk(c, s.fetches, d, s.direct[d]))
    && (forall q :: q in s.scoped ==> ListOk(s.scoped[q]))
    && (forall q, se :: q in s.scoped && se in s.scoped[q] ==> ScopedOk(c, s.fetches, q, se))
  }

  // ---- Calls ----

  lemma AnswerOk(c: Config, epoch: nat, x: Fetch, reply: Option<Msg>, failed: bool)
    requires x.phase.Asking? && FetchOk(c, epoch, x)
    ensures FetchOk(c, epoch, Answered(c, x, reply, failed)) && Later(x, Answered(c, x, reply, failed))
  {
    if reply.Some? || failed {
      var m := reply.GetOr(SynthesizedFailure);
      if Place(m, x.ip, c.failTTL).Nowhere? { assert SharePrefix(m, x.ip, c.failTTL).None?; }
    }
  }

  lemma CheckOk(c: Config, epoch: nat, x: Fetch)
    requires x.phase.Deciding? && x.msg.Some? && FetchOk(c, epoch, x)
    ensures FetchOk(c, epoch, x.(phase := if x.gen == Some(epoch) then Storing else Returned(Result(c, x))))
  {
  }

  lemma ReplaceFetch(c: Config, s: State, u: State, f: nat, y: Fetch)
    requires FetchesOk(c, s) && f < |s.fetches| && u.fetches == s.fetches[f := y] && u.epoch == s.epoch
    requires FetchOk(c, s.epoch, y) && Later(s.fetches[f], y)
    requires forall k :: k in u.flights ==> k in s.flights && u.flights[k] == s.flights[k]
    ensures FetchesOk(c, u) && Grown(s.fetches, u.fetches)
  {
  }

  lemma AddFetch(c: Config, s: State, u: State, y: Fetch)
    requires FetchesOk(c, s) && u.fetches == s.fetches + [y] && u.epoch == s.epoch && FetchOk(c, s.epoch, y)
    requires u.flights == s.flights[y.key := |s.fetches|]
    ensures FetchesOk(c, u) && Grown(s.fetches, u.fetches)
  {
  }

  /** The steps that work on a call; the others leave every call as it is. */
  ghost predicate OnCall(a: Step) {
    a.ReadGeneration? || a.Answer? || a.CheckEpoch? || a.StoreAnswer? || a.Release? || a.Call?
  }

  lemma OffCall(c: Config, s: State, a: Step)
    requires Enabled(c, s, a) && !OnCall(a)
    ensures Apply(c, s, a).fetches == s.fetches && Apply(c, s, a).flights == s.flights
    ensures Apply(c, s, a).epoch == if a.Invalidate? then s.epoch + 1 else s.epoch
  {
  }

  lemma FetchesStep(c: Config, s: State, a: Step)
    requires FetchesOk(c, s) && Enabled(c, s, a)
    ensures FetchesOk(c, Apply(c, s, a))
    ensures Grown(s.fetches, Apply(c, s, a).fetches)
  {
    var u := Apply(c, s, a);
    if !OnCall(a) {
      OffCall(c, s, a);
    } else if a.Call? {
      var k := KeyFor(c, s.tasks[a.task], s.tasks[a.task].stage.second);
      if k !in s.flights { AddFetch(c, s, u, u.fetches[|s.fetches|]); }
    } else {
      var f := a.fetch;
      if a.Answer? {
        AnswerOk(c, s.epoch, s.fetches[f], a.reply, a.failed);
      } else if a.CheckEpoch? {
        CheckOk(c, s.epoch, s.fetches[f]);
      }
      ReplaceFetch(c, s, u, f, u.fetches[f]);
    }
  }

  // ---- Requesters ----

  lemma TaskGrown(c: Config, a: seq<Fetch>, b: seq<Fetch>, t: Task)
    requires TaskOk(c, a, t) && Grown(a, b)
    ensures TaskOk(c, b, t)
  {
  }

  /** Replacing one requester's stage and perhaps adding another requester. */
  lemma ReplaceTask(c: Config, s: State, u: State, t: nat, more: seq<Task>)
    requires TasksOk(c, s) && Grown(s.fetches, u.fetches) && t < |s.tasks| && t < |u.tasks|
    requires u.tasks == s.tasks[t := u.tasks[t]] + more
    requires TaskOk(c, u.fetches, u.tasks[t])
    requires forall n :: n in more ==> TaskOk(c, u.fetches, n)
    ensures TasksOk(c, u)
  {
    forall i | 0 <= i < |u.tasks| ensures TaskOk(c, u.fetches, u.tasks[i]) {
      if i < |s.tasks| {
        if i != t { TaskGrown(c, s.fetches, u.fetches, s.tasks[i]); }
      } else {
        assert u.tasks[i] in more;
      }
    }
  }

  lemma SameTasks(c: Config, s: State, u: State)
    requires TasksOk(c, s) && Grown(s.fetches, u.fetches) && u.tasks == s.tasks
    ensures TasksOk(c, u)
  {
    forall i | 0 <= i < |u.tasks| ensures TaskOk(c, u.fetches, u.tasks[i]) {
      TaskGrown(c, s.fetches, u.fetches, s.tasks[i]);
    }
  }

  lemma HitOk(c: Config, s: State, t: nat, e: Entry, later: int)
    requires TasksOk(c, s) && t < |s.tasks| && e.origin < |s.fetches|
    requires MayServe(c, s.fetches[e.origin], s.tasks[t])
    ensures TasksOk(c, Hit(c, s, t, e, later))
  {
    var u := Hit(c, s, t, e, later);
    ReplaceTask(c, s, u, t, u.tasks[|s.tasks|..]);
  }

  lemma MissOk(c: Config, s: State, t: nat, stage: Stage)
    requires TasksOk(c, s) && t < |s.tasks| && (stage == AtDirect || stage == AtCall(false))
    ensures TasksOk(c, SetTask(s, t, stage))
  {
    ReplaceTask(c, s, SetTask(s, t, stage), t, []);
  }

  lemma TryScopedOk(c: Config, s: State, t: nat, later: int)
    requires TasksOk(c, s) && CacheOk(c, s) && Enabled(c, s, TryScoped(t, later))
    ensures TasksOk(c, Apply(c, s, TryScoped(t, later)))
  {
    var hit := ScopedHit(c, s, s.tasks[t]);
    if hit.Some? {
      assert ScopedOk(c, s.fetches, s.tasks[t].query, hit.value);
      HitOk(c, s, t, hit.value.e, later);
    } else {
      MissOk(c, s, t, AtDirect);
    }
  }

  lemma TryDirectOk(c: Config, s: State, t: nat, later: int)
    requires TasksOk(c, s) && CacheOk(c, s) && Enabled(c, s, TryDirect(t, later))
    ensures TasksOk(c, Apply(c, s, TryDirect(t, later)))
  {
    var hit := DirectHit(c, s, s.tasks[t]);
    if hit.Some? {
      assert DirectOk(c, s.fetches, DirectKeyOf(c, s.tasks[t]), hit.value);
      HitOk(c, s, t, hit.value, later);
    } else {
      MissOk(c, s, t, AtCall(false));
    }
  }

  /** A finished call's outcome may be given to a waiter it applies to, and always to a waiter
      that called under its own address. */
  lemma WakeOk(c: Config, s: State, t: nat)
    requires TasksOk(c, s) && FetchesOk(c, s) && Enabled(c, s, Wake(t))
    ensures TasksOk(c, Apply(c, s, Wake(t)))
  {
    var w := s.tasks[t].stage;
    assert TaskOk(c, s.fetches, s.tasks[t]);
    assert FetchOk(c, s.epoch, s.fetches[w.fetch]);
    ReplaceTask(c, s, Apply(c, s, Wake(t)), t, []);
  }

  lemma CallOk(c: Config, s: State, t: nat)
    requires TasksOk(c, s) && FetchesOk(c, s) && Enabled(c, s, Call(t))
    ensures TasksOk(c, Apply(c, s, Call(t)))
  {
    FetchesStep(c, s, Call(t));
    assert TaskOk(c, s.fetches, s.tasks[t]);
    ReplaceTask(c, s, Apply(c, s, Call(t)), t, []);
  }

  lemma TasksStep(c: Config, s: State, a: Step)
    requires TasksOk(c, s) && FetchesOk(c, s) && CacheOk(c, s) && Enabled(c, s, a)
    ensures TasksOk(c, Apply(c, s, a))
  {
    match a {
      case Arrive(ip, query, now) =>
      case TryScoped(t, later) => TryScopedOk(c, s, t, later);
      case TryDirect(t, later) => TryDirectOk(c, s, t, later);
      case Call(t) => CallOk(c, s, t);
      case Wake(t) => WakeOk(c, s, t);
      case _ =>
        FetchesStep(c, s, a);
        SameTasks(c, s, Apply(c, s, a));
    }
  }

  // ---- Tiers ----

  lemma CacheGrown(c: Config, s: State, u: State)
    requires CacheOk(c, s) && Grown(s.fetches, u.fetches)
    requires u.direct.Keys <= s.direct.Keys && forall d :: d in u.direct ==> u.direct[d] == s.direct[d]
    requires u.scoped == s.scoped
    ensures CacheOk(c, u)
  {
    forall d | d in u.direct ensures DirectOk(c, u.fetches, d, u.direct[d]) {
      assert DirectOk(c, s.fetches, d, s.direct[d]);
    }
    forall q, se | q in u.scoped && se in u.scoped[q] ensures ScopedOk(c, u.fetches, q, se) {
      assert ScopedOk(c, s.fetches, q, se);
    }
  }

  lemma SweepOk(c: Config, s: State, u: State, name: Option<string>)
    requires CacheOk(c, s) && u == s.(scoped := KeptTier(s.scoped, name), flushes := u.flushes)
    ensures CacheOk(c, u)
  {
    forall q | q in u.scoped ensures ListOk(u.scoped[q]) { KeptOk(s.scoped[q], name); }
    forall q, se | q in u.scoped && se in u.scoped[q] ensures ScopedOk(c, u.fetches, q, se) {
      assert ScopedOk(c, s.fetches, q, se);
    }
  }

  lemma StoreOk(c: Config, s: State, f: nat, evicted: set<DirectKey>)
    requires CacheOk(c, s) && f < |s.fetches| && s.fetches[f].msg.Some?
    ensures CacheOk(c, Stored(c, s, f, evicted))
  {
    var x := s.fetches[f];
    var u := Stored(c, s, f, evicted);
    match Place(x.msg.value, x.ip, c.failTTL) {
      case Nowhere =>
      case Direct(ttl) =>
        forall d | d in u.direct ensures DirectOk(c, u.fetches, d, u.direct[d]) {
          if d != x.key.d { assert DirectOk(c, s.fetches, d, s.direct[d]); }
        }
      case Scoped(prefix, ttl) =>
        var q := x.key.d.query;
        PutKeeps(ScopedAt(s, q), prefix, EntryOf(f, q.qname, x.msg.value, x.now, ttl));
        forall r, se | r in u.scoped && se in u.scoped[r] ensures ScopedOk(c, u.fetches, r, se) {
          if r == q {
            assert se.e.origin == f || se in ScopedAt(s, q);
          }
          if se.e.origin != f { assert ScopedOk(c, s.fetches, r, se); }
        }
    }
  }

  lemma CacheStep(c: Config, s: State, a: Step)
    requires FetchesOk(c, s) && CacheOk(c, s) && Enabled(c, s, a)
    ensures CacheOk(c, Apply(c, s, a))
  {
    if a.SweepScoped? {
      SweepOk(c, s, Apply(c, s, a), s.flushes[a.flush].name);
    } else {
      FetchesStep(c, s, a);
      if a.StoreAnswer? {
        StoreStepOk(c, s, a.fetch, a.evicted);
      } else {
        OffTiersOk(c, s, a);
        CacheGrown(c, s, Apply(c, s, a));
      }
    }
  }

  lemma StoreStepOk(c: Config, s: State, f: nat, evicted: set<DirectKey>)
    requires CacheOk(c, s) && Enabled(c, s, StoreAnswer(f, evicted))
    requires Grown(s.fetches, Apply(c, s, StoreAnswer(f, evicted)).fetches)
    ensures CacheOk(c, Apply(c, s, StoreAnswer(f, evicted)))
  {
    StoreOk(c, s, f, evicted);
    CacheGrown(c, Stored(c, s, f, evicted), Apply(c, s, StoreAnswer(f, evicted)));
  }

  /** Apart from storing and sweeping a step only ever takes entries out of the direct tier. */
  lemma OffTiersOk(c: Config, s: State, a: Step)
    requires Enabled(c, s, a) && !a.StoreAnswer? && !a.SweepScoped?
    ensures var u := Apply(c, s, a);
            u.scoped == s.scoped && u.direct.Keys <= s.direct.Keys && forall d :: d in u.direct ==> u.direct[d] == s.direct[d]
  {
  }
}
