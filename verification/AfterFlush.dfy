/** What requests that arrive after a finished flush can still be served. */
module AfterFlush {
  import opened Common
  import opened IpNets
  import opened VlanTable
  import opened CacheEntry
  import opened CacheStore
  import opened CachePolicy
  import opened CacheProtocol
  import opened CacheSafety
  import opened FlushEpoch
  import opened CacheDelivery

  // ---- Two more invariants ----

  /** An entry says what its call was asked and answered. */
  ghost predicate Copies(fetches: seq<Fetch>, e: Entry) {
    && e.origin < |fetches| && fetches[e.origin].msg.Some?
    && e.qname == ToLower(fetches[e.origin].key.d.query.qname) && e.answer == fetches[e.origin].msg.value.answer
  }

  ghost predicate Sourced(s: State) {
    && (forall d :: d in s.direct ==> Copies(s.fetches, s.direct[d]))
    && (forall q, se :: q in s.scoped && se in s.scoped[q] ==> Copies(s.fetches, se.e))
  }

  /** A key leads to a call that has not released it. */
  ghost predicate FlightsLive(s: State) {
    forall k :: k in s.flights ==> s.flights[k] < |s.fetches| && !s.fetches[s.flights[k]].phase.Finished?
  }

  lemma CacheIsSourced(c: Config, s: State)
    requires CacheOk(c, s)
    ensures Sourced(s)
  {
    forall d | d in s.direct ensures Copies(s.fetches, s.direct[d]) { assert DirectOk(c, s.fetches, d, s.direct[d]); }
    forall q, se | q in s.scoped && se in s.scoped[q] ensures Copies(s.fetches, se.e) { assert ScopedOk(c, s.fetches, q, se); }
  }

  lemma FlightsStep(c: Config, s: State, a: Step)
    requires FlightsLive(s) && FetchesOk(c, s) && Enabled(c, s, a)
    ensures FlightsLive(Apply(c, s, a))
  {
    if !OnCall(a) {
      OffCall(c, s, a);
    } else if a.Call? {
      CallFlights(c, s, a.task);
    }
  }

  lemma CallFlights(c: Config, s: State, t: nat)
    requires FlightsLive(s) && Enabled(c, s, Call(t))
    ensures FlightsLive(Apply(c, s, Call(t)))
  {
  }

  lemma {:induction false} RunMore(c: Config, steps: seq<Step>)
    ensures Sourced(Run(c, steps)) && FlightsLive(Run(c, steps))
  {
    if steps != [] {
      var front, a := steps[..|steps| - 1], steps[|steps| - 1];
      RunMore(c, front);
      RunInv(c, front);
      if Enabled(c, Run(c, front), a) { FlightsStep(c, Run(c, front), a); }
    }
    RunInv(c, steps);
    CacheIsSourced(c, Run(c, steps));
  }

  // ---- Since a flush finished ----

  /** The call's answer is one the flush was after. */
  ghost predicate Concerns(name: Option<string>, fetches: seq<Fetch>, f: nat) {
    f < |fetches| && fetches[f].msg.Some? && Targets(name, EntryOf(f, fetches[f].key.d.query.qname, fetches[f].msg.value, 0, 0))
  }

  ghost predicate Recent(fetches: seq<Fetch>, f: nat, epoch: nat) {
    f < |fetches| && fetches[f].gen.Some? && fetches[f].gen.value >= epoch
  }

  /** Started, and not yet over. */
  ghost predicate InFlight(s: State, f: nat) {
    f < |s.fetches| && !s.fetches[f].phase.Finished?
  }

  ghost predicate TaskSince(b: State, x: Flush, fetches: seq<Fetch>, t: Task) {
    match t.stage
    case Waiting(f, _) => f < |b.fetches| ==> InFlight(b, f)
    case Served(f) => Concerns(x.name, fetches, f) ==> Recent(fetches, f, x.epoch) || InFlight(b, f)
    case _ => true
  }

  /** Flush k had finished in b, and u is a later state. */
  ghost predicate Since(b: State, k: nat, u: State) {
    && k < |b.flushes| && k < |u.flushes| && b.flushes[k].stage.Done? && u.flushes[k] == b.flushes[k]
    && u.epoch >= b.flushes[k].epoch && Grown(b.fetches, u.fetches) && |b.tasks| <= |u.tasks|
    && (forall f :: |b.fetches| <= f < |u.fetches| && u.fetches[f].gen.Some? ==> u.fetches[f].gen.value >= b.flushes[k].epoch)
    && forall t :: |b.tasks| <= t < |u.tasks| ==> TaskSince(b, b.flushes[k], u.fetches, u.tasks[t])
  }

  /** A generation is read once, and is the epoch of that moment. */
  lemma GenerationsStep(c: Config, s: State, a: Step)
    requires Enabled(c, s, a)
    ensures var u := Apply(c, s, a);
            && |s.fetches| <= |u.fetches| <= |s.fetches| + 1 && s.epoch <= u.epoch
            && (forall f :: 0 <= f < |s.fetches| ==>
                  u.fetches[f].gen == s.fetches[f].gen || u.fetches[f].gen == Some(s.epoch))
            && (|u.fetches| > |s.fetches| ==> u.fetches[|s.fetches|].gen.None?)
  {
    if !OnCall(a) { OffCall(c, s, a); }
  }

  /** A finished flush stays as it is. */
  lemma DoneStays(c: Config, s: State, a: Step, k: nat)
    requires Enabled(c, s, a) && k < |s.flushes| && s.flushes[k].stage.Done?
    ensures k < |Apply(c, s, a).flushes| && Apply(c, s, a).flushes[k] == s.flushes[k]
  {
  }

  lemma TaskStays(c: Config, b: State, x: Flush, before: seq<Fetch>, after: seq<Fetch>, t: Task)
    requires TaskSince(b, x, before, t) && TaskOk(c, before, t) && Grown(before, after)
    ensures TaskSince(b, x, after, t)
  {
  }

  lemma TargetsByText(name: Option<string>, e: Entry, d: Entry)
    requires e.qname == d.qname && e.answer == d.answer
    ensures Targets(name, e) <==> Targets(name, d)
  {
  }

  /** What a tier still holds of what the flush was after is recent. */
  lemma HeldIsRecent(c: Config, s: State, k: nat, e: Entry)
    requires FlushesOk(s) && k < |s.flushes| && s.flushes[k].stage.Done? && Copies(s.fetches, e) && Has(s.fetches, e)
    requires (exists d :: d in s.direct && s.direct[d] == e) || (exists q, se :: q in s.scoped && se in s.scoped[q] && se.e == e)
    ensures Concerns(s.flushes[k].name, s.fetches, e.origin) ==> Recent(s.fetches, e.origin, s.flushes[k].epoch)
  {
    var x := s.fetches[e.origin];
    assert FlushOk(s, s.flushes[k]);
    assert !Doomed(s.fetches, e, s.flushes[k]);
    TargetsByText(s.flushes[k].name, e, EntryOf(e.origin, x.key.d.query.qname, x.msg.value, 0, 0));
  }

  lemma ScopedHitRecent(c: Config, u: State, k: nat, t: Task)
    requires FlushesOk(u) && Dated(u) && Sourced(u) && k < |u.flushes| && u.flushes[k].stage.Done? && ScopedHit(c, u, t).Some?
    ensures var f := ScopedHit(c, u, t).value.e.origin;
            Concerns(u.flushes[k].name, u.fetches, f) ==> Recent(u.fetches, f, u.flushes[k].epoch)
  {
    var hit := ScopedHit(c, u, t).value;
    assert t.query in u.scoped && hit in u.scoped[t.query];
    assert Copies(u.fetches, hit.e) && Has(u.fetches, hit.e);
    HeldIsRecent(c, u, k, hit.e);
  }

  lemma DirectHitRecent(c: Config, u: State, k: nat, t: Task)
    requires FlushesOk(u) && Dated(u) && Sourced(u) && k < |u.flushes| && u.flushes[k].stage.Done? && DirectHit(c, u, t).Some?
    ensures var f := DirectHit(c, u, t).value.origin;
            Concerns(u.flushes[k].name, u.fetches, f) ==> Recent(u.fetches, f, u.flushes[k].epoch)
  {
    var d := DirectKeyOf(c, t);
    assert Copies(u.fetches, u.direct[d]) && Has(u.fetches, u.direct[d]);
    HeldIsRecent(c, u, k, u.direct[d]);
  }

  /** Where a lookup takes its task. */
  lemma LookupStage(c: Config, u: State, t: nat, later: int)
    requires t < |u.tasks|
    ensures Enabled(c, u, TryScoped(t, later)) ==>
              var v := Apply(c, u, TryScoped(t, later)); var hit := ScopedHit(c, u, u.tasks[t]);
              v.fetches == u.fetches && |v.tasks| > t && v.tasks[t].stage == if hit.Some? then Served(hit.value.e.origin) else AtDirect
    ensures Enabled(c, u, TryDirect(t, later)) ==>
              var v := Apply(c, u, TryDirect(t, later)); var hit := DirectHit(c, u, u.tasks[t]);
              v.fetches == u.fetches && |v.tasks| > t && v.tasks[t].stage == if hit.Some? then Served(hit.value.origin) else AtCall(false)
  {
  }

  /** Where a call takes its task: to a call not yet over, or to a new one. */
  lemma CallStage(c: Config, u: State, t: nat)
    requires FlightsLive(u) && Enabled(c, u, Call(t))
    ensures var v := Apply(c, u, Call(t));
            && |v.tasks| == |u.tasks| && v.tasks[t].stage.Waiting?
            && var f := v.tasks[t].stage.fetch; f < |u.fetches| ==> !u.fetches[f].phase.Finished?
  {
  }

  /** And a wake: to an outcome of the call it waited for, which has read its generation. */
  lemma WakeStage(c: Config, u: State, t: nat)
    requires FetchesOk(c, u) && Enabled(c, u, Wake(t))
    ensures var v := Apply(c, u, Wake(t)); var f := u.tasks[t].stage.fetch;
            && |v.tasks| == |u.tasks| && v.fetches == u.fetches && f < |u.fetches| && u.fetches[f].gen.Some?
            && !v.tasks[t].stage.Waiting? && (v.tasks[t].stage.Served? ==> v.tasks[t].stage.fetch == f)
  {
    assert FetchOk(c, u.epoch, u.fetches[u.tasks[t].stage.fetch]);
  }

  /** A step changes no task's stage but the one it is of. */
  lemma OtherTasks(c: Config, u: State, a: Step, t: nat)
    requires Enabled(c, u, a) && t < |u.tasks| && OwnerOf(a) != Some(t)
    ensures |u.tasks| <= |Apply(c, u, a).tasks| && Apply(c, u, a).tasks[t] == u.tasks[t]
  {
  }

  function OwnerOf(a: Step): Option<nat> {
    match a
    case TryScoped(t, _) => Some(t)
    case TryDirect(t, _) => Some(t)
    case Call(t) => Some(t)
    case Wake(t) => Some(t)
    case _ => None
  }

  /** The step a task takes itself. */
  lemma OwnSince(c: Config, b: State, k: nat, u: State, a: Step, t: nat)
    requires Since(b, k, u) && FetchesOk(c, u) && FlushesOk(u) && Dated(u) && Sourced(u) && FlightsLive(u) && Enabled(c, u, a)
    requires |b.tasks| <= t < |u.tasks| && OwnerOf(a) == Some(t)
    ensures var v := Apply(c, u, a); t < |v.tasks| && TaskSince(b, b.flushes[k], v.fetches, v.tasks[t])
  {
    match a {
      case TryScoped(_, later) =>
        LookupStage(c, u, t, later);
        if ScopedHit(c, u, u.tasks[t]).Some? { ScopedHitRecent(c, u, k, u.tasks[t]); }
      case TryDirect(_, later) =>
        LookupStage(c, u, t, later);
        if DirectHit(c, u, u.tasks[t]).Some? { DirectHitRecent(c, u, k, u.tasks[t]); }
      case Call(_) =>
        CallStage(c, u, t);
      case Wake(_) =>
        WakeStage(c, u, t);
        assert TaskSince(b, b.flushes[k], u.fetches, u.tasks[t]);
    }
  }

  lemma NewTask(c: Config, u: State, a: Step)
    requires Enabled(c, u, a)
    ensures var v := Apply(c, u, a);
            && |u.tasks| <= |v.tasks|
            && forall t :: |u.tasks| <= t < |v.tasks| ==> v.tasks[t].stage.AtScoped? || v.tasks[t].stage.AtCall?
  {
  }

  lemma TasksSince(c: Config, b: State, k: nat, u: State, a: Step, t: nat)
    requires Since(b, k, u) && FetchesOk(c, u) && TasksOk(c, u) && FlushesOk(u) && Dated(u) && Sourced(u) && FlightsLive(u)
    requires Enabled(c, u, a) && |b.tasks| <= t < |Apply(c, u, a).tasks|
    ensures TaskSince(b, b.flushes[k], Apply(c, u, a).fetches, Apply(c, u, a).tasks[t])
  {
    NewTask(c, u, a);
    if t < |u.tasks| {
      if OwnerOf(a) == Some(t) {
        OwnSince(c, b, k, u, a, t);
      } else {
        OtherTasks(c, u, a, t);
        FetchesStep(c, u, a);
        TaskStays(c, b, b.flushes[k], u.fetches, Apply(c, u, a).fetches, u.tasks[t]);
      }
    }
  }

  lemma SinceStep(c: Config, b: State, k: nat, u: State, a: Step)
    requires Since(b, k, u) && FetchesOk(c, u) && TasksOk(c, u) && FlushesOk(u) && Dated(u) && Sourced(u) && FlightsLive(u)
    requires Enabled(c, u, a)
    ensures Since(b, k, Apply(c, u, a))
  {
    DoneStays(c, u, a, k);
    CallsSince(c, b, k, u, a);
    AllTasksSince(c, b, k, u, a);
  }

  lemma CallsSince(c: Config, b: State, k: nat, u: State, a: Step)
    requires Since(b, k, u) && FetchesOk(c, u) && Enabled(c, u, a)
    ensures var v := Apply(c, u, a);
            && v.epoch >= b.flushes[k].epoch && Grown(b.fetches, v.fetches)
            && (forall f :: |b.fetches| <= f < |v.fetches| && v.fetches[f].gen.Some? ==> v.fetches[f].gen.value >= b.flushes[k].epoch)
  {
    FetchesStep(c, u, a);
    GenerationsStep(c, u, a);
    GrownTwice(b.fetches, u.fetches, Apply(c, u, a).fetches);
    StillRecent(|b.fetches|, b.flushes[k].epoch, u.fetches, Apply(c, u, a).fetches, u.epoch);
  }

  lemma StillRecent(n: nat, epoch: nat, x: seq<Fetch>, y: seq<Fetch>, now: nat)
    requires epoch <= now && |x| <= |y| <= |x| + 1 && (|y| > |x| ==> y[|x|].gen.None?)
    requires forall f :: 0 <= f < |x| ==> y[f].gen == x[f].gen || y[f].gen == Some(now)
    requires forall f :: n <= f < |x| && x[f].gen.Some? ==> x[f].gen.value >= epoch
    ensures forall f :: n <= f < |y| && y[f].gen.Some? ==> y[f].gen.value >= epoch
  {
  }

  lemma GrownTwice(x: seq<Fetch>, y: seq<Fetch>, z: seq<Fetch>)
    requires Grown(x, y) && Grown(y, z)
    ensures Grown(x, z)
  {
    forall f | 0 <= f < |x| ensures Later(x[f], z[f]) { assert Later(x[f], y[f]) && Later(y[f], z[f]); }
  }

  lemma AllTasksSince(c: Config, b: State, k: nat, u: State, a: Step)
    requires Since(b, k, u) && FetchesOk(c, u) && TasksOk(c, u) && FlushesOk(u) && Dated(u) && Sourced(u) && FlightsLive(u)
    requires Enabled(c, u, a)
    ensures var v := Apply(c, u, a);
            && |b.tasks| <= |v.tasks|
            && forall t :: |b.tasks| <= t < |v.tasks| ==> TaskSince(b, b.flushes[k], v.fetches, v.tasks[t])
  {
    var v := Apply(c, u, a);
    NewTask(c, u, a);
    forall t | |b.tasks| <= t < |v.tasks| ensures TaskSince(b, b.flushes[k], v.fetches, v.tasks[t]) {
      TasksSince(c, b, k, u, a, t);
    }
  }

  lemma SinceStart(b: State, k: nat)
    requires FlushesOk(b) && k < |b.flushes| && b.flushes[k].stage.Done?
    ensures Since(b, k, b)
  {
    assert FlushOk(b, b.flushes[k]);
  }

  lemma SinceMore(c: Config, b: State, front: seq<Step>, k: nat, a: Step)
    requires Since(b, k, Run(c, front))
    ensures Since(b, k, if Enabled(c, Run(c, front), a) then Apply(c, Run(c, front), a) else Run(c, front))
  {
    RunInv(c, front);
    RunMore(c, front);
    CacheIsDated(c, Run(c, front));
    if Enabled(c, Run(c, front), a) { SinceStep(c, b, k, Run(c, front), a); }
  }

  lemma {:induction false} RunSince(c: Config, before: seq<Step>, after: seq<Step>, k: nat)
    requires k < |Run(c, before).flushes| && Run(c, before).flushes[k].stage.Done?
    ensures Since(Run(c, before), k, Run(c, before + after))
  {
    if after == [] {
      assert before + after == before;
      RunInv(c, before);
      SinceStart(Run(c, before), k);
    } else {
      var steps, front := before + after, before + after[..|after| - 1];
      assert steps[..|steps| - 1] == front;
      RunSince(c, before, after[..|after| - 1], k);
      SinceMore(c, Run(c, before), front, k, steps[|steps| - 1]);
    }
  }

  /** Whoever arrives after a flush has finished is served, of what the flush was after, only answers
      whose call read its generation in the flush's epoch or later, or came from a call that was
      already in flight when the flush finished. */
  lemma ServedAfterFlush(c: Config, before: seq<Step>, after: seq<Step>, k: nat, t: nat)
    requires k < |Run(c, before).flushes| && Run(c, before).flushes[k].stage.Done?
    requires |Run(c, before).tasks| <= t < |Run(c, before + after).tasks| && Run(c, before + after).tasks[t].stage.Served?
    ensures var b := Run(c, before); var u := Run(c, before + after); var f := u.tasks[t].stage.fetch;
            Concerns(b.flushes[k].name, u.fetches, f) ==> Recent(u.fetches, f, b.flushes[k].epoch) || InFlight(b, f)
  {
    RunSince(c, before, after, k);
    assert TaskSince(Run(c, before), Run(c, before).flushes[k], Run(c, before + after).fetches, Run(c, before + after).tasks[t]);
  }

  // ---- Joining a call from before ----

  /** The second case is real: for every question, answer and address some request arrives after a
      finished flush of everything and is handed the answer of a call from before it. */
  lemma JoinsOldCall(c: Config, q: Query, m: Msg, ip: Addr) returns (before: seq<Step>, after: seq<Step>)
    requires AppliesTo(SharePrefix(m, Some(ip), c.failTTL), Some(ip))
    ensures var b := Run(c, before); var u := Run(c, before + after);
            && |b.flushes| == 1 && b.flushes[0] == Flush(None, 1, Done) && |b.tasks| == 1
            && |u.tasks| == 2 && u.tasks[1].stage == Served(0)
            && |u.fetches| == 1 && u.fetches[0].gen == Some(0) && u.fetches[0].msg == Some(m)
  {
    before := FlushedDuringCall(c, q, ip);
    after := [Arrive(Some(ip), q, 0), TryScoped(1, 0), TryDirect(1, 0), Call(1), Answer(0, Some(m), false)];
    var steps := JoinAndAnswer(c, q, m, ip, before);
    if Run(c, steps).fetches[0].phase.Deciding? {
      after := after + [CheckEpoch(0)];
      steps := Extend(c, steps, CheckEpoch(0));
      assert steps == before + after;
    }
    after := HandToJoiner(c, m, ip, before, after);
  }

  lemma HandToJoiner(c: Config, m: Msg, ip: Addr, before: seq<Step>, after: seq<Step>) returns (more: seq<Step>)
    requires AppliesTo(SharePrefix(m, Some(ip), c.failTTL), Some(ip))
    requires var s := Run(c, before + after);
             && |s.fetches| == 1 && s.fetches[0].phase == Returned(Shared(m, SharePrefix(m, Some(ip), c.failTTL)))
             && |s.tasks| == 2 && s.tasks[1].client && s.tasks[1].ip == Some(ip) && s.tasks[1].stage == Waiting(0, false)
    ensures var s := Run(c, before + after); var u := Run(c, before + more);
            && |u.tasks| == 2 && u.tasks[1].stage == Served(0)
            && |u.fetches| == 1 && u.fetches[0].gen == s.fetches[0].gen && u.fetches[0].msg == s.fetches[0].msg
  {
    more := after + [Release(0), Wake(1)];
    var steps := Extend(c, before + after, Release(0));
    steps := Extend(c, steps, Wake(1));
    assert steps == before + more;
  }

  lemma JoinAndAnswer(c: Config, q: Query, m: Msg, ip: Addr, before: seq<Step>) returns (steps: seq<Step>)
    requires var k := ForBucket(DirectKey(BucketOf(c, Some(ip)), q));
             Run(c, before) == State(1, map[], map[], [Fetch(0, k, Some(ip), 0, Some(0), None, Asking)], map[k := 0],
                                     [Task(true, Some(ip), q, 0, Waiting(0, false))], [Flush(None, 1, Done)])
    ensures steps == before + [Arrive(Some(ip), q, 0), TryScoped(1, 0), TryDirect(1, 0), Call(1), Answer(0, Some(m), false)]
    ensures var k := ForBucket(DirectKey(BucketOf(c, Some(ip)), q)); var w := Task(true, Some(ip), q, 0, Waiting(0, false));
            Run(c, steps) == State(1, map[], map[], [Answered(c, Fetch(0, k, Some(ip), 0, Some(0), None, Asking), Some(m), false)],
                                   map[k := 0], [w, w], [Flush(None, 1, Done)])
  {
    steps := Extend(c, before, Arrive(Some(ip), q, 0));
    steps := Extend(c, steps, TryScoped(1, 0));
    steps := Extend(c, steps, TryDirect(1, 0));
    steps := Extend(c, steps, Call(1));
    steps := Extend(c, steps, Answer(0, Some(m), false));
  }

  /** A call has read its generation and asked; a flush of everything then runs to its end. */
  lemma FlushedDuringCall(c: Config, q: Query, ip: Addr) returns (steps: seq<Step>)
    ensures var k := ForBucket(DirectKey(BucketOf(c, Some(ip)), q));
            Run(c, steps) == State(1, map[], map[], [Fetch(0, k, Some(ip), 0, Some(0), None, Asking)], map[k := 0],
                                   [Task(true, Some(ip), q, 0, Waiting(0, false))], [Flush(None, 1, Done)])
  {
    steps := Approach(c, [], ip, q);
    steps := Extend(c, steps, Call(0));
    steps := Extend(c, steps, ReadGeneration(0));
    steps := FlushEmpty(c, steps);
  }

  lemma FlushEmpty(c: Config, steps: seq<Step>) returns (more: seq<Step>)
    requires var s := Run(c, steps); s.direct == map[] && s.scoped == map[] && s.flushes == [] && !EpochLockHeld(s)
    ensures var s := Run(c, steps); Run(c, more) == s.(epoch := s.epoch + 1, flushes := [Flush(None, s.epoch + 1, Done)])
  {
    more := Extend(c, steps, Invalidate(None));
    more := Extend(c, more, SnapshotKeys(0));
    more := Extend(c, more, SweepScoped(0));
  }
}
