/** Who may be handed whose answer, and how often one request goes upstream. */
module CacheDelivery {
  import opened Common
  import opened IpNets
  import opened VlanTable
  import opened CacheEntry
  import opened CacheStore
  import opened CachePolicy
  import opened CacheProtocol
  import opened CacheSafety
  import opened FlushEpoch

  // ---- Delivered answers ----

  /** Every answer delivered in any interleaving answers the requester's own question. If it is
      cacheable, not a failure, and came with a scope, then the scope contains the requester, or
      the answer was fetched for that very address; in every other case it was fetched for the
      requester's own VLAN bucket. */
  lemma ServedIsValid(c: Config, steps: seq<Step>, t: nat)
    requires t < |Run(c, steps).tasks| && Run(c, steps).tasks[t].stage.Served?
    ensures var s := Run(c, steps);
            var r := s.tasks[t];
            r.stage.fetch < |s.fetches| &&
            var x := s.fetches[r.stage.fetch];
            x.msg.Some? && x.key.d.query == r.query &&
            if Cacheable(x.msg.value) && x.msg.value.typ != ServerError && ScopePrefix(x.msg.value, x.ip).Some? && r.ip.Some?
            then Contains(ScopePrefix(x.msg.value, x.ip).value, r.ip.value) || x.ip == r.ip
            else BucketOf(c, x.ip) == BucketOf(c, r.ip)
  {
    RunInv(c, steps);
    var s := Run(c, steps);
    assert TaskOk(c, s.fetches, s.tasks[t]);
    var x := s.fetches[s.tasks[t].stage.fetch];
    assert FetchOk(c, s.epoch, x);
    SharePrefixExactly(x.msg.value, x.ip, c.failTTL);
  }

  /** The call and the requester have one bucket and one question. */
  ghost predicate SameBucket(c: Config, s: State, f: nat, t: Task) {
    f < |s.fetches| && s.fetches[f].key.d == DirectKeyOf(c, t) && BucketOf(c, s.fetches[f].ip) == BucketOf(c, t.ip)
  }

  /** A hit in the direct tier, in any interleaving, serves what was fetched for an address of the
      requester's own bucket and for its own question. */
  lemma DirectHitsStayInBucket(c: Config, steps: seq<Step>, t: nat, later: int)
    requires Enabled(c, Run(c, steps), TryDirect(t, later)) && DirectHit(c, Run(c, steps), Run(c, steps).tasks[t]).Some?
    ensures var s := Run(c, steps); var u := Apply(c, s, TryDirect(t, later));
            u.tasks[t].stage.Served? && SameBucket(c, u, u.tasks[t].stage.fetch, s.tasks[t])
  {
    RunInv(c, steps);
    HitInBucket(c, Run(c, steps), t, later);
  }

  lemma HitInBucket(c: Config, s: State, t: nat, later: int)
    requires FetchesOk(c, s) && CacheOk(c, s) && Enabled(c, s, TryDirect(t, later)) && DirectHit(c, s, s.tasks[t]).Some?
    ensures var u := Apply(c, s, TryDirect(t, later));
            u.tasks[t].stage.Served? && SameBucket(c, u, u.tasks[t].stage.fetch, s.tasks[t])
  {
    var k := DirectKeyOf(c, s.tasks[t]);
    assert DirectOk(c, s.fetches, k, s.direct[k]);
    assert FetchOk(c, s.epoch, s.fetches[s.direct[k].origin]);
  }

  /** And so does a coalesced result: whoever waits for a call has its bucket and its question. */
  lemma CoalescedStaysInBucket(c: Config, steps: seq<Step>, t: nat)
    requires t < |Run(c, steps).tasks| && Run(c, steps).tasks[t].stage.Waiting?
    ensures var s := Run(c, steps); SameBucket(c, s, s.tasks[t].stage.fetch, s.tasks[t])
  {
    RunInv(c, steps);
    var s := Run(c, steps);
    assert TaskOk(c, s.fetches, s.tasks[t]);
    assert FetchOk(c, s.epoch, s.fetches[s.tasks[t].stage.fetch]);
  }

  /** When upstreams echo the asker's own address family, the scope always contains the
      requester. */
  lemma ServedWithinScope(c: Config, steps: seq<Step>, t: nat)
    requires t < |Run(c, steps).tasks| && Run(c, steps).tasks[t].stage.Served?
    ensures var s := Run(c, steps);
            var r := s.tasks[t];
            r.stage.fetch < |s.fetches| &&
            var x := s.fetches[r.stage.fetch];
            x.msg.Some? &&
            (Cacheable(x.msg.value) && x.msg.value.typ != ServerError && x.msg.value.subnet.Some?
             && r.ip.Some? && x.ip.Some? && (x.msg.value.subnet.value.family == 2 <==> x.ip.value.V6?)
             ==> Contains(ScopePrefix(x.msg.value, x.ip).value, r.ip.value))
  {
    ServedIsValid(c, steps, t);
    var s := Run(c, steps);
    var r := s.tasks[t];
    var x := s.fetches[r.stage.fetch];
    if x.msg.value.subnet.Some? && x.ip.Some? {
      var sub := x.msg.value.subnet.value;
      OwnNetContains(x.ip.value, ScopeOnes(sub), ScopeBits(sub));
    }
  }

  // ---- Going upstream ----

  /** A first call whose own result does not cover its own caller. */
  ghost predicate Spent(x: Fetch) {
    && x.key.ForBucket? && x.phase.Finished? && x.phase.outcome.Shared?
    && !AppliesTo(x.phase.outcome.prefix, x.ip)
  }

  /** What a caller's stage says about a call it led. */
  ghost predicate LedOk(s: State, f: nat)
    requires f < |s.fetches|
  {
    var x := s.fetches[f];
    x.task < |s.tasks| && s.tasks[x.task].ip == x.ip &&
    match s.tasks[x.task].stage
    case AtScoped => false
    case AtDirect => false
    case AtCall(second) => second && Spent(x)
    case Waiting(w, second) => w == f || (second && Spent(x))
    case _ => true
  }

  /** Two calls led by one caller: the first was under the bucket's key and its result did not
      cover the caller, the second is under the caller's address. */
  ghost predicate PairOk(s: State, f: nat, g: nat)
    requires f < |s.fetches| && g < |s.fetches|
  {
    s.fetches[f].task == s.fetches[g].task ==> Spent(s.fetches[f]) && s.fetches[g].key.ForAddress?
  }

  ghost predicate LeadersOk(s: State) {
    && (forall f :: 0 <= f < |s.fetches| ==> LedOk(s, f))
    && forall f, g :: 0 <= f < g < |s.fetches| ==> PairOk(s, f, g)
  }

  /** A step after which every call is a later view of itself and every caller either keeps its
      stage or leaves the stages that constrain its calls. */
  lemma LeadersKept(s: State, u: State)
    requires LeadersOk(s) && Grown(s.fetches, u.fetches) && |u.fetches| == |s.fetches|
    requires |s.tasks| <= |u.tasks|
    requires forall t :: 0 <= t < |s.tasks| ==> u.tasks[t].ip == s.tasks[t].ip
    requires forall f :: 0 <= f < |s.fetches| && s.fetches[f].task < |s.tasks| ==>
               || u.tasks[s.fetches[f].task].stage == s.tasks[s.fetches[f].task].stage
               || LedOk(u, f)
    ensures LeadersOk(u)
  {
    forall f | 0 <= f < |u.fetches| ensures LedOk(u, f) {
      assert LedOk(s, f) && Later(s.fetches[f], u.fetches[f]);
    }
    forall f, g | 0 <= f < g < |u.fetches| ensures PairOk(u, f, g) {
      assert PairOk(s, f, g) && Later(s.fetches[f], u.fetches[f]) && Later(s.fetches[g], u.fetches[g]);
    }
  }

  /** A caller that leads a call has led none before, or one that is spent. */
  lemma LeadOk(c: Config, s: State, t: nat)
    requires LeadersOk(s) && FetchesOk(c, s) && Enabled(c, s, Call(t))
    ensures LeadersOk(Apply(c, s, Call(t)))
  {
    var u := Apply(c, s, Call(t));
    FetchesStep(c, s, Call(t));
    forall f | 0 <= f < |u.fetches| ensures LedOk(u, f) {
      if f < |s.fetches| { assert LedOk(s, f); }
    }
    forall f, g | 0 <= f < g < |u.fetches| ensures PairOk(u, f, g) { LeadPairOk(c, s, t, f, g); }
  }

  lemma LeadPairOk(c: Config, s: State, t: nat, f: nat, g: nat)
    requires LeadersOk(s) && FetchesOk(c, s) && Enabled(c, s, Call(t)) && f < g < |Apply(c, s, Call(t)).fetches|
    ensures PairOk(Apply(c, s, Call(t)), f, g)
  {
    assert LedOk(s, f);
    if g < |s.fetches| { assert PairOk(s, f, g); }
  }

  lemma WakeLedOk(c: Config, s: State, t: nat)
    requires LeadersOk(s) && FetchesOk(c, s) && TasksOk(c, s) && Enabled(c, s, Wake(t))
    ensures LeadersOk(Apply(c, s, Wake(t)))
  {
    var u := Apply(c, s, Wake(t));
    assert TaskOk(c, s.fetches, s.tasks[t]);
    assert u.fetches == s.fetches;
    forall f | 0 <= f < |s.fetches| && s.fetches[f].task == t ensures LedOk(u, f) {
      assert LedOk(s, f);
    }
    LeadersKept(s, u);
  }

  lemma LookedOk(s: State, t: nat, u: State)
    requires LeadersOk(s) && t < |s.tasks| && (s.tasks[t].stage.AtScoped? || s.tasks[t].stage.AtDirect?)
    requires u.fetches == s.fetches && |s.tasks| <= |u.tasks| && u.tasks[t].ip == s.tasks[t].ip
    requires u.tasks[..|s.tasks|] == s.tasks[t := u.tasks[t]]
    ensures LeadersOk(u)
  {
    forall f | 0 <= f < |s.fetches| ensures s.fetches[f].task != t { assert LedOk(s, f); }
    forall i | 0 <= i < |s.tasks| && i != t ensures u.tasks[i] == s.tasks[i] {
      assert u.tasks[..|s.tasks|][i] == s.tasks[i];
    }
    LeadersKept(s, u);
  }

  lemma TryLedOk(c: Config, s: State, a: Step)
    requires LeadersOk(s) && Enabled(c, s, a) && (a.TryScoped? || a.TryDirect?)
    ensures LeadersOk(Apply(c, s, a))
  {
    LookedOk(s, a.task, Apply(c, s, a));
  }

  lemma TasksUntouched(c: Config, s: State, a: Step)
    requires Enabled(c, s, a) && !a.Call? && !a.Wake? && !a.TryScoped? && !a.TryDirect?
    ensures s.tasks <= Apply(c, s, a).tasks && |Apply(c, s, a).fetches| == |s.fetches|
  {
  }

  lemma LeadersStep(c: Config, s: State, a: Step)
    requires LeadersOk(s) && FetchesOk(c, s) && TasksOk(c, s) && Enabled(c, s, a)
    ensures LeadersOk(Apply(c, s, a))
  {
    if a.Call? {
      LeadOk(c, s, a.task);
    } else if a.Wake? {
      WakeLedOk(c, s, a.task);
    } else if a.TryScoped? || a.TryDirect? {
      TryLedOk(c, s, a);
    } else {
      FetchesStep(c, s, a);
      TasksUntouched(c, s, a);
      StagesKept(s, Apply(c, s, a));
    }
  }

  lemma StagesKept(s: State, u: State)
    requires LeadersOk(s) && Grown(s.fetches, u.fetches) && |u.fetches| == |s.fetches| && s.tasks <= u.tasks
    ensures LeadersOk(u)
  {
    forall t | 0 <= t < |s.tasks| ensures u.tasks[t] == s.tasks[t] {}
    LeadersKept(s, u);
  }

  lemma {:induction false} RunLeaders(c: Config, steps: seq<Step>)
    ensures LeadersOk(Run(c, steps))
  {
    if steps != [] {
      var before := steps[..|steps| - 1];
      RunLeaders(c, before);
      RunInv(c, before);
      if Enabled(c, Run(c, before), steps[|steps| - 1]) {
        LeadersStep(c, Run(c, before), steps[|steps| - 1]);
      }
    }
  }

  lemma SpentIsFirst(s: State, f: nat)
    requires LeadersOk(s) && f < |s.fetches| && Spent(s.fetches[f])
    ensures forall h :: 0 <= h < f ==> s.fetches[h].task != s.fetches[f].task
  {
    forall h | 0 <= h < f ensures s.fetches[h].task != s.fetches[f].task { assert PairOk(s, h, f); }
  }

  lemma AddressIsLast(s: State, g: nat)
    requires LeadersOk(s) && g < |s.fetches| && s.fetches[g].key.ForAddress?
    ensures forall h :: g < h < |s.fetches| ==> s.fetches[h].task != s.fetches[g].task
  {
    forall h | g < h < |s.fetches| ensures s.fetches[h].task != s.fetches[g].task { assert PairOk(s, g, h); }
  }

  /** One ServeDNS call drives the next plugin at most twice, and a second time only when the
      first answer was cacheable, not a failure, and echoed a scope whose family does not fit the
      caller's own address. */
  lemma NextAtMostTwice(c: Config, steps: seq<Step>, f: nat, g: nat)
    requires f < g < |Run(c, steps).fetches|
    requires Run(c, steps).fetches[f].task == Run(c, steps).fetches[g].task
    ensures var x := Run(c, steps).fetches[f];
            && x.msg.Some? && x.ip.Some? && x.msg.value.subnet.Some?
            && Cacheable(x.msg.value) && x.msg.value.typ != ServerError
            && !Fits(x.ip.value, ScopeOnes(x.msg.value.subnet.value), ScopeBits(x.msg.value.subnet.value))
    ensures forall h :: 0 <= h < |Run(c, steps).fetches| && Run(c, steps).fetches[h].task == Run(c, steps).fetches[f].task
              ==> h == f || h == g
  {
    RunLeaders(c, steps);
    RunInv(c, steps);
    var s := Run(c, steps);
    assert PairOk(s, f, g) && FetchOk(c, s.epoch, s.fetches[f]);
    OwnResultApplies(s.fetches[f].msg.value, s.fetches[f].ip.value, c.failTTL);
    SpentIsFirst(s, f);
    AddressIsLast(s, g);
    forall h | f < h < g ensures s.fetches[h].task != s.fetches[f].task {
      assert PairOk(s, f, h) && PairOk(s, h, g);
    }
  }

  /** Once, when every upstream answer echoes its asker's own address family. */
  lemma NextAtMostOnce(c: Config, steps: seq<Step>, f: nat, g: nat)
    requires f < g < |Run(c, steps).fetches|
    requires var x := Run(c, steps).fetches[f];
             x.msg.Some? && x.msg.value.subnet.Some? && x.ip.Some? ==> (x.msg.value.subnet.value.family == 2 <==> x.ip.value.V6?)
    ensures Run(c, steps).fetches[f].task != Run(c, steps).fetches[g].task
  {
    var x := Run(c, steps).fetches[f];
    if Run(c, steps).fetches[g].task == x.task {
      NextAtMostTwice(c, steps, f, g);
      OwnFamilyApplies(x.msg.value, x.ip.value, c.failTTL);
      OwnResultApplies(x.msg.value, x.ip.value, c.failTTL);
    }
  }

  // ---- The limits of both guarantees ----

  lemma Extend(c: Config, steps: seq<Step>, a: Step) returns (more: seq<Step>)
    requires Enabled(c, Run(c, steps), a)
    ensures more == steps + [a] && Run(c, more) == Apply(c, Run(c, steps), a)
  {
    more := steps + [a];
    assert more[..|more| - 1] == steps;
  }

  /** A requester arriving to an empty cache reaches the call. */
  lemma Approach(c: Config, steps: seq<Step>, ip: Addr, q: Query) returns (more: seq<Step>)
    requires Run(c, steps).direct == map[] && Run(c, steps).scoped == map[]
    ensures var s := Run(c, steps);
            Run(c, more) == s.(tasks := s.tasks + [Task(true, Some(ip), q, 0, AtCall(false))])
  {
    var t := |Run(c, steps).tasks|;
    more := Extend(c, steps, Arrive(Some(ip), q, 0));
    more := Extend(c, more, TryScoped(t, 0));
    more := Extend(c, more, TryDirect(t, 0));
  }

  /** The first requester leads a call that the upstream answers with m. */
  lemma LeadToAnswer(c: Config, ip: Addr, q: Query, m: Msg) returns (steps: seq<Step>)
    ensures var d := DirectKey(BucketOf(c, Some(ip)), q);
            var x := Fetch(0, ForBucket(d), Some(ip), 0, Some(0), None, Asking);
            Run(c, steps) == State(0, map[], map[], [Answered(c, x, Some(m), false)], map[ForBucket(d) := 0],
                                   [Task(true, Some(ip), q, 0, Waiting(0, false))], [])
  {
    steps := Approach(c, [], ip, q);
    steps := Extend(c, steps, Call(0));
    steps := Extend(c, steps, ReadGeneration(0));
    steps := Extend(c, steps, Answer(0, Some(m), false));
  }

  /** An answer that is not cacheable is shared with the whole bucket whatever scope it echoes:
      for every such answer and every two addresses of one bucket some run hands the answer
      fetched for one to the other. */
  lemma UncacheableIsShared(c: Config, q: Query, m: Msg, a: Addr, b: Addr) returns (steps: seq<Step>)
    requires !Cacheable(m) && BucketOf(c, Some(a)) == BucketOf(c, Some(b))
    ensures var s := Run(c, steps);
            && |s.tasks| == 2 && s.tasks[1].ip == Some(b) && s.tasks[1].stage == Served(0)
            && |s.fetches| == 1 && s.fetches[0].ip == Some(a) && s.fetches[0].msg == Some(m)
  {
    steps := LeadToAnswer(c, a, q, m);
    steps := Approach(c, steps, b, q);
    steps := Extend(c, steps, Call(1));
    steps := Extend(c, steps, Release(0));
    steps := Extend(c, steps, Wake(1));
  }

  /** An echoed family that does not fit the caller does cost a second upstream call: for every
      such answer some run has one request leading two. */
  lemma MisfitCallsTwice(c: Config, q: Query, m: Msg, ip: Addr) returns (steps: seq<Step>)
    requires Cacheable(m) && m.typ != ServerError && m.subnet.Some?
    requires !Fits(ip, ScopeOnes(m.subnet.value), ScopeBits(m.subnet.value))
    ensures var s := Run(c, steps);
            |s.fetches| == 2 && s.fetches[0].task == s.fetches[1].task == 0 && s.fetches[0].msg == Some(m)
  {
    OwnResultApplies(m, ip, c.failTTL);
    SharePrefixExactly(m, Some(ip), c.failTTL);
    steps := LeadToAnswer(c, ip, q, m);
    steps := StoreAndReturn(c, steps);
    steps := Extend(c, steps, Release(0));
    steps := Extend(c, steps, Wake(0));
    steps := Extend(c, steps, Call(0));
  }

  /** A single answer worth storing is stored and returned; nothing else moves. */
  lemma StoreAndReturn(c: Config, steps: seq<Step>) returns (more: seq<Step>)
    requires var s := Run(c, steps);
             |s.fetches| == 1 && s.fetches[0].phase.Deciding? && s.fetches[0].msg.Some? && s.fetches[0].gen == Some(s.epoch)
    ensures var s := Run(c, steps); var u := Run(c, more);
            && u.tasks == s.tasks && u.flights == s.flights
            && u.fetches == [s.fetches[0].(phase := Returned(Result(c, s.fetches[0])))]
  {
    more := Extend(c, steps, CheckEpoch(0));
    more := Extend(c, more, StoreAnswer(0, {}));
  }
}
