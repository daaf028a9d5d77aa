/** The cache as a concurrent system: clients, background refreshes, coalesced upstream calls and
    flushes, interleaved in any order at the grain of their locked steps. */
module CacheProtocol {
  import opened Common
  import opened IpNets
  import opened VlanTable
  import opened CacheEntry
  import opened CacheStore
  import opened CachePolicy

  datatype Config = Config(table: Table, prefetch: bool, staleTTL: int, failTTL: int)

  datatype Query = Query(qname: string, qtype: nat, do: bool, cd: bool)

  datatype DirectKey = DirectKey(bucket: string, query: Query)

  /** The two kinds of coalescing key; CacheKeys shows their text forms never meet. */
  datatype FlightKey = ForBucket(d: DirectKey) | ForAddress(d: DirectKey, ip: Addr)

  /** The shared outcome of an upstream call: the response and the prefix it is limited to. */
  datatype Outcome = NoAnswer | Shared(msg: Msg, prefix: Option<Net>)

  /** One run of the coalesced closure. The generation and the answer stay on record. */
  datatype Phase = Started | Asking | Deciding | Storing | Returned(outcome: Outcome) | Finished(outcome: Outcome)

  datatype Fetch = Fetch(task: nat, key: FlightKey, ip: Option<Addr>, now: int,
                         gen: Option<nat>, msg: Option<Msg>, phase: Phase)

  datatype Stage =
    | AtScoped
    | AtDirect
    | AtCall(second: bool)
    | Waiting(fetch: nat, second: bool)
    | Served(fetch: nat)
    | Failed
    | Ended

  /** A ServeDNS call, or a refresh running behind one. */
  datatype Task = Task(client: bool, ip: Option<Addr>, query: Query, now: int, stage: Stage)

  datatype FlushStage = Opened | Walking(left: set<DirectKey>) | Done

  datatype Flush = Flush(name: Option<string>, epoch: nat, stage: FlushStage)

  datatype State = State(epoch: nat, direct: map<DirectKey, Entry>, scoped: map<Query, ScopedList>,
                         fetches: seq<Fetch>, flights: map<FlightKey, nat>, tasks: seq<Task>, flushes: seq<Flush>)

  const INITIAL := State(0, map[], map[], [], map[], [], [])

  datatype Step =
    | Arrive(ip: Option<Addr>, query: Query, now: int)
    | TryScoped(task: nat, later: int)
    | TryDirect(task: nat, later: int)
    | Call(task: nat)
    | ReadGeneration(fetch: nat)
    | Answer(fetch: nat, reply: Option<Msg>, failed: bool)
    | CheckEpoch(fetch: nat)
    | StoreAnswer(fetch: nat, evicted: set<DirectKey>)
    | Release(fetch: nat)
    | Wake(task: nat)
    | Invalidate(name: Option<string>)
    | SnapshotKeys(flush: nat)
    | WalkKey(flush: nat, key: DirectKey)
    | SweepScoped(flush: nat)

  // ---- Lookups ----

  function BucketOf(c: Config, ip: Option<Addr>): string {
    Lookup(c.table, ip).GetOr("")
  }

  function DirectKeyOf(c: Config, t: Task): DirectKey {
    DirectKey(BucketOf(c, t.ip), t.query)
  }

  function ScopedAt(s: State, q: Query): ScopedList {
    ListAt(s.scoped, q)
  }

  /** getScoped's hit, if any. */
  function ScopedHit(c: Config, s: State, t: Task): (r: Option<ScopedEntry>)
    ensures r.Some? ==> t.ip.Some? && r.value in ScopedAt(s, t.query) && Candidate(r.value, t.ip.value, t.now, c.staleTTL)
  {
    if t.ip.None? then None
    else
      var l := ScopedAt(s, t.query);
      var k := Best(l, t.ip.value, t.now, c.staleTTL);
      if k.Some? then Some(l[k.value]) else None
  }

  /** getDirect's hit, if any. */
  function DirectHit(c: Config, s: State, t: Task): Option<Entry> {
    var k := DirectKeyOf(c, t);
    if k in s.direct && Usable(s.direct[k], t.now, c.staleTTL) then Some(s.direct[k]) else None
  }

  /** onHit: does a hit also start a refresh? */
  predicate Refreshes(c: Config, e: Entry, now: int) {
    !Fresh(e, now) || (c.prefetch && NearExpiry(e, now))
  }

  // ---- Steps ----

  function SetTask(s: State, t: nat, stage: Stage): State
    requires t < |s.tasks|
  {
    s.(tasks := s.tasks[t := s.tasks[t].(stage := stage)])
  }

  function SetFetch(s: State, f: nat, x: Fetch): State
    requires f < |s.fetches|
  {
    s.(fetches := s.fetches[f := x])
  }

  function SetFlush(s: State, k: nat, stage: FlushStage): State
    requires k < |s.flushes|
  {
    s.(flushes := s.flushes[k := s.flushes[k].(stage := stage)])
  }

  /** Serving a cached entry, with the refresh it may start. */
  function Hit(c: Config, s: State, t: nat, e: Entry, later: int): (u: State)
    requires t < |s.tasks|
    ensures u == s.(tasks := u.tasks)
  {
    var served := SetTask(s, t, Served(e.origin));
    if Refreshes(c, e, s.tasks[t].now)
    then served.(tasks := served.tasks + [Task(false, s.tasks[t].ip, s.tasks[t].query, later, AtCall(false))])
    else served
  }

  function KeyFor(c: Config, t: Task, second: bool): FlightKey
    requires second ==> t.ip.Some?
  {
    if second then ForAddress(DirectKeyOf(c, t), t.ip.value) else ForBucket(DirectKeyOf(c, t))
  }

  /** singleflight.Do: join the running call for the key, or start one. */
  function DoCall(c: Config, s: State, t: nat, second: bool): State
    requires t < |s.tasks| && (second ==> s.tasks[t].ip.Some?)
  {
    var k := KeyFor(c, s.tasks[t], second);
    if k in s.flights then SetTask(s, t, Waiting(s.flights[k], second))
    else
      var f := |s.fetches|;
      SetTask(s.(fetches := s.fetches + [Fetch(t, k, s.tasks[t].ip, s.tasks[t].now, None, None, Started)],
                 flights := s.flights[k := f]), t, Waiting(f, second))
  }

  /** The next plugin has returned: an error for the waiters, or a response to place. */
  function Answered(c: Config, x: Fetch, reply: Option<Msg>, failed: bool): Fetch {
    if reply.None? && !failed then x.(phase := Returned(NoAnswer))
    else
      var m := reply.GetOr(SynthesizedFailure);
      var y := x.(msg := Some(m));
      if Place(m, x.ip, c.failTTL).Nowhere? then y.(phase := Returned(Shared(m, None))) else y.(phase := Deciding)
  }

  function Result(c: Config, x: Fetch): Outcome
    requires x.msg.Some?
  {
    Shared(x.msg.value, SharePrefix(x.msg.value, x.ip, c.failTTL))
  }

  /** The store made under the epoch lock. */
  function Stored(c: Config, s: State, f: nat, evicted: set<DirectKey>): (u: State)
    requires f < |s.fetches| && s.fetches[f].msg.Some?
    ensures u == s.(direct := u.direct, scoped := u.scoped)
  {
    var x := s.fetches[f];
    var d := x.key.d;
    match Place(x.msg.value, x.ip, c.failTTL)
    case Nowhere => s
    case Direct(ttl) =>
      s.(direct := s.direct[d := EntryOf(f, d.query.qname, x.msg.value, x.now, ttl)] - (evicted - {d}))
    case Scoped(prefix, ttl) =>
      s.(scoped := s.scoped[d.query := Put(ScopedAt(s, d.query), prefix,
                                           EntryOf(f, d.query.qname, x.msg.value, x.now, ttl))])
  }

  /** A caller is handed the finished call's outcome. A client that a bucket-wide result does not
      cover calls again under its own address; nothing is checked after that second call. */
  function Woken(t: Task, fetch: nat, second: bool, o: Outcome): Stage {
    if !t.client then Ended
    else match o
      case NoAnswer => Failed
      case Shared(_, prefix) => if second || AppliesTo(prefix, t.ip) then Served(fetch) else AtCall(true)
  }

  predicate EpochLockHeld(s: State) {
    exists f :: 0 <= f < |s.fetches| && s.fetches[f].phase.Storing?
  }

  predicate Enabled(c: Config, s: State, a: Step) {
    match a
    case Arrive(_, _, _) => true
    case TryScoped(t, _) => t < |s.tasks| && s.tasks[t].stage.AtScoped?
    case TryDirect(t, _) => t < |s.tasks| && s.tasks[t].stage.AtDirect?
    case Call(t) => t < |s.tasks| && s.tasks[t].stage.AtCall? && (s.tasks[t].stage.second ==> s.tasks[t].ip.Some?)
    case ReadGeneration(f) => f < |s.fetches| && s.fetches[f].phase.Started?
    case Answer(f, _, _) => f < |s.fetches| && s.fetches[f].phase.Asking?
    case CheckEpoch(f) => f < |s.fetches| && s.fetches[f].phase.Deciding? && s.fetches[f].msg.Some?
    case StoreAnswer(f, _) => f < |s.fetches| && s.fetches[f].phase.Storing? && s.fetches[f].msg.Some?
    case Release(f) => f < |s.fetches| && s.fetches[f].phase.Returned?
    case Wake(t) =>
      && t < |s.tasks| && s.tasks[t].stage.Waiting?
      && s.tasks[t].stage.fetch < |s.fetches| && s.fetches[s.tasks[t].stage.fetch].phase.Finished?
    case Invalidate(_) => !EpochLockHeld(s)
    case SnapshotKeys(k) => k < |s.flushes| && s.flushes[k].stage.Opened?
    case WalkKey(k, key) => k < |s.flushes| && s.flushes[k].stage.Walking? && key in s.flushes[k].stage.left
    case SweepScoped(k) => k < |s.flushes| && s.flushes[k].stage == Walking({})
  }

  function Apply(c: Config, s: State, a: Step): State
    requires Enabled(c, s, a)
  {
    match a
    case Arrive(ip, query, now) => s.(tasks := s.tasks + [Task(true, ip, query, now, AtScoped)])
    case TryScoped(t, later) =>
      var hit := ScopedHit(c, s, s.tasks[t]);
      if hit.Some? then Hit(c, s, t, hit.value.e, later) else SetTask(s, t, AtDirect)
    case TryDirect(t, later) =>
      var hit := DirectHit(c, s, s.tasks[t]);
      if hit.Some? then Hit(c, s, t, hit.value, later) else SetTask(s, t, AtCall(false))
    case Call(t) => DoCall(c, s, t, s.tasks[t].stage.second)
    case ReadGeneration(f) => SetFetch(s, f, s.fetches[f].(gen := Some(s.epoch), phase := Asking))
    case Answer(f, reply, failed) => SetFetch(s, f, Answered(c, s.fetches[f], reply, failed))
    case CheckEpoch(f) =>
      var x := s.fetches[f];
      SetFetch(s, f, x.(phase := if x.gen == Some(s.epoch) then Storing else Returned(Result(c, x))))
    case StoreAnswer(f, evicted) =>
      var x := s.fetches[f];
      SetFetch(Stored(c, s, f, evicted), f, x.(phase := Returned(Result(c, x))))
    case Release(f) =>
      var x := s.fetches[f];
      SetFetch(s.(flights := s.flights - {x.key}), f, x.(phase := Finished(x.phase.outcome)))
    case Wake(t) =>
      var w := s.tasks[t].stage;
      SetTask(s, t, Woken(s.tasks[t], w.fetch, w.second, s.fetches[w.fetch].phase.outcome))
    case Invalidate(name) =>
      s.(epoch := s.epoch + 1, flushes := s.flushes + [Flush(name, s.epoch + 1, Opened)])
    case SnapshotKeys(k) => SetFlush(s, k, Walking(s.direct.Keys))
    case WalkKey(k, key) =>
      var u := SetFlush(s, k, Walking(s.flushes[k].stage.left - {key}));
      if key in s.direct && Targets(s.flushes[k].name, s.direct[key]) then u.(direct := s.direct - {key}) else u
    case SweepScoped(k) => SetFlush(s.(scoped := KeptTier(s.scoped, s.flushes[k].name)), k, Done)
  }

  /** Any interleaving is a sequence of steps; one that is not possible does nothing. */
  function Run(c: Config, steps: seq<Step>): State {
    if steps == [] then INITIAL
    else
      var s := Run(c, steps[..|steps| - 1]);
      var a := steps[|steps| - 1];
      if Enabled(c, s, a) then Apply(c, s, a) else s
  }
}
