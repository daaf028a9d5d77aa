/** The flush epoch: what a finished flush guarantees in every interleaving. */
module FlushEpoch {
  import opened Common
  import opened IpNets
  import opened VlanTable
  import opened CacheEntry
  import opened CacheStore
  import opened CachePolicy
  import opened CacheProtocol
  import opened CacheSafety

  /** The entry's fetch read its generation before the flush opened its epoch. */
  ghost predicate Outdated(fetches: seq<Fetch>, e: Entry, epoch: nat) {
    e.origin < |fetches| && fetches[e.origin].gen.Some? && fetches[e.origin].gen.value < epoch
  }

  /** An entry the flush is after. */
  ghost predicate Doomed(fetches: seq<Fetch>, e: Entry, x: Flush) {
    Targets(x.name, e) && Outdated(fetches, e, x.epoch)
  }

  /** How far a flush has got: entries it is after lie only among the keys it has yet to walk,
      and in the scoped tier only until the sweep. */
  ghost predicate FlushOk(s: State, x: Flush) {
    && x.epoch <= s.epoch
    && match x.stage
       case Opened => true
       case Walking(left) => forall d :: d in s.direct && Doomed(s.fetches, s.direct[d], x) ==> d in left
       case Done =>
         && (forall d :: d in s.direct ==> !Doomed(s.fetches, s.direct[d], x))
         && (forall q, se :: q in s.scoped && se in s.scoped[q] ==> !Doomed(s.fetches, se.e, x))
  }

  /** Flush k opened epoch k + 1. */
  ghost predicate FlushesOk(s: State) {
    && s.epoch == |s.flushes|
    && forall k :: 0 <= k < |s.flushes| ==> s.flushes[k].epoch == k + 1 && FlushOk(s, s.flushes[k])
  }

  /** Every stored entry comes from a fetch that has read its generation. */
  ghost predicate Dated(s: State) {
    && (forall d :: d in s.direct ==> Has(s.fetches, s.direct[d]))
    && (forall q, se :: q in s.scoped && se in s.scoped[q] ==> Has(s.fetches, se.e))
  }

  ghost predicate Has(fetches: seq<Fetch>, e: Entry) {
    e.origin < |fetches| && fetches[e.origin].gen.Some?
  }

  lemma CacheIsDated(c: Config, s: State)
    requires FetchesOk(c, s) && CacheOk(c, s)
    ensures Dated(s)
  {
    forall d | d in s.direct ensures Has(s.fetches, s.direct[d]) {
      assert DirectOk(c, s.fetches, d, s.direct[d]);
      assert FetchOk(c, s.epoch, s.fetches[s.direct[d].origin]);
    }
    forall q, se | q in s.scoped && se in s.scoped[q] ensures Has(s.fetches, se.e) {
      assert ScopedOk(c, s.fetches, q, se);
      assert FetchOk(c, s.epoch, s.fetches[se.e.origin]);
    }
  }

  lemma DoomedStays(a: seq<Fetch>, b: seq<Fetch>, e: Entry, x: Flush)
    requires Grown(a, b) && Has(a, e)
    ensures Doomed(b, e, x) <==> Doomed(a, e, x)
  {
  }

  /** A step that leaves the tiers alone, or only removes from the direct one, keeps a flush that
      it does not advance. */
  lemma FlushKept(s: State, u: State, x: Flush)
    requires FlushOk(s, x) && Dated(s) && Grown(s.fetches, u.fetches) && s.epoch <= u.epoch
    requires u.direct.Keys <= s.direct.Keys && forall d :: d in u.direct ==> u.direct[d] == s.direct[d]
    requires forall q, se :: q in u.scoped && se in u.scoped[q] ==> q in s.scoped && se in s.scoped[q]
    ensures FlushOk(u, x)
  {
    forall d | d in u.direct && Doomed(u.fetches, u.direct[d], x) ensures Doomed(s.fetches, s.direct[d], x) {
      DoomedStays(s.fetches, u.fetches, s.direct[d], x);
    }
    if x.stage.Done? {
      forall q, se | q in u.scoped && se in u.scoped[q] ensures !Doomed(u.fetches, se.e, x) {
        DoomedStays(s.fetches, u.fetches, se.e, x);
      }
    }
  }

  /** A guarded store is made at the current epoch, so no flush so far is after it. */
  lemma StoreKept(c: Config, s: State, f: nat, evicted: set<DirectKey>, x: Flush)
    requires FlushOk(s, x) && f < |s.fetches| && s.fetches[f].msg.Some? && s.fetches[f].gen == Some(s.epoch)
    ensures FlushOk(Stored(c, s, f, evicted), x)
  {
    var y := s.fetches[f];
    var u := Stored(c, s, f, evicted);
    match Place(y.msg.value, y.ip, c.failTTL) {
      case Nowhere =>
      case Direct(ttl) =>
        assert !Doomed(u.fetches, u.direct[y.key.d], x);
      case Scoped(prefix, ttl) =>
        var e := EntryOf(f, y.key.d.query.qname, y.msg.value, y.now, ttl);
        assert !Doomed(u.fetches, e, x);
        PutMembers(ScopedAt(s, y.key.d.query), prefix, e);
    }
  }

  lemma PutMembers(l: ScopedList, prefix: Net, e: Entry)
    ensures forall x :: x in Put(l, prefix, e) ==> x == ScopedEntry(prefix, e) || x in l
  {
  }

  lemma WalkKeyKept(c: Config, s: State, k: nat, key: DirectKey)
    requires FlushesOk(s) && Dated(s) && Enabled(c, s, WalkKey(k, key))
    ensures FlushOk(Apply(c, s, WalkKey(k, key)), Apply(c, s, WalkKey(k, key)).flushes[k])
  {
    var u := Apply(c, s, WalkKey(k, key));
    var left := s.flushes[k].stage.left;
    assert FlushOk(s, s.flushes[k]);
    forall d | d in u.direct && Doomed(u.fetches, u.direct[d], u.flushes[k]) ensures d in left - {key} {
      assert d in s.direct && Doomed(s.fetches, s.direct[d], s.flushes[k]);
    }
  }

  lemma SweepKept(c: Config, s: State, k: nat)
    requires FlushesOk(s) && Dated(s) && Enabled(c, s, SweepScoped(k))
    ensures FlushOk(Apply(c, s, SweepScoped(k)), Apply(c, s, SweepScoped(k)).flushes[k])
  {
    var x := s.flushes[k];
    var u := Apply(c, s, SweepScoped(k));
    forall q, se | q in u.scoped && se in u.scoped[q] ensures !Targets(x.name, se.e) {
      assert se in Kept(s.scoped[q], x.name);
    }
  }

  /** Every flush but the one a step advances, for a step that stores nothing. */
  lemma OthersKept(s: State, u: State, n: nat)
    requires FlushesOk(s) && Dated(s) && Grown(s.fetches, u.fetches) && s.epoch <= u.epoch
    requires u.direct.Keys <= s.direct.Keys && forall d :: d in u.direct ==> u.direct[d] == s.direct[d]
    requires forall q, se :: q in u.scoped && se in u.scoped[q] ==> q in s.scoped && se in s.scoped[q]
    requires n <= |s.flushes|
    ensures forall k :: 0 <= k < n ==> FlushOk(u, s.flushes[k])
  {
    forall k | 0 <= k < n ensures FlushOk(u, s.flushes[k]) {
      FlushKept(s, u, s.flushes[k]);
    }
  }

  lemma StoreStep(c: Config, s: State, f: nat, evicted: set<DirectKey>)
    requires FlushesOk(s) && FetchesOk(c, s) && CacheOk(c, s) && Enabled(c, s, StoreAnswer(f, evicted))
    ensures FlushesOk(Apply(c, s, StoreAnswer(f, evicted)))
  {
    var m := Stored(c, s, f, evicted);
    var u := Apply(c, s, StoreAnswer(f, evicted));
    assert FetchOk(c, s.epoch, s.fetches[f]);
    StoreOk(c, s, f, evicted);
    CacheIsDated(c, m);
    FetchesStep(c, s, StoreAnswer(f, evicted));
    forall k | 0 <= k < |s.flushes| ensures FlushOk(u, s.flushes[k]) {
      StoreKept(c, s, f, evicted, s.flushes[k]);
      FlushKept(m, u, s.flushes[k]);
    }
  }

  lemma SweptMembers(m: map<Query, ScopedList>, name: Option<string>)
    ensures forall q, se :: q in KeptTier(m, name) && se in KeptTier(m, name)[q] ==> q in m && se in m[q]
  {
  }

  lemma SweepStep(c: Config, s: State, k: nat)
    requires FlushesOk(s) && Dated(s) && Enabled(c, s, SweepScoped(k))
    ensures FlushesOk(Apply(c, s, SweepScoped(k)))
  {
    SweptMembers(s.scoped, s.flushes[k].name);
    OthersKept(s, Apply(c, s, SweepScoped(k)), |s.flushes|);
    SweepKept(c, s, k);
  }

  lemma WalkStep(c: Config, s: State, k: nat, key: DirectKey)
    requires FlushesOk(s) && Dated(s) && Enabled(c, s, WalkKey(k, key))
    ensures FlushesOk(Apply(c, s, WalkKey(k, key)))
  {
    OthersKept(s, Apply(c, s, WalkKey(k, key)), |s.flushes|);
    WalkKeyKept(c, s, k, key);
  }

  lemma SnapshotStep(c: Config, s: State, k: nat)
    requires FlushesOk(s) && Dated(s) && Enabled(c, s, SnapshotKeys(k))
    ensures FlushesOk(Apply(c, s, SnapshotKeys(k)))
  {
    OthersKept(s, Apply(c, s, SnapshotKeys(k)), |s.flushes|);
  }

  lemma InvalidateStep(c: Config, s: State, name: Option<string>)
    requires FlushesOk(s) && Dated(s) && Enabled(c, s, Invalidate(name))
    ensures FlushesOk(Apply(c, s, Invalidate(name)))
  {
    OthersKept(s, Apply(c, s, Invalidate(name)), |s.flushes|);
  }

  /** The steps of clients and calls other than the guarded store. */
  ghost predicate OffTiers(a: Step) {
    !a.StoreAnswer? && !a.SweepScoped? && !a.WalkKey? && !a.SnapshotKeys? && !a.Invalidate?
  }

  lemma TiersUntouched(c: Config, s: State, a: Step)
    requires Enabled(c, s, a) && OffTiers(a)
    ensures Apply(c, s, a).direct == s.direct && Apply(c, s, a).scoped == s.scoped
    ensures Apply(c, s, a).flushes == s.flushes && Apply(c, s, a).epoch == s.epoch
  {
  }

  lemma FlushesStep(c: Config, s: State, a: Step)
    requires FlushesOk(s) && FetchesOk(c, s) && CacheOk(c, s) && Enabled(c, s, a)
    ensures FlushesOk(Apply(c, s, a))
  {
    CacheIsDated(c, s);
    if OffTiers(a) {
      TiersUntouched(c, s, a);
      FetchesStep(c, s, a);
      OthersKept(s, Apply(c, s, a), |s.flushes|);
    } else {
      match a {
        case StoreAnswer(f, evicted) => StoreStep(c, s, f, evicted);
        case SweepScoped(k) => SweepStep(c, s, k);
        case WalkKey(k, key) => WalkStep(c, s, k, key);
        case SnapshotKeys(k) => SnapshotStep(c, s, k);
        case Invalidate(name) => InvalidateStep(c, s, name);
      }
    }
  }

  /** Apart from storing, which may replace or evict, a step takes out of the direct tier only an entry
      that a flush is after, and out of the scoped tier exactly what its flush is after. */
  lemma OnlyTargetsGo(c: Config, s: State, a: Step)
    requires Enabled(c, s, a) && !a.StoreAnswer?
    ensures var u := Apply(c, s, a);
            && (forall d :: d in u.direct ==> d in s.direct && u.direct[d] == s.direct[d])
            && (forall d :: d in s.direct && d !in u.direct ==> a.WalkKey? && d == a.key && Targets(s.flushes[a.flush].name, s.direct[d]))
    ensures var u := Apply(c, s, a);
            forall q, se :: q in s.scoped && se in s.scoped[q] ==>
              (q in u.scoped && se in u.scoped[q] <==> !(a.SweepScoped? && Targets(s.flushes[a.flush].name, se.e)))
  {
    if a.SweepScoped? {
      forall q, se | q in s.scoped && se in s.scoped[q]
        ensures q in KeptTier(s.scoped, s.flushes[a.flush].name) && se in KeptTier(s.scoped, s.flushes[a.flush].name)[q]
           <==> !Targets(s.flushes[a.flush].name, se.e)
      {
        assert se in Kept(s.scoped[q], s.flushes[a.flush].name) <==> !Targets(s.flushes[a.flush].name, se.e);
      }
    } else {
      OffTiersOk(c, s, a);
    }
  }

  // ---- Runs ----

  ghost predicate Inv(c: Config, s: State) {
    FetchesOk(c, s) && TasksOk(c, s) && CacheOk(c, s) && FlushesOk(s)
  }

  lemma {:induction false} RunInv(c: Config, steps: seq<Step>)
    ensures Inv(c, Run(c, steps))
  {
    if steps != [] {
      var before := steps[..|steps| - 1];
      var s := Run(c, before);
      var a := steps[|steps| - 1];
      RunInv(c, before);
      if Enabled(c, s, a) {
        FetchesStep(c, s, a);
        TasksStep(c, s, a);
        CacheStep(c, s, a);
        FlushesStep(c, s, a);
      }
    }
  }

  /** The generation read by the fetch an entry comes from. */
  ghost function GenerationOf(s: State, e: Entry): Option<nat> {
    if e.origin < |s.fetches| then s.fetches[e.origin].gen else None
  }

  /** In every interleaving, once a flush has finished, whatever is still stored among what it was
      after (everything, or what depends on its name) comes from a fetch that read its
      generation in the flush's epoch or a later one. */
  lemma FinishedFlushIsFinal(c: Config, steps: seq<Step>, k: nat)
    requires k < |Run(c, steps).flushes| && Run(c, steps).flushes[k].stage.Done?
    ensures var s := Run(c, steps);
            var x := s.flushes[k];
            && (forall d :: d in s.direct && Targets(x.name, s.direct[d]) ==>
                  GenerationOf(s, s.direct[d]).Some? && GenerationOf(s, s.direct[d]).value >= x.epoch)
            && (forall q, se :: q in s.scoped && se in s.scoped[q] && Targets(x.name, se.e) ==>
                  GenerationOf(s, se.e).Some? && GenerationOf(s, se.e).value >= x.epoch)
  {
    RunInv(c, steps);
    var s := Run(c, steps);
    CacheIsDated(c, s);
    assert FlushOk(s, s.flushes[k]);
    forall d | d in s.direct && Targets(s.flushes[k].name, s.direct[d])
      ensures GenerationOf(s, s.direct[d]).Some? && GenerationOf(s, s.direct[d]).value >= s.flushes[k].epoch
    {
      assert Has(s.fetches, s.direct[d]);
    }
    forall q, se | q in s.scoped && se in s.scoped[q] && Targets(s.flushes[k].name, se.e)
      ensures GenerationOf(s, se.e).Some? && GenerationOf(s, se.e).value >= s.flushes[k].epoch
    {
      assert Has(s.fetches, se.e);
    }
  }

  /** An answer worth storing is dropped exactly when a flush has opened since its fetch read the
      generation: the epoch is the number of flushes so far. */
  lemma DroppedExactlyWhenFlushed(c: Config, steps: seq<Step>, f: nat)
    requires Enabled(c, Run(c, steps), CheckEpoch(f))
    ensures var s := Run(c, steps);
            var x := s.fetches[f];
            && x.gen.Some? && x.gen.value <= |s.flushes|
            && (Apply(c, s, CheckEpoch(f)).fetches[f].phase.Storing? <==> x.gen.value == |s.flushes|)
  {
    RunInv(c, steps);
    assert FetchOk(c, Run(c, steps).epoch, Run(c, steps).fetches[f]);
  }

  /** No flush can open between the epoch check and the store it allows. */
  lemma StoreIsCurrent(c: Config, steps: seq<Step>, f: nat)
    requires f < |Run(c, steps).fetches| && Run(c, steps).fetches[f].phase.Storing?
    ensures Run(c, steps).fetches[f].gen == Some(|Run(c, steps).flushes|)
  {
    RunInv(c, steps);
    assert FetchOk(c, Run(c, steps).epoch, Run(c, steps).fetches[f]);
  }

  /** Every scoped list of every run is bounded, with distinct prefixes. */
  lemma ScopedListsBounded(c: Config, steps: seq<Step>, q: Query)
    requires q in Run(c, steps).scoped
    ensures ListOk(Run(c, steps).scoped[q])
  {
    RunInv(c, steps);
  }
}
