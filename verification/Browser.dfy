/** The synchronous core of one service browse: messages and clock ticks in, queries and
    add/remove events out. */
module Browser {
  import opened Common
  import opened Strings
  import opened RefreshCache

  // ---- A parsed message ----

  /** A PTR answer; its TTL arrives in whole seconds, and zero is a goodbye. */
  datatype Ptr = Ptr(name: string, target: string, seconds: nat)
  datatype Srv = Srv(name: string, target: string)
  datatype Txt = Txt(name: string, text: map<string, string>)
  datatype Address = Address(name: string, ip: string)

  datatype Message = Message(ptrs: seq<Ptr>, srvs: seq<Srv>, txts: seq<Txt>, as4: seq<Address>, as6: seq<Address>)

  datatype Entry = Entry(host: string, instance: string, typ: string, domain: string, txt: map<string, string>,
                         ipv4: seq<string>, ipv6: seq<string>, iface: string, ttl: nat)

  type Entries = map<string, Entry>

  function TTL(p: Ptr): nat { p.seconds * SECOND }

  function WireOf(p: Ptr): WirePtr { WirePtr(p.name, p.target, p.seconds) }

  /** splitServiceQuestion. */
  function SplitQuestion(question: string): (string, string) {
    if TrimSuffix(question, ".local.") != question then (TrimSuffix(question, ".local."), "local")
    else (TrimSuffix(question, "."), "")
  }

  function InstanceLabel(instance: string, question: string): string {
    TrimSuffix(TrimSuffix(instance, question), ".")
  }

  predicate Resolvable(e: Entry) {
    e.host != "" && |e.ipv4| + |e.ipv6| != 0
  }

  // ---- What a message does, record by record ----

  /** A browse in the middle of a message: its two maps, the removals so far and the instances
      touched so far. */
  datatype Work = Work(records: Records, entries: Entries, removed: seq<(string, Entry)>, touched: set<string>)

  function Fresh(instance: string, question: string, iface: string): Entry {
    var (typ, domain) := SplitQuestion(question);
    Entry("", InstanceLabel(instance, question), typ, domain, map[], [], [], iface, 0)
  }

  function OnPtr(question: string, w: Work, p: Ptr, iface: string, now: int): Work {
    if p.name != question then w
    else if TTL(p) == 0 then
      w.(records := w.records - {p.target}, entries := w.entries - {p.target},
         removed := if p.target in w.entries then w.removed + [(p.target, w.entries[p.target])] else w.removed)
    else
      var e := if p.target in w.entries then w.entries[p.target] else Fresh(p.target, question, iface);
      w.(records := w.records[p.target := CacheRecord(Some(WireOf(p)), question, TTL(p), now, 0)],
         entries := w.entries[p.target := e.(ttl := TTL(p))],
         touched := w.touched + {p.target})
  }

  function OnPtrs(question: string, w: Work, ps: seq<Ptr>, iface: string, now: int): Work {
    if ps == [] then w
    else OnPtr(question, OnPtrs(question, w, ps[..|ps| - 1], iface, now), ps[|ps| - 1], iface, now)
  }

  function OnSrv(w: Work, x: Srv): Work {
    if x.name !in w.entries then w
    else w.(entries := w.entries[x.name := w.entries[x.name].(host := TrimSuffix(x.target, "."))],
            touched := w.touched + {x.name})
  }

  function OnSrvs(w: Work, xs: seq<Srv>): Work {
    if xs == [] then w else OnSrv(OnSrvs(w, xs[..|xs| - 1]), xs[|xs| - 1])
  }

  function OnTxt(w: Work, x: Txt): Work {
    if x.name !in w.entries then w
    else w.(entries := w.entries[x.name := w.entries[x.name].(txt := x.text)], touched := w.touched + {x.name})
  }

  function OnTxts(w: Work, xs: seq<Txt>): Work {
    if xs == [] then w else OnTxt(OnTxts(w, xs[..|xs| - 1]), xs[|xs| - 1])
  }

  predicate At(e: Entry, x: Address) {
    e.host != "" && e.host == TrimSuffix(x.name, ".")
  }

  function AddAddress(e: Entry, x: Address, v6: bool): Entry {
    if v6 then e.(ipv6 := MergeOne(e.ipv6, x.ip)) else e.(ipv4 := MergeOne(e.ipv4, x.ip))
  }

  /** An address record reaches every instance on its host. */
  function OnAddress(w: Work, x: Address, v6: bool): Work {
    w.(entries := map k | k in w.entries :: if At(w.entries[k], x) then AddAddress(w.entries[k], x, v6) else w.entries[k],
       touched := w.touched + AllAt(w.entries, x))
  }

  function OnAddresses(w: Work, xs: seq<Address>, v6: bool): Work {
    if xs == [] then w else OnAddress(OnAddresses(w, xs[..|xs| - 1], v6), xs[|xs| - 1], v6)
  }

  function Ingested(question: string, records: Records, entries: Entries, m: Message, iface: string, now: int): Work {
    var w0 := OnPtrs(question, Work(records, entries, [], {}), m.ptrs, iface, now);
    OnAddresses(OnAddresses(OnTxts(OnSrvs(w0, m.srvs), m.txts), m.as4, false), m.as6, true)
  }

  /** The instances a message announces: touched, still there, and resolvable. */
  function Announced(w: Work): set<string> {
    set k | k in w.touched && k in w.entries && Resolvable(w.entries[k])
  }

  // ---- The browser ----

  /** The two maps of a browse agree. */
  ghost predicate Agree(question: string, records: Records, entries: Entries) {
    && records.Keys == entries.Keys
    && forall k :: k in records ==> RecordFits(question, k, records[k], entries[k])
  }

  ghost predicate RecordFits(question: string, k: string, r: CacheRecord, e: Entry) {
    && r.question == question
    && WholeTTL(r) && r.ttl == e.ttl
    && r.rr == Some(WirePtr(question, k, r.ttl / SECOND))
    && r.refreshesSent <= THRESHOLDS
    && e.instance == InstanceLabel(k, question)
  }

  /** An outgoing PTR query with its known-answer list. */
  datatype Query = Query(question: string, known: seq<WirePtr>, unicast: bool)

  function TimeLeft(r: CacheRecord, now: int): int { r.ttl - Elapsed(r, now) }

  predicate MoreThanHalf(r: CacheRecord, now: int) { 2 * TimeLeft(r, now) > r.ttl }

  /** A list offers exactly the records with more than half their TTL left, each for the whole seconds
      it has left, as a 32-bit count. */
  ghost predicate KnownList(question: string, known: seq<WirePtr>, records: Records, now: int) {
    && (forall x :: x in known ==>
          x.target in records && MoreThanHalf(records[x.target], now) && x == Left(question, x.target, records, now))
    && forall k :: k in records && MoreThanHalf(records[k], now) ==> Left(question, k, records, now) in known
  }

  /** A record as it is offered. */
  function Left(question: string, k: string, records: Records, now: int): WirePtr
    requires k in records && MoreThanHalf(records[k], now)
  {
    WirePtr(question, k, TimeLeft(records[k], now) / SECOND % 0x1_0000_0000)
  }

  lemma TickKeepsAgreement(question: string, records: Records, entries: Entries, now: int)
    requires Agree(question, records, entries)
    ensures Agree(question, Ticked(records, now), entries - ExpiredKeys(records, now))
  {
  }

  function SetOf(keys: seq<string>): set<string> {
    set k | k in keys
  }

  lemma ListedSet(keys: seq<string>, s: set<string>)
    requires Lists(keys, s)
    ensures SetOf(keys) == s
  {
  }

  lemma DueListed(keys: seq<string>, s: set<string>)
    requires Lists(keys, s)
    ensures keys == [] <==> s == {}
  {
    if keys != [] { assert keys[0] in s; }
  }

  lemma KnownListed(question: string, records: Records, entries: Entries, now: int,
                    listed: seq<KnownRecord>, keys: seq<string>, known: seq<WirePtr>)
    requires Agree(question, records, entries) && known == Offered(listed, question)
    requires Lists(keys, set k | k in records && records[k].question == question && records[k].rr.Some?)
    requires |listed| == |keys|
    requires forall i :: 0 <= i < |listed| ==>
               keys[i] in records && records[keys[i]].rr.Some? && listed[i] == KnownOf(records[keys[i]], now)
    ensures KnownList(question, known, records, now)
  {
    forall x | x in known
      ensures x.target in records && MoreThanHalf(records[x.target], now) && x == Left(question, x.target, records, now)
    {
      var i :| 0 <= i < |listed| && Qualifies(listed[i], question) && x == CutDown(listed[i]);
      OfferedAsLeft(question, records, entries, now, keys[i]);
    }
    forall k | k in records && MoreThanHalf(records[k], now) ensures Left(question, k, records, now) in known {
      assert k in keys;
      var i :| 0 <= i < |keys| && keys[i] == k;
      OfferedAsLeft(question, records, entries, now, k);
      assert CutDown(listed[i]) in known;
    }
  }

  lemma OfferedAsLeft(question: string, records: Records, entries: Entries, now: int, k: string)
    requires Agree(question, records, entries) && k in records && records[k].rr.Some?
    ensures Qualifies(KnownOf(records[k], now), question) <==> MoreThanHalf(records[k], now)
    ensures MoreThanHalf(records[k], now) ==> CutDown(KnownOf(records[k], now)) == Left(question, k, records, now)
  {
    assert RecordFits(question, k, records[k], entries[k]);
  }

  /** In plain times: whatever is listed has more than half of its TTL left and is listed with the whole
      seconds of it, and everything with more than half left is listed. */
  lemma ListMeans(question: string, known: seq<WirePtr>, records: Records, now: int)
    requires KnownList(question, known, records, now)
    ensures forall x :: x in known ==>
              && x.name == question && x.target in records
              && var left := records[x.target].ttl - (now - records[x.target].storedAt);
                 2 * left > records[x.target].ttl && x.ttl == left / 1_000_000_000 % 0x1_0000_0000
    ensures forall k :: k in records && 2 * (records[k].ttl - (now - records[k].storedAt)) > records[k].ttl ==>
              exists x :: x in known && x.target == k
  {
    forall k | k in records && 2 * (records[k].ttl - (now - records[k].storedAt)) > records[k].ttl
      ensures exists x :: x in known && x.target == k
    {
      var x := Left(question, k, records, now);
      assert x in known && x.target == k;
    }
  }

  /** A query sent by a tick: multicast, listing exactly the surviving records with more than half
      their TTL left, none of which has just come due. */
  ghost predicate Requery(question: string, q: Query, was: Records, now: int) {
    && q.question == question && !q.unicast && KnownList(question, q.known, Ticked(was, now), now)
    && forall x :: x in q.known ==> x.target !in DueKeys(was, now)
  }

  /** Crossing a refresh threshold leaves at most a fifth of the TTL, well short of half. */
  lemma DueIsUnlisted(question: string, records: Records, entries: Entries, known: seq<WirePtr>, now: int)
    requires Agree(question, records, entries) && KnownList(question, known, Ticked(records, now), now)
    ensures forall x :: x in known ==> x.target !in DueKeys(records, now)
  {
    forall x | x in known ensures x.target !in DueKeys(records, now) {
      DueIsNotKnown(records[x.target], now, question);
    }
  }

  function AllAt(m: Entries, x: Address): set<string> {
    set k | k in m && At(m[k], x)
  }

  /** The entries when only those in left have yet to be offered an address. */
  ghost function PartlyAt(m: Entries, left: set<string>, x: Address, v6: bool): Entries {
    map k | k in m :: if k !in left && At(m[k], x) then AddAddress(m[k], x, v6) else m[k]
  }

  lemma ReachOne(m: Entries, left: set<string>, x: Address, v6: bool, k: string)
    requires left <= m.Keys && k in left
    ensures PartlyAt(m, left - {k}, x, v6) ==
            if At(m[k], x) then PartlyAt(m, left, x, v6)[k := AddAddress(m[k], x, v6)] else PartlyAt(m, left, x, v6)
    ensures AllAt(m, x) - (left - {k}) == if At(m[k], x) then AllAt(m, x) - left + {k} else AllAt(m, x) - left
  {
  }

  lemma ReachEnds(w: Work, x: Address, v6: bool)
    ensures OnAddress(w, x, v6) == w.(entries := PartlyAt(w.entries, {}, x, v6), touched := w.touched + AllAt(w.entries, x))
  {
  }

  lemma PutTwice<K, V>(m: map<K, V>, k: K, a: V, b: V)
    ensures m[k := a][k := b] == m[k := b]
  {
  }

  class BrowserState {
    const question: string
    const cache: Cache
    var entries: Entries

    constructor (question: string)
      ensures this.question == question && fresh(cache)
      ensures Valid() && cache.records == map[] && entries == map[]
    {
      this.question := question;
      cache := new Cache();
      entries := map[];
    }

    ghost predicate Valid()
      reads this, cache
    {
      Agree(question, cache.records, entries)
    }

    method EnsureEntry(instance: string, iface: string)
      modifies this
      ensures entries == if instance in old(entries) then old(entries)
                         else old(entries)[instance := Fresh(instance, question, iface)]
    {
      if instance !in entries { entries := entries[instance := Fresh(instance, question, iface)]; }
    }

    /** Added events follow no particular order; addedKeys and removedKeys name their instances. */
    method Ingest(m: Message, iface: string, now: int)
      returns (added: seq<Entry>, removed: seq<Entry>, ghost addedKeys: seq<string>, ghost removedPairs: seq<(string, Entry)>)
      requires Valid()
      modifies this, cache
      ensures Valid()
      ensures var w := Ingested(question, old(cache.records), old(entries), m, iface, now);
              && cache.records == w.records && entries == w.entries
              && removedPairs == w.removed
              && Lists(addedKeys, Announced(w))
      ensures |added| == |addedKeys| && forall i :: 0 <= i < |added| ==> addedKeys[i] in entries && added[i] == entries[addedKeys[i]]
      ensures |removed| == |removedPairs| && forall i :: 0 <= i < |removed| ==> removed[i] == removedPairs[i].1
    {
      ghost var start := Work(cache.records, entries, [], {});
      var touched: set<string>;
      removed, touched, removedPairs := IngestPtrs(m.ptrs, iface, now);
      ghost var w := OnPtrs(question, start, m.ptrs, iface, now);
      PtrsKeepAgreement(question, start, m.ptrs, iface, now);

      for i := 0 to |m.srvs|
        invariant cache.records == w.records
        invariant OnSrvs(w, m.srvs[..i]) == Work(w.records, entries, w.removed, touched)
      {
        assert m.srvs[..i + 1][..i] == m.srvs[..i];
        var x := m.srvs[i];
        if x.name in entries {
          entries := entries[x.name := entries[x.name].(host := TrimSuffix(x.target, "."))];
          touched := touched + {x.name};
        }
      }
      assert m.srvs[..|m.srvs|] == m.srvs;
      w := OnSrvs(w, m.srvs);

      for i := 0 to |m.txts|
        invariant cache.records == w.records
        invariant OnTxts(w, m.txts[..i]) == Work(w.records, entries, w.removed, touched)
      {
        assert m.txts[..i + 1][..i] == m.txts[..i];
        var x := m.txts[i];
        if x.name in entries {
          entries := entries[x.name := entries[x.name].(txt := x.text)];
          touched := touched + {x.name};
        }
      }
      assert m.txts[..|m.txts|] == m.txts;
      w := OnTxts(w, m.txts);

      touched := IngestAddresses(w, m.as4, false, touched);
      w := OnAddresses(w, m.as4, false);
      touched := IngestAddresses(w, m.as6, true, touched);
      w := OnAddresses(w, m.as6, true);
      IngestKeepsAgreement(question, start.records, start.entries, m, iface, now);
      added, addedKeys := Collect(touched);
    }

    method IngestPtrs(ptrs: seq<Ptr>, iface: string, now: int)
      returns (removed: seq<Entry>, touched: set<string>, ghost pairs: seq<(string, Entry)>)
      requires Valid()
      modifies this, cache
      ensures Work(cache.records, entries, pairs, touched)
           == OnPtrs(question, Work(old(cache.records), old(entries), [], {}), ptrs, iface, now)
      ensures |removed| == |pairs| && forall i :: 0 <= i < |removed| ==> removed[i] == pairs[i].1
    {
      ghost var start := Work(cache.records, entries, [], {});
      removed, touched, pairs := [], {}, [];
      for i := 0 to |ptrs|
        invariant Valid()
        invariant Work(cache.records, entries, pairs, touched) == OnPtrs(question, start, ptrs[..i], iface, now)
        invariant |removed| == |pairs| && forall j :: 0 <= j < |removed| ==> removed[j] == pairs[j].1
      {
        assert ptrs[..i + 1][..i] == ptrs[..i];
        removed, touched, pairs := IngestPtr(ptrs[i], iface, now, removed, touched, pairs);
      }
      assert ptrs[..|ptrs|] == ptrs;
    }

    method IngestPtr(p: Ptr, iface: string, now: int, removed0: seq<Entry>, touched0: set<string>, ghost pairs0: seq<(string, Entry)>)
      returns (removed: seq<Entry>, touched: set<string>, ghost pairs: seq<(string, Entry)>)
      requires Valid() && |removed0| == |pairs0| && forall j :: 0 <= j < |removed0| ==> removed0[j] == pairs0[j].1
      modifies this, cache
      ensures Valid()
      ensures Work(cache.records, entries, pairs, touched)
           == OnPtr(question, Work(old(cache.records), old(entries), pairs0, touched0), p, iface, now)
      ensures |removed| == |pairs| && forall j :: 0 <= j < |removed| ==> removed[j] == pairs[j].1
    {
      PtrKeepsAgreement(question, Work(cache.records, entries, pairs0, touched0), p, iface, now);
      removed, touched, pairs := removed0, touched0, pairs0;
      if p.name != question { return; }
      if TTL(p) <= 0 {
        if p.target in entries {
          removed := removed + [entries[p.target]];
          pairs := pairs + [(p.target, entries[p.target])];
        }
        Retire(p.target);
        return;
      }
      Announce(p, iface, now);
      touched := touched + {p.target};
    }

    /** A goodbye: the record and the entry go. */
    method Retire(instance: string)
      requires Valid()
      modifies this, cache
      ensures cache.records == old(cache.records) - {instance} && entries == old(entries) - {instance}
    {
      cache.Remove(instance);
      if instance in entries { entries := entries - {instance}; }
    }

    /** An announcement: the record is stored afresh and the entry takes its TTL. */
    method Announce(p: Ptr, iface: string, now: int)
      requires Valid()
      modifies this, cache
      ensures cache.records == old(cache.records)[p.target := CacheRecord(Some(WireOf(p)), question, TTL(p), now, 0)]
      ensures entries == old(entries)[p.target := (if p.target in old(entries) then old(entries)[p.target]
                                                   else Fresh(p.target, question, iface)).(ttl := TTL(p))]
    {
      ghost var before := entries;
      var _ := cache.Store(p.target, question, Some(WireOf(p)), TTL(p), now);
      EnsureEntry(p.target, iface);
      PutTwice(before, p.target, Fresh(p.target, question, iface), entries[p.target].(ttl := TTL(p)));
      entries := entries[p.target := entries[p.target].(ttl := TTL(p))];
    }

    method IngestAddresses(ghost w: Work, xs: seq<Address>, v6: bool, touched0: set<string>) returns (touched: set<string>)
      requires w == Work(w.records, entries, w.removed, touched0)
      modifies this
      ensures OnAddresses(w, xs, v6) == Work(w.records, entries, w.removed, touched)
    {
      touched := touched0;
      for i := 0 to |xs|
        invariant OnAddresses(w, xs[..i], v6) == Work(w.records, entries, w.removed, touched)
      {
        assert xs[..i + 1][..i] == xs[..i];
        ReachEnds(OnAddresses(w, xs[..i], v6), xs[i], v6);
        touched := IngestAddress(xs[i], v6, touched);
      }
      assert xs[..|xs|] == xs;
    }

    method IngestAddress(x: Address, v6: bool, touched0: set<string>) returns (touched: set<string>)
      modifies this
      ensures entries == PartlyAt(old(entries), {}, x, v6) && touched == touched0 + AllAt(old(entries), x)
    {
      touched := touched0;
      var left := entries.Keys;
      ghost var was := entries;
      assert entries == PartlyAt(was, left, x, v6);
      while left != {}
        invariant left <= was.Keys && entries == PartlyAt(was, left, x, v6)
        invariant touched == touched0 + (AllAt(was, x) - left)
        decreases |left|
      {
        var k :| k in left;
        ReachOne(was, left, x, v6, k);
        touched := Offer(k, x, v6, touched);
        left := left - {k};
      }
    }

    method Offer(k: string, x: Address, v6: bool, touched0: set<string>) returns (touched: set<string>)
      requires k in entries
      modifies this
      ensures entries == if At(old(entries)[k], x) then old(entries)[k := AddAddress(old(entries)[k], x, v6)] else old(entries)
      ensures touched == if At(old(entries)[k], x) then touched0 + {k} else touched0
    {
      touched := touched0;
      if At(entries[k], x) {
        entries := entries[k := AddAddress(entries[k], x, v6)];
        touched := touched + {k};
      }
    }

    /** Advances the cache. One query covers everything due; it lists exactly the records with
        more than half their TTL left, none of which has just come due. */
    method Tick(now: int) returns (toQuery: seq<Query>, removed: seq<Entry>, ghost removedKeys: seq<string>)
      requires Valid()
      modifies this, cache
      ensures Valid()
      ensures |toQuery| <= 1
      ensures cache.records == Ticked(old(cache.records), now)
      ensures entries == old(entries) - ExpiredKeys(old(cache.records), now)
      ensures toQuery == [] <==> DueKeys(old(cache.records), now) == {}
      ensures forall q :: q in toQuery ==> Requery(question, q, old(cache.records), now)
      ensures Lists(removedKeys, ExpiredKeys(old(cache.records), now)) && |removed| == |removedKeys|
      ensures forall i :: 0 <= i < |removed| ==> removedKeys[i] in old(entries) && removed[i] == old(entries)[removedKeys[i]]
    {
      ghost var was, had := cache.records, entries;
      toQuery := [];
      var due, expired, dueKeys := cache.Tick(now);
      TickKeepsAgreement(question, was, had, now);
      DueListed(dueKeys, DueKeys(was, now));
      assert cache.records == Ticked(was, now);
      if |due| > 0 {
        var q := BuildRequery(was, had, now);
        toQuery := [q];
      }
      removed := DropExpired(expired);
      removedKeys := expired;
      ListedSet(expired, ExpiredKeys(was, now));
    }

    method BuildRequery(ghost was: Records, ghost had: Entries, now: int) returns (q: Query)
      requires Agree(question, was, had) && cache.records == Ticked(was, now)
      ensures Requery(question, q, was, now)
    {
      TickKeepsAgreement(question, was, had, now);
      var known := KnownNow(had - ExpiredKeys(was, now), now);
      DueIsUnlisted(question, was, had, known, now);
      q := Query(question, known, false);
    }

    method KnownNow(ghost agreed: Entries, now: int) returns (known: seq<WirePtr>)
      requires Agree(question, cache.records, agreed)
      ensures KnownList(question, known, cache.records, now)
    {
      var records, keys := cache.KnownAnswersFor(question, now);
      known := KnownAnswers(records, question);
      KnownListed(question, cache.records, agreed, now, records, keys, known);
    }

    method DropExpired(expired: seq<string>) returns (removed: seq<Entry>)
      requires forall i :: 0 <= i < |expired| ==> expired[i] in entries
      requires forall i, j :: 0 <= i < j < |expired| ==> expired[i] != expired[j]
      modifies this
      ensures entries == old(entries) - SetOf(expired)
      ensures |removed| == |expired| && forall i :: 0 <= i < |removed| ==> removed[i] == old(entries)[expired[i]]
    {
      removed := [];
      for i := 0 to |expired|
        invariant entries == old(entries) - SetOf(expired[..i])
        invariant |removed| == i && forall j :: 0 <= j < i ==> removed[j] == old(entries)[expired[j]]
      {
        var instance := expired[i];
        assert SetOf(expired[..i + 1]) == SetOf(expired[..i]) + {instance};
        assert instance !in SetOf(expired[..i]);
        if instance in entries {
          removed := removed + [entries[instance]];
          entries := entries - {instance};
        }
      }
      assert expired[..|expired|] == expired;
    }

    /** The add events for the touched instances that can be resolved. */
    method Collect(touched: set<string>) returns (added: seq<Entry>, ghost keys: seq<string>)
      ensures forall k :: k in keys <==>
                k in touched && k in entries && entries[k].host != "" && (entries[k].ipv4 != [] || entries[k].ipv6 != [])
      ensures Lists(keys, set k | k in touched && k in entries && Resolvable(entries[k]))
      ensures |added| == |keys| && forall i :: 0 <= i < |added| ==> keys[i] in entries && added[i] == entries[keys[i]]
      ensures forall e :: e in added <==> exists k :: k in touched && k in entries && Resolvable(entries[k]) && entries[k] == e
    {
      added, keys := [], [];
      var left := touched;
      while left != {}
        invariant left <= touched
        invariant Lists(keys, set k | k in touched && k !in left && k in entries && Resolvable(entries[k]))
        invariant |added| == |keys| && forall i :: 0 <= i < |added| ==> keys[i] in entries && added[i] == entries[keys[i]]
        decreases |left|
      {
        var k :| k in left;
        left := left - {k};
        if k in entries && Resolvable(entries[k]) {
          added := added + [entries[k]];
          keys := keys + [k];
        }
      }
      forall k | k in touched && k in entries && Resolvable(entries[k]) ensures entries[k] in added {
        assert k in keys;
        var i :| 0 <= i < |keys| && keys[i] == k;
        assert added[i] == entries[k];
      }
      forall e | e in added ensures exists k :: k in touched && k in entries && Resolvable(entries[k]) && entries[k] == e {
        var i :| 0 <= i < |added| && added[i] == e;
        assert keys[i] in touched && entries[keys[i]] == e;
      }
    }
  }

  // ---- Agreement of the two maps ----

  lemma PtrFits(question: string, p: Ptr, e: Entry, now: int)
    requires p.name == question && TTL(p) != 0 && e.ttl == TTL(p) && e.instance == InstanceLabel(p.target, question)
    ensures RecordFits(question, p.target, CacheRecord(Some(WireOf(p)), question, TTL(p), now, 0), e)
  {
  }

  lemma PutKeepsAgreement(question: string, records: Records, entries: Entries, k: string, r: CacheRecord, e: Entry)
    requires Agree(question, records, entries) && RecordFits(question, k, r, e)
    ensures Agree(question, records[k := r], entries[k := e])
  {
  }

  lemma PtrKeepsAgreement(question: string, w: Work, p: Ptr, iface: string, now: int)
    requires Agree(question, w.records, w.entries)
    ensures Agree(question, OnPtr(question, w, p, iface, now).records, OnPtr(question, w, p, iface, now).entries)
  {
    if p.name == question && TTL(p) != 0 {
      var e := (if p.target in w.entries then w.entries[p.target] else Fresh(p.target, question, iface)).(ttl := TTL(p));
      PtrFits(question, p, e, now);
      PutKeepsAgreement(question, w.records, w.entries, p.target, CacheRecord(Some(WireOf(p)), question, TTL(p), now, 0), e);
    }
  }

  lemma {:induction false} PtrsKeepAgreement(question: string, w: Work, ps: seq<Ptr>, iface: string, now: int)
    requires Agree(question, w.records, w.entries)
    ensures Agree(question, OnPtrs(question, w, ps, iface, now).records, OnPtrs(question, w, ps, iface, now).entries)
  {
    if ps != [] {
      PtrsKeepAgreement(question, w, ps[..|ps| - 1], iface, now);
      PtrKeepsAgreement(question, OnPtrs(question, w, ps[..|ps| - 1], iface, now), ps[|ps| - 1], iface, now);
    }
  }

  /** The other records of a message change only the data of known instances and only add to the
      touched ones; an instance they do not touch is unchanged. */
  ghost predicate DataOnly(a: Work, b: Work) {
    && b.records == a.records && b.removed == a.removed && b.entries.Keys == a.entries.Keys
    && a.touched <= b.touched
    && (forall k :: k in a.entries ==> b.entries[k].ttl == a.entries[k].ttl && b.entries[k].instance == a.entries[k].instance)
    && (forall k :: k in a.entries && k !in b.touched ==> b.entries[k] == a.entries[k])
  }

  lemma {:induction false} SrvsDataOnly(w: Work, xs: seq<Srv>)
    ensures DataOnly(w, OnSrvs(w, xs))
  {
    if xs != [] { SrvsDataOnly(w, xs[..|xs| - 1]); }
  }

  lemma {:induction false} TxtsDataOnly(w: Work, xs: seq<Txt>)
    ensures DataOnly(w, OnTxts(w, xs))
  {
    if xs != [] { TxtsDataOnly(w, xs[..|xs| - 1]); }
  }

  lemma {:induction false} AddressesDataOnly(w: Work, xs: seq<Address>, v6: bool)
    ensures DataOnly(w, OnAddresses(w, xs, v6))
  {
    if xs != [] { AddressesDataOnly(w, xs[..|xs| - 1], v6); }
  }

  lemma RestDataOnly(question: string, records: Records, entries: Entries, m: Message, iface: string, now: int)
    ensures DataOnly(OnPtrs(question, Work(records, entries, [], {}), m.ptrs, iface, now),
                     Ingested(question, records, entries, m, iface, now))
  {
    var w0 := OnPtrs(question, Work(records, entries, [], {}), m.ptrs, iface, now);
    var w1 := OnSrvs(w0, m.srvs);
    var w2 := OnTxts(w1, m.txts);
    var w3 := OnAddresses(w2, m.as4, false);
    SrvsDataOnly(w0, m.srvs);
    TxtsDataOnly(w1, m.txts);
    AddressesDataOnly(w2, m.as4, false);
    AddressesDataOnly(w3, m.as6, true);
    DataOnlyChains(w0, w1, w2);
    DataOnlyChains(w0, w2, w3);
    DataOnlyChains(w0, w3, OnAddresses(w3, m.as6, true));
  }

  lemma DataOnlyChains(a: Work, b: Work, c: Work)
    requires DataOnly(a, b) && DataOnly(b, c)
    ensures DataOnly(a, c)
  {
  }

  /** Every message keeps the refresh cache and the entry map in agreement. */
  lemma IngestKeepsAgreement(question: string, records: Records, entries: Entries, m: Message, iface: string, now: int)
    requires Agree(question, records, entries)
    ensures var w := Ingested(question, records, entries, m, iface, now); Agree(question, w.records, w.entries)
  {
    PtrsKeepAgreement(question, Work(records, entries, [], {}), m.ptrs, iface, now);
    RestDataOnly(question, records, entries, m, iface, now);
  }
}
