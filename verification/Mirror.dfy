/** A browse feeding the discovery table through its add and remove callbacks: the table must not
    lose an instance that the browse still keeps alive. */
module Mirror {
  import opened Common
  import opened Strings
  import opened RefreshCache
  import opened Retirement
  import B = Browser
  import T = DiscoveryTable

  // ---- The listener's callbacks ----

  function ListenerHost(host: string): string { ToLower(TrimSuffix(host, ".")) }

  function TableEntryOf(service: string, e: B.Entry): T.Entry {
    T.Entry("", ListenerHost(e.host), service, e.instance, e.txt, e.ipv4, e.ipv6, false, false, 0, e.ttl, false)
  }

  function KeyFor(service: string, e: B.Entry): string {
    T.KeyText(service, e.instance, ListenerHost(e.host))
  }

  function OnAdd(c: Config, table: T.Entries, e: B.Entry, now: int): T.Entries {
    if ListenerHost(e.host) == "" then table else T.Upserted(c.policy, table, TableEntryOf(c.service, e), now)
  }

  /** Add callbacks fire in some order of the announced instances. */
  function AddAll(c: Config, table: T.Entries, entries: B.Entries, order: seq<string>, now: int): T.Entries
    requires forall k :: k in order ==> k in entries
  {
    if order == [] then table
    else OnAdd(c, AddAll(c, table, entries, order[..|order| - 1], now), entries[order[|order| - 1]], now)
  }

  ghost function RetiredKeys(service: string, removed: seq<(string, B.Entry)>): set<string> {
    set i | 0 <= i < |removed| :: KeyFor(service, removed[i].1)
  }

  // ---- Runs ----

  /** One browse and its table. known holds every instance the browse ever knows, with each host it
      ever knows it by (none at first). */
  datatype Config = Config(service: string, question: string, policy: T.Policy, tableTTL: nat, known: set<(string, string)>)

  datatype World = World(records: Records, entries: B.Entries, table: T.Entries)

  datatype Event =
    | Heard(m: B.Message, iface: string, now: int, order: seq<string>)
    | BrowseTick(now: int)
    | TableSweep(now: int)

  function Heard1(c: Config, w: World, m: B.Message, iface: string, now: int): B.Work {
    B.Ingested(c.question, w.records, w.entries, m, iface, now)
  }

  ghost predicate Possible(c: Config, w: World, ev: Event) {
    ev.Heard? ==> Lists(ev.order, B.Announced(Heard1(c, w, ev.m, ev.iface, ev.now)))
  }

  /** Adds are delivered before removes. */
  ghost function Next(c: Config, w: World, ev: Event): World
    requires Possible(c, w, ev)
  {
    match ev
    case Heard(m, iface, now, order) =>
      var u := Heard1(c, w, m, iface, now);
      World(u.records, u.entries, AddAll(c, w.table, u.entries, order, now) - RetiredKeys(c.service, u.removed))
    case BrowseTick(now) =>
      var gone := ExpiredKeys(w.records, now);
      World(Ticked(w.records, now), w.entries - gone,
            w.table - set k | k in gone && k in w.entries :: KeyFor(c.service, w.entries[k]))
    case TableSweep(now) =>
      w.(table := T.Unexpired(w.table, c.tableTTL, now))
  }

  /** A message does not announce an instance after retiring it. */
  predicate NoRevivalIn(question: string, ps: seq<B.Ptr>) {
    forall i, j :: 0 <= i < j < |ps| && Retires(question, ps[i]) && Announces(question, ps[j]) ==> ps[i].target != ps[j].target
  }

  /** What a message leaves known or removes is among the known pairs. */
  ghost predicate Within(c: Config, u: B.Work) {
    && (forall k :: k in u.entries ==> (k, u.entries[k].host) in c.known)
    && forall i :: 0 <= i < |u.removed| ==> (u.removed[i].0, u.removed[i].1.host) in c.known
  }

  function KeyOf(c: Config, k: string, host: string): string {
    T.KeyText(c.service, B.InstanceLabel(k, c.question), ListenerHost(host))
  }

  /** No two known pairs of different instances share a table key. */
  predicate KeysTell(c: Config) {
    forall a, b :: a in c.known && b in c.known && KeyOf(c, a.0, a.1) == KeyOf(c, b.0, b.1) ==> a.0 == b.0
  }

  ghost predicate Run(c: Config, events: seq<Event>, worlds: seq<World>) {
    && |worlds| == |events| + 1
    && worlds[0] == World(map[], map[], map[])
    && forall i :: 0 <= i < |events| ==>
         && Possible(c, worlds[i], events[i]) && worlds[i + 1] == Next(c, worlds[i], events[i])
         && (events[i].Heard? ==> NoRevivalIn(c.question, events[i].m.ptrs)
                                  && Within(c, Heard1(c, worlds[i], events[i].m, events[i].iface, events[i].now)))
         && (i > 0 ==> events[i - 1].now <= events[i].now)
  }

  /** An instance not in the table enters it as the browse reports it, with its host in lower case and
      without the final dot, seen now. */
  lemma EntersAsHeard(c: Config, table: T.Entries, e: B.Entry, now: int)
    requires ToLower(TrimSuffix(e.host, ".")) != "" && KeyFor(c.service, e) !in table
    ensures var u := OnAdd(c, table, e, now); var key := KeyFor(c.service, e);
            && u.Keys == table.Keys + {key} && (forall j :: j in table ==> u[j] == table[j])
            && u[key].host == ToLower(TrimSuffix(e.host, ".")) && u[key].service == c.service && u[key].instance == e.instance
            && u[key].txt == e.txt && u[key].ipv4 == e.ipv4 && u[key].ipv6 == e.ipv6
            && u[key].ttl == e.ttl && u[key].lastSeen == now && !u[key].manual
  {
  }

  /** A tick of the browse takes out of the table the keys of the instances that expire, and a sweep what
      has not been seen for longer than its lifetime, or the table's when it has none. */
  lemma WhatLeavesTheTable(c: Config, w: World, now: int, key: string)
    requires B.Agree(c.question, w.records, w.entries) && key in w.table
    ensures key !in Next(c, w, BrowseTick(now)).table <==>
              exists k :: k in w.entries && now - w.records[k].storedAt >= w.records[k].ttl && KeyFor(c.service, w.entries[k]) == key
    ensures key !in Next(c, w, TableSweep(now)).table <==>
              now - w.table[key].lastSeen > if w.table[key].ttl > 0 then w.table[key].ttl else c.tableTTL
  {
  }

  // ---- The invariant ----

  /** The table's entry has every address of the instance, and its text if it has any. */
  predicate Carries(t: T.Entry, e: B.Entry) {
    && (forall x :: x in e.ipv4 && x != "" ==> x in t.ipv4)
    && (forall x :: x in e.ipv6 && x != "" ==> x in t.ipv6)
    && (e.txt != map[] ==> t.txt == e.txt)
  }

  /** The table holds the instance and its data, seen no earlier than the record was stored, with its
      TTL. */
  ghost predicate Holds(c: Config, w: World, k: string)
    requires k in w.entries && k in w.records
  {
    var key := KeyFor(c.service, w.entries[k]);
    && key in w.table && w.table[key].lastSeen >= w.records[k].storedAt && w.table[key].ttl == w.records[k].ttl
    && Carries(w.table[key], w.entries[k])
  }

  /** Resolvable, and not outlived. */
  predicate Live(w: World, k: string, now: int) {
    && k in w.entries && k in w.records
    && B.Resolvable(w.entries[k]) && ListenerHost(w.entries[k].host) != ""
    && Elapsed(w.records[k], now) <= w.records[k].ttl
  }

  ghost predicate Sound(c: Config, w: World, now: int) {
    && B.Agree(c.question, w.records, w.entries)
    && forall k :: k in w.entries ==> (k, w.entries[k].host) in c.known && w.records[k].storedAt <= now
  }

  ghost predicate Mirrored(c: Config, w: World, now: int) {
    Sound(c, w, now) && forall k :: Live(w, k, now) ==> Holds(c, w, k)
  }

  /** Two known instances never share a table key. */
  lemma KeysApart(c: Config, a: string, e: B.Entry, b: string, f: B.Entry)
    requires KeysTell(c) && (a, e.host) in c.known && (b, f.host) in c.known && a != b
    requires e.instance == B.InstanceLabel(a, c.question) && f.instance == B.InstanceLabel(b, c.question)
    ensures KeyFor(c.service, e) != KeyFor(c.service, f)
  {
    assert KeyOf(c, (a, e.host).0, (a, e.host).1) != KeyOf(c, (b, f.host).0, (b, f.host).1);
  }

  // ---- What a message leaves behind ----

  ghost predicate EntriesOk(c: Config, u: B.Work, now: int) {
    && u.records.Keys == u.entries.Keys
    && forall k :: k in u.entries ==> (k, u.entries[k].host) in c.known && u.records[k].storedAt <= now
  }

  /** What a message has not touched is as it was. */
  ghost predicate Untouched(w: World, u: B.Work) {
    forall k :: k in u.entries && k in u.records && k !in u.touched ==>
      k in w.entries && k in w.records && u.entries[k] == w.entries[k] && u.records[k] == w.records[k]
  }

  ghost predicate RemovedOk(c: Config, removed: seq<(string, B.Entry)>) {
    forall i :: 0 <= i < |removed| ==> removed[i].1.instance == B.InstanceLabel(removed[i].0, c.question)
  }

  ghost predicate StoredBy(u: B.Work, now: int) {
    forall k :: k in u.records ==> u.records[k].storedAt <= now
  }

  lemma PtrUntouched(c: Config, w: World, u: B.Work, p: B.Ptr, iface: string, now: int)
    requires Untouched(w, u)
    ensures Untouched(w, B.OnPtr(c.question, u, p, iface, now))
  {
  }

  lemma PtrRemoved(c: Config, u: B.Work, p: B.Ptr, iface: string, now: int)
    requires RemovedOk(c, u.removed) && StoredBy(u, now) && B.Agree(c.question, u.records, u.entries)
    ensures var v := B.OnPtr(c.question, u, p, iface, now); RemovedOk(c, v.removed) && StoredBy(v, now)
  {
  }

  lemma {:induction false} PtrPass(c: Config, w: World, ps: seq<B.Ptr>, iface: string, now: int)
    requires Sound(c, w, now)
    ensures var u := B.OnPtrs(c.question, B.Work(w.records, w.entries, [], {}), ps, iface, now);
            StoredBy(u, now) && Untouched(w, u) && RemovedOk(c, u.removed)
  {
    if ps != [] {
      var n := |ps| - 1;
      var start := B.Work(w.records, w.entries, [], {});
      PtrPass(c, w, ps[..n], iface, now);
      B.PtrsKeepAgreement(c.question, start, ps[..n], iface, now);
      var u := B.OnPtrs(c.question, start, ps[..n], iface, now);
      PtrUntouched(c, w, u, ps[n], iface, now);
      PtrRemoved(c, u, ps[n], iface, now);
    }
  }

  lemma MessageSound(c: Config, w: World, m: B.Message, iface: string, now: int)
    requires Sound(c, w, now) && Within(c, Heard1(c, w, m, iface, now))
    ensures var u := Heard1(c, w, m, iface, now);
            B.Agree(c.question, u.records, u.entries) && EntriesOk(c, u, now) && Untouched(w, u) && RemovedOk(c, u.removed)
  {
    PtrPass(c, w, m.ptrs, iface, now);
    B.RestDataOnly(c.question, w.records, w.entries, m, iface, now);
    B.IngestKeepsAgreement(c.question, w.records, w.entries, m, iface, now);
  }

  /** Without a revival what a message retires is gone when it is done. */
  lemma NoRevivalGone(c: Config, w: World, m: B.Message, iface: string, now: int, k: string)
    requires NoRevivalIn(c.question, m.ptrs) && k in Heard1(c, w, m, iface, now).entries
    ensures !RetiredIn(c.question, m.ptrs, k)
  {
    if RetiredIn(c.question, m.ptrs, k) {
      var j :| 0 <= j < |m.ptrs| && Retires(c.question, m.ptrs[j]) && m.ptrs[j].target == k;
      B.RestDataOnly(c.question, w.records, w.entries, m, iface, now);
      RetiredStayGone(c.question, B.Work(w.records, w.entries, [], {}), m.ptrs, iface, now, j);
    }
  }

  /** Nothing is removed that the message did not retire. */
  lemma RemovedRetired(c: Config, w: World, m: B.Message, iface: string, now: int, i: nat)
    requires i < |Heard1(c, w, m, iface, now).removed|
    ensures RetiredIn(c.question, m.ptrs, Heard1(c, w, m, iface, now).removed[i].0)
  {
    B.RestDataOnly(c.question, w.records, w.entries, m, iface, now);
    var start := B.Work(w.records, w.entries, [], {});
    var x := Heard1(c, w, m, iface, now).removed[i];
    assert x in B.OnPtrs(c.question, start, m.ptrs, iface, now).removed;
    RemovedWasThere(c.question, start, m.ptrs, iface, now, x);
  }

  // ---- The table through a batch of adds ----

  lemma UpsertedEntry(c: Config, table: T.Entries, e: B.Entry, now: int)
    requires ListenerHost(e.host) != "" && e.ttl > 0
    ensures var u := OnAdd(c, table, e, now);
            var k := KeyFor(c.service, e);
            k in u && u[k].lastSeen == now && u[k].ttl == e.ttl && Carries(u[k], e) && u == table[k := u[k]]
  {
    var k := KeyFor(c.service, e);
    if k in table {
      MergedIsUnion(table[k].ipv4, e.ipv4);
      MergedIsUnion(table[k].ipv6, e.ipv6);
    }
  }

  ghost predicate JustSeen(c: Config, t: T.Entries, e: B.Entry, now: int) {
    var key := KeyFor(c.service, e);
    key in t && t[key].lastSeen == now && t[key].ttl == e.ttl && Carries(t[key], e)
  }

  ghost predicate SameAt(c: Config, t: T.Entries, table: T.Entries, e: B.Entry) {
    var key := KeyFor(c.service, e);
    (key in t <==> key in table) && (key in table ==> t[key] == table[key])
  }

  /** One add changes nothing at the key of another instance. */
  lemma AddElsewhere(c: Config, table: T.Entries, u: B.Work, k: string, last: string, now: int)
    requires KeysTell(c) && B.Agree(c.question, u.records, u.entries) && EntriesOk(c, u, now)
    requires k in u.entries && last in u.entries && k != last
    ensures SameAt(c, OnAdd(c, table, u.entries[last], now), table, u.entries[k])
  {
    var e := u.entries[last];
    KeysApart(c, k, u.entries[k], last, e);
    if ListenerHost(e.host) != "" { UpsertedEntry(c, table, e, now); }
  }

  /** An instance that is not announced keeps what the table has at its key. */
  lemma {:induction false} AddsKeep(c: Config, table: T.Entries, u: B.Work, order: seq<string>, now: int, k: string)
    requires KeysTell(c) && B.Agree(c.question, u.records, u.entries) && EntriesOk(c, u, now)
    requires (forall j :: j in order ==> j in u.entries) && k in u.entries && k !in order
    ensures SameAt(c, AddAll(c, table, u.entries, order, now), table, u.entries[k])
  {
    if order != [] {
      var n := |order| - 1;
      AddsKeep(c, table, u, order[..n], now, k);
      AddElsewhere(c, AddAll(c, table, u.entries, order[..n], now), u, k, order[n], now);
    }
  }

  lemma SeenStays(c: Config, table: T.Entries, u: B.Work, k: string, last: string, now: int)
    requires KeysTell(c) && B.Agree(c.question, u.records, u.entries) && EntriesOk(c, u, now)
    requires k in u.entries && last in u.entries && k != last && JustSeen(c, table, u.entries[k], now)
    ensures JustSeen(c, OnAdd(c, table, u.entries[last], now), u.entries[k], now)
  {
    AddElsewhere(c, table, u, k, last, now);
  }

  /** An announced instance ends up in the table as just seen. */
  lemma {:induction false} AddsLand(c: Config, table: T.Entries, u: B.Work, order: seq<string>, now: int, i: nat)
    requires KeysTell(c) && B.Agree(c.question, u.records, u.entries) && EntriesOk(c, u, now)
    requires (forall j :: j in order ==> j in u.entries) && i < |order| && ListenerHost(u.entries[order[i]].host) != ""
    ensures JustSeen(c, AddAll(c, table, u.entries, order, now), u.entries[order[i]], now)
  {
    var last := order[|order| - 1];
    var front := order[..|order| - 1];
    if order[i] == last {
      UpsertedEntry(c, AddAll(c, table, u.entries, front, now), u.entries[last], now);
    } else {
      AddsLand(c, table, u, front, now, i);
      SeenStays(c, AddAll(c, table, u.entries, front, now), u, front[i], last, now);
    }
  }

  // ---- Steps ----

  /** The table entry an instance's record deserves. */
  ghost predicate HeldIn(c: Config, t: T.Entries, e: B.Entry, r: CacheRecord) {
    var key := KeyFor(c.service, e);
    key in t && t[key].lastSeen >= r.storedAt && t[key].ttl == r.ttl && Carries(t[key], e)
  }

  lemma SoundLater(c: Config, w: World, before: int, now: int)
    requires Sound(c, w, before) && before <= now
    ensures Sound(c, w, now)
  {
  }

  lemma OrderKnown(u: B.Work, order: seq<string>)
    requires Lists(order, B.Announced(u))
    ensures forall j :: j in order ==> j in u.entries
    ensures forall j :: j in order <==> j in B.Announced(u)
  {
  }

  lemma HeldAfterAdds(c: Config, w: World, u: B.Work, order: seq<string>, before: int, now: int, k: string)
    requires KeysTell(c) && Mirrored(c, w, before) && before <= now
    requires B.Agree(c.question, u.records, u.entries) && EntriesOk(c, u, now) && Untouched(w, u)
    requires Lists(order, B.Announced(u)) && k in u.entries && B.Resolvable(u.entries[k])
    requires ListenerHost(u.entries[k].host) != "" && Elapsed(u.records[k], now) <= u.records[k].ttl
    requires forall j :: j in order ==> j in u.entries
    ensures HeldIn(c, AddAll(c, w.table, u.entries, order, now), u.entries[k], u.records[k])
  {
    OrderKnown(u, order);
    if k in order {
      var i :| 0 <= i < |order| && order[i] == k;
      AddsLand(c, w.table, u, order, now, i);
    } else {
      AddsKeep(c, w.table, u, order, now, k);
      assert k !in u.touched;
      assert Live(w, k, before);
      assert Holds(c, w, k);
    }
  }

  lemma HeldUnlessNamed(c: Config, w: World, ev: Event, before: int, k: string)
    requires KeysTell(c) && Mirrored(c, w, before) && ev.Heard? && before <= ev.now && Possible(c, w, ev)
    requires Within(c, Heard1(c, w, ev.m, ev.iface, ev.now)) && Live(Next(c, w, ev), k, ev.now)
    ensures var u := Heard1(c, w, ev.m, ev.iface, ev.now);
            Holds(c, Next(c, w, ev), k) <==> KeyFor(c.service, u.entries[k]) !in RetiredKeys(c.service, u.removed)
  {
    var u := Heard1(c, w, ev.m, ev.iface, ev.now);
    SoundLater(c, w, before, ev.now);
    MessageSound(c, w, ev.m, ev.iface, ev.now);
    OrderKnown(u, ev.order);
    HeldAfterAdds(c, w, u, ev.order, before, ev.now, k);
  }

  /** A host that is more than dots keeps an instance's key apart from the key it had before it had
      a host. */
  predicate NamedHost(host: string) { TrimSuffix(ListenerHost(host), ".") != "" }

  lemma NamedKey(service: string, instance: string, host: string)
    requires NamedHost(host)
    ensures T.KeyText(service, instance, ListenerHost(host)) != T.KeyText(service, instance, ListenerHost(""))
  {
    T.KeyShape(service, instance, ListenerHost(host));
    T.KeyShape(service, instance, ListenerHost(""));
  }

  /** A removed entry under a live instance's key is what the browse had of that instance. */
  lemma RemovedIsOwn(c: Config, w: World, ev: Event, k: string, i: nat)
    requires KeysTell(c) && ev.Heard? && Sound(c, w, ev.now) && Within(c, Heard1(c, w, ev.m, ev.iface, ev.now))
    requires var u := Heard1(c, w, ev.m, ev.iface, ev.now);
             && k in u.entries && NamedHost(u.entries[k].host) && i < |u.removed|
             && KeyFor(c.service, u.removed[i].1) == KeyFor(c.service, u.entries[k])
    ensures var u := Heard1(c, w, ev.m, ev.iface, ev.now);
            k in w.entries && RetiredIn(c.question, ev.m.ptrs, k) && KeyFor(c.service, w.entries[k]) == KeyFor(c.service, u.entries[k])
  {
    var u := Heard1(c, w, ev.m, ev.iface, ev.now);
    var start := B.Work(w.records, w.entries, [], {});
    var v := B.OnPtrs(c.question, start, ev.m.ptrs, ev.iface, ev.now);
    MessageSound(c, w, ev.m, ev.iface, ev.now);
    B.RestDataOnly(c.question, w.records, w.entries, ev.m, ev.iface, ev.now);
    MessageHosts(c.question, start, ev.m.ptrs, ev.iface, ev.now, k);
    NamedKey(c.service, u.entries[k].instance, u.entries[k].host);
    if u.removed[i].0 != k { KeysApart(c, u.removed[i].0, u.removed[i].1, k, u.entries[k]); }
    assert RemovedWith(v, k, u.removed[i].1.host);
  }

  /** A known instance that a message retires is removed under the key it had. */
  lemma RetiredIsRemoved(c: Config, w: World, ev: Event, k: string)
    requires ev.Heard? && Sound(c, w, ev.now) && Within(c, Heard1(c, w, ev.m, ev.iface, ev.now))
    requires k in w.entries && RetiredIn(c.question, ev.m.ptrs, k)
    ensures KeyFor(c.service, w.entries[k]) in RetiredKeys(c.service, Heard1(c, w, ev.m, ev.iface, ev.now).removed)
  {
    var u := Heard1(c, w, ev.m, ev.iface, ev.now);
    var start := B.Work(w.records, w.entries, [], {});
    MessageSound(c, w, ev.m, ev.iface, ev.now);
    B.RestDataOnly(c.question, w.records, w.entries, ev.m, ev.iface, ev.now);
    MessageHosts(c.question, start, ev.m.ptrs, ev.iface, ev.now, k);
    var i :| 0 <= i < |u.removed| && u.removed[i].0 == k && u.removed[i].1.host == w.entries[k].host;
    assert KeyFor(c.service, u.removed[i].1) == KeyFor(c.service, w.entries[k]);
  }

  /** After a message from a mirrored state, a live instance is missing from the table exactly when
      the browse knew it before, the message retires it, and it ends under the key it had. */
  lemma HeardExactly(c: Config, w: World, ev: Event, before: int, k: string)
    requires KeysTell(c) && Mirrored(c, w, before) && ev.Heard? && before <= ev.now && Possible(c, w, ev)
    requires Within(c, Heard1(c, w, ev.m, ev.iface, ev.now)) && Live(Next(c, w, ev), k, ev.now)
    requires NamedHost(Next(c, w, ev).entries[k].host)
    ensures Holds(c, Next(c, w, ev), k) <==>
            !(k in w.entries && RetiredIn(c.question, ev.m.ptrs, k)
              && KeyFor(c.service, w.entries[k]) == KeyFor(c.service, Next(c, w, ev).entries[k]))
  {
    SoundLater(c, w, before, ev.now);
    HeldUnlessNamed(c, w, ev, before, k);
    var u := Heard1(c, w, ev.m, ev.iface, ev.now);
    if KeyFor(c.service, u.entries[k]) in RetiredKeys(c.service, u.removed) {
      var i :| 0 <= i < |u.removed| && KeyFor(c.service, u.removed[i].1) == KeyFor(c.service, u.entries[k]);
      RemovedIsOwn(c, w, ev, k, i);
    }
    if k in w.entries && RetiredIn(c.question, ev.m.ptrs, k) { RetiredIsRemoved(c, w, ev, k); }
  }

  lemma HeardSound(c: Config, w: World, ev: Event, before: int)
    requires Mirrored(c, w, before) && ev.Heard? && before <= ev.now && Possible(c, w, ev)
    requires Within(c, Heard1(c, w, ev.m, ev.iface, ev.now))
    ensures Sound(c, Next(c, w, ev), ev.now)
  {
    SoundLater(c, w, before, ev.now);
    MessageSound(c, w, ev.m, ev.iface, ev.now);
  }

  lemma HeardStep(c: Config, w: World, ev: Event, before: int)
    requires KeysTell(c) && Mirrored(c, w, before) && ev.Heard? && before <= ev.now
    requires Possible(c, w, ev) && NoRevivalIn(c.question, ev.m.ptrs) && Within(c, Heard1(c, w, ev.m, ev.iface, ev.now))
    ensures Mirrored(c, Next(c, w, ev), ev.now)
  {
    var u := Heard1(c, w, ev.m, ev.iface, ev.now);
    HeardSound(c, w, ev, before);
    SoundLater(c, w, before, ev.now);
    MessageSound(c, w, ev.m, ev.iface, ev.now);
    forall k | Live(Next(c, w, ev), k, ev.now) ensures Holds(c, Next(c, w, ev), k) {
      NoRevivalGone(c, w, ev.m, ev.iface, ev.now, k);
      forall i | 0 <= i < |u.removed| ensures KeyFor(c.service, u.removed[i].1) != KeyFor(c.service, u.entries[k]) {
        RemovedRetired(c, w, ev.m, ev.iface, ev.now, i);
        KeysApart(c, u.removed[i].0, u.removed[i].1, k, u.entries[k]);
      }
      HeldUnlessNamed(c, w, ev, before, k);
    }
  }

  lemma TickStep(c: Config, w: World, now: int, before: int)
    requires KeysTell(c) && Mirrored(c, w, before) && before <= now
    ensures Mirrored(c, Next(c, w, BrowseTick(now)), now)
  {
    var u := Next(c, w, BrowseTick(now));
    B.TickKeepsAgreement(c.question, w.records, w.entries, now);
    forall k | Live(u, k, now) ensures Holds(c, u, k) {
      assert Live(w, k, before) && Holds(c, w, k);
      forall j | j in ExpiredKeys(w.records, now) && j in w.entries
        ensures KeyFor(c.service, w.entries[j]) != KeyFor(c.service, w.entries[k])
      {
        KeysApart(c, j, w.entries[j], k, w.entries[k]);
      }
    }
  }

  /** The table's own clock never outruns the browse's: it was told of the instance no earlier
      than the record was stored, and for the same TTL. */
  lemma SweepStep(c: Config, w: World, now: int, before: int)
    requires Mirrored(c, w, before) && before <= now
    ensures Mirrored(c, Next(c, w, TableSweep(now)), now)
  {
    var u := Next(c, w, TableSweep(now));
    forall k | Live(u, k, now) ensures Holds(c, u, k) {
      assert Live(w, k, before) && Holds(c, w, k);
    }
  }

  /** At every point of every run, and for as long after as the record has not outlived its TTL, a
      resolvable instance of the browse is in the table under its current host, unexpired, with every
      address the browse has for it and its text. */
  lemma {:induction false} TableKeepsWhatTheBrowseKeeps(c: Config, events: seq<Event>, worlds: seq<World>, n: nat, k: string, now: int)
    requires KeysTell(c) && Run(c, events, worlds) && n <= |events|
    requires n > 0 ==> events[n - 1].now <= now
    requires Live(worlds[n], k, now)
    ensures var key := KeyFor(c.service, worlds[n].entries[k]);
            key in worlds[n].table && !T.Expired(worlds[n].table[key], c.tableTTL, now)
            && var e, held := worlds[n].entries[k], worlds[n].table[key];
               && (forall x :: x in e.ipv4 && x != "" ==> x in held.ipv4)
               && (forall x :: x in e.ipv6 && x != "" ==> x in held.ipv6)
               && (e.txt != map[] ==> held.txt == e.txt)
  {
    if n > 0 {
      RunMirrored(c, events, worlds, n);
      assert Live(worlds[n], k, events[n - 1].now);
      assert Holds(c, worlds[n], k);
    }
  }

  lemma {:induction false} RunMirrored(c: Config, events: seq<Event>, worlds: seq<World>, n: nat)
    requires KeysTell(c) && Run(c, events, worlds) && 0 < n <= |events|
    ensures Mirrored(c, worlds[n], events[n - 1].now)
  {
    var ev := events[n - 1];
    var before := if n > 1 then events[n - 2].now else ev.now;
    if n > 1 { RunMirrored(c, events, worlds, n - 1); }
    match ev {
      case Heard(_, _, _, _) => HeardStep(c, worlds[n - 1], ev, before);
      case BrowseTick(now) => TickStep(c, worlds[n - 1], now, before);
      case TableSweep(now) => SweepStep(c, worlds[n - 1], now, before);
    }
  }

  // ---- Whatever keys are shared ----

  /** Every live instance has an entry under its key, its own or one it shares. */
  ghost predicate Listed(c: Config, w: World, now: int) {
    Sound(c, w, now) && forall k :: Live(w, k, now) ==> KeyFor(c.service, w.entries[k]) in w.table
  }

  lemma {:induction false} AddsNeverRemove(c: Config, table: T.Entries, entries: B.Entries, order: seq<string>, now: int)
    requires forall j :: j in order ==> j in entries
    ensures table.Keys <= AddAll(c, table, entries, order, now).Keys
  {
    if order != [] {
      var front, last := order[..|order| - 1], order[|order| - 1];
      AddsNeverRemove(c, table, entries, front, now);
      AddPuts(c, AddAll(c, table, entries, front, now), entries[last], now);
    }
  }

  lemma {:induction false} AddsPut(c: Config, table: T.Entries, entries: B.Entries, order: seq<string>, now: int, i: nat)
    requires (forall j :: j in order ==> j in entries) && i < |order| && ListenerHost(entries[order[i]].host) != ""
    ensures KeyFor(c.service, entries[order[i]]) in AddAll(c, table, entries, order, now)
  {
    var front, last := order[..|order| - 1], order[|order| - 1];
    var before := AddAll(c, table, entries, front, now);
    AddPuts(c, before, entries[last], now);
    if i < |front| {
      AddsPut(c, table, entries, front, now, i);
      assert KeyFor(c.service, entries[order[i]]) in before.Keys;
    } else {
      assert entries[order[i]] == entries[last];
    }
  }

  lemma AddPuts(c: Config, table: T.Entries, e: B.Entry, now: int)
    ensures table.Keys <= OnAdd(c, table, e, now).Keys
    ensures ListenerHost(e.host) != "" ==> KeyFor(c.service, e) in OnAdd(c, table, e, now)
  {
  }

  /** The record at position p retires an instance that is then known under this key. */
  ghost predicate RetiresKey(c: Config, w: World, ev: Event, p: int, key: string)
    requires ev.Heard? && 0 <= p < |ev.m.ptrs|
  {
    var at := B.OnPtrs(c.question, B.Work(w.records, w.entries, [], {}), ev.m.ptrs[..p], ev.iface, ev.now).entries;
    var k := ev.m.ptrs[p].target;
    Retires(c.question, ev.m.ptrs[p]) && k in at && KeyFor(c.service, at[k]) == key
  }

  lemma RetiredKeysExactly(c: Config, w: World, ev: Event, key: string)
    requires ev.Heard?
    ensures key in RetiredKeys(c.service, Heard1(c, w, ev.m, ev.iface, ev.now).removed) <==>
            exists p :: 0 <= p < |ev.m.ptrs| && RetiresKey(c, w, ev, p, key)
  {
    var start, u := B.Work(w.records, w.entries, [], {}), Heard1(c, w, ev.m, ev.iface, ev.now);
    B.RestDataOnly(c.question, w.records, w.entries, ev.m, ev.iface, ev.now);
    if key in RetiredKeys(c.service, u.removed) {
      var i :| 0 <= i < |u.removed| && KeyFor(c.service, u.removed[i].1) == key;
      RemovedWasThere(c.question, start, ev.m.ptrs, ev.iface, ev.now, u.removed[i]);
      var p :| 0 <= p < |ev.m.ptrs| && RemovedAt(c.question, start, ev.m.ptrs, ev.iface, ev.now, p, u.removed[i]);
      assert RetiresKey(c, w, ev, p, key);
    }
    if p :| 0 <= p < |ev.m.ptrs| && RetiresKey(c, w, ev, p, key) {
      var k := ev.m.ptrs[p].target;
      var x := (k, B.OnPtrs(c.question, start, ev.m.ptrs[..p], ev.iface, ev.now).entries[k]);
      assert RemovedAt(c.question, start, ev.m.ptrs, ev.iface, ev.now, p, x);
      RemovedWasThere(c.question, start, ev.m.ptrs, ev.iface, ev.now, x);
      var i :| 0 <= i < |u.removed| && u.removed[i] == x;
      assert KeyFor(c.service, u.removed[i].1) == key;
    }
  }

  /** With no condition on keys or hosts: after a message a live instance still has an entry under
      its key exactly when no record of the message retires, at its position, an instance known
      under that key, itself or another. */
  lemma ListedExactly(c: Config, w: World, ev: Event, before: int, k: string)
    requires Listed(c, w, before) && ev.Heard? && before <= ev.now && Possible(c, w, ev)
    requires Within(c, Heard1(c, w, ev.m, ev.iface, ev.now)) && Live(Next(c, w, ev), k, ev.now)
    ensures var key := KeyFor(c.service, Next(c, w, ev).entries[k]);
            key in Next(c, w, ev).table <==> !exists p :: 0 <= p < |ev.m.ptrs| && RetiresKey(c, w, ev, p, key)
  {
    var u := Heard1(c, w, ev.m, ev.iface, ev.now);
    var key := KeyFor(c.service, u.entries[k]);
    SoundLater(c, w, before, ev.now);
    MessageSound(c, w, ev.m, ev.iface, ev.now);
    OrderKnown(u, ev.order);
    AddsNeverRemove(c, w.table, u.entries, ev.order, ev.now);
    RetiredKeysExactly(c, w, ev, key);
    if k in ev.order {
      var i :| 0 <= i < |ev.order| && ev.order[i] == k;
      AddsPut(c, w.table, u.entries, ev.order, ev.now, i);
    } else {
      assert k !in u.touched;
      assert Live(w, k, before);
    }
  }

  // ---- When keys tell instances apart ----

  /** Labels that differ by more than case, and hosts without a bar, are enough. */
  lemma BarFreeHostsTell(c: Config)
    requires forall a :: a in c.known ==> '|' !in a.1
    requires forall a, b :: a in c.known && b in c.known
               && ToLower(B.InstanceLabel(a.0, c.question)) == ToLower(B.InstanceLabel(b.0, c.question))
               ==> a.0 == b.0
    ensures KeysTell(c)
  {
    forall a, b | a in c.known && b in c.known && KeyOf(c, a.0, a.1) == KeyOf(c, b.0, b.1) ensures a.0 == b.0 {
      T.KeysTellInstances(c.service, B.InstanceLabel(a.0, c.question), ListenerHost(a.1),
                          B.InstanceLabel(b.0, c.question), ListenerHost(b.1));
    }
  }

  /** A bar in a host name makes different labels share a key. */
  lemma BarsShareAKey(service: string)
    ensures T.KeyText(service, "a", "b|c") == T.KeyText(service, "a|b", "c")
  {
    assert service + "|" + "a" + "|" + TrimSuffix("b|c", ".") + "." == service + "|" + "a|b" + "|" + TrimSuffix("c", ".") + ".";
  }

  /** The last goodbye to one of two live instances that share a key takes the other's entry too,
      for every such pair and without any revival. */
  lemma SharedKeyLosesTheOther(c: Config, w: World, j: string, k: string, now: int)
    requires B.Agree(c.question, w.records, w.entries) && j != k && j in w.entries && Live(w, k, now)
    requires KeyFor(c.service, w.entries[j]) == KeyFor(c.service, w.entries[k])
    ensures var ev := Heard(B.Message([B.Ptr(c.question, j, 0)], [], [], [], []), "", now, []);
            && NoRevivalIn(c.question, ev.m.ptrs) && Possible(c, w, ev)
            && Live(Next(c, w, ev), k, now) && KeyFor(c.service, Next(c, w, ev).entries[k]) !in Next(c, w, ev).table
  {
    var p := B.Ptr(c.question, j, 0);
    var ev := Heard(B.Message([p], [], [], [], []), "", now, []);
    var start := B.Work(w.records, w.entries, [], {});
    assert [p][..0] == [];
    assert B.OnPtrs(c.question, start, [p], "", now) == B.OnPtr(c.question, start, p, "", now);
    var u := Heard1(c, w, ev.m, "", now);
    assert u == B.OnPtr(c.question, start, p, "", now) && u.removed[0] == (j, w.entries[j]);
    assert KeyFor(c.service, u.removed[0].1) in RetiredKeys(c.service, u.removed);
  }

  // ---- Why a message must not revive what it retires ----

  function Announcement(question: string, x: string, target: string, ip: string, goodbyeFirst: bool): B.Message {
    B.Message((if goodbyeFirst then [B.Ptr(question, x, 0)] else []) + [B.Ptr(question, x, 120)],
              [B.Srv(x, target)], [], [B.Address(target, ip)], [])
  }

  lemma TwoPtrs(question: string, w: B.Work, p: B.Ptr, q: B.Ptr)
    ensures B.OnPtrs(question, w, [p], "", 0) == B.OnPtr(question, w, p, "", 0)
    ensures B.OnPtrs(question, w, [p, q], "", 0) == B.OnPtr(question, B.OnPtr(question, w, p, "", 0), q, "", 0)
  {
    assert [p][..0] == [] && [p, q][..1] == [p];
  }

  /** The host and address that follow the PTR records. */
  lemma RestOfAnnouncement(u: B.Work, x: string, target: string, ip: string)
    requires u.entries.Keys == {x} && u.touched == {x} && TrimSuffix(target, ".") != ""
    ensures var v := B.OnAddresses(B.OnAddresses(B.OnTxts(B.OnSrvs(u, [B.Srv(x, target)]), []), [B.Address(target, ip)], false), [], true);
            && v.records == u.records && v.removed == u.removed && v.touched == {x} && v.entries.Keys == {x}
            && v.entries[x].host == TrimSuffix(target, ".") && v.entries[x].instance == u.entries[x].instance
            && B.Resolvable(v.entries[x])
  {
    var s, a := B.Srv(x, target), B.Address(target, ip);
    OneOfEach(u, s, a);
    OneOfEach(B.OnSrv(u, s), s, a);
    assert B.At(B.OnSrv(u, s).entries[x], a);
  }

  lemma OneOfEach(u: B.Work, s: B.Srv, a: B.Address)
    ensures B.OnSrvs(u, [s]) == B.OnSrv(u, s)
    ensures B.OnAddresses(u, [a], false) == B.OnAddress(u, a, false)
  {
    assert [s][..0] == [] && [a][..0] == [];
    assert B.OnSrvs(u, []) == u && B.OnAddresses(u, [], false) == u;
  }

  lemma FirstAnnouncement(question: string, x: string, target: string, ip: string)
    requires TrimSuffix(target, ".") != ""
    ensures var u := B.Ingested(question, map[], map[], Announcement(question, x, target, ip, false), "", 0);
            && u.entries.Keys == u.records.Keys == {x} && B.Announced(u) == {x} && u.removed == []
            && u.entries[x].host == TrimSuffix(target, ".") && u.entries[x].instance == B.InstanceLabel(x, question)
  {
    var start := B.Work(map[], map[], [], {});
    var p := B.Ptr(question, x, 120);
    TwoPtrs(question, start, p, p);
    assert Announcement(question, x, target, ip, false).ptrs == [p];
    RestOfAnnouncement(B.OnPtr(question, start, p, "", 0), x, target, ip);
  }

  lemma GoodbyeThenHello(question: string, records: Records, entries: B.Entries, x: string)
    requires records.Keys == entries.Keys == {x}
    ensures var u := B.OnPtr(question, B.OnPtr(question, B.Work(records, entries, [], {}), B.Ptr(question, x, 0), "", 0),
                             B.Ptr(question, x, 120), "", 0);
            && u.entries.Keys == u.records.Keys == u.touched == {x} && u.removed == [(x, entries[x])]
            && u.entries[x].instance == B.InstanceLabel(x, question)
            && u.records[x].ttl == 120 * SECOND && u.records[x].storedAt == 0
  {
    assert (entries - {x}).Keys == {} && (records - {x}).Keys == {};
  }

  lemma SecondAnnouncement(question: string, records: Records, entries: B.Entries, x: string, target: string, ip: string)
    requires records.Keys == entries.Keys == {x} && TrimSuffix(target, ".") != ""
    ensures var u := B.Ingested(question, records, entries, Announcement(question, x, target, ip, true), "", 0);
            && u.entries.Keys == u.records.Keys == {x} && B.Announced(u) == {x} && u.removed == [(x, entries[x])]
            && u.entries[x].host == TrimSuffix(target, ".") && u.entries[x].instance == B.InstanceLabel(x, question)
            && u.records[x].ttl == 120 * SECOND && u.records[x].storedAt == 0
  {
    var v := AfterBothPtrs(question, records, entries, x);
    assert Announcement(question, x, target, ip, true).ptrs == [B.Ptr(question, x, 0), B.Ptr(question, x, 120)];
    RestOfAnnouncement(v, x, target, ip);
  }

  lemma AfterBothPtrs(question: string, records: Records, entries: B.Entries, x: string) returns (v: B.Work)
    requires records.Keys == entries.Keys == {x}
    ensures v == B.OnPtrs(question, B.Work(records, entries, [], {}), [B.Ptr(question, x, 0), B.Ptr(question, x, 120)], "", 0)
    ensures v.entries.Keys == v.records.Keys == v.touched == {x} && v.removed == [(x, entries[x])]
    ensures v.entries[x].instance == B.InstanceLabel(x, question)
    ensures v.records[x].ttl == 120 * SECOND && v.records[x].storedAt == 0
  {
    var start := B.Work(records, entries, [], {});
    var g, p := B.Ptr(question, x, 0), B.Ptr(question, x, 120);
    TwoPtrs(question, start, g, p);
    GoodbyeThenHello(question, records, entries, x);
    v := B.OnPtr(question, B.OnPtr(question, start, g, "", 0), p, "", 0);
  }

  function Says(c: Config, x: string, target: string, ip: string, goodbyeFirst: bool): Event {
    Heard(Announcement(c.question, x, target, ip, goodbyeFirst), "", 0, [x])
  }

  lemma FirstHeard(c: Config, x: string, target: string, ip: string) returns (w: World)
    requires TrimSuffix(target, ".") != ""
    ensures Possible(c, World(map[], map[], map[]), Says(c, x, target, ip, false))
    ensures w == Next(c, World(map[], map[], map[]), Says(c, x, target, ip, false))
    ensures w.records.Keys == w.entries.Keys == {x}
    ensures w.entries[x].host == TrimSuffix(target, ".") && w.entries[x].instance == B.InstanceLabel(x, c.question)
  {
    FirstAnnouncement(c.question, x, target, ip);
    w := Next(c, World(map[], map[], map[]), Says(c, x, target, ip, false));
  }

  /** Adds go out before removes, so a message that says goodbye to an instance and announces it
      again makes the table drop an instance the browse goes on holding: for every instance, host
      and address. */
  lemma RevivalLosesTheInstance(c: Config, x: string, target: string, ip: string) returns (w1: World, w2: World)
    requires TrimSuffix(target, ".") != "" && ListenerHost(TrimSuffix(target, ".")) != ""
    ensures Possible(c, World(map[], map[], map[]), Says(c, x, target, ip, false))
    ensures w1 == Next(c, World(map[], map[], map[]), Says(c, x, target, ip, false))
    ensures Possible(c, w1, Says(c, x, target, ip, true)) && w2 == Next(c, w1, Says(c, x, target, ip, true))
    ensures Live(w2, x, 0) && KeyFor(c.service, w2.entries[x]) !in w2.table
  {
    w1 := FirstHeard(c, x, target, ip);
    RevivalDrops(c, w1, x, target, ip);
    w2 := Next(c, w1, Says(c, x, target, ip, true));
  }

  lemma RevivalDrops(c: Config, w: World, x: string, target: string, ip: string)
    requires w.records.Keys == w.entries.Keys == {x}
    requires TrimSuffix(target, ".") != "" && ListenerHost(TrimSuffix(target, ".")) != ""
    requires w.entries[x].host == TrimSuffix(target, ".") && w.entries[x].instance == B.InstanceLabel(x, c.question)
    ensures var ev := Says(c, x, target, ip, true);
            && Possible(c, w, ev)
            && Live(Next(c, w, ev), x, 0)
            && KeyFor(c.service, Next(c, w, ev).entries[x]) !in Next(c, w, ev).table
  {
    SecondAnnouncement(c.question, w.records, w.entries, x, target, ip);
    var u := B.Ingested(c.question, w.records, w.entries, Announcement(c.question, x, target, ip, true), "", 0);
    assert u.removed[0].1 == w.entries[x];
    assert KeyFor(c.service, u.removed[0].1) in RetiredKeys(c.service, u.removed);
  }
}
