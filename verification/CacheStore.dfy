/** The two cache tiers and the flush epoch. */
module CacheStore {
  import opened Common
  import opened IpNets
  import opened VlanTable
  import opened CacheEntry

  const MAX_SCOPED_PER_KEY := 16

  datatype ScopedEntry = ScopedEntry(prefix: Net, e: Entry)

  type ScopedList = seq<ScopedEntry>

  // ---- Choosing among scoped entries ----

  predicate Candidate(se: ScopedEntry, ip: Addr, now: int, staleTTL: int) {
    Usable(se.e, now, staleTTL) && Contains(se.prefix, ip)
  }

  /** Fresh before stale, then the longer mask. */
  predicate Better(a: ScopedEntry, b: ScopedEntry, now: int) {
    if Fresh(a.e, now) == Fresh(b.e, now) then a.prefix.ones > b.prefix.ones else Fresh(a.e, now)
  }

  /** Index k holds a candidate that no other candidate beats. */
  ghost predicate IsBest(l: ScopedList, ip: Addr, now: int, staleTTL: int, k: int) {
    && 0 <= k < |l| && Candidate(l[k], ip, now, staleTTL)
    && forall m :: 0 <= m < |l| && Candidate(l[m], ip, now, staleTTL) ==> !Better(l[m], l[k], now)
  }

  /** How the best of a list changes when it grows by one. */
  lemma OneMoreCandidate(l: ScopedList, ip: Addr, now: int, staleTTL: int, n: nat, r: Option<nat>)
    requires 0 < n <= |l|
    requires r.Some? ==> r.value < n - 1 && IsBest(l[..n - 1], ip, now, staleTTL, r.value)
    requires r.None? ==> forall m :: 0 <= m < n - 1 ==> !Candidate(l[m], ip, now, staleTTL)
    ensures var takes := Candidate(l[n - 1], ip, now, staleTTL) && (r.None? || Better(l[n - 1], l[r.value], now));
            && (takes ==> IsBest(l[..n], ip, now, staleTTL, n - 1))
            && (!takes && r.Some? ==> IsBest(l[..n], ip, now, staleTTL, r.value))
  {
    forall m | 0 <= m < n - 1 ensures l[..n][m] == l[..n - 1][m] {}
    assert l[..n][n - 1] == l[n - 1];
  }

  /** The first best candidate among the first n entries, if there is one. */
  function BestAmong(l: ScopedList, ip: Addr, now: int, staleTTL: int, n: nat): (r: Option<nat>)
    requires n <= |l|
    ensures r.Some? ==> r.value < n && IsBest(l[..n], ip, now, staleTTL, r.value)
    ensures r.None? ==> forall m :: 0 <= m < n ==> !Candidate(l[m], ip, now, staleTTL)
  {
    if n == 0 then None
    else
      var r := BestAmong(l, ip, now, staleTTL, n - 1);
      OneMoreCandidate(l, ip, now, staleTTL, n, r);
      if Candidate(l[n - 1], ip, now, staleTTL) && (r.None? || Better(l[n - 1], l[r.value], now)) then Some(n - 1)
      else r
  }

  function Best(l: ScopedList, ip: Addr, now: int, staleTTL: int): (r: Option<nat>)
    ensures r.Some? ==> IsBest(l, ip, now, staleTTL, r.value)
    ensures r.None? <==> forall m :: 0 <= m < |l| ==> !Candidate(l[m], ip, now, staleTTL)
  {
    assert l[..|l|] == l;
    BestAmong(l, ip, now, staleTTL, |l|)
  }

  /** A best entry in terms of times and masks. */
  lemma BestMeans(l: ScopedList, ip: Addr, now: int, staleTTL: int, k: nat)
    requires IsBest(l, ip, now, staleTTL, k)
    ensures var end := l[k].e.stored + l[k].e.origTTL;
            Contains(l[k].prefix, ip) && Fresh(l[k].e, now) == (now < end) && (now < end || (staleTTL > 0 && now <= end + staleTTL))
    ensures !Fresh(l[k].e, now) ==> forall m :: 0 <= m < |l| && Contains(l[m].prefix, ip) ==> now >= l[m].e.stored + l[m].e.origTTL
    ensures forall m :: 0 <= m < |l| && Contains(l[m].prefix, ip)
                        && now < l[m].e.stored + l[m].e.origTTL + (if Fresh(l[k].e, now) then 0 else staleTTL + 1)
                        ==> l[m].prefix.ones <= l[k].prefix.ones
  {
  }

  // ---- Bounded lists of distinct prefixes ----

  /** IPNet.String agrees exactly when the blocks agree. */
  predicate SamePrefix(a: Net, b: Net) {
    BlockOf(a) == BlockOf(b)
  }

  ghost predicate ListOk(l: ScopedList) {
    && |l| <= MAX_SCOPED_PER_KEY
    && (forall k :: 0 <= k < |l| ==> Canonical(l[k].prefix))
    && forall j, k :: 0 <= j < k < |l| ==> !SamePrefix(l[j].prefix, l[k].prefix)
  }

  function FindPrefix(l: ScopedList, prefix: Net): (i: nat)
    ensures i <= |l|
    ensures i < |l| ==> SamePrefix(l[i].prefix, prefix)
    ensures forall k :: 0 <= k < i ==> !SamePrefix(l[k].prefix, prefix)
  {
    if l == [] || SamePrefix(l[0].prefix, prefix) then 0 else 1 + FindPrefix(l[1..], prefix)
  }

  /** The list after storing e under prefix. */
  function Put(l: ScopedList, prefix: Net, e: Entry): ScopedList {
    var i := FindPrefix(l, prefix);
    if i < |l| then l[i := ScopedEntry(prefix, e)]
    else (if |l| >= MAX_SCOPED_PER_KEY then l[1..] else l) + [ScopedEntry(prefix, e)]
  }

  lemma PutOk(l: ScopedList, prefix: Net, e: Entry)
    requires ListOk(l) && Canonical(prefix)
    ensures ListOk(Put(l, prefix, e))
  {
    var i := FindPrefix(l, prefix);
    if i < |l| {
      ReplaceOk(l, i, ScopedEntry(prefix, e));
    } else {
      DropOk(l, prefix);
      AppendOk(if |l| >= MAX_SCOPED_PER_KEY then l[1..] else l, ScopedEntry(prefix, e));
    }
  }

  /** Dropping the oldest of a full list. */
  lemma DropOk(l: ScopedList, prefix: Net)
    requires ListOk(l) && forall k :: 0 <= k < |l| ==> !SamePrefix(l[k].prefix, prefix)
    ensures l != [] ==> ListOk(l[1..]) && forall k :: 0 <= k < |l| - 1 ==> !SamePrefix(l[1..][k].prefix, prefix)
  {
    if l != [] {
      var r := l[1..];
      forall k | 0 <= k < |r| ensures Canonical(r[k].prefix) && !SamePrefix(r[k].prefix, prefix) { assert r[k] == l[k + 1]; }
      forall j, k | 0 <= j < k < |r| ensures !SamePrefix(r[j].prefix, r[k].prefix) {
        assert r[j] == l[j + 1] && r[k] == l[k + 1];
      }
    }
  }

  /** Replacing an entry by one for the same prefix. */
  lemma ReplaceOk(l: ScopedList, i: nat, x: ScopedEntry)
    requires ListOk(l) && i < |l| && SamePrefix(l[i].prefix, x.prefix) && Canonical(x.prefix)
    ensures ListOk(l[i := x])
  {
    var r := l[i := x];
    forall j, k | 0 <= j < k < |r| ensures !SamePrefix(r[j].prefix, r[k].prefix) {
      assert !SamePrefix(l[j].prefix, l[k].prefix);
    }
  }

  /** Storing keeps a list bounded and its prefixes distinct, holds the new entry, and loses at
      most one other: the one it replaces, or the oldest when the list was full. */
  lemma PutKeeps(l: ScopedList, prefix: Net, e: Entry)
    requires ListOk(l) && Canonical(prefix)
    ensures ListOk(Put(l, prefix, e))
    ensures |Put(l, prefix, e)| <= 16
    ensures forall j, k :: 0 <= j < k < |Put(l, prefix, e)| ==> BlockOf(Put(l, prefix, e)[j].prefix) != BlockOf(Put(l, prefix, e)[k].prefix)
    ensures ScopedEntry(prefix, e) in Put(l, prefix, e)
    ensures forall x :: x in Put(l, prefix, e) ==> x == ScopedEntry(prefix, e) || x in l
    ensures forall k :: 0 <= k < |l| && l[k] !in Put(l, prefix, e) ==>
              BlockOf(l[k].prefix) == BlockOf(prefix)
              || (k == 0 && |l| == 16 && forall m :: 0 <= m < |l| ==> BlockOf(l[m].prefix) != BlockOf(prefix))
  {
    var p := Put(l, prefix, e);
    PutOk(l, prefix, e);
    assert p[if FindPrefix(l, prefix) < |l| then FindPrefix(l, prefix) else |p| - 1] == ScopedEntry(prefix, e);
    forall k | 0 <= k < |l|
      ensures l[k] !in p ==> SamePrefix(l[k].prefix, prefix)
                             || (k == 0 && |l| == MAX_SCOPED_PER_KEY && FindPrefix(l, prefix) == |l|)
    {
      if FindPrefix(l, prefix) < |l| {
        if k != FindPrefix(l, prefix) { assert p[k] == l[k]; }
      } else if |l| < MAX_SCOPED_PER_KEY {
        assert p[k] == l[k];
      } else if k > 0 {
        assert p[k - 1] == l[k];
      }
    }
  }

  /** What a flush keeps of a list, in order. */
  function Kept(l: ScopedList, name: Option<string>): (r: ScopedList)
    ensures forall x :: x in r <==> x in l && !Targets(name, x.e)
    ensures |r| <= |l|
  {
    if l == [] then []
    else if Targets(name, l[|l| - 1].e) then Kept(l[..|l| - 1], name)
    else Kept(l[..|l| - 1], name) + [l[|l| - 1]]
  }

  /** A flush keeps the order of a list. */
  lemma {:induction false} KeptInOrder(l: ScopedList, name: Option<string>, i: nat, j: nat) returns (a: nat, b: nat)
    requires i < j < |Kept(l, name)|
    ensures a < b < |l| && l[a] == Kept(l, name)[i] && l[b] == Kept(l, name)[j]
  {
    var rest, last := l[..|l| - 1], l[|l| - 1];
    KeptLast(rest, last, name);
    assert l == rest + [last];
    if j < |Kept(rest, name)| {
      a, b := KeptInOrder(rest, name, i, j);
    } else {
      a := IndexIn(rest, Kept(rest, name)[i]);
      b := |rest|;
    }
  }

  lemma KeptLast(rest: ScopedList, last: ScopedEntry, name: Option<string>)
    ensures Kept(rest + [last], name) == Kept(rest, name) + if Targets(name, last.e) then [] else [last]
  {
    assert (rest + [last])[..|rest|] == rest;
  }

  lemma IndexIn(l: ScopedList, x: ScopedEntry) returns (a: nat)
    requires x in l
    ensures a < |l| && l[a] == x
  {
    a :| a < |l| && l[a] == x;
  }

  lemma {:induction false} KeptOk(l: ScopedList, name: Option<string>)
    requires ListOk(l)
    ensures ListOk(Kept(l, name))
  {
    if l != [] {
      var n := |l| - 1;
      var front := l[..n];
      assert ListOk(front);
      KeptOk(front, name);
      if !Targets(name, l[n].e) {
        DistinctFromFront(l, Kept(front, name));
        AppendOk(Kept(front, name), l[n]);
      }
    }
  }

  lemma DistinctFromFront(l: ScopedList, r: ScopedList)
    requires ListOk(l) && l != [] && forall x :: x in r ==> x in l[..|l| - 1]
    ensures forall k :: 0 <= k < |r| ==> !SamePrefix(r[k].prefix, l[|l| - 1].prefix)
  {
    forall k | 0 <= k < |r| ensures !SamePrefix(r[k].prefix, l[|l| - 1].prefix) {
      assert r[k] in r;
      var j :| 0 <= j < |l| - 1 && l[j] == r[k];
    }
  }

  lemma AppendOk(l: ScopedList, x: ScopedEntry)
    requires ListOk(l) && |l| < MAX_SCOPED_PER_KEY && Canonical(x.prefix)
    requires forall k :: 0 <= k < |l| ==> !SamePrefix(l[k].prefix, x.prefix)
    ensures ListOk(l + [x])
  {
  }

  /** Two distinct prefixes that hold the same address have masks of different lengths. */
  lemma SameMaskSamePrefix(a: Net, b: Net, ip: Addr)
    requires Canonical(a) && Canonical(b) && Contains(a, ip) && Contains(b, ip) && a.ones == b.ones
    ensures SamePrefix(a, b)
  {
    var x: Addr :| a == NetOf(x, a.ones, a.bits);
    var y: Addr :| b == NetOf(y, b.ones, b.bits);
    NetOfBlock(x, a.ones, a.bits);
    NetOfBlock(y, b.ones, b.bits);
    var p, q := BlockOf(a).value, BlockOf(b).value;
    ShrClearLow(if p.v6 then Wide(x) else x.n, p.free);
    ShrClearLow(if q.v6 then Wide(y) else y.n, q.free);
  }

  /** In a list of distinct prefixes the best candidate beats every other one, so it does not
      depend on the order of the list. */
  lemma BestIsUnique(l: ScopedList, r: ScopedList, ip: Addr, now: int, staleTTL: int)
    requires ListOk(l) && multiset(l) == multiset(r)
    ensures Best(l, ip, now, staleTTL).Some? == Best(r, ip, now, staleTTL).Some?
    ensures Best(l, ip, now, staleTTL).Some? ==>
              var k := Best(l, ip, now, staleTTL).value;
              && l[k] == r[Best(r, ip, now, staleTTL).value]
              && forall m :: 0 <= m < |l| && m != k && Candidate(l[m], ip, now, staleTTL) ==> Better(l[k], l[m], now)
  {
    var i, j := Best(l, ip, now, staleTTL), Best(r, ip, now, staleTTL);
    forall m | 0 <= m < |r| ensures r[m] in l { assert r[m] in multiset(l); }
    forall m | 0 <= m < |l| ensures l[m] in r { assert l[m] in multiset(r); }
    if i.Some? {
      var k := i.value;
      forall m | 0 <= m < |l| && m != k && Candidate(l[m], ip, now, staleTTL)
        ensures Better(l[k], l[m], now)
      {
        if l[k].prefix.ones == l[m].prefix.ones {
          SameMaskSamePrefix(l[k].prefix, l[m].prefix, ip);
        }
      }
      assert j.Some? by { var m :| 0 <= m < |r| && r[m] == l[k]; }
      var m :| 0 <= m < |l| && l[m] == r[j.value];
    }
  }

  /** The entry chosen is the narrowest of its equally fresh rivals, each covering all it covers,
      exactly when its mask leaves no more bits free: masks are compared by their length alone, and
      a 16-byte mask on an IPv4 address counts the 96 bits before it. */
  lemma BestIsNarrowest(l: ScopedList, ip: Addr, now: int, staleTTL: int, k: nat, m: nat)
    requires ListOk(l) && IsBest(l, ip, now, staleTTL, k) && m < |l| && Candidate(l[m], ip, now, staleTTL)
    requires Fresh(l[m].e, now) == Fresh(l[k].e, now)
    ensures (forall x: Addr :: Contains(l[k].prefix, x) ==> Contains(l[m].prefix, x))
       <==> l[k].prefix.bits - l[k].prefix.ones <= l[m].prefix.bits - l[m].prefix.ones
    ensures l[k].prefix.bits == l[m].prefix.bits ==> l[k].prefix.ones >= l[m].prefix.ones
  {
    var p, q := BlockOf(l[k].prefix).value, BlockOf(l[m].prefix).value;
    FreeBits(l[k].prefix, ip);
    FreeBits(l[m].prefix, ip);
    assert l[m].prefix.ones <= l[k].prefix.ones;
    if p.free <= q.free {
      Nested(q, p, ip);
    } else {
      var y := WiderReaches(p, q, ip);
      assert Contains(l[k].prefix, y) && !Contains(l[m].prefix, y);
    }
  }

  /** For 10.0.0.1 a scope of 100 echoed as family 2 is a block of 28 free bits, and beats a /24. */
  lemma WideBlockWins(e: Entry, now: int, staleTTL: int)
    requires Fresh(e, now)
    ensures var ip := V4(0x0a000001);
            var l := [ScopedEntry(NetOf(ip, 24, 32), e), ScopedEntry(NetOf(ip, 100, 128), e)];
            ListOk(l) && IsBest(l, ip, now, staleTTL, 1) && Candidate(l[0], ip, now, staleTTL)
            && !forall x: Addr :: Contains(l[1].prefix, x) ==> Contains(l[0].prefix, x)
  {
    var ip := V4(0x0a000001);
    OwnNetContains(ip, 24, 32);
    OwnNetContains(ip, 100, 128);
    NetOfBlock(ip, 24, 32);
    NetOfBlock(ip, 100, 128);
    var l := [ScopedEntry(NetOf(ip, 24, 32), e), ScopedEntry(NetOf(ip, 100, 128), e)];
    BestIsNarrowest(l, ip, now, staleTTL, 1, 0);
  }

  lemma DependsMeans(e: Entry, name: string)
    ensures DependsOn(e, name) <==>
              || e.qname == name
              || exists x :: x in e.answer && (ToLower(x.owner) == ToLower(name)
                   || ((x.data.Cname? || x.data.Dname?) && ToLower(x.data.target) == ToLower(name)))
  {
  }

  // ---- The store ----

  type Key = nat

  /** How many entries a tier of lists holds. */
  ghost function Sizes(m: map<Key, ScopedList>): map<Key, int> {
    map k | k in m :: |m[k]|
  }

  /** The scoped tier after a flush: lists that lose everything are dropped. */
  function KeptTier<K>(m: map<K, ScopedList>, name: Option<string>): map<K, ScopedList> {
    map k | k in m && Kept(m[k], name) != [] :: Kept(m[k], name)
  }

  ghost function KeptDirect(m: map<Key, Entry>, name: Option<string>): map<Key, Entry> {
    map k | k in m && !Targets(name, m[k]) :: m[k]
  }

  lemma SizesSplit(m: map<Key, ScopedList>, k: Key)
    requires k in m
    ensures SumMap(Sizes(m)) == |m[k]| + SumMap(Sizes(m - {k}))
  {
    SumMapRemove(Sizes(m), k);
    assert Sizes(m) - {k} == Sizes(m - {k});
  }

  /** Where entries are listed: a key and a position. */
  ghost function Places(m: map<Key, ScopedList>): set<(Key, int)> {
    set k, i | k in m && 0 <= i < |m[k]| :: (k, i)
  }

  /** Counting by lists counts every listed entry once. */
  lemma {:induction false} SizesCountEntries(m: map<Key, ScopedList>)
    ensures SumMap(Sizes(m)) == |Places(m)|
    decreases |m|
  {
    if m == map[] {
      assert Sizes(m) == map[] && Places(m) == {};
    } else {
      var j :| j in m;
      SizesCountEntries(m - {j});
      SizesSplit(m, j);
      PlacesSplit(m, j);
    }
  }

  lemma PlacesSplit(m: map<Key, ScopedList>, j: Key)
    requires j in m
    ensures |Places(m)| == |Places(m - {j})| + |m[j]|
  {
    var mine := PlacesOf(j, |m[j]|);
    var others := Places(m - {j});
    forall x ensures x in Places(m) <==> x in others + mine {}
    assert Places(m) == others + mine && others !! mine;
  }

  lemma {:induction false} PlacesOf(j: Key, n: nat) returns (places: set<(Key, int)>)
    ensures places == (set i | 0 <= i < n :: (j, i)) && |places| == n
  {
    places := {};
    if n > 0 {
      var fewer := PlacesOf(j, n - 1);
      places := fewer + {(j, n - 1)};
    }
  }

  class Store {
    var direct: map<Key, Entry>
    var scoped: map<Key, ScopedList>
    var epoch: nat

    constructor ()
      ensures direct == map[] && scoped == map[] && epoch == 0
    {
      direct, scoped, epoch := map[], map[], 0;
    }

    /** Every list in the scoped tier is bounded and free of duplicate prefixes. */
    ghost predicate Valid()
      reads this
    {
      forall k :: k in scoped ==> ListOk(scoped[k])
    }

    /** A hit is within its TTL, or, with stale serving on, no more than the grace period past it. */
    method GetDirect(key: Key, now: int, staleTTL: int) returns (e: Option<Entry>, isFresh: bool)
      ensures e.Some? <==> (key in direct && var end := direct[key].stored + direct[key].origTTL;
                            now < end || (staleTTL > 0 && now <= end + staleTTL))
      ensures e.Some? ==> e.value == direct[key] && isFresh == (now < direct[key].stored + direct[key].origTTL)
      ensures e.Some? <==> key in direct && Usable(direct[key], now, staleTTL)
    {
      if key !in direct { return None, false; }
      var rem := Remaining(direct[key], now);
      if rem > 0 { return Some(direct[key]), true; }
      if staleTTL > 0 && -rem <= staleTTL { return Some(direct[key]), false; }
      return None, false;
    }

    /** The capacity-bounded tier may drop other keys when one is added. */
    method SetDirect(key: Key, e: Entry, evicted: set<Key>)
      requires key !in evicted
      modifies this`direct
      ensures direct == old(direct)[key := e] - evicted
    {
      direct := direct[key := e] - evicted;
    }

    method Generation() returns (gen: nat)
      ensures gen == epoch
    {
      return epoch;
    }

    method Invalidate()
      modifies this`epoch
      ensures epoch == old(epoch) + 1
    {
      epoch := epoch + 1;
    }

    /** ifCurrent around a direct store. */
    method SetDirectIfCurrent(gen: nat, key: Key, e: Entry, evicted: set<Key>)
      requires key !in evicted
      modifies this`direct
      ensures direct == if epoch == gen then old(direct)[key := e] - evicted else old(direct)
    {
      if epoch == gen { SetDirect(key, e, evicted); }
    }

    /** ifCurrent around a scoped store. */
    method SetScopedIfCurrent(gen: nat, key: Key, prefix: Net, e: Entry)
      requires Valid() && Canonical(prefix)
      modifies this`scoped
      ensures Valid()
      ensures scoped == if epoch == gen then old(scoped)[key := Put(ListAt(old(scoped), key), prefix, e)] else old(scoped)
    {
      if epoch == gen { SetScoped(key, prefix, e); }
    }

    /** A miss means that no listed entry that covers the address is within its TTL or the grace
        period. A hit is such an entry; a stale one means that no covering entry is fresh; and no
        covering entry that is as usable has a longer mask. */
    method GetScoped(key: Key, ip: Option<Addr>, now: int, staleTTL: int)
      returns (e: Option<Entry>, isFresh: bool, ghost at: nat)
      ensures e.None? <==> ip.None? || key !in scoped || forall k :: 0 <= k < |scoped[key]| && Contains(scoped[key][k].prefix, ip.value) ==>
                var end := scoped[key][k].e.stored + scoped[key][k].e.origTTL;
                now >= end && (staleTTL <= 0 || now > end + staleTTL)
      ensures e.Some? ==> ip.Some? && key in scoped && at < |scoped[key]| && e.value == scoped[key][at].e
      ensures e.Some? ==>
                var end := e.value.stored + e.value.origTTL;
                && Contains(scoped[key][at].prefix, ip.value)
                && isFresh == (now < end)
                && (isFresh || (staleTTL > 0 && now <= end + staleTTL))
      ensures e.Some? && !isFresh ==> forall m :: 0 <= m < |scoped[key]| && Contains(scoped[key][m].prefix, ip.value) ==>
                now >= scoped[key][m].e.stored + scoped[key][m].e.origTTL
      ensures e.Some? ==> forall m :: 0 <= m < |scoped[key]| && Contains(scoped[key][m].prefix, ip.value)
                                      && now < scoped[key][m].e.stored + scoped[key][m].e.origTTL + (if isFresh then 0 else staleTTL + 1)
                                      ==> scoped[key][m].prefix.ones <= scoped[key][at].prefix.ones
      ensures ip.Some? ==> Best(ListAt(scoped, key), ip.value, now, staleTTL) == if e.Some? then Some(at) else None
    {
      at := 0;
      if ip.None? { return None, false, at; }
      var entries := ListAt(scoped, key);
      var best: Option<nat> := None;
      var bestLen: int := -1;
      var bestFresh := false;
      for k := 0 to |entries|
        invariant best == BestAmong(entries, ip.value, now, staleTTL, k)
        invariant best.Some? ==> bestLen == entries[best.value].prefix.ones && bestFresh == Fresh(entries[best.value].e, now)
      {
        var se := entries[k];
        var rem := Remaining(se.e, now);
        var entryFresh := rem > 0;
        if !entryFresh && (staleTTL <= 0 || -rem > staleTTL) { continue; }
        if !Contains(se.prefix, ip.value) { continue; }
        var l := se.prefix.ones;
        if best.None? || (entryFresh && !bestFresh) || (entryFresh == bestFresh && l > bestLen) {
          best, bestLen, bestFresh := Some(k), l, entryFresh;
        }
      }
      assert best == Best(entries, ip.value, now, staleTTL);
      if best.None? { return None, false, at; }
      BestMeans(entries, ip.value, now, staleTTL, best.value);
      return Some(entries[best.value].e), bestFresh, best.value;
    }

    method SetScoped(key: Key, prefix: Net, e: Entry)
      requires Valid() && Canonical(prefix)
      modifies this`scoped
      ensures Valid()
      ensures scoped == old(scoped)[key := Put(ListAt(old(scoped), key), prefix, e)]
    {
      var entries := ListAt(scoped, key);
      PutKeeps(entries, prefix, e);
      for i := 0 to |entries|
        invariant scoped == old(scoped)
        invariant forall k :: 0 <= k < i ==> !SamePrefix(entries[k].prefix, prefix)
      {
        if SamePrefix(entries[i].prefix, prefix) {
          entries := entries[i := ScopedEntry(prefix, e)];
          scoped := scoped[key := entries];
          return;
        }
      }
      if |entries| >= MAX_SCOPED_PER_KEY { entries := entries[1..]; }
      scoped := scoped[key := entries + [ScopedEntry(prefix, e)]];
    }

    /** Empties both tiers and opens a new epoch; the count is what was there. */
    method Clear() returns (n: int)
      modifies this
      ensures direct == map[] && scoped == map[] && epoch == old(epoch) + 1
      ensures n == |old(direct)| + SumMap(Sizes(old(scoped)))
    {
      Invalidate();
      n := 0;
      var keys := direct.Keys;
      while keys != {}
        invariant direct.Keys == keys && n + |direct| == |old(direct)|
        invariant scoped == old(scoped) && epoch == old(epoch) + 1
        decreases |keys|
      {
        var k :| k in keys;
        assert |direct - {k}| == |direct| - 1 by { assert (direct - {k}).Keys == direct.Keys - {k}; }
        direct := direct - {k};
        n := n + 1;
        keys := keys - {k};
      }
      var lists := scoped.Keys;
      while lists != {}
        invariant scoped.Keys == lists && direct == map[] && epoch == old(epoch) + 1
        invariant n + SumMap(Sizes(scoped)) == |old(direct)| + SumMap(Sizes(old(scoped)))
        decreases |lists|
      {
        var k :| k in lists;
        SizesSplit(scoped, k);
        n := n + |scoped[k]|;
        scoped := scoped - {k};
        lists := lists - {k};
      }
    }

    /** Drops what depends on a name from both tiers, and nothing else: what was asked for it, and
        what mentions it, whatever the case, as an owner or as the target of an alias. */
    method ClearName(qname: string) returns (n: int)
      requires Valid()
      modifies this
      ensures Valid()
      ensures forall k :: k in direct ==> k in old(direct) && direct[k] == old(direct)[k]
      ensures forall k :: k in old(direct) ==>
                (k !in direct <==>
                   || old(direct)[k].qname == qname
                   || exists x :: x in old(direct)[k].answer && (ToLower(x.owner) == ToLower(qname)
                        || ((x.data.Cname? || x.data.Dname?) && ToLower(x.data.target) == ToLower(qname))))
      ensures forall k :: k in scoped ==> k in old(scoped) && scoped[k] != [] && forall x :: x in scoped[k] ==> x in old(scoped)[k]
      ensures forall k, y :: k in old(scoped) && y in old(scoped)[k] ==>
                (!(k in scoped && y in scoped[k]) <==>
                   || y.e.qname == qname
                   || exists x :: x in y.e.answer && (ToLower(x.owner) == ToLower(qname)
                        || ((x.data.Cname? || x.data.Dname?) && ToLower(x.data.target) == ToLower(qname))))
      ensures direct == KeptDirect(old(direct), Some(qname))
      ensures scoped == KeptTier(old(scoped), Some(qname))
      ensures epoch == old(epoch) + 1
      ensures n == |old(direct)| - |direct| + SumMap(Sizes(old(scoped))) - SumMap(Sizes(scoped))
    {
      Invalidate();
      n := ClearNameDirect(qname);
      n := ClearNameScoped(qname, n);
      forall k | k in old(direct) { DependsMeans(old(direct)[k], qname); }
      forall k, y | k in old(scoped) && y in old(scoped)[k] { DependsMeans(y.e, qname); }
    }

    /** The walk over the direct tier. */
    method ClearNameDirect(qname: string) returns (n: int)
      modifies this`direct
      ensures direct == KeptDirect(old(direct), Some(qname))
      ensures n == |old(direct)| - |direct|
    {
      n := 0;
      var keys := direct.Keys;
      while keys != {}
        invariant keys <= direct.Keys <= old(direct).Keys
        invariant n == |old(direct)| - |direct|
        invariant forall k :: k in old(direct) ==>
                    (k in direct <==> k in keys || !Targets(Some(qname), old(direct)[k]))
        invariant forall k :: k in direct ==> direct[k] == old(direct)[k]
        decreases |keys|
      {
        var k :| k in keys;
        if DependsOn(direct[k], qname) {
          assert |direct - {k}| == |direct| - 1 by { assert (direct - {k}).Keys == direct.Keys - {k}; }
          direct := direct - {k};
          n := n + 1;
        }
        keys := keys - {k};
      }
    }

    /** The locked sweep of the scoped tier. */
    method ClearNameScoped(qname: string, n0: int) returns (n: int)
      requires Valid()
      modifies this`scoped
      ensures Valid()
      ensures scoped == KeptTier(old(scoped), Some(qname))
      ensures n == n0 + SumMap(Sizes(old(scoped))) - SumMap(Sizes(scoped))
      ensures forall k, y :: k in old(scoped) && y in old(scoped)[k] ==> (k in scoped && y in scoped[k] <==> !DependsOn(y.e, qname))
      ensures forall k :: k in scoped ==> k in old(scoped) && scoped[k] != [] && forall x :: x in scoped[k] ==> x in old(scoped)[k]
    {
      n := n0;
      var lists := scoped.Keys;
      assert scoped == Swept(scoped, lists, Some(qname));
      while lists != {}
        invariant lists <= old(scoped).Keys && scoped == Swept(old(scoped), lists, Some(qname))
        invariant n == n0 + SumMap(Sizes(old(scoped))) - SumMap(Sizes(scoped))
        decreases |lists|
      {
        var k :| k in lists;
        ghost var before := scoped;
        var kept, removed := KeepOthers(scoped[k], qname);
        n := n + removed;
        SizesSplit(scoped, k);
        if |kept| == 0 {
          scoped := scoped - {k};
        } else {
          SizesPut(scoped, k, kept);
          scoped := scoped[k := kept];
        }
        SweepOne(old(scoped), lists, Some(qname), k);
        lists := lists - {k};
      }
      assert scoped == KeptTier(old(scoped), Some(qname));
      forall k | k in scoped ensures ListOk(scoped[k]) { KeptOk(old(scoped)[k], Some(qname)); }
    }
  }

  /** The scoped tier with only the given lists still to be swept. */
  ghost function Swept(m: map<Key, ScopedList>, lists: set<Key>, name: Option<string>): map<Key, ScopedList> {
    map k | k in m && (k in lists || Kept(m[k], name) != []) :: if k in lists then m[k] else Kept(m[k], name)
  }

  lemma SweepOne(m: map<Key, ScopedList>, lists: set<Key>, name: Option<string>, k: Key)
    requires lists <= m.Keys && k in lists
    ensures Swept(m, lists - {k}, name) ==
            if Kept(m[k], name) == [] then Swept(m, lists, name) - {k} else Swept(m, lists, name)[k := Kept(m[k], name)]
  {
  }

  function ListAt<K>(m: map<K, ScopedList>, key: K): ScopedList {
    if key in m then m[key] else []
  }

  lemma SizesPut(m: map<Key, ScopedList>, k: Key, l: ScopedList)
    requires k in m
    ensures SumMap(Sizes(m[k := l])) == |l| + SumMap(Sizes(m - {k}))
  {
    SizesSplit(m[k := l], k);
    assert m[k := l] - {k} == m - {k};
  }

  /** One list's pass: keep what does not depend on the name, count the rest. */
  method KeepOthers(entries: ScopedList, qname: string) returns (kept: ScopedList, removed: int)
    ensures kept == Kept(entries, Some(qname)) && removed == |entries| - |kept|
  {
    kept, removed := [], 0;
    for i := 0 to |entries|
      invariant kept == Kept(entries[..i], Some(qname)) && removed == i - |kept|
    {
      assert entries[..i + 1][..i] == entries[..i];
      if DependsOn(entries[i].e, qname) {
        removed := removed + 1;
      } else {
        kept := kept + [entries[i]];
      }
    }
    assert entries[..|entries|] == entries;
  }
}
