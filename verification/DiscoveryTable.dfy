/** The discovery table: what the browses have announced, kept for as long as each record's own
    TTL, and what may be served from it. */
module DiscoveryTable {
  import opened Common
  import opened Strings

  /** Twenty-four hours, for an entry with no TTL of its own. */
  const DEFAULT_TTL: nat := 24 * 3600 * 1_000_000_000

  datatype Entry = Entry(name: string, host: string, service: string, instance: string, txt: map<string, string>,
                         ipv4: seq<string>, ipv6: seq<string>, published: bool, promoted: bool,
                         lastSeen: int, ttl: nat, manual: bool)

  type Entries = map<string, Entry>

  /** The configuration as the decisions it makes: naming suffix, selector matches and the label
      taken from a host name. */
  datatype Policy = Policy(suffix: Entry -> string, autoPublish: Entry -> bool, promoted: map<string, Entry -> bool>,
                           hostLabel: string -> string)

  function KeyText(service: string, instance: string, host: string): string {
    ToLower(service + "|" + instance + "|" + TrimSuffix(host, ".") + ".")
  }

  function Fqdn(name: string): string { ToLower(TrimSuffix(name, ".")) + "." }

  function Rederive(p: Policy, e: Entry): Entry {
    var first := p.hostLabel(e.host);
    var named := if first != "" then e.(name := first + "." + TrimSuffix(p.suffix(e), ".") + ".") else e;
    var marked := named.(promoted := exists n :: n in p.promoted && p.promoted[n](named));
    marked.(published := marked.manual || p.autoPublish(marked) || marked.promoted)
  }

  function Upserted(p: Policy, m: Entries, e: Entry, now: int): Entries {
    var k := KeyText(e.service, e.instance, e.host);
    if k in m then
      var cur := m[k];
      m[k := Rederive(p, cur.(ipv4 := Merged(cur.ipv4, e.ipv4), ipv6 := Merged(cur.ipv6, e.ipv6),
                              txt := if |e.txt| > 0 then e.txt else cur.txt,
                              ttl := if e.ttl > 0 then e.ttl else cur.ttl, lastSeen := now))]
    else m[k := Rederive(p, e.(lastSeen := now))]
  }

  predicate Expired(e: Entry, tableTTL: nat, now: int) {
    now - e.lastSeen > if e.ttl > 0 then e.ttl else tableTTL
  }

  function Unexpired(m: Entries, tableTTL: nat, now: int): Entries {
    map k | k in m && !Expired(m[k], tableTTL, now) :: m[k]
  }

  class Table {
    var entries: Entries
    const policy: Policy
    const ttl: nat

    constructor (policy: Policy, ttl: nat)
      ensures entries == map[] && this.policy == policy && this.ttl == if ttl == 0 then 86_400_000_000_000 else ttl
    {
      entries := map[];
      this.policy := policy;
      this.ttl := if ttl == 0 then DEFAULT_TTL else ttl;
    }

    /** The entry under the announcement's key, and no other, changes. A known one gains the announced
        addresses, and its text and lifetime only where the announcement carries them; a new one is
        taken as announced. Either is seen now, named after its host under the suffix its selectors
        choose, promoted when a promoted selector matches it, and published when it was approved by hand,
        an auto-publish selector matches it, or it is promoted. */
    method Upsert(e: Entry, now: int) returns (ghost k: string)
      modifies this
      ensures k == ToLower(e.service + "|" + e.instance + "|" + TrimSuffix(e.host, ".") + ".")
      ensures entries.Keys == old(entries).Keys + {k} && forall j :: j in old(entries) && j != k ==> entries[j] == old(entries)[j]
      ensures var prior, x := if k in old(entries) then old(entries)[k] else e, entries[k];
              && x.host == prior.host && x.service == prior.service && x.instance == prior.instance && x.manual == prior.manual
              && x.lastSeen == now
              && x.txt == (if e.txt != map[] then e.txt else prior.txt)
              && x.ttl == (if e.ttl > 0 then e.ttl else prior.ttl)
      ensures k in old(entries) ==>
                && (forall a :: a in entries[k].ipv4 <==> a != "" && (a in old(entries)[k].ipv4 || a in e.ipv4))
                && (forall a :: a in entries[k].ipv6 <==> a != "" && (a in old(entries)[k].ipv6 || a in e.ipv6))
                && (forall i, j :: 0 <= i < j < |entries[k].ipv4| ==> LexLess(entries[k].ipv4[i], entries[k].ipv4[j]))
                && (forall i, j :: 0 <= i < j < |entries[k].ipv6| ==> LexLess(entries[k].ipv6[i], entries[k].ipv6[j]))
      ensures k !in old(entries) ==> entries[k].ipv4 == e.ipv4 && entries[k].ipv6 == e.ipv6
      ensures var prior, x := if k in old(entries) then old(entries)[k] else e, entries[k];
              && x.name == (if policy.hostLabel(x.host) == "" then prior.name
                            else policy.hostLabel(x.host) + "."
                                 + TrimSuffix(policy.suffix(x.(name := prior.name, promoted := prior.promoted,
                                                               published := prior.published)), ".")
                                 + ".")
              && (x.promoted <==> exists n :: n in policy.promoted
                                              && policy.promoted[n](x.(promoted := prior.promoted, published := prior.published)))
              && (x.published <==> x.manual || x.promoted || policy.autoPublish(x.(published := prior.published)))
      ensures entries == Upserted(policy, old(entries), e, now)
    {
      k := KeyText(e.service, e.instance, e.host);
      var key := KeyText(e.service, e.instance, e.host);
      if key in entries {
        var cur := Absorb(entries[key], e, now);
        cur := RederiveEntry(cur);
        entries := entries[key := cur];
        return;
      }
      var added := RederiveEntry(e.(lastSeen := now));
      entries := entries[key := added];
    }

    /** A known entry takes what a new announcement brings. */
    method Absorb(cur: Entry, e: Entry, now: int) returns (x: Entry)
      ensures x == cur.(ipv4 := Merged(cur.ipv4, e.ipv4), ipv6 := Merged(cur.ipv6, e.ipv6),
                        txt := if e.txt != map[] then e.txt else cur.txt,
                        ttl := if e.ttl > 0 then e.ttl else cur.ttl, lastSeen := now)
      ensures forall a :: a in x.ipv4 <==> a != "" && (a in cur.ipv4 || a in e.ipv4)
      ensures forall a :: a in x.ipv6 <==> a != "" && (a in cur.ipv6 || a in e.ipv6)
      ensures forall i, j :: 0 <= i < j < |x.ipv4| ==> LexLess(x.ipv4[i], x.ipv4[j])
      ensures forall i, j :: 0 <= i < j < |x.ipv6| ==> LexLess(x.ipv6[i], x.ipv6[j])
    {
      var v4 := MergeUnique(cur.ipv4, e.ipv4);
      var v6 := MergeUnique(cur.ipv6, e.ipv6);
      MergedIsUnion(cur.ipv4, e.ipv4);
      MergedIsUnion(cur.ipv6, e.ipv6);
      x := cur.(ipv4 := v4, ipv6 := v6);
      if |e.txt| > 0 { x := x.(txt := e.txt); }
      if e.ttl > 0 { x := x.(ttl := e.ttl); }
      x := x.(lastSeen := now);
    }

    method PromotedMatch(e: Entry) returns (r: bool)
      ensures r <==> exists n :: n in policy.promoted && policy.promoted[n](e)
    {
      var left := policy.promoted.Keys;
      while left != {}
        invariant left <= policy.promoted.Keys
        invariant forall n :: n in policy.promoted && n !in left ==> !policy.promoted[n](e)
        decreases |left|
      {
        var n :| n in left;
        if policy.promoted[n](e) { return true; }
        left := left - {n};
      }
      return false;
    }

    /** The mapped name, then what the selectors say of the entry under it. */
    method RederiveEntry(e: Entry) returns (x: Entry)
      ensures x == e.(name := x.name, promoted := x.promoted, published := x.published)
      ensures x.name == (if policy.hostLabel(e.host) == "" then e.name
                         else policy.hostLabel(e.host) + "." + TrimSuffix(policy.suffix(e), ".") + ".")
      ensures x.promoted <==> exists n :: n in policy.promoted && policy.promoted[n](x.(promoted := e.promoted, published := e.published))
      ensures x.published <==> x.manual || x.promoted || policy.autoPublish(x.(published := e.published))
      ensures x == Rederive(policy, e)
    {
      x := e;
      var name := policy.hostLabel(x.host);
      if name != "" { x := x.(name := name + "." + TrimSuffix(policy.suffix(x), ".") + "."); }
      ghost var named := x;
      var matched := PromotedMatch(x);
      x := x.(promoted := matched);
      x := x.(published := x.manual || policy.autoPublish(x) || x.promoted);
      assert named == x.(promoted := e.promoted, published := e.published);
    }

    method Remove(service: string, instance: string, host: string) returns (found: bool)
      modifies this
      ensures entries == old(entries) - {ToLower(service + "|" + instance + "|" + TrimSuffix(host, ".") + ".")}
      ensures found == (ToLower(service + "|" + instance + "|" + TrimSuffix(host, ".") + ".") in old(entries))
    {
      var k := KeyText(service, instance, host);
      found := k in entries;
      entries := entries - {k};
    }

    method Expire(now: int) returns (dropped: nat)
      modifies this
      ensures entries.Keys == set k | k in old(entries) &&
                now - old(entries)[k].lastSeen <= if old(entries)[k].ttl > 0 then old(entries)[k].ttl else ttl
      ensures forall k :: k in entries ==> entries[k] == old(entries)[k]
      ensures entries == Unexpired(old(entries), ttl, now)
      ensures dropped == |old(entries)| - |entries|
    {
      dropped := 0;
      var left := entries.Keys;
      ghost var was := entries;
      while left != {}
        invariant left <= was.Keys
        invariant entries == map k | k in was && (k in left || !Expired(was[k], ttl, now)) :: was[k]
        invariant dropped == |was| - |entries|
        decreases |left|
      {
        var k :| k in left;
        if Expired(entries[k], ttl, now) {
          assert |entries - {k}| == |entries| - 1 by { assert (entries - {k}).Keys == entries.Keys - {k}; }
          entries := entries - {k};
          dropped := dropped + 1;
        }
        left := left - {k};
      }
    }

    /** The entries an answer for a name is collected from: not expired, and matched by the name's own
        selector when it is promoted, or published under the name. */
    ghost predicate Answers(k: string, name: string, now: int)
      reads this
    {
      && k in entries && !Expired(entries[k], ttl, now)
      && if name in policy.promoted then policy.promoted[name](entries[k]) else entries[k].published && entries[k].name == name
    }

    method Collect(name: string, now: int) returns (v4: seq<string>, v6: seq<string>)
      ensures forall x :: x in v4 <==> x != "" && exists k :: Answers(k, name, now) && x in entries[k].ipv4
      ensures forall x :: x in v6 <==> x != "" && exists k :: Answers(k, name, now) && x in entries[k].ipv6
      ensures forall i, j :: 0 <= i < j < |v4| ==> LexLess(v4[i], v4[j])
      ensures forall i, j :: 0 <= i < j < |v6| ==> LexLess(v6[i], v6[j])
    {
      v4, v6 := [], [];
      var left := entries.Keys;
      while left != {}
        invariant left <= entries.Keys
        invariant forall x :: x in v4 <==> x != "" && exists k :: k !in left && Answers(k, name, now) && x in entries[k].ipv4
        invariant forall x :: x in v6 <==> x != "" && exists k :: k !in left && Answers(k, name, now) && x in entries[k].ipv6
        invariant forall i, j :: 0 <= i < j < |v4| ==> LexLess(v4[i], v4[j])
        invariant forall i, j :: 0 <= i < j < |v6| ==> LexLess(v6[i], v6[j])
        decreases |left|
      {
        var k :| k in left;
        left := left - {k};
        var e := entries[k];
        if Expired(e, ttl, now) { continue; }
        if name in policy.promoted {
          if !policy.promoted[name](e) { continue; }
        } else if !(e.published && e.name == name) {
          continue;
        }
        MergedIsUnion(v4, e.ipv4);
        MergedIsUnion(v6, e.ipv6);
        v4 := MergeUnique(v4, e.ipv4);
        v6 := MergeUnique(v6, e.ipv6);
      }
    }

    /** A promoted name is always the table's to answer; any other name only while some live
        published entry gives it an address. */
    method Resolve(qname: string, now: int) returns (v4: seq<string>, v6: seq<string>, owned: bool)
      ensures var name := ToLower(TrimSuffix(qname, ".")) + ".";
              && (forall x :: x in v4 <==> x != "" && exists k ::
                    && k in entries && x in entries[k].ipv4
                    && now - entries[k].lastSeen <= (if entries[k].ttl > 0 then entries[k].ttl else ttl)
                    && if name in policy.promoted then policy.promoted[name](entries[k])
                       else entries[k].published && entries[k].name == name)
              && (forall x :: x in v6 <==> x != "" && exists k ::
                    && k in entries && x in entries[k].ipv6
                    && now - entries[k].lastSeen <= (if entries[k].ttl > 0 then entries[k].ttl else ttl)
                    && if name in policy.promoted then policy.promoted[name](entries[k])
                       else entries[k].published && entries[k].name == name)
              && (owned <==> name in policy.promoted || v4 != [] || v6 != [])
      ensures forall i, j :: 0 <= i < j < |v4| ==> LexLess(v4[i], v4[j])
      ensures forall i, j :: 0 <= i < j < |v6| ==> LexLess(v6[i], v6[j])
      ensures forall x :: x in v4 <==> x != "" && exists k :: Answers(k, Fqdn(qname), now) && x in entries[k].ipv4
      ensures forall x :: x in v6 <==> x != "" && exists k :: Answers(k, Fqdn(qname), now) && x in entries[k].ipv6
    {
      var name := Fqdn(qname);
      v4, v6 := Collect(name, now);
      if name in policy.promoted { return v4, v6, true; }
      if |v4| + |v6| > 0 { return v4, v6, true; }
      return [], [], false;
    }
  }

  // ---- Keys ----

  lemma ToLowerConcat(a: string, b: string)
    ensures ToLower(a + b) == ToLower(a) + ToLower(b)
  {
  }

  lemma ToLowerJoin(a: string, b: string)
    ensures ToLower(a + "|" + b) == ToLower(a) + "|" + ToLower(b)
  {
    ToLowerConcat(a + "|", b);
    ToLowerConcat(a, "|");
    assert ToLower("|") == "|";
  }

  /** How much text follows the last bar. */
  function AfterLastBar(s: string): nat {
    if s == "" || s[|s| - 1] == '|' then 0 else 1 + AfterLastBar(s[..|s| - 1])
  }

  lemma {:induction false} LastBar(a: string, h: string)
    requires '|' !in h
    ensures AfterLastBar(a + "|" + h) == |h|
  {
    var s := a + "|" + h;
    if h == "" {
      assert s[|s| - 1] == '|';
    } else {
      LastBar(a, h[..|h| - 1]);
      assert s[..|s| - 1] == a + "|" + h[..|h| - 1] && s[|s| - 1] == h[|h| - 1];
    }
  }

  /** Within one service, hosts without a bar make the key tell instances apart up to case. */
  lemma KeysTellInstances(service: string, i1: string, h1: string, i2: string, h2: string)
    requires '|' !in h1 && '|' !in h2 && KeyText(service, i1, h1) == KeyText(service, i2, h2)
    ensures ToLower(i1) == ToLower(i2)
  {
    KeyShape(service, i1, h1);
    KeyShape(service, i2, h2);
    var g1, g2 := ToLower(TrimSuffix(h1, ".") + "."), ToLower(TrimSuffix(h2, ".") + ".");
    var p := ToLower(service) + "|";
    var k := KeyText(service, i1, h1);
    LastBar(p + ToLower(i1), g1);
    LastBar(p + ToLower(i2), g2);
    assert k[|p|..|k| - |g1| - 1] == ToLower(i1) && k[|p|..|k| - |g2| - 1] == ToLower(i2);
  }

  lemma KeyShape(service: string, instance: string, host: string)
    ensures KeyText(service, instance, host)
         == ToLower(service) + "|" + ToLower(instance) + "|" + ToLower(TrimSuffix(host, ".") + ".")
    ensures '|' !in host ==> '|' !in ToLower(TrimSuffix(host, ".") + ".")
  {
    var h := TrimSuffix(host, ".") + ".";
    assert service + "|" + instance + "|" + TrimSuffix(host, ".") + "." == (service + "|" + instance) + "|" + h;
    ToLowerJoin(service + "|" + instance, h);
    ToLowerJoin(service, instance);
  }
}
