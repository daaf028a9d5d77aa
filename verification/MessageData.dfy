/** What one message makes of the data of an instance, record type by record type. */
module MessageData {
  import opened Common
  import opened Strings
  import RefreshCache
  import opened Browser

  /** An instance comes up with the label before the service, and the service and domain of the
      question; nothing else is known yet. */
  lemma FreshNames(name: string, service: string, iface: string)
    ensures Fresh(name + "." + service + ".local.", service + ".local.", iface)
         == Entry("", name, service, "local", map[], [], [], iface, 0)
  {
    var question := service + ".local.";
    TrimsOnce(service, ".local.");
    assert name + "." + service + ".local." == (name + ".") + question;
    TrimsOnce(name + ".", question);
    TrimsOnce(name, ".");
  }

  /** Outside the local domain the whole question, without its final dot, is the service. */
  lemma FreshElsewhere(instance: string, service: string, iface: string)
    requires |service| < 6 || service[|service| - 6..] != ".local"
    ensures var e := Fresh(instance, service + ".", iface); e.typ == service && e.domain == "" && e.host == "" && e.iface == iface
  {
    var question := service + ".";
    TrimsOnce(service, ".");
    assert |question| >= 7 ==> service[|service| - 6..] == question[|question| - 7..][..6];
  }

  // ---- PTR records ----

  predicate About(question: string, p: Ptr, k: string) { p.name == question && p.target == k }

  /** The last record about an instance, when it announces it, gives the entry its lifetime and is what
      the refresh cache holds. */
  lemma {:induction false} LastPtrStands(question: string, start: Work, ps: seq<Ptr>, iface: string, now: int, j: nat)
    requires j < |ps| && ps[j].name == question && ps[j].seconds > 0
    requires forall i :: j < i < |ps| ==> !About(question, ps[i], ps[j].target)
    ensures var w := OnPtrs(question, start, ps, iface, now); var k := ps[j].target;
            && k in w.entries && w.entries[k].ttl == ps[j].seconds * 1_000_000_000 && k in w.touched
            && k in w.records
            && w.records[k] == RefreshCache.CacheRecord(Some(RefreshCache.WirePtr(question, k, ps[j].seconds)), question,
                                                        ps[j].seconds * 1_000_000_000, now, 0)
  {
    if j < |ps| - 1 {
      assert !About(question, ps[|ps| - 1], ps[j].target);
      LastPtrStands(question, start, ps[..|ps| - 1], iface, now, j);
    }
  }

  /** Unless a record retires it, a known instance keeps everything but its lifetime, and an unknown
      one that turns up is fresh. */
  lemma {:induction false} KeptOrFresh(question: string, start: Work, ps: seq<Ptr>, iface: string, now: int, k: string)
    requires forall i :: 0 <= i < |ps| && About(question, ps[i], k) ==> ps[i].seconds > 0
    ensures var w := OnPtrs(question, start, ps, iface, now);
            && (k in start.entries ==> k in w.entries)
            && (k in w.entries ==>
                  SameButLifetime(w.entries[k], if k in start.entries then start.entries[k] else Fresh(k, question, iface)))
  {
    if ps != [] {
      assert About(question, ps[|ps| - 1], k) ==> ps[|ps| - 1].seconds > 0;
      KeptOrFresh(question, start, ps[..|ps| - 1], iface, now, k);
      OnePtr(question, OnPtrs(question, start, ps[..|ps| - 1], iface, now), ps[|ps| - 1], iface, now, k);
    }
  }

  predicate SameButLifetime(a: Entry, b: Entry) { a == b.(ttl := a.ttl) }

  lemma OnePtr(question: string, u: Work, p: Ptr, iface: string, now: int, k: string)
    requires About(question, p, k) ==> p.seconds > 0
    ensures var w := OnPtr(question, u, p, iface, now);
            && (k in u.entries ==> k in w.entries && SameButLifetime(w.entries[k], u.entries[k]))
            && (k !in u.entries && k in w.entries ==> SameButLifetime(w.entries[k], Fresh(k, question, iface)))
  {
  }

  /** A message that does not speak of an instance leaves both its records as they were. */
  lemma {:induction false} UnspokenStays(question: string, start: Work, ps: seq<Ptr>, iface: string, now: int, k: string)
    requires forall i :: 0 <= i < |ps| ==> !About(question, ps[i], k)
    ensures var w := OnPtrs(question, start, ps, iface, now);
            && (k in w.entries <==> k in start.entries) && (k in w.entries ==> w.entries[k] == start.entries[k])
            && (k in w.records <==> k in start.records) && (k in w.records ==> w.records[k] == start.records[k])
            && (k in w.touched <==> k in start.touched)
  {
    if ps != [] {
      assert !About(question, ps[|ps| - 1], k);
      UnspokenStays(question, start, ps[..|ps| - 1], iface, now, k);
    }
  }

  // ---- The other records ----

  predicate HasSrv(xs: seq<Srv>, k: string) { exists i :: 0 <= i < |xs| && xs[i].name == k }

  predicate HasTxt(xs: seq<Txt>, k: string) { exists i :: 0 <= i < |xs| && xs[i].name == k }

  /** The last SRV record of an instance names its host; nothing else of the entry changes. */
  lemma {:induction false} LastSrvNamesHost(w: Work, xs: seq<Srv>, k: string)
    requires k in w.entries
    ensures var u := OnSrvs(w, xs);
            && k in u.entries && u.entries[k] == w.entries[k].(host := u.entries[k].host)
            && (!HasSrv(xs, k) ==> u.entries[k].host == w.entries[k].host)
            && (forall j :: 0 <= j < |xs| && xs[j].name == k && (forall i :: j < i < |xs| ==> xs[i].name != k) ==>
                  u.entries[k].host == TrimSuffix(xs[j].target, "."))
            && (k in u.touched <==> k in w.touched || HasSrv(xs, k))
  {
    if xs != [] {
      var n := |xs| - 1;
      LastSrvNamesHost(w, xs[..n], k);
      assert HasSrv(xs, k) <==> HasSrv(xs[..n], k) || xs[n].name == k by {
        if i :| 0 <= i < |xs| && xs[i].name == k { assert i < n ==> xs[..n][i] == xs[i]; }
        if i :| 0 <= i < n && xs[..n][i].name == k { assert xs[i].name == k; }
      }
      forall j | 0 <= j < |xs| && xs[j].name == k && (forall i :: j < i < |xs| ==> xs[i].name != k)
        ensures OnSrvs(w, xs).entries[k].host == TrimSuffix(xs[j].target, ".")
      {
        if j < n {
          assert xs[n].name != k;
          assert xs[..n][j].name == k && forall i :: j < i < n ==> xs[..n][i].name != k;
        }
      }
    }
  }

  /** The last TXT record of an instance gives its text. */
  lemma {:induction false} LastTxtStands(w: Work, xs: seq<Txt>, k: string)
    requires k in w.entries
    ensures var u := OnTxts(w, xs);
            && k in u.entries && u.entries[k] == w.entries[k].(txt := u.entries[k].txt)
            && (!HasTxt(xs, k) ==> u.entries[k].txt == w.entries[k].txt)
            && (forall j :: 0 <= j < |xs| && xs[j].name == k && (forall i :: j < i < |xs| ==> xs[i].name != k) ==>
                  u.entries[k].txt == xs[j].text)
            && (k in u.touched <==> k in w.touched || HasTxt(xs, k))
  {
    if xs != [] {
      var n := |xs| - 1;
      LastTxtStands(w, xs[..n], k);
      assert HasTxt(xs, k) <==> HasTxt(xs[..n], k) || xs[n].name == k by {
        if i :| 0 <= i < |xs| && xs[i].name == k { assert i < n ==> xs[..n][i] == xs[i]; }
        if i :| 0 <= i < n && xs[..n][i].name == k { assert xs[i].name == k; }
      }
      forall j | 0 <= j < |xs| && xs[j].name == k && (forall i :: j < i < |xs| ==> xs[i].name != k)
        ensures OnTxts(w, xs).entries[k].txt == xs[j].text
      {
        if j < n {
          assert xs[n].name != k;
          assert xs[..n][j].name == k && forall i :: j < i < n ==> xs[..n][i].name != k;
        }
      }
    }
  }

  /** Some address record is for a host. */
  predicate ForHost(xs: seq<Address>, host: string, ip: string) {
    exists i :: 0 <= i < |xs| && xs[i].ip == ip && TrimSuffix(xs[i].name, ".") == host
  }

  lemma ForHostMore(xs: seq<Address>, host: string, ip: string)
    requires xs != []
    ensures var last := xs[|xs| - 1];
            ForHost(xs, host, ip) <==> ForHost(xs[..|xs| - 1], host, ip) || (last.ip == ip && TrimSuffix(last.name, ".") == host)
  {
    var n := |xs| - 1;
    if i :| 0 <= i < |xs| && xs[i].ip == ip && TrimSuffix(xs[i].name, ".") == host { assert i < n ==> xs[..n][i] == xs[i]; }
    if i :| 0 <= i < n && xs[..n][i].ip == ip && TrimSuffix(xs[..n][i].name, ".") == host { assert xs[i] == xs[..n][i]; }
  }

  function Family(e: Entry, v6: bool): seq<string> { if v6 then e.ipv6 else e.ipv4 }

  lemma OneAddress(w: Work, x: Address, v6: bool, k: string)
    requires k in w.entries
    ensures var u := OnAddress(w, x, v6); var a := w.entries[k];
            && k in u.entries
            && u.entries[k] == (if v6 then a.(ipv6 := u.entries[k].ipv6) else a.(ipv4 := u.entries[k].ipv4))
            && (forall ip :: ip in Family(u.entries[k], v6) <==>
                  ip in Family(a, v6) || (a.host != "" && a.host == TrimSuffix(x.name, ".") && x.ip == ip))
            && (k in u.touched <==> k in w.touched || (a.host != "" && a.host == TrimSuffix(x.name, ".")))
  {
    MergeOneAdds(Family(w.entries[k], v6), x.ip);
  }

  lemma {:induction false} SameNames(w: Work, xs: seq<Address>, v6: bool)
    ensures OnAddresses(w, xs, v6).entries.Keys == w.entries.Keys
  {
    if xs != [] { SameNames(w, xs[..|xs| - 1], v6); }
  }

  /** The addresses of an instance grow by exactly the ones announced for its host, in their own family,
      once it has a host. */
  lemma {:induction false} AddressesReach(w: Work, xs: seq<Address>, v6: bool, k: string)
    requires k in w.entries
    ensures var u := OnAddresses(w, xs, v6); var a := w.entries[k];
            && k in u.entries
            && u.entries[k] == (if v6 then a.(ipv6 := u.entries[k].ipv6) else a.(ipv4 := u.entries[k].ipv4))
            && (forall ip :: ip in Family(u.entries[k], v6) <==> ip in Family(a, v6) || (a.host != "" && ForHost(xs, a.host, ip)))
            && (k in u.touched <==> k in w.touched || (a.host != "" && exists ip :: ForHost(xs, a.host, ip)))
  {
    if xs != [] {
      var n := |xs| - 1;
      var host := w.entries[k].host;
      AddressesReach(w, xs[..n], v6, k);
      OneAddress(OnAddresses(w, xs[..n], v6), xs[n], v6, k);
      forall ip ensures ForHost(xs, host, ip) <==> ForHost(xs[..n], host, ip) || (xs[n].ip == ip && TrimSuffix(xs[n].name, ".") == host) {
        ForHostMore(xs, host, ip);
      }
      if host == TrimSuffix(xs[n].name, ".") { assert ForHost(xs, host, xs[n].ip); }
    }
  }

  lemma Reach4(w: Work, xs: seq<Address>, k: string)
    requires k in w.entries
    ensures var a := w.entries[k]; var u := OnAddresses(w, xs, false);
            && k in u.entries && u.entries[k] == a.(ipv4 := u.entries[k].ipv4)
            && forall ip :: ip in u.entries[k].ipv4 <==> ip in a.ipv4 || (a.host != "" && ForHost(xs, a.host, ip))
  {
    AddressesReach(w, xs, false, k);
    var u := OnAddresses(w, xs, false).entries[k];
    assert Family(u, false) == u.ipv4 && Family(w.entries[k], false) == w.entries[k].ipv4;
  }

  lemma Reach6(w: Work, xs: seq<Address>, k: string)
    requires k in w.entries
    ensures var a := w.entries[k]; var u := OnAddresses(w, xs, true);
            && k in u.entries && u.entries[k] == a.(ipv6 := u.entries[k].ipv6)
            && forall ip :: ip in u.entries[k].ipv6 <==> ip in a.ipv6 || (a.host != "" && ForHost(xs, a.host, ip))
  {
    AddressesReach(w, xs, true, k);
    var u := OnAddresses(w, xs, true).entries[k];
    assert Family(u, true) == u.ipv6 && Family(w.entries[k], true) == w.entries[k].ipv6;
  }

  // ---- The whole message ----

  /** One instance through the four kinds of record that follow the PTRs. */
  lemma Through(w0: Work, m: Message, k: string) returns (h: Entry, x: Entry, a: Entry, b: Entry)
    requires k in w0.entries
    ensures k in OnSrvs(w0, m.srvs).entries && h == OnSrvs(w0, m.srvs).entries[k]
    ensures var w1 := OnSrvs(w0, m.srvs);
            k in OnTxts(w1, m.txts).entries && x == OnTxts(w1, m.txts).entries[k] == h.(txt := x.txt)
    ensures var w2 := OnTxts(OnSrvs(w0, m.srvs), m.txts);
            k in OnAddresses(w2, m.as4, false).entries && a == OnAddresses(w2, m.as4, false).entries[k] == x.(ipv4 := a.ipv4)
            && forall ip :: ip in a.ipv4 <==> ip in x.ipv4 || (x.host != "" && ForHost(m.as4, x.host, ip))
    ensures var w3 := OnAddresses(OnTxts(OnSrvs(w0, m.srvs), m.txts), m.as4, false);
            k in OnAddresses(w3, m.as6, true).entries && b == OnAddresses(w3, m.as6, true).entries[k] == a.(ipv6 := b.ipv6)
            && forall ip :: ip in b.ipv6 <==> ip in a.ipv6 || (a.host != "" && ForHost(m.as6, a.host, ip))
  {
    var w1 := OnSrvs(w0, m.srvs);
    var w2 := OnTxts(w1, m.txts);
    var w3 := OnAddresses(w2, m.as4, false);
    LastSrvNamesHost(w0, m.srvs, k);
    LastTxtStands(w1, m.txts, k);
    Reach4(w2, m.as4, k);
    Reach6(w3, m.as6, k);
    h, x, a, b := w1.entries[k], w2.entries[k], w3.entries[k], OnAddresses(w3, m.as6, true).entries[k];
  }

  /** The data an instance has after a message, from what it has after the PTR records: the host its last
      SRV record names and the text its last TXT record gives, or what it had; and the addresses it had,
      with those announced for its host in their own family. */
  lemma IngestedData(question: string, records: RefreshCache.Records, entries: Entries, m: Message, iface: string, now: int, k: string)
    requires k in OnPtrs(question, Work(records, entries, [], {}), m.ptrs, iface, now).entries
    ensures var had := OnPtrs(question, Work(records, entries, [], {}), m.ptrs, iface, now).entries[k];
            var w := Ingested(question, records, entries, m, iface, now);
            k in w.entries && var has := w.entries[k];
            && has == had.(host := has.host, txt := has.txt, ipv4 := has.ipv4, ipv6 := has.ipv6)
            && (!HasSrv(m.srvs, k) ==> has.host == had.host)
            && (forall j :: 0 <= j < |m.srvs| && m.srvs[j].name == k && (forall i :: j < i < |m.srvs| ==> m.srvs[i].name != k) ==>
                  has.host == TrimSuffix(m.srvs[j].target, "."))
            && (!HasTxt(m.txts, k) ==> has.txt == had.txt)
            && (forall j :: 0 <= j < |m.txts| && m.txts[j].name == k && (forall i :: j < i < |m.txts| ==> m.txts[i].name != k) ==>
                  has.txt == m.txts[j].text)
            && (forall ip :: ip in has.ipv4 <==> ip in had.ipv4 || (has.host != "" && ForHost(m.as4, has.host, ip)))
            && (forall ip :: ip in has.ipv6 <==> ip in had.ipv6 || (has.host != "" && ForHost(m.as6, has.host, ip)))
  {
    var w0 := OnPtrs(question, Work(records, entries, [], {}), m.ptrs, iface, now);
    var h, x, a, b := Through(w0, m, k);
    LastSrvNamesHost(w0, m.srvs, k);
    LastTxtStands(OnSrvs(w0, m.srvs), m.txts, k);
  }

  /** An instance is touched by an announcement, by an SRV or TXT record of its own, and by an address
      for its host. */
  lemma TouchedBy(question: string, records: RefreshCache.Records, entries: Entries, m: Message, iface: string, now: int, k: string)
    requires k in OnPtrs(question, Work(records, entries, [], {}), m.ptrs, iface, now).entries
    requires k in Ingested(question, records, entries, m, iface, now).entries
    ensures var start := OnPtrs(question, Work(records, entries, [], {}), m.ptrs, iface, now);
            var w := Ingested(question, records, entries, m, iface, now);
            k in w.touched <==>
              || k in start.touched || HasSrv(m.srvs, k) || HasTxt(m.txts, k)
              || (w.entries[k].host != "" && ((exists ip :: ForHost(m.as4, w.entries[k].host, ip))
                                              || (exists ip :: ForHost(m.as6, w.entries[k].host, ip))))
  {
    var w0 := OnPtrs(question, Work(records, entries, [], {}), m.ptrs, iface, now);
    var w1 := OnSrvs(w0, m.srvs);
    var w2 := OnTxts(w1, m.txts);
    LastSrvNamesHost(w0, m.srvs, k);
    LastTxtStands(w1, m.txts, k);
    AddressesReach(w2, m.as4, false, k);
    AddressesReach(OnAddresses(w2, m.as4, false), m.as6, true, k);
  }
}
