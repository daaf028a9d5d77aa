/** What the PTR records of one message, taken in order, retire and leave alive. */
module Retirement {
  import opened Common
  import B = Browser

  predicate Retires(question: string, p: B.Ptr) { p.name == question && p.seconds == 0 }

  predicate Announces(question: string, p: B.Ptr) { p.name == question && p.seconds > 0 }

  predicate RetiredIn(question: string, ps: seq<B.Ptr>, k: string) {
    exists j :: 0 <= j < |ps| && Retires(question, ps[j]) && ps[j].target == k
  }

  /** Whether the last record about an instance announces it. */
  function LastWord(question: string, ps: seq<B.Ptr>, k: string): Option<bool> {
    if ps == [] then None
    else
      var p := ps[|ps| - 1];
      if p.name == question && p.target == k then Some(p.seconds > 0) else LastWord(question, ps[..|ps| - 1], k)
  }

  /** Instance by instance the last record decides; one the message does not speak of stays as it
      was. */
  lemma {:induction false} LastWordDecides(question: string, start: B.Work, ps: seq<B.Ptr>, iface: string, now: int, k: string)
    ensures k in B.OnPtrs(question, start, ps, iface, now).entries
       <==> LastWord(question, ps, k).GetOr(k in start.entries)
  {
    if ps != [] { LastWordDecides(question, start, ps[..|ps| - 1], iface, now, k); }
  }

  lemma {:induction false} RetiredIsLastWord(question: string, ps: seq<B.Ptr>, j: nat)
    requires j < |ps| && Retires(question, ps[j])
    requires forall i :: j < i < |ps| && Announces(question, ps[i]) ==> ps[i].target != ps[j].target
    ensures LastWord(question, ps, ps[j].target) == Some(false)
  {
    if j < |ps| - 1 { RetiredIsLastWord(question, ps[..|ps| - 1], j); }
  }

  /** An instance retired at one position and not announced at a later one is gone, whatever the
      message does to others. */
  lemma RetiredStayGone(question: string, start: B.Work, ps: seq<B.Ptr>, iface: string, now: int, j: nat)
    requires j < |ps| && Retires(question, ps[j])
    requires forall i :: j < i < |ps| && Announces(question, ps[i]) ==> ps[i].target != ps[j].target
    ensures ps[j].target !in B.OnPtrs(question, start, ps, iface, now).entries
  {
    RetiredIsLastWord(question, ps, j);
    LastWordDecides(question, start, ps, iface, now, ps[j].target);
  }

  /** The record at position p retires x, which is then known with exactly that data. */
  ghost predicate RemovedAt(question: string, start: B.Work, ps: seq<B.Ptr>, iface: string, now: int, p: int, x: (string, B.Entry))
    requires 0 <= p < |ps|
  {
    var before := B.OnPtrs(question, start, ps[..p], iface, now).entries;
    Retires(question, ps[p]) && ps[p].target == x.0 && x.0 in before && before[x.0] == x.1
  }

  lemma RemovedStep(question: string, u: B.Work, p: B.Ptr, iface: string, now: int, x: (string, B.Entry))
    ensures x in B.OnPtr(question, u, p, iface, now).removed
       <==> x in u.removed || (Retires(question, p) && p.target == x.0 && x.0 in u.entries && u.entries[x.0] == x.1)
  {
    if Retires(question, p) && p.target in u.entries {
      var v := B.OnPtr(question, u, p, iface, now).removed;
      assert v == u.removed + [(p.target, u.entries[p.target])] && v[|u.removed|] == (p.target, u.entries[p.target]);
    }
  }

  /** The remove events of a message are exactly the retired instances that were known at that
      position, with what was known of them. */
  lemma {:induction false} RemovedWasThere(question: string, start: B.Work, ps: seq<B.Ptr>, iface: string, now: int, x: (string, B.Entry))
    requires start.removed == []
    ensures x in B.OnPtrs(question, start, ps, iface, now).removed
       <==> exists p :: 0 <= p < |ps| && RemovedAt(question, start, ps, iface, now, p, x)
  {
    if ps != [] {
      var n := |ps| - 1;
      RemovedWasThere(question, start, ps[..n], iface, now, x);
      RemovedStep(question, B.OnPtrs(question, start, ps[..n], iface, now), ps[n], iface, now, x);
      forall p | 0 <= p < n
        ensures RemovedAt(question, start, ps[..n], iface, now, p, x) <==> RemovedAt(question, start, ps, iface, now, p, x)
      {
        assert ps[..n][..p] == ps[..p];
      }
      assert RemovedAt(question, start, ps, iface, now, n, x) <==>
             (Retires(question, ps[n]) && ps[n].target == x.0 && x.0 in B.OnPtrs(question, start, ps[..n], iface, now).entries
              && B.OnPtrs(question, start, ps[..n], iface, now).entries[x.0] == x.1);
    }
  }

  // ---- Which hosts ----

  ghost predicate RemovedWith(u: B.Work, k: string, host: string) {
    exists i :: 0 <= i < |u.removed| && u.removed[i].0 == k && u.removed[i].1.host == host
  }

  /** The host an instance had before the message is the one it keeps and the one it is first
      removed with; whatever the message itself brings up has no host yet. */
  ghost predicate HostsOf(question: string, start: B.Work, ps: seq<B.Ptr>, u: B.Work, k: string) {
    var kept := k in start.entries && !RetiredIn(question, ps, k);
    && (k in u.entries ==> u.entries[k].host == if kept then start.entries[k].host else "")
    && (kept ==> k in u.entries)
    && (k in start.entries && !kept ==> RemovedWith(u, k, start.entries[k].host))
    && (forall h :: RemovedWith(u, k, h) ==> h == "" || (k in start.entries && !kept && h == start.entries[k].host))
    && (kept ==> forall h :: !RemovedWith(u, k, h))
  }

  lemma RetiredInStep(question: string, ps: seq<B.Ptr>, k: string)
    requires ps != []
    ensures var p := ps[|ps| - 1];
            RetiredIn(question, ps, k) <==> RetiredIn(question, ps[..|ps| - 1], k) || (Retires(question, p) && p.target == k)
  {
    var n := |ps| - 1;
    if RetiredIn(question, ps[..n], k) {
      var j :| 0 <= j < n && Retires(question, ps[..n][j]) && ps[..n][j].target == k;
      assert Retires(question, ps[j]);
    }
    if RetiredIn(question, ps, k) {
      var j :| 0 <= j < |ps| && Retires(question, ps[j]) && ps[j].target == k;
      assert j < n ==> ps[..n][j] == ps[j];
    }
  }

  lemma RemovedWithStep(question: string, u: B.Work, p: B.Ptr, iface: string, now: int, k: string, h: string)
    ensures RemovedWith(B.OnPtr(question, u, p, iface, now), k, h)
       <==> RemovedWith(u, k, h) || (Retires(question, p) && p.target == k && k in u.entries && u.entries[k].host == h)
  {
    var v := B.OnPtr(question, u, p, iface, now);
    if RemovedWith(u, k, h) {
      var i :| 0 <= i < |u.removed| && u.removed[i].0 == k && u.removed[i].1.host == h;
      assert v.removed[i] == u.removed[i];
    }
    if Retires(question, p) && p.target in u.entries {
      assert v.removed[|u.removed|] == (p.target, u.entries[p.target]);
    }
  }

  lemma {:induction false} MessageHosts(question: string, start: B.Work, ps: seq<B.Ptr>, iface: string, now: int, k: string)
    requires start.removed == []
    ensures HostsOf(question, start, ps, B.OnPtrs(question, start, ps, iface, now), k)
  {
    if ps != [] {
      var n := |ps| - 1;
      var u := B.OnPtrs(question, start, ps[..n], iface, now);
      MessageHosts(question, start, ps[..n], iface, now, k);
      RetiredInStep(question, ps, k);
      forall h ensures RemovedWith(B.OnPtr(question, u, ps[n], iface, now), k, h)
                  <==> RemovedWith(u, k, h) || (Retires(question, ps[n]) && ps[n].target == k && k in u.entries && u.entries[k].host == h)
      {
        RemovedWithStep(question, u, ps[n], iface, now, k, h);
      }
    }
  }
}
