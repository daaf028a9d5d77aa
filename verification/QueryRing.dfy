/** The fixed-capacity ring of recent query-log entries. */
module QueryRing {
  import opened Common

  datatype Entry = Entry(qname: string, clientIP: string, vlan: string, qtype: nat)

  datatype Filter = Filter(qname: string, client: string, vlan: string, qtype: nat)

  predicate At(s: string, sub: string, i: int) {
    0 <= i <= |s| - |sub| && s[i..i + |sub|] == sub
  }

  /** strings.Contains after lower-casing both. */
  predicate ContainsFold(s: string, sub: string) {
    exists i :: 0 <= i <= |s| - |sub| && At(ToLower(s), ToLower(sub), i)
  }

  /** A zero field is no constraint. */
  predicate Passes(f: Filter, e: Entry) {
    && (f.qname == "" || ContainsFold(e.qname, f.qname))
    && (f.client == "" || ContainsFold(e.clientIP, f.client))
    && (f.vlan == "" || e.vlan == f.vlan)
    && (f.qtype == 0 || e.qtype == f.qtype)
  }

  lemma ContainsExactly(s: string, sub: string)
    ensures ContainsFold(s, sub) <==> exists pre, post :: ToLower(s) == pre + ToLower(sub) + post
  {
    var t, u := ToLower(s), ToLower(sub);
    if i :| 0 <= i <= |s| - |sub| && At(t, u, i) { assert t == t[..i] + u + t[i + |u|..]; }
    if pre, post :| t == pre + u + post { assert At(t, u, |pre|); }
  }

  /** What a filter asks for: its question name and client anywhere in the entry's, whatever the case,
      its VLAN and type as they are, and nothing of a field left empty. */
  lemma PassesExactly(f: Filter, e: Entry)
    ensures Passes(f, e) <==>
              && (f.qname == "" || exists pre, post :: ToLower(e.qname) == pre + ToLower(f.qname) + post)
              && (f.client == "" || exists pre, post :: ToLower(e.clientIP) == pre + ToLower(f.client) + post)
              && (f.vlan == "" || e.vlan == f.vlan)
              && (f.qtype == 0 || e.qtype == f.qtype)
  {
    ContainsExactly(e.qname, f.qname);
    ContainsExactly(e.clientIP, f.client);
  }

  function Filtered(f: Filter, s: seq<Entry>): seq<Entry> {
    if s == [] then []
    else Filtered(f, s[..|s| - 1]) + (if Passes(f, s[|s| - 1]) then [s[|s| - 1]] else [])
  }

  function Reversed(s: seq<Entry>): (r: seq<Entry>)
    ensures |r| == |s| && forall i :: 0 <= i < |s| ==> r[i] == s[|s| - 1 - i]
  {
    seq(|s|, i requires 0 <= i < |s| => s[|s| - 1 - i])
  }

  function Last(s: seq<Entry>, n: nat): seq<Entry> {
    if |s| <= n then s else s[|s| - n..]
  }

  /** A snapshot holds, of the newest entries, as many as the ring has room for, exactly those that pass,
      newest first: ages[i] is how many entries were pushed after the i-th. */
  lemma SnapshotAges(f: Filter, pushed: seq<Entry>, n: nat) returns (ages: seq<nat>)
    ensures var out := Filtered(f, Reversed(Last(pushed, n)));
            && |ages| == |out|
            && (forall i, j :: 0 <= i < j < |ages| ==> ages[i] < ages[j])
            && (forall i :: 0 <= i < |ages| ==> ages[i] < |pushed| && out[i] == pushed[|pushed| - 1 - ages[i]])
            && forall k: nat :: k in ages <==> k < |pushed| && k < n && Passes(f, pushed[|pushed| - 1 - k])
  {
    var recent := Reversed(Last(pushed, n));
    ages := FilteredAt(f, recent);
    assert forall k :: 0 <= k < |recent| ==> recent[k] == pushed[|pushed| - 1 - k];
  }

  lemma {:induction false} FilteredAt(f: Filter, s: seq<Entry>) returns (at: seq<nat>)
    ensures |at| == |Filtered(f, s)|
    ensures forall i, j :: 0 <= i < j < |at| ==> at[i] < at[j]
    ensures forall i :: 0 <= i < |at| ==> at[i] < |s| && Filtered(f, s)[i] == s[at[i]]
    ensures forall k: nat :: k in at <==> k < |s| && Passes(f, s[k])
  {
    at := [];
    if s != [] {
      var n := |s| - 1;
      at := FilteredAt(f, s[..n]);
      assert forall k: nat :: k in at <==> k < n && Passes(f, s[k]);
      if Passes(f, s[n]) { at := at + [n]; }
    }
  }

  /** The slot written k pushes ago, counting the newest as 0. */
  function SlotOf(head: int, n: int, k: int): int
    requires n > 0
  {
    (head - 1 - k + n) % n
  }

  class Ring {
    const buf: array<Entry>
    var head: nat
    var size: nat
    ghost var pushed: seq<Entry>

    constructor (capacity: nat)
      requires capacity > 0
      ensures Valid() && pushed == [] && buf.Length == capacity && fresh(buf)
    {
      buf := new Entry[capacity](_ => Entry("", "", "", 0));
      head, size, pushed := 0, 0, [];
    }

    ghost predicate Valid()
      reads this, buf
    {
      && buf.Length > 0 && head < buf.Length
      && size == Min(buf.Length, |pushed|)
      && forall k :: 0 <= k < size ==> HoldsAt(buf[..], head, pushed, k)
    }

    method Push(e: Entry)
      requires Valid()
      modifies this, buf
      ensures Valid() && pushed == old(pushed) + [e]
    {
      ghost var was, h, before, n := buf[..], head, pushed, size;
      buf[head] := e;
      head := (head + 1) % buf.Length;
      if size < buf.Length { size := size + 1; }
      pushed := pushed + [e];
      HoldsNext(was, h, n, before, e, buf[..], head, pushed);
    }

    /** Newest first. */
    method Snapshot(f: Filter) returns (out: seq<Entry>)
      requires Valid()
      ensures out == Filtered(f, Reversed(Last(pushed, buf.Length)))
    {
      ghost var recent := Reversed(Last(pushed, buf.Length));
      out := [];
      for i := 0 to size
        invariant out == Filtered(f, recent[..i])
      {
        var idx := (head - 1 - i + buf.Length) % buf.Length;
        var e := buf[idx];
        assert HoldsAt(buf[..], head, pushed, i) && idx == SlotOf(head, buf.Length, i) && e == recent[i];
        assert recent[..i + 1][..i] == recent[..i];
        if Passes(f, e) { out := out + [e]; }
      }
      assert recent[..size] == recent;
    }
  }

  /** The k-th newest of the pushed entries sits k slots behind the head. */
  ghost predicate HoldsAt(b: seq<Entry>, head: int, pushed: seq<Entry>, k: int)
    requires |b| > 0 && 0 <= k < |pushed|
  {
    0 <= SlotOf(head, |b|, k) < |b| && b[SlotOf(head, |b|, k)] == pushed[|pushed| - 1 - k]
  }

  /** Overwriting the head and moving it on keeps every entry where it is looked for. */
  lemma HoldsNext(b: seq<Entry>, head: int, size: nat, pushed: seq<Entry>, e: Entry,
                  b2: seq<Entry>, head2: int, pushed2: seq<Entry>)
    requires 0 <= head < |b| && size <= |b| && size <= |pushed|
    requires forall k :: 0 <= k < size ==> HoldsAt(b, head, pushed, k)
    requires b2 == b[head := e] && head2 == (head + 1) % |b| && pushed2 == pushed + [e]
    ensures forall k :: 0 <= k < Min(|b|, size + 1) ==> HoldsAt(b2, head2, pushed2, k)
  {
    forall k | 0 <= k < Min(|b|, size + 1) ensures HoldsAt(b2, head2, pushed2, k) {
      SlotShift(head, |b|, k);
      if k > 0 {
        SlotRange(head, |b|, k - 1);
        assert HoldsAt(b, head, pushed, k - 1);
      }
    }
  }

  lemma Wrap(a: int, n: int)
    requires 0 <= a < 2 * n
    ensures a % n == if a < n then a else a - n
  {
    if a < n { ModIs(a, n, 0, a); } else { ModIs(a, n, 1, a - n); }
  }

  /** Moving the head forward moves every slot one place back in age. */
  lemma SlotShift(h: int, n: int, k: int)
    requires 0 <= h < n && 0 <= k < n
    ensures ((h + 1) % n - 1 - k + n) % n == if k == 0 then h else (h - k + n) % n
  {
    Wrap(h + 1, n);
    Wrap((h + 1) % n - 1 - k + n, n);
    if k > 0 { Wrap(h - k + n, n); }
  }

  /** Slots of different ages below the capacity are different from the head. */
  lemma SlotRange(h: int, n: int, k: int)
    requires 0 <= h < n && 0 <= k < n - 1
    ensures 0 <= (h - 1 - k + n) % n < n && (h - 1 - k + n) % n != h
  {
    Wrap(h - 1 - k + n, n);
  }
}
