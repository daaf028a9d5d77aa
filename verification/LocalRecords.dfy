/** Authoritative answers with per-VLAN split horizon and recursive alias resolution. */
module LocalRecords {
  import opened Common
  import opened IpNets
  import opened VlanTable

  datatype Qtype = TypeA | TypeAAAA | TypeCNAME | TypeSVCB | TypeOther(code: nat)

  /** An empty value inherits the record's default, a zero TTL its effective TTL. */
  datatype Override = Override(value: string, ttl: nat, nxdomain: bool)

  datatype Record = Record(rtype: Qtype, def: string, ttl: nat, overrides: map<string, Override>, svcb: Svcb)

  /** A designated-resolver record; bad parameters make it unbuildable. */
  datatype Svcb = Svcb(priority: nat, target: string, paramsOk: bool)

  datatype RR =
    | Alias(owner: string, target: string, ttl: nat)
    | AddressRR(owner: string, rtype: Qtype, ip: Addr, ttl: nat)
    | SvcbRR(owner: string, svcb: Svcb, ttl: nat)

  /** The loaded tables. parseIP is net.ParseIP on record values. */
  datatype Zone = Zone(records: map<string, seq<Record>>, defaultTTL: nat, fallthrough: seq<string>,
                       vlans: Table, parseIP: string -> Option<Addr>)

  function RecordsAt(z: Zone, name: string): seq<Record> {
    if name in z.records then z.records[name] else []
  }

  datatype Effective = Effective(value: string, ttl: nat)

  /** effective: what a record answers for a VLAN, if anything. */
  function EffectiveOf(z: Zone, r: Record, vlan: string): Option<Effective> {
    var baseTTL := if r.ttl == 0 then z.defaultTTL else r.ttl;
    if vlan != "" && vlan in r.overrides then
      var ov := r.overrides[vlan];
      if ov.nxdomain then None
      else
        var v := if ov.value == "" then r.def else ov.value;
        if v == "" then None else Some(Effective(v, if ov.ttl == 0 then baseTTL else ov.ttl))
    else if r.def == "" then None
    else Some(Effective(r.def, baseTTL))
  }

  predicate NamePresent(z: Zone, name: string, vlan: string) {
    exists i :: 0 <= i < |RecordsAt(z, name)| &&
      (RecordsAt(z, name)[i].rtype.TypeSVCB? || EffectiveOf(z, RecordsAt(z, name)[i], vlan).Some?)
  }

  /** The first CNAME that answers for the VLAN. */
  function FirstAlias(z: Zone, rs: seq<Record>, vlan: string): Option<Effective> {
    if rs == [] then None
    else if rs[0].rtype.TypeCNAME? && EffectiveOf(z, rs[0], vlan).Some? then EffectiveOf(z, rs[0], vlan)
    else FirstAlias(z, rs[1..], vlan)
  }

  function AliasOf(z: Zone, name: string, vlan: string): Option<Effective> {
    FirstAlias(z, RecordsAt(z, name), vlan)
  }

  predicate IsAddressType(q: Qtype) { q.TypeA? || q.TypeAAAA? }

  function RrFor(z: Zone, name: string, q: Qtype, e: Effective): Option<RR> {
    var ip := z.parseIP(e.value);
    if ip.None? then None
    else if q.TypeA? && ip.value.V4? then Some(AddressRR(name, q, ip.value, e.ttl))
    else if q.TypeAAAA? && ip.value.V6? then Some(AddressRR(name, q, ip.value, e.ttl))
    else None
  }

  /** What one record adds to a direct answer. */
  function Direct1(z: Zone, name: string, q: Qtype, vlan: string, r: Record): seq<RR> {
    if r.rtype != q then []
    else if r.rtype.TypeSVCB? then
      if r.svcb.paramsOk then [SvcbRR(name, r.svcb, if r.ttl == 0 then z.defaultTTL else r.ttl)] else []
    else
      var e := EffectiveOf(z, r, vlan);
      if e.None? then []
      else
        var rr := RrFor(z, name, q, e.value);
        if rr.Some? then [rr.value] else []
  }

  function Direct(z: Zone, name: string, q: Qtype, vlan: string, rs: seq<Record>): seq<RR> {
    if rs == [] then [] else Direct(z, name, q, vlan, rs[..|rs| - 1]) + Direct1(z, name, q, vlan, rs[|rs| - 1])
  }

  /** buildAnswers with a bound on how deep it may recurse; None when the bound is reached. The
      program has no bound, so it terminates exactly when some bound is enough. */
  function Build(z: Zone, name: string, q: Qtype, vlan: string, depth: nat): Option<seq<RR>>
    decreases depth
  {
    if depth == 0 then None
    else
      var a := AliasOf(z, name, vlan);
      if a.Some? then
        var head := [Alias(name, a.value.value, a.value.ttl)];
        if !IsAddressType(q) then Some(head)
        else
          var rest := Build(z, a.value.value, q, vlan, depth - 1);
          if rest.None? then None else Some(head + rest.value)
      else Some(Direct(z, name, q, vlan, RecordsAt(z, name)))
  }

  lemma BuildCases(z: Zone, name: string, q: Qtype, vlan: string, depth: nat)
    requires Build(z, name, q, vlan, depth).Some?
    ensures depth > 0
    ensures AliasOf(z, name, vlan).None? ==> Build(z, name, q, vlan, depth) == Some(Direct(z, name, q, vlan, RecordsAt(z, name)))
    ensures AliasOf(z, name, vlan).Some? && IsAddressType(q) ==> Build(z, AliasOf(z, name, vlan).value.value, q, vlan, depth - 1).Some?
  {
  }

  /** buildAnswers: one scan for an answering alias, one for records of the queried type. The ghost
      depth is any bound that is enough; TerminatesExactly says when there is one. */
  method BuildAnswers(z: Zone, name: string, q: Qtype, vlan: string, ghost depth: nat) returns (out: seq<RR>)
    requires Build(z, name, q, vlan, depth).Some?
    ensures out == Build(z, name, q, vlan, depth).value
    decreases depth
  {
    BuildCases(z, name, q, vlan, depth);
    var rs := RecordsAt(z, name);
    var i := 0;
    while i < |rs|
      invariant 0 <= i <= |rs|
      invariant AliasOf(z, name, vlan) == FirstAlias(z, rs[i..], vlan)
    {
      assert rs[i..][1..] == rs[i + 1..];
      if rs[i].rtype.TypeCNAME? {
        var e := EffectiveOf(z, rs[i], vlan);
        if e.Some? {
          out := [Alias(name, e.value.value, e.value.ttl)];
          if IsAddressType(q) {
            var rest := BuildAnswers(z, e.value.value, q, vlan, depth - 1);
            out := out + rest;
          }
          return;
        }
      }
      i := i + 1;
    }
    out := [];
    i := 0;
    while i < |rs|
      invariant 0 <= i <= |rs|
      invariant out == Direct(z, name, q, vlan, rs[..i])
    {
      assert rs[..i + 1][..i] == rs[..i];
      out := out + Direct1(z, name, q, vlan, rs[i]);
      i := i + 1;
    }
    assert rs[..|rs|] == rs;
  }

  // ---- What a record gives a VLAN ----

  /** The override that applies to a VLAN; a client outside every VLAN has none. */
  lemma GivenValue(z: Zone, r: Record, vlan: string)
    ensures var ov := if vlan != "" && vlan in r.overrides then r.overrides[vlan] else Override("", 0, false);
            var value := if ov.value != "" then ov.value else r.def;
            EffectiveOf(z, r, vlan) ==
            if ov.nxdomain || value == "" then None
            else Some(Effective(value, if ov.ttl != 0 then ov.ttl else if r.ttl != 0 then r.ttl else z.defaultTTL))
  {
  }

  lemma {:induction false} AliasAt(z: Zone, rs: seq<Record>, vlan: string, i: nat)
    requires i < |rs| && rs[i].rtype.TypeCNAME? && EffectiveOf(z, rs[i], vlan).Some?
    requires forall j :: 0 <= j < i && rs[j].rtype.TypeCNAME? ==> EffectiveOf(z, rs[j], vlan).None?
    ensures FirstAlias(z, rs, vlan) == EffectiveOf(z, rs[i], vlan)
  {
    if i > 0 { AliasAt(z, rs[1..], vlan, i - 1); }
  }

  /** The first CNAME that answers for the VLAN comes first: its target and its lifetime are the VLAN's
      override of them where there is one, and the record's own, or the zone's, where there is none. For
      an address type the target's own answers follow. */
  lemma AliasComesFirst(z: Zone, name: string, q: Qtype, vlan: string, depth: nat, i: nat)
    requires Build(z, name, q, vlan, depth).Some? && name in z.records && i < |z.records[name]|
    requires forall j :: 0 <= j <= i && z.records[name][j].rtype.TypeCNAME? ==>
               var r := z.records[name][j];
               var ov := if vlan != "" && vlan in r.overrides then r.overrides[vlan] else Override("", 0, false);
               (j == i <==> !ov.nxdomain && (ov.value != "" || r.def != ""))
    requires z.records[name][i].rtype.TypeCNAME?
    ensures var r := z.records[name][i];
            var ov := if vlan != "" && vlan in r.overrides then r.overrides[vlan] else Override("", 0, false);
            var target := if ov.value != "" then ov.value else r.def;
            var out := Build(z, name, q, vlan, depth).value;
            && out != []
            && out[0] == Alias(name, target, if ov.ttl != 0 then ov.ttl else if r.ttl != 0 then r.ttl else z.defaultTTL)
            && (if q.TypeA? || q.TypeAAAA? then depth > 0 && Build(z, target, q, vlan, depth - 1) == Some(out[1..]) else |out| == 1)
  {
    var rs := z.records[name];
    forall j | 0 <= j <= i && rs[j].rtype.TypeCNAME? ensures EffectiveOf(z, rs[j], vlan).Some? <==> j == i {
      GivenValue(z, rs[j], vlan);
    }
    AliasAt(z, rs, vlan, i);
    GivenValue(z, rs[i], vlan);
    BuildCases(z, name, q, vlan, depth);
  }

  lemma NoAliasHere(z: Zone, name: string, vlan: string)
    requires forall j :: 0 <= j < |RecordsAt(z, name)| && RecordsAt(z, name)[j].rtype.TypeCNAME? ==>
               var r := RecordsAt(z, name)[j];
               var ov := if vlan != "" && vlan in r.overrides then r.overrides[vlan] else Override("", 0, false);
               ov.nxdomain || (ov.value == "" && r.def == "")
    ensures AliasOf(z, name, vlan).None?
  {
    AliasIsRecord(z, RecordsAt(z, name), vlan);
    forall j | 0 <= j < |RecordsAt(z, name)| && RecordsAt(z, name)[j].rtype.TypeCNAME?
      ensures EffectiveOf(z, RecordsAt(z, name)[j], vlan).None?
    {
      GivenValue(z, RecordsAt(z, name)[j], vlan);
    }
  }

  /** What each record adds. */
  ghost function Parts(z: Zone, name: string, q: Qtype, vlan: string, rs: seq<Record>): seq<seq<RR>> {
    seq(|rs|, i requires 0 <= i < |rs| => Direct1(z, name, q, vlan, rs[i]))
  }

  /** One answer per part that is not empty, in the order of the parts. */
  ghost predicate InOrder(parts: seq<seq<RR>>, at: seq<nat>, out: seq<RR>) {
    && |at| == |out|
    && (forall k, l :: 0 <= k < l < |at| ==> at[k] < at[l])
    && (forall k :: 0 <= k < |at| ==> at[k] < |parts| && parts[at[k]] == [out[k]])
    && forall i: nat :: i in at <==> i < |parts| && parts[i] != []
  }

  lemma OneMorePart(parts: seq<seq<RR>>, at: seq<nat>, out: seq<RR>, part: seq<RR>) returns (more: seq<nat>)
    requires InOrder(parts, at, out) && |part| <= 1
    ensures InOrder(parts + [part], more, out + part)
  {
    var n: nat := |parts|;
    more := at;
    assert forall k :: 0 <= k < |at| ==> (parts + [part])[at[k]] == parts[at[k]];
    if part != [] {
      more := at + [n];
      assert out + part == out + [part[0]];
    } else {
      assert out + part == out;
    }
  }

  lemma {:induction false} DirectInOrder(z: Zone, name: string, q: Qtype, vlan: string, rs: seq<Record>) returns (at: seq<nat>)
    ensures InOrder(Parts(z, name, q, vlan, rs), at, Direct(z, name, q, vlan, rs))
  {
    at := [];
    if rs != [] {
      var front, last := rs[..|rs| - 1], rs[|rs| - 1];
      at := DirectInOrder(z, name, q, vlan, front);
      at := OneMorePart(Parts(z, name, q, vlan, front), at, Direct(z, name, q, vlan, front), Direct1(z, name, q, vlan, last));
      assert Parts(z, name, q, vlan, rs) == Parts(z, name, q, vlan, front) + [Direct1(z, name, q, vlan, last)];
    }
  }

  /** Where no alias answers, an address is answered exactly for each record of the queried type that
      gives the VLAN one, in order: the VLAN's override value when there is one that is not empty, the
      default when there is no override or it is empty, and nothing when the override hides the record.
      The lifetime is the override's, else the record's, else the zone's. */
  lemma AddressAnswers(z: Zone, name: string, q: Qtype, vlan: string, depth: nat) returns (at: seq<nat>)
    requires Build(z, name, q, vlan, depth).Some? && (q.TypeA? || q.TypeAAAA?) && name in z.records
    requires forall j :: 0 <= j < |z.records[name]| && z.records[name][j].rtype.TypeCNAME? ==>
               var r := z.records[name][j];
               var ov := if vlan != "" && vlan in r.overrides then r.overrides[vlan] else Override("", 0, false);
               ov.nxdomain || (ov.value == "" && r.def == "")
    ensures |at| == |Build(z, name, q, vlan, depth).value| && forall k, l :: 0 <= k < l < |at| ==> at[k] < at[l]
    ensures forall k :: 0 <= k < |at| ==> at[k] < |z.records[name]|
    ensures forall k :: 0 <= k < |at| ==>
              var r := z.records[name][at[k]];
              var ov := if vlan != "" && vlan in r.overrides then r.overrides[vlan] else Override("", 0, false);
              var ip := z.parseIP(if ov.value != "" then ov.value else r.def);
              && ip.Some?
              && Build(z, name, q, vlan, depth).value[k]
                 == AddressRR(name, q, ip.value, if ov.ttl != 0 then ov.ttl else if r.ttl != 0 then r.ttl else z.defaultTTL)
    ensures forall i: nat :: i < |z.records[name]| ==>
              var r := z.records[name][i];
              var ov := if vlan != "" && vlan in r.overrides then r.overrides[vlan] else Override("", 0, false);
              var value := if ov.value != "" then ov.value else r.def;
              (i in at <==> r.rtype == q && !ov.nxdomain && value != "" && z.parseIP(value).Some?
                            && (if q.TypeA? then z.parseIP(value).value.V4? else z.parseIP(value).value.V6?))
  {
    var rs := z.records[name];
    NoAliasHere(z, name, vlan);
    BuildCases(z, name, q, vlan, depth);
    at := DirectInOrder(z, name, q, vlan, rs);
    forall i: nat | i < |rs| { GivenValue(z, rs[i], vlan); }
  }

  /** Designated resolvers are answered alike to every VLAN. */
  lemma ServiceAnswers(z: Zone, name: string, vlan: string, depth: nat) returns (at: seq<nat>)
    requires Build(z, name, TypeSVCB, vlan, depth).Some? && name in z.records
    requires forall j :: 0 <= j < |z.records[name]| && z.records[name][j].rtype.TypeCNAME? ==>
               var r := z.records[name][j];
               var ov := if vlan != "" && vlan in r.overrides then r.overrides[vlan] else Override("", 0, false);
               ov.nxdomain || (ov.value == "" && r.def == "")
    ensures |at| == |Build(z, name, TypeSVCB, vlan, depth).value| && forall k, l :: 0 <= k < l < |at| ==> at[k] < at[l]
    ensures forall k :: 0 <= k < |at| ==> at[k] < |z.records[name]|
    ensures forall k :: 0 <= k < |at| ==>
              var r := z.records[name][at[k]];
              Build(z, name, TypeSVCB, vlan, depth).value[k] == SvcbRR(name, r.svcb, if r.ttl != 0 then r.ttl else z.defaultTTL)
    ensures forall i: nat :: i < |z.records[name]| ==>
              (i in at <==> z.records[name][i].rtype.TypeSVCB? && z.records[name][i].svcb.paramsOk)
  {
    var rs := z.records[name];
    NoAliasHere(z, name, vlan);
    BuildCases(z, name, TypeSVCB, vlan, depth);
    at := DirectInOrder(z, name, TypeSVCB, vlan, rs);
  }

  /** And nothing of any other type is answered without an alias. */
  lemma OtherTypesHaveNone(z: Zone, name: string, q: Qtype, vlan: string, depth: nat)
    requires Build(z, name, q, vlan, depth).Some? && (q.TypeCNAME? || q.TypeOther?)
    requires AliasOf(z, name, vlan).None?
    ensures Build(z, name, q, vlan, depth).value == []
  {
    DirectNonEmpty(z, name, q, vlan, RecordsAt(z, name));
  }

  // ---- When it terminates ----

  /** Walking aliases from a name never comes back to a name already seen. */
  predicate AliasesEnd(z: Zone, name: string, vlan: string, seen: set<string>)
    requires seen <= z.records.Keys
    decreases |z.records.Keys - seen|
  {
    var a := AliasOf(z, name, vlan);
    if a.None? then true
    else if name in seen then false
    else
      assert name in z.records;
      assert z.records.Keys - (seen + {name}) < z.records.Keys - seen;
      Shrinks(z.records.Keys - (seen + {name}), z.records.Keys - seen);
      AliasesEnd(z, a.value.value, vlan, seen + {name})
  }

  lemma Shrinks(a: set<string>, b: set<string>)
    requires a < b
    ensures |a| < |b|
  {
    assert b == a + (b - a) && b - a != {};
  }

  lemma {:induction false} MoreDepth(z: Zone, name: string, q: Qtype, vlan: string, d: nat, e: nat)
    requires d <= e && Build(z, name, q, vlan, d).Some?
    ensures Build(z, name, q, vlan, e) == Build(z, name, q, vlan, d)
    decreases d
  {
    var a := AliasOf(z, name, vlan);
    if a.Some? && IsAddressType(q) { MoreDepth(z, a.value.value, q, vlan, d - 1, e - 1); }
  }

  lemma {:induction false} EnoughDepth(z: Zone, name: string, q: Qtype, vlan: string, seen: set<string>)
    requires seen <= z.records.Keys && AliasesEnd(z, name, vlan, seen)
    ensures Build(z, name, q, vlan, |z.records.Keys - seen| + 1).Some?
    decreases |z.records.Keys - seen|
  {
    var a := AliasOf(z, name, vlan);
    if a.Some? {
      var more := seen + {name};
      assert z.records.Keys - more < z.records.Keys - seen;
      Shrinks(z.records.Keys - more, z.records.Keys - seen);
      EnoughDepth(z, a.value.value, q, vlan, more);
      if IsAddressType(q) {
        MoreDepth(z, a.value.value, q, vlan, |z.records.Keys - more| + 1, |z.records.Keys - seen|);
      }
    }
  }

  predicate LinkAt(z: Zone, vlan: string, path: seq<string>, i: nat)
    requires i < |path| - 1
  {
    AliasOf(z, path[i], vlan).Some? && AliasOf(z, path[i], vlan).value.value == path[i + 1]
  }

  /** Each name's effective alias is the next. */
  ghost predicate Chain(z: Zone, vlan: string, path: seq<string>) {
    path != [] && forall i :: 0 <= i < |path| - 1 ==> LinkAt(z, vlan, path, i)
  }

  lemma ChainPart(z: Zone, vlan: string, path: seq<string>, i: nat, j: nat)
    requires Chain(z, vlan, path) && i < j <= |path|
    ensures Chain(z, vlan, path[i..j])
  {
    forall k | 0 <= k < j - i - 1 ensures LinkAt(z, vlan, path[i..j], k) {
      assert LinkAt(z, vlan, path, i + k);
    }
  }

  lemma {:induction false} Descend(z: Zone, vlan: string, q: Qtype, path: seq<string>, d: nat)
    requires Chain(z, vlan, path) && IsAddressType(q) && Build(z, path[0], q, vlan, d).Some?
    ensures d >= |path| && Build(z, path[|path| - 1], q, vlan, d - (|path| - 1)).Some?
    decreases |path|
  {
    if |path| > 1 {
      assert LinkAt(z, vlan, path, 0);
      ChainPart(z, vlan, path, 1, |path|);
      assert path[1..|path|] == path[1..];
      Descend(z, vlan, q, path[1..], d - 1);
    }
  }

  /** A loop of aliases exhausts every bound. */
  lemma {:induction false} LoopNeverEnds(z: Zone, vlan: string, q: Qtype, path: seq<string>, d: nat)
    requires Chain(z, vlan, path) && |path| > 1 && path[0] == path[|path| - 1] && IsAddressType(q)
    ensures Build(z, path[0], q, vlan, d).None?
    decreases d
  {
    if Build(z, path[0], q, vlan, d).Some? {
      Descend(z, vlan, q, path, d);
      LoopNeverEnds(z, vlan, q, path, d - (|path| - 1));
    }
  }

  /** A walk that comes back to a name it has seen, spelled out as one chain. */
  lemma {:induction false} FindLoop(z: Zone, name: string, vlan: string, path: seq<string>, seen: set<string>)
    returns (full: seq<string>, i: nat)
    requires seen <= z.records.Keys && !AliasesEnd(z, name, vlan, seen)
    requires Chain(z, vlan, path + [name]) && forall x :: x in seen ==> x in path
    ensures Chain(z, vlan, full) && full[0] == (path + [name])[0]
    ensures i < |full| - 1 && full[i] == full[|full| - 1]
    decreases |z.records.Keys - seen|
  {
    full, i := path + [name], 0;
    if name in seen {
      i :| 0 <= i < |path| && path[i] == name;
    } else {
      var next := AliasOf(z, name, vlan).value.value;
      SmallerRest(z, name, vlan, seen);
      ChainGrows(z, vlan, full, next);
      full, i := FindLoop(z, next, vlan, full, seen + {name});
    }
  }

  lemma SmallerRest(z: Zone, name: string, vlan: string, seen: set<string>)
    requires seen <= z.records.Keys && AliasOf(z, name, vlan).Some? && name !in seen
    ensures name in z.records && |z.records.Keys - (seen + {name})| < |z.records.Keys - seen|
  {
    assert z.records.Keys - (seen + {name}) < z.records.Keys - seen;
    Shrinks(z.records.Keys - (seen + {name}), z.records.Keys - seen);
  }

  lemma ChainGrows(z: Zone, vlan: string, path: seq<string>, next: string)
    requires Chain(z, vlan, path)
    requires AliasOf(z, path[|path| - 1], vlan).Some? && AliasOf(z, path[|path| - 1], vlan).value.value == next
    ensures Chain(z, vlan, path + [next])
  {
    forall k | 0 <= k < |path| ensures LinkAt(z, vlan, path + [next], k) {
      if k < |path| - 1 { assert LinkAt(z, vlan, path, k); }
    }
  }

  lemma NeverEnds(z: Zone, name: string, q: Qtype, vlan: string, d: nat)
    requires IsAddressType(q) && !AliasesEnd(z, name, vlan, {})
    ensures Build(z, name, q, vlan, d).None?
  {
    assert [] + [name] == [name];
    var full, i := FindLoop(z, name, vlan, [], {});
    ChainPart(z, vlan, full, 0, i + 1);
    ChainPart(z, vlan, full, i, |full|);
    assert full[0..i + 1] == full[..i + 1] && full[i..|full|] == full[i..];
    if Build(z, name, q, vlan, d).Some? {
      Descend(z, vlan, q, full[..i + 1], d);
      LoopNeverEnds(z, vlan, q, full[i..], d - i);
    }
  }

  /** buildAnswers for an address type terminates exactly when the aliases from its name do not loop
      for the VLAN; for any other type it always does. */
  lemma TerminatesExactly(z: Zone, name: string, q: Qtype, vlan: string)
    ensures (exists d: nat :: Build(z, name, q, vlan, d).Some?) <==> !IsAddressType(q) || AliasesEnd(z, name, vlan, {})
  {
    if AliasesEnd(z, name, vlan, {}) {
      EnoughDepth(z, name, q, vlan, {});
      var d: nat := |z.records.Keys - {}| + 1;
      assert Build(z, name, q, vlan, d).Some?;
    } else if !IsAddressType(q) {
      var d: nat := 1;
      assert Build(z, name, q, vlan, d).Some?;
    } else {
      forall d: nat ensures Build(z, name, q, vlan, d).None? { NeverEnds(z, name, q, vlan, d); }
    }
  }

  // ---- What it answers ----

  /** buildAnswers, for a query that terminates. */
  function Answers(z: Zone, name: string, q: Qtype, vlan: string): (out: seq<RR>)
    requires !IsAddressType(q) || AliasesEnd(z, name, vlan, {})
  {
    if IsAddressType(q) then
      EnoughDepth(z, name, q, vlan, {});
      Build(z, name, q, vlan, |z.records.Keys| + 1).value
    else Build(z, name, q, vlan, 1).value
  }

  /** A prefix of aliases, each owned by the target of the one before, then records of the queried
      type owned by the last name; for other than address queries an alias stands alone. */
  ghost predicate Linked(z: Zone, name: string, q: Qtype, vlan: string, out: seq<RR>)
    decreases |out|
  {
    if AliasOf(z, name, vlan).None? then
      forall i :: 0 <= i < |out| ==> !out[i].Alias? && out[i].owner == name && TypeIs(out[i], q)
    else
      && out != [] && out[0] == Alias(name, AliasOf(z, name, vlan).value.value, AliasOf(z, name, vlan).value.ttl)
      && if IsAddressType(q) then Linked(z, out[0].target, q, vlan, out[1..]) else |out| == 1
  }

  predicate TypeIs(r: RR, q: Qtype) {
    match r
    case Alias(_, _, _) => false
    case AddressRR(_, t, ip, _) => t == q && (q.TypeA? ==> ip.V4?) && (q.TypeAAAA? ==> ip.V6?)
    case SvcbRR(_, _, _) => q.TypeSVCB?
  }

  lemma {:induction false} DirectOwned(z: Zone, name: string, q: Qtype, vlan: string, rs: seq<Record>)
    ensures forall i :: 0 <= i < |Direct(z, name, q, vlan, rs)| ==>
              var r := Direct(z, name, q, vlan, rs)[i]; !r.Alias? && r.owner == name && TypeIs(r, q)
  {
    if rs != [] { DirectOwned(z, name, q, vlan, rs[..|rs| - 1]); }
  }

  lemma {:induction false} BuildLinked(z: Zone, name: string, q: Qtype, vlan: string, d: nat)
    requires Build(z, name, q, vlan, d).Some?
    ensures Linked(z, name, q, vlan, Build(z, name, q, vlan, d).value)
    decreases d
  {
    var a := AliasOf(z, name, vlan);
    var out := Build(z, name, q, vlan, d).value;
    if a.None? {
      DirectOwned(z, name, q, vlan, RecordsAt(z, name));
    } else if IsAddressType(q) {
      BuildLinked(z, a.value.value, q, vlan, d - 1);
      assert out[1..] == Build(z, a.value.value, q, vlan, d - 1).value;
    }
  }

  lemma AnswersLinked(z: Zone, name: string, q: Qtype, vlan: string)
    requires !IsAddressType(q) || AliasesEnd(z, name, vlan, {})
    ensures Linked(z, name, q, vlan, Answers(z, name, q, vlan))
  {
    if IsAddressType(q) {
      EnoughDepth(z, name, q, vlan, {});
      BuildLinked(z, name, q, vlan, |z.records.Keys| + 1);
    } else {
      BuildLinked(z, name, q, vlan, 1);
    }
  }

  // ---- Presence ----

  lemma {:induction false} AliasIsRecord(z: Zone, rs: seq<Record>, vlan: string)
    ensures FirstAlias(z, rs, vlan).Some? <==>
            exists i :: 0 <= i < |rs| && rs[i].rtype.TypeCNAME? && EffectiveOf(z, rs[i], vlan).Some?
  {
    if rs != [] {
      AliasIsRecord(z, rs[1..], vlan);
      if i :| 0 <= i < |rs[1..]| && rs[1..][i].rtype.TypeCNAME? && EffectiveOf(z, rs[1..][i], vlan).Some? {
        assert rs[i + 1] == rs[1..][i];
      }
      if i :| 0 <= i < |rs| && rs[i].rtype.TypeCNAME? && EffectiveOf(z, rs[i], vlan).Some? {
        if i > 0 { assert rs[1..][i - 1] == rs[i]; }
      }
    }
  }

  lemma {:induction false} DirectNonEmpty(z: Zone, name: string, q: Qtype, vlan: string, rs: seq<Record>)
    ensures Direct(z, name, q, vlan, rs) != [] <==> exists i :: 0 <= i < |rs| && Direct1(z, name, q, vlan, rs[i]) != []
  {
    if rs != [] {
      var front := rs[..|rs| - 1];
      DirectNonEmpty(z, name, q, vlan, front);
      if i :| 0 <= i < |front| && Direct1(z, name, q, vlan, front[i]) != [] { assert rs[i] == front[i]; }
      if i :| 0 <= i < |rs| && Direct1(z, name, q, vlan, rs[i]) != [] {
        if i < |front| { assert front[i] == rs[i]; }
      }
    }
  }

  /** Values passed validation: an address record holds an address of its family, and the only
      types are the ones that can be configured. */
  ghost predicate Validated(z: Zone) {
    forall name, i :: name in z.records && 0 <= i < |z.records[name]| ==> RecordOk(z, z.records[name][i])
  }

  ghost predicate RecordOk(z: Zone, r: Record) {
    && (r.rtype.TypeA? || r.rtype.TypeAAAA? || r.rtype.TypeCNAME? || (r.rtype.TypeSVCB? && r.svcb.paramsOk))
    && (r.def != "" ==> ValueOk(z, r.rtype, r.def))
    && forall v :: v in r.overrides && r.overrides[v].value != "" ==> ValueOk(z, r.rtype, r.overrides[v].value)
  }

  predicate ValueOk(z: Zone, q: Qtype, value: string) {
    (q.TypeA? ==> z.parseIP(value).Some? && z.parseIP(value).value.V4?)
    && (q.TypeAAAA? ==> z.parseIP(value).Some? && z.parseIP(value).value.V6?)
  }

  /** NXDOMAIN is never wrong: a name that is not present has no answer of any type. */
  lemma AbsentHasNoAnswer(z: Zone, name: string, q: Qtype, vlan: string, d: nat)
    requires !NamePresent(z, name, vlan) && d > 0
    ensures Build(z, name, q, vlan, d) == Some([])
  {
    AliasIsRecord(z, RecordsAt(z, name), vlan);
    DirectNonEmpty(z, name, q, vlan, RecordsAt(z, name));
  }

  /** And it is never missed: on validated tables a name is present exactly when some query type
      has an answer. */
  lemma PresentExactly(z: Zone, name: string, vlan: string)
    requires Validated(z) && AliasesEnd(z, name, vlan, {})
    ensures NamePresent(z, name, vlan) <==> exists q :: Answers(z, name, q, vlan) != []
  {
    var rs := RecordsAt(z, name);
    if NamePresent(z, name, vlan) {
      var i :| 0 <= i < |rs| && (rs[i].rtype.TypeSVCB? || EffectiveOf(z, rs[i], vlan).Some?);
      assert RecordOk(z, rs[i]);
      var q := rs[i].rtype;
      AnswersLinked(z, name, q, vlan);
      if AliasOf(z, name, vlan).None? {
        AliasIsRecord(z, rs, vlan);
        assert Direct1(z, name, q, vlan, rs[i]) != [];
        DirectNonEmpty(z, name, q, vlan, rs);
      }
      assert Answers(z, name, q, vlan) != [];
    } else {
      forall q ensures Answers(z, name, q, vlan) == [] {
        AbsentHasNoAnswer(z, name, q, vlan, if IsAddressType(q) then |z.records.Keys| + 1 else 1);
      }
    }
  }

  // ---- Glue ----

  /** Does some answer designate this resolver? */
  predicate Designates(answers: seq<RR>, target: string) {
    exists i :: 0 <= i < |answers| && answers[i].SvcbRR? && answers[i].svcb.target == target
  }

  /** ddrGlue: both address lookups for each designated resolver, once, in order of first mention;
      None when a lookup needs more depth. */
  function Glue(z: Zone, answers: seq<RR>, vlan: string, depth: nat): Option<seq<RR>> {
    if answers == [] then Some([])
    else
      var front, last := answers[..|answers| - 1], answers[|answers| - 1];
      var rest := Glue(z, front, vlan, depth);
      if rest.None? || !last.SvcbRR? || Designates(front, last.svcb.target) then rest
      else
        var v4, v6 := Build(z, last.svcb.target, TypeA, vlan, depth), Build(z, last.svcb.target, TypeAAAA, vlan, depth);
        if v4.None? || v6.None? then None else Some(rest.value + v4.value + v6.value)
  }

  lemma DesignatesMore(answers: seq<RR>, target: string)
    requires answers != []
    ensures var last := answers[|answers| - 1];
            Designates(answers, target) <==> Designates(answers[..|answers| - 1], target) || (last.SvcbRR? && last.svcb.target == target)
  {
    var front := answers[..|answers| - 1];
    if Designates(front, target) {
      var i :| 0 <= i < |front| && front[i].SvcbRR? && front[i].svcb.target == target;
      assert answers[i] == front[i];
    }
    if Designates(answers, target) {
      var i :| 0 <= i < |answers| && answers[i].SvcbRR? && answers[i].svcb.target == target;
      assert i < |front| ==> front[i] == answers[i];
    }
  }

  /** The glue needs both lookups of every designated resolver, and nothing else. */
  lemma {:induction false} GlueNeeds(z: Zone, answers: seq<RR>, vlan: string, depth: nat)
    ensures Glue(z, answers, vlan, depth).Some? <==>
            forall t :: Designates(answers, t) ==> Build(z, t, TypeA, vlan, depth).Some? && Build(z, t, TypeAAAA, vlan, depth).Some?
  {
    if answers != [] {
      GlueNeeds(z, answers[..|answers| - 1], vlan, depth);
      forall t ensures Designates(answers, t) <==> Designates(answers[..|answers| - 1], t)
                                                   || (answers[|answers| - 1].SvcbRR? && answers[|answers| - 1].svcb.target == t)
      {
        DesignatesMore(answers, t);
      }
      var last := answers[|answers| - 1];
      if last.SvcbRR? { assert Designates(answers, last.svcb.target) by { DesignatesMore(answers, last.svcb.target); } }
    }
  }

  /** The records added are exactly the designated resolvers' addresses as the client's VLAN sees
      them. */
  lemma {:induction false} GlueIsAddresses(z: Zone, answers: seq<RR>, vlan: string, depth: nat, x: RR)
    requires Glue(z, answers, vlan, depth).Some?
    ensures x in Glue(z, answers, vlan, depth).value <==>
            exists t :: Designates(answers, t)
                        && ((Build(z, t, TypeA, vlan, depth).Some? && x in Build(z, t, TypeA, vlan, depth).value)
                            || (Build(z, t, TypeAAAA, vlan, depth).Some? && x in Build(z, t, TypeAAAA, vlan, depth).value))
  {
    if answers != [] {
      var last := answers[|answers| - 1];
      GlueIsAddresses(z, answers[..|answers| - 1], vlan, depth, x);
      forall t ensures Designates(answers, t) <==> Designates(answers[..|answers| - 1], t)
                                                   || (answers[|answers| - 1].SvcbRR? && answers[|answers| - 1].svcb.target == t)
      {
        DesignatesMore(answers, t);
      }
      if last.SvcbRR? { assert Designates(answers, last.svcb.target) by { DesignatesMore(answers, last.svcb.target); } }
    }
  }

  /** The address lookups of some targets, one after another. */
  ghost function Lookups(z: Zone, targets: seq<string>, vlan: string, depth: nat): seq<RR> {
    if targets == [] then []
    else
      var last := targets[|targets| - 1];
      Lookups(z, targets[..|targets| - 1], vlan, depth)
      + Build(z, last, TypeA, vlan, depth).GetOr([]) + Build(z, last, TypeAAAA, vlan, depth).GetOr([])
  }

  /** Each designated resolver is looked up once, its IPv4 addresses before its IPv6 ones. */
  lemma {:induction false} GlueLooksUpOnce(z: Zone, answers: seq<RR>, vlan: string, depth: nat) returns (targets: seq<string>)
    requires Glue(z, answers, vlan, depth).Some?
    ensures Glue(z, answers, vlan, depth).value == Lookups(z, targets, vlan, depth)
    ensures forall i, j :: 0 <= i < j < |targets| ==> targets[i] != targets[j]
    ensures forall t :: t in targets <==> Designates(answers, t)
  {
    targets := [];
    if answers != [] {
      var front, last := answers[..|answers| - 1], answers[|answers| - 1];
      targets := GlueLooksUpOnce(z, front, vlan, depth);
      forall t ensures Designates(answers, t) <==> Designates(front, t) || (last.SvcbRR? && last.svcb.target == t) {
        DesignatesMore(answers, t);
      }
      if last.SvcbRR? && !Designates(front, last.svcb.target) {
        var more := targets + [last.svcb.target];
        assert more[..|targets|] == targets;
        targets := more;
      }
    }
  }

  /** The loop over the answers, remembering the targets it has looked up. */
  method DdrGlue(z: Zone, answers: seq<RR>, vlan: string, ghost depth: nat) returns (extra: seq<RR>)
    requires Glue(z, answers, vlan, depth).Some?
    ensures Some(extra) == Glue(z, answers, vlan, depth)
  {
    extra := [];
    var seen: set<string> := {};
    GlueNeeds(z, answers, vlan, depth);
    for i := 0 to |answers|
      invariant Some(extra) == Glue(z, answers[..i], vlan, depth)
      invariant forall t :: t in seen <==> Designates(answers[..i], t)
    {
      var rr := answers[i];
      ghost var more := answers[..i + 1];
      assert more[..i] == answers[..i];
      forall t ensures Designates(more, t) <==> Designates(answers[..i], t) || (rr.SvcbRR? && rr.svcb.target == t) {
        DesignatesMore(more, t);
      }
      if !rr.SvcbRR? || rr.svcb.target in seen { continue; }
      assert Designates(answers, rr.svcb.target);
      seen := seen + {rr.svcb.target};
      var v4 := BuildAnswers(z, rr.svcb.target, TypeA, vlan, depth);
      var v6 := BuildAnswers(z, rr.svcb.target, TypeAAAA, vlan, depth);
      extra := extra + v4 + v6;
    }
    assert answers[..|answers|] == answers;
  }

  // ---- Which reply ----

  datatype Reply = Forwarded | NxDomain(zone: string) | NoData(zone: string) | Answered(answers: seq<RR>, extra: seq<RR>)

  function VlanOf(z: Zone, ip: Option<Addr>): string { Lookup(z.vlans, ip).GetOr("") }

  method IsFallthroughZone(z: Zone, zone: string) returns (yes: bool)
    ensures yes <==> zone in z.fallthrough
  {
    for i := 0 to |z.fallthrough|
      invariant zone !in z.fallthrough[..i]
    {
      if z.fallthrough[i] == zone { return true; }
    }
    yes := false;
  }

  predicate NoAnswer(z: Zone, zone: string, ip: Option<Addr>, asked: string, q: Qtype, depth: nat) {
    zone != "" && Build(z, ToLower(asked), q, VlanOf(z, ip), depth) == Some([])
  }

  /** The one reply each case admits. */
  ghost predicate Replies(z: Zone, zone: string, ip: Option<Addr>, asked: string, q: Qtype, depth: nat, r: Reply) {
    match r
    case Forwarded => zone == "" || (zone in z.fallthrough && NoAnswer(z, zone, ip, asked, q, depth))
    case NxDomain(at) => at == zone && zone !in z.fallthrough && NoAnswer(z, zone, ip, asked, q, depth)
                         && !NamePresent(z, ToLower(asked), VlanOf(z, ip))
    case NoData(at) => at == zone && zone !in z.fallthrough && NoAnswer(z, zone, ip, asked, q, depth)
                       && NamePresent(z, ToLower(asked), VlanOf(z, ip))
    case Answered(rrs, extra) => zone != "" && rrs != [] && Build(z, ToLower(asked), q, VlanOf(z, ip), depth) == Some(rrs)
                                 && Glue(z, rrs, VlanOf(z, ip), depth) == Some(extra)
  }

  /** The depth is enough for the answers and for their glue. */
  predicate Finishes(z: Zone, zone: string, ip: Option<Addr>, asked: string, q: Qtype, depth: nat) {
    zone != "" ==>
      var answers := Build(z, ToLower(asked), q, VlanOf(z, ip), depth);
      answers.Some? && Glue(z, answers.value, VlanOf(z, ip), depth).Some?
  }

  /** ServeDNS for a query whose longest enclosing configured zone is `zone`, "" for none. The reply
      is read off what the client's VLAN can see: the answers to this query and whether the name
      has any: a designated resolver, or a record that is not hidden and has a value. */
  method ServeDNS(z: Zone, zone: string, ip: Option<Addr>, asked: string, q: Qtype, ghost depth: nat) returns (r: Reply)
    requires Finishes(z, zone, ip, asked, q, depth)
    ensures r.Forwarded? <==>
              zone == "" || (zone in z.fallthrough && Build(z, ToLower(asked), q, Lookup(z.vlans, ip).GetOr(""), depth) == Some([]))
    ensures r.Answered? <==> zone != "" && Build(z, ToLower(asked), q, Lookup(z.vlans, ip).GetOr(""), depth) != Some([])
    ensures r.Answered? ==> Build(z, ToLower(asked), q, Lookup(z.vlans, ip).GetOr(""), depth) == Some(r.answers)
                            && Glue(z, r.answers, Lookup(z.vlans, ip).GetOr(""), depth) == Some(r.extra)
    ensures r.NxDomain? || r.NoData? ==>
              && r.zone == zone
              && (r.NoData? <==> exists i ::
                    ToLower(asked) in z.records && 0 <= i < |z.records[ToLower(asked)]| &&
                    var rec := z.records[ToLower(asked)][i];
                    var vlan := Lookup(z.vlans, ip).GetOr("");
                    var ov := if vlan != "" && vlan in rec.overrides then rec.overrides[vlan] else Override("", 0, false);
                    rec.rtype.TypeSVCB? || (!ov.nxdomain && (ov.value != "" || rec.def != "")))
    ensures Replies(z, zone, ip, asked, q, depth, r)
  {
    var name := ToLower(asked);
    if zone == "" { return Forwarded; }
    var vlan := VlanOf(z, ip);
    var answers := BuildAnswers(z, name, q, vlan, depth);
    if answers == [] {
      var deferred := IsFallthroughZone(z, zone);
      if deferred { return Forwarded; }
      return if NamePresent(z, name, vlan) then NoData(zone) else NxDomain(zone);
    }
    var extra := DdrGlue(z, answers, vlan, depth);
    r := Answered(answers, extra);
  }

  lemma SameAsAnswers(z: Zone, name: string, q: Qtype, vlan: string, depth: nat)
    requires AliasesEnd(z, name, vlan, {}) && Build(z, name, q, vlan, depth).Some?
    ensures Build(z, name, q, vlan, depth) == Some(Answers(z, name, q, vlan))
  {
    var enough := if IsAddressType(q) then |z.records.Keys| + 1 else 1;
    if IsAddressType(q) { EnoughDepth(z, name, q, vlan, {}); }
    if depth <= enough {
      MoreDepth(z, name, q, vlan, depth, enough);
    } else {
      MoreDepth(z, name, q, vlan, enough, depth);
    }
  }

  /** Any address lookup that terminates at all does within the number of names. */
  lemma EnoughForBoth(z: Zone, name: string, vlan: string, d: nat)
    requires Build(z, name, TypeA, vlan, d).Some? || AliasesEnd(z, name, vlan, {})
    ensures AliasesEnd(z, name, vlan, {})
    ensures Build(z, name, TypeA, vlan, |z.records.Keys| + 1).Some? && Build(z, name, TypeAAAA, vlan, |z.records.Keys| + 1).Some?
  {
    TerminatesExactly(z, name, TypeA, vlan);
    EnoughDepth(z, name, TypeA, vlan, {});
    EnoughDepth(z, name, TypeAAAA, vlan, {});
  }

  lemma GlueEndsExactly(z: Zone, answers: seq<RR>, vlan: string)
    ensures (exists d: nat :: Glue(z, answers, vlan, d).Some?) <==> forall t :: Designates(answers, t) ==> AliasesEnd(z, t, vlan, {})
    ensures (forall t :: Designates(answers, t) ==> AliasesEnd(z, t, vlan, {})) ==> Glue(z, answers, vlan, |z.records.Keys| + 1).Some?
  {
    GlueNeeds(z, answers, vlan, |z.records.Keys| + 1);
    if forall t :: Designates(answers, t) ==> AliasesEnd(z, t, vlan, {}) {
      forall t | Designates(answers, t) ensures Build(z, t, TypeA, vlan, |z.records.Keys| + 1).Some?
                                                && Build(z, t, TypeAAAA, vlan, |z.records.Keys| + 1).Some?
      {
        EnoughForBoth(z, t, vlan, 0);
      }
    }
    if d: nat :| Glue(z, answers, vlan, d).Some? {
      GlueNeeds(z, answers, vlan, d);
      forall t | Designates(answers, t) ensures AliasesEnd(z, t, vlan, {}) { EnoughForBoth(z, t, vlan, d); }
    }
  }

  /** A query in a configured zone terminates exactly when its own aliases end, for an address type,
      and the aliases of every resolver its answers designate end too. */
  lemma ServeEndsExactly(z: Zone, zone: string, ip: Option<Addr>, asked: string, q: Qtype)
    ensures (exists d: nat :: Finishes(z, zone, ip, asked, q, d)) <==>
              zone == "" || MayEnd(z, ToLower(asked), q, VlanOf(z, ip))
  {
    if zone == "" {
      var d: nat := 0;
      assert Finishes(z, zone, ip, asked, q, d);
    } else {
      if MayEnd(z, ToLower(asked), q, VlanOf(z, ip)) { ServeEnds(z, zone, ip, asked, q); }
      if d: nat :| Finishes(z, zone, ip, asked, q, d) { EndedServe(z, zone, ip, asked, q, d); }
    }
  }

  predicate MayEnd(z: Zone, name: string, q: Qtype, vlan: string) {
    (IsAddressType(q) ==> AliasesEnd(z, name, vlan, {})) && TargetsEnd(z, Answers(z, name, q, vlan), vlan)
  }

  predicate TargetsEnd(z: Zone, answers: seq<RR>, vlan: string) {
    forall i :: 0 <= i < |answers| && answers[i].SvcbRR? ==> AliasesEnd(z, answers[i].svcb.target, vlan, {})
  }

  lemma ServeEnds(z: Zone, zone: string, ip: Option<Addr>, asked: string, q: Qtype)
    requires MayEnd(z, ToLower(asked), q, VlanOf(z, ip))
    ensures Finishes(z, zone, ip, asked, q, |z.records.Keys| + 1)
  {
    var vlan, name := VlanOf(z, ip), ToLower(asked);
    EnoughAnswers(z, name, q, vlan);
    GlueEndsExactly(z, Answers(z, name, q, vlan), vlan);
  }

  lemma EndedServe(z: Zone, zone: string, ip: Option<Addr>, asked: string, q: Qtype, d: nat)
    requires zone != "" && Finishes(z, zone, ip, asked, q, d)
    ensures MayEnd(z, ToLower(asked), q, VlanOf(z, ip))
  {
    var vlan, name := VlanOf(z, ip), ToLower(asked);
    assert Build(z, name, q, vlan, d).Some?;
    TerminatesExactly(z, name, q, vlan);
    EnoughAnswers(z, name, q, vlan);
    OneAnswer(z, name, q, vlan, d, |z.records.Keys| + 1);
    var answers := Answers(z, name, q, vlan);
    GlueNeeds(z, answers, vlan, d);
    forall i | 0 <= i < |answers| && answers[i].SvcbRR? ensures AliasesEnd(z, answers[i].svcb.target, vlan, {}) {
      assert Designates(answers, answers[i].svcb.target);
      EnoughForBoth(z, answers[i].svcb.target, vlan, d);
    }
  }

  lemma EnoughAnswers(z: Zone, name: string, q: Qtype, vlan: string)
    requires !IsAddressType(q) || AliasesEnd(z, name, vlan, {})
    ensures Build(z, name, q, vlan, |z.records.Keys| + 1) == Some(Answers(z, name, q, vlan))
  {
    if IsAddressType(q) {
      EnoughDepth(z, name, q, vlan, {});
      assert z.records.Keys - {} == z.records.Keys;
    } else {
      MoreDepth(z, name, q, vlan, 1, |z.records.Keys| + 1);
    }
  }

  lemma OneAnswer(z: Zone, name: string, q: Qtype, vlan: string, d: nat, e: nat)
    requires Build(z, name, q, vlan, d).Some? && Build(z, name, q, vlan, e).Some?
    ensures Build(z, name, q, vlan, d) == Build(z, name, q, vlan, e)
  {
    if d <= e { MoreDepth(z, name, q, vlan, d, e); } else { MoreDepth(z, name, q, vlan, e, d); }
  }

  /** A designated resolver whose own name loops keeps the query from ever being answered, although
      the answer itself is at hand and the queried name has no alias at all: for every such table. */
  lemma DesignatedLoopHangs(z: Zone, zone: string, ip: Option<Addr>, asked: string, i: nat)
    requires zone != "" && AliasOf(z, ToLower(asked), VlanOf(z, ip)).None? && i < |RecordsAt(z, ToLower(asked))|
    requires var r := RecordsAt(z, ToLower(asked))[i];
             r.rtype.TypeSVCB? && r.svcb.paramsOk && !AliasesEnd(z, r.svcb.target, VlanOf(z, ip), {})
    ensures AliasesEnd(z, ToLower(asked), VlanOf(z, ip), {}) && Answers(z, ToLower(asked), TypeSVCB, VlanOf(z, ip)) != []
    ensures forall d: nat :: !Finishes(z, zone, ip, asked, TypeSVCB, d)
  {
    var name, vlan := ToLower(asked), VlanOf(z, ip);
    DirectHas(z, name, vlan, RecordsAt(z, name), i);
    ServeEndsExactly(z, zone, ip, asked, TypeSVCB);
  }

  lemma {:induction false} DirectHas(z: Zone, name: string, vlan: string, rs: seq<Record>, i: nat)
    requires i < |rs| && rs[i].rtype.TypeSVCB? && rs[i].svcb.paramsOk
    ensures Designates(Direct(z, name, TypeSVCB, vlan, rs), rs[i].svcb.target)
    ensures Direct(z, name, TypeSVCB, vlan, rs) != []
  {
    var front := Direct(z, name, TypeSVCB, vlan, rs[..|rs| - 1]);
    var all := Direct(z, name, TypeSVCB, vlan, rs);
    if i < |rs| - 1 {
      DirectHas(z, name, vlan, rs[..|rs| - 1], i);
      var k :| 0 <= k < |front| && front[k].SvcbRR? && front[k].svcb.target == rs[i].svcb.target;
      assert all[k] == front[k];
    } else {
      assert all[|front|].SvcbRR? && all[|front|].svcb.target == rs[i].svcb.target;
    }
  }

  /** Such a table exists with valid records: "d." designates "t.", which is its own alias. */
  lemma DesignatedLoop() returns (z: Zone)
    ensures Validated(z) && !AliasesEnd(z, "t.", "", {})
    ensures forall d: nat :: !Finishes(z, "d.", None, "d.", TypeSVCB, d)
  {
    var d := Record(TypeSVCB, "", 0, map[], Svcb(1, "t.", true));
    var t := Record(TypeCNAME, "t.", 0, map[], Svcb(0, "", false));
    z := Zone(map["d." := [d], "t." := [t]], 60, [], [], text => None);
    assert RecordsAt(z, "d.") == [d] && RecordsAt(z, "t.") == [t] && [d][1..] == [];
    assert FirstAlias(z, [], "").None? && AliasOf(z, "d.", "").None?;
    assert AliasOf(z, "t.", "") == Some(Effective("t.", 60));
    assert !AliasesEnd(z, "t.", "", {"t."});
    assert {} + {"t."} == {"t."};
    assert !AliasesEnd(z, "t.", "", {});
    assert ToLower("d.") == "d.";
    DesignatedLoopHangs(z, "d.", None, "d.", 0);
  }

  /** In a wholly owned zone a query never leaves the resolver; it is told that the name does not
      exist exactly when no type of query for it has an answer for that client, and that there is
      no data exactly when another type has one and this type has none. An answer comes with exactly
      the addresses of the resolvers it designates. */
  lemma OwnedZoneReply(z: Zone, zone: string, ip: Option<Addr>, asked: string, q: Qtype, depth: nat, r: Reply)
    requires Validated(z) && AliasesEnd(z, ToLower(asked), VlanOf(z, ip), {})
    requires zone != "" && zone !in z.fallthrough
    requires Finishes(z, zone, ip, asked, q, depth) && Replies(z, zone, ip, asked, q, depth, r)
    ensures !r.Forwarded?
    ensures r.NxDomain? <==> forall t :: Answers(z, ToLower(asked), t, VlanOf(z, ip)) == []
    ensures r.NoData? <==> Answers(z, ToLower(asked), q, VlanOf(z, ip)) == []
                           && exists t :: Answers(z, ToLower(asked), t, VlanOf(z, ip)) != []
    ensures r.Answered? <==> Answers(z, ToLower(asked), q, VlanOf(z, ip)) != []
    ensures r.Answered? ==> r.answers == Answers(z, ToLower(asked), q, VlanOf(z, ip))
                            && forall x :: x in r.extra <==> GlueFor(z, r.answers, VlanOf(z, ip), x)
  {
    var vlan := VlanOf(z, ip);
    PresentExactly(z, ToLower(asked), vlan);
    SameAsAnswers(z, ToLower(asked), q, vlan, depth);
    if r.Answered? {
      forall x ensures x in r.extra <==> GlueFor(z, r.answers, vlan, x) { GlueAsAnswers(z, r.answers, vlan, depth, x); }
    }
  }

  /** An address of a designated resolver, as the VLAN sees it. */
  ghost predicate GlueFor(z: Zone, answers: seq<RR>, vlan: string, x: RR) {
    exists t :: Designates(answers, t) && AliasesEnd(z, t, vlan, {})
                && (x in Answers(z, t, TypeA, vlan) || x in Answers(z, t, TypeAAAA, vlan))
  }

  lemma GlueAsAnswers(z: Zone, answers: seq<RR>, vlan: string, depth: nat, x: RR)
    requires Glue(z, answers, vlan, depth).Some?
    ensures x in Glue(z, answers, vlan, depth).value <==> GlueFor(z, answers, vlan, x)
  {
    GlueIsAddresses(z, answers, vlan, depth, x);
    GlueNeeds(z, answers, vlan, depth);
    forall t | Designates(answers, t)
      ensures AliasesEnd(z, t, vlan, {}) && Build(z, t, TypeA, vlan, depth) == Some(Answers(z, t, TypeA, vlan))
              && Build(z, t, TypeAAAA, vlan, depth) == Some(Answers(z, t, TypeAAAA, vlan))
    {
      EnoughForBoth(z, t, vlan, depth);
      SameAsAnswers(z, t, TypeA, vlan, depth);
      SameAsAnswers(z, t, TypeAAAA, vlan, depth);
    }
  }

  // ---- Split horizon ----

  /** Two records that agree on everything a VLAN may see: all but other VLANs' overrides. */
  ghost predicate SameFor(vlan: string, a: Record, b: Record) {
    && a.rtype == b.rtype && a.def == b.def && a.ttl == b.ttl && a.svcb == b.svcb
    && (vlan != "" ==> (vlan in a.overrides <==> vlan in b.overrides) && (vlan in a.overrides ==> a.overrides[vlan] == b.overrides[vlan]))
  }

  ghost predicate SameView(vlan: string, y: Zone, z: Zone) {
    && y.defaultTTL == z.defaultTTL && y.parseIP == z.parseIP && y.records.Keys == z.records.Keys
    && forall name :: name in y.records ==> SameRecords(vlan, y.records[name], z.records[name])
  }

  ghost predicate SameRecords(vlan: string, a: seq<Record>, b: seq<Record>) {
    |a| == |b| && forall i :: 0 <= i < |a| ==> SameFor(vlan, a[i], b[i])
  }

  lemma {:induction false} SameAlias(vlan: string, y: Zone, z: Zone, a: seq<Record>, b: seq<Record>)
    requires SameView(vlan, y, z) && SameRecords(vlan, a, b)
    ensures FirstAlias(y, a, vlan) == FirstAlias(z, b, vlan)
  {
    if a != [] { SameAlias(vlan, y, z, a[1..], b[1..]); }
  }

  lemma SameRecord(vlan: string, y: Zone, z: Zone, name: string, q: Qtype, a: Record, b: Record)
    requires y.defaultTTL == z.defaultTTL && y.parseIP == z.parseIP && SameFor(vlan, a, b)
    ensures EffectiveOf(y, a, vlan) == EffectiveOf(z, b, vlan)
    ensures Direct1(y, name, q, vlan, a) == Direct1(z, name, q, vlan, b)
  {
  }

  lemma {:induction false} SameDirect(vlan: string, y: Zone, z: Zone, name: string, q: Qtype, a: seq<Record>, b: seq<Record>)
    requires y.defaultTTL == z.defaultTTL && y.parseIP == z.parseIP && SameRecords(vlan, a, b)
    ensures Direct(y, name, q, vlan, a) == Direct(z, name, q, vlan, b)
  {
    if a != [] {
      SameDirect(vlan, y, z, name, q, a[..|a| - 1], b[..|b| - 1]);
      SameRecord(vlan, y, z, name, q, a[|a| - 1], b[|b| - 1]);
    }
  }

  /** A VLAN's answers, their presence and their termination depend only on defaults and on that
      VLAN's own overrides. */
  lemma OwnViewOnly(vlan: string, y: Zone, z: Zone, name: string, q: Qtype, d: nat)
    requires SameView(vlan, y, z)
    ensures Build(y, name, q, vlan, d) == Build(z, name, q, vlan, d)
    ensures NamePresent(y, name, vlan) == NamePresent(z, name, vlan)
  {
    OwnViewBuild(vlan, y, z, name, q, d);
    SamePresence(vlan, y, z, name);
  }

  lemma {:induction false} OwnViewBuild(vlan: string, y: Zone, z: Zone, name: string, q: Qtype, d: nat)
    requires SameView(vlan, y, z)
    ensures Build(y, name, q, vlan, d) == Build(z, name, q, vlan, d)
    decreases d
  {
    if d > 0 {
      SameHere(vlan, y, z, name, q);
      BuildFrom(y, name, q, vlan, d);
      BuildFrom(z, name, q, vlan, d);
      var a := AliasOf(y, name, vlan);
      if a.Some? { OwnViewBuild(vlan, y, z, a.value.value, q, d - 1); }
    }
  }

  /** One level of the resolution, from what the name itself has and from the rest. */
  function Assembled(name: string, q: Qtype, a: Option<Effective>, direct: seq<RR>, rest: Option<seq<RR>>): Option<seq<RR>> {
    if a.None? then Some(direct)
    else
      var head := [Alias(name, a.value.value, a.value.ttl)];
      if !IsAddressType(q) then Some(head) else if rest.None? then None else Some(head + rest.value)
  }

  lemma BuildFrom(z: Zone, name: string, q: Qtype, vlan: string, d: nat)
    requires d > 0
    ensures var a := AliasOf(z, name, vlan);
            Build(z, name, q, vlan, d) ==
            Assembled(name, q, a, Direct(z, name, q, vlan, RecordsAt(z, name)),
                      if a.Some? then Build(z, a.value.value, q, vlan, d - 1) else None)
  {
  }

  lemma SamePresence(vlan: string, y: Zone, z: Zone, name: string)
    requires SameView(vlan, y, z)
    ensures NamePresent(y, name, vlan) == NamePresent(z, name, vlan)
  {
    assert SameRecords(vlan, RecordsAt(y, name), RecordsAt(z, name));
    PresenceSame(vlan, y, z, RecordsAt(y, name), RecordsAt(z, name));
  }

  /** One name: its alias and its direct answers. */
  lemma SameHere(vlan: string, y: Zone, z: Zone, name: string, q: Qtype)
    requires SameView(vlan, y, z)
    ensures AliasOf(y, name, vlan) == AliasOf(z, name, vlan)
    ensures Direct(y, name, q, vlan, RecordsAt(y, name)) == Direct(z, name, q, vlan, RecordsAt(z, name))
  {
    var a, b := RecordsAt(y, name), RecordsAt(z, name);
    assert SameRecords(vlan, a, b);
    SameAlias(vlan, y, z, a, b);
    SameDirect(vlan, y, z, name, q, a, b);
  }

  lemma PresenceSame(vlan: string, y: Zone, z: Zone, a: seq<Record>, b: seq<Record>)
    requires SameView(vlan, y, z) && SameRecords(vlan, a, b)
    ensures (exists i :: 0 <= i < |a| && (a[i].rtype.TypeSVCB? || EffectiveOf(y, a[i], vlan).Some?))
       <==> (exists i :: 0 <= i < |b| && (b[i].rtype.TypeSVCB? || EffectiveOf(z, b[i], vlan).Some?))
  {
    assert forall i :: 0 <= i < |a| ==> SameFor(vlan, a[i], b[i]);
  }

  lemma {:induction false} OwnViewGlue(vlan: string, y: Zone, z: Zone, answers: seq<RR>, d: nat)
    requires SameView(vlan, y, z)
    ensures Glue(y, answers, vlan, d) == Glue(z, answers, vlan, d)
  {
    if answers != [] {
      OwnViewGlue(vlan, y, z, answers[..|answers| - 1], d);
      var last := answers[|answers| - 1];
      if last.SvcbRR? {
        OwnViewOnly(vlan, y, z, last.svcb.target, TypeA, d);
        OwnViewOnly(vlan, y, z, last.svcb.target, TypeAAAA, d);
      }
    }
  }

  /** So is the reply: two configurations that differ only in other VLANs' overrides reply alike. */
  lemma OwnViewReply(y: Zone, z: Zone, zone: string, ip: Option<Addr>, asked: string, q: Qtype, depth: nat, r: Reply)
    requires y.vlans == z.vlans && y.fallthrough == z.fallthrough && SameView(VlanOf(z, ip), y, z)
    ensures Replies(y, zone, ip, asked, q, depth, r) <==> Replies(z, zone, ip, asked, q, depth, r)
  {
    OwnViewOnly(VlanOf(z, ip), y, z, ToLower(asked), q, depth);
    if r.Answered? { OwnViewGlue(VlanOf(z, ip), y, z, r.answers, depth); }
  }
}
