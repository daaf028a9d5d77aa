/** VLAN declarations: the overlap check made when settings are saved, and the first-match table
    built from the same declarations. */
module VlanTable {
  import opened Common
  import opened IpNets

  /** A CIDR as written, with what net.ParseCIDR makes of it. Dotted-quad text carries a 32-bit
      mask, colon text a 128-bit mask even when the address is an IPv4-mapped one. */
  datatype RawCidr = Malformed(text: string) | Parsed(text: string, ip: Addr, ones: nat, bits: nat)

  type Cidr = c: RawCidr | c.Parsed? ==> MaskOk(c.ones, c.bits) && (c.bits == 32 ==> c.ip.V4?)
    witness Malformed("")

  datatype Vlan = Vlan(name: string, cidrs: seq<Cidr>)

  type Net = n: IPNet | MaskOk(n.ones, n.bits) witness IPNet(None, 0, 32)

  function NetOfCidr(c: Cidr): (n: Net)
    requires c.Parsed?
    ensures Canonical(n)
  {
    NetOf(c.ip, c.ones, c.bits)
  }

  // ---- The table ----

  datatype VlanNets = VlanNets(name: string, nets: seq<Net>)

  type Table = seq<VlanNets>

  function ParsedNets(cidrs: seq<Cidr>): seq<Net> {
    if cidrs == [] then []
    else ParsedNets(cidrs[..|cidrs| - 1]) +
         (if cidrs[|cidrs| - 1].Parsed? then [NetOfCidr(cidrs[|cidrs| - 1])] else [])
  }

  function TableOf(vlans: seq<Vlan>): Table {
    seq(|vlans|, i requires 0 <= i < |vlans| => VlanNets(vlans[i].name, ParsedNets(vlans[i].cidrs)))
  }

  method NewTable(vlans: seq<Vlan>) returns (t: Table)
    ensures |t| == |vlans| && forall i :: 0 <= i < |t| ==> t[i].name == vlans[i].name
    ensures forall i, n :: 0 <= i < |t| ==>
              (n in t[i].nets <==> exists c :: c in vlans[i].cidrs && c.Parsed? && n == NetOf(c.ip, c.ones, c.bits))
    ensures t == TableOf(vlans)
  {
    t := [];
    for i := 0 to |vlans|
      invariant t == TableOf(vlans)[..i]
    {
      var v := vlans[i];
      var nets: seq<Net> := [];
      for j := 0 to |v.cidrs|
        invariant nets == ParsedNets(v.cidrs[..j])
      {
        assert v.cidrs[..j + 1][..j] == v.cidrs[..j];
        if v.cidrs[j].Parsed? { nets := nets + [NetOfCidr(v.cidrs[j])]; }
      }
      assert v.cidrs[..|v.cidrs|] == v.cidrs;
      t := t + [VlanNets(v.name, nets)];
    }
    forall i, n | 0 <= i < |t|
      ensures n in t[i].nets <==> exists c :: c in vlans[i].cidrs && c.Parsed? && n == NetOf(c.ip, c.ones, c.bits)
    {
      NetsOfParsed(vlans[i].cidrs, n);
    }
  }

  predicate Covers(v: VlanNets, ip: Addr) {
    exists k :: 0 <= k < |v.nets| && Contains(v.nets[k], ip)
  }

  /** Table.Lookup for a present address; a nil address matches nothing. */
  function Lookup(t: Table, ip: Option<Addr>): (name: Option<string>)
    ensures name.None? <==> ip.None? || forall i :: 0 <= i < |t| ==> !Covers(t[i], ip.value)
    ensures name.Some? ==> exists i :: 0 <= i < |t| && Covers(t[i], ip.value) && t[i].name == name.value
                                    && forall j :: 0 <= j < i ==> !Covers(t[j], ip.value)
  {
    if ip.None? || t == [] then None
    else if Covers(t[0], ip.value) then Some(t[0].name)
    else
      var r := Lookup(t[1..], ip);
      assert forall i :: 1 <= i < |t| ==> t[i] == t[1..][i - 1];
      r
  }

  // ---- Validation ----

  datatype Owned = Owned(vlan: string, cidr: Cidr)

  datatype Fault =
    | MissingName
    | DuplicateName(name: string)
    | NoCidrs(name: string)
    | InvalidCidr(name: string, cidr: Cidr)
    | Overlap(name: string, cidr: Cidr, otherName: string, otherCidr: Cidr)

  predicate IsSpace(c: char) {
    c in [' ', '\t', '\n', '\r', 0x0b as char, 0x0c as char, 0x85 as char, 0xa0 as char]
  }

  predicate Blank(s: string) {
    forall k :: 0 <= k < |s| ==> IsSpace(s[k])
  }

  function OwnedBy(v: Vlan): (s: seq<Owned>)
    ensures |s| == |v.cidrs|
  {
    seq(|v.cidrs|, k requires 0 <= k < |v.cidrs| => Owned(v.name, v.cidrs[k]))
  }

  function Flat(vlans: seq<Vlan>): seq<Owned> {
    if vlans == [] then [] else Flat(vlans[..|vlans| - 1]) + OwnedBy(vlans[|vlans| - 1])
  }

  /** No address lies in two of the declared CIDRs. */
  ghost predicate Disjoint(s: seq<Owned>) {
    && (forall a :: 0 <= a < |s| ==> s[a].cidr.Parsed?)
    && forall a, b :: 0 <= a < b < |s| ==> !ShareAddress(NetOfCidr(s[a].cidr), NetOfCidr(s[b].cidr))
  }

  ghost predicate WellNamed(vlans: seq<Vlan>) {
    && (forall i :: 0 <= i < |vlans| ==> !Blank(vlans[i].name) && vlans[i].cidrs != [])
    && forall i, j :: 0 <= i < j < |vlans| ==> vlans[i].name != vlans[j].name
  }

  ghost predicate Sound(vlans: seq<Vlan>) {
    WellNamed(vlans) && Disjoint(Flat(vlans))
  }

  lemma {:induction false} FlatPrefix(vlans: seq<Vlan>, i: nat)
    requires i <= |vlans|
    ensures Flat(vlans[..i]) <= Flat(vlans)
  {
    if i == |vlans| {
      assert vlans[..i] == vlans;
    } else {
      FlatPrefix(vlans[..|vlans| - 1], i);
      assert vlans[..|vlans| - 1][..i] == vlans[..i];
    }
  }

  /** What the check has collected when it looks at CIDR j of VLAN i. */
  lemma FlatSoFar(vlans: seq<Vlan>, i: nat, j: nat)
    requires i < |vlans| && j <= |vlans[i].cidrs|
    ensures Flat(vlans[..i]) + OwnedBy(vlans[i])[..j] <= Flat(vlans)
    ensures j < |vlans[i].cidrs| ==>
              var n := |Flat(vlans[..i])| + j;
              n < |Flat(vlans)| && Flat(vlans)[n] == Owned(vlans[i].name, vlans[i].cidrs[j])
  {
    FlatPrefix(vlans, i + 1);
    assert vlans[..i + 1][..i] == vlans[..i];
  }

  /** The innermost loop: does a CIDR overlap one already collected? */
  method FirstOverlap(c: Cidr, nets: seq<Owned>) returns (hit: Option<Owned>)
    requires c.Parsed? && forall a :: 0 <= a < |nets| ==> nets[a].cidr.Parsed?
    ensures hit.Some? ==> hit.value in nets && ShareAddress(NetOfCidr(hit.value.cidr), NetOfCidr(c))
    ensures hit.None? ==> forall a :: 0 <= a < |nets| ==> !ShareAddress(NetOfCidr(nets[a].cidr), NetOfCidr(c))
  {
    for k := 0 to |nets|
      invariant forall a :: 0 <= a < k ==> !ShareAddress(NetOfCidr(nets[a].cidr), NetOfCidr(c))
    {
      OverlapIsSharing(NetOfCidr(c), NetOfCidr(nets[k].cidr));
      SharingIsSymmetric(NetOfCidr(c), NetOfCidr(nets[k].cidr));
      if NetsOverlap(NetOfCidr(c), NetOfCidr(nets[k].cidr)) { return Some(nets[k]); }
    }
    return None;
  }

  /** One VLAN's CIDRs against everything collected before them. */
  method CheckCidrs(name: string, cidrs: seq<Cidr>, before: seq<Owned>) returns (fault: Option<Fault>)
    requires Disjoint(before)
    ensures fault.None? ==> Disjoint(before + OwnedBy(Vlan(name, cidrs)))
    ensures fault.Some? ==> !Disjoint(before + OwnedBy(Vlan(name, cidrs)))
    ensures fault.Some? ==> CidrFaultShown(fault.value, before + OwnedBy(Vlan(name, cidrs)))
  {
    ghost var all := before + OwnedBy(Vlan(name, cidrs));
    var nets := before;
    for j := 0 to |cidrs|
      invariant nets == all[..|before| + j] && Disjoint(nets)
    {
      var c := cidrs[j];
      assert all[|before| + j] == Owned(name, c);
      if c.Malformed? { return Some(InvalidCidr(name, c)); }
      var hit := FirstOverlap(c, nets);
      if hit.Some? {
        var k :| 0 <= k < |nets| && nets[k] == hit.value;
        assert all[k] == hit.value;
        return Some(Overlap(name, c, hit.value.vlan, hit.value.cidr));
      }
      nets := nets + [Owned(name, c)];
    }
    assert nets == all;
    return None;
  }

  /** A reported fault is there to be seen in the declarations. */
  ghost predicate CidrFaultShown(f: Fault, s: seq<Owned>) {
    match f
    case InvalidCidr(name, c) => Owned(name, c) in s && c.Malformed?
    case Overlap(name, c, otherName, other) =>
      && Owned(name, c) in s && Owned(otherName, other) in s
      && c.Parsed? && other.Parsed? && ShareAddress(NetOfCidr(other), NetOfCidr(c))
    case _ => false
  }

  ghost predicate FaultShown(f: Fault, vlans: seq<Vlan>) {
    match f
    case MissingName => exists i :: 0 <= i < |vlans| && Blank(vlans[i].name)
    case DuplicateName(name) => exists i, j :: 0 <= i < j < |vlans| && vlans[i].name == vlans[j].name == name
    case NoCidrs(name) => exists i :: 0 <= i < |vlans| && vlans[i] == Vlan(name, [])
    case _ => CidrFaultShown(f, Flat(vlans))
  }

  lemma OneMoreVlan(vlans: seq<Vlan>, i: nat)
    requires i < |vlans| && WellNamed(vlans[..i])
    requires !Blank(vlans[i].name) && vlans[i].cidrs != [] && forall k :: 0 <= k < i ==> vlans[k].name != vlans[i].name
    ensures WellNamed(vlans[..i + 1])
    ensures Flat(vlans[..i + 1]) == Flat(vlans[..i]) + OwnedBy(Vlan(vlans[i].name, vlans[i].cidrs))
  {
    assert vlans[..i + 1][..i] == vlans[..i];
  }

  /** What is wrong with the first few VLANs is wrong with them all. */
  lemma FaultOfPrefix(vlans: seq<Vlan>, i: nat, f: Fault)
    requires i <= |vlans| && !Disjoint(Flat(vlans[..i])) && CidrFaultShown(f, Flat(vlans[..i]))
    ensures !Disjoint(Flat(vlans)) && FaultShown(f, vlans)
  {
    FlatPrefix(vlans, i);
  }

  ghost function NamesOf(vlans: seq<Vlan>, i: nat): set<string>
    requires i <= |vlans|
  {
    set k | 0 <= k < i :: vlans[k].name
  }

  /** What is checked of one VLAN before its CIDRs. */
  method CheckNaming(v: Vlan, seen: set<string>, ghost vlans: seq<Vlan>, ghost i: nat) returns (fault: Option<Fault>)
    requires i < |vlans| && v == vlans[i] && seen == NamesOf(vlans, i)
    ensures fault.None? ==> !Blank(v.name) && v.cidrs != [] && forall k :: 0 <= k < i ==> vlans[k].name != v.name
    ensures fault.Some? ==> !WellNamed(vlans) && FaultShown(fault.value, vlans)
  {
    if Blank(v.name) { return Some(MissingName); }
    if v.name in seen { return Some(DuplicateName(v.name)); }
    if |v.cidrs| == 0 {
      assert v == Vlan(v.name, []);
      return Some(NoCidrs(v.name));
    }
    return None;
  }

  /** validateVLANs: some fault, or none exactly when the declarations are sound. */
  method ValidateVLANs(vlans: seq<Vlan>) returns (fault: Option<Fault>)
    ensures fault.None? <==> Sound(vlans)
    ensures fault.Some? ==> FaultShown(fault.value, vlans)
  {
    var nets: seq<Owned> := [];
    var seen: set<string> := {};
    for i := 0 to |vlans|
      invariant nets == Flat(vlans[..i]) && Disjoint(nets)
      invariant seen == NamesOf(vlans, i)
      invariant WellNamed(vlans[..i])
    {
      var v := vlans[i];
      var naming := CheckNaming(v, seen, vlans, i);
      if naming.Some? { return naming; }
      assert NamesOf(vlans, i + 1) == seen + {v.name};
      seen := seen + {v.name};
      OneMoreVlan(vlans, i);
      var found := CheckCidrs(v.name, v.cidrs, nets);
      if found.Some? {
        FaultOfPrefix(vlans, i + 1, found.value);
        return found;
      }
      nets := nets + OwnedBy(v);
    }
    assert vlans[..|vlans|] == vlans;
    return None;
  }

  lemma SharingIsSymmetric(a: Net, b: Net)
    ensures ShareAddress(a, b) == ShareAddress(b, a)
  {
    if x: Addr :| Contains(a, x) && Contains(b, x) { assert ShareAddress(b, a); }
  }

  /** Where a flattened CIDR comes from. */
  lemma {:induction false} FlatAt(vlans: seq<Vlan>, p: nat) returns (i: nat, j: nat)
    requires p < |Flat(vlans)|
    ensures i < |vlans| && j < |vlans[i].cidrs| && p == |Flat(vlans[..i])| + j
    ensures Flat(vlans)[p] == Owned(vlans[i].name, vlans[i].cidrs[j])
  {
    var n := |vlans| - 1;
    if p < |Flat(vlans[..n])| {
      i, j := FlatAt(vlans[..n], p);
      assert vlans[..n][..i] == vlans[..i];
    } else {
      i, j := n, p - |Flat(vlans[..n])|;
    }
  }

  lemma FlatGrows(vlans: seq<Vlan>, i: nat, k: nat)
    requires i < k <= |vlans|
    ensures |Flat(vlans[..i])| + |vlans[i].cidrs| <= |Flat(vlans[..k])|
  {
    FlatPrefix(vlans[..k], i + 1);
    assert vlans[..k][..i + 1] == vlans[..i + 1] && vlans[..i + 1][..i] == vlans[..i];
  }

  /** An address lies in a declared CIDR. */
  predicate Holds(c: Cidr, x: Addr) { c.Parsed? && Contains(NetOf(c.ip, c.ones, c.bits), x) }

  lemma ApartIsDisjoint(vlans: seq<Vlan>)
    requires forall i, k :: 0 <= i < |vlans| && 0 <= k < |vlans[i].cidrs| ==> vlans[i].cidrs[k].Parsed?
    requires forall i, k, j, l, x: Addr ::
               0 <= i < |vlans| && 0 <= k < |vlans[i].cidrs| && 0 <= j < |vlans| && 0 <= l < |vlans[j].cidrs| && (i != j || k != l)
               ==> !(Holds(vlans[i].cidrs[k], x) && Holds(vlans[j].cidrs[l], x))
    ensures Disjoint(Flat(vlans))
  {
    var s := Flat(vlans);
    forall p | 0 <= p < |s| ensures s[p].cidr.Parsed? { var i, k := FlatAt(vlans, p); }
    forall p, q | 0 <= p < q < |s| ensures !ShareAddress(NetOfCidr(s[p].cidr), NetOfCidr(s[q].cidr)) {
      var i, k := FlatAt(vlans, p);
      var j, l := FlatAt(vlans, q);
      if x: Addr :| Contains(NetOfCidr(s[p].cidr), x) && Contains(NetOfCidr(s[q].cidr), x) {
        assert Holds(vlans[i].cidrs[k], x) && Holds(vlans[j].cidrs[l], x);
      }
    }
  }

  lemma TwoCidrsApart(s: seq<Owned>, p: nat, q: nat, x: Addr)
    requires Disjoint(s) && p < |s| && q < |s| && p != q
    ensures !(Holds(s[p].cidr, x) && Holds(s[q].cidr, x))
  {
    if Holds(s[p].cidr, x) && Holds(s[q].cidr, x) { AtMostOneCidr(s, p, q, x); }
  }

  /** Declarations keep every address in at most one CIDR exactly when the flattened list is disjoint. */
  lemma DisjointIsApart(vlans: seq<Vlan>)
    requires Disjoint(Flat(vlans))
    ensures forall i, k :: 0 <= i < |vlans| && 0 <= k < |vlans[i].cidrs| ==> vlans[i].cidrs[k].Parsed?
    ensures forall i, k, j, l, x: Addr ::
              0 <= i < |vlans| && 0 <= k < |vlans[i].cidrs| && 0 <= j < |vlans| && 0 <= l < |vlans[j].cidrs| && (i != j || k != l)
              ==> !(Holds(vlans[i].cidrs[k], x) && Holds(vlans[j].cidrs[l], x))
  {
    forall i, k | 0 <= i < |vlans| && 0 <= k < |vlans[i].cidrs| ensures vlans[i].cidrs[k].Parsed? { FlatSoFar(vlans, i, k); }
    forall i, k, j, l, x: Addr
      | 0 <= i < |vlans| && 0 <= k < |vlans[i].cidrs| && 0 <= j < |vlans| && 0 <= l < |vlans[j].cidrs| && (i != j || k != l)
      ensures !(Holds(vlans[i].cidrs[k], x) && Holds(vlans[j].cidrs[l], x))
    {
      FlatSoFar(vlans, i, k);
      FlatSoFar(vlans, j, l);
      if i < j { FlatGrows(vlans, i, j); } else if j < i { FlatGrows(vlans, j, i); }
      TwoCidrsApart(Flat(vlans), |Flat(vlans[..i])| + k, |Flat(vlans[..j])| + l, x);
    }
  }

  /** A character that is not white space. */
  predicate Visible(c: char) {
    c !in {' ', '\t', '\n', '\r', 0x0b as char, 0x0c as char, 0x85 as char, 0xa0 as char}
  }

  /** A name is missing when it is all white space. */
  lemma NamedExactly(s: string)
    ensures !Blank(s) <==> exists c :: c in s && Visible(c)
  {
    if !Blank(s) {
      var k :| 0 <= k < |s| && !IsSpace(s[k]);
      assert s[k] in s && Visible(s[k]);
    }
    if c :| c in s && Visible(c) {
      var k :| 0 <= k < |s| && s[k] == c;
      assert !IsSpace(s[k]);
    }
  }

  /** What declarations have to be: all CIDRs parse, and no address lies in two of them. */
  lemma DisjointExactly(vlans: seq<Vlan>)
    ensures Disjoint(Flat(vlans)) <==>
              && (forall i, k :: 0 <= i < |vlans| && 0 <= k < |vlans[i].cidrs| ==> vlans[i].cidrs[k].Parsed?)
              && (forall i, k, j, l, x: Addr ::
                    0 <= i < |vlans| && 0 <= k < |vlans[i].cidrs| && 0 <= j < |vlans| && 0 <= l < |vlans[j].cidrs| && (i != j || k != l)
                    ==> !(Holds(vlans[i].cidrs[k], x) && Holds(vlans[j].cidrs[l], x)))
  {
    if Disjoint(Flat(vlans)) {
      DisjointIsApart(vlans);
    } else if (forall i, k :: 0 <= i < |vlans| && 0 <= k < |vlans[i].cidrs| ==> vlans[i].cidrs[k].Parsed?)
              && (forall i, k, j, l, x: Addr ::
                    0 <= i < |vlans| && 0 <= k < |vlans[i].cidrs| && 0 <= j < |vlans| && 0 <= l < |vlans[j].cidrs| && (i != j || k != l)
                    ==> !(Holds(vlans[i].cidrs[k], x) && Holds(vlans[j].cidrs[l], x)))
    {
      ApartIsDisjoint(vlans);
    }
  }

  /** The VLAN of an address is the first that declares a CIDR holding it, if any does. */
  lemma FirstHolderFound(vlans: seq<Vlan>, x: Addr, i: nat)
    requires i <= |vlans| && forall j, k :: 0 <= j < i && 0 <= k < |vlans[j].cidrs| ==> !Holds(vlans[j].cidrs[k], x)
    requires i < |vlans| ==> exists k :: 0 <= k < |vlans[i].cidrs| && Holds(vlans[i].cidrs[k], x)
    ensures Lookup(TableOf(vlans), Some(x)) == if i < |vlans| then Some(vlans[i].name) else None
  {
    forall j | 0 <= j < |vlans|
      ensures Covers(TableOf(vlans)[j], x) <==> exists k :: 0 <= k < |vlans[j].cidrs| && Holds(vlans[j].cidrs[k], x)
    {
      CoversExactly(vlans[j], x);
    }
  }

  lemma CoversExactly(v: Vlan, x: Addr)
    ensures Covers(VlanNets(v.name, ParsedNets(v.cidrs)), x) <==> exists k :: 0 <= k < |v.cidrs| && Holds(v.cidrs[k], x)
  {
    var nets := ParsedNets(v.cidrs);
    if k :| 0 <= k < |nets| && Contains(nets[k], x) {
      var j := ParsedNetsFrom(v.cidrs, k);
      assert Holds(v.cidrs[j], x);
    }
    if k :| 0 <= k < |v.cidrs| && Holds(v.cidrs[k], x) {
      NetsOfParsed(v.cidrs, NetOfCidr(v.cidrs[k]));
      assert v.cidrs[k] in multiset(v.cidrs);
      var j :| 0 <= j < |nets| && nets[j] == NetOfCidr(v.cidrs[k]);
    }
  }

  // ---- Order independence ----

  /** No address belongs to two differently named rows. */
  ghost predicate SingleOwner(t: Table) {
    forall ip: Addr, i, j :: 0 <= i < |t| && 0 <= j < |t| && Covers(t[i], ip) && Covers(t[j], ip)
      ==> t[i].name == t[j].name
  }

  /** The (name, prefix) pairs a table declares, whatever their order and grouping. */
  ghost function Declares(t: Table): set<(string, Net)> {
    set i, k | 0 <= i < |t| && 0 <= k < |t[i].nets| :: (t[i].name, t[i].nets[k])
  }

  /** With one owner per address the answer depends only on which pairs are declared: VLANs and
      their CIDRs may be listed in any order. */
  lemma OrderFree(t: Table, u: Table, ip: Option<Addr>)
    requires SingleOwner(t) && Declares(t) == Declares(u)
    ensures Lookup(t, ip) == Lookup(u, ip)
  {
    if ip.Some? {
      if Lookup(t, ip).Some? {
        var p := AnsweringPair(t, ip.value);
        var q := PairAnswers(u, ip.value, p);
        PairOwner(t, ip.value, q);
      } else if Lookup(u, ip).Some? {
        var p := AnsweringPair(u, ip.value);
        PairOwner(t, ip.value, p);
      }
    }
  }

  /** An answer comes from a declared pair that contains the address. */
  lemma AnsweringPair(t: Table, ip: Addr) returns (p: (string, Net))
    requires Lookup(t, Some(ip)).Some?
    ensures p in Declares(t) && Contains(p.1, ip) && Lookup(t, Some(ip)) == Some(p.0)
  {
    var i :| 0 <= i < |t| && Covers(t[i], ip) && t[i].name == Lookup(t, Some(ip)).value;
    var k :| 0 <= k < |t[i].nets| && Contains(t[i].nets[k], ip);
    p := (t[i].name, t[i].nets[k]);
  }

  lemma PairAnswers(t: Table, ip: Addr, p: (string, Net)) returns (q: (string, Net))
    requires p in Declares(t) && Contains(p.1, ip)
    ensures q in Declares(t) && Contains(q.1, ip) && Lookup(t, Some(ip)) == Some(q.0)
  {
    var i, k :| 0 <= i < |t| && 0 <= k < |t[i].nets| && p == (t[i].name, t[i].nets[k]);
    assert Covers(t[i], ip);
    q := AnsweringPair(t, ip);
  }

  lemma PairOwner(t: Table, ip: Addr, p: (string, Net))
    requires SingleOwner(t) && p in Declares(t) && Contains(p.1, ip)
    ensures Lookup(t, Some(ip)) == Some(p.0)
  {
    var i, k :| 0 <= i < |t| && 0 <= k < |t[i].nets| && p == (t[i].name, t[i].nets[k]);
    assert Covers(t[i], ip);
    var j :| 0 <= j < |t| && Covers(t[j], ip) && t[j].name == Lookup(t, Some(ip)).value;
  }

  /** Lookup is blind to the order of the rows exactly when no address has two owners. */
  lemma OrderFreeExactly(t: Table)
    ensures SingleOwner(t) <==>
            forall u: Table, ip: Option<Addr> :: multiset(u) == multiset(t) ==> Lookup(u, ip) == Lookup(t, ip)
  {
    if SingleOwner(t) {
      forall u: Table, ip: Option<Addr> | multiset(u) == multiset(t) ensures Lookup(u, ip) == Lookup(t, ip) {
        SameRows(t, u);
        OrderFree(t, u, ip);
      }
    } else {
      var ip: Addr, i, j :| 0 <= i < |t| && 0 <= j < |t| && Covers(t[i], ip) && Covers(t[j], ip)
                         && t[i].name != t[j].name;
      var u, w := Fronted(t, i), Fronted(t, j);
      FrontedRows(t, i);
      FrontedRows(t, j);
      assert Lookup(u, Some(ip)) != Lookup(w, Some(ip));
    }
  }

  ghost function Fronted(t: Table, i: nat): Table
    requires i < |t|
  {
    [t[i]] + (t[..i] + t[i + 1..])
  }

  lemma FrontedRows(t: Table, i: nat)
    requires i < |t|
    ensures multiset(Fronted(t, i)) == multiset(t)
  {
    assert t == t[..i] + [t[i]] + t[i + 1..];
  }

  lemma SameRows(t: Table, u: Table)
    requires multiset(t) == multiset(u)
    ensures Declares(t) == Declares(u)
  {
    forall p ensures p in Declares(t) <==> p in Declares(u) {
      if i, k :| 0 <= i < |t| && 0 <= k < |t[i].nets| && p == (t[i].name, t[i].nets[k]) {
        assert t[i] in multiset(u);
      }
      if i, k :| 0 <= i < |u| && 0 <= k < |u[i].nets| && p == (u[i].name, u[i].nets[k]) {
        assert u[i] in multiset(t);
      }
    }
  }

  lemma {:induction false} ParsedNetsFrom(cidrs: seq<Cidr>, k: nat) returns (j: nat)
    requires k < |ParsedNets(cidrs)|
    ensures j < |cidrs| && cidrs[j].Parsed? && ParsedNets(cidrs)[k] == NetOfCidr(cidrs[j])
  {
    var n := |cidrs| - 1;
    if k < |ParsedNets(cidrs[..n])| { j := ParsedNetsFrom(cidrs[..n], k); } else { j := n; }
  }

  /** The declared CIDR through which a row covers an address. */
  lemma CoveringCidr(vlans: seq<Vlan>, i: nat, x: Addr) returns (p: nat)
    requires i < |vlans| && Covers(TableOf(vlans)[i], x)
    ensures p < |Flat(vlans)| && Flat(vlans)[p].vlan == vlans[i].name
    ensures Flat(vlans)[p].cidr.Parsed? && Contains(NetOfCidr(Flat(vlans)[p].cidr), x)
  {
    var nets := ParsedNets(vlans[i].cidrs);
    var k :| 0 <= k < |nets| && Contains(nets[k], x);
    var j := ParsedNetsFrom(vlans[i].cidrs, k);
    FlatSoFar(vlans, i, j);
    p := |Flat(vlans[..i])| + j;
  }

  /** In sound declarations every address is in at most one CIDR. */
  lemma AtMostOneCidr(s: seq<Owned>, p: nat, q: nat, x: Addr)
    requires Disjoint(s) && p < |s| && q < |s|
    requires Contains(NetOfCidr(s[p].cidr), x) && Contains(NetOfCidr(s[q].cidr), x)
    ensures p == q
  {
    if p < q {
      assert ShareAddress(NetOfCidr(s[p].cidr), NetOfCidr(s[q].cidr));
    } else if q < p {
      assert ShareAddress(NetOfCidr(s[q].cidr), NetOfCidr(s[p].cidr));
    }
  }

  /** Declarations that pass validation put every address in at most one CIDR, so their table has
      single owners and answers alike for every reordering of VLANs and of their CIDRs. */
  lemma ValidatedLookup(vlans: seq<Vlan>, other: seq<Vlan>, ip: Option<Addr>)
    requires Sound(vlans)
    ensures SingleOwner(TableOf(vlans))
    ensures Declares(TableOf(vlans)) == Declares(TableOf(other)) ==>
              Lookup(TableOf(vlans), ip) == Lookup(TableOf(other), ip)
  {
    var t := TableOf(vlans);
    forall x: Addr, i, j | 0 <= i < |t| && 0 <= j < |t| && Covers(t[i], x) && Covers(t[j], x)
      ensures t[i].name == t[j].name
    {
      var p := CoveringCidr(vlans, i, x);
      var q := CoveringCidr(vlans, j, x);
      AtMostOneCidr(Flat(vlans), p, q, x);
    }
    if Declares(t) == Declares(TableOf(other)) { OrderFree(t, TableOf(other), ip); }
  }

  /** Another order of the same VLANs, each with its CIDRs in some order: row i is row p[i] of the
      original. */
  ghost predicate Reordered(vlans: seq<Vlan>, other: seq<Vlan>, p: seq<nat>) {
    && |other| == |vlans| == |p|
    && (forall i :: 0 <= i < |p| ==> p[i] < |vlans| && SameVlan(vlans[p[i]], other[i]))
    && forall k: nat :: k < |vlans| ==> k in p
  }

  predicate SameVlan(a: Vlan, b: Vlan) {
    a.name == b.name && multiset(a.cidrs) == multiset(b.cidrs)
  }

  lemma {:induction false} NetsOfParsed(cidrs: seq<Cidr>, n: Net)
    ensures n in ParsedNets(cidrs) <==> exists c :: c in multiset(cidrs) && c.Parsed? && NetOfCidr(c) == n
  {
    if cidrs != [] {
      var front, last := cidrs[..|cidrs| - 1], cidrs[|cidrs| - 1];
      NetsOfParsed(front, n);
      assert cidrs == front + [last];
      assert multiset(cidrs) == multiset(front) + multiset{last};
    }
  }

  lemma SameNets(a: Vlan, b: Vlan, n: Net)
    requires SameVlan(a, b)
    ensures n in ParsedNets(a.cidrs) <==> n in ParsedNets(b.cidrs)
  {
    NetsOfParsed(a.cidrs, n);
    NetsOfParsed(b.cidrs, n);
  }

  lemma DeclaredIn(vlans: seq<Vlan>, x: (string, Net))
    ensures x in Declares(TableOf(vlans)) <==> exists i :: 0 <= i < |vlans| && vlans[i].name == x.0 && x.1 in ParsedNets(vlans[i].cidrs)
  {
    var t := TableOf(vlans);
    if i :| 0 <= i < |vlans| && vlans[i].name == x.0 && x.1 in ParsedNets(vlans[i].cidrs) {
      var k :| 0 <= k < |t[i].nets| && t[i].nets[k] == x.1;
      assert x == (t[i].name, t[i].nets[k]);
    }
  }

  /** Reordering keeps what is declared. */
  lemma ReorderedDeclares(vlans: seq<Vlan>, other: seq<Vlan>, p: seq<nat>)
    requires Reordered(vlans, other, p)
    ensures Declares(TableOf(vlans)) == Declares(TableOf(other))
  {
    forall x ensures x in Declares(TableOf(vlans)) <==> x in Declares(TableOf(other)) {
      DeclaredIn(vlans, x);
      DeclaredIn(other, x);
      if k :| 0 <= k < |vlans| && vlans[k].name == x.0 && x.1 in ParsedNets(vlans[k].cidrs) {
        var at: nat := k;
        assert at in p;
        var i :| 0 <= i < |p| && p[i] == at;
        SameNets(vlans[k], other[i], x.1);
      }
      if i :| 0 <= i < |other| && other[i].name == x.0 && x.1 in ParsedNets(other[i].cidrs) {
        SameNets(vlans[p[i]], other[i], x.1);
      }
    }
  }

  /** Declarations that pass validation answer alike however the VLANs and their CIDRs are
      ordered. */
  lemma ReorderedLookup(vlans: seq<Vlan>, other: seq<Vlan>, p: seq<nat>, ip: Option<Addr>)
    requires Sound(vlans) && Reordered(vlans, other, p)
    ensures Lookup(TableOf(vlans), ip) == Lookup(TableOf(other), ip)
  {
    ReorderedDeclares(vlans, other, p);
    ValidatedLookup(vlans, other, ip);
  }
}
