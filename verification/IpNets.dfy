/** Addresses and prefixes as Go's net package treats them: the 4- and 16-byte forms of an IPv4
    address are one address, a mask is 32 or 128 bits wide whatever the address is, and
    containment compares network numbers of equal width. */
module IpNets {
  import opened Common

  // ---- Shifts by recursion, so that everything below is linear arithmetic ----

  function Shr(n: nat, k: nat): nat {
    if k == 0 then n else Shr(n / 2, k - 1)
  }

  function Shl(n: nat, k: nat): nat {
    if k == 0 then n else 2 * Shl(n, k - 1)
  }

  function Low(n: nat, k: nat): nat {
    if k == 0 then 0 else n % 2 + 2 * Low(n / 2, k - 1)
  }

  /** n with its k lowest bits cleared. */
  function ClearLow(n: nat, k: nat): nat {
    Shl(Shr(n, k), k)
  }

  lemma {:induction false} ShrShr(n: nat, i: nat, j: nat)
    ensures Shr(Shr(n, i), j) == Shr(n, i + j)
  {
    if i > 0 { ShrShr(n / 2, i - 1, j); }
  }

  lemma {:induction false} ShlShl(n: nat, i: nat, j: nat)
    ensures Shl(Shl(n, i), j) == Shl(n, i + j)
  {
    if j > 0 { ShlShl(n, i, j - 1); }
  }

  lemma {:induction false} ShlPlus(a: nat, b: nat, k: nat)
    ensures Shl(a + b, k) == Shl(a, k) + Shl(b, k)
  {
    if k > 0 { ShlPlus(a, b, k - 1); }
  }

  lemma {:induction false} ShrOfShlPlus(m: nat, n: nat, k: nat)
    ensures Shr(Shl(m, k) + n, k) == m + Shr(n, k)
  {
    if k > 0 {
      assert (Shl(m, k) + n) / 2 == Shl(m, k - 1) + n / 2;
      ShrOfShlPlus(m, n / 2, k - 1);
    }
  }

  lemma {:induction false} ShrOfZero(k: nat)
    ensures Shr(0, k) == 0
  {
    if k > 0 { ShrOfZero(k - 1); }
  }

  lemma {:induction false} Split(n: nat, k: nat)
    ensures n == ClearLow(n, k) + Low(n, k)
  {
    if k > 0 { Split(n / 2, k - 1); }
  }

  lemma {:induction false} LowBound(n: nat, k: nat)
    ensures Low(n, k) < Shl(1, k)
  {
    if k > 0 { LowBound(n / 2, k - 1); }
  }

  lemma {:induction false} ShrSmall(n: nat, k: nat)
    requires n < Shl(1, k)
    ensures Shr(n, k) == 0
  {
    if k > 0 { ShrSmall(n / 2, k - 1); }
  }

  lemma ShrClearLow(n: nat, k: nat)
    ensures Shr(ClearLow(n, k), k) == Shr(n, k)
    ensures ClearLow(n, k) <= n
  {
    ShrOfShlPlus(Shr(n, k), 0, k);
    ShrOfZero(k);
    Split(n, k);
  }

  // ---- Addresses ----

  datatype RawAddr = V4(n: nat) | V6(n: nat)

  const V4_END: nat := 0x1_0000_0000
  const V6_END: nat := 0x1_0000_0000_0000_0000_0000_0000_0000_0000

  /** An IPv4-mapped IPv6 address is the IPv4 address, so V6 never holds one. */
  type Addr = a: RawAddr | (a.V4? && a.n < V4_END) || (a.V6? && a.n < V6_END && a.n / V4_END != 0xffff)
    witness V4(0)

  /** The 16-byte form. */
  function Wide(a: Addr): (w: nat)
    ensures w < V6_END
  {
    if a.V4? then 0xffff * V4_END + a.n else a.n
  }

  /** Reading a 16-byte form back (net.IP.To4 first). */
  function FromWide(w: nat): Addr
    requires w < V6_END
  {
    if w / V4_END == 0xffff then V4(w % V4_END) else V6(w)
  }

  lemma ShlWidths()
    ensures Shl(1, 32) == V4_END && Shl(0xffff, 32) == 0xffff * V4_END
  {
    assert Shl(1, 2) == 4 by { assert Shl(1, 1) == 2; }
    ShlDouble(2);
    ShlDouble(4);
    ShlDouble(8);
    ShlDouble(16);
    ShlIsProduct(0xffff, 32);
  }

  lemma ShlDouble(k: nat)
    ensures Shl(1, 2 * k) == Shl(1, k) * Shl(1, k)
  {
    ShlShl(1, k, k);
    ShlIsProduct(Shl(1, k), k);
  }

  lemma Shr32(n: nat)
    ensures Shr(n, 32) == n / V4_END
  {
    ShlWidths();
    LowBound(n, 32);
    Split(n, 32);
    ShlIsProduct(Shr(n, 32), 32);
  }

  lemma {:induction false} ShlIsProduct(m: nat, k: nat)
    ensures Shl(m, k) == m * Shl(1, k)
  {
    if k > 0 { ShlIsProduct(m, k - 1); }
  }

  // ---- Prefixes ----

  /** net.IPNet: an address and the mask CIDRMask(ones, bits). A missing address is Go's nil. */
  datatype IPNet = IPNet(ip: Option<Addr>, ones: nat, bits: nat)

  predicate MaskOk(ones: nat, bits: nat) {
    ones <= bits && (bits == 32 || bits == 128)
  }

  /** net.IP.Mask with CIDRMask(ones, bits): a 4-byte mask applies to IPv4 only, a 16-byte mask
      to the 16-byte form of either. */
  function MaskIP(ip: Addr, ones: nat, bits: nat): Option<Addr>
    requires MaskOk(ones, bits)
  {
    if bits == 32 then
      if ip.V6? then None else ShrClearLow(ip.n, 32 - ones); Some(V4(ClearLow(ip.n, 32 - ones)))
    else
      ShrClearLow(Wide(ip), 128 - ones);
      Some(FromWide(ClearLow(Wide(ip), 128 - ones)))
  }

  /** The network of ip under a mask: what ParseCIDR returns and what scopePrefix builds. */
  function NetOf(ip: Addr, ones: nat, bits: nat): IPNet
    requires MaskOk(ones, bits)
  {
    IPNet(MaskIP(ip, ones, bits), ones, bits)
  }

  ghost predicate Canonical(n: IPNet) {
    MaskOk(n.ones, n.bits) && exists ip: Addr :: n == NetOf(ip, n.ones, n.bits)
  }

  /** The network number and its count of free low bits. */
  datatype Block = Block(v6: bool, base: nat, free: nat)

  /** networkNumberAndMask: nil for a missing address or a width mismatch; a 16-byte mask on an
      IPv4 number loses its first 12 bytes. It also decides IPNet.String, so two prefixes print
      alike exactly when their blocks agree. */
  function BlockOf(n: IPNet): Option<Block>
    requires MaskOk(n.ones, n.bits)
  {
    match n.ip
    case None => None
    case Some(V4(a)) =>
      if n.bits == 32 then Some(Block(false, a, 32 - n.ones))
      else Some(Block(false, a, 32 - Max(n.ones - 96, 0)))
    case Some(V6(a)) =>
      if n.bits == 32 then None else Some(Block(true, a, 128 - n.ones))
  }

  predicate InBlock(b: Block, ip: Addr) {
    b.v6 == ip.V6? && Shr(b.base, b.free) == Shr(ip.n, b.free)
  }

  /** net.IPNet.Contains. */
  predicate Contains(n: IPNet, ip: Addr)
    requires MaskOk(n.ones, n.bits)
  {
    var b := BlockOf(n);
    b.Some? && InBlock(b.value, ip)
  }

  /** A mask of the address's own family, or a 16-byte mask long enough to keep an IPv4-mapped
      prefix intact. */
  predicate Fits(ip: Addr, ones: nat, bits: nat) {
    if ip.V6? then bits == 128 else bits == 32 || ones >= 96
  }

  /** Clearing more than 32 low bits leaves a number whose upper part is even. */
  lemma ClearManyLow(n: nat, k: nat)
    requires k > 32
    ensures ClearLow(n, k) / V4_END != 0xffff
  {
    var q := Shr(n, k);
    ShlShl(q, k - 32, 32);
    ShrOfShlPlus(Shl(q, k - 32), 0, 32);
    ShrOfZero(32);
    Shr32(ClearLow(n, k));
  }

  lemma ClearFewLow(n: nat, k: nat)
    requires k <= 32
    ensures ClearLow(n, k) / V4_END == n / V4_END
  {
    ShrClearLow(n, k);
    ShrShr(ClearLow(n, k), k, 32 - k);
    ShrShr(n, k, 32 - k);
    Shr32(ClearLow(n, k));
    Shr32(n);
  }

  lemma ClearLowMapped(n: nat, k: nat)
    requires k <= 32
    ensures ClearLow(0xffff * V4_END + n, k) == 0xffff * V4_END + ClearLow(n, k)
  {
    ShlWidths();
    ShlShl(0xffff, 32 - k, k);
    ShrOfShlPlus(Shl(0xffff, 32 - k), n, k);
    ShlPlus(Shl(0xffff, 32 - k), Shr(n, k), k);
  }

  /** The block of a network built from ip, case by case. */
  lemma NetOfBlock(ip: Addr, ones: nat, bits: nat)
    requires MaskOk(ones, bits)
    ensures BlockOf(NetOf(ip, ones, bits)) ==
            if bits == 32 then
              if ip.V6? then None else Some(Block(false, ClearLow(ip.n, 32 - ones), 32 - ones))
            else if ip.V4? && ones >= 96 then Some(Block(false, ClearLow(ip.n, 128 - ones), 128 - ones))
            else Some(Block(true, ClearLow(Wide(ip), 128 - ones), 128 - ones))
  {
    if bits == 128 {
      var k := 128 - ones;
      ShrClearLow(Wide(ip), k);
      ShrClearLow(ip.n, k);
      if k > 32 {
        ClearManyLow(Wide(ip), k);
      } else if ip.V6? {
        ClearFewLow(ip.n, k);
      } else {
        ClearLowMapped(ip.n, k);
      }
    }
  }

  /** An address lies in the network built from it exactly when the mask fits its family. */
  lemma OwnNetContains(ip: Addr, ones: nat, bits: nat)
    requires MaskOk(ones, bits)
    ensures Contains(NetOf(ip, ones, bits), ip) <==> Fits(ip, ones, bits)
  {
    NetOfBlock(ip, ones, bits);
    if bits == 32 { ShrClearLow(ip.n, 32 - ones); } else { ShrClearLow(ip.n, 128 - ones); }
  }

  /** A block that shares an address with a wider one lies inside it. */
  lemma Nested(wide: Block, narrow: Block, x: Addr)
    requires narrow.free <= wide.free && InBlock(wide, x) && InBlock(narrow, x)
    ensures forall y: Addr :: InBlock(narrow, y) ==> InBlock(wide, y)
  {
    var d := wide.free - narrow.free;
    forall y: Addr | InBlock(narrow, y) ensures InBlock(wide, y) {
      ShrShr(x.n, narrow.free, d);
      ShrShr(y.n, narrow.free, d);
    }
  }

  /** An IPv4 block with more free bits than another one it meets reaches beyond it: flip the lowest
      bit that the other fixes. */
  lemma WiderReaches(wide: Block, narrow: Block, x: Addr) returns (y: Addr)
    requires narrow.free < wide.free <= 32 && InBlock(wide, x) && InBlock(narrow, x) && x.V4?
    ensures InBlock(wide, y) && !InBlock(narrow, y)
  {
    var f, g := narrow.free, wide.free - narrow.free;
    var m := Shr(x.n, f);
    var flipped := if m % 2 == 0 then m + 1 else m - 1;
    var n := Shl(flipped, f);
    ShrOfShlPlus(flipped, 0, f);
    ShrOfZero(f);
    assert n + 0 == n && flipped / 2 == m / 2;
    assert Shr(flipped, g) == Shr(flipped / 2, g - 1) && Shr(m, g) == Shr(m / 2, g - 1);
    ShrShr(n, f, g);
    ShrShr(x.n, f, g);
    ShrShr(n, wide.free, 32 - wide.free);
    ShrShr(x.n, wide.free, 32 - wide.free);
    Shr32(n);
    Shr32(x.n);
    y := V4(n);
  }

  /** The free bits of a network that holds an address are its mask's. */
  lemma FreeBits(n: IPNet, x: Addr)
    requires Canonical(n) && Contains(n, x)
    ensures BlockOf(n).value.free == n.bits - n.ones && (x.V4? ==> n.bits - n.ones <= 32) && (x.V6? ==> n.bits == 128)
  {
    var ip: Addr :| n == NetOf(ip, n.ones, n.bits);
    NetOfBlock(ip, n.ones, n.bits);
  }

  lemma ShrIsDiv(n: nat, k: nat)
    ensures Shl(1, k) > 0 && Shr(n, k) == n / Shl(1, k)
  {
    Split(n, k);
    LowBound(n, k);
    ShlIsProduct(Shr(n, k), k);
    ModIs(n, Shl(1, k), Shr(n, k), Low(n, k));
  }

  /** A network cut from an address holds the addresses of one family that agree with it on the leading
      bits the mask keeps: those of its own family, except that a 16-byte mask of fewer than 96 bits
      turns an IPv4 address into IPv6 space and a 4-byte mask makes nothing of an IPv6 address. */
  lemma AgreesOnLeadingBits(ip: Addr, ones: nat, bits: nat, x: Addr)
    requires MaskOk(ones, bits)
    ensures Shl(1, bits - ones) > 0
    ensures Contains(NetOf(ip, ones, bits), x) <==>
              if ip.V6? then bits == 128 && x.V6? && ip.n / Shl(1, bits - ones) == x.n / Shl(1, bits - ones)
              else if bits == 32 || ones >= 96 then x.V4? && ip.n / Shl(1, bits - ones) == x.n / Shl(1, bits - ones)
              else x.V6? && (0xffff_0000_0000 + ip.n) / Shl(1, bits - ones) == x.n / Shl(1, bits - ones)
  {
    var k := bits - ones;
    NetOfBlock(ip, ones, bits);
    ShrClearLow(ip.n, k);
    ShrClearLow(Wide(ip), k);
    ShrIsDiv(ip.n, k);
    ShrIsDiv(Wide(ip), k);
    ShrIsDiv(x.n, k);
  }

  // ---- Overlap ----

  predicate NetsOverlap(a: IPNet, b: IPNet)
    requires MaskOk(a.ones, a.bits) && MaskOk(b.ones, b.bits)
  {
    (b.ip.Some? && Contains(a, b.ip.value)) || (a.ip.Some? && Contains(b, a.ip.value))
  }

  ghost predicate ShareAddress(a: IPNet, b: IPNet)
    requires MaskOk(a.ones, a.bits) && MaskOk(b.ones, b.bits)
  {
    exists x: Addr :: Contains(a, x) && Contains(b, x)
  }

  /** Testing the two network numbers decides whether any address lies in both prefixes. */
  lemma OverlapIsSharing(a: IPNet, b: IPNet)
    requires Canonical(a) && Canonical(b)
    ensures NetsOverlap(a, b) <==> ShareAddress(a, b)
  {
    if ShareAddress(a, b) {
      var x: Addr :| Contains(a, x) && Contains(b, x);
      var p, q := BlockOf(a).value, BlockOf(b).value;
      if p.free <= q.free {
        Nested(q, p, x);
        assert InBlock(p, a.ip.value);
      } else {
        Nested(p, q, x);
        assert InBlock(q, b.ip.value);
      }
    }
  }
}
