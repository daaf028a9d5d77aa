/** The byte strings behind the cache's hashed keys and the text keys of coalesced calls. The
    64-bit FNV hash is taken to be injective on the bytes written to it. */
module CacheKeys {
  import opened Common
  import opened IpNets

  type Byte = n: int | 0 <= n < 256

  type Qtype = n: int | 0 <= n < 0x1_0000

  /** hash.Hash64, remembered by what has been written to it. */
  class Hash {
    var written: seq<Byte>

    constructor ()
      ensures written == []
    {
      written := [];
    }

    method Write(bytes: seq<Byte>)
      modifies this
      ensures written == old(written) + bytes
    {
      written := written + bytes;
    }

    method WriteBool(b: bool)
      modifies this
      ensures written == old(written) + [Bit(b)]
    {
      Write(if b then [1] else [0]);
    }

    method WriteQtype(qtype: Qtype)
      modifies this
      ensures written == old(written) + [qtype / 256, qtype % 256]
    {
      Write([qtype / 256, qtype % 256]);
    }
  }

  function Bit(b: bool): Byte { if b then 1 else 0 }

  function Prelude(qtype: Qtype, do: bool, cd: bool): seq<Byte> {
    [Bit(do), Bit(cd), qtype / 256, qtype % 256]
  }

  function DirectBytes(bucket: seq<Byte>, qname: seq<Byte>, qtype: Qtype, do: bool, cd: bool): seq<Byte> {
    Prelude(qtype, do, cd) + bucket + [0] + qname
  }

  function ScopedBytes(qname: seq<Byte>, qtype: Qtype, do: bool, cd: bool): seq<Byte> {
    Prelude(qtype, do, cd) + qname
  }

  method HashDirect(bucket: seq<Byte>, qname: seq<Byte>, qtype: Qtype, do: bool, cd: bool) returns (sum: seq<Byte>)
    ensures sum == [if do then 1 else 0, if cd then 1 else 0, qtype / 256, qtype % 256] + bucket + [0] + qname
    ensures sum == DirectBytes(bucket, qname, qtype, do, cd)
  {
    var h := new Hash();
    h.WriteBool(do);
    h.WriteBool(cd);
    h.WriteQtype(qtype);
    h.Write(bucket);
    h.Write([0]);
    h.Write(qname);
    return h.written;
  }

  method HashScoped(qname: seq<Byte>, qtype: Qtype, do: bool, cd: bool) returns (sum: seq<Byte>)
    ensures sum == [if do then 1 else 0, if cd then 1 else 0, qtype / 256, qtype % 256] + qname
    ensures sum == ScopedBytes(qname, qtype, do, cd)
  {
    var h := new Hash();
    h.WriteBool(do);
    h.WriteBool(cd);
    h.WriteQtype(qtype);
    h.Write(qname);
    return h.written;
  }

  /** Two keys that share a prelude are told apart by what follows it. */
  lemma PreludeInjective(t1: Qtype, do1: bool, cd1: bool, rest1: seq<Byte>,
                         t2: Qtype, do2: bool, cd2: bool, rest2: seq<Byte>)
    requires Prelude(t1, do1, cd1) + rest1 == Prelude(t2, do2, cd2) + rest2
    ensures t1 == t2 && do1 == do2 && cd1 == cd2 && rest1 == rest2
  {
    var k1, k2 := Prelude(t1, do1, cd1) + rest1, Prelude(t2, do2, cd2) + rest2;
    assert k1[0] == k2[0] && k1[1] == k2[1] && k1[2] == k2[2] && k1[3] == k2[3];
    assert k1[4..] == rest1 && k2[4..] == rest2;
  }

  function FirstIndex<T(==)>(s: seq<T>, x: T): nat {
    if s == [] || s[0] == x then 0 else 1 + FirstIndex(s[1..], x)
  }

  lemma {:induction false} FirstSeparator<T>(b: seq<T>, sep: T, q: seq<T>)
    requires sep !in b
    ensures FirstIndex(b + [sep] + q, sep) == |b|
  {
    if b != [] {
      FirstSeparator(b[1..], sep, q);
      assert (b + [sep] + q)[1..] == b[1..] + [sep] + q;
    }
  }

  /** A separator ends its prefix unambiguously when neither prefix contains it. */
  lemma SeparatorInjective<T>(sep: T, b1: seq<T>, q1: seq<T>, b2: seq<T>, q2: seq<T>)
    requires b1 + [sep] + q1 == b2 + [sep] + q2
    requires sep !in b1 && sep !in b2
    ensures b1 == b2 && q1 == q2
  {
    var k := b1 + [sep] + q1;
    FirstSeparator(b1, sep, q1);
    FirstSeparator(b2, sep, q2);
    assert b1 == k[..|b1|] && b2 == k[..|b2|] && q1 == k[|b1| + 1..] && q2 == k[|b2| + 1..];
  }

  /** Equal direct keys mean the same bucket and the same question. */
  lemma DirectKeyInjective(b1: seq<Byte>, q1: seq<Byte>, t1: Qtype, do1: bool, cd1: bool,
                           b2: seq<Byte>, q2: seq<Byte>, t2: Qtype, do2: bool, cd2: bool)
    requires 0 !in b1 && 0 !in b2
    ensures DirectBytes(b1, q1, t1, do1, cd1) == DirectBytes(b2, q2, t2, do2, cd2)
      <==> b1 == b2 && q1 == q2 && t1 == t2 && do1 == do2 && cd1 == cd2
  {
    var r1, r2 := b1 + [0] + q1, b2 + [0] + q2;
    assert DirectBytes(b1, q1, t1, do1, cd1) == Prelude(t1, do1, cd1) + r1;
    assert DirectBytes(b2, q2, t2, do2, cd2) == Prelude(t2, do2, cd2) + r2;
    if DirectBytes(b1, q1, t1, do1, cd1) == DirectBytes(b2, q2, t2, do2, cd2) {
      PreludeInjective(t1, do1, cd1, r1, t2, do2, cd2, r2);
      SeparatorInjective(0, b1, q1, b2, q2);
    }
  }

  lemma ScopedKeyInjective(q1: seq<Byte>, t1: Qtype, do1: bool, cd1: bool,
                           q2: seq<Byte>, t2: Qtype, do2: bool, cd2: bool)
    ensures ScopedBytes(q1, t1, do1, cd1) == ScopedBytes(q2, t2, do2, cd2)
      <==> q1 == q2 && t1 == t2 && do1 == do2 && cd1 == cd2
  {
    if ScopedBytes(q1, t1, do1, cd1) == ScopedBytes(q2, t2, do2, cd2) {
      PreludeInjective(t1, do1, cd1, q1, t2, do2, cd2, q2);
    }
  }

  /** Two different bucket names can share a direct key exactly when one of them, followed by the
      separator, begins the other. */
  lemma BucketsCollideExactly(b1: seq<Byte>, b2: seq<Byte>)
    requires b1 != b2
    ensures (exists q1: seq<Byte>, q2: seq<Byte> :: b1 + [0] + q1 == b2 + [0] + q2)
      <==> b1 + [0] <= b2 || b2 + [0] <= b1
  {
    if q1: seq<Byte>, q2: seq<Byte> :| b1 + [0] + q1 == b2 + [0] + q2 {
      var k := b1 + [0] + q1;
      assert b1 + [0] == k[..|b1| + 1] && b2 + [0] == k[..|b2| + 1];
      assert b1 == k[..|b1|] && b2 == k[..|b2|];
      if |b1| < |b2| {
        assert k[..|b2|][..|b1| + 1] == b1 + [0];
      } else if |b2| < |b1| {
        assert k[..|b1|][..|b2| + 1] == b2 + [0];
      }
    }
    if b1 + [0] <= b2 {
      assert b1 + [0] + (b2[|b1| + 1..] + [0]) == b2 + [0] + [];
    } else if b2 + [0] <= b1 {
      assert b1 + [0] + [] == b2 + [0] + (b1[|b2| + 1..] + [0]);
    }
  }

  // ---- Text keys of coalesced calls ----

  function Digit36(d: nat): char
    requires d < 36
  {
    if d < 10 then '0' + d as char else 'a' + (d - 10) as char
  }

  /** strconv.FormatUint(n, 36). */
  function FormatBase36(n: nat): (s: string)
    ensures |s| > 0 && '|' !in s
  {
    if n < 36 then [Digit36(n)] else FormatBase36(n / 36) + [Digit36(n % 36)]
  }

  lemma {:induction false} FormatBase36Injective(m: nat, n: nat)
    requires FormatBase36(m) == FormatBase36(n)
    ensures m == n
  {
    var s := FormatBase36(m);
    assert s[|s| - 1] == Digit36(m % 36) == Digit36(n % 36);
    assert (m >= 36) == (|s| > 1) == (n >= 36);
    if m >= 36 {
      assert FormatBase36(m / 36) == s[..|s| - 1] == FormatBase36(n / 36);
      FormatBase36Injective(m / 36, n / 36);
    }
  }

  function BucketFlight(directKey: nat): string { FormatBase36(directKey) }

  function AddressFlight(directKey: nat, ip: Addr, text: Addr -> string): string {
    FormatBase36(directKey) + "|" + text(ip)
  }

  /** Calls are coalesced under a key that determines the direct key, and for a per-address call
      also the address; the two kinds of key never meet. */
  lemma FlightKeysDistinct(d1: nat, d2: nat, a1: Addr, a2: Addr, text: Addr -> string)
    requires text(a1) == text(a2) ==> a1 == a2
    ensures BucketFlight(d1) == BucketFlight(d2) ==> d1 == d2
    ensures BucketFlight(d1) != AddressFlight(d2, a2, text)
    ensures AddressFlight(d1, a1, text) == AddressFlight(d2, a2, text) ==> d1 == d2 && a1 == a2
  {
    if BucketFlight(d1) == BucketFlight(d2) { FormatBase36Injective(d1, d2); }
    var f1, f2 := FormatBase36(d1), FormatBase36(d2);
    assert AddressFlight(d2, a2, text)[|f2|] == '|';
    if AddressFlight(d1, a1, text) == AddressFlight(d2, a2, text) {
      SeparatorInjective('|', f1, text(a1), f2, text(a2));
      FormatBase36Injective(d1, d2);
    }
  }
}
