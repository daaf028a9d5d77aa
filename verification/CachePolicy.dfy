/** The handler's decisions about one upstream response: whether it is cached, for how long, and
    for whom it is valid. */
module CachePolicy {
  import opened Common
  import opened IpNets
  import opened VlanTable
  import opened CacheEntry

  const SECOND := 1_000_000_000
  const MIN_TTL := 5 * SECOND
  const MAX_TTL := 3600 * SECOND
  const MIN_NTTL := 5 * SECOND
  const MAX_NTTL := MAX_TTL / 2

  datatype ResponseType = NoError | NameError | ServerError | NoData | Delegation | Meta | Update | OtherError

  /** The first EDNS0 client-subnet option of a response. */
  datatype Subnet = Subnet(family: nat, scope: nat)

  /** A response as the handler sees it. typ is response.Typify's verdict; recordTTL is the
      smallest record TTL as MinimalTTLWithMaximum reports it. */
  datatype Msg = Msg(typ: ResponseType, truncated: bool, hasSOA: bool, recordTTL: int,
                     subnet: Option<Subnet>, answer: seq<RR>)

  /** The SERVFAIL made up when the next plugin failed without writing a response. */
  const SynthesizedFailure := Msg(ServerError, false, false, 0, None, [])

  predicate Cacheable(m: Msg) {
    if m.truncated then false
    else match m.typ
      case OtherError | Meta | Update => false
      case NameError => m.hasSOA
      case _ => true
  }

  function Clamp(d: int, lo: int, hi: int): int {
    if d < lo then lo else if d > hi then hi else d
  }

  function TtlFor(m: Msg, failTTL: int): int {
    match m.typ
    case NameError | NoData => Clamp(m.recordTTL, MIN_NTTL, MAX_NTTL)
    case ServerError => failTTL
    case _ => Clamp(m.recordTTL, MIN_TTL, MAX_TTL)
  }

  /** The width and length of the mask an echoed subnet stands for. */
  function ScopeBits(s: Subnet): nat { if s.family == 2 then 128 else 32 }

  function ScopeOnes(s: Subnet): nat { Min(s.scope, ScopeBits(s)) }

  /** The network the upstream says its response is valid for. */
  function ScopePrefix(m: Msg, ip: Option<Addr>): (p: Option<Net>)
    ensures p.Some? ==> Canonical(p.value)
  {
    if ip.None? || m.subnet.None? then None
    else Some(NetOf(ip.value, ScopeOnes(m.subnet.value), ScopeBits(m.subnet.value)))
  }

  /** Where a fetch for ip puts its answer. */
  datatype Placement = Nowhere | Direct(ttl: int) | Scoped(prefix: Net, ttl: int)

  function Place(m: Msg, ip: Option<Addr>, failTTL: int): (p: Placement)
    ensures p.Scoped? ==> Canonical(p.prefix) && ip.Some?
  {
    var ttl := TtlFor(m, failTTL);
    if !Cacheable(m) || ttl <= 0 then Nowhere
    else if ScopePrefix(m, ip).Some? && m.typ != ServerError then Scoped(ScopePrefix(m, ip).value, ttl)
    else Direct(ttl)
  }

  /** The prefix a shared result is limited to; none means the whole bucket may have it. */
  function SharePrefix(m: Msg, ip: Option<Addr>, failTTL: int): Option<Net> {
    var p := Place(m, ip, failTTL);
    if p.Scoped? then Some(p.prefix) else None
  }

  predicate AppliesTo(prefix: Option<Net>, ip: Option<Addr>) {
    prefix.None? || ip.None? || Contains(prefix.value, ip.value)
  }

  function EntryOf(fetch: nat, qname: string, m: Msg, now: int, ttl: int): Entry {
    Entry(fetch, ToLower(qname), m.answer, ttl, now)
  }

  /** At most a tenth of the original TTL is left. */
  predicate NearExpiry(e: Entry, now: int) {
    e.origTTL > 0 && 10 * Remaining(e, now) <= e.origTTL
  }

  /** A scope limits sharing exactly when the answer is cacheable, is not a failure and echoes a
      scope; the fallback TTL plays no part. */
  lemma SharePrefixExactly(m: Msg, ip: Option<Addr>, failTTL: int)
    ensures SharePrefix(m, ip, failTTL) ==
            if Cacheable(m) && m.typ != ServerError then ScopePrefix(m, ip) else None
  {
    assert m.typ != ServerError ==> TtlFor(m, failTTL) > 0;
  }

  /** The asker's own result applies to it exactly when it is not limited, or the echoed family
      fits the asker's address. */
  lemma OwnResultApplies(m: Msg, ip: Addr, failTTL: int)
    ensures AppliesTo(SharePrefix(m, Some(ip), failTTL), Some(ip)) <==>
            !(Cacheable(m) && m.typ != ServerError && m.subnet.Some?)
            || Fits(ip, ScopeOnes(m.subnet.value), ScopeBits(m.subnet.value))
  {
    SharePrefixExactly(m, Some(ip), failTTL);
    if m.subnet.Some? { OwnNetContains(ip, ScopeOnes(m.subnet.value), ScopeBits(m.subnet.value)); }
  }

  /** In particular whenever the family echoed is the asker's own. */
  lemma OwnFamilyApplies(m: Msg, ip: Addr, failTTL: int)
    requires m.subnet.Some? ==> (m.subnet.value.family == 2 <==> ip.V6?)
    ensures AppliesTo(SharePrefix(m, Some(ip), failTTL), Some(ip))
  {
    OwnResultApplies(m, ip, failTTL);
  }
}
