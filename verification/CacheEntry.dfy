/** One cached DNS response. Times and durations are nanoseconds. */
module CacheEntry {
  import opened Common

  datatype RData = Cname(target: string) | Dname(target: string) | OtherData

  datatype RR = RR(owner: string, data: RData)

  /** The program holds entries by pointer; origin names the fetch that allocated this one. */
  datatype Entry = Entry(origin: nat, qname: string, answer: seq<RR>, origTTL: int, stored: int)

  function Remaining(e: Entry, now: int): int {
    e.origTTL - (now - e.stored)
  }

  /** Within its TTL, or, when stale serving is on, within the grace period after it. */
  predicate Usable(e: Entry, now: int, staleTTL: int) {
    Remaining(e, now) > 0 || (staleTTL > 0 && -Remaining(e, now) <= staleTTL)
  }

  predicate Fresh(e: Entry, now: int) {
    Remaining(e, now) > 0
  }

  predicate EqualFold(a: string, b: string) {
    ToLower(a) == ToLower(b)
  }

  /** dependsOn: the question name, or any owner or alias target in the cached chain. */
  predicate DependsOn(e: Entry, name: string) {
    || e.qname == name
    || exists k :: 0 <= k < |e.answer| && (
         || EqualFold(e.answer[k].owner, name)
         || (!e.answer[k].data.OtherData? && EqualFold(e.answer[k].data.target, name)))
  }

  /** What a flush is meant to evict: everything, or what depends on one name. */
  predicate Targets(name: Option<string>, e: Entry) {
    name.None? || DependsOn(e, name.value)
  }
}
