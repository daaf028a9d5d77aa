/** Whether certificate and key in use, and in the cache, were issued as one by the right authority,
    over whole runs in which any file operation may fail. */
module AcmeGenuine {
  import opened Common
  import opened Acme
  import opened AcmeRuns

  /** The active pair was issued as one by the authority the record file names. */
  predicate ActiveGenuine(env: Env, f: Files, log: seq<Issue>) {
    CaFile in f ==> CertFile in f && KeyFile in f && Issue(CaSlug(env, f[CaFile]), Pair(f[CertFile], f[KeyFile])) in log
  }

  /** A cached pair was issued as one by its authority. */
  predicate SlotGenuine(f: Files, log: seq<Issue>, slug: string) {
    CacheCert(slug) in f ==>
      CacheKey(slug) in f && Issue(slug, Pair(f[CacheCert(slug)], f[CacheKey(slug)])) in log
  }

  /** What one reconcile's writes leave, told from which of them landed. */
  datatype Effect = Kept | Whole | Broken

  /** The active files, given whether the configured authority's slot was whole and what had been
      issued. A whole group leaves them as good as its source. Key and certificate without the
      record will do if the record already names the authority; a new key alone never does. A
      promoted key alone does where the certificate in place is the cached one and the record names
      its slot, if that slot was whole; from a slot that was not, where the certificate in place
      happens to be the one issued with that key. Without a record nothing counts as installed. */
  function ActiveEffect(env: Env, s: State, w: World, slotWhole: bool, log: seq<Issue>): Effect {
    var l := LandingOf(env, s, w);
    var here := CaFile in s.files && CaSlug(env, s.files[CaFile]) == SlugOf(env, w.loaded.GetOr(s.cfg));
    if l.promoted == 0 && l.installed == 0 then Kept
    else if l.promoted == 3 then if slotWhole then Whole else Broken
    else if l.installed == 3 || CaFile !in s.files then Whole
    else if l.installed == 2 then if here then Whole else Broken
    else if l.installed == 1 then Broken
    else if l.promoted == 2 then if here && slotWhole then Whole else Broken
    else if slotWhole then
      if here && CertFile in s.files && s.files[CertFile] == HitOf(env, s, w).value.cert then Whole else Broken
    else if CertFile in s.files
            && Issue(CaSlug(env, s.files[CaFile]), Pair(s.files[CertFile], HitOf(env, s, w).value.key)) in log then Whole
    else Broken
  }

  /** The configured authority's slot: broken exactly when the new key replaces the key of a cached
      certificate that stays. */
  function SlotEffect(env: Env, s: State, w: World): Effect {
    var l := LandingOf(env, s, w);
    if l.cached == 0 then Kept
    else if l.cached == 1 && CacheCert(SlugOf(env, w.loaded.GetOr(s.cfg))) in s.files then Broken
    else Whole
  }

  /** The last write to a slot left it whole. */
  predicate SlotSound(env: Env, s: State, ws: seq<World>, slug: string) {
    ws == [] ||
    var front, w := ws[..|ws| - 1], ws[|ws| - 1];
    var before := After(env, s, front);
    if SlugOf(env, w.loaded.GetOr(before.cfg)) != slug || SlotEffect(env, before, w).Kept? then SlotSound(env, s, front, slug)
    else SlotEffect(env, before, w).Whole?
  }

  /** The last write to the active files left them whole. */
  predicate ActiveSound(env: Env, s: State, ws: seq<World>) {
    ws == [] ||
    var front, w := ws[..|ws| - 1], ws[|ws| - 1];
    var before := After(env, s, front);
    match ActiveEffect(env, before, w, SlotSound(env, s, front, SlugOf(env, w.loaded.GetOr(before.cfg))), Issues(env, s, front))
    case Kept => ActiveSound(env, s, front)
    case Whole => true
    case Broken => false
  }

  // ---- Where certificates come from ----

  /** No certificate and no key is issued twice. */
  predicate AllNew(log: seq<Issue>) {
    forall i, j :: 0 <= i < j < |log| ==> log[i].pair.cert != log[j].pair.cert && log[i].pair.key != log[j].pair.key
  }

  predicate CertIssued(log: seq<Issue>, cert: string) {
    exists i :: 0 <= i < |log| && log[i].pair.cert == cert
  }

  predicate IssuedBy(log: seq<Issue>, slug: string, cert: string) {
    exists i :: 0 <= i < |log| && log[i].slug == slug && log[i].pair.cert == cert
  }

  /** Every cached certificate came from its authority, and the active one, once there is a record,
      from some authority. */
  ghost predicate Traced(f: Files, log: seq<Issue>) {
    && (CaFile in f ==> CertFile in f && CertIssued(log, f[CertFile]))
    && forall g :: CacheCert(g) in f ==> IssuedBy(log, g, f[CacheCert(g)])
  }

  /** In a log without repeats a certificate or a key tells the whole issue. */
  lemma PartTells(log: seq<Issue>, a: Issue, b: Issue)
    requires AllNew(log) && a in log && b in log && (a.pair.cert == b.pair.cert || a.pair.key == b.pair.key)
    ensures a == b
  {
    var i :| 0 <= i < |log| && log[i] == a;
    var j :| 0 <= j < |log| && log[j] == b;
  }

  lemma MoreIssued(log: seq<Issue>, more: seq<Issue>)
    ensures forall x :: CertIssued(log, x) ==> CertIssued(log + more, x)
    ensures forall g, x :: IssuedBy(log, g, x) ==> IssuedBy(log + more, g, x)
    ensures forall i :: 0 <= i < |more| ==> IssuedBy(log + more, more[i].slug, more[i].pair.cert)
  {
    forall x | CertIssued(log, x) ensures CertIssued(log + more, x) {
      var i :| 0 <= i < |log| && log[i].pair.cert == x;
      assert (log + more)[i].pair.cert == x;
    }
    forall g, x | IssuedBy(log, g, x) ensures IssuedBy(log + more, g, x) {
      var i :| 0 <= i < |log| && log[i].slug == g && log[i].pair.cert == x;
      assert (log + more)[i].pair.cert == x;
    }
    forall i | 0 <= i < |more| ensures IssuedBy(log + more, more[i].slug, more[i].pair.cert) {
      assert (log + more)[|log| + i] == more[i];
    }
  }

  lemma TracedWrite(f: Files, log: seq<Issue>, c: Config, p: Pair, slug: string, n: nat)
    requires Traced(f, log) && IssuedBy(log, slug, p.cert)
    ensures Traced(WroteActive(f, c, p, n), log)
  {
    assert CertIssued(log, p.cert);
  }

  lemma TracedCache(f: Files, log: seq<Issue>, slug: string, p: Pair, n: nat)
    requires Traced(f, log) && IssuedBy(log, slug, p.cert)
    ensures Traced(WroteCache(f, slug, p, n), log)
  {
  }

  lemma TracedStep(env: Env, s: State, w: World, log: seq<Issue>)
    requires Traced(s.files, log)
    ensures Traced(Next(env, s, w).state.files, log + IssueOf(env, s, w))
  {
    StepFiles(env, s, w);
    var more := log + IssueOf(env, s, w);
    var c, slug, l := w.loaded.GetOr(s.cfg), SlugOf(env, w.loaded.GetOr(s.cfg)), LandingOf(env, s, w);
    MoreIssued(log, IssueOf(env, s, w));
    assert Traced(s.files, more);
    if l.promoted > 0 { TracedWrite(s.files, more, c, HitOf(env, s, w).value, slug, l.promoted); }
    if l.installed > 0 {
      assert IssueOf(env, s, w)[0] == Issue(slug, w.obtained.value);
      TracedWrite(PromotedFiles(env, s, w), more, c, w.obtained.value, slug, l.installed);
    }
    if l.cached > 0 { TracedCache(InstalledFiles(env, s, w), more, slug, w.obtained.value, l.cached); }
  }

  lemma {:induction false} AlwaysTraced(env: Env, s: State, ws: seq<World>)
    requires FirstStart(s)
    ensures Traced(After(env, s, ws).files, Issues(env, s, ws))
  {
    if ws != [] {
      var front := ws[..|ws| - 1];
      AlwaysTraced(env, s, front);
      TracedStep(env, After(env, s, front), ws[|ws| - 1], Issues(env, s, front));
    }
  }

  /** A certificate issued before is not the one issued now. */
  lemma CertNotReissued(log: seq<Issue>, x: Issue, cert: string)
    requires CertIssued(log, cert) && AllNew(log + [x])
    ensures x.pair.cert != cert
  {
    var i :| 0 <= i < |log| && log[i].pair.cert == cert;
    assert (log + [x])[i] == log[i] && (log + [x])[|log|] == x;
  }

  lemma NewPrefix(log: seq<Issue>, more: seq<Issue>)
    requires AllNew(log + more)
    ensures AllNew(log)
  {
    forall i, j | 0 <= i < j < |log| ensures log[i].pair.cert != log[j].pair.cert && log[i].pair.key != log[j].pair.key {
      assert (log + more)[i] == log[i] && (log + more)[j] == log[j];
    }
  }

  /** A certificate that an authority issued earlier belongs to that issue. */
  lemma EarlierCert(log: seq<Issue>, more: seq<Issue>, slug: string, x: Issue)
    requires AllNew(log + more) && x in log + more && IssuedBy(log, slug, x.pair.cert)
    ensures x in log && x.slug == slug
  {
    var i :| 0 <= i < |log| && log[i].slug == slug && log[i].pair.cert == x.pair.cert;
    assert (log + more)[i] == log[i];
    PartTells(log + more, x, log[i]);
  }

  // ---- The cached pairs ----

  /** The two files of a slot after a reconcile: as they were, unless it is the configured
      authority's and something was cached. */
  lemma SlotFiles(env: Env, s: State, w: World, g: string)
    ensures var f := Next(env, s, w).state.files; var l := LandingOf(env, s, w); var slug := SlugOf(env, w.loaded.GetOr(s.cfg));
            && (g != slug || l.cached == 0 ==>
                  (forall p :: p in [CacheCert(g), CacheKey(g)] ==> (p in f <==> p in s.files) && (p in f ==> f[p] == s.files[p])))
            && (l.cached > 0 ==> CacheKey(slug) in f && f[CacheKey(slug)] == w.obtained.value.key
                                 && IssueOf(env, s, w) == [Issue(slug, w.obtained.value)])
            && (l.cached == 1 ==> (CacheCert(slug) in f <==> CacheCert(slug) in s.files)
                                  && (CacheCert(slug) in f ==> f[CacheCert(slug)] == s.files[CacheCert(slug)]))
            && (l.cached > 1 ==> CacheCert(slug) in f && f[CacheCert(slug)] == w.obtained.value.cert)
  {
    StepFiles(env, s, w);
  }

  lemma SlotStep(env: Env, s: State, w: World, log: seq<Issue>, g: string)
    requires Traced(s.files, log)
    ensures var c := w.loaded.GetOr(s.cfg); var more := log + IssueOf(env, s, w); var f := Next(env, s, w).state.files;
            var mine := g == SlugOf(env, c) && !SlotEffect(env, s, w).Kept?;
            && (!mine && SlotGenuine(s.files, log, g) ==> SlotGenuine(f, more, g))
            && (mine && SlotEffect(env, s, w).Whole? ==> SlotGenuine(f, more, g))
            && (AllNew(more) && !mine && !SlotGenuine(s.files, log, g) ==> !SlotGenuine(f, more, g))
            && (AllNew(more) && mine && SlotEffect(env, s, w).Broken? ==> !SlotGenuine(f, more, g))
  {
    SlotFiles(env, s, w, g);
    var extra := IssueOf(env, s, w);
    var more := log + extra;
    var f := Next(env, s, w).state.files;
    if AllNew(more) && CacheCert(g) in s.files && extra != [] {
      assert IssuedBy(log, g, s.files[CacheCert(g)]);
      CertNotReissued(log, extra[0], s.files[CacheCert(g)]);
      assert more[|log|] == extra[0];
      if SlotGenuine(f, more, g) && f[CacheKey(g)] == extra[0].pair.key {
        PartTells(more, Issue(g, Pair(f[CacheCert(g)], f[CacheKey(g)])), extra[0]);
      }
    }
  }

  /** Whatever fails in a run, a slot holds a pair issued as one by its authority exactly when the
      last write to it left it whole. */
  lemma {:induction false} SlotGenuineExactly(env: Env, s: State, ws: seq<World>, slug: string)
    requires FirstStart(s)
    ensures SlotSound(env, s, ws, slug) ==> SlotGenuine(After(env, s, ws).files, Issues(env, s, ws), slug)
    ensures AllNew(Issues(env, s, ws)) ==>
              (SlotGenuine(After(env, s, ws).files, Issues(env, s, ws), slug) <==> SlotSound(env, s, ws, slug))
  {
    if ws != [] {
      var front, w := ws[..|ws| - 1], ws[|ws| - 1];
      SlotGenuineExactly(env, s, front, slug);
      AlwaysTraced(env, s, front);
      SlotStep(env, After(env, s, front), w, Issues(env, s, front), slug);
      if AllNew(Issues(env, s, ws)) { NewPrefix(Issues(env, s, front), IssueOf(env, After(env, s, front), w)); }
    }
  }

  // ---- The active pair ----

  ghost predicate SlotTold(env: Env, s: State, w: World, slotWhole: bool, log: seq<Issue>) {
    slotWhole <==> SlotGenuine(s.files, log, SlugOf(env, w.loaded.GetOr(s.cfg)))
  }

  lemma ActiveWhole(env: Env, s: State, w: World, slotWhole: bool, log: seq<Issue>)
    requires slotWhole ==> SlotGenuine(s.files, log, SlugOf(env, w.loaded.GetOr(s.cfg)))
    ensures var f := Next(env, s, w).state.files; var more := log + IssueOf(env, s, w); var e := ActiveEffect(env, s, w, slotWhole, log);
            && (e.Whole? ==> ActiveGenuine(env, f, more))
            && (e.Kept? && ActiveGenuine(env, s.files, log) ==> ActiveGenuine(env, f, more))
  {
    ActiveFiles(env, s, w);
    ActiveCert(env, s, w);
  }

  /** A new pair that landed, but not with its own certificate or not under its own record. */
  lemma InstallBroken(env: Env, s: State, w: World, log: seq<Issue>)
    requires Traced(s.files, log) && AllNew(log + IssueOf(env, s, w)) && CaFile in s.files && LandingOf(env, s, w).promoted != 3
    requires var i := LandingOf(env, s, w).installed;
             i == 1 || (i == 2 && CaSlug(env, s.files[CaFile]) != SlugOf(env, w.loaded.GetOr(s.cfg)))
    ensures !ActiveGenuine(env, Next(env, s, w).state.files, log + IssueOf(env, s, w))
  {
    var f, more := Next(env, s, w).state.files, log + IssueOf(env, s, w);
    var now := Issue(SlugOf(env, w.loaded.GetOr(s.cfg)), w.obtained.value);
    ActiveFiles(env, s, w);
    ActiveCert(env, s, w);
    if ActiveGenuine(env, f, more) {
      assert more[|log|] == now;
      PartTells(more, Issue(CaSlug(env, f[CaFile]), Pair(f[CertFile], f[KeyFile])), now);
      if LandingOf(env, s, w).installed == 1 {
        assert LandingOf(env, s, w).promoted > 1 ==> IssuedBy(log, now.slug, f[CertFile]);
        CertNotReissued(log, now, f[CertFile]);
      }
    }
  }

  /** A promoted key and certificate that were not issued as one, or not by the recorded authority. */
  lemma PromotePairBroken(env: Env, s: State, w: World, slotWhole: bool, log: seq<Issue>)
    requires Traced(s.files, log) && AllNew(log + IssueOf(env, s, w)) && CaFile in s.files && SlotTold(env, s, w, slotWhole, log)
    requires LandingOf(env, s, w).promoted == 2 && LandingOf(env, s, w).installed == 0
    requires !(slotWhole && CaSlug(env, s.files[CaFile]) == SlugOf(env, w.loaded.GetOr(s.cfg)))
    ensures !ActiveGenuine(env, Next(env, s, w).state.files, log + IssueOf(env, s, w))
  {
    var f, more, slug := Next(env, s, w).state.files, log + IssueOf(env, s, w), SlugOf(env, w.loaded.GetOr(s.cfg));
    ActiveFiles(env, s, w);
    ActiveCert(env, s, w);
    if ActiveGenuine(env, f, more) {
      EarlierCert(log, IssueOf(env, s, w), slug, Issue(CaSlug(env, f[CaFile]), Pair(f[CertFile], f[KeyFile])));
    }
  }

  /** With a whole slot, a promoted key belongs with the certificate in place exactly when that is
      the cached one under a record of the same slot. */
  lemma KeyBelongs(env: Env, s: State, w: World, log: seq<Issue>)
    requires AllNew(log) && HitOf(env, s, w).Some? && CaFile in s.files && CertFile in s.files
    requires SlotGenuine(s.files, log, SlugOf(env, w.loaded.GetOr(s.cfg)))
    ensures var slug := SlugOf(env, w.loaded.GetOr(s.cfg)); var hit := HitOf(env, s, w).value;
            Issue(CaSlug(env, s.files[CaFile]), Pair(s.files[CertFile], hit.key)) in log <==>
              CaSlug(env, s.files[CaFile]) == slug && s.files[CertFile] == hit.cert
  {
    var slug, hit := SlugOf(env, w.loaded.GetOr(s.cfg)), HitOf(env, s, w).value;
    var x := Issue(CaSlug(env, s.files[CaFile]), Pair(s.files[CertFile], hit.key));
    assert Issue(slug, hit) in log;
    if x in log { PartTells(log, x, Issue(slug, hit)); }
  }

  lemma PromoteKeyBroken(env: Env, s: State, w: World, log: seq<Issue>)
    requires Traced(s.files, log) && AllNew(log + IssueOf(env, s, w)) && CaFile in s.files
    requires LandingOf(env, s, w).promoted == 1 && LandingOf(env, s, w).installed == 0
    requires Issue(CaSlug(env, s.files[CaFile]), Pair(s.files[CertFile], HitOf(env, s, w).value.key)) !in log
    ensures !ActiveGenuine(env, Next(env, s, w).state.files, log + IssueOf(env, s, w))
  {
    ActiveFiles(env, s, w);
    ActiveCert(env, s, w);
    var extra := IssueOf(env, s, w);
    if extra != [] { CertNotReissued(log, extra[0], s.files[CertFile]); }
  }

  /** Promoting hands a slot's condition on: after a whole promotion the active pair is genuine
      exactly when the slot was. */
  lemma PromotionHandsOn(env: Env, s: State, w: World, log: seq<Issue>)
    requires LandingOf(env, s, w).promoted == 3
    ensures IssueOf(env, s, w) == []
    ensures ActiveGenuine(env, Next(env, s, w).state.files, log) <==> SlotGenuine(s.files, log, SlugOf(env, w.loaded.GetOr(s.cfg)))
  {
    PromotedOnly(env, s, w);
  }

  lemma ActiveBroken(env: Env, s: State, w: World, slotWhole: bool, log: seq<Issue>)
    requires Traced(s.files, log) && AllNew(log + IssueOf(env, s, w)) && SlotTold(env, s, w, slotWhole, log)
    requires ActiveEffect(env, s, w, slotWhole, log).Broken?
    ensures !ActiveGenuine(env, Next(env, s, w).state.files, log + IssueOf(env, s, w))
  {
    var l := LandingOf(env, s, w);
    if l.promoted == 3 {
      PromotionHandsOn(env, s, w, log);
      assert log + [] == log;
    } else if l.installed > 0 {
      InstallBroken(env, s, w, log);
    } else if l.promoted == 2 {
      PromotePairBroken(env, s, w, slotWhole, log);
    } else {
      NewPrefix(log, IssueOf(env, s, w));
      if slotWhole { KeyBelongs(env, s, w, log); }
      PromoteKeyBroken(env, s, w, log);
    }
  }

  lemma ActiveKeptBroken(env: Env, s: State, w: World, log: seq<Issue>)
    requires Traced(s.files, log) && AllNew(log + IssueOf(env, s, w))
    requires LandingOf(env, s, w).promoted == 0 && LandingOf(env, s, w).installed == 0 && !ActiveGenuine(env, s.files, log)
    ensures !ActiveGenuine(env, Next(env, s, w).state.files, log + IssueOf(env, s, w))
  {
    ActiveFiles(env, s, w);
    ActiveCert(env, s, w);
    var extra := IssueOf(env, s, w);
    if extra != [] { CertNotReissued(log, extra[0], s.files[CertFile]); }
  }

  /** One reconcile, whatever fails in it. */
  lemma ActiveStep(env: Env, s: State, w: World, slotWhole: bool, log: seq<Issue>)
    requires Traced(s.files, log) && AllNew(log + IssueOf(env, s, w)) && SlotTold(env, s, w, slotWhole, log)
    ensures ActiveGenuine(env, Next(env, s, w).state.files, log + IssueOf(env, s, w)) <==>
            match ActiveEffect(env, s, w, slotWhole, log)
            case Kept => ActiveGenuine(env, s.files, log)
            case Whole => true
            case Broken => false
  {
    ActiveWhole(env, s, w, slotWhole, log);
    if ActiveEffect(env, s, w, slotWhole, log).Broken? { ActiveBroken(env, s, w, slotWhole, log); }
    if ActiveEffect(env, s, w, slotWhole, log).Kept? && !ActiveGenuine(env, s.files, log) { ActiveKeptBroken(env, s, w, log); }
  }

  /** Whatever fails in a run, the active pair was issued as one by the recorded authority exactly
      when the last write to the active files left them whole. */
  lemma {:induction false} ActiveGenuineExactly(env: Env, s: State, ws: seq<World>)
    requires FirstStart(s) && AllNew(Issues(env, s, ws))
    ensures ActiveGenuine(env, After(env, s, ws).files, Issues(env, s, ws)) <==> ActiveSound(env, s, ws)
  {
    if ws != [] {
      var front, w := ws[..|ws| - 1], ws[|ws| - 1];
      var before, log := After(env, s, front), Issues(env, s, front);
      NewPrefix(log, IssueOf(env, before, w));
      ActiveGenuineExactly(env, s, front);
      AlwaysTraced(env, s, front);
      var slug := SlugOf(env, w.loaded.GetOr(before.cfg));
      SlotGenuineExactly(env, s, front, slug);
      ActiveStep(env, before, w, SlotSound(env, s, front, slug), log);
    }
  }

  /** From a first start, whatever files fail: when the check is satisfied, certificate and key in use
      were issued together by the authority configured now exactly when the last write to the
      active files left them whole. */
  lemma SatisfiedMeansGenuine(env: Env, s: State, ws: seq<World>, c: Config, now: int)
    requires FirstStart(s) && AllNew(Issues(env, s, ws))
    requires NeedsIssue(env, After(env, s, ws).files, c, now, {}).None?
    ensures var f := After(env, s, ws).files;
            CertFile in f &&
            ((KeyFile in f && Issue(SlugOf(env, c), Pair(f[CertFile], f[KeyFile])) in Issues(env, s, ws))
             <==> ActiveSound(env, s, ws))
  {
    ActiveGenuineExactly(env, s, ws);
    SatisfiedNames(env, After(env, s, ws).files, c, now);
  }

  lemma SatisfiedNames(env: Env, f: Files, c: Config, now: int)
    requires NeedsIssue(env, f, c, now, {}).None?
    ensures CertFile in f && CaFile in f && f[CaFile] == CaDirUrl(c)
  {
  }

  // ---- One configuration ----

  /** With a whole slot, readable files and nothing issued twice, while the configuration stays the
      same: a check satisfied after a reconcile that acted means that certificate and key were
      issued together by the configured authority, unless promoting failed at the record and
      installing then failed at the certificate. Exactly then a mixed pair goes unnoticed. */
  lemma HiddenExactly(env: Env, s: State, w: World, log: seq<Issue>, later: int)
    requires Acts(env, s, w) && w.unreadable == {} && w.now <= later
    requires NeedsIssue(env, Next(env, s, w).state.files, w.loaded.GetOr(s.cfg), later, {}).None?
    requires Traced(s.files, log) && AllNew(log + IssueOf(env, s, w)) && SlotGenuine(s.files, log, SlugOf(env, w.loaded.GetOr(s.cfg)))
    ensures var f := Next(env, s, w).state.files; var c := w.loaded.GetOr(s.cfg);
            CertFile in f && KeyFile in f && CaFile in f && f[CaFile] == CaDirUrl(c) &&
            (Issue(SlugOf(env, c), Pair(f[CertFile], f[KeyFile])) in log + IssueOf(env, s, w) <==>
               !(HitOf(env, s, w).Some? && ActiveCount(w.promoting) == 2 && w.obtained.Some? && ActiveCount(w.installing) == 1))
  {
    var c, more := w.loaded.GetOr(s.cfg), log + IssueOf(env, s, w);
    var slug, hit := SlugOf(env, c), HitOf(env, s, w);
    StepFiles(env, s, w);
    ActiveFiles(env, s, w);
    ActiveCert(env, s, w);
    if hit.Some? { assert Issue(slug, hit.value) in more; }
    if IssueOf(env, s, w) != [] {
      assert more[|log|] == Issue(slug, w.obtained.value);
      if hit.Some? { NewToLog(log, Issue(slug, w.obtained.value), Issue(slug, hit.value)); }
    }
    if Next(env, s, w).called {
      SatisfiedPair(env, s, w, later);
      if LandingOf(env, s, w) == Landing(2, 1, 0) {
        NotIssued(log, Issue(slug, w.obtained.value), Issue(slug, Pair(hit.value.cert, w.obtained.value.key)), hit.value);
      }
    }
  }

  lemma NewToLog(log: seq<Issue>, x: Issue, earlier: Issue)
    requires AllNew(log + [x]) && earlier in log
    ensures x.pair.cert != earlier.pair.cert && x.pair.key != earlier.pair.key
  {
    var i :| 0 <= i < |log| && log[i] == earlier;
    assert (log + [x])[i] == log[i] && (log + [x])[|log|] == x;
  }

  /** The new key with an older certificate was never issued. */
  lemma NotIssued(log: seq<Issue>, x: Issue, mixed: Issue, earlier: Pair)
    requires AllNew(log + [x]) && mixed.pair == Pair(earlier.cert, x.pair.key) && exists g :: Issue(g, earlier) in log
    ensures mixed !in log + [x]
  {
    var g :| Issue(g, earlier) in log;
    NewToLog(log, x, Issue(g, earlier));
    if mixed in log { NewToLog(log, x, mixed); }
  }

  // ---- A run that ends mixed ----

  /** A world in which a certificate's text is the domain it covers, for ninety days. */
  function PlainEnv(): Env {
    Env(text => Parsed(Cert(text, [], 90 * DAY, false)), url => url, provider => true)
  }

  function For(domain: string): Config { Config(true, domain, "dns", false, "", 0) }

  lemma Covering(domain: string, other: string)
    requires ToLower(domain) != ToLower(other)
    ensures Good(PlainEnv(), domain, For(domain), 0)
    ensures !CoversDomain(PlainEnv().decode(domain).cert, other)
    ensures SlugOf(PlainEnv(), For(domain)) == "staging"
  {
    assert RenewBefore(For(domain)) == 30 * DAY;
    assert Remaining(PlainEnv().decode(domain).cert, 0) == 90 * DAY;
  }

  lemma ThreeSteps(env: Env, s: State, w1: World, w2: World, w3: World)
    ensures var s1 := Next(env, s, w1).state; var s2 := Next(env, s1, w2).state;
            && After(env, s, [w1, w2, w3]) == Next(env, s2, w3).state
            && Issues(env, s, [w1, w2, w3]) == IssueOf(env, s, w1) + IssueOf(env, s1, w2) + IssueOf(env, s2, w3)
  {
    var ws := [w1, w2, w3];
    assert ws[..0] == [] && ws[..1] == [w1] && ws[..2] == [w1, w2] && ws[..3] == ws;
    Prefixes(ws, 0);
    Prefixes(ws, 1);
    Prefixes(ws, 2);
    assert After(env, s, ws[..1]) == Next(env, s, w1).state;
    assert After(env, s, ws[..2]) == Next(env, Next(env, s, w1).state, w2).state;
    IssuesGrow(env, s, ws, 0);
    IssuesGrow(env, s, ws, 1);
    IssuesGrow(env, s, ws, 2);
  }

  function CacheLost(c: Config, p: Pair, slug: string): World {
    Calm(0, c, Some(p), false).(caching := Faults(false, {CacheCert(slug)}))
  }

  lemma MixedStates(env: Env, a: Config, b: Config, p: Pair, q: Pair) returns (s1: State, s2: State, s3: State)
    requires a.enabled && b.enabled && env.supported(a.provider) && env.supported(b.provider) && SlugOf(env, a) == SlugOf(env, b)
    requires Good(env, p.cert, a, 0) && !CoversDomain(env.decode(p.cert).cert, b.domain)
    requires Good(env, q.cert, b, 0) && !CoversDomain(env.decode(q.cert).cert, a.domain)
    ensures var s := State(a, map[]); var slug := SlugOf(env, a);
            var w1 := Calm(0, a, Some(p), false); var w2 := CacheLost(b, q, slug); var w3 := Calm(0, a, None, false);
            && s1 == Next(env, s, w1).state && IssueOf(env, s, w1) == [Issue(slug, p)]
            && s2 == Next(env, s1, w2).state && IssueOf(env, s1, w2) == [Issue(slug, q)]
            && s3 == Next(env, s2, w3).state && IssueOf(env, s2, w3) == []
            && NeedsIssue(env, s3.files, a, 0, {}).None? && ActiveIs(s3.files, Pair(p.cert, q.key))
  {
    var slug := SlugOf(env, a);
    s1 := IssueFirst(env, State(a, map[]), a, p, 0, false);
    MixedSlotIsPromoted(env, s1, b, CacheLost(b, q, slug), Calm(0, a, None, false));
    s2 := Next(env, s1, CacheLost(b, q, slug)).state;
    s3 := Next(env, s2, Calm(0, a, None, false)).state;
  }

  /** A run from a first start in which nothing is issued twice, and after which the check is
      satisfied with a pair that was never issued. */
  ghost predicate EndsMixed(env: Env, s: State, ws: seq<World>, c: Config) {
    var f := After(env, s, ws).files;
    && FirstStart(s) && AllNew(Issues(env, s, ws)) && NeedsIssue(env, f, c, 0, {}).None?
    && CertFile in f && KeyFile in f && Issue(SlugOf(env, c), Pair(f[CertFile], f[KeyFile])) !in Issues(env, s, ws)
  }

  /** From an empty directory: issue for one domain, issue for another while the cache loses its
      certificate, and come back; every write to the active files lands. */
  lemma MixedRun(env: Env, a: Config, b: Config, p: Pair, q: Pair) returns (ws: seq<World>)
    requires a.enabled && b.enabled && env.supported(a.provider) && env.supported(b.provider) && SlugOf(env, a) == SlugOf(env, b)
    requires Good(env, p.cert, a, 0) && !CoversDomain(env.decode(p.cert).cert, b.domain)
    requires Good(env, q.cert, b, 0) && !CoversDomain(env.decode(q.cert).cert, a.domain)
    requires p.cert != q.cert && p.key != q.key
    ensures EndsMixed(env, State(a, map[]), ws, a)
  {
    var s1, s2, s3 := MixedStates(env, a, b, p, q);
    var w1, w2, w3 := Calm(0, a, Some(p), false), CacheLost(b, q, SlugOf(env, a)), Calm(0, a, None, false);
    ws := [w1, w2, w3];
    ThreeSteps(env, State(a, map[]), w1, w2, w3);
    var log := Issues(env, State(a, map[]), ws);
    assert log == [Issue(SlugOf(env, a), p), Issue(SlugOf(env, a), q)];
    assert After(env, State(a, map[]), ws) == s3;
  }

  /** Such a run exists. */
  lemma MixedRunExists() returns (ws: seq<World>)
    ensures EndsMixed(PlainEnv(), State(For("a"), map[]), ws, For("a"))
  {
    assert ToLower("a")[0] == 'a' && ToLower("b")[0] == 'b';
    Covering("a", "b");
    Covering("b", "a");
    ws := MixedRun(PlainEnv(), For("a"), For("b"), Pair("a", "ka"), Pair("b", "kb"));
  }

  /** The same end without leaving one configuration and with no active write failing, when files
      cannot be read for a while: issue; with certificate and cached certificate unreadable, issue
      again while the cache loses its certificate; with the certificate unreadable, promote. */
  lemma MixedWhileUnreadable(env: Env, c: Config, p: Pair, q: Pair) returns (ws: seq<World>)
    requires c.enabled && env.supported(c.provider) && Good(env, p.cert, c, 0) && Good(env, q.cert, c, 0)
    requires p.cert != q.cert && p.key != q.key
    ensures EndsMixed(env, State(c, map[]), ws, c)
    ensures forall i :: 0 <= i < |ws| ==> ws[i].loaded == Some(c) && ws[i].promoting == ws[i].installing == NoFaults()
  {
    var slug, s := SlugOf(env, c), State(c, map[]);
    var w1 := Calm(0, c, Some(p), false);
    var w2 := CacheLost(c, q, slug).(unreadable := {CertFile, CacheCert(slug)});
    var w3 := Calm(0, c, None, false).(unreadable := {CertFile});
    ws := [w1, w2, w3];
    var s1 := IssueFirst(env, s, c, p, 0, false);
    LostSlot(env, s1, c, q, w2);
    var s2 := Next(env, s1, w2).state;
    MixedPromotion(env, s2, c, w3, p.cert, q.key);
    ThreeSteps(env, s, w1, w2, w3);
    assert Issues(env, s, ws) == [Issue(slug, p), Issue(slug, q)];
  }

  lemma LostSlot(env: Env, s: State, c: Config, q: Pair, w: World)
    requires c.enabled && env.supported(c.provider) && CacheCert(SlugOf(env, c)) in s.files
    requires w == CacheLost(c, q, SlugOf(env, c)).(unreadable := {CertFile, CacheCert(SlugOf(env, c))})
    ensures IssueOf(env, s, w) == [Issue(SlugOf(env, c), q)]
    ensures CacheIs(Next(env, s, w).state.files, SlugOf(env, c), Pair(s.files[CacheCert(SlugOf(env, c))], q.key))
  {
    StepFiles(env, s, w);
    assert HitOf(env, s, w).None? && Acts(env, s, w);
  }

  // ---- Every reconcile settles ----

  /** When no file operation fails nothing is ever broken. */
  lemma {:induction false} WorkingIsSound(env: Env, s: State, ws: seq<World>, slug: string)
    requires AllWork(ws)
    ensures ActiveSound(env, s, ws) && SlotSound(env, s, ws, slug)
  {
    if ws != [] {
      var front := ws[..|ws| - 1];
      WorkingIsSound(env, s, front, slug);
      WorkingIsSound(env, s, front, SlugOf(env, ws[|ws| - 1].loaded.GetOr(After(env, s, front).cfg)));
    }
  }

  predicate Signed(env: Env, log: seq<Issue>) {
    forall i :: 0 <= i < |log| ==> env.decode(log[i].pair.cert).Parsed? && !env.decode(log[i].pair.cert).cert.selfSigned
  }

  lemma {:induction false} IssuesSigned(env: Env, s: State, ws: seq<World>, n: nat)
    requires n <= |ws| && GoodIssues(env, s, ws)
    ensures Signed(env, Issues(env, s, ws[..n]))
  {
    if n > 0 {
      IssuesSigned(env, s, ws, n - 1);
      IssuesGrow(env, s, ws, n - 1);
      assert IssueOf(env, After(env, s, ws[..n - 1]), ws[n - 1]) != [] ==> CalledAt(env, s, ws, n - 1);
    }
  }

  lemma SettledFrom(env: Env, s: State, w: World, log: seq<Issue>)
    requires FilesWork(w) && w.loaded.GetOr(s.cfg).enabled && env.supported(w.loaded.GetOr(s.cfg).provider)
    requires Signed(env, log) && SlotGenuine(s.files, log, SlugOf(env, w.loaded.GetOr(s.cfg)))
    requires Next(env, s, w).called ==> w.obtained.Some? && Good(env, w.obtained.value.cert, w.loaded.GetOr(s.cfg), w.now)
    ensures NeedsIssue(env, Next(env, s, w).state.files, w.loaded.GetOr(s.cfg), w.now, {}).None?
  {
    SettledExactly(env, s, w);
    WorkingStep(env, s, w);
  }

  /** Over any run from a first start with working files and good certificates, after every reconcile
      of an enabled manager with a supported provider nothing is needed. */
  lemma EveryReconcileSettles(env: Env, s: State, ws: seq<World>, n: nat)
    requires FirstStart(s) && AllWork(ws) && GoodIssues(env, s, ws) && n < |ws|
    requires ConfigAt(env, s, ws, n).enabled && env.supported(ConfigAt(env, s, ws, n).provider)
    ensures NeedsIssue(env, After(env, s, ws[..n + 1]).files, ConfigAt(env, s, ws, n), ws[n].now, {}).None?
  {
    Prefixes(ws, n);
    WorkingIsSound(env, s, ws[..n], SlugAt(env, s, ws, n));
    SlotGenuineExactly(env, s, ws[..n], SlugAt(env, s, ws, n));
    IssuesSigned(env, s, ws, n);
    SettledFrom(env, After(env, s, ws[..n]), ws[n], Issues(env, s, ws[..n]));
  }
}
