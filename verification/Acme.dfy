/** Keeping the certificate valid: one reconcile decides whether a certificate must be issued, reuses
    one cached for the same certificate authority, or obtains and installs a new one. Every file
    operation may fail, and each whole-file write either lands or leaves the old file. */
module Acme {
  import opened Common

  const PRODUCTION_URL := "https://acme-v02.api.letsencrypt.org/directory"
  const STAGING_URL := "https://acme-staging-v02.api.letsencrypt.org/directory"

  // Times and durations are in nanoseconds, durations held in 64 bits.
  const MINUTE: int := 60_000_000_000
  const DAY: int := 1440 * MINUTE
  const CHECK_INTERVAL: int := 720 * MINUTE
  const RETRY_INTERVAL: int := 5 * MINUTE
  const DEFAULT_RENEW_DAYS := 30
  const MAX_DURATION: int := 0x7fff_ffff_ffff_ffff
  const MIN_DURATION: int := -0x8000_0000_0000_0000

  datatype Cert = Cert(commonName: string, dnsNames: seq<string>, notAfter: int, selfSigned: bool)

  datatype Decoded = NotPem | Unparsable | Parsed(cert: Cert)

  /** What the manager calls but does not define: reading a certificate, the digest naming a custom
      directory, and the registry of DNS providers. */
  datatype Env = Env(decode: string -> Decoded, digest: string -> string, supported: string -> bool)

  datatype Config = Config(enabled: bool, domain: string, provider: string, production: bool,
                           caDirectoryURL: string, renewBeforeDays: int)

  datatype Path = CertFile | KeyFile | CaFile | CacheCert(slug: string) | CacheKey(slug: string)

  type Files = map<Path, string>

  datatype Pair = Pair(cert: string, key: string)

  /** What goes wrong in one group of writes. */
  datatype Faults = Faults(mkdir: bool, paths: set<Path>)

  /** Everything outside the program during one reconcile; `obtained` is what the issuer would
      return if asked. */
  datatype World = World(now: int, loaded: Option<Config>, unreadable: set<Path>, obtained: Option<Pair>,
                         promoting: Faults, installing: Faults, caching: Faults, reloadFails: bool)

  datatype State = State(cfg: Config, files: Files)

  datatype Outcome = Outcome(state: State, wait: int, called: bool, reloaded: bool)

  datatype Reason = Missing | BadPem | BadCert | Placeholder | WrongDomain | CaChanged | Expiring

  function CaDirUrl(c: Config): string {
    if c.caDirectoryURL != "" then c.caDirectoryURL else if c.production then PRODUCTION_URL else STAGING_URL
  }

  function CaSlug(env: Env, url: string): string {
    if url == PRODUCTION_URL then "production"
    else if url == STAGING_URL then "staging"
    else "custom-" + env.digest(url)
  }

  function SlugOf(env: Env, c: Config): string { CaSlug(env, CaDirUrl(c)) }

  function Wrap64(n: int): int {
    var m := n % 0x1_0000_0000_0000_0000;
    if m > MAX_DURATION then m - 0x1_0000_0000_0000_0000 else m
  }

  function RenewBefore(c: Config): int {
    Wrap64((if c.renewBeforeDays <= 0 then DEFAULT_RENEW_DAYS else c.renewBeforeDays) * DAY)
  }

  /** Time.Sub saturates. */
  function Remaining(c: Cert, now: int): int {
    Max(MIN_DURATION, Min(MAX_DURATION, c.notAfter - now))
  }

  predicate CoversDomain(c: Cert, domain: string) {
    ToLower(c.commonName) == ToLower(domain)
    || exists i :: 0 <= i < |c.dnsNames| && ToLower(c.dnsNames[i]) == ToLower(domain)
  }

  function Read(files: Files, p: Path, unreadable: set<Path>): Option<string> {
    if p in files && p !in unreadable then Some(files[p]) else None
  }

  /** needsIssue. */
  function NeedsIssue(env: Env, files: Files, c: Config, now: int, unreadable: set<Path>): Option<Reason> {
    var raw := Read(files, CertFile, unreadable);
    if raw.None? then Some(Missing)
    else
      var d := env.decode(raw.value);
      if d.NotPem? then Some(BadPem)
      else if d.Unparsable? then Some(BadCert)
      else if d.cert.selfSigned then Some(Placeholder)
      else if !CoversDomain(d.cert, c.domain) then Some(WrongDomain)
      else if Read(files, CaFile, unreadable) != Some(CaDirUrl(c)) then Some(CaChanged)
      else if Remaining(d.cert, now) < RenewBefore(c) then Some(Expiring)
      else None
  }

  /** A certificate worth promoting: the configured domain, and not yet due for renewal. */
  predicate Usable(env: Env, cert: string, c: Config, now: int) {
    env.decode(cert).Parsed? && CoversDomain(env.decode(cert).cert, c.domain)
    && Remaining(env.decode(cert).cert, now) >= RenewBefore(c)
  }

  predicate Good(env: Env, cert: string, c: Config, now: int) {
    Usable(env, cert, c, now) && !env.decode(cert).cert.selfSigned
  }

  // ---- What the checks mean ----

  /** Two's complement: the one number of 64 bits that differs by whole turns. */
  lemma Wrap64Exactly(n: int, r: int)
    requires -0x8000_0000_0000_0000 <= r <= 0x7fff_ffff_ffff_ffff
    ensures Wrap64(n) == r <==> (n - r) % 0x1_0000_0000_0000_0000 == 0
  {
    var turn := 0x1_0000_0000_0000_0000;
    var q := (n - r) / turn;
    if (n - r) % turn == 0 {
      assert n == q * turn + r;
      if r >= 0 { ModIs(n, turn, q, r); } else { ModIs(n, turn, q - 1, r + turn); }
    }
    if Wrap64(n) == r {
      assert n == n / turn * turn + n % turn;
      if r >= 0 { ModIs(n - r, turn, n / turn, 0); } else { ModIs(n - r, turn, n / turn + 1, 0); }
    }
  }

  /** A certificate is due when fewer than the configured whole days of it are left, thirty when none
      are configured. A number of days that does not fit 64 bits of nanoseconds, up to twice that many,
      turns negative: the certificate is not due until long after it has expired. */
  lemma DueExactly(c: Config, cert: Cert, now: int)
    ensures var days := if c.renewBeforeDays <= 0 then 30 else c.renewBeforeDays;
            && (days * 86_400_000_000_000 <= 0x7fff_ffff_ffff_ffff ==>
                  (Remaining(cert, now) < RenewBefore(c) <==> cert.notAfter - now < days * 86_400_000_000_000))
            && (0x7fff_ffff_ffff_ffff < days * 86_400_000_000_000 < 0x1_0000_0000_0000_0000
                && cert.notAfter - now >= -0x8000_0000_0000_0000 ==>
                  (Remaining(cert, now) < RenewBefore(c) <==> cert.notAfter - now < days * 86_400_000_000_000 - 0x1_0000_0000_0000_0000))
  {
    var ns := (if c.renewBeforeDays <= 0 then DEFAULT_RENEW_DAYS else c.renewBeforeDays) * DAY;
    if ns <= MAX_DURATION {
      Wrap64Exactly(ns, ns);
    } else if ns < 0x1_0000_0000_0000_0000 {
      ModIs(ns - (ns - 0x1_0000_0000_0000_0000), 0x1_0000_0000_0000_0000, 1, 0);
      Wrap64Exactly(ns, ns - 0x1_0000_0000_0000_0000);
    }
  }

  /** Nothing is needed exactly when the active certificate can be read and parsed, is not self-signed,
      names the domain as its common name or among its other names, is on record for the configured
      directory, and is not due. */
  lemma NothingNeededExactly(env: Env, files: Files, c: Config, now: int, unreadable: set<Path>)
    ensures NeedsIssue(env, files, c, now, unreadable).None? <==>
              && CertFile in files && CertFile !in unreadable && env.decode(files[CertFile]).Parsed?
              && var cert := env.decode(files[CertFile]).cert;
                 && !cert.selfSigned
                 && (ToLower(cert.commonName) == ToLower(c.domain) || exists n :: n in cert.dnsNames && ToLower(n) == ToLower(c.domain))
                 && CaFile in files && CaFile !in unreadable
                 && files[CaFile] == (if c.caDirectoryURL != "" then c.caDirectoryURL
                                      else if c.production then "https://acme-v02.api.letsencrypt.org/directory"
                                      else "https://acme-staging-v02.api.letsencrypt.org/directory")
                 && !(Remaining(cert, now) < RenewBefore(c))
  {
  }

  /** Without an override, switching between staging and production and nothing else makes a new
      certificate needed after a satisfied check, whatever the time. */
  lemma SwitchIsNoticed(env: Env, files: Files, c: Config, d: Config, now: int, later: int, unreadable: set<Path>)
    requires NeedsIssue(env, files, c, now, unreadable).None? && c.caDirectoryURL == ""
    requires d == c.(production := !c.production)
    ensures NeedsIssue(env, files, d, later, unreadable) == Some(CaChanged)
  {
    assert "https://acme-v02.api.letsencrypt.org/directory"[13] != "https://acme-staging-v02.api.letsencrypt.org/directory"[13];
  }

  /** A cached pair is promoted on the certificate alone: it parses, names the domain and is not due;
      nothing is asked about who signed it. */
  lemma UsableExactly(env: Env, cert: string, c: Config, now: int)
    ensures Usable(env, cert, c, now) <==>
              && env.decode(cert).Parsed?
              && var x := env.decode(cert).cert;
                 && (ToLower(x.commonName) == ToLower(c.domain) || exists n :: n in x.dnsNames && ToLower(n) == ToLower(c.domain))
                 && !(Remaining(x, now) < RenewBefore(c))
  {
  }

  /** The cached pair promoteFromCache would install. */
  function Cached(env: Env, files: Files, c: Config, now: int, unreadable: set<Path>): Option<Pair> {
    var cert := Read(files, CacheCert(SlugOf(env, c)), unreadable);
    var key := Read(files, CacheKey(SlugOf(env, c)), unreadable);
    if cert.Some? && key.Some? && Usable(env, cert.value, c, now) then Some(Pair(cert.value, key.value)) else None
  }

  /** Writes land in order until one fails. */
  function Landed(files: Files, writes: seq<(Path, string)>, failing: set<Path>): (Files, bool)
    decreases |writes|
  {
    if writes == [] then (files, true)
    else if writes[0].0 in failing then (files, false)
    else Landed(files[writes[0].0 := writes[0].1], writes[1..], failing)
  }

  function Put(files: Files, writes: seq<(Path, string)>, f: Faults): (Files, bool) {
    if f.mkdir then (files, false) else Landed(files, writes, f.paths)
  }

  function ActiveWrites(c: Config, p: Pair): seq<(Path, string)> {
    [(KeyFile, p.key), (CertFile, p.cert), (CaFile, CaDirUrl(c))]
  }

  function CacheWrites(env: Env, c: Config, p: Pair): seq<(Path, string)> {
    [(CacheKey(SlugOf(env, c)), p.key), (CacheCert(SlugOf(env, c)), p.cert)]
  }

  /** How many of the three active files land, in order: key, certificate, record. */
  function ActiveCount(f: Faults): nat {
    if f.mkdir || KeyFile in f.paths then 0
    else if CertFile in f.paths then 1
    else if CaFile in f.paths then 2
    else 3
  }

  /** How many of a slot's two files land: key, certificate. */
  function CacheCount(f: Faults, slug: string): nat {
    if f.mkdir || CacheKey(slug) in f.paths then 0 else if CacheCert(slug) in f.paths then 1 else 2
  }

  function WroteActive(files: Files, c: Config, p: Pair, n: nat): Files {
    if n == 0 then files
    else if n == 1 then files[KeyFile := p.key]
    else if n == 2 then files[KeyFile := p.key][CertFile := p.cert]
    else files[KeyFile := p.key][CertFile := p.cert][CaFile := CaDirUrl(c)]
  }

  function WroteCache(files: Files, slug: string, p: Pair, n: nat): Files {
    if n == 0 then files
    else if n == 1 then files[CacheKey(slug) := p.key]
    else files[CacheKey(slug) := p.key][CacheCert(slug) := p.cert]
  }

  lemma ActiveLanded(files: Files, c: Config, p: Pair, f: Faults)
    ensures Put(files, ActiveWrites(c, p), f) == (WroteActive(files, c, p, ActiveCount(f)), ActiveCount(f) == 3)
  {
    var a := ActiveWrites(c, p);
    var f1 := files[KeyFile := p.key];
    var f2 := f1[CertFile := p.cert];
    assert a[1..][1..] == [(CaFile, CaDirUrl(c))] && a[1..][1..][1..] == [];
    assert Landed(f2[CaFile := CaDirUrl(c)], [], f.paths).1;
    assert Landed(f2, a[1..][1..], f.paths) == if CaFile in f.paths then (f2, false) else (f2[CaFile := CaDirUrl(c)], true);
    assert Landed(f1, a[1..], f.paths) == if CertFile in f.paths then (f1, false) else Landed(f2, a[1..][1..], f.paths);
  }

  lemma CacheLanded(env: Env, files: Files, c: Config, p: Pair, f: Faults)
    ensures var slug := SlugOf(env, c);
            Put(files, CacheWrites(env, c, p), f) == (WroteCache(files, slug, p, CacheCount(f, slug)), CacheCount(f, slug) == 2)
  {
    var a := CacheWrites(env, c, p);
    var f1 := files[CacheKey(SlugOf(env, c)) := p.key];
    var f2 := f1[CacheCert(SlugOf(env, c)) := p.cert];
    assert a[1..] == [(CacheCert(SlugOf(env, c)), p.cert)] && a[1..][1..] == [];
    assert Landed(f2, [], f.paths).1;
    assert Landed(f1, a[1..], f.paths) == if CacheCert(SlugOf(env, c)) in f.paths then (f1, false) else (f2, true);
  }

  /** Obtaining and installing, once a certificate is needed and the cache did not help. */
  function Issued(env: Env, s: State, w: World): Outcome {
    if w.obtained.None? then Outcome(s, RETRY_INTERVAL, true, false)
    else
      var active := Put(s.files, ActiveWrites(s.cfg, w.obtained.value), w.installing);
      if !active.1 then Outcome(State(s.cfg, active.0), RETRY_INTERVAL, true, false)
      else
        var cached := Put(active.0, CacheWrites(env, s.cfg, w.obtained.value), w.caching);
        Outcome(State(s.cfg, cached.0), if w.reloadFails then RETRY_INTERVAL else CHECK_INTERVAL, true, true)
  }

  function Promoted(env: Env, s: State, w: World): (Files, bool) {
    var hit := Cached(env, s.files, s.cfg, w.now, w.unreadable);
    if hit.None? then (s.files, false) else Put(s.files, ActiveWrites(s.cfg, hit.value), w.promoting)
  }

  /** One reconcile. */
  function Next(env: Env, s: State, w: World): Outcome {
    var cfg := w.loaded.GetOr(s.cfg);
    var t := State(cfg, s.files);
    if !cfg.enabled then Outcome(t, CHECK_INTERVAL, false, false)
    else if !env.supported(cfg.provider) then Outcome(t, RETRY_INTERVAL, false, false)
    else if NeedsIssue(env, s.files, cfg, w.now, w.unreadable).None? then Outcome(t, CHECK_INTERVAL, false, false)
    else
      var p := Promoted(env, t, w);
      if p.1 then Outcome(State(cfg, p.0), if w.reloadFails then RETRY_INTERVAL else CHECK_INTERVAL, false, true)
      else Issued(env, State(cfg, p.0), w)
  }

  // ---- The manager ----

  class Manager {
    const env: Env
    var cfg: Config
    var files: Files

    constructor (env: Env, cfg: Config, files: Files)
      ensures this.env == env && this.cfg == cfg && this.files == files
    {
      this.env, this.cfg, this.files := env, cfg, files;
    }

    method WriteFileAtomic(p: Path, data: string, failing: set<Path>) returns (ok: bool)
      modifies this`files
      ensures ok <==> p !in failing
      ensures files == if ok then old(files)[p := data] else old(files)
    {
      ok := p !in failing;
      if ok { files := files[p := data]; }
    }

    method WriteCertKey(p: Pair, f: Faults) returns (ok: bool)
      modifies this`files
      ensures ok <==> !f.mkdir && f.paths !! {KeyFile, CertFile, CaFile}
      ensures ok ==> files == old(files)[KeyFile := p.key][CertFile := p.cert][CaFile := CaDirUrl(cfg)]
      ensures old(files).Keys <= files.Keys
      ensures forall q :: q in files && (q.CacheCert? || q.CacheKey?) ==> q in old(files) && files[q] == old(files)[q]
      ensures (files, ok) == Put(old(files), ActiveWrites(cfg, p), f)
    {
      ActiveLanded(files, cfg, p, f);
      if f.mkdir { return false; }
      ok := WriteFileAtomic(KeyFile, p.key, f.paths);
      if !ok { return; }
      ok := WriteFileAtomic(CertFile, p.cert, f.paths);
      if !ok { return; }
      ok := WriteFileAtomic(CaFile, CaDirUrl(cfg), f.paths);
    }

    method CacheCurrent(p: Pair, f: Faults) returns (ok: bool)
      modifies this`files
      ensures var slug := SlugOf(env, cfg);
              && (ok <==> !f.mkdir && f.paths !! {CacheKey(slug), CacheCert(slug)})
              && (ok ==> files == old(files)[CacheKey(slug) := p.key][CacheCert(slug) := p.cert])
              && files in {old(files), old(files)[CacheKey(slug) := p.key], old(files)[CacheKey(slug) := p.key][CacheCert(slug) := p.cert]}
      ensures (files, ok) == Put(old(files), CacheWrites(env, cfg, p), f)
    {
      CacheLanded(env, files, cfg, p, f);
      if f.mkdir { return false; }
      var slug := SlugOf(env, cfg);
      ok := WriteFileAtomic(CacheKey(slug), p.key, f.paths);
      if !ok { return; }
      ok := WriteFileAtomic(CacheCert(slug), p.cert, f.paths);
    }

    method PromoteFromCache(w: World) returns (ok: bool)
      modifies this`files
      ensures var slug := SlugOf(env, cfg);
              ok <==> && CacheCert(slug) in old(files) && CacheCert(slug) !in w.unreadable
                      && CacheKey(slug) in old(files) && CacheKey(slug) !in w.unreadable
                      && Usable(env, old(files)[CacheCert(slug)], cfg, w.now)
                      && !w.promoting.mkdir && w.promoting.paths !! {KeyFile, CertFile, CaFile}
      ensures var slug := SlugOf(env, cfg);
              ok ==> CacheCert(slug) in old(files) && CacheKey(slug) in old(files)
                     && files == old(files)[KeyFile := old(files)[CacheKey(slug)]][CertFile := old(files)[CacheCert(slug)]]
                                           [CaFile := CaDirUrl(cfg)]
      ensures old(files).Keys <= files.Keys
      ensures forall q :: q in files && (q.CacheCert? || q.CacheKey?) ==> q in old(files) && files[q] == old(files)[q]
      ensures (files, ok) == Promoted(env, State(cfg, old(files)), w)
    {
      var slug := SlugOf(env, cfg);
      var cert := Read(files, CacheCert(slug), w.unreadable);
      if cert.None? { return false; }
      var key := Read(files, CacheKey(slug), w.unreadable);
      if key.None? { return false; }
      if !Usable(env, cert.value, cfg, w.now) { return false; }
      ok := WriteCertKey(Pair(cert.value, key.value), w.promoting);
    }

    /** One reconcile under freshly loaded settings, or the last ones. An installation leaves on record
        the directory it is for: the override if there is one, else the production directory exactly
        when production is set, else the staging one. It installs the pair cached for that directory, or
        asks and installs what it gets, which is also all it ever puts in a cache, under that
        directory's name. The long wait is half a day, the short one five minutes. */
    method Reconcile(w: World) returns (wait: int, called: bool, reloaded: bool, ghost url: string, ghost slug: string)
      modifies this
      ensures cfg == if w.loaded.Some? then w.loaded.value else old(cfg)
      ensures url == if cfg.caDirectoryURL != "" then cfg.caDirectoryURL
                     else if cfg.production then "https://acme-v02.api.letsencrypt.org/directory"
                     else "https://acme-staging-v02.api.letsencrypt.org/directory"
      ensures slug == if url == "https://acme-v02.api.letsencrypt.org/directory" then "production"
                      else if url == "https://acme-staging-v02.api.letsencrypt.org/directory" then "staging"
                      else "custom-" + env.digest(url)
      ensures called || reloaded ==> cfg.enabled && env.supported(cfg.provider)
      ensures !called && !reloaded ==> files == old(files)
      ensures reloaded ==> CaFile in files && files[CaFile] == url && CertFile in files && KeyFile in files
      ensures reloaded && called ==> w.obtained == Some(Pair(files[CertFile], files[KeyFile]))
      ensures reloaded && !called ==>
                CacheCert(slug) in old(files) && CacheKey(slug) in old(files)
                && files[CertFile] == old(files)[CacheCert(slug)] && files[KeyFile] == old(files)[CacheKey(slug)]
      ensures old(files).Keys <= files.Keys
      ensures forall p :: p in files && (p.CacheCert? || p.CacheKey?) ==>
                || (p in old(files) && files[p] == old(files)[p])
                || (called && reloaded && p.slug == slug && files[p] == if p.CacheCert? then files[CertFile] else files[KeyFile])
      ensures called && reloaded && !w.caching.mkdir && w.caching.paths !! {CacheKey(slug), CacheCert(slug)} ==>
                CacheCert(slug) in files && CacheKey(slug) in files
                && files[CacheCert(slug)] == files[CertFile] && files[CacheKey(slug)] == files[KeyFile]
      ensures wait == if !cfg.enabled || (reloaded && !w.reloadFails) || (env.supported(cfg.provider) && !called && !reloaded)
                      then 43_200_000_000_000 else 300_000_000_000
      ensures Outcome(State(cfg, files), wait, called, reloaded) == Next(env, State(old(cfg), old(files)), w)
    {
      called, reloaded := false, false;
      if w.loaded.Some? { cfg := w.loaded.value; }
      url, slug := CaDirUrl(cfg), SlugOf(env, cfg);
      if !cfg.enabled { return CHECK_INTERVAL, called, reloaded, url, slug; }
      if !env.supported(cfg.provider) { return RETRY_INTERVAL, called, reloaded, url, slug; }
      if NeedsIssue(env, files, cfg, w.now, w.unreadable).None? { return CHECK_INTERVAL, called, reloaded, url, slug; }
      var promoted := PromoteFromCache(w);
      if promoted {
        return if w.reloadFails then RETRY_INTERVAL else CHECK_INTERVAL, called, true, url, slug;
      }
      called := true;
      wait, reloaded := ObtainAndInstall(w);
    }

    /** The issuer is asked, and what it gives is installed, cached and loaded. */
    method ObtainAndInstall(w: World) returns (wait: int, reloaded: bool)
      modifies this`files
      ensures var slug := SlugOf(env, cfg);
              && (reloaded ==> w.obtained.Some? && CaFile in files && CertFile in files && KeyFile in files
                               && files[CaFile] == CaDirUrl(cfg) && w.obtained.value == Pair(files[CertFile], files[KeyFile]))
              && old(files).Keys <= files.Keys
              && (forall p :: p in files && (p.CacheCert? || p.CacheKey?) ==>
                    || (p in old(files) && files[p] == old(files)[p])
                    || (reloaded && p.slug == slug && files[p] == if p.CacheCert? then w.obtained.value.cert else w.obtained.value.key))
              && (reloaded && !w.caching.mkdir && w.caching.paths !! {CacheKey(slug), CacheCert(slug)} ==>
                    CacheCert(slug) in files && CacheKey(slug) in files
                    && files[CacheCert(slug)] == w.obtained.value.cert && files[CacheKey(slug)] == w.obtained.value.key)
      ensures Outcome(State(cfg, files), wait, true, reloaded) == Issued(env, State(cfg, old(files)), w)
    {
      reloaded := false;
      if w.obtained.None? { return RETRY_INTERVAL, reloaded; }
      var written := WriteCertKey(w.obtained.value, w.installing);
      if !written { return RETRY_INTERVAL, reloaded; }
      var cached := CacheCurrent(w.obtained.value, w.caching);
      reloaded := true;
      wait := if w.reloadFails then RETRY_INTERVAL else CHECK_INTERVAL;
    }
  }

  // ---- With working files ----

  function NoFaults(): Faults { Faults(false, {}) }

  /** File operations work; loading settings, obtaining and reloading still may not. */
  predicate FilesWork(w: World) {
    w.unreadable == {} && w.promoting == NoFaults() && w.installing == NoFaults() && w.caching == NoFaults()
  }

  /** What one reconcile does to the files when file operations work. */
  lemma WorkingStep(env: Env, s: State, w: World)
    requires FilesWork(w)
    ensures var o := Next(env, s, w); var c := w.loaded.GetOr(s.cfg); var hit := Cached(env, s.files, c, w.now, {});
            && o.state.cfg == c
            && (hit.Some? ==> !o.called)
            && (o.called && w.obtained.Some? ==>
                  o.state.files == WroteCache(WroteActive(s.files, c, w.obtained.value, 3), SlugOf(env, c), w.obtained.value, 2))
            && (!(o.called && w.obtained.Some?) && o.reloaded ==>
                  hit.Some? && o.state.files == WroteActive(s.files, c, hit.value, 3))
            && (!o.reloaded ==> o.state.files == s.files)
            && (o.reloaded <==> c.enabled && env.supported(c.provider) && NeedsIssue(env, s.files, c, w.now, {}).Some?
                                && (hit.Some? || w.obtained.Some?))
  {
    var c := w.loaded.GetOr(s.cfg);
    var hit := Cached(env, s.files, c, w.now, {});
    if hit.Some? {
      ActiveLanded(s.files, c, hit.value, w.promoting);
      assert Promoted(env, State(c, s.files), w).1;
    } else if w.obtained.Some? {
      ActiveLanded(s.files, c, w.obtained.value, w.installing);
      CacheLanded(env, Put(s.files, ActiveWrites(c, w.obtained.value), w.installing).0, c, w.obtained.value, w.caching);
    }
  }

  /** Whether a working reconcile leaves nothing to do depends on the one certificate it installs,
      and promotion, unlike the check, does not look for a self-signed one. */
  lemma SettledExactly(env: Env, s: State, w: World)
    requires FilesWork(w) && w.loaded.GetOr(s.cfg).enabled && env.supported(w.loaded.GetOr(s.cfg).provider)
    ensures var c := w.loaded.GetOr(s.cfg); var hit := Cached(env, s.files, c, w.now, {});
            NeedsIssue(env, Next(env, s, w).state.files, c, w.now, {}).None? <==>
              || NeedsIssue(env, s.files, c, w.now, {}).None?
              || (if hit.Some? then !env.decode(hit.value.cert).cert.selfSigned
                  else w.obtained.Some? && Good(env, w.obtained.value.cert, c, w.now))
  {
    WorkingStep(env, s, w);
  }

  ghost predicate CacheIs(files: Files, slug: string, p: Pair) {
    CacheCert(slug) in files && CacheKey(slug) in files && Pair(files[CacheCert(slug)], files[CacheKey(slug)]) == p
  }

  function Calm(now: int, c: Config, obtained: Option<Pair>, reloadFails: bool): World {
    World(now, Some(c), {}, obtained, NoFaults(), NoFaults(), NoFaults(), reloadFails)
  }

  /** Two authorities in turn and back again, from nothing: each is asked once, and the return puts
      the first pair back without asking. */
  lemma FlippingReusesCache(env: Env, a: Config, b: Config, p: Pair, q: Pair, now: int, reloadFails: bool)
    returns (s1: State, s2: State, s3: State)
    requires a.enabled && b.enabled && env.supported(a.provider) && env.supported(b.provider)
    requires SlugOf(env, a) != SlugOf(env, b)
    requires Good(env, p.cert, a, now) && Good(env, q.cert, b, now)
    ensures Next(env, State(a, map[]), Calm(now, a, Some(p), reloadFails)).called
    ensures s1 == Next(env, State(a, map[]), Calm(now, a, Some(p), reloadFails)).state && ActiveIs(s1.files, p)
    ensures Next(env, s1, Calm(now, b, Some(q), reloadFails)).called
    ensures s2 == Next(env, s1, Calm(now, b, Some(q), reloadFails)).state && ActiveIs(s2.files, q)
    ensures !Next(env, s2, Calm(now, a, None, reloadFails)).called
    ensures s3 == Next(env, s2, Calm(now, a, None, reloadFails)).state && ActiveIs(s3.files, p)
    ensures NeedsIssue(env, s3.files, a, now, {}).None?
  {
    s1 := IssueFirst(env, State(a, map[]), a, p, now, reloadFails);
    s2 := IssueFirst(env, s1, b, q, now, reloadFails);
    s3 := Next(env, s2, Calm(now, a, None, reloadFails)).state;
    ReuseCached(env, s2, a, p, now, reloadFails);
  }

  ghost predicate ActiveIs(files: Files, p: Pair) {
    CertFile in files && KeyFile in files && Pair(files[CertFile], files[KeyFile]) == p
  }

  /** An authority with nothing cached, whose record is not in place, is asked. */
  lemma IssueFirst(env: Env, s: State, c: Config, p: Pair, now: int, reloadFails: bool) returns (t: State)
    requires c.enabled && env.supported(c.provider) && Good(env, p.cert, c, now)
    requires CacheCert(SlugOf(env, c)) !in s.files && (CaFile in s.files ==> s.files[CaFile] != CaDirUrl(c))
    ensures t == Next(env, s, Calm(now, c, Some(p), reloadFails)).state && Next(env, s, Calm(now, c, Some(p), reloadFails)).called
    ensures t.files == WroteCache(WroteActive(s.files, c, p, 3), SlugOf(env, c), p, 2)
    ensures NeedsIssue(env, t.files, c, now, {}).None?
  {
    WorkingStep(env, s, Calm(now, c, Some(p), reloadFails));
    t := Next(env, s, Calm(now, c, Some(p), reloadFails)).state;
  }

  lemma ReuseCached(env: Env, s: State, c: Config, p: Pair, now: int, reloadFails: bool)
    requires c.enabled && env.supported(c.provider) && Good(env, p.cert, c, now)
    requires CacheIs(s.files, SlugOf(env, c), p) && CaFile in s.files && s.files[CaFile] != CaDirUrl(c)
    ensures var o := Next(env, s, Calm(now, c, None, reloadFails));
            !o.called && o.state.files == WroteActive(s.files, c, p, 3) && NeedsIssue(env, o.state.files, c, now, {}).None?
  {
    WorkingStep(env, s, Calm(now, c, None, reloadFails));
  }

  // ---- How far each group of writes got ----

  /** Does this reconcile set out to change the certificate? */
  predicate Acts(env: Env, s: State, w: World) {
    var c := w.loaded.GetOr(s.cfg);
    c.enabled && env.supported(c.provider) && NeedsIssue(env, s.files, c, w.now, w.unreadable).Some?
  }

  /** The cached pair it promotes, if any. */
  function HitOf(env: Env, s: State, w: World): Option<Pair> {
    if Acts(env, s, w) then Cached(env, s.files, w.loaded.GetOr(s.cfg), w.now, w.unreadable) else None
  }

  /** How many files landed of each group: promoting, installing, caching. */
  datatype Landing = Landing(promoted: nat, installed: nat, cached: nat)

  function LandingOf(env: Env, s: State, w: World): Landing {
    var p := if HitOf(env, s, w).Some? then ActiveCount(w.promoting) else 0;
    var i := if Acts(env, s, w) && p != 3 && w.obtained.Some? then ActiveCount(w.installing) else 0;
    Landing(p, i, if i == 3 then CacheCount(w.caching, SlugOf(env, w.loaded.GetOr(s.cfg))) else 0)
  }

  function PromotedFiles(env: Env, s: State, w: World): Files {
    var l := LandingOf(env, s, w);
    if l.promoted > 0 then WroteActive(s.files, w.loaded.GetOr(s.cfg), HitOf(env, s, w).value, l.promoted) else s.files
  }

  function InstalledFiles(env: Env, s: State, w: World): Files {
    var l := LandingOf(env, s, w);
    if l.installed > 0 then WroteActive(PromotedFiles(env, s, w), w.loaded.GetOr(s.cfg), w.obtained.value, l.installed)
    else PromotedFiles(env, s, w)
  }

  function FilesAfter(env: Env, s: State, w: World): Files {
    var l := LandingOf(env, s, w);
    if l.cached > 0 then WroteCache(InstalledFiles(env, s, w), SlugOf(env, w.loaded.GetOr(s.cfg)), w.obtained.value, l.cached)
    else InstalledFiles(env, s, w)
  }

  /** Whatever fails, one reconcile is three groups of writes, each cut short where its count says. */
  lemma StepFiles(env: Env, s: State, w: World)
    ensures var o := Next(env, s, w); var l := LandingOf(env, s, w);
            && o.state == State(w.loaded.GetOr(s.cfg), FilesAfter(env, s, w))
            && (o.called <==> Acts(env, s, w) && l.promoted != 3)
            && (o.reloaded <==> l.promoted == 3 || l.installed == 3)
  {
    var c := w.loaded.GetOr(s.cfg);
    var hit := HitOf(env, s, w);
    if hit.Some? { ActiveLanded(s.files, c, hit.value, w.promoting); }
    if w.obtained.Some? {
      ActiveLanded(PromotedFiles(env, s, w), c, w.obtained.value, w.installing);
      CacheLanded(env, InstalledFiles(env, s, w), c, w.obtained.value, w.caching);
    }
  }

  /** Whatever fails, a reconcile of an enabled manager that asks for the long wait found nothing to
      do or left a whole new installation that the engine has loaded. */
  lemma LongWaitIsSettled(env: Env, s: State, w: World)
    requires w.loaded.GetOr(s.cfg).enabled && Next(env, s, w).wait == CHECK_INTERVAL
    requires Next(env, s, w).called ==> Good(env, w.obtained.GetOr(Pair("", "")).cert, w.loaded.GetOr(s.cfg), w.now)
    requires var hit := Cached(env, s.files, w.loaded.GetOr(s.cfg), w.now, w.unreadable);
             hit.Some? ==> !env.decode(hit.value.cert).cert.selfSigned
    ensures var c := w.loaded.GetOr(s.cfg); var o := Next(env, s, w);
            && NeedsIssue(env, o.state.files, c, w.now, {}).None?
            && (NeedsIssue(env, s.files, c, w.now, w.unreadable).Some? ==> o.reloaded && !w.reloadFails)
  {
    LongWait(env, s, w);
    var c := w.loaded.GetOr(s.cfg);
    if Acts(env, s, w) {
      LoadedWhole(env, s, w);
      Passes(env, Next(env, s, w).state.files, c, w.now);
    } else {
      StepFiles(env, s, w);
    }
  }

  lemma Passes(env: Env, f: Files, c: Config, now: int)
    requires CertFile in f && Good(env, f[CertFile], c, now) && CaFile in f && f[CaFile] == CaDirUrl(c)
    ensures NeedsIssue(env, f, c, now, {}).None?
  {
  }

  lemma LoadedWhole(env: Env, s: State, w: World)
    requires Next(env, s, w).reloaded
    ensures var o := Next(env, s, w); var f := o.state.files; var c := w.loaded.GetOr(s.cfg);
            && CertFile in f && CaFile in f && f[CaFile] == CaDirUrl(c)
            && if o.called then w.obtained.Some? && f[CertFile] == w.obtained.value.cert
               else HitOf(env, s, w).Some? && f[CertFile] == HitOf(env, s, w).value.cert
  {
    StepFiles(env, s, w);
  }

  /** A failed reload only shortens one wait: once the certificate that was installed is good and
      stays so, the next reconcile does not reload. */
  lemma FailedReloadIsForgotten(env: Env, s: State, w: World, later: World)
    requires w.reloadFails && Next(env, s, w).reloaded && later.loaded.None? && later.unreadable == {}
    requires Good(env, if Next(env, s, w).called then w.obtained.GetOr(Pair("", "")).cert else HitOf(env, s, w).GetOr(Pair("", "")).cert,
                  w.loaded.GetOr(s.cfg), later.now)
    ensures Next(env, s, w).wait == RETRY_INTERVAL
    ensures var o := Next(env, Next(env, s, w).state, later); !o.reloaded && o.wait == CHECK_INTERVAL
  {
    var t := Next(env, s, w).state;
    LoadedWhole(env, s, w);
    Passes(env, t.files, w.loaded.GetOr(s.cfg), later.now);
    ReloadRetries(env, s, w);
    Idle(env, t, later);
  }

  lemma ReloadRetries(env: Env, s: State, w: World)
    requires Next(env, s, w).reloaded
    ensures Next(env, s, w).wait == (if w.reloadFails then RETRY_INTERVAL else CHECK_INTERVAL)
    ensures var c := w.loaded.GetOr(s.cfg); Next(env, s, w).state.cfg == c && c.enabled && env.supported(c.provider)
  {
  }

  lemma Idle(env: Env, s: State, w: World)
    requires var c := w.loaded.GetOr(s.cfg); env.supported(c.provider) && NeedsIssue(env, s.files, c, w.now, w.unreadable).None?
    ensures var o := Next(env, s, w); !o.reloaded && !o.called && o.wait == CHECK_INTERVAL
  {
  }

  /** The long wait means nothing to do, or a whole group and a reload. */
  lemma LongWait(env: Env, s: State, w: World)
    requires w.loaded.GetOr(s.cfg).enabled && Next(env, s, w).wait == CHECK_INTERVAL
    ensures Acts(env, s, w) ==> Next(env, s, w).reloaded && !w.reloadFails
    ensures !Acts(env, s, w) ==> NeedsIssue(env, s.files, w.loaded.GetOr(s.cfg), w.now, w.unreadable).None?
  {
    StepFiles(env, s, w);
  }

  predicate SameAt(f: Files, g: Files, p: Path) {
    (p in f <==> p in g) && (p in f ==> f[p] == g[p])
  }

  /** The active files after a reconcile: key and certificate come from the last group that wrote
      them, the record from a whole group. */
  lemma ActiveFiles(env: Env, s: State, w: World)
    ensures var f := Next(env, s, w).state.files; var l := LandingOf(env, s, w); var c := w.loaded.GetOr(s.cfg);
            && (l.promoted == 3 || l.installed == 3 ==> CaFile in f && f[CaFile] == CaDirUrl(c))
            && (l.promoted != 3 && l.installed != 3 ==> SameAt(f, s.files, CaFile))
            && (l.installed > 0 ==> KeyFile in f && f[KeyFile] == w.obtained.value.key)
            && (l.installed == 0 && l.promoted > 0 ==> KeyFile in f && f[KeyFile] == HitOf(env, s, w).value.key)
            && (l.installed == 0 && l.promoted == 0 ==> SameAt(f, s.files, KeyFile))
  {
    StepFiles(env, s, w);
  }

  lemma ActiveCert(env: Env, s: State, w: World)
    ensures var f := Next(env, s, w).state.files; var l := LandingOf(env, s, w);
            && (l.installed > 1 ==> CertFile in f && f[CertFile] == w.obtained.value.cert)
            && (l.installed <= 1 && l.promoted > 1 ==> CertFile in f && f[CertFile] == HitOf(env, s, w).value.cert)
            && (l.installed <= 1 && l.promoted <= 1 ==> SameAt(f, s.files, CertFile))
            && (l.installed > 0 ==> IssueOf(env, s, w) == [Issue(SlugOf(env, w.loaded.GetOr(s.cfg)), w.obtained.value)])
  {
    StepFiles(env, s, w);
  }

  /** A pair the issuer gave out, and the authority that was configured. */
  datatype Issue = Issue(slug: string, pair: Pair)

  function IssueOf(env: Env, s: State, w: World): seq<Issue> {
    if Next(env, s, w).called && w.obtained.Some? then [Issue(SlugOf(env, w.loaded.GetOr(s.cfg)), w.obtained.value)] else []
  }

  lemma PromotedOnly(env: Env, s: State, w: World)
    requires LandingOf(env, s, w).promoted == 3
    ensures IssueOf(env, s, w) == []
    ensures var c := w.loaded.GetOr(s.cfg);
            && Cached(env, s.files, c, w.now, w.unreadable).Some?
            && Next(env, s, w).state.files == WroteActive(s.files, c, Cached(env, s.files, c, w.now, w.unreadable).value, 3)
  {
    StepFiles(env, s, w);
  }

  // ---- Failures that go unnoticed ----

  lemma Ages(c: Cert, now: int, later: int)
    requires now <= later
    ensures Remaining(c, later) <= Remaining(c, now)
  {
  }

  /** While certificate and record stay, a need stays. */
  lemma NeedStays(env: Env, f: Files, g: Files, c: Config, now: int, later: int)
    requires NeedsIssue(env, f, c, now, {}).Some? && now <= later
    requires forall p :: p in [CertFile, CaFile] ==> (p in g <==> p in f) && (p in g ==> g[p] == f[p])
    ensures NeedsIssue(env, g, c, later, {}).Some?
  {
    if CertFile in f && env.decode(f[CertFile]).Parsed? { Ages(env.decode(f[CertFile]).cert, now, later); }
  }

  /** While the configuration stays the same and files can be read, a check satisfied after a
      reconcile that acted finds the cached pair or the new one in use, unless promoting failed at
      the record and installing then failed at the certificate. */
  lemma SatisfiedPair(env: Env, s: State, w: World, later: int)
    requires Acts(env, s, w) && w.unreadable == {} && w.now <= later
    requires NeedsIssue(env, Next(env, s, w).state.files, w.loaded.GetOr(s.cfg), later, {}).None?
    requires w.obtained.Some? && HitOf(env, s, w).Some? ==>
               w.obtained.value.cert != HitOf(env, s, w).value.cert && w.obtained.value.key != HitOf(env, s, w).value.key
    ensures var f := Next(env, s, w).state.files;
            CertFile in f && KeyFile in f && CaFile in f && f[CaFile] == CaDirUrl(w.loaded.GetOr(s.cfg)) &&
            (Some(Pair(f[CertFile], f[KeyFile])) in {HitOf(env, s, w), w.obtained} <==>
               !(HitOf(env, s, w).Some? && ActiveCount(w.promoting) == 2 && w.obtained.Some? && ActiveCount(w.installing) == 1))
  {
    var c, l := w.loaded.GetOr(s.cfg), LandingOf(env, s, w);
    ActiveFiles(env, s, w);
    ActiveCert(env, s, w);
    if l.promoted <= 1 && l.installed <= 1 { NeedStays(env, s.files, Next(env, s, w).state.files, c, w.now, later); }
  }

  /** With no certificate in place, the record right and a good pair cached, those two failures in
      one reconcile leave the cached certificate with the new key, and the check satisfied. */
  lemma MixedUnderOneConfig(env: Env, s: State, w: World)
    requires s.cfg.enabled && env.supported(s.cfg.provider) && w.loaded.None? && w.unreadable == {}
    requires CertFile !in s.files && CaFile in s.files && s.files[CaFile] == CaDirUrl(s.cfg)
    requires CacheCert(SlugOf(env, s.cfg)) in s.files && CacheKey(SlugOf(env, s.cfg)) in s.files
    requires Good(env, s.files[CacheCert(SlugOf(env, s.cfg))], s.cfg, w.now) && w.obtained.Some?
    requires w.promoting == Faults(false, {CaFile}) && w.installing == Faults(false, {CertFile})
    ensures var o := Next(env, s, w);
            && o.called && o.wait == RETRY_INTERVAL
            && NeedsIssue(env, o.state.files, s.cfg, w.now, {}).None?
            && ActiveIs(o.state.files, Pair(s.files[CacheCert(SlugOf(env, s.cfg))], w.obtained.value.key))
  {
    StepFiles(env, s, w);
    assert HitOf(env, s, w).Some?;
  }

  /** A slot left with the old certificate and the new key is promoted when the domain flips back,
      and the check is satisfied: for every such input, both reconciles ask for the long wait, and
      every write to the active files lands. */
  lemma MixedSlotIsPromoted(env: Env, s: State, b: Config, w: World, back: World)
    requires s.cfg.enabled && env.supported(s.cfg.provider) && b.enabled && env.supported(b.provider)
    requires SlugOf(env, s.cfg) == SlugOf(env, b) && w.loaded == Some(b) && back.loaded == Some(s.cfg)
    requires w.unreadable == {} && w.installing == NoFaults() && w.caching == Faults(false, {CacheCert(SlugOf(env, b))})
    requires back.unreadable == {} && back.promoting == NoFaults() && !w.reloadFails && !back.reloadFails
    requires w.obtained.Some? && Good(env, w.obtained.value.cert, b, w.now)
    requires !CoversDomain(env.decode(w.obtained.value.cert).cert, s.cfg.domain)
    requires CertFile in s.files && CacheCert(SlugOf(env, b)) in s.files && CacheKey(SlugOf(env, b)) in s.files
    requires s.files[CertFile] == s.files[CacheCert(SlugOf(env, b))]
    requires Good(env, s.files[CertFile], s.cfg, back.now) && !CoversDomain(env.decode(s.files[CertFile]).cert, b.domain)
    ensures var o1 := Next(env, s, w); var o2 := Next(env, o1.state, back);
            && o1.called && o1.wait == CHECK_INTERVAL && !o2.called && o2.wait == CHECK_INTERVAL
            && NeedsIssue(env, o1.state.files, b, w.now, {}).None?
            && NeedsIssue(env, o2.state.files, s.cfg, back.now, {}).None?
            && ActiveIs(o2.state.files, Pair(s.files[CertFile], w.obtained.value.key))
  {
    StepFiles(env, s, w);
    assert HitOf(env, s, w).None? && Acts(env, s, w);
    var t := Next(env, s, w).state;
    MixedPromotion(env, t, s.cfg, back, s.files[CertFile], w.obtained.value.key);
  }

  lemma MixedPromotion(env: Env, s: State, c: Config, w: World, cert: string, key: string)
    requires c.enabled && env.supported(c.provider) && w.loaded == Some(c) && w.promoting == NoFaults() && !w.reloadFails
    requires CacheCert(SlugOf(env, c)) !in w.unreadable && CacheKey(SlugOf(env, c)) !in w.unreadable
    requires CacheIs(s.files, SlugOf(env, c), Pair(cert, key)) && Good(env, cert, c, w.now)
    requires NeedsIssue(env, s.files, c, w.now, w.unreadable).Some?
    ensures var o := Next(env, s, w);
            && !o.called && o.wait == CHECK_INTERVAL && IssueOf(env, s, w) == []
            && NeedsIssue(env, o.state.files, c, w.now, {}).None? && ActiveIs(o.state.files, Pair(cert, key))
  {
    StepFiles(env, s, w);
    assert HitOf(env, s, w) == Some(Pair(cert, key));
    ActiveLanded(s.files, c, Pair(cert, key), w.promoting);
  }

  /** Flipping the authority back can hide one: with the certificate or the record not written, the
      next reconcile under the old configuration is satisfied and does nothing, while the key, or
      the whole pair, in use is the other authority's. */
  lemma FlipBackHidesFailure(env: Env, s: State, w: World, back: World)
    requires s.cfg.enabled && env.supported(s.cfg.provider) && w.unreadable == {} && back.unreadable == {}
    requires NeedsIssue(env, s.files, s.cfg, back.now, {}).None?
    requires w.loaded.Some? && back.loaded == Some(s.cfg) && CaDirUrl(w.loaded.value) != CaDirUrl(s.cfg)
    requires w.loaded.value.enabled && env.supported(w.loaded.value.provider)
    requires Cached(env, s.files, w.loaded.value, w.now, {}).None? && w.obtained.Some?
    requires w.installing == Faults(false, {CertFile})
             || (w.installing == Faults(false, {CaFile}) && Good(env, w.obtained.value.cert, s.cfg, back.now))
    ensures var o := Next(env, Next(env, s, w).state, back);
            && o.wait == CHECK_INTERVAL && !o.called && !o.reloaded
            && KeyFile in o.state.files && o.state.files[KeyFile] == w.obtained.value.key
            && CertFile in o.state.files && CaFile in o.state.files && o.state.files[CaFile] == CaDirUrl(s.cfg)
            && o.state.files[CertFile] == if CertFile in w.installing.paths then s.files[CertFile] else w.obtained.value.cert
  {
    var c := w.loaded.value;
    ActiveLanded(s.files, c, w.obtained.value, w.installing);
    assert NeedsIssue(env, s.files, c, w.now, {}).Some?;
    assert Next(env, s, w) == Issued(env, State(c, s.files), w);
  }
}
