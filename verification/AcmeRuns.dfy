/** Certificate upkeep over whole runs: who is asked, and how often. */
module AcmeRuns {
  import opened Common
  import opened Acme

  function After(env: Env, s: State, ws: seq<World>): State {
    if ws == [] then s else Next(env, After(env, s, ws[..|ws| - 1]), ws[|ws| - 1]).state
  }

  /** The configuration the i-th reconcile decides by. */
  function ConfigAt(env: Env, s: State, ws: seq<World>, i: nat): Config
    requires i < |ws|
  {
    ws[i].loaded.GetOr(After(env, s, ws[..i]).cfg)
  }

  function SlugAt(env: Env, s: State, ws: seq<World>, i: nat): string
    requires i < |ws|
  {
    SlugOf(env, ConfigAt(env, s, ws, i))
  }

  predicate CalledAt(env: Env, s: State, ws: seq<World>, i: nat)
    requires i < |ws|
  {
    Next(env, After(env, s, ws[..i]), ws[i]).called
  }

  /** Everything issued in a run, oldest first. */
  function Issues(env: Env, s: State, ws: seq<World>): seq<Issue> {
    if ws == [] then []
    else Issues(env, s, ws[..|ws| - 1]) + IssueOf(env, After(env, s, ws[..|ws| - 1]), ws[|ws| - 1])
  }

  ghost predicate AllWork(ws: seq<World>) {
    forall i :: 0 <= i < |ws| ==> FilesWork(ws[i])
  }

  /** No certificate obtained in the run stops covering the domain or comes due for renewal while
      the authority it is from is configured. */
  ghost predicate Lasting(env: Env, s: State, ws: seq<World>) {
    forall j, x :: 0 <= j < |ws| && x in Issues(env, s, ws[..j]) && x.slug == SlugAt(env, s, ws, j)
      ==> Usable(env, x.pair.cert, ConfigAt(env, s, ws, j), ws[j].now)
  }

  /** Every certificate asked for in the run was given and passes the check. */
  ghost predicate GoodIssues(env: Env, s: State, ws: seq<World>) {
    forall i :: 0 <= i < |ws| && CalledAt(env, s, ws, i) ==>
      ws[i].obtained.Some? && Good(env, ws[i].obtained.value.cert, ConfigAt(env, s, ws, i), ws[i].now)
  }

  predicate FirstStart(s: State) {
    CaFile !in s.files && forall p :: p in s.files ==> !p.CacheCert?
  }

  lemma Prefixes(ws: seq<World>, j: nat)
    requires j < |ws|
    ensures ws[..j + 1][..j] == ws[..j] && ws[..j + 1][j] == ws[j]
  {
  }

  lemma IssuesGrow(env: Env, s: State, ws: seq<World>, n: nat)
    requires n < |ws|
    ensures Issues(env, s, ws[..n + 1]) == Issues(env, s, ws[..n]) + IssueOf(env, After(env, s, ws[..n]), ws[n])
  {
    Prefixes(ws, n);
  }

  // ---- Once per authority ----

  /** The slot of every authority that has issued holds a pair it issued. */
  ghost predicate SlotsFilled(f: Files, log: seq<Issue>) {
    forall x :: x in log ==> FilledFor(f, log, x.slug)
  }

  ghost predicate FilledFor(f: Files, log: seq<Issue>, slug: string) {
    exists p :: CacheIs(f, slug, p) && Issue(slug, p) in log
  }

  lemma FilledStep(env: Env, s: State, w: World, log: seq<Issue>, slug: string)
    requires FilesWork(w) && (FilledFor(s.files, log, slug) || slug in (set x | x in IssueOf(env, s, w) :: x.slug))
    ensures FilledFor(Next(env, s, w).state.files, log + IssueOf(env, s, w), slug)
  {
    WorkingStep(env, s, w);
    var f := Next(env, s, w).state.files;
    if IssueOf(env, s, w) != [] && slug == IssueOf(env, s, w)[0].slug {
      assert CacheIs(f, slug, w.obtained.value);
    } else {
      var p :| CacheIs(s.files, slug, p) && Issue(slug, p) in log;
      assert CacheIs(f, slug, p);
    }
  }

  /** Once an authority has issued, its slot holds a pair it issued for the rest of the run. */
  lemma {:induction false} SlotsStayFilled(env: Env, s: State, ws: seq<World>)
    requires AllWork(ws)
    ensures SlotsFilled(After(env, s, ws).files, Issues(env, s, ws))
  {
    if ws != [] {
      var front, w := ws[..|ws| - 1], ws[|ws| - 1];
      SlotsStayFilled(env, s, front);
      forall x | x in Issues(env, s, ws) ensures FilledFor(After(env, s, ws).files, Issues(env, s, ws), x.slug) {
        FilledStep(env, After(env, s, front), w, Issues(env, s, front), x.slug);
      }
    }
  }

  /** However the configured authority is flipped back and forth, the issuer is never asked again
      for an authority that has already issued in the run. */
  lemma IssuedOncePerAuthority(env: Env, s: State, ws: seq<World>, j: nat, x: Issue)
    requires AllWork(ws) && Lasting(env, s, ws)
    requires j < |ws| && x in Issues(env, s, ws[..j]) && x.slug == SlugAt(env, s, ws, j)
    ensures !CalledAt(env, s, ws, j)
  {
    SlotsStayFilled(env, s, ws[..j]);
    var before := After(env, s, ws[..j]);
    assert FilledFor(before.files, Issues(env, s, ws[..j]), x.slug);
    WorkingStep(env, before, ws[j]);
  }

  lemma NewAuthority(env: Env, s: State, ws: seq<World>, n: nat, x: Issue, y: Issue)
    requires AllWork(ws) && Lasting(env, s, ws) && n < |ws|
    requires x in Issues(env, s, ws[..n]) && y in IssueOf(env, After(env, s, ws[..n]), ws[n])
    ensures x.slug != y.slug
  {
    if x.slug == y.slug { IssuedOncePerAuthority(env, s, ws, n, x); }
  }

  lemma ManyNew(env: Env, s: State, ws: seq<World>, n: nat)
    requires AllWork(ws) && Lasting(env, s, ws) && n < |ws|
    ensures Apart(Issues(env, s, ws[..n]), IssueOf(env, After(env, s, ws[..n]), ws[n]))
  {
    forall x, y | x in Issues(env, s, ws[..n]) && y in IssueOf(env, After(env, s, ws[..n]), ws[n]) ensures x.slug != y.slug {
      NewAuthority(env, s, ws, n, x, y);
    }
  }

  predicate Apart(log: seq<Issue>, more: seq<Issue>) {
    |more| <= 1 && forall x, y :: x in log && y in more ==> x.slug != y.slug
  }

  predicate DistinctSlugs(log: seq<Issue>) {
    forall i, k :: 0 <= i < k < |log| ==> log[i].slug != log[k].slug
  }

  /** So the issues of a run are all from different authorities. */
  lemma {:induction false} DistinctAuthorities(env: Env, s: State, ws: seq<World>, n: nat)
    requires AllWork(ws) && Lasting(env, s, ws) && n <= |ws|
    ensures DistinctSlugs(Issues(env, s, ws[..n]))
  {
    if n > 0 {
      DistinctAuthorities(env, s, ws, n - 1);
      ManyNew(env, s, ws, n - 1);
      OneMoreDistinct(env, s, ws, n - 1);
    }
  }

  lemma OneMoreDistinct(env: Env, s: State, ws: seq<World>, n: nat)
    requires n < |ws| && DistinctSlugs(Issues(env, s, ws[..n]))
    requires Apart(Issues(env, s, ws[..n]), IssueOf(env, After(env, s, ws[..n]), ws[n]))
    ensures DistinctSlugs(Issues(env, s, ws[..n + 1]))
  {
    IssuesGrow(env, s, ws, n);
    DistinctGrow(Issues(env, s, ws[..n]), IssueOf(env, After(env, s, ws[..n]), ws[n]));
  }

  lemma DistinctGrow(log: seq<Issue>, more: seq<Issue>)
    requires DistinctSlugs(log) && Apart(log, more)
    ensures DistinctSlugs(log + more)
  {
  }
}
