/**
 Where an app's script comes from, resolved one app at a time or through a per-run cache
 (src/lib/app-source.ts).

 GitHub's answers are a fixed function of the request.  Here a call runs to its end before the next
 one; a promise stands for what it settles to.  Calls that overlap are in ResolverRuns.
 */
module AppSource {
  import opened Wrappers
  import opened Text

  // ---- What is configured, and what GitHub says ----

  datatype Repo = Repo(owner: string, name: string)

  /** The two related settings; the repository is given split at its one slash. */
  datatype Settings = Settings(repo: Option<Repo>, branch: Option<string>)

  datatype Source = Source(repo: Repo, branch: string)

  datatype Error = RepoNotSet | BranchNotSet | Failure(message: string)

  datatype Comparison = Comparison(mergeBase: string, behindBy: nat, changedSlugs: set<string>)

  datatype Presence = Present | Absent | Unknown

  /** A script's body, known to be missing, or not readable. */
  datatype Script = Body(text: string) | Missing | Unreadable

  datatype Upstream = Stable | Dev

  datatype World = World(
    headSha: Source -> Result<string, Error>,
    compare: (Source, string) -> Result<Comparison, Error>,
    probe: (Upstream, string) -> Presence,
    upstreamScript: (string, string) -> Script,
    forkScript: (Source, string, string) -> Result<bool, Error>)

  datatype AppSource =
    | Url
    | FromUpstream(slug: string)
    | FromFork(slug: string, source: Source, sha: string, mergeBase: string, shadows: seq<Upstream>, changed: bool,
        conflict: bool)

  /** customScriptSource: the two settings are set together or not at all. */
  function CustomSource(s: Settings): Result<Option<Source>, Error> {
    var branch := if s.branch == Some("") then None else s.branch;
    if s.repo.None? && branch.None? then Ok(None)
    else if branch.None? then Err(BranchNotSet)
    else if s.repo.None? then Err(RepoNotSet)
    else Ok(Some(Source(s.repo.value, branch.value)))
  }

  // ---- The apps a branch changes ----

  datatype ChangedFile = ChangedFile(name: string, removed: bool)

  /** What stands between prefix and suffix, if it is one non-empty path segment. */
  function Between(path: string, prefix: string, suffix: string): Option<string> {
    if |path| > |prefix| + |suffix| && path[..|prefix|] == prefix && path[|path| - |suffix|..] == suffix
       && '/' !in path[|prefix|..|path| - |suffix|]
    then Some(path[|prefix|..|path| - |suffix|])
    else None
  }

  function SlugOf(path: string): Option<string> {
    match Between(path, "ct/", ".sh")
    case Some(slug) => Some(slug)
    case None => Between(path, "install/", "-install.sh")
  }

  lemma BetweenExactlyWhen(path: string, prefix: string, suffix: string, slug: string)
    ensures Between(path, prefix, suffix) == Some(slug) <==>
            slug != "" && '/' !in slug && path == prefix + slug + suffix
  {
    if slug != "" && '/' !in slug && path == prefix + slug + suffix {
      assert path[..|prefix|] == prefix;
      assert path[|path| - |suffix|..] == suffix;
      assert path[|prefix|..|path| - |suffix|] == slug;
    }
    if Between(path, prefix, suffix) == Some(slug) {
      assert path == path[..|prefix|] + path[|prefix|..|path| - |suffix|] + path[|path| - |suffix|..];
    }
  }

  /** A path names an app exactly when it is the app's container script or its install script. */
  lemma SlugOfExactlyWhen(path: string, slug: string)
    ensures SlugOf(path) == Some(slug) <==>
            slug != "" && '/' !in slug && (path == "ct/" + slug + ".sh" || path == "install/" + slug + "-install.sh")
  {
    BetweenExactlyWhen(path, "ct/", ".sh", slug);
    BetweenExactlyWhen(path, "install/", "-install.sh", slug);
    var ct := Between(path, "ct/", ".sh");
    if ct.Some? {
      BetweenExactlyWhen(path, "ct/", ".sh", ct.value);
      assert path[0] == 'c';
      assert ("install/" + slug + "-install.sh")[0] == 'i';
    }
  }

  /** changedSlugsFromFiles. */
  method ChangedSlugs(files: seq<ChangedFile>) returns (slugs: set<string>)
    ensures forall slug :: slug in slugs <==>
            exists i :: 0 <= i < |files| && !files[i].removed && SlugOf(files[i].name) == Some(slug)
  {
    slugs := {};
    for i := 0 to |files|
      invariant forall slug :: slug in slugs <==>
              exists k :: 0 <= k < i && !files[k].removed && SlugOf(files[k].name) == Some(slug)
    {
      if files[i].removed { continue; }
      var slug := SlugOf(files[i].name);
      if slug.Some? { slugs := slugs + {slug.value}; }
    }
  }

  // ---- Resolving one app ----

  /** detectConflict: upstream also changed one of the app's two scripts since the branch point. */
  function Conflict(slug: string, c: Comparison, w: World): bool {
    if c.behindBy == 0 then false
    else
      var ct, install := "ct/" + slug + ".sh", "install/" + slug + "-install.sh";
      var ctThen, ctNow := w.upstreamScript(c.mergeBase, ct), w.upstreamScript("main", ct);
      var installThen, installNow := w.upstreamScript(c.mergeBase, install), w.upstreamScript("main", install);
      if ctThen.Unreadable? || ctNow.Unreadable? || installThen.Unreadable? || installNow.Unreadable? then false
      else ctThen != ctNow || installThen != installNow
  }

  function Shadows(slug: string, w: World): seq<Upstream> {
    (if w.probe(Stable, slug) == Present then [Stable] else []) + (if w.probe(Dev, slug) == Present then [Dev] else [])
  }

  /** resolveCustomSlug. */
  function ResolveSlug(slug: string, source: Source, sha: string, c: Comparison, w: World): Result<AppSource, Error> {
    if slug in c.changedSlugs
        then Ok(FromFork(slug, source, sha, c.mergeBase, Shadows(slug, w), true, Conflict(slug, c, w)))
    else if w.probe(Stable, slug) != Absent || w.probe(Dev, slug) != Absent then Ok(FromUpstream(slug))
    else
      match w.forkScript(source, sha, slug)
      case Err(e) => Err(e)
      case Ok(found) => Ok(if found then FromFork(slug, source, sha, c.mergeBase, [], false, false)
          else FromUpstream(slug))
  }

  predicate IsUrl(app: string) {
    exists i | 0 <= i <= |app| - 3 :: app[i] == ':' && app[i + 1] == '/' && app[i + 2] == '/'
  }

  datatype BranchState = BranchState(sha: string, comparison: Comparison)

  /** The two rate-limited requests: pin the branch, then compare it. */
  function Pinned(source: Source, w: World): Result<BranchState, Error> {
    match w.headSha(source)
    case Err(e) => Err(e)
    case Ok(sha) => match w.compare(source, sha) case Err(e) => Err(e) case Ok(c) => Ok(BranchState(sha, c))
  }

  /** resolveAppSource; `lower` is JavaScript's toLowerCase. */
  function Resolve(app: string, s: Settings, lower: string -> string, w: World): Result<AppSource, Error> {
    if IsUrl(app) then Ok(Url)
    else
      match CustomSource(s)
      case Err(e) => Err(e)
      case Ok(None) => Ok(FromUpstream(lower(app)))
      case Ok(Some(source)) =>
        match Pinned(source, w)
        case Err(e) => Err(e)
        case Ok(b) => ResolveSlug(lower(app), source, b.sha, b.comparison, w)
  }

  // ---- The per-run resolver ----

  /** Apps whose resolution needs the branch. */
  predicate NeedsBranch(app: string, s: Settings) {
    !IsUrl(app) && CustomSource(s).Ok? && CustomSource(s).value.Some?
  }

  function BranchOf(s: Settings, w: World): Result<BranchState, Error>
    requires CustomSource(s).Ok? && CustomSource(s).value.Some?
  {
    Pinned(CustomSource(s).value.value, w)
  }

  /** Apps whose scripts are looked up: those that need the branch, if it can be had. */
  predicate NeedsLookup(app: string, s: Settings, w: World) {
    NeedsBranch(app, s) && BranchOf(s, w).Ok?
  }

  function LookedUp(apps: set<string>, s: Settings, w: World): set<string> {
    set app | app in apps && NeedsLookup(app, s, w)
  }

  lemma OneMoreLookup(apps: set<string>, app: string, s: Settings, w: World)
    requires app !in apps
    ensures |LookedUp(apps + {app}, s, w)| == |LookedUp(apps, s, w)| + if NeedsLookup(app, s, w) then 1 else 0
  {
    assert LookedUp(apps + {app}, s, w) == LookedUp(apps, s, w) + if NeedsLookup(app, s, w) then {app} else {};
  }

  /** createAppSourceResolver, with counters of the requests it makes. */
  class Resolver {
    const settings: Settings
    const lower: string -> string
    const world: World
    var branchState: Option<Result<BranchState, Error>>
    var cache: map<string, Result<AppSource, Error>>
    var headRequests: nat
    var compareRequests: nat
    var slugResolutions: nat

    constructor (settings: Settings, lower: string -> string, world: World)
      ensures Valid() && cache == map[]
      ensures this.settings == settings && this.lower == lower && this.world == world
    {
      this.settings, this.lower, this.world := settings, lower, world;
      branchState, cache := None, map[];
      headRequests, compareRequests, slugResolutions := 0, 0, 0;
    }

    /** What is held is what a resolution from scratch gives. */
    ghost predicate AnswersHold()
      reads this
    {
      forall app :: app in cache ==> cache[app] == Resolve(app, settings, lower, world)
    }

    /** The branch was asked for at most once, and then only to be held. */
    ghost predicate BranchHolds()
      reads this
    {
      && (branchState.Some? ==>
          CustomSource(settings).Ok? && CustomSource(settings).value.Some?
          && branchState.value == BranchOf(settings, world))
      && headRequests == (if branchState.Some? then 1 else 0)
      && compareRequests == (if branchState.Some? && world.headSha(CustomSource(settings).value.value).Ok? then 1
          else 0)
    }

    ghost predicate Valid()
      reads this
    {
      && AnswersHold() && BranchHolds()
      && (branchState.Some? <==> exists app :: app in cache.Keys && NeedsBranch(app, settings))
      && slugResolutions == |LookedUp(cache.Keys, settings, world)|
    }

    /** The closure the resolver returns. */
    method Lookup(app: string) returns (r: Result<AppSource, Error>)
      requires Valid()
      modifies this
      ensures Valid() && cache.Keys == old(cache.Keys) + {app}
      ensures r == Resolve(app, settings, lower, world)
      ensures app in old(cache) ==> headRequests == old(headRequests) && compareRequests == old(compareRequests)
                                    && slugResolutions == old(slugResolutions)
    {
      if app in cache {
        assert cache.Keys == cache.Keys + {app};
        return cache[app];
      }
      OneMoreLookup(cache.Keys, app, settings, world);
      r := ResolveOne(app);
      ghost var keys := cache.Keys;
      cache := cache[app := r];
      assert cache.Keys == keys + {app};
    }

    /** resolveOne: pins and compares unless a call before it did. */
    method ResolveOne(app: string) returns (r: Result<AppSource, Error>)
      requires BranchHolds() && app !in cache
      modifies this
      ensures r == Resolve(app, settings, lower, world) && cache == old(cache) && BranchHolds()
      ensures branchState.Some? <==> old(branchState).Some? || NeedsBranch(app, settings)
      ensures slugResolutions == old(slugResolutions) + if NeedsLookup(app, settings, world) then 1 else 0
    {
      if IsUrl(app) { return Ok(Url); }
      var custom := CustomSource(settings);
      if custom.Err? { return Err(custom.error); }
      if custom.value.None? { return Ok(FromUpstream(lower(app))); }
      var source := custom.value.value;
      if branchState.None? {
        var state := PinAndCompare(source);
        branchState := Some(state);
      }
      match branchState.value {
        case Err(e) =>
          return Err(e);
        case Ok(b) =>
          slugResolutions := slugResolutions + 1;
          return ResolveSlug(lower(app), source, b.sha, b.comparison, world);
      }
    }

    method PinAndCompare(source: Source) returns (r: Result<BranchState, Error>)
      modifies this`headRequests, this`compareRequests
      ensures r == Pinned(source, world) && headRequests == old(headRequests) + 1
      ensures compareRequests == old(compareRequests) + if world.headSha(source).Ok? then 1 else 0
    {
      headRequests := headRequests + 1;
      var sha := world.headSha(source);
      if sha.Err? { return Err(sha.error); }
      compareRequests := compareRequests + 1;
      var c := world.compare(source, sha.value);
      if c.Err? { return Err(c.error); }
      return Ok(BranchState(sha.value, c.value));
    }
  }

  /**
   Any sequence of calls: each is answered as if on its own, with one pin and one comparison in all
   and one lookup of scripts per distinct app.
   */
  method ResolveAll(apps: seq<string>, settings: Settings, lower: string -> string, world: World)
    returns (results: seq<Result<AppSource, Error>>, heads: nat, compares: nat, lookups: nat)
    ensures |results| == |apps| && forall i ::
            0 <= i < |apps| ==> results[i] == Resolve(apps[i], settings, lower, world)
    ensures heads <= 1 && compares <= 1
    ensures heads == 1 <==> exists i :: 0 <= i < |apps| && NeedsBranch(apps[i], settings)
    ensures lookups == |LookedUp((set app | app in apps), settings, world)|
  {
    var resolver := new Resolver(settings, lower, world);
    results := [];
    for i := 0 to |apps|
      invariant resolver.Valid() && fresh(resolver)
      invariant resolver.settings == settings && resolver.lower == lower && resolver.world == world
      invariant |results| == i && forall k :: 0 <= k < i ==> results[k] == Resolve(apps[k], settings, lower, world)
      invariant resolver.cache.Keys == set k | 0 <= k < i :: apps[k]
    {
      var r := resolver.Lookup(apps[i]);
      results := results + [r];
    }
    assert resolver.cache.Keys == set app | app in apps;
    assert forall i :: 0 <= i < |apps| ==> apps[i] in resolver.cache.Keys;
    return results, resolver.headRequests, resolver.compareRequests, resolver.slugResolutions;
  }

  // ---- What the resolution promises ----

  lemma IsUrlExactlyWhen(app: string)
    ensures IsUrl(app) <==> exists head, tail :: app == head + "://" + tail
  {
    if i :| 0 <= i <= |app| - 3 && app[i] == ':' && app[i + 1] == '/' && app[i + 2] == '/' {
      assert app == app[..i] + "://" + app[i + 3..];
    }
    if head, tail :| app == head + "://" + tail {
      assert app[|head|] == ':' && app[|head| + 1] == '/' && app[|head| + 2] == '/';
    }
  }

  /** An app is a URL of its own exactly when it contains "://"; nothing is asked for it. */
  lemma UrlsStandForThemselves(app: string, s: Settings, lower: string -> string, w: World)
    ensures Resolve(app, s, lower, w) == Ok(Url) <==> exists head, tail :: app == head + "://" + tail
  {
    IsUrlExactlyWhen(app);
  }

  /** A setting that is there and not blank. */
  predicate BranchIsSet(s: Settings) {
    s.branch.Some? && s.branch.value != ""
  }

  /** Any other app comes from upstream without a custom repository, and from nowhere with half of one. */
  lemma WithoutACustomRepository(app: string, s: Settings, lower: string -> string, w: World)
    requires forall head, tail :: app != head + "://" + tail
    ensures s.repo.None? && !BranchIsSet(s) ==> Resolve(app, s, lower, w) == Ok(FromUpstream(lower(app)))
    ensures s.repo.Some? && !BranchIsSet(s) ==> Resolve(app, s, lower, w) == Err(BranchNotSet)
    ensures s.repo.None? && BranchIsSet(s) ==> Resolve(app, s, lower, w) == Err(RepoNotSet)
  {
    IsUrlExactlyWhen(app);
  }

  /**
   With both set, a failing pin or comparison is the answer, and else the lookup decides between fork and
   upstream.
   */
  lemma WithACustomRepository(app: string, s: Settings, lower: string -> string, w: World)
    requires s.repo.Some? && BranchIsSet(s) && forall head, tail :: app != head + "://" + tail
    ensures var source, r := Source(s.repo.value, s.branch.value), Resolve(app, s, lower, w);
            && (w.headSha(source).Err? ==> r == Err(w.headSha(source).error))
            && (w.headSha(source).Ok? && w.compare(source, w.headSha(source).value).Err? ==>
                  r == Err(w.compare(source, w.headSha(source).value).error))
            && (w.headSha(source).Ok? && w.compare(source, w.headSha(source).value).Ok? ==>
                  && NeedsLookup(app, s, w)
                  && BranchOf(s, w) == Ok(BranchState(w.headSha(source).value,
                      w.compare(source, w.headSha(source).value).value))
                  && (r.Ok? && !r.value.FromFork? ==> r == Ok(FromUpstream(lower(app)))))
  {
    IsUrlExactlyWhen(app);
  }

  /** Two of upstream's four scripts of an app differ between the branch point and now, and all four can be read. */
  predicate UpstreamMoved(slug: string, mergeBase: string, w: World) {
    var ct, install := "ct/" + slug + ".sh", "install/" + slug + "-install.sh";
    var ctThen, ctNow := w.upstreamScript(mergeBase, ct), w.upstreamScript("main", ct);
    var installThen, installNow := w.upstreamScript(mergeBase, install), w.upstreamScript("main", install);
    && ctThen != Unreadable && ctNow != Unreadable && installThen != Unreadable && installNow != Unreadable
    && !(ctThen == ctNow && installThen == installNow)
  }

  /**
   The fork is used exactly for apps the branch changes, and for apps both upstreams surely lack and
   the fork has; then at the pinned commit, naming as shadowed the upstreams that have a changed app.
   */
  lemma ForkIsUsedExactlyWhen(app: string, s: Settings, lower: string -> string, w: World)
    requires NeedsLookup(app, s, w)
    ensures var source, b, slug := CustomSource(s).value.value, BranchOf(s, w).value, lower(app);
            var r := Resolve(app, s, lower, w);
            var changed := slug in b.comparison.changedSlugs;
            && (r.Ok? && r.value.FromFork? <==>
                  changed || (w.probe(Stable, slug) == w.probe(Dev, slug) == Absent
                      && w.forkScript(source, b.sha, slug) == Ok(true)))
            && (r.Ok? && r.value.FromFork? ==>
                  && r.value.source == source && Ok(r.value.sha) == w.headSha(source)
                      && r.value.mergeBase == b.comparison.mergeBase
                  && r.value.slug == slug && r.value.changed == changed
                  && (forall u :: u in r.value.shadows <==> changed && w.probe(u, slug) == Present)
                  && |r.value.shadows| <= 2 && (|r.value.shadows| == 2 ==> r.value.shadows == [Stable, Dev])
                  && (r.value.conflict <==>
                        changed && b.comparison.behindBy > 0 && UpstreamMoved(slug, b.comparison.mergeBase, w)))
            && (r.Err? ==> w.forkScript(source, b.sha, slug) == Err(r.error))
  {
    forall u: Upstream ensures u in Shadows(lower(app), w) <==> w.probe(u, lower(app)) == Present {
      assert u == Stable || u == Dev;
    }
  }
}
