/**
 Calls of one resolver that overlap, as those of the app-update check do (createAppSourceResolver in
 src/lib/app-source.ts).

 A step is the stretch of code between two awaits: a call up to its first await, an answer from GitHub,
 or a waiting call going on once the shared branch promise has settled.  Answers come in any order.
 */
module ResolverRuns {
  import opened Wrappers
  import opened Ordering
  import opened AppSource

  /** What is fixed over a run. */
  datatype Setup = Setup(settings: Settings, lower: string -> string, world: World) {
    function Answer(app: string): Result<AppSource, Error> {
      Resolve(app, settings, lower, world)
    }
  }

  datatype Branch = NotAsked | Pinning(source: Source) | Comparing(source: Source,
      sha: string) | Had(state: Result<BranchState, Error>)

  datatype Promise = WaitsForBranch(source: Source) | ReadsScripts(source: Source,
      branch: BranchState) | Settled(result: Result<AppSource, Error>)

  /** The two rate-limited requests, and the reads of one app's scripts. */
  datatype Request = PinBranch | CompareBranch | ReadScripts(app: string)

  datatype State = State(branch: Branch, cache: map<string, Promise>, requests: seq<Request>)

  const START := State(NotAsked, map[], [])

  datatype Event =
    | Call(app: string)
    | PinAnswered
    | CompareAnswered
    | GoesOn(app: string)
    | ScriptsAnswered(app: string)

  function Requesting(s: State, r: Request): State {
    s.(requests := s.requests + [r])
  }

  function Holding(s: State, app: string, p: Promise): State {
    s.(cache := s.cache[app := p])
  }

  predicate Enabled(s: State, e: Event) {
    match e
    case Call(_) => true
    case PinAnswered => s.branch.Pinning?
    case CompareAnswered => s.branch.Comparing?
    case GoesOn(app) => s.branch.Had? && app in s.cache && s.cache[app].WaitsForBranch?
    case ScriptsAnswered(app) => app in s.cache && s.cache[app].ReadsScripts?
  }

  /** A call of an app that is not in the cache, up to its first await. */
  function AfterCall(s: State, app: string, u: Setup): State {
    if IsUrl(app) then Holding(s, app, Settled(Ok(Url)))
    else
      match CustomSource(u.settings)
      case Err(error) => Holding(s, app, Settled(Err(error)))
      case Ok(None) => Holding(s, app, Settled(Ok(FromUpstream(u.lower(app)))))
      case Ok(Some(source)) =>
        Holding(if s.branch.NotAsked? then Requesting(s.(branch := Pinning(source)), PinBranch) else s, app,
            WaitsForBranch(source))
  }

  function AfterPin(s: State, source: Source, u: Setup): State {
    match u.world.headSha(source)
    case Err(error) => s.(branch := Had(Err(error)))
    case Ok(sha) => Requesting(s.(branch := Comparing(source, sha)), CompareBranch)
  }

  function AfterCompare(s: State, source: Source, sha: string, u: Setup): State {
    match u.world.compare(source, sha)
    case Err(error) => s.(branch := Had(Err(error)))
    case Ok(c) => s.(branch := Had(Ok(BranchState(sha, c))))
  }

  /** A call waiting for the branch, once that has settled. */
  function AfterWait(s: State, app: string, source: Source, branch: Result<BranchState, Error>): State {
    match branch
    case Err(error) => Holding(s, app, Settled(Err(error)))
    case Ok(b) => Requesting(Holding(s, app, ReadsScripts(source, b)), ReadScripts(app))
  }

  function Apply(s: State, e: Event, u: Setup): State
    requires Enabled(s, e)
  {
    match e
    case Call(app) => if app in s.cache then s else AfterCall(s, app, u)
    case PinAnswered => AfterPin(s, s.branch.source, u)
    case CompareAnswered => AfterCompare(s, s.branch.source, s.branch.sha, u)
    case GoesOn(app) => AfterWait(s, app, s.cache[app].source, s.branch.state)
    case ScriptsAnswered(app) =>
      var p := s.cache[app];
      Holding(s, app, Settled(ResolveSlug(u.lower(app), p.source, p.branch.sha, p.branch.comparison, u.world)))
  }

  predicate HasSource(u: Setup) {
    CustomSource(u.settings).Ok? && CustomSource(u.settings).value.Some?
  }

  predicate IsSource(source: Source, u: Setup) {
    CustomSource(u.settings) == Ok(Some(source))
  }

  function SourceOf(u: Setup): Source
    requires HasSource(u)
  {
    CustomSource(u.settings).value.value
  }

  /** A run: steps that are not enabled do nothing. */
  function After(trace: seq<Event>, u: Setup): State {
    if trace == [] then START
    else
      var s := After(trace[..|trace| - 1], u);
      if Enabled(s, trace[|trace| - 1]) then Apply(s, trace[|trace| - 1], u) else s
  }

  // ---- What every step keeps ----

  ghost predicate BranchAgrees(s: State, u: Setup) {
    && (!s.branch.NotAsked? ==> HasSource(u))
    && (s.branch.Pinning? || s.branch.Comparing? ==> IsSource(s.branch.source, u))
    && (s.branch.Comparing? ==> u.world.headSha(s.branch.source) == Ok(s.branch.sha))
    && (s.branch.Had? ==> s.branch.state == Pinned(SourceOf(u), u.world))
  }

  ghost predicate PromiseAgrees(s: State, app: string, u: Setup)
    requires app in s.cache
  {
    match s.cache[app]
    case Settled(result) => result == u.Answer(app)
    case WaitsForBranch(source) => IsSource(source, u) && NeedsBranch(app, u.settings) && !s.branch.NotAsked?
    case ReadsScripts(source, b) =>
      IsSource(source, u) && NeedsBranch(app, u.settings) && BranchOf(u.settings, u.world) == Ok(b)
  }

  /** Which requests have been made: each at most once. */
  ghost predicate RequestsAgree(s: State, u: Setup) {
    && NoDuplicates(s.requests)
    && (PinBranch in s.requests <==> !s.branch.NotAsked?)
    && (CompareBranch in s.requests <==>
        s.branch.Comparing? || (s.branch.Had? && HasSource(u) && u.world.headSha(SourceOf(u)).Ok?))
    && (forall app :: ReadScripts(app) in s.requests <==>
                        app in s.cache && !s.cache[app].WaitsForBranch? && NeedsLookup(app, u.settings, u.world))
  }

  ghost predicate Invariant(s: State, u: Setup) {
    && BranchAgrees(s, u) && RequestsAgree(s, u)
    && (forall app :: app in s.cache ==> PromiseAgrees(s, app, u))
    && (!s.branch.NotAsked? <==> exists app :: app in s.cache && NeedsBranch(app, u.settings))
  }

  lemma NewRequest(s: State, r: Request)
    requires NoDuplicates(s.requests) && r !in s.requests
    ensures NoDuplicates(Requesting(s, r).requests)
    ensures forall q :: q in Requesting(s, r).requests <==> q in s.requests || q == r
  {
  }

  lemma CallKeeps(s: State, app: string, u: Setup)
    requires Invariant(s, u) && app !in s.cache
    ensures Invariant(AfterCall(s, app, u), u)
  {
    var t := AfterCall(s, app, u);
    if NeedsBranch(app, u.settings) && s.branch.NotAsked? { NewRequest(s.(branch := Pinning(SourceOf(u))), PinBranch); }
    assert forall other :: other in s.cache ==> other in t.cache && t.cache[other] == s.cache[other];
    assert app in t.cache;
  }

  lemma AnswerKeeps(s: State, e: Event, u: Setup)
    requires Invariant(s, u) && Enabled(s, e) && (e.PinAnswered? || e.CompareAnswered?)
    ensures Invariant(Apply(s, e, u), u)
  {
    if e.PinAnswered? && u.world.headSha(s.branch.source).Ok? {
      NewRequest(s.(branch := Comparing(s.branch.source, u.world.headSha(s.branch.source).value)), CompareBranch);
    }
    assert Apply(s, e, u).cache == s.cache;
  }

  lemma GoingOnKeeps(s: State, app: string, u: Setup)
    requires Invariant(s, u) && Enabled(s, GoesOn(app))
    ensures Invariant(Apply(s, GoesOn(app), u), u)
  {
    var t := Apply(s, GoesOn(app), u);
    assert PromiseAgrees(s, app, u);
    if s.branch.state.Ok? {
      NewRequest(Holding(s, app, ReadsScripts(s.cache[app].source, s.branch.state.value)), ReadScripts(app));
    }
    assert t.cache.Keys == s.cache.Keys;
    forall other | other in t.cache ensures PromiseAgrees(t, other, u) {
      if other != app { assert PromiseAgrees(s, other, u); }
    }
  }

  lemma ScriptsKeep(s: State, app: string, u: Setup)
    requires Invariant(s, u) && Enabled(s, ScriptsAnswered(app))
    ensures Invariant(Apply(s, ScriptsAnswered(app), u), u)
  {
    var t := Apply(s, ScriptsAnswered(app), u);
    assert PromiseAgrees(s, app, u);
    assert t.cache.Keys == s.cache.Keys;
    forall other | other in t.cache ensures PromiseAgrees(t, other, u) {
      if other != app { assert PromiseAgrees(s, other, u); }
    }
  }

  /** In every interleaving. */
  lemma {:induction false} InvariantHolds(trace: seq<Event>, u: Setup)
    ensures Invariant(After(trace, u), u)
  {
    if trace != [] {
      var before, e := trace[..|trace| - 1], trace[|trace| - 1];
      InvariantHolds(before, u);
      var s := After(before, u);
      if Enabled(s, e) {
        match e
        case Call(app) => if app !in s.cache { CallKeeps(s, app, u); }
        case PinAnswered => AnswerKeeps(s, e, u);
        case CompareAnswered => AnswerKeeps(s, e, u);
        case GoesOn(app) => GoingOnKeeps(s, app, u);
        case ScriptsAnswered(app) => ScriptsKeep(s, app, u);
      }
    }
  }

  // ---- What the resolver promises ----

  lemma {:induction false} CachedAreTheCalled(trace: seq<Event>, u: Setup, app: string)
    ensures app in After(trace, u).cache <==> Call(app) in trace
  {
    if trace != [] {
      var before, e := trace[..|trace| - 1], trace[|trace| - 1];
      CachedAreTheCalled(before, u, app);
      assert Call(app) in trace <==> Call(app) in before || e == Call(app);
    }
  }

  /**
   However the calls overlap, no request is made twice: the branch is pinned at most once, and only if a
   called app needs it, compared at most once, and each app's scripts are read at most once, whoever calls it how often.
   */
  lemma EveryRequestIsMadeOnce(trace: seq<Event>, u: Setup)
    ensures var s := After(trace, u);
            && NoDuplicates(s.requests)
            && (PinBranch in s.requests <==> exists app :: Call(app) in trace && NeedsBranch(app, u.settings))
            && (CompareBranch in s.requests ==> PinBranch in s.requests)
            && (forall app :: ReadScripts(app) in s.requests ==>
                Call(app) in trace && NeedsLookup(app, u.settings, u.world))
  {
    InvariantHolds(trace, u);
    forall app ensures app in After(trace, u).cache <==> Call(app) in trace { CachedAreTheCalled(trace, u, app); }
  }

  /** Every promise that has settled gives what a resolution on its own gives. */
  lemma SettledAnswersAreOwnAnswers(trace: seq<Event>, u: Setup, app: string)
    requires app in After(trace, u).cache && After(trace, u).cache[app].Settled?
    ensures After(trace, u).cache[app].result == Resolve(app, u.settings, u.lower, u.world)
  {
    InvariantHolds(trace, u);
    assert PromiseAgrees(After(trace, u), app, u);
  }

  /** No call waits forever: while a promise is unsettled some answer or waiting call has a step. */
  lemma NeverStuck(trace: seq<Event>, u: Setup, app: string) returns (e: Event)
    requires app in After(trace, u).cache && !After(trace, u).cache[app].Settled?
    ensures Enabled(After(trace, u), e) && !e.Call?
  {
    InvariantHolds(trace, u);
    var s := After(trace, u);
    assert PromiseAgrees(s, app, u);
    e := if s.cache[app].ReadsScripts? then ScriptsAnswered(app)
         else if s.branch.Pinning? then PinAnswered
         else if s.branch.Comparing? then CompareAnswered
         else GoesOn(app);
  }

  function Waiting(s: State): set<string> {
    set app | app in s.cache && s.cache[app].WaitsForBranch?
  }

  function Reading(s: State): set<string> {
    set app | app in s.cache && s.cache[app].ReadsScripts?
  }

  function Measure(s: State): nat {
    (if s.branch.Pinning? then 2 else if s.branch.Comparing? then 1 else 0) + 2 * |Waiting(s)| + |Reading(s)|
  }

  lemma HoldingMoves(s: State, app: string, p: Promise)
    requires app in s.cache
    ensures Waiting(Holding(s, app, p)) == Waiting(s) - {app} + if p.WaitsForBranch? then {app} else {}
    ensures Reading(Holding(s, app, p)) == Reading(s) - {app} + if p.ReadsScripts? then {app} else {}
  {
  }

  lemma WaitEnds(s: State, app: string, p: Promise)
    requires app in s.cache && s.cache[app].WaitsForBranch? && !p.WaitsForBranch?
    ensures |Waiting(Holding(s, app, p))| == |Waiting(s)| - 1 && |Reading(Holding(s, app, p))| <= |Reading(s)| + 1
  {
    HoldingMoves(s, app, p);
    assert app in Waiting(s) && app !in Reading(s);
    assert Reading(s) - {app} == Reading(s) && Waiting(Holding(s, app, p)) == Waiting(s) - {app};
  }

  lemma GoingOnMakesProgress(s: State, app: string, source: Source, branch: Result<BranchState, Error>)
    requires app in s.cache && s.cache[app].WaitsForBranch?
    ensures Measure(AfterWait(s, app, source, branch)) < Measure(s)
  {
    match branch
    case Err(error) =>
      WaitEnds(s, app, Settled(Err(error)));
    case Ok(b) =>
      var h := Holding(s, app, ReadsScripts(source, b));
      WaitEnds(s, app, ReadsScripts(source, b));
      SameCacheSameMeasure(h, Requesting(h, ReadScripts(app)));
  }

  lemma SameCacheSameMeasure(s: State, t: State)
    requires s.cache == t.cache && s.branch == t.branch
    ensures Measure(s) == Measure(t)
  {
    assert Waiting(s) == Waiting(t) && Reading(s) == Reading(t);
  }

  lemma ScriptsMakeProgress(s: State, app: string, result: Result<AppSource, Error>)
    requires app in s.cache && s.cache[app].ReadsScripts?
    ensures Measure(Holding(s, app, Settled(result))) < Measure(s)
  {
    HoldingMoves(s, app, Settled(result));
    assert app in Reading(s) && app !in Waiting(s);
    assert Waiting(Holding(s, app, Settled(result))) == Waiting(s);
  }

  /** And every such step brings the run closer to the end of all calls made so far. */
  lemma StepsMakeProgress(s: State, e: Event, u: Setup)
    requires Enabled(s, e) && !e.Call?
    ensures Measure(Apply(s, e, u)) < Measure(s)
  {
    match e
    case GoesOn(app) => GoingOnMakesProgress(s, app, s.cache[app].source, s.branch.state);
    case ScriptsAnswered(app) =>
      var p := s.cache[app];
      ScriptsMakeProgress(s, app, ResolveSlug(u.lower(app), p.source, p.branch.sha, p.branch.comparison, u.world));
    case PinAnswered => assert AfterPin(s, s.branch.source, u).cache == s.cache;
    case CompareAnswered => assert AfterCompare(s, s.branch.source, s.branch.sha, u).cache == s.cache;
  }
}
