/**
 Mapping over a list with bounded concurrency, and the run that saves its results
 (src/commands/maintenance/check-app-updates.ts).

 A worker runs without interruption from one await to the next, so a step is: a worker starts, or the
 call it awaits settles.  Indices stand for the items.  `answer` is what checking an item gives while
 the signal has not fired; None is a call that throws, as every call does once the signal has fired.
 */
module ConcurrentMap {
  import opened Wrappers

  datatype Worker = NotStarted | Awaiting(index: nat) | Done | Failed

  /** `called` records the indices in the order their calls were made; `saved` is what the run has saved. */
  datatype State<R> = State(
    n: nat,
    next: nat,
    results: map<nat, R>,
    workers: seq<Worker>,
    called: seq<nat>,
    fired: bool,
    saved: Option<map<nat, R>>)

  type Answer<!R> = nat -> Option<R>

  datatype Action = Start(worker: nat) | Settle(worker: nat) | Fire | Finish

  function Min(a: nat, b: nat): nat {
    if a < b then a else b
  }

  function Begin<R>(n: nat, limit: nat): State<R> {
    State(n, 0, map[], seq(Min(limit, n), _ => NotStarted), [], false, None)
  }

  // ---- Steps ----

  predicate Enabled<R>(s: State<R>, a: Action) {
    match a
    case Start(w) => w < |s.workers| && s.workers[w] == NotStarted
    case Settle(w) => w < |s.workers| && s.workers[w].Awaiting?
    case Fire => true
    case Finish => s.saved.None? && AllDone(s)
  }

  predicate AllDone<R>(s: State<R>) {
    forall w :: 0 <= w < |s.workers| ==> s.workers[w] == Done
  }

  /** The loop head: take the next index and call, or stop. */
  function Take<R>(s: State<R>, w: nat): State<R>
    requires w < |s.workers|
  {
    if s.next < s.n
    then s.(workers := s.workers[w := Awaiting(s.next)], next := s.next + 1, called := s.called + [s.next])
    else s.(workers := s.workers[w := Done])
  }

  function Step<R>(s: State<R>, a: Action, answer: Answer<R>): State<R>
    requires Enabled(s, a)
  {
    match a
    case Start(w) => Take(s, w)
    case Settle(w) =>
      var index := s.workers[w].index;
      if s.fired || answer(index).None? then s.(workers := s.workers[w := Failed])
      else Take(s.(results := s.results[index := answer(index).value]), w)
    case Fire => s.(fired := true)
    case Finish => if s.fired then s else s.(saved := Some(s.results))
  }

  /** A run: steps that are not enabled do nothing. */
  function After<R>(n: nat, limit: nat, trace: seq<Action>, answer: Answer<R>): State<R> {
    if trace == [] then Begin(n, limit)
    else
      var s := After(n, limit, trace[..|trace| - 1], answer);
      if Enabled(s, trace[|trace| - 1]) then Step(s, trace[|trace| - 1], answer) else s
  }

  class Pool<R(0)> {
    var n: nat
    var next: nat
    var results: map<nat, R>
    var workers: array<Worker>
    ghost var called: seq<nat>
    var fired: bool
    var saved: Option<map<nat, R>>

    ghost function Abs(): State<R>
      reads this, workers
    {
      State(n, next, results, workers[..], called, fired, saved)
    }

    constructor (n: nat, limit: nat)
      ensures fresh(workers) && Abs() == Begin(n, limit)
    {
      this.n, next, results, called, fired, saved := n, 0, map[], [], false, None;
      workers := new Worker[Min(limit, n)](_ => NotStarted);
    }

    /** The worker's loop, from its head to the next await or its end. */
    method RunToAwait(w: nat)
      requires w < workers.Length
      modifies this, workers
      ensures workers == old(workers) && Abs() == Take(old(Abs()), w)
    {
      if next < n {
        var index := next;
        next := next + 1;
        called := called + [index];
        workers[w] := Awaiting(index);
      } else {
        workers[w] := Done;
      }
    }

    /** The awaited call settles: a throw ends the worker, a value is stored and the loop goes on. */
    method Resume(w: nat, answer: Answer<R>)
      requires Enabled(Abs(), Settle(w))
      modifies this, workers
      ensures workers == old(workers) && Abs() == Step(old(Abs()), Settle(w), answer)
    {
      assert workers[..][w] == workers[w];
      var index := workers[w].index;
      var value := answer(index);
      if fired || value.None? {
        workers[w] := Failed;
        return;
      }
      results := results[index := value.value];
      RunToAwait(w);
    }

    /** After Promise.all: check the signal once more, then save. */
    method Conclude() returns (ok: bool)
      requires Enabled(Abs(), Finish)
      modifies this
      ensures workers == old(workers) && ok == !old(fired) && Abs() == old(Step(Abs(), Finish, i => None))
    {
      if fired { return false; }
      saved := Some(results);
      return true;
    }
  }

  // ---- What every step keeps ----

  /** Indices 0, 1, ... in order. */
  function Counting(n: nat): seq<nat> {
    seq(n, i => i)
  }

  predicate InFlight<R>(s: State<R>, index: nat) {
    exists w :: 0 <= w < |s.workers| && s.workers[w] == Awaiting(index)
  }

  ghost predicate Invariant<R(!new)>(s: State<R>, answer: Answer<R>) {
    && s.next <= s.n && s.called == Counting(s.next)
    && (forall v, w :: 0 <= v < w < |s.workers| && s.workers[v].Awaiting? ==> s.workers[v] != s.workers[w])
    && (forall w :: 0 <= w < |s.workers| && s.workers[w].Awaiting? ==>
        s.workers[w].index < s.next && s.workers[w].index !in s.results)
    && (forall i :: i in s.results ==> i < s.next && answer(i) == Some(s.results[i]))
    && (forall w :: 0 <= w < |s.workers| && s.workers[w] == Done ==> s.next == s.n)
    && ((forall w :: 0 <= w < |s.workers| ==> s.workers[w] != Failed) ==>
          forall i: nat :: i < s.next ==> i in s.results || InFlight(s, i))
    && (s.saved.Some? ==> IsComplete(s.n, s.workers, s.saved.value, answer))
  }

  /**
   Every item's row, each from a call that settled while the signal had not fired; with no worker at all
   there is no row.
   */
  ghost predicate IsComplete<R(!new)>(n: nat, workers: seq<Worker>, rows: map<nat, R>, answer: Answer<R>) {
    && (forall i :: i in rows ==> i < n && answer(i) == Some(rows[i]))
    && (workers != [] ==> forall i: nat :: i < n ==> i in rows)
  }

  lemma TakeKeeps<R(!new)>(s: State<R>, w: nat, answer: Answer<R>)
    requires w < |s.workers| && !s.workers[w].Done? && !s.workers[w].Failed? && s.saved.None?
    requires Invariant(s.(workers := s.workers[w := NotStarted]), answer)
    ensures Invariant(Take(s, w), answer)
  {
    var idle := s.(workers := s.workers[w := NotStarted]);
    var t := Take(s, w);
    assert |t.workers| == |idle.workers| && forall v ::
        0 <= v < |t.workers| && v != w ==> t.workers[v] == idle.workers[v];
    if s.next < s.n {
      assert Counting(s.next + 1) == Counting(s.next) + [s.next];
      assert t.workers[w] == Awaiting(s.next);
    }
    if forall v :: 0 <= v < |t.workers| ==> t.workers[v] != Failed {
      assert forall v :: 0 <= v < |idle.workers| ==> idle.workers[v] != Failed;
      forall i: nat | i < t.next ensures i in t.results || InFlight(t, i) {
        if i < s.next && i !in t.results {
          assert InFlight(idle, i);
          var v :| 0 <= v < |idle.workers| && idle.workers[v] == Awaiting(i);
          assert t.workers[v] == Awaiting(i);
        }
      }
    }
  }

  lemma UnstartedKeeps<R(!new)>(s: State<R>, w: nat, answer: Answer<R>)
    requires Invariant(s, answer) && w < |s.workers| && s.workers[w].Awaiting? && answer(s.workers[w].index).Some?
    ensures var i := s.workers[w].index;
            Invariant(s.(results := s.results[i := answer(i).value], workers := s.workers[w := NotStarted]), answer)
  {
    var i := s.workers[w].index;
    var t := s.(results := s.results[i := answer(i).value], workers := s.workers[w := NotStarted]);
    forall v | 0 <= v < |t.workers| && t.workers[v].Awaiting? ensures t.workers[v].index !in t.results {
      assert v != w && t.workers[v] == s.workers[v];
      assert s.workers[v] != s.workers[w];
    }
    if forall v :: 0 <= v < |t.workers| ==> t.workers[v] != Failed {
      assert forall v :: 0 <= v < |s.workers| && v != w ==> s.workers[v] == t.workers[v];
      forall j: nat | j < t.next ensures j in t.results || InFlight(t, j) {
        if j !in t.results {
          assert InFlight(s, j);
          var v :| 0 <= v < |s.workers| && s.workers[v] == Awaiting(j);
          assert t.workers[v] == Awaiting(j);
        }
      }
    }
  }

  lemma SaveIsComplete<R(!new)>(s: State<R>, answer: Answer<R>)
    requires Invariant(s, answer) && AllDone(s)
    ensures IsComplete(s.n, s.workers, s.results, answer)
  {
    if s.workers != [] {
      assert s.workers[0] == Done;
      forall i: nat | i < s.n ensures i in s.results { assert !InFlight(s, i); }
    }
  }

  lemma StepKeeps<R(!new)>(s: State<R>, a: Action, answer: Answer<R>)
    requires Invariant(s, answer) && (s.saved.Some? ==> AllDone(s)) && Enabled(s, a)
    ensures Invariant(Step(s, a, answer), answer) && (Step(s, a, answer).saved.Some? ==> AllDone(Step(s, a, answer)))
  {
    match a
    case Start(w) =>
      assert s.workers[w := NotStarted] == s.workers;
      TakeKeeps(s, w, answer);
    case Settle(w) =>
      var i := s.workers[w].index;
      if s.fired || answer(i).None? {
        assert Step(s, a, answer).workers[w] == Failed;
      } else {
        UnstartedKeeps(s, w, answer);
        var stored := s.(results := s.results[i := answer(i).value]);
        TakeKeeps(stored, w, answer);
      }
    case Fire =>
      assert forall i: nat :: InFlight(Step(s, a, answer), i) <==> InFlight(s, i);
    case Finish =>
      SaveIsComplete(s, answer);
      assert forall i: nat :: InFlight(Step(s, a, answer), i) <==> InFlight(s, i);
  }

  /** In every interleaving. */
  lemma {:induction false} InvariantHolds<R(!new)>(n: nat, limit: nat, trace: seq<Action>, answer: Answer<R>)
    ensures var s := After(n, limit, trace, answer);
            Invariant(s, answer) && (s.saved.Some? ==> AllDone(s)) && |s.workers| == Min(limit, n) && s.n == n
    decreases |trace|
  {
    if trace == [] {
      assert Counting(0) == [];
    } else {
      var before, last := trace[..|trace| - 1], trace[|trace| - 1];
      InvariantHolds(n, limit, before, answer);
      var s := After(n, limit, before, answer);
      if Enabled(s, last) { StepKeeps(s, last, answer); }
    }
  }

  // ---- The promises of the mapper ----

  /** Calls are made in input order, each index once; those in flight are at most `limit`, and distinct. */
  lemma EachIndexIsCalledOnce<R(!new)>(n: nat, limit: nat, trace: seq<Action>, answer: Answer<R>)
    ensures var s := After(n, limit, trace, answer);
            s.called == Counting(s.next) && s.next <= n && |s.workers| <= limit
            && forall v, w :: 0 <= v < w < |s.workers| && s.workers[v].Awaiting? ==> s.workers[v] != s.workers[w]
  {
    InvariantHolds(n, limit, trace, answer);
  }

  /** When every worker is done, every item has its result: the mapper resolves with the results in input order. */
  lemma NormalCompletionIsTheMap<R(!new)>(n: nat, limit: nat, trace: seq<Action>, answer: Answer<R>)
    requires limit > 0 && AllDone(After(n, limit, trace, answer))
    ensures var s := After(n, limit, trace, answer);
            forall i: nat :: (i in s.results <==> i < n) && (i < n ==> answer(i) == Some(s.results[i]))
  {
    InvariantHolds(n, limit, trace, answer);
    SaveIsComplete(After(n, limit, trace, answer), answer);
  }

  function Unfinished(workers: seq<Worker>): nat {
    if workers == [] then 0
    else (if workers[0].Done? || workers[0].Failed? then 0 else 1) + Unfinished(workers[1..])
  }

  lemma {:induction false} UnfinishedAfter(workers: seq<Worker>, w: nat, to: Worker)
    requires w < |workers| && !workers[w].Done? && !workers[w].Failed?
    ensures Unfinished(workers[w := to]) == Unfinished(workers) - (if to.Done? || to.Failed? then 1 else 0)
  {
    if w == 0 {
      assert workers[w := to][1..] == workers[1..];
    } else {
      assert workers[w := to][1..] == workers[1..][w - 1 := to];
      UnfinishedAfter(workers[1..], w - 1, to);
    }
  }

  function Measure<R>(s: State<R>): int {
    s.n - s.next + Unfinished(s.workers)
  }

  /** Every step of a worker brings the run closer to its end. */
  lemma WorkersMakeProgress<R>(s: State<R>, a: Action, answer: Answer<R>)
    requires Enabled(s, a) && (a.Start? || a.Settle?)
    ensures Measure(Step(s, a, answer)) < Measure(s)
  {
    var w := a.worker;
    UnfinishedAfter(s.workers, w, Awaiting(s.next));
    UnfinishedAfter(s.workers, w, Done);
    UnfinishedAfter(s.workers, w, Failed);
  }

  /** And unless all workers have ended, some worker has a step. */
  lemma NeverStuck<R>(s: State<R>)
    requires exists w :: 0 <= w < |s.workers| && !s.workers[w].Done? && !s.workers[w].Failed?
    ensures exists w: nat :: Enabled(s, Start(w)) || Enabled(s, Settle(w))
  {
    var w :| 0 <= w < |s.workers| && !s.workers[w].Done? && !s.workers[w].Failed?;
    assert Enabled(s, Start(w)) || Enabled(s, Settle(w));
  }

  /** There are as many workers as allowed, but no more than items. */
  lemma WorkersAre<R(!new)>(n: nat, limit: nat, trace: seq<Action>, answer: Answer<R>)
    ensures |After(n, limit, trace, answer).workers| == if n <= limit then n else limit
  {
    InvariantHolds(n, limit, trace, answer);
  }

  /** A worker fails only once the signal has fired, or for an item whose call throws. */
  lemma {:induction false} FailureHasACause<R(!new)>(n: nat, limit: nat, trace: seq<Action>, answer: Answer<R>, w: nat)
    requires w < |After(n, limit, trace, answer).workers| && After(n, limit, trace, answer).workers[w] == Failed
    ensures After(n, limit, trace, answer).fired || exists i: nat :: i < n && answer(i).None?
    decreases |trace|
  {
    var before, last := trace[..|trace| - 1], trace[|trace| - 1];
    var s := After(n, limit, before, answer);
    InvariantHolds(n, limit, before, answer);
    InvariantHolds(n, limit, trace, answer);
    if s.workers[w] == Failed { FailureHasACause(n, limit, before, answer, w); }
  }

  /** So a run without a signal, of calls that all answer, has every worker done once none has a step left. */
  lemma UnfiredRunsComplete<R(!new)>(n: nat, limit: nat, trace: seq<Action>, answer: Answer<R>)
    requires !After(n, limit, trace, answer).fired && forall i: nat :: i < n ==> answer(i).Some?
    requires forall w: nat ::
            !Enabled(After(n, limit, trace, answer), Start(w)) && !Enabled(After(n, limit, trace, answer), Settle(w))
    ensures AllDone(After(n, limit, trace, answer))
  {
    var s := After(n, limit, trace, answer);
    forall w: nat | w < |s.workers| ensures s.workers[w] == Done {
      assert !Enabled(s, Start(w)) && !Enabled(s, Settle(w));
      if s.workers[w] == Failed { FailureHasACause(n, limit, trace, answer, w); }
    }
  }

  /** And what it then saves are its results, unless the signal has fired. */
  lemma FinishSavesExactlyWhen<R>(s: State<R>, answer: Answer<R>)
    requires Enabled(s, Finish)
    ensures Step(s, Finish, answer).saved == if s.fired then None else Some(s.results)
    ensures Step(s, Finish, answer).fired == s.fired && Step(s, Finish, answer).results == s.results
  {
  }

  // ---- The run that saves ----

  lemma {:induction false} SavedOnlyUnfired<R(!new)>(n: nat, limit: nat, trace: seq<Action>, answer: Answer<R>)
    returns (k: nat)
    requires After(n, limit, trace, answer).saved.Some?
    ensures k < |trace| && trace[k] == Finish && forall j :: 0 <= j < k ==> trace[j] != Fire
    decreases |trace|
  {
    var before, last := trace[..|trace| - 1], trace[|trace| - 1];
    var s := After(n, limit, before, answer);
    if s.saved.Some? {
      k := SavedOnlyUnfired(n, limit, before, answer);
      assert forall j :: 0 <= j < |before| ==> before[j] == trace[j];
    } else {
      k := |trace| - 1;
      UnfiredThroughout(n, limit, before, answer);
      assert forall j :: 0 <= j < |before| ==> before[j] == trace[j];
    }
  }

  lemma {:induction false} UnfiredThroughout<R>(n: nat, limit: nat, trace: seq<Action>, answer: Answer<R>)
    requires !After(n, limit, trace, answer).fired
    ensures forall j :: 0 <= j < |trace| ==> trace[j] != Fire
    decreases |trace|
  {
    if trace != [] {
      var before, last := trace[..|trace| - 1], trace[|trace| - 1];
      UnfiredThroughout(n, limit, before, answer);
      assert last != Fire;
      assert forall j :: 0 <= j < |before| ==> before[j] == trace[j];
    }
  }

  /**
   A run that saves had an unfired signal from its first step to its save, so what it saves is
   exactly one row per item, none from a call the signal aborted.
   */
  lemma SavedRowsAreUnaborted<R(!new)>(n: nat, limit: nat, trace: seq<Action>, answer: Answer<R>)
    requires limit > 0 && After(n, limit, trace, answer).saved.Some?
    ensures var rows := After(n, limit, trace, answer).saved.value;
            forall i: nat :: (i in rows <==> i < n) && (i < n ==> answer(i) == Some(rows[i]))
    ensures exists k :: 0 <= k < |trace| && trace[k] == Finish && forall j :: 0 <= j < k ==> trace[j] != Fire
  {
    InvariantHolds(n, limit, trace, answer);
    var k := SavedOnlyUnfired(n, limit, trace, answer);
  }
}
