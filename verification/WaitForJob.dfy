/**
 Any number of wait_for_job calls racing over one tracker (src/mcp/wait-for-job.ts).

 The protocol is a state machine whose atomic steps are the stretches of code between two
 awaits.  A step may be split in two where the code runs it in one go (a release and the next
 turn of the loop, a status write and the prompt event after it), so every run of the code is a
 run of the model.  A withdrawn dialog may settle in any way here, though its request is aborted and
 a later reply dropped; RepliesAreDelivered singles out the runs in which it only fails.
 */
module WaitForJob {
  import opened Wrappers
  import opened Elicitation

  datatype Status = Queued | Running | AwaitingInput | Success | Failed | Cancelled | Interrupted

  predicate Terminal(s: Status) {
    s.Success? || s.Failed? || s.Cancelled? || s.Interrupted?
  }

  datatype CallResult = Finished | PromptPending | StillRunning | Threw

  /** How the elicitation request settles, and what follows it inside askHuman. */
  datatype Reply = Declined | CancelJob | Resume | Answer | RequestFailed | LaterFailure

  /** What askHuman returns; Throws stands for its exceptional exit. */
  datatype AskStep = Continue | HandOff | CancelStep | Throws {
    function Outcome(): Outcome {
      match this
      case HandOff => HandedOff
      case CancelStep => Cancelling
      case _ => Resolved
    }
  }

  function AskHuman(reply: Reply, withdrawn: bool, stillPaused: bool): AskStep {
    match reply
    case RequestFailed => if withdrawn then Continue else HandOff
    case Declined => if stillPaused then HandOff else Continue
    case CancelJob => CancelStep
    case Resume => Continue
    case Answer => Continue
    case LaterFailure => Throws
  }

  /** Where a call is between two of its steps. */
  datatype Pc =
    | Runnable                                        // about to run the loop from its top
    | Asleep                                          // in the promise with `wake` set
    | InDialog(generation: nat, withdrawn: bool)      // awaiting the human
    | Replied(generation: nat, step: AskStep)         // askHuman settled, release not yet run
    | Returned(result: CallResult)

  datatype Waiter = Waiter(job: JobId, canElicit: bool, deadline: int, aborted: bool, pc: Pc) {
    /** The call sits between its claim of `g` and the release of `g`. */
    predicate Holds(j: JobId, g: nat) {
      job == j && (pc.InDialog? || pc.Replied?) && pc.generation == g
    }
  }

  datatype System = System(status: map<JobId, Status>, tracker: Tracker, waiters: seq<Waiter>)

  datatype Action =
    | StatusEvent(job: JobId, status: Status)
    | PromptEvent(job: JobId)
    | StartCall(job: JobId, canElicit: bool, deadline: int, aborted: bool)
    | Evaluate(w: nat, now: int)
    | TimerFires(w: nat)
    | AbortCall(w: nat)
    | Settle(w: nat, reply: Reply)
    | ReleaseClaim(w: nat)

  const INITIAL := System(map[], EMPTY_TRACKER, [])

  /** What one turn of the loop does, before the deadline is looked at. */
  datatype Decision = Return(result: CallResult) | OpenDialog(generation: nat) | Sleep

  function Decide(s: System, w: Waiter): Decision
    requires w.job in s.status
  {
    if w.aborted then Return(StillRunning)
    else if Terminal(s.status[w.job]) then Return(Finished)
    else if s.status[w.job].AwaitingInput? then
      if !w.canElicit then Return(PromptPending)
      else match s.tracker.ClaimOf(w.job)
           case AlreadyHandedOff => Return(PromptPending)
           case Ask(g) => OpenDialog(g)
           case Busy => Sleep
    else Sleep
  }

  function Woken(w: Waiter): Waiter {
    if w.pc.Asleep? then w.(pc := Runnable) else w
  }

  function Withdrawn(w: Waiter): Waiter {
    if w.pc.InDialog? then w.(pc := InDialog(w.pc.generation, true)) else w
  }

  /** Every call on `job` is poked; its dialog is withdrawn too when `withdraw` is set. */
  function Notify(ws: seq<Waiter>, job: JobId, withdraw: bool): (r: seq<Waiter>)
    ensures |r| == |ws|
  {
    seq(|ws|, i requires 0 <= i < |ws| =>
      if ws[i].job != job then ws[i]
      else if withdraw then Woken(Withdrawn(ws[i]))
      else Woken(ws[i]))
  }

  function SetPc(s: System, w: nat, pc: Pc): System
    requires w < |s.waiters|
  {
    s.(waiters := s.waiters[w := s.waiters[w].(pc := pc)])
  }

  predicate Enabled(s: System, a: Action) {
    match a
    case StatusEvent(_, _) => true
    case PromptEvent(job) => job in s.status
    case StartCall(job, _, _, _) => job in s.status
    case Evaluate(w, _) => w < |s.waiters| && s.waiters[w].pc.Runnable? && s.waiters[w].job in s.status
    case TimerFires(w) => w < |s.waiters| && s.waiters[w].pc.Asleep?
    case AbortCall(w) => w < |s.waiters| && !s.waiters[w].pc.Returned?
    case Settle(w, _) => w < |s.waiters| && s.waiters[w].pc.InDialog? && s.waiters[w].job in s.status
    case ReleaseClaim(w) => w < |s.waiters| && s.waiters[w].pc.Replied?
  }

  function Apply(s: System, a: Action): System
    requires Enabled(s, a)
  {
    match a
    case StatusEvent(job, status) =>
      s.(status := s.status[job := status], waiters := Notify(s.waiters, job, !status.AwaitingInput?))
    case PromptEvent(job) =>
      s.(tracker := s.tracker.AfterPrompt(job), waiters := Notify(s.waiters, job, false))
    case StartCall(job, canElicit, deadline, aborted) =>
      s.(waiters := s.waiters + [Waiter(job, canElicit, deadline, aborted, Runnable)])
    case Evaluate(w, now) =>
      (match Decide(s, s.waiters[w])
       case Return(result) => SetPc(s, w, Returned(result))
       case OpenDialog(g) =>
         SetPc(s, w, InDialog(g, false)).(tracker := s.tracker.AfterClaim(s.waiters[w].job))
       case Sleep =>
         if s.waiters[w].deadline - now <= 0 then SetPc(s, w, Returned(StillRunning)) else SetPc(s, w, Asleep))
    case TimerFires(w) => SetPc(s, w, Runnable)
    case AbortCall(w) =>
      s.(waiters := s.waiters[w := Woken(Withdrawn(s.waiters[w])).(aborted := true)])
    case Settle(w, reply) =>
      var me := s.waiters[w];
      SetPc(s, w, Replied(me.pc.generation, AskHuman(reply, me.pc.withdrawn, s.status[me.job].AwaitingInput?)))
    case ReleaseClaim(w) =>
      var me := s.waiters[w];
      var next := match me.pc.step
        case HandOff => Returned(PromptPending)
        case Throws => Returned(Threw)
        case _ => Runnable;
      var released := SetPc(s, w, next);
      released.(tracker := s.tracker.AfterRelease(me.job, me.pc.generation, me.pc.step.Outcome()),
                waiters := Notify(released.waiters, me.job, false))
  }

  // ---- Runs ----

  /** The state a sequence of steps leads to; None when a step was not enabled. */
  function After(trace: seq<Action>): Option<System> {
    if trace == [] then Some(INITIAL)
    else match After(trace[..|trace| - 1])
         case None => None
         case Some(s) =>
           var a := trace[|trace| - 1];
           if Enabled(s, a) then Some(Apply(s, a)) else None
  }

  // ---- The invariant of every run ----

  /** Call `i` sits between its claim and its release of generation `g` of job `j`. */
  predicate Holder(s: System, i: nat, j: JobId, g: nat) {
    i < |s.waiters| && s.waiters[i].Holds(j, g)
  }

  /** No two open dialogs, and none leaked, for one (job, generation). */
  ghost predicate ClaimsAgree(s: System) {
    && (forall i: nat, k: nat, j: JobId, g: nat :: Holder(s, i, j, g) && Holder(s, k, j, g) ==> i == k)
    && (forall i: nat, j: JobId, g: nat :: Holder(s, i, j, g) ==> g <= s.tracker.Generation(j))
    && (forall i: nat, j: JobId, g: nat ::
        Holder(s, i, j, g) && g == s.tracker.Generation(j) ==> Get(s.tracker.asking, j) == Some(g))
    && (forall j :: j in s.tracker.asking ==> exists i: nat :: Holder(s, i, j, s.tracker.asking[j]))
  }

  /** A sleeping call would fall asleep again on the state as it is now. */
  ghost predicate SleepersUpToDate(s: System) {
    && (forall i :: 0 <= i < |s.waiters| ==> s.waiters[i].job in s.status)
    && (forall i :: 0 <= i < |s.waiters| && s.waiters[i].pc.Asleep? ==> Decide(s, s.waiters[i]) == Sleep)
  }

  ghost predicate Invariant(s: System) {
    ClaimsAgree(s) && SleepersUpToDate(s)
  }

  /** A call that sleeps after a step would fall asleep again there. */
  lemma SleeperStaysUpToDate(s: System, a: Action, i: nat)
    requires Enabled(s, a) && i < |s.waiters| && s.waiters[i].job in s.status
    requires s.waiters[i].pc.Asleep? ==> Decide(s, s.waiters[i]) == Sleep
    ensures |Apply(s, a).waiters| >= |s.waiters| && Apply(s, a).waiters[i].job == s.waiters[i].job
    ensures s.waiters[i].job in Apply(s, a).status
    ensures Apply(s, a).waiters[i].pc.Asleep? ==> Decide(Apply(s, a), Apply(s, a).waiters[i]) == Sleep
  {
  }

  lemma ApplyKeepsSleepers(s: System, a: Action)
    requires SleepersUpToDate(s) && Enabled(s, a)
    ensures SleepersUpToDate(Apply(s, a))
  {
    var t := Apply(s, a);
    forall i | 0 <= i < |s.waiters|
      ensures t.waiters[i].job in t.status
      ensures t.waiters[i].pc.Asleep? ==> Decide(t, t.waiters[i]) == Sleep
    {
      SleeperStaysUpToDate(s, a, i);
    }
    assert |t.waiters| == |s.waiters| + if a.StartCall? then 1 else 0;
  }

  /** Only opening a dialog makes a holder, and only a release ends one. */
  lemma HolderAfter(s: System, a: Action, i: nat, j: JobId, g: nat)
    requires Enabled(s, a)
    ensures Holder(Apply(s, a), i, j, g) <==>
              if a.Evaluate? && i == a.w && Decide(s, s.waiters[i]).OpenDialog? then
                j == s.waiters[i].job && g == Decide(s, s.waiters[i]).generation
              else
                Holder(s, i, j, g) && !(a.ReleaseClaim? && i == a.w)
  {
  }

  predicate Opens(s: System, a: Action, job: JobId)
    requires Enabled(s, a)
  {
    a.Evaluate? && Decide(s, s.waiters[a.w]).OpenDialog? && s.waiters[a.w].job == job
  }

  /** What a step does to the tracker's view of one job. */
  lemma AskingAfter(s: System, a: Action, j: JobId)
    requires Enabled(s, a)
    ensures var before, after := s.tracker, Apply(s, a).tracker;
            && after.Generation(j) == before.Generation(j) + (if a == PromptEvent(j) then 1 else 0)
            && Get(after.asking, j) ==
               if Opens(s, a, j) then Some(Decide(s, s.waiters[a.w]).generation)
               else if a.ReleaseClaim? && s.waiters[a.w].job == j
                   && Get(before.asking, j) == Some(s.waiters[a.w].pc.generation) then None
               else Get(before.asking, j)
  {
  }

  lemma OneHolderAfter(s: System, a: Action, i: nat, k: nat, j: JobId, g: nat)
    requires ClaimsAgree(s) && Enabled(s, a) && Holder(Apply(s, a), i, j, g) && Holder(Apply(s, a), k, j, g)
    ensures i == k
  {
    HolderAfter(s, a, i, j, g);
    HolderAfter(s, a, k, j, g);
    if Opens(s, a, j) { AskingAfter(s, a, j); }
  }

  lemma HolderIsBoundedAfter(s: System, a: Action, i: nat, j: JobId, g: nat)
    requires ClaimsAgree(s) && Enabled(s, a) && Holder(Apply(s, a), i, j, g)
    ensures g <= Apply(s, a).tracker.Generation(j)
    ensures g == Apply(s, a).tracker.Generation(j) ==> Get(Apply(s, a).tracker.asking, j) == Some(g)
  {
    HolderAfter(s, a, i, j, g);
    AskingAfter(s, a, j);
    if a.ReleaseClaim? { assert Holder(s, a.w, s.waiters[a.w].job, s.waiters[a.w].pc.generation); }
  }

  lemma AskingHasAHolderAfter(s: System, a: Action, j: JobId)
    requires ClaimsAgree(s) && Enabled(s, a) && j in Apply(s, a).tracker.asking
    ensures exists i: nat :: Holder(Apply(s, a), i, j, Apply(s, a).tracker.asking[j])
  {
    var g := Apply(s, a).tracker.asking[j];
    AskingAfter(s, a, j);
    if Opens(s, a, j) {
      HolderAfter(s, a, a.w, j, g);
      assert Holder(Apply(s, a), a.w, j, g);
    } else {
      var i: nat :| Holder(s, i, j, s.tracker.asking[j]);
      HolderAfter(s, a, i, j, g);
      assert Holder(Apply(s, a), i, j, g);
    }
  }

  lemma ApplyKeepsClaims(s: System, a: Action)
    requires ClaimsAgree(s) && Enabled(s, a)
    ensures ClaimsAgree(Apply(s, a))
  {
    var t := Apply(s, a);
    forall i: nat, k: nat, j: JobId, g: nat | Holder(t, i, j, g) && Holder(t, k, j, g) ensures i == k {
      OneHolderAfter(s, a, i, k, j, g);
    }
    forall i: nat, j: JobId, g: nat | Holder(t, i, j, g)
      ensures g <= t.tracker.Generation(j) && (g == t.tracker.Generation(j) ==> Get(t.tracker.asking, j) == Some(g))
    {
      HolderIsBoundedAfter(s, a, i, j, g);
    }
    forall j | j in t.tracker.asking ensures exists i: nat :: Holder(t, i, j, t.tracker.asking[j]) {
      AskingHasAHolderAfter(s, a, j);
    }
  }

  lemma {:induction false} InvariantHolds(trace: seq<Action>)
    requires After(trace).Some?
    ensures Invariant(After(trace).value)
  {
    if trace != [] {
      var before := trace[..|trace| - 1];
      InvariantHolds(before);
      ApplyKeepsSleepers(After(before).value, trace[|trace| - 1]);
      ApplyKeepsClaims(After(before).value, trace[|trace| - 1]);
    }
  }

  // ---- Mutual exclusion, and no leaked claim ----

  /** `asking` names the current generation exactly while one call, and only one, has its dialog. */
  lemma AskingIsTheOneOpenDialog(trace: seq<Action>, job: JobId)
    requires After(trace).Some?
    ensures var s := After(trace).value;
            var g := s.tracker.Generation(job);
            && (Get(s.tracker.asking, job) == Some(g) <==> exists i: nat :: Holder(s, i, job, g))
            && (forall h: nat, i: nat, k: nat :: Holder(s, i, job, h) && Holder(s, k, job, h) ==> i == k)
            && (job in s.tracker.asking ==> exists i: nat :: Holder(s, i, job, s.tracker.asking[job]))
  {
    InvariantHolds(trace);
  }

  lemma AfterExtended(trace: seq<Action>, a: Action)
    requires After(trace).Some?
    ensures After(trace + [a]) == if Enabled(After(trace).value, a) then Some(Apply(After(trace).value, a)) else None
  {
    assert (trace + [a])[..|trace + [a]| - 1] == trace;
  }

  lemma ReleaseDropsTheClaim(s: System, w: nat)
    requires ClaimsAgree(s) && w < |s.waiters| && s.waiters[w].pc.Replied?
    ensures var me := s.waiters[w];
            var t := Apply(s, ReleaseClaim(w));
            && Get(t.tracker.asking, me.job) != Some(me.pc.generation)
            && forall i: nat :: !Holder(t, i, me.job, me.pc.generation)
  {
    var me := s.waiters[w];
    var g := me.pc.generation;
    assert Holder(s, w, me.job, g);
    forall i: nat ensures !Holder(Apply(s, ReleaseClaim(w)), i, me.job, g) {
      HolderAfter(s, ReleaseClaim(w), i, me.job, g);
    }
  }

  /** However the dialog of a call ends, its claim is gone two steps of that call later. */
  lemma EveryExitReleasesTheClaim(trace: seq<Action>, w: nat, reply: Reply)
    requires After(trace).Some?
    requires w < |After(trace).value.waiters| && After(trace).value.waiters[w].pc.InDialog?
    ensures After(trace + [Settle(w, reply)] + [ReleaseClaim(w)]).Some?
    ensures var me := After(trace).value.waiters[w];
            var t := After(trace + [Settle(w, reply)] + [ReleaseClaim(w)]).value;
            && Get(t.tracker.asking, me.job) != Some(me.pc.generation)
            && forall i: nat :: !Holder(t, i, me.job, me.pc.generation)
  {
    InvariantHolds(trace);
    AfterExtended(trace, Settle(w, reply));
    var settled := trace + [Settle(w, reply)];
    InvariantHolds(settled);
    AfterExtended(settled, ReleaseClaim(w));
    ReleaseDropsTheClaim(After(settled).value, w);
  }

  /**
   A dialog that settles leaves its prompt handed off if and only if it was declined while the job
   still waits, or the request failed without having been withdrawn; and under cancellation if and
   only if that was the answer.  (Or it already was so before.)
   */
  lemma SettledPromptIsHandedOffExactlyWhen(trace: seq<Action>, w: nat, reply: Reply)
    requires After(trace).Some?
    requires w < |After(trace).value.waiters| && After(trace).value.waiters[w].pc.InDialog?
    ensures After(trace + [Settle(w, reply)] + [ReleaseClaim(w)]).Some?
    ensures var s, me := After(trace).value, After(trace).value.waiters[w];
            var t, g := After(trace + [Settle(w, reply)] + [ReleaseClaim(w)]).value, me.pc.generation;
            && (Get(t.tracker.handedOff, me.job) == Some(g) <==>
                  || (reply == Declined && Get(s.status, me.job) == Some(AwaitingInput))
                      || (reply == RequestFailed && !me.pc.withdrawn)
                  || Get(s.tracker.handedOff, me.job) == Some(g))
            && (Get(t.tracker.cancelling, me.job) == Some(g) <==>
                reply == CancelJob || Get(s.tracker.cancelling, me.job) == Some(g))
  {
    InvariantHolds(trace);
    AfterExtended(trace, Settle(w, reply));
    var settled := trace + [Settle(w, reply)];
    AfterExtended(settled, ReleaseClaim(w));
    SettledAfter(After(trace).value, Settle(w, reply), After(trace).value.waiters[w].job);
    SettledAfter(After(settled).value, ReleaseClaim(w), After(trace).value.waiters[w].job);
  }

  // ---- What a call returns ----

  /** The job is over. */
  predicate IsOver(s: System, job: JobId) {
    var status := Get(s.status, job);
    status == Some(Success) || status == Some(Failed) || status == Some(Cancelled) || status == Some(Interrupted)
  }

  /** A live call looks at its paused job and finds the prompt with the model, or no way to ask the human. */
  ghost predicate IsForTheModel(trace: seq<Action>, w: nat)
    requires After(trace).Some? && w < |After(trace).value.waiters|
  {
    var s, me := After(trace).value, After(trace).value.waiters[w];
    && !me.aborted && Get(s.status, me.job) == Some(AwaitingInput)
    && (!me.canElicit || LastRelease(trace, me.job, HandedOff) == Some(Prompts(trace, me.job)))
  }

  /** A live call looks at its paused job and finds a prompt nobody was asked about, or that was asked in vain. */
  ghost predicate IsForTheHuman(trace: seq<Action>, w: nat)
    requires After(trace).Some? && w < |After(trace).value.waiters|
  {
    var s, me := After(trace).value, After(trace).value.waiters[w];
    var g := Prompts(trace, me.job);
    && !me.aborted && me.canElicit && Get(s.status, me.job) == Some(AwaitingInput)
    && LastRelease(trace, me.job, HandedOff) != Some(g) && LastRelease(trace, me.job, Cancelling) != Some(g)
    && forall i: nat :: !Holder(s, i, me.job, g)
  }

  /** What one turn of the loop does with the call, over any run. */
  lemma TurnExactlyWhen(trace: seq<Action>, w: nat, now: int)
    requires After(trace).Some? && Enabled(After(trace).value, Evaluate(w, now))
    ensures var s, me := After(trace).value, After(trace).value.waiters[w];
            var pc := Apply(s, Evaluate(w, now)).waiters[w].pc;
            var over, model, human := IsOver(s, me.job), IsForTheModel(trace, w), IsForTheHuman(trace, w);
            && (pc == Returned(Finished) <==> !me.aborted && over)
            && (pc == Returned(PromptPending) <==> model)
            && (pc == InDialog(Prompts(trace, me.job), false) <==> human)
            && (pc == Returned(StillRunning) <==> me.aborted || (!over && !model && !human && now >= me.deadline))
            && (pc == Asleep <==> !me.aborted && !over && !model && !human && now < me.deadline)
  {
    DialogOpensExactlyWhen(trace, w, now);
    TrackerIsTheHistory(trace, After(trace).value.waiters[w].job);
  }

  /**
   What a call does once its dialog has settled and its claim is released: it returns the prompt to the
   model, passes on a failure past the dialog, or takes another turn of the loop.
   */
  lemma DialogLeadsTo(trace: seq<Action>, w: nat, reply: Reply)
    requires After(trace).Some? && Enabled(After(trace).value, Settle(w, reply))
    ensures After(trace + [Settle(w, reply)] + [ReleaseClaim(w)]).Some?
    ensures var s, me := After(trace).value, After(trace).value.waiters[w];
            var pc := After(trace + [Settle(w, reply)] + [ReleaseClaim(w)]).value.waiters[w].pc;
            var declined := reply == Declined && Get(s.status, me.job) == Some(AwaitingInput);
            var failed := reply == RequestFailed && !me.pc.withdrawn;
            && (pc == Returned(PromptPending) <==> declined || failed)
            && (pc == Returned(Threw) <==> reply == LaterFailure)
            && (pc == Runnable <==> !declined && !failed && reply != LaterFailure)
  {
    AfterExtended(trace, Settle(w, reply));
    AfterExtended(trace + [Settle(w, reply)], ReleaseClaim(w));
  }

  // ---- The state is what has happened ----

  /**
   What may happen to a call at any time: an abort until it has returned, its timer while it sleeps, a reply
   while it asks.
   */
  lemma MayHappen(s: System, w: nat)
    requires w < |s.waiters| && s.waiters[w].job in s.status
    ensures Enabled(s, AbortCall(w)) <==> !s.waiters[w].pc.Returned?
    ensures Enabled(s, TimerFires(w)) <==> s.waiters[w].pc == Asleep
    ensures forall now :: Enabled(s, Evaluate(w, now)) <==> s.waiters[w].pc == Runnable
    ensures forall reply :: Enabled(s, Settle(w, reply)) <==> s.waiters[w].pc.InDialog?
    ensures Enabled(s, ReleaseClaim(w)) <==> s.waiters[w].pc.Replied?
    ensures Enabled(s, PromptEvent(s.waiters[w].job)) && forall status ::
            Enabled(s, StatusEvent(s.waiters[w].job, status))
  {
  }

  /** The status the last status event of the job gave it. */
  function LastStatus(trace: seq<Action>, job: JobId): Option<Status> {
    if trace == [] then None
    else
      var a := trace[|trace| - 1];
      if a.StatusEvent? && a.job == job then Some(a.status) else LastStatus(trace[..|trace| - 1], job)
  }

  lemma {:induction false} StatusIsTheLast(trace: seq<Action>, job: JobId)
    requires After(trace).Some?
    ensures Get(After(trace).value.status, job) == LastStatus(trace, job)
  {
    if trace != [] { StatusIsTheLast(trace[..|trace| - 1], job); }
  }

  /** Step a, in state s, withdraws the dialog of call w: its job goes on, or the call is aborted. */
  predicate Withdraws(s: System, a: Action, w: nat)
    requires w < |s.waiters|
  {
    || (a.StatusEvent? && a.job == s.waiters[w].job && a.status != AwaitingInput)
    || (a.AbortCall? && a.w == w)
  }

  /** An open dialog becomes withdrawn exactly then, keeps its generation, and no other step closes or changes it. */
  lemma DialogAfter(s: System, a: Action, w: nat)
    requires Enabled(s, a) && w < |s.waiters| && s.waiters[w].pc.InDialog? && !(a.Settle? && a.w == w)
    ensures w < |Apply(s, a).waiters|
    ensures Apply(s, a).waiters[w].pc
            == InDialog(s.waiters[w].pc.generation, s.waiters[w].pc.withdrawn || Withdraws(s, a, w))
  {
  }

  /** A call is aborted exactly after it was started so or aborted; job, deadline and ability stay as it was started. */
  lemma CallAfter(s: System, a: Action, w: nat)
    requires Enabled(s, a) && w < |Apply(s, a).waiters|
    ensures var t := Apply(s, a).waiters[w];
            if w < |s.waiters| then
              && t.job == s.waiters[w].job && t.canElicit == s.waiters[w].canElicit
                  && t.deadline == s.waiters[w].deadline
              && (t.aborted <==> s.waiters[w].aborted || a == AbortCall(w))
            else
              a == StartCall(t.job, t.canElicit, t.deadline, t.aborted) && t.pc == Runnable
  {
  }

  // ---- No lost wake-up ----

  /** The events that can change what the loop of call `w` would decide. */
  predicate Concerns(a: Action, s: System, w: nat)
    requires w < |s.waiters|
  {
    match a
    case StatusEvent(job, _) => job == s.waiters[w].job
    case PromptEvent(job) => job == s.waiters[w].job
    case AbortCall(v) => v == w
    case ReleaseClaim(v) => v < |s.waiters| && s.waiters[v].job == s.waiters[w].job
    case _ => false
  }

  /** Step m is no turn of the loop of `w`, and nothing that concerns it. */
  ghost predicate QuietStep(trace: seq<Action>, m: nat, w: nat)
    requires m < |trace|
  {
    && After(trace[..m]).Some? && w < |After(trace[..m]).value.waiters|
    && !(trace[m].Evaluate? && trace[m].w == w)
    && !Concerns(trace[m], After(trace[..m]).value, w)
  }

  /** Call `w` fell asleep with step k, and every step since is a quiet one. */
  ghost predicate UndisturbedSince(trace: seq<Action>, k: nat, w: nat) {
    && k < |trace| && trace[k].Evaluate? && trace[k].w == w
    && forall m :: k < m < |trace| ==> QuietStep(trace, m, w)
  }

  /** A call that sleeps after a step fell asleep with it, or slept before and was not concerned. */
  lemma ConcernedCallsWake(s: System, a: Action, w: nat)
    requires Enabled(s, a) && w < |Apply(s, a).waiters| && Apply(s, a).waiters[w].pc.Asleep?
    ensures (a.Evaluate? && a.w == w) || (w < |s.waiters| && s.waiters[w].pc.Asleep? && !Concerns(a, s, w))
  {
  }

  /** And a sleeping call wakes only for what concerns it, or for its timer. */
  lemma OthersSleepOn(s: System, a: Action, w: nat)
    requires Enabled(s, a) && w < |s.waiters| && s.waiters[w].pc.Asleep?
    ensures Apply(s, a).waiters[w].pc == (if Concerns(a, s, w) || a == TimerFires(w) then Runnable else Asleep)
  {
  }

  /**
   A sleeping call read the state at some step k, and no event that concerns it has come since;
   in particular the job is not terminal and the call not aborted.
   */
  lemma NoLostWakeUp(trace: seq<Action>, w: nat) returns (k: nat)
    requires After(trace).Some?
    requires w < |After(trace).value.waiters| && After(trace).value.waiters[w].pc.Asleep?
    ensures UndisturbedSince(trace, k, w)
    ensures var s := After(trace).value;
            !s.waiters[w].aborted && s.waiters[w].job in s.status && !Terminal(s.status[s.waiters[w].job])
            && Decide(s, s.waiters[w]) == Sleep
  {
    InvariantHolds(trace);
    k := LastSleep(trace, w);
  }

  lemma StillUndisturbed(trace: seq<Action>, k: nat, w: nat)
    requires trace != [] && UndisturbedSince(trace[..|trace| - 1], k, w) && QuietStep(trace, |trace| - 1, w)
    ensures UndisturbedSince(trace, k, w)
  {
    var before := trace[..|trace| - 1];
    forall m | k < m < |trace|
      ensures QuietStep(trace, m, w)
    {
      if m < |trace| - 1 {
        assert QuietStep(before, m, w);
        assert trace[..m] == before[..m] && trace[m] == before[m];
      }
    }
  }

  lemma {:induction false} LastSleep(trace: seq<Action>, w: nat) returns (k: nat)
    requires After(trace).Some?
    requires w < |After(trace).value.waiters| && After(trace).value.waiters[w].pc.Asleep?
    ensures UndisturbedSince(trace, k, w)
  {
    var n := |trace| - 1;
    if trace[n].Evaluate? && trace[n].w == w {
      k := n;
    } else {
      ConcernedCallsWake(After(trace[..n]).value, trace[n], w);
      k := LastSleep(trace[..n], w);
      StillUndisturbed(trace, k, w);
    }
  }

  /** A call that sleeps on a paused job has somebody to wake it: the open dialog, or a cancellation under way. */
  lemma SleeperOnAPromptHasAWaker(trace: seq<Action>, w: nat)
    requires After(trace).Some?
    requires w < |After(trace).value.waiters| && After(trace).value.waiters[w].pc.Asleep?
    requires var s := After(trace).value; Get(s.status, s.waiters[w].job) == Some(AwaitingInput)
    ensures var s := After(trace).value;
            var job := s.waiters[w].job;
            || (exists i: nat :: Holder(s, i, job, s.tracker.Generation(job)))
            || LastRelease(trace, job, Cancelling) == Some(s.tracker.Generation(job))
  {
    InvariantHolds(trace);
    TrackerIsTheHistory(trace, After(trace).value.waiters[w].job);
  }

  // ---- A generation handed off, or being cancelled, is not asked about again ----

  /** Step q of the trace releases generation g of the job with that outcome. */
  ghost predicate ReleasesAt(trace: seq<Action>, q: nat, job: JobId, g: nat, outcome: Outcome) {
    q < |trace| && trace[q].ReleaseClaim? && After(trace[..q]).Some? &&
    var s := After(trace[..q]).value;
    Enabled(s, trace[q]) && s.waiters[trace[q].w].Holds(job, g)
    && s.waiters[trace[q].w].pc.step.Outcome() == outcome
  }

  /** The generation of the last release of the job with that outcome. */
  ghost function LastRelease(trace: seq<Action>, job: JobId, outcome: Outcome): Option<nat>
    requires After(trace).Some?
  {
    if trace == [] then None
    else
      var before, a := trace[..|trace| - 1], trace[|trace| - 1];
      var s := After(before).value;
      if a.ReleaseClaim? && s.waiters[a.w].job == job && s.waiters[a.w].pc.step.Outcome() == outcome
      then Some(s.waiters[a.w].pc.generation)
      else LastRelease(before, job, outcome)
  }

  /** How many prompts the job has paused on. */
  function Prompts(trace: seq<Action>, job: JobId): nat {
    if trace == [] then 0
    else Prompts(trace[..|trace| - 1], job) + if trace[|trace| - 1] == PromptEvent(job) then 1 else 0
  }

  lemma SettledAfter(s: System, a: Action, job: JobId)
    requires Enabled(s, a)
    ensures var before, after := s.tracker, Apply(s, a).tracker;
            var releases := a.ReleaseClaim? && s.waiters[a.w].job == job;
            && Get(after.handedOff, job) == (if releases && s.waiters[a.w].pc.step.Outcome() == HandedOff
                                             then Some(s.waiters[a.w].pc.generation) else Get(before.handedOff, job))
            && Get(after.cancelling, job) == (if releases && s.waiters[a.w].pc.step.Outcome() == Cancelling
                                              then Some(s.waiters[a.w].pc.generation) else Get(before.cancelling, job))
  {
  }

  lemma {:induction false} TrackerIsTheHistory(trace: seq<Action>, job: JobId)
    requires After(trace).Some?
    ensures var tracker := After(trace).value.tracker;
            && tracker.Generation(job) == Prompts(trace, job)
            && Get(tracker.handedOff, job) == LastRelease(trace, job, HandedOff)
            && Get(tracker.cancelling, job) == LastRelease(trace, job, Cancelling)
  {
    if trace != [] {
      var before, a := trace[..|trace| - 1], trace[|trace| - 1];
      TrackerIsTheHistory(before, job);
      AskingAfter(After(before).value, a, job);
      SettledAfter(After(before).value, a, job);
    }
  }

  /** A turn of the loop opens a dialog for exactly the prompts that are neither settled nor being asked. */
  lemma DialogOpensExactlyWhen(trace: seq<Action>, w: nat, now: int)
    requires After(trace).Some? && Enabled(After(trace).value, Evaluate(w, now))
    ensures var s := After(trace).value;
            var me := s.waiters[w];
            var g := Prompts(trace, me.job);
            && (Holder(Apply(s, Evaluate(w, now)), w, me.job, g) <==>
                  && !me.aborted && me.canElicit && s.status[me.job].AwaitingInput?
                  && LastRelease(trace, me.job, HandedOff) != Some(g)
                  && LastRelease(trace, me.job, Cancelling) != Some(g)
                  && forall i: nat :: !Holder(s, i, me.job, g))
            && (Apply(s, Evaluate(w, now)).waiters[w].pc.InDialog? ==> Holder(Apply(s, Evaluate(w, now)), w, me.job, g))
  {
    InvariantHolds(trace);
    TrackerIsTheHistory(trace, After(trace).value.waiters[w].job);
  }

  // ---- When a settled prompt is asked about again ----

  lemma SamePrefix(trace: seq<Action>, n: nat, q: nat, job: JobId, g: nat, outcome: Outcome)
    requires q < n <= |trace|
    ensures ReleasesAt(trace[..n], q, job, g, outcome) <==> ReleasesAt(trace, q, job, g, outcome)
  {
    assert trace[..n][..q] == trace[..q] && trace[..n][q] == trace[q];
  }

  /** No release of the job with that outcome from step p on. */
  ghost predicate NoneFrom(trace: seq<Action>, p: nat, job: JobId, outcome: Outcome) {
    forall r: nat, g: nat :: r >= p ==> !ReleasesAt(trace, r, job, g, outcome)
  }

  lemma NoneFromStep(trace: seq<Action>, n: nat, p: nat, job: JobId, outcome: Outcome)
    requires p <= n && |trace| == n + 1
    ensures NoneFrom(trace, p, job, outcome) <==>
            NoneFrom(trace[..n], p, job, outcome) && NoneFrom(trace, n, job, outcome)
  {
    forall r: nat, g: nat | r < n
      ensures ReleasesAt(trace[..n], r, job, g, outcome) <==> ReleasesAt(trace, r, job, g, outcome)
    {
      SamePrefix(trace, n, r, job, g, outcome);
    }
  }

  lemma {:induction false} PromptsGrow(trace: seq<Action>, p: nat, job: JobId)
    requires After(trace).Some? && p <= |trace|
    ensures After(trace[..p]).Some? && Prompts(trace[..p], job) <= Prompts(trace, job)
  {
    var n := |trace| - 1;
    if p == |trace| {
      assert trace[..p] == trace;
    } else {
      assert trace[..n][..p] == trace[..p];
      PromptsGrow(trace[..n], p, job);
    }
  }

  /** A released generation is at most the number of prompts at the end of the trace. */
  lemma ReleasedIsAPrompt(trace: seq<Action>, q: nat, job: JobId, g: nat, outcome: Outcome)
    requires After(trace).Some? && ReleasesAt(trace, q, job, g, outcome)
    ensures g <= Prompts(trace, job)
  {
    var s := After(trace[..q]).value;
    InvariantHolds(trace[..q]);
    assert Holder(s, trace[q].w, job, g);
    TrackerIsTheHistory(trace[..q], job);
    PromptsGrow(trace, q, job);
  }

  /** The last step decides the last release, if it is one of this job with this outcome. */
  lemma LastReleaseStep(trace: seq<Action>, job: JobId, outcome: Outcome)
    requires After(trace).Some? && trace != []
    ensures var n := |trace| - 1;
            || (LastRelease(trace, job, outcome).Some?
                && ReleasesAt(trace, n, job, LastRelease(trace, job, outcome).value, outcome))
            || (LastRelease(trace, job, outcome) == LastRelease(trace[..n], job, outcome)
                && NoneFrom(trace, n, job, outcome))
  {
  }

  /** The step of the last release. */
  lemma {:induction false} LastReleaseAt(trace: seq<Action>, job: JobId, outcome: Outcome) returns (q: nat)
    requires After(trace).Some? && LastRelease(trace, job, outcome).Some?
    ensures ReleasesAt(trace, q, job, LastRelease(trace, job, outcome).value, outcome)
    ensures NoneFrom(trace, q + 1, job, outcome)
  {
    var n := |trace| - 1;
    LastReleaseStep(trace, job, outcome);
    if ReleasesAt(trace, n, job, LastRelease(trace, job, outcome).value, outcome) {
      q := n;
    } else {
      q := LastReleaseAt(trace[..n], job, outcome);
      SamePrefix(trace, n, q, job, LastRelease(trace, job, outcome).value, outcome);
      NoneFromStep(trace, n, q + 1, job, outcome);
    }
  }

  lemma {:induction false} NoReleaseSince(trace: seq<Action>, p: nat, job: JobId, outcome: Outcome)
    requires After(trace).Some? && p <= |trace| && NoneFrom(trace, p, job, outcome)
    ensures After(trace[..p]).Some? && LastRelease(trace, job, outcome) == LastRelease(trace[..p], job, outcome)
  {
    var n := |trace| - 1;
    if p == |trace| {
      assert trace[..p] == trace;
    } else {
      LastReleaseStep(trace, job, outcome);
      assert trace[..n][..p] == trace[..p];
      NoneFromStep(trace, n, p, job, outcome);
      NoReleaseSince(trace[..n], p, job, outcome);
    }
  }

  /** By step p the job's current prompt had been released with that outcome. */
  ghost predicate SettledBy(trace: seq<Action>, p: nat, job: JobId, outcome: Outcome) {
    After(trace).Some? && p <= |trace| && After(trace[..p]).Some?
    && LastRelease(trace[..p], job, outcome) == Some(Prompts(trace, job))
  }

  /**
   Step q released an older prompt of the job with that outcome, and the current one was not released with it
   after that.
   */
  ghost predicate Overwrites(trace: seq<Action>, q: nat, job: JobId, outcome: Outcome) {
    && (exists g: nat :: g < Prompts(trace, job) && ReleasesAt(trace, q, job, g, outcome))
    && forall r: nat :: r > q ==> !ReleasesAt(trace, r, job, Prompts(trace, job), outcome)
  }

  lemma OverwrittenSince(trace: seq<Action>, p: nat, job: JobId, outcome: Outcome) returns (q: nat)
    requires SettledBy(trace, p, job, outcome) && LastRelease(trace, job, outcome) != Some(Prompts(trace, job))
    ensures p <= q && Overwrites(trace, q, job, outcome)
  {
    if LastRelease(trace, job, outcome).None? {
      NoReleaseBefore(trace, p, job, outcome);
      assert false;
    }
    var g := LastRelease(trace, job, outcome).value;
    q := LastReleaseAt(trace, job, outcome);
    ReleasedIsAPrompt(trace, q, job, g, outcome);
    if q < p {
      NoReleaseSince(trace, p, job, outcome);
      assert false;
    }
  }

  lemma {:induction false} NoReleaseBefore(trace: seq<Action>, p: nat, job: JobId, outcome: Outcome)
    requires After(trace).Some? && p <= |trace| && LastRelease(trace, job, outcome).None?
    ensures After(trace[..p]).Some? && LastRelease(trace[..p], job, outcome).None?
  {
    if p == |trace| {
      assert trace[..p] == trace;
    } else {
      assert trace[..|trace| - 1][..p] == trace[..p];
      NoReleaseBefore(trace[..|trace| - 1], p, job, outcome);
    }
  }

  lemma OverwrittenIsNotTheLast(trace: seq<Action>, q: nat, job: JobId, outcome: Outcome)
    requires After(trace).Some? && Overwrites(trace, q, job, outcome)
    ensures LastRelease(trace, job, outcome) != Some(Prompts(trace, job))
  {
    var g: nat :| g < Prompts(trace, job) && ReleasesAt(trace, q, job, g, outcome);
    if LastRelease(trace, job, outcome).Some? {
      var last := LastReleaseAt(trace, job, outcome);
      assert last >= q;
      assert last == q ==> LastRelease(trace, job, outcome).value == g;
    }
  }

  /**
   A settled prompt counts as unsettled exactly when an older one was released with the same outcome since,
   and it was not released again.
   */
  lemma UnsettledExactlyWhen(trace: seq<Action>, p: nat, job: JobId, outcome: Outcome)
    requires SettledBy(trace, p, job, outcome)
    ensures LastRelease(trace, job, outcome) != Some(Prompts(trace, job)) <==>
            exists q: nat :: p <= q && Overwrites(trace, q, job, outcome)
  {
    if LastRelease(trace, job, outcome) != Some(Prompts(trace, job)) {
      var q := OverwrittenSince(trace, p, job, outcome);
    }
    if q: nat :| p <= q && Overwrites(trace, q, job, outcome) {
      OverwrittenIsNotTheLast(trace, q, job, outcome);
    }
  }

  /** The next turn of call `w` on `job` opens a dialog for the current prompt. */
  ghost predicate AsksNow(trace: seq<Action>, w: nat, job: JobId)
    requires After(trace).Some?
  {
    var s := After(trace).value;
    && w < |s.waiters| && s.waiters[w].job == job && Enabled(s, Evaluate(w, 0))
    && Decide(s, s.waiters[w]) == OpenDialog(Prompts(trace, job))
  }

  /** A live call that can elicit is about to look at the paused job, and no dialog for its current prompt is open. */
  ghost predicate CouldAsk(trace: seq<Action>, w: nat, job: JobId)
    requires After(trace).Some?
  {
    var s := After(trace).value;
    && w < |s.waiters| && s.waiters[w].job == job && Enabled(s, Evaluate(w, 0)) && !s.waiters[w].aborted
        && s.waiters[w].canElicit
    && Get(s.status, job) == Some(AwaitingInput) && forall i: nat :: !Holder(s, i, job, Prompts(trace, job))
  }

  lemma AsksExactlyWhen(trace: seq<Action>, w: nat, job: JobId)
    requires After(trace).Some?
    ensures AsksNow(trace, w, job) <==>
            && CouldAsk(trace, w, job)
            && LastRelease(trace, job, HandedOff) != Some(Prompts(trace, job))
            && LastRelease(trace, job, Cancelling) != Some(Prompts(trace, job))
  {
    InvariantHolds(trace);
    TrackerIsTheHistory(trace, job);
  }

  function OtherOutcome(outcome: Outcome): Outcome {
    if outcome == HandedOff then Cancelling else HandedOff
  }

  /**
   A prompt that was handed off, or whose job is being cancelled, is asked about again by a call that
   could ask exactly when an older prompt of the job was released later with the same outcome, the
   current one was not released with it after that, and the other outcome does not stand for it.
   */
  lemma AskedAgainExactlyWhen(trace: seq<Action>, p: nat, w: nat, job: JobId, outcome: Outcome)
    requires SettledBy(trace, p, job, outcome) && outcome != Resolved
    ensures AsksNow(trace, w, job) <==>
            && CouldAsk(trace, w, job)
            && (exists q: nat :: p <= q && Overwrites(trace, q, job, outcome))
            && LastRelease(trace, job, OtherOutcome(outcome)) != Some(Prompts(trace, job))
  {
    UnsettledExactlyWhen(trace, p, job, outcome);
    AsksExactlyWhen(trace, w, job);
  }

  // ---- When a settled prompt stays settled ----

  /** A withdrawn dialog's request is aborted, so it can only fail: no reply to it is delivered. */
  ghost predicate RepliesAreDelivered(trace: seq<Action>) {
    forall k :: 0 <= k < |trace| && After(trace[..k]).Some? ==> IsDelivered(After(trace[..k]).value, trace[k])
  }

  predicate IsDelivered(s: System, a: Action) {
    a.Settle? && Enabled(s, a) && s.waiters[a.w].pc.withdrawn ==> a.reply == RequestFailed
  }

  /** The call's release can still write its generation as handed off or cancelling. */
  predicate MaySettle(pc: Pc) {
    (pc.InDialog? && !pc.withdrawn) || (pc.Replied? && pc.step.Outcome() != Resolved)
  }

  /** No prompt comes while a dialog of its job is open that was not withdrawn, or settled but is not yet released. */
  ghost predicate PromptsComeAlone(trace: seq<Action>) {
    forall k :: 0 <= k < |trace| && After(trace[..k]).Some? ==> ComesAlone(After(trace[..k]).value, trace[k])
  }

  predicate ComesAlone(s: System, a: Action) {
    a.PromptEvent? ==> forall i :: 0 <= i < |s.waiters| && s.waiters[i].job == a.job ==> !MaySettle(s.waiters[i].pc)
  }

  /** Then a dialog that may settle is about the current prompt. */
  ghost predicate SettlersAreCurrent(s: System) {
    forall i :: 0 <= i < |s.waiters| && MaySettle(s.waiters[i].pc) ==>
      s.waiters[i].pc.generation == s.tracker.Generation(s.waiters[i].job)
  }

  lemma SettlerStaysCurrent(s: System, a: Action, i: nat)
    requires Enabled(s, a) && SettlersAreCurrent(s) && IsDelivered(s, a) && ComesAlone(s, a)
    requires i < |Apply(s, a).waiters| && MaySettle(Apply(s, a).waiters[i].pc)
    ensures Apply(s, a).waiters[i].pc.generation == Apply(s, a).tracker.Generation(Apply(s, a).waiters[i].job)
  {
    if i < |s.waiters| { assert Apply(s, a).waiters[i].job == s.waiters[i].job; }
  }

  lemma {:induction false} SettlersStayCurrent(trace: seq<Action>)
    requires After(trace).Some? && RepliesAreDelivered(trace) && PromptsComeAlone(trace)
    ensures SettlersAreCurrent(After(trace).value)
  {
    if trace != [] {
      var n := |trace| - 1;
      assert forall k :: 0 <= k < n ==> trace[..n][..k] == trace[..k];
      SettlersStayCurrent(trace[..n]);
      var s := After(trace[..n]).value;
      assert IsDelivered(s, trace[n]) && ComesAlone(s, trace[n]);
      forall i | 0 <= i < |After(trace).value.waiters| && MaySettle(After(trace).value.waiters[i].pc)
        ensures After(trace).value.waiters[i].pc.generation
             == After(trace).value.tracker.Generation(After(trace).value.waiters[i].job)
      {
        SettlerStaysCurrent(s, trace[n], i);
      }
    }
  }

  /** What is handed off or cancelled is then always the current prompt. */
  lemma ReleasesAreCurrent(trace: seq<Action>, q: nat, job: JobId, g: nat, outcome: Outcome)
    requires RepliesAreDelivered(trace) && PromptsComeAlone(trace)
    requires ReleasesAt(trace, q, job, g, outcome) && outcome != Resolved
    ensures g == Prompts(trace[..q], job)
  {
    assert forall k :: 0 <= k < q ==> trace[..q][..k] == trace[..k];
    SettlersStayCurrent(trace[..q]);
    TrackerIsTheHistory(trace[..q], job);
  }

  lemma SettledIsAPrompt(trace: seq<Action>, p: nat, job: JobId, outcome: Outcome)
    requires SettledBy(trace, p, job, outcome)
    ensures Prompts(trace, job) <= Prompts(trace[..p], job)
  {
    var q := LastReleaseAt(trace[..p], job, outcome);
    ReleasedIsAPrompt(trace[..p], q, job, Prompts(trace, job), outcome);
  }

  /**
   If replies are delivered and prompts come alone, a prompt that was handed off, or whose job is
   being cancelled, stays so until the next prompt: it is never asked about again.
   */
  lemma SettledPromptStaysSettled(trace: seq<Action>, p: nat, w: nat, job: JobId, outcome: Outcome)
    requires SettledBy(trace, p, job, outcome) && outcome != Resolved
    requires RepliesAreDelivered(trace) && PromptsComeAlone(trace)
    ensures LastRelease(trace, job, outcome) == Some(Prompts(trace, job)) && !AsksNow(trace, w, job)
  {
    SettledIsAPrompt(trace, p, job, outcome);
    forall q: nat, g: nat | p <= q && ReleasesAt(trace, q, job, g, outcome) ensures g >= Prompts(trace, job) {
      ReleasesAreCurrent(trace, q, job, g, outcome);
      assert trace[..q][..p] == trace[..p];
      PromptsGrow(trace[..q], p, job);
    }
    UnsettledExactlyWhen(trace, p, job, outcome);
    AsksExactlyWhen(trace, w, job);
  }

  lemma Extend(trace: seq<Action>, s: System, a: Action, t: System) returns (longer: seq<Action>)
    requires After(trace) == Some(s) && Enabled(s, a) && Apply(s, a) == t
    requires RepliesAreDelivered(trace) && IsDelivered(s, a)
    ensures longer == trace + [a] && After(longer) == Some(t) && RepliesAreDelivered(longer)
  {
    longer := trace + [a];
    AfterExtended(trace, a);
    assert longer[..|trace|] == trace;
    assert forall k :: 0 <= k < |trace| ==> longer[..k] == trace[..k];
  }

  function Call(pc: Pc): Waiter {
    Waiter(1, true, 100, false, pc)
  }

  /**
   Three calls on job 1: the first has a dialog open when the job, still paused, prompts again; the second
   asks about that.
   */
  lemma TwoPrompts() returns (trace: seq<Action>)
    ensures RepliesAreDelivered(trace)
    ensures After(trace) == Some(System(map[1 := AwaitingInput], Tracker(map[1 := 2], map[1 := 2], map[], map[]),
                                        [Call(InDialog(1, false)), Call(InDialog(2, false)), Call(Runnable)]))
  {
    var paused := System(map[1 := AwaitingInput], EMPTY_TRACKER, []);
    var prompted := paused.(tracker := Tracker(map[1 := 1], map[], map[], map[]));
    trace := Extend([], INITIAL, StatusEvent(1, AwaitingInput), paused);
    assert Notify([], 1, false) == [];
    trace := Extend(trace, paused, PromptEvent(1), prompted);
    var called := prompted.(waiters := [Call(Runnable), Call(Runnable), Call(Runnable)]);
    trace := ThreeCalls(trace, prompted, called);
    trace := TwoPromptsAsked(trace, called);
  }

  lemma ThreeCalls(before: seq<Action>, s: System, t: System) returns (trace: seq<Action>)
    requires After(before) == Some(s) && RepliesAreDelivered(before) && 1 in s.status && s.waiters == []
    requires t == s.(waiters := [Call(Runnable), Call(Runnable), Call(Runnable)])
    ensures After(trace) == Some(t) && RepliesAreDelivered(trace)
  {
    var start, r := StartCall(1, true, 100, false), Call(Runnable);
    trace := Extend(before, s, start, s.(waiters := [r]));
    trace := Extend(trace, s.(waiters := [r]), start, s.(waiters := [r, r]));
    trace := Extend(trace, s.(waiters := [r, r]), start, t);
  }

  lemma TwoPromptsAsked(before: seq<Action>, s: System) returns (trace: seq<Action>)
    requires s == System(map[1 := AwaitingInput], Tracker(map[1 := 1], map[], map[], map[]),
                         [Call(Runnable), Call(Runnable), Call(Runnable)])
    requires After(before) == Some(s) && RepliesAreDelivered(before)
    ensures RepliesAreDelivered(trace)
    ensures After(trace) == Some(System(map[1 := AwaitingInput], Tracker(map[1 := 2], map[1 := 2], map[], map[]),
                                        [Call(InDialog(1, false)), Call(InDialog(2, false)), Call(Runnable)]))
  {
    var asked1 := s.(tracker := s.tracker.(asking := map[1 := 1]),
                     waiters := [Call(InDialog(1, false)), Call(Runnable), Call(Runnable)]);
    trace := Extend(before, s, Evaluate(0, 0), asked1);
    trace := SecondPrompt(trace, asked1);
  }

  lemma SecondPrompt(before: seq<Action>, s: System) returns (trace: seq<Action>)
    requires s == System(map[1 := AwaitingInput], Tracker(map[1 := 1], map[1 := 1], map[], map[]),
                         [Call(InDialog(1, false)), Call(Runnable), Call(Runnable)])
    requires After(before) == Some(s) && RepliesAreDelivered(before)
    ensures RepliesAreDelivered(trace)
    ensures After(trace) == Some(System(map[1 := AwaitingInput], Tracker(map[1 := 2], map[1 := 2], map[], map[]),
                                        [Call(InDialog(1, false)), Call(InDialog(2, false)), Call(Runnable)]))
  {
    var prompted := s.(tracker := s.tracker.(generations := map[1 := 2]));
    assert Notify(s.waiters, 1, false) == s.waiters;
    trace := Extend(before, s, PromptEvent(1), prompted);
    var asked2 := prompted.(tracker := prompted.tracker.(asking := map[1 := 2]),
                            waiters := [Call(InDialog(1, false)), Call(InDialog(2, false)), Call(Runnable)]);
    trace := Extend(trace, prompted, Evaluate(1, 0), asked2);
  }

  /** The second call is declined, so prompt 2 is handed off. */
  lemma PromptHandedOff() returns (trace: seq<Action>, s: System)
    ensures After(trace) == Some(s) && RepliesAreDelivered(trace)
    ensures s == System(map[1 := AwaitingInput], Tracker(map[1 := 2], map[], map[1 := 2], map[]),
                        [Call(InDialog(1, false)), Call(Returned(PromptPending)), Call(Runnable)])
  {
    trace := TwoPrompts();
    var before := After(trace).value;
    var first, third := Call(InDialog(1, false)), Call(Runnable);
    var settled := before.(waiters := [first, Call(Replied(2, HandOff)), third]);
    trace := Extend(trace, before, Settle(1, Declined), settled);
    s := before.(tracker := Tracker(map[1 := 2], map[], map[1 := 2], map[]),
                 waiters := [first, Call(Returned(PromptPending)), third]);
    assert Notify(s.waiters, 1, false) == s.waiters;
    trace := Extend(trace, settled, ReleaseClaim(1), s);
  }

  /** The first dialog, never withdrawn, is declined too: prompt 1 overwrites prompt 2. */
  lemma OlderHandOff(before: seq<Action>, s: System) returns (trace: seq<Action>)
    requires After(before) == Some(s) && RepliesAreDelivered(before)
    requires s == System(map[1 := AwaitingInput], Tracker(map[1 := 2], map[], map[1 := 2], map[]),
                         [Call(InDialog(1, false)), Call(Returned(PromptPending)), Call(Runnable)])
    ensures trace == before + [Settle(0, Declined)] + [ReleaseClaim(0)] && RepliesAreDelivered(trace)
    ensures After(trace) == Some(System(map[1 := AwaitingInput], Tracker(map[1 := 2], map[], map[1 := 1], map[]),
                                        [Call(Returned(PromptPending)), Call(Returned(PromptPending)), Call(Runnable)]))
  {
    var done := Call(Returned(PromptPending));
    var settled := s.(waiters := [Call(Replied(1, HandOff)), done, Call(Runnable)]);
    trace := Extend(before, s, Settle(0, Declined), settled);
    var t := s.(tracker := Tracker(map[1 := 2], map[], map[1 := 1], map[]), waiters := [done, done, Call(Runnable)]);
    assert Notify(t.waiters, 1, false) == t.waiters;
    trace := Extend(trace, settled, ReleaseClaim(0), t);
  }

  /** The unconditional write of release: the release of prompt 1 makes the handed-off prompt 2 askable again. */
  lemma StaleReleaseReopensAHandedOffPrompt() returns (trace: seq<Action>, p: nat)
    ensures After(trace).Some? && p <= |trace| && After(trace[..p]).Some?
    ensures LastRelease(trace[..p], 1, HandedOff) == Some(2)
    ensures Enabled(After(trace).value, Evaluate(2, 0))
    ensures Decide(After(trace).value, After(trace).value.waiters[2]) == OpenDialog(2)
    ensures RepliesAreDelivered(trace)
  {
    var handedOff, s := PromptHandedOff();
    TrackerIsTheHistory(handedOff, 1);
    p := |handedOff|;
    trace := OlderHandOff(handedOff, s);
    assert trace[..p] == handedOff;
  }
}
