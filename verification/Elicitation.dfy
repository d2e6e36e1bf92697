/**
 Which prompt of a job a human is being asked about (src/mcp/elicitation.ts).

 A job's generation counts its prompt events.  The tracker remembers, per job, the generation
 some dialog is open for, the last generation handed off to the model, and the last generation
 whose answer was "cancel the job".
 */
module Elicitation {
  import opened Wrappers

  type JobId = int

  datatype Outcome = Resolved | HandedOff | Cancelling

  datatype Claim = Ask(generation: nat) | Busy | AlreadyHandedOff

  /** The four maps of the tracker, as a value. */
  datatype Tracker = Tracker(
    generations: map<JobId, nat>,
    asking: map<JobId, nat>,
    handedOff: map<JobId, nat>,
    cancelling: map<JobId, nat>)
  {
    function Generation(job: JobId): nat {
      Get(generations, job).GetOr(0)
    }

    function ClaimOf(job: JobId): Claim {
      var g := Some(Generation(job));
      if Get(handedOff, job) == g then AlreadyHandedOff
      else if Get(asking, job) == g then Busy
      else if Get(cancelling, job) == g then Busy
      else Ask(g.value)
    }

    function AfterClaim(job: JobId): Tracker {
      match ClaimOf(job)
      case Ask(g) => this.(asking := asking[job := g])
      case _ => this
    }

    function AfterRelease(job: JobId, generation: nat, outcome: Outcome): Tracker {
      this.(
        asking := if Get(asking, job) == Some(generation) then asking - {job} else asking,
        handedOff := if outcome == HandedOff then handedOff[job := generation] else handedOff,
        cancelling := if outcome == Cancelling then cancelling[job := generation] else cancelling)
    }

    function AfterPrompt(job: JobId): Tracker {
      this.(generations := generations[job := Generation(job) + 1])
    }
  }

  const EMPTY_TRACKER := Tracker(map[], map[], map[], map[])

  /** The shared, mutable tracker.  `changes` is the sequence of "change" events it has emitted. */
  class PromptTracker {
    var generations: map<JobId, nat>
    var asking: map<JobId, nat>
    var handedOff: map<JobId, nat>
    var cancelling: map<JobId, nat>
    var changes: seq<JobId>

    ghost function Abs(): Tracker
      reads this
    {
      Tracker(generations, asking, handedOff, cancelling)
    }

    constructor ()
      ensures Abs() == EMPTY_TRACKER && changes == []
    {
      generations, asking, handedOff, cancelling, changes := map[], map[], map[], map[], [];
    }

    /** The handler of the runner's "prompt" event. */
    method OnPrompt(job: JobId)
      modifies this
      ensures Abs() == old(Abs()).AfterPrompt(job) && changes == old(changes)
    {
      var current := if job in generations then generations[job] else 0;
      generations := generations[job := current + 1];
    }

    method Claim(job: JobId) returns (claim: Claim)
      modifies this
      ensures claim == old(Abs()).ClaimOf(job)
      ensures Abs() == old(Abs()).AfterClaim(job) && changes == old(changes)
    {
      var generation := if job in generations then generations[job] else 0;
      if job in handedOff && handedOff[job] == generation { return AlreadyHandedOff; }
      if job in asking && asking[job] == generation { return Busy; }
      if job in cancelling && cancelling[job] == generation { return Busy; }
      asking := asking[job := generation];
      return Ask(generation);
    }

    method Release(job: JobId, generation: nat, outcome: Outcome)
      modifies this
      ensures Abs() == old(Abs()).AfterRelease(job, generation, outcome)
      ensures changes == old(changes) + [job]
    {
      if job in asking && asking[job] == generation { asking := asking - {job}; }
      if outcome == HandedOff { handedOff := handedOff[job := generation]; }
      if outcome == Cancelling { cancelling := cancelling[job := generation]; }
      changes := changes + [job];
    }
  }
}
