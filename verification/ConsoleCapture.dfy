/**
 Captures of console output that nest and overlap (src/web/console-capture.ts).

 Two console slots, two wrappers, a saved fallback for each wrapper, and a count of captures.
 Code outside may assign any function to a slot at any time.  A log call carries the capture in
 whose asynchronous context it runs, if any.
 */
module ConsoleCapture {
  import opened Wrappers

  datatype Fn = LogWrapper | ErrorWrapper | Foreign(id: int)

  datatype Slot = LogSlot | ErrorSlot {
    function Wrapper(): Fn {
      if LogSlot? then LogWrapper else ErrorWrapper
    }
  }

  datatype Sink = Sink(lines: seq<string>, active: bool)

  /** `printed` is what the foreign console functions were called with, in order. */
  datatype Console = Console(
    log: Fn, error: Fn, fallbackLog: Fn, fallbackError: Fn,
    activeCaptures: int, sinks: seq<Sink>, printed: seq<(int, string)>)
  {
    function At(slot: Slot): Fn {
      if slot.LogSlot? then log else error
    }

    function Fallback(slot: Slot): Fn {
      if slot.LogSlot? then fallbackLog else fallbackError
    }

    function Assigned(slot: Slot, fn: Fn): Console {
      if slot.LogSlot? then this.(log := fn) else this.(error := fn)
    }

    function Installed(): Console {
      this.(
        fallbackLog := if log != LogWrapper then log else fallbackLog,
        log := LogWrapper,
        fallbackError := if error != ErrorWrapper then error else fallbackError,
        error := ErrorWrapper,
        activeCaptures := activeCaptures + 1)
    }

    function Uninstalled(): Console {
      var last := activeCaptures - 1 == 0;
      this.(
        activeCaptures := activeCaptures - 1,
        log := if last && log == LogWrapper then fallbackLog else log,
        error := if last && error == ErrorWrapper then fallbackError else error)
    }

    predicate Capturing(context: Option<nat>) {
      context.Some? && context.value < |sinks| && sinks[context.value].active
    }

    /** Where a line given to `fn` ends up; None when it has not arrived after `depth` fallbacks. */
    function Route(fn: Fn, context: Option<nat>, depth: nat): Option<Target>
      decreases depth
    {
      match fn
      case Foreign(id) => Some(Printed(id))
      case _ =>
        if Capturing(context) then Some(Captured(context.value))
        else if depth == 0 then None
        else Route(if fn.LogWrapper? then fallbackLog else fallbackError, context, depth - 1)
    }

    function Receive(target: Target, line: string): Console
      requires target.Captured? ==> target.sink < |sinks|
    {
      match target
      case Captured(i) => this.(sinks := sinks[i := sinks[i].(lines := sinks[i].lines + [line])])
      case Printed(id) => this.(printed := printed + [(id, line)])
    }

    /** Each wrapper is the other one's fallback. */
    predicate Crossed() {
      fallbackLog == ErrorWrapper && fallbackError == LogWrapper
    }
  }

  datatype Target = Captured(sink: nat) | Printed(id: int)

  datatype Event =
    | Start
    | Finish(capture: nat)
    | Assign(slot: Slot, fn: Fn)
    | Log(slot: Slot, context: Option<nat>, line: string)

  const MAX_DEPTH := 2

  predicate Enabled(c: Console, e: Event) {
    match e
    case Start => true
    case Finish(i) => i < |c.sinks| && c.sinks[i].active
    case Assign(_, _) => true
    case Log(slot, context, _) => c.Route(c.At(slot), context, MAX_DEPTH).Some?
  }

  function Apply(c: Console, e: Event): Console
    requires Enabled(c, e)
  {
    match e
    case Start => c.Installed().(sinks := c.sinks + [Sink([], true)])
    case Finish(i) => c.(sinks := c.sinks[i := c.sinks[i].(active := false)]).Uninstalled()
    case Assign(slot, fn) => c.Assigned(slot, fn)
    case Log(slot, context, line) =>
      RouteIsASink(c, c.At(slot), context, MAX_DEPTH);
      c.Receive(c.Route(c.At(slot), context, MAX_DEPTH).value, line)
  }

  lemma {:induction false} RouteIsASink(c: Console, fn: Fn, context: Option<nat>, depth: nat)
    ensures var t := c.Route(fn, context, depth);
            t.Some? && t.value.Captured? ==> c.Capturing(context) && t.value.sink == context.value
    decreases depth
  {
    if !fn.Foreign? && !c.Capturing(context) && depth > 0 {
      RouteIsASink(c, if fn.LogWrapper? then c.fallbackLog else c.fallbackError, context, depth - 1);
    }
  }

  function Fresh(log: int, error: int): Console {
    Console(Foreign(log), Foreign(error), Foreign(log), Foreign(error), 0, [], [])
  }

  /** The state after a run that starts with two foreign console functions. */
  function After(log: int, error: int, trace: seq<Event>): Option<Console> {
    if trace == [] then Some(Fresh(log, error))
    else match After(log, error, trace[..|trace| - 1])
         case None => None
         case Some(c) =>
           var e := trace[|trace| - 1];
           if Enabled(c, e) then Some(Apply(c, e)) else None
  }

  // ---- The module's own code, on its variables ----

  class Capturer {
    var log: Fn
    var error: Fn
    var fallbackLog: Fn
    var fallbackError: Fn
    var activeCaptures: int
    var sinks: seq<Sink>
    var printed: seq<(int, string)>

    ghost function Abs(): Console
      reads this
    {
      Console(log, error, fallbackLog, fallbackError, activeCaptures, sinks, printed)
    }

    constructor (log: int, error: int)
      ensures Abs() == Fresh(log, error)
    {
      this.log, this.error := Foreign(log), Foreign(error);
      fallbackLog, fallbackError := Foreign(log), Foreign(error);
      activeCaptures, sinks, printed := 0, [], [];
    }

    method Install()
      modifies this
      ensures Abs() == old(Abs()).Installed()
    {
      if log != LogWrapper {
        fallbackLog := log;
        log := LogWrapper;
      }
      if error != ErrorWrapper {
        fallbackError := error;
        error := ErrorWrapper;
      }
      activeCaptures := activeCaptures + 1;
    }

    method Uninstall()
      modifies this
      ensures Abs() == old(Abs()).Uninstalled()
    {
      activeCaptures := activeCaptures - 1;
      if activeCaptures == 0 {
        if log == LogWrapper { log := fallbackLog; }
        if error == ErrorWrapper { error := fallbackError; }
      }
    }

    /** The first half of withCapturedConsole. */
    method StartCapture() returns (capture: nat)
      modifies this
      ensures capture == old(|sinks|) && Abs() == Apply(old(Abs()), Start)
    {
      capture := |sinks|;
      sinks := sinks + [Sink([], true)];
      Install();
    }

    /** Its second half, once the captured function has settled either way. */
    method FinishCapture(capture: nat) returns (lines: seq<string>)
      requires capture < |sinks| && sinks[capture].active
      modifies this
      ensures lines == old(sinks[capture].lines) && Abs() == Apply(old(Abs()), Finish(capture))
    {
      lines := sinks[capture].lines;
      sinks := sinks[capture := sinks[capture].(active := false)];
      Uninstall();
    }

    /** A call of the function held by `slot`: wrappers hand the line on until somebody takes it. */
    method WriteLine(slot: Slot, context: Option<nat>, line: string)
      requires Enabled(Abs(), Log(slot, context, line))
      modifies this`sinks, this`printed
      ensures Abs() == Apply(old(Abs()), Log(slot, context, line))
    {
      var fn := if slot.LogSlot? then log else error;
      ghost var depth: nat := MAX_DEPTH;
      while !fn.Foreign?
        invariant Abs() == old(Abs())
        invariant Abs().Route(fn, context, depth) == Abs().Route(Abs().At(slot), context, MAX_DEPTH)
        decreases depth
      {
        if context.Some? && context.value < |sinks| && sinks[context.value].active {
          var i := context.value;
          sinks := sinks[i := sinks[i].(lines := sinks[i].lines + [line])];
          return;
        }
        fn := if fn.LogWrapper? then fallbackLog else fallbackError;
        depth := depth - 1;
      }
      printed := printed + [(fn.id, line)];
    }
  }

  // ---- Restoration ----

  /** The last function outside code assigned to the slot, or the one it held at first. */
  function LastAssigned(first: int, slot: Slot, trace: seq<Event>): Fn {
    if trace == [] then Foreign(first)
    else
      var e := trace[|trace| - 1];
      if e.Assign? && e.slot == slot then e.fn else LastAssigned(first, slot, trace[..|trace| - 1])
  }

  predicate AssignsOnlyForeign(trace: seq<Event>) {
    forall e | e in trace :: e.Assign? ==> e.fn.Foreign?
  }

  function ActiveSinks(sinks: seq<Sink>): nat {
    if sinks == [] then 0
    else ActiveSinks(sinks[..|sinks| - 1]) + if sinks[|sinks| - 1].active then 1 else 0
  }

  lemma {:induction false} ActiveSinksUpdate(sinks: seq<Sink>, i: nat, s: Sink)
    requires i < |sinks|
    ensures ActiveSinks(sinks[i := s]) - (if s.active then 1 else 0)
            == ActiveSinks(sinks) - (if sinks[i].active then 1 else 0)
  {
    var n := |sinks| - 1;
    if i < n {
      ActiveSinksUpdate(sinks[..n], i, s);
      assert sinks[i := s][..n] == sinks[..n][i := s];
    } else {
      assert sinks[i := s][..n] == sinks[..n];
    }
  }

  /** The counter counts the captures that have started and not finished. */
  lemma {:induction false} CounterCountsActiveCaptures(log: int, error: int, trace: seq<Event>)
    requires After(log, error, trace).Some?
    ensures var c := After(log, error, trace).value; c.activeCaptures == ActiveSinks(c.sinks)
  {
    if trace != [] {
      var before := trace[..|trace| - 1];
      CounterCountsActiveCaptures(log, error, before);
      CounterStep(After(log, error, before).value, trace[|trace| - 1]);
    }
  }

  lemma CounterStep(c: Console, e: Event)
    requires Enabled(c, e) && c.activeCaptures == ActiveSinks(c.sinks)
    ensures Apply(c, e).activeCaptures == ActiveSinks(Apply(c, e).sinks)
  {
    match e {
      case Start =>
        assert (c.sinks + [Sink([], true)])[..|c.sinks|] == c.sinks;
      case Finish(i) => ActiveSinksUpdate(c.sinks, i, c.sinks[i].(active := false));
      case Assign(_, _) =>
      case Log(slot, context, line) =>
        var target := c.Route(c.At(slot), context, MAX_DEPTH).value;
        RouteIsASink(c, c.At(slot), context, MAX_DEPTH);
        if target.Captured? {
          var sink := c.sinks[target.sink];
          ActiveSinksUpdate(c.sinks, target.sink, sink.(lines := sink.lines + [line]));
        }
    }
  }

  /** While only foreign functions are assigned, the last one is in the slot, or behind its wrapper. */
  lemma {:induction false} LastAssignedIsKept(log: int, error: int, trace: seq<Event>, slot: Slot)
    requires After(log, error, trace).Some? && AssignsOnlyForeign(trace)
    ensures var c := After(log, error, trace).value;
            var last := LastAssigned(if slot.LogSlot? then log else error, slot, trace);
            && last.Foreign?
            && (if c.At(slot) == slot.Wrapper() then c.Fallback(slot) == last else c.At(slot) == last)
            && (c.activeCaptures == 0 ==> c.At(slot) != slot.Wrapper())
  {
    if trace != [] {
      var before := trace[..|trace| - 1];
      assert AssignsOnlyForeign(before);
      LastAssignedIsKept(log, error, before, slot);
      CounterCountsActiveCaptures(log, error, before);
      assert trace[|trace| - 1] in trace;
    }
  }

  /** Once every capture has ended, each slot holds the last function assigned to it. */
  lemma RestoredWhenAllCapturesEnded(log: int, error: int, trace: seq<Event>, slot: Slot)
    requires After(log, error, trace).Some? && AssignsOnlyForeign(trace)
    requires forall i ::
            0 <= i < |After(log, error, trace).value.sinks| ==> !After(log, error, trace).value.sinks[i].active
    ensures After(log, error, trace).value.At(slot) == LastAssigned(if slot.LogSlot? then log else error, slot, trace)
  {
    LastAssignedIsKept(log, error, trace, slot);
    CounterCountsActiveCaptures(log, error, trace);
    NoActiveSinks(After(log, error, trace).value.sinks);
  }

  lemma {:induction false} NoActiveSinks(sinks: seq<Sink>)
    requires forall i :: 0 <= i < |sinks| ==> !sinks[i].active
    ensures ActiveSinks(sinks) == 0
  {
    if sinks != [] {
      NoActiveSinks(sinks[..|sinks| - 1]);
    }
  }

  // ---- No recursion ----

  predicate NoWrapperIsItsOwnFallback(c: Console) {
    c.fallbackLog != LogWrapper && c.fallbackError != ErrorWrapper
  }

  lemma {:induction false} NeverItsOwnFallback(log: int, error: int, trace: seq<Event>)
    requires After(log, error, trace).Some?
    ensures NoWrapperIsItsOwnFallback(After(log, error, trace).value)
  {
    if trace != [] {
      NeverItsOwnFallback(log, error, trace[..|trace| - 1]);
    }
  }

  /**
   A line from outside every capture arrives exactly when the wrappers do not fall back on each other; then
   within two hops.
   */
  lemma OutsideLineArrivesExactlyWhen(log: int, error: int, trace: seq<Event>, slot: Slot)
    requires After(log, error, trace).Some?
    ensures var c := After(log, error, trace).value;
            && ((exists depth: nat :: c.Route(c.At(slot), None, depth).Some?) <==> c.At(slot).Foreign? || !c.Crossed())
            && ((exists depth: nat :: c.Route(c.At(slot), None, depth).Some?) <==>
                c.Route(c.At(slot), None, MAX_DEPTH).Some?)
  {
    NeverItsOwnFallback(log, error, trace);
    var c := After(log, error, trace).value;
    if c.Crossed() && !c.At(slot).Foreign? {
      forall depth: nat ensures c.Route(c.At(slot), None, depth) == None {
        CrossedNeverArrives(c, c.At(slot), depth);
      }
    } else {
      RouteWithinTwoHops(c, c.At(slot));
    }
  }

  lemma RouteWithinTwoHops(c: Console, fn: Fn)
    requires NoWrapperIsItsOwnFallback(c) && (fn.Foreign? || !c.Crossed())
    ensures c.Route(fn, None, MAX_DEPTH).Some?
  {
    if !fn.Foreign? {
      var next := if fn.LogWrapper? then c.fallbackLog else c.fallbackError;
      if !next.Foreign? {
        assert c.Route(next, None, 1) == c.Route(if next.LogWrapper? then c.fallbackLog else c.fallbackError, None, 0);
      }
    }
  }

  lemma {:induction false} CrossedNeverArrives(c: Console, fn: Fn, depth: nat)
    requires c.Crossed() && !fn.Foreign?
    ensures c.Route(fn, None, depth) == None
    decreases depth
  {
    if depth > 0 {
      CrossedNeverArrives(c, if fn.LogWrapper? then ErrorWrapper else LogWrapper, depth - 1);
    }
  }

  /** Crossing takes two assignments from outside: each slot was given the other one's wrapper. */
  lemma {:induction false} CrossingNeedsBothWrappersSwapped(log: int, error: int, trace: seq<Event>)
    requires After(log, error, trace).Some?
    ensures var c := After(log, error, trace).value;
            && (c.log == ErrorWrapper || c.fallbackLog == ErrorWrapper ==> Assign(LogSlot, ErrorWrapper) in trace)
            && (c.error == LogWrapper || c.fallbackError == LogWrapper ==> Assign(ErrorSlot, LogWrapper) in trace)
            && (c.Crossed() ==> Assign(LogSlot, ErrorWrapper) in trace && Assign(ErrorSlot, LogWrapper) in trace)
  {
    if trace != [] {
      var before := trace[..|trace| - 1];
      CrossingNeedsBothWrappersSwapped(log, error, before);
      assert forall e :: e in before ==> e in trace;
      assert trace[|trace| - 1] in trace;
      CrossingStep(After(log, error, before).value, trace[|trace| - 1]);
    }
  }

  /** A wrapper reaches the other one's slot, or its fallback, from that slot or by an assignment. */
  lemma CrossingStep(c: Console, e: Event)
    requires Enabled(c, e)
    ensures var d := Apply(c, e);
            && (d.log == ErrorWrapper || d.fallbackLog == ErrorWrapper ==>
                  c.log == ErrorWrapper || c.fallbackLog == ErrorWrapper || e == Assign(LogSlot, ErrorWrapper))
            && (d.error == LogWrapper || d.fallbackError == LogWrapper ==>
                  c.error == LogWrapper || c.fallbackError == LogWrapper || e == Assign(ErrorSlot, LogWrapper))
  {
  }

  lemma AfterExtended(log: int, error: int, trace: seq<Event>, e: Event)
    requires After(log, error, trace).Some?
    ensures var c := After(log, error, trace).value;
            After(log, error, trace + [e]) == if Enabled(c, e) then Some(Apply(c, e)) else None
  {
    assert (trace + [e])[..|trace + [e]| - 1] == trace;
  }

  /** Such a run exists, so the file's claim that an outside line can never recurse forever does not hold of it. */
  lemma SwappedWrappersRecurse() returns (trace: seq<Event>)
    ensures trace == [Start, Assign(LogSlot, ErrorWrapper), Assign(ErrorSlot, LogWrapper), Start]
    ensures After(0, 1, trace).Some?
    ensures var c := After(0, 1, trace).value; forall depth: nat :: c.Route(c.At(LogSlot), None, depth) == None
  {
    trace := [];
    AfterExtended(0, 1, trace, Start); trace := trace + [Start];
    AfterExtended(0, 1, trace, Assign(LogSlot, ErrorWrapper)); trace := trace + [Assign(LogSlot, ErrorWrapper)];
    AfterExtended(0, 1, trace, Assign(ErrorSlot, LogWrapper)); trace := trace + [Assign(ErrorSlot, LogWrapper)];
    AfterExtended(0, 1, trace, Start); trace := trace + [Start];
    var c := After(0, 1, trace).value;
    forall depth: nat ensures c.Route(c.At(LogSlot), None, depth) == None {
      CrossedNeverArrives(c, c.At(LogSlot), depth);
    }
  }

  // ---- Isolation: every line reaches exactly one place ----

  /** The lines logged in the context of capture i, through a wrapper, while it was active. */
  function LinesOf(log: int, error: int, trace: seq<Event>, i: nat): seq<string>
    requires After(log, error, trace).Some?
  {
    if trace == [] then []
    else
      var before, e := trace[..|trace| - 1], trace[|trace| - 1];
      var c := After(log, error, before).value;
      if e.Log? && e.context == Some(i) && c.Capturing(Some(i)) && !c.At(e.slot).Foreign?
      then LinesOf(log, error, before, i) + [e.line]
      else LinesOf(log, error, before, i)
  }

  function Starts(trace: seq<Event>): nat {
    if trace == [] then 0 else Starts(trace[..|trace| - 1]) + if trace[|trace| - 1] == Start then 1 else 0
  }

  /** There is a capture for every start, and it is active exactly until its finish; it is finished once. */
  lemma {:induction false} ActiveUntilFinished(log: int, error: int, trace: seq<Event>, i: nat)
    requires After(log, error, trace).Some?
    ensures var sinks := After(log, error, trace).value.sinks;
            |sinks| == Starts(trace) && (i < |sinks| ==> (sinks[i].active <==> Finish(i) !in trace))
            && (i >= |sinks| ==> Finish(i) !in trace)
  {
    if trace != [] {
      var before, e := trace[..|trace| - 1], trace[|trace| - 1];
      ActiveUntilFinished(log, error, before, i);
      assert Finish(i) in trace <==> Finish(i) in before || e == Finish(i);
      var c := After(log, error, before).value;
      if e.Log? { RouteIsASink(c, c.At(e.slot), e.context, MAX_DEPTH); }
    }
  }

  /** A capture holds exactly its own lines, in the order they were logged. */
  lemma {:induction false} SinkHoldsItsOwnLines(log: int, error: int, trace: seq<Event>, i: nat)
    requires After(log, error, trace).Some?
    ensures var c := After(log, error, trace).value;
            (if i < |c.sinks| then c.sinks[i].lines else []) == LinesOf(log, error, trace, i)
  {
    if trace != [] {
      var before, e := trace[..|trace| - 1], trace[|trace| - 1];
      SinkHoldsItsOwnLines(log, error, before, i);
      var c := After(log, error, before).value;
      if e.Log? {
        RouteIsASink(c, c.At(e.slot), e.context, MAX_DEPTH);
        assert c.Capturing(e.context) && !c.At(e.slot).Foreign?
               ==> c.Route(c.At(e.slot), e.context, MAX_DEPTH) == Some(Captured(e.context.value));
      }
    }
  }

  /** The last foreign function outside code assigned to the slot, or the one it held at first. */
  function LastForeign(first: int, slot: Slot, trace: seq<Event>): int {
    if trace == [] then first
    else
      var e := trace[|trace| - 1];
      if e.Assign? && e.slot == slot && e.fn.Foreign? then e.fn.id else LastForeign(first, slot, trace[..|trace| - 1])
  }

  lemma {:induction false} LastAssignedIsForeign(first: int, slot: Slot, trace: seq<Event>)
    requires AssignsOnlyForeign(trace)
    ensures LastAssigned(first, slot, trace) == Foreign(LastForeign(first, slot, trace))
  {
    if trace != [] {
      assert trace[|trace| - 1] in trace;
      LastAssignedIsForeign(first, slot, trace[..|trace| - 1]);
    }
  }

  /** The lines no capture takes, each with the last foreign function its slot was given by then. */
  function UncapturedLines(log: int, error: int, trace: seq<Event>): seq<(int, string)>
    requires After(log, error, trace).Some?
  {
    if trace == [] then []
    else
      var before, e := trace[..|trace| - 1], trace[|trace| - 1];
      var c := After(log, error, before).value;
      var earlier := UncapturedLines(log, error, before);
      if e.Log? && (c.At(e.slot).Foreign? || !c.Capturing(e.context))
      then earlier + [(LastForeign(if e.slot.LogSlot? then log else error, e.slot, before), e.line)]
      else earlier
  }

  /**
   With only foreign assignments from outside, what is printed is exactly those lines, in order, each by that
   function.
   */
  lemma {:induction false} PrintedAreTheUncapturedLines(log: int, error: int, trace: seq<Event>)
    requires After(log, error, trace).Some? && AssignsOnlyForeign(trace)
    ensures After(log, error, trace).value.printed == UncapturedLines(log, error, trace)
  {
    if trace != [] {
      var before, e := trace[..|trace| - 1], trace[|trace| - 1];
      PrintedAreTheUncapturedLines(log, error, before);
      if e.Log? { UncapturedLineIsPrinted(log, error, before, e); }
    }
  }

  lemma UncapturedLineIsPrinted(log: int, error: int, before: seq<Event>, e: Event)
    requires After(log, error, before).Some? && AssignsOnlyForeign(before) && e.Log?
            && Enabled(After(log, error, before).value, e)
    ensures var c := After(log, error, before).value;
            Apply(c, e).printed
            == if c.At(e.slot).Foreign? || !c.Capturing(e.context)
               then c.printed + [(LastForeign(if e.slot.LogSlot? then log else error, e.slot, before), e.line)]
               else c.printed
  {
    var c := After(log, error, before).value;
    var fn := c.At(e.slot);
    LastAssignedIsKept(log, error, before, e.slot);
    LastAssignedIsForeign(if e.slot.LogSlot? then log else error, e.slot, before);
    if !fn.Foreign? && !c.Capturing(e.context) {
      NoForeignSwap(log, error, before);
      assert fn == e.slot.Wrapper();
      assert c.Route(fn, e.context, MAX_DEPTH) == c.Route(c.Fallback(e.slot), e.context, MAX_DEPTH - 1);
    } else if !fn.Foreign? {
      assert c.Route(fn, e.context, MAX_DEPTH) == Some(Captured(e.context.value));
    }
  }

  /** Then a slot never holds the other slot's wrapper. */
  lemma NoForeignSwap(log: int, error: int, trace: seq<Event>)
    requires After(log, error, trace).Some? && AssignsOnlyForeign(trace)
    ensures var c := After(log, error, trace).value; c.log != ErrorWrapper && c.error != LogWrapper
  {
    CrossingNeedsBothWrappersSwapped(log, error, trace);
  }

  function LinesHeld(sinks: seq<Sink>): nat {
    if sinks == [] then 0 else LinesHeld(sinks[..|sinks| - 1]) + |sinks[|sinks| - 1].lines|
  }

  lemma {:induction false} LinesHeldUpdate(sinks: seq<Sink>, i: nat, s: Sink)
    requires i < |sinks|
    ensures LinesHeld(sinks[i := s]) - |s.lines| == LinesHeld(sinks) - |sinks[i].lines|
  {
    var n := |sinks| - 1;
    if i < n {
      LinesHeldUpdate(sinks[..n], i, s);
      assert sinks[i := s][..n] == sinks[..n][i := s];
    } else {
      assert sinks[i := s][..n] == sinks[..n];
    }
  }

  function Logged(trace: seq<Event>): nat {
    if trace == [] then 0 else Logged(trace[..|trace| - 1]) + if trace[|trace| - 1].Log? then 1 else 0
  }

  /** Nothing is lost or doubled: every line logged is in one capture or was printed once. */
  lemma {:induction false} LinesAreConserved(log: int, error: int, trace: seq<Event>)
    requires After(log, error, trace).Some?
    ensures var c := After(log, error, trace).value; LinesHeld(c.sinks) + |c.printed| == Logged(trace)
  {
    if trace != [] {
      var before := trace[..|trace| - 1];
      LinesAreConserved(log, error, before);
      var c, e := After(log, error, before).value, trace[|trace| - 1];
      match e {
        case Start =>
          assert (c.sinks + [Sink([], true)])[..|c.sinks|] == c.sinks;
        case Finish(i) => LinesHeldUpdate(c.sinks, i, c.sinks[i].(active := false));
        case Assign(_, _) =>
        case Log(slot, context, line) =>
          var target := c.Route(c.At(slot), context, MAX_DEPTH).value;
          RouteIsASink(c, c.At(slot), context, MAX_DEPTH);
          if target.Captured? {
            LinesHeldUpdate(c.sinks, target.sink, c.sinks[target.sink].(lines := c.sinks[target.sink].lines + [line]));
          }
      }
    }
  }

  /**
   From the start of a capture until outside code assigns a slot, both wrappers stay installed while any
   capture is active.
   */
  lemma {:induction false} CapturesStayInstalled(log: int, error: int, trace: seq<Event>, start: nat)
    requires After(log, error, trace).Some? && start < |trace| && trace[start].Start?
    requires forall k :: start < k < |trace| ==> !trace[k].Assign?
    requires forall k ::
            start < k <= |trace| ==>
            After(log, error, trace[..k]).Some? && After(log, error, trace[..k]).value.activeCaptures != 0
    ensures var c := After(log, error, trace).value; c.log == LogWrapper && c.error == ErrorWrapper
  {
    var n := |trace| - 1;
    assert trace[..|trace|] == trace;
    if start < n {
      var before := trace[..n];
      assert forall k :: start < k <= n ==> trace[..k] == before[..k];
      CapturesStayInstalled(log, error, before, start);
    }
  }
}
