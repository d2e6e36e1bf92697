/**
 The VPN gateway's connection state over a run of startups, POST /connect calls and self-heal cycles
 (vpn-gateway-agent: main.go, httpapi/httpapi.go, selfheal/selfheal.go, state/state.go).

 Steps do not overlap.  What the provider, the interface and the disk answer in a step is part of
 the step; a timestamp is an integer.
 */
module Gateway {
  import opened Wrappers

  datatype Selection = Selection(country: string, city: string, group: string)

  datatype Peer = Peer(country: string, city: string, server: string, dns: seq<string>)

  /** state.json. */
  datatype Saved = Saved(
    connected: bool,
    country: string,
    resolvedCountry: string,
    city: string,
    resolvedCity: string,
    group: string,
    publicIp: string,
    server: string,
    dns: string,
    since: int,
    lastHealthCheck: int,
    lastHealthCheckOk: bool)

  /** What Load gives when there is no file yet. */
  const FRESH := Saved(false, "", "", "", "", "", "", "", "", 0, 0, false)

  /**
   What a connect attempt meets: the provider's peer if it answers, whether the interface comes up, the
   address found.
   */
  datatype Attempt = Attempt(peer: Option<Peer>, up: bool, publicIp: string)

  datatype Step =
    | Startup(attempt: Attempt, now: int, loads: bool, saves: bool)
    | Connect(request: Selection, attempt: Attempt, now: int, saves: bool)
    | SelfHeal(healthy: bool, attempt: Attempt, now: int, loads: bool, saves: bool)

  /** The file, and the peer the interface is up with. */
  datatype World = World(file: Option<Saved>, tunnel: Option<Peer>)

  const START := World(None, None)

  function Loaded(w: World): Saved {
    w.file.GetOr(FRESH)
  }

  function SelectionOf(s: Saved): Selection {
    Selection(s.country, s.city, s.group)
  }

  /** What one successful connect observed. */
  datatype Observation = Observation(country: string, city: string, server: string, publicIp: string)

  function ObservationOf(s: Saved): Observation {
    Observation(s.resolvedCountry, s.resolvedCity, s.server, s.publicIp)
  }

  // ---- One step ----

  function Write(w: World, s: Saved, saves: bool): World {
    if saves then w.(file := Some(s)) else w
  }

  /** Down, then up with the provider's peer, if it gave one. */
  function Bring(w: World, a: Attempt): World {
    if a.peer.None? then w else w.(tunnel := if a.up then a.peer else None)
  }

  predicate Succeeds(a: Attempt) {
    a.peer.Some? && a.up
  }

  /** The part of the state that startup and /connect both write. */
  function NewState(chosen: Selection, a: Attempt, dns: string, now: int): Saved
    requires Succeeds(a)
  {
    Saved(true, chosen.country, a.peer.value.country, chosen.city, a.peer.value.city, chosen.group, a.publicIp,
          a.peer.value.server, dns, now, now, true)
  }

  function FirstDns(dns: seq<string>): string {
    if dns == [] then "" else dns[0]
  }

  function AfterStartup(w: World, a: Attempt, now: int, loads: bool, saves: bool): World {
    if !loads then w
    else if !Succeeds(a) then Bring(w, a)
    else if a.peer.value.dns == [] then Bring(w, a) // indexing the empty list panics before the save
    else Write(Bring(w, a), NewState(SelectionOf(Loaded(w)), a, FirstDns(a.peer.value.dns), now), saves)
  }

  function AfterConnect(w: World, request: Selection, a: Attempt, now: int, saves: bool): World {
    if !Succeeds(a) then Bring(w, a)
    else Write(Bring(w, a), NewState(request, a, FirstDns(a.peer.value.dns), now), saves)
  }

  function AfterSelfHeal(w: World, healthy: bool, a: Attempt, now: int, loads: bool, saves: bool): World {
    var s := Loaded(w).(lastHealthCheck := now, lastHealthCheckOk := healthy);
    if !loads then w
    else if healthy then Write(w, s, saves)
    else if !Succeeds(a) then Write(Bring(w, a), s.(connected := false), saves)
    else
      Write(Bring(w, a), s.(connected := true, resolvedCountry := a.peer.value.country,
          resolvedCity := a.peer.value.city,
                            publicIp := a.publicIp, server := a.peer.value.server, since := now), saves)
  }

  function Apply(w: World, step: Step): World {
    match step
    case Startup(a, now, loads, saves) => AfterStartup(w, a, now, loads, saves)
    case Connect(request, a, now, saves) => AfterConnect(w, request, a, now, saves)
    case SelfHeal(healthy, a, now, loads, saves) => AfterSelfHeal(w, healthy, a, now, loads, saves)
  }

  /** What a step asks the provider for, if it asks. */
  function Asked(w: World, step: Step): Option<Selection> {
    match step
    case Startup(_, _, loads, _) => if loads then Some(SelectionOf(Loaded(w))) else None
    case Connect(request, _, _, _) => Some(request)
    case SelfHeal(healthy, _, _, loads, _) => if loads && !healthy then Some(SelectionOf(Loaded(w))) else None
  }

  function After(trace: seq<Step>): World {
    if trace == [] then START else Apply(After(trace[..|trace| - 1]), trace[|trace| - 1])
  }

  /** The agent; `asked` records the last question to the provider. */
  class Agent {
    var world: World
    var asked: Option<Selection>

    constructor ()
      ensures world == START && asked == None
    {
      world := START;
      asked := None;
    }

    /** wg.Down, then wg.Up. */
    method BringUp(peer: Peer, up: bool) returns (ok: bool)
      modifies this`world
      ensures ok == up && world == old(world).(tunnel := if up then Some(peer) else None)
    {
      world := world.(tunnel := None);
      if !up { return false; }
      world := world.(tunnel := Some(peer));
      return true;
    }

    method Save(s: Saved, saves: bool) returns (ok: bool)
      modifies this`world
      ensures ok == saves && world == Write(old(world), s, saves)
    {
      if !saves { return false; }
      world := world.(file := Some(s));
      return true;
    }

    /** main, from loading the state to saving the initial one; false is an exit or a panic. */
    method Start(a: Attempt, now: int, loads: bool, saves: bool) returns (ok: bool)
      modifies this
      ensures world == Apply(old(world), Startup(a, now, loads, saves))
      ensures asked == Asked(old(world), Startup(a, now, loads, saves))
      ensures ok <==> loads && Succeeds(a) && a.peer.value.dns != [] && saves
    {
      asked := None;
      if !loads { return false; }
      var s := Loaded(world);
      asked := Some(SelectionOf(s));
      if a.peer.None? { return false; }
      var peer := a.peer.value;
      var up := BringUp(peer, a.up);
      if !up || peer.dns == [] { return false; }
      ok := Save(Saved(true, s.country, peer.country, s.city, peer.city, s.group, a.publicIp, peer.server, peer.dns[0],
          now, now, true), saves);
    }

    /** handleConnect, once the request is decoded. */
    method HandleConnect(request: Selection, a: Attempt, now: int, saves: bool) returns (ok: bool)
      modifies this
      ensures world == Apply(old(world), Connect(request, a, now, saves))
      ensures asked == Some(request) && (ok <==> Succeeds(a) && saves)
    {
      asked := Some(request);
      if a.peer.None? { return false; }
      var peer := a.peer.value;
      var up := BringUp(peer, a.up);
      if !up { return false; }
      ok := Save(Saved(true, request.country, peer.country, request.city, peer.city, request.group, a.publicIp,
          peer.server,
                       FirstDns(peer.dns), now, now, true), saves);
    }

    /** RunOnce. */
    method RunOnce(healthy: bool, a: Attempt, now: int, loads: bool, saves: bool) returns (ok: bool)
      modifies this
      ensures world == Apply(old(world), SelfHeal(healthy, a, now, loads, saves))
      ensures asked == Asked(old(world), SelfHeal(healthy, a, now, loads, saves))
      ensures ok <==> loads && saves && (healthy || Succeeds(a))
    {
      asked := None;
      if !loads { return false; }
      var s := Loaded(world);
      s := s.(lastHealthCheck := now);
      if healthy {
        s := s.(lastHealthCheckOk := true);
        ok := Save(s, saves);
        return;
      }
      s := s.(lastHealthCheckOk := false);
      asked := Some(SelectionOf(s));
      if a.peer.None? {
        s := s.(connected := false);
        ok := Save(s, saves);
        return false;
      }
      var peer := a.peer.value;
      var up := BringUp(peer, a.up);
      if !up {
        s := s.(connected := false);
        ok := Save(s, saves);
        return false;
      }
      s := s.(connected := true);
      s := s.(resolvedCountry := peer.country, resolvedCity := peer.city, publicIp := a.publicIp, server := peer.server,
          since := now);
      ok := Save(s, saves);
    }
  }

  // ---- The selection sticks ----

  /** A /connect request that was carried out and saved. */
  predicate SavesRequest(step: Step) {
    step.Connect? && Succeeds(step.attempt) && step.saves
  }

  const NO_SELECTION := Selection("", "", "")

  /** The last request that was carried out and saved; empty if there was none. */
  function LastRequest(trace: seq<Step>): Selection {
    if trace == [] then NO_SELECTION
    else if SavesRequest(trace[|trace| - 1]) then trace[|trace| - 1].request
    else LastRequest(trace[..|trace| - 1])
  }

  /** What is persisted as the selection is the last saved request, over any run with any failures. */
  lemma {:induction false} SelectionSticks(trace: seq<Step>)
    ensures SelectionOf(Loaded(After(trace))) == LastRequest(trace)
  {
    if trace != [] { SelectionSticks(trace[..|trace| - 1]); }
  }

  /** Every startup and every self-heal that asks the provider asks for exactly that. */
  lemma ReconnectsAskForIt(trace: seq<Step>, step: Step)
    requires !step.Connect? && Asked(After(trace), step).Some?
    ensures Asked(After(trace), step) == Some(LastRequest(trace))
  {
    SelectionSticks(trace);
  }

  /**
   The provider is asked by every request, by every startup that could read the file, and by a self-heal only
   when unhealthy.
   */
  lemma AskedExactlyWhen(trace: seq<Step>, step: Step)
    ensures var asked := Asked(After(trace), step);
            match step
            case Startup(_, _, loads, _) => asked == if loads then Some(LastRequest(trace)) else None
            case Connect(request, _, _, _) => asked == Some(request)
            case SelfHeal(healthy, _, _, loads, _) =>
              asked.Some? <==> loads && !healthy
  {
    SelectionSticks(trace);
  }

  // ---- What is reported comes from one connect ----

  /** A step that connects and saves. */
  predicate SavesConnection(step: Step) {
    && Succeeds(step.attempt) && step.saves
    && match step
       case Startup(a, _, loads, _) => loads && a.peer.value.dns != []
       case Connect(_, _, _, _) => true
       case SelfHeal(healthy, _, _, loads, _) => loads && !healthy
  }

  function Observed(a: Attempt): Observation
    requires Succeeds(a)
  {
    Observation(a.peer.value.country, a.peer.value.city, a.peer.value.server, a.publicIp)
  }

  function LastObservation(trace: seq<Step>): Observation {
    if trace == [] then Observation("", "", "", "")
    else if SavesConnection(trace[|trace| - 1]) then Observed(trace[|trace| - 1].attempt)
    else LastObservation(trace[..|trace| - 1])
  }

  /** Resolved country and city, server and public address are those of one step: the last that connected and saved. */
  lemma {:induction false} ObservationsComeTogether(trace: seq<Step>)
    ensures ObservationOf(Loaded(After(trace))) == LastObservation(trace)
  {
    if trace != [] { ObservationsComeTogether(trace[..|trace| - 1]); }
  }

  /** The DNS server is the one exception: a self-heal leaves it as it was. */
  function LastDns(trace: seq<Step>): string {
    if trace == [] then ""
    else
      var last := trace[|trace| - 1];
      if SavesConnection(last) && !last.SelfHeal? then FirstDns(last.attempt.peer.value.dns)
          else LastDns(trace[..|trace| - 1])
  }

  lemma {:induction false} DnsIsFromTheLastStartOrRequest(trace: seq<Step>)
    ensures Loaded(After(trace)).dns == LastDns(trace)
  {
    if trace != [] { DnsIsFromTheLastStartOrRequest(trace[..|trace| - 1]); }
  }

  /**
   So after a reconnect the reported DNS server matches the reported server's exactly when it happens to be
   the old one.
   */
  lemma DnsAfterSelfHealMatchesExactlyWhen(trace: seq<Step>, step: Step)
    requires step.SelfHeal? && SavesConnection(step)
    ensures Loaded(After(trace + [step])).server == step.attempt.peer.value.server
    ensures Loaded(After(trace + [step])).dns == FirstDns(step.attempt.peer.value.dns) <==>
            LastDns(trace) == FirstDns(step.attempt.peer.value.dns)
  {
    assert (trace + [step])[..|trace|] == trace;
    DnsIsFromTheLastStartOrRequest(trace);
  }

  /** The DNS server reported after a request or a start is the first of its peer's, or blank if it has none. */
  lemma FirstDnsServer(trace: seq<Step>, step: Step)
    requires SavesConnection(step) && !step.SelfHeal?
    ensures var dns := step.attempt.peer.value.dns;
            && (dns == [] ==> Loaded(After(trace + [step])).dns == "")
            && (dns != [] ==> Loaded(After(trace + [step])).dns == dns[0])
  {
    assert (trace + [step])[..|trace|] == trace;
  }

  // ---- Health ----

  /** A step that writes the file. */
  predicate SavesState(step: Step) {
    SavesConnection(step) || (step.SelfHeal? && step.loads && step.saves)
  }

  /**
   The outcome the last write recorded: a start, a request or a healthy check counts as healthy; a reconnect
   does not.
   */
  function LastHealth(trace: seq<Step>): bool {
    if trace == [] then false
    else
      var last := trace[|trace| - 1];
      if SavesState(last) then !last.SelfHeal? || last.healthy else LastHealth(trace[..|trace| - 1])
  }

  /** The connection the last write that decides it recorded: a healthy check does not decide it. */
  function LastConnected(trace: seq<Step>): bool {
    if trace == [] then false
    else
      var last := trace[|trace| - 1];
      if SavesConnection(last) then true
      else if SavesState(last) && !last.healthy then false
      else LastConnected(trace[..|trace| - 1])
  }

  /** The two health fields, over any run. */
  lemma {:induction false} HealthIs(trace: seq<Step>)
    ensures Loaded(After(trace)).lastHealthCheckOk == LastHealth(trace)
    ensures Loaded(After(trace)).connected == LastConnected(trace)
  {
    if trace != [] { HealthIs(trace[..|trace| - 1]); }
  }

  // ---- Times ----

  /** When the reported connection was made: at the last step that connected and saved. */
  function LastSince(trace: seq<Step>): int {
    if trace == [] then 0
    else if SavesConnection(trace[|trace| - 1]) then trace[|trace| - 1].now
    else LastSince(trace[..|trace| - 1])
  }

  /** When the health was last looked at: at the last step that wrote the file. */
  function LastChecked(trace: seq<Step>): int {
    if trace == [] then 0
    else if SavesState(trace[|trace| - 1]) then trace[|trace| - 1].now
    else LastChecked(trace[..|trace| - 1])
  }

  /** The two times, over any run. */
  lemma {:induction false} TimesAre(trace: seq<Step>)
    ensures Loaded(After(trace)).since == LastSince(trace)
    ensures Loaded(After(trace)).lastHealthCheck == LastChecked(trace)
  {
    if trace != [] { TimesAre(trace[..|trace| - 1]); }
  }

  // ---- The interface ----

  /** Step a leaves the interface with this peer up, with none, or as it was. */
  function LastTunnel(trace: seq<Step>): Option<Peer> {
    if trace == [] then None
    else
      var last := trace[|trace| - 1];
      var tries := last.attempt.peer.Some? && (last.Connect? || (last.loads && (last.SelfHeal? ==> !last.healthy)));
      if !tries then LastTunnel(trace[..|trace| - 1]) else if last.attempt.up then last.attempt.peer else None
  }

  /** The interface is that of the last attempt that got a peer, and down if that attempt failed to bring it up. */
  lemma {:induction false} TunnelIs(trace: seq<Step>)
    ensures After(trace).tunnel == LastTunnel(trace)
  {
    if trace != [] { TunnelIs(trace[..|trace| - 1]); }
  }

  // ---- The report and the interface ----

  predicate AllSaved(trace: seq<Step>) {
    forall i :: 0 <= i < |trace| ==> trace[i].saves
  }

  /** What both providers guarantee: a peer comes with a DNS server. */
  predicate PeersHaveDns(trace: seq<Step>) {
    forall i :: 0 <= i < |trace| ==> trace[i].attempt.peer.None? || trace[i].attempt.peer.value.dns != []
  }

  /**
   If every save works, then whenever the interface is up, the reported server and resolved place are those
   of its peer.
   */
  lemma {:induction false} ReportIsOfTheTunnel(trace: seq<Step>)
    requires AllSaved(trace) && PeersHaveDns(trace) && After(trace).tunnel.Some?
    ensures var peer, s := After(trace).tunnel.value, Loaded(After(trace));
            s.server == peer.server && s.resolvedCountry == peer.country && s.resolvedCity == peer.city
  {
    if trace != [] {
      var before, last := trace[..|trace| - 1], trace[|trace| - 1];
      assert last.saves && (last.attempt.peer.None? || last.attempt.peer.value.dns != []);
      assert forall i :: 0 <= i < |before| ==> before[i] == trace[i];
      if After(before).tunnel.Some? { ReportIsOfTheTunnel(before); }
    }
  }

  /**
   Why startup needs that guarantee: it would panic with the interface up and nothing saved, where a request
   goes through.
   */
  lemma StartupNeedsADnsServer(w: World, request: Selection, a: Attempt, now: int)
    requires Succeeds(a) && a.peer.value.dns == []
    ensures Apply(w, Startup(a, now, true, true)) == World(w.file, a.peer)
    ensures Apply(w, Connect(request, a, now, true)) == World(Some(NewState(request, a, "", now)), a.peer)
  {
  }
}
