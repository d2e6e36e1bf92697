/**
 Attributing guests without a creator to the job that made them
 (src/commands/maintenance/backfill-guest-creators.ts).

 The job store's list (newest job first), Authentik's user list and the reloaded inventory are inputs.
 */
module Backfill {
  import opened Wrappers
  import opened Ordering
  import opened InventoryModel
  import opened Mids

  // ---- Jobs ----

  datatype Command = CreateLxc | InstallApp | CreateVm | DeployVpnGateway

  datatype Value = Text(text: string) | Numeric(value: real) | OtherValue

  /** A job's recorded arguments: not JSON, not an object, or the fields that are looked at. */
  datatype Args = NotJson | NotAnObject | Fields(host: Option<Value>, hostname: Option<Value>, name: Option<Value>,
      mid: Option<Value>)

  datatype Job = Job(id: int, command: Command, args: Args, startedAt: Option<string>, user: Option<string>,
      via: Option<string>)

  datatype User = User(username: string, uid: Option<string>)

  datatype Key = Key(host: string, vmid: int, name: string)

  function KeyOf(): Guest -> Key { (g: Guest) => Key(g.host, g.vmid, g.name) }

  /** Jobs of nobody, of the MCP server and of the local operator say nothing about a person. */
  predicate IsCandidate(job: Job, localOperator: string) {
    job.user.Some? && job.via != Some("mcp") && job.user != Some("mcp") && job.user != Some(localOperator)
  }

  function TextOf(v: Option<Value>): Option<string> {
    if v.Some? && v.value.Text? && v.value.text != "" then Some(v.value.text) else None
  }

  /** parseJobArgs; `num` is JavaScript's Number(). */
  function Parse(job: Job, hosts: seq<Host>, num: string -> Number): Option<Key> {
    if !job.args.Fields? then None
    else
      var host := TextOf(job.args.host);
      var name := TextOf(if job.command.CreateLxc? || job.command.InstallApp? then job.args.hostname
          else job.args.name);
      var mid := match job.args.mid
        case Some(Text(t)) => if t == "" then None else Some(num(t))
        case Some(Numeric(v)) => Some(Num(v))
        case _ => None;
      if host.None? || name.None? || mid.None? then None
      else match ResolveMid(hosts, host.value, mid.value)
        case Err(_) => None
        case Ok(resolved) => Some(Key(host.value, resolved.vmid, name.value))
  }

  /** A map built from a list: the last entry of a key counts. */
  function TargetOf(guests: seq<Guest>, key: Key): Option<Guest> {
    if guests == [] then None
    else if KeyOf()(guests[|guests| - 1]) == key then Some(guests[|guests| - 1])
    else TargetOf(guests[..|guests| - 1], key)
  }

  function UserOf(users: seq<User>, username: string): Option<User> {
    if users == [] then None
    else if users[|users| - 1].username == username then Some(users[|users| - 1])
    else UserOf(users[..|users| - 1], username)
  }

  // ---- The plan ----

  datatype Reason = UnparseableArgs | NoMatchingGuest | AlreadyHasCreator | Superseded(newer: int) | UnknownUser

  datatype Update = Update(key: Key, username: string, uid: Option<string>, since: Option<string>, job: int)

  datatype Skip = Skip(job: int, reason: Reason)

  datatype Inputs = Inputs(guests: seq<Guest>, hosts: seq<Host>, users: seq<User>,
      logins: map<string, string>, num: string -> Number)

  /** The guest a job may give a creator: the one its arguments name, if it has none yet. */
  function Claim(job: Job, i: Inputs): Option<Key> {
    match Parse(job, i.hosts, i.num)
    case None => None
    case Some(key) =>
      var target := TargetOf(i.guests, key);
      if target.Some? && target.value.creator.None? then Some(key) else None
  }

  /** The user a job is attributed to, by the login map. */
  function Account(job: Job, i: Inputs): Option<User> {
    var recorded := job.user.GetOr("");
    UserOf(i.users, Get(i.logins, recorded).GetOr(recorded))
  }

  function UpdateOf(job: Job, key: Key, user: User): Update {
    Update(key, user.username, NonBlank(user.uid), NonBlank(job.startedAt), job.id)
  }

  datatype Plan = Plan(updates: seq<Update>, skipped: seq<Skip>, claimed: map<Key, int>)

  function Skipping(p: Plan, job: Job, reason: Reason): Plan {
    p.(skipped := p.skipped + [Skip(job.id, reason)])
  }

  /** One candidate. */
  function Decide(p: Plan, job: Job, i: Inputs): Plan {
    match Parse(job, i.hosts, i.num)
    case None => Skipping(p, job, UnparseableArgs)
    case Some(key) =>
      match TargetOf(i.guests, key)
      case None => Skipping(p, job, NoMatchingGuest)
      case Some(target) =>
        if target.creator.Some? then Skipping(p, job, AlreadyHasCreator)
        else if key in p.claimed then Skipping(p, job, Superseded(p.claimed[key]))
        else
          var q := p.(claimed := p.claimed[key := job.id]);
          match Account(job, i)
          case None => Skipping(q, job, UnknownUser)
          case Some(user) => q.(updates := q.updates + [UpdateOf(job, key, user)])
  }

  function Planned(jobs: seq<Job>, i: Inputs): Plan {
    if jobs == [] then Plan([], [], map[]) else Decide(Planned(jobs[..|jobs| - 1], i), jobs[|jobs| - 1], i)
  }

  method MakePlan(jobs: seq<Job>, i: Inputs) returns (p: Plan)
    ensures p == Planned(jobs, i)
  {
    var updates: seq<Update>, skipped: seq<Skip>, claimedBy: map<Key, int> := [], [], map[];
    for n := 0 to |jobs|
      invariant Plan(updates, skipped, claimedBy) == Planned(jobs[..n], i)
    {
      assert jobs[..n + 1][..n] == jobs[..n];
      var job := jobs[n];
      var parsed := Parse(job, i.hosts, i.num);
      if parsed.None? {
        skipped := skipped + [Skip(job.id, UnparseableArgs)];
        continue;
      }
      var key := parsed.value;
      var target := TargetOf(i.guests, key);
      if target.None? {
        skipped := skipped + [Skip(job.id, NoMatchingGuest)];
        continue;
      }
      if target.value.creator.Some? {
        skipped := skipped + [Skip(job.id, AlreadyHasCreator)];
        continue;
      }
      if key in claimedBy {
        skipped := skipped + [Skip(job.id, Superseded(claimedBy[key]))];
        continue;
      }
      claimedBy := claimedBy[key := job.id];
      var user := Account(job, i);
      if user.None? {
        skipped := skipped + [Skip(job.id, UnknownUser)];
        continue;
      }
      updates := updates + [UpdateOf(job, key, user.value)];
    }
    assert jobs[..|jobs|] == jobs;
    p := Plan(updates, skipped, claimedBy);
  }

  // ---- Applying ----

  /** The re-check against the reloaded inventory. */
  function Dropped(u: Update, current: seq<Guest>): Option<Reason> {
    match TargetOf(current, u.key)
    case None => Some(NoMatchingGuest)
    case Some(g) => if g.creator.Some? then Some(AlreadyHasCreator) else None
  }

  function IfWritten(current: seq<Guest>): Update -> seq<Update> {
    (u: Update) => if Dropped(u, current).None? then [u] else []
  }

  function IfDropped(current: seq<Guest>): Update -> seq<Skip> {
    (u: Update) => if Dropped(u, current).Some? then [Skip(u.job, Dropped(u, current).value)] else []
  }

  /** The last update of a key, as in a map built from the list. */
  function PendingFor(updates: seq<Update>, key: Key): Option<Update> {
    if updates == [] then None
    else if updates[|updates| - 1].key == key then Some(updates[|updates| - 1])
    else PendingFor(updates[..|updates| - 1], key)
  }

  function WithCreator(updates: seq<Update>): Guest -> Guest {
    (g: Guest) => match PendingFor(updates, KeyOf()(g))
      case None => g
      case Some(u) => g.(creator := Some(Creator(u.uid, u.username, u.since)))
  }

  datatype Report = Report(updates: seq<Update>, skipped: seq<Skip>)

  /** What an applied run reports, and the guests it saves, if any. */
  function Applied(p: Plan, current: seq<Guest>): (Report, Option<seq<Guest>>) {
    if p.updates == [] then (Report(p.updates, p.skipped), None)
    else
      var written := Flat(p.updates, IfWritten(current));
      (Report(written, p.skipped + Flat(p.updates, IfDropped(current))),
       if written == [] then None else Some(Map(current, WithCreator(written))))
  }

  /** runBackfillGuestCreators; `saved` are the guests handed to saveInventory, if it is called. */
  method Run(jobs: seq<Job>, i: Inputs, localOperator: string, apply: bool, reloaded: seq<Guest>)
    returns (report: Report, saved: Option<seq<Guest>>)
    ensures var p := Planned(Candidates(jobs, localOperator), i);
            (report, saved) == if apply then Applied(p, reloaded) else (Report(p.updates, p.skipped), None)
  {
    var p := MakePlan(Candidates(jobs, localOperator), i);
    if !apply || p.updates == [] { return Report(p.updates, p.skipped), None; }
    var written, dropped := Recheck(p.updates, reloaded);
    report := Report(written, p.skipped + dropped);
    saved := if written == [] then None else Some(Map(reloaded, WithCreator(written)));
  }

  /** The loop over the planned updates. */
  method Recheck(updates: seq<Update>, reloaded: seq<Guest>) returns (written: seq<Update>, skipped: seq<Skip>)
    ensures written == Flat(updates, IfWritten(reloaded)) && skipped == Flat(updates, IfDropped(reloaded))
  {
    written, skipped := [], [];
    for n := 0 to |updates|
      invariant written == Flat(updates[..n], IfWritten(reloaded)) && skipped == Flat(updates[..n], IfDropped(reloaded))
    {
      var u := updates[n];
      FlatSnoc(updates, n, IfWritten(reloaded));
      FlatSnoc(updates, n, IfDropped(reloaded));
      var dropped := Dropped(u, reloaded);
      if dropped.Some? {
        skipped := skipped + [Skip(u.job, dropped.value)];
      } else {
        written := written + [u];
      }
    }
    assert updates[..|updates|] == updates;
  }

  function Candidates(jobs: seq<Job>, localOperator: string): seq<Job> {
    if jobs == [] then []
    else (if IsCandidate(jobs[0], localOperator) then [jobs[0]] else []) + Candidates(jobs[1..], localOperator)
  }

  // ---- Who a job is of, and what it made ----

  /** The job was started by a person, as far as its record tells. */
  predicate IsOfAPerson(job: Job, localOperator: string) {
    match job.user
    case None => false
    case Some(name) => !(name == "mcp" || name == localOperator || job.via == Some("mcp"))
  }

  lemma CandidatesOfOne(job: Job, localOperator: string)
    ensures Candidates([job], localOperator) == if IsOfAPerson(job, localOperator) then [job] else []
  {
    assert Candidates([job], localOperator)
        == (if IsCandidate(job, localOperator) then [job] else []) + Candidates([job][1..], localOperator);
  }

  lemma Associates(a: seq<Job>, b: seq<Job>, c: seq<Job>)
    ensures a + (b + c) == a + b + c
  {
  }

  /** The candidates are the jobs of persons, in the order they are listed. */
  lemma {:induction false} CandidatesOfBoth(a: seq<Job>, b: seq<Job>, localOperator: string)
    ensures Candidates(a + b, localOperator) == Candidates(a, localOperator) + Candidates(b, localOperator)
  {
    if a == [] {
      assert a + b == b;
    } else {
      var first := if IsCandidate(a[0], localOperator) then [a[0]] else [];
      assert (a + b)[1..] == a[1..] + b && (a + b)[0] == a[0];
      CandidatesOfBoth(a[1..], b, localOperator);
      Associates(first, Candidates(a[1..], localOperator), Candidates(b, localOperator));
    }
  }

  lemma {:induction false} CandidatesExactlyWhen(jobs: seq<Job>, localOperator: string, job: Job)
    ensures job in Candidates(jobs, localOperator) <==> job in jobs && IsOfAPerson(job, localOperator)
  {
    if jobs != [] {
      CandidatesExactlyWhen(jobs[1..], localOperator, job);
      assert job in jobs <==> job == jobs[0] || job in jobs[1..];
    }
  }

  /** The name a login is known by: the one the operator maps it to, if any. */
  predicate KnownAs(job: Job, logins: map<string, string>, username: string) {
    job.user.Some? && username == if job.user.value in logins then logins[job.user.value] else job.user.value
  }

  /**
   A job's account is the last user listed under the name its login is known by; there is none exactly when
   nobody has that name.
   */
  lemma {:induction false} AccountExactlyWhen(job: Job, i: Inputs, username: string)
    requires KnownAs(job, i.logins, username)
    ensures match Account(job, i)
            case None => forall u :: u in i.users ==> u.username != username
            case Some(user) =>
              exists n :: 0 <= n < |i.users| && i.users[n] == user && user.username == username
                          && forall m :: n < m < |i.users| ==> i.users[m].username != username
  {
    LastUserOf(i.users, username);
  }

  lemma {:induction false} LastUserOf(users: seq<User>, username: string)
    ensures match UserOf(users, username)
            case None => forall u :: u in users ==> u.username != username
            case Some(user) =>
              exists n :: 0 <= n < |users| && users[n] == user && user.username == username
                          && forall m :: n < m < |users| ==> users[m].username != username
  {
    if users != [] {
      var last := |users| - 1;
      LastUserOf(users[..last], username);
      assert users == users[..last] + [users[last]];
      if users[last].username == username {
        assert users[last] == UserOf(users, username).value;
      } else if UserOf(users, username).Some? {
        var n :| 0 <= n < last && users[..last][n] == UserOf(users, username).value
                 && forall m :: n < m < last ==> users[..last][m].username != username;
        assert forall m :: n < m < last ==> users[m] == users[..last][m];
        assert users[n] == UserOf(users, username).value;
      }
    }
  }

  /** The text of a field that is one and is not blank. */
  predicate Reads(v: Option<Value>, text: string) {
    v == Some(Text(text)) && text != ""
  }

  /** The MID a job was given, as text or as a number. */
  predicate ReadsMid(v: Option<Value>, num: string -> Number, mid: Number) {
    match v
    case Some(Text(text)) => text != "" && mid == num(text)
    case Some(Numeric(value)) => mid == Num(value)
    case _ => false
  }

  /** A job made the guest its arguments name: host, name under the command's own key, and the VMID of its MID. */
  lemma ParseExactlyWhen(job: Job, hosts: seq<Host>, num: string -> Number, key: Key)
    ensures Parse(job, hosts, num) == Some(key) <==>
            && job.args.Fields? && Reads(job.args.host, key.host)
            && Reads(if job.command in {CreateLxc, InstallApp} then job.args.hostname else job.args.name, key.name)
            && exists mid :: ReadsMid(job.args.mid, num, mid) && ResolveMid(hosts, key.host, mid).Ok?
                             && ResolveMid(hosts, key.host, mid).value.vmid == key.vmid
  {
    if job.args.Fields? && Parse(job, hosts, num) == Some(key) {
      var mid := match job.args.mid
        case Some(Text(t)) => num(t)
        case Some(Numeric(v)) => Num(v)
        case _ => NaN;
      assert ReadsMid(job.args.mid, num, mid);
    }
  }

  /** A guest of that host, VMID and name is there, and it is the last such one that counts. */
  lemma {:induction false} TargetExactlyWhen(guests: seq<Guest>, key: Key)
    ensures match TargetOf(guests, key)
            case None => forall g :: g in guests ==> !(g.host == key.host && g.vmid == key.vmid && g.name == key.name)
            case Some(g) => g in guests && g.host == key.host && g.vmid == key.vmid && g.name == key.name
  {
    if guests != [] {
      TargetExactlyWhen(guests[..|guests| - 1], key);
      assert guests == guests[..|guests| - 1] + [guests[|guests| - 1]];
    }
  }

  /** An update records the account's name, its uid and the job's start where they are given, and the job. */
  lemma UpdateRecords(job: Job, key: Key, user: User)
    ensures var u := UpdateOf(job, key, user);
            && u.key == key && u.username == user.username && u.job == job.id
            && (if user.uid.Some? && user.uid.value != "" then u.uid == user.uid else u.uid == None)
            && (if job.startedAt.Some? && job.startedAt.value != "" then u.since == job.startedAt else u.since == None)
  {
  }

  /** The reason in the entry that one more candidate adds to the skipped ones, if it adds one. */
  function ReasonAdded(before: seq<Skip>, after: seq<Skip>, job: int): Option<Reason> {
    if |after| == |before| + 1 && after[..|before|] == before && after[|before|].job == job
        then Some(after[|before|].reason)
    else None
  }

  lemma ReasonDecided(p: Plan, job: Job, i: Inputs)
    ensures ReasonAdded(p.skipped, Decide(p, job, i).skipped, job.id)
         == match Parse(job, i.hosts, i.num)
            case None => Some(UnparseableArgs)
            case Some(key) =>
              match TargetOf(i.guests, key)
              case None => Some(NoMatchingGuest)
              case Some(g) =>
                if g.creator.Some? then Some(AlreadyHasCreator)
                else if key in p.claimed then Some(Superseded(p.claimed[key]))
                else if Account(job, i).None? then Some(UnknownUser) else None
  {
    var q := Decide(p, job, i);
    if |q.skipped| == |p.skipped| + 1 { assert q.skipped[..|p.skipped|] == p.skipped; }
  }

  lemma FirstToClaim(jobs: seq<Job>, i: Inputs)
    requires jobs != []
    ensures var n := |jobs| - 1;
            ClaimsFirst(jobs, n, i) <==>
              Claim(jobs[n], i).Some? && Claim(jobs[n], i).value !in Planned(jobs[..n], i).claimed
  {
    var n := |jobs| - 1;
    assert forall m :: 0 <= m < n ==> jobs[..n][m] == jobs[m];
    if Claim(jobs[n], i).Some? { ClaimedAre(jobs[..n], i, Claim(jobs[n], i).value); }
  }

  /** Why one more candidate is skipped, if it is. */
  lemma SkippedBecause(jobs: seq<Job>, i: Inputs)
    requires jobs != []
    ensures var n := |jobs| - 1;
            var job, key, before := jobs[n], Parse(jobs[n], i.hosts, i.num), Planned(jobs[..n], i);
            var reason := ReasonAdded(before.skipped, Planned(jobs, i).skipped, job.id);
            && (reason == Some(UnparseableArgs) <==> key.None?)
            && (reason == Some(NoMatchingGuest) <==> key.Some? && TargetOf(i.guests, key.value).None?)
            && (reason == Some(AlreadyHasCreator) <==>
                  key.Some? && TargetOf(i.guests, key.value).Some? && TargetOf(i.guests, key.value).value.creator.Some?)
            && (reason == Some(UnknownUser) <==> ClaimsFirst(jobs, n, i) && Account(job, i).None?)
            && (reason.Some? && reason.value.Superseded? <==> Claim(job, i).Some? && !ClaimsFirst(jobs, n, i))
            && (reason.Some? && reason.value.Superseded? ==>
                  key.value in before.claimed && reason.value.newer == before.claimed[key.value])
  {
    var n := |jobs| - 1;
    FirstToClaim(jobs, i);
    ReasonDecided(Planned(jobs[..n], i), jobs[n], i);
  }

  /** The job that superseded another is the first listed that claims the guest. */
  lemma {:induction false} ClaimedByTheFirst(jobs: seq<Job>, i: Inputs, key: Key) returns (n: nat)
    requires key in Planned(jobs, i).claimed
    ensures ClaimsFirst(jobs, n, i) && Claim(jobs[n], i) == Some(key) && Planned(jobs, i).claimed[key] == jobs[n].id
  {
    var last := |jobs| - 1;
    FirstToClaim(jobs, i);
    ClaimKept(Planned(jobs[..last], i), jobs[last], i, key);
    if key in Planned(jobs[..last], i).claimed {
      n := ClaimedByTheFirst(jobs[..last], i, key);
      FirstStaysFirst(jobs, n, i);
    } else {
      n := last;
    }
  }

  lemma ClaimKept(p: Plan, job: Job, i: Inputs, key: Key)
    requires key in Decide(p, job, i).claimed
    ensures key in p.claimed ==> Decide(p, job, i).claimed[key] == p.claimed[key]
    ensures key !in p.claimed ==> Claim(job, i) == Some(key) && Decide(p, job, i).claimed[key] == job.id
  {
  }

  lemma FirstStaysFirst(jobs: seq<Job>, n: nat, i: Inputs)
    requires jobs != [] && ClaimsFirst(jobs[..|jobs| - 1], n, i)
    ensures n < |jobs| - 1 && jobs[..|jobs| - 1][n] == jobs[n] && ClaimsFirst(jobs, n, i)
  {
    assert forall m :: 0 <= m < |jobs| - 1 ==> jobs[..|jobs| - 1][m] == jobs[m];
  }

  // ---- Every candidate lands in exactly one list ----

  function UpdateJob(): Update -> int { (u: Update) => u.job }
  function SkipJob(): Skip -> int { (s: Skip) => s.job }
  function JobId(): Job -> int { (j: Job) => j.id }

  /** The jobs of a report. */
  function Reported(r: Report): multiset<int> {
    multiset(Map(r.updates, UpdateJob())) + multiset(Map(r.skipped, SkipJob()))
  }

  lemma CountOneMore<T>(s: seq<T>, x: T, f: T -> int)
    ensures multiset(Map(s + [x], f)) == multiset(Map(s, f)) + multiset{f(x)}
  {
    MapConcat(s, [x], f);
    assert Map([x], f) == [f(x)];
  }

  lemma CountOneBefore<T>(x: T, s: seq<T>, f: T -> int)
    ensures multiset(Map([x] + s, f)) == multiset(Map(s, f)) + multiset{f(x)}
  {
    assert Map([x] + s, f) == [f(x)] + Map(s, f);
  }

  lemma CountFirst<T>(s: seq<T>, f: T -> int)
    requires s != []
    ensures multiset(Map(s, f)) == multiset(Map(s[1..], f)) + multiset{f(s[0])}
  {
    CountOneBefore(s[0], s[1..], f);
    assert s == [s[0]] + s[1..];
  }

  /** A decision adds one entry, for this job, to one of the two lists. */
  lemma DecideAddsOne(p: Plan, job: Job, i: Inputs)
    ensures var q := Decide(p, job, i);
            || (q.skipped == p.skipped && |q.updates| == |p.updates| + 1
                && q.updates == p.updates + [q.updates[|p.updates|]] && q.updates[|p.updates|].job == job.id)
            || (q.updates == p.updates && |q.skipped| == |p.skipped| + 1
                && q.skipped == p.skipped + [q.skipped[|p.skipped|]] && q.skipped[|p.skipped|].job == job.id)
  {
  }

  lemma DecideReportsOne(p: Plan, job: Job, q: Plan, i: Inputs)
    requires q == Decide(p, job, i)
    ensures Reported(Report(q.updates, q.skipped)) == Reported(Report(p.updates, p.skipped)) + multiset{job.id}
  {
    DecideAddsOne(p, job, i);
    if q.skipped == p.skipped && |q.updates| == |p.updates| + 1 {
      OneMoreUpdate(p, q.updates[|p.updates|]);
    } else {
      OneMoreSkip(p, q.skipped[|p.skipped|]);
    }
  }

  lemma OneMoreUpdate(p: Plan, u: Update)
    ensures Reported(Report(p.updates + [u], p.skipped)) == Reported(Report(p.updates, p.skipped)) + multiset{u.job}
  {
    CountOneMore(p.updates, u, UpdateJob());
  }

  lemma OneMoreSkip(p: Plan, s: Skip)
    ensures Reported(Report(p.updates, p.skipped + [s])) == Reported(Report(p.updates, p.skipped)) + multiset{s.job}
  {
    CountOneMore(p.skipped, s, SkipJob());
  }

  /** The jobs of the plan's two lists are these jobs. */
  ghost predicate Accounts(p: Plan, jobs: seq<Job>) {
    Reported(Report(p.updates, p.skipped)) == multiset(Map(jobs, JobId()))
  }

  lemma DecideConserves(p: Plan, before: seq<Job>, last: Job, i: Inputs)
    requires Accounts(p, before)
    ensures Accounts(Decide(p, last, i), before + [last])
  {
    DecideReportsOne(p, last, Decide(p, last, i), i);
    CountOneMore(before, last, JobId());
  }

  /** In the plan. */
  lemma {:induction false} PlanConserves(jobs: seq<Job>, i: Inputs)
    ensures Accounts(Planned(jobs, i), jobs)
  {
    if jobs == [] {
      assert Planned(jobs, i) == Plan([], [], map[]);
    } else {
      var before, last := jobs[..|jobs| - 1], jobs[|jobs| - 1];
      PlanConserves(before, i);
      DecideConserves(Planned(before, i), before, last, i);
      assert jobs == before + [last];
    }
  }

  lemma {:induction false} RecheckConserves(updates: seq<Update>, current: seq<Guest>)
    ensures Reported(Report(Flat(updates, IfWritten(current)), Flat(updates, IfDropped(current))))
            == multiset(Map(updates, UpdateJob()))
  {
    if updates != [] {
      RecheckConserves(updates[1..], current);
      RecheckOne(updates[0], Flat(updates[1..], IfWritten(current)), Flat(updates[1..], IfDropped(current)), current);
      CountFirst(updates, UpdateJob());
    }
  }

  lemma OneWritten(u: Update, written: seq<Update>, dropped: seq<Skip>)
    ensures Reported(Report([u] + written, dropped)) == Reported(Report(written, dropped)) + multiset{u.job}
  {
    CountOneBefore(u, written, UpdateJob());
  }

  lemma OneDropped(s: Skip, written: seq<Update>, dropped: seq<Skip>)
    ensures Reported(Report(written, [s] + dropped)) == Reported(Report(written, dropped)) + multiset{s.job}
  {
    CountOneBefore(s, dropped, SkipJob());
  }

  lemma RecheckOne(u: Update, written: seq<Update>, dropped: seq<Skip>, current: seq<Guest>)
    ensures Reported(Report(IfWritten(current)(u) + written, IfDropped(current)(u) + dropped))
            == Reported(Report(written, dropped)) + multiset{u.job}
  {
    var w, d := IfWritten(current)(u) + written, IfDropped(current)(u) + dropped;
    if Dropped(u, current).None? {
      assert w == [u] + written && d == dropped;
      OneWritten(u, written, dropped);
    } else {
      var s := Skip(u.job, Dropped(u, current).value);
      assert w == written && d == [s] + dropped;
      OneDropped(s, written, dropped);
    }
  }

  /** And after the re-check of an applied run. */
  lemma ApplyConserves(jobs: seq<Job>, i: Inputs, current: seq<Guest>)
    ensures Reported(Applied(Planned(jobs, i), current).0) == multiset(Map(jobs, JobId()))
  {
    var p := Planned(jobs, i);
    PlanConserves(jobs, i);
    RecheckConserves(p.updates, current);
    MapConcat(p.skipped, Flat(p.updates, IfDropped(current)), SkipJob());
  }

  // ---- The newest job decides ----

  /** The job at index n is the first in the list that claims its guest. */
  ghost predicate ClaimsFirst(jobs: seq<Job>, n: nat, i: Inputs) {
    n < |jobs| && Claim(jobs[n], i).Some? && forall m :: 0 <= m < n ==> Claim(jobs[m], i) != Claim(jobs[n], i)
  }

  lemma DecideClaims(p: Plan, job: Job, i: Inputs, key: Key)
    ensures key in Decide(p, job, i).claimed <==> key in p.claimed || Claim(job, i) == Some(key)
  {
  }

  lemma {:induction false} ClaimedAre(jobs: seq<Job>, i: Inputs, key: Key)
    ensures key in Planned(jobs, i).claimed <==> exists n :: 0 <= n < |jobs| && Claim(jobs[n], i) == Some(key)
  {
    if jobs != [] {
      var before, last := jobs[..|jobs| - 1], jobs[|jobs| - 1];
      ClaimedAre(before, i, key);
      assert forall n :: 0 <= n < |before| ==> jobs[n] == before[n];
      DecideClaims(Planned(before, i), last, i, key);
      if Claim(last, i) == Some(key) { assert jobs[|jobs| - 1] == last; }
    }
  }

  /** One more candidate adds an update exactly when it is the first to claim its guest and its user is known. */
  lemma UpdatedExactlyWhen(jobs: seq<Job>, i: Inputs)
    requires jobs != []
    ensures var n := |jobs| - 1;
            Planned(jobs, i).updates == Planned(jobs[..n], i).updates
            + if ClaimsFirst(jobs, n, i) && Account(jobs[n], i).Some?
              then [UpdateOf(jobs[n], Claim(jobs[n], i).value, Account(jobs[n], i).value)] else []
  {
    var n := |jobs| - 1;
    var before := jobs[..n];
    assert forall m :: 0 <= m < n ==> before[m] == jobs[m];
    if Claim(jobs[n], i).Some? { ClaimedAre(before, i, Claim(jobs[n], i).value); }
  }

  /** Each update comes from the newest job that claims its guest, and that job's user is known. */
  lemma {:induction false} UpdatesComeFromTheNewest(jobs: seq<Job>, i: Inputs, u: Update) returns (n: nat)
    requires u in Planned(jobs, i).updates
    ensures ClaimsFirst(jobs, n, i) && Account(jobs[n], i).Some?
    ensures u == UpdateOf(jobs[n], Claim(jobs[n], i).value, Account(jobs[n], i).value)
  {
    var before := jobs[..|jobs| - 1];
    UpdatedExactlyWhen(jobs, i);
    if u in Planned(before, i).updates {
      n := UpdatesComeFromTheNewest(before, i, u);
      assert forall m :: 0 <= m < |before| ==> before[m] == jobs[m];
    } else {
      n := |jobs| - 1;
    }
  }

  /** A guest whose newest job has an unknown user gets no update at all, not one from an older job. */
  lemma UnknownNewestUserMeansNone(jobs: seq<Job>, i: Inputs, n: nat, u: Update)
    requires ClaimsFirst(jobs, n, i) && Account(jobs[n], i).None? && u in Planned(jobs, i).updates
    ensures u.key != Claim(jobs[n], i).value
  {
    var m := UpdatesComeFromTheNewest(jobs, i, u);
    assert m != n && Claim(jobs[m], i).Some?;
  }

  function UpdateKey(): Update -> Key { (u: Update) => u.key }

  /** Each guest gets at most one update. */
  lemma {:induction false} OneUpdatePerGuest(jobs: seq<Job>, i: Inputs)
    ensures NoDuplicates(Map(Planned(jobs, i).updates, UpdateKey()))
  {
    if jobs != [] {
      var n := |jobs| - 1;
      var before := jobs[..n];
      var earlier := Planned(before, i).updates;
      OneUpdatePerGuest(before, i);
      UpdatedExactlyWhen(jobs, i);
      if ClaimsFirst(jobs, n, i) && Account(jobs[n], i).Some? {
        var u := UpdateOf(jobs[n], Claim(jobs[n], i).value, Account(jobs[n], i).value);
        MapConcat(earlier, [u], UpdateKey());
        assert Map([u], UpdateKey()) == [UpdateKey()(u)];
        forall k | 0 <= k < |earlier| ensures earlier[k].key != u.key {
          var m := UpdatesComeFromTheNewest(before, i, earlier[k]);
          assert before[m] == jobs[m];
        }
      }
    }
  }

  /** Why an update is dropped at the re-check, if it is: its guest is gone, or has got a creator meanwhile. */
  lemma DroppedExactlyWhen(u: Update, current: seq<Guest>)
    ensures var target := TargetOf(current, u.key);
            && (Dropped(u, current) == Some(NoMatchingGuest) <==>
                  forall g :: g in current ==> !(g.host == u.key.host && g.vmid == u.key.vmid && g.name == u.key.name))
            && (Dropped(u, current) == Some(AlreadyHasCreator) <==> target.Some? && target.value.creator.Some?)
            && (Dropped(u, current) == None <==> target.Some? && target.value.creator == None)
  {
    TargetExactlyWhen(current, u.key);
  }

  // ---- Applying changes nothing else ----

  lemma {:induction false} PendingIs(updates: seq<Update>, key: Key)
    ensures PendingFor(updates, key).Some? ==>
            PendingFor(updates, key).value in updates && PendingFor(updates, key).value.key == key
    ensures PendingFor(updates, key).None? ==> forall u :: u in updates ==> u.key != key
  {
    if updates != [] {
      PendingIs(updates[..|updates| - 1], key);
      assert updates == updates[..|updates| - 1] + [updates[|updates| - 1]];
    }
  }

  lemma {:induction false} TargetIs(guests: seq<Guest>, g: Guest)
    requires DistinctNames(guests, GuestName()) && g in guests
    ensures TargetOf(guests, KeyOf()(g)) == Some(g)
  {
    var before, last := guests[..|guests| - 1], guests[|guests| - 1];
    var i :| 0 <= i < |guests| && guests[i] == g;
    if KeyOf()(last) == KeyOf()(g) {
      assert GuestName()(guests[i]) == GuestName()(guests[|guests| - 1]);
    } else {
      assert before[i] == g;
      TargetIs(before, g);
    }
  }

  lemma {:induction false} WrittenAre(updates: seq<Update>, current: seq<Guest>, u: Update)
    ensures u in Flat(updates, IfWritten(current)) <==> u in updates && Dropped(u, current).None?
  {
    if updates != [] { WrittenAre(updates[1..], current, u); }
  }

  /**
   An applied run saves exactly when some update survives the re-check; it reports those, and the others as
   skipped with their reason.
   */
  lemma SavesExactlyWhen(p: Plan, current: seq<Guest>)
    ensures Applied(p, current).1.Some? <==> exists u :: u in p.updates && Dropped(u, current).None?
    ensures forall u :: u in Applied(p, current).0.updates <==> u in p.updates && Dropped(u, current).None?
    ensures forall s :: s in Applied(p, current).0.skipped <==>
              s in p.skipped || exists u ::
                  u in p.updates && Dropped(u, current).Some? && s == Skip(u.job, Dropped(u, current).value)
  {
    var written := Flat(p.updates, IfWritten(current));
    forall u ensures u in written <==> u in p.updates && Dropped(u, current).None? {
      WrittenAre(p.updates, current, u);
    }
    forall s ensures s in Flat(p.updates, IfDropped(current)) <==>
                       exists u :: u in p.updates && Dropped(u, current).Some?
                           && s == Skip(u.job, Dropped(u, current).value)
    {
      DroppedAre(p.updates, current, s);
    }
    if written != [] { assert written[0] in written; }
  }

  lemma {:induction false} DroppedAre(updates: seq<Update>, current: seq<Guest>, s: Skip)
    ensures s in Flat(updates, IfDropped(current)) <==>
              exists u :: u in updates && Dropped(u, current).Some? && s == Skip(u.job, Dropped(u, current).value)
  {
    if updates != [] {
      DroppedAre(updates[1..], current, s);
      assert forall u :: u in updates <==> u == updates[0] || u in updates[1..];
    }
  }

  /**
   What is saved is the reloaded list, guest by guest: one without a creator gets the creator of the
   update written for it, and every other guest is untouched.
   */
  lemma OnlyMissingCreatorsChange(p: Plan, current: seq<Guest>, k: nat)
    requires DistinctNames(current, GuestName()) && Applied(p, current).1.Some? && k < |current|
    ensures var saved, written := Applied(p, current).1.value, Applied(p, current).0.updates;
            |saved| == |current|
            && if exists u :: u in written && u.key == KeyOf()(current[k])
               then current[k].creator.None? && saved[k].creator.Some?
                   && saved[k] == current[k].(creator := saved[k].creator)
                    && exists u :: u in written && u.key == KeyOf()(current[k])
                                   && saved[k].creator == Some(Creator(u.uid, u.username, u.since))
               else saved[k] == current[k]
  {
    var written := Applied(p, current).0.updates;
    var g := current[k];
    PendingIs(written, KeyOf()(g));
    TargetIs(current, g);
    if PendingFor(written, KeyOf()(g)).Some? {
      WrittenAre(p.updates, current, PendingFor(written, KeyOf()(g)).value);
    }
  }
}
