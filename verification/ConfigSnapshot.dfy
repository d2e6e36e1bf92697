/** The settings accessor and its short-lived snapshot of the database (src/lib/config.ts). */
module ConfigSnapshot {
  import opened Wrappers

  const TTL_MS := 2000

  /** The two tables of one database file that hold settings. */
  datatype File = File(meta: map<string, string>, secrets: map<string, string>)

  /** The setting names: those kept as meta rows, and the secrets. */
  datatype Names = Names(moved: set<string>, secret: set<string>)

  datatype Snapshot = Snapshot(readAt: int, stored: map<string, string>)

  /** The files on disk, the clock, and what this process holds in memory. */
  datatype State = State(
    files: map<string, File>,
    now: int,
    snapshots: map<string, Snapshot>,
    registered: Option<string>)

  const START := State(map[], 0, map[], None)

  // ---- Reading ----

  function Restrict(m: map<string, string>, keys: set<string>): map<string, string> {
    map k | k in m && k in keys :: m[k]
  }

  /** What reading a file yields; a file that is not there reads as nothing. */
  function ReadStored(s: State, path: string, names: Names): map<string, string> {
    if path !in s.files then map[]
    else Restrict(s.files[path].meta, names.moved) + Restrict(s.files[path].secrets, names.secret)
  }

  /** The snapshot of a path, if it may still be served. */
  function Cached(s: State, path: string): Option<Snapshot> {
    if path in s.snapshots && 0 <= s.now - s.snapshots[path].readAt < TTL_MS then Some(s.snapshots[path]) else None
  }

  function Served(s: State, path: string, names: Names): map<string, string> {
    match Cached(s, path)
    case Some(snapshot) => snapshot.stored
    case None => ReadStored(s, path, names)
  }

  function AfterRead(s: State, path: string, names: Names): State {
    if Cached(s, path).Some? then s
    else s.(snapshots := s.snapshots[path := Snapshot(s.now, ReadStored(s, path, names))])
  }

  // ---- The precedence rule ----

  datatype Value = FromEnvironment(value: string) | FromSettings(value: string) | Unset

  /** An environment variable that is set and not empty, else the stored value if valid, else nothing. */
  function EffectiveValue(stored: Option<string>, env: Option<string>, valid: string -> bool): Result<Value, ()> {
    if env.GetOr("") != "" then Ok(FromEnvironment(env.value))
    else match stored
      case None => Ok(Unset)
      case Some(value) => if valid(value) then Ok(FromSettings(value)) else Err(())
  }

  // ---- What happens over time ----

  datatype Action =
    | ClockReads(now: int)
    | WrittenElsewhere(path: string, file: Option<File>)
    | Save(path: string, meta: map<string, string>)
    | WriteSecret(path: string, key: string, value: string)
    | ClearSecret(path: string, key: string)
    | UseStore(registered: Option<string>)
    | Read(path: string)

  function FileAt(s: State, path: string): File {
    if path in s.files then s.files[path] else File(map[], map[])
  }

  function Apply(s: State, a: Action, names: Names): State {
    match a
    case ClockReads(now) => s.(now := now)
    case WrittenElsewhere(path, None) => s.(files := s.files - {path})
    case WrittenElsewhere(path, Some(file)) => s.(files := s.files[path := file])
    case Save(path, meta) => s.(files := s.files[path := FileAt(s, path).(meta := meta)], snapshots := map[])
    case WriteSecret(path, key, value) =>
      s.(files := s.files[path := FileAt(s, path).(secrets := FileAt(s, path).secrets[key := value])],
          snapshots := map[])
    case ClearSecret(path, key) =>
      if path !in s.files then s
      else s.(files := s.files[path := s.files[path].(secrets := s.files[path].secrets - {key})], snapshots := map[])
    case UseStore(registered) => s.(registered := registered, snapshots := map[])
    case Read(path) => AfterRead(s, path, names)
  }

  function After(trace: seq<Action>, names: Names): State {
    if trace == [] then START else Apply(After(trace[..|trace| - 1], names), trace[|trace| - 1], names)
  }

  class Accessor {
    const names: Names
    var state: State

    constructor (names: Names)
      ensures this.names == names && state == START
    {
      this.names := names;
      state := START;
    }

    method UseConfigStore(path: Option<string>)
      modifies this
      ensures state == Apply(old(state), UseStore(path), names)
    {
      state := state.(registered := path);
      state := state.(snapshots := map[]);
    }

    method StoredValues(path: string) returns (stored: map<string, string>)
      modifies this
      ensures stored == Served(old(state), path, names) && state == Apply(old(state), Read(path), names)
    {
      if path in state.snapshots {
        var cached := state.snapshots[path];
        var age := state.now - cached.readAt;
        if age >= 0 && age < TTL_MS { return cached.stored; }
      }
      stored := ReadStored(state, path, names);
      state := state.(snapshots := state.snapshots[path := Snapshot(state.now, stored)]);
    }

    /** configValue; `env` holds the key's environment variable, `valid` its schema. */
    method ConfigValue(key: string, env: Option<string>, valid: string -> bool) returns (r: Result<Value, ()>)
      modifies this
      ensures state == match old(state).registered
                       case None => old(state)
                       case Some(path) => Apply(old(state), Read(path), names)
      ensures var stored := match old(state).registered
                            case None => None
                            case Some(path) => Get(Served(old(state), path, names), key);
              && (env.Some? && env.value != "" ==> r == Ok(FromEnvironment(env.value)))
              && (env.None? || env.value == "" ==>
                    && (stored.None? ==> r == Ok(Unset))
                    && (stored.Some? && valid(stored.value) ==> r == Ok(FromSettings(stored.value)))
                    && (stored.Some? && !valid(stored.value) ==> r.Err?))
    {
      if state.registered.None? { return EffectiveValue(None, env, valid); }
      var stored := StoredValues(state.registered.value);
      r := EffectiveValue(Get(stored, key), env, valid);
    }

    /** Refuses an invalid value before it touches anything. */
    method StoreSecret(path: string, key: string, value: string, valid: string -> bool) returns (ok: bool)
      modifies this
      ensures ok == valid(value)
      ensures state == if ok then Apply(old(state), WriteSecret(path, key, value), names) else old(state)
    {
      if !valid(value) { return false; }
      var file := FileAt(state, path);
      state := state.(files := state.files[path := file.(secrets := file.secrets[key := value])]);
      state := state.(snapshots := map[]);
      return true;
    }

    method RemoveSecret(path: string, key: string)
      modifies this
      ensures state == Apply(old(state), ClearSecret(path, key), names)
    {
      if path !in state.files { return; }
      var file := state.files[path];
      state := state.(files := state.files[path := file.(secrets := file.secrets - {key})]);
      state := state.(snapshots := map[]);
    }
  }

  // ---- What is served was in that database, and recently ----

  lemma AfterStep(trace: seq<Action>, k: nat, names: Names)
    requires k < |trace|
    ensures After(trace[..k + 1], names) == Apply(After(trace[..k], names), trace[k], names)
  {
    assert trace[..k + 1][..k] == trace[..k];
  }

  /** After the first k actions, this path's file read as these values and the clock read this. */
  ghost predicate WasSoAt(trace: seq<Action>, k: nat, names: Names, path: string,
      stored: map<string, string>, clock: int) {
    k <= |trace| && After(trace[..k], names).now == clock && ReadStored(After(trace[..k], names), path, names) == stored
  }

  lemma StillWasSo(trace: seq<Action>, k: nat, names: Names, path: string, stored: map<string, string>, clock: int)
    requires trace != [] && WasSoAt(trace[..|trace| - 1], k, names, path, stored, clock)
    ensures WasSoAt(trace, k, names, path, stored, clock)
  {
    assert trace[..|trace| - 1][..k] == trace[..k];
  }

  /** Every snapshot is what its own path's file held when the clock read its time. */
  lemma {:induction false} SnapshotsAreTrue(trace: seq<Action>, names: Names, path: string) returns (k: nat)
    requires path in After(trace, names).snapshots
    ensures var snapshot := After(trace, names).snapshots[path];
            k < |trace| && trace[k] == Read(path) && WasSoAt(trace, k, names, path, snapshot.stored, snapshot.readAt)
  {
    var before, last := trace[..|trace| - 1], trace[|trace| - 1];
    var s := After(before, names);
    if last == Read(path) && Cached(s, path).None? {
      k := |trace| - 1;
    } else {
      k := SnapshotsAreTrue(before, names, path);
      StillWasSo(trace, k, names, path, After(trace, names).snapshots[path].stored,
          After(trace, names).snapshots[path].readAt);
    }
  }

  /** Whatever is served was in that path's database at a moment whose clock reading is less than 2000 ms ago. */
  lemma ServedIsRecent(trace: seq<Action>, names: Names, path: string) returns (k: nat)
    ensures k <= |trace|
            && Served(After(trace, names), path, names) == ReadStored(After(trace[..k], names), path, names)
    ensures 0 <= After(trace, names).now - After(trace[..k], names).now < 2000
  {
    var s := After(trace, names);
    if Cached(s, path).Some? {
      k := SnapshotsAreTrue(trace, names, path);
    } else {
      k := |trace|;
      assert trace[..k] == trace;
    }
  }

  /** The clock never goes back. */
  ghost predicate Monotone(trace: seq<Action>, names: Names) {
    forall k :: 0 <= k < |trace| && trace[k].ClockReads? ==> After(trace[..k], names).now <= trace[k].now
  }

  lemma {:induction false} ClockOnlyAdvances(trace: seq<Action>, names: Names, j: nat, k: nat)
    requires Monotone(trace, names) && j <= k <= |trace|
    ensures After(trace[..j], names).now <= After(trace[..k], names).now
    decreases k
  {
    if j < k {
      ClockOnlyAdvances(trace, names, j, k - 1);
      AfterStep(trace, k - 1, names);
    }
  }

  /** With a monotone clock that moment is really recent: since then the clock has stayed within 2000 ms. */
  lemma ServedIsRecentOnAMonotoneClock(trace: seq<Action>, names: Names, path: string) returns (k: nat)
    requires Monotone(trace, names)
    ensures k <= |trace|
            && Served(After(trace, names), path, names) == ReadStored(After(trace[..k], names), path, names)
    ensures forall j :: k <= j <= |trace| ==> 0 <= After(trace[..j], names).now - After(trace[..k], names).now < 2000
  {
    k := ServedIsRecent(trace, names, path);
    assert trace[..|trace|] == trace;
    forall j | k <= j <= |trace| ensures 0 <= After(trace[..j], names).now - After(trace[..k], names).now < 2000 {
      ClockOnlyAdvances(trace, names, k, j);
      ClockOnlyAdvances(trace, names, j, |trace|);
    }
  }

  /** A clock that went back since the read forces a re-read. */
  lemma BackwardsClockForcesARead(s: State, path: string, names: Names)
    requires path in s.snapshots && s.now < s.snapshots[path].readAt
    ensures Served(s, path, names) == ReadStored(s, path, names)
    ensures AfterRead(s, path, names).snapshots[path] == Snapshot(s.now, ReadStored(s, path, names))
  {
  }

  /** So with the clock behind every reading at which the path was read, the file is read again. */
  lemma ClockBehindEveryReadForcesARead(trace: seq<Action>, names: Names, path: string)
    requires forall k ::
            0 <= k < |trace| && trace[k] == Read(path) ==> After(trace, names).now < After(trace[..k], names).now
    ensures Served(After(trace, names), path, names) == ReadStored(After(trace, names), path, names)
  {
    var s := After(trace, names);
    if path in s.snapshots {
      var k := SnapshotsAreTrue(trace, names, path);
      BackwardsClockForcesARead(s, path, names);
    }
  }

  // ---- The snapshot is used ----

  /**
   Steps that leave a path's snapshot alone while it is live: other processes' writes, reads, and a clock
   that stays near.
   */
  ghost predicate StaysNear(more: seq<Action>, readAt: int) {
    forall k :: 0 <= k < |more| ==>
      || more[k].WrittenElsewhere? || more[k].Read?
      || (more[k].ClockReads? && 0 <= more[k].now - readAt < 2000)
  }

  lemma {:induction false} SnapshotStays(s: State, more: seq<Action>, names: Names, path: string, trace: seq<Action>)
    requires s == After(trace, names) && Cached(s, path).Some? && StaysNear(more, s.snapshots[path].readAt)
    ensures Cached(After(trace + more, names), path) == Cached(s, path)
    decreases |more|
  {
    if more == [] {
      assert trace + more == trace;
    } else {
      var n := |more| - 1;
      SnapshotStays(s, more[..n], names, path, trace);
      assert (trace + more)[..|trace + more| - 1] == trace + more[..n] && (trace + more)[|trace + more| - 1] == more[n];
    }
  }

  /** A read is served again, without a look at the file, until 2000 ms have passed, whatever other processes write. */
  lemma ReadIsServedAgain(trace: seq<Action>, more: seq<Action>, names: Names, path: string)
    requires Cached(After(trace, names), path).None? && StaysNear(more, After(trace, names).now)
    ensures Served(After(trace + [Read(path)] + more, names), path, names)
            == ReadStored(After(trace, names), path, names)
  {
    var once := trace + [Read(path)];
    assert once[..|once| - 1] == trace;
    SnapshotStays(After(once, names), more, names, path, once);
  }

  // ---- Files and stores ----

  /** What another process writes is the file then, and what it deletes is gone. */
  lemma WrittenElsewhereIsTheFile(trace: seq<Action>, path: string, file: Option<File>, names: Names)
    ensures Get(After(trace + [WrittenElsewhere(path, file)], names).files, path) == file
    ensures forall other :: other != path ==>
              Get(After(trace + [WrittenElsewhere(path, file)], names).files, other)
                  == Get(After(trace, names).files, other)
  {
    var last := WrittenElsewhere(path, file);
    assert (trace + [last])[..|trace|] == trace;
  }

  /** Registering a store is what the next reads go by, and they look at its file. */
  lemma RegisteredStoreIsRead(trace: seq<Action>, path: string, registered: Option<string>, names: Names)
    ensures var s := After(trace + [UseStore(registered)], names);
            && s.registered == registered && s.files == After(trace, names).files
            && Served(s, path, names) == ReadStored(s, path, names)
  {
    assert (trace + [UseStore(registered)])[..|trace|] == trace;
  }

  // ---- Own writes are seen at once ----

  /** No other process has written to the path in this part of a run. */
  ghost predicate NotWrittenElsewhere(trace: seq<Action>, path: string) {
    forall k :: 0 <= k < |trace| ==> !(trace[k].WrittenElsewhere? && trace[k].path == path)
  }

  /** A snapshot of the path, if there is one, is what the file holds now. */
  ghost predicate UpToDate(s: State, path: string, names: Names) {
    path in s.snapshots ==> s.snapshots[path].stored == ReadStored(s, path, names)
  }

  lemma StaysUpToDate(s: State, a: Action, names: Names, path: string)
    requires UpToDate(s, path, names) && !(a.WrittenElsewhere? && a.path == path)
    ensures UpToDate(Apply(s, a, names), path, names)
  {
  }

  lemma {:induction false} UpToDateSince(trace: seq<Action>, more: seq<Action>, names: Names, path: string)
    requires UpToDate(After(trace, names), path, names) && NotWrittenElsewhere(more, path)
    ensures UpToDate(After(trace + more, names), path, names)
    decreases |more|
  {
    if more == [] {
      assert trace + more == trace;
    } else {
      var before, last := more[..|more| - 1], more[|more| - 1];
      UpToDateSince(trace, before, names, path);
      assert (trace + more)[..|trace + more| - 1] == trace + before && (trace + more)[|trace + more| - 1] == last;
      StaysUpToDate(After(trace + before, names), last, names, path);
    }
  }

  /** The writes of this process: clearing a secret is one where there is a file to clear it in. */
  predicate OwnWrite(s: State, a: Action) {
    a.Save? || a.WriteSecret? || (a.ClearSecret? && a.path in s.files)
  }

  /** After a write of this process, and until another process writes, every read serves the file as it is. */
  lemma OwnWritesAreSeen(trace: seq<Action>, write: Action, more: seq<Action>, names: Names, path: string)
    requires OwnWrite(After(trace, names), write) && NotWrittenElsewhere(more, path)
    ensures var s := After(trace + [write] + more, names); Served(s, path, names) == ReadStored(s, path, names)
  {
    assert (trace + [write])[..|trace|] == trace;
    UpToDateSince(trace + [write], more, names, path);
  }

  /** So a secret written is the secret read next. */
  lemma SecretIsReadBack(trace: seq<Action>, path: string, key: string, value: string, names: Names)
    requires key in names.secret
    ensures Get(Served(After(trace + [WriteSecret(path, key, value)], names), path, names), key) == Some(value)
  {
    var write := WriteSecret(path, key, value);
    OwnWritesAreSeen(trace, write, [], names, path);
    assert trace + [write] + [] == trace + [write];
    assert (trace + [write])[..|trace|] == trace;
  }

  /** A setting saved is the setting read next, and one that was not saved reads as unset. */
  lemma SettingIsReadBack(trace: seq<Action>, path: string, key: string, meta: map<string, string>, names: Names)
    requires key in names.moved && key !in names.secret
    ensures Get(Served(After(trace + [Save(path, meta)], names), path, names), key) == Get(meta, key)
  {
    var write := Save(path, meta);
    OwnWritesAreSeen(trace, write, [], names, path);
    assert trace + [write] + [] == trace + [write];
    assert (trace + [write])[..|trace|] == trace;
  }

  /** Nothing but settings and secrets is ever served. */
  lemma OnlySettingsAreServed(trace: seq<Action>, path: string, key: string, names: Names)
    requires key in Served(After(trace, names), path, names)
    ensures key in names.moved || key in names.secret
  {
    var k := ServedIsRecent(trace, names, path);
  }

  /**
   After clearing a secret the next read serves what the file holds, in which the secret is gone;
   without a file the clearing does nothing, and a snapshot of a file deleted meanwhile may live on.
   */
  lemma ClearedSecretIsGoneExactlyWhen(trace: seq<Action>, path: string, key: string, names: Names)
    requires key in names.secret && key !in names.moved
    ensures var s := After(trace, names);
            Get(Served(After(trace + [ClearSecret(path, key)], names), path, names), key) == None
            <==> path in s.files || Cached(s, path).None? || key !in Cached(s, path).value.stored
  {
    var clear := ClearSecret(path, key);
    assert (trace + [clear])[..|trace|] == trace;
    if path in After(trace, names).files {
      OwnWritesAreSeen(trace, clear, [], names, path);
      assert trace + [clear] + [] == trace + [clear];
    }
  }

  /**
   So once cleared in an existing file, a secret is not served again until something else writes the file or
   this process writes that secret.
   */
  lemma ClearedSecretStaysGone(trace: seq<Action>, path: string, key: string, more: seq<Action>, names: Names)
    requires key in names.secret && key !in names.moved && path in After(trace, names).files
            && NotWrittenElsewhere(more, path)
    requires forall k :: 0 <= k < |more| ==> !(more[k].WriteSecret? && more[k].path == path && more[k].key == key)
    ensures key !in Served(After(trace + [ClearSecret(path, key)] + more, names), path, names)
  {
    var clear := ClearSecret(path, key);
    OwnWritesAreSeen(trace, clear, more, names, path);
    assert (trace + [clear])[..|trace|] == trace;
    StaysCleared(trace + [clear], path, key, more, names);
  }

  lemma {:induction false} StaysCleared(trace: seq<Action>, path: string, key: string, more: seq<Action>, names: Names)
    requires key !in FileAt(After(trace, names), path).secrets && NotWrittenElsewhere(more, path)
    requires forall k :: 0 <= k < |more| ==> !(more[k].WriteSecret? && more[k].path == path && more[k].key == key)
    ensures key !in FileAt(After(trace + more, names), path).secrets
  {
    if more == [] {
      assert trace + more == trace;
    } else {
      var n := |more| - 1;
      StaysCleared(trace, path, key, more[..n], names);
      assert (trace + more)[..|trace| + n] == trace + more[..n];
      assert more[n] == (trace + more)[|trace| + n];
    }
  }
}
