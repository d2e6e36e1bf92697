/**
 The group ladder, the web permissions, and the two migrations that write group names
 (src/lib/authentik-config.ts, src/lib/permissions.ts, src/lib/inventory.ts).
 */
module Migrations {
  import opened Wrappers
  import opened Text
  import opened Ordering
  import InventoryModel

  // ---- The ladder ----

  const DEFAULT_RUNGS := [
    "bellhop-public-readonly", "bellhop-public", "bellhop-friends-family", "bellhop-admin-family", "authentik Admins"]

  const DEFAULT_LADDER := Join(DEFAULT_RUNGS, ',')

  /** Names in order, each at its first place only, blanks dropped. */
  function Distinct(names: seq<string>): seq<string> {
    if names == [] then []
    else
      var before, name := Distinct(names[..|names| - 1]), Trim(names[|names| - 1]);
      if name == "" || name in before then before else before + [name]
  }

  function Ladder(raw: Option<string>): seq<string> {
    var text := if raw.GetOr("") == "" then DEFAULT_LADDER else raw.value;
    Distinct(Split(text, ','))
  }

  /** parseGroupLadder. */
  method ParseGroupLadder(raw: Option<string>) returns (ladder: seq<string>)
    ensures ladder == Ladder(raw)
  {
    var text := if raw.GetOr("") == "" then DEFAULT_LADDER else raw.value;
    var parts := Split(text, ',');
    var seen: set<string> := {};
    ladder := [];
    for i := 0 to |parts|
      invariant ladder == Distinct(parts[..i])
      invariant seen == set name | name in ladder
    {
      assert parts[..i + 1][..i] == parts[..i];
      var name := Trim(parts[i]);
      if name == "" || name in seen { continue; }
      seen := seen + {name};
      ladder := ladder + [name];
    }
    assert parts[..|parts|] == parts;
  }

  /** Every rung of a ladder is a trimmed, non-blank name, and none is there twice. */
  ghost predicate IsLadder(ladder: seq<string>) {
    NoDuplicates(ladder) && forall i :: 0 <= i < |ladder| ==> ladder[i] != "" && IsTrimmed(ladder[i])
  }

  lemma {:induction false} DistinctIsALadder(names: seq<string>)
    ensures IsLadder(Distinct(names))
  {
    if names != [] {
      DistinctIsALadder(names[..|names| - 1]);
      TrimTrims(names[|names| - 1]);
    }
  }

  /** The rungs of a parsed ladder are the names it is given, trimmed, the blank ones apart. */
  lemma {:induction false} DistinctAre(names: seq<string>, name: string)
    ensures name in Distinct(names) <==> name != "" && exists i :: 0 <= i < |names| && Trim(names[i]) == name
  {
    if names != [] {
      var n := |names| - 1;
      DistinctAre(names[..n], name);
      assert forall i :: 0 <= i < n ==> names[..n][i] == names[i];
      if Trim(names[n]) == name { assert Trim(names[|names| - 1]) == name; }
    }
  }

  lemma {:induction false} DistinctKeepsLadders(ladder: seq<string>)
    requires IsLadder(ladder)
    ensures Distinct(ladder) == ladder
  {
    if ladder != [] {
      var before, last := ladder[..|ladder| - 1], ladder[|ladder| - 1];
      DistinctKeepsLadders(before);
      TrimTrims(last);
      assert ladder == before + [last];
    }
  }

  /** A ladder written with commas is read back as it was. */
  lemma LadderRoundTrip(ladder: seq<string>)
    requires IsLadder(ladder) && ladder != [] && NoneContains(ladder, ',')
    ensures Ladder(Some(Join(ladder, ','))) == ladder
  {
    SplitJoin(ladder, ',');
    DistinctKeepsLadders(ladder);
  }

  lemma DefaultRungsAreALadder()
    ensures IsLadder(DEFAULT_RUNGS)
  {
    var r := DEFAULT_RUNGS;
    assert |r[0]| == 23 && |r[1]| == 14 && |r[2]| == 22 && |r[3]| == 20 && |r[4]| == 16;
  }

  lemma DefaultRungsHoldNoComma(i: nat)
    requires i < |DEFAULT_RUNGS|
    ensures ',' !in DEFAULT_RUNGS[i]
  {
  }

  /** Without a ladder set, the default rungs. */
  lemma DefaultLadder()
    ensures Ladder(None) == DEFAULT_RUNGS
  {
    DefaultRungsAreALadder();
    forall i | 0 <= i < |DEFAULT_RUNGS| ensures ',' !in DEFAULT_RUNGS[i] { DefaultRungsHoldNoComma(i); }
    SplitJoin(DEFAULT_RUNGS, ',');
    DistinctKeepsLadders(DEFAULT_RUNGS);
  }

  /** The index of a name, or -1. */
  function IndexOf(names: seq<string>, name: string): (i: int)
    ensures -1 <= i < |names|
    ensures i >= 0 ==> names[i] == name && name !in names[..i]
    ensures i == -1 ==> name !in names
  {
    if names == [] then -1
    else if names[0] == name then 0
    else
      var k := IndexOf(names[1..], name);
      if k == -1 then -1 else
        assert forall j :: 1 <= j < k + 1 ==> names[j] == names[1..][j - 1];
        k + 1
  }

  /** The rung a name stands for and every narrower one; None for a name that is not on the ladder. */
  function RungsAtOrAbove(ladder: seq<string>, group: string): Option<seq<string>> {
    var i := IndexOf(ladder, group);
    if i == -1 then None else Some(ladder[i..])
  }

  /** The top rung's audience is inside every rung's, and is a rung's only when that rung is the top one. */
  lemma TopRungIsNarrowest(ladder: seq<string>, group: string)
    requires IsLadder(ladder) && group in ladder
    ensures var top := ladder[|ladder| - 1];
            RungsAtOrAbove(ladder, top) == Some([top]) && RungsAtOrAbove(ladder, group).Some?
            && top in RungsAtOrAbove(ladder, group).value
            && (RungsAtOrAbove(ladder, group) == Some([top]) <==> group == top)
  {
    var top, i := ladder[|ladder| - 1], IndexOf(ladder, group);
    assert IndexOf(ladder, top) == |ladder| - 1;
    assert ladder[i..][|ladder| - 1 - i] == top;
    assert ladder[|ladder| - 1..] == [top];
  }

  // ---- Web permissions ----

  datatype Mode = AllowList | BlockList

  datatype Resource = HostResource(name: string) | GuestResource(name: string)

  datatype Rule = Rule(group: string, resource: Resource)

  datatype Permissions = Permissions(modes: map<string, Mode>, rules: set<Rule>)

  /** The foreign key from rules to groups. */
  ghost predicate KeysHold(p: Permissions) {
    forall r :: r in p.rules ==> r.group in p.modes
  }

  predicate AllowedBy(p: Permissions, group: string, ref: Resource, isCreator: bool) {
    group in p.modes ==>
      var listed := Rule(group, ref) in p.rules;
      if p.modes[group] == AllowList then listed || (ref.GuestResource? && isCreator) else !listed
  }

  /** isAllowed: the intersection over all groups of the caller. */
  predicate Allowed(p: Permissions, groups: seq<string>, ref: Resource, isCreator: bool) {
    forall i :: 0 <= i < |groups| ==> AllowedBy(p, groups[i], ref, isCreator)
  }

  method IsAllowed(p: Permissions, groups: seq<string>, ref: Resource, isCreator: bool) returns (allowed: bool)
    ensures allowed == Allowed(p, groups, ref, isCreator)
  {
    var creatorLift := ref.GuestResource? && isCreator;
    for i := 0 to |groups|
      invariant Allowed(p, groups[..i], ref, isCreator)
    {
      if groups[i] !in p.modes { continue; }
      var listed := Rule(groups[i], ref) in p.rules;
      var allowedByThisGroup := if p.modes[groups[i]] == AllowList then listed || creatorLift else !listed;
      if !allowedByThisGroup { return false; }
    }
    return true;
  }

  /** More groups never widen. */
  lemma GroupsIntersect(p: Permissions, a: seq<string>, b: seq<string>, ref: Resource, isCreator: bool)
    ensures Allowed(p, a + b, ref, isCreator) <==> Allowed(p, a, ref, isCreator) && Allowed(p, b, ref, isCreator)
  {
    var groups := a + b;
    assert forall i :: 0 <= i < |a| ==> groups[i] == a[i];
    assert forall i :: 0 <= i < |b| ==> groups[|a| + i] == b[i];
  }

  /** Being the creator opens exactly the guests that only allow-lists were closing. */
  lemma CreatorLiftOpensExactly(p: Permissions, groups: seq<string>, ref: Resource)
    ensures Allowed(p, groups, ref, true) && !Allowed(p, groups, ref, false) <==>
              && ref.GuestResource?
              && (exists g :: g in groups && g in p.modes && p.modes[g] == AllowList && Rule(g, ref) !in p.rules)
              && !exists g :: g in groups && g in p.modes && p.modes[g] == BlockList && Rule(g, ref) in p.rules
  {
    if !Allowed(p, groups, ref, false) {
      var i :| 0 <= i < |groups| && !AllowedBy(p, groups[i], ref, false);
      assert groups[i] in groups;
    }
  }

  datatype Caller = Caller(username: string, uid: Option<string>, impersonating: Option<string>)

  predicate Blank(s: Option<string>) {
    s.GetOr("") == ""
  }

  function IsGuestCreator(creator: Option<InventoryModel.Creator>, caller: Caller): bool {
    if !Blank(caller.impersonating) || creator.None? then false
    else if !Blank(creator.value.uid) && !Blank(caller.uid) then creator.value.uid == caller.uid
    else caller.username != "" && creator.value.username == caller.username
  }

  /**
   Two people with different uids are never both the creator on their uid's account; a reused name alone
   opens nothing.
   */
  lemma ReusedNameIsNotTheCreator(creator: InventoryModel.Creator, caller: Caller)
    requires !Blank(creator.uid) && !Blank(caller.uid)
    ensures IsGuestCreator(Some(creator), caller) <==> Blank(caller.impersonating) && creator.uid == caller.uid
  {
  }

  /** Who counts as a guest's creator: never who impersonates, the same uid where both are known, else the same name. */
  lemma IsGuestCreatorExactlyWhen(creator: Option<InventoryModel.Creator>, caller: Caller)
    ensures IsGuestCreator(creator, caller) <==>
            && (caller.impersonating.None? || caller.impersonating.value == "")
            && creator.Some?
            && var made := creator.value;
               if (made.uid.None? || made.uid.value == "") || (caller.uid.None? || caller.uid.value == "") then
                 caller.username != "" && made.username == caller.username
               else
                 made.uid.value == caller.uid.value
  {
  }

  // ---- The migrations ----

  /** An entry's group column, with the old boolean next to it where the table still has it. */
  datatype EntryTable = Legacy(rows: seq<OldRow>) | Current(groups: seq<Option<string>>)

  datatype OldRow = OldRow(requiresAuth: bool, group: Option<string>)

  datatype Db = Db(tables: seq<EntryTable>, hasPermissions: bool, permissions: Permissions)

  function TopRung(ladder: seq<string>): Option<string> {
    if ladder == [] then None else Some(ladder[|ladder| - 1])
  }

  /** The row after #158. */
  function Gated(top: Option<string>): OldRow -> Option<string> {
    (row: OldRow) => if row.requiresAuth && row.group.None? then top else row.group
  }

  /** #158: every gated entry without a group goes to the top rung, and the boolean column goes. */
  function DropBoolean(ladder: seq<string>): EntryTable -> EntryTable {
    (t: EntryTable) => match t
      case Legacy(rows) => Current(Map(rows, Gated(TopRung(ladder))))
      case Current(_) => t
  }

  function MigrateBoolean(db: Db, ladder: seq<string>): Db {
    db.(tables := Map(db.tables, DropBoolean(ladder)))
  }

  function NewName(g: Option<string>, from: string, to: string): Option<string> {
    if g == Some(from) then Some(to) else g
  }

  function RenameGroup(from: string, to: string): Option<string> -> Option<string> {
    (g: Option<string>) => NewName(g, from, to)
  }

  function RenameRow(from: string, to: string): OldRow -> OldRow {
    (row: OldRow) => OldRow(row.requiresAuth, NewName(row.group, from, to))
  }

  function RenameIn(from: string, to: string): EntryTable -> EntryTable {
    (t: EntryTable) => match t
      case Legacy(rows) => Legacy(Map(rows, RenameRow(from, to)))
      case Current(groups) => Current(Map(groups, RenameGroup(from, to)))
  }

  /** Copies a group's rule to a name that has none. */
  function CopyRule(p: Permissions, from: string, to: string): Permissions {
    if from in p.modes && to !in p.modes
    then Permissions(p.modes[to := p.modes[from]],
        p.rules + set r | r in p.rules && r.group == from :: Rule(to, r.resource))
    else p
  }

  /** One pair of #97. */
  function RenameRung(db: Db, pair: (string, string)): Db {
    Db(Map(db.tables, RenameIn(pair.0, pair.1)), db.hasPermissions,
       if db.hasPermissions then CopyRule(db.permissions, pair.0, pair.1) else db.permissions)
  }

  predicate TableHolds(t: EntryTable, name: string) {
    match t
    case Legacy(rows) => exists i :: 0 <= i < |rows| && rows[i].group == Some(name)
    case Current(groups) => Some(name) in groups
  }

  predicate Holds(db: Db, name: string) {
    (exists i :: 0 <= i < |db.tables| && TableHolds(db.tables[i], name))
        || (db.hasPermissions && name in db.permissions.modes)
  }

  predicate Applicable(pair: (string, string), ladder: seq<string>) {
    pair.0 !in ladder && pair.1 in ladder
  }

  /** The pairs a run picks: the old name is somewhere, is no rung any more, and the new one is. */
  function Picked(db: Db, ladder: seq<string>, renames: seq<(string, string)>): seq<(string, string)> {
    if renames == [] then []
    else
      (if Holds(db, renames[0].0) && Applicable(renames[0], ladder) then [renames[0]] else [])
      + Picked(db, ladder, renames[1..])
  }

  predicate IsPicked(db: Db, ladder: seq<string>, renames: seq<(string, string)>, pair: (string, string)) {
    pair in renames && Holds(db, pair.0) && Applicable(pair, ladder)
  }

  function RenameAll(db: Db, pairs: seq<(string, string)>): Db
    decreases |pairs|
  {
    if pairs == [] then db else RenameAll(RenameRung(db, pairs[0]), pairs[1..])
  }

  /** #97. */
  function MigrateRungNames(db: Db, ladder: seq<string>, renames: seq<(string, string)>): Db {
    RenameAll(db, Picked(db, ladder, renames))
  }

  /** No new name is an old one. */
  ghost predicate ProperRenames(renames: seq<(string, string)>) {
    forall i, j :: 0 <= i < |renames| && 0 <= j < |renames| ==> renames[i].1 != renames[j].0
  }

  const PREVIOUS_RUNG_RENAMES := [
    ("bellhop-users", "bellhop-admin-family"),
    ("bellhop-app-users", "bellhop-friends-family"),
    ("bellhop-app-users-open", "bellhop-public")]

  class Store {
    var db: Db

    constructor (db: Db)
      ensures this.db == db
    {
      this.db := db;
    }

    /** The part of opening the database that migrates group names. */
    method Open(ladder: seq<string>, renames: seq<(string, string)>)
      modifies this
      ensures db == MigrateRungNames(MigrateBoolean(old(db), ladder), ladder, renames)
    {
      var tables: seq<EntryTable> := [];
      for i := 0 to |db.tables|
        invariant db == old(db) && tables == Map(db.tables[..i], DropBoolean(ladder))
      {
        assert db.tables[..i + 1] == db.tables[..i] + [db.tables[i]];
        tables := tables + [DropBoolean(ladder)(db.tables[i])];
      }
      assert db.tables[..|db.tables|] == db.tables;
      db := db.(tables := tables);
      var pairs := Picked(db, ladder, renames);
      ghost var before := db;
      for i := 0 to |pairs|
        invariant RenameAll(before, pairs) == RenameAll(db, pairs[i..])
      {
        assert pairs[i..][1..] == pairs[i + 1..];
        db := RenameRung(db, pairs[i]);
      }
    }
  }

  // ---- Opening twice is opening once ----

  /** The pair has nothing left to do. */
  ghost predicate Settled(db: Db, pair: (string, string)) {
    && (forall i :: 0 <= i < |db.tables| ==> !TableHolds(db.tables[i], pair.0))
    && (db.hasPermissions && pair.0 in db.permissions.modes ==> pair.1 in db.permissions.modes)
  }

  lemma SettledIsFixed(db: Db, pair: (string, string))
    requires Settled(db, pair)
    ensures RenameRung(db, pair) == db
  {
    forall i | 0 <= i < |db.tables| ensures RenameIn(pair.0, pair.1)(db.tables[i]) == db.tables[i] {
      NothingToRename(db.tables[i], pair.0, pair.1);
    }
    assert Map(db.tables, RenameIn(pair.0, pair.1)) == db.tables;
  }

  lemma NothingToRename(t: EntryTable, from: string, to: string)
    requires !TableHolds(t, from)
    ensures RenameIn(from, to)(t) == t
  {
    match t
    case Legacy(rows) =>
      forall i | 0 <= i < |rows| ensures RenameRow(from, to)(rows[i]) == rows[i] { assert rows[i].group != Some(from); }
      assert Map(rows, RenameRow(from, to)) == rows;
    case Current(groups) => assert Map(groups, RenameGroup(from, to)) == groups;
  }

  lemma RenamedTableHolds(t: EntryTable, from: string, to: string, name: string)
    requires TableHolds(RenameIn(from, to)(t), name) && name != to
    ensures name != from && TableHolds(t, name)
  {
    match t
    case Legacy(rows) =>
      var i :| 0 <= i < |rows| && Map(rows, RenameRow(from, to))[i].group == Some(name);
      assert rows[i].group == Some(name);
    case Current(groups) =>
      var i :| 0 <= i < |groups| && Map(groups, RenameGroup(from, to))[i] == Some(name);
      assert groups[i] == Some(name);
  }

  lemma RenamingSettles(db: Db, pair: (string, string))
    requires pair.0 != pair.1
    ensures Settled(RenameRung(db, pair), pair)
  {
    forall i | 0 <= i < |db.tables| ensures !TableHolds(RenameIn(pair.0, pair.1)(db.tables[i]), pair.0) {
      if TableHolds(RenameIn(pair.0, pair.1)(db.tables[i]), pair.0) {
        RenamedTableHolds(db.tables[i], pair.0, pair.1, pair.0);
      }
    }
  }

  lemma RenamingKeepsSettled(db: Db, pair: (string, string), other: (string, string))
    requires Settled(db, other) && other.0 != pair.1
    ensures Settled(RenameRung(db, pair), other)
  {
    forall i | 0 <= i < |db.tables| ensures !TableHolds(RenameIn(pair.0, pair.1)(db.tables[i]), other.0) {
      if TableHolds(RenameIn(pair.0, pair.1)(db.tables[i]), other.0) {
        RenamedTableHolds(db.tables[i], pair.0, pair.1, other.0);
      }
    }
  }

  lemma {:induction false} RenamingAllKeepsSettled(db: Db, pairs: seq<(string, string)>, other: (string, string))
    requires Settled(db, other) && forall i :: 0 <= i < |pairs| ==> other.0 != pairs[i].1
    ensures Settled(RenameAll(db, pairs), other)
    decreases |pairs|
  {
    if pairs != [] {
      RenamingKeepsSettled(db, pairs[0], other);
      RenamingAllKeepsSettled(RenameRung(db, pairs[0]), pairs[1..], other);
    }
  }

  lemma {:induction false} RenamingAllSettles(db: Db, pairs: seq<(string, string)>, k: nat)
    requires ProperRenames(pairs) && k < |pairs|
    ensures Settled(RenameAll(db, pairs), pairs[k])
    decreases |pairs|
  {
    var rest := pairs[1..];
    assert forall i :: 0 <= i < |rest| ==> rest[i] == pairs[i + 1];
    if k == 0 {
      RenamingSettles(db, pairs[0]);
      RenamingAllKeepsSettled(RenameRung(db, pairs[0]), rest, pairs[0]);
    } else {
      RenamingAllSettles(RenameRung(db, pairs[0]), rest, k - 1);
    }
  }

  lemma {:induction false} PickedAre(db: Db, ladder: seq<string>, renames: seq<(string, string)>,
      pair: (string, string))
    ensures pair in Picked(db, ladder, renames) <==> IsPicked(db, ladder, renames, pair)
  {
    if renames != [] {
      PickedAre(db, ladder, renames[1..], pair);
      assert pair in renames <==> pair == renames[0] || pair in renames[1..];
    }
  }

  lemma PickedAreProper(db: Db, ladder: seq<string>, renames: seq<(string, string)>)
    requires ProperRenames(renames)
    ensures ProperRenames(Picked(db, ladder, renames))
    ensures forall p, q :: p in Picked(db, ladder, renames) && q in renames ==> q.0 != p.1
  {
    forall p, q | p in Picked(db, ladder, renames) && q in renames ensures q.0 != p.1 {
      PickedAre(db, ladder, renames, p);
      var i :| 0 <= i < |renames| && renames[i] == p;
      var j :| 0 <= j < |renames| && renames[j] == q;
      assert renames[i].1 != renames[j].0;
    }
    var picked := Picked(db, ladder, renames);
    forall i, j | 0 <= i < |picked| && 0 <= j < |picked| ensures picked[i].1 != picked[j].0 {
      PickedAre(db, ladder, renames, picked[j]);
    }
  }

  /** After a run, no applicable pair has anything left to do. */
  lemma ApplicablePairsSettle(db: Db, ladder: seq<string>, renames: seq<(string, string)>, pair: (string, string))
    requires ProperRenames(renames) && pair in renames && Applicable(pair, ladder)
    ensures Settled(MigrateRungNames(db, ladder, renames), pair)
  {
    var picked := Picked(db, ladder, renames);
    PickedAreProper(db, ladder, renames);
    PickedAre(db, ladder, renames, pair);
    if pair in picked {
      var k :| 0 <= k < |picked| && picked[k] == pair;
      RenamingAllSettles(db, picked, k);
    } else {
      RenamingAllKeepsSettled(db, picked, pair);
    }
  }

  lemma {:induction false} SettledPairsAreFixed(db: Db, pairs: seq<(string, string)>)
    requires forall i :: 0 <= i < |pairs| ==> Settled(db, pairs[i])
    ensures RenameAll(db, pairs) == db
  {
    if pairs != [] {
      SettledIsFixed(db, pairs[0]);
      SettledPairsAreFixed(db, pairs[1..]);
    }
  }

  /** With the ladder fixed, #97 does nothing on the next open. */
  lemma MigrateRungNamesTwice(db: Db, ladder: seq<string>, renames: seq<(string, string)>)
    requires ProperRenames(renames)
    ensures var once := MigrateRungNames(db, ladder, renames); MigrateRungNames(once, ladder, renames) == once
  {
    var once := MigrateRungNames(db, ladder, renames);
    var picked := Picked(once, ladder, renames);
    forall i | 0 <= i < |picked| ensures Settled(once, picked[i]) {
      PickedAre(once, ladder, renames, picked[i]);
      ApplicablePairsSettle(db, ladder, renames, picked[i]);
    }
    SettledPairsAreFixed(once, picked);
  }

  /** #158 drops the column it reads: the next open finds nothing, whatever the ladder is by then. */
  lemma MigrateBooleanTwice(db: Db, ladder: seq<string>, later: seq<string>)
    ensures MigrateBoolean(MigrateBoolean(db, ladder), later) == MigrateBoolean(db, ladder)
  {
    var once := MigrateBoolean(db, ladder);
    assert Map(once.tables, DropBoolean(later)) == once.tables;
  }

  /**
   A gated entry without a group fails closed: it gets the rung whose audience is inside every rung's. Other
   entries keep their group.
   */
  lemma GatedEntriesFailClosed(t: EntryTable, ladder: seq<string>, i: nat)
    requires t.Legacy? && i < |t.rows| && IsLadder(ladder) && ladder != []
    ensures var after := DropBoolean(ladder)(t).groups;
            && |after| == |t.rows|
            && (t.rows[i].group.Some? || !t.rows[i].requiresAuth ==> after[i] == t.rows[i].group)
            && (t.rows[i].group.None? && t.rows[i].requiresAuth ==>
                  && after[i].Some? && RungsAtOrAbove(ladder, after[i].value) == Some([after[i].value])
                  && forall r :: r in ladder ==> after[i].value in RungsAtOrAbove(ladder, r).GetOr([]))
  {
    var top := ladder[|ladder| - 1];
    forall r | r in ladder ensures top in RungsAtOrAbove(ladder, r).GetOr([]) { TopRungIsNarrowest(ladder, r); }
    TopRungIsNarrowest(ladder, top);
  }

  // ---- The two migrations commute ----

  lemma DropThenRename(t: EntryTable, ladder: seq<string>, from: string, to: string)
    requires from !in ladder
    ensures RenameIn(from, to)(DropBoolean(ladder)(t)) == DropBoolean(ladder)(RenameIn(from, to)(t))
  {
    match t
    case Legacy(rows) =>
      var top := TopRung(ladder);
      assert Map(Map(rows, Gated(top)), RenameGroup(from, to)) == Map(Map(rows, RenameRow(from, to)), Gated(top));
    case Current(_) =>
  }

  lemma OneRungCommutes(db: Db, ladder: seq<string>, pair: (string, string))
    requires Applicable(pair, ladder)
    ensures RenameRung(MigrateBoolean(db, ladder), pair) == MigrateBoolean(RenameRung(db, pair), ladder)
  {
    forall i | 0 <= i < |db.tables|
      ensures RenameIn(pair.0, pair.1)(DropBoolean(ladder)(db.tables[i]))
              == DropBoolean(ladder)(RenameIn(pair.0, pair.1)(db.tables[i]))
    {
      DropThenRename(db.tables[i], ladder, pair.0, pair.1);
    }
    assert Map(Map(db.tables, DropBoolean(ladder)), RenameIn(pair.0, pair.1))
        == Map(Map(db.tables, RenameIn(pair.0, pair.1)), DropBoolean(ladder));
  }

  lemma {:induction false} AllRungsCommute(db: Db, ladder: seq<string>, pairs: seq<(string, string)>)
    requires forall i :: 0 <= i < |pairs| ==> Applicable(pairs[i], ladder)
    ensures RenameAll(MigrateBoolean(db, ladder), pairs) == MigrateBoolean(RenameAll(db, pairs), ladder)
    decreases |pairs|
  {
    if pairs != [] {
      OneRungCommutes(db, ladder, pairs[0]);
      AllRungsCommute(RenameRung(db, pairs[0]), ladder, pairs[1..]);
    }
  }

  /** #158 brings in no name that #97 would rename. */
  lemma BooleanHoldsNoOldName(t: EntryTable, ladder: seq<string>, name: string)
    requires name !in ladder
    ensures TableHolds(DropBoolean(ladder)(t), name) <==> TableHolds(t, name)
  {
    match t
    case Legacy(rows) =>
      var after := Map(rows, Gated(TopRung(ladder)));
      assert forall i :: 0 <= i < |rows| ==> (after[i] == Some(name) <==> rows[i].group == Some(name));
      if i :| 0 <= i < |rows| && rows[i].group == Some(name) { assert after[i] == Some(name); }
    case Current(_) =>
  }

  lemma {:induction false} SamePicked(db: Db, ladder: seq<string>, renames: seq<(string, string)>)
    ensures Picked(MigrateBoolean(db, ladder), ladder, renames) == Picked(db, ladder, renames)
  {
    if renames != [] {
      SamePicked(db, ladder, renames[1..]);
      if Applicable(renames[0], ladder) { SameHolds(db, ladder, renames[0].0); }
    }
  }

  lemma SameHolds(db: Db, ladder: seq<string>, name: string)
    requires name !in ladder
    ensures Holds(MigrateBoolean(db, ladder), name) <==> Holds(db, name)
  {
    var after := MigrateBoolean(db, ladder);
    forall i | 0 <= i < |db.tables| ensures TableHolds(after.tables[i], name) <==> TableHolds(db.tables[i], name) {
      BooleanHoldsNoOldName(db.tables[i], ladder, name);
    }
  }

  /** It does not matter which of the two runs first: #158 only ever writes a name that is on the ladder. */
  lemma MigrationsCommute(db: Db, ladder: seq<string>, renames: seq<(string, string)>)
    ensures MigrateRungNames(MigrateBoolean(db, ladder), ladder, renames)
            == MigrateBoolean(MigrateRungNames(db, ladder, renames), ladder)
  {
    var picked := Picked(db, ladder, renames);
    SamePicked(db, ladder, renames);
    forall i | 0 <= i < |picked| ensures Applicable(picked[i], ladder) { PickedAre(db, ladder, renames, picked[i]); }
    AllRungsCommute(db, ladder, picked);
  }

  // ---- No migration widens access ----

  lemma {:induction false} RenamingOnlyNarrows(db: Db, pairs: seq<(string, string)>, group: string, ref: Resource,
      isCreator: bool)
    requires AllowedBy(RenameAll(db, pairs).permissions, group, ref, isCreator)
    ensures AllowedBy(db.permissions, group, ref, isCreator)
    decreases |pairs|
  {
    if pairs != [] { RenamingOnlyNarrows(RenameRung(db, pairs[0]), pairs[1..], group, ref, isCreator); }
  }

  /** Whatever a caller may reach after the migrations, the caller could reach before. */
  lemma MigrationsNeverWiden(db: Db, ladder: seq<string>, renames: seq<(string, string)>, groups: seq<string>,
      ref: Resource, isCreator: bool)
    requires Allowed(MigrateRungNames(MigrateBoolean(db, ladder), ladder, renames).permissions, groups, ref, isCreator)
    ensures Allowed(db.permissions, groups, ref, isCreator)
  {
    var before := MigrateBoolean(db, ladder);
    forall i | 0 <= i < |groups| ensures AllowedBy(db.permissions, groups[i], ref, isCreator) {
      RenamingOnlyNarrows(before, Picked(before, ladder, renames), groups[i], ref, isCreator);
    }
  }

  // ---- After a run, every name answers for the right rule ----

  /** No two pairs share an old name or a new one. */
  ghost predicate DistinctRenames(renames: seq<(string, string)>) {
    forall i, j :: 0 <= i < j < |renames| ==> renames[i].0 != renames[j].0 && renames[i].1 != renames[j].1
  }

  ghost predicate Tidy(renames: seq<(string, string)>) {
    ProperRenames(renames) && DistinctRenames(renames)
  }

  /** The shipped pairs chain into nothing and share no name. */
  lemma PreviousRenamesAreTidy()
    ensures Tidy(PREVIOUS_RUNG_RENAMES)
  {
    var shipped := PREVIOUS_RUNG_RENAMES;
    assert "bellhop-app-users-open"[8] != "bellhop-friends-family"[8];
    assert shipped[0].1[8] == 'a' && shipped[1].1[8] == 'f' && shipped[2].1[8] == 'p';
    assert |shipped[0].0| == 13 && |shipped[1].0| == 17 && |shipped[2].0| == 22;
  }

  lemma {:induction false} PickedInOrder(db: Db, ladder: seq<string>, renames: seq<(string, string)>)
    requires DistinctRenames(renames)
    ensures DistinctRenames(Picked(db, ladder, renames))
  {
    if renames != [] {
      var rest := renames[1..];
      assert forall i :: 0 <= i < |rest| ==> rest[i] == renames[i + 1];
      PickedInOrder(db, ladder, rest);
      var picked := Picked(db, ladder, rest);
      forall i | 0 <= i < |picked| ensures picked[i].0 != renames[0].0 && picked[i].1 != renames[0].1 {
        PickedAre(db, ladder, rest, picked[i]);
        var j :| 0 <= j < |rest| && rest[j] == picked[i];
        assert renames[j + 1] == picked[i];
      }
    }
  }

  lemma PickedAreTidy(db: Db, ladder: seq<string>, renames: seq<(string, string)>)
    requires Tidy(renames)
    ensures Tidy(Picked(db, ladder, renames))
  {
    PickedAreProper(db, ladder, renames);
    PickedInOrder(db, ladder, renames);
  }

  lemma TidyTail(pairs: seq<(string, string)>)
    requires pairs != [] && Tidy(pairs)
    ensures Tidy(pairs[1..])
    ensures forall q :: q in pairs[1..] ==>
            q.0 != pairs[0].0 && q.1 != pairs[0].1 && q.0 != pairs[0].1 && q.1 != pairs[0].0
  {
    var rest := pairs[1..];
    assert forall i :: 0 <= i < |rest| ==> rest[i] == pairs[i + 1];
  }

  /** The name a new name had before; any other name is its own. */
  function OldName(pairs: seq<(string, string)>, name: string): (before: string)
    ensures before == name || (before, name) in pairs
  {
    if pairs == [] then name else if pairs[0].1 == name then pairs[0].0 else OldName(pairs[1..], name)
  }

  function RenamedName(pairs: seq<(string, string)>, name: string): (renamed: string)
    ensures if exists q :: q in pairs && q.0 == name then (name, renamed) in pairs else renamed == name
  {
    if pairs == [] then name else if pairs[0].0 == name then pairs[0].1 else RenamedName(pairs[1..], name)
  }

  /** Whose rule a name answers for after the run: its own if it had one, else that of its old name. */
  function RuleOwner(pairs: seq<(string, string)>, p: Permissions, name: string): string {
    if name in p.modes then name else OldName(pairs, name)
  }

  /**
   A copied rule holds the same resources, so the copy restricts the new name exactly as the old one is
   restricted.
   */
  lemma CopyRestrictsAlike(p: Permissions, from: string, to: string, ref: Resource, isCreator: bool)
    requires KeysHold(p) && to !in p.modes
    ensures AllowedBy(CopyRule(p, from, to), to, ref, isCreator) <==> AllowedBy(p, from, ref, isCreator)
  {
    var after := CopyRule(p, from, to);
    assert from in p.modes ==> (Rule(to, ref) in after.rules <==> Rule(from, ref) in p.rules);
  }

  lemma OtherNamesKeepTheirRule(p: Permissions, from: string, to: string, name: string, ref: Resource, isCreator: bool)
    requires name != to || to in p.modes
    ensures name in CopyRule(p, from, to).modes <==> name in p.modes
    ensures AllowedBy(CopyRule(p, from, to), name, ref, isCreator) <==> AllowedBy(p, name, ref, isCreator)
  {
  }

  /** After all copies, every name is restricted as the owner of its rule was before. */
  lemma {:induction false} CopiesRestrictAlike(db: Db, pairs: seq<(string, string)>, name: string, ref: Resource,
      isCreator: bool)
    requires KeysHold(db.permissions) && db.hasPermissions && Tidy(pairs)
    ensures AllowedBy(RenameAll(db, pairs).permissions, name, ref, isCreator)
            <==> AllowedBy(db.permissions, RuleOwner(pairs, db.permissions, name), ref, isCreator)
    decreases |pairs|
  {
    if pairs != [] {
      var p, from, to := db.permissions, pairs[0].0, pairs[0].1;
      TidyTail(pairs);
      CopiesRestrictAlike(RenameRung(db, pairs[0]), pairs[1..], name, ref, isCreator);
      if name == to && to !in p.modes {
        CopyRestrictsAlike(p, from, to, ref, isCreator);
      } else {
        OtherNamesKeepTheirRule(p, from, to, name, ref, isCreator);
        OtherNamesKeepTheirRule(p, from, to, OldName(pairs[1..], name), ref, isCreator);
      }
    }
  }

  /**
   A run of #97 restricts every name as the owner of its rule was restricted before: a picked pair's
   new name without a rule as its old name, and every other name as itself.
   */
  lemma RunRestrictsAlike(db: Db, ladder: seq<string>, renames: seq<(string, string)>, name: string, ref: Resource,
      isCreator: bool)
    requires KeysHold(db.permissions) && db.hasPermissions && Tidy(renames)
    ensures var p, after := db.permissions, MigrateRungNames(db, ladder, renames).permissions;
            var owner := RuleOwner(Picked(db, ladder, renames), p, name);
            AllowedBy(after, name, ref, isCreator) <==> AllowedBy(p, owner, ref, isCreator)
    ensures var p, after := db.permissions, MigrateRungNames(db, ladder, renames).permissions;
            forall pair :: IsPicked(db, ladder, renames, pair) && pair.1 == name && name !in p.modes ==>
              (AllowedBy(after, name, ref, isCreator) <==> AllowedBy(p, pair.0, ref, isCreator))
    ensures var p, after := db.permissions, MigrateRungNames(db, ladder, renames).permissions;
            name in p.modes || (forall pair :: IsPicked(db, ladder, renames, pair) ==> pair.1 != name) ==>
              (AllowedBy(after, name, ref, isCreator) <==> AllowedBy(p, name, ref, isCreator))
  {
    var picked := Picked(db, ladder, renames);
    PickedAreTidy(db, ladder, renames);
    CopiesRestrictAlike(db, picked, name, ref, isCreator);
    forall pair ensures pair in picked <==> IsPicked(db, ladder, renames, pair) {
      PickedAre(db, ladder, renames, pair);
    }
    forall pair | pair in picked && pair.1 == name ensures OldName(picked, name) == pair.0 { OldNameOf(picked, pair); }
  }

  lemma {:induction false} OldNameOf(pairs: seq<(string, string)>, pair: (string, string))
    requires Tidy(pairs) && pair in pairs
    ensures OldName(pairs, pair.1) == pair.0 && RenamedName(pairs, pair.0) == pair.1
  {
    if pair != pairs[0] {
      TidyTail(pairs);
      assert pair in pairs[1..];
      OldNameOf(pairs[1..], pair);
    }
  }

  function RenamedGroups(pairs: seq<(string, string)>, groups: seq<string>): seq<string> {
    Map(groups, (g: string) => RenamedName(pairs, g))
  }

  /**
   No renamed group meets a rule of its new name, and no group of the caller is given a rule that another
   group did not bring along.
   */
  ghost predicate RenamesCleanly(pairs: seq<(string, string)>, p: Permissions, groups: seq<string>) {
    forall pair :: pair in pairs ==>
      && (pair.0 in groups ==> pair.1 !in p.modes)
      && (pair.1 in groups && pair.0 in p.modes ==> pair.1 in p.modes || pair.0 in groups)
  }

  /**
   After the run and with every picked rename applied to the caller's groups in Authentik, the caller reaches
   exactly the same.
   */
  lemma RenamedCallerReachesTheSame(db: Db, ladder: seq<string>, renames: seq<(string, string)>, groups: seq<string>,
      ref: Resource, isCreator: bool)
    requires KeysHold(db.permissions) && db.hasPermissions && Tidy(renames)
    requires RenamesCleanly(Picked(db, ladder, renames), db.permissions, groups)
    ensures Allowed(MigrateRungNames(db, ladder, renames).permissions,
            RenamedGroups(Picked(db, ladder, renames), groups), ref, isCreator)
            <==> Allowed(db.permissions, groups, ref, isCreator)
  {
    var pairs, after := Picked(db, ladder, renames), MigrateRungNames(db, ladder, renames).permissions;
    PickedAreTidy(db, ladder, renames);
    var renamed := RenamedGroups(pairs, groups);
    forall i | 0 <= i < |groups|
      ensures Allowed(db.permissions, groups, ref, isCreator) ==> AllowedBy(after, renamed[i], ref, isCreator)
      ensures AllowedBy(after, renamed[i], ref, isCreator) ==> AllowedBy(db.permissions, groups[i], ref, isCreator)
    {
      RenamedGroupReachesTheSame(db, pairs, groups, i, ref, isCreator);
    }
  }

  lemma RenamedGroupReachesTheSame(db: Db, pairs: seq<(string, string)>, groups: seq<string>, i: nat, ref: Resource,
      isCreator: bool)
    requires KeysHold(db.permissions) && db.hasPermissions && Tidy(pairs)
            && RenamesCleanly(pairs, db.permissions, groups) && i < |groups|
    ensures var answer := AllowedBy(RenameAll(db, pairs).permissions, RenamedName(pairs, groups[i]), ref, isCreator);
            && (Allowed(db.permissions, groups, ref, isCreator) ==> answer)
            && (answer ==> AllowedBy(db.permissions, groups[i], ref, isCreator))
  {
    var g := groups[i];
    var to := RenamedName(pairs, g);
    var owner := OldName(pairs, to);
    CopiesRestrictAlike(db, pairs, to, ref, isCreator);
    if q :| q in pairs && q.0 == g {
      OldNameOf(pairs, (g, to));
      assert to !in db.permissions.modes;
    } else if g !in db.permissions.modes && owner != g && owner in db.permissions.modes {
      assert (owner, g) in pairs && owner in groups;
      var k :| 0 <= k < |groups| && groups[k] == owner;
    }
  }
}
