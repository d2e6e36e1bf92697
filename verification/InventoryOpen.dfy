/**
 Opening the database: the migrations that every load and every save runs first
 (src/lib/inventory.ts, src/lib/proxy/legacy-tls.ts).

 The boolean that #158 drops is gone from a database after its first open; it is in Migrations.
 */
module InventoryOpen {
  import opened Wrappers
  import opened Ordering
  import opened InventoryModel
  import opened InventoryTables
  import ConfigSnapshot
  import Migrations
  import Text

  const LADDER := "authentikGroupLadder"
  const WEB_AUTH := "webUiAuthMode"
  const DRIVER := "proxyDriver"
  const CADDY_TLS := "proxyCaddyTls"
  const RESOLVER := "proxyCertResolver"
  const TLS_SOURCE := "tlsSource"

  /** The database; `hasPermissions` says whether the web permissions' tables are there yet. */
  datatype Stored = Stored(tables: Tables, hasPermissions: bool, permissions: Migrations.Permissions)

  /** What overrides the stored ladder, and which stored ladders are valid. */
  datatype LadderRules = LadderRules(env: Option<string>, valid: string -> bool)

  // ---- The migrations of settings ----

  /** #69: 'authentik' is called 'oidc', and 'auto' is the unset state. */
  function WebAuthMigrated(meta: map<string, string>): map<string, string> {
    if Get(meta, WEB_AUTH) == Some("authentik") then meta[WEB_AUTH := "oidc"]
    else if Get(meta, WEB_AUTH) == Some("auto") then meta - {WEB_AUTH}
    else meta
  }

  /** What a value of the removed Caddy setting stands for, if it is more than the driver's own default. */
  function CaddySource(value: string): Option<string> {
    if value == "letsencrypt" then Some("acme-http")
    else if value == "internal" || value == "files" then Some(value)
    else None
  }

  /** convertLegacyTlsSettings: the source to write, if none is set. */
  function ConvertedSource(meta: map<string, string>): Option<string> {
    var driver := Get(meta, DRIVER).GetOr("caddy");
    if driver == "traefik" then (if Get(meta, RESOLVER) == Some("none") then Some("external") else None)
    else if (driver == "caddy" || driver == "caddy-api") && CADDY_TLS in meta then CaddySource(meta[CADDY_TLS])
    else None
  }

  /** #72: the legacy rows go, a resolver called 'none' among them, and a source already set stays. */
  function TlsMigrated(meta: map<string, string>): map<string, string> {
    var kept := meta - {CADDY_TLS} - if Get(meta, RESOLVER) == Some("none") then {RESOLVER} else {};
    if TLS_SOURCE in meta || ConvertedSource(meta).None? then kept else kept[TLS_SOURCE := ConvertedSource(meta).value]
  }

  function MetaMigrated(meta: map<string, string>): map<string, string> {
    TlsMigrated(WebAuthMigrated(meta))
  }

  /** What each row of the settings' table reads once the sign-in mode is migrated. */
  lemma WebAuthRow(meta: map<string, string>, row: string)
    ensures var before, after := Get(meta, row), Get(WebAuthMigrated(meta), row);
            && (row == "webUiAuthMode" && before == Some("authentik") ==> after == Some("oidc"))
            && (row == "webUiAuthMode" && before == Some("auto") ==> after == None)
            && (row != "webUiAuthMode" || (before != Some("authentik") && before != Some("auto")) ==> after == before)
  {
  }

  /** A driver of Caddy's, the default one included. */
  predicate IsCaddy(meta: map<string, string>) {
    "proxyDriver" !in meta || meta["proxyDriver"] == "caddy" || meta["proxyDriver"] == "caddy-api"
  }

  /** And once the TLS settings are: each legacy value with a meaning becomes the source that has it. */
  lemma TlsRow(meta: map<string, string>, row: string)
    ensures var before, after := Get(meta, row), Get(TlsMigrated(meta), row);
            var caddy := if IsCaddy(meta) then Get(meta, "proxyCaddyTls") else None;
            && (row == "proxyCaddyTls" ==> after == None)
            && (row == "proxyCertResolver" ==> after == if before == Some("none") then None else before)
            && (row == "tlsSource" && before.None? ==>
                  && (after == Some("acme-http") <==> caddy == Some("letsencrypt"))
                  && (after == Some("internal") <==> caddy == Some("internal"))
                  && (after == Some("files") <==> caddy == Some("files"))
                  && (after == Some("external") <==>
                        Get(meta, "proxyDriver") == Some("traefik") && Get(meta, "proxyCertResolver") == Some("none"))
                  && (after.Some? ==> after.value in ["acme-http", "internal", "files", "external"]))
            && (row == "tlsSource" && before.Some? ==> after == before)
            && (row !in ["proxyCaddyTls", "proxyCertResolver", "tlsSource"] ==> after == before)
  {
  }

  // ---- The renames of groups ----

  function HostGroup(): HostRow -> Option<string> { (r: HostRow) => r.gate.authGroup }
  function GuestGroup(): GuestRow -> Option<string> { (r: GuestRow) => r.gate.authGroup }
  function SiteGroup(): SiteRow -> Option<string> { (r: SiteRow) => r.gate.authGroup }

  /** What the group migrations see of the database. */
  function DbOf(s: Stored): Migrations.Db {
    Migrations.Db([Migrations.Current(Map(s.tables.hosts, HostGroup())),
                   Migrations.Current(Map(s.tables.guests, GuestGroup())),
                   Migrations.Current(Map(s.tables.sites, SiteGroup()))], s.hasPermissions, s.permissions)
  }

  type Renaming = Option<string> -> Option<string>

  function RegroupHost(f: Renaming): HostRow -> HostRow {
    (r: HostRow) => r.(gate := r.gate.(authGroup := f(r.gate.authGroup)))
  }

  function RegroupGuest(f: Renaming): GuestRow -> GuestRow {
    (r: GuestRow) => r.(gate := r.gate.(authGroup := f(r.gate.authGroup)))
  }

  function RegroupSite(f: Renaming): SiteRow -> SiteRow {
    (r: SiteRow) => r.(gate := r.gate.(authGroup := f(r.gate.authGroup)))
  }

  /** The three UPDATEs of the group column. */
  function RegroupRows(t: Tables, f: Renaming): Tables {
    t.(hosts := Map(t.hosts, RegroupHost(f)), guests := Map(t.guests, RegroupGuest(f)),
        sites := Map(t.sites, RegroupSite(f)))
  }

  /** One pair: the three updates, and the copy of the web permission rule. */
  function RenameOne(s: Stored, pair: (string, string)): Stored {
    Stored(RegroupRows(s.tables, Migrations.RenameGroup(pair.0, pair.1)), s.hasPermissions,
           Migrations.RenameRung(DbOf(s), pair).permissions)
  }

  function RenameAll(s: Stored, pairs: seq<(string, string)>): Stored
    decreases |pairs|
  {
    if pairs == [] then s else RenameAll(RenameOne(s, pairs[0]), pairs[1..])
  }

  /** The update of the rows is the migration of the group columns. */
  lemma OneRenameIsTheMigration(s: Stored, pair: (string, string))
    ensures DbOf(RenameOne(s, pair)) == Migrations.RenameRung(DbOf(s), pair)
  {
    var f := Migrations.RenameGroup(pair.0, pair.1);
    MapsCommute(s.tables.hosts, RegroupHost(f), HostGroup(), f);
    MapsCommute(s.tables.guests, RegroupGuest(f), GuestGroup(), f);
    MapsCommute(s.tables.sites, RegroupSite(f), SiteGroup(), f);
    assert Map(DbOf(s).tables, Migrations.RenameIn(pair.0, pair.1)) == DbOf(RenameOne(s, pair)).tables;
  }

  lemma MapsCommute<R>(rows: seq<R>, change: R -> R, column: R -> Option<string>, f: Renaming)
    requires forall r :: column(change(r)) == f(column(r))
    ensures Map(Map(rows, change), column) == Map(Map(rows, column), f)
  {
  }

  lemma {:induction false} RenamesAreTheMigration(s: Stored, pairs: seq<(string, string)>)
    ensures DbOf(RenameAll(s, pairs)) == Migrations.RenameAll(DbOf(s), pairs)
    ensures RenameAll(s, pairs).tables.meta == s.tables.meta
    decreases |pairs|
  {
    if pairs != [] {
      OneRenameIsTheMigration(s, pairs[0]);
      RenamesAreTheMigration(RenameOne(s, pairs[0]), pairs[1..]);
    }
  }

  // ---- Opening ----

  function BeforeRenames(s: Stored): Stored {
    s.(tables := s.tables.(meta := MetaMigrated(s.tables.meta)))
  }

  /** effectiveLadderOnHandle; a stored ladder that is not valid throws. */
  function LadderOn(meta: map<string, string>, rules: LadderRules): Result<seq<string>, ()> {
    match ConfigSnapshot.EffectiveValue(Get(meta, LADDER), rules.env, rules.valid)
    case Err(_) => Err(())
    case Ok(Unset) => Ok(Migrations.Ladder(None))
    case Ok(FromEnvironment(value)) => Ok(Migrations.Ladder(Some(value)))
    case Ok(FromSettings(value)) => Ok(Migrations.Ladder(Some(value)))
  }

  /** The ladder is that of the environment if it has one, else the stored one if valid, else the default. */
  lemma LadderIs(meta: map<string, string>, rules: LadderRules)
    ensures rules.env.Some? && rules.env.value != "" ==>
              LadderOn(meta, rules) == Ok(Migrations.Distinct(Text.Split(rules.env.value, ',')))
    ensures rules.env.None? || rules.env.value == "" ==>
              && (LADDER !in meta ==> LadderOn(meta, rules) == Ok(Migrations.DEFAULT_RUNGS))
              && (LADDER in meta && !rules.valid(meta[LADDER]) ==> LadderOn(meta, rules).Err?)
              && (LADDER in meta && rules.valid(meta[LADDER]) && meta[LADDER] != "" ==>
                    LadderOn(meta, rules) == Ok(Migrations.Distinct(Text.Split(meta[LADDER], ','))))
  {
    Migrations.DefaultLadder();
  }

  predicate HoldsOldName(s: Stored) {
    exists i | 0 <= i < |Migrations.PREVIOUS_RUNG_RENAMES| ::
        Migrations.Holds(DbOf(s), Migrations.PREVIOUS_RUNG_RENAMES[i].0)
  }

  /** The database after opening, or that opening throws; the ladder is looked at only if an old name is held. */
  function Opened(s: Stored, rules: LadderRules): Result<Stored, ()> {
    var now := BeforeRenames(s);
    if !HoldsOldName(now) then Ok(now)
    else match LadderOn(now.tables.meta, rules)
         case Err(_) => Err(())
         case Ok(ladder) => Ok(RenameAll(now, Migrations.Picked(DbOf(now), ladder, Migrations.PREVIOUS_RUNG_RENAMES)))
  }

  /** What is in the database after an open, a throwing one too. */
  function AfterOpen(s: Stored, rules: LadderRules): Stored {
    match Opened(s, rules) case Ok(now) => now case Err(_) => BeforeRenames(s)
  }

  lemma {:induction false} NothingHeldNothingPicked(db: Migrations.Db, ladder: seq<string>,
      renames: seq<(string, string)>)
    requires forall i :: 0 <= i < |renames| ==> !Migrations.Holds(db, renames[i].0)
    ensures Migrations.Picked(db, ladder, renames) == []
  {
    if renames != [] {
      assert forall i :: 0 <= i < |renames[1..]| ==> renames[1..][i] == renames[i + 1];
      NothingHeldNothingPicked(db, ladder, renames[1..]);
    }
  }

  /** With a ladder to go by, opening is the migration of settings and then #97 as Migrations has it. */
  lemma OpeningIsTheMigration(s: Stored, rules: LadderRules)
    requires LadderOn(MetaMigrated(s.tables.meta), rules).Ok?
    ensures var now, ladder := BeforeRenames(s), LadderOn(MetaMigrated(s.tables.meta), rules).value;
            var renames := Migrations.PREVIOUS_RUNG_RENAMES;
            && Opened(s, rules) == Ok(RenameAll(now, Migrations.Picked(DbOf(now), ladder, renames)))
            && DbOf(AfterOpen(s, rules)) == Migrations.MigrateRungNames(DbOf(s), ladder, renames)
            && AfterOpen(s, rules).tables.meta == MetaMigrated(s.tables.meta)
  {
    var now, ladder := BeforeRenames(s), LadderOn(MetaMigrated(s.tables.meta), rules).value;
    if !HoldsOldName(now) { NothingHeldNothingPicked(DbOf(now), ladder, Migrations.PREVIOUS_RUNG_RENAMES); }
    RenamesAreTheMigration(now, Migrations.Picked(DbOf(now), ladder, Migrations.PREVIOUS_RUNG_RENAMES));
    assert DbOf(now) == DbOf(s);
  }

  /** An entry or a web permission is stored under that group. */
  ghost predicate IsStored(s: Stored, name: string) {
    || (exists r :: r in s.tables.hosts && r.gate.authGroup == Some(name))
    || (exists r :: r in s.tables.guests && r.gate.authGroup == Some(name))
    || (exists r :: r in s.tables.sites && r.gate.authGroup == Some(name))
    || (s.hasPermissions && name in s.permissions.modes)
  }

  lemma ColumnHolds<R>(rows: seq<R>, column: R -> Option<string>, name: string)
    ensures Migrations.TableHolds(Migrations.Current(Map(rows, column)), name) <==>
            exists r :: r in rows && column(r) == Some(name)
  {
    if Some(name) in Map(rows, column) {
      var i :| 0 <= i < |rows| && Map(rows, column)[i] == Some(name);
      assert rows[i] in rows;
    }
    if r :| r in rows && column(r) == Some(name) {
      var i :| 0 <= i < |rows| && rows[i] == r;
      assert Map(rows, column)[i] == Some(name);
    }
  }

  lemma HoldsExactlyWhen(s: Stored, name: string)
    ensures Migrations.Holds(DbOf(s), name) <==> IsStored(s, name)
  {
    ColumnHolds(s.tables.hosts, HostGroup(), name);
    ColumnHolds(s.tables.guests, GuestGroup(), name);
    ColumnHolds(s.tables.sites, SiteGroup(), name);
    var tables := DbOf(s).tables;
    assert |tables| == 3;
    assert (exists i :: 0 <= i < 3 && Migrations.TableHolds(tables[i], name)) <==>
      Migrations.TableHolds(tables[0], name) || Migrations.TableHolds(tables[1], name)
          || Migrations.TableHolds(tables[2], name);
  }

  /**
   Opening throws exactly when an old name is stored somewhere and the ladder to judge it by is stored and
   not valid.
   */
  lemma ThrowsExactlyWhen(s: Stored, rules: LadderRules)
    ensures Opened(s, rules).Err? <==>
            && (IsStored(s, "bellhop-users") || IsStored(s, "bellhop-app-users")
                || IsStored(s, "bellhop-app-users-open"))
            && (rules.env.None? || rules.env.value == "")
            && LADDER in s.tables.meta && !rules.valid(s.tables.meta[LADDER])
  {
    var now := BeforeRenames(s);
    LadderRowStays(s.tables.meta);
    assert DbOf(now) == DbOf(s);
    HoldsExactlyWhen(s, "bellhop-users");
    HoldsExactlyWhen(s, "bellhop-app-users");
    HoldsExactlyWhen(s, "bellhop-app-users-open");
    OldNamesAre(now);
  }

  lemma LadderRowStays(meta: map<string, string>)
    ensures Get(MetaMigrated(meta), LADDER) == Get(meta, LADDER)
  {
    WebAuthRow(meta, LADDER);
    TlsRow(WebAuthMigrated(meta), LADDER);
  }

  lemma OldNamesAre(s: Stored)
    ensures HoldsOldName(s) <==>
            || Migrations.Holds(DbOf(s), "bellhop-users") || Migrations.Holds(DbOf(s), "bellhop-app-users")
            || Migrations.Holds(DbOf(s), "bellhop-app-users-open")
  {
    var renames := Migrations.PREVIOUS_RUNG_RENAMES;
    assert renames[0].0 == "bellhop-users" && renames[1].0 == "bellhop-app-users"
        && renames[2].0 == "bellhop-app-users-open";
  }

  /** However opening ends, the settings are migrated, and no row of the removed Caddy setting is left. */
  lemma OpeningMigratesSettings(s: Stored, rules: LadderRules)
    ensures AfterOpen(s, rules).tables.meta == MetaMigrated(s.tables.meta)
    ensures CADDY_TLS !in AfterOpen(s, rules).tables.meta
  {
    var now := BeforeRenames(s);
    if LadderOn(now.tables.meta, rules).Ok? { OpeningIsTheMigration(s, rules); }
  }

  // ---- Opening twice ----

  lemma SettingsMigrateOnce(meta: map<string, string>)
    ensures MetaMigrated(MetaMigrated(meta)) == MetaMigrated(meta)
  {
    var once := MetaMigrated(meta);
    assert Get(once, WEB_AUTH) == Get(WebAuthMigrated(meta), WEB_AUTH);
    assert WebAuthMigrated(once) == once;
    assert CADDY_TLS !in once && Get(once, RESOLVER) != Some("none");
    assert ConvertedSource(once).None?;
    assert once - {CADDY_TLS} - {} == once;
  }

  /** A group the column does not hold is not renamed in it. */
  lemma ColumnWithout<R>(s: Stored, k: nat, rows: seq<R>, column: R -> Option<string>, pair: (string, string))
    requires k < 3 && DbOf(s).tables[k] == Migrations.Current(Map(rows, column)) && Migrations.Settled(DbOf(s), pair)
    ensures forall r :: r in rows ==> column(r) != Some(pair.0)
  {
    forall r | r in rows ensures column(r) != Some(pair.0) {
      var i :| 0 <= i < |rows| && rows[i] == r;
      assert Map(rows, column)[i] == column(r);
      assert !Migrations.TableHolds(DbOf(s).tables[k], pair.0);
    }
  }

  lemma SettledPairStays(s: Stored, pair: (string, string))
    requires Migrations.Settled(DbOf(s), pair)
    ensures RenameOne(s, pair) == s
  {
    var f := Migrations.RenameGroup(pair.0, pair.1);
    ColumnWithout(s, 0, s.tables.hosts, HostGroup(), pair);
    ColumnWithout(s, 1, s.tables.guests, GuestGroup(), pair);
    ColumnWithout(s, 2, s.tables.sites, SiteGroup(), pair);
    Unchanged(s.tables.hosts, RegroupHost(f));
    Unchanged(s.tables.guests, RegroupGuest(f));
    Unchanged(s.tables.sites, RegroupSite(f));
  }

  lemma Unchanged<R>(rows: seq<R>, change: R -> R)
    requires forall r :: r in rows ==> change(r) == r
    ensures Map(rows, change) == rows
  {
  }

  lemma {:induction false} SettledPairsStay(s: Stored, pairs: seq<(string, string)>)
    requires forall i :: 0 <= i < |pairs| ==> Migrations.Settled(DbOf(s), pairs[i])
    ensures RenameAll(s, pairs) == s
    decreases |pairs|
  {
    if pairs != [] {
      SettledPairStays(s, pairs[0]);
      assert forall i :: 0 <= i < |pairs[1..]| ==> pairs[1..][i] == pairs[i + 1];
      SettledPairsStay(s, pairs[1..]);
    }
  }

  lemma RenamedRunSettles(now: Stored, ladder: seq<string>)
    ensures var renames := Migrations.PREVIOUS_RUNG_RENAMES;
            var once := RenameAll(now, Migrations.Picked(DbOf(now), ladder, renames));
            RenameAll(once, Migrations.Picked(DbOf(once), ladder, renames)) == once
  {
    var renames := Migrations.PREVIOUS_RUNG_RENAMES;
    var once := RenameAll(now, Migrations.Picked(DbOf(now), ladder, renames));
    var again := Migrations.Picked(DbOf(once), ladder, renames);
    Migrations.PreviousRenamesAreTidy();
    RenamesAreTheMigration(now, Migrations.Picked(DbOf(now), ladder, renames));
    forall i | 0 <= i < |again| ensures Migrations.Settled(DbOf(once), again[i]) {
      Migrations.PickedAre(DbOf(once), ladder, renames, again[i]);
      Migrations.ApplicablePairsSettle(DbOf(now), ladder, renames, again[i]);
    }
    SettledPairsStay(once, again);
  }

  /** With the ladder's variable fixed, the next open of a database that opened changes nothing in it. */
  lemma OpeningTwiceIsOpeningOnce(s: Stored, rules: LadderRules)
    requires Opened(s, rules).Ok?
    ensures var once := Opened(s, rules).value; Opened(once, rules) == Ok(once)
  {
    var now, once := BeforeRenames(s), Opened(s, rules).value;
    SettingsMigrateOnce(s.tables.meta);
    OpeningMigratesSettings(s, rules);
    assert BeforeRenames(once) == once;
    if HoldsOldName(now) {
      RenamedRunSettles(now, LadderOn(now.tables.meta, rules).value);
    }
  }

  // ---- All renames at once ----

  function Renamed(pairs: seq<(string, string)>): Renaming {
    (g: Option<string>) => match g case None => None case Some(name) => Some(Migrations.RenamedName(pairs, name))
  }

  lemma RegroupTwice(t: Tables, f: Renaming, g: Renaming, h: Renaming)
    requires forall x :: g(f(x)) == h(x)
    ensures RegroupRows(RegroupRows(t, f), g) == RegroupRows(t, h)
  {
    forall r | r in t.hosts ensures RegroupHost(g)(RegroupHost(f)(r)) == RegroupHost(h)(r) {
      assert g(f(r.gate.authGroup)) == h(r.gate.authGroup);
    }
    MapMap(t.hosts, RegroupHost(f), RegroupHost(g), RegroupHost(h));
    forall r | r in t.guests ensures RegroupGuest(g)(RegroupGuest(f)(r)) == RegroupGuest(h)(r) {
      assert g(f(r.gate.authGroup)) == h(r.gate.authGroup);
    }
    MapMap(t.guests, RegroupGuest(f), RegroupGuest(g), RegroupGuest(h));
    forall r | r in t.sites ensures RegroupSite(g)(RegroupSite(f)(r)) == RegroupSite(h)(r) {
      assert g(f(r.gate.authGroup)) == h(r.gate.authGroup);
    }
    MapMap(t.sites, RegroupSite(f), RegroupSite(g), RegroupSite(h));
  }

  lemma RegroupByNothing(t: Tables, f: Renaming)
    requires forall x :: f(x) == x
    ensures RegroupRows(t, f) == t
  {
    forall r: HostRow ensures RegroupHost(f)(r) == r { assert f(r.gate.authGroup) == r.gate.authGroup; }
    assert Map(t.hosts, RegroupHost(f)) == t.hosts;
    forall r: GuestRow ensures RegroupGuest(f)(r) == r { assert f(r.gate.authGroup) == r.gate.authGroup; }
    assert Map(t.guests, RegroupGuest(f)) == t.guests;
    forall r: SiteRow ensures RegroupSite(f)(r) == r { assert f(r.gate.authGroup) == r.gate.authGroup; }
    assert Map(t.sites, RegroupSite(f)) == t.sites;
  }

  /** Pair after pair is the same as every group at once, for pairs that chain into nothing. */
  lemma {:induction false} RenamesAtOnce(s: Stored, pairs: seq<(string, string)>)
    requires Migrations.Tidy(pairs)
    ensures RenameAll(s, pairs).tables == RegroupRows(s.tables, Renamed(pairs))
    decreases |pairs|
  {
    if pairs == [] {
      RegroupByNothing(s.tables, Renamed(pairs));
    } else {
      var one, rest := Migrations.RenameGroup(pairs[0].0, pairs[0].1), pairs[1..];
      Migrations.TidyTail(pairs);
      RenamesAtOnce(RenameOne(s, pairs[0]), rest);
      forall x ensures Renamed(rest)(one(x)) == Renamed(pairs)(x) { OneThenTheRest(pairs, x); }
      RegroupTwice(s.tables, one, Renamed(rest), Renamed(pairs));
    }
  }

  lemma OneThenTheRest(pairs: seq<(string, string)>, g: Option<string>)
    requires pairs != [] && Migrations.Tidy(pairs)
    ensures Renamed(pairs[1..])(Migrations.RenameGroup(pairs[0].0, pairs[0].1)(g)) == Renamed(pairs)(g)
  {
    Migrations.TidyTail(pairs);
  }
}
