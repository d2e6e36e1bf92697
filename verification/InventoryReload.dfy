/**
 What comes back from a database: opening it migrates what was saved before it is read
 (src/lib/inventory.ts).
 */
module InventoryReload {
  import opened Wrappers
  import opened Ordering
  import opened InventoryModel
  import opened InventoryValidation
  import opened InventoryTables
  import opened InventoryOpen
  import opened InventoryStore
  import Migrations

  // ---- The inventory with its groups renamed ----

  function HostUnder(f: Renaming): Host -> Host {
    (h: Host) => h.(gate := h.gate.(authGroup := f(h.gate.authGroup)))
  }

  function GuestUnder(f: Renaming): Guest -> Guest {
    (g: Guest) => g.(gate := g.gate.(authGroup := f(g.gate.authGroup)))
  }

  function SiteUnder(f: Renaming): Site -> Site {
    (s: Site) => s.(gate := s.gate.(authGroup := f(s.gate.authGroup)))
  }

  function Under(inv: Inventory, f: Renaming): Inventory {
    inv.(hosts := Map(inv.hosts, HostUnder(f)), guests := Map(inv.guests, GuestUnder(f)),
         sites := match inv.sites case None => None case Some(sites) => Some(Map(sites, SiteUnder(f))))
  }

  /** A renaming that makes no group blank, and none out of nothing. */
  ghost predicate KeepsGroups(f: Renaming) {
    forall g :: (f(g).None? <==> g.None?) && (f(g) == Some("") <==> g == Some(""))
  }

  lemma FilingIgnoresGroups(inv: Inventory, f: Renaming, num: string -> Number)
    ensures SortForFile(Under(inv, f), num) == Under(SortForFile(inv, num), f)
  {
    HostFilingIgnoresGroups(inv.hosts, f);
    GuestFilingIgnoresGroups(inv.guests, f, num);
  }

  lemma GuestFilingIgnoresGroups(guests: seq<Guest>, f: Renaming, num: string -> Number)
    ensures SortGuests(Map(guests, GuestUnder(f)), num) == Map(SortGuests(guests, num), GuestUnder(f))
  {
    forall a: Guest, b: Guest ensures GuestOrder(num)(GuestUnder(f)(a), GuestUnder(f)(b)) == GuestOrder(num)(a, b) {
      OrderIgnoresGroups(a, b, f, num);
    }
    SortMap(guests, GuestUnder(f), GuestOrder(num), GuestOrder(num));
  }

  lemma OrderIgnoresGroups(a: Guest, b: Guest, f: Renaming, num: string -> Number)
    ensures GuestOrder(num)(GuestUnder(f)(a), GuestUnder(f)(b)) == GuestOrder(num)(a, b)
  {
  }

  lemma HostFilingIgnoresGroups(hosts: seq<Host>, f: Renaming)
    ensures SortHosts(Map(hosts, HostUnder(f))) == Map(SortHosts(hosts), HostUnder(f))
  {
    var le, parts, under := By(HostName()), SortParts(), HostUnder(f);
    var both := (h: Host) => under(parts(h));
    SortMap(hosts, under, le, le);
    MapMap(Sort(hosts, le), under, parts, both);
    MapMap(Sort(hosts, le), parts, under, both);
  }

  lemma RowsIgnoreTheRest(inv: Inventory, f: Renaming)
    ensures Map(Map(inv.hosts, HostUnder(f)), HostToRow()) == Map(Map(inv.hosts, HostToRow()), RegroupHost(f))
    ensures Map(Map(inv.guests, GuestUnder(f)), GuestToRow()) == Map(Map(inv.guests, GuestToRow()), RegroupGuest(f))
    ensures Map(Under(inv, f).sites.GetOr([]), SiteToRow())
            == Map(Map(inv.sites.GetOr([]), SiteToRow()), RegroupSite(f))
  {
  }

  lemma EntryIgnoresTheName(f: Renaming)
    requires KeepsGroups(f)
    ensures forall h :: OfHost()(HostUnder(f)(h)) == OfHost()(h)
    ensures forall g :: OfGuest()(GuestUnder(f)(g)) == OfGuest()(g)
    ensures forall s :: OfSite()(SiteUnder(f)(s)) == OfSite()(s)
  {
    forall gate: Gate ensures EffectiveAuth(gate.(authGroup := f(gate.authGroup))) == EffectiveAuth(gate) {
      assert (f(gate.authGroup).None? <==> gate.authGroup.None?)
          && (f(gate.authGroup) == Some("") <==> gate.authGroup == Some(""));
    }
  }

  lemma EntriesIgnoreTheNames(inv: Inventory, f: Renaming)
    requires KeepsGroups(f)
    ensures Entries(Under(inv, f)) == Entries(inv)
  {
    EntryIgnoresTheName(f);
    MapMap(inv.hosts, HostUnder(f), OfHost(), OfHost());
    MapMap(inv.guests, GuestUnder(f), OfGuest(), OfGuest());
    MapMap(inv.sites.GetOr([]), SiteUnder(f), OfSite(), OfSite());
    assert Under(inv, f).sites.GetOr([]) == Map(inv.sites.GetOr([]), SiteUnder(f));
  }

  /** The three updates on the tables of an inventory give the tables of the renamed inventory. */
  lemma TablesOfRenamed(meta: map<string, string>, inv: Inventory, f: Renaming)
    requires KeepsGroups(f)
    ensures TablesOf(meta, Under(inv, f)) == RegroupRows(TablesOf(meta, inv), f)
  {
    RowsIgnoreTheRest(inv, f);
    EntriesIgnoreTheNames(inv, f);
  }

  lemma RenamedKeepsShape(inv: Inventory, f: Renaming, formats: Formats)
    requires KeepsGroups(f) && WellFormed(inv, formats)
    ensures WellFormed(Under(inv, f), formats)
  {
    var renamed := Under(inv, f);
    forall h | h in renamed.hosts ensures HostShape(h, formats) {
      var i :| 0 <= i < |inv.hosts| && h == HostUnder(f)(inv.hosts[i]);
      assert HostShape(inv.hosts[i], formats);
    }
    forall g | g in renamed.guests ensures GuestShape(g, formats) {
      var i :| 0 <= i < |inv.guests| && g == GuestUnder(f)(inv.guests[i]);
      assert GuestShape(inv.guests[i], formats);
    }
    if inv.sites.Some? {
      forall s | s in renamed.sites.value ensures SiteShape(s, formats) {
        var i :| 0 <= i < |inv.sites.value| && s == SiteUnder(f)(inv.sites.value[i]);
        assert SiteShape(inv.sites.value[i], formats);
      }
    }
  }

  lemma RenamedKeepsKeys(inv: Inventory, f: Renaming, num: string -> Number)
    requires DistinctKeys(inv) && PairwiseComparable(inv.guests, num)
    ensures DistinctKeys(Under(inv, f)) && PairwiseComparable(Under(inv, f).guests, num)
  {
    MapMap(inv.guests, GuestUnder(f), GuestVmid(), GuestVmid());
    SameNames(inv.hosts, HostUnder(f), HostName());
    SameNames(inv.guests, GuestUnder(f), GuestName());
    SameNames(inv.sites.GetOr([]), SiteUnder(f), SiteName());
    assert Under(inv, f).sites.GetOr([]) == Map(inv.sites.GetOr([]), SiteUnder(f));
    RenamedStayComparable(inv.guests, f, num);
  }

  lemma SameNames<T>(s: seq<T>, under: T -> T, name: T -> string)
    requires DistinctNames(s, name) && forall x :: x in s ==> name(under(x)) == name(x)
    ensures DistinctNames(Map(s, under), name)
  {
  }

  lemma RenamedStayComparable(guests: seq<Guest>, f: Renaming, num: string -> Number)
    requires PairwiseComparable(guests, num)
    ensures PairwiseComparable(Map(guests, GuestUnder(f)), num)
  {
    var renamed := Map(guests, GuestUnder(f));
    forall a, b | a in renamed && b in renamed ensures GuestsComparable(a, b, num) {
      var i :| 0 <= i < |guests| && a == GuestUnder(f)(guests[i]);
      var j :| 0 <= j < |guests| && b == GuestUnder(f)(guests[j]);
      assert GuestsComparable(guests[i], guests[j], num);
    }
  }

  // ---- Which groups an open renames ----

  /** The shipped pairs that a ladder asks for. */
  function Wanted(renames: seq<(string, string)>, ladder: seq<string>): seq<(string, string)> {
    if renames == [] then []
    else (if Migrations.Applicable(renames[0], ladder) then [renames[0]] else []) + Wanted(renames[1..], ladder)
  }

  lemma {:induction false} WantedAre(renames: seq<(string, string)>, ladder: seq<string>, pair: (string, string))
    ensures pair in Wanted(renames, ladder) <==> pair in renames && Migrations.Applicable(pair, ladder)
  {
    if renames != [] {
      WantedAre(renames[1..], ladder, pair);
      assert pair in renames <==> pair == renames[0] || pair in renames[1..];
    }
  }

  /** For a name the database holds, the picked pairs are as good as all those the ladder asks for. */
  lemma {:induction false} PickedRenameWhatIsHeld(db: Migrations.Db, ladder: seq<string>,
      renames: seq<(string, string)>, name: string)
    requires Migrations.Holds(db, name)
    ensures Migrations.RenamedName(Migrations.Picked(db, ladder, renames), name)
         == Migrations.RenamedName(Wanted(renames, ladder), name)
  {
    if renames != [] {
      PickedRenameWhatIsHeld(db, ladder, renames[1..], name);
      OneMorePair(renames[0], Migrations.Picked(db, ladder, renames[1..]), name);
      OneMorePair(renames[0], Wanted(renames[1..], ladder), name);
    }
  }

  lemma OneMorePair(pair: (string, string), rest: seq<(string, string)>, name: string)
    ensures Migrations.RenamedName([pair] + rest, name)
            == if pair.0 == name then pair.1 else Migrations.RenamedName(rest, name)
    ensures [] + rest == rest
  {
    assert ([pair] + rest)[1..] == rest;
  }

  function CurrentNames(ladder: seq<string>): Renaming {
    Renamed(Wanted(Migrations.PREVIOUS_RUNG_RENAMES, ladder))
  }

  /** A previous default rung that the ladder has dropped for its successor. */
  predicate IsOldName(g: Option<string>, ladder: seq<string>) {
    exists i | 0 <= i < |Migrations.PREVIOUS_RUNG_RENAMES| ::
      Migrations.Applicable(Migrations.PREVIOUS_RUNG_RENAMES[i], ladder)
          && g == Some(Migrations.PREVIOUS_RUNG_RENAMES[i].0)
  }

  lemma CurrentNamesChangeExactlyOldOnes(g: Option<string>, ladder: seq<string>)
    ensures CurrentNames(ladder)(g) == g <==> !IsOldName(g, ladder)
  {
    var renames := Migrations.PREVIOUS_RUNG_RENAMES;
    Migrations.PreviousRenamesAreTidy();
    if g.Some? {
      var to := Migrations.RenamedName(Wanted(renames, ladder), g.value);
      WantedAre(renames, ladder, (g.value, to));
      forall i | 0 <= i < |renames| && Migrations.Applicable(renames[i], ladder) && g == Some(renames[i].0)
        ensures CurrentNames(ladder)(g) != g
      {
        WantedAre(renames, ladder, renames[i]);
        assert renames[i].0 == g.value;
      }
    }
  }

  /** The three previous default groups by name, and what the ladder makes of each. */
  lemma CurrentNamesAre(ladder: seq<string>)
    ensures CurrentNames(ladder)(Some("bellhop-users"))
         == Some(if "bellhop-users" !in ladder && "bellhop-admin-family" in ladder then "bellhop-admin-family"
             else "bellhop-users")
    ensures CurrentNames(ladder)(Some("bellhop-app-users"))
         == Some(if "bellhop-app-users" !in ladder && "bellhop-friends-family" in ladder then "bellhop-friends-family"
                 else "bellhop-app-users")
    ensures CurrentNames(ladder)(Some("bellhop-app-users-open"))
         == Some(if "bellhop-app-users-open" !in ladder && "bellhop-public" in ladder then "bellhop-public"
                 else "bellhop-app-users-open")
  {
    forall i | 0 <= i < 3
      ensures var pair := Migrations.PREVIOUS_RUNG_RENAMES[i];
              Migrations.RenamedName(Wanted(Migrations.PREVIOUS_RUNG_RENAMES, ladder), pair.0)
              == if Migrations.Applicable(pair, ladder) then pair.1 else pair.0
    {
      Migrations.PreviousRenamesAreTidy();
      WantedRename(Migrations.PREVIOUS_RUNG_RENAMES, ladder, Migrations.PREVIOUS_RUNG_RENAMES[i]);
    }
    var renames := Migrations.PREVIOUS_RUNG_RENAMES;
    assert renames[0] == ("bellhop-users", "bellhop-admin-family");
    assert renames[1] == ("bellhop-app-users", "bellhop-friends-family");
    assert renames[2] == ("bellhop-app-users-open", "bellhop-public");
  }

  lemma {:induction false} WantedRename(renames: seq<(string, string)>, ladder: seq<string>, pair: (string, string))
    requires Migrations.Tidy(renames) && pair in renames
    ensures Migrations.RenamedName(Wanted(renames, ladder), pair.0)
         == if Migrations.Applicable(pair, ladder) then pair.1 else pair.0
  {
    var rest := renames[1..];
    Migrations.TidyTail(renames);
    OneMorePair(renames[0], Wanted(rest, ladder), pair.0);
    if pair == renames[0] {
      NotWanted(rest, ladder, pair.0);
    } else {
      assert pair in rest;
      WantedRename(rest, ladder, pair);
    }
  }

  lemma NotWanted(renames: seq<(string, string)>, ladder: seq<string>, name: string)
    requires forall q :: q in renames ==> q.0 != name
    ensures Migrations.RenamedName(Wanted(renames, ladder), name) == name
  {
    WantedAre(renames, ladder, (name, Migrations.RenamedName(Wanted(renames, ladder), name)));
    forall q | q in Wanted(renames, ladder) ensures q.0 != name { WantedAre(renames, ladder, q); }
  }

  lemma CurrentNamesKeepGroups(ladder: seq<string>)
    ensures KeepsGroups(CurrentNames(ladder))
  {
    var renames := Migrations.PREVIOUS_RUNG_RENAMES;
    forall g ensures CurrentNames(ladder)(g).None? <==> g.None?
             ensures CurrentNames(ladder)(g) == Some("") <==> g == Some("")
    {
      if g.Some? {
        WantedAre(renames, ladder, (g.value, Migrations.RenamedName(Wanted(renames, ladder), g.value)));
      }
    }
  }

  lemma RegroupAlike(t: Tables, f: Renaming, g: Renaming)
    requires forall r :: r in t.hosts ==> f(r.gate.authGroup) == g(r.gate.authGroup)
    requires forall r :: r in t.guests ==> f(r.gate.authGroup) == g(r.gate.authGroup)
    requires forall r :: r in t.sites ==> f(r.gate.authGroup) == g(r.gate.authGroup)
    ensures RegroupRows(t, f) == RegroupRows(t, g)
  {
    assert Map(t.hosts, RegroupHost(f)) == Map(t.hosts, RegroupHost(g));
    assert Map(t.guests, RegroupGuest(f)) == Map(t.guests, RegroupGuest(g));
    assert Map(t.sites, RegroupSite(f)) == Map(t.sites, RegroupSite(g));
  }

  lemma HeldGroup<R>(s: Stored, k: nat, rows: seq<R>, column: R -> Option<string>, r: R)
    requires k < 3 && DbOf(s).tables[k] == Migrations.Current(Map(rows, column)) && r in rows && column(r).Some?
    ensures Migrations.Holds(DbOf(s), column(r).value)
  {
    var i :| 0 <= i < |rows| && rows[i] == r;
    assert Map(rows, column)[i] == column(r);
    assert Migrations.TableHolds(DbOf(s).tables[k], column(r).value);
  }

  /** The renames an open does are those of all groups at once, by the ladder. */
  lemma RenamesFollowTheLadder(s: Stored, ladder: seq<string>)
    ensures var pairs := Migrations.Picked(DbOf(s), ladder, Migrations.PREVIOUS_RUNG_RENAMES);
            RenameAll(s, pairs).tables == RegroupRows(s.tables, CurrentNames(ladder))
  {
    var renames := Migrations.PREVIOUS_RUNG_RENAMES;
    var pairs := Migrations.Picked(DbOf(s), ladder, renames);
    Migrations.PreviousRenamesAreTidy();
    Migrations.PickedAreTidy(DbOf(s), ladder, renames);
    RenamesAtOnce(s, pairs);
    forall r | r in s.tables.hosts && r.gate.authGroup.Some?
      ensures Renamed(pairs)(r.gate.authGroup) == CurrentNames(ladder)(r.gate.authGroup)
    {
      HeldGroup(s, 0, s.tables.hosts, HostGroup(), r);
      PickedRenameWhatIsHeld(DbOf(s), ladder, renames, r.gate.authGroup.value);
    }
    forall r | r in s.tables.guests && r.gate.authGroup.Some?
      ensures Renamed(pairs)(r.gate.authGroup) == CurrentNames(ladder)(r.gate.authGroup)
    {
      HeldGroup(s, 1, s.tables.guests, GuestGroup(), r);
      PickedRenameWhatIsHeld(DbOf(s), ladder, renames, r.gate.authGroup.value);
    }
    forall r | r in s.tables.sites && r.gate.authGroup.Some?
      ensures Renamed(pairs)(r.gate.authGroup) == CurrentNames(ladder)(r.gate.authGroup)
    {
      HeldGroup(s, 2, s.tables.sites, SiteGroup(), r);
      PickedRenameWhatIsHeld(DbOf(s), ladder, renames, r.gate.authGroup.value);
    }
    RegroupAlike(s.tables, Renamed(pairs), CurrentNames(ladder));
  }

  // ---- The settings ----

  /** The settings there are: the names the migrations know, and two formats of them. */
  ghost predicate KnownSettings(c: Config) {
    && DOMAIN !in c.keys && CADDY_TLS !in c.keys
    && LADDER in c.keys && WEB_AUTH in c.keys && DRIVER in c.keys && RESOLVER in c.keys && TLS_SOURCE in c.keys
    && c.formats.setting(TLS_SOURCE, "external")
    && !c.formats.setting(WEB_AUTH, "authentik") && !c.formats.setting(WEB_AUTH, "auto")
  }

  ghost predicate Fitting(inv: Inventory, c: Config) {
    && KnownSettings(c) && inv.settings.Keys <= KeySet(c.keys)
    && WellFormed(inv, c.formats) && Valid(inv, c.lower) && DistinctKeys(inv) && PairwiseComparable(inv.guests, c.num)
  }

  lemma KeptRow(m: map<string, string>, inv: Inventory, c: Config, row: string)
    requires Fitting(inv, c)
    ensures row in c.keys ==> Get(MetaAfter(m, inv, KeySet(c.keys)), row) == Get(inv.settings, row)
    ensures row !in c.keys ==> row !in inv.settings
    ensures row !in c.keys && row != DOMAIN ==> Get(MetaAfter(m, inv, KeySet(c.keys)), row) == Get(m, row)
  {
    SavedRow(m, inv, KeySet(c.keys), row);
    assert row in inv.settings ==> row in inv.settings.Keys;
  }

  /** The settings a save writes migrate in the table as they do by themselves. */
  lemma SettingsMigrateAlike(m: map<string, string>, inv: Inventory, c: Config)
    requires Fitting(inv, c) && CADDY_TLS !in m
    ensures var after := MetaAfter(m, inv, KeySet(c.keys));
            && WebAuthMigrated(after) == after && CADDY_TLS !in after && CADDY_TLS !in inv.settings
            && ConvertedSource(after) == ConvertedSource(inv.settings)
            && Get(after, LADDER) == Get(inv.settings, LADDER)
  {
    KeptRow(m, inv, c, LADDER);
    KeptRow(m, inv, c, WEB_AUTH);
    KeptRow(m, inv, c, DRIVER);
    KeptRow(m, inv, c, RESOLVER);
    KeptRow(m, inv, c, CADDY_TLS);
    assert WEB_AUTH in inv.settings ==> c.formats.setting(WEB_AUTH, inv.settings[WEB_AUTH]);
  }

  lemma MigratedRow(meta: map<string, string>, row: string)
    requires CADDY_TLS !in meta
    ensures Get(TlsMigrated(meta), row)
         == if row == TLS_SOURCE && row !in meta then ConvertedSource(meta)
            else if row == RESOLVER && Get(meta, row) == Some("none") then None
            else Get(meta, row)
  {
  }

  /** So the open leaves the table that a save of the migrated settings leaves. */
  lemma MigratedMeta(m: map<string, string>, inv: Inventory, other: Inventory, c: Config)
    requires Fitting(inv, c) && CADDY_TLS !in m && other.domain == inv.domain
            && other.settings == TlsMigrated(inv.settings)
    ensures var after := MetaMigrated(MetaAfter(m, inv, KeySet(c.keys)));
            after == MetaAfter(after, other, KeySet(c.keys))
  {
    var saved := MetaAfter(m, inv, KeySet(c.keys));
    var after := MetaMigrated(saved);
    SettingsMigrateAlike(m, inv, c);
    forall row ensures Get(after, row) == Get(MetaAfter(after, other, KeySet(c.keys)), row) {
      SavedRow(after, other, KeySet(c.keys), row);
      SavedRow(m, inv, KeySet(c.keys), row);
      KeptRow(m, inv, c, row);
      KeptRow(m, inv, c, RESOLVER);
      MigratedRow(saved, row);
      MigratedRow(inv.settings, row);
    }
    SameMap(after, MetaAfter(after, other, KeySet(c.keys)));
  }

  // ---- The theorems ----

  /** The ladder an open goes by once these settings are saved. */
  function LadderOf(inv: Inventory, c: Config): seq<string> {
    match LadderOn(inv.settings, Ladders(c)) case Ok(ladder) => ladder case Err(_) => []
  }

  /** The inventory with its groups under their current names and its settings in today's form. */
  function UpToDate(inv: Inventory, c: Config): Inventory {
    Under(inv, CurrentNames(LadderOf(inv, c))).(settings := TlsMigrated(inv.settings))
  }

  lemma RenamedFits(inv: Inventory, f: Renaming, c: Config)
    requires Fitting(inv, c) && KeepsGroups(f)
    ensures Fitting(Under(inv, f), c)
  {
    RenamedKeepsShape(inv, f, c.formats);
    RenamedKeepsKeys(inv, f, c.num);
    EntriesIgnoreTheNames(inv, f);
  }

  lemma MigratedSettingsFit(inv: Inventory, c: Config)
    requires Fitting(inv, c)
    ensures Fitting(inv.(settings := TlsMigrated(inv.settings)), c)
  {
    var settings := TlsMigrated(inv.settings);
    SettingsMigrateAlike(map[], inv, c);
    forall k | k in settings ensures c.formats.setting(k, settings[k]) && k in KeySet(c.keys) {
      MigratedRow(inv.settings, k);
      assert k in inv.settings ==> k in inv.settings.Keys;
    }
    OtherSettingsFit(inv, settings, c);
  }

  lemma OtherSettingsFit(inv: Inventory, settings: map<string, string>, c: Config)
    requires Fitting(inv, c) && forall k :: k in settings ==> c.formats.setting(k, settings[k]) && k in KeySet(c.keys)
    ensures Fitting(inv.(settings := settings), c)
  {
    assert Entries(inv.(settings := settings)) == Entries(inv);
  }

  lemma UpToDateFits(inv: Inventory, c: Config)
    requires Fitting(inv, c)
    ensures Fitting(UpToDate(inv, c), c)
  {
    CurrentNamesKeepGroups(LadderOf(inv, c));
    RenamedFits(inv, CurrentNames(LadderOf(inv, c)), c);
    MigratedSettingsFit(Under(inv, CurrentNames(LadderOf(inv, c))), c);
  }

  /** The ladder that opening the saved database goes by. */
  lemma LadderAfterSave(m: map<string, string>, inv: Inventory, c: Config)
    requires Fitting(inv, c) && CADDY_TLS !in m
    ensures LadderOn(MetaMigrated(MetaAfter(m, inv, KeySet(c.keys))), Ladders(c)) == Ok(LadderOf(inv, c))
  {
    SettingsMigrateAlike(m, inv, c);
    MigratedRow(MetaAfter(m, inv, KeySet(c.keys)), LADDER);
    assert LADDER in inv.settings ==> c.formats.setting(LADDER, inv.settings[LADDER]);
  }

  /** What is in the tables once the saved database is opened. */
  lemma OpenedAfterSave(now: Stored, inv: Inventory, c: Config)
    requires Fitting(inv, c) && CADDY_TLS !in now.tables.meta
    ensures var s := Saved(now, inv, c);
            && Opened(s, Ladders(c)).Ok?
            && Opened(s, Ladders(c)).value.tables
               == TablesOf(MetaMigrated(s.tables.meta), SortForFile(Under(inv, CurrentNames(LadderOf(inv, c))), c.num))
  {
    var s, ladder := Saved(now, inv, c), LadderOf(inv, c);
    var f := CurrentNames(ladder);
    LadderAfterSave(now.tables.meta, inv, c);
    OpeningIsTheMigration(s, Ladders(c));
    RenamesFollowTheLadder(BeforeRenames(s), ladder);
    CurrentNamesKeepGroups(ladder);
    TablesOfRenamed(MetaMigrated(s.tables.meta), SortForFile(inv, c.num), f);
    FilingIgnoresGroups(inv, f, c.num);
  }

  /**
   Saving and loading, each of which opens the database, gives the inventory back in canonical form
   and up to date: previous default groups under the names the saved ladder has for them, and a
   certificate resolver called 'none' as the setting that replaced it.
   */
  lemma SaveThenLoad(before: Stored, inv: Inventory, c: Config)
    requires Fitting(inv, c)
    ensures Loaded(Saved(AfterOpen(before, Ladders(c)), inv, c), c) == Ok(Canonical(UpToDate(inv, c), c.num))
  {
    var now, other := AfterOpen(before, Ladders(c)), UpToDate(inv, c);
    OpeningMigratesSettings(before, Ladders(c));
    OpenedAfterSave(now, inv, c);
    MigratedMeta(now.tables.meta, inv, other, c);
    UpToDateFits(inv, c);
    var meta := MetaMigrated(Saved(now, inv, c).tables.meta);
    assert SortForFile(Under(inv, CurrentNames(LadderOf(inv, c))), c.num).(settings := other.settings)
        == SortForFile(other, c.num);
    SettingsAreNoRows(meta, SortForFile(Under(inv, CurrentNames(LadderOf(inv, c))), c.num), other.settings);
    CheckedAfterSave(meta, other, c);
  }

  lemma SettingsAreNoRows(meta: map<string, string>, inv: Inventory, settings: map<string, string>)
    ensures TablesOf(meta, inv) == TablesOf(meta, inv.(settings := settings))
  {
  }

  // ---- When it comes back as it was saved ----

  lemma SameHosts(hosts: seq<Host>, f: Renaming)
    requires forall h :: h in hosts ==> f(h.gate.authGroup) == h.gate.authGroup
    ensures Map(hosts, HostUnder(f)) == hosts
  {
    forall h | h in hosts ensures HostUnder(f)(h) == h { assert f(h.gate.authGroup) == h.gate.authGroup; }
  }

  /** The groups of the hosts in normal form, in file order. */
  lemma NormalGroups(hosts: seq<Host>, i: nat)
    requires i < |hosts|
    ensures Map(hosts, NormalHost())[i].gate == hosts[i].gate
  {
  }

  lemma OtherHosts(hosts: seq<Host>, f: Renaming, h: Host)
    requires h in hosts && f(h.gate.authGroup) != h.gate.authGroup
    ensures Map(SortHosts(Map(hosts, HostUnder(f))), NormalHost()) != Map(SortHosts(hosts), NormalHost())
  {
    var sorted := SortHosts(hosts);
    FiledHost(hosts, h);
    var i :| 0 <= i < |sorted| && sorted[i] == SortParts()(h);
    HostFilingIgnoresGroups(hosts, f);
    NormalGroups(sorted, i);
    NormalGroups(Map(sorted, HostUnder(f)), i);
  }

  lemma HostsUnchangedExactlyWhen(hosts: seq<Host>, f: Renaming)
    ensures Map(SortHosts(Map(hosts, HostUnder(f))), NormalHost()) == Map(SortHosts(hosts), NormalHost())
            <==> forall h :: h in hosts ==> f(h.gate.authGroup) == h.gate.authGroup
  {
    if h :| h in hosts && f(h.gate.authGroup) != h.gate.authGroup {
      OtherHosts(hosts, f, h);
    } else {
      SameHosts(hosts, f);
    }
  }

  lemma GuestsUnchangedExactlyWhen(guests: seq<Guest>, f: Renaming, num: string -> Number)
    ensures Map(SortGuests(Map(guests, GuestUnder(f)), num), NormalGuest())
            == Map(SortGuests(guests, num), NormalGuest())
            <==> forall g :: g in guests ==> f(g.gate.authGroup) == g.gate.authGroup
  {
    var sorted := SortGuests(guests, num);
    SortMap(guests, GuestUnder(f), GuestOrder(num), GuestOrder(num));
    if Map(Map(sorted, GuestUnder(f)), NormalGuest()) == Map(sorted, NormalGuest()) {
      forall g | g in guests ensures f(g.gate.authGroup) == g.gate.authGroup {
        SortIsPermutation(guests, GuestOrder(num));
        SameElements(sorted, guests, g);
        var i :| 0 <= i < |sorted| && sorted[i] == g;
        assert Map(Map(sorted, GuestUnder(f)), NormalGuest())[i].gate == Map(sorted, NormalGuest())[i].gate;
      }
    }
    if forall g :: g in guests ==> f(g.gate.authGroup) == g.gate.authGroup {
      assert Map(guests, GuestUnder(f)) == guests;
    }
  }

  lemma SitesUnchangedExactlyWhen(sites: seq<Site>, f: Renaming)
    ensures Sort(Map(sites, SiteUnder(f)), By(SiteName())) == Sort(sites, By(SiteName()))
            <==> forall s :: s in sites ==> f(s.gate.authGroup) == s.gate.authGroup
  {
    var sorted := Sort(sites, By(SiteName()));
    SortMap(sites, SiteUnder(f), By(SiteName()), By(SiteName()));
    if Map(sorted, SiteUnder(f)) == sorted {
      forall s | s in sites ensures f(s.gate.authGroup) == s.gate.authGroup {
        SortIsPermutation(sites, By(SiteName()));
        SameElements(sorted, sites, s);
        var i :| 0 <= i < |sorted| && sorted[i] == s;
        assert Map(sorted, SiteUnder(f))[i].gate == sorted[i].gate;
      }
    }
    if forall s :: s in sites ==> f(s.gate.authGroup) == s.gate.authGroup {
      assert Map(sites, SiteUnder(f)) == sites;
    }
  }

  /** No entry's group is an old name. */
  ghost predicate NoOldGroups(inv: Inventory, ladder: seq<string>) {
    && (forall h :: h in inv.hosts ==> !IsOldName(h.gate.authGroup, ladder))
    && (forall g :: g in inv.guests ==> !IsOldName(g.gate.authGroup, ladder))
    && (forall s :: s in inv.sites.GetOr([]) ==> !IsOldName(s.gate.authGroup, ladder))
  }

  lemma GroupsUnchangedExactlyWhen(inv: Inventory, ladder: seq<string>, num: string -> Number)
    ensures Canonical(Under(inv, CurrentNames(ladder)), num) == Canonical(inv, num) <==> NoOldGroups(inv, ladder)
  {
    var f := CurrentNames(ladder);
    forall g ensures f(g) == g <==> !IsOldName(g, ladder) { CurrentNamesChangeExactlyOldOnes(g, ladder); }
    HostsUnchangedExactlyWhen(inv.hosts, f);
    GuestsUnchangedExactlyWhen(inv.guests, f, num);
    SitesUnchangedExactlyWhen(inv.sites.GetOr([]), f);
    assert Under(inv, f).sites.GetOr([]) == Map(inv.sites.GetOr([]), SiteUnder(f));
    SortLength(inv.sites.GetOr([]), By(SiteName()));
  }

  lemma SettingsUnchangedExactlyWhen(inv: Inventory, c: Config)
    requires Fitting(inv, c)
    ensures TlsMigrated(inv.settings) == inv.settings <==> Get(inv.settings, RESOLVER) != Some("none")
  {
    SettingsMigrateAlike(map[], inv, c);
    MigratedRow(inv.settings, RESOLVER);
    if Get(inv.settings, RESOLVER) != Some("none") {
      forall row ensures Get(TlsMigrated(inv.settings), row) == Get(inv.settings, row) {
        MigratedRow(inv.settings, row);
      }
      SameMap(TlsMigrated(inv.settings), inv.settings);
    }
  }

  /**
   What is loaded is what was saved, in canonical form, exactly when no entry's group is a previous
   default rung that the ladder has dropped for its successor, and the certificate resolver is not 'none'.
   */
  lemma ComesBackAsSavedExactlyWhen(before: Stored, inv: Inventory, c: Config)
    requires Fitting(inv, c)
    ensures Loaded(Saved(AfterOpen(before, Ladders(c)), inv, c), c) == Ok(Canonical(inv, c.num))
            <==> NoOldGroups(inv, LadderOf(inv, c)) && Get(inv.settings, RESOLVER) != Some("none")
  {
    SaveThenLoad(before, inv, c);
    GroupsUnchangedExactlyWhen(inv, LadderOf(inv, c), c.num);
    SettingsUnchangedExactlyWhen(inv, c);
    var renamed := Canonical(Under(inv, CurrentNames(LadderOf(inv, c))), c.num);
    assert Canonical(UpToDate(inv, c), c.num) == renamed.(settings := TlsMigrated(inv.settings));
    assert Canonical(inv, c.num).settings == inv.settings == renamed.settings;
  }

  // ---- Two inventories that do not ----

  /** One external site, under that group. */
  function SiteUnderGroup(group: string): Inventory {
    Inventory("d", map[], [], [],
              Some([Site("s", "10.0.0.1", ["a"], NO_GATE.(authGroup := Some(group), authMode := Some(Oidc)))]))
  }

  const RESOLVER_NONE := Inventory("d", map[RESOLVER := "none"], [], [], None)

  lemma FlatOne<T>(e: Entry, f: Entry -> seq<T>)
    ensures Flat([e], f) == f(e)
  {
    assert Flat([e], f) == f(e) + Flat([e][1..], f);
  }

  lemma LoneSiteIsValid(group: string, lower: string -> string)
    requires group != ""
    ensures Valid(SiteUnderGroup(group), lower)
  {
    var inv := SiteUnderGroup(group);
    var e := OfSite()(inv.sites.value[0]);
    assert Entries(inv) == [e];
    FlatOne(e, VmidBaseClaim());
    FlatOne(e, IpPrefixClaim());
    FlatOne(e, SubdomainClaims(lower));
    assert |SubdomainClaims(lower)(e)| == 1;
  }

  lemma LoneSiteFits(group: string, c: Config)
    requires KnownSettings(c) && group != ""
    ensures Fitting(SiteUnderGroup(group), c)
  {
    LoneSiteIsValid(group, c.lower);
    assert WellFormed(SiteUnderGroup(group), c.formats);
  }

  lemma LoneSiteIsCanonical(group: string, num: string -> Number)
    ensures Canonical(SiteUnderGroup(group), num) == SiteUnderGroup(group)
  {
    var sites := SiteUnderGroup(group).sites.value;
    assert sites[1..] == [] && Sort(sites, By(SiteName())) == sites;
    NoEntriesAreCanonical(num);
  }

  lemma NoEntriesAreCanonical(num: string -> Number)
    ensures Map(SortHosts([]), NormalHost()) == [] && Map(SortGuests([], num), NormalGuest()) == []
  {
  }

  lemma UsersAreTheAdminFamilyNow()
    ensures CurrentNames(Migrations.DEFAULT_RUNGS)(Some("bellhop-users")) == Some("bellhop-admin-family")
  {
    var renames, rungs := Migrations.PREVIOUS_RUNG_RENAMES, Migrations.DEFAULT_RUNGS;
    assert rungs[3] == renames[0].1 && |renames[0].0| == 13;
    assert |rungs[0]| == 23 && |rungs[1]| == 14 && |rungs[2]| == 22 && |rungs[3]| == 20 && |rungs[4]| == 16;
    assert Migrations.Applicable(renames[0], rungs);
    assert Wanted(renames, rungs)[0] == renames[0];
  }

  lemma LoneSiteRenamed(f: Renaming, group: string, to: string)
    requires f(Some(group)) == Some(to)
    ensures Under(SiteUnderGroup(group), f) == SiteUnderGroup(to)
  {
    assert Map(SiteUnderGroup(group).sites.value, SiteUnder(f)) == SiteUnderGroup(to).sites.value;
  }

  lemma LoneSiteUpToDate(group: string, to: string, c: Config)
    requires c.ladderEnv.GetOr("") == "" && CurrentNames(Migrations.Ladder(None))(Some(group)) == Some(to)
    ensures UpToDate(SiteUnderGroup(group), c) == SiteUnderGroup(to)
  {
    NoLadderSet(SiteUnderGroup(group), c);
    LoneSiteRenamed(CurrentNames(Migrations.Ladder(None)), group, to);
    NothingToMigrate();
  }

  lemma NoLadderSet(inv: Inventory, c: Config)
    requires c.ladderEnv.GetOr("") == "" && inv.settings == map[]
    ensures LadderOf(inv, c) == Migrations.Ladder(None)
  {
  }

  lemma NothingToMigrate()
    ensures TlsMigrated(map[]) == map[]
  {
  }

  /** Under the default ladder a previous default group comes back under its current name. */
  lemma OldGroupComesBackRenamed(before: Stored, c: Config)
    requires KnownSettings(c) && c.ladderEnv.GetOr("") == ""
    ensures Loaded(Saved(AfterOpen(before, Ladders(c)), SiteUnderGroup("bellhop-users"), c), c)
         == Ok(SiteUnderGroup("bellhop-admin-family"))
  {
    LoneSiteFits("bellhop-users", c);
    SaveThenLoad(before, SiteUnderGroup("bellhop-users"), c);
    Migrations.DefaultLadder();
    UsersAreTheAdminFamilyNow();
    LoneSiteUpToDate("bellhop-users", "bellhop-admin-family", c);
    LoneSiteIsCanonical("bellhop-admin-family", c.num);
  }

  lemma ResolverNoneFits(c: Config)
    requires KnownSettings(c) && c.formats.setting(RESOLVER, "none")
    ensures Fitting(RESOLVER_NONE, c)
  {
    assert Entries(RESOLVER_NONE) == [];
    assert WellFormed(RESOLVER_NONE, c.formats);
  }

  lemma ResolverNoneUpToDate(c: Config)
    ensures UpToDate(RESOLVER_NONE, c) == RESOLVER_NONE.(settings := map[])
  {
    assert TlsMigrated(RESOLVER_NONE.settings) == map[];
  }

  /** A certificate resolver of that name does not come back. */
  lemma ResolverNoneIsLost(before: Stored, c: Config)
    requires KnownSettings(c) && c.formats.setting(RESOLVER, "none")
    ensures Loaded(Saved(AfterOpen(before, Ladders(c)), RESOLVER_NONE, c), c) == Ok(RESOLVER_NONE.(settings := map[]))
  {
    ResolverNoneFits(c);
    SaveThenLoad(before, RESOLVER_NONE, c);
    ResolverNoneUpToDate(c);
    NoEntriesAreCanonical(c.num);
  }
}
