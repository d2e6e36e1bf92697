/**
 Saving an inventory to its tables and loading it back (src/lib/inventory.ts).

 What a save and a load take from outside (the setting names, JavaScript's Number and toLowerCase,
 and the formats of single strings) is a parameter.
 */
module InventoryStore {
  import opened Wrappers
  import opened Ordering
  import opened InventoryModel
  import opened InventoryValidation
  import opened InventoryTables
  import opened InventoryOpen
  import Migrations

  const DOMAIN := "domain"

  /** The formats the schema demands of single strings; a setting's format depends on its name. */
  datatype Formats = Formats(
    setting: (string, string) -> bool,
    redirectUri: string -> bool,
    mobileRedirectUri: string -> bool,
    path: string -> bool,
    ipPrefix: string -> bool,
    gateway: string -> bool)

  /** `ladderEnv` is the environment variable that overrides the stored group ladder. */
  datatype Config = Config(
    keys: seq<string>,
    num: string -> Number,
    lower: string -> string,
    formats: Formats,
    ladderEnv: Option<string>)

  function Ladders(c: Config): LadderRules {
    LadderRules(c.ladderEnv, (value: string) => c.formats.setting(LADDER, value))
  }

  // ---- The schema ----

  predicate AllMatch(list: Option<seq<string>>, format: string -> bool) {
    list.Some? ==> forall i :: 0 <= i < |list.value| ==> format(list.value[i])
  }

  predicate NotBlank(s: Option<string>) {
    s != Some("")
  }

  predicate GateShape(g: Gate, f: Formats) {
    && NotBlank(g.authGroup) && AllMatch(g.redirectUris, f.redirectUri)
    && AllMatch(g.mobileRedirectUris, f.mobileRedirectUri) && AllMatch(g.unauthenticatedPaths, f.path)
  }

  predicate SchemeShape(m: Option<MidScheme>, f: Formats) {
    m.Some? ==>
      && f.ipPrefix(m.value.ipPrefix) && f.gateway(m.value.gateway)
      && (m.value.cidrSuffix.Some? ==> m.value.cidrSuffix.value <= 32)
  }

  predicate BridgeShapes(s: Option<seq<Bridge>>) {
    s.Some? ==> forall b :: b in s.value ==> b.name != ""
  }

  predicate StorageShapes(s: Option<seq<Storage>>) {
    s.Some? ==> forall t :: t in s.value ==> t.name != "" && t.kind != ""
  }

  predicate MountShapes(s: Option<seq<NfsMount>>) {
    s.Some? ==> forall m :: m in s.value ==> m.name != "" && m.source != "" && m.mountPoint != ""
  }

  predicate HostShape(h: Host, f: Formats) {
    && h.name != "" && h.sshTarget != "" && h.sshUser != ""
    && (h.sshPort.Some? ==> 1 <= h.sshPort.value <= 65535) && NotBlank(h.sshIdentityFile)
    && SchemeShape(h.midScheme, f) && GateShape(h.gate, f)
    && BridgeShapes(h.bridges) && StorageShapes(h.storages) && MountShapes(h.nfsMounts)
  }

  predicate GuestShape(g: Guest, f: Formats) {
    && g.name != "" && g.host != "" && g.vmid > 0 && GateShape(g.gate, f)
    && (g.creator.Some? ==>
        g.creator.value.username != "" && NotBlank(g.creator.value.uid) && NotBlank(g.creator.value.since))
  }

  predicate SiteShape(s: Site, f: Formats) {
    s.name != "" && s.ip != "" && s.subdomains != [] && GateShape(s.gate, f)
  }

  /** What the schema accepts. */
  predicate WellFormed(inv: Inventory, f: Formats) {
    && inv.domain != ""
    && (forall k :: k in inv.settings ==> f.setting(k, inv.settings[k]))
    && (forall h :: h in inv.hosts ==> HostShape(h, f))
    && (forall g :: g in inv.guests ==> GuestShape(g, f))
    && (inv.sites.Some? ==> forall s :: s in inv.sites.value ==> SiteShape(s, f))
  }

  // ---- Loading ----

  datatype LoadError = BadLadder | BadShape | BadInventory(problems: seq<Problem>)

  /** SQL's ORDER BY host, name. */
  function ByHostThenName(): (GuestRow, GuestRow) -> bool {
    (a: GuestRow, b: GuestRow) => if a.host != b.host then StringLess(a.host, b.host) else StringLe(a.name, b.name)
  }

  function Assembled(t: Tables, c: Config): Inventory {
    var hosts := Map(Sort(t.hosts, By(RowHostName())), HostFromRow(t.subdomains));
    var guests := Map(Sort(t.guests, ByHostThenName()), GuestFromRow(t.subdomains));
    var sites := Map(Sort(t.sites, By(RowSiteName())), SiteFromRow(t.subdomains));
    SortForFile(Inventory(Get(t.meta, DOMAIN).GetOr(""), map k | k in t.meta && k in c.keys :: t.meta[k],
                          hosts, guests, if sites == [] then None else Some(sites)), c.num)
  }

  /** What is read once the database is open. */
  function Checked(t: Tables, c: Config): Result<Inventory, LoadError> {
    var inv := Assembled(t, c);
    if !WellFormed(inv, c.formats) then Err(BadShape)
    else if Problems(Entries(inv), c.lower) != [] then Err(BadInventory(Problems(Entries(inv), c.lower)))
    else Ok(inv)
  }

  /** loadInventory: opening migrates, then the tables are read and checked. */
  function Loaded(s: Stored, c: Config): Result<Inventory, LoadError> {
    match Opened(s, Ladders(c))
    case Err(_) => Err(BadLadder)
    case Ok(now) => Checked(now.tables, c)
  }

  // ---- Saving ----

  datatype SaveError = Refused(problems: seq<Problem>) | LadderRefused | Violated(row: Insert)

  /** The meta rows after a save: every setting is written or, if absent, deleted; other rows stay. */
  function MetaAfter(meta: map<string, string>, inv: Inventory, keys: set<string>): map<string, string> {
    (meta - keys)[DOMAIN := inv.domain] + map k | k in inv.settings && k in keys :: inv.settings[k]
  }

  function KeySet(keys: seq<string>): set<string> {
    set k | k in keys
  }

  /** What a save makes of an open database. */
  function Saved(now: Stored, inv: Inventory, c: Config): Stored {
    now.(tables := TablesOf(MetaAfter(now.tables.meta, inv, KeySet(c.keys)), SortForFile(inv, c.num)))
  }

  class Database {
    var stored: Stored

    constructor ()
      ensures stored == Stored(Cleared(map[]), false, Migrations.Permissions(map[], {}))
    {
      stored := Stored(Cleared(map[]), false, Migrations.Permissions(map[], {}));
    }

    /** openInventoryDb: the settings first, then, if an old group name is held anywhere, pair by pair. */
    method Open(rules: LadderRules) returns (ok: bool)
      modifies this
      ensures stored == AfterOpen(old(stored), rules) && ok == Opened(old(stored), rules).Ok?
    {
      stored := stored.(tables := stored.tables.(meta := WebAuthMigrated(stored.tables.meta)));
      stored := stored.(tables := stored.tables.(meta := TlsMigrated(stored.tables.meta)));
      ghost var now := stored;
      if !HoldsOldName(stored) { return true; }
      var ladder := LadderOn(stored.tables.meta, rules);
      if ladder.Err? { return false; }
      var pairs := Migrations.Picked(DbOf(stored), ladder.value, Migrations.PREVIOUS_RUNG_RENAMES);
      for i := 0 to |pairs|
        invariant RenameAll(now, pairs) == RenameAll(stored, pairs[i..])
      {
        assert pairs[i..][1..] == pairs[i + 1..];
        stored := RenameOne(stored, pairs[i]);
      }
      return true;
    }

    method Load(c: Config) returns (r: Result<Inventory, LoadError>)
      modifies this
      ensures stored == AfterOpen(old(stored), Ladders(c)) && r == Loaded(old(stored), c)
      ensures r.Ok? ==> WellFormed(r.value, c.formats) && Valid(r.value, c.lower)
    {
      var opens := Open(Ladders(c));
      if !opens { return Err(BadLadder); }
      r := Check(stored.tables, c);
    }

    /** One transaction on the opened database: all of it or nothing. */
    method Save(inv: Inventory, c: Config) returns (r: Result<(), SaveError>)
      requires DOMAIN !in c.keys
      modifies this
      ensures !Valid(inv, c.lower) ==> r == Err(Refused(Problems(Entries(inv), c.lower))) && stored == old(stored)
      ensures Valid(inv, c.lower) ==>
                var now := AfterOpen(old(stored), Ladders(c));
                && (r == Err(LadderRefused) <==> Opened(old(stored), Ladders(c)).Err?)
                && (r.Ok? <==>
                      && Opened(old(stored), Ladders(c)).Ok?
                      && Consistent(TablesOf(map[], SortForFile(inv, c.num))))
                && stored == if r.Ok? then Saved(now, inv, c) else now
    {
      var problems := Validate(inv, c.lower);
      if problems != [] { return Err(Refused(problems)); }
      var opens := Open(Ladders(c));
      if !opens { return Err(LadderRefused); }
      var filled := Transaction(stored.tables.meta, inv, c);
      r := Commit(filled);
    }

    /** A transaction that met a violation is rolled back. */
    method Commit(filled: Result<Tables, Insert>) returns (r: Result<(), SaveError>)
      modifies this
      ensures r == match filled case Ok(_) => Ok(()) case Err(row) => Err(Violated(row))
      ensures stored == match filled case Ok(staged) => old(stored).(tables := staged) case Err(_) => old(stored)
    {
      if filled.Err? { return Err(Violated(filled.error)); }
      stored := stored.(tables := filled.value);
      r := Ok(());
    }
  }

  method Check(t: Tables, c: Config) returns (r: Result<Inventory, LoadError>)
    ensures r == Checked(t, c)
    ensures r.Ok? ==> WellFormed(r.value, c.formats) && Valid(r.value, c.lower)
  {
    var inv := Assembled(t, c);
    if !WellFormed(inv, c.formats) { return Err(BadShape); }
    var problems := Validate(inv, c.lower);
    r := if problems != [] then Err(BadInventory(problems)) else Ok(inv);
  }

  /** The body of the transaction, on a copy that is committed only as a whole. */
  method Transaction(meta: map<string, string>, inv: Inventory, c: Config) returns (r: Result<Tables, Insert>)
    requires DOMAIN !in c.keys
    ensures r.Ok? <==> Consistent(TablesOf(map[], SortForFile(inv, c.num)))
    ensures r.Ok? ==> r.value == TablesOf(MetaAfter(meta, inv, KeySet(c.keys)), SortForFile(inv, c.num))
  {
    var sorted := SortForFile(inv, c.num);
    var after := WriteSettings(meta, inv, c.keys);
    r := Fill(Cleared(after), sorted);
    SaveRunsExactlyWhen(after, sorted);
    MetaIsNotAKey(after, sorted);
  }

  lemma MetaIsNotAKey(meta: map<string, string>, inv: Inventory)
    ensures Consistent(TablesOf(meta, inv)) <==> Consistent(TablesOf(map[], inv))
  {
  }

  /** What a save leaves in a meta row. */
  lemma SavedRow(meta: map<string, string>, inv: Inventory, keys: set<string>, row: string)
    ensures Get(MetaAfter(meta, inv, keys), row)
         == if row in keys && row in inv.settings then Some(inv.settings[row])
            else if row == DOMAIN then Some(inv.domain)
            else if row in keys then None
            else Get(meta, row)
  {
  }

  lemma SameMap(a: map<string, string>, b: map<string, string>)
    requires forall k :: Get(a, k) == Get(b, k)
    ensures a == b
  {
    assert forall k :: k in a <==> k in b by {
      forall k ensures k in a <==> k in b { assert Get(a, k) == Get(b, k); }
    }
    forall k | k in a ensures a[k] == b[k] { assert Get(a, k) == Get(b, k); }
  }

  lemma OneMoreSetting(meta: map<string, string>, inv: Inventory, keys: set<string>, key: string)
    requires key != DOMAIN
    ensures MetaAfter(meta, inv, keys + {key})
         == if key in inv.settings then MetaAfter(meta, inv, keys)[key := inv.settings[key]]
             else MetaAfter(meta, inv, keys) - {key}
  {
    var before := MetaAfter(meta, inv, keys);
    var after := if key in inv.settings then before[key := inv.settings[key]] else before - {key};
    forall row ensures Get(MetaAfter(meta, inv, keys + {key}), row) == Get(after, row) {
      SavedRow(meta, inv, keys, row);
      SavedRow(meta, inv, keys + {key}, row);
    }
    SameMap(MetaAfter(meta, inv, keys + {key}), after);
  }

  method WriteSettings(meta: map<string, string>, inv: Inventory, keys: seq<string>)
    returns (after: map<string, string>)
    requires DOMAIN !in keys
    ensures after == MetaAfter(meta, inv, KeySet(keys))
  {
    after := meta[DOMAIN := inv.domain];
    for i := 0 to |keys|
      invariant after == MetaAfter(meta, inv, KeySet(keys[..i]))
    {
      var key := keys[i];
      assert keys[..i + 1] == keys[..i] + [key];
      assert KeySet(keys[..i + 1]) == KeySet(keys[..i]) + {key};
      OneMoreSetting(meta, inv, KeySet(keys[..i]), key);
      after := if key in inv.settings then after[key := inv.settings[key]] else after - {key};
    }
    assert keys[..|keys|] == keys;
  }

  method RunAll(t: Tables, script: seq<Insert>) returns (r: Result<Tables, Insert>)
    ensures r == Run(t, script)
  {
    var staged := t;
    for i := 0 to |script|
      invariant Run(t, script) == Run(staged, script[i..])
    {
      assert script[i..][1..] == script[i + 1..];
      if !Fits(staged, script[i]) { return Err(script[i]); }
      staged := Put(staged, script[i]);
    }
    r := Ok(staged);
  }

  /** The loop over the entries of one kind, with an inner loop over each entry's inserts. */
  method FillFrom<T>(t: Tables, entries: seq<T>, inserts: T -> seq<Insert>) returns (r: Result<Tables, Insert>)
    ensures r == Run(t, Flat(entries, inserts))
  {
    var staged := t;
    for i := 0 to |entries|
      invariant Run(t, Flat(entries, inserts)) == Run(staged, Flat(entries[i..], inserts))
    {
      assert entries[i..][1..] == entries[i + 1..];
      RunConcat(staged, inserts(entries[i]), Flat(entries[i + 1..], inserts));
      r := RunAll(staged, inserts(entries[i]));
      if r.Err? { return; }
      staged := r.value;
    }
    r := Ok(staged);
  }

  method Fill(t: Tables, inv: Inventory) returns (r: Result<Tables, Insert>)
    ensures r == Run(t, Script(inv))
  {
    var hosts, guests, sites :=
        Flat(inv.hosts, HostInserts()), Flat(inv.guests, GuestInserts()), Flat(inv.sites.GetOr([]), SiteInserts());
    RunConcat(t, hosts + guests, sites);
    RunConcat(t, hosts, guests);
    r := FillFrom(t, inv.hosts, HostInserts());
    if r.Err? { return; }
    r := FillFrom(r.value, inv.guests, GuestInserts());
    if r.Err? { return; }
    r := FillFrom(r.value, inv.sites.GetOr([]), SiteInserts());
  }

  // ---- The form an inventory is loaded in ----

  function NormalFlag(flag: Option<bool>): Option<bool> {
    if IsTrue(flag) then Some(true) else None
  }

  function NormalHost(): Host -> Host {
    (h: Host) => h.(proxy := NormalFlag(h.proxy), proxyManual := NormalFlag(h.proxyManual),
        authentik := NormalFlag(h.authentik),
                    subdomains := NonEmpty(h.subdomains.GetOr([])))
  }

  function NormalGuest(): Guest -> Guest {
    (g: Guest) => g.(proxy := NormalFlag(g.proxy), proxyManual := NormalFlag(g.proxyManual),
        authentik := NormalFlag(g.authentik),
                     bellhop := NormalFlag(g.bellhop), subdomains := NonEmpty(g.subdomains.GetOr([])))
  }

  function NormalSites(sites: Option<seq<Site>>): Option<seq<Site>> {
    if sites.GetOr([]) == [] then None else Some(Sort(sites.GetOr([]), By(SiteName())))
  }

  /** File order, flags true or absent, lists non-empty or absent, external sites by name. */
  function Canonical(inv: Inventory, num: string -> Number): Inventory {
    Inventory(inv.domain, inv.settings, Map(SortHosts(inv.hosts), NormalHost()),
        Map(SortGuests(inv.guests, num), NormalGuest()),
              NormalSites(inv.sites))
  }

  /** Flags true or absent, lists non-empty or absent. */
  predicate IsNormal(inv: Inventory) {
    && (forall h :: h in inv.hosts ==> NormalHost()(h) == h)
    && (forall g :: g in inv.guests ==> NormalGuest()(g) == g)
    && inv.sites != Some([])
  }

  // ---- Looking up subdomains ----

  ghost predicate DistinctEntries(entries: seq<Entry>) {
    forall i, j :: 0 <= i < j < |entries| ==> entries[i].owner != entries[j].owner || entries[i].name != entries[j].name
  }

  lemma {:induction false} OwnSubdomains(e: Entry, subdomains: seq<string>, owner: Owner, name: string)
    ensures SubdomainsFor(Map(subdomains, (s: string) => SubdomainRow(s, e.owner, e.name)), owner, name)
         == if e.owner == owner && e.name == name then subdomains else []
  {
    if subdomains != [] {
      var row := (s: string) => SubdomainRow(s, e.owner, e.name);
      OwnSubdomains(e, subdomains[1..], owner, name);
      assert Map(subdomains, row)[1..] == Map(subdomains[1..], row);
      assert [subdomains[0]] + subdomains[1..] == subdomains;
    }
  }

  lemma EntrySubdomains(e: Entry, owner: Owner, name: string)
    ensures SubdomainsFor(SubdomainRowsOf()(e), owner, name)
            == if e.owner == owner && e.name == name then e.subdomains else []
  {
    var row := (s: string) => SubdomainRow(s, e.owner, e.name);
    OwnSubdomains(e, e.subdomains, owner, name);
    MapAlike(e.subdomains, row, (s: string) => SubdomainRow(s, e.owner, e.name));
  }

  lemma MapAlike<T, U>(s: seq<T>, f: T -> U, g: T -> U)
    requires forall x :: x in s ==> f(x) == g(x)
    ensures Map(s, f) == Map(s, g)
  {
  }

  lemma FirstSubdomains(entries: seq<Entry>, owner: Owner, name: string)
    requires entries != []
    ensures SubdomainsFor(Flat(entries, SubdomainRowsOf()), owner, name)
         == (if entries[0].owner == owner && entries[0].name == name then entries[0].subdomains else [])
            + SubdomainsFor(Flat(entries[1..], SubdomainRowsOf()), owner, name)
  {
    EntrySubdomains(entries[0], owner, name);
    FlatConcat(SubdomainRowsOf()(entries[0]), Flat(entries[1..], SubdomainRowsOf()), OwnedBy(owner, name));
  }

  lemma FirstIsDistinct(entries: seq<Entry>)
    requires entries != [] && DistinctEntries(entries)
    ensures DistinctEntries(entries[1..])
    ensures forall x :: x in entries[1..] ==> x.owner != entries[0].owner || x.name != entries[0].name
  {
    var rest := entries[1..];
    assert forall i :: 0 <= i < |rest| ==> rest[i] == entries[i + 1];
    forall x | x in rest ensures x.owner != entries[0].owner || x.name != entries[0].name {
      var i :| 0 <= i < |rest| && rest[i] == x;
      assert entries[i + 1] == x;
    }
  }

  lemma {:induction false} OthersSubdomains(entries: seq<Entry>, owner: Owner, name: string)
    requires forall e :: e in entries ==> e.owner != owner || e.name != name
    ensures SubdomainsFor(Flat(entries, SubdomainRowsOf()), owner, name) == []
  {
    if entries != [] {
      OthersSubdomains(entries[1..], owner, name);
      FirstSubdomains(entries, owner, name);
    }
  }

  /** Every owner finds its own subdomains, in authored order. */
  lemma {:induction false} OwnersFindTheirSubdomains(entries: seq<Entry>, e: Entry)
    requires DistinctEntries(entries) && e in entries
    ensures SubdomainsFor(Flat(entries, SubdomainRowsOf()), e.owner, e.name) == e.subdomains
  {
    FirstSubdomains(entries, e.owner, e.name);
    FirstIsDistinct(entries);
    if e == entries[0] {
      OthersSubdomains(entries[1..], e.owner, e.name);
    } else {
      assert e in entries[1..];
      OwnersFindTheirSubdomains(entries[1..], e);
    }
  }

  // ---- When the transaction succeeds ----

  /** What no rule of validateInventory asks for and the tables do. */
  ghost predicate DistinctKeys(inv: Inventory) {
    && DistinctNames(inv.hosts, HostName()) && DistinctNames(inv.guests, GuestName())
    && NoDuplicates(Map(inv.guests, GuestVmid())) && DistinctNames(inv.sites.GetOr([]), SiteName())
  }

  function GuestVmid(): Guest -> (string, int) { (g: Guest) => (g.host, g.vmid) }

  /** Filing reorders the entries and changes nothing a rule looks at. */
  lemma EntriesAfterFiling(inv: Inventory, num: string -> Number)
    ensures multiset(Entries(SortForFile(inv, num))) == multiset(Entries(inv))
  {
    HostEntriesAfterFiling(inv.hosts);
    MapSort(inv.guests, GuestOrder(num), OfGuest());
  }

  lemma HostEntriesAfterFiling(hosts: seq<Host>)
    ensures multiset(Map(SortHosts(hosts), OfHost())) == multiset(Map(hosts, OfHost()))
  {
    MapMap(Sort(hosts, By(HostName())), SortParts(), OfHost(), OfHost());
    MapSort(hosts, By(HostName()), OfHost());
  }

  lemma {:induction false} UniqueFromImages<T, U>(s: seq<T>, f: T -> U)
    requires NoDuplicates(Map(s, f))
    ensures NoDuplicates(s)
  {
    forall i, j | 0 <= i < j < |s| ensures s[i] != s[j] {
      assert Map(s, f)[i] != Map(s, f)[j];
    }
  }

  lemma {:induction false} ClaimedSubdomains(entries: seq<Entry>, lower: string -> string)
    ensures Claimed(Flat(entries, SubdomainClaims(lower)))
            == Map(Map(Flat(entries, SubdomainRowsOf()), RowSubdomain()), lower)
  {
    if entries != [] {
      var e, rest := entries[0], entries[1..];
      ClaimedSubdomains(rest, lower);
      MapConcat(SubdomainClaims(lower)(e), Flat(rest, SubdomainClaims(lower)), (c: (string, string)) => c.0);
      MapConcat(SubdomainRowsOf()(e), Flat(rest, SubdomainRowsOf()), RowSubdomain());
      MapConcat(Map(SubdomainRowsOf()(e), RowSubdomain()), Map(Flat(rest, SubdomainRowsOf()), RowSubdomain()), lower);
      ClaimsOfOne(e, lower);
    }
  }

  lemma ClaimsOfOne(e: Entry, lower: string -> string)
    ensures Claimed(SubdomainClaims(lower)(e)) == Map(Map(SubdomainRowsOf()(e), RowSubdomain()), lower)
  {
  }

  lemma {:induction false} ProxyRowCount(entries: seq<Entry>)
    ensures |Flat(entries, ProxyRowsOf())| == |Names(entries, IsProxy())|
  {
    if entries != [] { ProxyRowCount(entries[1..]); }
  }

  /** The rules take care of the subdomain key and of the one proxy row. */
  lemma RulesCoverOwnedRows(entries: seq<Entry>, lower: string -> string)
    requires ValidEntries(entries, lower)
    ensures NoDuplicates(Map(Flat(entries, SubdomainRowsOf()), RowSubdomain()))
    ensures |Flat(entries, ProxyRowsOf())| <= 1
  {
    ClaimedSubdomains(entries, lower);
    UniqueFromImages(Map(Flat(entries, SubdomainRowsOf()), RowSubdomain()), lower);
    ProxyRowCount(entries);
    AtMostOneName(entries, IsProxy());
  }

  lemma EntryKinds(inv: Inventory, k: nat)
    requires k < |Entries(inv)|
    ensures Entries(inv)[k] ==
            if k < |inv.hosts| then OfHost()(inv.hosts[k])
            else if k < |inv.hosts| + |inv.guests| then OfGuest()(inv.guests[k - |inv.hosts|])
            else OfSite()(inv.sites.GetOr([])[k - |inv.hosts| - |inv.guests|])
  {
  }

  lemma ListedHost(inv: Inventory, e: Entry)
    requires e in Entries(inv) && e.owner == HostOwner
    ensures e.name in Map(Map(inv.hosts, HostToRow()), RowHostName())
  {
    var k :| 0 <= k < |Entries(inv)| && Entries(inv)[k] == e;
    EntryKinds(inv, k);
    assert k < |inv.hosts|;
    assert Map(Map(inv.hosts, HostToRow()), RowHostName())[k] == e.name;
  }

  lemma ListedGuest(inv: Inventory, g: Guest)
    requires g in inv.guests
    ensures OfGuest()(g) in Entries(inv)
  {
    var k :| 0 <= k < |inv.guests| && inv.guests[k] == g;
    EntryKinds(inv, |inv.hosts| + k);
  }

  /** The rules take care of the foreign key. */
  lemma RulesCoverTheForeignKey(inv: Inventory)
    requires HostsAreKnown(Entries(inv))
    ensures Referenced(TablesOf(map[], inv))
  {
    var names := Map(Map(inv.hosts, HostToRow()), RowHostName());
    forall g | g in inv.guests ensures g.host in names {
      ListedGuest(inv, g);
      var h :| h in Entries(inv) && h.owner == HostOwner && h.name == OfGuest()(g).host.value;
      ListedHost(inv, h);
    }
    forall r | r in Map(inv.guests, GuestToRow()) ensures r.host in names {
      var i :| 0 <= i < |inv.guests| && r == GuestToRow()(inv.guests[i]);
      assert inv.guests[i] in inv.guests;
    }
  }

  lemma HostColumnKeys(hosts: seq<Host>)
    ensures NoDuplicates(Map(Map(SortHosts(hosts), HostToRow()), RowHostName())) <==> DistinctNames(hosts, HostName())
  {
    MapMap(SortHosts(hosts), HostToRow(), RowHostName(), HostName());
    MapMap(Sort(hosts, By(HostName())), SortParts(), HostName(), HostName());
    MapSort(hosts, By(HostName()), HostName());
    NoDuplicatesOfPermutation(Map(SortHosts(hosts), HostName()), Map(hosts, HostName()));
    DistinctNamesMap(hosts, HostName());
  }

  lemma GuestColumnKeys(guests: seq<Guest>, num: string -> Number)
    ensures NoDuplicates(Map(Map(SortGuests(guests, num), GuestToRow()), RowGuestName())) <==>
            DistinctNames(guests, GuestName())
    ensures NoDuplicates(Map(Map(SortGuests(guests, num), GuestToRow()), RowGuestVmid())) <==>
            NoDuplicates(Map(guests, GuestVmid()))
  {
    var sorted := SortGuests(guests, num);
    MapMap(sorted, GuestToRow(), RowGuestName(), GuestName());
    MapMap(sorted, GuestToRow(), RowGuestVmid(), GuestVmid());
    MapSort(guests, GuestOrder(num), GuestName());
    MapSort(guests, GuestOrder(num), GuestVmid());
    NoDuplicatesOfPermutation(Map(sorted, GuestName()), Map(guests, GuestName()));
    NoDuplicatesOfPermutation(Map(sorted, GuestVmid()), Map(guests, GuestVmid()));
    DistinctNamesMap(guests, GuestName());
  }

  lemma SiteColumnKeys(sites: seq<Site>)
    ensures NoDuplicates(Map(Map(sites, SiteToRow()), RowSiteName())) <==> DistinctNames(sites, SiteName())
  {
    MapMap(sites, SiteToRow(), RowSiteName(), SiteName());
    DistinctNamesMap(sites, SiteName());
  }

  /** Once validated, an inventory can be saved exactly when its names and its (host, vmid) pairs are distinct. */
  lemma ValidatedSaveSucceedsExactlyWhen(inv: Inventory, c: Config)
    requires Valid(inv, c.lower)
    ensures Consistent(TablesOf(map[], SortForFile(inv, c.num))) <==> DistinctKeys(inv)
  {
    var sorted := SortForFile(inv, c.num);
    EntriesAfterFiling(inv, c.num);
    RulesIgnoreOrder(Entries(sorted), Entries(inv), c.lower);
    RulesCoverOwnedRows(Entries(sorted), c.lower);
    RulesCoverTheForeignKey(sorted);
    HostColumnKeys(inv.hosts);
    GuestColumnKeys(inv.guests, c.num);
    SiteColumnKeys(inv.sites.GetOr([]));
  }

  /** Two guests of one name break no rule. */
  const SAME_NAME := Inventory("d", map[], [PlainHost("h")],
                               [PlainGuest("g", Lxc, 1, "h", None), PlainGuest("g", Lxc, 2, "h", None)], None)

  lemma {:induction false} NothingClaimed<T, U>(s: seq<T>, f: T -> seq<U>)
    requires forall x :: x in s ==> f(x) == []
    ensures Flat(s, f) == []
  {
    if s != [] { NothingClaimed(s[1..], f); }
  }

  /** An entry that claims nothing and is no service of its own. */
  predicate IsPlain(e: Entry) {
    !e.proxy && !e.bellhop && !e.authentik && e.auth == Ungated && e.subdomains == [] && e.midScheme.None?
  }

  lemma PlainEntriesAreValid(entries: seq<Entry>, lower: string -> string)
    requires HostsAreKnown(entries) && forall e :: e in entries ==> IsPlain(e)
    ensures ValidEntries(entries, lower)
  {
    NothingClaimed(entries, VmidBaseClaim());
    NothingClaimed(entries, IpPrefixClaim());
    NothingClaimed(entries, SubdomainClaims(lower));
    assert forall i :: 0 <= i < |entries| ==> IsPlain(entries[i]);
  }

  lemma SameNameEntries()
    ensures Entries(SAME_NAME) == [OfHost()(PlainHost("h")), OfGuest()(PlainGuest("g", Lxc, 1, "h", None)),
                                   OfGuest()(PlainGuest("g", Lxc, 2, "h", None))]
  {
    var hosts, guests := SAME_NAME.hosts, SAME_NAME.guests;
    assert Map(hosts, OfHost()) == [OfHost()(hosts[0])];
    assert Map(guests, OfGuest()) == [OfGuest()(guests[0]), OfGuest()(guests[1])];
  }

  lemma SameNameIsValid(lower: string -> string)
    ensures Valid(SAME_NAME, lower)
  {
    var entries := Entries(SAME_NAME);
    SameNameEntries();
    assert entries[0] in entries && entries[0].owner == HostOwner && entries[0].name == "h";
    PlainEntriesAreValid(entries, lower);
  }

  /** The tables refuse them. */
  lemma SameNameCannotBeSaved(c: Config)
    ensures Valid(SAME_NAME, c.lower) && !Consistent(TablesOf(map[], SortForFile(SAME_NAME, c.num)))
  {
    SameNameIsValid(c.lower);
    assert GuestName()(SAME_NAME.guests[0]) == GuestName()(SAME_NAME.guests[1]);
    ValidatedSaveSucceedsExactlyWhen(SAME_NAME, c);
  }

  // ---- Save, then load ----

  /** Hosts filed by name come back as they were, in normal form. */
  lemma HostsComeBack(subdomains: seq<SubdomainRow>, hosts: seq<Host>)
    requires Sorted(hosts, By(HostName()))
    requires forall h :: h in hosts ==> SubdomainsFor(subdomains, HostOwner, h.name) == h.subdomains.GetOr([])
    ensures Map(Sort(Map(hosts, HostToRow()), By(RowHostName())), HostFromRow(subdomains)) == Map(hosts, NormalHost())
  {
    SortedMap(hosts, HostToRow(), By(HostName()), By(RowHostName()));
    SortedIsFixed(Map(hosts, HostToRow()), By(RowHostName()));
    forall h | h in hosts ensures HostFromRow(subdomains)(HostToRow()(h)) == NormalHost()(h) {
      HostComesBack(subdomains, h);
    }
    MapMap(hosts, HostToRow(), HostFromRow(subdomains), NormalHost());
  }

  lemma GateComesBack(g: Gate)
    ensures GateFromRow(GateToRow(g)) == g
  {
  }

  lemma HostComesBack(subdomains: seq<SubdomainRow>, h: Host)
    requires SubdomainsFor(subdomains, HostOwner, h.name) == h.subdomains.GetOr([])
    ensures HostFromRow(subdomains)(HostToRow()(h)) == NormalHost()(h)
  {
    GateComesBack(h.gate);
  }

  lemma GuestComesBack(subdomains: seq<SubdomainRow>, g: Guest, f: Formats)
    requires SubdomainsFor(subdomains, GuestOwner, g.name) == g.subdomains.GetOr([]) && GuestShape(g, f)
    ensures GuestFromRow(subdomains)(GuestToRow()(g)) == NormalGuest()(g)
  {
    GateComesBack(g.gate);
  }

  /** Filing hosts that are already filed and in normal form changes nothing. */
  lemma NormalHostsStayFiled(hosts: seq<Host>)
    requires SortHosts(hosts) == hosts
    ensures SortHosts(Map(hosts, NormalHost())) == Map(hosts, NormalHost())
  {
    var le, parts, normal := By(HostName()), SortParts(), NormalHost();
    var both := (h: Host) => normal(parts(h));
    SortMap(hosts, normal, le, le);
    MapMap(Sort(hosts, le), normal, parts, both);
    MapMap(Sort(hosts, le), parts, normal, both);
  }

  lemma GuestKeysKept(guests: seq<Guest>, num: string -> Number)
    ensures KeepsOrder(guests, NormalGuest(), GuestOrder(num), GuestOrder(num))
    ensures PairwiseComparable(guests, num) ==> PairwiseComparable(Map(guests, NormalGuest()), num)
    ensures DistinctNames(guests, GuestName()) ==> DistinctNames(Map(guests, NormalGuest()), GuestName())
  {
    forall a, b | a in Map(guests, NormalGuest()) && b in Map(guests, NormalGuest()) && PairwiseComparable(guests, num)
      ensures GuestsComparable(a, b, num)
    {
      var i :| 0 <= i < |guests| && a == NormalGuest()(guests[i]);
      var j :| 0 <= j < |guests| && b == NormalGuest()(guests[j]);
      assert GuestsComparable(guests[i], guests[j], num);
    }
  }

  lemma ComparableAfterSort(guests: seq<Guest>, num: string -> Number)
    requires PairwiseComparable(guests, num)
    ensures PairwiseComparable(SortGuests(guests, num), num)
  {
    SortIsPermutation(guests, GuestOrder(num));
    forall a | a in SortGuests(guests, num) ensures a in guests { SameElements(SortGuests(guests, num), guests, a); }
  }

  lemma DistinctAfterSort(guests: seq<Guest>, num: string -> Number)
    requires DistinctNames(guests, GuestName())
    ensures DistinctNames(SortGuests(guests, num), GuestName())
  {
    MapSort(guests, GuestOrder(num), GuestName());
    DistinctNamesMap(guests, GuestName());
    DistinctNamesMap(SortGuests(guests, num), GuestName());
    NoDuplicatesOfPermutation(Map(SortGuests(guests, num), GuestName()), Map(guests, GuestName()));
  }

  /** Guests come back in normal form, in the order they were filed in, whatever order SQL gives them. */
  lemma GuestsComeBack(subdomains: seq<SubdomainRow>, guests: seq<Guest>, c: Config)
    requires SortGuests(guests, c.num) == guests && PairwiseComparable(guests, c.num)
            && DistinctNames(guests, GuestName())
    requires forall g :: g in guests ==>
              GuestShape(g, c.formats) && SubdomainsFor(subdomains, GuestOwner, g.name) == g.subdomains.GetOr([])
    ensures SortGuests(Map(Sort(Map(guests, GuestToRow()), ByHostThenName()), GuestFromRow(subdomains)), c.num)
         == Map(guests, NormalGuest())
  {
    var normal, le := Map(guests, NormalGuest()), GuestOrder(c.num);
    var back := Map(Sort(Map(guests, GuestToRow()), ByHostThenName()), GuestFromRow(subdomains));
    forall g | g in guests ensures GuestFromRow(subdomains)(GuestToRow()(g)) == NormalGuest()(g) {
      GuestComesBack(subdomains, g, c.formats);
    }
    MapMap(guests, GuestToRow(), GuestFromRow(subdomains), NormalGuest());
    MapSort(Map(guests, GuestToRow()), ByHostThenName(), GuestFromRow(subdomains));
    assert multiset(back) == multiset(normal);
    GuestKeysKept(guests, c.num);
    ComparableGuestsAreOrdered(normal, c.num);
    SortIsCanonical(back, normal, le);
    SortMap(guests, NormalGuest(), le, le);
  }

  lemma SiteComesBack(subdomains: seq<SubdomainRow>, s: Site)
    requires SubdomainsFor(subdomains, SiteOwner, s.name) == s.subdomains
    ensures SiteFromRow(subdomains)(SiteToRow()(s)) == s
  {
    GateComesBack(s.gate);
  }

  lemma SitesComeBack(subdomains: seq<SubdomainRow>, sites: seq<Site>)
    requires forall s :: s in sites ==> SubdomainsFor(subdomains, SiteOwner, s.name) == s.subdomains
    ensures Map(Sort(Map(sites, SiteToRow()), By(RowSiteName())), SiteFromRow(subdomains))
            == Sort(sites, By(SiteName()))
  {
    var sorted := Sort(sites, By(SiteName()));
    SortMap(sites, SiteToRow(), By(SiteName()), By(RowSiteName()));
    SortIsPermutation(sites, By(SiteName()));
    forall s | s in sorted ensures SiteFromRow(subdomains)(SiteToRow()(s)) == s {
      SameElements(sorted, sites, s);
      SiteComesBack(subdomains, s);
    }
    MapMap(sorted, SiteToRow(), SiteFromRow(subdomains), (s: Site) => s);
    assert Map(sorted, (s: Site) => s) == sorted;
  }

  lemma TwoEntriesDiffer(inv: Inventory, i: nat, j: nat)
    requires DistinctNames(inv.hosts, HostName()) && DistinctNames(inv.guests, GuestName())
            && DistinctNames(inv.sites.GetOr([]), SiteName())
    requires i < j < |Entries(inv)|
    ensures Entries(inv)[i].owner != Entries(inv)[j].owner || Entries(inv)[i].name != Entries(inv)[j].name
  {
    var hosts, guests, sites := inv.hosts, inv.guests, inv.sites.GetOr([]);
    EntryKinds(inv, i);
    EntryKinds(inv, j);
    if j < |hosts| {
      assert HostName()(hosts[i]) != HostName()(hosts[j]);
    } else if |hosts| <= i && j < |hosts| + |guests| {
      assert GuestName()(guests[i - |hosts|]) != GuestName()(guests[j - |hosts|]);
    } else if |hosts| + |guests| <= i {
      assert SiteName()(sites[i - |hosts| - |guests|]) != SiteName()(sites[j - |hosts| - |guests|]);
    }
  }

  lemma NamesMakeEntriesDistinct(inv: Inventory)
    requires DistinctNames(inv.hosts, HostName()) && DistinctNames(inv.guests, GuestName())
            && DistinctNames(inv.sites.GetOr([]), SiteName())
    ensures DistinctEntries(Entries(inv))
  {
    forall i, j | 0 <= i < j < |Entries(inv)|
      ensures Entries(inv)[i].owner != Entries(inv)[j].owner || Entries(inv)[i].name != Entries(inv)[j].name
    {
      TwoEntriesDiffer(inv, i, j);
    }
  }

  lemma HostsFindTheirSubdomains(inv: Inventory, h: Host)
    requires DistinctEntries(Entries(inv)) && h in inv.hosts
    ensures SubdomainsFor(Flat(Entries(inv), SubdomainRowsOf()), HostOwner, h.name) == h.subdomains.GetOr([])
  {
    var k :| 0 <= k < |inv.hosts| && inv.hosts[k] == h;
    EntryKinds(inv, k);
    OwnersFindTheirSubdomains(Entries(inv), OfHost()(h));
  }

  lemma GuestsFindTheirSubdomains(inv: Inventory, g: Guest)
    requires DistinctEntries(Entries(inv)) && g in inv.guests
    ensures SubdomainsFor(Flat(Entries(inv), SubdomainRowsOf()), GuestOwner, g.name) == g.subdomains.GetOr([])
  {
    var k :| 0 <= k < |inv.guests| && inv.guests[k] == g;
    EntryKinds(inv, |inv.hosts| + k);
    OwnersFindTheirSubdomains(Entries(inv), OfGuest()(g));
  }

  lemma SitesFindTheirSubdomains(inv: Inventory, s: Site)
    requires DistinctEntries(Entries(inv)) && s in inv.sites.GetOr([])
    ensures SubdomainsFor(Flat(Entries(inv), SubdomainRowsOf()), SiteOwner, s.name) == s.subdomains
  {
    var sites := inv.sites.GetOr([]);
    var k :| 0 <= k < |sites| && sites[k] == s;
    EntryKinds(inv, |inv.hosts| + |inv.guests| + k);
    OwnersFindTheirSubdomains(Entries(inv), OfSite()(s));
  }

  lemma FiledKeysStayDistinct(inv: Inventory, num: string -> Number)
    requires DistinctKeys(inv)
    ensures DistinctEntries(Entries(SortForFile(inv, num)))
  {
    var sorted := SortForFile(inv, num);
    DistinctAfterSort(inv.guests, num);
    HostColumnKeys(inv.hosts);
    MapMap(SortHosts(inv.hosts), HostToRow(), RowHostName(), HostName());
    DistinctNamesMap(SortHosts(inv.hosts), HostName());
    NamesMakeEntriesDistinct(sorted);
  }

  lemma SettingsComeBack(meta: map<string, string>, inv: Inventory, c: Config)
    requires DOMAIN !in c.keys && inv.settings.Keys <= KeySet(c.keys)
    ensures var after := MetaAfter(meta, inv, KeySet(c.keys));
            Get(after, DOMAIN) == Some(inv.domain) && (map k | k in after && k in c.keys :: after[k]) == inv.settings
  {
    var after := MetaAfter(meta, inv, KeySet(c.keys));
    var settings := map k | k in after && k in c.keys :: after[k];
    SavedRow(meta, inv, KeySet(c.keys), DOMAIN);
    forall k ensures Get(settings, k) == Get(inv.settings, k) {
      SavedRow(meta, inv, KeySet(c.keys), k);
      assert k in inv.settings ==> k in inv.settings.Keys;
    }
    SameMap(settings, inv.settings);
  }

  /** What a load assembles from the tables a save leaves. */
  lemma AssembledAfterSave(meta: map<string, string>, inv: Inventory, c: Config)
    requires DOMAIN !in c.keys && inv.settings.Keys <= KeySet(c.keys)
    requires WellFormed(inv, c.formats) && DistinctKeys(inv) && PairwiseComparable(inv.guests, c.num)
    ensures Assembled(TablesOf(MetaAfter(meta, inv, KeySet(c.keys)), SortForFile(inv, c.num)), c)
            == Canonical(inv, c.num)
  {
    var sorted := SortForFile(inv, c.num);
    var subdomains := Flat(Entries(sorted), SubdomainRowsOf());
    FiledKeysStayDistinct(inv, c.num);
    SettingsComeBack(meta, inv, c);
    assert Map(Sort(Map(sorted.hosts, HostToRow()), By(RowHostName())), HostFromRow(subdomains))
        == Map(sorted.hosts, NormalHost()) by {
      FiledHostsAreSorted(inv.hosts);
      forall h | h in sorted.hosts ensures SubdomainsFor(subdomains, HostOwner, h.name) == h.subdomains.GetOr([]) {
        HostsFindTheirSubdomains(sorted, h);
      }
      HostsComeBack(subdomains, sorted.hosts);
    }
    assert SortHosts(Map(sorted.hosts, NormalHost())) == Map(sorted.hosts, NormalHost()) by {
      HostsTwice(inv.hosts);
      NormalHostsStayFiled(sorted.hosts);
    }
    assert SortGuests(Map(Sort(Map(sorted.guests, GuestToRow()), ByHostThenName()), GuestFromRow(subdomains)), c.num)
        == Map(sorted.guests, NormalGuest()) by {
      FiledGuestsComeBack(inv, c);
    }
    assert Map(Sort(Map(sorted.sites.GetOr([]), SiteToRow()), By(RowSiteName())), SiteFromRow(subdomains))
        == Sort(sorted.sites.GetOr([]), By(SiteName())) by {
      forall s | s in sorted.sites.GetOr([]) ensures SubdomainsFor(subdomains, SiteOwner, s.name) == s.subdomains {
        SitesFindTheirSubdomains(sorted, s);
      }
      SitesComeBack(subdomains, sorted.sites.GetOr([]));
    }
    SortLength(inv.sites.GetOr([]), By(SiteName()));
  }

  lemma SortLength<T>(s: seq<T>, le: (T, T) -> bool)
    ensures |Sort(s, le)| == |s|
  {
    SortIsPermutation(s, le);
    assert |multiset(Sort(s, le))| == |multiset(s)|;
  }

  lemma FiledGuestsComeBack(inv: Inventory, c: Config)
    requires DistinctEntries(Entries(SortForFile(inv, c.num))) && DistinctKeys(inv)
    requires WellFormed(inv, c.formats) && PairwiseComparable(inv.guests, c.num)
    ensures var sorted := SortForFile(inv, c.num);
            SortGuests(Map(Sort(Map(sorted.guests, GuestToRow()), ByHostThenName()),
                           GuestFromRow(Flat(Entries(sorted), SubdomainRowsOf()))), c.num)
                               == Map(sorted.guests, NormalGuest())
  {
    var sorted := SortForFile(inv, c.num);
    FileOrderTwice(inv, c.num);
    ComparableAfterSort(inv.guests, c.num);
    DistinctAfterSort(inv.guests, c.num);
    SortIsPermutation(inv.guests, GuestOrder(c.num));
    forall g | g in sorted.guests
      ensures GuestShape(g, c.formats)
      ensures SubdomainsFor(Flat(Entries(sorted), SubdomainRowsOf()), GuestOwner, g.name) == g.subdomains.GetOr([])
    {
      SameElements(sorted.guests, inv.guests, g);
      GuestsFindTheirSubdomains(sorted, g);
    }
    GuestsComeBack(Flat(Entries(sorted), SubdomainRowsOf()), sorted.guests, c);
  }

  // ---- What is loaded keeps the rules and the schema ----

  lemma NormalHostIsTheSameEntry(h: Host)
    ensures OfHost()(NormalHost()(h)) == OfHost()(h)
  {
  }

  lemma HostEntriesOfCanonical(hosts: seq<Host>)
    ensures multiset(Map(Map(SortHosts(hosts), NormalHost()), OfHost())) == multiset(Map(hosts, OfHost()))
  {
    forall h | h in SortHosts(hosts) ensures OfHost()(NormalHost()(h)) == OfHost()(h) { NormalHostIsTheSameEntry(h); }
    MapMap(SortHosts(hosts), NormalHost(), OfHost(), OfHost());
    HostEntriesAfterFiling(hosts);
  }

  lemma GuestEntriesOfCanonical(guests: seq<Guest>, num: string -> Number)
    ensures multiset(Map(Map(SortGuests(guests, num), NormalGuest()), OfGuest())) == multiset(Map(guests, OfGuest()))
  {
    MapMap(SortGuests(guests, num), NormalGuest(), OfGuest(), OfGuest());
    MapSort(guests, GuestOrder(num), OfGuest());
  }

  lemma SiteEntriesOfCanonical(sites: Option<seq<Site>>)
    ensures multiset(Map(NormalSites(sites).GetOr([]), OfSite())) == multiset(Map(sites.GetOr([]), OfSite()))
  {
    MapSort(sites.GetOr([]), By(SiteName()), OfSite());
  }

  lemma EntriesOfCanonical(inv: Inventory, num: string -> Number)
    ensures multiset(Entries(Canonical(inv, num))) == multiset(Entries(inv))
  {
    HostEntriesOfCanonical(inv.hosts);
    GuestEntriesOfCanonical(inv.guests, num);
    SiteEntriesOfCanonical(inv.sites);
  }

  lemma SortKeepsAll<T>(s: seq<T>, le: (T, T) -> bool, x: T)
    requires x in Sort(s, le)
    ensures x in s
  {
    SortIsPermutation(s, le);
    SameElements(Sort(s, le), s, x);
  }

  lemma FiledHostShape(h: Host, f: Formats)
    requires HostShape(h, f)
    ensures HostShape(NormalHost()(SortParts()(h)), f)
  {
    var filed := SortParts()(h);
    assert BridgeShapes(filed.bridges) by {
      if h.bridges.Some? {
        forall b | b in filed.bridges.value ensures b.name != "" { SortKeepsAll(h.bridges.value, By(BridgeName()), b); }
      }
    }
    assert StorageShapes(filed.storages) by {
      if h.storages.Some? {
        var contents := Map(h.storages.value, SortContent());
        forall t | t in filed.storages.value ensures t.name != "" && t.kind != "" {
          SortKeepsAll(contents, By(StorageName()), t);
        }
      }
    }
    assert MountShapes(filed.nfsMounts) by {
      if h.nfsMounts.Some? {
        forall m | m in filed.nfsMounts.value ensures m.name != "" && m.source != "" && m.mountPoint != "" {
          SortKeepsAll(h.nfsMounts.value, MountOrder(), m);
        }
      }
    }
  }

  lemma CanonicalIsWellFormed(inv: Inventory, num: string -> Number, f: Formats)
    requires WellFormed(inv, f)
    ensures WellFormed(Canonical(inv, num), f)
  {
    var canonical := Canonical(inv, num);
    forall h | h in canonical.hosts ensures HostShape(h, f) {
      var sorted := Sort(inv.hosts, By(HostName()));
      var i :| 0 <= i < |sorted| && h == NormalHost()(SortParts()(sorted[i]));
      SortKeepsAll(inv.hosts, By(HostName()), sorted[i]);
      FiledHostShape(sorted[i], f);
    }
    forall g | g in canonical.guests ensures GuestShape(g, f) {
      var sorted := SortGuests(inv.guests, num);
      var i :| 0 <= i < |sorted| && g == NormalGuest()(sorted[i]);
      SortKeepsAll(inv.guests, GuestOrder(num), sorted[i]);
    }
    if canonical.sites.Some? {
      forall s | s in canonical.sites.value ensures SiteShape(s, f) {
        SortKeepsAll(inv.sites.GetOr([]), By(SiteName()), s);
      }
    }
  }

  // ---- The theorems ----

  /**
   What a save leaves is read and checked as the inventory in canonical form.  The guests' addresses
   have to be comparable: else SQL's order, not the authored one, decides between two that are not.
   */
  lemma CheckedAfterSave(meta: map<string, string>, inv: Inventory, c: Config)
    requires DOMAIN !in c.keys && inv.settings.Keys <= KeySet(c.keys)
    requires WellFormed(inv, c.formats) && Valid(inv, c.lower) && DistinctKeys(inv)
            && PairwiseComparable(inv.guests, c.num)
    ensures Checked(TablesOf(MetaAfter(meta, inv, KeySet(c.keys)), SortForFile(inv, c.num)), c)
            == Ok(Canonical(inv, c.num))
  {
    AssembledAfterSave(meta, inv, c);
    CanonicalIsWellFormed(inv, c.num, c.formats);
    EntriesOfCanonical(inv, c.num);
    RulesIgnoreOrder(Entries(Canonical(inv, c.num)), Entries(inv), c.lower);
    NoProblemsExactlyWhen(Canonical(inv, c.num), c.lower);
  }

  /**
   Why a load throws: the open did, or the schema refuses what is read, or else the rules do; what it returns
   keeps both.
   */
  lemma LoadedExactlyWhen(s: Stored, c: Config)
    ensures var r, opens := Loaded(s, c), Opened(s, Ladders(c)).Ok?;
            var read := Assembled(AfterOpen(s, Ladders(c)).tables, c);
            && (r == Err(BadLadder) <==> !opens)
            && (r == Err(BadShape) <==> opens && !WellFormed(read, c.formats))
            && (r == Err(BadInventory(Problems(Entries(read), c.lower))) <==>
                  opens && WellFormed(read, c.formats) && !Valid(read, c.lower))
            && (r == Ok(read) <==> opens && WellFormed(read, c.formats) && Valid(read, c.lower))
  {
    NoProblemsExactlyWhen(Assembled(AfterOpen(s, Ladders(c)).tables, c), c.lower);
  }

  lemma AllMatchExactlyWhen(list: seq<string>, format: string -> bool)
    ensures AllMatch(Some(list), format) <==> forall x :: x in list ==> format(x)
  {
    if forall x :: x in list ==> format(x) { assert forall i :: 0 <= i < |list| ==> list[i] in list; }
  }

  /** The ranges the schema allows: ports from 1 to 65535, masks up to 32 bits, VMIDs above 0, and no blank names. */
  lemma SchemaRanges(h: Host, g: Guest, f: Formats, port: int)
    ensures HostShape(h.(sshPort := Some(port)), f) <==> HostShape(h.(sshPort := None), f) && 0 < port < 65536
    ensures HostShape(h, f) && h.midScheme.Some? && h.midScheme.value.cidrSuffix.Some? ==>
              h.midScheme.value.cidrSuffix.value < 33
    ensures h.midScheme.Some? ==>
              var bare := h.midScheme.value.(cidrSuffix := None);
              forall n: nat :: HostShape(h.(midScheme := Some(bare.(cidrSuffix := Some(n)))), f) <==>
                                 n < 33 && HostShape(h.(midScheme := Some(bare)), f)
    ensures GuestShape(g, f) ==> g.vmid >= 1
    ensures GuestShape(g.(vmid := 1), f) && g.vmid >= 1 ==> GuestShape(g, f)
    ensures GuestShape(g, f) ==> GuestShape(g.(vmid := 1), f)
    ensures HostShape(h, f) ==> h.name != "" && h.sshTarget != "" && h.sshUser != "" && h.gate.authGroup != Some("")
  {
  }

  /** SQL reads guests by host, then by name. */
  lemma SqlOrderIs(a: GuestRow, b: GuestRow)
    ensures ByHostThenName()(a, b) <==>
            StringLess(a.host, b.host) || (a.host == b.host && (StringLess(a.name, b.name) || a.name == b.name))
  {
    StringTrichotomy(a.host, b.host);
    StringTrichotomy(a.name, b.name);
  }

  /** Canonical form is the file order, external sites by name, exactly for inventories in normal form. */
  lemma CanonicalIsFileOrderExactlyWhen(inv: Inventory, num: string -> Number)
    ensures var filed := SortForFile(inv, num);
            Canonical(inv, num) == filed.(sites := if inv.sites.None? then None
                else Some(Sort(inv.sites.value, By(SiteName()))))
            <==> IsNormal(inv)
  {
    NormalHostsExactlyWhen(inv.hosts);
    NormalGuestsExactlyWhen(inv.guests, num);
    SortLength(inv.sites.GetOr([]), By(SiteName()));
  }

  lemma {:induction false} MapIsIdentityExactlyWhen<T>(s: seq<T>, f: T -> T)
    ensures Map(s, f) == s <==> forall x :: x in s ==> f(x) == x
  {
    if Map(s, f) == s {
      forall x | x in s ensures f(x) == x {
        var i :| 0 <= i < |s| && s[i] == x;
        assert Map(s, f)[i] == f(x);
      }
    }
  }

  lemma NormalPart(h: Host)
    ensures NormalHost()(SortParts()(h)) == SortParts()(h) <==> NormalHost()(h) == h
  {
  }

  lemma FiledHost(hosts: seq<Host>, h: Host)
    requires h in hosts
    ensures SortParts()(h) in SortHosts(hosts)
  {
    var sorted := Sort(hosts, By(HostName()));
    SortIsPermutation(hosts, By(HostName()));
    SameElements(sorted, hosts, h);
    var i :| 0 <= i < |sorted| && sorted[i] == h;
    assert SortHosts(hosts)[i] == SortParts()(h);
  }

  lemma UnfiledHost(hosts: seq<Host>, x: Host) returns (h: Host)
    requires x in SortHosts(hosts)
    ensures h in hosts && x == SortParts()(h)
  {
    var sorted := Sort(hosts, By(HostName()));
    var i :| 0 <= i < |sorted| && SortHosts(hosts)[i] == x;
    h := sorted[i];
    SortKeepsAll(hosts, By(HostName()), h);
  }

  lemma NormalHostsExactlyWhen(hosts: seq<Host>)
    ensures Map(SortHosts(hosts), NormalHost()) == SortHosts(hosts) <==> forall h :: h in hosts ==> NormalHost()(h) == h
  {
    MapIsIdentityExactlyWhen(SortHosts(hosts), NormalHost());
    if forall x :: x in SortHosts(hosts) ==> NormalHost()(x) == x {
      forall h | h in hosts ensures NormalHost()(h) == h {
        FiledHost(hosts, h);
        NormalPart(h);
      }
    }
    if forall h :: h in hosts ==> NormalHost()(h) == h {
      forall x | x in SortHosts(hosts) ensures NormalHost()(x) == x {
        var h := UnfiledHost(hosts, x);
        NormalPart(h);
      }
    }
  }

  lemma NormalGuestsExactlyWhen(guests: seq<Guest>, num: string -> Number)
    ensures Map(SortGuests(guests, num), NormalGuest()) == SortGuests(guests, num) <==>
            forall g :: g in guests ==> NormalGuest()(g) == g
  {
    MapIsIdentityExactlyWhen(SortGuests(guests, num), NormalGuest());
    SortIsPermutation(guests, GuestOrder(num));
    forall g: Guest ensures g in SortGuests(guests, num) <==> g in guests {
      SameElements(SortGuests(guests, num), guests, g);
    }
  }

  /** withFreshSettings: every setting from the database as it is now, the rest from the caller's copy. */
  function WithFreshSettings(s: Stored, inv: Inventory, c: Config): Result<Inventory, LoadError> {
    match Loaded(s, c)
    case Err(e) => Err(e)
    case Ok(now) => Ok(inv.(settings := now.settings))
  }

  /**
   Saving a stale copy with fresh settings leaves every setting as it is in the open database; saving
   the copy itself does so only for a setting of which it happens to hold the present value.
   */
  lemma FreshSettingsAreNeverReverted(s: Stored, stale: Inventory, c: Config, key: string)
    requires DOMAIN !in c.keys && key in c.keys && WithFreshSettings(s, stale, c).Ok?
    ensures var now := AfterOpen(s, Ladders(c));
            && Get(Saved(now, WithFreshSettings(s, stale, c).value, c).tables.meta, key) == Get(now.tables.meta, key)
            && (Get(Saved(now, stale, c).tables.meta, key) == Get(now.tables.meta, key)
                <==> Get(stale.settings, key) == Get(now.tables.meta, key))
  {
    StaleSettingsAreReverted(AfterOpen(s, Ladders(c)), stale, c, key);
    var merged := WithFreshSettings(s, stale, c).value;
    FreshAreTheStored(s, stale, c, key);
    SavedRow(AfterOpen(s, Ladders(c)).tables.meta, merged, KeySet(c.keys), key);
  }

  /** The settings among the rows of a table. */
  function SettingsIn(meta: map<string, string>, c: Config): map<string, string> {
    map k | k in meta && k in c.keys :: meta[k]
  }

  lemma CheckedSettings(t: Tables, c: Config)
    requires Checked(t, c).Ok?
    ensures Checked(t, c).value.settings == SettingsIn(t.meta, c)
  {
  }

  lemma LoadedSettings(s: Stored, c: Config)
    requires Loaded(s, c).Ok?
    ensures Loaded(s, c).value.settings == SettingsIn(AfterOpen(s, Ladders(c)).tables.meta, c)
  {
    CheckedSettings(AfterOpen(s, Ladders(c)).tables, c);
  }

  lemma FreshAreTheStored(s: Stored, stale: Inventory, c: Config, key: string)
    requires key in c.keys && WithFreshSettings(s, stale, c).Ok?
    ensures Get(WithFreshSettings(s, stale, c).value.settings, key) == Get(AfterOpen(s, Ladders(c)).tables.meta, key)
  {
    LoadedSettings(s, c);
    ReadSetting(AfterOpen(s, Ladders(c)).tables.meta, c, key);
  }

  lemma ReadSetting(meta: map<string, string>, c: Config, key: string)
    requires key in c.keys
    ensures Get(SettingsIn(meta, c), key) == Get(meta, key)
  {
  }

  /** Saving the stale copy as it is sets every setting back to the copy's. */
  lemma StaleSettingsAreReverted(now: Stored, stale: Inventory, c: Config, key: string)
    requires DOMAIN !in c.keys && key in c.keys
    ensures Get(Saved(now, stale, c).tables.meta, key) == Get(stale.settings, key)
  {
    SavedRow(now.tables.meta, stale, KeySet(c.keys), key);
  }

  // ---- The form of what is loaded ----

  /**
   Whatever is in the tables, a loaded host's flags are true or absent and its list of subdomains is absent
   or not empty.
   */
  lemma LoadedHostsAreNormal(t: Tables, c: Config, h: Host)
    requires h in Assembled(t, c).hosts
    ensures h.proxy != Some(false) && h.proxyManual != Some(false) && h.authentik != Some(false)
            && h.subdomains != Some([])
  {
    var rows := Sort(t.hosts, By(RowHostName()));
    var before := UnfiledHost(Map(rows, HostFromRow(t.subdomains)), h);
    var i :| 0 <= i < |rows| && before == HostFromRow(t.subdomains)(rows[i]);
  }

  /** A guest, and its creator, in the form they are loaded in. */
  predicate IsLoadable(g: Guest) {
    && g.proxy != Some(false) && g.proxyManual != Some(false) && g.authentik != Some(false) && g.bellhop != Some(false)
    && g.subdomains != Some([])
    && (g.creator.Some? ==>
          g.creator.value.username != "" && g.creator.value.uid != Some("") && g.creator.value.since != Some(""))
  }

  lemma GuestFromRowIsLoadable(subdomains: seq<SubdomainRow>, r: GuestRow)
    ensures IsLoadable(GuestFromRow(subdomains)(r))
  {
  }

  /** The same of a loaded guest, and nothing of its creator is blank. */
  lemma LoadedGuestsAreNormal(t: Tables, c: Config, g: Guest)
    requires g in Assembled(t, c).guests
    ensures IsLoadable(g)
  {
    var guests := Map(Sort(t.guests, ByHostThenName()), GuestFromRow(t.subdomains));
    SortKeepsAll(guests, GuestOrder(c.num), g);
    FromARow(Sort(t.guests, ByHostThenName()), t.subdomains, g);
  }

  lemma FromARow(rows: seq<GuestRow>, subdomains: seq<SubdomainRow>, g: Guest)
    requires g in Map(rows, GuestFromRow(subdomains))
    ensures IsLoadable(g)
  {
    var i :| 0 <= i < |rows| && Map(rows, GuestFromRow(subdomains))[i] == g;
    GuestFromRowIsLoadable(subdomains, rows[i]);
  }
}
