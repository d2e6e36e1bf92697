/**
 The inventory's tables, and the inserts that fill them (src/lib/inventory.ts).

 A table is the sequence of its rows in insertion order.  A JSON column holds the value it encodes.
 */
module InventoryTables {
  import opened Wrappers
  import opened Ordering
  import opened InventoryModel
  import opened InventoryValidation

  datatype GateRow = GateRow(
    port: Option<int>,
    insecureBackendTls: Option<int>,
    authGroup: Option<string>,
    authMode: Option<AuthMode>,
    redirectUris: Option<seq<string>>,
    mobileRedirectUris: Option<seq<string>>,
    unauthenticatedPaths: Option<seq<string>>)

  datatype HostRow = HostRow(
    name: string,
    sshTarget: string,
    sshUser: string,
    sshPort: Option<int>,
    sshIdentityFile: Option<string>,
    midScheme: Option<MidScheme>,
    proxy: int,
    proxyManual: Option<int>,
    authentik: Option<int>,
    ip: Option<string>,
    gate: GateRow,
    bridges: Option<seq<Bridge>>,
    storages: Option<seq<Storage>>,
    nfsMounts: Option<seq<NfsMount>>)

  datatype GuestRow = GuestRow(
    name: string,
    kind: GuestType,
    vmid: int,
    host: string,
    ip: Option<string>,
    proxy: int,
    proxyManual: Option<int>,
    authentik: Option<int>,
    bellhop: Option<int>,
    unprivileged: Option<int>,
    gate: GateRow,
    app: Option<string>,
    appSource: Option<string>,
    vpnGateway: Option<VpnProvider>,
    vpn: Option<string>,
    createdByUid: Option<string>,
    createdByUsername: Option<string>,
    createdBySince: Option<string>)

  datatype SiteRow = SiteRow(name: string, ip: string, gate: GateRow)

  datatype SubdomainRow = SubdomainRow(subdomain: string, owner: Owner, name: string)

  datatype ProxyRow = ProxyRow(owner: Owner, name: string)

  datatype Tables = Tables(
    meta: map<string, string>,
    hosts: seq<HostRow>,
    guests: seq<GuestRow>,
    sites: seq<SiteRow>,
    subdomains: seq<SubdomainRow>,
    proxyOwner: seq<ProxyRow>)

  // ---- One entry, one row ----

  /** A flag column that is 1 or null. */
  function OneOrNull(flag: Option<bool>): Option<int> {
    if IsTrue(flag) then Some(1) else None
  }

  /** A flag column that keeps false apart from absent. */
  function Nullable(flag: Option<bool>): Option<int> {
    match flag case None => None case Some(b) => Some(if b then 1 else 0)
  }

  /** What is in a flag's column: 1 or nothing, or 1, 0 or nothing where false is kept apart from absent. */
  lemma FlagColumns(flag: Option<bool>)
    ensures OneOrNull(flag) == match flag case Some(true) => Some(1) case _ => None
    ensures Nullable(flag) == match flag case Some(true) => Some(1) case Some(false) => Some(0) case None => None
  {
  }

  /** The proxy's column is 1 or 0, and an app's source is the word for custom or nothing. */
  lemma ProxyColumns(h: Host, g: Guest)
    ensures HostToRow()(h).proxy == (if h.proxy == Some(true) then 1 else 0)
    ensures GuestToRow()(g).proxy == (if g.proxy == Some(true) then 1 else 0)
    ensures GuestToRow()(g).appSource == (if g.customApp then Some("custom") else None)
  {
  }

  function FromFlag(column: Option<int>): Option<bool> {
    if column.Some? && column.value != 0 then Some(true) else None
  }

  function FromNullable(column: Option<int>): Option<bool> {
    match column case None => None case Some(n) => Some(n != 0)
  }

  function GateToRow(g: Gate): GateRow {
    GateRow(g.port, Nullable(g.insecureBackendTls), g.authGroup, g.authMode, g.redirectUris, g.mobileRedirectUris,
        g.unauthenticatedPaths)
  }

  function GateFromRow(r: GateRow): Gate {
    Gate(r.port, FromNullable(r.insecureBackendTls), r.authGroup, r.authMode, r.redirectUris, r.mobileRedirectUris,
        r.unauthenticatedPaths)
  }

  function HostToRow(): Host -> HostRow {
    (h: Host) => HostRow(h.name, h.sshTarget, h.sshUser, h.sshPort, h.sshIdentityFile, h.midScheme,
                         if IsTrue(h.proxy) then 1 else 0, OneOrNull(h.proxyManual), OneOrNull(h.authentik),
                         h.ip, GateToRow(h.gate), h.bridges, h.storages, h.nfsMounts)
  }

  function GuestToRow(): Guest -> GuestRow {
    (g: Guest) => GuestRow(g.name, g.kind, g.vmid, g.host, g.ip,
                           if IsTrue(g.proxy) then 1 else 0, OneOrNull(g.proxyManual), OneOrNull(g.authentik),
                           OneOrNull(g.bellhop), Nullable(g.unprivileged), GateToRow(g.gate),
                           g.app, if g.customApp then Some("custom") else None, g.vpnGateway, g.vpn,
                           if g.creator.Some? then g.creator.value.uid else None,
                           if g.creator.Some? then Some(g.creator.value.username) else None,
                           if g.creator.Some? then g.creator.value.since else None)
  }

  function SiteToRow(): Site -> SiteRow {
    (s: Site) => SiteRow(s.name, s.ip, GateToRow(s.gate))
  }

  function OwnedBy(owner: Owner, name: string): SubdomainRow -> seq<string> {
    (r: SubdomainRow) => if r.owner == owner && r.name == name then [r.subdomain] else []
  }

  /** The subdomains of an owner, in insertion order. */
  function SubdomainsFor(rows: seq<SubdomainRow>, owner: Owner, name: string): seq<string> {
    Flat(rows, OwnedBy(owner, name))
  }

  function NonEmpty(s: seq<string>): Option<seq<string>> {
    if s == [] then None else Some(s)
  }

  function HostFromRow(subdomains: seq<SubdomainRow>): HostRow -> Host {
    (r: HostRow) => Host(r.name, r.sshTarget, r.sshUser, r.sshPort, r.sshIdentityFile, r.midScheme,
                         FromFlag(Some(r.proxy)), FromFlag(r.proxyManual), FromFlag(r.authentik),
                         NonEmpty(SubdomainsFor(subdomains, HostOwner, r.name)), r.ip, GateFromRow(r.gate),
                         r.bridges, r.storages, r.nfsMounts)
  }

  function GuestFromRow(subdomains: seq<SubdomainRow>): GuestRow -> Guest {
    (r: GuestRow) => Guest(r.name, r.kind, r.vmid, r.host, r.ip,
                           NonEmpty(SubdomainsFor(subdomains, GuestOwner, r.name)),
                           FromFlag(Some(r.proxy)), FromFlag(r.proxyManual), FromFlag(r.authentik), FromFlag(r.bellhop),
                           FromNullable(r.unprivileged), GateFromRow(r.gate),
                           r.app, r.appSource == Some("custom"), r.vpnGateway, r.vpn,
                           match NonBlank(r.createdByUsername)
                             case None => None
                             case Some(username) => Some(Creator(NonBlank(r.createdByUid), username,
                                 NonBlank(r.createdBySince))))
  }

  function SiteFromRow(subdomains: seq<SubdomainRow>): SiteRow -> Site {
    (r: SiteRow) => Site(r.name, r.ip, SubdomainsFor(subdomains, SiteOwner, r.name), GateFromRow(r.gate))
  }

  // ---- The inserts of a save, in order ----

  datatype Insert =
    | IntoHosts(host: HostRow)
    | IntoGuests(guest: GuestRow)
    | IntoSites(site: SiteRow)
    | IntoSubdomains(subdomain: SubdomainRow)
    | IntoProxyOwner(proxy: ProxyRow)

  function SubdomainRowsOf(): Entry -> seq<SubdomainRow> {
    (e: Entry) => Map(e.subdomains, (s: string) => SubdomainRow(s, e.owner, e.name))
  }

  function ProxyRowsOf(): Entry -> seq<ProxyRow> {
    (e: Entry) => if e.proxy then [ProxyRow(e.owner, e.name)] else []
  }

  function IntoSubdomainsOf(): SubdomainRow -> Insert { (r: SubdomainRow) => IntoSubdomains(r) }

  function IntoProxyOwnerOf(): ProxyRow -> Insert { (r: ProxyRow) => IntoProxyOwner(r) }

  /** After an entry's own row: the proxy row if it is the proxy, then its subdomains in authored order. */
  function OwnedInserts(e: Entry): seq<Insert> {
    Map(ProxyRowsOf()(e), IntoProxyOwnerOf()) + Map(SubdomainRowsOf()(e), IntoSubdomainsOf())
  }

  function HostInserts(): Host -> seq<Insert> {
    (h: Host) => [IntoHosts(HostToRow()(h))] + OwnedInserts(OfHost()(h))
  }

  function GuestInserts(): Guest -> seq<Insert> {
    (g: Guest) => [IntoGuests(GuestToRow()(g))] + OwnedInserts(OfGuest()(g))
  }

  function SiteInserts(): Site -> seq<Insert> {
    (s: Site) => [IntoSites(SiteToRow()(s))] + OwnedInserts(OfSite()(s))
  }

  function Script(inv: Inventory): seq<Insert> {
    Flat(inv.hosts, HostInserts()) + Flat(inv.guests, GuestInserts()) + Flat(inv.sites.GetOr([]), SiteInserts())
  }

  // ---- Constraints ----

  function RowHostName(): HostRow -> string { (r: HostRow) => r.name }
  function RowGuestName(): GuestRow -> string { (r: GuestRow) => r.name }
  function RowGuestVmid(): GuestRow -> (string, int) { (r: GuestRow) => (r.host, r.vmid) }
  function RowSiteName(): SiteRow -> string { (r: SiteRow) => r.name }
  function RowSubdomain(): SubdomainRow -> string { (r: SubdomainRow) => r.subdomain }

  /** The primary keys and the unique column pair; proxy_owner has room for one row. */
  ghost predicate Unique(t: Tables) {
    && NoDuplicates(Map(t.hosts, RowHostName()))
    && NoDuplicates(Map(t.guests, RowGuestName()))
    && NoDuplicates(Map(t.guests, RowGuestVmid()))
    && NoDuplicates(Map(t.sites, RowSiteName()))
    && NoDuplicates(Map(t.subdomains, RowSubdomain()))
    && |t.proxyOwner| <= 1
  }

  /** The foreign key from guests to hosts. */
  ghost predicate Referenced(t: Tables) {
    forall g :: g in t.guests ==> g.host in Map(t.hosts, RowHostName())
  }

  ghost predicate Consistent(t: Tables) {
    Unique(t) && Referenced(t)
  }

  /** What the database checks when a row arrives. */
  predicate Fits(t: Tables, ins: Insert) {
    match ins
    case IntoHosts(r) => r.name !in Map(t.hosts, RowHostName())
    case IntoGuests(r) =>
      && r.name !in Map(t.guests, RowGuestName()) && (r.host, r.vmid) !in Map(t.guests, RowGuestVmid())
      && r.host in Map(t.hosts, RowHostName())
    case IntoSites(r) => r.name !in Map(t.sites, RowSiteName())
    case IntoSubdomains(r) => r.subdomain !in Map(t.subdomains, RowSubdomain())
    case IntoProxyOwner(r) => t.proxyOwner == []
  }

  function Put(t: Tables, ins: Insert): Tables {
    match ins
    case IntoHosts(r) => t.(hosts := t.hosts + [r])
    case IntoGuests(r) => t.(guests := t.guests + [r])
    case IntoSites(r) => t.(sites := t.sites + [r])
    case IntoSubdomains(r) => t.(subdomains := t.subdomains + [r])
    case IntoProxyOwner(r) => t.(proxyOwner := t.proxyOwner + [r])
  }

  /** Running the inserts one by one; the first that does not fit fails the transaction. */
  function Run(t: Tables, script: seq<Insert>): Result<Tables, Insert>
    decreases |script|
  {
    if script == [] then Ok(t)
    else if Fits(t, script[0]) then Run(Put(t, script[0]), script[1..])
    else Err(script[0])
  }

  /** Rows for each table. */
  datatype Rows = Rows(hosts: seq<HostRow>, guests: seq<GuestRow>, sites: seq<SiteRow>,
                       subdomains: seq<SubdomainRow>, proxies: seq<ProxyRow>)

  const NO_ROWS := Rows([], [], [], [], [])

  function Together(a: Rows, b: Rows): Rows {
    Rows(a.hosts + b.hosts, a.guests + b.guests, a.sites + b.sites, a.subdomains + b.subdomains, a.proxies + b.proxies)
  }

  function RowOf(ins: Insert): Rows {
    match ins
    case IntoHosts(r) => NO_ROWS.(hosts := [r])
    case IntoGuests(r) => NO_ROWS.(guests := [r])
    case IntoSites(r) => NO_ROWS.(sites := [r])
    case IntoSubdomains(r) => NO_ROWS.(subdomains := [r])
    case IntoProxyOwner(r) => NO_ROWS.(proxies := [r])
  }

  function RowsIn(script: seq<Insert>): Rows {
    if script == [] then NO_ROWS else Together(RowOf(script[0]), RowsIn(script[1..]))
  }

  function AddRows(t: Tables, rows: Rows): Tables {
    Tables(t.meta, t.hosts + rows.hosts, t.guests + rows.guests, t.sites + rows.sites,
           t.subdomains + rows.subdomains, t.proxyOwner + rows.proxies)
  }

  /** The tables with every row of the script added. */
  function PutAll(t: Tables, script: seq<Insert>): Tables {
    AddRows(t, RowsIn(script))
  }

  /** No host row comes after a guest row. */
  ghost predicate HostsFirst(script: seq<Insert>) {
    forall i, j :: 0 <= i < j < |script| && script[i].IntoGuests? ==> !script[j].IntoHosts?
  }

  lemma ReferencedAfter(t: Tables, ins: Insert)
    requires Referenced(t)
    ensures Referenced(Put(t, ins)) <==> (ins.IntoGuests? ==> ins.guest.host in Map(t.hosts, RowHostName()))
  {
    match ins
    case IntoHosts(r) =>
      MapConcat(t.hosts, [r], RowHostName());
    case IntoGuests(r) =>
      assert Put(t, ins).guests == t.guests + [r] && r in t.guests + [r];
      assert forall g :: g in t.guests + [r] <==> g in t.guests || g == r;
    case _ =>
  }

  lemma UniqueColumn<T, U>(rows: seq<T>, r: T, column: T -> U)
    ensures NoDuplicates(Map(rows + [r], column)) <==>
            NoDuplicates(Map(rows, column)) && column(r) !in Map(rows, column)
  {
    MapConcat(rows, [r], column);
    assert Map([r], column) == [column(r)];
    NoDuplicatesAppend(Map(rows, column), column(r));
  }

  lemma UniqueAfter(t: Tables, ins: Insert)
    requires Unique(t)
    ensures Unique(Put(t, ins)) && (ins.IntoGuests? ==> ins.guest.host in Map(t.hosts, RowHostName())) <==> Fits(t, ins)
  {
    match ins
    case IntoHosts(r) =>
      UniqueColumn(t.hosts, r, RowHostName());
    case IntoGuests(r) =>
      UniqueColumn(t.guests, r, RowGuestName());
      UniqueColumn(t.guests, r, RowGuestVmid());
      assert Put(t, ins) == t.(guests := t.guests + [r]);
    case IntoSites(r) =>
      UniqueColumn(t.sites, r, RowSiteName());
    case IntoSubdomains(r) =>
      UniqueColumn(t.subdomains, r, RowSubdomain());
    case IntoProxyOwner(r) =>
  }

  /** An added row is refused exactly when the tables would no longer be consistent. */
  lemma FitsExactlyWhen(t: Tables, ins: Insert)
    requires Consistent(t)
    ensures Fits(t, ins) <==> Consistent(Put(t, ins))
  {
    UniqueAfter(t, ins);
    ReferencedAfter(t, ins);
  }

  lemma TogetherIsAssociative(a: Rows, b: Rows, c: Rows)
    ensures Together(Together(a, b), c) == Together(a, Together(b, c))
  {
  }

  lemma AddTogether(t: Tables, a: Rows, b: Rows)
    ensures AddRows(AddRows(t, a), b) == AddRows(t, Together(a, b))
  {
  }

  lemma PutAllStep(t: Tables, script: seq<Insert>)
    requires script != []
    ensures PutAll(t, script) == PutAll(Put(t, script[0]), script[1..])
  {
    AddTogether(t, RowOf(script[0]), RowsIn(script[1..]));
    PutIsAddRows(t, script[0]);
  }

  lemma PutIsAddRows(t: Tables, ins: Insert)
    ensures Put(t, ins) == AddRows(t, RowOf(ins))
  {
  }

  lemma UniqueColumnBefore<T, U>(a: seq<T>, b: seq<T>, column: T -> U)
    requires NoDuplicates(Map(a + b, column))
    ensures NoDuplicates(Map(a, column))
  {
    MapConcat(a, b, column);
    NoDuplicatesPrefix(Map(a, column), Map(b, column));
  }

  /** Rows only come in: what is not unique before stays so. */
  lemma UniqueBefore(t: Tables, rows: Rows)
    requires Unique(AddRows(t, rows))
    ensures Unique(t)
  {
    UniqueColumnBefore(t.hosts, rows.hosts, RowHostName());
    UniqueColumnBefore(t.guests, rows.guests, RowGuestName());
    UniqueColumnBefore(t.guests, rows.guests, RowGuestVmid());
    UniqueColumnBefore(t.sites, rows.sites, RowSiteName());
    UniqueColumnBefore(t.subdomains, rows.subdomains, RowSubdomain());
  }

  lemma {:induction false} NoHostRows(script: seq<Insert>)
    ensures RowsIn(script).hosts == [] <==> forall i :: 0 <= i < |script| ==> !script[i].IntoHosts?
  {
    if script != [] {
      NoHostRows(script[1..]);
      assert forall i :: 0 <= i < |script[1..]| ==> script[1..][i] == script[i + 1];
      assert forall i :: 1 <= i < |script| ==> script[i] == script[1..][i - 1];
    }
  }

  lemma {:induction false} NoGuestRows(script: seq<Insert>)
    ensures RowsIn(script).guests == [] <==> forall i :: 0 <= i < |script| ==> !script[i].IntoGuests?
  {
    if script != [] {
      NoGuestRows(script[1..]);
      assert forall i :: 0 <= i < |script[1..]| ==> script[1..][i] == script[i + 1];
      assert forall i :: 1 <= i < |script| ==> script[i] == script[1..][i - 1];
    }
  }

  lemma ReferencedBefore(t: Tables, script: seq<Insert>)
    requires script != [] && HostsFirst(script) && script[0].IntoGuests? && Referenced(PutAll(t, script))
    ensures script[0].guest.host in Map(t.hosts, RowHostName())
  {
    assert forall i :: 0 <= i < |script| ==> !script[i].IntoHosts?;
    NoHostRows(script);
    var guest := script[0].guest;
    assert RowsIn(script).guests == [guest] + RowsIn(script[1..]).guests;
    assert guest in t.guests + ([guest] + RowsIn(script[1..]).guests);
    assert t.hosts + [] == t.hosts;
  }

  lemma UnfitStaysUnfit(t: Tables, script: seq<Insert>)
    requires script != [] && HostsFirst(script) && Consistent(t) && !Fits(t, script[0])
    ensures !Consistent(PutAll(t, script))
  {
    var ins := script[0];
    UniqueAfter(t, ins);
    PutAllStep(t, script);
    if ins.IntoGuests? && ins.guest.host !in Map(t.hosts, RowHostName()) {
      if Referenced(PutAll(t, script)) { ReferencedBefore(t, script); }
    } else {
      assert !Unique(Put(t, ins));
      if Unique(PutAll(t, script)) { UniqueBefore(Put(t, ins), RowsIn(script[1..])); }
    }
  }

  /** A transaction that fills hosts before guests succeeds exactly when the tables it aims at are consistent. */
  lemma {:induction false} RunExactlyWhen(t: Tables, script: seq<Insert>)
    requires Consistent(t) && HostsFirst(script)
    ensures Run(t, script).Ok? <==> Consistent(PutAll(t, script))
    ensures Run(t, script).Ok? ==> Run(t, script).value == PutAll(t, script)
    decreases |script|
  {
    if script == [] {
      assert PutAll(t, script) == t;
    } else {
      PutAllStep(t, script);
      if Fits(t, script[0]) {
        FitsExactlyWhen(t, script[0]);
        RunExactlyWhen(Put(t, script[0]), script[1..]);
      } else {
        UnfitStaysUnfit(t, script);
      }
    }
  }

  lemma {:induction false} RunConcat(t: Tables, a: seq<Insert>, b: seq<Insert>)
    ensures Run(t, a + b) == if Run(t, a).Ok? then Run(Run(t, a).value, b) else Run(t, a)
    decreases |a|
  {
    if a == [] {
      assert a + b == b;
    } else {
      assert (a + b)[1..] == a[1..] + b;
      if Fits(t, a[0]) { RunConcat(Put(t, a[0]), a[1..], b); }
    }
  }

  // ---- What the script of an inventory aims at ----

  lemma {:induction false} RowsConcat(a: seq<Insert>, b: seq<Insert>)
    ensures RowsIn(a + b) == Together(RowsIn(a), RowsIn(b))
  {
    if a == [] {
      assert a + b == b;
    } else {
      assert (a + b)[1..] == a[1..] + b;
      RowsConcat(a[1..], b);
      TogetherIsAssociative(RowOf(a[0]), RowsIn(a[1..]), RowsIn(b));
    }
  }

  lemma {:induction false} SubdomainRows(rows: seq<SubdomainRow>)
    ensures RowsIn(Map(rows, IntoSubdomainsOf())) == NO_ROWS.(subdomains := rows)
  {
    if rows != [] {
      SubdomainRows(rows[1..]);
      assert Map(rows, IntoSubdomainsOf())[1..] == Map(rows[1..], IntoSubdomainsOf());
      assert [rows[0]] + rows[1..] == rows;
    }
  }

  lemma {:induction false} ProxyRows(rows: seq<ProxyRow>)
    ensures RowsIn(Map(rows, IntoProxyOwnerOf())) == NO_ROWS.(proxies := rows)
  {
    if rows != [] {
      ProxyRows(rows[1..]);
      assert Map(rows, IntoProxyOwnerOf())[1..] == Map(rows[1..], IntoProxyOwnerOf());
      assert [rows[0]] + rows[1..] == rows;
    }
  }

  function Owned(subdomains: seq<SubdomainRow>, proxies: seq<ProxyRow>): Rows {
    Rows([], [], [], subdomains, proxies)
  }

  lemma OwnedTogether(subdomains: seq<SubdomainRow>, proxies: seq<ProxyRow>)
    ensures Together(NO_ROWS.(proxies := proxies), NO_ROWS.(subdomains := subdomains)) == Owned(subdomains, proxies)
  {
    assert [] + subdomains == subdomains && proxies + [] == proxies;
  }

  lemma OwnedInsertRows(e: Entry)
    ensures RowsIn(OwnedInserts(e)) == Owned(SubdomainRowsOf()(e), ProxyRowsOf()(e))
  {
    RowsConcat(Map(ProxyRowsOf()(e), IntoProxyOwnerOf()), Map(SubdomainRowsOf()(e), IntoSubdomainsOf()));
    SubdomainRows(SubdomainRowsOf()(e));
    ProxyRows(ProxyRowsOf()(e));
    OwnedTogether(SubdomainRowsOf()(e), ProxyRowsOf()(e));
  }

  /** An entry's own row, then the rows it owns, then what follows. */
  lemma EntryRows(own: Insert, e: Entry, rest: seq<Insert>)
    ensures RowsIn([own] + OwnedInserts(e) + rest)
         == Together(RowOf(own), Together(Owned(SubdomainRowsOf()(e), ProxyRowsOf()(e)), RowsIn(rest)))
  {
    OwnedInsertRows(e);
    RowsConcat(OwnedInserts(e), rest);
    FirstRow(own, OwnedInserts(e) + rest);
    assert [own] + OwnedInserts(e) + rest == [own] + (OwnedInserts(e) + rest);
  }

  lemma FirstRow(own: Insert, rest: seq<Insert>)
    ensures RowsIn([own] + rest) == Together(RowOf(own), RowsIn(rest))
  {
    assert ([own] + rest)[1..] == rest;
  }

  /** The subdomain and proxy rows of entries. */
  function OwnedRows(entries: seq<Entry>): Rows {
    Owned(Flat(entries, SubdomainRowsOf()), Flat(entries, ProxyRowsOf()))
  }

  lemma OwnedRowsStep(entries: seq<Entry>)
    requires entries != []
    ensures OwnedRows(entries) == Owned(SubdomainRowsOf()(entries[0]) + Flat(entries[1..], SubdomainRowsOf()),
                                        ProxyRowsOf()(entries[0]) + Flat(entries[1..], ProxyRowsOf()))
  {
  }

  lemma StepTogether(own: Rows, subdomains: seq<SubdomainRow>, proxies: seq<ProxyRow>, rest: Rows)
    requires own.subdomains == [] && own.proxies == []
    ensures Together(own, Together(Owned(subdomains, proxies), rest))
         == Rows(own.hosts + rest.hosts, own.guests + rest.guests, own.sites + rest.sites, subdomains + rest.subdomains,
             proxies + rest.proxies)
  {
    assert [] + rest.hosts == rest.hosts && [] + rest.guests == rest.guests && [] + rest.sites == rest.sites;
  }

  lemma {:induction false} HostSegment(hosts: seq<Host>)
    ensures RowsIn(Flat(hosts, HostInserts())) == OwnedRows(Map(hosts, OfHost())).(hosts := Map(hosts, HostToRow()))
  {
    if hosts != [] {
      var own, e := IntoHosts(HostToRow()(hosts[0])), OfHost()(hosts[0]);
      HostSegment(hosts[1..]);
      EntryRows(own, e, Flat(hosts[1..], HostInserts()));
      assert Map(hosts, OfHost())[1..] == Map(hosts[1..], OfHost());
      OwnedRowsStep(Map(hosts, OfHost()));
      StepTogether(RowOf(own), SubdomainRowsOf()(e), ProxyRowsOf()(e), RowsIn(Flat(hosts[1..], HostInserts())));
    }
  }

  lemma {:induction false} GuestSegment(guests: seq<Guest>)
    ensures RowsIn(Flat(guests, GuestInserts()))
            == OwnedRows(Map(guests, OfGuest())).(guests := Map(guests, GuestToRow()))
  {
    if guests != [] {
      var own, e := IntoGuests(GuestToRow()(guests[0])), OfGuest()(guests[0]);
      GuestSegment(guests[1..]);
      EntryRows(own, e, Flat(guests[1..], GuestInserts()));
      assert Map(guests, OfGuest())[1..] == Map(guests[1..], OfGuest());
      OwnedRowsStep(Map(guests, OfGuest()));
      StepTogether(RowOf(own), SubdomainRowsOf()(e), ProxyRowsOf()(e), RowsIn(Flat(guests[1..], GuestInserts())));
    }
  }

  lemma {:induction false} SiteSegment(sites: seq<Site>)
    ensures RowsIn(Flat(sites, SiteInserts())) == OwnedRows(Map(sites, OfSite())).(sites := Map(sites, SiteToRow()))
  {
    if sites != [] {
      var own, e := IntoSites(SiteToRow()(sites[0])), OfSite()(sites[0]);
      SiteSegment(sites[1..]);
      EntryRows(own, e, Flat(sites[1..], SiteInserts()));
      assert Map(sites, OfSite())[1..] == Map(sites[1..], OfSite());
      OwnedRowsStep(Map(sites, OfSite()));
      StepTogether(RowOf(own), SubdomainRowsOf()(e), ProxyRowsOf()(e), RowsIn(Flat(sites[1..], SiteInserts())));
    }
  }

  /** The tables that stand for an inventory. */
  function TablesOf(meta: map<string, string>, inv: Inventory): Tables {
    Tables(meta, Map(inv.hosts, HostToRow()), Map(inv.guests, GuestToRow()), Map(inv.sites.GetOr([]), SiteToRow()),
           Flat(Entries(inv), SubdomainRowsOf()), Flat(Entries(inv), ProxyRowsOf()))
  }

  function Cleared(meta: map<string, string>): Tables {
    Tables(meta, [], [], [], [], [])
  }

  lemma EntriesColumn<U>(inv: Inventory, rows: Entry -> seq<U>)
    ensures Flat(Entries(inv), rows)
         == Flat(Map(inv.hosts, OfHost()), rows) + Flat(Map(inv.guests, OfGuest()), rows)
             + Flat(Map(inv.sites.GetOr([]), OfSite()), rows)
  {
    var hosts, guests := Map(inv.hosts, OfHost()), Map(inv.guests, OfGuest());
    FlatConcat(hosts + guests, Map(inv.sites.GetOr([]), OfSite()), rows);
    FlatConcat(hosts, guests, rows);
  }

  lemma ScriptRows(inv: Inventory)
    ensures RowsIn(Script(inv)) == Together(Together(
              RowsIn(Flat(inv.hosts, HostInserts())), RowsIn(Flat(inv.guests, GuestInserts()))),
              RowsIn(Flat(inv.sites.GetOr([]), SiteInserts())))
  {
    RowsConcat(Flat(inv.hosts, HostInserts()) + Flat(inv.guests, GuestInserts()),
        Flat(inv.sites.GetOr([]), SiteInserts()));
    RowsConcat(Flat(inv.hosts, HostInserts()), Flat(inv.guests, GuestInserts()));
  }

  lemma FillTables(meta: map<string, string>, h: Rows, g: Rows, s: Rows)
    requires h.guests == [] && h.sites == [] && g.hosts == [] && g.sites == [] && s.hosts == [] && s.guests == []
    ensures AddRows(Cleared(meta), Together(Together(h, g), s))
         == Tables(meta, h.hosts, g.guests, s.sites, h.subdomains + g.subdomains + s.subdomains,
             h.proxies + g.proxies + s.proxies)
  {
    assert [] + (h.hosts + [] + []) == h.hosts && [] + ([] + g.guests + []) == g.guests
        && [] + ([] + [] + s.sites) == s.sites;
    assert [] + (h.subdomains + g.subdomains + s.subdomains) == h.subdomains + g.subdomains + s.subdomains;
    assert [] + (h.proxies + g.proxies + s.proxies) == h.proxies + g.proxies + s.proxies;
  }

  /** The inserts of a save, run on cleared tables, aim at the tables that stand for the inventory. */
  lemma ScriptFillsTheTables(meta: map<string, string>, inv: Inventory)
    ensures PutAll(Cleared(meta), Script(inv)) == TablesOf(meta, inv)
  {
    ScriptRows(inv);
    HostSegment(inv.hosts);
    GuestSegment(inv.guests);
    SiteSegment(inv.sites.GetOr([]));
    EntriesColumn(inv, SubdomainRowsOf());
    EntriesColumn(inv, ProxyRowsOf());
    FillTables(meta, RowsIn(Flat(inv.hosts, HostInserts())), RowsIn(Flat(inv.guests, GuestInserts())),
               RowsIn(Flat(inv.sites.GetOr([]), SiteInserts())));
  }

  lemma HostsThenOthers(hosts: seq<Insert>, guests: seq<Insert>, sites: seq<Insert>)
    requires RowsIn(hosts).guests == [] && RowsIn(guests).hosts == [] && RowsIn(sites).hosts == []
    ensures HostsFirst(hosts + guests + sites)
  {
    NoGuestRows(hosts);
    NoHostRows(guests);
    NoHostRows(sites);
  }

  lemma ScriptPutsHostsFirst(inv: Inventory)
    ensures HostsFirst(Script(inv))
  {
    HostSegment(inv.hosts);
    GuestSegment(inv.guests);
    SiteSegment(inv.sites.GetOr([]));
    HostsThenOthers(Flat(inv.hosts, HostInserts()), Flat(inv.guests, GuestInserts()),
        Flat(inv.sites.GetOr([]), SiteInserts()));
  }

  /** The transaction succeeds exactly when the tables it aims at keep the keys, and then leaves exactly those. */
  lemma SaveRunsExactlyWhen(meta: map<string, string>, inv: Inventory)
    ensures Run(Cleared(meta), Script(inv)).Ok? <==> Consistent(TablesOf(meta, inv))
    ensures Run(Cleared(meta), Script(inv)).Ok? ==> Run(Cleared(meta), Script(inv)).value == TablesOf(meta, inv)
  {
    ScriptPutsHostsFirst(inv);
    ScriptFillsTheTables(meta, inv);
    RunExactlyWhen(Cleared(meta), Script(inv));
  }
}
