/**
 Reconciling the inventory's guests with what the hosts list (src/commands/maintenance/sync-inventory.ts).

 The hosts' answers are a function of the query.  Guests and the inventory are those of InventoryModel.
 */
module SyncInventory {
  import opened Wrappers
  import opened Text
  import opened Ordering
  import opened InventoryModel
  import GuestVpn

  // ---- The address in a network setting ----

  function UpTo(s: string, sep: char): string {
    Split(s, sep)[0]
  }

  /** The value of the first ip field, without its mask; empty if there is none. */
  function IpOf(net: string): string {
    UpTo(GuestVpn.GetKey(net, "ip").GetOr(""), '/')
  }

  /** extractIp. */
  method ExtractIp(net: string) returns (ip: string)
    ensures ip == IpOf(net)
  {
    var parts := Split(net, ',');
    for i := 0 to |parts|
      invariant forall j :: 0 <= j < i ==> !StartsWith(parts[j], "ip=")
    {
      if StartsWith(parts[i], "ip=") {
        assert "ip" + "=" == "ip=";
        GuestVpn.IndexOfKeyIs(parts, "ip", i);
        return UpTo(parts[i][|"ip="|..], '/');
      }
    }
    assert "ip" + "=" == "ip=";
    return "";
  }

  /** An address set with a mask, in a container's net0 or a VM's ipconfig0, is the address the next sync reads. */
  lemma AddressIsReadBack(field: string, ip: string, mask: string)
    requires ',' !in ip && '/' !in ip && ',' !in mask
    ensures IpOf(GuestVpn.SetNet0Ip(field, ip + "/" + mask)) == ip
            && IpOf(GuestVpn.SetIpconfig0Ip(field, ip + "/" + mask)) == ip
  {
    GuestVpn.GetReadsBackExactlyCommaFreeValues(field, "ip", ip + "/" + mask);
    SplitAtFirst(ip, mask, '/');
    assert ip + "/" + mask == ip + ['/'] + mask;
  }

  // ---- What the hosts answer ----

  datatype Entry = Entry(name: string, vmid: int, template: bool)

  /** The list of one guest type on one host; a malformed one makes the whole run throw. */
  datatype Reply = Unanswered | Blank | Malformed | Listed(entries: seq<Entry>)

  /** One guest's configuration: not readable, or its network field if it has one. */
  datatype Config = NoConfig | HasConfig(net: Option<string>)

  datatype World = World(list: (string, GuestType) -> Reply, config: (string, GuestType, int) -> Config)

  type Key = (string, int)

  function KeyOf(): Guest -> Key { (g: Guest) => (g.host, g.vmid) }

  // ---- The specification ----

  /** A listed guest that is no template. */
  datatype Item = Item(host: string, kind: GuestType, entry: Entry)

  function ItemKey(): Item -> Key { (item: Item) => (item.host, item.entry.vmid) }

  function ItemsOf(host: string, kind: GuestType): Entry -> seq<Item> {
    (e: Entry) => if e.template then [] else [Item(host, kind, e)]
  }

  function FoundIn(w: World): ((string, GuestType)) -> seq<Item> {
    (q: (string, GuestType)) => match w.list(q.0, q.1)
      case Listed(entries) => Flat(entries, ItemsOf(q.0, q.1))
      case _ => []
  }

  /** The queries of a run, in order. */
  function BothTypes(): Host -> seq<(string, GuestType)> {
    (h: Host) => [(h.name, Lxc), (h.name, Vm)]
  }

  function Queries(hosts: seq<Host>): seq<(string, GuestType)> {
    Flat(hosts, BothTypes())
  }

  function Found(inv: Inventory, w: World): seq<Item> {
    Flat(Queries(inv.hosts), FoundIn(w))
  }

  function Find(guests: seq<Guest>, key: Key): Option<Guest> {
    if guests == [] then None
    else if (guests[0].host, guests[0].vmid) == key then Some(guests[0])
    else Find(guests[1..], key)
  }

  function ReadIp(net: Option<string>): Option<string> {
    if net.GetOr("") == "" || IpOf(net.value) == "" then None else Some(IpOf(net.value))
  }

  function NewGuest(item: Item, ip: Option<string>): Guest {
    PlainGuest(item.entry.name, item.kind, item.entry.vmid, item.host, ip)
  }

  /** The entry a listed guest becomes: the recorded one with its type and address refreshed, or a new one. */
  function Reconciled(guests: seq<Guest>, w: World): Item -> Guest {
    (item: Item) =>
      match (Find(guests, ItemKey()(item)), w.config(item.host, item.kind, item.entry.vmid))
      case (Some(g), NoConfig) => g
      case (None, NoConfig) => NewGuest(item, None)
      case (Some(g), HasConfig(net)) => g.(kind := item.kind, ip := ReadIp(net))
      case (None, HasConfig(net)) => NewGuest(item, ReadIp(net))
  }

  function AddedBy(guests: seq<Guest>, w: World): Item -> seq<Guest> {
    (item: Item) => if Find(guests, ItemKey()(item)).None? then [Reconciled(guests, w)(item)] else []
  }

  /** What a summary lists as updated: an absent address counts as a blank one. */
  function UpdatedBy(guests: seq<Guest>, w: World): Item -> seq<Guest> {
    (item: Item) =>
      match Find(guests, ItemKey()(item))
      case None => []
      case Some(g) =>
        var r := Reconciled(guests, w)(item);
        if r.kind != g.kind || r.ip.GetOr("") != g.ip.GetOr("") then [r] else []
  }

  predicate Unreached(q: (string, GuestType), hosts: seq<Host>, w: World) {
    q in Queries(hosts) && w.list(q.0, q.1).Unanswered?
  }

  /** Guests kept as they are, because their host did not answer for their recorded type. */
  function RetainedOf(inv: Inventory, w: World): Guest -> seq<Guest> {
    (g: Guest) => if Unreached((g.host, g.kind), inv.hosts, w) then [g] else []
  }

  function RemovedOf(inv: Inventory, w: World): Guest -> seq<Guest> {
    (g: Guest) => if !Unreached((g.host, g.kind), inv.hosts, w) && KeyOf()(g) !in Map(Found(inv, w), ItemKey()) then [g]
        else []
  }

  datatype Outcome = Outcome(guests: seq<Guest>, added: seq<Guest>, updated: seq<Guest>, removed: seq<Guest>)

  function Synced(inv: Inventory, w: World): Outcome {
    var found := Found(inv, w);
    Outcome(Map(found, Reconciled(inv.guests, w)) + Flat(inv.guests, RetainedOf(inv, w)),
            Flat(found, AddedBy(inv.guests, w)), Flat(found, UpdatedBy(inv.guests, w)),
                Flat(inv.guests, RemovedOf(inv, w)))
  }

  ghost predicate Throws(inv: Inventory, w: World) {
    exists q :: q in Queries(inv.hosts) && w.list(q.0, q.1).Malformed?
  }

  // ---- The code ----

  method FetchAddress(item: Item, w: World) returns (config: Config, ip: Option<string>)
    ensures config == w.config(item.host, item.kind, item.entry.vmid)
    ensures config.HasConfig? ==> ip == ReadIp(config.net)
  {
    config := w.config(item.host, item.kind, item.entry.vmid);
    ip := None;
    if config.HasConfig? && config.net.GetOr("") != "" {
      var text := ExtractIp(config.net.value);
      ip := if text == "" then None else Some(text);
    }
  }

  /** The body of the innermost loop, for a listed guest that is no template. */
  method Reconcile(guests: seq<Guest>, item: Item, w: World)
    returns (entry: Guest, added: seq<Guest>, updated: seq<Guest>)
    ensures entry == Reconciled(guests, w)(item)
    ensures added == AddedBy(guests, w)(item) && updated == UpdatedBy(guests, w)(item)
  {
    var existing := Find(guests, (item.host, item.entry.vmid));
    var config, ip := FetchAddress(item, w);
    added, updated := [], [];
    if config == NoConfig {
      entry := if existing.Some? then existing.value else NewGuest(item, None);
      added := if existing.Some? then [] else [entry];
      return;
    }
    if existing.Some? {
      var g := existing.value;
      entry := g.(kind := item.kind, ip := ip);
      if g.kind != item.kind || g.ip.GetOr("") != ip.GetOr("") { updated := [entry]; }
    } else {
      entry := NewGuest(item, ip);
      added := [entry];
    }
  }

  /** The three lists a run grows, and the keys it has matched. */
  datatype Progress = Progress(guests: seq<Guest>, added: seq<Guest>, updated: seq<Guest>, matched: set<Key>)

  const NOTHING := Progress([], [], [], {})

  function Note(p: Progress, guests: seq<Guest>, item: Item, w: World): Progress {
    Progress(p.guests + [Reconciled(guests, w)(item)], p.added + AddedBy(guests, w)(item),
             p.updated + UpdatedBy(guests, w)(item), p.matched + {ItemKey()(item)})
  }

  function NoteAll(p: Progress, guests: seq<Guest>, items: seq<Item>, w: World): Progress {
    if items == [] then p else Note(NoteAll(p, guests, items[..|items| - 1], w), guests, items[|items| - 1], w)
  }

  lemma NoteOneMore(p: Progress, guests: seq<Guest>, items: seq<Item>, item: Item, w: World)
    ensures NoteAll(p, guests, items + [item], w) == Note(NoteAll(p, guests, items, w), guests, item, w)
  {
    assert (items + [item])[..|items|] == items;
  }

  lemma {:induction false} NoteConcat(p: Progress, guests: seq<Guest>, a: seq<Item>, b: seq<Item>, w: World)
    ensures NoteAll(NoteAll(p, guests, a, w), guests, b, w) == NoteAll(p, guests, a + b, w)
  {
    if b == [] {
      assert a + b == a;
    } else {
      var before, last := b[..|b| - 1], b[|b| - 1];
      NoteConcat(p, guests, a, before, w);
      NoteOneMore(p, guests, a + before, last, w);
      assert a + b == a + before + [last];
    }
  }

  /** What the loops have noted after all items. */
  lemma {:induction false} NotedAre(guests: seq<Guest>, items: seq<Item>, w: World)
    ensures var p := NoteAll(NOTHING, guests, items, w);
            && p.guests == Map(items, Reconciled(guests, w)) && p.added == Flat(items, AddedBy(guests, w))
            && p.updated == Flat(items, UpdatedBy(guests, w))
                && (forall k :: k in p.matched <==> k in Map(items, ItemKey()))
  {
    if items != [] {
      var n := |items| - 1;
      NotedAre(guests, items[..n], w);
      assert items[..n + 1] == items;
      MapSnoc(items, n, Reconciled(guests, w));
      MapSnoc(items, n, ItemKey());
      FlatSnoc(items, n, AddedBy(guests, w));
      FlatSnoc(items, n, UpdatedBy(guests, w));
    }
  }

  method NoteListed(p: Progress, guests: seq<Guest>, item: Item, w: World) returns (q: Progress)
    ensures q == Note(p, guests, item, w)
  {
    var entry, added, updated := Reconcile(guests, item, w);
    q := Progress(p.guests + [entry], p.added + added, p.updated + updated, p.matched + {(item.host, item.entry.vmid)});
  }

  lemma ListStep(start: Progress, guests: seq<Guest>, host: string, kind: GuestType, entries: seq<Entry>, i: nat,
      w: World)
    requires i < |entries|
    ensures var before := NoteAll(start, guests, Flat(entries[..i], ItemsOf(host, kind)), w);
            NoteAll(start, guests, Flat(entries[..i + 1], ItemsOf(host, kind)), w)
            == if entries[i].template then before else Note(before, guests, Item(host, kind, entries[i]), w)
  {
    FlatSnoc(entries, i, ItemsOf(host, kind));
    var before := Flat(entries[..i], ItemsOf(host, kind));
    if entries[i].template {
      assert ItemsOf(host, kind)(entries[i]) == [];
      assert before + [] == before;
    } else {
      assert ItemsOf(host, kind)(entries[i]) == [Item(host, kind, entries[i])];
      NoteOneMore(start, guests, before, Item(host, kind, entries[i]), w);
    }
  }

  method ReconcileList(guests: seq<Guest>, host: string, kind: GuestType, entries: seq<Entry>, w: World,
      start: Progress)
    returns (p: Progress)
    ensures p == NoteAll(start, guests, Flat(entries, ItemsOf(host, kind)), w)
  {
    p := start;
    for i := 0 to |entries|
      invariant p == NoteAll(start, guests, Flat(entries[..i], ItemsOf(host, kind)), w)
    {
      ListStep(start, guests, host, kind, entries, i, w);
      if entries[i].template { continue; }
      p := NoteListed(p, guests, Item(host, kind, entries[i]), w);
    }
    assert entries[..|entries|] == entries;
  }

  /** The reconcile loops; None is a run that throws. */
  method Sync(inv: Inventory, w: World) returns (r: Option<Outcome>)
    ensures r.None? <==> Throws(inv, w)
    ensures r.Some? ==> r.value == Synced(inv, w)
  {
    var ok, p, failed := ReconcileAll(inv, w);
    if !ok { return None; }
    NotedAre(inv.guests, Found(inv, w), w);
    var retained, removed := CheckRemovals(inv, w, failed, p.matched);
    r := Some(Outcome(p.guests + retained, p.added, p.updated, removed));
  }

  lemma QueryStep(guests: seq<Guest>, queries: seq<(string, GuestType)>, i: nat, w: World)
    requires i < |queries|
    ensures NoteAll(NOTHING, guests, Flat(queries[..i + 1], FoundIn(w)), w)
         == NoteAll(NoteAll(NOTHING, guests, Flat(queries[..i], FoundIn(w)), w), guests, FoundIn(w)(queries[i]), w)
  {
    FlatSnoc(queries, i, FoundIn(w));
    NoteConcat(NOTHING, guests, Flat(queries[..i], FoundIn(w)), FoundIn(w)(queries[i]), w);
  }

  /** One list query, and the loop over what it lists. */
  method RunQuery(guests: seq<Guest>, q: (string, GuestType), w: World, start: Progress)
    returns (ok: bool, p: Progress, unanswered: bool)
    ensures ok <==> !w.list(q.0, q.1).Malformed?
    ensures p == NoteAll(start, guests, FoundIn(w)(q), w) && unanswered == w.list(q.0, q.1).Unanswered?
  {
    ok, p, unanswered := true, start, false;
    match w.list(q.0, q.1) {
      case Unanswered => unanswered := true;
      case Blank =>
      case Malformed => ok := false;
      case Listed(entries) => p := ReconcileList(guests, q.0, q.1, entries, w, p);
    }
  }

  lemma InOneMore<T>(s: seq<T>, i: nat)
    requires i < |s|
    ensures forall x :: x in s[..i + 1] <==> x in s[..i] || x == s[i]
  {
    assert s[..i + 1] == s[..i] + [s[i]];
  }

  method ReconcileAll(inv: Inventory, w: World) returns (ok: bool, p: Progress, failed: set<(string, GuestType)>)
    ensures ok <==> !Throws(inv, w)
    ensures ok ==> p == NoteAll(NOTHING, inv.guests, Found(inv, w), w) && forall q :: q in failed <==>
            Unreached(q, inv.hosts, w)
  {
    ok, p, failed := true, NOTHING, {};
    var queries := Queries(inv.hosts);
    for i := 0 to |queries|
      invariant p == NoteAll(NOTHING, inv.guests, Flat(queries[..i], FoundIn(w)), w)
      invariant forall q :: q in failed <==> q in queries[..i] && w.list(q.0, q.1).Unanswered?
      invariant forall q :: q in queries[..i] ==> !w.list(q.0, q.1).Malformed?
    {
      QueryStep(inv.guests, queries, i, w);
      InOneMore(queries, i);
      var answered, next, unanswered := RunQuery(inv.guests, queries[i], w, p);
      if !answered {
        assert queries[i] in queries;
        return false, p, failed;
      }
      p := next;
      if unanswered { failed := failed + {queries[i]}; }
    }
    assert queries[..|queries|] == queries;
  }

  /** The last loop, over the recorded guests. */
  method CheckRemovals(inv: Inventory, w: World, failed: set<(string, GuestType)>, matched: set<Key>)
    returns (retained: seq<Guest>, removed: seq<Guest>)
    requires forall q :: q in failed <==> Unreached(q, inv.hosts, w)
    requires forall k :: k in matched <==> k in Map(Found(inv, w), ItemKey())
    ensures retained == Flat(inv.guests, RetainedOf(inv, w)) && removed == Flat(inv.guests, RemovedOf(inv, w))
  {
    retained, removed := [], [];
    for i := 0 to |inv.guests|
      invariant retained == Flat(inv.guests[..i], RetainedOf(inv, w))
      invariant removed == Flat(inv.guests[..i], RemovedOf(inv, w))
    {
      var guest := inv.guests[i];
      FlatSnoc(inv.guests, i, RetainedOf(inv, w));
      FlatSnoc(inv.guests, i, RemovedOf(inv, w));
      assert KeyOf()(guest) == (guest.host, guest.vmid);
      if (guest.host, guest.kind) in failed {
        retained := retained + [guest];
        continue;
      }
      if (guest.host, guest.vmid) !in matched { removed := removed + [guest]; }
    }
    assert inv.guests[..|inv.guests|] == inv.guests;
  }

  // ---- What a run promises ----

  /** The database's key: no two recorded guests share host and VMID. */
  ghost predicate DistinctGuests(inv: Inventory) {
    NoDuplicates(Map(inv.guests, KeyOf()))
  }

  lemma {:induction false} FindIs(guests: seq<Guest>, key: Key)
    ensures Find(guests, key).Some? <==> key in Map(guests, KeyOf())
    ensures Find(guests, key).Some? ==> Find(guests, key).value in guests && KeyOf()(Find(guests, key).value) == key
  {
    if guests != [] {
      FindIs(guests[1..], key);
      assert Map(guests, KeyOf()) == [KeyOf()(guests[0])] + Map(guests[1..], KeyOf());
    }
  }

  lemma OneGuestPerKey(guests: seq<Guest>, i: nat, j: nat)
    requires NoDuplicates(Map(guests, KeyOf())) && i < |guests| && j < |guests|
            && KeyOf()(guests[i]) == KeyOf()(guests[j])
    ensures i == j
  {
    var keys := Map(guests, KeyOf());
    assert keys[i] == KeyOf()(guests[i]) && keys[j] == KeyOf()(guests[j]);
  }

  lemma FindsIt(inv: Inventory, g: Guest)
    requires DistinctGuests(inv) && g in inv.guests
    ensures Find(inv.guests, KeyOf()(g)) == Some(g)
  {
    var i :| 0 <= i < |inv.guests| && inv.guests[i] == g;
    assert Map(inv.guests, KeyOf())[i] == KeyOf()(g);
    FindIs(inv.guests, KeyOf()(g));
    var f := Find(inv.guests, KeyOf()(g)).value;
    var j :| 0 <= j < |inv.guests| && inv.guests[j] == f;
    OneGuestPerKey(inv.guests, i, j);
  }

  lemma ReconciledKeepsTheKey(guests: seq<Guest>, item: Item, w: World)
    ensures KeyOf()(Reconciled(guests, w)(item)) == ItemKey()(item)
  {
    FindIs(guests, ItemKey()(item));
  }

  lemma FoundKeys(found: seq<Item>, guests: seq<Guest>, w: World)
    ensures Map(Map(found, Reconciled(guests, w)), KeyOf()) == Map(found, ItemKey())
  {
    forall i | 0 <= i < |found| ensures KeyOf()(Reconciled(guests, w)(found[i])) == ItemKey()(found[i]) {
      ReconciledKeepsTheKey(guests, found[i], w);
    }
  }

  /** The keys of the result: those listed, then those retained. */
  lemma ResultKeys(inv: Inventory, w: World)
    ensures Map(Synced(inv, w).guests, KeyOf())
         == Map(Found(inv, w), ItemKey()) + Map(Flat(inv.guests, RetainedOf(inv, w)), KeyOf())
  {
    FoundKeys(Found(inv, w), inv.guests, w);
    MapConcat(Map(Found(inv, w), Reconciled(inv.guests, w)), Flat(inv.guests, RetainedOf(inv, w)), KeyOf());
  }

  lemma {:induction false} SelectedAre(guests: seq<Guest>, f: Guest -> seq<Guest>, p: Guest -> bool, g: Guest)
    requires forall x :: x in guests ==> f(x) == if p(x) then [x] else []
    ensures g in Flat(guests, f) <==> g in guests && p(g)
  {
    if guests != [] {
      SelectedAre(guests[1..], f, p, g);
      assert g in guests <==> g == guests[0] || g in guests[1..];
    }
  }

  lemma RetainedAre(inv: Inventory, w: World, g: Guest)
    ensures g in Flat(inv.guests, RetainedOf(inv, w)) <==> g in inv.guests && Unreached((g.host, g.kind), inv.hosts, w)
  {
    SelectedAre(inv.guests, RetainedOf(inv, w), (x: Guest) => Unreached((x.host, x.kind), inv.hosts, w), g);
  }

  /**
   A guest is removed exactly when its host answered for its recorded type, or was not asked, and its VMID is
   not listed.
   */
  lemma RemovedExactlyWhen(inv: Inventory, w: World, g: Guest)
    requires g in inv.guests
    ensures g in Synced(inv, w).removed <==>
            !Unreached((g.host, g.kind), inv.hosts, w) && KeyOf()(g) !in Map(Found(inv, w), ItemKey())
  {
    SelectedAre(inv.guests, RemovedOf(inv, w),
                (x: Guest) => !Unreached((x.host, x.kind), inv.hosts, w)
                    && KeyOf()(x) !in Map(Found(inv, w), ItemKey()), g);
  }

  /** Every recorded guest is either still in the result or in the removed list, never in both and never lost. */
  lemma KeptOrRemoved(inv: Inventory, w: World, g: Guest)
    requires DistinctGuests(inv) && g in inv.guests
    ensures KeyOf()(g) in Map(Synced(inv, w).guests, KeyOf()) <==> g !in Synced(inv, w).removed
  {
    var retained := Flat(inv.guests, RetainedOf(inv, w));
    ResultKeys(inv, w);
    RemovedExactlyWhen(inv, w, g);
    RetainedAre(inv, w, g);
    if g in retained {
      var i :| 0 <= i < |retained| && retained[i] == g;
      assert Map(retained, KeyOf())[i] == KeyOf()(g);
    }
    if KeyOf()(g) in Map(retained, KeyOf()) {
      var i :| 0 <= i < |retained| && Map(retained, KeyOf())[i] == KeyOf()(g);
      RetainedAre(inv, w, retained[i]);
      FindsIt(inv, retained[i]);
      FindsIt(inv, g);
    }
  }

  lemma KeptItem(guests: seq<Guest>, item: Item, w: World, g: Guest)
    requires Find(guests, ItemKey()(item)) == Some(g)
    ensures var r := Reconciled(guests, w)(item); r == g.(kind := r.kind, ip := r.ip)
  {
  }

  /** An entry of the result that stands for a recorded guest differs from it in type and address at most. */
  lemma KeptGuestsKeepTheRest(inv: Inventory, w: World, r: Guest, g: Guest)
    requires DistinctGuests(inv) && r in Synced(inv, w).guests && g in inv.guests && KeyOf()(r) == KeyOf()(g)
    ensures r == g.(kind := r.kind, ip := r.ip)
  {
    var retained := Flat(inv.guests, RetainedOf(inv, w));
    FindsIt(inv, g);
    if r in retained {
      RetainedAre(inv, w, r);
      FindsIt(inv, r);
    } else {
      var item := ListedAs(inv, w, r);
      ReconciledKeepsTheKey(inv.guests, item, w);
      KeptItem(inv.guests, item, w, g);
    }
  }

  lemma ListedAs(inv: Inventory, w: World, r: Guest) returns (item: Item)
    requires r in Synced(inv, w).guests && r !in Flat(inv.guests, RetainedOf(inv, w))
    ensures r == Reconciled(inv.guests, w)(item)
  {
    var found := Found(inv, w);
    var i :| 0 <= i < |found| && Map(found, Reconciled(inv.guests, w))[i] == r;
    item := found[i];
  }

  lemma {:induction false} InFlatOf(items: seq<Item>, f: Item -> seq<Guest>, r: Guest)
    ensures r in Flat(items, f) <==> exists i :: 0 <= i < |items| && r in f(items[i])
  {
    if items != [] {
      InFlatOf(items[1..], f, r);
      assert forall i :: 0 <= i < |items[1..]| ==> items[1..][i] == items[i + 1];
      if i :| 0 <= i < |items| && r in f(items[i]) { assert i > 0 ==> items[1..][i - 1] == items[i]; }
      if i :| 0 <= i < |items[1..]| && r in f(items[1..][i]) { assert items[i + 1] == items[1..][i]; }
    }
  }

  lemma AddedItem(guests: seq<Guest>, item: Item, w: World)
    ensures var r := Reconciled(guests, w)(item);
            AddedBy(guests, w)(item) == if KeyOf()(r) in Map(guests, KeyOf()) then [] else [r]
  {
    ReconciledKeepsTheKey(guests, item, w);
    FindIs(guests, ItemKey()(item));
  }

  /** An entry of the result is reported as new exactly when its host and VMID were not recorded. */
  lemma AddedExactlyWhen(inv: Inventory, w: World, r: Guest)
    requires r in Synced(inv, w).guests
    ensures r in Synced(inv, w).added <==> KeyOf()(r) !in Map(inv.guests, KeyOf())
  {
    AddedAreUnrecorded(Found(inv, w), inv.guests, w, r);
    if KeyOf()(r) !in Map(inv.guests, KeyOf()) {
      UnrecordedIsListed(inv, w, r);
      UnrecordedAreAdded(Found(inv, w), inv.guests, w, r);
    }
  }

  lemma AddedAreUnrecorded(found: seq<Item>, guests: seq<Guest>, w: World, r: Guest)
    ensures r in Flat(found, AddedBy(guests, w)) ==> KeyOf()(r) !in Map(guests, KeyOf())
  {
    InFlatOf(found, AddedBy(guests, w), r);
    if i :| 0 <= i < |found| && r in AddedBy(guests, w)(found[i]) {
      AddedItem(guests, found[i], w);
    }
  }

  lemma UnrecordedAreAdded(found: seq<Item>, guests: seq<Guest>, w: World, r: Guest)
    requires r in Map(found, Reconciled(guests, w)) && KeyOf()(r) !in Map(guests, KeyOf())
    ensures r in Flat(found, AddedBy(guests, w))
  {
    var i :| 0 <= i < |found| && Map(found, Reconciled(guests, w))[i] == r;
    AddedItem(guests, found[i], w);
    assert r in AddedBy(guests, w)(found[i]);
    InFlatOf(found, AddedBy(guests, w), r);
  }

  lemma RetainedIsRecorded(inv: Inventory, w: World, r: Guest)
    requires r in Flat(inv.guests, RetainedOf(inv, w))
    ensures KeyOf()(r) in Map(inv.guests, KeyOf())
  {
    RetainedAre(inv, w, r);
    var i :| 0 <= i < |inv.guests| && inv.guests[i] == r;
    assert Map(inv.guests, KeyOf())[i] == KeyOf()(r);
  }

  lemma UnrecordedIsListed(inv: Inventory, w: World, r: Guest)
    requires r in Synced(inv, w).guests && KeyOf()(r) !in Map(inv.guests, KeyOf())
    ensures r in Map(Found(inv, w), Reconciled(inv.guests, w))
  {
    if r in Flat(inv.guests, RetainedOf(inv, w)) { RetainedIsRecorded(inv, w, r); }
  }

  /** A listed guest is reported as updated exactly when it was recorded with another type or address. */
  lemma UpdatedExactlyWhen(inv: Inventory, w: World, r: Guest)
    requires DistinctGuests(inv)
    ensures r in Synced(inv, w).updated <==>
            && r in Map(Found(inv, w), Reconciled(inv.guests, w))
            && exists g :: g in inv.guests && KeyOf()(g) == KeyOf()(r)
                && (g.kind != r.kind || g.ip.GetOr("") != r.ip.GetOr(""))
  {
    var found := Found(inv, w);
    InFlatOf(found, UpdatedBy(inv.guests, w), r);
    if i :| 0 <= i < |found| && r in UpdatedBy(inv.guests, w)(found[i]) {
      ReconciledKeepsTheKey(inv.guests, found[i], w);
      FindIs(inv.guests, ItemKey()(found[i]));
      assert Map(found, Reconciled(inv.guests, w))[i] == r;
    }
    if g :| r in Map(found, Reconciled(inv.guests, w)) && g in inv.guests && KeyOf()(g) == KeyOf()(r)
            && (g.kind != r.kind || g.ip.GetOr("") != r.ip.GetOr("")) {
      var i :| 0 <= i < |found| && Map(found, Reconciled(inv.guests, w))[i] == r;
      ReconciledKeepsTheKey(inv.guests, found[i], w);
      FindsIt(inv, g);
      assert r in UpdatedBy(inv.guests, w)(found[i]);
    }
  }

  lemma {:induction false} SelectionIsPart(guests: seq<Guest>, f: Guest -> seq<Guest>)
    requires forall x :: x in guests ==> f(x) == [x] || f(x) == []
    ensures forall g :: g in Flat(guests, f) ==> g in guests
  {
    if guests != [] { SelectionIsPart(guests[1..], f); }
  }

  lemma KeyOfPart(part: seq<Guest>, guests: seq<Guest>, key: Key)
    requires (forall g :: g in part ==> g in guests) && key in Map(part, KeyOf())
    ensures key in Map(guests, KeyOf())
  {
    var i :| 0 <= i < |part| && Map(part, KeyOf())[i] == key;
    assert part[i] in guests;
    var j :| 0 <= j < |guests| && guests[j] == part[i];
    assert Map(guests, KeyOf())[j] == key;
  }

  lemma {:induction false} SelectionStaysDistinct(guests: seq<Guest>, f: Guest -> seq<Guest>)
    requires NoDuplicates(Map(guests, KeyOf())) && forall x :: x in guests ==> f(x) == [x] || f(x) == []
    ensures NoDuplicates(Map(Flat(guests, f), KeyOf()))
  {
    if guests != [] {
      var keys, rest := Map(guests, KeyOf()), Flat(guests[1..], f);
      NoDuplicatesStep(keys);
      assert keys[1..] == Map(guests[1..], KeyOf());
      SelectionStaysDistinct(guests[1..], f);
      if f(guests[0]) == [guests[0]] {
        var all := [keys[0]] + Map(rest, KeyOf());
        assert Map([guests[0]] + rest, KeyOf()) == all && all[1..] == Map(rest, KeyOf());
        SelectionIsPart(guests[1..], f);
        if keys[0] in Map(rest, KeyOf()) { KeyOfPart(rest, guests[1..], keys[0]); }
        NoDuplicatesStep(all);
      }
    }
  }

  /**
   The result keeps the database's key exactly when no VMID is listed twice on a host and no guest is
   listed under one type while its host did not answer for the type it is recorded with.
   */
  lemma ResultKeysAreDistinctExactlyWhen(inv: Inventory, w: World)
    requires DistinctGuests(inv)
    ensures NoDuplicates(Map(Synced(inv, w).guests, KeyOf())) <==>
            && NoDuplicates(Map(Found(inv, w), ItemKey()))
            && forall g :: g in inv.guests && Unreached((g.host, g.kind), inv.hosts, w) ==>
                KeyOf()(g) !in Map(Found(inv, w), ItemKey())
  {
    var listed, retained := Map(Found(inv, w), ItemKey()), Flat(inv.guests, RetainedOf(inv, w));
    ResultKeys(inv, w);
    SelectionStaysDistinct(inv.guests, RetainedOf(inv, w));
    NoDuplicatesConcat(listed, Map(retained, KeyOf()));
    KeysAvoidTheRetained(inv, w, listed);
  }

  lemma KeysAvoidTheRetained(inv: Inventory, w: World, keys: seq<Key>)
    ensures (forall k :: k in keys ==> k !in Map(Flat(inv.guests, RetainedOf(inv, w)), KeyOf())) <==>
            forall g :: g in inv.guests && Unreached((g.host, g.kind), inv.hosts, w) ==> KeyOf()(g) !in keys
  {
    var retained := Flat(inv.guests, RetainedOf(inv, w));
    forall g ensures g in retained <==> g in inv.guests && Unreached((g.host, g.kind), inv.hosts, w) {
      RetainedAre(inv, w, g);
    }
    forall g | g in retained ensures KeyOf()(g) in Map(retained, KeyOf()) {
      var i :| 0 <= i < |retained| && retained[i] == g;
      assert Map(retained, KeyOf())[i] == KeyOf()(g);
    }
  }

  // ---- The result carries what the hosts report ----

  lemma {:induction false} QueriesAre(hosts: seq<Host>, name: string, kind: GuestType)
    ensures (name, kind) in Queries(hosts) <==> exists h :: h in hosts && h.name == name
  {
    if hosts != [] {
      QueriesAre(hosts[1..], name, kind);
      assert Queries(hosts) == [(hosts[0].name, Lxc), (hosts[0].name, Vm)] + Queries(hosts[1..]);
      assert forall h :: h in hosts <==> h == hosts[0] || h in hosts[1..];
    }
  }

  /** What a run finds is what the hosts of the inventory list, templates apart. */
  lemma FoundExactlyWhen(inv: Inventory, w: World, item: Item)
    ensures item in Found(inv, w) <==>
            && (exists h :: h in inv.hosts && h.name == item.host)
            && w.list(item.host, item.kind).Listed? && item.entry in w.list(item.host, item.kind).entries
            && !item.entry.template
  {
    var q := (item.host, item.kind);
    QueriesAre(inv.hosts, item.host, item.kind);
    InFlatQueries(Queries(inv.hosts), w, item);
  }

  lemma {:induction false} InFlatQueries(queries: seq<(string, GuestType)>, w: World, item: Item)
    ensures item in Flat(queries, FoundIn(w)) <==>
            && (item.host, item.kind) in queries && w.list(item.host, item.kind).Listed?
            && item.entry in w.list(item.host, item.kind).entries && !item.entry.template
  {
    if queries != [] {
      var q := queries[0];
      InFlatQueries(queries[1..], w, item);
      if w.list(q.0, q.1).Listed? { InItems(w.list(q.0, q.1).entries, q.0, q.1, item); }
      assert (item.host, item.kind) in queries <==>
          (item.host, item.kind) == q || (item.host, item.kind) in queries[1..];
    }
  }

  lemma {:induction false} InItems(entries: seq<Entry>, host: string, kind: GuestType, item: Item)
    ensures item in Flat(entries, ItemsOf(host, kind)) <==>
            item.host == host && item.kind == kind && item.entry in entries && !item.entry.template
  {
    if entries != [] {
      InItems(entries[1..], host, kind, item);
      assert item.entry in entries <==> item.entry == entries[0] || item.entry in entries[1..];
    }
  }

  lemma UnreachedExactlyWhen(hosts: seq<Host>, w: World, name: string, kind: GuestType)
    ensures Unreached((name, kind), hosts, w) <==>
            (exists h :: h in hosts && h.name == name) && w.list(name, kind).Unanswered?
  {
    QueriesAre(hosts, name, kind);
  }

  predicate IsFirstIp(fields: seq<string>, i: int) {
    0 <= i < |fields| && StartsWith(fields[i], "ip=") && forall j :: 0 <= j < i ==> !StartsWith(fields[j], "ip=")
  }

  /**
   The address a network field reports: the first `ip=` field's value up to its mask; none if that is blank
   or missing.
   */
  ghost predicate ReportsAddress(net: Option<string>, ip: Option<string>) {
    var fields := Split(net.GetOr(""), ',');
    && ((forall i :: 0 <= i < |fields| ==> !StartsWith(fields[i], "ip=")) ==> ip == None)
    && forall i :: IsFirstIp(fields, i) ==>
         var address := Split(fields[i][3..], '/')[0]; ip == if address == "" then None else Some(address)
  }

  lemma ReadIpIsReported(net: Option<string>)
    ensures ReportsAddress(net, ReadIp(net))
  {
    var fields := Split(net.GetOr(""), ',');
    assert "ip" + "=" == "ip=";
    if i :| IsFirstIp(fields, i) { GuestVpn.IndexOfKeyIs(fields, "ip", i); }
    forall i | IsFirstIp(fields, i)
      ensures ReadIp(net) == (var address := Split(fields[i][3..], '/')[0];
              if address == "" then None else Some(address))
    {
      GuestVpn.IndexOfKeyIs(fields, "ip", i);
    }
    if forall i :: 0 <= i < |fields| ==> !StartsWith(fields[i], "ip=") {
      GuestVpn.IndexOfKeyIs(fields, "ip", |fields|);
    }
  }

  /** What a listed guest is in the result. */
  ghost predicate IsAsReported(inv: Inventory, w: World, item: Item, r: Guest) {
    var recorded := (g: Guest) => g in inv.guests && g.host == item.host && g.vmid == item.entry.vmid;
    match w.config(item.host, item.kind, item.entry.vmid)
    case NoConfig =>
      && (forall g :: recorded(g) ==> r == g)
      && ((forall g :: !recorded(g)) ==> r == PlainGuest(item.entry.name, item.kind, item.entry.vmid, item.host, None))
    case HasConfig(net) =>
      && ReportsAddress(net, r.ip)
      && (forall g :: recorded(g) ==> r == g.(kind := item.kind, ip := r.ip))
      && ((forall g :: !recorded(g)) ==> r == PlainGuest(item.entry.name, item.kind, item.entry.vmid, item.host, r.ip))
  }

  lemma ReconciledIsAsReported(inv: Inventory, w: World, item: Item)
    requires DistinctGuests(inv)
    ensures IsAsReported(inv, w, item, Reconciled(inv.guests, w)(item))
  {
    var key := ItemKey()(item);
    FindIs(inv.guests, key);
    forall g | g in inv.guests && KeyOf()(g) == key ensures Find(inv.guests, key) == Some(g) { FindsIt(inv, g); }
    if w.config(item.host, item.kind, item.entry.vmid).HasConfig? {
      ReadIpIsReported(w.config(item.host, item.kind, item.entry.vmid).net);
    }
  }

  /**
   The result starts with one guest for every listed one, in the order of the lists, with the type it is
   listed under and the address its configuration reports; where that cannot be read a recorded guest stays
   as it was.
   */
  lemma ListedGuestsAreAsReported(inv: Inventory, w: World, k: nat)
    requires DistinctGuests(inv) && k < |Found(inv, w)|
    ensures k < |Synced(inv, w).guests| && IsAsReported(inv, w, Found(inv, w)[k], Synced(inv, w).guests[k])
    ensures Synced(inv, w).guests[k].host == Found(inv, w)[k].host
            && Synced(inv, w).guests[k].vmid == Found(inv, w)[k].entry.vmid
  {
    ReconciledIsAsReported(inv, w, Found(inv, w)[k]);
    ReconciledKeepsTheKey(inv.guests, Found(inv, w)[k], w);
  }

  /** After them come, untouched, the recorded guests whose host did not answer for their recorded type. */
  lemma RetainedGuestsFollow(inv: Inventory, w: World, k: nat)
    requires |Found(inv, w)| <= k < |Synced(inv, w).guests|
    ensures var r := Synced(inv, w).guests[k];
            r in inv.guests && (exists h :: h in inv.hosts && h.name == r.host) && w.list(r.host, r.kind).Unanswered?
  {
    var retained := Flat(inv.guests, RetainedOf(inv, w));
    var r := Synced(inv, w).guests[k];
    assert r == retained[k - |Found(inv, w)|];
    RetainedAre(inv, w, r);
    UnreachedExactlyWhen(inv.hosts, w, r.host, r.kind);
  }

  // ---- A guest that comes out twice ----

  /** One guest, recorded as a container; its host does not answer for containers, and lists its VMID as a VM. */
  const RECORDED := PlainGuest("g", Lxc, 1, "h", None)
  const ONE_GUEST := Inventory("d", map[], [PlainHost("h")], [RECORDED], None)
  const CHANGED_TYPE := World(
    (host: string, kind: GuestType) => if kind == Vm then Listed([Entry("g", 1, false)]) else Unanswered,
    (host: string, kind: GuestType, vmid: int) => NoConfig)

  lemma ChangedTypeIsFound()
    ensures Queries(ONE_GUEST.hosts) == [("h", Lxc), ("h", Vm)]
    ensures Found(ONE_GUEST, CHANGED_TYPE) == [Item("h", Vm, Entry("g", 1, false))]
  {
    var hosts, entries, found := ONE_GUEST.hosts, [Entry("g", 1, false)], FoundIn(CHANGED_TYPE);
    assert Queries(hosts) == BothTypes()(hosts[0]) + Queries(hosts[1..]);
    assert Flat(entries, ItemsOf("h", Vm)) == ItemsOf("h", Vm)(entries[0]) + Flat(entries[1..], ItemsOf("h", Vm));
    var queries := [("h", Lxc), ("h", Vm)];
    assert Flat(queries, found) == found(queries[0]) + Flat(queries[1..], found);
    assert Flat(queries[1..], found) == found(queries[1]) + Flat(queries[2..], found);
  }

  /** It is listed and retained. */
  lemma ChangedTypeComesOutTwice()
    ensures Map(Synced(ONE_GUEST, CHANGED_TYPE).guests, KeyOf()) == [("h", 1), ("h", 1)]
  {
    ChangedTypeIsFound();
    ResultKeys(ONE_GUEST, CHANGED_TYPE);
    var retained := RetainedOf(ONE_GUEST, CHANGED_TYPE);
    assert ("h", Lxc) in Queries(ONE_GUEST.hosts) by { assert Queries(ONE_GUEST.hosts)[0] == ("h", Lxc); }
    assert Flat([RECORDED], retained) == retained(RECORDED) + Flat([RECORDED][1..], retained);
    assert Flat(ONE_GUEST.guests, retained) == [RECORDED];
  }
}
