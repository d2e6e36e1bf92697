/**
 The inventory's entries and the order they are filed in (src/lib/inventory.ts).

 Settings are one map from setting name to value: every setting is an optional string.
 */
module InventoryModel {
  import opened Wrappers
  import opened Text
  import opened Ordering

  datatype AuthMode = Forward | Oidc

  datatype GuestType = Lxc | Vm

  datatype VpnProvider = NordVpn | Pia

  datatype Bridge = Bridge(name: string, alias: Option<string>, active: Option<bool>)

  datatype Storage = Storage(name: string, kind: string, content: seq<string>, active: bool, totalBytes: Option<int>)

  datatype NfsMount = NfsMount(name: string, source: string, mountPoint: string, active: bool)

  datatype MidScheme = MidScheme(vmidBase: nat, ipPrefix: string, cidrSuffix: Option<nat>, gateway: string)

  datatype Creator = Creator(uid: Option<string>, username: string, since: Option<string>)

  /** The fields hosts, guests and external sites share: how the entry's backend is reached and who may. */
  datatype Gate = Gate(
    port: Option<int>,
    insecureBackendTls: Option<bool>,
    authGroup: Option<string>,
    authMode: Option<AuthMode>,
    redirectUris: Option<seq<string>>,
    mobileRedirectUris: Option<seq<string>>,
    unauthenticatedPaths: Option<seq<string>>)

  datatype Host = Host(
    name: string,
    sshTarget: string,
    sshUser: string,
    sshPort: Option<int>,
    sshIdentityFile: Option<string>,
    midScheme: Option<MidScheme>,
    proxy: Option<bool>,
    proxyManual: Option<bool>,
    authentik: Option<bool>,
    subdomains: Option<seq<string>>,
    ip: Option<string>,
    gate: Gate,
    bridges: Option<seq<Bridge>>,
    storages: Option<seq<Storage>>,
    nfsMounts: Option<seq<NfsMount>>)

  datatype Guest = Guest(
    name: string,
    kind: GuestType,
    vmid: int,
    host: string,
    ip: Option<string>,
    subdomains: Option<seq<string>>,
    proxy: Option<bool>,
    proxyManual: Option<bool>,
    authentik: Option<bool>,
    bellhop: Option<bool>,
    unprivileged: Option<bool>,
    gate: Gate,
    app: Option<string>,
    customApp: bool,
    vpnGateway: Option<VpnProvider>,
    vpn: Option<string>,
    creator: Option<Creator>)

  datatype Site = Site(name: string, ip: string, subdomains: seq<string>, gate: Gate)

  datatype Inventory = Inventory(
    domain: string,
    settings: map<string, string>,
    hosts: seq<Host>,
    guests: seq<Guest>,
    sites: Option<seq<Site>>)

  const NO_GATE := Gate(None, None, None, None, None, None, None)

  /** A guest of which nothing more is recorded. */
  function PlainGuest(name: string, kind: GuestType, vmid: int, host: string, ip: Option<string>): Guest {
    Guest(name, kind, vmid, host, ip, None, None, None, None, None, None, NO_GATE, None, false, None, None, None)
  }

  function PlainHost(name: string): Host {
    Host(name, "target", "user", None, None, None, None, None, None, None, None, NO_GATE, None, None, None)
  }

  /** What JavaScript reads as false: null and the empty string. */
  function NonBlank(column: Option<string>): Option<string> {
    if column == Some("") then None else column
  }

  // ---- Comparators ----

  /** A JavaScript number, as far as the comparators can tell; infinities are not part of this model. */
  datatype Number = NaN | Num(value: real)

  function Minus(a: Number, b: Number): Number {
    if a.Num? && b.Num? then Num(a.value - b.value) else NaN
  }

  /** How sort reads a comparator's result for (a, b): may a stay before b?  NaN counts as a tie. */
  predicate MayPrecede(n: Number) {
    n.NaN? || n.value <= 0.0
  }

  function CompareStrings(a: string, b: string): Number {
    if StringLess(a, b) then Num(-1.0) else if StringLess(b, a) then Num(1.0) else Num(0.0)
  }

  /** `num` is JavaScript's Number(). */
  function Octet(ip: string, i: nat, num: string -> Number): Number {
    var parts := Split(ip, '.');
    if i < |parts| then num(parts[i]) else Num(0.0)
  }

  /** The difference, unless it is zero: then what the rest says. */
  function Step(x: Number, y: Number, rest: Number): Number {
    if Minus(x, y) != Num(0.0) then Minus(x, y) else rest
  }

  function CompareOctets(a: string, b: string, i: nat, num: string -> Number): Number
    decreases 4 - i
  {
    if i >= 4 then Num(0.0) else Step(Octet(a, i, num), Octet(b, i, num), CompareOctets(a, b, i + 1, num))
  }

  /** Not given, or blank. */
  predicate NoIp(ip: Option<string>) {
    ip.None? || ip.value == ""
  }

  function CompareIp(a: Option<string>, b: Option<string>, num: string -> Number): Number {
    if a == b then Num(0.0)
    else if NoIp(a) then Num(1.0)
    else if NoIp(b) then Num(-1.0)
    else CompareOctets(a.value, b.value, 0, num)
  }

  function TypeName(kind: GuestType): string {
    match kind case Lxc => "lxc" case Vm => "vm"
  }

  function CompareGuests(a: Guest, b: Guest, num: string -> Number): Number {
    if a.host != b.host then (if StringLess(a.host, b.host) then Num(-1.0) else Num(1.0))
    else if a.kind != b.kind then (if StringLess(TypeName(a.kind), TypeName(b.kind)) then Num(-1.0) else Num(1.0))
    else
      var ips := CompareIp(a.ip, b.ip, num);
      if ips != Num(0.0) then ips else CompareStrings(a.name, b.name)
  }

  function CompareMounts(a: NfsMount, b: NfsMount): Number {
    if a.name != b.name then CompareStrings(a.name, b.name) else CompareStrings(a.mountPoint, b.mountPoint)
  }

  // ---- The file order ----

  function ByString(): (string, string) -> bool {
    (a, b) => MayPrecede(CompareStrings(a, b))
  }

  /** By a name the elements carry. */
  function By<T>(name: T -> string): (T, T) -> bool {
    (a, b) => MayPrecede(CompareStrings(name(a), name(b)))
  }

  function GuestOrder(num: string -> Number): (Guest, Guest) -> bool {
    (a, b) => MayPrecede(CompareGuests(a, b, num))
  }

  function MountOrder(): (NfsMount, NfsMount) -> bool {
    (a, b) => MayPrecede(CompareMounts(a, b))
  }

  function HostName(): Host -> string { (h: Host) => h.name }
  function BridgeName(): Bridge -> string { (b: Bridge) => b.name }
  function StorageName(): Storage -> string { (s: Storage) => s.name }
  function GuestName(): Guest -> string { (g: Guest) => g.name }
  function SiteName(): Site -> string { (s: Site) => s.name }

  function SortContent(): Storage -> Storage {
    (s: Storage) => s.(content := Sort(s.content, ByString()))
  }

  function SortBridges(bridges: Option<seq<Bridge>>): Option<seq<Bridge>> {
    match bridges case None => None case Some(s) => Some(Sort(s, By(BridgeName())))
  }

  function SortStorages(storages: Option<seq<Storage>>): Option<seq<Storage>> {
    match storages case None => None case Some(s) => Some(Sort(Map(s, SortContent()), By(StorageName())))
  }

  function SortMounts(mounts: Option<seq<NfsMount>>): Option<seq<NfsMount>> {
    match mounts case None => None case Some(s) => Some(Sort(s, MountOrder()))
  }

  function SortParts(): Host -> Host {
    (h: Host) => h.(bridges := SortBridges(h.bridges), storages := SortStorages(h.storages),
        nfsMounts := SortMounts(h.nfsMounts))
  }

  function SortHosts(hosts: seq<Host>): seq<Host> {
    Map(Sort(hosts, By(HostName())), SortParts())
  }

  function SortGuests(guests: seq<Guest>, num: string -> Number): seq<Guest> {
    Sort(guests, GuestOrder(num))
  }

  /** sortInventoryForFile. */
  function SortForFile(inv: Inventory, num: string -> Number): Inventory {
    inv.(hosts := SortHosts(inv.hosts), guests := SortGuests(inv.guests, num))
  }

  // ---- When the comparators order their arguments ----

  /** Swapping the arguments swaps the sign. */
  predicate Opposite(x: Number, y: Number) {
    x.Num? && y.Num? && x.value == -y.value
  }

  /** Comparing a with b, b with c and a with c fit together. */
  predicate Chain(ab: Number, bc: Number, ac: Number) {
    && ab.Num? && bc.Num? && ac.Num?
    && (ab.value <= 0.0 && bc.value <= 0.0 ==>
          ac.value <= 0.0 && (ac.value == 0.0 <==> ab.value == 0.0 && bc.value == 0.0))
  }

  lemma StringsCompare(a: string, b: string)
    ensures Opposite(CompareStrings(a, b), CompareStrings(b, a))
    ensures CompareStrings(a, b) == Num(0.0) <==> a == b
  {
    StringTrichotomy(a, b);
  }

  lemma StringsChain(a: string, b: string, c: string)
    ensures Chain(CompareStrings(a, b), CompareStrings(b, c), CompareStrings(a, c))
  {
    StringTrichotomy(a, b);
    StringTrichotomy(b, c);
    StringTrichotomy(a, c);
    if StringLess(a, b) && StringLess(b, c) { StringTransitive(a, b, c); }
  }

  /** Up to the octet that decides, all octets are numbers. */
  predicate DecidedByNumbers(a: string, b: string, i: nat, num: string -> Number)
    decreases 4 - i
  {
    i >= 4 || (Octet(a, i, num).Num? && Octet(b, i, num).Num?
               && (Octet(a, i, num) != Octet(b, i, num) || DecidedByNumbers(a, b, i + 1, num)))
  }

  /** The same address, or one has none, or both are decided by numbers; not one absent and the other blank. */
  predicate IpsComparable(a: Option<string>, b: Option<string>, num: string -> Number) {
    a == b || NoIp(a) != NoIp(b) || (!NoIp(a) && !NoIp(b) && DecidedByNumbers(a.value, b.value, 0, num))
  }

  predicate GuestsComparable(a: Guest, b: Guest, num: string -> Number) {
    a.host != b.host || a.kind != b.kind || IpsComparable(a.ip, b.ip, num)
  }

  ghost predicate PairwiseComparable(guests: seq<Guest>, num: string -> Number) {
    forall a, b :: a in guests && b in guests ==> GuestsComparable(a, b, num)
  }

  ghost predicate DistinctNames<T>(s: seq<T>, name: T -> string) {
    forall i, j :: 0 <= i < j < |s| ==> name(s[i]) != name(s[j])
  }

  lemma {:induction false} OctetsOpposite(a: string, b: string, i: nat, num: string -> Number)
    ensures DecidedByNumbers(a, b, i, num) ==> Opposite(CompareOctets(a, b, i, num), CompareOctets(b, a, i, num))
    ensures !DecidedByNumbers(a, b, i, num) ==> CompareOctets(a, b, i, num) == CompareOctets(b, a, i, num) == NaN
    decreases 4 - i
  {
    if i < 4 { OctetsOpposite(a, b, i + 1, num); }
  }

  /** The address comparator is consistent on exactly the comparable pairs. */
  lemma IpsAreConsistentExactlyWhen(a: Option<string>, b: Option<string>, num: string -> Number)
    ensures Opposite(CompareIp(a, b, num), CompareIp(b, a, num)) <==> IpsComparable(a, b, num)
    ensures !IpsComparable(a, b, num) ==> CompareIp(a, b, num) == CompareIp(b, a, num) != Num(0.0)
  {
    if !NoIp(a) && !NoIp(b) { OctetsOpposite(a.value, b.value, 0, num); }
  }

  lemma StepChain(x: Number, y: Number, z: Number, xy: Number, yz: Number, xz: Number)
    requires x.Num? && y.Num? && z.Num?
    requires (x == y ==> xy.Num?) && (y == z ==> yz.Num?) && (x == z ==> xz.Num?)
    requires x == y == z ==> Chain(xy, yz, xz)
    ensures Chain(Step(x, y, xy), Step(y, z, yz), Step(x, z, xz))
  {
  }

  lemma DecidedIsANumber(a: string, b: string, i: nat, num: string -> Number)
    requires i < 4 && DecidedByNumbers(a, b, i, num)
    ensures Octet(a, i, num).Num? && Octet(b, i, num).Num?
    ensures Octet(a, i, num) == Octet(b, i, num) ==>
              DecidedByNumbers(a, b, i + 1, num) && CompareOctets(a, b, i + 1, num).Num?
  {
    OctetsOpposite(a, b, i + 1, num);
  }

  lemma {:induction false} OctetsChain(a: string, b: string, c: string, i: nat, num: string -> Number)
    requires DecidedByNumbers(a, b, i, num) && DecidedByNumbers(b, c, i, num) && DecidedByNumbers(a, c, i, num)
    ensures Chain(CompareOctets(a, b, i, num), CompareOctets(b, c, i, num), CompareOctets(a, c, i, num))
    decreases 4 - i
  {
    if i < 4 {
      DecidedIsANumber(a, b, i, num);
      DecidedIsANumber(b, c, i, num);
      DecidedIsANumber(a, c, i, num);
      if Octet(a, i, num) == Octet(b, i, num) == Octet(c, i, num) { OctetsChain(a, b, c, i + 1, num); }
      StepChain(Octet(a, i, num), Octet(b, i, num), Octet(c, i, num),
                CompareOctets(a, b, i + 1, num), CompareOctets(b, c, i + 1, num), CompareOctets(a, c, i + 1, num));
    }
  }

  lemma IpsChain(a: Option<string>, b: Option<string>, c: Option<string>, num: string -> Number)
    requires IpsComparable(a, b, num) && IpsComparable(b, c, num) && IpsComparable(a, c, num)
    ensures Chain(CompareIp(a, b, num), CompareIp(b, c, num), CompareIp(a, c, num))
  {
    IpsAreConsistentExactlyWhen(a, b, num);
    IpsAreConsistentExactlyWhen(b, c, num);
    IpsAreConsistentExactlyWhen(a, c, num);
    if !NoIp(a) && !NoIp(b) && !NoIp(c) && a != b && b != c && a != c {
      OctetsChain(a.value, b.value, c.value, 0, num);
    }
  }

  lemma GuestsOpposite(a: Guest, b: Guest, num: string -> Number)
    requires GuestsComparable(a, b, num)
    ensures Opposite(CompareGuests(a, b, num), CompareGuests(b, a, num))
    ensures CompareGuests(a, b, num) == Num(0.0) ==> a.name == b.name
  {
    StringTrichotomy(a.host, b.host);
    IpsAreConsistentExactlyWhen(a.ip, b.ip, num);
    StringsCompare(a.name, b.name);
  }

  lemma GuestsChain(a: Guest, b: Guest, c: Guest, num: string -> Number)
    requires GuestsComparable(a, b, num) && GuestsComparable(b, c, num) && GuestsComparable(a, c, num)
    ensures Chain(CompareGuests(a, b, num), CompareGuests(b, c, num), CompareGuests(a, c, num))
  {
    StringTrichotomy(a.host, b.host);
    StringTrichotomy(b.host, c.host);
    StringTrichotomy(a.host, c.host);
    if StringLess(a.host, b.host) && StringLess(b.host, c.host) { StringTransitive(a.host, b.host, c.host); }
    IpsAreConsistentExactlyWhen(a.ip, b.ip, num);
    IpsAreConsistentExactlyWhen(b.ip, c.ip, num);
    IpsAreConsistentExactlyWhen(a.ip, c.ip, num);
    if a.host == b.host == c.host && a.kind == b.kind == c.kind {
      IpsChain(a.ip, b.ip, c.ip, num);
    }
    StringsChain(a.name, b.name, c.name);
  }

  lemma ComparableGuestsAreOrdered(guests: seq<Guest>, num: string -> Number)
    requires PairwiseComparable(guests, num)
    ensures Preorder(guests, GuestOrder(num))
    ensures DistinctNames(guests, GuestName()) ==> TotalOrder(guests, GuestOrder(num))
  {
    var le := GuestOrder(num);
    forall i, j | 0 <= i < |guests| && 0 <= j < |guests|
      ensures le(guests[i], guests[j]) || le(guests[j], guests[i])
      ensures DistinctNames(guests, GuestName()) && le(guests[i], guests[j]) && le(guests[j], guests[i]) ==>
              guests[i] == guests[j]
    {
      GuestsOpposite(guests[i], guests[j], num);
    }
    forall i, j, k | 0 <= i < |guests| && 0 <= j < |guests| && 0 <= k < |guests|
                     && le(guests[i], guests[j]) && le(guests[j], guests[k])
      ensures le(guests[i], guests[k])
    {
      GuestsChain(guests[i], guests[j], guests[k], num);
    }
  }

  /** Sorting the guests gives the same list for every order they may come in. */
  ghost predicate GuestOrderIsCanonical(guests: seq<Guest>, num: string -> Number) {
    forall p: seq<Guest> :: multiset(p) == multiset(guests) ==> SortGuests(p, num) == SortGuests(guests, num)
  }

  /** Guests with distinct names have one file order exactly when every two of them are comparable. */
  lemma GuestOrderIsCanonicalExactlyWhen(guests: seq<Guest>, num: string -> Number)
    requires DistinctNames(guests, GuestName())
    ensures GuestOrderIsCanonical(guests, num) <==> PairwiseComparable(guests, num)
  {
    if PairwiseComparable(guests, num) {
      ComparableGuestsAreOrdered(guests, num);
      forall p: seq<Guest> | multiset(p) == multiset(guests)
        ensures SortGuests(p, num) == SortGuests(guests, num)
      {
        SortIsCanonical(p, guests, GuestOrder(num));
      }
    } else {
      var a, b :| a in guests && b in guests && !GuestsComparable(a, b, num);
      TwoOrders(guests, a, b, num);
    }
  }

  lemma PairSorts<T>(a: T, b: T, le: (T, T) -> bool)
    ensures Sort([a, b], le) == if le(a, b) then [a, b] else [b, a]
  {
    assert [a, b][1..] == [b] && [b][1..] == [];
    assert Sort([b], le) == Insert(b, Sort([], le), le) == [b];
    assert Insert(a, [], le) == [a];
  }

  /** Two guests, one without an address and one with a blank one, are filed in the reverse of either order. */
  lemma AbsentAndBlankTie(num: string -> Number)
    ensures CompareIp(None, Some(""), num) == CompareIp(Some(""), None, num) == Num(1.0)
    ensures var a, b := PlainGuest("a", Lxc, 1, "h", None), PlainGuest("b", Lxc, 2, "h", Some(""));
            SortGuests([a, b], num) == [b, a] && SortGuests([b, a], num) == [a, b]
  {
    var a, b := PlainGuest("a", Lxc, 1, "h", None), PlainGuest("b", Lxc, 2, "h", Some(""));
    PairSorts(a, b, GuestOrder(num));
    PairSorts(b, a, GuestOrder(num));
  }

  lemma PairPrecedes<T>(a: T, b: T)
    ensures Precedes([a, b], a, b)
  {
    assert [a, b][0] == a && [a, b][1] == b;
  }

  /**
   Where the comparator says the same of both orders, the pair comes out in an order that depends on its
   input order.
   */
  lemma OrderOfTail<T(!new)>(others: seq<T>, a: T, b: T, le: (T, T) -> bool)
    requires le(a, b) == le(b, a) && NoDuplicates(others + [a, b])
    ensures Sort(others + [a, b], le) != Sort(others + [b, a], le)
  {
    PairSorts(a, b, le);
    PairSorts(b, a, le);
    PairPrecedes(a, b);
    PairPrecedes(b, a);
    var x, y := if le(a, b) then a else b, if le(a, b) then b else a;
    SortKeepsOrderOfTail(others, [a, b], le, x, y);
    SortKeepsOrderOfTail(others, [b, a], le, y, x);
    SortIsPermutation(others + [a, b], le);
    NoDuplicatesOfPermutation(Sort(others + [a, b], le), others + [a, b]);
    NotBothOrders(Sort(others + [a, b], le), x, y);
  }

  lemma IncomparableTies(a: Guest, b: Guest, num: string -> Number)
    requires !GuestsComparable(a, b, num)
    ensures GuestOrder(num)(a, b) == GuestOrder(num)(b, a)
  {
    IpsAreConsistentExactlyWhen(a.ip, b.ip, num);
  }

  lemma TwoOrders(guests: seq<Guest>, a: Guest, b: Guest, num: string -> Number)
    requires DistinctNames(guests, GuestName()) && a in guests && b in guests && !GuestsComparable(a, b, num)
    ensures !GuestOrderIsCanonical(guests, num)
  {
    var others := TakeOut(guests, a, b);
    var p, q := others + [a, b], others + [b, a];
    assert multiset(p) == multiset(guests) && multiset(q) == multiset(guests);
    DistinctNamesOfPermutation(p, guests);
    IncomparableTies(a, b, num);
    OrderOfTail(others, a, b, GuestOrder(num));
    assert SortGuests(p, num) != SortGuests(q, num);
  }

  lemma DistinctNamesOfPermutation(s: seq<Guest>, guests: seq<Guest>)
    requires multiset(s) == multiset(guests) && DistinctNames(guests, GuestName())
    ensures NoDuplicates(s)
  {
    assert NoDuplicates(guests);
    NoDuplicatesOfPermutation(s, guests);
  }

  lemma NotBothOrders<T>(s: seq<T>, a: T, b: T)
    requires NoDuplicates(s) && Precedes(s, a, b)
    ensures !Precedes(s, b, a)
  {
    var i, j :| 0 <= i < j < |s| && s[i] == a && s[j] == b;
    forall k, l | 0 <= k < l < |s| ensures s[k] != b || s[l] != a {
      if s[k] == b { assert k == j; }
    }
  }

  lemma TakeOne<T>(s: seq<T>, a: T) returns (others: seq<T>)
    requires a in s
    ensures multiset(others) + multiset{a} == multiset(s)
  {
    var i :| 0 <= i < |s| && s[i] == a;
    others := s[..i] + s[i + 1..];
    assert s == s[..i] + [a] + s[i + 1..];
  }

  /** The list without its elements a and b. */
  lemma TakeOut<T>(s: seq<T>, a: T, b: T) returns (others: seq<T>)
    requires a in s && b in s && a != b
    ensures multiset(others) + multiset{a, b} == multiset(s)
  {
    var rest := TakeOne(s, a);
    assert b in multiset(s);
    assert b in rest;
    others := TakeOne(rest, b);
  }

  // ---- The whole inventory ----

  lemma NamesOrder<T>(s: seq<T>, name: T -> string)
    ensures Preorder(s, By(name))
    ensures DistinctNames(s, name) ==> TotalOrder(s, By(name))
  {
    var le := By(name);
    forall i, j | 0 <= i < |s| && 0 <= j < |s|
      ensures le(s[i], s[j]) || le(s[j], s[i])
      ensures DistinctNames(s, name) && le(s[i], s[j]) && le(s[j], s[i]) ==> s[i] == s[j]
    {
      StringsCompare(name(s[i]), name(s[j]));
    }
    forall i, j, k | 0 <= i < |s| && 0 <= j < |s| && 0 <= k < |s| && le(s[i], s[j]) && le(s[j], s[k])
      ensures le(s[i], s[k])
    {
      StringsChain(name(s[i]), name(s[j]), name(s[k]));
    }
  }

  lemma StringsOrder(s: seq<string>)
    ensures TotalOrder(s, ByString())
  {
    var le := ByString();
    forall i, j | 0 <= i < |s| && 0 <= j < |s|
      ensures le(s[i], s[j]) || le(s[j], s[i])
      ensures le(s[i], s[j]) && le(s[j], s[i]) ==> s[i] == s[j]
    {
      StringsCompare(s[i], s[j]);
    }
    forall i, j, k | 0 <= i < |s| && 0 <= j < |s| && 0 <= k < |s| && le(s[i], s[j]) && le(s[j], s[k])
      ensures le(s[i], s[k])
    {
      StringsChain(s[i], s[j], s[k]);
    }
  }

  lemma MountsChain(a: NfsMount, b: NfsMount, c: NfsMount)
    ensures Chain(CompareMounts(a, b), CompareMounts(b, c), CompareMounts(a, c))
    ensures Opposite(CompareMounts(a, b), CompareMounts(b, a))
    ensures CompareMounts(a, b) == Num(0.0) ==> a.name == b.name && a.mountPoint == b.mountPoint
  {
    StringsCompare(a.name, b.name);
    StringsCompare(b.name, c.name);
    StringsCompare(a.name, c.name);
    StringsChain(a.name, b.name, c.name);
    StringsCompare(a.mountPoint, b.mountPoint);
    StringsChain(a.mountPoint, b.mountPoint, c.mountPoint);
  }

  ghost predicate DistinctMounts(s: seq<NfsMount>) {
    forall i, j :: 0 <= i < j < |s| ==> s[i].name != s[j].name || s[i].mountPoint != s[j].mountPoint
  }

  lemma MountsOrder(s: seq<NfsMount>)
    ensures Preorder(s, MountOrder())
    ensures DistinctMounts(s) ==> TotalOrder(s, MountOrder())
  {
    var le := MountOrder();
    forall i, j | 0 <= i < |s| && 0 <= j < |s|
      ensures le(s[i], s[j]) || le(s[j], s[i])
      ensures DistinctMounts(s) && le(s[i], s[j]) && le(s[j], s[i]) ==> s[i] == s[j]
    {
      MountsChain(s[i], s[j], s[j]);
    }
    forall i, j, k | 0 <= i < |s| && 0 <= j < |s| && 0 <= k < |s| && le(s[i], s[j]) && le(s[j], s[k])
      ensures le(s[i], s[k])
    {
      MountsChain(s[i], s[j], s[k]);
    }
  }

  lemma FiledHostsAreSorted(hosts: seq<Host>)
    ensures Sorted(SortHosts(hosts), By(HostName()))
  {
    var le := By(HostName());
    NamesOrder(hosts, HostName());
    SortSorts(hosts, le);
    SortedMap(Sort(hosts, le), SortParts(), le, le);
  }

  // ---- What stands before what ----

  /** The first n octets are the same numbers. */
  ghost predicate OctetsAgree(a: string, b: string, n: nat, num: string -> Number) {
    forall k: nat :: k < n ==> Octet(a, k, num).Num? && Octet(a, k, num) == Octet(b, k, num)
  }

  /** At the first octet that differs, a has the smaller number. */
  ghost predicate OctetsAscend(a: string, b: string, num: string -> Number) {
    exists n: nat :: n < 4 && OctetsAgree(a, b, n, num) && Octet(a, n, num).Num? && Octet(b, n, num).Num?
                     && Octet(a, n, num).value < Octet(b, n, num).value
  }

  ghost predicate AddressesTie(a: Option<string>, b: Option<string>, num: string -> Number) {
    a == b || (!NoIp(a) && !NoIp(b) && OctetsAgree(a.value, b.value, 4, num))
  }

  ghost predicate AddressesAscend(a: Option<string>, b: Option<string>, num: string -> Number) {
    !NoIp(a) && (NoIp(b) || OctetsAscend(a.value, b.value, num))
  }

  /** By host name, containers before VMs, addresses octet by octet with those that have none last, and by name. */
  ghost predicate StandsBefore(a: Guest, b: Guest, num: string -> Number) {
    StringLess(a.host, b.host) || (a.host == b.host &&
      ((a.kind == Lxc && b.kind == Vm) || (a.kind == b.kind &&
        (AddressesAscend(a.ip, b.ip, num) || (AddressesTie(a.ip, b.ip, num) && StringLe(a.name, b.name))))))
  }

  lemma {:induction false} OctetsMean(a: string, b: string, i: nat, num: string -> Number)
    requires i <= 4 && DecidedByNumbers(a, b, i, num) && OctetsAgree(a, b, i, num)
            && MayPrecede(CompareOctets(a, b, i, num))
    ensures if CompareOctets(a, b, i, num) == Num(0.0) then OctetsAgree(a, b, 4, num) else OctetsAscend(a, b, num)
    decreases 4 - i
  {
    if i < 4 {
      DecidedIsANumber(a, b, i, num);
      OctetsOpposite(a, b, i, num);
      if Octet(a, i, num) == Octet(b, i, num) {
        assert OctetsAgree(a, b, i + 1, num);
        OctetsMean(a, b, i + 1, num);
      } else {
        assert Octet(a, i, num).value < Octet(b, i, num).value;
      }
    }
  }

  lemma AddressesMean(a: Option<string>, b: Option<string>, num: string -> Number)
    requires IpsComparable(a, b, num) && MayPrecede(CompareIp(a, b, num))
    ensures if CompareIp(a, b, num) == Num(0.0) then AddressesTie(a, b, num) else AddressesAscend(a, b, num)
  {
    IpsAreConsistentExactlyWhen(a, b, num);
    if a != b && !NoIp(a) && !NoIp(b) { OctetsMean(a.value, b.value, 0, num); }
  }

  lemma ComparisonMeans(a: Guest, b: Guest, num: string -> Number)
    requires GuestsComparable(a, b, num) && MayPrecede(CompareGuests(a, b, num))
    ensures StandsBefore(a, b, num)
  {
    StringTrichotomy(a.host, b.host);
    StringTrichotomy(a.name, b.name);
    assert "vm"[0] > "lxc"[0] && !StringLess("vm", "lxc");
    if a.host == b.host && a.kind == b.kind {
      IpsAreConsistentExactlyWhen(a.ip, b.ip, num);
      AddressesMean(a.ip, b.ip, num);
    }
  }

  /** The filed guests are the guests, each standing before those that follow it. */
  lemma FiledGuestsStandInOrder(guests: seq<Guest>, num: string -> Number)
    requires PairwiseComparable(guests, num)
    ensures var filed := SortGuests(guests, num);
            multiset(filed) == multiset(guests) && forall i, j ::
                0 <= i < j < |filed| ==> StandsBefore(filed[i], filed[j], num)
  {
    var filed, le := SortGuests(guests, num), GuestOrder(num);
    ComparableGuestsAreOrdered(guests, num);
    SortSorts(guests, le);
    SortIsPermutation(guests, le);
    forall i, j | 0 <= i < j < |filed| ensures StandsBefore(filed[i], filed[j], num) {
      SameElements(filed, guests, filed[i]);
      SameElements(filed, guests, filed[j]);
      assert le(filed[i], filed[j]);
      ComparisonMeans(filed[i], filed[j], num);
    }
  }

  lemma {:induction false} DistinctNamesMap<T>(s: seq<T>, name: T -> string)
    ensures DistinctNames(s, name) <==> NoDuplicates(Map(s, name))
  {
  }

  /** The names of a list sorted by name are the sorted names. */
  lemma SortedNames<T>(s: seq<T>, name: T -> string)
    ensures Map(Sort(s, By(name)), name) == Sort(Map(s, name), ByString())
  {
    SortMap(s, name, By(name), ByString());
  }

  /** t lists the names of s in some order, and what carries the same name looks the same after f. */
  ghost predicate Reordered<T, U>(s: seq<T>, t: seq<T>, name: T -> string, f: T -> U) {
    && multiset(Map(s, name)) == multiset(Map(t, name))
    && forall x, y :: x in s && y in t && name(x) == name(y) ==> f(x) == f(y)
  }

  lemma SortReordered<T, U>(s: seq<T>, t: seq<T>, name: T -> string, f: T -> U)
    requires Reordered(s, t, name, f)
    ensures Map(Sort(s, By(name)), f) == Map(Sort(t, By(name)), f)
  {
    var a, b := Sort(s, By(name)), Sort(t, By(name));
    SortedNames(s, name);
    SortedNames(t, name);
    StringsOrder(Map(t, name));
    SortIsCanonical(Map(s, name), Map(t, name), ByString());
    SortIsPermutation(s, By(name));
    SortIsPermutation(t, By(name));
    assert |a| == |Map(a, name)| == |Map(b, name)| == |b|;
    forall i | 0 <= i < |a| ensures f(a[i]) == f(b[i]) {
      SameElements(a, s, a[i]);
      SameElements(b, t, b[i]);
      assert name(a[i]) == Map(a, name)[i] == Map(b, name)[i] == name(b[i]);
    }
  }

  ghost predicate PermutedOption<T>(a: Option<seq<T>>, b: Option<seq<T>>) {
    a.Some? == b.Some? && (a.Some? ==> multiset(a.value) == multiset(b.value))
  }

  /** The same storage, its content types in some order. */
  ghost predicate SameStorage(s: Storage, t: Storage) {
    t.(content := s.content) == s && multiset(t.content) == multiset(s.content)
  }

  /** The same host, its bridges, storages and mounts in some order. */
  ghost predicate SameHost(h: Host, k: Host) {
    && k.(bridges := h.bridges, storages := h.storages, nfsMounts := h.nfsMounts) == h
    && PermutedOption(h.bridges, k.bridges) && PermutedOption(h.nfsMounts, k.nfsMounts)
    && h.storages.Some? == k.storages.Some?
    && (h.storages.Some? ==>
          && multiset(Map(h.storages.value, StorageName())) == multiset(Map(k.storages.value, StorageName()))
          && forall s, t :: s in h.storages.value && t in k.storages.value && s.name == t.name ==> SameStorage(s, t))
  }

  ghost predicate DistinctParts(h: Host) {
    && (h.bridges.Some? ==> DistinctNames(h.bridges.value, BridgeName()))
    && (h.nfsMounts.Some? ==> DistinctMounts(h.nfsMounts.value))
  }

  /** The same inventory with its lists in another order. */
  ghost predicate SameUpToOrder(p: Inventory, q: Inventory) {
    && p.(hosts := q.hosts, guests := q.guests) == q
    && multiset(p.guests) == multiset(q.guests)
    && multiset(Map(p.hosts, HostName())) == multiset(Map(q.hosts, HostName()))
    && forall h, k :: h in p.hosts && k in q.hosts && h.name == k.name ==> SameHost(h, k)
  }

  lemma SameStorageSortsAlike(s: Storage, t: Storage)
    requires SameStorage(s, t)
    ensures SortContent()(s) == SortContent()(t)
  {
    StringsOrder(t.content);
    SortIsCanonical(s.content, t.content, ByString());
  }

  lemma SortStoragesReordered(s: seq<Storage>, t: seq<Storage>)
    requires multiset(Map(s, StorageName())) == multiset(Map(t, StorageName()))
    requires forall x, y :: x in s && y in t && x.name == y.name ==> SameStorage(x, y)
    ensures Sort(Map(s, SortContent()), By(StorageName())) == Sort(Map(t, SortContent()), By(StorageName()))
  {
    forall x, y | x in s && y in t && x.name == y.name ensures SortContent()(x) == SortContent()(y) {
      SameStorageSortsAlike(x, y);
    }
    SortReordered(s, t, StorageName(), SortContent());
    SortMap(s, SortContent(), By(StorageName()), By(StorageName()));
    SortMap(t, SortContent(), By(StorageName()), By(StorageName()));
  }

  lemma SameHostSortsAlike(h: Host, k: Host)
    requires SameHost(h, k) && DistinctParts(k)
    ensures SortParts()(h) == SortParts()(k)
  {
    assert SortBridges(h.bridges) == SortBridges(k.bridges) by {
      if h.bridges.Some? {
        NamesOrder(k.bridges.value, BridgeName());
        SortIsCanonical(h.bridges.value, k.bridges.value, By(BridgeName()));
      }
    }
    assert SortMounts(h.nfsMounts) == SortMounts(k.nfsMounts) by {
      if h.nfsMounts.Some? {
        MountsOrder(k.nfsMounts.value);
        SortIsCanonical(h.nfsMounts.value, k.nfsMounts.value, MountOrder());
      }
    }
    assert SortStorages(h.storages) == SortStorages(k.storages) by {
      if h.storages.Some? { SortStoragesReordered(h.storages.value, k.storages.value); }
    }
  }

  /** The file order is a canonical form: whatever order an inventory's lists come in, it is filed the same way. */
  lemma FileOrderIsCanonical(p: Inventory, q: Inventory, num: string -> Number)
    requires SameUpToOrder(p, q)
    requires DistinctNames(q.guests, GuestName()) && PairwiseComparable(q.guests, num)
    requires forall k :: k in q.hosts ==> DistinctParts(k)
    ensures SortForFile(p, num) == SortForFile(q, num)
  {
    ComparableGuestsAreOrdered(q.guests, num);
    SortIsCanonical(p.guests, q.guests, GuestOrder(num));
    forall h, k | h in p.hosts && k in q.hosts && h.name == k.name ensures SortParts()(h) == SortParts()(k) {
      SameHostSortsAlike(h, k);
    }
    SortReordered(p.hosts, q.hosts, HostName(), SortParts());
  }

  lemma ContentTwice(x: Storage)
    ensures SortContent()(SortContent()(x)) == SortContent()(x)
  {
    StringsOrder(x.content);
    SortTwice(x.content, ByString());
  }

  lemma StoragesTwice(s: seq<Storage>)
    ensures SortStorages(SortStorages(Some(s))) == SortStorages(Some(s))
  {
    var content, le := SortContent(), By(StorageName());
    forall x | x in s ensures content(content(x)) == content(x) { ContentTwice(x); }
    MapMap(s, content, content, content);
    SortMap(Map(s, content), content, le, le);
    NamesOrder(Map(s, content), StorageName());
    SortTwice(Map(s, content), le);
  }

  lemma PartsTwice(h: Host)
    ensures SortParts()(SortParts()(h)) == SortParts()(h)
  {
    if h.bridges.Some? {
      NamesOrder(h.bridges.value, BridgeName());
      SortTwice(h.bridges.value, By(BridgeName()));
    }
    if h.nfsMounts.Some? {
      MountsOrder(h.nfsMounts.value);
      SortTwice(h.nfsMounts.value, MountOrder());
    }
    if h.storages.Some? { StoragesTwice(h.storages.value); }
  }

  lemma HostsTwice(hosts: seq<Host>)
    ensures SortHosts(SortHosts(hosts)) == SortHosts(hosts)
  {
    var parts, le := SortParts(), By(HostName());
    var sorted := Sort(hosts, le);
    SortMap(sorted, parts, le, le);
    NamesOrder(hosts, HostName());
    SortTwice(hosts, le);
    forall h | h in sorted ensures parts(parts(h)) == parts(h) { PartsTwice(h); }
    MapMap(sorted, parts, parts, parts);
  }

  /** Filing twice is filing once. */
  lemma FileOrderTwice(inv: Inventory, num: string -> Number)
    requires PairwiseComparable(inv.guests, num)
    ensures SortForFile(SortForFile(inv, num), num) == SortForFile(inv, num)
  {
    ComparableGuestsAreOrdered(inv.guests, num);
    SortTwice(inv.guests, GuestOrder(num));
    HostsTwice(inv.hosts);
  }
}
