/**
 What validateInventory reports, on the fields of the inventory itself (src/lib/inventory.ts).

 InventoryValidation looks at entries of one common form; here nothing depends on that form.
 */
module InventoryRules {
  import opened Wrappers
  import opened Ordering
  import opened InventoryModel
  import opened InventoryValidation

  // ---- Names of entries ----

  function HostsIf(inv: Inventory, p: Host -> bool): seq<string> {
    Flat(inv.hosts, (h: Host) => if p(h) then [h.name] else [])
  }

  function GuestsIf(inv: Inventory, p: Guest -> bool): seq<string> {
    Flat(inv.guests, (g: Guest) => if p(g) then [g.name] else [])
  }

  function SitesIf(inv: Inventory, p: Site -> bool): seq<string> {
    Flat(inv.sites.GetOr([]), (s: Site) => if p(s) then [s.name] else [])
  }

  function Proxies(inv: Inventory): seq<string> {
    HostsIf(inv, (h: Host) => h.proxy == Some(true)) + GuestsIf(inv, (g: Guest) => g.proxy == Some(true))
  }

  function Bellhops(inv: Inventory): seq<string> {
    GuestsIf(inv, (g: Guest) => g.bellhop == Some(true))
  }

  function Authentiks(inv: Inventory): seq<string> {
    HostsIf(inv, (h: Host) => h.authentik == Some(true)) + GuestsIf(inv, (g: Guest) => g.authentik == Some(true))
  }

  /** Gated through the outpost: there is a group, and the mode, absent or not, is not OIDC. */
  predicate ThroughTheOutpost(gate: Gate) {
    gate.authGroup.Some? && gate.authGroup.value != "" && gate.authMode != Some(Oidc)
  }

  function GatedNames(inv: Inventory): seq<string> {
    HostsIf(inv, (h: Host) => ThroughTheOutpost(h.gate)) + GuestsIf(inv, (g: Guest) => ThroughTheOutpost(g.gate))
    + SitesIf(inv, (s: Site) => ThroughTheOutpost(s.gate))
  }

  predicate IsGiven(ip: Option<string>) {
    ip.Some? && ip.value != ""
  }

  ghost predicate SomeAuthentikHasIp(inv: Inventory) {
    || (exists h :: h in inv.hosts && h.authentik == Some(true) && IsGiven(h.ip))
    || (exists g :: g in inv.guests && g.authentik == Some(true) && IsGiven(g.ip))
  }

  predicate Lists(subdomains: Option<seq<string>>) {
    subdomains.Some? && subdomains.value != []
  }

  predicate HasNoSource(proxyManual: Option<bool>, subdomains: Option<seq<string>>, ip: Option<string>) {
    proxyManual != Some(true) && Lists(subdomains) && !IsGiven(ip)
  }

  /** An entry of that name has subdomains the proxy serves and nothing to serve them from. */
  ghost predicate ServedFromNowhere(inv: Inventory, name: string) {
    || (exists h :: h in inv.hosts && h.name == name && HasNoSource(h.proxyManual, h.subdomains, h.ip))
    || (exists g :: g in inv.guests && g.name == name && HasNoSource(g.proxyManual, g.subdomains, g.ip))
    || (exists s :: s in inv.sites.GetOr([]) && s.name == name && s.subdomains != [] && s.ip == "")
  }

  /** The name, once for every one of the subdomains that reads `key` in lower case. */
  function TimesClaimed(name: string, subdomains: seq<string>, lower: string -> string, key: string): seq<string> {
    Flat(subdomains, (s: string) => if lower(s) == key then [name] else [])
  }

  function Claimants(inv: Inventory, lower: string -> string, key: string): seq<string> {
    Flat(inv.hosts, (h: Host) => TimesClaimed(h.name, h.subdomains.GetOr([]), lower, key))
    + Flat(inv.guests, (g: Guest) => TimesClaimed(g.name, g.subdomains.GetOr([]), lower, key))
    + Flat(inv.sites.GetOr([]), (s: Site) => TimesClaimed(s.name, s.subdomains, lower, key))
  }

  /** Hosts whose scheme starts its VMIDs there, and hosts whose scheme has that address prefix. */
  function WithVmidBase(inv: Inventory, vmidBase: nat): seq<string> {
    HostsIf(inv, (h: Host) => h.midScheme.Some? && h.midScheme.value.vmidBase == vmidBase)
  }

  function WithIpPrefix(inv: Inventory, ipPrefix: string): seq<string> {
    HostsIf(inv, (h: Host) => h.midScheme.Some? && h.midScheme.value.ipPrefix == ipPrefix)
  }

  // ---- What is a problem ----

  ghost predicate IsProblem(inv: Inventory, lower: string -> string, p: Problem) {
    match p
    case SeveralProxies(names) => |names| > 1 && names == Proxies(inv)
    case SeveralBellhops(names) => |names| > 1 && names == Bellhops(inv)
    case SeveralAuthentiks(names) => |names| > 1 && names == Authentiks(inv)
    case GatedWithoutAuthentik(names) => names != [] && names == GatedNames(inv) && Authentiks(inv) == []
    case GatedWithoutAuthentikIp(names) =>
      names != [] && names == GatedNames(inv) && Authentiks(inv) != [] && !SomeAuthentikHasIp(inv)
    case UnknownHost(guest, host) =>
      && (exists g :: g in inv.guests && g.name == guest && g.host == host)
      && forall h :: h in inv.hosts ==> h.name != host
    case SharedVmidBase(vmidBase, owners) => |owners| > 1 && owners == WithVmidBase(inv, vmidBase)
    case SharedIpPrefix(ipPrefix, owners) => |owners| > 1 && owners == WithIpPrefix(inv, ipPrefix)
    case SubdomainsWithoutIp(name) => ServedFromNowhere(inv, name)
    case SharedSubdomain(subdomain, owners) => |owners| > 1 && owners == Claimants(inv, lower, subdomain)
  }

  // ---- From entries to fields ----

  lemma {:induction false} FlatOfMap<T, U, V>(s: seq<T>, g: T -> U, f: U -> seq<V>, h: T -> seq<V>)
    requires forall x :: x in s ==> f(g(x)) == h(x)
    ensures Flat(Map(s, g), f) == Flat(s, h)
  {
    if s != [] {
      assert Map(s, g)[1..] == Map(s[1..], g);
      FlatOfMap(s[1..], g, f, h);
    }
  }

  lemma FlatOfEntries<V>(inv: Inventory, f: Entry -> seq<V>, onHost: Host -> seq<V>, onGuest: Guest -> seq<V>,
      onSite: Site -> seq<V>)
    requires forall h :: h in inv.hosts ==> f(OfHost()(h)) == onHost(h)
    requires forall g :: g in inv.guests ==> f(OfGuest()(g)) == onGuest(g)
    requires forall s :: s in inv.sites.GetOr([]) ==> f(OfSite()(s)) == onSite(s)
    ensures Flat(Entries(inv), f)
            == Flat(inv.hosts, onHost) + Flat(inv.guests, onGuest) + Flat(inv.sites.GetOr([]), onSite)
  {
    FlatConcat(Map(inv.hosts, OfHost()) + Map(inv.guests, OfGuest()), Map(inv.sites.GetOr([]), OfSite()), f);
    FlatConcat(Map(inv.hosts, OfHost()), Map(inv.guests, OfGuest()), f);
    FlatOfMap(inv.hosts, OfHost(), f, onHost);
    FlatOfMap(inv.guests, OfGuest(), f, onGuest);
    FlatOfMap(inv.sites.GetOr([]), OfSite(), f, onSite);
  }

  lemma NamesOfEntries(inv: Inventory, p: Entry -> bool, onHost: Host -> bool, onGuest: Guest -> bool,
      onSite: Site -> bool)
    requires forall h :: h in inv.hosts ==> p(OfHost()(h)) == onHost(h)
    requires forall g :: g in inv.guests ==> p(OfGuest()(g)) == onGuest(g)
    requires forall s :: s in inv.sites.GetOr([]) ==> p(OfSite()(s)) == onSite(s)
    ensures Names(Entries(inv), p) == HostsIf(inv, onHost) + GuestsIf(inv, onGuest) + SitesIf(inv, onSite)
  {
    FlatOfEntries(inv, NamesIf(p), (h: Host) => if onHost(h) then [h.name] else [],
      (g: Guest) => if onGuest(g) then [g.name] else [], (s: Site) => if onSite(s) then [s.name] else []);
  }

  lemma NobodyNamed(inv: Inventory)
    ensures HostsIf(inv, (h: Host) => false) == [] && SitesIf(inv, (s: Site) => false) == []
  {
    FlatIsEmptyExactlyWhen(inv.hosts, (h: Host) => if ((h: Host) => false)(h) then [h.name] else []);
    FlatIsEmptyExactlyWhen(inv.sites.GetOr([]), (s: Site) => if ((s: Site) => false)(s) then [s.name] else []);
  }

  lemma FlaggedNames(inv: Inventory)
    ensures Names(Entries(inv), IsProxy()) == Proxies(inv)
    ensures Names(Entries(inv), IsBellhop()) == Bellhops(inv)
    ensures Names(Entries(inv), IsAuthentik()) == Authentiks(inv)
    ensures Names(Entries(inv), IsForwardGated()) == GatedNames(inv)
  {
    NobodyNamed(inv);
    NamesOfEntries(inv, IsProxy(), (h: Host) => h.proxy == Some(true), (g: Guest) => g.proxy == Some(true),
        (s: Site) => false);
    NamesOfEntries(inv, IsBellhop(), (h: Host) => false, (g: Guest) => g.bellhop == Some(true), (s: Site) => false);
    NamesOfEntries(inv, IsAuthentik(), (h: Host) => h.authentik == Some(true), (g: Guest) => g.authentik == Some(true),
      (s: Site) => false);
    NamesOfEntries(inv, IsForwardGated(), (h: Host) => ThroughTheOutpost(h.gate),
        (g: Guest) => ThroughTheOutpost(g.gate),
      (s: Site) => ThroughTheOutpost(s.gate));
  }

  lemma InEntries(inv: Inventory, e: Entry)
    ensures e in Entries(inv) <==>
            || (exists h :: h in inv.hosts && e == OfHost()(h)) || (exists g :: g in inv.guests && e == OfGuest()(g))
            || (exists s :: s in inv.sites.GetOr([]) && e == OfSite()(s))
  {
    InMap(inv.hosts, OfHost(), e);
    InMap(inv.guests, OfGuest(), e);
    InMap(inv.sites.GetOr([]), OfSite(), e);
  }

  lemma InMap<T, U>(s: seq<T>, f: T -> U, y: U)
    ensures y in Map(s, f) <==> exists x :: x in s && y == f(x)
  {
    if y in Map(s, f) {
      var i :| 0 <= i < |s| && Map(s, f)[i] == y;
      assert s[i] in s;
    }
    if x :| x in s && y == f(x) {
      var i :| 0 <= i < |s| && s[i] == x;
      assert Map(s, f)[i] == y;
    }
  }

  lemma {:induction false} InFlat<T, U>(s: seq<T>, f: T -> seq<U>, y: U)
    ensures y in Flat(s, f) <==> exists x :: x in s && y in f(x)
  {
    if s != [] {
      InFlat(s[1..], f, y);
      assert forall x :: x in s <==> x == s[0] || x in s[1..];
    }
  }

  lemma AuthentikIps(inv: Inventory)
    ensures Names(Entries(inv), IsAuthentikWithIp()) != [] <==> SomeAuthentikHasIp(inv)
  {
    NamesAreEmptyExactlyWhen(Entries(inv), IsAuthentikWithIp());
    forall e ensures e in Entries(inv) <==>
      || (exists h :: h in inv.hosts && e == OfHost()(h)) || (exists g :: g in inv.guests && e == OfGuest()(g))
      || (exists s :: s in inv.sites.GetOr([]) && e == OfSite()(s)) { InEntries(inv, e); }
    forall h | h in inv.hosts ensures OfHost()(h) in Entries(inv) { InEntries(inv, OfHost()(h)); }
    forall g | g in inv.guests ensures OfGuest()(g) in Entries(inv) { InEntries(inv, OfGuest()(g)); }
  }

  // ---- Each kind of problem ----

  lemma FlagsAndGates(inv: Inventory, lower: string -> string, p: Problem)
    ensures p in FlagProblems(Entries(inv)) <==>
            (p.SeveralProxies? || p.SeveralBellhops? || p.SeveralAuthentiks?) && IsProblem(inv, lower, p)
    ensures p in GateProblems(Entries(inv)) <==>
            (p.GatedWithoutAuthentik? || p.GatedWithoutAuthentikIp?) && IsProblem(inv, lower, p)
  {
    Flags(inv, lower, p);
    Gates(inv, lower, p);
  }

  lemma Flags(inv: Inventory, lower: string -> string, p: Problem)
    ensures p in FlagProblems(Entries(inv)) <==>
            (p.SeveralProxies? || p.SeveralBellhops? || p.SeveralAuthentiks?) && IsProblem(inv, lower, p)
  {
    FlaggedNames(inv);
  }

  lemma Gates(inv: Inventory, lower: string -> string, p: Problem)
    ensures p in GateProblems(Entries(inv)) <==>
            (p.GatedWithoutAuthentik? || p.GatedWithoutAuthentikIp?) && IsProblem(inv, lower, p)
  {
    FlaggedNames(inv);
    AuthentikIps(inv);
  }

  lemma KnownHosts(inv: Inventory, name: string)
    ensures name in HostNames(Entries(inv)) <==> exists h :: h in inv.hosts && h.name == name
  {
    if e :| e in Entries(inv) && e.owner == HostOwner && e.name == name { InEntries(inv, e); }
    forall h | h in inv.hosts && h.name == name ensures name in HostNames(Entries(inv)) { InEntries(inv, OfHost()(h)); }
  }

  lemma Unknowns(inv: Inventory, lower: string -> string, p: Problem)
    ensures p in Flat(Entries(inv), HostProblem(HostNames(Entries(inv)))) <==>
            p.UnknownHost? && IsProblem(inv, lower, p)
  {
    var known := HostNames(Entries(inv));
    InFlat(Entries(inv), HostProblem(known), p);
    if e :| e in Entries(inv) && p in HostProblem(known)(e) {
      UnknownIsOne(inv, lower, e, p);
    }
    if p.UnknownHost? && IsProblem(inv, lower, p) {
      var g :| g in inv.guests && g.name == p.guest && g.host == p.host;
      UnknownIsFound(inv, g, p);
    }
  }

  lemma UnknownIsOne(inv: Inventory, lower: string -> string, e: Entry, p: Problem)
    requires e in Entries(inv) && p in HostProblem(HostNames(Entries(inv)))(e)
    ensures p.UnknownHost? && IsProblem(inv, lower, p)
  {
    InEntries(inv, e);
    KnownHosts(inv, p.host);
  }

  lemma UnknownIsFound(inv: Inventory, g: Guest, p: Problem)
    requires g in inv.guests && p == UnknownHost(g.name, g.host) && forall h :: h in inv.hosts ==> h.name != g.host
    ensures OfGuest()(g) in Entries(inv) && p in HostProblem(HostNames(Entries(inv)))(OfGuest()(g))
  {
    KnownHosts(inv, g.host);
    InEntries(inv, OfGuest()(g));
  }

  lemma Lacking(inv: Inventory, lower: string -> string, p: Problem)
    ensures p in Flat(Entries(inv), IpProblem()) <==> p.SubdomainsWithoutIp? && IsProblem(inv, lower, p)
  {
    InFlat(Entries(inv), IpProblem(), p);
    if e :| e in Entries(inv) && p in IpProblem()(e) {
      LackingIs(e, p);
      LackingIsOne(inv, e);
    }
    if p.SubdomainsWithoutIp? && ServedFromNowhere(inv, p.name) {
      var e := EntryWithoutIp(inv, p.name);
      LackingIs(e, p);
    }
  }

  lemma LackingIs(e: Entry, p: Problem)
    ensures p in IpProblem()(e) <==> LacksIp(e) && p == SubdomainsWithoutIp(e.name)
  {
  }

  lemma LackingIsOne(inv: Inventory, e: Entry)
    requires e in Entries(inv) && LacksIp(e)
    ensures ServedFromNowhere(inv, e.name)
  {
    InEntries(inv, e);
  }

  lemma EntryWithoutIp(inv: Inventory, name: string) returns (e: Entry)
    requires ServedFromNowhere(inv, name)
    ensures e in Entries(inv) && LacksIp(e) && e.name == name
  {
    if h :| h in inv.hosts && h.name == name && HasNoSource(h.proxyManual, h.subdomains, h.ip) {
      e := OfHost()(h);
    } else if g :| g in inv.guests && g.name == name && HasNoSource(g.proxyManual, g.subdomains, g.ip) {
      e := OfGuest()(g);
    } else {
      var s :| s in inv.sites.GetOr([]) && s.name == name && s.subdomains != [] && s.ip == "";
      e := OfSite()(s);
    }
    InEntries(inv, e);
  }

  // ---- Shared claims ----

  lemma {:induction false} OwnersConcat<K>(a: seq<(K, string)>, b: seq<(K, string)>, key: K)
    ensures Owners(a + b, key) == Owners(a, key) + Owners(b, key)
  {
    if b == [] {
      assert a + b == a;
    } else {
      var n := |b| - 1;
      assert (a + b)[..|a| + n] == a + b[..n] && (a + b)[|a| + n] == b[n];
      OwnersConcat(a, b[..n], key);
    }
  }

  function OwnersIn<K(==)>(claims: Entry -> seq<(K, string)>, key: K): Entry -> seq<string> {
    (e: Entry) => Owners(claims(e), key)
  }

  lemma {:induction false} OwnersOfFlat<K>(entries: seq<Entry>, claims: Entry -> seq<(K, string)>, key: K)
    ensures Owners(Flat(entries, claims), key) == Flat(entries, OwnersIn(claims, key))
  {
    if entries != [] {
      OwnersConcat(claims(entries[0]), Flat(entries[1..], claims), key);
      OwnersOfFlat(entries[1..], claims, key);
    }
  }

  lemma SharedKey<K(!new)>(claims: seq<(K, string)>, key: K)
    requires |Owners(claims, key)| > 1
    ensures key in Keys(claims)
  {
    KeysAreTheClaimed(claims);
    assert multiset(Claimed(claims))[key] > 0;
    assert key in Claimed(claims);
  }

  lemma InShared<K(!new)>(claims: seq<(K, string)>, problem: (K, seq<string>) -> Problem, p: Problem)
    ensures p in Shared(claims, problem) <==>
            exists key :: |Owners(claims, key)| > 1 && p == problem(key, Owners(claims, key))
  {
    InFlat(Keys(claims), ProblemIfShared(claims, problem), p);
    if key :| |Owners(claims, key)| > 1 && p == problem(key, Owners(claims, key)) {
      SharedKey(claims, key);
      assert p in ProblemIfShared(claims, problem)(key);
    }
  }

  lemma {:induction false} TimesOfClaims(name: string, subdomains: seq<string>, lower: string -> string, key: string)
    ensures Owners(Map(subdomains, (s: string) => (lower(s), name)), key) == TimesClaimed(name, subdomains, lower, key)
  {
    if subdomains != [] {
      var n := |subdomains| - 1;
      var claim := (s: string) => (lower(s), name);
      TimesOfClaims(name, subdomains[..n], lower, key);
      FlatSnoc(subdomains, n, (s: string) => if lower(s) == key then [name] else []);
      assert subdomains[..n + 1] == subdomains;
      assert Map(subdomains, claim)[..n] == Map(subdomains[..n], claim);
    }
  }

  function NoNames<T>(): T -> seq<string> {
    (x: T) => []
  }

  lemma OneClaim<K>(claim: (K, string), key: K)
    ensures Owners([claim], key) == (if claim.0 == key then [claim.1] else []) && Owners<K>([], key) == []
  {
    assert [claim][..0] == [];
  }

  lemma VmidBaseOwners(inv: Inventory, key: nat)
    ensures Owners(Flat(Entries(inv), VmidBaseClaim()), key) == WithVmidBase(inv, key)
  {
    var onHost := (h: Host) => if h.midScheme.Some? && h.midScheme.value.vmidBase == key then [h.name] else [];
    forall h: Host ensures OwnersIn(VmidBaseClaim(), key)(OfHost()(h)) == onHost(h) {
      if h.midScheme.Some? { OneClaim((h.midScheme.value.vmidBase, h.name), key); }
    }
    OwnersOfFlat(Entries(inv), VmidBaseClaim(), key);
    FlatOfEntries(inv, OwnersIn(VmidBaseClaim(), key), onHost, NoNames<Guest>(), NoNames<Site>());
    FlatIsEmptyExactlyWhen(inv.guests, NoNames<Guest>());
    FlatIsEmptyExactlyWhen(inv.sites.GetOr([]), NoNames<Site>());
    FlatAlike(inv.hosts, onHost,
        (h: Host) => if ((h: Host) => h.midScheme.Some? && h.midScheme.value.vmidBase == key)(h)
                                              then [h.name] else []);
  }

  lemma IpPrefixOwners(inv: Inventory, key: string)
    ensures Owners(Flat(Entries(inv), IpPrefixClaim()), key) == WithIpPrefix(inv, key)
  {
    var onHost := (h: Host) => if h.midScheme.Some? && h.midScheme.value.ipPrefix == key then [h.name] else [];
    forall h: Host ensures OwnersIn(IpPrefixClaim(), key)(OfHost()(h)) == onHost(h) {
      if h.midScheme.Some? { OneClaim((h.midScheme.value.ipPrefix, h.name), key); }
    }
    OwnersOfFlat(Entries(inv), IpPrefixClaim(), key);
    FlatOfEntries(inv, OwnersIn(IpPrefixClaim(), key), onHost, NoNames<Guest>(), NoNames<Site>());
    FlatIsEmptyExactlyWhen(inv.guests, NoNames<Guest>());
    FlatIsEmptyExactlyWhen(inv.sites.GetOr([]), NoNames<Site>());
    FlatAlike(inv.hosts, onHost,
        (h: Host) => if ((h: Host) => h.midScheme.Some? && h.midScheme.value.ipPrefix == key)(h)
                                              then [h.name] else []);
  }

  lemma SubdomainOwners(inv: Inventory, lower: string -> string, key: string)
    ensures Owners(Flat(Entries(inv), SubdomainClaims(lower)), key) == Claimants(inv, lower, key)
  {
    OwnersOfFlat(Entries(inv), SubdomainClaims(lower), key);
    forall h: Host ensures OwnersIn(SubdomainClaims(lower), key)(OfHost()(h))
        == TimesClaimed(h.name, h.subdomains.GetOr([]), lower, key) {
      TimesOfClaims(h.name, h.subdomains.GetOr([]), lower, key);
    }
    forall g: Guest ensures OwnersIn(SubdomainClaims(lower), key)(OfGuest()(g))
        == TimesClaimed(g.name, g.subdomains.GetOr([]), lower, key) {
      TimesOfClaims(g.name, g.subdomains.GetOr([]), lower, key);
    }
    forall s: Site ensures OwnersIn(SubdomainClaims(lower), key)(OfSite()(s))
        == TimesClaimed(s.name, s.subdomains, lower, key) {
      TimesOfClaims(s.name, s.subdomains, lower, key);
    }
    FlatOfEntries(inv, OwnersIn(SubdomainClaims(lower), key),
      (h: Host) => TimesClaimed(h.name, h.subdomains.GetOr([]), lower, key),
      (g: Guest) => TimesClaimed(g.name, g.subdomains.GetOr([]), lower, key),
      (s: Site) => TimesClaimed(s.name, s.subdomains, lower, key));
  }

  lemma SharedBases(inv: Inventory, lower: string -> string, p: Problem)
    ensures p in Shared(Flat(Entries(inv), VmidBaseClaim()), VmidBaseProblem()) <==>
            p.SharedVmidBase? && IsProblem(inv, lower, p)
  {
    var claims := Flat(Entries(inv), VmidBaseClaim());
    InShared(claims, VmidBaseProblem(), p);
    if key :| |Owners(claims, key)| > 1 && p == VmidBaseProblem()(key, Owners(claims, key)) {
      VmidBaseOwners(inv, key);
    }
    if p.SharedVmidBase? && IsProblem(inv, lower, p) {
      VmidBaseOwners(inv, p.vmidBase);
      assert p == VmidBaseProblem()(p.vmidBase, Owners(claims, p.vmidBase));
    }
  }

  lemma SharedPrefixes(inv: Inventory, lower: string -> string, p: Problem)
    ensures p in Shared(Flat(Entries(inv), IpPrefixClaim()), IpPrefixProblem()) <==>
            p.SharedIpPrefix? && IsProblem(inv, lower, p)
  {
    var claims := Flat(Entries(inv), IpPrefixClaim());
    InShared(claims, IpPrefixProblem(), p);
    if key :| |Owners(claims, key)| > 1 && p == IpPrefixProblem()(key, Owners(claims, key)) {
      IpPrefixOwners(inv, key);
    }
    if p.SharedIpPrefix? && IsProblem(inv, lower, p) {
      IpPrefixOwners(inv, p.ipPrefix);
      assert p == IpPrefixProblem()(p.ipPrefix, Owners(claims, p.ipPrefix));
    }
  }

  lemma SharedSubdomains(inv: Inventory, lower: string -> string, p: Problem)
    ensures p in Shared(Flat(Entries(inv), SubdomainClaims(lower)), SubdomainProblem()) <==>
            p.SharedSubdomain? && IsProblem(inv, lower, p)
  {
    var claims := Flat(Entries(inv), SubdomainClaims(lower));
    InShared(claims, SubdomainProblem(), p);
    if key :| |Owners(claims, key)| > 1 && p == SubdomainProblem()(key, Owners(claims, key)) {
      SubdomainOwners(inv, lower, key);
    }
    if p.SharedSubdomain? && IsProblem(inv, lower, p) {
      SubdomainOwners(inv, lower, p.subdomain);
      assert p == SubdomainProblem()(p.subdomain, Owners(claims, p.subdomain));
    }
  }

  // ---- The report ----

  /** validateInventory reports a problem if and only if the fields of the inventory make it one. */
  lemma ReportedExactlyWhen(inv: Inventory, lower: string -> string, p: Problem)
    ensures p in Problems(Entries(inv), lower) <==> IsProblem(inv, lower, p)
  {
    FlagsAndGates(inv, lower, p);
    Unknowns(inv, lower, p);
    Lacking(inv, lower, p);
    SharedBases(inv, lower, p);
    SharedPrefixes(inv, lower, p);
    SharedSubdomains(inv, lower, p);
  }

  /** So an inventory is valid if and only if its fields make no problem. */
  lemma ValidExactlyWhen(inv: Inventory, lower: string -> string)
    ensures Valid(inv, lower) <==> forall p :: !IsProblem(inv, lower, p)
  {
    NoProblemsExactlyWhen(inv, lower);
    forall p ensures p in Problems(Entries(inv), lower) <==> IsProblem(inv, lower, p) {
      ReportedExactlyWhen(inv, lower, p);
    }
    if Problems(Entries(inv), lower) != [] { assert Problems(Entries(inv), lower)[0] in Problems(Entries(inv), lower); }
  }

  // ---- The order of the report ----

  /** The kinds in the order in which they are reported. */
  function Rank(p: Problem): nat {
    match p
    case SeveralProxies(_) => 0
    case SeveralBellhops(_) => 1
    case SeveralAuthentiks(_) => 2
    case GatedWithoutAuthentik(_) => 3
    case GatedWithoutAuthentikIp(_) => 3
    case UnknownHost(_, _) => 4
    case SharedVmidBase(_, _) => 5
    case SharedIpPrefix(_, _) => 6
    case SubdomainsWithoutIp(_) => 7
    case SharedSubdomain(_, _) => 8
  }

  ghost predicate Ranked(s: seq<Problem>, low: nat, high: nat) {
    && (forall i :: 0 <= i < |s| ==> low <= Rank(s[i]) <= high)
    && forall i, j :: 0 <= i < j < |s| ==> Rank(s[i]) <= Rank(s[j])
  }

  lemma RankedConcat(a: seq<Problem>, b: seq<Problem>, low: nat, mid: nat, next: nat, high: nat)
    requires Ranked(a, low, mid) && Ranked(b, next, high) && low <= mid <= next <= high
    ensures Ranked(a + b, low, high)
  {
  }

  lemma OneKind(s: seq<Problem>, rank: nat)
    requires forall p :: p in s ==> Rank(p) == rank
    ensures Ranked(s, rank, rank)
  {
    assert forall i :: 0 <= i < |s| ==> s[i] in s;
  }

  lemma FlagsAreRanked(entries: seq<Entry>)
    ensures Ranked(FlagProblems(entries), 0, 2)
  {
    var proxies, bellhops := Names(entries, IsProxy()), Names(entries, IsBellhop());
    var authentiks := Names(entries, IsAuthentik());
    var a := OneProblemIf(|proxies| > 1, SeveralProxies(proxies));
    var b := OneProblemIf(|bellhops| > 1, SeveralBellhops(bellhops));
    var c := OneProblemIf(|authentiks| > 1, SeveralAuthentiks(authentiks));
    OneKind(a, 0);
    OneKind(b, 1);
    OneKind(c, 2);
    RankedConcat(a, b, 0, 0, 1, 1);
    RankedConcat(a + b, c, 0, 1, 2, 2);
  }

  lemma GatesAreRanked(inv: Inventory, lower: string -> string)
    ensures Ranked(GateProblems(Entries(inv)), 3, 3)
  {
    forall p | p in GateProblems(Entries(inv)) ensures Rank(p) == 3 { FlagsAndGates(inv, lower, p); }
    OneKind(GateProblems(Entries(inv)), 3);
  }

  lemma UnknownsAreRanked(inv: Inventory, lower: string -> string)
    ensures Ranked(Flat(Entries(inv), HostProblem(HostNames(Entries(inv)))), 4, 4)
  {
    var unknown := Flat(Entries(inv), HostProblem(HostNames(Entries(inv))));
    forall p | p in unknown ensures Rank(p) == 4 { Unknowns(inv, lower, p); }
    OneKind(unknown, 4);
  }

  lemma BasesAreRanked(inv: Inventory, lower: string -> string)
    ensures Ranked(Shared(Flat(Entries(inv), VmidBaseClaim()), VmidBaseProblem()), 5, 5)
  {
    var problems := Shared(Flat(Entries(inv), VmidBaseClaim()), VmidBaseProblem());
    forall p | p in problems ensures Rank(p) == 5 { SharedBases(inv, lower, p); }
    OneKind(problems, 5);
  }

  lemma PrefixesAreRanked(inv: Inventory, lower: string -> string)
    ensures Ranked(Shared(Flat(Entries(inv), IpPrefixClaim()), IpPrefixProblem()), 6, 6)
  {
    var problems := Shared(Flat(Entries(inv), IpPrefixClaim()), IpPrefixProblem());
    forall p | p in problems ensures Rank(p) == 6 { SharedPrefixes(inv, lower, p); }
    OneKind(problems, 6);
  }

  lemma LackingAreRanked(inv: Inventory, lower: string -> string)
    ensures Ranked(Flat(Entries(inv), IpProblem()), 7, 7)
  {
    var problems := Flat(Entries(inv), IpProblem());
    forall p | p in problems ensures Rank(p) == 7 { Lacking(inv, lower, p); }
    OneKind(problems, 7);
  }

  lemma SubdomainsAreRanked(inv: Inventory, lower: string -> string)
    ensures Ranked(Shared(Flat(Entries(inv), SubdomainClaims(lower)), SubdomainProblem()), 8, 8)
  {
    var problems := Shared(Flat(Entries(inv), SubdomainClaims(lower)), SubdomainProblem());
    forall p | p in problems ensures Rank(p) == 8 { SharedSubdomains(inv, lower, p); }
    OneKind(problems, 8);
  }

  lemma PairIsRanked(a: seq<Problem>, b: seq<Problem>, rank: nat)
    requires Ranked(a, rank, rank) && Ranked(b, rank + 1, rank + 1)
    ensures Ranked(a + b, rank, rank + 1)
  {
  }

  lemma SharedProblemsAreRanked(inv: Inventory, lower: string -> string)
    ensures Ranked(SharedProblems(Entries(inv)), 5, 6)
  {
    BasesAreRanked(inv, lower);
    PrefixesAreRanked(inv, lower);
    PairIsRanked(Shared(Flat(Entries(inv), VmidBaseClaim()), VmidBaseProblem()),
      Shared(Flat(Entries(inv), IpPrefixClaim()), IpPrefixProblem()), 5);
  }

  lemma SubdomainProblemsAreRanked(inv: Inventory, lower: string -> string)
    ensures Ranked(SubdomainProblems(Entries(inv), lower), 7, 8)
  {
    LackingAreRanked(inv, lower);
    SubdomainsAreRanked(inv, lower);
    PairIsRanked(Flat(Entries(inv), IpProblem()),
      Shared(Flat(Entries(inv), SubdomainClaims(lower)), SubdomainProblem()), 7);
  }

  lemma FivePiecesAreRanked(a: seq<Problem>, b: seq<Problem>, c: seq<Problem>, d: seq<Problem>, e: seq<Problem>)
    requires Ranked(a, 0, 2) && Ranked(b, 3, 3) && Ranked(c, 4, 4) && Ranked(d, 5, 6) && Ranked(e, 7, 8)
    ensures Ranked(a + b + c + d + e, 0, 8)
  {
    RankedConcat(a, b, 0, 2, 3, 3);
    RankedConcat(a + b, c, 0, 3, 4, 4);
    RankedConcat(a + b + c, d, 0, 4, 5, 6);
    RankedConcat(a + b + c + d, e, 0, 6, 7, 8);
  }

  /** The problems come kind after kind. */
  lemma ReportIsRanked(inv: Inventory, lower: string -> string)
    ensures Ranked(Problems(Entries(inv), lower), 0, 8)
  {
    var entries := Entries(inv);
    FlagsAreRanked(entries);
    GatesAreRanked(inv, lower);
    UnknownsAreRanked(inv, lower);
    SharedProblemsAreRanked(inv, lower);
    SubdomainProblemsAreRanked(inv, lower);
    FivePiecesAreRanked(FlagProblems(entries), GateProblems(entries), Flat(entries, HostProblem(HostNames(entries))),
      SharedProblems(entries), SubdomainProblems(entries, lower));
  }
}
