/** validateInventory: what it reports, and when it reports nothing (src/lib/inventory.ts). */
module InventoryValidation {
  import opened Wrappers
  import opened Ordering
  import opened InventoryModel

  datatype Owner = HostOwner | GuestOwner | SiteOwner

  datatype Auth = Ungated | ByForwardAuth | ByOidc

  /** What the rules look at, for an entry of any kind; `host` is a guest's host. */
  datatype Entry = Entry(
    owner: Owner,
    name: string,
    subdomains: seq<string>,
    ip: Option<string>,
    proxy: bool,
    proxyManual: bool,
    authentik: bool,
    bellhop: bool,
    auth: Auth,
    midScheme: Option<MidScheme>,
    host: Option<string>)

  datatype Problem =
    | SeveralProxies(names: seq<string>)
    | SeveralBellhops(names: seq<string>)
    | SeveralAuthentiks(names: seq<string>)
    | GatedWithoutAuthentik(names: seq<string>)
    | GatedWithoutAuthentikIp(names: seq<string>)
    | UnknownHost(guest: string, host: string)
    | SharedVmidBase(vmidBase: nat, owners: seq<string>)
    | SharedIpPrefix(ipPrefix: string, owners: seq<string>)
    | SubdomainsWithoutIp(name: string)
    | SharedSubdomain(subdomain: string, owners: seq<string>)

  predicate IsTrue(flag: Option<bool>) {
    flag == Some(true)
  }

  /** effectiveAuth: the mode means nothing without a group. */
  function EffectiveAuth(gate: Gate): Auth {
    if gate.authGroup.GetOr("") == "" then Ungated
    else if gate.authMode == Some(Oidc) then ByOidc
    else ByForwardAuth
  }

  function OfHost(): Host -> Entry {
    (h: Host) => Entry(HostOwner, h.name, h.subdomains.GetOr([]), h.ip, IsTrue(h.proxy), IsTrue(h.proxyManual),
                       IsTrue(h.authentik), false, EffectiveAuth(h.gate), h.midScheme, None)
  }

  function OfGuest(): Guest -> Entry {
    (g: Guest) => Entry(GuestOwner, g.name, g.subdomains.GetOr([]), g.ip, IsTrue(g.proxy), IsTrue(g.proxyManual),
                        IsTrue(g.authentik), IsTrue(g.bellhop), EffectiveAuth(g.gate), None, Some(g.host))
  }

  function OfSite(): Site -> Entry {
    (s: Site) => Entry(SiteOwner, s.name, s.subdomains, Some(s.ip), false, false, false, false, EffectiveAuth(s.gate),
        None, None)
  }

  function Entries(inv: Inventory): seq<Entry> {
    Map(inv.hosts, OfHost()) + Map(inv.guests, OfGuest()) + Map(inv.sites.GetOr([]), OfSite())
  }

  // ---- What is reported ----

  predicate HasIp(e: Entry) {
    !NoIp(e.ip)
  }

  predicate LacksIp(e: Entry) {
    !e.proxyManual && e.subdomains != [] && !HasIp(e)
  }

  function NamesIf(p: Entry -> bool): Entry -> seq<string> {
    (e: Entry) => if p(e) then [e.name] else []
  }

  function Names(entries: seq<Entry>, p: Entry -> bool): seq<string> {
    Flat(entries, NamesIf(p))
  }

  function IsProxy(): Entry -> bool { (e: Entry) => e.proxy }
  function IsBellhop(): Entry -> bool { (e: Entry) => e.bellhop }
  function IsAuthentik(): Entry -> bool { (e: Entry) => e.authentik }
  function IsAuthentikWithIp(): Entry -> bool { (e: Entry) => e.authentik && HasIp(e) }
  function IsForwardGated(): Entry -> bool { (e: Entry) => e.auth == ByForwardAuth }

  function HostNames(entries: seq<Entry>): set<string> {
    set e | e in entries && e.owner == HostOwner :: e.name
  }

  function HostProblem(known: set<string>): Entry -> seq<Problem> {
    (e: Entry) => if e.host.Some? && e.host.value !in known then [UnknownHost(e.name, e.host.value)] else []
  }

  function IpProblem(): Entry -> seq<Problem> {
    (e: Entry) => if LacksIp(e) then [SubdomainsWithoutIp(e.name)] else []
  }

  /** Claims, as pairs of what is claimed and who claims it. */
  function VmidBaseClaim(): Entry -> seq<(nat, string)> {
    (e: Entry) => if e.midScheme.Some? then [(e.midScheme.value.vmidBase, e.name)] else []
  }

  function IpPrefixClaim(): Entry -> seq<(string, string)> {
    (e: Entry) => if e.midScheme.Some? then [(e.midScheme.value.ipPrefix, e.name)] else []
  }

  function SubdomainClaims(lower: string -> string): Entry -> seq<(string, string)> {
    (e: Entry) => Map(e.subdomains, (s: string) => (lower(s), e.name))
  }

  /** What is claimed, in order of the first claim. */
  function Keys<K(==)>(claims: seq<(K, string)>): seq<K> {
    if claims == [] then []
    else
      var before, last := Keys(claims[..|claims| - 1]), claims[|claims| - 1].0;
      if last in before then before else before + [last]
  }

  function Owners<K(==)>(claims: seq<(K, string)>, key: K): seq<string> {
    if claims == [] then []
    else
      var before, last := Owners(claims[..|claims| - 1], key), claims[|claims| - 1];
      if last.0 == key then before + [last.1] else before
  }

  function ProblemIfShared<K(==)>(claims: seq<(K, string)>, problem: (K, seq<string>) -> Problem): K -> seq<Problem> {
    (key: K) => if |Owners(claims, key)| > 1 then [problem(key, Owners(claims, key))] else []
  }

  function Shared<K(==)>(claims: seq<(K, string)>, problem: (K, seq<string>) -> Problem): seq<Problem> {
    Flat(Keys(claims), ProblemIfShared(claims, problem))
  }

  function VmidBaseProblem(): (nat, seq<string>) -> Problem {
    (b: nat, owners: seq<string>) => SharedVmidBase(b, owners)
  }
  function IpPrefixProblem(): (string, seq<string>) -> Problem {
    (p: string, owners: seq<string>) => SharedIpPrefix(p, owners)
  }
  function SubdomainProblem(): (string, seq<string>) -> Problem {
    (s: string, owners: seq<string>) => SharedSubdomain(s, owners)
  }

  function OneProblemIf(condition: bool, problem: Problem): seq<Problem> {
    if condition then [problem] else []
  }

  function FlagProblems(entries: seq<Entry>): seq<Problem> {
    var proxies, bellhops, authentiks :=
        Names(entries, IsProxy()), Names(entries, IsBellhop()), Names(entries, IsAuthentik());
    OneProblemIf(|proxies| > 1, SeveralProxies(proxies))
    + OneProblemIf(|bellhops| > 1, SeveralBellhops(bellhops))
    + OneProblemIf(|authentiks| > 1, SeveralAuthentiks(authentiks))
  }

  function GateProblems(entries: seq<Entry>): seq<Problem> {
    var gated, authentiks := Names(entries, IsForwardGated()), Names(entries, IsAuthentik());
    OneProblemIf(gated != [] && authentiks == [], GatedWithoutAuthentik(gated))
    + OneProblemIf(gated != [] && authentiks != [] && Names(entries, IsAuthentikWithIp()) == [],
        GatedWithoutAuthentikIp(gated))
  }

  function SharedProblems(entries: seq<Entry>): seq<Problem> {
    Shared(Flat(entries, VmidBaseClaim()), VmidBaseProblem())
        + Shared(Flat(entries, IpPrefixClaim()), IpPrefixProblem())
  }

  function SubdomainProblems(entries: seq<Entry>, lower: string -> string): seq<Problem> {
    Flat(entries, IpProblem()) + Shared(Flat(entries, SubdomainClaims(lower)), SubdomainProblem())
  }

  function Problems(entries: seq<Entry>, lower: string -> string): seq<Problem> {
    FlagProblems(entries) + GateProblems(entries) + Flat(entries, HostProblem(HostNames(entries)))
    + SharedProblems(entries) + SubdomainProblems(entries, lower)
  }

  // ---- The code ----

  /** The grouping loop: a map from what is claimed to its owners, in order of the first claim. */
  method Group<K(==)>(claims: seq<(K, string)>) returns (keys: seq<K>, owners: map<K, seq<string>>)
    ensures keys == Keys(claims) && (forall k :: k in keys <==> k in owners)
    ensures forall k :: k in owners ==> owners[k] == Owners(claims, k)
  {
    keys, owners := [], map[];
    for i := 0 to |claims|
      invariant keys == Keys(claims[..i]) && (forall k :: k in keys <==> k in owners)
      invariant forall k :: k in owners ==> owners[k] == Owners(claims[..i], k)
      invariant forall k :: k !in owners ==> Owners(claims[..i], k) == []
    {
      var (key, name) := claims[i];
      assert claims[..i + 1][..i] == claims[..i] && claims[..i + 1][i] == claims[i];
      if key !in owners { keys := keys + [key]; }
      owners := owners[key := Get(owners, key).GetOr([]) + [name]];
    }
    assert claims[..|claims|] == claims;
  }

  /** A loop that pushes a problem now and then. */
  method ReportEach<T>(s: seq<T>, check: T -> seq<Problem>) returns (problems: seq<Problem>)
    ensures problems == Flat(s, check)
  {
    problems := [];
    for i := 0 to |s|
      invariant Flat(s, check) == problems + Flat(s[i..], check)
    {
      assert s[i..][1..] == s[i + 1..];
      problems := problems + check(s[i]);
    }
  }

  method ReportShared<K(==)>(claims: seq<(K, string)>, problem: (K, seq<string>) -> Problem)
    returns (problems: seq<Problem>)
    ensures problems == Shared(claims, problem)
  {
    var keys, owners := Group(claims);
    var check := (key: K) => if key in owners && |owners[key]| > 1 then [problem(key, owners[key])] else [];
    problems := ReportEach(keys, check);
    FlatAlike(keys, check, ProblemIfShared(claims, problem));
  }

  method ReportFlags(entries: seq<Entry>) returns (problems: seq<Problem>)
    ensures problems == FlagProblems(entries)
  {
    problems := [];
    var proxies := Names(entries, IsProxy());
    if |proxies| > 1 { problems := problems + [SeveralProxies(proxies)]; }
    var bellhops := Names(entries, IsBellhop());
    if |bellhops| > 1 { problems := problems + [SeveralBellhops(bellhops)]; }
    var authentiks := Names(entries, IsAuthentik());
    if |authentiks| > 1 { problems := problems + [SeveralAuthentiks(authentiks)]; }
  }

  method ReportGates(entries: seq<Entry>) returns (problems: seq<Problem>)
    ensures problems == GateProblems(entries)
  {
    problems := [];
    var authentiks, gated := Names(entries, IsAuthentik()), Names(entries, IsForwardGated());
    if gated != [] && authentiks == [] { problems := problems + [GatedWithoutAuthentik(gated)]; }
    if gated != [] && authentiks != [] && Names(entries, IsAuthentikWithIp()) == [] {
      problems := problems + [GatedWithoutAuthentikIp(gated)];
    }
  }

  /** validateInventory. */
  method Validate(inv: Inventory, lower: string -> string) returns (problems: seq<Problem>)
    ensures problems == Problems(Entries(inv), lower)
    ensures problems == [] <==> Valid(inv, lower)
  {
    var entries := Entries(inv);
    var flags := ReportFlags(entries);
    var gates := ReportGates(entries);
    var unknown := ReportEach(entries, HostProblem(HostNames(entries)));
    var bases := ReportShared(Flat(entries, VmidBaseClaim()), VmidBaseProblem());
    var prefixes := ReportShared(Flat(entries, IpPrefixClaim()), IpPrefixProblem());
    var lacking := ReportEach(entries, IpProblem());
    var subdomains := ReportShared(Flat(entries, SubdomainClaims(lower)), SubdomainProblem());
    problems := flags + gates + unknown + (bases + prefixes) + (lacking + subdomains);
    NoProblemsExactlyWhen(inv, lower);
  }

  // ---- What an inventory without problems is ----

  function Claimed<K>(claims: seq<(K, string)>): seq<K> {
    Map(claims, (c: (K, string)) => c.0)
  }

  ghost predicate AtMostOne(entries: seq<Entry>, p: Entry -> bool) {
    forall i, j :: 0 <= i < j < |entries| ==> !(p(entries[i]) && p(entries[j]))
  }

  ghost predicate FlagsAreUnique(entries: seq<Entry>) {
    AtMostOne(entries, IsProxy()) && AtMostOne(entries, IsBellhop()) && AtMostOne(entries, IsAuthentik())
  }

  ghost predicate GatesAreServed(entries: seq<Entry>) {
    (exists e :: e in entries && e.auth == ByForwardAuth) ==> exists e :: e in entries && e.authentik && HasIp(e)
  }

  ghost predicate HostsAreKnown(entries: seq<Entry>) {
    forall g :: g in entries && g.host.Some? ==> exists h ::
        h in entries && h.owner == HostOwner && h.name == g.host.value
  }

  ghost predicate SchemesAreDisjoint(entries: seq<Entry>) {
    NoDuplicates(Claimed(Flat(entries, VmidBaseClaim()))) && NoDuplicates(Claimed(Flat(entries, IpPrefixClaim())))
  }

  ghost predicate SubdomainsAreServed(entries: seq<Entry>, lower: string -> string) {
    && (forall e :: e in entries && !e.proxyManual && e.subdomains != [] ==> HasIp(e))
    && NoDuplicates(Claimed(Flat(entries, SubdomainClaims(lower))))
  }

  /** The rules, on the entries of any kind. */
  ghost predicate ValidEntries(entries: seq<Entry>, lower: string -> string) {
    && FlagsAreUnique(entries) && GatesAreServed(entries) && HostsAreKnown(entries)
    && SchemesAreDisjoint(entries) && SubdomainsAreServed(entries, lower)
  }

  ghost predicate Valid(inv: Inventory, lower: string -> string) {
    ValidEntries(Entries(inv), lower)
  }

  lemma {:induction false} NamesAreEmptyExactlyWhen(entries: seq<Entry>, p: Entry -> bool)
    ensures Names(entries, p) == [] <==> forall e :: e in entries ==> !p(e)
  {
    if entries != [] {
      NamesAreEmptyExactlyWhen(entries[1..], p);
      assert forall e :: e in entries <==> e == entries[0] || e in entries[1..];
    }
  }

  lemma AtMostOneStep(entries: seq<Entry>, p: Entry -> bool)
    requires entries != []
    ensures AtMostOne(entries, p) <==>
              AtMostOne(entries[1..], p) && (p(entries[0]) ==> forall e :: e in entries[1..] ==> !p(e))
  {
    var rest := entries[1..];
    assert forall i :: 0 <= i < |rest| ==> rest[i] == entries[i + 1];
    if AtMostOne(rest, p) && (p(entries[0]) ==> forall e :: e in rest ==> !p(e)) {
      forall i, j | 0 <= i < j < |entries| ensures !(p(entries[i]) && p(entries[j])) {
        assert entries[j] == rest[j - 1];
        assert i > 0 ==> entries[i] == rest[i - 1];
      }
    }
  }

  lemma {:induction false} AtMostOneName(entries: seq<Entry>, p: Entry -> bool)
    ensures |Names(entries, p)| <= 1 <==> AtMostOne(entries, p)
  {
    if entries != [] {
      AtMostOneName(entries[1..], p);
      AtMostOneStep(entries, p);
      NamesAreEmptyExactlyWhen(entries[1..], p);
    }
  }

  lemma {:induction false} KeysAreTheClaimed<K(!new)>(claims: seq<(K, string)>)
    ensures forall k :: k in Keys(claims) <==> k in Claimed(claims)
    ensures forall k :: |Owners(claims, k)| == multiset(Claimed(claims))[k]
  {
    if claims != [] {
      var before, last := claims[..|claims| - 1], claims[|claims| - 1];
      KeysAreTheClaimed(before);
      assert claims == before + [last];
      assert Claimed(claims) == Claimed(before) + [last.0];
    }
  }

  /** Nothing is reported as shared exactly when nothing is claimed twice. */
  lemma SharedIsEmptyExactlyWhen<K(!new)>(claims: seq<(K, string)>, problem: (K, seq<string>) -> Problem)
    ensures Shared(claims, problem) == [] <==> NoDuplicates(Claimed(claims))
  {
    var counts := multiset(Claimed(claims));
    KeysAreTheClaimed(claims);
    FlatIsEmptyExactlyWhen(Keys(claims), ProblemIfShared(claims, problem));
    NoDuplicatesCounts(Claimed(claims));
    assert forall k :: k !in Claimed(claims) ==> counts[k] == 0;
    assert forall k :: ProblemIfShared(claims, problem)(k) == [] <==> counts[k] <= 1;
  }

  lemma FlagsAreUniqueExactlyWhen(entries: seq<Entry>)
    ensures FlagProblems(entries) == [] <==> FlagsAreUnique(entries)
  {
    AtMostOneName(entries, IsProxy());
    AtMostOneName(entries, IsBellhop());
    AtMostOneName(entries, IsAuthentik());
  }

  lemma GatesAreServedExactlyWhen(entries: seq<Entry>)
    ensures GateProblems(entries) == [] <==> GatesAreServed(entries)
  {
    NamesAreEmptyExactlyWhen(entries, IsForwardGated());
    NamesAreEmptyExactlyWhen(entries, IsAuthentik());
    NamesAreEmptyExactlyWhen(entries, IsAuthentikWithIp());
  }

  lemma HostsAreKnownExactlyWhen(entries: seq<Entry>)
    ensures Flat(entries, HostProblem(HostNames(entries))) == [] <==> HostsAreKnown(entries)
  {
    FlatIsEmptyExactlyWhen(entries, HostProblem(HostNames(entries)));
    assert forall g: Entry :: g.host.Some? ==>
      (g.host.value in HostNames(entries) <==>
          exists h :: h in entries && h.owner == HostOwner && h.name == g.host.value);
  }

  lemma SchemesAreDisjointExactlyWhen(entries: seq<Entry>)
    ensures SharedProblems(entries) == [] <==> SchemesAreDisjoint(entries)
  {
    SharedIsEmptyExactlyWhen(Flat(entries, VmidBaseClaim()), VmidBaseProblem());
    SharedIsEmptyExactlyWhen(Flat(entries, IpPrefixClaim()), IpPrefixProblem());
  }

  lemma NoneLacksIpExactlyWhen(entries: seq<Entry>)
    ensures Flat(entries, IpProblem()) == [] <==> forall e :: e in entries ==> !LacksIp(e)
  {
    FlatIsEmptyExactlyWhen(entries, IpProblem());
    forall e: Entry ensures IpProblem()(e) == [] <==> !LacksIp(e) {
    }
  }

  lemma SubdomainsAreServedExactlyWhen(entries: seq<Entry>, lower: string -> string)
    ensures SubdomainProblems(entries, lower) == [] <==> SubdomainsAreServed(entries, lower)
  {
    NoneLacksIpExactlyWhen(entries);
    SharedIsEmptyExactlyWhen(Flat(entries, SubdomainClaims(lower)), SubdomainProblem());
  }

  lemma AllEmpty<T>(a: seq<T>, b: seq<T>, c: seq<T>, d: seq<T>, e: seq<T>)
    ensures a + b + c + d + e == [] <==> a == [] && b == [] && c == [] && d == [] && e == []
  {
    assert |a + b + c + d + e| == |a| + |b| + |c| + |d| + |e|;
  }

  /** validateInventory reports nothing exactly when the inventory keeps the rules. */
  lemma NoProblemsExactlyWhen(inv: Inventory, lower: string -> string)
    ensures Problems(Entries(inv), lower) == [] <==> Valid(inv, lower)
  {
    var entries := Entries(inv);
    FlagsAreUniqueExactlyWhen(entries);
    GatesAreServedExactlyWhen(entries);
    HostsAreKnownExactlyWhen(entries);
    SchemesAreDisjointExactlyWhen(entries);
    SubdomainsAreServedExactlyWhen(entries, lower);
    AllEmpty(FlagProblems(entries), GateProblems(entries), Flat(entries, HostProblem(HostNames(entries))),
             SharedProblems(entries), SubdomainProblems(entries, lower));
  }

  // ---- The rules do not look at order ----

  lemma AtMostOneOfPermutation(a: seq<Entry>, b: seq<Entry>, p: Entry -> bool)
    requires multiset(a) == multiset(b) && AtMostOne(b, p)
    ensures AtMostOne(a, p)
  {
    AtMostOneName(a, p);
    AtMostOneName(b, p);
    FlatPermutation(a, b, NamesIf(p));
    assert |Names(a, p)| == |multiset(Names(a, p))| == |multiset(Names(b, p))| == |Names(b, p)|;
  }

  lemma ClaimsOfPermutation<K(!new)>(a: seq<Entry>, b: seq<Entry>, claims: Entry -> seq<(K, string)>)
    requires multiset(a) == multiset(b) && NoDuplicates(Claimed(Flat(b, claims)))
    ensures NoDuplicates(Claimed(Flat(a, claims)))
  {
    FlatPermutation(a, b, claims);
    ClaimedCounts(Flat(a, claims), Flat(b, claims));
    NoDuplicatesOfPermutation(Claimed(Flat(a, claims)), Claimed(Flat(b, claims)));
  }

  lemma ClaimedCounts<K>(a: seq<(K, string)>, b: seq<(K, string)>)
    requires multiset(a) == multiset(b)
    ensures multiset(Claimed(a)) == multiset(Claimed(b))
  {
    FlatPermutation(a, b, (c: (K, string)) => [c.0]);
    ClaimedIsFlat(a);
    ClaimedIsFlat(b);
  }

  lemma {:induction false} ClaimedIsFlat<K>(claims: seq<(K, string)>)
    ensures Claimed(claims) == Flat(claims, (c: (K, string)) => [c.0])
  {
    if claims != [] { ClaimedIsFlat(claims[1..]); }
  }

  lemma RulesIgnoreOrder(a: seq<Entry>, b: seq<Entry>, lower: string -> string)
    requires multiset(a) == multiset(b) && ValidEntries(b, lower)
    ensures ValidEntries(a, lower)
  {
    AtMostOneOfPermutation(a, b, IsProxy());
    AtMostOneOfPermutation(a, b, IsBellhop());
    AtMostOneOfPermutation(a, b, IsAuthentik());
    ClaimsOfPermutation(a, b, VmidBaseClaim());
    ClaimsOfPermutation(a, b, IpPrefixClaim());
    ClaimsOfPermutation(a, b, SubdomainClaims(lower));
    forall e: Entry ensures e in a <==> e in b { SameElements(a, b, e); }
  }
}
