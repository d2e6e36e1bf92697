/** Machine IDs: from a MID to a VMID and an address, and the MIDs in use (src/lib/targets.ts). */
module Mids {
  import opened Wrappers
  import opened Text
  import opened Ordering
  import opened InventoryModel
  import ShellText

  datatype MidError = BadMid | UnknownHost | NoScheme

  datatype ResolvedMid = ResolvedMid(vmid: int, ip: string, gateway: string)

  function FindHost(hosts: seq<Host>, name: string): (h: Option<Host>)
    ensures h.Some? ==> h.value in hosts && h.value.name == name
  {
    if hosts == [] then None
    else if hosts[0].name == name then Some(hosts[0])
    else FindHost(hosts[1..], name)
  }

  predicate IsMid(mid: Number) {
    mid.Num? && mid.value == mid.value.Floor as real && 1.0 <= mid.value <= 254.0
  }

  /** resolveMid. */
  function ResolveMid(hosts: seq<Host>, name: string, mid: Number): Result<ResolvedMid, MidError> {
    if !IsMid(mid) then Err(BadMid)
    else
      match FindHost(hosts, name)
      case None => Err(UnknownHost)
      case Some(host) =>
        match host.midScheme
        case None => Err(NoScheme)
        case Some(scheme) =>
          var n := mid.value.Floor;
          Ok(ResolvedMid(scheme.vmidBase + n,
                         scheme.ipPrefix + ShellText.Decimal(n) + "/"
                             + ShellText.Decimal(scheme.cidrSuffix.GetOr(16)), scheme.gateway))
  }

  /** stripCidr. */
  function StripCidr(ip: string): string {
    Split(ip, '/')[0]
  }

  /** The host a name stands for is the first of that name; there is none exactly when no host has it. */
  lemma {:induction false} FindHostIsTheFirst(hosts: seq<Host>, name: string)
    ensures match FindHost(hosts, name)
            case None => forall h :: h in hosts ==> h.name != name
            case Some(h) => exists i :: 0 <= i < |hosts| && hosts[i] == h && forall j ::
                0 <= j < i ==> hosts[j].name != name
  {
    if hosts != [] {
      FindHostIsTheFirst(hosts[1..], name);
      assert forall h :: h in hosts <==> h == hosts[0] || h in hosts[1..];
      if hosts[0].name == name {
        assert hosts[0] == FindHost(hosts, name).value;
      } else if FindHost(hosts, name).Some? {
        var i :| 0 <= i < |hosts| - 1 && hosts[1..][i] == FindHost(hosts, name).value
                 && forall j :: 0 <= j < i ==> hosts[1..][j].name != name;
        assert forall j :: 1 <= j < i + 1 ==> hosts[j] == hosts[1..][j - 1];
        assert hosts[i + 1] == FindHost(hosts, name).value;
      }
    }
  }

  /** Which error a whole number meets as a MID, and what it resolves to if it meets none. */
  lemma ResolvesExactlyWhen(hosts: seq<Host>, name: string, n: nat)
    ensures var r, host := ResolveMid(hosts, name, Num(n as real)), FindHost(hosts, name);
            var inRange := 1 <= n <= 254;
            && (r == Err(BadMid) <==> !inRange)
            && (r == Err(UnknownHost) <==> inRange && forall h :: h in hosts ==> h.name != name)
            && (r == Err(NoScheme) <==> inRange && host.Some? && host.value.midScheme == None)
            && (r.Ok? ==>
                  var scheme := host.value.midScheme.value;
                  && r.value.vmid == scheme.vmidBase + n && r.value.gateway == scheme.gateway
                  && r.value.ip == scheme.ipPrefix + ShellText.Decimal(n) + "/"
                                   + ShellText.Decimal(if scheme.cidrSuffix.Some? then scheme.cidrSuffix.value else 16))
  {
    FindHostIsTheFirst(hosts, name);
    assert (n as real).Floor == n;
  }

  /** What is no number, or no whole one from 1 to 254, is refused before the host is looked at. */
  lemma OtherMidsAreRefused(hosts: seq<Host>, name: string, mid: Number)
    requires mid.NaN? || mid.value != mid.value.Floor as real || mid.value < 1.0 || mid.value > 254.0
    ensures ResolveMid(hosts, name, mid) == Err(BadMid)
  {
  }

  lemma {:induction false} DecimalHasNoSlash(n: nat)
    ensures '/' !in ShellText.Decimal(n)
  {
    if n >= 10 { DecimalHasNoSlash(n / 10); }
    assert forall k :: 0 <= k < 10 ==> "0123456789"[k] != '/';
  }

  /** Without its mask the address is the prefix and the MID. */
  lemma AddressWithoutMask(hosts: seq<Host>, name: string, mid: Number)
    requires ResolveMid(hosts, name, mid).Ok? && '/' !in FindHost(hosts, name).value.midScheme.value.ipPrefix
    ensures StripCidr(ResolveMid(hosts, name, mid).value.ip)
         == FindHost(hosts, name).value.midScheme.value.ipPrefix + ShellText.Decimal(mid.value.Floor)
  {
    var scheme := FindHost(hosts, name).value.midScheme.value;
    var address := scheme.ipPrefix + ShellText.Decimal(mid.value.Floor);
    var mask := ShellText.Decimal(scheme.cidrSuffix.GetOr(16));
    DecimalHasNoSlash(mid.value.Floor);
    SplitAtFirst(address, mask, '/');
    assert address + "/" + mask == address + ['/'] + mask;
  }

  // ---- MIDs in use ----

  /** The MID resolves to the VMID of a guest on the host. */
  ghost predicate IsUsed(hosts: seq<Host>, guests: seq<Guest>, name: string, mid: int) {
    exists g :: g in guests && g.host == name && ResolvesTo(hosts, name, mid, g.vmid)
  }

  predicate ResolvesTo(hosts: seq<Host>, name: string, mid: int, vmid: int) {
    var r := ResolveMid(hosts, name, Num(mid as real)); r.Ok? && r.value.vmid == vmid
  }

  function BaseOf(hosts: seq<Host>, name: string): Option<int> {
    match FindHost(hosts, name)
    case None => None
    case Some(host) => if host.midScheme.Some? then Some(host.midScheme.value.vmidBase) else None
  }

  lemma ResolvesToExactlyWhen(hosts: seq<Host>, name: string, mid: int, vmid: int)
    ensures ResolvesTo(hosts, name, mid, vmid) <==>
            BaseOf(hosts, name).Some? && mid == vmid - BaseOf(hosts, name).value && 1 <= mid <= 254
  {
    assert (mid as real).Floor == mid;
  }

  function Ascending(): (int, int) -> bool {
    (a: int, b: int) => a <= b
  }

  lemma AscendingIsTotal(s: seq<int>)
    ensures TotalOrder(s, Ascending())
  {
  }

  /** The loop over the guests: a set of MIDs in order of first use. */
  method CollectMids(hosts: seq<Host>, guests: seq<Guest>, name: string, base: int) returns (mids: seq<int>)
    requires BaseOf(hosts, name) == Some(base)
    ensures NoDuplicates(mids) && forall mid :: mid in mids <==> IsUsed(hosts, guests, name, mid)
  {
    mids := [];
    for i := 0 to |guests|
      invariant NoDuplicates(mids)
      invariant forall mid :: mid in mids <==>
              exists k :: 0 <= k < i && guests[k].host == name && ResolvesTo(hosts, name, mid, guests[k].vmid)
    {
      var g := guests[i];
      forall mid { ResolvesToExactlyWhen(hosts, name, mid, g.vmid); }
      if g.host != name { continue; }
      var mid := g.vmid - base;
      if 1 <= mid <= 254 && mid !in mids {
        NoDuplicatesAppend(mids, mid);
        mids := mids + [mid];
      }
    }
    forall mid ensures mid in mids <==> IsUsed(hosts, guests, name, mid) {
      if IsUsed(hosts, guests, name, mid) {
        var g :| g in guests && g.host == name && ResolvesTo(hosts, name, mid, g.vmid);
        var k :| 0 <= k < |guests| && guests[k] == g;
      }
    }
  }

  /** usedMidsByHost: for each named host with a scheme, exactly the MIDs that resolve to a guest of it, ascending. */
  method UsedMidsByHost(hosts: seq<Host>, guests: seq<Guest>, names: seq<string>) returns (used: map<string, seq<int>>)
    ensures forall name :: name in used <==> name in names && BaseOf(hosts, name).Some?
    ensures forall name :: name in used ==>
              && (forall i, j :: 0 <= i < j < |used[name]| ==> used[name][i] < used[name][j])
              && (forall mid :: mid in used[name] <==> IsUsed(hosts, guests, name, mid))
  {
    used := map[];
    for i := 0 to |names|
      invariant forall name :: name in used <==> name in names[..i] && BaseOf(hosts, name).Some?
      invariant forall name :: name in used ==> ListsUsed(hosts, guests, name, used[name])
    {
      assert names[..i + 1] == names[..i] + [names[i]];
      var base := BaseOf(hosts, names[i]);
      if base.None? { continue; }
      var mids := CollectMids(hosts, guests, names[i], base.value);
      SortedMidsAreUsed(hosts, guests, names[i], mids);
      used := used[names[i] := Sort(mids, Ascending())];
    }
    assert names[..|names|] == names;
  }

  ghost predicate ListsUsed(hosts: seq<Host>, guests: seq<Guest>, name: string, mids: seq<int>) {
    && (forall i, j :: 0 <= i < j < |mids| ==> mids[i] < mids[j])
    && (forall mid :: mid in mids <==> IsUsed(hosts, guests, name, mid))
  }

  lemma SortedMidsAreUsed(hosts: seq<Host>, guests: seq<Guest>, name: string, mids: seq<int>)
    requires NoDuplicates(mids) && forall mid :: mid in mids <==> IsUsed(hosts, guests, name, mid)
    ensures ListsUsed(hosts, guests, name, Sort(mids, Ascending()))
  {
    var sorted := Sort(mids, Ascending());
    AscendingIsTotal(mids);
    SortSorts(mids, Ascending());
    SortIsPermutation(mids, Ascending());
    NoDuplicatesOfPermutation(sorted, mids);
    forall mid ensures mid in sorted <==> mid in mids { SameElements(sorted, mids, mid); }
    forall i, j | 0 <= i < j < |sorted| ensures sorted[i] < sorted[j] {
      assert Ascending()(sorted[i], sorted[j]) && sorted[i] != sorted[j];
    }
  }
}
