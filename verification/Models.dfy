// The typed host intent: per-field bounds, and the eleven cross-field checks
// that run, in order, when an intent is constructed.
module Models {
  import opened Basics
  import opened Addresses

  datatype Role = Cpu | GpuB300 | GpuB200 | GpuH200

  function RoleValue(r: Role): string {
    match r
    case Cpu => "cpu"
    case GpuB300 => "gpu-b300"
    case GpuB200 => "gpu-b200"
    case GpuH200 => "gpu-h200"
  }

  // Role(slug)
  function ParseRole(slug: string): (r: Option<Role>)
    ensures r.Some? ==> RoleValue(r.value) == slug
    ensures r.None? ==> forall role :: RoleValue(role) != slug
  {
    if slug == "cpu" then Some(Cpu)
    else if slug == "gpu-b300" then Some(GpuB300)
    else if slug == "gpu-b200" then Some(GpuB200)
    else if slug == "gpu-h200" then Some(GpuH200)
    else None
  }

  datatype VlanRole = Mgmt | Storage | Ingress

  // VlanRole(name)
  function ParseVlanRole(name: string): Option<VlanRole> {
    if name == "mgmt" then Some(Mgmt)
    else if name == "storage" then Some(Storage)
    else if name == "ingress" then Some(Ingress)
    else None
  }

  datatype BondMember = BondMember(name: string, mac: string, mtu: int)
  datatype Bond = Bond(name: string, members: seq<string>, mtu: int)
  datatype VlanChild = VlanChild(name: string, parent: string, vlanId: int, role: VlanRole, mtu: int,
                                 address: Ipv4Interface, gateway: Option<int>)
  datatype RoceUnderlay = RoceUnderlay(name: string, mac: string, mtu: int, sriovVfs: int, address: Ipv4Interface)
  datatype InfinibandUnderlay = InfinibandUnderlay(name: string, mac: string, mtu: int, address: Ipv4Interface)
  datatype HostIntent = HostIntent(assetTag: string, hostname: string, role: Role, nsNics: seq<BondMember>, bond: Bond,
                                   vlans: seq<VlanChild>, roce: seq<RoceUnderlay>, ib: seq<InfinibandUnderlay>)

  function NicName(n: BondMember): string { n.name }
  function VlanName(v: VlanChild): string { v.name }
  function RoceName(r: RoceUnderlay): string { r.name }
  function IbName(i: InfinibandUnderlay): string { i.name }
  function VlanIp(v: VlanChild): int { v.address.ip }
  function RoceIp(r: RoceUnderlay): int { r.address.ip }
  function IbIp(i: InfinibandUnderlay): int { i.address.ip }
  function RoleOf(v: VlanChild): VlanRole { v.role }

  // ----- field bounds ------------------------------------------------------------

  const MIN_MTU := 1500
  const MAX_MTU := 9216
  const MIN_VLAN_ID := 1
  const MAX_VLAN_ID := 4094

  predicate MtuOk(mtu: int) { MIN_MTU <= mtu <= MAX_MTU }
  predicate NameOk(name: string) { 1 <= |name| <= 15 }

  predicate IsHexDigit(c: char) { '0' <= c <= '9' || 'a' <= c <= 'f' }

  // ^([0-9a-f]{2}:){5}[0-9a-f]{2}$
  predicate MacShape(s: string) {
    |s| == 17 && forall i :: 0 <= i < 17 ==> if i % 3 == 2 then s[i] == ':' else IsHexDigit(s[i])
  }

  // MacAddress: lower-case, strip, then the canonical shape
  function CanonicalMac(v: string): Option<string> {
    var s := Strip(Lower(v));
    if MacShape(s) then Some(s) else None
  }

  // Bond(members=...): a list is tested for repeats, any other iterable is not.
  datatype MembersArg = AsList(names: seq<string>) | AsTuple(names: seq<string>)

  function MakeBond(name: string, members: MembersArg, mtu: int): Option<Bond> {
    if members.AsList? && exists i, j :: 0 <= i < j < |members.names| && members.names[i] == members.names[j] then None
    else if NameOk(name) && 2 <= |members.names| <= 8 && MtuOk(mtu) then Some(Bond(name, members.names, mtu))
    else None
  }

  // ----- the checks, in the order they run -----------------------------------------

  const EXPECTED_NS_NIC_COUNT := 2

  const ROCE_COUNT_BY_ROLE: map<string, nat> := map["cpu" := 0, "gpu-b300" := 8, "gpu-b200" := 8, "gpu-h200" := 0]
  const IB_COUNT_BY_ROLE: map<string, nat> := map["cpu" := 0, "gpu-b300" := 0, "gpu-b200" := 0, "gpu-h200" := 8]

  function CountFor(counts: map<string, nat>, role: string): nat {
    if role in counts then counts[role] else 0
  }

  function CheckNsNicCount(nics: seq<BondMember>): Option<string> {
    if |nics| != EXPECTED_NS_NIC_COUNT then Some("ns-nic-count") else None
  }

  function CheckBondReferences(bond: Bond, nics: seq<BondMember>): Option<string> {
    var known := set n | n in nics :: n.name;
    if exists m :: m in bond.members && m !in known then Some("bond-member-unknown") else None
  }

  function CheckVlanRoles(vlans: seq<VlanChild>): Option<string> {
    if multiset(Map(RoleOf, vlans)) != multiset{Mgmt, Storage, Ingress} then Some("vlan-roles-incomplete") else None
  }

  function CheckVlanParents(vlans: seq<VlanChild>, bond: Bond): Option<string> {
    if exists v :: v in vlans && v.parent != bond.name then Some("vlan-parent-mismatch") else None
  }

  function WithGateway(vlans: seq<VlanChild>): seq<string> {
    if vlans == [] then []
    else (if vlans[0].gateway.Some? then [vlans[0].name] else []) + WithGateway(vlans[1..])
  }

  function CheckOneGateway(vlans: seq<VlanChild>): Option<string> {
    if |WithGateway(vlans)| != 1 then Some("default-gateway-count") else None
  }

  predicate OffMgmt(v: VlanChild) { v.gateway.Some? && v.role != Mgmt }

  function CheckGatewayOnMgmt(vlans: seq<VlanChild>): Option<string> {
    if exists v :: v in vlans && OffMgmt(v) then Some("default-gateway-role") else None
  }

  function MaxMtu(vlans: seq<VlanChild>): int
    requires vlans != []
  {
    if |vlans| == 1 then vlans[0].mtu
    else if vlans[0].mtu >= MaxMtu(vlans[1..]) then vlans[0].mtu else MaxMtu(vlans[1..])
  }

  function CheckMtuMonotone(bond: Bond, vlans: seq<VlanChild>): Option<string> {
    if vlans != [] && bond.mtu < MaxMtu(vlans) then Some("mtu-non-monotone") else None
  }

  function CheckRoceCount(role: string, roce: seq<RoceUnderlay>): Option<string> {
    if |roce| != CountFor(ROCE_COUNT_BY_ROLE, role) then Some("roce-count-" + role) else None
  }

  function CheckIbCount(role: string, ib: seq<InfinibandUnderlay>): Option<string> {
    if |ib| != CountFor(IB_COUNT_BY_ROLE, role) then Some("ib-count-" + role) else None
  }

  function AllNames(i: HostIntent): seq<string> {
    Map(NicName, i.nsNics) + Map(RoceName, i.roce) + Map(IbName, i.ib) + Map(VlanName, i.vlans)
  }

  // Counter(names): some name is counted more than once
  function CheckUniqueNames(i: HostIntent): Option<string> {
    if exists n :: n in AllNames(i) && multiset(AllNames(i))[n] > 1 then Some("duplicate-name") else None
  }

  // The addresses in scan order, with the interface each belongs to.
  function Addressed(i: HostIntent): seq<(int, string)> {
    Map((v: VlanChild) => (v.address.ip, v.name), i.vlans)
    + Map((r: RoceUnderlay) => (r.address.ip, r.name), i.roce)
    + Map((b: InfinibandUnderlay) => (b.address.ip, b.name), i.ib)
  }

  function AllIps(i: HostIntent): seq<int> {
    Map(VlanIp, i.vlans) + Map(RoceIp, i.roce) + Map(IbIp, i.ib)
  }

  ghost function CheckUniqueIps(i: HostIntent): Option<string> {
    if Distinct(AllIps(i)) then None else Some("duplicate-ip")
  }

  // The verdicts of the eleven checks, in their order.
  ghost function Checks(i: HostIntent): seq<Option<string>> {
    [CheckNsNicCount(i.nsNics), CheckBondReferences(i.bond, i.nsNics), CheckVlanRoles(i.vlans),
     CheckVlanParents(i.vlans, i.bond), CheckOneGateway(i.vlans), CheckGatewayOnMgmt(i.vlans),
     CheckMtuMonotone(i.bond, i.vlans), CheckRoceCount(RoleValue(i.role), i.roce),
     CheckIbCount(RoleValue(i.role), i.ib), CheckUniqueNames(i), CheckUniqueIps(i)]
  }

  // err is the verdict of the first failing check, or None when all pass.
  ghost predicate IsFirstFailure(checks: seq<Option<string>>, err: Option<string>) {
    match err
    case None => forall k :: 0 <= k < |checks| ==> checks[k].None?
    case Some(_) =>
      exists k :: 0 <= k < |checks| && checks[k] == err && forall j :: 0 <= j < k ==> checks[j].None?
  }

  ghost function FirstFailure(checks: seq<Option<string>>): (err: Option<string>)
    ensures IsFirstFailure(checks, err)
  {
    if checks == [] then None
    else if checks[0].Some? then checks[0]
    else
      var rest := FirstFailure(checks[1..]);
      assert rest.Some? ==> exists k :: 0 <= k < |checks[1..]| && checks[1..][k] == rest
                                        && forall j :: 0 <= j < k ==> checks[1..][j].None?;
      assert forall k :: 1 <= k < |checks| ==> checks[k] == checks[1..][k - 1];
      assert rest.Some? ==> exists k :: 0 <= k < |checks| && checks[k] == rest
                                        && forall j :: 0 <= j < k ==> checks[j].None? by {
        if rest.Some? {
          var k :| 0 <= k < |checks[1..]| && checks[1..][k] == rest && forall j :: 0 <= j < k ==> checks[1..][j].None?;
          assert checks[k + 1] == rest;
        }
      }
      rest
  }

  lemma FirstFailureUnique(checks: seq<Option<string>>, err: Option<string>)
    requires IsFirstFailure(checks, err)
    ensures err == FirstFailure(checks)
  {
  }

  ghost predicate Accepted(i: HostIntent) {
    forall k :: 0 <= k < |Checks(i)| ==> Checks(i)[k].None?
  }

  // ----- the scans -------------------------------------------------------------------

  // check_default_gateway_on_mgmt: reports the first VLAN that breaks the rule.
  method ScanGatewayOnMgmt(vlans: seq<VlanChild>) returns (err: Option<string>, at: nat)
    ensures err == CheckGatewayOnMgmt(vlans)
    ensures err.Some? ==> at < |vlans| && OffMgmt(vlans[at]) && forall j :: 0 <= j < at ==> !OffMgmt(vlans[j])
  {
    at := 0;
    while at < |vlans|
      invariant at <= |vlans|
      invariant forall j :: 0 <= j < at ==> !OffMgmt(vlans[j])
    {
      if OffMgmt(vlans[at]) {
        assert vlans[at] in vlans;
        return Some("default-gateway-role"), at;
      }
      at := at + 1;
    }
    return None, at;
  }

  datatype SharedIp = SharedIp(ip: int, first: string, second: string)

  // check_unique_ips: the seen dictionary finds the first repeated address and
  // the two interfaces that carry it.
  method ScanUniqueIps(i: HostIntent) returns (err: Option<string>, clash: Option<SharedIp>)
    ensures err == CheckUniqueIps(i)
    ensures err.Some? <==> clash.Some?
    ensures clash.Some? ==>
              exists j, k :: 0 <= j < k < |Addressed(i)|
                && Addressed(i)[j] == (clash.value.ip, clash.value.first)
                && Addressed(i)[k] == (clash.value.ip, clash.value.second)
                && Distinct(AllIps(i)[..k])
  {
    AddressedIps(i);
    hide AllIps, Addressed;
    var addressed := Addressed(i);
    ghost var ips := AllIps(i);
    var seen: map<int, string> := map[];
    ghost var at: map<int, nat> := map[];
    var k := 0;
    while k < |addressed|
      invariant 0 <= k <= |addressed|
      invariant forall ip :: ip in seen <==> exists j :: 0 <= j < k && addressed[j].0 == ip
      invariant forall ip :: ip in seen ==> ip in at && at[ip] < k && addressed[at[ip]] == (ip, seen[ip])
      invariant Distinct(ips[..k])
    {
      var (ip, name) := addressed[k];
      if ip in seen {
        assert addressed[at[ip]] == (ip, seen[ip]) && addressed[k] == (ip, name);
        assert ips[at[ip]] == ips[k];
        return Some("duplicate-ip"), Some(SharedIp(ip, seen[ip], name));
      }
      assert ips[..k + 1] == ips[..k] + [ip];
      assert forall j :: 0 <= j < k ==> ips[..k][j] != ip;
      seen := seen[ip := name];
      at := at[ip := k];
      k := k + 1;
    }
    assert ips[..|addressed|] == ips;
    return None, None;
  }

  lemma AddressedIps(i: HostIntent)
    ensures |Addressed(i)| == |AllIps(i)|
    ensures forall k :: 0 <= k < |Addressed(i)| ==> Addressed(i)[k].0 == AllIps(i)[k]
  {
  }

  // HostIntent._check_invariants: the verdict of the first failing check
  method CheckInvariants(i: HostIntent) returns (err: Option<string>)
    ensures IsFirstFailure(Checks(i), err)
    ensures err.None? <==> Accepted(i)
  {
    hide CheckNsNicCount, CheckBondReferences, CheckVlanRoles, CheckVlanParents, CheckOneGateway, CheckGatewayOnMgmt,
      CheckMtuMonotone, CheckRoceCount, CheckIbCount, CheckUniqueNames, CheckUniqueIps, Addressed, AllIps, RoleValue;
    ghost var checks := Checks(i);
    err := CheckNsNicCount(i.nsNics);
    if err.Some? { assert checks[0] == err; return; }
    err := CheckBondReferences(i.bond, i.nsNics);
    if err.Some? { assert checks[1] == err; return; }
    err := CheckVlanRoles(i.vlans);
    if err.Some? { assert checks[2] == err; return; }
    err := CheckVlanParents(i.vlans, i.bond);
    if err.Some? { assert checks[3] == err; return; }
    err := CheckOneGateway(i.vlans);
    if err.Some? { assert checks[4] == err; return; }
    var at;
    err, at := ScanGatewayOnMgmt(i.vlans);
    if err.Some? { assert checks[5] == err; return; }
    err := CheckMtuMonotone(i.bond, i.vlans);
    if err.Some? { assert checks[6] == err; return; }
    err := CheckRoceCount(RoleValue(i.role), i.roce);
    if err.Some? { assert checks[7] == err; return; }
    err := CheckIbCount(RoleValue(i.role), i.ib);
    if err.Some? { assert checks[8] == err; return; }
    err := CheckUniqueNames(i);
    if err.Some? { assert checks[9] == err; return; }
    var clash;
    err, clash := ScanUniqueIps(i);
    if err.Some? { assert checks[10] == err; }
  }
}
