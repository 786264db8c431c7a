// What the eleven checks amount to: one declarative predicate over the whole
// intent, blind to list order, and what every accepted host looks like.
module Invariants {
  import opened Basics
  import opened Addresses
  import opened Models

  // Per-role east-west shape: eight RoCE rails, or eight IPoIB rails, or none.
  function RoceRails(r: Role): nat { if r == GpuB300 || r == GpuB200 then 8 else 0 }
  function IbRails(r: Role): nat { if r == GpuH200 then 8 else 0 }

  ghost predicate WellFormed(i: HostIntent) {
    && |i.nsNics| == 2
    && (forall m :: m in i.bond.members ==> exists n :: n in i.nsNics && n.name == m)
    && OnePerRole(i.vlans)
    && (forall v :: v in i.vlans ==>
          v.parent == i.bond.name && v.mtu <= i.bond.mtu)
    && GatewayIsMgmts(i.vlans)
    && |i.roce| == RoceRails(i.role)
    && |i.ib| == IbRails(i.role)
    && Distinct(AllNames(i))
    && Distinct(AllIps(i))
  }

  // ----- roles and gateways --------------------------------------------------------

  ghost predicate HasRole(vlans: seq<VlanChild>, role: VlanRole) {
    exists v :: v in vlans && v.role == role
  }

  ghost predicate OnePerRole(vlans: seq<VlanChild>) {
    |vlans| == 3 && forall role :: HasRole(vlans, role)
  }

  lemma RoleCounted(vlans: seq<VlanChild>, role: VlanRole)
    ensures role in multiset(Map(RoleOf, vlans)) <==> HasRole(vlans, role)
  {
  }

  lemma ThreeRoles(m: multiset<VlanRole>)
    requires |m| == 3 && Mgmt in m && Storage in m && Ingress in m
    ensures m == multiset{Mgmt, Storage, Ingress}
  {
    var want := multiset{Mgmt, Storage, Ingress};
    assert want <= m;
    assert m == want + (m - want) && |m - want| == 0;
  }

  // The Counter comparison says: three VLANs that cover the three roles.
  lemma RolesRule(vlans: seq<VlanChild>)
    ensures CheckVlanRoles(vlans).None? <==> OnePerRole(vlans)
  {
    var m := multiset(Map(RoleOf, vlans));
    assert |m| == |vlans|;
    RoleCounted(vlans, Mgmt);
    RoleCounted(vlans, Storage);
    RoleCounted(vlans, Ingress);
    hide HasRole, Map;
    if OnePerRole(vlans) { ThreeRoles(m); }
    if CheckVlanRoles(vlans).None? {
      assert |m| == 3;
      forall role ensures HasRole(vlans, role) {
        match role
        case Mgmt => assert role in m;
        case Storage => assert role in m;
        case Ingress => assert role in m;
      }
    }
  }

  ghost function IndexOfRole(vlans: seq<VlanChild>, role: VlanRole): (k: nat)
    requires HasRole(vlans, role)
    ensures k < |vlans| && vlans[k].role == role
  {
    var v :| v in vlans && v.role == role;
    var k :| 0 <= k < |vlans| && vlans[k] == v;
    k
  }

  // Three VLANs, one per role: no two positions share a role.
  lemma OneVlanPerRole(vlans: seq<VlanChild>)
    requires OnePerRole(vlans)
    ensures forall i, j :: 0 <= i < j < 3 ==> vlans[i].role != vlans[j].role
  {
    var x, y, z := IndexOfRole(vlans, Mgmt), IndexOfRole(vlans, Storage), IndexOfRole(vlans, Ingress);
  }

  // Two different positions declare a gateway.
  ghost predicate TwoGateways(vlans: seq<VlanChild>) {
    exists i, j :: 0 <= i < j < |vlans| && vlans[i].gateway.Some? && vlans[j].gateway.Some?
  }

  ghost predicate SomeGateway(vlans: seq<VlanChild>) {
    exists i :: 0 <= i < |vlans| && vlans[i].gateway.Some?
  }

  lemma SomeInTail(vlans: seq<VlanChild>)
    requires vlans != []
    ensures SomeGateway(vlans) <==> vlans[0].gateway.Some? || SomeGateway(vlans[1..])
  {
    var rest := vlans[1..];
    if i :| 0 <= i < |vlans| && vlans[i].gateway.Some? {
      if i > 0 { assert rest[i - 1].gateway.Some?; }
    }
    if k :| 0 <= k < |rest| && rest[k].gateway.Some? { assert vlans[k + 1].gateway.Some?; }
  }

  lemma TwoInTail(vlans: seq<VlanChild>)
    requires vlans != []
    ensures TwoGateways(vlans) <==> TwoGateways(vlans[1..]) || (vlans[0].gateway.Some? && SomeGateway(vlans[1..]))
  {
    var rest := vlans[1..];
    if i, j :| 0 <= i < j < |vlans| && vlans[i].gateway.Some? && vlans[j].gateway.Some? {
      assert rest[j - 1].gateway.Some?;
      if i > 0 { assert rest[i - 1].gateway.Some?; }
    }
    if i, j :| 0 <= i < j < |rest| && rest[i].gateway.Some? && rest[j].gateway.Some? {
      assert vlans[i + 1].gateway.Some? && vlans[j + 1].gateway.Some?;
    }
    if vlans[0].gateway.Some? {
      if k :| 0 <= k < |rest| && rest[k].gateway.Some? { assert vlans[k + 1].gateway.Some?; }
    }
  }

  lemma {:induction false} GatewayCount(vlans: seq<VlanChild>)
    ensures |WithGateway(vlans)| >= 1 <==> SomeGateway(vlans)
    ensures |WithGateway(vlans)| >= 2 <==> TwoGateways(vlans)
  {
    if vlans != [] {
      hide SomeGateway, TwoGateways;
      GatewayCount(vlans[1..]);
      SomeInTail(vlans);
      TwoInTail(vlans);
    }
  }

  ghost predicate GatewayIsMgmts(vlans: seq<VlanChild>) {
    forall v :: v in vlans ==> (v.gateway.Some? <==> v.role == Mgmt)
  }

  lemma OneGatewayIsMgmts(vlans: seq<VlanChild>)
    requires OnePerRole(vlans) && CheckOneGateway(vlans).None? && CheckGatewayOnMgmt(vlans).None?
    ensures GatewayIsMgmts(vlans)
  {
    GatewayCount(vlans);
    OneVlanPerRole(vlans);
    hide OnePerRole, WithGateway;
    var k :| 0 <= k < |vlans| && vlans[k].gateway.Some?;
    assert vlans[k] in vlans && !OffMgmt(vlans[k]);
    forall v | v in vlans ensures v.gateway.Some? <==> v.role == Mgmt {
      assert !OffMgmt(v);
      var j :| 0 <= j < |vlans| && vlans[j] == v;
    }
  }

  lemma MgmtsIsOneGateway(vlans: seq<VlanChild>)
    requires OnePerRole(vlans) && GatewayIsMgmts(vlans)
    ensures CheckOneGateway(vlans).None? && CheckGatewayOnMgmt(vlans).None?
  {
    GatewayCount(vlans);
    OneVlanPerRole(vlans);
    var m := IndexOfRole(vlans, Mgmt);
    hide OnePerRole, WithGateway;
    assert vlans[m] in vlans && vlans[m].gateway.Some?;
    forall i, j | 0 <= i < j < |vlans| ensures vlans[i].gateway.None? || vlans[j].gateway.None? {
      assert vlans[i] in vlans && vlans[j] in vlans && vlans[i].role != vlans[j].role;
    }
  }

  lemma {:induction false} MaxMtuIsMax(vlans: seq<VlanChild>)
    requires vlans != []
    ensures exists v :: v in vlans && v.mtu == MaxMtu(vlans)
    ensures forall v :: v in vlans ==> v.mtu <= MaxMtu(vlans)
  {
    if |vlans| > 1 {
      MaxMtuIsMax(vlans[1..]);
      assert vlans == [vlans[0]] + vlans[1..] && vlans[0] in vlans;
    } else {
      assert vlans == [vlans[0]] && vlans[0] in vlans;
    }
  }

  lemma UniqueNamesCheck(i: HostIntent)
    ensures CheckUniqueNames(i).None? <==> Distinct(AllNames(i))
  {
    hide AllNames;
    var names := AllNames(i);
    if CheckUniqueNames(i).None? {
      forall n ensures multiset(names)[n] <= 1 {
        if n !in names { assert n !in multiset(names); }
      }
      DistinctByCount(names);
    }
    if Distinct(names) {
      forall n ensures multiset(names)[n] <= 1 { DistinctCount(names, n); }
    }
  }

  lemma MtuRule(bond: Bond, vlans: seq<VlanChild>)
    ensures CheckMtuMonotone(bond, vlans).None? <==> forall v :: v in vlans ==> v.mtu <= bond.mtu
  {
    if vlans != [] { MaxMtuIsMax(vlans); }
  }

  lemma RailsRule(i: HostIntent)
    ensures CheckRoceCount(RoleValue(i.role), i.roce).None? <==> |i.roce| == RoceRails(i.role)
    ensures CheckIbCount(RoleValue(i.role), i.ib).None? <==> |i.ib| == IbRails(i.role)
  {
  }

  // Soundness and completeness: the eleven checks pass exactly on the intents
  // that satisfy the declarative predicate.
  lemma AcceptedIsWellFormed(i: HostIntent)
    ensures Accepted(i) <==> WellFormed(i)
  {
    hide AllNames, AllIps, CheckOneGateway, CheckGatewayOnMgmt, CheckVlanRoles, CheckUniqueNames, CheckBondReferences,
      CheckMtuMonotone, CheckRoceCount, CheckIbCount, RoleValue, Accepted, RoceRails, IbRails, OnePerRole,
      GatewayIsMgmts, Distinct;
    ByCheck(i);
    BondReferences(i);
    MtuRule(i.bond, i.vlans);
    RailsRule(i);
    UniqueNamesCheck(i);
    RolesRule(i.vlans);
    if OnePerRole(i.vlans) {
      if CheckOneGateway(i.vlans).None? && CheckGatewayOnMgmt(i.vlans).None? { OneGatewayIsMgmts(i.vlans); }
      if GatewayIsMgmts(i.vlans) { MgmtsIsOneGateway(i.vlans); }
    }
  }

  lemma BondReferences(i: HostIntent)
    ensures CheckBondReferences(i.bond, i.nsNics).None? <==>
            forall m :: m in i.bond.members ==> exists n :: n in i.nsNics && n.name == m
  {
  }

  lemma ByCheck(i: HostIntent)
    ensures Accepted(i) <==>
            && CheckNsNicCount(i.nsNics).None? && CheckBondReferences(i.bond, i.nsNics).None?
            && CheckVlanRoles(i.vlans).None? && CheckVlanParents(i.vlans, i.bond).None?
            && CheckOneGateway(i.vlans).None? && CheckGatewayOnMgmt(i.vlans).None?
            && CheckMtuMonotone(i.bond, i.vlans).None?
            && CheckRoceCount(RoleValue(i.role), i.roce).None? && CheckIbCount(RoleValue(i.role), i.ib).None?
            && CheckUniqueNames(i).None? && CheckUniqueIps(i).None?
  {
    hide CheckNsNicCount, CheckBondReferences, CheckVlanRoles, CheckVlanParents, CheckOneGateway, CheckGatewayOnMgmt,
      CheckMtuMonotone, CheckRoceCount, CheckIbCount, CheckUniqueNames, CheckUniqueIps, RoleValue;
    var c := Checks(i);
    assert Accepted(i) <==> c[0].None? && c[1].None? && c[2].None? && c[3].None? && c[4].None? && c[5].None?
                            && c[6].None? && c[7].None? && c[8].None? && c[9].None? && c[10].None?;
  }

  // ----- list order ---------------------------------------------------------------

  // The intents agree in everything but the order of their lists.
  ghost predicate SameUpToOrder(i: HostIntent, j: HostIntent) {
    && i.assetTag == j.assetTag && i.hostname == j.hostname && i.role == j.role
    && i.bond.name == j.bond.name && i.bond.mtu == j.bond.mtu
    && multiset(i.bond.members) == multiset(j.bond.members)
    && multiset(i.nsNics) == multiset(j.nsNics) && multiset(i.vlans) == multiset(j.vlans)
    && multiset(i.roce) == multiset(j.roce) && multiset(i.ib) == multiset(j.ib)
  }

  lemma NamesAndIpsPermuted(i: HostIntent, j: HostIntent)
    requires SameUpToOrder(i, j)
    ensures multiset(AllNames(i)) == multiset(AllNames(j))
    ensures multiset(AllIps(i)) == multiset(AllIps(j))
  {
    MapMultiset(NicName, i.nsNics, j.nsNics);
    MapMultiset(RoceName, i.roce, j.roce);
    MapMultiset(IbName, i.ib, j.ib);
    MapMultiset(VlanName, i.vlans, j.vlans);
    MapMultiset(VlanIp, i.vlans, j.vlans);
    MapMultiset(RoceIp, i.roce, j.roce);
    MapMultiset(IbIp, i.ib, j.ib);
  }

  lemma MembersPermuted(i: HostIntent, j: HostIntent)
    requires multiset(i.bond.members) == multiset(j.bond.members) && multiset(i.nsNics) == multiset(j.nsNics)
    requires forall m :: m in i.bond.members ==> exists n :: n in i.nsNics && n.name == m
    ensures forall m :: m in j.bond.members ==> exists n :: n in j.nsNics && n.name == m
  {
    PermutationMembers(i.nsNics, j.nsNics);
    PermutationMembers(i.bond.members, j.bond.members);
    forall m | m in j.bond.members ensures exists n :: n in j.nsNics && n.name == m {
      var n :| n in i.nsNics && n.name == m;
      assert n in j.nsNics;
    }
  }

  predicate HasGateway(v: VlanChild) { v.gateway.Some? }

  lemma {:induction false} GatewaysCounted(vlans: seq<VlanChild>)
    ensures |WithGateway(vlans)| == multiset(Map(HasGateway, vlans))[true]
  {
    if vlans != [] {
      GatewaysCounted(vlans[1..]);
      MultisetTail(Map(HasGateway, vlans));
      assert Map(HasGateway, vlans)[1..] == Map(HasGateway, vlans[1..]);
    }
  }

  lemma OneGatewayPermuted(s: seq<VlanChild>, t: seq<VlanChild>)
    requires multiset(s) == multiset(t)
    ensures CheckOneGateway(s) == CheckOneGateway(t)
  {
    GatewaysCounted(s);
    GatewaysCounted(t);
    MapMultiset(HasGateway, s, t);
  }

  lemma BondReferencesPermuted(i: HostIntent, j: HostIntent)
    requires SameUpToOrder(i, j)
    ensures CheckBondReferences(i.bond, i.nsNics) == CheckBondReferences(j.bond, j.nsNics)
  {
    BondReferences(i);
    BondReferences(j);
    if CheckBondReferences(i.bond, i.nsNics).None? { MembersPermuted(i, j); }
    if CheckBondReferences(j.bond, j.nsNics).None? { MembersPermuted(j, i); }
  }

  lemma VlanChecksPermuted(i: HostIntent, j: HostIntent)
    requires SameUpToOrder(i, j)
    ensures CheckVlanRoles(i.vlans) == CheckVlanRoles(j.vlans)
    ensures CheckVlanParents(i.vlans, i.bond) == CheckVlanParents(j.vlans, j.bond)
    ensures CheckOneGateway(i.vlans) == CheckOneGateway(j.vlans)
    ensures CheckGatewayOnMgmt(i.vlans) == CheckGatewayOnMgmt(j.vlans)
    ensures CheckMtuMonotone(i.bond, i.vlans) == CheckMtuMonotone(j.bond, j.vlans)
  {
    hide WithGateway, MaxMtu, Map;
    PermutationMembers(i.vlans, j.vlans);
    MapMultiset(RoleOf, i.vlans, j.vlans);
    OneGatewayPermuted(i.vlans, j.vlans);
    MtuRule(i.bond, i.vlans);
    MtuRule(j.bond, j.vlans);
  }

  lemma UniquenessPermuted(i: HostIntent, j: HostIntent)
    requires SameUpToOrder(i, j)
    ensures CheckUniqueNames(i) == CheckUniqueNames(j) && CheckUniqueIps(i) == CheckUniqueIps(j)
  {
    hide AllNames, AllIps;
    NamesAndIpsPermuted(i, j);
    UniqueNamesCheck(i);
    UniqueNamesCheck(j);
    if Distinct(AllNames(i)) { DistinctPermutation(AllNames(i), AllNames(j)); }
    if Distinct(AllNames(j)) { DistinctPermutation(AllNames(j), AllNames(i)); }
    if Distinct(AllIps(i)) { DistinctPermutation(AllIps(i), AllIps(j)); }
    if Distinct(AllIps(j)) { DistinctPermutation(AllIps(j), AllIps(i)); }
  }

  // No check depends on the order of any list: the error raised is the same.
  lemma VerdictIgnoresOrder(i: HostIntent, j: HostIntent)
    requires SameUpToOrder(i, j)
    ensures Checks(i) == Checks(j)
    ensures FirstFailure(Checks(i)) == FirstFailure(Checks(j)) && (Accepted(i) <==> Accepted(j))
  {
    hide CheckBondReferences, CheckVlanRoles, CheckVlanParents, CheckOneGateway, CheckGatewayOnMgmt, CheckMtuMonotone,
      CheckUniqueNames, CheckUniqueIps, RoleValue;
    PermutationMembers(i.nsNics, j.nsNics);
    PermutationMembers(i.roce, j.roce);
    PermutationMembers(i.ib, j.ib);
    BondReferencesPermuted(i, j);
    VlanChecksPermuted(i, j);
    UniquenessPermuted(i, j);
  }

  // What a bond may be made from.
  lemma BondExactly(name: string, members: MembersArg, mtu: int)
    ensures MakeBond(name, members, mtu) ==
            if 1 <= |name| <= 15 && 2 <= |members.names| <= 8 && 1500 <= mtu <= 9216
               && (members.AsList? ==> Distinct(members.names))
            then Some(Bond(name, members.names, mtu)) else None
  {
  }

  // ----- which invariant is reported -----------------------------------------------------

  function RoleName(r: Role): string {
    match r
    case Cpu => "cpu"
    case GpuB300 => "gpu-b300"
    case GpuB200 => "gpu-b200"
    case GpuH200 => "gpu-h200"
  }

  ghost predicate KnownMembers(i: HostIntent) {
    forall m :: m in i.bond.members ==> exists n :: n in i.nsNics && n.name == m
  }

  // The rules in the order they are tested, and the identifier each reports.
  ghost function Report(i: HostIntent): Option<string> {
    if |i.nsNics| != 2 then Some("ns-nic-count")
    else if !KnownMembers(i) then Some("bond-member-unknown")
    else if !OnePerRole(i.vlans) then Some("vlan-roles-incomplete")
    else if exists v :: v in i.vlans && v.parent != i.bond.name then Some("vlan-parent-mismatch")
    else if multiset(Map(HasGateway, i.vlans))[true] != 1 then Some("default-gateway-count")
    else if exists v :: v in i.vlans && v.gateway.Some? && v.role != Mgmt then Some("default-gateway-role")
    else if exists v :: v in i.vlans && v.mtu > i.bond.mtu then Some("mtu-non-monotone")
    else if |i.roce| != RoceRails(i.role) then Some("roce-count-" + RoleName(i.role))
    else if |i.ib| != IbRails(i.role) then Some("ib-count-" + RoleName(i.role))
    else if !Distinct(AllNames(i)) then Some("duplicate-name")
    else if !Distinct(AllIps(i)) then Some("duplicate-ip")
    else None
  }

  lemma FirstAt(c: seq<Option<string>>, k: nat)
    requires k < |c| && forall j :: 0 <= j < k ==> c[j].None?
    ensures c[k].Some? ==> FirstFailure(c) == c[k]
    ensures k == |c| - 1 ==> FirstFailure(c) == c[k]
  {
    if c[k].Some? {
      assert IsFirstFailure(c, c[k]);
      FirstFailureUnique(c, c[k]);
    } else if k == |c| - 1 {
      assert IsFirstFailure(c, None);
      FirstFailureUnique(c, None);
    }
  }

  lemma CheckIds(i: HostIntent)
    ensures CheckNsNicCount(i.nsNics) == if |i.nsNics| != 2 then Some("ns-nic-count") else None
    ensures CheckBondReferences(i.bond, i.nsNics) == if KnownMembers(i) then None else Some("bond-member-unknown")
    ensures CheckVlanRoles(i.vlans) == if OnePerRole(i.vlans) then None else Some("vlan-roles-incomplete")
    ensures CheckVlanParents(i.vlans, i.bond) ==
            if exists v :: v in i.vlans && v.parent != i.bond.name then Some("vlan-parent-mismatch") else None
  {
    BondReferences(i);
    RolesRule(i.vlans);
    hide OnePerRole, Map;
  }

  lemma GatewayIds(i: HostIntent)
    ensures CheckOneGateway(i.vlans) ==
            if multiset(Map(HasGateway, i.vlans))[true] != 1 then Some("default-gateway-count") else None
    ensures CheckGatewayOnMgmt(i.vlans) ==
            if exists v :: v in i.vlans && v.gateway.Some? && v.role != Mgmt then Some("default-gateway-role") else None
    ensures CheckMtuMonotone(i.bond, i.vlans) ==
            if exists v :: v in i.vlans && v.mtu > i.bond.mtu then Some("mtu-non-monotone") else None
  {
    GatewaysCounted(i.vlans);
    MtuRule(i.bond, i.vlans);
    hide Map, WithGateway, MaxMtu;
  }

  lemma CountIds(i: HostIntent)
    ensures CheckRoceCount(RoleValue(i.role), i.roce) ==
            if |i.roce| != RoceRails(i.role) then Some("roce-count-" + RoleName(i.role)) else None
    ensures CheckIbCount(RoleValue(i.role), i.ib) ==
            if |i.ib| != IbRails(i.role) then Some("ib-count-" + RoleName(i.role)) else None
    ensures CheckUniqueNames(i) == if Distinct(AllNames(i)) then None else Some("duplicate-name")
    ensures CheckUniqueIps(i) == if Distinct(AllIps(i)) then None else Some("duplicate-ip")
  {
    RailsRule(i);
    UniqueNamesCheck(i);
    hide AllNames, AllIps, Distinct, RoceRails, IbRails, CountFor;
  }

  lemma ChecksListed(i: HostIntent)
    ensures var c := Checks(i);
            && |c| == 11 && c[0] == CheckNsNicCount(i.nsNics) && c[1] == CheckBondReferences(i.bond, i.nsNics)
            && c[2] == CheckVlanRoles(i.vlans) && c[3] == CheckVlanParents(i.vlans, i.bond)
            && c[4] == CheckOneGateway(i.vlans) && c[5] == CheckGatewayOnMgmt(i.vlans)
            && c[6] == CheckMtuMonotone(i.bond, i.vlans) && c[7] == CheckRoceCount(RoleValue(i.role), i.roce)
            && c[8] == CheckIbCount(RoleValue(i.role), i.ib)
            && c[9] == CheckUniqueNames(i) && c[10] == CheckUniqueIps(i)
  {
    hide CheckNsNicCount, CheckBondReferences, CheckVlanRoles, CheckVlanParents, CheckOneGateway, CheckGatewayOnMgmt,
      CheckMtuMonotone, CheckRoceCount, CheckIbCount, CheckUniqueNames, CheckUniqueIps, RoleValue;
  }

  // What constructing an intent reports: the first broken rule's identifier.
  lemma ReportedInvariant(i: HostIntent)
    ensures FirstFailure(Checks(i)) == Report(i)
  {
    hide CheckNsNicCount, CheckBondReferences, CheckVlanRoles, CheckVlanParents, CheckOneGateway, CheckGatewayOnMgmt,
      CheckMtuMonotone, CheckRoceCount, CheckIbCount, CheckUniqueNames, CheckUniqueIps, FirstFailure, OnePerRole,
      KnownMembers, AllNames, AllIps, Distinct, RoceRails, IbRails, RoleName, RoleValue, Checks, Map;
    CheckIds(i);
    GatewayIds(i);
    CountIds(i);
    ChecksListed(i);
    var c := Checks(i);
    var k := 0;
    while k < 10 && c[k].None?
      invariant k <= 10 && forall j :: 0 <= j < k ==> c[j].None?
    {
      k := k + 1;
    }
    FirstAt(c, k);
  }

  // ----- the shape of an accepted host -------------------------------------------------

  // Pigeonhole: at least two distinct names drawn from two names are those two.
  lemma TwoOfTwo(m: seq<string>, a: string, b: string)
    requires |m| >= 2 && Distinct(m) && forall k :: 0 <= k < |m| ==> m[k] == a || m[k] == b
    ensures multiset(m) == multiset{a, b}
  {
    assert m[0] != m[1];
    var two := multiset{a, b};
    forall x ensures multiset(m)[x] <= two[x] { DistinctCount(m, x); }
    assert multiset(m) <= two;
    assert two == multiset(m) + (two - multiset(m)) && |multiset(m)| == |m| && |two - multiset(m)| == 0;
  }

  lemma MembersFromNics(i: HostIntent)
    requires Accepted(i)
    ensures |i.nsNics| == 2 && Map(NicName, i.nsNics) == [i.nsNics[0].name, i.nsNics[1].name]
    ensures i.nsNics[0].name != i.nsNics[1].name
    ensures forall m :: m in i.bond.members ==> m == i.nsNics[0].name || m == i.nsNics[1].name
  {
    AcceptedIsWellFormed(i);
    hide Accepted, OnePerRole, GatewayIsMgmts, AllIps;
    assert AllNames(i)[0] != AllNames(i)[1];
  }

  // The bond of an accepted host is over exactly its two N-S NICs just when the
  // members it was given do not repeat.
  lemma BondIsTheTwoNics(i: HostIntent, members: MembersArg)
    requires Accepted(i) && MakeBond(i.bond.name, members, i.bond.mtu) == Some(i.bond)
    ensures multiset(i.bond.members) == multiset(Map(NicName, i.nsNics)) <==> Distinct(members.names)
  {
    MembersFromNics(i);
    hide Accepted, Map;
    var a, b, m := i.nsNics[0].name, i.nsNics[1].name, i.bond.members;
    assert forall k :: 0 <= k < |m| ==> m[k] in m;
    if Distinct(m) { TwoOfTwo(m, a, b); }
    if multiset(m) == multiset([a, b]) { DistinctPermutation([a, b], m); }
  }

  // Given as a list they never do.
  lemma ListedBondIsTheTwoNics(i: HostIntent, members: MembersArg)
    requires Accepted(i) && members.AsList? && MakeBond(i.bond.name, members, i.bond.mtu) == Some(i.bond)
    ensures multiset(i.bond.members) == multiset(Map(NicName, i.nsNics))
  {
    hide Accepted;
    BondIsTheTwoNics(i, members);
  }

  // A host whose bond was given the tuple ("nsa", "nsa").
  function TupleIntent(): HostIntent {
    HostIntent("SN", "host", Cpu,
               [BondMember("nsa", "aa:bb:cc:00:00:01", 9000), BondMember("nsb", "aa:bb:cc:00:00:02", 9000)],
               Bond("bond0", ["nsa", "nsa"], 9000),
               [VlanChild("bond0.100", "bond0", 100, Mgmt, 1500, Cidr(11, 24), Some(1)),
                VlanChild("bond0.200", "bond0", 200, Storage, 9000, Cidr(12, 24), None),
                VlanChild("bond0.300", "bond0", 300, Ingress, 1500, Cidr(13, 24), None)],
               [], [])
  }

  lemma TupleNamesDistinct()
    ensures Distinct(AllNames(TupleIntent())) && Distinct(AllIps(TupleIntent()))
  {
    var i := TupleIntent();
    assert Map(NicName, i.nsNics) == ["nsa", "nsb"];
    assert Map(VlanName, i.vlans) == ["bond0.100", "bond0.200", "bond0.300"];
    assert AllNames(i) == ["nsa", "nsb", "bond0.100", "bond0.200", "bond0.300"];
    assert AllIps(i) == [11, 12, 13];
    assert "nsa"[2] != "nsb"[2];
    assert "bond0.100"[6] != "bond0.200"[6] && "bond0.100"[6] != "bond0.300"[6] && "bond0.200"[6] != "bond0.300"[6];
  }

  lemma TupleRoles()
    ensures OnePerRole(TupleIntent().vlans) && GatewayIsMgmts(TupleIntent().vlans)
  {
  }

  lemma TupleAccepted()
    ensures Accepted(TupleIntent())
  {
    var i := TupleIntent();
    TupleNamesDistinct();
    TupleRoles();
    AcceptedIsWellFormed(i);
    hide Accepted, AllNames, AllIps, OnePerRole, GatewayIsMgmts, Distinct;
    assert i.nsNics[0] in i.nsNics && i.nsNics[0].name == "nsa";
  }

  // Given as a tuple, repeated members pass every check: the list test is what
  // makes the bond the two NICs.
  lemma TupleMembersEscape()
    ensures Accepted(TupleIntent()) && MakeBond("bond0", AsTuple(["nsa", "nsa"]), 9000) == Some(TupleIntent().bond)
    ensures multiset(TupleIntent().bond.members) != multiset(Map(NicName, TupleIntent().nsNics))
    ensures MakeBond("bond0", AsList(["nsa", "nsa"]), 9000).None?
  {
    TupleAccepted();
    hide Accepted;
    var names := Map(NicName, TupleIntent().nsNics);
    assert names[1] == "nsb" && "nsa"[2] != "nsb"[2] && names[1] in multiset(names);
    var twice := ["nsa", "nsa"];
    assert twice[0] == twice[1];
    assert "nsb" !in twice;
  }

  // Every accepted host: three VLANs, one per role; one gateway in all, on the
  // mgmt VLAN; RoCE rails or InfiniBand rails but never both.
  lemma HostShape(i: HostIntent)
    requires Accepted(i)
    ensures |i.vlans| == 3 && forall a, b :: 0 <= a < b < 3 ==> i.vlans[a].role != i.vlans[b].role
    ensures exists m :: 0 <= m < 3 && i.vlans[m].role == Mgmt && i.vlans[m].gateway.Some?
              && forall k :: 0 <= k < 3 && k != m ==> i.vlans[k].role != Mgmt && i.vlans[k].gateway.None?
    ensures i.roce == [] || i.ib == []
  {
    AcceptedIsWellFormed(i);
    hide Accepted;
    OneVlanPerRole(i.vlans);
    var m := IndexOfRole(i.vlans, Mgmt);
    assert i.vlans[0] in i.vlans && i.vlans[1] in i.vlans && i.vlans[2] in i.vlans;
    assert i.vlans[m].gateway.Some?;
  }
}
