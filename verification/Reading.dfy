// What the loader means: an intent is loaded from records exactly when it
// describes them, field by field, and is well formed.
module Reading {
  import opened Basics
  import opened Addresses
  import opened Sorting
  import opened Inventory
  import opened Models
  import opened Invariants
  import opened Loader
  import opened LoadOrder
  import opened PopulateSpec
  import opened FixtureView
  import opened RoundTrip
  import opened Emitter

  // ----- which records are which ---------------------------------------------------------

  ghost predicate DigitsFrom(name: string, at: nat) {
    |name| > at && forall k :: at <= k < |name| ==> '0' <= name[k] <= '9'
  }

  ghost predicate NamesVlan(name: string) { |name| >= 6 && name[..6] == "bond0." }
  ghost predicate NamesRoce(name: string) { DigitsFrom(name, 3) && name[..3] == "gpu" }
  ghost predicate NamesIb(name: string) { DigitsFrom(name, 2) && name[..2] == "ib" }

  // bond0.<anything> is a VLAN child, gpu<digits> a RoCE rail, ib<digits> an
  // InfiniBand rail.
  lemma Conventions(v: IfaceView)
    ensures IsVlanChild(v) <==> NamesVlan(v.name)
    ensures IsRoceNic(v) <==> NamesRoce(v.name)
    ensures IsIbNic(v) <==> NamesIb(v.name)
  {
    var name := v.name;
    if |name| >= 3 {
      assert forall k :: 3 <= k < |name| ==> name[k] == name[3..][k - 3];
      assert forall k :: 0 <= k < |name[3..]| ==> name[3..][k] == name[k + 3];
    }
    if |name| >= 2 {
      assert forall k :: 2 <= k < |name| ==> name[k] == name[2..][k - 2];
      assert forall k :: 0 <= k < |name[2..]| ==> name[2..][k] == name[k + 2];
    }
  }

  // ----- one record ------------------------------------------------------------------

  // Six pairs of lower-case hexadecimal digits, colons between them.
  ghost predicate MacText(mac: string) {
    |mac| == 17 && forall k :: 0 <= k < 17 ==>
      if k == 2 || k == 5 || k == 8 || k == 11 || k == 14 then mac[k] == ':'
      else '0' <= mac[k] <= '9' || 'a' <= mac[k] <= 'f'
  }

  lemma MacTextMeaning(mac: string)
    ensures MacShape(mac) <==> MacText(mac)
  {
    forall k | 0 <= k < 17 ensures k % 3 == 2 <==> k == 2 || k == 5 || k == 8 || k == 11 || k == 14 {}
  }

  ghost predicate ReadsMac(mac: string, w: IfaceView) {
    w.primaryMac.Some? && mac == Strip(Lower(w.primaryMac.value)) && MacText(mac)
  }

  ghost predicate ReadsMtu(mtu: int, w: IfaceView, default: int) {
    1500 <= mtu <= 9216 && (w.mtu == Some(mtu) || (w.mtu.None? && mtu == default))
  }

  ghost predicate ReadsName(name: string, w: IfaceView) { name == w.name && 1 <= |name| <= 15 }

  // The one address of the record.
  ghost predicate ReadsAddress(a: Ipv4Interface, w: IfaceView) { w.ips == {V4(a)} }

  ghost predicate ReadsVfs(n: int, w: IfaceView) {
    0 <= n <= 128
    && if "sriov_vfs" in w.customFields && w.customFields["sriov_vfs"] != Null
       then w.customFields["sriov_vfs"] == Number(n) else n == 16
  }

  function VlanRoleValue(r: VlanRole): string {
    match r
    case Mgmt => "mgmt"
    case Storage => "storage"
    case Ingress => "ingress"
  }

  ghost predicate ReadsNic(n: BondMember, w: IfaceView, name: string) {
    n.name == name && ReadsMac(n.mac, w) && ReadsMtu(n.mtu, w, 9000)
  }

  // The VLAN id and role come from the record's untagged VLAN; the mgmt VLAN
  // alone has a gateway, the least host of its own network.
  ghost predicate ReadsVlan(v: VlanChild, w: IfaceView) {
    && ReadsName(v.name, w) && v.parent == "bond0"
    && w.untagged == Some(VlanRef(v.vlanId, VlanRoleValue(v.role))) && 1 <= v.vlanId <= 4094
    && ReadsMtu(v.mtu, w, 1500) && ReadsAddress(v.address, w)
    && (v.gateway.Some? <==> v.role == Mgmt)
    && (v.gateway.Some? ==> IsHost(v.address, v.gateway.value)
                            && forall y :: IsHost(v.address, y) ==> v.gateway.value <= y)
  }

  ghost predicate ReadsRoce(r: RoceUnderlay, w: IfaceView) {
    && ReadsName(r.name, w) && ReadsMac(r.mac, w) && ReadsMtu(r.mtu, w, 9000)
    && ReadsVfs(r.sriovVfs, w) && ReadsAddress(r.address, w)
  }

  ghost predicate ReadsIb(i: InfinibandUnderlay, w: IfaceView) {
    ReadsName(i.name, w) && ReadsMac(i.mac, w) && ReadsMtu(i.mtu, w, 2044) && ReadsAddress(i.address, w)
  }

  lemma LowerTwice(s: string)
    ensures Lower(Lower(s)) == Lower(s)
  {
  }

  lemma MacMeaning(w: IfaceView, mac: string)
    ensures ReadMac(w).Ok? && CanonicalMac(ReadMac(w).value) == Some(mac) <==> ReadsMac(mac, w)
  {
    if w.primaryMac.Some? { LowerTwice(w.primaryMac.value); }
    MacTextMeaning(mac);
    hide MacShape, MacText, Lower, Strip;
  }

  lemma OneElement<T>(s: set<T>, x: T)
    requires |s| == 1 && x in s
    ensures s == {x}
  {
    assert |s - {x}| == 0;
  }

  lemma AddressMeaning(w: IfaceView, a: Ipv4Interface)
    ensures SingleIp(w) == Ok(a) <==> ReadsAddress(a, w)
  {
    if |w.ips| == 1 {
      var x :| x in w.ips;
      OneElement(w.ips, x);
    }
  }

  lemma VlanRoleMeaning(name: string, role: VlanRole)
    ensures ParseVlanRole(name) == Some(role) <==> name == VlanRoleValue(role)
  {
  }

  lemma GatewayMeaning(a: Ipv4Interface, g: int)
    ensures g == DeriveGateway(a) <==> IsHost(a, g) && forall y :: IsHost(a, y) ==> g <= y
  {
    hide IsHost, DeriveGateway;
    GatewayIsLeastHost(a);
  }

  lemma NicMeaning(w: IfaceView, name: string, n: BondMember)
    requires NameOk(name)
    ensures MakeNic(name, w) == Ok(n) <==> ReadsNic(n, w, name)
  {
    hide CanonicalMac, ReadsMac;
    MacMeaning(w, n.mac);
  }

  lemma VlanMeaning(w: IfaceView, v: VlanChild)
    ensures MakeVlan(w) == Ok(v) <==> ReadsVlan(v, w)
  {
    hide SingleIp, ReadsAddress, ParseVlanRole, VlanRoleValue, DeriveGateway, IsHost;
    AddressMeaning(w, v.address);
    if w.untagged.Some? { VlanRoleMeaning(w.untagged.value.name, v.role); }
    if v.gateway.Some? { GatewayMeaning(v.address, v.gateway.value); }
  }

  lemma RoceMeaning(w: IfaceView, r: RoceUnderlay)
    ensures MakeRoce(w) == Ok(r) <==> ReadsRoce(r, w)
  {
    hide SingleIp, ReadsAddress, CanonicalMac, ReadsMac;
    AddressMeaning(w, r.address);
    MacMeaning(w, r.mac);
  }

  lemma IbMeaning(w: IfaceView, i: InfinibandUnderlay)
    ensures MakeIb(w) == Ok(i) <==> ReadsIb(i, w)
  {
    hide SingleIp, ReadsAddress, CanonicalMac, ReadsMac;
    AddressMeaning(w, i.address);
    MacMeaning(w, i.mac);
  }

  // ----- many records ------------------------------------------------------------------

  ghost predicate VlanRecord(v: IfaceView) { NamesVlan(v.name) }
  ghost predicate RoceRecord(v: IfaceView) { NamesRoce(v.name) }
  ghost predicate IbRecord(v: IfaceView) { NamesIb(v.name) }

  function Picked(views: seq<IfaceView>, pick: IfaceView -> bool): seq<IfaceView> {
    if views == [] then []
    else Picked(views[..|views| - 1], pick) + if pick(views[|views| - 1]) then [views[|views| - 1]] else []
  }

  lemma {:induction false} PickedAlike(views: seq<IfaceView>, p: IfaceView -> bool, q: IfaceView -> bool)
    requires forall v :: p(v) == q(v)
    ensures Picked(views, p) == Picked(views, q)
  {
    if views != [] { PickedAlike(views[..|views| - 1], p, q); }
  }

  lemma PickedRecords(views: seq<IfaceView>)
    ensures Picked(views, IsVlanChild) == Picked(views, VlanRecord)
    ensures Picked(views, IsRoceNic) == Picked(views, RoceRecord)
    ensures Picked(views, IsIbNic) == Picked(views, IbRecord)
  {
    hide Picked, IsVlanChild, IsRoceNic, IsIbNic, NamesVlan, NamesRoce, NamesIb;
    forall v ensures IsVlanChild(v) == VlanRecord(v) && IsRoceNic(v) == RoceRecord(v) && IsIbNic(v) == IbRecord(v) {
      Conventions(v);
    }
    PickedAlike(views, IsVlanChild, VlanRecord);
    PickedAlike(views, IsRoceNic, RoceRecord);
    PickedAlike(views, IsIbNic, IbRecord);
  }

  ghost predicate EachMade<T(!new)>(ts: seq<T>, ws: seq<IfaceView>, make: IfaceView -> Loaded<T>) {
    |ts| == |ws| && forall k :: 0 <= k < |ts| ==> make(ws[k]) == Ok(ts[k])
  }

  lemma {:induction false} CollectMeaning<T(!new)>(views: seq<IfaceView>, pick: IfaceView -> bool,
                                                   make: IfaceView -> Loaded<T>, ts: seq<T>)
    ensures Collect(views, pick, make) == Ok(ts) <==> EachMade(ts, Picked(views, pick), make)
  {
    if views != [] {
      var init, last := views[..|views| - 1], views[|views| - 1];
      if !pick(last) {
        CollectMeaning(init, pick, make, ts);
      } else if ts != [] {
        CollectMeaning(init, pick, make, ts[..|ts| - 1]);
        MadeSnoc(ts, Picked(init, pick), last, make);
        assert ts == ts[..|ts| - 1] + [ts[|ts| - 1]];
      }
    }
  }

  lemma MadeSnoc<T(!new)>(ts: seq<T>, ws: seq<IfaceView>, w: IfaceView, make: IfaceView -> Loaded<T>)
    requires ts != []
    ensures EachMade(ts, ws + [w], make) <==> EachMade(ts[..|ts| - 1], ws, make) && make(w) == Ok(ts[|ts| - 1])
  {
  }

  ghost predicate VlansRead(vs: seq<VlanChild>, ws: seq<IfaceView>) {
    |vs| == |ws| && forall k :: 0 <= k < |vs| ==> ReadsVlan(vs[k], ws[k])
  }

  ghost predicate RoceRead(rs: seq<RoceUnderlay>, ws: seq<IfaceView>) {
    |rs| == |ws| && forall k :: 0 <= k < |rs| ==> ReadsRoce(rs[k], ws[k])
  }

  ghost predicate IbRead(rails: seq<InfinibandUnderlay>, ws: seq<IfaceView>) {
    |rails| == |ws| && forall k :: 0 <= k < |rails| ==> ReadsIb(rails[k], ws[k])
  }

  lemma VlansMeaning(vs: seq<VlanChild>, views: seq<IfaceView>)
    ensures Collect(views, IsVlanChild, MakeVlan) == Ok(vs) <==> VlansRead(vs, Picked(views, VlanRecord))
  {
    hide Collect, Picked, MakeVlan, ReadsVlan;
    PickedRecords(views);
    CollectMeaning(views, IsVlanChild, MakeVlan, vs);
    var ws := Picked(views, VlanRecord);
    if |vs| == |ws| {
      forall k | 0 <= k < |vs| ensures MakeVlan(ws[k]) == Ok(vs[k]) <==> ReadsVlan(vs[k], ws[k]) {
        VlanMeaning(ws[k], vs[k]);
      }
    }
  }

  lemma RoceListMeaning(rs: seq<RoceUnderlay>, views: seq<IfaceView>)
    ensures Collect(views, IsRoceNic, MakeRoce) == Ok(rs) <==> RoceRead(rs, Picked(views, RoceRecord))
  {
    hide Collect, Picked, MakeRoce, ReadsRoce;
    PickedRecords(views);
    CollectMeaning(views, IsRoceNic, MakeRoce, rs);
    var ws := Picked(views, RoceRecord);
    if |rs| == |ws| {
      forall k | 0 <= k < |rs| ensures MakeRoce(ws[k]) == Ok(rs[k]) <==> ReadsRoce(rs[k], ws[k]) {
        RoceMeaning(ws[k], rs[k]);
      }
    }
  }

  lemma IbListMeaning(rails: seq<InfinibandUnderlay>, views: seq<IfaceView>)
    ensures Collect(views, IsIbNic, MakeIb) == Ok(rails) <==> IbRead(rails, Picked(views, IbRecord))
  {
    hide Collect, Picked, MakeIb, ReadsIb;
    PickedRecords(views);
    CollectMeaning(views, IsIbNic, MakeIb, rails);
    var ws := Picked(views, IbRecord);
    if |rails| == |ws| {
      forall k | 0 <= k < |rails| ensures MakeIb(ws[k]) == Ok(rails[k]) <==> ReadsIb(rails[k], ws[k]) {
        IbMeaning(ws[k], rails[k]);
      }
    }
  }

  // t lists s by name, in dictionary order, and nothing else.
  ghost predicate Arranges<T(!new)>(name: T -> string, t: seq<T>, s: seq<T>) {
    multiset(t) == multiset(s) && Alphabetical(Map(name, t))
  }

  lemma OrderedByName<T(!new)>(le: (T, T) -> bool, name: T -> string, t: seq<T>)
    requires forall x, y :: le(x, y) == StrLe(name(x), name(y))
    ensures Ordered(le, t) <==> Alphabetical(Map(name, t))
  {
    hide StrLe, InDictionaryOrder;
    forall x, y ensures le(x, y) == InDictionaryOrder(name(x), name(y)) { StrLeIsDictionaryOrder(name(x), name(y)); }
    var names := Map(name, t);
    if Alphabetical(names) {
      forall a, b | 0 <= a < b < |t| ensures le(t[a], t[b]) { assert InDictionaryOrder(names[a], names[b]); }
    }
  }

  lemma SortArranges<T(!new)>(le: (T, T) -> bool, name: T -> string, t: seq<T>, s: seq<T>)
    requires TotalPreorder(le) && Separates(le, t) && forall x, y :: le(x, y) == StrLe(name(x), name(y))
    ensures Arranges(name, t, s) <==> t == Sort(le, s)
  {
    hide Sort, Ordered, TotalPreorder, Separates, StrLe, Alphabetical;
    SortMultiset(le, s);
    SortOrdered(le, s);
    OrderedByName(le, name, t);
    if Arranges(name, t, s) { OrderedUnique(le, t, Sort(le, s)); }
  }

  // ----- the intent ------------------------------------------------------------------------

  ghost predicate NicFrom(n: BondMember, views: seq<IfaceView>, name: string) {
    LastNamed(views, name).Some? && ReadsNic(n, LastNamed(views, name).value, name)
  }

  ghost predicate BondFrom(b: Bond, views: seq<IfaceView>) {
    && b.name == "bond0" && b.members == ["nsa", "nsb"]
    && LastNamed(views, "bond0").Some? && ReadsMtu(b.mtu, LastNamed(views, "bond0").value, 9000)
  }

  function RoleText(r: Role): string {
    match r
    case Cpu => "cpu"
    case GpuB300 => "gpu-b300"
    case GpuB200 => "gpu-b200"
    case GpuH200 => "gpu-h200"
  }

  // The intent is what the records say: role by slug, nsa and nsb by name, the
  // bond over the two, one VLAN child per bond0.* record in the order they came,
  // one rail per gpu<n> or ib<n> record in name order, and the checks hold.
  ghost predicate Describes(i: HostIntent, tag: string, hostname: string, slug: Option<string>, views: seq<IfaceView>) {
    && i.assetTag == tag && 1 <= |tag| <= 64 && i.hostname == hostname && 1 <= |hostname| <= 253
    && slug == Some(RoleText(i.role))
    && |i.nsNics| == 2 && NicFrom(i.nsNics[0], views, "nsa") && NicFrom(i.nsNics[1], views, "nsb")
    && BondFrom(i.bond, views)
    && VlansRead(i.vlans, Picked(views, VlanRecord))
    && (exists rs :: RoceRead(rs, Picked(views, RoceRecord)) && Arranges(RoceName, i.roce, rs))
    && (exists rails :: IbRead(rails, Picked(views, IbRecord)) && Arranges(IbName, i.ib, rails))
    && WellFormed(i)
  }

  lemma RoleMeaning(slug: string, r: Role)
    ensures ParseRole(slug) == Some(r) <==> slug == RoleText(r)
    ensures RoleText(r) != "" && RoleValue(r) == RoleText(r)
  {
  }

  lemma NsNicsMeaning(views: seq<IfaceView>, nics: seq<BondMember>)
    ensures NsNics(views) == Ok(nics) <==>
            |nics| == 2 && NicFrom(nics[0], views, "nsa") && NicFrom(nics[1], views, "nsb")
  {
    hide LastNamed, MakeNic, ReadsNic;
    if |nics| == 2 {
      if LastNamed(views, "nsa").Some? { NicMeaning(LastNamed(views, "nsa").value, "nsa", nics[0]); }
      if LastNamed(views, "nsb").Some? { NicMeaning(LastNamed(views, "nsb").value, "nsb", nics[1]); }
      assert nics == [nics[0], nics[1]];
    }
  }

  lemma TwoNames(nics: seq<BondMember>)
    requires |nics| == 2 && nics[0].name == "nsa" && nics[1].name == "nsb"
    ensures Map(NicName, nics) == ["nsa", "nsb"] && "nsa" != "nsb"
  {
  }

  lemma BondMeaning(views: seq<IfaceView>, nics: seq<BondMember>, b: Bond)
    requires |nics| == 2 && nics[0].name == "nsa" && nics[1].name == "nsb"
    ensures BondOf(views, nics) == Ok(b) <==> BondFrom(b, views)
  {
    hide LastNamed, Map;
    TwoNames(nics);
    var names := ["nsa", "nsb"];
    assert forall k, j :: 0 <= k < j < |names| ==> names[k] != names[j];
  }

  lemma RoceSortMeaning(views: seq<IfaceView>, out: seq<RoceUnderlay>)
    requires Separates(RoceLe, out)
    ensures Sorted(RoceLe, Collect(views, IsRoceNic, MakeRoce)) == Ok(out) <==>
            exists rs :: RoceRead(rs, Picked(views, RoceRecord)) && Arranges(RoceName, out, rs)
  {
    hide Collect, Picked, RoceRead, Arranges, Sort, Separates, TotalPreorder, StrLe;
    RoceOrder();
    var got := Collect(views, IsRoceNic, MakeRoce);
    if got.Ok? {
      RoceListMeaning(got.value, views);
      SortArranges(RoceLe, RoceName, out, got.value);
    }
    if rs :| RoceRead(rs, Picked(views, RoceRecord)) && Arranges(RoceName, out, rs) {
      RoceListMeaning(rs, views);
    }
  }

  lemma IbSortMeaning(views: seq<IfaceView>, out: seq<InfinibandUnderlay>)
    requires Separates(IbLe, out)
    ensures Sorted(IbLe, Collect(views, IsIbNic, MakeIb)) == Ok(out) <==>
            exists rails :: IbRead(rails, Picked(views, IbRecord)) && Arranges(IbName, out, rails)
  {
    hide Collect, Picked, IbRead, Arranges, Sort, Separates, TotalPreorder, StrLe;
    IbOrder();
    var got := Collect(views, IsIbNic, MakeIb);
    if got.Ok? {
      IbListMeaning(got.value, views);
      SortArranges(IbLe, IbName, out, got.value);
    }
    if rails :| IbRead(rails, Picked(views, IbRecord)) && Arranges(IbName, out, rails) {
      IbListMeaning(rails, views);
    }
  }

  lemma RailsSeparate(i: HostIntent)
    requires Accepted(i)
    ensures Separates(RoceLe, i.roce) && Separates(IbLe, i.ib)
  {
    hide Accepted, Separates, Map, Distinct;
    ListNamesDistinct(i);
    NamesSeparate(RoceName, RoceLe, i.roce);
    NamesSeparate(IbName, IbLe, i.ib);
  }

  // The parts BuildIntent puts together, before the checks.
  ghost predicate Assembled(i: HostIntent, tag: string, hostname: string, slug: Option<string>, views: seq<IfaceView>) {
    && i.assetTag == tag && i.hostname == hostname
    && Truthy(slug) && ParseRole(slug.value) == Some(i.role)
    && NsNics(views) == Ok(i.nsNics) && BondOf(views, i.nsNics) == Ok(i.bond)
    && Collect(views, IsVlanChild, MakeVlan) == Ok(i.vlans)
    && Sorted(RoceLe, Collect(views, IsRoceNic, MakeRoce)) == Ok(i.roce)
    && Sorted(IbLe, Collect(views, IsIbNic, MakeIb)) == Ok(i.ib)
  }

  lemma BuildIsAssembly(i: HostIntent, tag: string, hostname: string, slug: Option<string>, views: seq<IfaceView>)
    ensures BuildIntent(tag, hostname, slug, views) == Ok(i) <==>
            Assembled(i, tag, hostname, slug, views) && MakeIntent(i) == Ok(i)
  {
    hide Collect, Sorted, NsNics, BondOf, ParseRole, Checks, FirstFailure, Truthy;
  }

  // A host is loaded from records exactly as the intent that describes them.
  lemma LoaderMeaning(i: HostIntent, tag: string, hostname: string, slug: Option<string>, views: seq<IfaceView>)
    ensures BuildIntent(tag, hostname, slug, views) == Ok(i) <==> Describes(i, tag, hostname, slug, views)
  {
    hide BuildIntent, Collect, Sorted, NsNics, BondOf, BondFrom, NicFrom, ParseRole, RoleText, Checks, FirstFailure,
      Accepted, WellFormed, VlansRead, RoceRead, IbRead, Arranges, Picked;
    BuildIsAssembly(i, tag, hostname, slug, views);
    AcceptedMeansNoFailure(i);
    AcceptedIsWellFormed(i);
    if slug.Some? { RoleMeaning(slug.value, i.role); }
    NsNicsMeaning(views, i.nsNics);
    if |i.nsNics| == 2 && NicFrom(i.nsNics[0], views, "nsa") && NicFrom(i.nsNics[1], views, "nsb") {
      NicFromName(i.nsNics[0], views, "nsa");
      NicFromName(i.nsNics[1], views, "nsb");
      BondMeaning(views, i.nsNics, i.bond);
    }
    VlansMeaning(i.vlans, views);
    if Accepted(i) {
      RailsSeparate(i);
      RoceSortMeaning(views, i.roce);
      IbSortMeaning(views, i.ib);
    }
  }

  // ----- what a failing load reports ---------------------------------------------------

  ghost predicate Named(views: seq<IfaceView>, name: string) { exists v :: v in views && v.name == name }

  ghost predicate KnownRole(slug: Option<string>) {
    slug == Some("cpu") || slug == Some("gpu-b300") || slug == Some("gpu-b200") || slug == Some("gpu-h200")
  }

  // A role that is unknown, and then a part of the bond that is missing, is a
  // failed query: a missing nsa or nsb never gets as far as the NIC count.
  lemma MissingParts(tag: string, hostname: string, slug: Option<string>, views: seq<IfaceView>)
    ensures !KnownRole(slug) ==> BuildIntent(tag, hostname, slug, views) == Err(NetboxQuery("parse_role"))
    ensures KnownRole(slug) && !Named(views, "nsa") ==>
              BuildIntent(tag, hostname, slug, views) == Err(NetboxQuery("find_ns_nic"))
    ensures KnownRole(slug) && NsNic(views, "nsa").Ok? && !Named(views, "nsb") ==>
              BuildIntent(tag, hostname, slug, views) == Err(NetboxQuery("find_ns_nic"))
    ensures KnownRole(slug) && NsNics(views).Ok? && !Named(views, "bond0") ==>
              BuildIntent(tag, hostname, slug, views) == Err(NetboxQuery("find_bond"))
  {
    hide Collect, Sorted, MakeNic, MakeIntent;
    if slug.Some? {
      RoleMeaning(slug.value, Cpu);
      RoleMeaning(slug.value, GpuB300);
      RoleMeaning(slug.value, GpuB200);
      RoleMeaning(slug.value, GpuH200);
    }
  }

  // Field by field, the first thing missing from a record.
  lemma MissingFields(v: IfaceView)
    ensures v.untagged.None? ==> MakeVlan(v) == Err(NetboxQuery("read_vlan_id"))
    ensures v.untagged.Some? && v.untagged.value.name !in ["mgmt", "storage", "ingress"] ==>
              MakeVlan(v) == Err(NetboxQuery("read_vlan_role"))
    ensures v.untagged.Some? && v.untagged.value.name in ["mgmt", "storage", "ingress"] && |v.ips| != 1 ==>
              MakeVlan(v) == Err(NetboxQuery("list_ip_addresses"))
    ensures v.primaryMac.None? ==>
              MakeRoce(v) == Err(NetboxQuery("read_mac")) && MakeIb(v) == Err(NetboxQuery("read_mac"))
    ensures v.primaryMac.Some? && |v.ips| != 1 ==>
              && MakeRoce(v) == Err(NetboxQuery("list_ip_addresses"))
              && MakeIb(v) == Err(NetboxQuery("list_ip_addresses"))
    ensures v.primaryMac.None? ==> forall name :: MakeNic(name, v) == Err(NetboxQuery("read_mac"))
  {
  }

  // Only a device that is not there is reported as such.
  lemma OnlyMissingHosts(st: Store, tag: string, ids: seq<Id>)
    requires forall id :: id in ids ==> id in st.base.ifaces.rows
    ensures Load(st, tag, ids) == Err(HostNotFound) <==> st.base.devices.Get(tag).None?
  {
    hide Collect, MakeVlan, MakeRoce, MakeIb, CanonicalMac, LastNamed, Sort, Checks, FirstFailure, SingleIp, MakeBond,
      Views;
    if st.base.devices.Get(tag).Some? {
      var views := Views(st, ids);
      forall e | Fails(views, IsVlanChild, MakeVlan, e) || Fails(views, IsRoceNic, MakeRoce, e)
                 || Fails(views, IsIbNic, MakeIb, e)
        ensures !e.HostNotFound?
      {
        RecordErrors(views, e, e);
      }
      CollectError(views, IsVlanChild, MakeVlan);
      CollectError(views, IsRoceNic, MakeRoce);
      CollectError(views, IsIbNic, MakeIb);
      hide Fails;
    }
  }

  lemma NicFromName(n: BondMember, views: seq<IfaceView>, name: string)
    requires NicFrom(n, views, name)
    ensures n.name == name
  {
  }

  // Loading a populated device succeeds exactly when some intent describes the
  // fixture, and then returns that intent up to the order of its VLANs.
  lemma LoadedDescribesFixture(fixtures: seq<HostFixture>, fx: HostFixture, st: Store, ids: seq<Id>, i: HostIntent)
    requires Populated(fixtures, fx, st) && fx.assetTag in Fin(fixtures, st).base.devices.index
    requires Listing(ids, Fin(fixtures, st).base, Fin(fixtures, st).base.devices.index[fx.assetTag])
    requires Describes(i, fx.assetTag, fx.hostname, Some(fx.deviceRole), FixtureViews(fx))
    ensures SameLoad(FixtureViews(fx), Load(Fin(fixtures, st), fx.assetTag, ids), Ok(i))
  {
    hide Populated, Fin, Load, BuildIntent, Listing, Describes, FixtureViews, SameLoad;
    LoadAfterPopulate(fixtures, fx, st, ids);
    LoaderMeaning(i, fx.assetTag, fx.hostname, Some(fx.deviceRole), FixtureViews(fx));
  }

  lemma LoadedOnlyIfDescribed(fixtures: seq<HostFixture>, fx: HostFixture, st: Store,
                              ids: seq<Id>) returns (i: HostIntent)
    requires Populated(fixtures, fx, st) && fx.assetTag in Fin(fixtures, st).base.devices.index
    requires Listing(ids, Fin(fixtures, st).base, Fin(fixtures, st).base.devices.index[fx.assetTag])
    requires Load(Fin(fixtures, st), fx.assetTag, ids).Ok?
    ensures Describes(i, fx.assetTag, fx.hostname, Some(fx.deviceRole), FixtureViews(fx))
  {
    hide Populated, Fin, Load, BuildIntent, Describes, FixtureViews;
    LoadAfterPopulate(fixtures, fx, st, ids);
    i := DirectIntent(fx).value;
    LoaderMeaning(i, fx.assetTag, fx.hostname, Some(fx.deviceRole), FixtureViews(fx));
  }
}
