// The Netbox loader: interface records read as views, partitioned by name and
// built into a host intent.
module Loader {
  import opened Basics
  import opened Addresses
  import opened Sorting
  import opened Inventory
  import opened Client
  import opened Models

  // FieldInvalid: a pydantic ValidationError or a ValueError of a conversion.
  datatype LoadError = HostNotFound | NetboxQuery(operation: string) | InvariantViolated(id: string)
                     | FieldInvalid(field: string)

  type Loaded<T> = Result<T, LoadError>

  // ----- records as the loader reads them -----------------------------------------

  datatype VlanRef = VlanRef(vid: int, name: string)
  datatype IfaceView = IfaceView(name: string, mtu: Option<int>, primaryMac: Option<string>, untagged: Option<VlanRef>,
                                 customFields: map<string, CfValue>, ips: set<IpText>)

  function UntaggedView(b: Base, vlan: Option<Id>): Option<VlanRef> {
    if vlan.Some? && vlan.value in b.vlans.rows
    then Some(VlanRef(b.vlans.rows[vlan.value].key.vid, b.vlans.rows[vlan.value].body))
    else None
  }

  function PrimaryMacView(st: Store, iface: Id): Option<string> {
    match st.Wired(Slot(iface, PrimaryMacWire))
    case Some(mac) => if mac in st.base.macs.rows then Some(st.base.macs.rows[mac].key) else None
    case None => None
  }

  // ip_addresses.filter(interface_id=...)
  function AddressesOn(b: Base, iface: Id): set<IpText> {
    set ip | ip in b.ips.index && b.ips.Get(ip) == Some(Found(b.ips.index[ip], Some(iface)))
  }

  function ViewOf(st: Store, iface: Id): IfaceView
    requires iface in st.base.ifaces.rows
  {
    var row := st.base.ifaces.rows[iface];
    IfaceView(row.key.name, row.body.mtu, PrimaryMacView(st, iface), UntaggedView(st.base, row.body.untagged),
              row.body.customFields, AddressesOn(st.base, iface))
  }

  // ids lists the device's interfaces, each once, in whatever order Netbox returns them.
  ghost predicate Listing(ids: seq<Id>, b: Base, device: Id) {
    && Distinct(ids)
    && forall id :: id in ids <==> id in b.ifaces.rows && b.ifaces.rows[id].key.device == device
  }

  function Views(st: Store, ids: seq<Id>): (views: seq<IfaceView>)
    requires forall id :: id in ids ==> id in st.base.ifaces.rows
    ensures |views| == |ids|
    ensures forall k :: 0 <= k < |ids| ==> views[k] == ViewOf(st, ids[k])
  {
    seq(|ids|, k requires 0 <= k < |ids| => ViewOf(st, ids[k]))
  }

  // ----- field readers ----------------------------------------------------------------

  function ReadMac(v: IfaceView): Loaded<string> {
    match v.primaryMac
    case None => Err(NetboxQuery("read_mac"))
    case Some(mac) => Ok(Lower(mac))
  }

  function ReadMtu(v: IfaceView, default: int): int { if v.mtu.None? then default else v.mtu.value }

  function ReadVlanId(v: IfaceView): Loaded<int> {
    match v.untagged
    case None => Err(NetboxQuery("read_vlan_id"))
    case Some(vlan) => Ok(vlan.vid)
  }

  function ReadVlanRole(v: IfaceView): Loaded<VlanRole> {
    match v.untagged
    case None => Err(NetboxQuery("read_vlan_role"))
    case Some(vlan) =>
      match ParseVlanRole(vlan.name)
      case None => Err(NetboxQuery("read_vlan_role"))
      case Some(role) => Ok(role)
  }

  function ReadSriovVfs(v: IfaceView, default: int): Loaded<int> {
    if "sriov_vfs" !in v.customFields then Ok(default)
    else
      match v.customFields["sriov_vfs"]
      case Null => Ok(default)
      case Number(n) => Ok(n)
      case Text(_) => Err(FieldInvalid("sriov_vfs"))
  }

  ghost function SingleIp(v: IfaceView): Loaded<Ipv4Interface> {
    if |v.ips| != 1 then Err(NetboxQuery("list_ip_addresses"))
    else
      var ip :| ip in v.ips;
      match ip
      case V4(addr) => Ok(addr)
      case OtherText(_) => Err(FieldInvalid("address"))
  }

  // ----- names ------------------------------------------------------------------------

  const BOND_NAME := "bond0"
  const VLAN_NAME_PREFIX := "bond0."
  const ROCE_NIC_PREFIX := "gpu"
  const IB_NIC_PREFIX := "ib"

  predicate IsVlanName(name: string) { StartsWith(name, VLAN_NAME_PREFIX) }
  predicate IsRoceName(name: string) {
    StartsWith(name, ROCE_NIC_PREFIX) && AllDigits(name[|ROCE_NIC_PREFIX|..])
  }
  predicate IsIbName(name: string) {
    StartsWith(name, IB_NIC_PREFIX) && AllDigits(name[|IB_NIC_PREFIX|..])
  }

  predicate IsVlanChild(v: IfaceView) { IsVlanName(v.name) }
  predicate IsRoceNic(v: IfaceView) { IsRoceName(v.name) }
  predicate IsIbNic(v: IfaceView) { IsIbName(v.name) }

  // The naming conventions never classify one interface two ways.
  lemma OneClass(name: string)
    ensures var classes :=
              [name == "nsa", name == "nsb", name == BOND_NAME, IsVlanName(name), IsRoceName(name), IsIbName(name)];
            forall j, k :: 0 <= j < k < |classes| ==> !(classes[j] && classes[k])
  {
    assert IsVlanName(name) ==> |name| >= 6 && name[0] == 'b';
    assert IsRoceName(name) ==> |name| >= 3 && name[0] == 'g';
    assert IsIbName(name) ==> |name| >= 2 && name[0] == 'i';
    assert "nsa"[0] == 'n' && "nsb"[0] == 'n' && "nsa"[2] != "nsb"[2] && BOND_NAME[0] == 'b' && |BOND_NAME| == 5;
  }

  // ----- building the parts ---------------------------------------------------------------

  // {i.name: i for i in interfaces}.get(name): the last one of that name
  function LastNamed(views: seq<IfaceView>, name: string): (r: Option<IfaceView>)
    ensures r.Some? ==> r.value in views && r.value.name == name
    ensures r.None? ==> forall v :: v in views ==> v.name != name
  {
    if views == [] then None
    else if views[|views| - 1].name == name then Some(views[|views| - 1])
    else LastNamed(views[..|views| - 1], name)
  }

  function MakeNic(name: string, v: IfaceView): Loaded<BondMember> {
    match ReadMac(v)
    case Err(e) => Err(e)
    case Ok(raw) =>
      var mtu := ReadMtu(v, 9000);
      match CanonicalMac(raw)
      case None => Err(FieldInvalid("mac"))
      case Some(mac) => if NameOk(name) && MtuOk(mtu) then Ok(BondMember(name, mac, mtu)) else Err(FieldInvalid("mtu"))
  }

  function NsNic(views: seq<IfaceView>, name: string): Loaded<BondMember> {
    match LastNamed(views, name)
    case None => Err(NetboxQuery("find_ns_nic"))
    case Some(v) => MakeNic(name, v)
  }

  function NsNics(views: seq<IfaceView>): Loaded<seq<BondMember>> {
    match NsNic(views, "nsa")
    case Err(e) => Err(e)
    case Ok(a) =>
      match NsNic(views, "nsb")
      case Err(e) => Err(e)
      case Ok(b) => Ok([a, b])
  }

  function BondOf(views: seq<IfaceView>, nics: seq<BondMember>): Loaded<Bond> {
    match LastNamed(views, BOND_NAME)
    case None => Err(NetboxQuery("find_bond"))
    case Some(v) =>
      match MakeBond(BOND_NAME, AsList(Map(NicName, nics)), ReadMtu(v, 9000))
      case None => Err(FieldInvalid("bond"))
      case Some(bond) => Ok(bond)
  }

  ghost function MakeVlan(v: IfaceView): Loaded<VlanChild> {
    match ReadVlanId(v)
    case Err(e) => Err(e)
    case Ok(vid) =>
      match ReadVlanRole(v)
      case Err(e) => Err(e)
      case Ok(role) =>
        match SingleIp(v)
        case Err(e) => Err(e)
        case Ok(address) => VlanOf(v, vid, role, address)
  }

  function VlanOf(v: IfaceView, vid: int, role: VlanRole, address: Ipv4Interface): Loaded<VlanChild> {
    var mtu := ReadMtu(v, 1500);
    var gateway := if role == Mgmt then Some(DeriveGateway(address)) else None;
    if NameOk(v.name) && MIN_VLAN_ID <= vid <= MAX_VLAN_ID && MtuOk(mtu)
    then Ok(VlanChild(v.name, BOND_NAME, vid, role, mtu, address, gateway))
    else Err(FieldInvalid("vlan"))
  }

  ghost function MakeRoce(v: IfaceView): Loaded<RoceUnderlay> {
    match ReadMac(v)
    case Err(e) => Err(e)
    case Ok(raw) =>
      match SingleIp(v)
      case Err(e) => Err(e)
      case Ok(address) =>
        match ReadSriovVfs(v, 16)
        case Err(e) => Err(e)
        case Ok(vfs) => RoceOf(v, raw, vfs, address)
  }

  function RoceOf(v: IfaceView, raw: string, vfs: int, address: Ipv4Interface): Loaded<RoceUnderlay> {
    var mtu := ReadMtu(v, 9000);
    match CanonicalMac(raw)
    case None => Err(FieldInvalid("mac"))
    case Some(mac) =>
      if NameOk(v.name) && MtuOk(mtu) && 0 <= vfs <= 128 then Ok(RoceUnderlay(v.name, mac, mtu, vfs, address))
      else Err(FieldInvalid("roce"))
  }

  ghost function MakeIb(v: IfaceView): Loaded<InfinibandUnderlay> {
    match ReadMac(v)
    case Err(e) => Err(e)
    case Ok(raw) =>
      match SingleIp(v)
      case Err(e) => Err(e)
      case Ok(address) => IbOf(v, raw, address)
  }

  function IbOf(v: IfaceView, raw: string, address: Ipv4Interface): Loaded<InfinibandUnderlay> {
    var mtu := ReadMtu(v, 2044);
    match CanonicalMac(raw)
    case None => Err(FieldInvalid("mac"))
    case Some(mac) =>
      if NameOk(v.name) && MtuOk(mtu) then Ok(InfinibandUnderlay(v.name, mac, mtu, address))
      else Err(FieldInvalid("ib"))
  }

  // The models of the picked views, in order, or the first error.
  ghost function Collect<T>(views: seq<IfaceView>, pick: IfaceView -> bool,
                            make: IfaceView -> Loaded<T>): Loaded<seq<T>> {
    if views == [] then Ok([])
    else
      var last := views[|views| - 1];
      match Collect(views[..|views| - 1], pick, make)
      case Err(e) => Err(e)
      case Ok(ts) =>
        if !pick(last) then Ok(ts)
        else
          match make(last)
          case Err(e) => Err(e)
          case Ok(t) => Ok(ts + [t])
  }

  predicate RoceLe(a: RoceUnderlay, b: RoceUnderlay) { StrLe(a.name, b.name) }
  predicate IbLe(a: InfinibandUnderlay, b: InfinibandUnderlay) { StrLe(a.name, b.name) }

  function Sorted<T>(le: (T, T) -> bool, r: Loaded<seq<T>>): Loaded<seq<T>> {
    match r
    case Err(e) => Err(e)
    case Ok(ts) => Ok(Sort(le, ts))
  }

  // HostIntent(...): field bounds, then the cross-field checks
  ghost function MakeIntent(i: HostIntent): Loaded<HostIntent> {
    if !(1 <= |i.assetTag| <= 64 && 1 <= |i.hostname| <= 253) then Err(FieldInvalid("host"))
    else
      match FirstFailure(Checks(i))
      case Some(id) => Err(InvariantViolated(id))
      case None => Ok(i)
  }

  ghost function BuildIntent(tag: string, hostname: string, roleSlug: Option<string>,
                             views: seq<IfaceView>): Loaded<HostIntent> {
    if !Truthy(roleSlug) || ParseRole(roleSlug.value).None? then Err(NetboxQuery("parse_role"))
    else
      match NsNics(views)
      case Err(e) => Err(e)
      case Ok(nics) =>
        match BondOf(views, nics)
        case Err(e) => Err(e)
        case Ok(bond) =>
          match Collect(views, IsVlanChild, MakeVlan)
          case Err(e) => Err(e)
          case Ok(vlans) =>
            match Sorted(RoceLe, Collect(views, IsRoceNic, MakeRoce))
            case Err(e) => Err(e)
            case Ok(roce) =>
              match Sorted(IbLe, Collect(views, IsIbNic, MakeIb))
              case Err(e) => Err(e)
              case Ok(ib) =>
                MakeIntent(HostIntent(tag, hostname, ParseRole(roleSlug.value).value, nics, bond, vlans, roce, ib))
  }

  function RoleSlug(b: Base, device: DeviceBody): Option<string> {
    if device.role.Some? && device.role.value in b.roles.rows then Some(b.roles.rows[device.role.value].key) else None
  }

  // What load_host_intent returns when no API call raises and the interfaces
  // arrive as listed.
  ghost function Load(st: Store, tag: string, ids: seq<Id>): Loaded<HostIntent>
    requires forall id :: id in ids ==> id in st.base.ifaces.rows
  {
    match st.base.devices.Get(tag)
    case None => Err(HostNotFound)
    case Some(device) => BuildIntent(tag, device.body.name, RoleSlug(st.base, device.body), Views(st, ids))
  }

  // ----- the loader ---------------------------------------------------------------------------

  // r is the specified result, unless an API call was made to fail.
  ghost predicate Delivers<T>(r: Loaded<T>, spec: Loaded<T>, fault: Fault) {
    r == spec || (!fault.NoFault? && r.Err? && r.error.NetboxQuery?)
  }

  method FetchSingleIp(client: NetboxClient, iface: Id) returns (r: Loaded<Ipv4Interface>)
    requires iface in client.store.base.ifaces.rows
    modifies client
    ensures client.store == old(client.store) && (old(client.fault).NoFault? ==> client.fault.NoFault?)
    ensures Delivers(r, SingleIp(ViewOf(client.store, iface)), old(client.fault))
  {
    var up := client.Query();
    if !up { return Err(NetboxQuery("list_ip_addresses")); }
    var ips := AddressesOn(client.store.base, iface);
    assert ips == ViewOf(client.store, iface).ips;
    if |ips| != 1 { return Err(NetboxQuery("list_ip_addresses")); }
    var ip :| ip in ips;
    assert ips == {ip} by {
      assert |ips - {ip}| == 0;
    }
    match ip {
      case V4(addr) => return Ok(addr);
      case OtherText(_) => return Err(FieldInvalid("address"));
    }
  }

  // interfaces.filter(device_id=...): every interface of the device, in no particular order
  method FetchInterfaces(client: NetboxClient, device: Id) returns (r: Loaded<seq<Id>>)
    modifies client
    ensures client.store == old(client.store) && (old(client.fault).NoFault? ==> client.fault.NoFault?)
    ensures r.Ok? ==> Listing(r.value, client.store.base, device)
    ensures r.Err? ==> r.error.NetboxQuery? && !old(client.fault).NoFault?
  {
    var up := client.Query();
    if !up { return Err(NetboxQuery("list_interfaces")); }
    var rows := client.store.base.ifaces.rows;
    var all := set id | id in rows && rows[id].key.device == device;
    var todo := all;
    var ids: seq<Id> := [];
    while todo != {}
      invariant client.store == old(client.store) && (old(client.fault).NoFault? ==> client.fault.NoFault?)
      invariant todo <= all && Distinct(ids)
      invariant forall id :: id in ids <==> id in all - todo
      decreases |todo|
    {
      var id :| id in todo;
      assert forall k :: 0 <= k < |ids| ==> ids[k] in ids && ids[k] != id;
      ids := ids + [id];
      todo := todo - {id};
    }
    return Ok(ids);
  }

  lemma {:induction false} CollectStops<T>(views: seq<IfaceView>, k: nat, pick: IfaceView -> bool,
                                           make: IfaceView -> Loaded<T>)
    requires k <= |views| && Collect(views[..k], pick, make).Err?
    ensures Collect(views, pick, make) == Collect(views[..k], pick, make)
    decreases |views|
  {
    if k == |views| {
      assert views[..k] == views;
    } else {
      var init := views[..|views| - 1];
      assert init[..k] == views[..k];
      CollectStops(init, k, pick, make);
    }
  }

  // One record read into its model; the address comes from an API call of its own.
  method ReadVlan(client: NetboxClient, id: Id) returns (r: Loaded<VlanChild>)
    requires id in client.store.base.ifaces.rows
    modifies client
    ensures client.store == old(client.store) && (old(client.fault).NoFault? ==> client.fault.NoFault?)
    ensures Delivers(r, MakeVlan(ViewOf(client.store, id)), old(client.fault))
  {
    var v := ViewOf(client.store, id);
    var vid := ReadVlanId(v);
    if vid.Err? { return Err(vid.error); }
    var role := ReadVlanRole(v);
    if role.Err? { return Err(role.error); }
    var address := FetchSingleIp(client, id);
    if address.Err? { return Err(address.error); }
    return VlanOf(v, vid.value, role.value, address.value);
  }

  method ReadRoce(client: NetboxClient, id: Id) returns (r: Loaded<RoceUnderlay>)
    requires id in client.store.base.ifaces.rows
    modifies client
    ensures client.store == old(client.store) && (old(client.fault).NoFault? ==> client.fault.NoFault?)
    ensures Delivers(r, MakeRoce(ViewOf(client.store, id)), old(client.fault))
  {
    var v := ViewOf(client.store, id);
    var mac := ReadMac(v);
    if mac.Err? { return Err(mac.error); }
    var address := FetchSingleIp(client, id);
    if address.Err? { return Err(address.error); }
    var vfs := ReadSriovVfs(v, 16);
    if vfs.Err? { return Err(vfs.error); }
    return RoceOf(v, mac.value, vfs.value, address.value);
  }

  method ReadIb(client: NetboxClient, id: Id) returns (r: Loaded<InfinibandUnderlay>)
    requires id in client.store.base.ifaces.rows
    modifies client
    ensures client.store == old(client.store) && (old(client.fault).NoFault? ==> client.fault.NoFault?)
    ensures Delivers(r, MakeIb(ViewOf(client.store, id)), old(client.fault))
  {
    var v := ViewOf(client.store, id);
    var mac := ReadMac(v);
    if mac.Err? { return Err(mac.error); }
    var address := FetchSingleIp(client, id);
    if address.Err? { return Err(address.error); }
    return IbOf(v, mac.value, address.value);
  }

  method BuildVlans(client: NetboxClient, ids: seq<Id>) returns (r: Loaded<seq<VlanChild>>)
    requires forall id :: id in ids ==> id in client.store.base.ifaces.rows
    modifies client
    ensures client.store == old(client.store) && (old(client.fault).NoFault? ==> client.fault.NoFault?)
    ensures Delivers(r, Collect(Views(client.store, ids), IsVlanChild, MakeVlan), old(client.fault))
  {
    ghost var views := Views(client.store, ids);
    var built: seq<VlanChild> := [];
    var k := 0;
    while k < |ids|
      invariant 0 <= k <= |ids|
      invariant client.store == old(client.store) && (old(client.fault).NoFault? ==> client.fault.NoFault?)
      invariant Collect(views[..k], IsVlanChild, MakeVlan) == Ok(built)
    {
      var v := ViewOf(client.store, ids[k]);
      assert views[..k + 1][..k] == views[..k] && views[..k + 1][k] == v;
      if IsVlanChild(v) {
        var one := ReadVlan(client, ids[k]);
        if one.Err? {
          if MakeVlan(v).Err? { CollectStops(views, k + 1, IsVlanChild, MakeVlan); }
          return Err(one.error);
        }
        built := built + [one.value];
      }
      k := k + 1;
    }
    assert views[..|ids|] == views;
    return Ok(built);
  }

  method BuildRoceUnderlays(client: NetboxClient, ids: seq<Id>) returns (r: Loaded<seq<RoceUnderlay>>)
    requires forall id :: id in ids ==> id in client.store.base.ifaces.rows
    modifies client
    ensures client.store == old(client.store) && (old(client.fault).NoFault? ==> client.fault.NoFault?)
    ensures Delivers(r, Sorted(RoceLe, Collect(Views(client.store, ids), IsRoceNic, MakeRoce)), old(client.fault))
  {
    ghost var views := Views(client.store, ids);
    var built: seq<RoceUnderlay> := [];
    var k := 0;
    while k < |ids|
      invariant 0 <= k <= |ids|
      invariant client.store == old(client.store) && (old(client.fault).NoFault? ==> client.fault.NoFault?)
      invariant Collect(views[..k], IsRoceNic, MakeRoce) == Ok(built)
    {
      var v := ViewOf(client.store, ids[k]);
      assert views[..k + 1][..k] == views[..k] && views[..k + 1][k] == v;
      if IsRoceNic(v) {
        var one := ReadRoce(client, ids[k]);
        if one.Err? {
          if MakeRoce(v).Err? { CollectStops(views, k + 1, IsRoceNic, MakeRoce); }
          return Err(one.error);
        }
        built := built + [one.value];
      }
      k := k + 1;
    }
    assert views[..|ids|] == views;
    return Ok(Sort(RoceLe, built));
  }

  method BuildIbUnderlays(client: NetboxClient, ids: seq<Id>) returns (r: Loaded<seq<InfinibandUnderlay>>)
    requires forall id :: id in ids ==> id in client.store.base.ifaces.rows
    modifies client
    ensures client.store == old(client.store) && (old(client.fault).NoFault? ==> client.fault.NoFault?)
    ensures Delivers(r, Sorted(IbLe, Collect(Views(client.store, ids), IsIbNic, MakeIb)), old(client.fault))
  {
    ghost var views := Views(client.store, ids);
    var built: seq<InfinibandUnderlay> := [];
    var k := 0;
    while k < |ids|
      invariant 0 <= k <= |ids|
      invariant client.store == old(client.store) && (old(client.fault).NoFault? ==> client.fault.NoFault?)
      invariant Collect(views[..k], IsIbNic, MakeIb) == Ok(built)
    {
      var v := ViewOf(client.store, ids[k]);
      assert views[..k + 1][..k] == views[..k] && views[..k + 1][k] == v;
      if IsIbNic(v) {
        var one := ReadIb(client, ids[k]);
        if one.Err? {
          if MakeIb(v).Err? { CollectStops(views, k + 1, IsIbNic, MakeIb); }
          return Err(one.error);
        }
        built := built + [one.value];
      }
      k := k + 1;
    }
    assert views[..|ids|] == views;
    return Ok(Sort(IbLe, built));
  }

  // load_host_intent: without a failing call it returns exactly what Load says
  // for the order in which the interfaces came; with one it may report the
  // failed query instead. It changes nothing.
  method LoadHostIntent(client: NetboxClient, tag: string) returns (r: Loaded<HostIntent>, ghost ids: seq<Id>)
    modifies client
    ensures client.store == old(client.store)
    ensures forall id :: id in ids ==> id in client.store.base.ifaces.rows
    ensures r.Ok? ==> tag in client.store.base.devices.index
                      && Listing(ids, client.store.base, client.store.base.devices.index[tag])
    ensures Delivers(r, Load(client.store, tag, ids), old(client.fault))
  {
    hide NsNics, BondOf, Collect, Sorted, Sort, Checks, FirstFailure, IsFirstFailure, Accepted, ViewOf, Distinct,
      ParseRole, RoleSlug;
    ids := [];
    var up := client.Query();
    if !up { return Err(NetboxQuery("get_device")), []; }
    var device := client.store.base.devices.Get(tag);
    if device.None? { return Err(HostNotFound), []; }
    var listed := FetchInterfaces(client, device.value.id);
    if listed.Err? { return Err(listed.error), []; }
    ids := listed.value;
    var views := Views(client.store, listed.value);

    var slug := RoleSlug(client.store.base, device.value.body);
    if !Truthy(slug) { return Err(NetboxQuery("parse_role")), ids; }
    var role := ParseRole(slug.value);
    if role.None? { return Err(NetboxQuery("parse_role")), ids; }
    var nics := NsNics(views);
    if nics.Err? { return Err(nics.error), ids; }
    var bond := BondOf(views, nics.value);
    if bond.Err? { return Err(bond.error), ids; }
    var vlans := BuildVlans(client, listed.value);
    if vlans.Err? { return Err(vlans.error), ids; }
    var roce := BuildRoceUnderlays(client, listed.value);
    if roce.Err? { return Err(roce.error), ids; }
    var ib := BuildIbUnderlays(client, listed.value);
    if ib.Err? { return Err(ib.error), ids; }

    var intent := HostIntent(tag, device.value.body.name, role.value, nics.value, bond.value, vlans.value,
                             roce.value, ib.value);
    if !(1 <= |tag| <= 64 && 1 <= |intent.hostname| <= 253) { return Err(FieldInvalid("host")), ids; }
    var violated := CheckInvariants(intent);
    FirstFailureUnique(Checks(intent), violated);
    if violated.Some? { return Err(InvariantViolated(violated.value)), ids; }
    return Ok(intent), ids;
  }
}
