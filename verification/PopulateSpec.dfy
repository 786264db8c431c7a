// What populate does, as a list of symbolic actions: each one looks its object
// up by key and then skips, creates, rewires or refuses. The imperative
// populator is proved against Exec over Compile.
module PopulateSpec {
  import opened Basics
  import opened Addresses
  import opened Inventory

  // ----- fixtures -----------------------------------------------------------

  datatype DeviceTypeSpec = DeviceTypeSpec(manufacturer: string, model: string, slug: string, uHeight: int)
  datatype VlanSpec = VlanSpec(vid: int, name: string)
  datatype InterfaceSpec = InterfaceSpec(
    name: string, kind: string, mac: Option<string>, mtu: Option<int>, parent: Option<string>,
    lagMembers: seq<string>, untaggedVlan: Option<int>, ip: Option<IpText>,
    customFields: map<string, CfValue>)
  datatype HostFixture = HostFixture(
    assetTag: string, hostname: string, deviceRole: string, site: string,
    deviceType: DeviceTypeSpec, vlans: seq<VlanSpec>, interfaces: seq<InterfaceSpec>,
    deviceCustomFields: map<string, CfValue>)

  predicate TruthyIp(ip: Option<IpText>) { ip.Some? && ip.value != OtherText("") }

  function Dashed(c: char): char { if c == ' ' || c == '_' then '-' else c }

  function DashAll(s: string): (r: string)
    ensures |r| == |s|
    ensures forall i :: 0 <= i < |s| ==> r[i] == Dashed(s[i])
  {
    if s == [] then [] else [Dashed(s[0])] + DashAll(s[1..])
  }

  // name.lower().strip().replace(" ", "-").replace("_", "-")
  function Slugify(name: string): string { DashAll(Strip(Lower(name))) }

  ghost predicate PlainSlug(r: string) {
    && (forall i :: 0 <= i < |r| ==> r[i] != ' ' && r[i] != '_' && !('A' <= r[i] <= 'Z'))
    && (r != "" ==> !IsSpace(r[0]) && !IsSpace(r[|r| - 1]))
  }

  // A slug has no space, underscore or capital left and nothing to strip, and
  // so is its own slug.
  lemma SlugIsSlug(name: string)
    ensures PlainSlug(Slugify(name)) && Slugify(Slugify(name)) == Slugify(name)
  {
    SlugIsPlain(name);
    hide Slugify, PlainSlug;
    PlainStays(Slugify(name));
  }

  // Letter by letter: what is left of the lowered name after stripping, with a
  // dash for every space and underscore.
  lemma SlugLetters(name: string)
    ensures |Slugify(name)| == |Strip(Lower(name))|
    ensures forall i :: 0 <= i < |Slugify(name)| ==>
              Slugify(name)[i] == if Strip(Lower(name))[i] in " _" then '-' else Strip(Lower(name))[i]
  {
    hide Strip, Lower;
  }

  lemma SlugIsPlain(name: string)
    ensures PlainSlug(Slugify(name))
  {
    hide Strip, Lower;
    var s := Strip(Lower(name));
    StripIsPart(Lower(name));
    forall i | 0 <= i < |s| ensures !('A' <= s[i] <= 'Z') {
      assert s[i] in Lower(name);
      LowerHasNoCapitals(name, s[i]);
    }
  }

  lemma LowerHasNoCapitals(s: string, c: char)
    requires c in Lower(s)
    ensures !('A' <= c <= 'Z')
  {
  }

  lemma PlainStays(r: string)
    requires PlainSlug(r)
    ensures Slugify(r) == r
  {
  }

  lemma StripIsPart(s: string)
    ensures forall c :: c in Strip(s) ==> c in s
    ensures Strip(s) != "" ==> !IsSpace(Strip(s)[0]) && !IsSpace(Strip(s)[|Strip(s)| - 1])
  {
    var t := LeftStrip(s);
    LeftStripIsPart(s);
    assert Strip(s) <= t;
    assert Strip(s) != "" ==> Strip(s)[0] == t[0];
  }

  lemma {:induction false} LeftStripIsPart(s: string)
    ensures forall c :: c in LeftStrip(s) ==> c in s
  {
    if s != "" && IsSpace(s[0]) { LeftStripIsPart(s[1..]); }
  }

  // ----- actions --------------------------------------------------------------

  datatype Action =
    | EnsureSite(slug: string)
    | EnsureManufacturer(name: string)
    | EnsureDeviceType(spec: DeviceTypeSpec)
    | EnsureDeviceRole(slug: string)
    | EnsureVlan(vlan: VlanSpec, site: string)
    | EnsureDevice(tag: string, hostname: string, site: string, typeSlug: string, role: string,
                   customFields: map<string, CfValue>)
    | EnsureInterface(tag: string, iface: InterfaceSpec, untagged: Option<int>, site: string)
    | SetLag(tag: string, member: string, lag: string)
    | SetParent(tag: string, child: string, parent: string)
    | EnsureMac(tag: string, on: string, mac: string)
    | SetPrimaryMac(tag: string, on: string, mac: string)
    | EnsureIp(tag: string, on: string, ip: IpText)
    | MissingName(missing: string)   // iface_by_name[...] on a name the fixture does not declare

  datatype Kind =
    | SiteKind | ManufacturerKind | DeviceTypeKind | DeviceRoleKind | VlanKind | DeviceKind
    | InterfaceKind | LagMembershipKind | InterfaceParentKind | MacAddressKind
    | PrimaryMacAssignmentKind | IpAddressKind

  // Unresolved: an action names an object nothing has ensured; Compile never emits one.
  datatype Error = Conflict(kind: Kind) | KeyError(name: string) | Unresolved

  function KindOf(a: Action): Kind {
    match a
    case EnsureSite(_) => SiteKind
    case EnsureManufacturer(_) => ManufacturerKind
    case EnsureDeviceType(_) => DeviceTypeKind
    case EnsureDeviceRole(_) => DeviceRoleKind
    case EnsureVlan(_, _) => VlanKind
    case EnsureDevice(_, _, _, _, _, _) => DeviceKind
    case EnsureInterface(_, _, _, _) => InterfaceKind
    case SetLag(_, _, _) => LagMembershipKind
    case SetParent(_, _, _) => InterfaceParentKind
    case EnsureMac(_, _, _) => MacAddressKind
    case SetPrimaryMac(_, _, _) => PrimaryMacAssignmentKind
    case EnsureIp(_, _, _) => IpAddressKind
    case MissingName(_) => InterfaceKind
  }

  // ----- one action -------------------------------------------------------------

  // The record behind iface_by_name[name] on the device with this asset tag.
  function Iface(b: Base, tag: string, name: string): Option<Found<IfaceBody>> {
    var device := b.devices.Get(tag);
    if device.Some? then b.ifaces.Get(IfaceKey(device.value.id, name)) else None
  }

  // The VLAN an access port of this site is put on.
  function VlanAt(b: Base, vid: int, site: string): Option<Found<string>> {
    var at := b.sites.Get(site);
    if at.Some? then b.vlans.Get(VlanKey(vid, at.value.id)) else None
  }

  datatype Effect = Refuse(error: Error) | Present | Grow(base: Base)

  function DeviceTypeEffect(b: Base, spec: DeviceTypeSpec): Effect {
    match b.deviceTypes.Get(spec.slug)
    case Some(seen) =>
      if seen.body.uHeight.Some? && seen.body.uHeight.value != spec.uHeight
      then Refuse(Conflict(DeviceTypeKind)) else Present
    case None =>
      match b.manufacturers.Get(Slugify(spec.manufacturer))
      case None => Refuse(Unresolved)
      case Some(maker) =>
        Grow(b.(deviceTypes := b.deviceTypes.Add(spec.slug,
               DeviceTypeBody(maker.id, spec.model, Some(spec.uHeight)))))
  }

  function VlanEffect(b: Base, vlan: VlanSpec, siteSlug: string): Effect {
    match b.sites.Get(siteSlug)
    case None => Refuse(Unresolved)
    case Some(site) =>
      match b.vlans.Get(VlanKey(vlan.vid, site.id))
      case Some(seen) => if seen.body != vlan.name then Refuse(Conflict(VlanKind)) else Present
      case None => Grow(b.(vlans := b.vlans.Add(VlanKey(vlan.vid, site.id), vlan.name)))
  }

  function DeviceEffect(b: Base, a: Action): Effect
    requires a.EnsureDevice?
  {
    match b.devices.Get(a.tag)
    case Some(seen) => if seen.body.name != a.hostname then Refuse(Conflict(DeviceKind)) else Present
    case None =>
      match (b.sites.Get(a.site), b.deviceTypes.Get(a.typeSlug), b.roles.Get(a.role))
      case (Some(site), Some(model), Some(role)) =>
        Grow(b.(devices := b.devices.Add(a.tag,
               DeviceBody(a.hostname, site.id, model.id, Some(role.id), "active", a.customFields))))
      case _ => Refuse(Unresolved)
  }

  // The interface payload: a zero MTU is left out, like an absent one.
  function IfacePayload(a: Action, untagged: Option<Id>): IfaceBody
    requires a.EnsureInterface?
  {
    IfaceBody(a.iface.kind, if a.iface.mtu == Some(0) then None else a.iface.mtu, untagged, a.iface.customFields)
  }

  function InterfaceEffect(b: Base, a: Action): Effect
    requires a.EnsureInterface?
  {
    match b.devices.Get(a.tag)
    case None => Refuse(Unresolved)
    case Some(device) =>
      var key := IfaceKey(device.id, a.iface.name);
      if b.ifaces.Get(key).Some? then Present
      else if a.untagged.None? then Grow(b.(ifaces := b.ifaces.Add(key, IfacePayload(a, None))))
      else
        match VlanAt(b, a.untagged.value, a.site)
        case None => Refuse(Unresolved)
        case Some(vlan) => Grow(b.(ifaces := b.ifaces.Add(key, IfacePayload(a, Some(vlan.id)))))
  }

  // A MAC that exists unassigned is reused as it is.
  function MacEffect(b: Base, a: Action): Effect
    requires a.EnsureMac?
  {
    match Iface(b, a.tag, a.on)
    case None => Refuse(Unresolved)
    case Some(iface) =>
      match b.macs.Get(a.mac)
      case Some(seen) =>
        if seen.body.Some? && seen.body.value != iface.id then Refuse(Conflict(MacAddressKind)) else Present
      case None => Grow(b.(macs := b.macs.Add(a.mac, Some(iface.id))))
  }

  // An address that exists unassigned is a conflict.
  function IpEffect(b: Base, a: Action): Effect
    requires a.EnsureIp?
  {
    match Iface(b, a.tag, a.on)
    case None => Refuse(Unresolved)
    case Some(iface) =>
      match b.ips.Get(a.ip)
      case Some(seen) => if seen.body != Some(iface.id) then Refuse(Conflict(IpAddressKind)) else Present
      case None => Grow(b.(ips := b.ips.Add(a.ip, Some(iface.id))))
  }

  predicate IsWiring(a: Action) { a.SetLag? || a.SetParent? || a.SetPrimaryMac? }

  function Ensure(a: Action, b: Base): Effect
    requires !IsWiring(a)
  {
    match a
    case EnsureSite(slug) =>
      if b.sites.Get(slug).Some? then Present else Grow(b.(sites := b.sites.Add(slug, slug)))
    case EnsureManufacturer(name) =>
      if b.manufacturers.Get(Slugify(name)).Some? then Present
      else Grow(b.(manufacturers := b.manufacturers.Add(Slugify(name), name)))
    case EnsureDeviceType(spec) => DeviceTypeEffect(b, spec)
    case EnsureDeviceRole(slug) =>
      if b.roles.Get(slug).Some? then Present else Grow(b.(roles := b.roles.Add(slug, slug)))
    case EnsureVlan(vlan, site) => VlanEffect(b, vlan, site)
    case EnsureDevice(_, _, _, _, _, _) => DeviceEffect(b, a)
    case EnsureInterface(_, _, _, _) => InterfaceEffect(b, a)
    case EnsureMac(_, _, _) => MacEffect(b, a)
    case EnsureIp(_, _, _) => IpEffect(b, a)
    case MissingName(name) => Refuse(KeyError(name))
  }

  // The slot a wiring action writes and the id it writes there.
  datatype Write = Write(slot: Slot, id: Id)

  function Target(a: Action, b: Base): Option<Write>
    requires IsWiring(a)
  {
    match a
    case SetLag(tag, member, lag) =>
      (match (Iface(b, tag, member), Iface(b, tag, lag))
       case (Some(m), Some(l)) => Some(Write(Slot(m.id, LagWire), l.id))
       case _ => None)
    case SetParent(tag, child, parent) =>
      (match (Iface(b, tag, child), Iface(b, tag, parent))
       case (Some(c), Some(p)) => Some(Write(Slot(c.id, ParentWire), p.id))
       case _ => None)
    case SetPrimaryMac(tag, on, mac) =>
      (match (Iface(b, tag, on), b.macs.Get(mac))
       case (Some(i), Some(m)) => Some(Write(Slot(i.id, PrimaryMacWire), m.id))
       case _ => None)
  }

  datatype Outcome = Done(store: Store, created: bool) | Failed(error: Error)

  function Step(a: Action, st: Store): Outcome {
    if IsWiring(a) then
      match Target(a, st.base)
      case None => Failed(Unresolved)
      case Some(w) =>
        if st.Wired(w.slot) == Some(w.id) then Done(st, false)
        else Done(st.(wires := st.wires[w.slot := w.id]), true)
    else
      match Ensure(a, st.base)
      case Refuse(e) => Failed(e)
      case Present => Done(st, false)
      case Grow(b) => Done(st.(base := b), true)
  }

  // ----- a run ------------------------------------------------------------------

  datatype Event = Event(kind: Kind, created: bool)

  // stop is the error that ended the run, if one did; store and log are then
  // those at the failing action.
  datatype Run = Run(store: Store, log: seq<Event>, stop: Option<Error>)

  function Exec(acts: seq<Action>, st: Store): Run {
    if acts == [] then Run(st, [], None)
    else
      var r := Exec(acts[..|acts| - 1], st);
      if r.stop.Some? then r
      else
        var a := acts[|acts| - 1];
        match Step(a, r.store)
        case Failed(e) => Run(r.store, r.log, Some(e))
        case Done(st', created) => Run(st', r.log + [Event(KindOf(a), created)], None)
  }

  // A run is a run of any prefix, continued.
  lemma {:induction false} ExecSplit(a: seq<Action>, b: seq<Action>, st: Store)
    ensures Exec(a, st).stop.Some? ==> Exec(a + b, st) == Exec(a, st)
    ensures Exec(a, st).stop.None? ==>
              var rest := Exec(b, Exec(a, st).store);
              Exec(a + b, st) == Run(rest.store, Exec(a, st).log + rest.log, rest.stop)
    decreases |b|
  {
    hide Step;
    if b == [] {
      assert a + b == a;
    } else {
      var init := b[..|b| - 1];
      assert (a + b)[..|a + b| - 1] == a + init;
      ExecSplit(a, init, st);
    }
  }

  // ----- the program of a fixture list -------------------------------------------

  function Names(ifaces: seq<InterfaceSpec>): (r: seq<string>)
    ensures |r| == |ifaces|
    ensures forall i :: 0 <= i < |ifaces| ==> r[i] == ifaces[i].name
  {
    if ifaces == [] then [] else [ifaces[0].name] + Names(ifaces[1..])
  }

  predicate DeclaresVid(vlans: seq<VlanSpec>, vid: int) {
    exists i :: 0 <= i < |vlans| && vlans[i].vid == vid
  }

  // spec.untagged_vlan, when it is non-zero and one of the fixture's VLANs
  function UntaggedOf(fx: HostFixture, spec: InterfaceSpec): Option<int> {
    if spec.untaggedVlan.Some? && spec.untaggedVlan.value != 0 && DeclaresVid(fx.vlans, spec.untaggedVlan.value)
    then spec.untaggedVlan else None
  }

  function VlanActions(vlans: seq<VlanSpec>, site: string): seq<Action> {
    seq(|vlans|, i requires 0 <= i < |vlans| => EnsureVlan(vlans[i], site))
  }

  function InterfaceAction(fx: HostFixture, spec: InterfaceSpec): Action {
    EnsureInterface(fx.assetTag, spec, UntaggedOf(fx, spec), fx.site)
  }

  function InterfaceActions(fx: HostFixture): seq<Action> {
    seq(|fx.interfaces|, i requires 0 <= i < |fx.interfaces| => InterfaceAction(fx, fx.interfaces[i]))
  }

  function LagAction(fx: HostFixture, lag: string, member: string): Action {
    if member in Names(fx.interfaces) then SetLag(fx.assetTag, member, lag) else MissingName(member)
  }

  function LagActions(fx: HostFixture, spec: InterfaceSpec): seq<Action> {
    seq(|spec.lagMembers|, i requires 0 <= i < |spec.lagMembers| => LagAction(fx, spec.name, spec.lagMembers[i]))
  }

  function ParentActions(fx: HostFixture, spec: InterfaceSpec): seq<Action> {
    if !Truthy(spec.parent) then []
    else if spec.parent.value in Names(fx.interfaces)
    then [SetParent(fx.assetTag, spec.name, spec.parent.value)]
    else [MissingName(spec.parent.value)]
  }

  function WireActions(fx: HostFixture, spec: InterfaceSpec): seq<Action> {
    LagActions(fx, spec) + ParentActions(fx, spec)
  }

  function MacActions(fx: HostFixture, spec: InterfaceSpec): seq<Action> {
    if Truthy(spec.mac)
    then [EnsureMac(fx.assetTag, spec.name, spec.mac.value), SetPrimaryMac(fx.assetTag, spec.name, spec.mac.value)]
    else []
  }

  function IpActions(fx: HostFixture, spec: InterfaceSpec): seq<Action> {
    if TruthyIp(spec.ip) then [EnsureIp(fx.assetTag, spec.name, spec.ip.value)] else []
  }

  // One pass over the interfaces, in order.
  function Pass(fx: HostFixture, specs: seq<InterfaceSpec>,
                of: (HostFixture, InterfaceSpec) -> seq<Action>): seq<Action> {
    if specs == [] then []
    else Pass(fx, specs[..|specs| - 1], of) + of(fx, specs[|specs| - 1])
  }

  function Header(fx: HostFixture): seq<Action> {
    [EnsureSite(fx.site), EnsureManufacturer(fx.deviceType.manufacturer),
     EnsureDeviceType(fx.deviceType), EnsureDeviceRole(fx.deviceRole)]
  }

  function DeviceAction(fx: HostFixture): Action {
    EnsureDevice(fx.assetTag, fx.hostname, fx.site, fx.deviceType.slug, fx.deviceRole, fx.deviceCustomFields)
  }

  // _apply_one
  function Compile(fx: HostFixture): seq<Action> {
    Header(fx) + VlanActions(fx.vlans, fx.site) + [DeviceAction(fx)] + InterfaceActions(fx)
    + Pass(fx, fx.interfaces, WireActions) + Pass(fx, fx.interfaces, MacActions) + Pass(fx, fx.interfaces, IpActions)
  }

  // populate
  function CompileAll(fixtures: seq<HostFixture>): seq<Action> {
    if fixtures == [] then []
    else CompileAll(fixtures[..|fixtures| - 1]) + Compile(fixtures[|fixtures| - 1])
  }
}
