// The render context: every list of the intent sorted, so that the templates
// see one canonical form whatever order Netbox answered in.
module Emitter {
  import opened Basics
  import opened Sorting
  import opened Inventory
  import opened PopulateSpec
  import opened Models
  import opened Invariants
  import opened Loader
  import opened LoadOrder
  import opened FixtureView
  import opened RoundTrip

  predicate NicLe(a: BondMember, b: BondMember) { StrLe(a.name, b.name) }
  predicate VlanLe(a: VlanChild, b: VlanChild) { a.vlanId <= b.vlanId }

  // The context as a value: the intent with its five lists sorted.
  function Canonical(i: HostIntent): HostIntent {
    i.(nsNics := Sort(NicLe, i.nsNics),
       vlans := Sort(VlanLe, i.vlans),
       roce := Sort(RoceLe, i.roce),
       ib := Sort(IbLe, i.ib),
       bond := i.bond.(members := Sort(StrLe, i.bond.members)))
  }

  // ----- the emitter ----------------------------------------------------------------

  // The dictionary handed to the template.
  class Context {
    var assetTag: string
    var hostname: string
    var role: Role
    var nsNics: seq<BondMember>
    var bond: Bond
    var vlans: seq<VlanChild>
    var roce: seq<RoceUnderlay>
    var ib: seq<InfinibandUnderlay>
    var now: Option<int>

    function Value(): HostIntent
      reads this
    {
      HostIntent(assetTag, hostname, role, nsNics, bond, vlans, roce, ib)
    }

    // intent.model_dump()
    constructor Dump(intent: HostIntent)
      ensures Value() == intent && now.None?
    {
      assetTag, hostname, role := intent.assetTag, intent.hostname, intent.role;
      nsNics, bond, vlans, roce, ib := intent.nsNics, intent.bond, intent.vlans, intent.roce, intent.ib;
      now := None;
    }
  }

  method Canonicalize(intent: HostIntent) returns (ctx: Context)
    ensures fresh(ctx) && ctx.Value() == Canonical(intent) && ctx.now.None?
  {
    ctx := new Context.Dump(intent);
    ctx.nsNics := Sort(NicLe, ctx.nsNics);
    ctx.vlans := Sort(VlanLe, ctx.vlans);
    ctx.roce := Sort(RoceLe, ctx.roce);
    ctx.ib := Sort(IbLe, ctx.ib);
    ctx.bond := ctx.bond.(members := Sort(StrLe, ctx.bond.members));
  }

  datatype FileKind = MetaData | UserData | NetworkConfig

  function FileKindValue(k: FileKind): string {
    match k
    case MetaData => "meta-data"
    case UserData => "user-data"
    case NetworkConfig => "network-config"
  }

  // FileKind(file_kind); None is its ValueError
  function ParseFileKind(s: string): (r: Option<FileKind>)
    ensures r.Some? ==> FileKindValue(r.value) == s
    ensures r.None? ==> forall k :: FileKindValue(k) != s
  {
    if s == "meta-data" then Some(MetaData)
    else if s == "user-data" then Some(UserData)
    else if s == "network-config" then Some(NetworkConfig)
    else None
  }

  // The three file names, and no other text, are kinds.
  lemma FileKinds(s: string)
    ensures ParseFileKind(s) == if s == "meta-data" then Some(MetaData) else if s == "user-data" then Some(UserData)
                                else if s == "network-config" then Some(NetworkConfig) else None
    ensures FileKindValue(MetaData) == "meta-data" && FileKindValue(UserData) == "user-data"
    ensures FileKindValue(NetworkConfig) == "network-config"
  {
  }

  // render_for up to the template call: which template, and with what context
  method PrepareRender(intent: HostIntent, fileKind: string, now: Option<int>, clock: int)
    returns (template: string, ctx: Context?)
    ensures ctx == null <==> ParseFileKind(fileKind).None?
    ensures ctx != null ==>
              && template == RoleValue(intent.role) + "/" + fileKind + ".j2"
              && ctx.Value() == Canonical(intent)
              && ctx.now == Some(if now.Some? then now.value else clock)
  {
    var kind := ParseFileKind(fileKind);
    if kind.None? { return "", null; }
    var at := if now.Some? then now.value else clock;
    template := RoleValue(intent.role) + "/" + FileKindValue(kind.value) + ".j2";
    var c := Canonicalize(intent);
    c.now := Some(at);
    ctx := c;
  }

  // ----- a normal form ------------------------------------------------------------------

  lemma SortOrders()
    ensures TotalPreorder(NicLe) && TotalPreorder(VlanLe) && TotalPreorder(RoceLe) && TotalPreorder(IbLe)
    ensures TotalPreorder(StrLe)
  {
    StrLeIsTotalOrder();
  }

  // Nothing is lost or repeated: only list order changes.
  lemma CanonicalKeepsLists(i: HostIntent)
    ensures SameUpToOrder(i, Canonical(i))
  {
    hide Sort;
    SortMultiset(NicLe, i.nsNics);
    SortMultiset(VlanLe, i.vlans);
    SortMultiset(RoceLe, i.roce);
    SortMultiset(IbLe, i.ib);
    SortMultiset(StrLe, i.bond.members);
  }

  // Texts in dictionary order.
  ghost predicate Alphabetical(names: seq<string>) {
    forall a, b :: 0 <= a < b < |names| ==> InDictionaryOrder(names[a], names[b])
  }

  lemma SortedByName<T(!new)>(le: (T, T) -> bool, name: T -> string, s: seq<T>)
    requires TotalPreorder(le) && forall x, y :: le(x, y) == StrLe(name(x), name(y))
    ensures Alphabetical(Map(name, Sort(le, s)))
  {
    hide Sort, TotalPreorder, StrLe, InDictionaryOrder;
    SortOrdered(le, s);
    var out := Sort(le, s);
    forall a, b | 0 <= a < b < |out| ensures InDictionaryOrder(name(out[a]), name(out[b])) {
      StrLeIsDictionaryOrder(name(out[a]), name(out[b]));
    }
  }

  // The context lists VLANs by rising id, and NICs, rails and bond members by
  // name, in dictionary order.
  lemma CanonicalOrder(i: HostIntent)
    ensures var c := Canonical(i);
            && (forall a, b :: 0 <= a < b < |c.vlans| ==> c.vlans[a].vlanId <= c.vlans[b].vlanId)
            && Alphabetical(Map(NicName, c.nsNics)) && Alphabetical(Map(RoceName, c.roce))
            && Alphabetical(Map(IbName, c.ib)) && Alphabetical(c.bond.members)
  {
    hide Sort, TotalPreorder, StrLe, InDictionaryOrder, Alphabetical;
    SortOrders();
    SortOrdered(VlanLe, i.vlans);
    SortedByName(NicLe, NicName, i.nsNics);
    SortedByName(RoceLe, RoceName, i.roce);
    SortedByName(IbLe, IbName, i.ib);
    SortedByName(StrLe, (x: string) => x, i.bond.members);
    assert Map((x: string) => x, Sort(StrLe, i.bond.members)) == Sort(StrLe, i.bond.members);
  }

  lemma CanonicalIdempotent(i: HostIntent)
    ensures Canonical(Canonical(i)) == Canonical(i)
  {
    hide Sort, NicLe, VlanLe, RoceLe, IbLe, StrLe, TotalPreorder;
    SortOrders();
    SortIdempotent(NicLe, i.nsNics);
    SortIdempotent(VlanLe, i.vlans);
    SortIdempotent(RoceLe, i.roce);
    SortIdempotent(IbLe, i.ib);
    SortIdempotent(StrLe, i.bond.members);
  }

  ghost predicate DistinctVlanIds(vlans: seq<VlanChild>) {
    forall a, b :: 0 <= a < b < |vlans| ==> vlans[a].vlanId != vlans[b].vlanId
  }

  // Distinct names separate the elements of a list of named models.
  lemma NamesSeparate<T>(name: T -> string, le: (T, T) -> bool, s: seq<T>)
    requires forall x, y :: le(x, y) <==> StrLe(name(x), name(y))
    requires Distinct(Map(name, s))
    ensures Separates(le, s)
  {
    hide StrLe;
    forall x, y | x in s && y in s && le(x, y) && le(y, x) ensures x == y {
      StrLeAntisymmetric(name(x), name(y));
      var a :| 0 <= a < |s| && s[a] == x;
      var b :| 0 <= b < |s| && s[b] == y;
      assert Map(name, s)[a] == Map(name, s)[b];
    }
  }

  lemma DistinctParts<T(!new)>(a: seq<T>, b: seq<T>)
    requires Distinct(a + b)
    ensures Distinct(a) && Distinct(b)
  {
    forall i, j | 0 <= i < j < |a| ensures a[i] != a[j] { assert (a + b)[i] != (a + b)[j]; }
    forall i, j | 0 <= i < j < |b| ensures b[i] != b[j] { assert (a + b)[|a| + i] != (a + b)[|a| + j]; }
  }

  lemma ListNamesDistinct(i: HostIntent)
    requires Accepted(i)
    ensures Distinct(Map(NicName, i.nsNics)) && Distinct(Map(RoceName, i.roce))
    ensures Distinct(Map(IbName, i.ib)) && Distinct(Map(VlanName, i.vlans))
  {
    AcceptedIsWellFormed(i);
    hide Accepted, OnePerRole, GatewayIsMgmts, AllIps, Distinct, Map;
    var a, b, c, d := Map(NicName, i.nsNics), Map(RoceName, i.roce), Map(IbName, i.ib), Map(VlanName, i.vlans);
    DistinctParts(a + b + c, d);
    DistinctParts(a + b, c);
    DistinctParts(a, b);
  }

  lemma NamedListsSorted(i: HostIntent, j: HostIntent)
    requires Accepted(i) && SameUpToOrder(i, j)
    ensures Sort(NicLe, i.nsNics) == Sort(NicLe, j.nsNics)
    ensures Sort(RoceLe, i.roce) == Sort(RoceLe, j.roce)
    ensures Sort(IbLe, i.ib) == Sort(IbLe, j.ib)
    ensures Sort(StrLe, i.bond.members) == Sort(StrLe, j.bond.members)
  {
    hide Accepted, Sort, Separates, TotalPreorder, StrLe, Map, Distinct;
    ListNamesDistinct(i);
    SortOrders();
    NamesSeparate(NicName, NicLe, i.nsNics);
    NamesSeparate(RoceName, RoceLe, i.roce);
    NamesSeparate(IbName, IbLe, i.ib);
    SortPermutation(NicLe, i.nsNics, j.nsNics);
    SortPermutation(RoceLe, i.roce, j.roce);
    SortPermutation(IbLe, i.ib, j.ib);
    SortedStringsEqual(i.bond.members, j.bond.members);
  }

  lemma VlansSorted(s: seq<VlanChild>, t: seq<VlanChild>)
    requires multiset(s) == multiset(t) && DistinctVlanIds(s)
    ensures Sort(VlanLe, s) == Sort(VlanLe, t)
  {
    hide Sort;
    forall x, y | x in s && y in s && VlanLe(x, y) && VlanLe(y, x) ensures x == y {
      var a :| 0 <= a < |s| && s[a] == x;
      var b :| 0 <= b < |s| && s[b] == y;
    }
    SortPermutation(VlanLe, s, t);
  }

  // For accepted intents with distinct VLAN ids the context is a normal form:
  // equal exactly when the intents agree up to list order.
  lemma NormalForm(i: HostIntent, j: HostIntent)
    requires Accepted(i) && DistinctVlanIds(i.vlans)
    ensures Canonical(i) == Canonical(j) <==> SameUpToOrder(i, j)
  {
    hide Accepted, DistinctVlanIds, Sort, StrLe;
    CanonicalKeepsLists(i);
    CanonicalKeepsLists(j);
    if SameUpToOrder(i, j) {
      NamedListsSorted(i, j);
      VlansSorted(i.vlans, j.vlans);
    }
  }

  // ----- the side condition is exact ---------------------------------------------------------

  ghost predicate OrderFree(i: HostIntent) {
    forall j :: SameUpToOrder(i, j) ==> Canonical(j) == Canonical(i)
  }

  // Two tied elements keep their order through a stable sort, so putting either
  // one first shows in the result.
  lemma TiesLeak(x: VlanChild, y: VlanChild, rest: seq<VlanChild>)
    requires x.vlanId == y.vlanId && x != y
    ensures Sort(VlanLe, [x, y] + rest) != Sort(VlanLe, [y, x] + rest)
  {
    hide Sort;
    SortStable(VlanLe, x, [x, y] + rest);
    SortStable(VlanLe, x, [y, x] + rest);
    assert Peers(VlanLe, x, [x, y] + rest)[0] == x;
    assert Peers(VlanLe, x, [y, x] + rest)[0] == y;
  }

  lemma TwoToFront(s: seq<VlanChild>, a: nat, b: nat) returns (rest: seq<VlanChild>)
    requires a < b < |s|
    ensures multiset([s[a], s[b]] + rest) == multiset(s) == multiset([s[b], s[a]] + rest)
  {
    DropMiddle(s, b);
    var t := s[..b] + s[b + 1..];
    assert t[a] == s[a];
    DropMiddle(t, a);
    rest := t[..a] + t[a + 1..];
  }

  lemma TiedIdsLeak(i: HostIntent, a: nat, b: nat)
    requires a < b < |i.vlans| && i.vlans[a].vlanId == i.vlans[b].vlanId && i.vlans[a] != i.vlans[b]
    ensures !OrderFree(i)
  {
    hide Sort, StrLe, VlanLe;
    var rest := TwoToFront(i.vlans, a, b);
    var x, y := i.vlans[a], i.vlans[b];
    TiesLeak(x, y, rest);
    var p, q := i.(vlans := [x, y] + rest), i.(vlans := [y, x] + rest);
    assert SameUpToOrder(i, p) && SameUpToOrder(i, q);
  }

  lemma AcceptedVlansDiffer(i: HostIntent, a: nat, b: nat)
    requires Accepted(i) && a < b < |i.vlans|
    ensures i.vlans[a] != i.vlans[b]
  {
    hide Accepted;
    ListNamesDistinct(i);
    assert Map(VlanName, i.vlans)[a] != Map(VlanName, i.vlans)[b];
  }

  // Among accepted intents the context is blind to list order exactly when the
  // VLAN ids are distinct.
  lemma OrderLeaksExactlyOnEqualIds(i: HostIntent)
    requires Accepted(i)
    ensures OrderFree(i) <==> DistinctVlanIds(i.vlans)
  {
    hide Accepted, Canonical, SameUpToOrder;
    if DistinctVlanIds(i.vlans) {
      hide DistinctVlanIds;
      forall j | SameUpToOrder(i, j) ensures Canonical(j) == Canonical(i) { NormalForm(i, j); }
    } else {
      var a, b :| 0 <= a < b < |i.vlans| && i.vlans[a].vlanId == i.vlans[b].vlanId;
      AcceptedVlansDiffer(i, a, b);
      TiedIdsLeak(i, a, b);
    }
  }

  // An accepted host with two VLANs of id 100.
  function SharedIdIntent(): HostIntent {
    var t := TupleIntent();
    t.(bond := Bond("bond0", ["nsa", "nsb"], 9000), vlans := [t.vlans[0], t.vlans[1].(vlanId := 100), t.vlans[2]])
  }

  // The first two VLANs change places.
  function Swapped(i: HostIntent): HostIntent
    requires |i.vlans| >= 2
  {
    i.(vlans := [i.vlans[1], i.vlans[0]] + i.vlans[2..])
  }

  lemma SwapLeaks(i: HostIntent)
    requires |i.vlans| >= 2 && i.vlans[0].vlanId == i.vlans[1].vlanId && i.vlans[0] != i.vlans[1]
    ensures SameUpToOrder(i, Swapped(i)) && Canonical(i) != Canonical(Swapped(i))
  {
    hide Sort, VlanLe;
    var v := i.vlans;
    assert v == [v[0], v[1]] + v[2..];
    TiesLeak(v[0], v[1], v[2..]);
  }

  lemma SharedRoles()
    ensures OnePerRole(SharedIdIntent().vlans) && GatewayIsMgmts(SharedIdIntent().vlans)
  {
  }

  lemma SharedNames()
    ensures AllNames(SharedIdIntent()) == AllNames(TupleIntent()) && AllIps(SharedIdIntent()) == AllIps(TupleIntent())
  {
  }

  lemma SharedAccepted()
    ensures Accepted(SharedIdIntent())
  {
    var i := SharedIdIntent();
    TupleNamesDistinct();
    SharedNames();
    SharedRoles();
    AcceptedIsWellFormed(i);
    hide Accepted, OnePerRole, GatewayIsMgmts, Distinct, AllNames, AllIps;
    assert i.nsNics[0] in i.nsNics && i.nsNics[0].name == "nsa";
    assert i.nsNics[1] in i.nsNics && i.nsNics[1].name == "nsb";
  }

  // The two orders of that host's VLANs pass every check and still give
  // different contexts.
  lemma OrderLeaks()
    ensures var i := SharedIdIntent();
            && Accepted(i) && Accepted(Swapped(i)) && SameUpToOrder(i, Swapped(i))
            && Canonical(i) != Canonical(Swapped(i))
  {
    hide Accepted, Canonical, SameUpToOrder, Swapped, Checks, FirstFailure;
    SharedAccepted();
    SwapLeaks(SharedIdIntent());
    VerdictIgnoresOrder(SharedIdIntent(), Swapped(SharedIdIntent()));
  }

  // ----- end to end ----------------------------------------------------------------------------

  lemma LoadedIsAccepted(tag: string, hostname: string, slug: Option<string>, views: seq<IfaceView>)
    requires BuildIntent(tag, hostname, slug, views).Ok?
    ensures var i := BuildIntent(tag, hostname, slug, views).value;
            Accepted(i) && Collect(views, IsVlanChild, MakeVlan) == Ok(i.vlans)
  {
    hide Accepted, Checks, FirstFailure, Collect, Sort, NsNics, BondOf, ParseRole;
    AcceptedMeansNoFailure(BuildIntent(tag, hostname, slug, views).value);
  }

  // Two orders of the same records: both load or neither does, and with
  // distinct VLAN ids the templates see the same context.
  lemma ListingOrderDoesNotShow(st: Store, tag: string, s: seq<Id>, t: seq<Id>)
    requires st.Valid() && tag in st.base.devices.index
    requires Listing(s, st.base, st.base.devices.index[tag]) && Listing(t, st.base, st.base.devices.index[tag])
    ensures Load(st, tag, s).Ok? <==> Load(st, tag, t).Ok?
    ensures Load(st, tag, s).Ok? && DistinctVlanIds(Load(st, tag, s).value.vlans) ==>
              Canonical(Load(st, tag, s).value) == Canonical(Load(st, tag, t).value)
  {
    hide Accepted, Canonical, BuildIntent, ViewOf, DistinctVlanIds, Collect, Distinct, DistinctViewNames,
      Base.TablesValid, Base.References;
    ListedOnce(st, s, st.base.devices.index[tag]);
    ListedOnce(st, t, st.base.devices.index[tag]);
    SameViews(st, s, t, st.base.devices.index[tag]);
    SameElementsSameMultiset(Views(st, s), Views(st, t));
    var device := st.base.devices.Get(tag);
    if device.Some? {
      var body := device.value.body;
      BuildIgnoresOrder(tag, body.name, RoleSlug(st.base, body), Views(st, s), Views(st, t));
      if Load(st, tag, s).Ok? && DistinctVlanIds(Load(st, tag, s).value.vlans) {
        LoadedIsAccepted(tag, body.name, RoleSlug(st.base, body), Views(st, s));
        NormalForm(Load(st, tag, s).value, Load(st, tag, t).value);
      }
    }
  }

  // ----- the same listing backwards

  function Reversed<T>(s: seq<T>): (r: seq<T>)
    ensures |r| == |s| && forall i :: 0 <= i < |s| ==> r[i] == s[|s| - 1 - i]
  {
    seq(|s|, i requires 0 <= i < |s| => s[|s| - 1 - i])
  }

  lemma ReversedCons<T>(x: T, s: seq<T>)
    ensures Reversed([x] + s) == Reversed(s) + [x]
  {
  }

  lemma {:induction false} PeersSnoc<T>(le: (T, T) -> bool, x: T, s: seq<T>, y: T)
    ensures Peers(le, x, s + [y]) == Peers(le, x, s) + if le(x, y) && le(y, x) then [y] else []
  {
    if s == [] {
      assert [] + [y] == [y] && [y][1..] == [];
    } else {
      assert (s + [y])[1..] == s[1..] + [y];
      PeersSnoc(le, x, s[1..], y);
    }
  }

  lemma {:induction false} PeersReversed<T>(le: (T, T) -> bool, x: T, s: seq<T>)
    ensures Peers(le, x, Reversed(s)) == Reversed(Peers(le, x, s))
  {
    if s != [] {
      hide Reversed;
      PeersReversed(le, x, s[1..]);
      assert s == [s[0]] + s[1..];
      ReversedCons(s[0], s[1..]);
      PeersSnoc(le, x, Reversed(s[1..]), s[0]);
      if le(x, s[0]) && le(s[0], x) { ReversedCons(s[0], Peers(le, x, s[1..])); }
    } else {
      assert Reversed(s) == [] && Reversed<T>([]) == [];
    }
  }

  lemma {:induction false} PeersDistinct<T(!new)>(le: (T, T) -> bool, x: T, s: seq<T>)
    requires Distinct(s)
    ensures Distinct(Peers(le, x, s))
  {
    if s != [] {
      PeersDistinct(le, x, s[1..]);
      PeersSubset(le, x, s[1..]);
      var rest := Peers(le, x, s[1..]);
      assert forall i :: 0 <= i < |rest| ==> rest[i] in s[1..];
      assert s[0] !in s[1..];
    }
  }

  // A sort that keeps the order of ties tells a list with ties from its reverse.
  lemma ReverseLeaks(s: seq<VlanChild>, a: nat, b: nat)
    requires a < b < |s| && s[a].vlanId == s[b].vlanId && Distinct(s)
    ensures Sort(VlanLe, s) != Sort(VlanLe, Reversed(s))
  {
    hide Sort, Reversed, Peers, TotalPreorder, Distinct;
    var x := s[a];
    SortOrders();
    SortStable(VlanLe, x, s);
    SortStable(VlanLe, x, Reversed(s));
    PeersReversed(VlanLe, x, s);
    PeersDistinct(VlanLe, x, s);
    PeersSubset(VlanLe, x, s);
    var p := Peers(VlanLe, x, s);
    assert s[a] in p && s[b] in p && s[a] != s[b] by { DistinctTwo(s, a, b); }
    NotItsReverse(p, s[a], s[b]);
  }

  lemma DistinctTwo<T(!new)>(s: seq<T>, a: nat, b: nat)
    requires Distinct(s) && a < b < |s|
    ensures s[a] != s[b]
  {
  }

  lemma NotItsReverse<T(!new)>(p: seq<T>, x: T, y: T)
    requires Distinct(p) && x in p && y in p && x != y
    ensures p != Reversed(p)
  {
    assert |p| >= 2 && p[0] != p[|p| - 1];
    assert Reversed(p)[0] == p[|p| - 1];
  }

  lemma {:induction false} CollectFront<T>(v: IfaceView, rest: seq<IfaceView>, pick: IfaceView -> bool,
                                           make: IfaceView -> Loaded<T>, ts: seq<T>)
    requires Collect([v] + rest, pick, make) == Ok(ts)
    ensures pick(v) ==> make(v).Ok?
    ensures Collect(rest, pick, make).Ok?
    ensures ts == (if pick(v) then [make(v).value] else []) + Collect(rest, pick, make).value
  {
    var views := [v] + rest;
    if rest == [] {
      assert views[..0] == [];
    } else {
      var init := rest[..|rest| - 1];
      assert views[..|views| - 1] == [v] + init;
      CollectFront(v, init, pick, make, Collect([v] + init, pick, make).value);
    }
  }

  lemma {:induction false} CollectReversed<T>(views: seq<IfaceView>, pick: IfaceView -> bool,
                                              make: IfaceView -> Loaded<T>)
    requires Collect(views, pick, make).Ok?
    ensures Collect(Reversed(views), pick, make) == Ok(Reversed(Collect(views, pick, make).value))
  {
    if views == [] {
      assert Reversed(views) == [] && Reversed<T>([]) == [];
    } else {
      var v, rest := views[0], views[1..];
      assert views == [v] + rest;
      CollectFront(v, rest, pick, make, Collect(views, pick, make).value);
      CollectReversed(rest, pick, make);
      ReversedCons(v, rest);
      assert Reversed(views)[..|rest|] == Reversed(rest);
      var ts := Collect(rest, pick, make).value;
      if pick(v) { ReversedCons(make(v).value, ts); } else { assert [] + ts == ts; }
    }
  }

  lemma ListedBackwards(st: Store, ids: seq<Id>, device: Id)
    requires Listing(ids, st.base, device)
    ensures Listing(Reversed(ids), st.base, device)
    ensures Views(st, Reversed(ids)) == Reversed(Views(st, ids))
  {
    hide ViewOf;
    var r := Reversed(ids);
    forall id ensures id in r <==> id in ids {
      if id in ids {
        var k :| 0 <= k < |ids| && ids[k] == id;
        assert r[|ids| - 1 - k] == id;
      }
    }
  }

  // The loads of two listings give the templates the same context.
  ghost predicate SameContext(st: Store, tag: string, s: seq<Id>, t: seq<Id>)
    requires forall id :: id in s ==> id in st.base.ifaces.rows
    requires forall id :: id in t ==> id in st.base.ifaces.rows
  {
    Load(st, tag, s).Ok? && Load(st, tag, t).Ok?
    && Canonical(Load(st, tag, s).value) == Canonical(Load(st, tag, t).value)
  }

  // Listing backwards the interfaces of a host with two VLANs of one id shows.
  lemma BackwardsShows(st: Store, tag: string, s: seq<Id>)
    requires st.Valid() && tag in st.base.devices.index && Listing(s, st.base, st.base.devices.index[tag])
    requires Load(st, tag, s).Ok? && !DistinctVlanIds(Load(st, tag, s).value.vlans)
    ensures Listing(Reversed(s), st.base, st.base.devices.index[tag]) && !SameContext(st, tag, s, Reversed(s))
  {
    hide Accepted, BuildIntent, Collect, Sort, ViewOf, MakeVlan, Reversed, StrLe, Base.TablesValid, Base.References;
    ListedBackwards(st, s, st.base.devices.index[tag]);
    var t := Reversed(s);
    var body := st.base.devices.Get(tag).value.body;
    LoadedIsAccepted(tag, body.name, RoleSlug(st.base, body), Views(st, s));
    CollectReversed(Views(st, s), IsVlanChild, MakeVlan);
    var i := Load(st, tag, s).value;
    var a, b :| 0 <= a < b < |i.vlans| && i.vlans[a].vlanId == i.vlans[b].vlanId;
    forall j, k | 0 <= j < k < |i.vlans| ensures i.vlans[j] != i.vlans[k] { AcceptedVlansDiffer(i, j, k); }
    ReverseLeaks(i.vlans, a, b);
    if Load(st, tag, t).Ok? { LoadedIsAccepted(tag, body.name, RoleSlug(st.base, body), Views(st, t)); }
  }

  // When a load succeeds, the context is blind to the listing order exactly
  // when the host's VLAN ids are distinct.
  lemma ListingShowsExactly(st: Store, tag: string, s: seq<Id>)
    requires st.Valid() && tag in st.base.devices.index && Listing(s, st.base, st.base.devices.index[tag])
    requires Load(st, tag, s).Ok?
    ensures (forall t :: Listing(t, st.base, st.base.devices.index[tag]) ==> SameContext(st, tag, s, t))
            <==> DistinctVlanIds(Load(st, tag, s).value.vlans)
  {
    hide Load, Canonical, DistinctVlanIds, Reversed, Base.TablesValid, Base.References;
    if DistinctVlanIds(Load(st, tag, s).value.vlans) {
      forall t | Listing(t, st.base, st.base.devices.index[tag]) ensures SameContext(st, tag, s, t) {
        ListingOrderDoesNotShow(st, tag, s, t);
      }
    } else {
      BackwardsShows(st, tag, s);
    }
  }

  lemma SameViews(st: Store, s: seq<Id>, t: seq<Id>, device: Id)
    requires Listing(s, st.base, device) && Listing(t, st.base, device)
    ensures forall v :: v in Views(st, s) <==> v in Views(st, t)
  {
  }

  // In a fixture's own intent one VLAN id means one VLAN name, hence one role.
  lemma DirectIdsDistinct(fx: HostFixture)
    requires DirectIntent(fx).Ok?
    ensures DistinctVlanIds(DirectIntent(fx).value.vlans)
  {
    hide Accepted, BuildIntent, Collect, MakeVlan, FixtureViews;
    var i := DirectIntent(fx).value;
    LoadedIsAccepted(fx.assetTag, fx.hostname, Some(fx.deviceRole), FixtureViews(fx));
    HostShape(i);
    forall a, b | 0 <= a < b < |i.vlans| ensures i.vlans[a].vlanId != i.vlans[b].vlanId {
      assert i.vlans[a] in i.vlans && i.vlans[b] in i.vlans;
      VlanIdNamesRole(fx, i.vlans[a]);
      VlanIdNamesRole(fx, i.vlans[b]);
    }
  }

  // The role is that of the first VLAN the fixture declares under the id.
  lemma VlanIdNamesRole(fx: HostFixture, v: VlanChild)
    requires Collect(FixtureViews(fx), IsVlanChild, MakeVlan).Ok?
    requires v in Collect(FixtureViews(fx), IsVlanChild, MakeVlan).value
    ensures DeclaresVid(fx.vlans, v.vlanId) && ParseVlanRole(VlanNameOf(fx.vlans, v.vlanId)) == Some(v.role)
  {
    hide Collect, MakeVlan, VlanNameOf, ParseVlanRole, RecordView, FirstNames, VlanView;
    CollectFrom(FixtureViews(fx), IsVlanChild, MakeVlan, v);
    var w :| w in FixtureViews(fx) && IsVlanChild(w) && MakeVlan(w) == Ok(v);
    var k :| 0 <= k < |FixtureViews(fx)| && FixtureViews(fx)[k] == w;
    var s := RecordVlan(fx, FirstNames(fx.interfaces)[k]);
    MadeFromUntagged(w, v);
    DeclaredVlan(fx, s);
  }

  lemma MadeFromUntagged(w: IfaceView, v: VlanChild)
    requires MakeVlan(w) == Ok(v)
    ensures w.untagged.Some? && w.untagged.value.vid == v.vlanId && ParseVlanRole(w.untagged.value.name) == Some(v.role)
  {
    hide SingleIp, ParseVlanRole;
  }

  lemma RecordVlan(fx: HostFixture, name: string) returns (s: InterfaceSpec)
    requires FirstNamed(fx.interfaces, name).Some?
    ensures RecordView(fx, name).untagged == VlanView(fx, s)
  {
    s := FirstNamed(fx.interfaces, name).value;
  }

  lemma DeclaredVlan(fx: HostFixture, s: InterfaceSpec)
    requires VlanView(fx, s).Some?
    ensures var vlan := VlanView(fx, s).value;
            DeclaresVid(fx.vlans, vlan.vid) && vlan.name == VlanNameOf(fx.vlans, vlan.vid)
  {
  }

  // For a populated device no side condition is left: whatever order Netbox
  // lists its interfaces in, the templates see the fixture's own context.
  lemma PopulatedContextIsTheFixtures(fixtures: seq<HostFixture>, fx: HostFixture, st: Store, ids: seq<Id>)
    requires Populated(fixtures, fx, st) && fx.assetTag in Fin(fixtures, st).base.devices.index
    requires Listing(ids, Fin(fixtures, st).base, Fin(fixtures, st).base.devices.index[fx.assetTag])
    ensures Load(Fin(fixtures, st), fx.assetTag, ids).Ok? <==> DirectIntent(fx).Ok?
    ensures DirectIntent(fx).Ok? ==>
              Canonical(Load(Fin(fixtures, st), fx.assetTag, ids).value) == Canonical(DirectIntent(fx).value)
  {
    hide Populated, Fin, Load, BuildIntent, Canonical, DistinctVlanIds, Accepted, FixtureViews, Collect;
    LoadAfterPopulate(fixtures, fx, st, ids);
    if DirectIntent(fx).Ok? {
      DirectIdsDistinct(fx);
      LoadedIsAccepted(fx.assetTag, fx.hostname, Some(fx.deviceRole), FixtureViews(fx));
      NormalForm(DirectIntent(fx).value, Load(Fin(fixtures, st), fx.assetTag, ids).value);
    }
  }
}
