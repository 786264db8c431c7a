// The loader against the order of Netbox's answer: success, and the intent up
// to the order of its VLANs, depend only on which records there are.
module LoadOrder {
  import opened Basics
  import opened Sorting
  import opened Models
  import opened Invariants
  import opened Loader

  ghost predicate DistinctViewNames(views: seq<IfaceView>) {
    forall i, j :: 0 <= i < j < |views| ==> views[i].name != views[j].name
  }

  lemma SameViewName(views: seq<IfaceView>, a: IfaceView, b: IfaceView)
    requires DistinctViewNames(views) && a in views && b in views && a.name == b.name
    ensures a == b
  {
  }

  // ----- collecting -------------------------------------------------------------------

  lemma {:induction false} CollectSucceeds<T>(views: seq<IfaceView>, pick: IfaceView -> bool,
                                              make: IfaceView -> Loaded<T>)
    ensures Collect(views, pick, make).Ok? <==> forall v :: v in views && pick(v) ==> make(v).Ok?
  {
    if views != [] {
      var init, last := views[..|views| - 1], views[|views| - 1];
      assert views == init + [last];
      CollectSucceeds(init, pick, make);
    }
  }

  // What the view at position i contributes.
  ghost function Part<T>(v: IfaceView, pick: IfaceView -> bool, make: IfaceView -> Loaded<T>): multiset<T> {
    if pick(v) && make(v).Ok? then multiset{make(v).value} else multiset{}
  }

  lemma CollectLast<T>(views: seq<IfaceView>, pick: IfaceView -> bool, make: IfaceView -> Loaded<T>)
    requires views != []
    ensures var init, last := views[..|views| - 1], views[|views| - 1];
            && (Collect(views, pick, make).Ok? <==> Collect(init, pick, make).Ok? && (pick(last) ==> make(last).Ok?))
            && (Collect(views, pick, make).Ok? ==>
                  multiset(Collect(views, pick, make).value) ==
                  multiset(Collect(init, pick, make).value) + Part(last, pick, make))
  {
  }

  lemma {:induction false} CollectPick<T>(views: seq<IfaceView>, i: nat, pick: IfaceView -> bool,
                                          make: IfaceView -> Loaded<T>)
    requires i < |views| && Collect(views, pick, make).Ok?
    ensures var rest := views[..i] + views[i + 1..];
            && Collect(rest, pick, make).Ok?
            && multiset(Collect(views, pick, make).value) ==
               Part(views[i], pick, make) + multiset(Collect(rest, pick, make).value)
    decreases |views|
  {
    hide Collect, Part;
    var init, last := views[..|views| - 1], views[|views| - 1];
    var rest := views[..i] + views[i + 1..];
    CollectLast(views, pick, make);
    if i == |views| - 1 {
      assert rest == init;
    } else {
      CollectPick(init, i, pick, make);
      assert rest[..|rest| - 1] == init[..i] + init[i + 1..] && rest[|rest| - 1] == last;
      CollectLast(rest, pick, make);
    }
  }

  lemma {:induction false} CollectPermuted<T>(s: seq<IfaceView>, t: seq<IfaceView>, pick: IfaceView -> bool,
                                              make: IfaceView -> Loaded<T>)
    requires multiset(s) == multiset(t) && Collect(s, pick, make).Ok?
    ensures Collect(t, pick, make).Ok?
    ensures multiset(Collect(s, pick, make).value) == multiset(Collect(t, pick, make).value)
    decreases |s|
  {
    hide Collect, Part;
    if s == [] {
      PermutationMembers(s, t);
      assert t == [];
    } else {
      var i := MatchLast(s, t);
      CollectOkPermuted(s, t, pick, make);
      CollectLast(s, pick, make);
      CollectPick(t, i, pick, make);
      CollectPermuted(s[..|s| - 1], t[..i] + t[i + 1..], pick, make);
    }
  }

  lemma CollectOkPermuted<T>(s: seq<IfaceView>, t: seq<IfaceView>, pick: IfaceView -> bool,
                             make: IfaceView -> Loaded<T>)
    requires multiset(s) == multiset(t) && Collect(s, pick, make).Ok?
    ensures Collect(t, pick, make).Ok?
  {
    hide Collect;
    PermutationMembers(s, t);
    CollectSucceeds(s, pick, make);
    CollectSucceeds(t, pick, make);
  }

  // Every collected model comes from a picked view.
  lemma {:induction false} CollectFrom<T>(views: seq<IfaceView>, pick: IfaceView -> bool,
                                          make: IfaceView -> Loaded<T>, t: T)
    requires Collect(views, pick, make).Ok? && t in Collect(views, pick, make).value
    ensures exists v :: v in views && pick(v) && make(v) == Ok(t)
  {
    var init, last := views[..|views| - 1], views[|views| - 1];
    assert views == init + [last];
    if t in Collect(init, pick, make).value {
      CollectFrom(init, pick, make, t);
      var v :| v in init && pick(v) && make(v) == Ok(t);
      assert v in views;
    } else {
      assert last in views;
    }
  }

  // ----- sorted rails --------------------------------------------------------------------

  lemma RoceOrder()
    ensures TotalPreorder(RoceLe)
  {
    StrLeIsTotalOrder();
  }

  lemma IbOrder()
    ensures TotalPreorder(IbLe)
  {
    StrLeIsTotalOrder();
  }

  lemma RoceNamed(v: IfaceView)
    ensures MakeRoce(v).Ok? ==> MakeRoce(v).value.name == v.name
  {
  }

  lemma RoceSeparated(s: seq<IfaceView>)
    requires DistinctViewNames(s) && Collect(s, IsRoceNic, MakeRoce).Ok?
    ensures Separates(RoceLe, Collect(s, IsRoceNic, MakeRoce).value)
  {
    hide Collect, MakeRoce, StrLe, DistinctViewNames;
    var a := Collect(s, IsRoceNic, MakeRoce).value;
    forall x, y | x in a && y in a && RoceLe(x, y) && RoceLe(y, x) ensures x == y {
      StrLeAntisymmetric(x.name, y.name);
      CollectFrom(s, IsRoceNic, MakeRoce, x);
      CollectFrom(s, IsRoceNic, MakeRoce, y);
      var v :| v in s && IsRoceNic(v) && MakeRoce(v) == Ok(x);
      var w :| w in s && IsRoceNic(w) && MakeRoce(w) == Ok(y);
      RoceNamed(v);
      RoceNamed(w);
      SameViewName(s, v, w);
    }
  }

  lemma RocePermuted(s: seq<IfaceView>, t: seq<IfaceView>)
    requires multiset(s) == multiset(t) && DistinctViewNames(s) && Collect(s, IsRoceNic, MakeRoce).Ok?
    ensures Sorted(RoceLe, Collect(t, IsRoceNic, MakeRoce)) == Sorted(RoceLe, Collect(s, IsRoceNic, MakeRoce))
  {
    hide Collect, MakeRoce, RoceLe, Sort, Separates, TotalPreorder;
    CollectPermuted(s, t, IsRoceNic, MakeRoce);
    RoceSeparated(s);
    RoceOrder();
    SortPermutation(RoceLe, Collect(s, IsRoceNic, MakeRoce).value, Collect(t, IsRoceNic, MakeRoce).value);
  }

  lemma IbNamed(v: IfaceView)
    ensures MakeIb(v).Ok? ==> MakeIb(v).value.name == v.name
  {
  }

  lemma IbSeparated(s: seq<IfaceView>)
    requires DistinctViewNames(s) && Collect(s, IsIbNic, MakeIb).Ok?
    ensures Separates(IbLe, Collect(s, IsIbNic, MakeIb).value)
  {
    hide Collect, MakeIb, StrLe, DistinctViewNames;
    var a := Collect(s, IsIbNic, MakeIb).value;
    forall x, y | x in a && y in a && IbLe(x, y) && IbLe(y, x) ensures x == y {
      StrLeAntisymmetric(x.name, y.name);
      CollectFrom(s, IsIbNic, MakeIb, x);
      CollectFrom(s, IsIbNic, MakeIb, y);
      var v :| v in s && IsIbNic(v) && MakeIb(v) == Ok(x);
      var w :| w in s && IsIbNic(w) && MakeIb(w) == Ok(y);
      IbNamed(v);
      IbNamed(w);
      SameViewName(s, v, w);
    }
  }

  lemma IbPermuted(s: seq<IfaceView>, t: seq<IfaceView>)
    requires multiset(s) == multiset(t) && DistinctViewNames(s) && Collect(s, IsIbNic, MakeIb).Ok?
    ensures Sorted(IbLe, Collect(t, IsIbNic, MakeIb)) == Sorted(IbLe, Collect(s, IsIbNic, MakeIb))
  {
    hide Collect, MakeIb, IbLe, Sort, Separates, TotalPreorder;
    CollectPermuted(s, t, IsIbNic, MakeIb);
    IbSeparated(s);
    IbOrder();
    SortPermutation(IbLe, Collect(s, IsIbNic, MakeIb).value, Collect(t, IsIbNic, MakeIb).value);
  }

  lemma LastNamedPermuted(s: seq<IfaceView>, t: seq<IfaceView>, name: string)
    requires multiset(s) == multiset(t) && DistinctViewNames(s)
    ensures LastNamed(s, name) == LastNamed(t, name)
  {
    PermutationMembers(s, t);
    var a, b := LastNamed(s, name), LastNamed(t, name);
    if a.Some? && b.Some? { SameViewName(s, a.value, b.value); }
  }

  // ----- the intent ------------------------------------------------------------------------

  // Reading some picked record fails with this error.
  ghost predicate Fails<T(!new)>(views: seq<IfaceView>, pick: IfaceView -> bool, make: IfaceView -> Loaded<T>,
                                 e: LoadError)
  {
    exists v :: v in views && pick(v) && make(v) == Err(e)
  }

  // Both errors are of VLAN records, or both of RoCE records, or both of
  // InfiniBand records.
  ghost predicate OneClassFails(views: seq<IfaceView>, e: LoadError, f: LoadError) {
    || (Fails(views, IsVlanChild, MakeVlan, e) && Fails(views, IsVlanChild, MakeVlan, f))
    || (Fails(views, IsRoceNic, MakeRoce, e) && Fails(views, IsRoceNic, MakeRoce, f))
    || (Fails(views, IsIbNic, MakeIb, e) && Fails(views, IsIbNic, MakeIb, f))
  }

  // Both succeed, with intents equal up to VLAN order, or both fail, with the
  // same error or with errors of two records of one class.
  ghost predicate SameLoad(views: seq<IfaceView>, a: Loaded<HostIntent>, b: Loaded<HostIntent>) {
    && (a.Ok? <==> b.Ok?)
    && (a.Ok? ==>
          && a.value.(vlans := []) == b.value.(vlans := [])
          && multiset(a.value.vlans) == multiset(b.value.vlans))
    && (a.Err? && b.Err? ==> a.error == b.error || OneClassFails(views, a.error, b.error))
  }

  // What is wrong with a record is never a violated invariant or a missing host.
  lemma RecordErrors(views: seq<IfaceView>, e: LoadError, f: LoadError)
    requires OneClassFails(views, e, f)
    ensures (e.NetboxQuery? || e.FieldInvalid?) && (f.NetboxQuery? || f.FieldInvalid?)
  {
    hide ParseVlanRole, CanonicalMac, SingleIp;
    forall v: IfaceView ensures SingleIp(v).Err? ==> SingleIp(v).error.NetboxQuery? || SingleIp(v).error.FieldInvalid? {
      AddressErrors(v);
    }
  }

  lemma AddressErrors(v: IfaceView)
    ensures SingleIp(v).Err? ==> SingleIp(v).error.NetboxQuery? || SingleIp(v).error.FieldInvalid?
  {
  }

  lemma {:induction false} CollectError<T(!new)>(views: seq<IfaceView>, pick: IfaceView -> bool,
                                                 make: IfaceView -> Loaded<T>)
    ensures Collect(views, pick, make).Err? ==> Fails(views, pick, make, Collect(views, pick, make).error)
  {
    if views != [] {
      var init, last := views[..|views| - 1], views[|views| - 1];
      assert views == init + [last];
      CollectError(init, pick, make);
      assert last in views;
    }
  }

  // The error of the same class in another order.
  lemma FailsPermuted<T(!new)>(s: seq<IfaceView>, t: seq<IfaceView>, pick: IfaceView -> bool,
                               make: IfaceView -> Loaded<T>)
    requires multiset(s) == multiset(t) && Collect(s, pick, make).Err?
    ensures Collect(t, pick, make).Err? && Fails(s, pick, make, Collect(s, pick, make).error)
    ensures Fails(s, pick, make, Collect(t, pick, make).error)
  {
    hide Collect;
    if Collect(t, pick, make).Ok? { CollectOkPermuted(t, s, pick, make); }
    CollectError(s, pick, make);
    CollectError(t, pick, make);
    PermutationMembers(s, t);
  }

  lemma MakeIntentPermuted(views: seq<IfaceView>, i: HostIntent, vlans: seq<VlanChild>)
    requires multiset(i.vlans) == multiset(vlans)
    ensures SameLoad(views, MakeIntent(i), MakeIntent(i.(vlans := vlans)))
  {
    hide Accepted, Checks, FirstFailure;
    var j := i.(vlans := vlans);
    VerdictIgnoresOrder(i, j);
    AcceptedMeansNoFailure(i);
    AcceptedMeansNoFailure(j);
  }

  lemma AcceptedMeansNoFailure(i: HostIntent)
    ensures FirstFailure(Checks(i)).None? <==> Accepted(i)
  {
  }

  // Reading the same records in another order succeeds on the same hosts and
  // gives the same intent up to the order of its VLANs; on the others it fails
  // in the same way, but for which bad record of a class it meets first.
  lemma BuildIgnoresOrder(tag: string, hostname: string, slug: Option<string>, s: seq<IfaceView>, t: seq<IfaceView>)
    requires multiset(s) == multiset(t) && DistinctViewNames(s)
    ensures SameLoad(s, BuildIntent(tag, hostname, slug, s), BuildIntent(tag, hostname, slug, t))
  {
    hide Collect, MakeIntent, NsNics, BondOf, Sorted, DistinctViewNames, ParseRole, Fails;
    FixedPartsPermuted(s, t);
    PartsPermuted(s, t);
    var vlans, roce, ib :=
      Collect(s, IsVlanChild, MakeVlan), Collect(s, IsRoceNic, MakeRoce), Collect(s, IsIbNic, MakeIb);
    if Truthy(slug) && ParseRole(slug.value).Some? && NsNics(s).Ok? && BondOf(s, NsNics(s).value).Ok?
       && vlans.Ok? && roce.Ok? && ib.Ok? {
      SortedOk(RoceLe, roce);
      SortedOk(IbLe, ib);
      var i := HostIntent(tag, hostname, ParseRole(slug.value).value, NsNics(s).value, BondOf(s, NsNics(s).value).value,
                          vlans.value, Sorted(RoceLe, roce).value, Sorted(IbLe, ib).value);
      MakeIntentPermuted(s, i, Collect(t, IsVlanChild, MakeVlan).value);
      hide SameLoad;
      assert BuildIntent(tag, hostname, slug, s) == MakeIntent(i);
      assert BuildIntent(tag, hostname, slug, t) == MakeIntent(i.(vlans := Collect(t, IsVlanChild, MakeVlan).value));
    } else {
      RailsSorted(s);
      RailsSorted(t);
      if vlans.Err? { FailsPermuted(s, t, IsVlanChild, MakeVlan); }
      if roce.Err? { FailsPermuted(s, t, IsRoceNic, MakeRoce); }
      if ib.Err? { FailsPermuted(s, t, IsIbNic, MakeIb); }
    }
  }

  lemma RailsSorted(s: seq<IfaceView>)
    ensures Collect(s, IsRoceNic, MakeRoce).Ok? ==> Sorted(RoceLe, Collect(s, IsRoceNic, MakeRoce)).Ok?
    ensures Collect(s, IsRoceNic, MakeRoce).Err? ==>
              Sorted(RoceLe, Collect(s, IsRoceNic, MakeRoce)) == Err(Collect(s, IsRoceNic, MakeRoce).error)
    ensures Collect(s, IsIbNic, MakeIb).Ok? ==> Sorted(IbLe, Collect(s, IsIbNic, MakeIb)).Ok?
    ensures Collect(s, IsIbNic, MakeIb).Err? ==>
              Sorted(IbLe, Collect(s, IsIbNic, MakeIb)) == Err(Collect(s, IsIbNic, MakeIb).error)
  {
  }

  lemma SortedOk<T>(le: (T, T) -> bool, r: Loaded<seq<T>>)
    requires r.Ok?
    ensures Sorted(le, r).Ok?
  {
  }

  lemma FixedPartsPermuted(s: seq<IfaceView>, t: seq<IfaceView>)
    requires multiset(s) == multiset(t) && DistinctViewNames(s)
    ensures NsNics(s) == NsNics(t)
    ensures forall nics :: BondOf(s, nics) == BondOf(t, nics)
  {
    hide LastNamed, DistinctViewNames, MakeNic, MakeBond;
    LastNamedPermuted(s, t, "nsa");
    LastNamedPermuted(s, t, "nsb");
    LastNamedPermuted(s, t, BOND_NAME);
  }

  lemma PartsPermuted(s: seq<IfaceView>, t: seq<IfaceView>)
    requires multiset(s) == multiset(t) && DistinctViewNames(s)
    ensures Collect(s, IsVlanChild, MakeVlan).Ok? <==> Collect(t, IsVlanChild, MakeVlan).Ok?
    ensures Collect(s, IsVlanChild, MakeVlan).Ok? ==>
              multiset(Collect(s, IsVlanChild, MakeVlan).value) == multiset(Collect(t, IsVlanChild, MakeVlan).value)
    ensures Collect(s, IsRoceNic, MakeRoce).Ok? <==> Collect(t, IsRoceNic, MakeRoce).Ok?
    ensures Collect(s, IsRoceNic, MakeRoce).Ok? ==>
              Sorted(RoceLe, Collect(t, IsRoceNic, MakeRoce)) == Sorted(RoceLe, Collect(s, IsRoceNic, MakeRoce))
    ensures Collect(s, IsIbNic, MakeIb).Ok? <==> Collect(t, IsIbNic, MakeIb).Ok?
    ensures Collect(s, IsIbNic, MakeIb).Ok? ==>
              Sorted(IbLe, Collect(t, IsIbNic, MakeIb)) == Sorted(IbLe, Collect(s, IsIbNic, MakeIb))
  {
    hide Collect, MakeVlan, MakeRoce, MakeIb, Sort, DistinctViewNames;
    if Collect(s, IsVlanChild, MakeVlan).Ok? { CollectPermuted(s, t, IsVlanChild, MakeVlan); }
    if Collect(t, IsVlanChild, MakeVlan).Ok? { CollectPermuted(t, s, IsVlanChild, MakeVlan); }
    if Collect(s, IsRoceNic, MakeRoce).Ok? { RocePermuted(s, t); CollectPermuted(s, t, IsRoceNic, MakeRoce); }
    if Collect(t, IsRoceNic, MakeRoce).Ok? { CollectPermuted(t, s, IsRoceNic, MakeRoce); }
    if Collect(s, IsIbNic, MakeIb).Ok? { IbPermuted(s, t); CollectPermuted(s, t, IsIbNic, MakeIb); }
    if Collect(t, IsIbNic, MakeIb).Ok? { CollectPermuted(t, s, IsIbNic, MakeIb); }
  }
}
