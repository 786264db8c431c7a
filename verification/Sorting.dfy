// Python's sorted() and list.sort(): the stable sort. Specified by insertion,
// characterised by order, permutation and stability, and shown to be the only
// function with those three properties.
module Sorting {
  import opened Basics

  ghost predicate TotalPreorder<T(!new)>(le: (T, T) -> bool) {
    && (forall x, y :: le(x, y) || le(y, x))
    && (forall x, y, z :: le(x, y) && le(y, z) ==> le(x, z))
  }

  ghost predicate Ordered<T>(le: (T, T) -> bool, s: seq<T>) {
    forall i, j :: 0 <= i < j < |s| ==> le(s[i], s[j])
  }

  function Insert<T>(le: (T, T) -> bool, x: T, s: seq<T>): seq<T> {
    if s == [] then [x]
    else if le(x, s[0]) then [x] + s
    else [s[0]] + Insert(le, x, s[1..])
  }

  function Sort<T>(le: (T, T) -> bool, s: seq<T>): seq<T> {
    if s == [] then [] else Insert(le, s[0], Sort(le, s[1..]))
  }

  // The elements of s that le cannot tell apart from x, in their order in s.
  function Peers<T>(le: (T, T) -> bool, x: T, s: seq<T>): seq<T> {
    if s == [] then []
    else (if le(x, s[0]) && le(s[0], x) then [s[0]] else []) + Peers(le, x, s[1..])
  }

  lemma {:induction false} InsertMultiset<T>(le: (T, T) -> bool, x: T, s: seq<T>)
    ensures multiset(Insert(le, x, s)) == multiset{x} + multiset(s)
  {
    if s != [] && !le(x, s[0]) {
      InsertMultiset(le, x, s[1..]);
      MultisetTail(s);
    }
  }

  lemma {:induction false} SortMultiset<T>(le: (T, T) -> bool, s: seq<T>)
    ensures multiset(Sort(le, s)) == multiset(s)
  {
    if s != [] {
      SortMultiset(le, s[1..]);
      InsertMultiset(le, s[0], Sort(le, s[1..]));
      MultisetTail(s);
    }
  }

  lemma {:induction false} InsertOrdered<T(!new)>(le: (T, T) -> bool, x: T, s: seq<T>)
    requires TotalPreorder(le) && Ordered(le, s)
    ensures Ordered(le, Insert(le, x, s))
  {
    if s != [] {
      var tail := s[1..];
      if le(x, s[0]) {
        forall j | 0 <= j < |s| ensures le(x, s[j]) {
          if j > 0 { assert le(s[0], s[j]); }
        }
      } else {
        InsertOrdered(le, x, tail);
        var r := Insert(le, x, tail);
        forall j | 0 <= j < |r| ensures le(s[0], r[j]) {
          InsertMultiset(le, x, tail);
          assert r[j] in multiset(r);
          if r[j] != x {
            assert r[j] in multiset(tail);
            var k :| 0 <= k < |tail| && tail[k] == r[j];
            assert s[k + 1] == r[j];
          }
        }
      }
    }
  }

  lemma {:induction false} SortOrdered<T(!new)>(le: (T, T) -> bool, s: seq<T>)
    requires TotalPreorder(le)
    ensures Ordered(le, Sort(le, s))
  {
    if s != [] {
      SortOrdered(le, s[1..]);
      InsertOrdered(le, s[0], Sort(le, s[1..]));
    }
  }

  // What x alone contributes to the peers of y.
  function PeerOf<T>(le: (T, T) -> bool, y: T, x: T): seq<T> {
    if le(y, x) && le(x, y) then [x] else []
  }

  lemma PeersCons<T>(le: (T, T) -> bool, y: T, x: T, s: seq<T>)
    ensures Peers(le, y, [x] + s) == PeerOf(le, y, x) + Peers(le, y, s)
  {
  }

  lemma {:induction false} InsertPeers<T(!new)>(le: (T, T) -> bool, y: T, x: T, s: seq<T>)
    requires TotalPreorder(le)
    ensures Peers(le, y, Insert(le, x, s)) == PeerOf(le, y, x) + Peers(le, y, s)
  {
    hide Peers;
    if s == [] || le(x, s[0]) {
      PeersCons(le, y, x, s);
      assert [x] + s == Insert(le, x, s);
    } else {
      InsertPeers(le, y, x, s[1..]);
      var r := Insert(le, x, s[1..]);
      assert s == [s[0]] + s[1..];
      PeersCons(le, y, s[0], r);
      PeersCons(le, y, s[0], s[1..]);
      NotBothPeers(le, y, x, s[0]);
      SwapEmpty(PeerOf(le, y, s[0]), PeerOf(le, y, x), Peers(le, y, s[1..]));
    }
  }

  lemma NotBothPeers<T(!new)>(le: (T, T) -> bool, y: T, x: T, z: T)
    requires TotalPreorder(le) && !le(x, z)
    ensures PeerOf(le, y, x) == [] || PeerOf(le, y, z) == []
  {
  }

  lemma SwapEmpty<T>(a: seq<T>, b: seq<T>, c: seq<T>)
    requires a == [] || b == []
    ensures a + (b + c) == b + (a + c)
  {
  }

  // Stability: elements with equal keys keep their order.
  lemma {:induction false} SortStable<T(!new)>(le: (T, T) -> bool, y: T, s: seq<T>)
    requires TotalPreorder(le)
    ensures Peers(le, y, Sort(le, s)) == Peers(le, y, s)
  {
    if s != [] {
      SortStable(le, y, s[1..]);
      InsertPeers(le, y, s[0], Sort(le, s[1..]));
      PeersCons(le, y, s[0], s[1..]);
      assert [s[0]] + s[1..] == s;
    }
  }

  lemma {:induction false} PeersSubset<T(!new)>(le: (T, T) -> bool, x: T, s: seq<T>)
    ensures forall y :: y in Peers(le, x, s) ==> y in s && le(x, y) && le(y, x)
    ensures forall y :: y in s && le(x, y) && le(y, x) ==> y in Peers(le, x, s)
  {
    if s != [] {
      PeersSubset(le, x, s[1..]);
      assert s == [s[0]] + s[1..];
    }
  }

  // Order and equal peer lists determine a sequence: there is one stable sort.
  lemma {:induction false} StableOrderUnique<T(!new)>(le: (T, T) -> bool, s: seq<T>, t: seq<T>)
    requires TotalPreorder(le) && Ordered(le, s) && Ordered(le, t)
    requires forall x :: Peers(le, x, s) == Peers(le, x, t)
    ensures s == t
  {
    if t != [] {
      PeersSubset(le, t[0], t);
      PeersSubset(le, t[0], s);
      assert t[0] in Peers(le, t[0], s);
    }
    if s != [] {
      var x := s[0];
      PeersSubset(le, x, s);
      PeersSubset(le, x, t);
      assert x in Peers(le, x, t);
      var y := t[0];
      PeersSubset(le, y, s);
      PeersSubset(le, y, t);
      assert y in Peers(le, y, s);
      assert le(x, y) && le(y, x);
      assert Peers(le, x, s)[0] == x;
      assert Peers(le, x, t)[0] == y;
      forall z ensures Peers(le, z, s[1..]) == Peers(le, z, t[1..]) {
        assert Peers(le, z, s) == Peers(le, z, t);
        var h := if le(z, x) && le(x, z) then [x] else [];
        assert Peers(le, z, s) == h + Peers(le, z, s[1..]);
        assert Peers(le, z, t) == h + Peers(le, z, t[1..]);
        assert Peers(le, z, s)[|h|..] == Peers(le, z, s[1..]);
        assert Peers(le, z, t)[|h|..] == Peers(le, z, t[1..]);
      }
      StableOrderUnique(le, s[1..], t[1..]);
      assert s == [s[0]] + s[1..] && t == [t[0]] + t[1..];
    }
  }

  // Any stable sort of s is Sort(le, s): the model stands for Python's timsort.
  lemma SortIsTheStableSort<T(!new)>(le: (T, T) -> bool, s: seq<T>, t: seq<T>)
    requires TotalPreorder(le) && Ordered(le, t)
    requires forall x :: Peers(le, x, t) == Peers(le, x, s)
    ensures t == Sort(le, s)
  {
    SortOrdered(le, s);
    forall x ensures Peers(le, x, Sort(le, s)) == Peers(le, x, t) {
      SortStable(le, x, s);
    }
    StableOrderUnique(le, Sort(le, s), t);
  }

  lemma SortIdempotent<T(!new)>(le: (T, T) -> bool, s: seq<T>)
    requires TotalPreorder(le)
    ensures Sort(le, Sort(le, s)) == Sort(le, s)
  {
    SortOrdered(le, s);
    SortIsTheStableSort(le, Sort(le, s), Sort(le, s));
  }

  // le never ties two different elements of s.
  ghost predicate Separates<T>(le: (T, T) -> bool, s: seq<T>) {
    forall x, y :: x in s && y in s && le(x, y) && le(y, x) ==> x == y
  }

  // Every element of an ordered list is above its first.
  lemma FirstIsLeast<T(!new)>(le: (T, T) -> bool, s: seq<T>, y: T)
    requires TotalPreorder(le) && Ordered(le, s) && y in s
    ensures le(s[0], y)
  {
  }

  lemma SameTail<T>(s: seq<T>, t: seq<T>)
    requires s != [] && t != [] && s[0] == t[0] && multiset(s) == multiset(t)
    ensures multiset(s[1..]) == multiset(t[1..])
  {
    MultisetTail(s);
    MultisetTail(t);
    assert multiset(s[1..]) == multiset(s) - multiset{s[0]};
    assert multiset(t[1..]) == multiset(t) - multiset{t[0]};
  }

  lemma OrderedTail<T(!new)>(le: (T, T) -> bool, s: seq<T>)
    requires Ordered(le, s) && s != []
    ensures Ordered(le, s[1..])
  {
  }

  lemma {:induction false} OrderedUnique<T(!new)>(le: (T, T) -> bool, s: seq<T>, t: seq<T>)
    requires TotalPreorder(le) && Ordered(le, s) && Ordered(le, t)
    requires multiset(s) == multiset(t) && Separates(le, s)
    ensures s == t
  {
    hide TotalPreorder, Ordered;
    PermutationMembers(s, t);
    if s != [] {
      var x, y := s[0], t[0];
      assert x in t && y in s;
      FirstIsLeast(le, s, y);
      FirstIsLeast(le, t, x);
      SameTail(s, t);
      OrderedTail(le, s);
      OrderedTail(le, t);
      assert forall z :: z in s[1..] ==> z in s;
      OrderedUnique(le, s[1..], t[1..]);
      assert s == [s[0]] + s[1..] && t == [t[0]] + t[1..];
    }
  }

  // When keys separate the elements, the order of arrival does not matter.
  lemma SortPermutation<T(!new)>(le: (T, T) -> bool, s: seq<T>, t: seq<T>)
    requires TotalPreorder(le) && multiset(s) == multiset(t) && Separates(le, s)
    ensures Sort(le, s) == Sort(le, t)
  {
    SortOrdered(le, s);
    SortOrdered(le, t);
    SortMultiset(le, s);
    SortMultiset(le, t);
    forall x, y | x in Sort(le, s) && y in Sort(le, s) && le(x, y) && le(y, x) ensures x == y {
      assert x in multiset(s) && y in multiset(s);
    }
    OrderedUnique(le, Sort(le, s), Sort(le, t));
  }

  // ----- strings by code point -------------------------------------------

  predicate StrLe(a: string, b: string) {
    a == [] || (b != [] && (a[0] < b[0] || (a[0] == b[0] && StrLe(a[1..], b[1..]))))
  }

  lemma {:induction false} StrLeTotal(a: string, b: string)
    ensures StrLe(a, b) || StrLe(b, a)
  {
    if a != [] && b != [] && a[0] == b[0] { StrLeTotal(a[1..], b[1..]); }
  }

  lemma {:induction false} StrLeTransitive(a: string, b: string, c: string)
    requires StrLe(a, b) && StrLe(b, c)
    ensures StrLe(a, c)
  {
    if a != [] && b != [] && c != [] && a[0] == b[0] && b[0] == c[0] {
      StrLeTransitive(a[1..], b[1..], c[1..]);
    }
  }

  lemma {:induction false} StrLeAntisymmetric(a: string, b: string)
    requires StrLe(a, b) && StrLe(b, a)
    ensures a == b
  {
    if a != [] && b != [] {
      StrLeAntisymmetric(a[1..], b[1..]);
      assert a == [a[0]] + a[1..] && b == [b[0]] + b[1..];
    }
  }

  // The texts agree up to k, and a has the smaller character there.
  ghost predicate SmallerAt(a: string, b: string, k: nat) {
    k < |a| && k < |b| && a[..k] == b[..k] && a[k] < b[k]
  }

  // Dictionary order: a is a prefix of b, or has the smaller character at the
  // first difference.
  ghost predicate InDictionaryOrder(a: string, b: string) { a <= b || exists k: nat :: SmallerAt(a, b, k) }

  lemma {:induction false} StrLeIsDictionaryOrder(a: string, b: string)
    ensures StrLe(a, b) <==> InDictionaryOrder(a, b)
  {
    if a != [] && b != [] {
      StrLeIsDictionaryOrder(a[1..], b[1..]);
      if a[0] < b[0] { assert SmallerAt(a, b, 0); }
      if a[0] == b[0] {
        assert a == [a[0]] + a[1..] && b == [b[0]] + b[1..];
        if k: nat :| SmallerAt(a[1..], b[1..], k) {
          assert a[..k + 1] == [a[0]] + a[1..][..k] && b[..k + 1] == [b[0]] + b[1..][..k];
          assert SmallerAt(a, b, k + 1);
        }
      }
      if k: nat :| SmallerAt(a, b, k) {
        if k > 0 {
          assert a[..k][0] == a[0] && b[..k][0] == b[0];
          assert a[1..][..k - 1] == a[..k][1..] && b[1..][..k - 1] == b[..k][1..];
          assert SmallerAt(a[1..], b[1..], k - 1);
        }
      }
    }
  }

  lemma StrLeIsTotalOrder()
    ensures TotalPreorder(StrLe)
    ensures forall a, b :: StrLe(a, b) && StrLe(b, a) ==> a == b
  {
    forall x, y ensures StrLe(x, y) || StrLe(y, x) { StrLeTotal(x, y); }
    forall x, y, z | StrLe(x, y) && StrLe(y, z) ensures StrLe(x, z) { StrLeTransitive(x, y, z); }
    forall a, b | StrLe(a, b) && StrLe(b, a) ensures a == b { StrLeAntisymmetric(a, b); }
  }

  // sorted(a) == sorted(b) on lists of strings says: the same strings, each as often
  lemma SortedStringsEqual(a: seq<string>, b: seq<string>)
    ensures Sort(StrLe, a) == Sort(StrLe, b) <==> multiset(a) == multiset(b)
  {
    StrLeIsTotalOrder();
    SortMultiset(StrLe, a);
    SortMultiset(StrLe, b);
    if multiset(a) == multiset(b) {
      SortPermutation(StrLe, a, b);
    }
  }
}
