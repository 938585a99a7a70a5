/** Splitting a sequence into groups by an optional key, and what that neither loses nor
    invents. */
module Grouping {
  import opened Wrappers
  import opened Sequences
  import opened Orders

  ghost function KeySet<T(!new), K>(key: T -> Option<K>, items: seq<T>): set<K> {
    set x | x in items && key(x).Some? :: key(x).value
  }

  function HasKey<T, K(==)>(key: T -> Option<K>, k: K): T -> bool { (x: T) => key(x) == Some(k) }

  function Keyed<T, K>(key: T -> Option<K>): T -> bool { (x: T) => key(x).Some? }

  /** The items with a given key, in order. */
  function Members<T(!new), K(==)>(key: T -> Option<K>, items: seq<T>, k: K): seq<T> {
    Filter(HasKey(key, k), items)
  }

  /** Every group folded to one value. */
  ghost function Fold<T(!new), K, A>(key: T -> Option<K>, fold: seq<T> -> A, items: seq<T>): map<K, A> {
    map k | k in KeySet(key, items) :: fold(Members(key, items, k))
  }

  lemma KeySetPush<T(!new), K>(key: T -> Option<K>, items: seq<T>, x: T)
    ensures KeySet(key, items + [x]) == KeySet(key, items) + if key(x).Some? then {key(x).value} else {}
  {
    assert forall y :: y in items + [x] <==> y in items || y == x;
  }

  lemma {:induction false} NoMembers<T(!new), K>(key: T -> Option<K>, items: seq<T>, k: K)
    ensures Members(key, items, k) == [] <==> k !in KeySet(key, items)
  {
    if items != [] {
      var front, last := items[..|items| - 1], items[|items| - 1];
      NoMembers(key, front, k);
      FrontLast(items);
      KeySetPush(key, front, last);
    }
  }

  /** One more item changes only its own group. */
  lemma FoldPush<T(!new), K, A>(key: T -> Option<K>, fold: seq<T> -> A, items: seq<T>, x: T)
    ensures key(x).None? ==> Fold(key, fold, items + [x]) == Fold(key, fold, items)
    ensures key(x).Some? ==>
              var k := key(x).value;
              Fold(key, fold, items + [x]) == Fold(key, fold, items)[k := fold(Members(key, items, k) + [x])]
  {
    KeySetPush(key, items, x);
    forall k ensures Members(key, items + [x], k) ==
                     if key(x) == Some(k) then Members(key, items, k) + [x] else Members(key, items, k) {
      FilterPush(HasKey(key, k), items, x);
    }
  }

  lemma KeySetAppend<T(!new), K>(key: T -> Option<K>, a: seq<T>, b: seq<T>)
    ensures KeySet(key, a + b) == KeySet(key, a) + KeySet(key, b)
  {
    assert forall x :: x in a + b <==> x in a || x in b;
  }

  /** Reordering the items reorders within groups only. */
  lemma GroupsIgnoreOrder<T(!new), K>(key: T -> Option<K>, a: seq<T>, b: seq<T>, k: K)
    requires multiset(a) == multiset(b)
    ensures KeySet(key, a) == KeySet(key, b)
    ensures multiset(Members(key, a, k)) == multiset(Members(key, b, k))
    ensures |Members(key, a, k)| == |Members(key, b, k)|
  {
    FilterPermutation(HasKey(key, k), a, b);
    assert |multiset(Members(key, a, k))| == |multiset(Members(key, b, k))|;
    assert forall x :: x in a <==> x in multiset(a);
    assert forall x :: x in b <==> x in multiset(b);
    assert forall x :: x in a <==> x in b;
  }

  // ----- Conservation -----

  function GroupWeight<T(!new), K(==)>(key: T -> Option<K>, weight: T -> int, items: seq<T>): K -> int {
    (k: K) => SumBy(weight, Members(key, items, k))
  }

  lemma {:induction false} RaiseOne<K>(f: K -> int, g: K -> int, keys: seq<K>, k: K, amount: int)
    requires Distinct(keys)
    requires g(k) == f(k) + amount && forall j :: j in keys && j != k ==> g(j) == f(j)
    ensures SumBy(g, keys) == SumBy(f, keys) + if k in keys then amount else 0
  {
    if keys != [] {
      var front, last := keys[..|keys| - 1], keys[|keys| - 1];
      RaiseOne(f, g, front, k, amount);
      FrontLast(keys);
      assert last in keys;
      assert last !in front;
    }
  }

  /** The weights of the groups add up to the weight of all items that have a key. */
  lemma {:induction false} GroupsConserve<T(!new), K(!new)>(
    key: T -> Option<K>, weight: T -> int, items: seq<T>, keys: seq<K>)
    requires Distinct(keys)
    requires forall k :: k in KeySet(key, items) ==> k in keys
    ensures SumBy(GroupWeight(key, weight, items), keys) == SumBy(weight, Filter(Keyed(key), items))
  {
    if items == [] {
      ZeroSum(GroupWeight(key, weight, items), keys);
    } else {
      var front, x := items[..|items| - 1], items[|items| - 1];
      FrontLast(items);
      KeySetPush(key, front, x);
      GroupsConserve(key, weight, front, keys);
      var f, g := GroupWeight(key, weight, front), GroupWeight(key, weight, items);
      forall k ensures g(k) == f(k) + if key(x) == Some(k) then weight(x) else 0 {
        FilterPush(HasKey(key, k), front, x);
        SumByPush(weight, Members(key, front, k), x);
      }
      FilterPush(Keyed(key), front, x);
      if key(x).Some? {
        RaiseOne(f, g, keys, key(x).value, weight(x));
        SumByPush(weight, Filter(Keyed(key), front), x);
      } else {
        SumByAgrees(f, g, keys);
      }
    }
  }

  lemma {:induction false} ZeroSum<K>(f: K -> int, keys: seq<K>)
    requires forall k :: k in keys ==> f(k) == 0
    ensures SumBy(f, keys) == 0
  {
    if keys != [] {
      ZeroSum(f, keys[..|keys| - 1]);
    }
  }

  // ----- Counting -----

  function One<T>(x: T): int { 1 }

  function IsImage<T, V(==)>(f: T -> V, v: V): T -> int { (x: T) => if f(x) == v then 1 else 0 }

  lemma {:induction false} LengthIsSum<T>(s: seq<T>)
    ensures SumBy(One, s) == |s|
  {
    if s != [] {
      LengthIsSum(s[..|s| - 1]);
    }
  }

  /** How often a value occurs among the images. */
  lemma {:induction false} ImageCount<T, V>(f: T -> V, s: seq<T>, v: V)
    ensures multiset(Map(f, s))[v] == SumBy(IsImage(f, v), s)
  {
    if s != [] {
      var front, last := s[..|s| - 1], s[|s| - 1];
      ImageCount(f, front, v);
      assert Map(f, s) == Map(f, front) + [f(last)];
    }
  }

  lemma MapIgnoresOrder<T, V(!new)>(f: T -> V, s: seq<T>, t: seq<T>)
    requires multiset(s) == multiset(t)
    ensures multiset(Map(f, s)) == multiset(Map(f, t))
  {
    forall v: V ensures multiset(Map(f, s))[v] == multiset(Map(f, t))[v] {
      ImageCount(f, s, v);
      ImageCount(f, t, v);
      SumByPermutation(IsImage(f, v), s, t);
    }
  }
}
