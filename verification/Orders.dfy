/** Strict total orders, the ascending enumeration of a finite set, and the
    lexicographic order of sequences. An ordered map or set of the source is a
    Dafny map or set here; visiting it in order is visiting `Enumerate`. */
module Orders {
  import opened Sequences

  ghost predicate StrictTotal<T(!new)>(lt: (T, T) -> bool) {
    && (forall x :: !lt(x, x))
    && (forall x, y, z :: lt(x, y) && lt(y, z) ==> lt(x, z))
    && (forall x, y :: x == y || lt(x, y) || lt(y, x))
  }

  ghost predicate Ascending<T>(lt: (T, T) -> bool, s: seq<T>) {
    forall i, j :: 0 <= i < j < |s| ==> lt(s[i], s[j])
  }

  function Least<T(!new, ==)>(lt: (T, T) -> bool, s: set<T>): (m: T)
    requires StrictTotal(lt) && s != {}
    ensures m in s && forall x :: x in s ==> x == m || lt(m, x)
  {
    LeastExists(lt, s);
    var m :| m in s && forall x :: x in s ==> x == m || lt(m, x);
    m
  }

  lemma {:induction false} LeastExists<T(!new)>(lt: (T, T) -> bool, s: set<T>)
    requires StrictTotal(lt) && s != {}
    ensures exists m :: m in s && forall x :: x in s ==> x == m || lt(m, x)
  {
    var y :| y in s;
    var rest := s - {y};
    if rest == {} {
      assert s == {y};
    } else {
      LeastExists(lt, rest);
      var m :| m in rest && forall x :: x in rest ==> x == m || lt(m, x);
      var least := if lt(y, m) then y else m;
      assert forall x :: x in s ==> x == y || x in rest;
      assert least in s && forall x :: x in s ==> x == least || lt(least, x);
    }
  }

  /** The elements of a finite set in ascending order. */
  function Enumerate<T(!new, ==)>(lt: (T, T) -> bool, s: set<T>): (r: seq<T>)
    requires StrictTotal(lt)
    ensures |r| == |s|
    ensures forall x :: x in r <==> x in s
  {
    if s == {} then []
    else
      var m := Least(lt, s);
      var rest := Enumerate(lt, s - {m});
      assert forall x :: x in [m] + rest <==> x == m || x in rest;
      [m] + rest
  }

  lemma EnumerateStep<T(!new)>(lt: (T, T) -> bool, s: set<T>)
    requires StrictTotal(lt) && s != {}
    ensures Enumerate(lt, s) == [Least(lt, s)] + Enumerate(lt, s - {Least(lt, s)})
  {
  }

  lemma LeastIs<T(!new)>(lt: (T, T) -> bool, s: set<T>, m: T)
    requires StrictTotal(lt) && m in s && forall x :: x in s ==> x == m || lt(m, x)
    ensures Least(lt, s) == m
  {
  }

  lemma {:induction false} EnumerateAscends<T(!new)>(lt: (T, T) -> bool, s: set<T>)
    requires StrictTotal(lt)
    ensures Ascending(lt, Enumerate(lt, s))
  {
    if s != {} {
      var m := Least(lt, s);
      EnumerateAscends(lt, s - {m});
      assert forall x :: x in Enumerate(lt, s - {m}) ==> lt(m, x);
    }
  }

  lemma NonEmptyHasElement<T(!new)>(s: seq<T>)
    ensures s == [] || exists x :: x in s
  {
    if s != [] {
      assert s[0] in s;
    }
  }

  /** An ascending sequence is determined by its elements. */
  lemma {:induction false} AscendingUnique<T(!new)>(lt: (T, T) -> bool, a: seq<T>, b: seq<T>)
    requires StrictTotal(lt) && Ascending(lt, a) && Ascending(lt, b)
    requires forall x :: x in a <==> x in b
    ensures a == b
  {
    if a == [] {
      NonEmptyHasElement(b);
    } else {
      assert a[0] in b;
      assert b[0] in a;
      assert a[0] == b[0] by {
        var i :| 0 <= i < |b| && b[i] == a[0];
        var j :| 0 <= j < |a| && a[j] == b[0];
      }
      assert a == [a[0]] + a[1..] && b == [b[0]] + b[1..];
      forall x
        ensures x in a[1..] <==> x in b[1..]
      {
        assert x in a <==> x == a[0] || x in a[1..];
        assert x in b <==> x == b[0] || x in b[1..];
        assert x in a[1..] ==> lt(a[0], x);
        assert x in b[1..] ==> lt(b[0], x);
      }
      AscendingUnique(lt, a[1..], b[1..]);
    }
  }

  ghost predicate Distinct<T>(s: seq<T>) { forall i, j :: 0 <= i < j < |s| ==> s[i] != s[j] }

  /** The sequence holds every element of the set once and nothing else. */
  ghost predicate Lists<T(!new)>(s: seq<T>, elements: set<T>) {
    Distinct(s) && forall x :: x in s <==> x in elements
  }

  lemma AscendingDistinct<T(!new)>(lt: (T, T) -> bool, s: seq<T>)
    requires StrictTotal(lt) && Ascending(lt, s)
    ensures Distinct(s)
  {
  }

  lemma {:induction false} FilterAscending<T(!new)>(lt: (T, T) -> bool, keep: T -> bool, s: seq<T>)
    requires Ascending(lt, s)
    ensures Ascending(lt, Filter(keep, s))
  {
    if s != [] {
      var front, last := s[..|s| - 1], s[|s| - 1];
      FilterAscending(lt, keep, front);
      assert forall x :: x in front ==> lt(x, last);
    }
  }

  /** Filtering an enumeration enumerates the part of the set that passes. */
  lemma FilterEnumerate<T(!new)>(lt: (T, T) -> bool, keep: T -> bool, s: set<T>, part: set<T>)
    requires StrictTotal(lt) && forall x :: x in part <==> x in s && keep(x)
    ensures Filter(keep, Enumerate(lt, s)) == Enumerate(lt, part)
  {
    EnumerateAscends(lt, s);
    EnumerateAscends(lt, part);
    FilterAscending(lt, keep, Enumerate(lt, s));
    AscendingUnique(lt, Filter(keep, Enumerate(lt, s)), Enumerate(lt, part));
  }

  // ----- The first few of a ranking -----

  function Take<T>(s: seq<T>, k: nat): (r: seq<T>)
    ensures |r| == if k < |s| then k else |s|
    ensures forall x :: x in r ==> x in s
  {
    if k < |s| then s[..k] else s
  }

  /** The best `k` of a set: ascending, as many as there can be, and before all the rest. */
  ghost predicate IsBest<T(!new)>(lt: (T, T) -> bool, s: set<T>, k: nat, r: seq<T>) {
    && Ascending(lt, r)
    && |r| == (if k < |s| then k else |s|)
    && (forall x :: x in r ==> x in s)
    && (forall x, y :: x in r && y in s && y !in r ==> lt(x, y))
  }

  lemma TakeIsBest<T(!new)>(lt: (T, T) -> bool, s: set<T>, k: nat)
    requires StrictTotal(lt)
    ensures IsBest(lt, s, k, Take(Enumerate(lt, s), k))
  {
    var all := Enumerate(lt, s);
    EnumerateAscends(lt, s);
    forall x, y | x in Take(all, k) && y in s && y !in Take(all, k) ensures lt(x, y) {
      var i :| 0 <= i < |Take(all, k)| && Take(all, k)[i] == x;
      assert y in all;
      var j :| 0 <= j < |all| && all[j] == y;
    }
  }

  lemma MembersOfAscending<T(!new)>(lt: (T, T) -> bool, r: seq<T>)
    requires StrictTotal(lt) && Ascending(lt, r)
    ensures |Elements(r)| == |r|
  {
    DistinctCount(r);
  }

  function Elements<T(!new, ==)>(r: seq<T>): set<T> { set x | x in r }

  lemma {:induction false} DistinctCount<T(!new)>(r: seq<T>)
    requires Distinct(r)
    ensures |Elements(r)| == |r|
  {
    if r != [] {
      var front, last := r[..|r| - 1], r[|r| - 1];
      DistinctCount(front);
      FrontLast(r);
      assert Elements(r) == Elements(front) + {last};
    }
  }

  /** There is only one best `k`. */
  lemma BestIsUnique<T(!new)>(lt: (T, T) -> bool, s: set<T>, k: nat, a: seq<T>, b: seq<T>)
    requires StrictTotal(lt) && IsBest(lt, s, k, a) && IsBest(lt, s, k, b)
    ensures a == b
  {
    MembersOfAscending(lt, a);
    MembersOfAscending(lt, b);
    SameElements(lt, s, k, a, b);
    SameElements(lt, s, k, b, a);
    assert forall x :: x in a <==> x in Elements(a);
    AscendingUnique(lt, a, b);
  }

  lemma SameElements<T(!new)>(lt: (T, T) -> bool, s: set<T>, k: nat, a: seq<T>, b: seq<T>)
    requires StrictTotal(lt) && IsBest(lt, s, k, a) && IsBest(lt, s, k, b)
    requires |Elements(a)| == |Elements(b)|
    ensures forall x :: x in a ==> x in b
  {
    forall x | x in a ensures x in b {
      if x !in b {
        assert Elements(b) <= Elements(a) - {x};
        SubsetSize(Elements(b), Elements(a) - {x});
        assert false;
      }
    }
  }

  lemma {:induction false} SubsetSize<T>(a: set<T>, b: set<T>)
    requires a <= b
    ensures |a| <= |b|
  {
    if a != {} {
      var x :| x in a;
      SubsetSize(a - {x}, b - {x});
    }
  }

  // ----- Lexicographic order -----

  predicate LexLt<T(==)>(lt: (T, T) -> bool, a: seq<T>, b: seq<T>) {
    b != [] && (a == [] || lt(a[0], b[0]) || (a[0] == b[0] && LexLt(lt, a[1..], b[1..])))
  }

  lemma {:induction false} LexIrreflexive<T(!new)>(lt: (T, T) -> bool, a: seq<T>)
    requires StrictTotal(lt)
    ensures !LexLt(lt, a, a)
  {
    if a != [] {
      LexIrreflexive(lt, a[1..]);
    }
  }

  lemma {:induction false} LexTransitive<T(!new)>(lt: (T, T) -> bool, a: seq<T>, b: seq<T>, c: seq<T>)
    requires StrictTotal(lt) && LexLt(lt, a, b) && LexLt(lt, b, c)
    ensures LexLt(lt, a, c)
  {
    if a != [] && a[0] == b[0] == c[0] {
      LexTransitive(lt, a[1..], b[1..], c[1..]);
    }
  }

  lemma {:induction false} LexTotal<T(!new)>(lt: (T, T) -> bool, a: seq<T>, b: seq<T>)
    requires StrictTotal(lt)
    ensures a == b || LexLt(lt, a, b) || LexLt(lt, b, a)
  {
    if a != [] && b != [] && a[0] == b[0] {
      LexTotal(lt, a[1..], b[1..]);
      assert a == [a[0]] + a[1..] && b == [b[0]] + b[1..];
    }
  }

  /** The first position that decides a comparison: all before it agree, and there the first
      sequence ends or has the lesser element. */
  ghost predicate DecidedAt<T>(lt: (T, T) -> bool, a: seq<T>, b: seq<T>, i: nat) {
    i <= |a| && i < |b| && (forall j :: 0 <= j < i ==> a[j] == b[j]) && (i == |a| || lt(a[i], b[i]))
  }

  lemma {:induction false} LexLtDecides<T>(lt: (T, T) -> bool, a: seq<T>, b: seq<T>)
    ensures LexLt(lt, a, b) <==> exists i: nat :: DecidedAt(lt, a, b, i)
  {
    if b != [] {
      if a == [] || lt(a[0], b[0]) {
        assert DecidedAt(lt, a, b, 0);
      } else if a[0] == b[0] {
        LexLtDecides(lt, a[1..], b[1..]);
        if i: nat :| DecidedAt(lt, a[1..], b[1..], i) {
          assert DecidedAt(lt, a, b, i + 1) by {
            assert forall j :: 0 < j < i + 1 ==> a[j] == a[1..][j - 1] && b[j] == b[1..][j - 1];
          }
        }
        if i: nat :| DecidedAt(lt, a, b, i) && i > 0 {
          assert DecidedAt(lt, a[1..], b[1..], i - 1);
        }
      }
    }
  }

  predicate IntLt(a: int, b: int) { a < b }

  predicate CharLt(a: char, b: char) { a < b }

  /** The order of strings: by code point, which is also the order of their UTF-8 bytes. */
  predicate StringLt(a: string, b: string) { LexLt(CharLt, a, b) }

  /** Strings compare at the first character in which they differ. */
  lemma StringLtDecides(a: string, b: string)
    ensures StringLt(a, b) <==>
            exists i: nat :: i <= |a| && i < |b| && a[..i] == b[..i] && (i == |a| || a[i] < b[i])
  {
    LexLtDecides(CharLt, a, b);
    if i: nat :| DecidedAt(CharLt, a, b, i) {
      assert a[..i] == b[..i];
    }
    if i: nat :| i <= |a| && i < |b| && a[..i] == b[..i] && (i == |a| || a[i] < b[i]) {
      assert forall j :: 0 <= j < i ==> a[j] == a[..i][j] && b[j] == b[..i][j];
      assert DecidedAt(CharLt, a, b, i);
    }
  }

  lemma StringLtTotal()
    ensures StrictTotal(StringLt)
  {
    assert StrictTotal(CharLt);
    forall a: string ensures !StringLt(a, a) { LexIrreflexive(CharLt, a); }
    forall a, b, c | StringLt(a, b) && StringLt(b, c) ensures StringLt(a, c) {
      LexTransitive(CharLt, a, b, c);
    }
    forall a, b ensures a == b || StringLt(a, b) || StringLt(b, a) { LexTotal(CharLt, a, b); }
  }

  /** Strings in ascending order. */
  function SortedStrings(strings: set<string>): (r: seq<string>)
    ensures |r| == |strings| && forall x :: x in r <==> x in strings
  {
    StringLtTotal();
    Enumerate(StringLt, strings)
  }

  lemma SortedStringsAscend(strings: set<string>)
    ensures Ascending(StringLt, SortedStrings(strings)) && Lists(SortedStrings(strings), strings)
  {
    StringLtTotal();
    EnumerateAscends(StringLt, strings);
    AscendingDistinct(StringLt, SortedStrings(strings));
  }

  // ----- Sorting integers -----

  ghost predicate Sorted(s: seq<int>) { forall i, j :: 0 <= i < j < |s| ==> s[i] <= s[j] }

  function Insert(s: seq<int>, x: int): seq<int> {
    if s == [] || x <= s[0] then [x] + s else [s[0]] + Insert(s[1..], x)
  }

  function SortInts(s: seq<int>): seq<int> {
    if s == [] then [] else Insert(SortInts(s[..|s| - 1]), s[|s| - 1])
  }

  lemma {:induction false} InsertMultiset(s: seq<int>, x: int)
    ensures multiset(Insert(s, x)) == multiset(s) + multiset{x}
  {
    if s != [] && x > s[0] {
      InsertMultiset(s[1..], x);
      TailMultiset(s);
    }
  }

  lemma TailMultiset(s: seq<int>)
    requires s != []
    ensures multiset(s) == multiset{s[0]} + multiset(s[1..])
  {
    assert s == [s[0]] + s[1..];
  }

  lemma {:induction false} InsertSorted(s: seq<int>, x: int)
    requires Sorted(s)
    ensures Sorted(Insert(s, x)) && Insert(s, x) != []
    ensures Insert(s, x)[0] == if s == [] || x <= s[0] then x else s[0]
  {
    if s != [] && x > s[0] {
      InsertSorted(s[1..], x);
    }
  }

  lemma {:induction false} SortIntsFacts(s: seq<int>)
    ensures Sorted(SortInts(s)) && multiset(SortInts(s)) == multiset(s)
  {
    if s != [] {
      SortIntsFacts(s[..|s| - 1]);
      InsertSorted(SortInts(s[..|s| - 1]), s[|s| - 1]);
      InsertMultiset(SortInts(s[..|s| - 1]), s[|s| - 1]);
      FrontLast(s);
    }
  }

  lemma {:induction false} SortedUnique(a: seq<int>, b: seq<int>)
    requires Sorted(a) && Sorted(b) && multiset(a) == multiset(b)
    ensures a == b
  {
    if a == [] || b == [] {
      assert |a| == |multiset(a)| == |multiset(b)| == |b|;
    } else {
      LeastFirst(a, b);
      LeastFirst(b, a);
      TailsAgree(a, b);
      SortedUnique(a[1..], b[1..]);
      HeadTail(a);
      HeadTail(b);
    }
  }

  lemma TailsAgree(a: seq<int>, b: seq<int>)
    requires a != [] && b != [] && a[0] == b[0] && multiset(a) == multiset(b)
    ensures multiset(a[1..]) == multiset(b[1..])
  {
    TailMultiset(a);
    TailMultiset(b);
    assert multiset(a[1..]) == multiset(a) - multiset{a[0]};
    assert multiset(b[1..]) == multiset(b) - multiset{b[0]};
  }

  lemma HeadTail<T>(s: seq<T>)
    requires s != []
    ensures s == [s[0]] + s[1..]
  {
  }

  lemma LeastFirst(a: seq<int>, b: seq<int>)
    requires a != [] && b != [] && Sorted(a) && multiset(a) == multiset(b)
    ensures a[0] <= b[0]
  {
    assert b[0] in multiset(b);
    assert b[0] in multiset(a);
    var i :| 0 <= i < |a| && a[i] == b[0];
  }

  /** Sorting forgets the order it was given. */
  lemma SortIgnoresOrder(s: seq<int>, t: seq<int>)
    requires multiset(s) == multiset(t)
    ensures SortInts(s) == SortInts(t)
  {
    SortIntsFacts(s);
    SortIntsFacts(t);
    SortedUnique(SortInts(s), SortInts(t));
  }
}
