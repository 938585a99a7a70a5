/** Folds over sequences and the facts that make them independent of the order of
    their elements. */
module Sequences {

  function Map<A, B>(f: A -> B, s: seq<A>): (r: seq<B>)
    ensures |r| == |s| && forall i :: 0 <= i < |s| ==> r[i] == f(s[i])
  {
    seq(|s|, i requires 0 <= i < |s| => f(s[i]))
  }

  function Filter<T(!new)>(keep: T -> bool, s: seq<T>): (r: seq<T>)
    ensures forall x :: x in r <==> x in s && keep(x)
  {
    if s == [] then []
    else if keep(s[|s| - 1]) then Filter(keep, s[..|s| - 1]) + [s[|s| - 1]]
    else Filter(keep, s[..|s| - 1])
  }

  function SumBy<T>(weight: T -> int, s: seq<T>): int {
    if s == [] then 0 else SumBy(weight, s[..|s| - 1]) + weight(s[|s| - 1])
  }

  function Flatten<T>(parts: seq<seq<T>>): seq<T> {
    if parts == [] then [] else Flatten(parts[..|parts| - 1]) + parts[|parts| - 1]
  }

  lemma {:induction false} FilterAppend<T(!new)>(keep: T -> bool, s: seq<T>, t: seq<T>)
    ensures Filter(keep, s + t) == Filter(keep, s) + Filter(keep, t)
  {
    if t == [] {
      assert s + t == s;
    } else {
      var front, last := t[..|t| - 1], t[|t| - 1];
      FilterAppend(keep, s, front);
      AppendLast(s, t);
      FilterPush(keep, s + front, last);
      FilterPush(keep, front, last);
      AppendAssociates(Filter(keep, s), Filter(keep, front), [last]);
    }
  }

  lemma AppendAssociates<T>(a: seq<T>, b: seq<T>, c: seq<T>)
    ensures (a + b) + c == a + (b + c)
  {
  }

  lemma {:induction false} SumByAppend<T>(weight: T -> int, s: seq<T>, t: seq<T>)
    ensures SumBy(weight, s + t) == SumBy(weight, s) + SumBy(weight, t)
  {
    if t == [] {
      assert s + t == s;
    } else {
      var front, last := t[..|t| - 1], t[|t| - 1];
      SumByAppend(weight, s, front);
      AppendLast(s, t);
      SumByPush(weight, s + front, last);
      SumByPush(weight, front, last);
    }
  }

  lemma {:induction false} FlattenAppend<T>(s: seq<seq<T>>, t: seq<seq<T>>)
    ensures Flatten(s + t) == Flatten(s) + Flatten(t)
  {
    if t == [] {
      assert s + t == s;
    } else {
      FlattenAppend(s, t[..|t| - 1]);
      assert (s + t)[..|s + t| - 1] == s + t[..|t| - 1];
    }
  }

  lemma AppendLast<T>(s: seq<T>, t: seq<T>)
    requires t != []
    ensures s + t == (s + t[..|t| - 1]) + [t[|t| - 1]] && t == t[..|t| - 1] + [t[|t| - 1]]
  {
  }

  lemma {:induction false} FilterShrinks<T(!new)>(keep: T -> bool, s: seq<T>)
    ensures |Filter(keep, s)| <= |s|
  {
    if s != [] {
      FilterShrinks(keep, s[..|s| - 1]);
    }
  }

  lemma SumByPush<T>(weight: T -> int, s: seq<T>, x: T)
    ensures SumBy(weight, s + [x]) == SumBy(weight, s) + weight(x)
  {
    assert (s + [x])[..|s|] == s;
  }

  lemma FilterPush<T(!new)>(keep: T -> bool, s: seq<T>, x: T)
    ensures Filter(keep, s + [x]) == if keep(x) then Filter(keep, s) + [x] else Filter(keep, s)
  {
    assert (s + [x])[..|s|] == s;
  }

  /** One more element of a prefix. */
  lemma TakeStep<T>(s: seq<T>, i: nat)
    requires i < |s|
    ensures s[..i + 1] == s[..i] + [s[i]] && s[..i + 1][..i] == s[..i]
  {
  }

  lemma FrontLast<T>(s: seq<T>)
    requires s != []
    ensures s == s[..|s| - 1] + [s[|s| - 1]]
  {
  }

  lemma TakeAll<T>(s: seq<T>)
    ensures s[..|s|] == s
  {
  }

  /** Removing one element from the middle of a sequence. */
  function Without<T>(s: seq<T>, i: nat): seq<T>
    requires i < |s|
  {
    s[..i] + s[i + 1..]
  }

  lemma SplitMiddle<T>(s: seq<T>, i: nat)
    requires i < |s|
    ensures s == (s[..i] + [s[i]]) + s[i + 1..]
  {
  }

  lemma WithoutMultiset<T>(s: seq<T>, i: nat)
    requires i < |s|
    ensures multiset(s) == multiset(Without(s, i)) + multiset{s[i]}
  {
    SplitMiddle(s, i);
  }

  lemma SumByWithout<T>(weight: T -> int, s: seq<T>, i: nat)
    requires i < |s|
    ensures SumBy(weight, s) == SumBy(weight, Without(s, i)) + weight(s[i])
  {
    SumByAppend(weight, s[..i], s[i + 1..]);
    SplitMiddle(s, i);
    SumByAppend(weight, s[..i] + [s[i]], s[i + 1..]);
    SumByPush(weight, s[..i], s[i]);
  }

  lemma WithoutSame<T>(s: seq<T>, t: seq<T>, i: nat)
    requires s != [] && i < |t| && t[i] == s[|s| - 1] && multiset(s) == multiset(t)
    ensures multiset(s[..|s| - 1]) == multiset(Without(t, i))
  {
    WithoutMultiset(t, i);
    FrontLast(s);
    assert multiset(s[..|s| - 1]) == multiset(s) - multiset{s[|s| - 1]};
  }

  lemma {:induction false} SumByPermutation<T>(weight: T -> int, s: seq<T>, t: seq<T>)
    requires multiset(s) == multiset(t)
    ensures SumBy(weight, s) == SumBy(weight, t)
  {
    if s == [] {
      assert |multiset(t)| == 0;
    } else {
      var front, last := s[..|s| - 1], s[|s| - 1];
      FrontLast(s);
      assert last in multiset(s);
      assert last in multiset(t);
      var i :| 0 <= i < |t| && t[i] == last;
      WithoutSame(s, t, i);
      SumByPermutation(weight, front, Without(t, i));
      SumByWithout(weight, t, i);
    }
  }

  lemma {:induction false} SumByAgrees<T>(f: T -> int, g: T -> int, s: seq<T>)
    requires forall x :: x in s ==> f(x) == g(x)
    ensures SumBy(f, s) == SumBy(g, s)
  {
    if s != [] {
      SumByAgrees(f, g, s[..|s| - 1]);
    }
  }

  lemma {:induction false} SumByZip<A, B>(f: A -> int, g: B -> int, s: seq<A>, t: seq<B>)
    requires |s| == |t| && forall i :: 0 <= i < |s| ==> f(s[i]) == g(t[i])
    ensures SumBy(f, s) == SumBy(g, t)
  {
    if s != [] {
      SumByZip(f, g, s[..|s| - 1], t[..|t| - 1]);
    }
  }

  /** How often a value survives a filter. */
  lemma {:induction false} FilterMultiset<T(!new)>(keep: T -> bool, s: seq<T>, x: T)
    ensures multiset(Filter(keep, s))[x] == if keep(x) then multiset(s)[x] else 0
  {
    if s != [] {
      FilterMultiset(keep, s[..|s| - 1], x);
      assert s == s[..|s| - 1] + [s[|s| - 1]];
    }
  }

  lemma {:induction false} FilterPermutation<T(!new)>(keep: T -> bool, s: seq<T>, t: seq<T>)
    requires multiset(s) == multiset(t)
    ensures multiset(Filter(keep, s)) == multiset(Filter(keep, t))
  {
    forall x: T
      ensures multiset(Filter(keep, s))[x] == multiset(Filter(keep, t))[x]
    {
      FilterMultiset(keep, s, x);
      FilterMultiset(keep, t, x);
    }
  }
}
