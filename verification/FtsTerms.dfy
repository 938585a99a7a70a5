/** The budgeted full-text query: which title and alias phrases make it in. */
module FtsTerms {
  import opened Sequences
  import opened Text

  const MAX_FTS_QUERY_CHARS: nat := 256

  const SEPARATOR := " OR "

  function Quote(term: string): string { "\"" + term + "\"" }

  /** The query that the terms spell, before quotes inside them are escaped. */
  ghost function QueryText(terms: seq<string>): string { Join(Map(Quote, terms), SEPARATOR) }

  ghost function Phrases(title: string, aliases: seq<string>): seq<string> { Map(Trim, [title] + aliases) }

  /** The phrases of at least three characters, each at its first occurrence. */
  ghost function Eligible(phrases: seq<string>): seq<string> {
    if phrases == [] then []
    else
      var earlier, last := Eligible(phrases[..|phrases| - 1]), phrases[|phrases| - 1];
      if |last| < 3 || last in earlier then earlier else earlier + [last]
  }

  /** The terms are the longest prefix of the eligible list whose query fits the budget. */
  ghost predicate LongestFit(eligible: seq<string>, terms: seq<string>) {
    && terms <= eligible
    && |QueryText(terms)| <= MAX_FTS_QUERY_CHARS
    && forall m :: |terms| < m <= |eligible| ==> |QueryText(eligible[..m])| > MAX_FTS_QUERY_CHARS
  }

  lemma {:induction false} JoinPushLength(parts: seq<string>, sep: string, part: string)
    ensures |Join(parts + [part], sep)| == |Join(parts, sep)| + |part| + if parts == [] then 0 else |sep|
  {
    if |parts| >= 1 {
      JoinPushLength(parts[1..], sep, part);
      assert (parts + [part])[1..] == parts[1..] + [part];
    }
  }

  lemma QueryPush(terms: seq<string>, term: string)
    ensures |QueryText(terms + [term])| == |QueryText(terms)| + |term| + 2 + if terms == [] then 0 else 4
  {
    assert Map(Quote, terms + [term]) == Map(Quote, terms) + [Quote(term)];
    JoinPushLength(Map(Quote, terms), SEPARATOR, Quote(term));
  }

  lemma {:induction false} QueryGrows(terms: seq<string>, m: nat, n: nat)
    requires m <= n <= |terms|
    ensures |QueryText(terms[..m])| <= |QueryText(terms[..n])|
  {
    if m < n {
      QueryGrows(terms, m, n - 1);
      TakeStep(terms, n - 1);
      QueryPush(terms[..n - 1], terms[n - 1]);
    }
  }

  lemma {:induction false} EligiblePrefix(phrases: seq<string>, n: nat)
    requires n <= |phrases|
    ensures Eligible(phrases[..n]) <= Eligible(phrases)
    decreases |phrases|
  {
    if n == |phrases| {
      TakeAll(phrases);
    } else {
      var front := phrases[..|phrases| - 1];
      EligiblePrefix(front, n);
      assert front[..n] == phrases[..n];
    }
  }

  /** Where a phrase occurs first. */
  ghost function FirstAt(phrases: seq<string>, x: string): (i: nat)
    requires x in phrases
    ensures i < |phrases| && phrases[i] == x && x !in phrases[..i]
    decreases |phrases|
  {
    var front := phrases[..|phrases| - 1];
    if x in front then
      assert front[..FirstAt(front, x)] == phrases[..FirstAt(front, x)];
      FirstAt(front, x)
    else
      FrontLast(phrases);
      |phrases| - 1
  }

  /** The eligible list holds each phrase of three or more characters exactly once, in the
      order of first occurrence. */
  lemma {:induction false} EligibleFacts(phrases: seq<string>)
    ensures forall x :: x in Eligible(phrases) <==> x in phrases && |x| >= 3
    ensures forall i, j :: 0 <= i < j < |Eligible(phrases)| ==>
              FirstAt(phrases, Eligible(phrases)[i]) < FirstAt(phrases, Eligible(phrases)[j])
  {
    if phrases != [] {
      var front := phrases[..|phrases| - 1];
      EligibleFacts(front);
      FrontLast(phrases);
      assert forall x :: x in front ==> FirstAt(phrases, x) == FirstAt(front, x) < |front|;
    }
  }

  /** The phrases are the trimmed title and, after it, the trimmed aliases in their order. */
  lemma PhrasesAre(title: string, aliases: seq<string>)
    ensures |Phrases(title, aliases)| == |aliases| + 1 && Phrases(title, aliases)[0] == Trim(title)
    ensures forall i :: 0 <= i < |aliases| ==> Phrases(title, aliases)[i + 1] == Trim(aliases[i])
  {
  }

  lemma TitleIsFirst(title: string, aliases: seq<string>)
    requires |Trim(title)| >= 3
    ensures Eligible(Phrases(title, aliases)) != [] && Eligible(Phrases(title, aliases))[0] == Trim(title)
  {
    var phrases := Phrases(title, aliases);
    EligiblePrefix(phrases, 1);
    FirstIsEligible(phrases[..1]);
  }

  lemma PhraseIs(title: string, aliases: seq<string>, x: string)
    ensures x in Phrases(title, aliases) <==> x == Trim(title) || exists a :: a in aliases && Trim(a) == x
  {
    var phrases := Phrases(title, aliases);
    PhrasesAre(title, aliases);
    if x in phrases {
      var i :| 0 <= i < |phrases| && phrases[i] == x;
      if i > 0 {
        assert aliases[i - 1] in aliases;
      }
    }
    if a :| a in aliases && Trim(a) == x {
      var i :| 0 <= i < |aliases| && aliases[i] == a;
      assert phrases[i + 1] == x;
    }
  }

  /** The title, if long enough, is the first eligible phrase; every alias that is long enough
      is eligible; nothing else is. */
  lemma TitleAndAliasesAreEligible(title: string, aliases: seq<string>)
    ensures var eligible := Eligible(Phrases(title, aliases));
            && (|Trim(title)| >= 3 ==> eligible != [] && eligible[0] == Trim(title))
            && (forall a :: a in aliases && |Trim(a)| >= 3 ==> Trim(a) in eligible)
            && (forall x :: x in eligible ==> |x| >= 3 && (x == Trim(title) || exists a :: a in aliases && Trim(a) == x))
  {
    EligibleFacts(Phrases(title, aliases));
    forall x ensures x in Phrases(title, aliases) <==> x == Trim(title) || exists a :: a in aliases && Trim(a) == x {
      PhraseIs(title, aliases, x);
    }
    if |Trim(title)| >= 3 {
      TitleIsFirst(title, aliases);
    }
  }

  lemma FirstIsEligible(one: seq<string>)
    requires |one| == 1 && |one[0]| >= 3
    ensures Eligible(one) == one
  {
    assert Eligible(one[..0]) == [];
  }

  function Length(s: string): int { |s| }

  /** Two quotes for every term, and four characters between two terms. */
  lemma {:induction false} QueryLength(terms: seq<string>)
    ensures |QueryText(terms)| == SumBy(Length, terms) + 6 * |terms| - if terms == [] then 0 else 4
  {
    if terms != [] {
      QueryLength(terms[..|terms| - 1]);
      FrontLast(terms);
      QueryPush(terms[..|terms| - 1], terms[|terms| - 1]);
    }
  }

  /** The terms take at most 256 characters, and one more eligible phrase would take more. */
  lemma BudgetIsUsed(eligible: seq<string>, terms: seq<string>)
    requires LongestFit(eligible, terms)
    ensures terms <= eligible
    ensures terms != [] ==> SumBy(Length, terms) + 6 * |terms| - 4 <= 256
    ensures terms != eligible ==> SumBy(Length, eligible[..|terms| + 1]) + 6 * (|terms| + 1) - 4 > 256
  {
    QueryLength(terms);
    if terms != eligible {
      assert |terms| < |eligible|;
      QueryLength(eligible[..|terms| + 1]);
    }
  }

  method FtsQueryTerms(title: string, aliases: seq<string>) returns (terms: seq<string>)
    ensures LongestFit(Eligible(Phrases(title, aliases)), terms)
  {
    ghost var phrases := Phrases(title, aliases);
    // Empty phrases need no dropping of their own: they are too short.
    var candidates := Map(Trim, [title] + aliases);
    terms := [];
    var used := 0;
    for i := 0 to |candidates|
      invariant terms == Eligible(phrases[..i])
      invariant used == |QueryText(terms)| <= MAX_FTS_QUERY_CHARS
    {
      var raw := candidates[i];
      TakeStep(phrases, i);
      if |raw| < 3 {
        continue;
      }
      if raw in terms {
        continue;
      }
      var cost := |raw| + 2;
      var separator := if terms == [] then 0 else 4;
      QueryPush(terms, raw);
      if used + separator + cost > MAX_FTS_QUERY_CHARS {
        EligiblePrefix(phrases, i + 1);
        Overflow(Eligible(phrases), terms, raw);
        return;
      }
      used := used + separator + cost;
      terms := terms + [raw];
    }
    TakeAll(phrases);
  }

  lemma Overflow(eligible: seq<string>, terms: seq<string>, raw: string)
    requires terms + [raw] <= eligible && |QueryText(terms)| <= MAX_FTS_QUERY_CHARS
    requires |QueryText(terms + [raw])| > MAX_FTS_QUERY_CHARS
    ensures LongestFit(eligible, terms)
  {
    var n := |terms| + 1;
    assert eligible[..n] == terms + [raw];
    assert terms == (terms + [raw])[..|terms|] == eligible[..|terms|];
    forall m | |terms| < m <= |eligible| ensures |QueryText(eligible[..m])| > MAX_FTS_QUERY_CHARS {
      QueryGrows(eligible, n, m);
    }
  }

  /** More aliases only extend the term list. */
  lemma MoreAliasesExtend(title: string, aliases: seq<string>, more: seq<string>, terms: seq<string>, extended: seq<string>)
    requires LongestFit(Eligible(Phrases(title, aliases)), terms)
    requires LongestFit(Eligible(Phrases(title, aliases + more)), extended)
    ensures terms <= extended
  {
    var few, all := Phrases(title, aliases), Phrases(title, aliases + more);
    assert few == all[..|few|];
    EligiblePrefix(all, |few|);
    var eligible := Eligible(all);
    assert terms == eligible[..|terms|] && extended == eligible[..|extended|];
    assert |QueryText(eligible[..|terms|])| <= MAX_FTS_QUERY_CHARS;
    assert |terms| <= |extended|;
    assert terms == extended[..|terms|];
  }
}
