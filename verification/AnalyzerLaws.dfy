/** The laws of the feedback analysis: when it succeeds, that it ignores order, that
    windows merge, that nothing is lost or counted twice, and when a page is listed. */
module AnalyzerLaws {
  import opened Wrappers
  import opened Sequences
  import opened Orders
  import opened Grouping
  import opened Analyzer
  import opened Reals

  // ----- Success -----

  lemma {:induction false} FirstUnmatchedFinds(matcher: Matcher, logs: seq<QueryLog>)
    ensures FirstUnmatched(matcher, logs).Some? <==> exists l :: l in logs && Unmatched(matcher, l)
  {
    if logs != [] {
      FirstUnmatchedFinds(matcher, logs[..|logs| - 1]);
      FrontLast(logs);
    }
  }

  ghost predicate AllMatched(matcher: Matcher, logs: seq<QueryLog>) {
    forall l :: l in logs ==> !Unmatched(matcher, l)
  }

  lemma AllMatchedIff(matcher: Matcher, logs: seq<QueryLog>)
    ensures AllMatched(matcher, logs) <==> FirstUnmatched(matcher, logs).None?
  {
    FirstUnmatchedFinds(matcher, logs);
  }

  /** The analysis fails on its inputs only: no minimum, an empty range, a qualifying log
      without a key, or a class over its cap. */
  lemma SucceedsIff(w: Window, minEvents: nat, matcher: Matcher)
    ensures Analysis(w, minEvents, matcher).Success? <==>
            && minEvents > 0 && w.from <= w.to && AllMatched(matcher, w.logs)
            && |QueryAggs(ZeroRecall, matcher, w.logs)| <= MAX_ITEMS_PER_CLASS
            && |QueryAggs(RewriteFailure, matcher, w.logs)| <= MAX_ITEMS_PER_CLASS
            && |LowQualityKeys(PageAggs(w.events), minEvents)| <= MAX_ITEMS_PER_CLASS
    ensures Analysis(w, minEvents, matcher).Success? ==>
              Analysis(w, minEvents, matcher).value == ReportOf(w, minEvents, matcher)
  {
    AllMatchedIff(matcher, w.logs);
    ReportLengths(w, minEvents, matcher);
    CheckedSucceedsIff(w.from, w.to, minEvents, FirstUnmatched(matcher, w.logs), ReportOf(w, minEvents, matcher));
  }

  lemma CheckedSucceedsIff(from: int, to: int, minEvents: nat, unmatched: Option<int>, r: Report)
    ensures Checked(from, to, minEvents, unmatched, r).Success? <==>
            && minEvents > 0 && from <= to && unmatched.None?
            && |r.zeroRecall| <= MAX_ITEMS_PER_CLASS && |r.rewriteFailures| <= MAX_ITEMS_PER_CLASS
            && |r.lowQuality| <= MAX_ITEMS_PER_CLASS
    ensures Checked(from, to, minEvents, unmatched, r).Success? ==> Checked(from, to, minEvents, unmatched, r).value == r
  {
  }

  lemma ReportLengths(w: Window, minEvents: nat, matcher: Matcher)
    ensures var r := ReportOf(w, minEvents, matcher);
            && |r.zeroRecall| == |QueryAggs(ZeroRecall, matcher, w.logs)|
            && |r.rewriteFailures| == |QueryAggs(RewriteFailure, matcher, w.logs)|
            && |r.lowQuality| == |LowQualityKeys(PageAggs(w.events), minEvents)|
  {
  }

  // ----- Order -----

  lemma QueryAggsIgnoreOrder(signal: Signal, matcher: Matcher, a: seq<QueryLog>, b: seq<QueryLog>, k: string)
    requires multiset(a) == multiset(b)
    ensures var x, y := QueryAggs(signal, matcher, a), QueryAggs(signal, matcher, b);
            x.Keys == y.Keys && (k in x ==> BlindSpotOf(k, x[k]) == BlindSpotOf(k, y[k]))
  {
    var key := QueryKey(signal, matcher);
    GroupsIgnoreOrder(key, a, b, k);
    var g, h := Members(key, a, k), Members(key, b, k);
    SumByPermutation(LatencyOf, g, h);
    MapIgnoresOrder(LogIdOf, g, h);
    SortIgnoresOrder(Map(LogIdOf, g), Map(LogIdOf, h));
  }

  lemma BlindSpotsIgnoreOrder(signal: Signal, matcher: Matcher, a: seq<QueryLog>, b: seq<QueryLog>)
    requires multiset(a) == multiset(b)
    ensures BlindSpots(QueryAggs(signal, matcher, a)) == BlindSpots(QueryAggs(signal, matcher, b))
  {
    var x, y := QueryAggs(signal, matcher, a), QueryAggs(signal, matcher, b);
    QueryAggsIgnoreOrder(signal, matcher, a, b, "");
    forall k | k in x ensures BlindSpotOf(k, x[k]) == BlindSpotOf(k, y[k]) {
      QueryAggsIgnoreOrder(signal, matcher, a, b, k);
    }
    ItemsAgree(x, y, SortedStrings(x.Keys));
  }

  lemma ItemsAgree(x: map<string, QueryAgg>, y: map<string, QueryAgg>, keys: seq<string>)
    requires forall k :: k in keys ==> k in x && k in y && BlindSpotOf(k, x[k]) == BlindSpotOf(k, y[k])
    ensures ItemsOf(x, keys) == ItemsOf(y, keys)
  {
  }

  lemma PageAggsIgnoreOrder(a: seq<Event>, b: seq<Event>)
    requires multiset(a) == multiset(b)
    ensures PageAggs(a) == PageAggs(b)
  {
    GroupsIgnoreOrder(PageOf, a, b, "");
    forall p | p in KeySet(PageOf, a)
      ensures PageAggOf(Members(PageOf, a, p)) == PageAggOf(Members(PageOf, b, p))
    {
      GroupsIgnoreOrder(PageOf, a, b, p);
      PageAggIgnoresOrder(Members(PageOf, a, p), Members(PageOf, b, p));
    }
  }

  lemma PageAggIgnoresOrder(g: seq<Event>, h: seq<Event>)
    requires multiset(g) == multiset(h)
    ensures PageAggOf(g) == PageAggOf(h)
  {
    FilterPermutation(Scores, g, h);
    assert |multiset(g)| == |multiset(h)| && |multiset(Filter(Scores, g))| == |multiset(Filter(Scores, h))|;
    assert forall e :: e in g <==> e in multiset(g);
    assert forall e :: e in h <==> e in multiset(h);
  }

  lemma UnmatchedIgnoresOrder(matcher: Matcher, a: seq<QueryLog>, b: seq<QueryLog>)
    requires multiset(a) == multiset(b)
    ensures FirstUnmatched(matcher, a).Some? <==> FirstUnmatched(matcher, b).Some?
  {
    FirstUnmatchedFinds(matcher, a);
    FirstUnmatchedFinds(matcher, b);
    assert forall l :: l in a <==> l in multiset(a);
    assert forall l :: l in b <==> l in multiset(b);
  }

  lemma ReportIgnoresOrder(w: Window, v: Window, minEvents: nat, matcher: Matcher)
    requires v == w.(logs := v.logs, events := v.events)
    requires multiset(w.logs) == multiset(v.logs) && multiset(w.events) == multiset(v.events)
    ensures ReportOf(w, minEvents, matcher) == ReportOf(v, minEvents, matcher)
  {
    BlindSpotsIgnoreOrder(ZeroRecall, matcher, w.logs, v.logs);
    BlindSpotsIgnoreOrder(RewriteFailure, matcher, w.logs, v.logs);
    PageAggsIgnoreOrder(w.events, v.events);
    assert |w.logs| == |multiset(w.logs)| == |v.logs|;
    assert |w.events| == |multiset(w.events)| == |v.events|;
  }

  /** Reordering the logs and the events of a window changes neither whether the analysis
      succeeds nor any field of a successful report. */
  lemma OrderIsIrrelevant(w: Window, v: Window, minEvents: nat, matcher: Matcher)
    requires v == w.(logs := v.logs, events := v.events)
    requires multiset(w.logs) == multiset(v.logs) && multiset(w.events) == multiset(v.events)
    ensures Analysis(w, minEvents, matcher).Success? <==> Analysis(v, minEvents, matcher).Success?
    ensures Analysis(w, minEvents, matcher).Success? ==> Analysis(w, minEvents, matcher) == Analysis(v, minEvents, matcher)
  {
    UnmatchedIgnoresOrder(matcher, w.logs, v.logs);
    ReportIgnoresOrder(w, v, minEvents, matcher);
    CheckedAgree(w.from, w.to, minEvents, FirstUnmatched(matcher, w.logs), FirstUnmatched(matcher, v.logs),
                 ReportOf(w, minEvents, matcher));
  }

  lemma CheckedAgree(from: int, to: int, minEvents: nat, a: Option<int>, b: Option<int>, r: Report)
    requires a.Some? <==> b.Some?
    ensures Checked(from, to, minEvents, a, r).Success? <==> Checked(from, to, minEvents, b, r).Success?
    ensures a.None? ==> Checked(from, to, minEvents, a, r) == Checked(from, to, minEvents, b, r)
    ensures Checked(from, to, minEvents, a, r).Success? ==> a.None?
  {
  }

  // ----- Merging windows -----

  function CombineQueries(p: QueryAgg, q: QueryAgg): QueryAgg {
    QueryAgg(p.logIds + q.logIds, p.latencySum + q.latencySum)
  }

  function CombinePages(p: PageAgg, q: PageAgg): PageAgg {
    PageAgg(p.feedbackCount + q.feedbackCount, p.adoptedCount + q.adoptedCount, p.logIds + q.logIds)
  }

  ghost function MergeQueries(x: map<string, QueryAgg>, y: map<string, QueryAgg>): map<string, QueryAgg> {
    map k | k in x.Keys + y.Keys :: CombineQueries(AggAt(x, k), AggAt(y, k))
  }

  ghost function MergePages(x: map<string, PageAgg>, y: map<string, PageAgg>): map<string, PageAgg> {
    map k | k in x.Keys + y.Keys :: CombinePages(PageAt(x, k), PageAt(y, k))
  }

  lemma AggAtIsGroup(signal: Signal, matcher: Matcher, logs: seq<QueryLog>, k: string)
    ensures AggAt(QueryAggs(signal, matcher, logs), k) == QueryAggOf(Members(QueryKey(signal, matcher), logs, k))
  {
    NoMembers(QueryKey(signal, matcher), logs, k);
    assert QueryAggOf([]) == QueryAgg([], 0);
  }

  lemma PageAtIsGroup(events: seq<Event>, p: string)
    ensures PageAt(PageAggs(events), p) == PageAggOf(Members(PageOf, events, p))
  {
    NoMembers(PageOf, events, p);
    assert PageAggOf([]) == PageAgg(0, 0, {});
  }

  lemma AggOfAppend(g: seq<QueryLog>, h: seq<QueryLog>)
    ensures QueryAggOf(g + h) == CombineQueries(QueryAggOf(g), QueryAggOf(h))
  {
    SumByAppend(LatencyOf, g, h);
    assert Map(LogIdOf, g + h) == Map(LogIdOf, g) + Map(LogIdOf, h);
  }

  lemma PageAggOfAppend(g: seq<Event>, h: seq<Event>)
    ensures PageAggOf(g + h) == CombinePages(PageAggOf(g), PageAggOf(h))
  {
    FilterAppend(Scores, g, h);
    assert forall e :: e in g + h <==> e in g || e in h;
  }

  lemma AggsMergeAt(signal: Signal, matcher: Matcher, a: seq<QueryLog>, b: seq<QueryLog>, k: string)
    ensures AggAt(QueryAggs(signal, matcher, a + b), k)
            == CombineQueries(AggAt(QueryAggs(signal, matcher, a), k), AggAt(QueryAggs(signal, matcher, b), k))
  {
    var key := QueryKey(signal, matcher);
    FilterAppend(HasKey(key, k), a, b);
    AggOfAppend(Members(key, a, k), Members(key, b, k));
    AggAtIsGroup(signal, matcher, a, k);
    AggAtIsGroup(signal, matcher, b, k);
    AggAtIsGroup(signal, matcher, a + b, k);
  }

  lemma PagesMergeAt(a: seq<Event>, b: seq<Event>, p: string)
    ensures PageAt(PageAggs(a + b), p) == CombinePages(PageAt(PageAggs(a), p), PageAt(PageAggs(b), p))
  {
    FilterAppend(HasKey(PageOf, p), a, b);
    PageAggOfAppend(Members(PageOf, a, p), Members(PageOf, b, p));
    PageAtIsGroup(a, p);
    PageAtIsGroup(b, p);
    PageAtIsGroup(a + b, p);
  }

  lemma MapsEqual<K, V>(a: map<K, V>, b: map<K, V>)
    requires a.Keys == b.Keys && forall k :: k in a.Keys ==> a[k] == b[k]
    ensures a == b
  {
  }

  /** The aggregates of two windows put together are the merge of theirs, key by key. */
  lemma QueryAggsMerge(signal: Signal, matcher: Matcher, a: seq<QueryLog>, b: seq<QueryLog>)
    ensures QueryAggs(signal, matcher, a + b)
            == MergeQueries(QueryAggs(signal, matcher, a), QueryAggs(signal, matcher, b))
  {
    KeySetAppend(QueryKey(signal, matcher), a, b);
    var x, y, both := QueryAggs(signal, matcher, a), QueryAggs(signal, matcher, b), QueryAggs(signal, matcher, a + b);
    assert both.Keys == x.Keys + y.Keys;
    forall k | k in both ensures both[k] == MergeQueries(x, y)[k] {
      AggsMergeAt(signal, matcher, a, b, k);
    }
    MapsEqual(both, MergeQueries(x, y));
  }

  lemma PageAggsMerge(a: seq<Event>, b: seq<Event>)
    ensures PageAggs(a + b) == MergePages(PageAggs(a), PageAggs(b))
  {
    KeySetAppend(PageOf, a, b);
    var x, y, both := PageAggs(a), PageAggs(b), PageAggs(a + b);
    assert both.Keys == x.Keys + y.Keys;
    forall p | p in both ensures both[p] == MergePages(x, y)[p] {
      PagesMergeAt(a, b, p);
    }
    MapsEqual(both, MergePages(x, y));
  }

  // ----- Conservation -----

  function Occurrences(b: BlindSpot): int { b.occurrences }

  function Mentions(n: int): BlindSpot -> int { (b: BlindSpot) => multiset(b.logIds)[n] }

  function ItemLatency(b: BlindSpot): real { b.occurrences as real * b.avgLatencyMs }

  function TotalLatency(items: seq<BlindSpot>): real {
    if items == [] then 0.0
    else
      var b := items[|items| - 1];
      TotalLatency(items[..|items| - 1]) + ItemLatency(b)
  }

  function Qualifying(signal: Signal): QueryLog -> bool { (l: QueryLog) => Qualifies(signal, l) }

  /** What the item of a key stands for. */
  lemma ItemIs(signal: Signal, matcher: Matcher, logs: seq<QueryLog>, k: string)
    requires k in QueryAggs(signal, matcher, logs)
    ensures var item := BlindSpotOf(k, QueryAggs(signal, matcher, logs)[k]);
            var group := Members(QueryKey(signal, matcher), logs, k);
            && item.occurrences == |group| > 0
            && multiset(item.logIds) == multiset(Map(LogIdOf, group))
            && ItemLatency(item) == SumBy(LatencyOf, group) as real
  {
    NoMembers(QueryKey(signal, matcher), logs, k);
    ItemOfGroup(k, Members(QueryKey(signal, matcher), logs, k));
  }

  lemma ItemOfGroup(k: string, group: seq<QueryLog>)
    requires group != []
    ensures var item := BlindSpotOf(k, QueryAggOf(group));
            && item.occurrences == |group|
            && multiset(item.logIds) == multiset(Map(LogIdOf, group))
            && ItemLatency(item) == SumBy(LatencyOf, group) as real
  {
    SortIntsFacts(Map(LogIdOf, group));
    AverageTimesCount(k, QueryAggOf(group));
  }

  lemma AverageTimesCount(k: string, agg: QueryAgg)
    requires agg.logIds != []
    ensures ItemLatency(BlindSpotOf(k, agg)) == agg.latencySum as real
  {
    QuotientTimes(agg.latencySum as real, |agg.logIds| as real);
  }

  lemma KeyedAreQualifying(signal: Signal, matcher: Matcher, logs: seq<QueryLog>)
    requires signal != LowQuality
    requires AllMatched(matcher, logs)
    ensures Filter(Keyed(QueryKey(signal, matcher)), logs) == Filter(Qualifying(signal), logs)
  {
    FilterAgrees(Keyed(QueryKey(signal, matcher)), Qualifying(signal), logs);
  }

  lemma {:induction false} FilterAgrees<T(!new)>(p: T -> bool, q: T -> bool, s: seq<T>)
    requires forall x :: x in s ==> p(x) == q(x)
    ensures Filter(p, s) == Filter(q, s)
  {
    if s != [] {
      FilterAgrees(p, q, s[..|s| - 1]);
    }
  }

  /** The items of a signal, weighed one by one, weigh what the qualifying logs weigh. */
  lemma ItemsConserve(
    signal: Signal, matcher: Matcher, logs: seq<QueryLog>, keys: seq<string>, weight: QueryLog -> int, of: BlindSpot -> int)
    requires signal != LowQuality && AllMatched(matcher, logs)
    requires Lists(keys, QueryAggs(signal, matcher, logs).Keys)
    requires forall k :: k in keys ==>
               of(BlindSpotOf(k, QueryAggs(signal, matcher, logs)[k]))
               == SumBy(weight, Members(QueryKey(signal, matcher), logs, k))
    ensures SumBy(of, ItemsOf(QueryAggs(signal, matcher, logs), keys)) == SumBy(weight, Filter(Qualifying(signal), logs))
  {
    var key := QueryKey(signal, matcher);
    GroupsConserve(key, weight, logs, keys);
    KeyedAreQualifying(signal, matcher, logs);
    SumByZip(of, GroupWeight(key, weight, logs), ItemsOf(QueryAggs(signal, matcher, logs), keys), keys);
  }

  /** The occurrences of a signal's items add up to the logs that meet its criterion. */
  lemma OccurrencesConserved(signal: Signal, matcher: Matcher, logs: seq<QueryLog>)
    requires signal != LowQuality && AllMatched(matcher, logs)
    ensures SumBy(Occurrences, BlindSpots(QueryAggs(signal, matcher, logs))) == |Filter(Qualifying(signal), logs)|
  {
    var aggs, key := QueryAggs(signal, matcher, logs), QueryKey(signal, matcher);
    SortedStringsAscend(aggs.Keys);
    forall k | k in aggs ensures Occurrences(BlindSpotOf(k, aggs[k])) == SumBy(One, Members(key, logs, k)) {
      ItemIs(signal, matcher, logs, k);
      LengthIsSum(Members(key, logs, k));
    }
    ItemsConserve(signal, matcher, logs, SortedStrings(aggs.Keys), One, Occurrences);
    LengthIsSum(Filter(Qualifying(signal), logs));
  }

  /** Every log id occurs in the items exactly as often as among the qualifying logs. */
  lemma LogIdsConserved(signal: Signal, matcher: Matcher, logs: seq<QueryLog>, n: int)
    requires signal != LowQuality && AllMatched(matcher, logs)
    ensures SumBy(Mentions(n), BlindSpots(QueryAggs(signal, matcher, logs)))
            == multiset(Map(LogIdOf, Filter(Qualifying(signal), logs)))[n]
  {
    var aggs, key, weight := QueryAggs(signal, matcher, logs), QueryKey(signal, matcher), IsImage(LogIdOf, n);
    SortedStringsAscend(aggs.Keys);
    forall k | k in aggs ensures Mentions(n)(BlindSpotOf(k, aggs[k])) == SumBy(weight, Members(key, logs, k)) {
      ItemIs(signal, matcher, logs, k);
      ImageCount(LogIdOf, Members(key, logs, k), n);
    }
    ItemsConserve(signal, matcher, logs, SortedStrings(aggs.Keys), weight, Mentions(n));
    ImageCount(LogIdOf, Filter(Qualifying(signal), logs), n);
  }

  /** Occurrences times average latency adds up to the latency of the qualifying logs. */
  lemma LatencyConserved(signal: Signal, matcher: Matcher, logs: seq<QueryLog>)
    requires signal != LowQuality && AllMatched(matcher, logs)
    ensures TotalLatency(BlindSpots(QueryAggs(signal, matcher, logs)))
            == SumBy(LatencyOf, Filter(Qualifying(signal), logs)) as real
  {
    var aggs, key := QueryAggs(signal, matcher, logs), QueryKey(signal, matcher);
    SortedStringsAscend(aggs.Keys);
    forall k | k in aggs ensures ItemLatency(BlindSpotOf(k, aggs[k])) == GroupWeight(key, LatencyOf, logs)(k) as real {
      ItemIs(signal, matcher, logs, k);
    }
    TotalIsSum(aggs, GroupWeight(key, LatencyOf, logs), SortedStrings(aggs.Keys));
    GroupsConserve(key, LatencyOf, logs, SortedStrings(aggs.Keys));
    KeyedAreQualifying(signal, matcher, logs);
  }

  lemma {:induction false} TotalIsSum(aggs: map<string, QueryAgg>, weight: string -> int, keys: seq<string>)
    requires forall k :: k in keys ==> k in aggs
    requires forall k :: k in keys ==> ItemLatency(BlindSpotOf(k, aggs[k])) == weight(k) as real
    ensures TotalLatency(ItemsOf(aggs, keys)) == SumBy(weight, keys) as real
  {
    if keys != [] {
      var front := keys[..|keys| - 1];
      TotalIsSum(aggs, weight, front);
      assert ItemsOf(aggs, keys)[..|keys| - 1] == ItemsOf(aggs, front);
    }
  }

  ghost predicate DistinctIds(logs: seq<QueryLog>) {
    forall i, j :: 0 <= i < j < |logs| ==> logs[i].logId != logs[j].logId
  }

  /** Log ids being distinct, a qualifying log sits in the item of its key and in no other,
      and a log that does not qualify sits in none. */
  lemma LogSitsInItsItem(signal: Signal, matcher: Matcher, logs: seq<QueryLog>, l: QueryLog, k: string)
    requires DistinctIds(logs) && l in logs && k in QueryAggs(signal, matcher, logs)
    ensures l.logId in BlindSpotOf(k, QueryAggs(signal, matcher, logs)[k]).logIds <==>
            Qualifies(signal, l) && matcher(l.queryText) == Some(k)
  {
    ItemIs(signal, matcher, logs, k);
    var ids := BlindSpotOf(k, QueryAggs(signal, matcher, logs)[k]).logIds;
    var group := Members(QueryKey(signal, matcher), logs, k);
    assert l.logId in ids <==> l.logId in multiset(ids);
    IdInGroup(logs, group, l);
    QueryKeyIs(signal, matcher, l);
  }

  lemma IdInGroup(logs: seq<QueryLog>, group: seq<QueryLog>, l: QueryLog)
    requires DistinctIds(logs) && l in logs && forall x :: x in group ==> x in logs
    ensures l.logId in multiset(Map(LogIdOf, group)) <==> l in group
  {
    if l in group {
      var j :| 0 <= j < |group| && group[j] == l;
      assert Map(LogIdOf, group)[j] == l.logId;
    }
    if l.logId in Map(LogIdOf, group) {
      var j :| 0 <= j < |group| && Map(LogIdOf, group)[j] == l.logId;
      assert group[j] in group;
      assert group[j] == l;
    }
  }

  ghost predicate QueriesAscend(items: seq<BlindSpot>) {
    forall i, j :: 0 <= i < j < |items| ==> StringLt(items[i].normalizedQuery, items[j].normalizedQuery)
  }

  ghost predicate PagesAscend(items: seq<LowQualityPage>) {
    forall i, j :: 0 <= i < j < |items| ==> StringLt(items[i].pageId, items[j].pageId)
  }

  lemma ItemsAscend(aggs: map<string, QueryAgg>, keys: seq<string>)
    requires Ascending(StringLt, keys) && forall k :: k in keys ==> k in aggs
    ensures QueriesAscend(ItemsOf(aggs, keys))
  {
  }

  lemma LowPagesAscend(pages: map<string, PageAgg>, keys: seq<string>)
    requires Ascending(StringLt, keys) && forall k :: k in keys ==> k in pages
    ensures PagesAscend(PagesOf(pages, keys))
  {
  }

  /** Items come in strictly ascending key order, pages in strictly ascending page order. */
  lemma ReportAscends(w: Window, minEvents: nat, matcher: Matcher)
    ensures var r := ReportOf(w, minEvents, matcher);
            QueriesAscend(r.zeroRecall) && QueriesAscend(r.rewriteFailures) && PagesAscend(r.lowQuality)
  {
    var zero, rewrite := QueryAggs(ZeroRecall, matcher, w.logs), QueryAggs(RewriteFailure, matcher, w.logs);
    var pages := PageAggs(w.events);
    assert QueriesAscend(BlindSpots(zero)) by {
      SortedStringsAscend(zero.Keys);
      ItemsAscend(zero, SortedStrings(zero.Keys));
    }
    assert QueriesAscend(BlindSpots(rewrite)) by {
      SortedStringsAscend(rewrite.Keys);
      ItemsAscend(rewrite, SortedStrings(rewrite.Keys));
    }
    assert PagesAscend(LowQualityPages(pages, minEvents)) by {
      SortedStringsAscend(LowQualityKeys(pages, minEvents));
      LowPagesAscend(pages, SortedStrings(LowQualityKeys(pages, minEvents)));
    }
  }

  function ItemsIn(r: Report): nat { |r.zeroRecall| + |r.rewriteFailures| + |r.lowQuality| }

  /** What the suggestion at a position must be: the zero-recall items come first and ask for
      a supplemental compile, then the rewrite failures ask for a query template, then come
      the pages; every item has its suggestion and no other is made. */
  ghost predicate SuggestsFor(r: Report, i: nat, s: Suggestion) {
    var z, w := |r.zeroRecall|, |r.zeroRecall| + |r.rewriteFailures|;
    && (i < z ==> s == QuerySuggestion(SupplementalCompile, ZeroRecall, r.zeroRecall[i]))
    && (z <= i < w ==> s == QuerySuggestion(QueryTemplate, RewriteFailure, r.rewriteFailures[i - z]))
    && (w <= i < ItemsIn(r) ==> s == PageSuggestion(r.lowQuality[i - w]))
  }

  lemma SuggestionsFollowItems(w: Window, minEvents: nat, matcher: Matcher)
    ensures var r := ReportOf(w, minEvents, matcher);
            |r.suggestions| == ItemsIn(r) && forall i :: 0 <= i < ItemsIn(r) ==> SuggestsFor(r, i, r.suggestions[i])
  {
    AssembledSuggestions(w, minEvents, BlindSpots(QueryAggs(ZeroRecall, matcher, w.logs)),
                         BlindSpots(QueryAggs(RewriteFailure, matcher, w.logs)),
                         LowQualityPages(PageAggs(w.events), minEvents));
  }

  lemma AssembledSuggestions(
    w: Window, minEvents: int, zero: seq<BlindSpot>, rewrite: seq<BlindSpot>, low: seq<LowQualityPage>)
    ensures var r := Assemble(w, minEvents, zero, rewrite, low);
            |r.suggestions| == ItemsIn(r) && forall i :: 0 <= i < ItemsIn(r) ==> SuggestsFor(r, i, r.suggestions[i])
  {
  }

  // ----- Low-quality pages -----

  ghost predicate Listed(events: seq<Event>, minEvents: int, page: string) {
    HasPage(LowQualityPages(PageAggs(events), minEvents), page)
  }

  ghost predicate HasPage(items: seq<LowQualityPage>, page: string) {
    exists i :: 0 <= i < |items| && items[i].pageId == page
  }

  function FeedbackOn(events: seq<Event>, page: string): nat { |Members(PageOf, events, page)| }

  function AdoptedOn(events: seq<Event>, page: string): nat { |Filter(Scores, Members(PageOf, events, page))| }

  lemma ListedIsLowQuality(events: seq<Event>, minEvents: int, page: string)
    ensures Listed(events, minEvents, page) <==> page in LowQualityKeys(PageAggs(events), minEvents)
  {
    PagesOfHas(PageAggs(events), SortedStrings(LowQualityKeys(PageAggs(events), minEvents)), page);
  }

  lemma PagesOfHas(pages: map<string, PageAgg>, keys: seq<string>, page: string)
    requires forall p :: p in keys ==> p in pages
    ensures HasPage(PagesOf(pages, keys), page) <==> page in keys
  {
    if page in keys {
      var i :| 0 <= i < |keys| && keys[i] == page;
      assert PagesOf(pages, keys)[i].pageId == page;
    }
  }

  /** A page is listed exactly when it has enough feedback and less than one in five of it
      is an adoption. */
  lemma ListedIff(events: seq<Event>, minEvents: int, page: string)
    ensures Listed(events, minEvents, page) <==>
            FeedbackOn(events, page) >= minEvents && 5 * AdoptedOn(events, page) < FeedbackOn(events, page)
    ensures AdoptedOn(events, page) <= FeedbackOn(events, page)
  {
    ListedIsLowQuality(events, minEvents, page);
    PageAtIsGroup(events, page);
    FilterShrinks(Scores, Members(PageOf, events, page));
  }

  lemma OnPagePush(events: seq<Event>, e: Event, page: string)
    ensures FeedbackOn(events + [e], page) == FeedbackOn(events, page) + if e.pageId == Some(page) then 1 else 0
    ensures AdoptedOn(events + [e], page)
            == AdoptedOn(events, page) + if e.pageId == Some(page) && Scores(e) then 1 else 0
  {
    FilterPush(HasKey(PageOf, page), events, e);
    assert HasKey(PageOf, page)(e) == (PageOf(e) == Some(page));
    FilterPush(Scores, Members(PageOf, events, page), e);
  }

  /** One more event without a scoring effect, wherever it arrives, delists no page. */
  lemma ClickNeverDelists(events: seq<Event>, e: Event, after: seq<Event>, minEvents: int, page: string)
    requires multiset(after) == multiset(events + [e]) && !Scores(e)
    ensures Listed(events, minEvents, page) ==> Listed(after, minEvents, page)
  {
    PageAggsIgnoreOrder(after, events + [e]);
    ListedIff(events, minEvents, page);
    ListedIff(events + [e], minEvents, page);
    OnPagePush(events, e, page);
  }

  /** One more scoring event lists a page only if it is the one that makes the sample large
      enough, and then by the threshold. */
  lemma AdoptionListsOnlyAtTheMinimum(events: seq<Event>, e: Event, after: seq<Event>, minEvents: int, page: string)
    requires multiset(after) == multiset(events + [e]) && Scores(e) && e.pageId == Some(page)
    ensures !Listed(events, minEvents, page) && Listed(after, minEvents, page) <==>
            FeedbackOn(events, page) + 1 == minEvents && 5 * (AdoptedOn(events, page) + 1) < minEvents
  {
    PageAggsIgnoreOrder(after, events + [e]);
    ListedIff(events, minEvents, page);
    ListedIff(events + [e], minEvents, page);
    OnPagePush(events, e, page);
    assert FeedbackOn(events + [e], page) == FeedbackOn(events, page) + 1;
    assert Listed(after, minEvents, page) <==> Listed(events + [e], minEvents, page);
  }
}
