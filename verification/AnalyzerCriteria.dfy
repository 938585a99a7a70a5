/** What a feedback report says of a window, in terms of its logs and events alone: which of
    them count, what each item holds, and which analysis is refused. */
module AnalyzerCriteria {
  import opened Wrappers
  import opened Sequences
  import opened Orders
  import opened Grouping
  import opened Reals
  import opened Analyzer
  import opened AnalyzerLaws
  import Store = FeedbackStore

  lemma {:induction false} FilterTwice<T(!new)>(p: T -> bool, q: T -> bool, both: T -> bool, s: seq<T>)
    requires forall x :: both(x) == (p(x) && q(x))
    ensures Filter(q, Filter(p, s)) == Filter(both, s)
  {
    if s != [] {
      var front, last := s[..|s| - 1], s[|s| - 1];
      FilterTwice(p, q, both, front);
      FilterPush(q, Filter(p, front), last);
    }
  }

  // ----- Low-quality pages -----

  function OnPage(page: string): Event -> bool { (e: Event) => e.pageId == Some(page) }

  function AdoptedIn(page: string): Event -> bool { (e: Event) => e.pageId == Some(page) && IsAdoption(e) }

  /** An adopt, or a rating of four or more. */
  predicate IsAdoption(e: Event) {
    e.kind == Store.Adopt || (e.kind == Store.Rate && e.rating.Some? && e.rating.value >= 4)
  }

  /** How many events name the page, and how many of them are adoptions. */
  ghost function FeedbackCount(events: seq<Event>, page: string): nat { |Filter(OnPage(page), events)| }

  ghost function Adoptions(events: seq<Event>, page: string): nat { |Filter(AdoptedIn(page), events)| }

  lemma CountsAre(events: seq<Event>, page: string)
    ensures FeedbackOn(events, page) == FeedbackCount(events, page)
    ensures AdoptedOn(events, page) == Adoptions(events, page)
  {
    forall e: Event
      ensures HasKey(PageOf, page)(e) == OnPage(page)(e) && AdoptedIn(page)(e) == (OnPage(page)(e) && Scores(e))
    {
      assert HasKey(PageOf, page)(e) == (PageOf(e) == Some(page));
    }
    FilterAgrees(HasKey(PageOf, page), OnPage(page), events);
    FilterTwice(OnPage(page), Scores, AdoptedIn(page), events);
  }

  /** A page is reported exactly when it has enough feedback and less than one in five of it
      is an adoption. */
  lemma PageIsReportedIff(w: Window, minEvents: int, matcher: Matcher, page: string)
    ensures HasPage(ReportOf(w, minEvents, matcher).lowQuality, page) <==>
            FeedbackCount(w.events, page) >= minEvents && 5 * Adoptions(w.events, page) < FeedbackCount(w.events, page)
  {
    assert HasPage(ReportOf(w, minEvents, matcher).lowQuality, page) <==> Listed(w.events, minEvents, page);
    ListedIff(w.events, minEvents, page);
    CountsAre(w.events, page);
  }

  /** Some event on the page has the log id. */
  ghost predicate Mentioned(events: seq<Event>, page: string, n: int) {
    exists e :: e in events && e.pageId == Some(page) && e.logId == n
  }

  predicate IsQuotient(q: real, x: int, y: int) { q * y as real == x as real }

  /** An item carries the page's counts, their quotient, and the log ids of its events in
      ascending order without repetition. */
  ghost predicate DescribesPage(item: LowQualityPage, events: seq<Event>) {
    && item.feedbackCount == FeedbackCount(events, item.pageId) > 0
    && item.adoptedCount == Adoptions(events, item.pageId)
    && IsQuotient(item.adoptionRate, item.adoptedCount, item.feedbackCount)
    && (forall a, b :: 0 <= a < b < |item.logIds| ==> item.logIds[a] < item.logIds[b])
    && (forall n :: n in item.logIds <==> Mentioned(events, item.pageId, n))
  }

  lemma LowQualityFields(page: string, agg: PageAgg)
    requires agg.feedbackCount > 0
    ensures var item := LowQualityOf(page, agg);
            && item.pageId == page && item.feedbackCount == agg.feedbackCount && item.adoptedCount == agg.adoptedCount
            && IsQuotient(item.adoptionRate, item.adoptedCount, item.feedbackCount)
            && item.logIds == SortedIds(agg.logIds)
  {
    QuotientTimes(agg.adoptedCount as real, agg.feedbackCount as real);
  }

  lemma SortedIdsAscend(ids: set<int>)
    ensures var r := SortedIds(ids);
            (forall a, b :: 0 <= a < b < |r| ==> r[a] < r[b]) && (forall n :: n in r <==> n in ids)
  {
    EnumerateAscends(IntLt, ids);
  }

  lemma GroupIds(events: seq<Event>, page: string)
    requires page in PageAggs(events)
    ensures var agg := PageAggs(events)[page];
            && agg.feedbackCount == FeedbackOn(events, page) > 0 && agg.adoptedCount == AdoptedOn(events, page)
            && forall n :: n in agg.logIds <==> Mentioned(events, page, n)
  {
    var group := Members(PageOf, events, page);
    NoMembers(PageOf, events, page);
    forall n ensures n in PageAggOf(group).logIds <==> Mentioned(events, page, n) {
      assert forall e :: e in group <==> e in events && HasKey(PageOf, page)(e);
      assert forall e: Event :: HasKey(PageOf, page)(e) == (PageOf(e) == Some(page));
    }
  }

  lemma PageIsDescribed(events: seq<Event>, page: string)
    requires page in PageAggs(events)
    ensures DescribesPage(LowQualityOf(page, PageAggs(events)[page]), events)
  {
    GroupIds(events, page);
    CountsAre(events, page);
    LowQualityFields(page, PageAggs(events)[page]);
    SortedIdsAscend(PageAggs(events)[page].logIds);
  }

  lemma ReportedPageHolds(w: Window, minEvents: int, matcher: Matcher, i: nat)
    requires i < |ReportOf(w, minEvents, matcher).lowQuality|
    ensures DescribesPage(ReportOf(w, minEvents, matcher).lowQuality[i], w.events)
  {
    var pages := PageAggs(w.events);
    var keys := SortedStrings(LowQualityKeys(pages, minEvents));
    assert keys[i] in keys;
    PageIsDescribed(w.events, keys[i]);
  }

  /** One more click, or rating of three or less, or rate event without a rating, wherever it
      arrives, takes no page off the report. */
  lemma NoAdoptionNoRelief(w: Window, v: Window, e: Event, minEvents: int, matcher: Matcher, page: string)
    requires multiset(v.events) == multiset(w.events + [e])
    requires e.kind == Store.Click || (e.kind == Store.Rate && (e.rating.None? || e.rating.value <= 3))
    ensures HasPage(ReportOf(w, minEvents, matcher).lowQuality, page) ==>
              HasPage(ReportOf(v, minEvents, matcher).lowQuality, page)
  {
    ClickNeverDelists(w.events, e, v.events, minEvents, page);
    assert HasPage(ReportOf(w, minEvents, matcher).lowQuality, page) <==> Listed(w.events, minEvents, page);
    assert HasPage(ReportOf(v, minEvents, matcher).lowQuality, page) <==> Listed(v.events, minEvents, page);
  }

  lemma {:induction false} NoneKept<T(!new)>(keep: T -> bool, s: seq<T>)
    requires forall x :: x in s ==> !keep(x)
    ensures Filter(keep, s) == []
  {
    if s != [] {
      NoneKept(keep, s[..|s| - 1]);
    }
  }

  lemma PageAtIndex(items: seq<LowQualityPage>, page: string) returns (i: nat)
    requires HasPage(items, page)
    ensures i < |items| && items[i].pageId == page
  {
    i :| 0 <= i < |items| && items[i].pageId == page;
  }

  /** A page with enough feedback, all of it clicks, is reported with no adoption. */
  lemma ClicksOnlyAreReported(w: Window, minEvents: int, matcher: Matcher, page: string) returns (i: nat)
    requires FeedbackCount(w.events, page) >= minEvents > 0
    requires forall e :: e in w.events && e.pageId == Some(page) ==> e.kind == Store.Click
    ensures i < |ReportOf(w, minEvents, matcher).lowQuality|
    ensures var item := ReportOf(w, minEvents, matcher).lowQuality[i];
            item.pageId == page && item.adoptedCount == 0 && item.feedbackCount == FeedbackCount(w.events, page)
  {
    NoneKept(AdoptedIn(page), w.events);
    PageIsReportedIff(w, minEvents, matcher, page);
    i := PageAtIndex(ReportOf(w, minEvents, matcher).lowQuality, page);
    ReportedPageHolds(w, minEvents, matcher, i);
  }

  // ----- Zero recall and rewrite failures -----

  /** Nothing was found, and not because a filter left nothing and relaxing it failed; or the
      rewrite failed. */
  predicate Shows(signal: Signal, l: QueryLog) {
    match signal
    case ZeroRecall => l.hitCount == 0 && (!l.candidateEmptyInitial || l.relaxationSucceeded)
    case RewriteFailure => l.rewriteFailure
    case LowQuality => false
  }

  /** The logs of one item. */
  function Under(signal: Signal, matcher: Matcher, key: string): QueryLog -> bool {
    (l: QueryLog) => Shows(signal, l) && matcher(l.queryText) == Some(key)
  }

  function UnderWithId(signal: Signal, matcher: Matcher, key: string, n: int): QueryLog -> bool {
    (l: QueryLog) => Shows(signal, l) && matcher(l.queryText) == Some(key) && l.logId == n
  }

  function LatencyMs(l: QueryLog): int { l.latencyMs }

  ghost predicate HasQuery(items: seq<BlindSpot>, key: string) {
    exists i :: 0 <= i < |items| && items[i].normalizedQuery == key
  }

  /** An item stands for its logs: their number, their average latency, and their ids in
      ascending order, each as often as it occurs. */
  ghost predicate StandsFor(item: BlindSpot, signal: Signal, matcher: Matcher, logs: seq<QueryLog>) {
    var group := Filter(Under(signal, matcher, item.normalizedQuery), logs);
    && item.occurrences == |group| > 0
    && IsQuotient(item.avgLatencyMs, SumBy(LatencyMs, group), item.occurrences)
    && |item.logIds| == |group|
    && (forall a, b :: 0 <= a < b < |item.logIds| ==> item.logIds[a] <= item.logIds[b])
    && forall n :: multiset(item.logIds)[n] == |Filter(UnderWithId(signal, matcher, item.normalizedQuery, n), logs)|
  }

  lemma ShowsIsQualifies(signal: Signal, l: QueryLog)
    ensures Shows(signal, l) <==> Qualifies(signal, l)
  {
  }

  lemma GroupIsUnder(signal: Signal, matcher: Matcher, logs: seq<QueryLog>, key: string)
    ensures Members(QueryKey(signal, matcher), logs, key) == Filter(Under(signal, matcher, key), logs)
  {
    forall l: QueryLog ensures HasKey(QueryKey(signal, matcher), key)(l) == Under(signal, matcher, key)(l) {
      QueryKeyIs(signal, matcher, l);
      ShowsIsQualifies(signal, l);
      assert Under(signal, matcher, key)(l) == (Shows(signal, l) && matcher(l.queryText) == Some(key));
      assert HasKey(QueryKey(signal, matcher), key)(l) == (QueryKey(signal, matcher)(l) == Some(key));
    }
    FilterAgrees(HasKey(QueryKey(signal, matcher), key), Under(signal, matcher, key), logs);
  }

  function HasId(n: int): QueryLog -> bool { (l: QueryLog) => l.logId == n }

  lemma {:induction false} IdsCount(group: seq<QueryLog>, n: int)
    ensures multiset(Map(LogIdOf, group))[n] == |Filter(HasId(n), group)|
  {
    if group != [] {
      var front, last := group[..|group| - 1], group[|group| - 1];
      IdsCount(front, n);
      assert Map(LogIdOf, group) == Map(LogIdOf, front) + [last.logId];
    }
  }

  lemma ItemStandsFor(signal: Signal, matcher: Matcher, logs: seq<QueryLog>, key: string)
    requires key in QueryAggs(signal, matcher, logs)
    ensures StandsFor(BlindSpotOf(key, QueryAggs(signal, matcher, logs)[key]), signal, matcher, logs)
  {
    var item := BlindSpotOf(key, QueryAggs(signal, matcher, logs)[key]);
    var group := Filter(Under(signal, matcher, key), logs);
    GroupIsUnder(signal, matcher, logs, key);
    ItemIs(signal, matcher, logs, key);
    SumByAgrees(LatencyMs, LatencyOf, group);
    BlindSpotFields(key, QueryAggOf(group));
    SortedLikeThis(Map(LogIdOf, group));
    forall n ensures multiset(item.logIds)[n] == |Filter(UnderWithId(signal, matcher, key, n), logs)| {
      IdsCount(group, n);
      FilterTwice(Under(signal, matcher, key), HasId(n), UnderWithId(signal, matcher, key, n), logs);
    }
  }

  lemma BlindSpotFields(key: string, agg: QueryAgg)
    requires agg.logIds != []
    ensures var item := BlindSpotOf(key, agg);
            && item.normalizedQuery == key && item.logIds == SortInts(agg.logIds)
            && item.occurrences == |agg.logIds| && IsQuotient(item.avgLatencyMs, agg.latencySum, item.occurrences)
  {
    QuotientTimes(agg.latencySum as real, |agg.logIds| as real);
  }

  lemma SortedLikeThis(s: seq<int>)
    ensures |SortInts(s)| == |s| && multiset(SortInts(s)) == multiset(s)
    ensures forall a, b :: 0 <= a < b < |s| ==> SortInts(s)[a] <= SortInts(s)[b]
  {
    SortIntsFacts(s);
    assert |multiset(SortInts(s))| == |multiset(s)|;
  }

  lemma BlindSpotsList(aggs: map<string, QueryAgg>)
    ensures var items := BlindSpots(aggs);
            && (forall i :: 0 <= i < |items| ==>
                  (items[i].normalizedQuery in aggs
                   && items[i] == BlindSpotOf(items[i].normalizedQuery, aggs[items[i].normalizedQuery])))
            && (forall k :: k in aggs ==> HasQuery(items, k))
  {
    var keys, items := SortedStrings(aggs.Keys), BlindSpots(aggs);
    forall i | 0 <= i < |items| ensures items[i].normalizedQuery == keys[i] && keys[i] in aggs {
      assert keys[i] in keys;
    }
    forall k | k in aggs ensures HasQuery(items, k) {
      assert k in keys;
      var i :| 0 <= i < |keys| && keys[i] == k;
      assert items[i].normalizedQuery == k;
    }
  }

  lemma ShownHasItem(signal: Signal, matcher: Matcher, logs: seq<QueryLog>, l: QueryLog)
    requires l in logs && Shows(signal, l) && matcher(l.queryText).Some?
    ensures matcher(l.queryText).value in QueryAggs(signal, matcher, logs)
  {
    QueryKeyIs(signal, matcher, l);
    ShowsIsQualifies(signal, l);
  }

  /** Every log that shows the signal and has a key has its item, and every item stands for its
      logs. */
  ghost predicate ItemsMeet(items: seq<BlindSpot>, signal: Signal, matcher: Matcher, logs: seq<QueryLog>) {
    && (forall i :: 0 <= i < |items| ==> StandsFor(items[i], signal, matcher, logs))
    && (forall l :: l in logs && Shows(signal, l) && matcher(l.queryText).Some? ==>
          HasQuery(items, matcher(l.queryText).value))
  }

  lemma ClassIsExact(signal: Signal, matcher: Matcher, logs: seq<QueryLog>)
    ensures ItemsMeet(BlindSpots(QueryAggs(signal, matcher, logs)), signal, matcher, logs)
  {
    var aggs := QueryAggs(signal, matcher, logs);
    var items := BlindSpots(aggs);
    BlindSpotsList(aggs);
    forall i | 0 <= i < |items| ensures StandsFor(items[i], signal, matcher, logs) {
      ItemStandsFor(signal, matcher, logs, items[i].normalizedQuery);
    }
    forall l | l in logs && Shows(signal, l) && matcher(l.queryText).Some?
      ensures HasQuery(items, matcher(l.queryText).value)
    {
      ShownHasItem(signal, matcher, logs, l);
    }
  }

  lemma ItemsAreExact(w: Window, minEvents: int, matcher: Matcher)
    ensures ItemsMeet(ReportOf(w, minEvents, matcher).zeroRecall, ZeroRecall, matcher, w.logs)
    ensures ItemsMeet(ReportOf(w, minEvents, matcher).rewriteFailures, RewriteFailure, matcher, w.logs)
  {
    ClassIsExact(ZeroRecall, matcher, w.logs);
    ClassIsExact(RewriteFailure, matcher, w.logs);
  }

  // ----- Refusals -----

  /** A log that shows a signal and has no key. */
  predicate Unkeyed(matcher: Matcher, l: QueryLog) {
    (Shows(ZeroRecall, l) || Shows(RewriteFailure, l)) && matcher(l.queryText).None?
  }

  ghost predicate FirstUnkeyed(matcher: Matcher, logs: seq<QueryLog>, i: int) {
    0 <= i < |logs| && Unkeyed(matcher, logs[i]) && forall j :: 0 <= j < i ==> !Unkeyed(matcher, logs[j])
  }

  lemma {:induction false} UnkeyedIffUnmatched(matcher: Matcher, logs: seq<QueryLog>)
    ensures FirstUnmatched(matcher, logs).None? <==> forall i :: 0 <= i < |logs| ==> !Unkeyed(matcher, logs[i])
  {
    if logs != [] {
      UnkeyedIffUnmatched(matcher, logs[..|logs| - 1]);
    }
  }

  lemma {:induction false} FirstUnkeyedDecides(matcher: Matcher, logs: seq<QueryLog>, i: int)
    requires FirstUnkeyed(matcher, logs, i)
    ensures FirstUnmatched(matcher, logs) == Some(logs[i].logId)
  {
    var front := logs[..|logs| - 1];
    if i < |front| {
      assert FirstUnkeyed(matcher, front, i);
      FirstUnkeyedDecides(matcher, front, i);
    } else {
      UnkeyedIffUnmatched(matcher, front);
    }
  }

  /** The analysis refuses no minimum, then a range that ends before it starts, then the first
      log without a key. */
  lemma RefusalsAre(w: Window, minEvents: nat, matcher: Matcher, i: int)
    ensures var a := Analysis(w, minEvents, matcher);
            && (a == Failure(MinEventsZero) <==> minEvents == 0)
            && (a == Failure(EmptyRange) <==> minEvents > 0 && w.from > w.to)
            && (minEvents > 0 && w.from <= w.to && FirstUnkeyed(matcher, w.logs, i) ==>
                  a == Failure(NotNormalizable(w.logs[i].logId)))
  {
    if FirstUnkeyed(matcher, w.logs, i) {
      FirstUnkeyedDecides(matcher, w.logs, i);
    }
    CheckedRefuses(w.from, w.to, minEvents, FirstUnmatched(matcher, w.logs), ReportOf(w, minEvents, matcher));
  }

  lemma CheckedRefuses(from: int, to: int, minEvents: nat, unmatched: Option<int>, r: Report)
    ensures var a := Checked(from, to, minEvents, unmatched, r);
            && (a == Failure(MinEventsZero) <==> minEvents == 0)
            && (a == Failure(EmptyRange) <==> minEvents > 0 && from > to)
            && (minEvents > 0 && from <= to && unmatched.Some? ==> a == Failure(NotNormalizable(unmatched.value)))
            && (minEvents > 0 && from <= to && unmatched.None? ==> CapsDecide(a, r))
  {
  }

  /** What an analysis answers once its arguments are sound and every log has its key: a class
      of more than a thousand items is refused, the first of them in report order. */
  ghost predicate CapsDecide(a: Result<Report, Error>, r: Report) {
    var zero, rewrite, low := |r.zeroRecall|, |r.rewriteFailures|, |r.lowQuality|;
    && (zero > 1000 ==> a == Failure(OverCap(ZeroRecall, zero)))
    && (zero <= 1000 < rewrite ==> a == Failure(OverCap(RewriteFailure, rewrite)))
    && (zero <= 1000 && rewrite <= 1000 < low ==> a == Failure(OverCap(LowQuality, low)))
    && (zero <= 1000 && rewrite <= 1000 && low <= 1000 ==> a == Success(r))
  }

  lemma CapsAre(w: Window, minEvents: nat, matcher: Matcher)
    requires minEvents > 0 && w.from <= w.to && forall i :: 0 <= i < |w.logs| ==> !Unkeyed(matcher, w.logs[i])
    ensures CapsDecide(Analysis(w, minEvents, matcher), ReportOf(w, minEvents, matcher))
  {
    UnkeyedIffUnmatched(matcher, w.logs);
    CheckedRefuses(w.from, w.to, minEvents, FirstUnmatched(matcher, w.logs), ReportOf(w, minEvents, matcher));
  }

  /** Unless all logs have a key there is a first one without. */
  lemma {:induction false} FirstUnkeyedExists(matcher: Matcher, logs: seq<QueryLog>) returns (i: nat)
    requires exists j :: 0 <= j < |logs| && Unkeyed(matcher, logs[j])
    ensures FirstUnkeyed(matcher, logs, i)
  {
    i := 0;
    while !Unkeyed(matcher, logs[i])
      invariant i < |logs| && forall j :: 0 <= j < i ==> !Unkeyed(matcher, logs[j])
      decreases |logs| - i
    {
      i := i + 1;
    }
  }

  /** The head of a report repeats what was asked for and how much was read. */
  lemma ReportHead(w: Window, minEvents: int, matcher: Matcher)
    ensures var r := ReportOf(w, minEvents, matcher);
            && r.domain == w.domain && r.from == w.from && r.to == w.to && r.minEvents == minEvents
            && r.inputLogRows == |w.logs| && r.inputEventRows == |w.events|
  {
  }
}
