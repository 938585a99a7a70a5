/** The three-signal feedback analyzer: zero recall, rewrite failures, low-quality pages. */
module Analyzer {
  import opened Wrappers
  import opened Sequences
  import opened Orders
  import opened Grouping
  import Store = FeedbackStore

  datatype QueryLog = QueryLog(
    logId: int, queryText: string, rewriteFailure: bool, hitCount: int, latencyMs: int,
    candidateEmptyInitial: bool, relaxationSucceeded: bool)

  datatype Event = Event(logId: int, kind: Store.Kind, pageId: Option<string>, rating: Option<int>)

  datatype Window = Window(domain: string, from: int, to: int, logs: seq<QueryLog>, events: seq<Event>)

  /** The dedup-key matcher: query text to a stable key, or a refusal. */
  type Matcher = string -> Option<string>

  datatype QueryAgg = QueryAgg(logIds: seq<int>, latencySum: int)

  datatype PageAgg = PageAgg(feedbackCount: int, adoptedCount: int, logIds: set<int>)

  datatype BlindSpot = BlindSpot(normalizedQuery: string, occurrences: nat, avgLatencyMs: real, logIds: seq<int>)

  datatype LowQualityPage = LowQualityPage(
    pageId: string, feedbackCount: int, adoptedCount: int, adoptionRate: real, logIds: seq<int>)

  datatype Signal = ZeroRecall | RewriteFailure | LowQuality

  datatype Action = SupplementalCompile | QueryTemplate

  datatype Suggestion =
    | QuerySuggestion(action: Action, signal: Signal, item: BlindSpot)
    | PageSuggestion(page: LowQualityPage)

  datatype Report = Report(
    domain: string, from: int, to: int, minEvents: int, inputLogRows: nat, inputEventRows: nat,
    zeroRecall: seq<BlindSpot>, rewriteFailures: seq<BlindSpot>, lowQuality: seq<LowQualityPage>,
    suggestions: seq<Suggestion>)

  datatype Error = MinEventsZero | EmptyRange | NotNormalizable(logId: int) | OverCap(signal: Signal, items: nat)

  const MAX_ITEMS_PER_CLASS := 1000

  // ----- The criteria -----

  predicate IsZeroRecall(l: QueryLog) {
    l.hitCount == 0 && !(l.candidateEmptyInitial && !l.relaxationSucceeded)
  }

  predicate Qualifies(signal: Signal, l: QueryLog) {
    match signal
    case ZeroRecall => IsZeroRecall(l)
    case RewriteFailure => l.rewriteFailure
    case LowQuality => false
  }

  /** The dedup key of a log under a signal, if the log qualifies. */
  function QueryKey(signal: Signal, matcher: Matcher): QueryLog -> Option<string> {
    (l: QueryLog) => if Qualifies(signal, l) then matcher(l.queryText) else None
  }

  predicate Unmatched(matcher: Matcher, l: QueryLog) {
    (IsZeroRecall(l) || l.rewriteFailure) && matcher(l.queryText).None?
  }

  ghost function FirstUnmatched(matcher: Matcher, logs: seq<QueryLog>): Option<int> {
    if logs == [] then None
    else
      var earlier, last := FirstUnmatched(matcher, logs[..|logs| - 1]), logs[|logs| - 1];
      if earlier.Some? then earlier else if Unmatched(matcher, last) then Some(last.logId) else None
  }

  function PageOf(e: Event): Option<string> { e.pageId }

  predicate Scores(e: Event) {
    match e.kind
    case Adopt => true
    case Rate => e.rating.Some? && e.rating.value >= 4
    case Click => false
  }

  predicate AdoptionBelowThreshold(adopted: int, count: int) { adopted * 100 < count * 20 }

  predicate IsLowQuality(agg: PageAgg, minEvents: int) {
    agg.feedbackCount >= minEvents && AdoptionBelowThreshold(agg.adoptedCount, agg.feedbackCount)
  }

  // ----- Aggregates of a group -----

  function LogIdOf(l: QueryLog): int { l.logId }

  function LatencyOf(l: QueryLog): int { l.latencyMs }

  function QueryAggOf(group: seq<QueryLog>): QueryAgg {
    QueryAgg(Map(LogIdOf, group), SumBy(LatencyOf, group))
  }

  function Push(agg: QueryAgg, l: QueryLog): QueryAgg {
    QueryAgg(agg.logIds + [l.logId], agg.latencySum + l.latencyMs)
  }

  function PageAggOf(group: seq<Event>): PageAgg {
    PageAgg(|group|, |Filter(Scores, group)|, set e | e in group :: e.logId)
  }

  function Count(agg: PageAgg, e: Event): PageAgg {
    PageAgg(agg.feedbackCount + 1, agg.adoptedCount + if Scores(e) then 1 else 0, agg.logIds + {e.logId})
  }

  ghost function QueryAggs(signal: Signal, matcher: Matcher, logs: seq<QueryLog>): map<string, QueryAgg> {
    Fold(QueryKey(signal, matcher), QueryAggOf, logs)
  }

  ghost function PageAggs(events: seq<Event>): map<string, PageAgg> { Fold(PageOf, PageAggOf, events) }

  // ----- Report items -----

  function AvgLatency(agg: QueryAgg): real {
    if agg.logIds == [] then 0.0 else agg.latencySum as real / |agg.logIds| as real
  }

  function BlindSpotOf(key: string, agg: QueryAgg): BlindSpot {
    BlindSpot(key, |agg.logIds|, AvgLatency(agg), SortInts(agg.logIds))
  }

  /** The report items of the given keys, in that order. */
  function ItemsOf(aggs: map<string, QueryAgg>, keys: seq<string>): (r: seq<BlindSpot>)
    requires forall k :: k in keys ==> k in aggs
    ensures |r| == |keys| && forall i :: 0 <= i < |r| ==> r[i] == BlindSpotOf(keys[i], aggs[keys[i]])
  {
    seq(|keys|, i requires 0 <= i < |keys| => BlindSpotOf(keys[i], aggs[keys[i]]))
  }

  function BlindSpots(aggs: map<string, QueryAgg>): (r: seq<BlindSpot>)
    ensures |r| == |aggs|
  {
    ItemsOf(aggs, SortedStrings(aggs.Keys))
  }

  /** Dedup aggregates to report items, unless there are more than the cap. */
  function FinishQueryClass(signal: Signal, aggs: map<string, QueryAgg>): Result<seq<BlindSpot>, Error> {
    if |aggs| > MAX_ITEMS_PER_CLASS then Failure(OverCap(signal, |aggs|)) else Success(BlindSpots(aggs))
  }

  function LowQualityKeys(pages: map<string, PageAgg>, minEvents: int): set<string> {
    set p | p in pages && IsLowQuality(pages[p], minEvents)
  }

  function LowQualityOf(page: string, agg: PageAgg): LowQualityPage {
    LowQualityPage(page, agg.feedbackCount, agg.adoptedCount,
                   if agg.feedbackCount == 0 then 0.0 else agg.adoptedCount as real / agg.feedbackCount as real,
                   SortedIds(agg.logIds))
  }

  function SortedIds(ids: set<int>): seq<int> {
    Enumerate(IntLt, ids)
  }

  function PagesOf(pages: map<string, PageAgg>, keys: seq<string>): (r: seq<LowQualityPage>)
    requires forall p :: p in keys ==> p in pages
    ensures |r| == |keys| && forall i :: 0 <= i < |r| ==> r[i] == LowQualityOf(keys[i], pages[keys[i]])
  {
    seq(|keys|, i requires 0 <= i < |keys| => LowQualityOf(keys[i], pages[keys[i]]))
  }

  function LowQualityPages(pages: map<string, PageAgg>, minEvents: int): (r: seq<LowQualityPage>)
    ensures |r| == |LowQualityKeys(pages, minEvents)|
  {
    PagesOf(pages, SortedStrings(LowQualityKeys(pages, minEvents)))
  }

  function Suggest(zero: seq<BlindSpot>, rewrite: seq<BlindSpot>, low: seq<LowQualityPage>): seq<Suggestion> {
    Map((b: BlindSpot) => QuerySuggestion(SupplementalCompile, ZeroRecall, b), zero)
    + Map((b: BlindSpot) => QuerySuggestion(QueryTemplate, RewriteFailure, b), rewrite)
    + Map((p: LowQualityPage) => PageSuggestion(p), low)
  }

  // ----- The analysis -----

  function Assemble(
    w: Window, minEvents: int, zero: seq<BlindSpot>, rewrite: seq<BlindSpot>, low: seq<LowQualityPage>): Report
  {
    Report(w.domain, w.from, w.to, minEvents, |w.logs|, |w.events|, zero, rewrite, low, Suggest(zero, rewrite, low))
  }

  ghost function ReportOf(w: Window, minEvents: int, matcher: Matcher): Report {
    Assemble(w, minEvents,
             BlindSpots(QueryAggs(ZeroRecall, matcher, w.logs)), BlindSpots(QueryAggs(RewriteFailure, matcher, w.logs)),
             LowQualityPages(PageAggs(w.events), minEvents))
  }

  /** The caps: a report with too many items of a class is refused, never truncated. */
  function Capped(r: Report): Result<Report, Error> {
    if |r.zeroRecall| > MAX_ITEMS_PER_CLASS then Failure(OverCap(ZeroRecall, |r.zeroRecall|))
    else if |r.rewriteFailures| > MAX_ITEMS_PER_CLASS then Failure(OverCap(RewriteFailure, |r.rewriteFailures|))
    else if |r.lowQuality| > MAX_ITEMS_PER_CLASS then Failure(OverCap(LowQuality, |r.lowQuality|))
    else Success(r)
  }

  /** The checks in order: the arguments, then the log keys, then the caps. */
  function Checked(from: int, to: int, minEvents: nat, unmatched: Option<int>, r: Report): Result<Report, Error> {
    if minEvents == 0 then Failure(MinEventsZero)
    else if from > to then Failure(EmptyRange)
    else if unmatched.Some? then Failure(NotNormalizable(unmatched.value))
    else Capped(r)
  }

  ghost function Analysis(w: Window, minEvents: nat, matcher: Matcher): Result<Report, Error> {
    Checked(w.from, w.to, minEvents, FirstUnmatched(matcher, w.logs), ReportOf(w, minEvents, matcher))
  }

  method AnalyzeWindowWith(w: Window, minEvents: nat, matcher: Matcher) returns (outcome: Result<Report, Error>)
    ensures outcome == Analysis(w, minEvents, matcher)
  {
    if minEvents == 0 {
      return Failure(MinEventsZero);
    }
    if w.from > w.to {
      return Failure(EmptyRange);
    }
    var logs := AggregateLogs(matcher, w.logs);
    if logs.Failure? {
      return Failure(logs.error);
    }
    var pages := AggregatePages(w.events);
    outcome := Finish(w, minEvents, logs.value.0, logs.value.1, pages);
  }

  /** Aggregates to the report, class by class, refusing a class over the cap. */
  method Finish(
    w: Window, minEvents: nat, zeroByQuery: map<string, QueryAgg>, rewriteByQuery: map<string, QueryAgg>,
    pages: map<string, PageAgg>)
    returns (outcome: Result<Report, Error>)
    ensures outcome == Capped(Assemble(w, minEvents, BlindSpots(zeroByQuery), BlindSpots(rewriteByQuery),
                                       LowQualityPages(pages, minEvents)))
  {
    var zero := FinishQueryClass(ZeroRecall, zeroByQuery);
    if zero.Failure? {
      return Failure(zero.error);
    }
    var rewrite := FinishQueryClass(RewriteFailure, rewriteByQuery);
    if rewrite.Failure? {
      return Failure(rewrite.error);
    }
    var low := LowQualityPages(pages, minEvents);
    if |low| > MAX_ITEMS_PER_CLASS {
      return Failure(OverCap(LowQuality, |low|));
    }
    return Success(Assemble(w, minEvents, zero.value, rewrite.value, low));
  }

  /** Signals one and two: each log is judged under both, independently. */
  method AggregateLogs(matcher: Matcher, logs: seq<QueryLog>)
    returns (outcome: Result<(map<string, QueryAgg>, map<string, QueryAgg>), Error>)
    ensures outcome.Success? ==> FirstUnmatched(matcher, logs).None?
    ensures outcome.Success? ==>
              outcome.value == (QueryAggs(ZeroRecall, matcher, logs), QueryAggs(RewriteFailure, matcher, logs))
    ensures outcome.Failure? ==>
              FirstUnmatched(matcher, logs).Some? && outcome.error == NotNormalizable(FirstUnmatched(matcher, logs).value)
  {
    var zeroByQuery: map<string, QueryAgg> := map[];
    var rewriteByQuery: map<string, QueryAgg> := map[];
    for i := 0 to |logs|
      invariant FirstUnmatched(matcher, logs[..i]).None?
      invariant zeroByQuery == QueryAggs(ZeroRecall, matcher, logs[..i])
      invariant rewriteByQuery == QueryAggs(RewriteFailure, matcher, logs[..i])
    {
      var l := logs[i];
      TakeStep(logs, i);
      ghost var done := logs[..i];
      QueryAggsPush(ZeroRecall, matcher, done, l);
      QueryAggsPush(RewriteFailure, matcher, done, l);
      QueryKeyIs(ZeroRecall, matcher, l);
      QueryKeyIs(RewriteFailure, matcher, l);
      assert Qualifies(ZeroRecall, l) == IsZeroRecall(l) && Qualifies(RewriteFailure, l) == l.rewriteFailure;
      if Unmatched(matcher, l) {
        FirstUnmatchedStays(matcher, logs, i + 1);
      }
      if l.hitCount == 0 {
        var relaxedAndStillEmpty := l.candidateEmptyInitial && !l.relaxationSucceeded;
        if !relaxedAndStillEmpty {
          var key := matcher(l.queryText);
          if key.None? {
            return Failure(NotNormalizable(l.logId));
          }
          zeroByQuery := zeroByQuery[key.value := Push(AggAt(zeroByQuery, key.value), l)];
        }
      }
      assert zeroByQuery == QueryAggs(ZeroRecall, matcher, done + [l]);
      if l.rewriteFailure {
        var key := matcher(l.queryText);
        if key.None? {
          return Failure(NotNormalizable(l.logId));
        }
        rewriteByQuery := rewriteByQuery[key.value := Push(AggAt(rewriteByQuery, key.value), l)];
      }
      assert rewriteByQuery == QueryAggs(RewriteFailure, matcher, done + [l]);
    }
    TakeAll(logs);
    return Success((zeroByQuery, rewriteByQuery));
  }

  lemma QueryKeyIs(signal: Signal, matcher: Matcher, l: QueryLog)
    ensures QueryKey(signal, matcher)(l) == if Qualifies(signal, l) then matcher(l.queryText) else None
  {
  }

  method AggregatePages(events: seq<Event>) returns (pages: map<string, PageAgg>)
    ensures pages == PageAggs(events)
  {
    pages := map[];
    for i := 0 to |events|
      invariant pages == PageAggs(events[..i])
    {
      var e := events[i];
      TakeStep(events, i);
      PageAggsPush(events[..i], e);
      if e.pageId.None? {
        continue;
      }
      pages := pages[e.pageId.value := Count(PageAt(pages, e.pageId.value), e)];
    }
    TakeAll(events);
  }

  function AggAt(aggs: map<string, QueryAgg>, key: string): QueryAgg {
    if key in aggs then aggs[key] else QueryAgg([], 0)
  }

  function PageAt(pages: map<string, PageAgg>, p: string): PageAgg {
    if p in pages then pages[p] else PageAgg(0, 0, {})
  }

  lemma QueryAggsPush(signal: Signal, matcher: Matcher, logs: seq<QueryLog>, l: QueryLog)
    ensures var key, aggs := QueryKey(signal, matcher)(l), QueryAggs(signal, matcher, logs);
            QueryAggs(signal, matcher, logs + [l]) ==
            if key.Some? then aggs[key.value := Push(AggAt(aggs, key.value), l)] else aggs
  {
    var key := QueryKey(signal, matcher);
    FoldPush(key, QueryAggOf, logs, l);
    if key(l).Some? {
      NoMembers(key, logs, key(l).value);
      PushIsAgg(Members(key, logs, key(l).value), l);
      assert QueryAggOf([]) == QueryAgg([], 0);
    }
  }

  lemma PushIsAgg(group: seq<QueryLog>, l: QueryLog)
    ensures QueryAggOf(group + [l]) == Push(QueryAggOf(group), l)
  {
    SumByPush(LatencyOf, group, l);
    assert Map(LogIdOf, group + [l]) == Map(LogIdOf, group) + [l.logId];
  }

  lemma PageAggsPush(events: seq<Event>, e: Event)
    ensures var pages := PageAggs(events);
            PageAggs(events + [e]) ==
            if e.pageId.None? then pages
            else pages[e.pageId.value := Count(PageAt(pages, e.pageId.value), e)]
  {
    FoldPush(PageOf, PageAggOf, events, e);
    if e.pageId.Some? {
      NoMembers(PageOf, events, e.pageId.value);
      CountIsAgg(Members(PageOf, events, e.pageId.value), e);
      assert PageAggOf([]) == PageAgg(0, 0, {});
    }
  }

  lemma CountIsAgg(group: seq<Event>, e: Event)
    ensures PageAggOf(group + [e]) == Count(PageAggOf(group), e)
  {
    FilterPush(Scores, group, e);
    assert forall x :: x in group + [e] <==> x in group || x == e;
  }

  lemma {:induction false} FirstUnmatchedStays(matcher: Matcher, logs: seq<QueryLog>, n: nat)
    requires n <= |logs| && FirstUnmatched(matcher, logs[..n]).Some?
    ensures FirstUnmatched(matcher, logs) == FirstUnmatched(matcher, logs[..n])
    decreases |logs|
  {
    if n == |logs| {
      TakeAll(logs);
    } else {
      var front := logs[..|logs| - 1];
      assert front[..n] == logs[..n];
      FirstUnmatchedStays(matcher, front, n);
    }
  }
}
