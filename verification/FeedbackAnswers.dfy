/** Which answer a feedback request gets, in terms of the request, the keys and the database
    alone: every gate and every limit spelled out. */
module FeedbackAnswers {
  import opened Wrappers
  import opened Sequences
  import opened Orders
  import opened RateLimit
  import opened Metrics
  import opened FeedbackStore
  import opened Feedback
  import opened FeedbackRuns

  // ----- The gates before the limiter -----

  predicate Oversize(req: Request) {
    || (req.declaredLength.Some? && req.declaredLength.value > 65536)
    || req.body.None? || (req.body.Some? && req.body.value > 65536)
  }

  predicate Anonymous(keys: Keys, req: Request) {
    req.secret.None? || req.secret.value == "" || req.secret.value !in keys
  }

  predicate Foreign(keys: Keys, req: Request)
    requires !Anonymous(keys, req) && req.payload.Some?
  {
    req.payload.value.domain != keys[req.secret.value].domain
  }

  /** The request is in order so far: what comes next is the limiter. */
  predicate InOrder(keys: Keys, req: Request) {
    !Oversize(req) && !Anonymous(keys, req) && req.payload.Some? && !Foreign(keys, req)
  }

  /** The admissions its (domain, label) already has in the current window. */
  function Used(cfg: Config, keys: Keys, s: Server, req: Request): int
    requires cfg.Valid() && InOrder(keys, req)
  {
    var key := (req.payload.value.domain, keys[req.secret.value].keyLabel);
    if key in s.windows && s.windows[key].windowStart == req.now - req.now % cfg.window then s.windows[key].count else 0
  }

  lemma GateMeanings(keys: Keys, req: Request)
    ensures BodyTooLarge(req) <==> Oversize(req)
    ensures Lookup(keys, req.secret).None? <==> Anonymous(keys, req)
    ensures ReachesLimiter(keys, req) <==> InOrder(keys, req)
  {
  }

  /** What the limiter does with a request that is in order. */
  lemma LimiterStep(cfg: Config, keys: Keys, s: Server, req: Request)
    requires cfg.Valid() && InOrder(keys, req) && ReachesLimiter(keys, req)
    ensures var key, start := (req.payload.value.domain, keys[req.secret.value].keyLabel), req.now - req.now % cfg.window;
            var used := Used(cfg, keys, s, req);
            Step(cfg, s.windows, LimiterCall(keys, req)) ==
            if used >= cfg.max then (s.windows, RetryAfter(cfg.window - req.now % cfg.window))
            else (s.windows[key := WindowState(start, used + 1)], Decision.Admitted)
  {
  }

  lemma EarlyAnswers(cfg: Config, keys: Keys, s: Server, req: Request)
    requires cfg.Valid() && !InOrder(keys, req)
    ensures OutcomeOf(cfg, keys, s, req) ==
            if Oversize(req) then TooLarge else if Anonymous(keys, req) then NotAuthenticated
            else if req.payload.None? then BadJson else Forbidden
  {
    GateMeanings(keys, req);
  }

  lemma LaterAnswers(cfg: Config, keys: Keys, s: Server, req: Request)
    requires cfg.Valid() && InOrder(keys, req)
    ensures OutcomeOf(cfg, keys, s, req) ==
            if Used(cfg, keys, s, req) >= cfg.max then RateLimited(cfg.window - req.now % cfg.window)
            else AdmittedOutcome(s.table, req)
  {
    GateMeanings(keys, req);
    LimiterStep(cfg, keys, s, req);
  }

  /** Each of the first five answers is given exactly under its condition, the earlier gates
      having passed. */
  lemma GatesInOrder(cfg: Config, keys: Keys, s: Server, req: Request)
    requires cfg.Valid()
    ensures var o := OutcomeOf(cfg, keys, s, req);
            && (o == TooLarge <==> Oversize(req))
            && (o == NotAuthenticated <==> !Oversize(req) && Anonymous(keys, req))
            && (o == BadJson <==> !Oversize(req) && !Anonymous(keys, req) && req.payload.None?)
            && (o == Forbidden <==> !Oversize(req) && !Anonymous(keys, req) && req.payload.Some? && Foreign(keys, req))
            && (o.RateLimited? <==> InOrder(keys, req) && Used(cfg, keys, s, req) >= cfg.max)
            && (o.RateLimited? ==> o.seconds == cfg.window - req.now % cfg.window)
  {
    if InOrder(keys, req) {
      LaterAnswers(cfg, keys, s, req);
      AdmittedIsLater(s.table, req);
    } else {
      EarlyAnswers(cfg, keys, s, req);
    }
  }

  /** Past the limiter none of the earlier answers is given. */
  lemma AdmittedIsLater(table: Table, req: Request)
    requires req.payload.Some?
    ensures var o := AdmittedOutcome(table, req);
            o.BadEventCount? || o.BadEvent? || o.MetadataTooLarge? || o.UnknownPage? || o.LookupFailed?
            || o.StoreRejected? || o.StoreFailed? || o.Accepted?
  {
  }

  /** The limiter's state changes exactly for a request that is in order and still has room:
      its own counter goes up by one in its window, and no other moves. */
  lemma LimiterCounts(cfg: Config, keys: Keys, s: Server, req: Request)
    requires cfg.Valid()
    ensures var after := NextServer(cfg, keys, s, req).windows;
            if InOrder(keys, req) && Used(cfg, keys, s, req) < cfg.max then
              after == s.windows[(req.payload.value.domain, keys[req.secret.value].keyLabel) :=
                         WindowState(req.now - req.now % cfg.window, Used(cfg, keys, s, req) + 1)]
            else after == s.windows
  {
    GateMeanings(keys, req);
    if InOrder(keys, req) {
      LimiterStep(cfg, keys, s, req);
    }
  }

  // ----- The events -----

  predicate Illegal(raw: RawEvent) {
    || raw.Malformed?
    || |raw.dto.idempotencyKey| < 1 || |raw.dto.idempotencyKey| > 128
    || (exists c :: c in raw.dto.idempotencyKey && (c as int <= 31 || 127 <= c as int <= 159))
    || raw.dto.logId < 1
    || (raw.dto.kind == Rate && (raw.dto.rating.None? || raw.dto.rating.value < 1 || raw.dto.rating.value > 5))
    || (raw.dto.kind != Rate &&
        (raw.dto.rating.Some? || raw.dto.pageId.None? || |raw.dto.pageId.value| < 1 || |raw.dto.pageId.value| > 512))
    || !raw.dto.metadataIsObject
  }

  predicate Oversized(raw: RawEvent) { !Illegal(raw) && raw.dto.metadataBytes > 4096 }

  predicate Fine(raw: RawEvent) { !Illegal(raw) && !Oversized(raw) }

  lemma EventCheck(raw: RawEvent)
    ensures CheckEvent(raw) == Some(EventFault.Illegal) <==> Illegal(raw)
    ensures CheckEvent(raw) == Some(EventFault.Oversized) <==> Oversized(raw)
    ensures CheckEvent(raw).None? <==> Fine(raw)
  {
  }

  ghost predicate AllFine(events: seq<RawEvent>) { forall i :: 0 <= i < |events| ==> Fine(events[i]) }

  /** The first event that is not fine decides: an illegal one with its index, an oversized one
      without. */
  lemma {:induction false} FirstFaultDecides(events: seq<RawEvent>, i: nat)
    ensures FirstBadEvent(events).None? <==> AllFine(events)
    ensures FirstBadEvent(events) == Some(BadEvent(i)) <==> i < |events| && Illegal(events[i]) && AllFine(events[..i])
    ensures i < |events| && Oversized(events[i]) && AllFine(events[..i]) ==> FirstBadEvent(events) == Some(MetadataTooLarge)
  {
    if events != [] {
      var m := |events| - 1;
      FirstFaultDecides(events[..m], i);
      EventCheck(events[m]);
      if i <= m {
        assert events[..m][..i] == events[..i];
      }
    }
  }

  // ----- The pages -----

  /** The page that the event's domain must have, for a click or an adopt. */
  predicate NeedsPage(raw: RawEvent, page: string) {
    raw.Parsed? && (raw.dto.kind == Click || raw.dto.kind == Adopt) && raw.dto.pageId == Some(page)
  }

  predicate KnownPage(env: Environment, domain: string, page: string) {
    (domain, page) in env.pages && page !in env.brokenLookups
  }

  ghost predicate AllPagesKnown(req: Request)
    requires req.payload.Some?
  {
    forall i, page :: 0 <= i < |req.payload.value.events| && NeedsPage(req.payload.value.events[i], page) ==>
      KnownPage(req.env, req.payload.value.domain, page)
  }

  lemma {:induction false} InputsAre(domain: string, events: seq<RawEvent>)
    requires FirstBadEvent(events).None?
    ensures forall i :: 0 <= i < |events| ==>
              events[i].Parsed? && CheckEvent(events[i]).None? && Inputs(domain, events)[i] == InputOf(domain, events[i])
  {
    if events != [] {
      InputsAre(domain, events[..|events| - 1]);
    }
  }

  lemma ReferencedMeansNeeded(domain: string, events: seq<RawEvent>, page: string)
    requires FirstBadEvent(events).None?
    ensures page in ReferencedPages(Inputs(domain, events)) <==> exists i :: 0 <= i < |events| && NeedsPage(events[i], page)
  {
    var inputs := Inputs(domain, events);
    InputsAre(domain, events);
    if page in ReferencedPages(inputs) {
      var e :| e in inputs && RefersToPage(e) && e.pageId.value == page;
      var i :| 0 <= i < |inputs| && inputs[i] == e;
      assert NeedsPage(events[i], page);
    }
    if i :| 0 <= i < |events| && NeedsPage(events[i], page) {
      assert inputs[i] in inputs && RefersToPage(inputs[i]);
    }
  }

  lemma {:induction false} FirstBadPageFinds(domain: string, pages: seq<string>, env: Environment)
    ensures FirstBadPage(domain, pages, env).None? <==> forall p :: p in pages ==> KnownPage(env, domain, p)
  {
    if pages != [] {
      var front, last := pages[..|pages| - 1], pages[|pages| - 1];
      FirstBadPageFinds(domain, front, env);
      assert pages == front + [last];
      assert forall p :: p in pages <==> p in front || p == last;
      assert KnownPage(env, domain, last) <==> last !in env.brokenLookups && (domain, last) in env.pages;
    }
  }

  /** A payload of 1 to 100 events that are all fine is refused exactly when a page that one
      of its clicks or adopts names is missing or cannot be looked up. */
  lemma PagesDecide(req: Request)
    requires req.payload.Some? && 1 <= |req.payload.value.events| <= 100 && AllFine(req.payload.value.events)
    ensures RefusalOf(req).None? <==> AllPagesKnown(req)
    ensures RefusalOf(req).Some? ==> RefusalOf(req).value == UnknownPage || RefusalOf(req).value == LookupFailed
  {
    var domain, events := req.payload.value.domain, req.payload.value.events;
    FirstFaultDecides(events, 0);
    var needed := ReferencedPages(Inputs(domain, events));
    FirstBadPageFinds(domain, SortedStrings(needed), req.env);
    forall page ensures page in needed <==> exists i :: 0 <= i < |events| && NeedsPage(events[i], page) {
      ReferencedMeansNeeded(domain, events, page);
    }
  }

  // ----- Acceptance -----

  /** The event's query log exists and belongs to the domain. */
  predicate Logged(env: Environment, domain: string, raw: RawEvent) {
    raw.Parsed? && raw.dto.logId in env.logs && env.logs[raw.dto.logId] == domain
  }

  predicate VisibleKey(raw: RawEvent) {
    raw.Parsed? && forall c :: c in raw.dto.idempotencyKey ==> '!' <= c <= '~'
  }

  /** What the store itself asks of a batch before it opens a transaction. */
  ghost predicate Visible(req: Request)
    requires req.payload.Some?
  {
    1 <= |req.payload.value.domain| <= 128
    && forall i :: 0 <= i < |req.payload.value.events| ==> VisibleKey(req.payload.value.events[i])
  }

  ghost predicate LoggedUpTo(req: Request, n: int)
    requires req.payload.Some?
  {
    forall i :: 0 <= i < n && i < |req.payload.value.events| ==>
      Logged(req.env, req.payload.value.domain, req.payload.value.events[i])
  }

  /** A statement of the batch meets a database error. */
  predicate Faulty(req: Request)
    requires req.payload.Some?
  {
    req.env.faultAt.Some? && req.env.faultAt.value < |req.payload.value.events|
  }

  ghost predicate LogsMatch(logs: map<int, string>, inputs: seq<EventInput>, n: int) {
    forall i :: 0 <= i < n && i < |inputs| ==> inputs[i].logId in logs && logs[inputs[i].logId] == inputs[i].domain
  }

  lemma {:induction false} FailureMeans(logs: map<int, string>, inputs: seq<EventInput>, faultAt: Option<nat>)
    ensures var fault := faultAt.Some? && faultAt.value < |inputs|;
            && (FirstFailure(logs, inputs, faultAt).None? <==> !fault && LogsMatch(logs, inputs, |inputs|))
            && (FirstFailure(logs, inputs, faultAt) == Some(Fault) <==> fault && LogsMatch(logs, inputs, faultAt.value))
  {
    if inputs != [] {
      FailureMeans(logs, inputs[..|inputs| - 1], faultAt);
    }
  }

  lemma ValidMeans(domain: string, raw: RawEvent)
    requires Fine(raw) && CheckEvent(raw).None?
    ensures ValidInput(InputOf(domain, raw)) <==> 1 <= |domain| <= 128 && VisibleKey(raw)
  {
  }

  lemma AllValidMeans(domain: string, events: seq<RawEvent>)
    requires events != [] && AllFine(events) && FirstBadEvent(events).None?
    ensures (forall e :: e in Inputs(domain, events) ==> ValidInput(e)) <==>
            1 <= |domain| <= 128 && forall i :: 0 <= i < |events| ==> VisibleKey(events[i])
  {
    var inputs := Inputs(domain, events);
    InputsAre(domain, events);
    forall i | 0 <= i < |events| ensures ValidInput(inputs[i]) <==> 1 <= |domain| <= 128 && VisibleKey(events[i]) {
      ValidMeans(domain, events[i]);
    }
    assert inputs[0] in inputs;
    assert forall i :: 0 <= i < |inputs| ==> inputs[i] in inputs;
  }

  lemma LogsMatchMeans(req: Request, n: int)
    requires req.payload.Some? && FirstBadEvent(req.payload.value.events).None?
    ensures LogsMatch(req.env.logs, Inputs(req.payload.value.domain, req.payload.value.events), n) <==> LoggedUpTo(req, n)
  {
    var domain, events := req.payload.value.domain, req.payload.value.events;
    var inputs := Inputs(domain, events);
    InputsAre(domain, events);
    forall i | 0 <= i < |events|
      ensures Logged(req.env, domain, events[i]) <==>
              inputs[i].logId in req.env.logs && req.env.logs[inputs[i].logId] == inputs[i].domain
    {
    }
  }

  lemma StoreOutcomeIs(table: Table, req: Request, inputs: seq<EventInput>)
    ensures var o, valid := StoreOutcome(table, req, inputs), forall e :: e in inputs ==> ValidInput(e);
            var fault := req.env.faultAt.Some? && req.env.faultAt.value < |inputs|;
            && (o.Accepted? <==> valid && !fault && LogsMatch(req.env.logs, inputs, |inputs|))
            && (o == StoreFailed <==> valid && fault && LogsMatch(req.env.logs, inputs, req.env.faultAt.value))
            && (o.Accepted? || o == StoreFailed || o == StoreRejected)
  {
    FailureMeans(req.env.logs, inputs, req.env.faultAt);
  }

  /** The store accepts a batch, meets a fault, or rejects it, each exactly under its condition. */
  lemma StoreAnswers(table: Table, req: Request)
    requires req.payload.Some? && req.payload.value.events != [] && AllFine(req.payload.value.events)
    requires FirstBadEvent(req.payload.value.events).None?
    ensures var n := |req.payload.value.events|;
            var o := StoreOutcome(table, req, Inputs(req.payload.value.domain, req.payload.value.events));
            && (o.Accepted? <==> Visible(req) && !Faulty(req) && LoggedUpTo(req, n))
            && (o == StoreFailed <==> Visible(req) && Faulty(req) && LoggedUpTo(req, req.env.faultAt.value))
            && (o.Accepted? || o == StoreFailed || o == StoreRejected)
  {
    var domain, events := req.payload.value.domain, req.payload.value.events;
    AllValidMeans(domain, events);
    StoreOutcomeIs(table, req, Inputs(domain, events));
    LogsMatchMeans(req, |events|);
    if Faulty(req) {
      LogsMatchMeans(req, req.env.faultAt.value);
    }
  }

  /** Count, events and pages are in order: what comes next is the store. */
  ghost predicate ReachesStore(req: Request) {
    req.payload.Some? && 1 <= |req.payload.value.events| <= 100 && AllFine(req.payload.value.events) && AllPagesKnown(req)
  }

  /** Everything that is sent can be stored. */
  ghost predicate Acceptable(req: Request) {
    ReachesStore(req) && Visible(req) && LoggedUpTo(req, |req.payload.value.events|) && !Faulty(req)
  }

  lemma AdmittedAnswers(table: Table, req: Request)
    requires req.payload.Some?
    ensures var o := AdmittedOutcome(table, req);
            && (o.Accepted? <==> Acceptable(req))
            && (o == StoreFailed <==>
                  ReachesStore(req) && Visible(req) && Faulty(req) && LoggedUpTo(req, req.env.faultAt.value))
  {
    var events := req.payload.value.events;
    FirstFaultDecides(events, 0);
    if 1 <= |events| <= 100 && AllFine(events) {
      PagesDecide(req);
      StoreAnswers(table, req);
    }
  }

  /** A request is answered 200 exactly when it is in order, its key has room in the window,
      and everything it sends is acceptable. */
  lemma AcceptedIff(cfg: Config, keys: Keys, s: Server, req: Request)
    requires cfg.Valid()
    ensures OutcomeOf(cfg, keys, s, req).Accepted? <==>
            InOrder(keys, req) && Used(cfg, keys, s, req) < cfg.max && Acceptable(req)
  {
    GatesInOrder(cfg, keys, s, req);
    if InOrder(keys, req) {
      AdmittedAnswers(s.table, req);
    }
  }

  /** An accepted request has every page that its clicks and adopts name. */
  lemma AcceptedPagesExist(cfg: Config, keys: Keys, s: Server, req: Request, i: nat)
    requires cfg.Valid() && OutcomeOf(cfg, keys, s, req).Accepted?
    requires i < |req.payload.value.events| && req.payload.value.events[i].Parsed?
    requires var e := req.payload.value.events[i].dto; e.kind == Click || e.kind == Adopt
    ensures var page := req.payload.value.events[i].dto.pageId;
            page.Some? && (req.payload.value.domain, page.value) in req.env.pages && page.value !in req.env.brokenLookups
  {
    AcceptedIff(cfg, keys, s, req);
    var raw := req.payload.value.events[i];
    assert Fine(raw);
    assert KnownPage(req.env, req.payload.value.domain, raw.dto.pageId.value) by {
      assert NeedsPage(raw, raw.dto.pageId.value);
    }
  }

  /** Where an answer past the limiter comes from. */
  lemma AdmittedFrom(table: Table, req: Request)
    requires req.payload.Some?
    ensures var o, first := AdmittedOutcome(table, req), FirstBadEvent(req.payload.value.events);
            var counted := 1 <= |req.payload.value.events| <= 100;
            && (!counted ==> o == BadEventCount)
            && (counted && first.Some? ==> o == first.value && (o.BadEvent? || o == MetadataTooLarge))
            && (counted && first.None? ==> !o.BadEventCount? && !o.BadEvent? && !o.MetadataTooLarge?)
            && (counted && first.None? ==> (o == UnknownPage || o == LookupFailed <==> RefusalOf(req).Some?))
  {
  }

  /** What follows for an answer that comes from there. */
  lemma FirstFaultAnswers(o: Outcome, events: seq<RawEvent>, i: nat, counted: bool)
    requires !counted ==> o == BadEventCount
    requires counted && FirstBadEvent(events).Some? ==> o == FirstBadEvent(events).value
    requires counted && FirstBadEvent(events).None? ==> !o.BadEventCount? && !o.BadEvent? && !o.MetadataTooLarge?
    ensures o == BadEventCount <==> !counted
    ensures o == BadEvent(i) <==> counted && i < |events| && Illegal(events[i]) && AllFine(events[..i])
    ensures counted && i < |events| && Oversized(events[i]) && AllFine(events[..i]) ==> o == MetadataTooLarge
  {
    FirstFaultDecides(events, i);
  }

  lemma EventAnswers(table: Table, req: Request, i: nat)
    requires req.payload.Some?
    ensures var o, events := AdmittedOutcome(table, req), req.payload.value.events;
            var counted := 1 <= |events| <= 100;
            && (o == BadEventCount <==> !counted)
            && (o == BadEvent(i) <==> counted && i < |events| && Illegal(events[i]) && AllFine(events[..i]))
            && (counted && i < |events| && Oversized(events[i]) && AllFine(events[..i]) ==> o == MetadataTooLarge)
  {
    AdmittedFrom(table, req);
    FirstFaultAnswers(AdmittedOutcome(table, req), req.payload.value.events, i, 1 <= |req.payload.value.events| <= 100);
  }

  lemma PageAnswers(table: Table, req: Request)
    requires req.payload.Some?
    ensures var o, events := AdmittedOutcome(table, req), req.payload.value.events;
            o == UnknownPage || o == LookupFailed <==> 1 <= |events| <= 100 && AllFine(events) && !AllPagesKnown(req)
  {
    var events := req.payload.value.events;
    AdmittedFrom(table, req);
    FirstFaultDecides(events, 0);
    if 1 <= |events| <= 100 && AllFine(events) {
      PagesDecide(req);
    }
  }

  /** The answers of the payload checks, for a request that got past the limiter. */
  lemma RefusalsInOrder(cfg: Config, keys: Keys, s: Server, req: Request, i: nat)
    requires cfg.Valid() && InOrder(keys, req) && Used(cfg, keys, s, req) < cfg.max
    ensures var o, events := OutcomeOf(cfg, keys, s, req), req.payload.value.events;
            var counted := 1 <= |events| <= 100;
            && (o == BadEventCount <==> !counted)
            && (o == BadEvent(i) <==> counted && i < |events| && Illegal(events[i]) && AllFine(events[..i]))
            && (counted && i < |events| && Oversized(events[i]) && AllFine(events[..i]) ==> o == MetadataTooLarge)
            && (o == UnknownPage || o == LookupFailed <==> counted && AllFine(events) && !AllPagesKnown(req))
            && (o == StoreFailed <==>
                  ReachesStore(req) && Visible(req) && Faulty(req) && LoggedUpTo(req, req.env.faultAt.value))
  {
    LaterAnswers(cfg, keys, s, req);
    AdmittedAnswers(s.table, req);
    EventAnswers(s.table, req, i);
    PageAnswers(s.table, req);
  }

  /** Of several bad pages the first in string order decides: it is missing, or its lookup
      fails. */
  lemma FirstBadPageDecides(req: Request) returns (page: string)
    requires req.payload.Some? && 1 <= |req.payload.value.events| <= 100 && AllFine(req.payload.value.events)
    requires !AllPagesKnown(req)
    ensures !KnownPage(req.env, req.payload.value.domain, page)
    ensures exists i :: 0 <= i < |req.payload.value.events| && NeedsPage(req.payload.value.events[i], page)
    ensures RefusalOf(req) == Some(if page in req.env.brokenLookups then LookupFailed else UnknownPage)
    ensures forall i, other ::
              (0 <= i < |req.payload.value.events| && NeedsPage(req.payload.value.events[i], other)
               && !KnownPage(req.env, req.payload.value.domain, other)) ==>
                other == page || StringLt(page, other)
  {
    var domain, events := req.payload.value.domain, req.payload.value.events;
    FirstFaultDecides(events, 0);
    PagesDecide(req);
    var needed := ReferencedPages(Inputs(domain, events));
    var pages := SortedStrings(needed);
    FirstBadPageFinds(domain, pages, req.env);
    var k := FirstBadPageAt(domain, pages, req.env);
    page := pages[k];
    assert page in pages;
    SortedStringsAscend(needed);
    forall other ensures other in needed <==> exists i :: 0 <= i < |events| && NeedsPage(events[i], other) {
      ReferencedMeansNeeded(domain, events, other);
    }
    forall i, other | 0 <= i < |events| && NeedsPage(events[i], other) && !KnownPage(req.env, domain, other)
      ensures other == page || StringLt(page, other)
    {
      assert other in pages;
      var j :| 0 <= j < |pages| && pages[j] == other;
    }
  }

  lemma {:induction false} FirstBadPageAt(domain: string, pages: seq<string>, env: Environment) returns (k: nat)
    requires FirstBadPage(domain, pages, env).Some?
    ensures k < |pages| && !KnownPage(env, domain, pages[k])
    ensures forall j :: 0 <= j < k ==> KnownPage(env, domain, pages[j])
    ensures FirstBadPage(domain, pages, env) == Some(if pages[k] in env.brokenLookups then LookupFailed else UnknownPage)
  {
    var front := pages[..|pages| - 1];
    if FirstBadPage(domain, front, env).Some? {
      k := FirstBadPageAt(domain, front, env);
    } else {
      k := |pages| - 1;
      FirstBadPageFinds(domain, front, env);
      forall j | 0 <= j < k ensures KnownPage(env, domain, pages[j]) {
        assert front[j] in front;
      }
    }
  }

  // ----- What is written -----

  /** The audit rows: one for each 413 whose row could be written, with its reason, the
      declared budget or the size of the body, and the domain once the request names one. */
  lemma AuditRows(cfg: Config, keys: Keys, s: Server, req: Request)
    requires cfg.Valid()
    ensures var o := OutcomeOf(cfg, keys, s, req);
            NextServer(cfg, keys, s, req).audits ==
            if req.env.auditFails then s.audits
            else if o == TooLarge then s.audits + [Audit(None, PayloadTooLarge, 65536, req.recordedAt)]
            else if o == BadEventCount then
              s.audits + [Audit(Some(req.payload.value.domain), EventCountTooLarge, req.body.value, req.recordedAt)]
            else if o == MetadataTooLarge then
              s.audits + [Audit(Some(req.payload.value.domain), FieldTooLarge, req.body.value, req.recordedAt)]
            else s.audits
  {
    GatesInOrder(cfg, keys, s, req);
  }

  /** Some event before the i-th has the same idempotency key. */
  ghost predicate SentBefore(events: seq<RawEvent>, i: nat)
    requires i < |events| && events[i].Parsed?
  {
    exists j :: 0 <= j < i && events[j].Parsed? && events[j].dto.idempotencyKey == events[i].dto.idempotencyKey
  }

  lemma KeysBefore(domain: string, events: seq<RawEvent>, i: nat)
    requires i < |events| && FirstBadEvent(events).None?
    ensures events[i].Parsed? && KeyOf(Inputs(domain, events)[i]) == (domain, events[i].dto.idempotencyKey)
    ensures KeyOf(Inputs(domain, events)[i]) in KeysOf(Inputs(domain, events)[..i]) <==> SentBefore(events, i)
  {
    var inputs := Inputs(domain, events);
    InputsAre(domain, events);
    var before := inputs[..i];
    if KeyOf(inputs[i]) in KeysOf(before) {
      var e :| e in before && KeyOf(e) == KeyOf(inputs[i]);
      var j :| 0 <= j < i && before[j] == e;
      assert inputs[j] == InputOf(domain, events[j]);
    }
    if SentBefore(events, i) {
      var j :| 0 <= j < i && events[j].Parsed? && events[j].dto.idempotencyKey == events[i].dto.idempotencyKey;
      assert before[j] in before && KeyOf(before[j]) == KeyOf(inputs[i]);
    }
  }

  /** Every event of an accepted request is stored under its domain and key, and acknowledged
      with the row found there: a replay if the key was there or came earlier in the request,
      and otherwise a row that holds all that was sent. */
  lemma AcceptedIsStored(cfg: Config, keys: Keys, s: Server, req: Request, i: nat)
    requires cfg.Valid() && Coherent(s.table) && OutcomeOf(cfg, keys, s, req).Accepted?
    requires i < |req.payload.value.events| && req.payload.value.events[i].Parsed?
    requires i < |OutcomeOf(cfg, keys, s, req).acks|
    ensures var domain, e := req.payload.value.domain, req.payload.value.events[i].dto;
            var rows, ack := NextServer(cfg, keys, s, req).table.rows, OutcomeOf(cfg, keys, s, req).acks[i];
            var key := (domain, e.idempotencyKey);
            && key in rows && ack.eventId == rows[key].eventId && ack.receivedAt == rows[key].receivedAt
            && (ack.replayed <==> key in s.table.rows || SentBefore(req.payload.value.events, i))
            && (!ack.replayed ==>
                  rows[key] == Row(ack.eventId, req.recordedAt, EventInput(e.idempotencyKey, domain, e.logId, e.kind,
                                     e.pageId, e.rating, e.metadataIsObject, e.metadataBytes)))
  {
    var domain, events := req.payload.value.domain, req.payload.value.events;
    AcceptedMeans(cfg, keys, s, req);
    var inputs := Inputs(domain, events);
    InputsAre(domain, events);
    KeysBefore(domain, events, i);
    BatchAcknowledges(s.table, inputs, req.recordedAt);
    BatchReplays(s.table, inputs, req.recordedAt, i);
    if !OutcomeOf(cfg, keys, s, req).acks[i].replayed {
      BatchStamps(s.table, inputs, req.recordedAt, i);
    }
  }

  /** An accepted request is acknowledged event by event. */
  lemma AcceptedIsComplete(cfg: Config, keys: Keys, s: Server, req: Request)
    requires cfg.Valid() && OutcomeOf(cfg, keys, s, req).Accepted?
    ensures |OutcomeOf(cfg, keys, s, req).acks| == |req.payload.value.events|
  {
    AcceptedMeans(cfg, keys, s, req);
  }

  // ----- What is counted -----

  /** The answers that a rejection cell is about. */
  predicate BelongsTo(cell: RejectionReason, o: Outcome) {
    match cell
    case Unauthenticated => o.NotAuthenticated?
    case TenantForbidden => o.Forbidden?
    case InvalidJson => o.BadJson?
    case PayloadTooLarge => o.TooLarge?
    case EventCountTooLarge => o.BadEventCount?
    case FieldTooLarge => o.MetadataTooLarge?
    case InvalidFeedback => o.BadEvent? || o.UnknownPage? || o.StoreRejected?
  }

  function Belonging(cell: RejectionReason): Exchange -> bool { (x: Exchange) => BelongsTo(cell, x.outcome) }

  predicate WasLimited(x: Exchange) { x.outcome.RateLimited? }

  predicate WasFailure(x: Exchange) { x.outcome.LookupFailed? || x.outcome.StoreFailed? }

  lemma {:induction false} CellCounts(cell: RejectionReason, log: seq<Exchange>)
    ensures SumBy(HasReason(cell), log) == |Filter(Belonging(cell), log)|
  {
    if log != [] {
      CellCounts(cell, log[..|log| - 1]);
      ReasonMeans(cell, log[|log| - 1]);
    }
  }

  lemma ReasonMeans(cell: RejectionReason, x: Exchange)
    ensures HasReason(cell)(x) == if Belonging(cell)(x) then 1 else 0
  {
  }

  lemma {:induction false} OthersCount(log: seq<Exchange>)
    ensures SumBy(Limited, log) == |Filter(WasLimited, log)| && SumBy(Failed, log) == |Filter(WasFailure, log)|
  {
    if log != [] {
      OthersCount(log[..|log| - 1]);
    }
  }

  /** Over every run each rejection cell counts the answers that belong to it. */
  lemma RejectionCells(cfg: Config, keys: Keys, reqs: seq<Request>, cell: RejectionReason)
    requires cfg.Valid()
    ensures After(cfg, keys, reqs).counters.rejected(cell) == |Filter(Belonging(cell), Log(cfg, keys, reqs))|
  {
    CountersAreExact(cfg, keys, reqs);
    CellCounts(cell, Log(cfg, keys, reqs));
  }

  /** Over every run the refusals of the limiter, and the failures of a lookup or of the store
      together with the lost audit rows. */
  lemma OtherCounters(cfg: Config, keys: Keys, reqs: seq<Request>)
    requires cfg.Valid()
    ensures var c, log := After(cfg, keys, reqs).counters, Log(cfg, keys, reqs);
            && c.rateLimited == |Filter(WasLimited, log)|
            && c.storeErrors == |Filter(WasFailure, log)| + |Filter(LosesAudit, log)|
  {
    var log := Log(cfg, keys, reqs);
    CountersAreExact(cfg, keys, reqs);
    OthersCount(log);
    LostAudits(cfg, keys, reqs);
  }

  predicate LosesAudit(x: Exchange) {
    x.req.env.auditFails && (x.outcome.TooLarge? || x.outcome.BadEventCount? || x.outcome.MetadataTooLarge?)
  }

  lemma Audited(cfg: Config, keys: Keys, s: Server, req: Request)
    requires cfg.Valid()
    ensures var o := OutcomeOf(cfg, keys, s, req);
            AuditOf(req, o).Some? <==> o.TooLarge? || o.BadEventCount? || o.MetadataTooLarge?
  {
    GatesInOrder(cfg, keys, s, req);
  }

  lemma {:induction false} LostAudits(cfg: Config, keys: Keys, reqs: seq<Request>)
    requires cfg.Valid()
    ensures SumBy(LostAudit, Log(cfg, keys, reqs)) == |Filter(LosesAudit, Log(cfg, keys, reqs))|
  {
    if reqs != [] {
      var front, last := reqs[..|reqs| - 1], reqs[|reqs| - 1];
      var x := Exchange(last, Answer(cfg, keys, front, last));
      LostAudits(cfg, keys, front);
      Audited(cfg, keys, After(cfg, keys, front), last);
      SumByPush(LostAudit, Log(cfg, keys, front), x);
      FilterPush(LosesAudit, Log(cfg, keys, front), x);
    }
  }

  /** The status of every answer. */
  lemma StatusCodes(o: Outcome)
    ensures Status(o) == 200 <==> o.Accepted?
    ensures Status(o) == 400 <==> o.BadJson?
    ensures Status(o) == 401 <==> o.NotAuthenticated?
    ensures Status(o) == 403 <==> o.Forbidden?
    ensures Status(o) == 413 <==> o.TooLarge? || o.BadEventCount? || o.MetadataTooLarge?
    ensures Status(o) == 422 <==> o.BadEvent? || o.UnknownPage? || o.StoreRejected?
    ensures Status(o) == 429 <==> o.RateLimited?
    ensures Status(o) == 500 <==> o.LookupFailed? || o.StoreFailed?
  {
  }
}
