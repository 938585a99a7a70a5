/** The feedback handler: a server object over its limiter, metrics and event store,
    proved to answer and to change state as the request step says. It keeps the history of
    its requests, so that the laws of whole runs are laws of the object. */
module FeedbackServer {
  import opened Wrappers
  import opened Sequences
  import opened Orders
  import opened RateLimit
  import opened Metrics
  import opened FeedbackStore
  import opened Feedback
  import opened FeedbackRuns

  class FeedbackServer {
    const keys: Keys
    const limiter: FixedWindowLimiter
    const metrics: Metrics
    const store: EventStore
    var audits: seq<Audit>
    ghost var history: seq<Request>

    ghost predicate Valid()
      reads this, limiter, metrics, store
    {
      limiter.Valid() && View() == After(limiter.cfg, keys, history)
    }

    ghost function View(): Server
      reads this, limiter, metrics, store
    {
      Server(limiter.windows, metrics.counters, store.table, audits)
    }

    constructor (keys: Keys, windowSecs: nat, maxPerWindow: nat)
      ensures Valid() && fresh(limiter) && fresh(metrics) && fresh(store)
      ensures this.keys == keys && history == []
    {
      this.keys := keys;
      limiter := new FixedWindowLimiter(windowSecs, maxPerWindow);
      metrics := new Metrics();
      store := new EventStore();
      audits := [];
      history := [];
    }

    /** Writes the audit row of a 413, or counts a store error if that write fails. */
    method RecordRejection(audit: Audit, writeFails: bool)
      modifies this`audits, metrics`counters
      ensures audits == if writeFails then old(audits) else old(audits) + [audit]
      ensures metrics.counters ==
              var c := old(metrics.counters); if writeFails then c.(storeErrors := c.storeErrors + 1) else c
    {
      if writeFails {
        metrics.RecordStoreError();
      } else {
        audits := audits + [audit];
      }
    }

    /** One POST /feedback request. */
    method Handle(req: Request) returns (o: Outcome)
      requires Valid()
      modifies this, limiter, metrics, store
      ensures Valid() && history == old(history) + [req]
      ensures o == Answer(limiter.cfg, keys, old(history), req)
    {
      o := Serve(req);
      AfterPush(limiter.cfg, keys, history, req);
      history := history + [req];
    }

    /** The gates in their order. */
    method Serve(req: Request) returns (o: Outcome)
      requires limiter.Valid()
      modifies this`audits, limiter, metrics`counters, store
      ensures limiter.Valid()
      ensures o == OutcomeOf(limiter.cfg, keys, old(View()), req)
      ensures View() == NextServer(limiter.cfg, keys, old(View()), req)
    {
      if BodyTooLarge(req) {
        Refuse(req, TooLarge);
        return TooLarge;
      }
      var identity := Lookup(keys, req.secret);
      if identity.None? {
        Refuse(req, NotAuthenticated);
        return NotAuthenticated;
      }
      if req.payload.None? {
        Refuse(req, BadJson);
        return BadJson;
      }
      var domain := req.payload.value.domain;
      if domain != identity.value.domain {
        Refuse(req, Forbidden);
        return Forbidden;
      }
      assert ReachesLimiter(keys, req);
      assert LimiterCall(keys, req) == Call((domain, identity.value.keyLabel), req.now);
      var acquired := limiter.TryAcquire(domain, identity.value.keyLabel, req.now);
      HistoryPush(limiter.cfg, old(limiter.history), LimiterCall(keys, req));
      if acquired.RetryAfter? {
        metrics.RecordRateLimited();
        return RateLimited(acquired.seconds);
      }
      o := HandleAdmitted(req);
    }

    /** The request after the limiter let it through. */
    method HandleAdmitted(req: Request) returns (o: Outcome)
      requires req.payload.Some? && req.body.Some?
      modifies this`audits, metrics`counters, store
      ensures o == AdmittedOutcome(old(store.table), req)
      ensures metrics.counters == Counted(old(metrics.counters), o, AuditLost(req, o))
      ensures audits == AuditsAfter(old(audits), req, o)
      ensures o.Accepted? ==> FirstBadEvent(req.payload.value.events).None?
      ensures store.table ==
              if o.Accepted? then
                InsertAll(old(store.table), Inputs(req.payload.value.domain, req.payload.value.events), req.recordedAt).0
              else old(store.table)
    {
      var checked := CheckPayload(req);
      if checked.Failure? {
        Refuse(req, checked.error);
        return checked.error;
      }
      o := Persist(req, checked.value);
    }

    /** Counts a refusal under its reason, or as a store error, and audits a 413. */
    method Refuse(req: Request, o: Outcome)
      requires !o.Accepted? && !o.RateLimited?
      modifies this`audits, metrics`counters
      ensures metrics.counters == Counted(old(metrics.counters), o, AuditLost(req, o))
      ensures audits == AuditsAfter(old(audits), req, o)
    {
      var reason, audit := ReasonOf(o), AuditOf(req, o);
      if reason.Some? {
        metrics.RecordRejected(reason.value);
      } else {
        metrics.RecordStoreError();
      }
      if audit.Some? {
        RecordRejection(audit.value, req.env.auditFails);
      }
    }

    /** The store transaction, with events counted as new or replayed. */
    method Persist(req: Request, inputs: seq<EventInput>) returns (o: Outcome)
      modifies metrics`counters, store
      ensures o == StoreOutcome(old(store.table), req, inputs) && AuditOf(req, o).None?
      ensures metrics.counters == Counted(old(metrics.counters), o, false)
      ensures store.table == if o.Accepted? then InsertAll(old(store.table), inputs, req.recordedAt).0 else old(store.table)
    {
      var stored := store.InsertBatchIdempotent(req.env.logs, inputs, req.recordedAt, req.env.faultAt);
      match stored
      case Success(acks) =>
        metrics.AddIngested(CountNew(acks));
        metrics.AddReplayed(|acks| - CountNew(acks));
        o := Accepted(acks);
      case Failure(Invalid) =>
        metrics.RecordRejected(InvalidFeedback);
        o := StoreRejected;
      case Failure(Fault) =>
        metrics.RecordStoreError();
        o := StoreFailed;
    }
  }

  lemma AfterPush(cfg: Config, keys: Keys, history: seq<Request>, req: Request)
    requires cfg.Valid()
    ensures After(cfg, keys, history + [req]) == NextServer(cfg, keys, After(cfg, keys, history), req)
  {
    assert (history + [req])[..|history|] == history;
  }

  /** Whatever requests a server has handled, its counters tell its answers and balance with
      their number, its lost and written audits add up, and its table holds one row per event
      it acknowledged as new. */
  lemma ServerKeepsBooks(server: FeedbackServer)
    requires server.Valid()
    ensures var log := Log(server.limiter.cfg, server.keys, server.history);
            && |log| == |server.history|
            && CountersTell(server.metrics.counters, log) && Balanced(server.metrics.counters, log)
            && |server.audits| + SumBy(LostAudit, log) == SumBy(Audited, log)
            && Coherent(server.store.table) && |server.store.table.rows| == server.metrics.counters.ingested
  {
    var cfg, keys, history := server.limiter.cfg, server.keys, server.history;
    assert server.View() == After(cfg, keys, history);
    CountersAreExact(cfg, keys, history);
    OutcomesAreConserved(cfg, keys, history);
    AuditsAreConserved(cfg, keys, history);
    TableGrows(cfg, keys, history, |history|);
  }

  /** Event count, events and referenced pages, in that order. */
  method CheckPayload(req: Request) returns (checked: Result<seq<EventInput>, Outcome>)
    requires req.payload.Some?
    ensures checked.Failure? ==> RefusalOf(req) == Some(checked.error)
    ensures checked.Success? ==> RefusalOf(req).None? && FirstBadEvent(req.payload.value.events).None?
    ensures checked.Success? ==> checked.value == Inputs(req.payload.value.domain, req.payload.value.events)
  {
    var domain, events := req.payload.value.domain, req.payload.value.events;
    if events == [] || |events| > MAX_EVENTS {
      return Failure(BadEventCount);
    }
    checked := ReadEvents(domain, events);
    if checked.Failure? {
      return;
    }
    var badPage := CheckPages(domain, checked.value, req.env);
    if badPage.Some? {
      return Failure(badPage.value);
    }
  }

  lemma HistoryPush(cfg: Config, history: seq<Call<LimitKey>>, c: Call<LimitKey>)
    requires cfg.Valid()
    ensures StateAfter(cfg, history + [c]) == Step(cfg, StateAfter(cfg, history), c).0
  {
    assert (history + [c])[..|history|] == history;
  }

  /** Validates the events one by one, stopping at the first bad one. */
  method ReadEvents(domain: string, events: seq<RawEvent>) returns (outcome: Result<seq<EventInput>, Outcome>)
    ensures outcome.Success? <==> FirstBadEvent(events).None?
    ensures outcome.Success? ==> outcome.value == Inputs(domain, events)
    ensures outcome.Failure? ==> FirstBadEvent(events) == Some(outcome.error)
  {
    var inputs: seq<EventInput> := [];
    for i := 0 to |events|
      invariant FirstBadEvent(events[..i]).None?
      invariant inputs == Inputs(domain, events[..i])
    {
      TakeStep(events, i);
      var fault := CheckEvent(events[i]);
      if fault.Some? {
        FirstBadEventStays(events, i + 1);
        return Failure(if fault.value.Illegal? then BadEvent(i) else MetadataTooLarge);
      }
      inputs := inputs + [InputOf(domain, events[i])];
    }
    TakeAll(events);
    return Success(inputs);
  }

  lemma {:induction false} FirstBadEventStays(events: seq<RawEvent>, n: nat)
    requires n <= |events| && FirstBadEvent(events[..n]).Some?
    ensures FirstBadEvent(events) == FirstBadEvent(events[..n])
    decreases |events|
  {
    if n == |events| {
      TakeAll(events);
    } else {
      var front := events[..|events| - 1];
      assert front[..n] == events[..n];
      FirstBadEventStays(front, n);
    }
  }

  /** Collects the pages that clicks and adopts refer to and looks each one up. */
  method CheckPages(domain: string, inputs: seq<EventInput>, env: Environment) returns (bad: Option<Outcome>)
    ensures bad == FirstBadPage(domain, SortedStrings(ReferencedPages(inputs)), env)
  {
    var referenced: set<string> := {};
    for i := 0 to |inputs|
      invariant referenced == ReferencedPages(inputs[..i])
    {
      TakeStep(inputs, i);
      ReferencedPush(inputs[..i], inputs[i]);
      if RefersToPage(inputs[i]) {
        referenced := referenced + {inputs[i].pageId.value};
      }
    }
    TakeAll(inputs);
    var pages := SortedStrings(referenced);
    for i := 0 to |pages|
      invariant FirstBadPage(domain, pages[..i], env).None?
    {
      TakeStep(pages, i);
      if pages[i] in env.brokenLookups {
        FirstBadPageStays(domain, pages, env, i + 1);
        return Some(LookupFailed);
      }
      if (domain, pages[i]) !in env.pages {
        FirstBadPageStays(domain, pages, env, i + 1);
        return Some(UnknownPage);
      }
    }
    TakeAll(pages);
    return None;
  }

  lemma ReferencedPush(inputs: seq<EventInput>, e: EventInput)
    ensures ReferencedPages(inputs + [e]) == ReferencedPages(inputs) + if RefersToPage(e) then {e.pageId.value} else {}
  {
    assert forall x :: x in inputs + [e] <==> x in inputs || x == e;
  }

  lemma {:induction false} FirstBadPageStays(domain: string, pages: seq<string>, env: Environment, n: nat)
    requires n <= |pages| && FirstBadPage(domain, pages[..n], env).Some?
    ensures FirstBadPage(domain, pages, env) == FirstBadPage(domain, pages[..n], env)
    decreases |pages|
  {
    if n == |pages| {
      TakeAll(pages);
    } else {
      var front := pages[..|pages| - 1];
      assert front[..n] == pages[..n];
      FirstBadPageStays(domain, front, env, n);
    }
  }
}
