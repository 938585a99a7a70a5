/** What every run of feedback requests keeps: conservation of outcomes, exact counters,
    limiter exactness across requests, and stable acknowledgements. */
module FeedbackRuns {
  import opened Wrappers
  import opened Sequences
  import opened RateLimit
  import opened Metrics
  import opened FeedbackStore
  import opened Feedback

  const START := Server(map[], ZERO_COUNTERS, EMPTY_TABLE, [])

  /** The server after a run of requests. */
  ghost function After(cfg: Config, keys: Keys, reqs: seq<Request>): Server
    requires cfg.Valid()
  {
    if reqs == [] then START else NextServer(cfg, keys, After(cfg, keys, reqs[..|reqs| - 1]), reqs[|reqs| - 1])
  }

  /** A request paired with its answer. */
  datatype Exchange = Exchange(req: Request, outcome: Outcome)

  ghost function Answer(cfg: Config, keys: Keys, reqs: seq<Request>, req: Request): Outcome
    requires cfg.Valid()
  {
    OutcomeOf(cfg, keys, After(cfg, keys, reqs), req)
  }

  ghost function Log(cfg: Config, keys: Keys, reqs: seq<Request>): (r: seq<Exchange>)
    requires cfg.Valid()
    ensures |r| == |reqs|
  {
    if reqs == [] then []
    else
      var front, last := reqs[..|reqs| - 1], reqs[|reqs| - 1];
      Log(cfg, keys, front) + [Exchange(last, Answer(cfg, keys, front, last))]
  }

  function Ok(x: Exchange): int { if Status(x.outcome) == 200 then 1 else 0 }

  function Failed(x: Exchange): int { if Status(x.outcome) == 500 then 1 else 0 }

  function Limited(x: Exchange): int { if Status(x.outcome) == 429 then 1 else 0 }

  function LostAudit(x: Exchange): int {
    if AuditOf(x.req, x.outcome).Some? && x.req.env.auditFails then 1 else 0
  }

  function Audited(x: Exchange): int { if AuditOf(x.req, x.outcome).Some? then 1 else 0 }

  function Acknowledged(x: Exchange): int { if x.outcome.Accepted? then |x.outcome.acks| else 0 }

  function AcknowledgedNew(x: Exchange): int { if x.outcome.Accepted? then CountNew(x.outcome.acks) else 0 }

  function HasReason(reason: RejectionReason): Exchange -> int {
    (x: Exchange) => if ReasonOf(x.outcome) == Some(reason) then 1 else 0
  }

  /** Every counter is the number of exchanges that it is about. */
  ghost predicate CountersTell(c: Counters, log: seq<Exchange>) {
    && c.rateLimited == SumBy(Limited, log)
    && c.storeErrors == SumBy(Failed, log) + SumBy(LostAudit, log)
    && c.ingested == SumBy(AcknowledgedNew, log)
    && c.ingested + c.replayed == SumBy(Acknowledged, log)
    && forall r :: c.rejected(r) == SumBy(HasReason(r), log)
  }

  lemma CountersStep(c: Counters, log: seq<Exchange>, x: Exchange)
    requires CountersTell(c, log)
    ensures CountersTell(Counted(c, x.outcome, AuditLost(x.req, x.outcome)), log + [x])
  {
    var lost := AuditLost(x.req, x.outcome);
    TotalsPush(log, x);
    CountedDeltas(c, x, lost);
    forall r ensures Counted(c, x.outcome, lost).rejected(r) == SumBy(HasReason(r), log + [x]) {
      SumByPush(HasReason(r), log, x);
      CountedReason(c, x, lost, r);
    }
  }

  lemma CountedDeltas(c: Counters, x: Exchange, auditLost: bool)
    ensures var d := Counted(c, x.outcome, auditLost);
            && d.rateLimited == c.rateLimited + Limited(x)
            && d.storeErrors == c.storeErrors + Failed(x) + (if auditLost then 1 else 0)
            && d.ingested == c.ingested + AcknowledgedNew(x)
            && d.ingested + d.replayed == c.ingested + c.replayed + Acknowledged(x)
  {
  }

  lemma CountedReason(c: Counters, x: Exchange, auditLost: bool, reason: RejectionReason)
    ensures Counted(c, x.outcome, auditLost).rejected(reason) == c.rejected(reason) + HasReason(reason)(x)
  {
  }

  lemma TotalsPush(log: seq<Exchange>, x: Exchange)
    ensures SumBy(Limited, log + [x]) == SumBy(Limited, log) + Limited(x)
    ensures SumBy(Failed, log + [x]) == SumBy(Failed, log) + Failed(x)
    ensures SumBy(LostAudit, log + [x]) == SumBy(LostAudit, log) + LostAudit(x)
    ensures SumBy(AcknowledgedNew, log + [x]) == SumBy(AcknowledgedNew, log) + AcknowledgedNew(x)
    ensures SumBy(Acknowledged, log + [x]) == SumBy(Acknowledged, log) + Acknowledged(x)
  {
    SumByPush(Limited, log, x);
    SumByPush(Failed, log, x);
    SumByPush(LostAudit, log, x);
    SumByPush(AcknowledgedNew, log, x);
    SumByPush(Acknowledged, log, x);
  }

  lemma {:induction false} CountersAreExact(cfg: Config, keys: Keys, reqs: seq<Request>)
    requires cfg.Valid()
    ensures CountersTell(After(cfg, keys, reqs).counters, Log(cfg, keys, reqs))
  {
    if reqs != [] {
      var front, last := reqs[..|reqs| - 1], reqs[|reqs| - 1];
      CountersAreExact(cfg, keys, front);
      CountersStep(After(cfg, keys, front).counters, Log(cfg, keys, front), Exchange(last, Answer(cfg, keys, front, last)));
    }
  }

  /** Requests = 200s + rejections of all reasons + 429s + 500s. */
  ghost predicate Balanced(c: Counters, log: seq<Exchange>) {
    |log| == SumBy(Ok, log) + TotalRejected(c.rejected) + c.rateLimited + SumBy(Failed, log)
  }

  lemma BalanceStep(c: Counters, log: seq<Exchange>, x: Exchange)
    requires Balanced(c, log)
    ensures Balanced(Counted(c, x.outcome, AuditLost(x.req, x.outcome)), log + [x])
  {
    SumByPush(Ok, log, x);
    SumByPush(Failed, log, x);
    OneKind(x);
    CountedTotals(c, x, AuditLost(x.req, x.outcome));
  }

  function Refused(x: Exchange): int { if ReasonOf(x.outcome).Some? then 1 else 0 }

  lemma OneKind(x: Exchange)
    ensures Ok(x) + Limited(x) + Failed(x) + Refused(x) == 1
  {
  }

  lemma CountedTotals(c: Counters, x: Exchange, auditLost: bool)
    ensures var d := Counted(c, x.outcome, auditLost);
            && TotalRejected(d.rejected) == TotalRejected(c.rejected) + Refused(x)
            && d.rateLimited == c.rateLimited + Limited(x)
  {
    if ReasonOf(x.outcome).Some? {
      BumpTotal(c.rejected, ReasonOf(x.outcome).value);
    }
  }

  lemma BumpTotal(cells: RejectionReason -> nat, reason: RejectionReason)
    ensures TotalRejected(Bump(cells, reason)) == TotalRejected(cells) + 1
  {
  }

  /** Every request of every run has exactly one outcome. */
  lemma {:induction false} OutcomesAreConserved(cfg: Config, keys: Keys, reqs: seq<Request>)
    requires cfg.Valid()
    ensures Balanced(After(cfg, keys, reqs).counters, Log(cfg, keys, reqs))
  {
    if reqs != [] {
      var front, last := reqs[..|reqs| - 1], reqs[|reqs| - 1];
      OutcomesAreConserved(cfg, keys, front);
      BalanceStep(After(cfg, keys, front).counters, Log(cfg, keys, front), Exchange(last, Answer(cfg, keys, front, last)));
    }
  }

  /** Every audited rejection is either on record or counted as a store error. */
  lemma {:induction false} AuditsAreConserved(cfg: Config, keys: Keys, reqs: seq<Request>)
    requires cfg.Valid()
    ensures |After(cfg, keys, reqs).audits| + SumBy(LostAudit, Log(cfg, keys, reqs)) == SumBy(Audited, Log(cfg, keys, reqs))
  {
    if reqs != [] {
      var front, last := reqs[..|reqs| - 1], reqs[|reqs| - 1];
      var x := Exchange(last, Answer(cfg, keys, front, last));
      AuditsAreConserved(cfg, keys, front);
      SumByPush(LostAudit, Log(cfg, keys, front), x);
      SumByPush(Audited, Log(cfg, keys, front), x);
    }
  }

  // ----- The event table -----

  lemma AcceptedMeans(cfg: Config, keys: Keys, s: Server, req: Request)
    requires cfg.Valid()
    ensures OutcomeOf(cfg, keys, s, req).Accepted? ==>
              && ReachesLimiter(keys, req) && FirstBadEvent(req.payload.value.events).None?
              && var inputs := Inputs(req.payload.value.domain, req.payload.value.events);
                 && OutcomeOf(cfg, keys, s, req).acks == InsertAll(s.table, inputs, req.recordedAt).1
                 && NextServer(cfg, keys, s, req).table == InsertAll(s.table, inputs, req.recordedAt).0
  {
  }

  ghost predicate TableCounted(s: Server) { Coherent(s.table) && |s.table.rows| == s.counters.ingested }

  /** A request keeps every stored event; any answer but a 200 leaves the table as it was. */
  lemma TableStep(cfg: Config, keys: Keys, s: Server, req: Request)
    requires cfg.Valid() && TableCounted(s)
    ensures TableCounted(NextServer(cfg, keys, s, req)) && Extends(s.table, NextServer(cfg, keys, s, req).table)
    ensures Status(OutcomeOf(cfg, keys, s, req)) != 200 ==> NextServer(cfg, keys, s, req).table == s.table
  {
    var o := OutcomeOf(cfg, keys, s, req);
    assert NextServer(cfg, keys, s, req).counters == Counted(s.counters, o, AuditLost(req, o));
    IngestedStep(s.counters, o, AuditLost(req, o));
    if o.Accepted? {
      AcceptedMeans(cfg, keys, s, req);
      BatchKeepsRows(s.table, Inputs(req.payload.value.domain, req.payload.value.events), req.recordedAt);
    } else {
      assert NextServer(cfg, keys, s, req).table == s.table;
    }
    AcceptedIsOk(o);
  }

  lemma AcceptedIsOk(o: Outcome)
    ensures Status(o) == 200 <==> o.Accepted?
  {
  }

  lemma IngestedStep(c: Counters, o: Outcome, auditLost: bool)
    ensures Counted(c, o, auditLost).ingested == c.ingested + if o.Accepted? then CountNew(o.acks) else 0
  {
  }

  /** The table stays coherent, only grows, and holds one row per event ever
      acknowledged as new. */
  lemma TableGrows(cfg: Config, keys: Keys, reqs: seq<Request>, n: nat)
    requires cfg.Valid() && n <= |reqs|
    ensures TableCounted(After(cfg, keys, reqs))
    ensures Extends(After(cfg, keys, reqs[..n]).table, After(cfg, keys, reqs).table)
  {
    TableIsCounted(cfg, keys, reqs);
    TableExtends(cfg, keys, reqs, n);
  }

  lemma {:induction false} TableIsCounted(cfg: Config, keys: Keys, reqs: seq<Request>)
    requires cfg.Valid()
    ensures TableCounted(After(cfg, keys, reqs))
  {
    if reqs != [] {
      var front, last := reqs[..|reqs| - 1], reqs[|reqs| - 1];
      TableIsCounted(cfg, keys, front);
      TableStep(cfg, keys, After(cfg, keys, front), last);
    }
  }

  lemma {:induction false} TableExtends(cfg: Config, keys: Keys, reqs: seq<Request>, n: nat)
    requires cfg.Valid() && n <= |reqs|
    ensures Extends(After(cfg, keys, reqs[..n]).table, After(cfg, keys, reqs).table)
    decreases |reqs|
  {
    if n == |reqs| {
      TakeAll(reqs);
    } else {
      var front, last := reqs[..|reqs| - 1], reqs[|reqs| - 1];
      var first := After(cfg, keys, reqs[..n]);
      TableExtends(cfg, keys, front, n);
      assert front[..n] == reqs[..n];
      TableIsCounted(cfg, keys, front);
      TableStep(cfg, keys, After(cfg, keys, front), last);
      ExtendsTwice(first.table, After(cfg, keys, front).table, After(cfg, keys, reqs).table);
    }
  }

  lemma ExtendsTwice(t: Table, u: Table, v: Table)
    requires Extends(t, u) && Extends(u, v)
    ensures Extends(t, v)
  {
  }

  /** The acknowledgements of a request, event by event, tell what the table holds. */
  ghost predicate StandsIn(t: Table, req: Request, acks: seq<Ingested>) {
    && req.payload.Some? && FirstBadEvent(req.payload.value.events).None?
    && var inputs := Inputs(req.payload.value.domain, req.payload.value.events);
       |acks| == |inputs| && forall i :: 0 <= i < |inputs| ==> Acknowledges(t, inputs[i], acks[i])
  }

  /** An acknowledgement given at any point of a run stays true: its event is stored to
      the end under the acknowledged id and time. Two acknowledgements of one
      (domain, key) therefore always agree. */
  lemma AcknowledgementsAreStable(cfg: Config, keys: Keys, reqs: seq<Request>, n: nat)
    requires cfg.Valid() && n < |reqs|
    ensures Answer(cfg, keys, reqs[..n], reqs[n]).Accepted? ==>
              StandsIn(After(cfg, keys, reqs).table, reqs[n], Answer(cfg, keys, reqs[..n], reqs[n]).acks)
  {
    if !Answer(cfg, keys, reqs[..n], reqs[n]).Accepted? {
      return;
    }
    var s := After(cfg, keys, reqs[..n]);
    AcceptedMeans(cfg, keys, s, reqs[n]);
    TableGrows(cfg, keys, reqs[..n], n);
    var inputs := Inputs(reqs[n].payload.value.domain, reqs[n].payload.value.events);
    var acks := Answer(cfg, keys, reqs[..n], reqs[n]).acks;
    BatchAcknowledges(s.table, inputs, reqs[n].recordedAt);
    TakeStep(reqs, n);
    TableGrows(cfg, keys, reqs, n + 1);
    forall i | 0 <= i < |inputs| ensures Acknowledges(After(cfg, keys, reqs).table, inputs[i], acks[i]) {
      StillAcknowledges(After(cfg, keys, reqs[..n + 1]).table, After(cfg, keys, reqs).table, inputs[i], acks[i]);
    }
  }

  // ----- The limiter -----

  /** The limiter calls of a run: one for each request that passes the first four gates. */
  ghost function LimiterCalls(keys: Keys, reqs: seq<Request>): seq<Call<LimitKey>> {
    if reqs == [] then []
    else
      var front, last := reqs[..|reqs| - 1], reqs[|reqs| - 1];
      if ReachesLimiter(keys, last) then LimiterCalls(keys, front) + [LimiterCall(keys, last)]
      else LimiterCalls(keys, front)
  }

  /** The limiter sees exactly those calls. */
  lemma {:induction false} LimiterSeesItsCalls(cfg: Config, keys: Keys, reqs: seq<Request>)
    requires cfg.Valid()
    ensures After(cfg, keys, reqs).windows == StateAfter(cfg, LimiterCalls(keys, reqs))
  {
    if reqs != [] {
      var front, last := reqs[..|reqs| - 1], reqs[|reqs| - 1];
      LimiterSeesItsCalls(cfg, keys, front);
      if ReachesLimiter(keys, last) {
        var calls := LimiterCalls(keys, front);
        assert (calls + [LimiterCall(keys, last)])[..|calls|] == calls;
      }
    }
  }

  ghost predicate TimesNonDecreasing(reqs: seq<Request>) {
    forall i, j :: 0 <= i < j < |reqs| ==> reqs[i].now <= reqs[j].now
  }

  lemma {:induction false} CallsNonDecreasing(keys: Keys, reqs: seq<Request>)
    requires TimesNonDecreasing(reqs)
    ensures NonDecreasing(LimiterCalls(keys, reqs))
    ensures forall c :: c in LimiterCalls(keys, reqs) ==> reqs != [] && c.now <= reqs[|reqs| - 1].now
  {
    if reqs != [] {
      var front, last := reqs[..|reqs| - 1], reqs[|reqs| - 1];
      CallsNonDecreasing(keys, front);
      assert front != [] ==> front[|front| - 1].now <= last.now;
      var calls := LimiterCalls(keys, front);
      assert forall i :: 0 <= i < |calls| ==> calls[i] in calls;
    }
  }

  /** Requests of one (domain, label) that got past the limiter in one window. */
  function PassedLimiter(cfg: Config, keys: Keys, key: LimitKey, start: int): Exchange -> int
    requires cfg.Valid()
  {
    (x: Exchange) =>
      if ReachesLimiter(keys, x.req) && !x.outcome.RateLimited? && LimiterCall(keys, x.req).key == key
         && WindowStart(cfg, x.req.now) == start then 1 else 0
  }

  lemma {:induction false} PassedIsAdmitted(cfg: Config, keys: Keys, reqs: seq<Request>, key: LimitKey, start: int)
    requires cfg.Valid()
    ensures SumBy(PassedLimiter(cfg, keys, key, start), Log(cfg, keys, reqs)) ==
            Admissions(cfg, LimiterCalls(keys, reqs), key, start)
  {
    if reqs != [] {
      var front, last := reqs[..|reqs| - 1], reqs[|reqs| - 1];
      PassedIsAdmitted(cfg, keys, front, key, start);
      LimiterSeesItsCalls(cfg, keys, front);
      SumByPush(PassedLimiter(cfg, keys, key, start), Log(cfg, keys, front), Exchange(last, Answer(cfg, keys, front, last)));
      if ReachesLimiter(keys, last) {
        var calls := LimiterCalls(keys, front);
        assert (calls + [LimiterCall(keys, last)])[..|calls|] == calls;
        AdmittedIsNotLimited(cfg, keys, After(cfg, keys, front), last);
      }
    }
  }

  lemma AdmittedIsNotLimited(cfg: Config, keys: Keys, s: Server, req: Request)
    requires cfg.Valid() && ReachesLimiter(keys, req)
    ensures OutcomeOf(cfg, keys, s, req).RateLimited? <==> Step(cfg, s.windows, LimiterCall(keys, req)).1.RetryAfter?
  {
  }

  /** Over any run on a clock that does not run backwards, at most `max` requests of a
      (domain, label) get past the limiter per window, and a request that reaches the
      limiter is refused exactly when that many already did. */
  lemma RequestsAreLimitedExactly(cfg: Config, keys: Keys, reqs: seq<Request>, req: Request, start: int, key: LimitKey)
    requires cfg.Valid() && TimesNonDecreasing(reqs + [req])
    ensures SumBy(PassedLimiter(cfg, keys, key, start), Log(cfg, keys, reqs)) <= cfg.max
    ensures ReachesLimiter(keys, req) && key == LimiterCall(keys, req).key && start == WindowStart(cfg, req.now) ==>
              (Answer(cfg, keys, reqs, req).RateLimited? <==>
               SumBy(PassedLimiter(cfg, keys, key, start), Log(cfg, keys, reqs)) == cfg.max)
  {
    var all := reqs + [req];
    assert all[..|reqs|] == reqs;
    forall i, j | 0 <= i < j < |reqs| ensures reqs[i].now <= reqs[j].now {
      assert all[i].now <= all[j].now;
    }
    CallsNonDecreasing(keys, reqs);
    CallsNonDecreasing(keys, all);
    PassedIsAdmitted(cfg, keys, reqs, key, start);
    AtMostMaxPerWindow(cfg, LimiterCalls(keys, reqs), key, start);
    if ReachesLimiter(keys, req) {
      ExactAdmission(cfg, LimiterCalls(keys, reqs), LimiterCall(keys, req));
      LimiterSeesItsCalls(cfg, keys, reqs);
      AdmittedIsNotLimited(cfg, keys, After(cfg, keys, reqs), req);
    }
  }
}
