/** One POST /feedback request: its fixed order of gates, its outcome, and what it does to
    limiter, counters, audits and event table. */
module Feedback {
  import opened Wrappers
  import opened Orders
  import opened RateLimit
  import opened Metrics
  import opened FeedbackStore

  const MAX_BODY_BYTES := 64 * 1024
  const MAX_EVENTS := 100

  datatype Identity = Identity(domain: string, keyLabel: string)

  datatype EventDto = EventDto(
    idempotencyKey: string, logId: int, kind: Kind, pageId: Option<string>, rating: Option<int>,
    metadataIsObject: bool, metadataBytes: nat)

  /** An element of the events array; `Malformed` does not have the event shape. */
  datatype RawEvent = Malformed | Parsed(dto: EventDto)

  datatype Payload = Payload(domain: string, events: seq<RawEvent>)

  /** What the database holds and which of its statements fail while a request runs. */
  datatype Environment = Environment(
    logs: map<int, string>, pages: set<(string, string)>, auditFails: bool, brokenLookups: set<string>, faultAt: Option<nat>)

  /** A request as received: the declared length if it parses, the body size unless
      reading fails, the bearer secret, the payload if the body parses. The limiter reads
      the clock at `now`; whichever of audit row and store transaction follows reads it
      again, at `recordedAt`. */
  datatype Request = Request(
    declaredLength: Option<nat>, body: Option<nat>, secret: Option<string>, payload: Option<Payload>,
    now: int, recordedAt: int, env: Environment)

  datatype Outcome =
    | TooLarge
    | NotAuthenticated
    | BadJson
    | Forbidden
    | RateLimited(seconds: int)
    | BadEventCount
    | BadEvent(index: nat)
    | MetadataTooLarge
    | UnknownPage
    | LookupFailed
    | StoreRejected
    | StoreFailed
    | Accepted(acks: seq<Ingested>)

  datatype Audit = Audit(domain: Option<string>, reason: RejectionReason, payloadBytes: nat, at: int)

  datatype Server = Server(
    windows: RateLimit.State<LimitKey>, counters: Counters, table: Table, audits: seq<Audit>)

  type Keys = map<string, Identity>

  // ----- The gates -----

  predicate BodyTooLarge(req: Request) {
    || (req.declaredLength.Some? && req.declaredLength.value > MAX_BODY_BYTES)
    || req.body.None? || req.body.value > MAX_BODY_BYTES
  }

  function Lookup(keys: Keys, secret: Option<string>): Option<Identity> {
    if secret.Some? && secret.value != "" && secret.value in keys then Some(keys[secret.value]) else None
  }

  /** The request got through body limit, authentication, JSON and tenant checks. */
  predicate ReachesLimiter(keys: Keys, req: Request) {
    && !BodyTooLarge(req) && Lookup(keys, req.secret).Some? && req.payload.Some?
    && req.payload.value.domain == Lookup(keys, req.secret).value.domain
  }

  function LimiterCall(keys: Keys, req: Request): Call<LimitKey>
    requires ReachesLimiter(keys, req)
  {
    Call((req.payload.value.domain, Lookup(keys, req.secret).value.keyLabel), req.now)
  }

  predicate IsControl(c: char) { c as int < 0x20 || 0x7F <= c as int <= 0x9F }

  datatype EventFault = Illegal | Oversized

  function CheckEvent(raw: RawEvent): Option<EventFault> {
    match raw
    case Malformed => Some(Illegal)
    case Parsed(e) =>
      if |e.idempotencyKey| == 0 || |e.idempotencyKey| > MAX_KEY_CHARS || exists c :: c in e.idempotencyKey && IsControl(c)
      then Some(Illegal)
      else if e.logId <= 0 then Some(Illegal)
      else if !ValidKindFields(e.kind, e.rating, e.pageId) then Some(Illegal)
      else if !e.metadataIsObject then Some(Illegal)
      else if e.metadataBytes > MAX_METADATA_BYTES then Some(Oversized)
      else None
  }

  function InputOf(domain: string, raw: RawEvent): EventInput
    requires CheckEvent(raw).None?
  {
    var e := raw.dto;
    EventInput(e.idempotencyKey, domain, e.logId, e.kind, e.pageId, e.rating, e.metadataIsObject, e.metadataBytes)
  }

  ghost function FirstBadEvent(events: seq<RawEvent>): (r: Option<Outcome>)
    ensures r.Some? ==> r.value.BadEvent? || r.value == MetadataTooLarge
  {
    if events == [] then None
    else
      var i := |events| - 1;
      var earlier := FirstBadEvent(events[..i]);
      if earlier.Some? then earlier
      else match CheckEvent(events[i])
        case None => None
        case Some(Illegal) => Some(BadEvent(i))
        case Some(Oversized) => Some(MetadataTooLarge)
  }

  ghost function Inputs(domain: string, events: seq<RawEvent>): (r: seq<EventInput>)
    requires FirstBadEvent(events).None?
    ensures |r| == |events|
  {
    if events == [] then []
    else Inputs(domain, events[..|events| - 1]) + [InputOf(domain, events[|events| - 1])]
  }

  predicate RefersToPage(e: EventInput) { (e.kind == Click || e.kind == Adopt) && e.pageId.Some? }

  function ReferencedPages(inputs: seq<EventInput>): set<string> {
    set e | e in inputs && RefersToPage(e) :: e.pageId.value
  }

  /** The first page, in the order of an ordered set, that is missing or cannot be looked up. */
  ghost function FirstBadPage(domain: string, pages: seq<string>, env: Environment): (r: Option<Outcome>)
    ensures r.Some? ==> r.value == UnknownPage || r.value == LookupFailed
  {
    if pages == [] then None
    else
      var i := |pages| - 1;
      var earlier := FirstBadPage(domain, pages[..i], env);
      if earlier.Some? then earlier
      else if pages[i] in env.brokenLookups then Some(LookupFailed)
      else if (domain, pages[i]) !in env.pages then Some(UnknownPage)
      else None
  }

  /** The refusal that the payload itself earns: its event count, its first bad event, or
      its first bad page. */
  ghost function RefusalOf(req: Request): (r: Option<Outcome>)
    requires req.payload.Some?
    ensures r.Some? ==> !r.value.Accepted? && !r.value.RateLimited?
    ensures r.None? ==> FirstBadEvent(req.payload.value.events).None?
  {
    var p := req.payload.value;
    if p.events == [] || |p.events| > MAX_EVENTS then Some(BadEventCount)
    else if FirstBadEvent(p.events).Some? then FirstBadEvent(p.events)
    else FirstBadPage(p.domain, SortedStrings(ReferencedPages(Inputs(p.domain, p.events))), req.env)
  }

  /** What follows once the limiter has admitted the request. */
  ghost function AdmittedOutcome(table: Table, req: Request): Outcome
    requires req.payload.Some?
  {
    var refusal := RefusalOf(req);
    if refusal.Some? then refusal.value
    else StoreOutcome(table, req, Inputs(req.payload.value.domain, req.payload.value.events))
  }

  ghost function StoreOutcome(table: Table, req: Request, inputs: seq<EventInput>): Outcome {
    match BatchError(req.env.logs, inputs, req.env.faultAt)
    case Some(Invalid) => StoreRejected
    case Some(Fault) => StoreFailed
    case None => Accepted(InsertAll(table, inputs, req.recordedAt).1)
  }

  ghost function OutcomeOf(cfg: Config, keys: Keys, s: Server, req: Request): Outcome
    requires cfg.Valid()
  {
    if BodyTooLarge(req) then TooLarge
    else if Lookup(keys, req.secret).None? then NotAuthenticated
    else if req.payload.None? then BadJson
    else if !ReachesLimiter(keys, req) then Forbidden
    else match Step(cfg, s.windows, LimiterCall(keys, req)).1
      case RetryAfter(seconds) => RateLimited(seconds)
      case Admitted => AdmittedOutcome(s.table, req)
  }

  // ----- The effects -----

  function ReasonOf(o: Outcome): Option<RejectionReason> {
    match o
    case TooLarge => Some(PayloadTooLarge)
    case NotAuthenticated => Some(Unauthenticated)
    case BadJson => Some(InvalidJson)
    case Forbidden => Some(TenantForbidden)
    case BadEventCount => Some(EventCountTooLarge)
    case BadEvent(_) => Some(InvalidFeedback)
    case MetadataTooLarge => Some(FieldTooLarge)
    case UnknownPage => Some(InvalidFeedback)
    case StoreRejected => Some(InvalidFeedback)
    case _ => None
  }

  function Status(o: Outcome): nat {
    match o
    case TooLarge => 413
    case NotAuthenticated => 401
    case BadJson => 400
    case Forbidden => 403
    case RateLimited(_) => 429
    case BadEventCount => 413
    case BadEvent(_) => 422
    case MetadataTooLarge => 413
    case UnknownPage => 422
    case LookupFailed => 500
    case StoreRejected => 422
    case StoreFailed => 500
    case Accepted(_) => 200
  }

  /** The audit row of a 413 answer. */
  function AuditOf(req: Request, o: Outcome): Option<Audit> {
    match o
    case TooLarge => Some(Audit(None, PayloadTooLarge, MAX_BODY_BYTES, req.recordedAt))
    case BadEventCount =>
      if req.payload.Some? && req.body.Some? then
        Some(Audit(Some(req.payload.value.domain), EventCountTooLarge, req.body.value, req.recordedAt))
      else None
    case MetadataTooLarge =>
      if req.payload.Some? && req.body.Some? then
        Some(Audit(Some(req.payload.value.domain), FieldTooLarge, req.body.value, req.recordedAt))
      else None
    case _ => None
  }

  function Counted(c: Counters, o: Outcome, auditLost: bool): Counters {
    var d :=
      if ReasonOf(o).Some? then c.(rejected := Bump(c.rejected, ReasonOf(o).value))
      else if o.RateLimited? then c.(rateLimited := c.rateLimited + 1)
      else if o.Accepted? then
        c.(ingested := c.ingested + CountNew(o.acks), replayed := c.replayed + |o.acks| - CountNew(o.acks))
      else c.(storeErrors := c.storeErrors + 1);
    if auditLost then d.(storeErrors := d.storeErrors + 1) else d
  }

  ghost function AuditsAfter(audits: seq<Audit>, req: Request, o: Outcome): seq<Audit> {
    var audit := AuditOf(req, o);
    if audit.Some? && !req.env.auditFails then audits + [audit.value] else audits
  }

  ghost predicate AuditLost(req: Request, o: Outcome) { AuditOf(req, o).Some? && req.env.auditFails }

  ghost function NextServer(cfg: Config, keys: Keys, s: Server, req: Request): Server
    requires cfg.Valid()
  {
    var o := OutcomeOf(cfg, keys, s, req);
    Server(
      if ReachesLimiter(keys, req) then Step(cfg, s.windows, LimiterCall(keys, req)).0 else s.windows,
      Counted(s.counters, o, AuditLost(req, o)),
      if o.Accepted? then InsertAll(s.table, Inputs(req.payload.value.domain, req.payload.value.events), req.recordedAt).0
      else s.table,
      AuditsAfter(s.audits, req, o))
  }
}
