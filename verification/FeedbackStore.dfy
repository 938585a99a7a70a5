/** The feedback event table: idempotent by (domain, key), written one whole batch at a
    time or not at all. */
module FeedbackStore {
  import opened Wrappers
  import opened Sequences

  datatype Kind = Click | Adopt | Rate

  /** One feedback event; of its metadata only the shape and the serialized size matter. */
  datatype EventInput = EventInput(
    idempotencyKey: string, domain: string, logId: int, kind: Kind, pageId: Option<string>, rating: Option<int>,
    metadataIsObject: bool, metadataBytes: nat)

  type EventKey = (string, string)

  function KeyOf(e: EventInput): EventKey { (e.domain, e.idempotencyKey) }

  /** A stored event with the id and time of its first arrival. */
  datatype Row = Row(eventId: int, receivedAt: int, input: EventInput)

  datatype Ingested = Ingested(eventId: int, replayed: bool, receivedAt: int)

  datatype Table = Table(rows: map<EventKey, Row>, nextId: int)

  const EMPTY_TABLE := Table(map[], 1)

  /** `Invalid` is the kernel's validation error, `Fault` any other database error. */
  datatype StoreError = Invalid | Fault

  const MAX_KEY_CHARS := 128
  const MAX_DOMAIN_CHARS := 128
  const MAX_PAGE_ID_CHARS := 512
  const MAX_METADATA_BYTES := 4 * 1024

  predicate AsciiGraphic(c: char) { 0x21 <= c as int <= 0x7E }

  function TextOr(text: Option<string>): string { if text.Some? then text.value else "" }

  predicate ValidKindFields(kind: Kind, rating: Option<int>, pageId: Option<string>) {
    match kind
    case Rate => rating.Some? && 1 <= rating.value <= 5
    case _ => rating.None? && 1 <= |TextOr(pageId)| <= MAX_PAGE_ID_CHARS
  }

  predicate ValidInput(e: EventInput) {
    && 1 <= |e.idempotencyKey| <= MAX_KEY_CHARS
    && (forall c :: c in e.idempotencyKey ==> AsciiGraphic(c))
    && 1 <= |e.domain| <= MAX_DOMAIN_CHARS
    && e.logId > 0
    && ValidKindFields(e.kind, e.rating, e.pageId)
    && e.metadataIsObject && e.metadataBytes <= MAX_METADATA_BYTES
  }

  predicate LogMatches(logs: map<int, string>, e: EventInput) {
    e.logId in logs && logs[e.logId] == e.domain
  }

  /** One event: a new key gets a row, a known key replays the row it already has. */
  function InsertOne(t: Table, e: EventInput, now: int): (Table, Ingested) {
    if KeyOf(e) in t.rows then
      (t, Ingested(t.rows[KeyOf(e)].eventId, true, t.rows[KeyOf(e)].receivedAt))
    else
      (Table(t.rows[KeyOf(e) := Row(t.nextId, now, e)], t.nextId + 1), Ingested(t.nextId, false, now))
  }

  ghost function InsertAll(t: Table, inputs: seq<EventInput>, now: int): (r: (Table, seq<Ingested>))
    ensures |r.1| == |inputs|
  {
    if inputs == [] then (t, [])
    else
      var front := InsertAll(t, inputs[..|inputs| - 1], now);
      var last := InsertOne(front.0, inputs[|inputs| - 1], now);
      (last.0, front.1 + [last.1])
  }

  /** The first statement that fails: a log check, or the database itself at event `faultAt`. */
  ghost function FirstFailure(logs: map<int, string>, inputs: seq<EventInput>, faultAt: Option<nat>): Option<StoreError> {
    if inputs == [] then None
    else
      var i := |inputs| - 1;
      var earlier := FirstFailure(logs, inputs[..i], faultAt);
      if earlier.Some? then earlier
      else if faultAt == Some(i) then Some(Fault)
      else if !LogMatches(logs, inputs[i]) then Some(Invalid)
      else None
  }

  ghost function BatchError(logs: map<int, string>, inputs: seq<EventInput>, faultAt: Option<nat>): Option<StoreError> {
    if exists e :: e in inputs && !ValidInput(e) then Some(Invalid) else FirstFailure(logs, inputs, faultAt)
  }

  lemma {:induction false} FailureStays(logs: map<int, string>, inputs: seq<EventInput>, faultAt: Option<nat>, n: nat)
    requires n <= |inputs| && FirstFailure(logs, inputs[..n], faultAt).Some?
    ensures FirstFailure(logs, inputs, faultAt) == FirstFailure(logs, inputs[..n], faultAt)
    decreases |inputs|
  {
    if n == |inputs| {
      TakeAll(inputs);
    } else {
      var front := inputs[..|inputs| - 1];
      assert front[..n] == inputs[..n];
      FailureStays(logs, front, faultAt, n);
    }
  }

  class EventStore {
    var table: Table

    constructor ()
      ensures table == EMPTY_TABLE
    {
      table := EMPTY_TABLE;
    }

    /** All events are validated first; then they run in one transaction that is undone
        by the first failing event. */
    method InsertBatchIdempotent(logs: map<int, string>, inputs: seq<EventInput>, now: int, faultAt: Option<nat>)
      returns (outcome: Result<seq<Ingested>, StoreError>)
      modifies this
      ensures outcome.Success? <==> BatchError(logs, inputs, faultAt).None?
      ensures outcome.Failure? ==> Some(outcome.error) == BatchError(logs, inputs, faultAt) && table == old(table)
      ensures outcome.Success? ==> (table, outcome.value) == InsertAll(old(table), inputs, now)
    {
      var valid := AllValid(inputs);
      if !valid {
        return Failure(Invalid);
      }
      outcome := RunTransaction(logs, inputs, now, faultAt);
    }

    /** The table changes only when the last event has passed. */
    method RunTransaction(logs: map<int, string>, inputs: seq<EventInput>, now: int, faultAt: Option<nat>)
      returns (outcome: Result<seq<Ingested>, StoreError>)
      modifies this
      ensures outcome.Success? <==> FirstFailure(logs, inputs, faultAt).None?
      ensures outcome.Failure? ==> Some(outcome.error) == FirstFailure(logs, inputs, faultAt) && table == old(table)
      ensures outcome.Success? ==> (table, outcome.value) == InsertAll(old(table), inputs, now)
    {
      var work, acks := table, [];
      for i := 0 to |inputs|
        invariant (work, acks) == InsertAll(old(table), inputs[..i], now)
        invariant FirstFailure(logs, inputs[..i], faultAt).None?
        invariant table == old(table)
      {
        TakeStep(inputs, i);
        FailurePush(logs, inputs[..i], inputs[i], faultAt);
        InsertPush(old(table), inputs[..i], inputs[i], now);
        if faultAt == Some(i) {
          FailureStays(logs, inputs, faultAt, i + 1);
          return Failure(Fault);
        }
        if !LogMatches(logs, inputs[i]) {
          FailureStays(logs, inputs, faultAt, i + 1);
          return Failure(Invalid);
        }
        var step := InsertOne(work, inputs[i], now);
        work, acks := step.0, acks + [step.1];
      }
      TakeAll(inputs);
      table := work;
      return Success(acks);
    }
  }

  method AllValid(inputs: seq<EventInput>) returns (valid: bool)
    ensures valid <==> forall e :: e in inputs ==> ValidInput(e)
  {
    for i := 0 to |inputs|
      invariant forall e :: e in inputs[..i] ==> ValidInput(e)
    {
      TakeStep(inputs, i);
      if !ValidInput(inputs[i]) {
        assert inputs[i] in inputs;
        return false;
      }
    }
    TakeAll(inputs);
    return true;
  }

  lemma FailurePush(logs: map<int, string>, inputs: seq<EventInput>, e: EventInput, faultAt: Option<nat>)
    ensures FirstFailure(logs, inputs, faultAt).None? ==>
              FirstFailure(logs, inputs + [e], faultAt) ==
              if faultAt == Some(|inputs|) then Some(Fault) else if !LogMatches(logs, e) then Some(Invalid) else None
  {
    assert (inputs + [e])[..|inputs|] == inputs;
  }

  lemma InsertPush(t: Table, inputs: seq<EventInput>, e: EventInput, now: int)
    ensures var before := InsertAll(t, inputs, now);
            var last := InsertOne(before.0, e, now);
            InsertAll(t, inputs + [e], now) == (last.0, before.1 + [last.1])
  {
    assert (inputs + [e])[..|inputs|] == inputs;
  }

  // ----- Idempotency -----

  /** Ids are unique and below the next one. */
  ghost predicate Coherent(t: Table) {
    && (forall k :: k in t.rows ==> t.rows[k].eventId < t.nextId && KeyOf(t.rows[k].input) == k)
    && forall j, k :: j in t.rows && k in t.rows && t.rows[j].eventId == t.rows[k].eventId ==> j == k
  }

  /** No stored row is ever changed or removed. */
  ghost predicate Extends(t: Table, u: Table) {
    forall k :: k in t.rows ==> k in u.rows && u.rows[k] == t.rows[k]
  }

  predicate IsNew(a: Ingested) { !a.replayed }

  function CountNew(acks: seq<Ingested>): (n: nat)
    ensures n <= |acks|
  {
    FilterShrinks(IsNew, acks);
    |Filter(IsNew, acks)|
  }

  /** One table grown into another by `added` new rows. */
  ghost predicate Grown(t: Table, u: Table, added: nat) {
    && Coherent(u) && Extends(t, u)
    && |u.rows| == |t.rows| + added && u.nextId == t.nextId + added
  }

  lemma InsertOneGrows(t: Table, e: EventInput, now: int)
    requires Coherent(t)
    ensures var (u, ack) := InsertOne(t, e, now);
            && Grown(t, u, if IsNew(ack) then 1 else 0)
            && Acknowledges(u, e, ack) && (IsNew(ack) <==> KeyOf(e) !in t.rows)
  {
    InsertOneKeys(t, e, now);
  }

  lemma InsertOneKeys(t: Table, e: EventInput, now: int)
    ensures var u := InsertOne(t, e, now).0;
            && u.rows.Keys == t.rows.Keys + {KeyOf(e)}
            && |u.rows| == |t.rows| + if KeyOf(e) in t.rows then 0 else 1
  {
    var u := InsertOne(t, e, now).0;
    assert |u.rows| == |u.rows.Keys| && |t.rows| == |t.rows.Keys|;
  }

  lemma GrownTwice(t: Table, v: Table, u: Table, m: nat, n: nat)
    requires Grown(t, v, m) && Grown(v, u, n)
    ensures Grown(t, u, m + n)
  {
  }

  lemma StillAcknowledges(v: Table, u: Table, e: EventInput, ack: Ingested)
    requires Acknowledges(v, e, ack) && Extends(v, u)
    ensures Acknowledges(u, e, ack)
  {
  }

  /** A batch keeps every stored row and unique ids and adds one row per event that it
      acknowledges as new. */
  lemma {:induction false} BatchKeepsRows(t: Table, inputs: seq<EventInput>, now: int)
    requires Coherent(t)
    ensures Grown(t, InsertAll(t, inputs, now).0, CountNew(InsertAll(t, inputs, now).1))
  {
    if inputs != [] {
      var front, last := inputs[..|inputs| - 1], inputs[|inputs| - 1];
      BatchKeepsRows(t, front, now);
      var before := InsertAll(t, front, now);
      var step := InsertOne(before.0, last, now);
      InsertOneGrows(before.0, last, now);
      FilterPush(IsNew, before.1, step.1);
      GrownTwice(t, before.0, step.0, CountNew(before.1), if IsNew(step.1) then 1 else 0);
    }
  }

  /** Every event of a batch is acknowledged with the row stored under its key. */
  lemma {:induction false} BatchAcknowledges(t: Table, inputs: seq<EventInput>, now: int)
    requires Coherent(t)
    ensures forall i :: 0 <= i < |inputs| ==>
              Acknowledges(InsertAll(t, inputs, now).0, inputs[i], InsertAll(t, inputs, now).1[i])
  {
    if inputs != [] {
      var front, last := inputs[..|inputs| - 1], inputs[|inputs| - 1];
      BatchAcknowledges(t, front, now);
      BatchKeepsRows(t, front, now);
      var before := InsertAll(t, front, now);
      var after := InsertOne(before.0, last, now).0;
      InsertOneGrows(before.0, last, now);
      forall i | 0 <= i < |front| ensures Acknowledges(after, inputs[i], before.1[i]) {
        assert front[i] == inputs[i];
        StillAcknowledges(before.0, after, inputs[i], before.1[i]);
      }
    }
  }

  ghost function KeysOf(inputs: seq<EventInput>): set<EventKey> { set e | e in inputs :: KeyOf(e) }

  lemma KeysOfPush(inputs: seq<EventInput>)
    requires inputs != []
    ensures KeysOf(inputs) == KeysOf(inputs[..|inputs| - 1]) + {KeyOf(inputs[|inputs| - 1])}
  {
    FrontLast(inputs);
    assert forall e :: e in inputs <==> e in inputs[..|inputs| - 1] || e == inputs[|inputs| - 1];
  }

  /** The keys stored after a batch are the old ones and the batch's own. */
  lemma {:induction false} BatchKeys(t: Table, inputs: seq<EventInput>, now: int)
    ensures InsertAll(t, inputs, now).0.rows.Keys == t.rows.Keys + KeysOf(inputs)
  {
    if inputs != [] {
      var front, last := inputs[..|inputs| - 1], inputs[|inputs| - 1];
      BatchKeys(t, front, now);
      InsertOneKeys(InsertAll(t, front, now).0, last, now);
      KeysOfPush(inputs);
    }
  }

  /** The row that a batch writes for a key is that of its first event with the key, stamped
      with the time of the batch and a fresh id; the event is acknowledged as new. */
  lemma {:induction false} BatchStamps(t: Table, inputs: seq<EventInput>, now: int, i: nat)
    requires i < |inputs| && KeyOf(inputs[i]) !in t.rows && KeyOf(inputs[i]) !in KeysOf(inputs[..i])
    ensures var (u, acks) := InsertAll(t, inputs, now);
            && KeyOf(inputs[i]) in u.rows
            && u.rows[KeyOf(inputs[i])].input == inputs[i] && u.rows[KeyOf(inputs[i])].receivedAt == now
            && t.nextId <= u.rows[KeyOf(inputs[i])].eventId < u.nextId
            && acks[i] == Ingested(u.rows[KeyOf(inputs[i])].eventId, false, now)
    ensures InsertAll(t, inputs, now).0.nextId >= t.nextId
    decreases |inputs|
  {
    var front := inputs[..|inputs| - 1];
    BatchKeys(t, front, now);
    NextIdGrows(t, front, now);
    if i == |inputs| - 1 {
      assert front == inputs[..i];
    } else {
      assert front[..i] == inputs[..i];
      BatchStamps(t, front, now, i);
    }
  }

  /** An event is acknowledged as replayed exactly when its key was stored before the batch or
      occurs earlier in it. */
  lemma {:induction false} BatchReplays(t: Table, inputs: seq<EventInput>, now: int, i: nat)
    requires i < |inputs|
    ensures InsertAll(t, inputs, now).1[i].replayed <==> KeyOf(inputs[i]) in t.rows.Keys + KeysOf(inputs[..i])
  {
    var front := inputs[..|inputs| - 1];
    BatchKeys(t, front, now);
    if i < |inputs| - 1 {
      assert front[..i] == inputs[..i];
      BatchReplays(t, front, now, i);
    }
  }

  lemma {:induction false} NextIdGrows(t: Table, inputs: seq<EventInput>, now: int)
    ensures InsertAll(t, inputs, now).0.nextId >= t.nextId
  {
    if inputs != [] {
      NextIdGrows(t, inputs[..|inputs| - 1], now);
    }
  }

  ghost predicate Acknowledges(t: Table, e: EventInput, ack: Ingested) {
    && KeyOf(e) in t.rows
    && ack.eventId == t.rows[KeyOf(e)].eventId && ack.receivedAt == t.rows[KeyOf(e)].receivedAt
  }

  /** Sending a stored batch again changes nothing and replays every event under the id
      and time of its first arrival. */
  lemma {:induction false} ReplayIsIdempotent(t: Table, inputs: seq<EventInput>, now: int)
    requires forall i :: 0 <= i < |inputs| ==> KeyOf(inputs[i]) in t.rows
    ensures var (u, acks) := InsertAll(t, inputs, now);
            u == t && forall i :: 0 <= i < |inputs| ==> acks[i].replayed && Acknowledges(t, inputs[i], acks[i])
  {
    if inputs != [] {
      var front := inputs[..|inputs| - 1];
      assert forall i :: 0 <= i < |front| ==> front[i] == inputs[i];
      ReplayIsIdempotent(t, front, now);
    }
  }
}
