/** The hash-chained official event (crates/ham-core/src/event.rs). SHA-256 is a
    parameter: a function from the canonical field list to text. No theorem
    assumes it injective everywhere, only free of collisions among the events
    at hand. */
module Event {
  import opened Basics
  import Json

  /** Every envelope field except the hash itself, in the order that is hashed. */
  datatype CanonicalEvent = CanonicalEvent(
    eventId: Uuid,
    eventType: string,
    logbookId: Uuid,
    entityId: Option<Uuid>,
    previousHash: Option<string>,
    timestamp: int,
    authorOperatorId: Option<Uuid>,
    stationCallsign: string,
    operatorCallsign: Option<string>,
    authorDeviceId: Uuid,
    sourceDeviceId: Uuid,
    correlationId: Uuid,
    sourcePluginId: Option<string>,
    schemaVersion: nat,
    payload: Json.Value)

  type HashFunction = CanonicalEvent -> string

  datatype Envelope = Envelope(
    eventId: Uuid,
    eventType: string,
    logbookId: Uuid,
    entityId: Option<Uuid>,
    previousHash: Option<string>,
    eventHash: string,
    timestamp: int,
    authorOperatorId: Option<Uuid>,
    stationCallsign: string,
    operatorCallsign: Option<string>,
    authorDeviceId: Uuid,
    sourceDeviceId: Uuid,
    correlationId: Uuid,
    sourcePluginId: Option<string>,
    schemaVersion: nat,
    payload: Json.Value)
  {
    function Canonical(): CanonicalEvent {
      CanonicalEvent(
        eventId, eventType, logbookId, entityId, previousHash, timestamp, authorOperatorId,
        stationCallsign, operatorCallsign, authorDeviceId, sourceDeviceId, correlationId,
        sourcePluginId, schemaVersion, payload)
    }

    function CalculateHash(h: HashFunction): string {
      h(Canonical())
    }

    predicate HashIsValid(h: HashFunction) {
      eventHash == CalculateHash(h)
    }
  }

  /** Input for a new event: what the caller decides. */
  datatype NewEvent = NewEvent(
    eventType: string,
    logbookId: Uuid,
    entityId: Option<Uuid>,
    authorOperatorId: Option<Uuid>,
    stationCallsign: string,
    operatorCallsign: Option<string>,
    authorDeviceId: Uuid,
    sourceDeviceId: Uuid,
    correlationId: Uuid,
    sourcePluginId: Option<string>,
    schemaVersion: nat,
    payload: Json.Value)

  /** The random id and the clock reading are arguments. */
  function FromNew(h: HashFunction, input: NewEvent, previousHash: Option<string>, eventId: Uuid, now: int): (e: Envelope)
    ensures e.HashIsValid(h)
    ensures e.previousHash == previousHash && e.eventId == eventId && e.logbookId == input.logbookId
  {
    var draft := Envelope(
      eventId, input.eventType, input.logbookId, input.entityId, previousHash, "", now,
      input.authorOperatorId, input.stationCallsign, input.operatorCallsign, input.authorDeviceId,
      input.sourceDeviceId, input.correlationId, input.sourcePluginId, input.schemaVersion,
      input.payload);
    draft.(eventHash := draft.CalculateHash(h))
  }

  /** What a caller decided about an event, read back from it. */
  function InputOf(e: Envelope): NewEvent {
    NewEvent(
      e.eventType, e.logbookId, e.entityId, e.authorOperatorId, e.stationCallsign, e.operatorCallsign, e.authorDeviceId,
      e.sourceDeviceId, e.correlationId, e.sourcePluginId, e.schemaVersion, e.payload)
  }

  /** A new event keeps everything its caller decided, and the clock reading. */
  lemma InputKept(h: HashFunction, input: NewEvent, previousHash: Option<string>, eventId: Uuid, now: int)
    ensures InputOf(FromNew(h, input, previousHash, eventId, now)) == input
    ensures FromNew(h, input, previousHash, eventId, now).timestamp == now
  {
  }

  /** No two different canonical contents among these events share a hash. */
  ghost predicate CollisionFree(h: HashFunction, events: set<Envelope>) {
    forall a, b :: a in events && b in events && a.CalculateHash(h) == b.CalculateHash(h) ==>
      a.Canonical() == b.Canonical()
  }

  /** The hash covers every other field: two valid events with one hash are the
      same event in all fields. */
  lemma HashDeterminesEvent(h: HashFunction, events: set<Envelope>, a: Envelope, b: Envelope)
    requires CollisionFree(h, events) && a in events && b in events
    requires a.HashIsValid(h) && b.HashIsValid(h) && a.eventHash == b.eventHash
    ensures a == b
  {
    assert a.Canonical() == b.Canonical();
  }
}
