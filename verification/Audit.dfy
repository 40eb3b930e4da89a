/** Audit events and their rows in the outbox table. */
module Audit {
  import opened Text
  import opened PolicyModel
  import opened ExchangeModel

  const SOURCE_TAIFA_EXCHANGE := "taifa-exchange"

  datatype EventType =
    | AuthorizationAllowed
    | AuthorizationDenied
    | ActorContextNotResolved
    | PolicyMissing
    | PolicySeeded

  datatype ResourceType = ExchangePolicy | AuthorizationDecision

  datatype AuditAction = CreatePolicy | AuthorizeRequestAction

  datatype AuditResult = Succeeded | Allowed | Denied

  datatype Payload = NoPayload | PolicyPayload(policy: Policy) | DecisionPayload(record: DecisionRecord)

  datatype Event = Event(
    id: string,
    eventType: EventType,
    sourceSystem: string,
    subjectId: string,
    actorId: string,
    resourceType: ResourceType,
    resourceId: string,
    action: AuditAction,
    result: AuditResult,
    correlationId: string,
    payload: Payload
  ) {
    /** Fills what the caller left empty; `freshId` is the identifier that would be generated now. */
    function WithDefaults(freshId: string): Event {
      this.(id := if id == "" then freshId else id,
            sourceSystem := if sourceSystem == "" then SOURCE_TAIFA_EXCHANGE else sourceSystem)
    }
  }

  datatype EventRow = EventRow(
    id: string,
    eventType: EventType,
    sourceSystem: string,
    actorId: Option<string>,
    subjectId: Option<string>,
    resourceType: ResourceType,
    resourceId: string,
    action: AuditAction,
    result: AuditResult,
    correlationId: Option<string>,
    payload: Payload
  )

  /** The columns that inserting an event writes. */
  function EventRowOf(event: Event, freshId: string): EventRow {
    var e := event.WithDefaults(freshId);
    EventRow(e.id, e.eventType, e.sourceSystem, NullIfEmpty(e.actorId), NullIfEmpty(e.subjectId),
             e.resourceType, e.resourceId, e.action, e.result, NullIfEmpty(e.correlationId), e.payload)
  }

  function TextOf(column: Option<string>): string {
    if column.None? then "" else column.value
  }

  /** The event as it can be read back from its row. */
  function ReadEvent(row: EventRow): Event {
    Event(row.id, row.eventType, row.sourceSystem, TextOf(row.subjectId), TextOf(row.actorId), row.resourceType,
          row.resourceId, row.action, row.result, TextOf(row.correlationId), row.payload)
  }

  /** A row determines its event; only a missing identifier and a missing source are filled, and no column is empty text. */
  lemma EventRowsTellTheEvent(event: Event, freshId: string)
    ensures var row := EventRowOf(event, freshId);
            && ReadEvent(row) == event.(id := row.id, sourceSystem := row.sourceSystem)
            && row.id == (if |event.id| > 0 then event.id else freshId)
            && row.sourceSystem == (if |event.sourceSystem| > 0 then event.sourceSystem else "taifa-exchange")
            && row.subjectId != Some("") && row.actorId != Some("") && row.correlationId != Some("")
  {
  }
}
