/**
 * The persisted audit record (AuditLogEntity.java) and the column
 * constraints of table `audit_log`. The record itself can hold anything;
 * the constraints are what the database checks when a row is written.
 */
module AuditLogEntities {
  import opened Wrappers
  import opened EventTypes

  /** Column lengths declared on the entity. */
  const EVENT_ID_LENGTH: nat := 255
  const EVENT_TYPE_LENGTH: nat := 50
  const DESCRIPTION_LENGTH: nat := 500
  const USER_ID_LENGTH: nat := 100

  /**
   * One row. `description` and `userId` are nullable references; the
   * timestamp is a point on an integer clock. The event type is stored
   * as its constant name.
   */
  datatype AuditLogEntity = AuditLogEntity(
    eventId: string,
    eventType: EventType,
    description: Option<string>,
    userId: Option<string>,
    timestamp: int)

  /** A nullable column of bounded length: null is accepted. */
  predicate FitsOptional(value: Option<string>, length: nat)
  {
    value.None? || |value.value| <= length
  }

  /** A non-null column of bounded length. */
  predicate FitsRequired(value: Option<string>, length: nat)
  {
    value.Some? && |value.value| <= length
  }

  /** Every event type name fits its 50-character column. */
  lemma EventTypeNameFits(t: EventType)
    ensures |Name(t)| <= EVENT_TYPE_LENGTH
  {
  }

  /**
   * The entity satisfies every column constraint: eventId within 255
   * characters, the event type name within 50, description null or within
   * 500, userId non-null and within 100. The event type never violates its
   * constraint, so only eventId, description and userId decide.
   */
  predicate Storable(e: AuditLogEntity)
    ensures Storable(e) <==>
      |e.eventId| <= EVENT_ID_LENGTH
      && (e.description.None? || |e.description.value| <= DESCRIPTION_LENGTH)
      && e.userId.Some? && |e.userId.value| <= USER_ID_LENGTH
  {
    EventTypeNameFits(e.eventType);
    && |e.eventId| <= EVENT_ID_LENGTH
    && |Name(e.eventType)| <= EVENT_TYPE_LENGTH
    && FitsOptional(e.description, DESCRIPTION_LENGTH)
    && FitsRequired(e.userId, USER_ID_LENGTH)
  }
}
