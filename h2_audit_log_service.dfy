/**
 * The audit log service (H2AuditLogService.java): writes one event per
 * request, and turns optional query parameters into one of the store's four
 * queries. The random event id and the wall clock are parameters of
 * `LogEvent`.
 */
module AuditLogServices {
  import opened Wrappers
  import opened EventTypes
  import opened AuditLogEntities
  import opened AuditLogRequests
  import opened Sorting
  import opened AuditLogRepositories

  /** Length of `UUID.randomUUID().toString()`. */
  const UUID_TEXT_LENGTH: nat := 36

  /** The sort property used when the caller gives none. */
  const DEFAULT_SORT_PROPERTY: string := "timestamp"

  /** The reply to a logged event. */
  datatype AuditLogResponse = AuditLogResponse(eventId: string, timestamp: int)

  /**
   * Why logging failed: a null event type (`valueOf` throws on null), a
   * name that is no constant (`valueOf` throws IllegalArgumentException), or
   * a write the store refused.
   */
  datatype LogError = NullEventType | UnknownEventType(name: string) | StorageFailure(cause: StoreError)

  /**
   * Upper-case mapping of `Character.toUpperCase` on the ASCII letters and
   * on U+017F (long s, whose upper case is 'S'); other characters map to
   * themselves.
   */
  function UpperCase(c: char): (u: char)
    ensures 'a' <= c <= 'z' ==> 'A' <= u <= 'Z' && u as int == c as int - 32
    ensures 'A' <= c <= 'Z' ==> u == c
    ensures u == c || 'A' <= u <= 'Z'
  {
    if 'a' <= c <= 'z' then (c as int - 32) as char
    else if c == '\U{017F}' then 'S'
    else c
  }

  /** `a.equalsIgnoreCase(b)` for non-null strings: same length, characters equal up to case. */
  predicate EqualsIgnoreCase(a: string, b: string)
    ensures a == b ==> EqualsIgnoreCase(a, b)
    ensures EqualsIgnoreCase(a, b) ==> |a| == |b| && forall i :: 0 <= i < |a| ==> UpperCase(a[i]) == UpperCase(b[i])
  {
    |a| == |b| && forall i :: 0 <= i < |a| ==> a[i] == b[i] || UpperCase(a[i]) == UpperCase(b[i])
  }

  /**
   * The sort `getEvents` builds: ascending exactly when `sortOrder` is
   * "asc" up to case, descending otherwise (null included); the property
   * is `sortBy` whenever it is non-null, even when it is empty.
   */
  function ResolveSort(sortBy: Option<string>, sortOrder: Option<string>): (s: Sort)
    ensures s.direction == Asc <==> sortOrder.Some? && EqualsIgnoreCase("asc", sortOrder.value)
    ensures sortBy.Some? ==> s.property == sortBy.value
    ensures sortBy.None? ==> s.property == DEFAULT_SORT_PROPERTY
  {
    Sort(
      if sortOrder.Some? && EqualsIgnoreCase("asc", sortOrder.value) then Asc else Desc,
      if sortBy.Some? then sortBy.value else DEFAULT_SORT_PROPERTY)
  }

  /**
   * The direction is ascending exactly for the three-character spellings
   * of "asc" in any mix of cases (long s counting as s).
   */
  lemma AscendingIff(sortBy: Option<string>, sortOrder: Option<string>)
    ensures ResolveSort(sortBy, sortOrder).direction == Asc <==>
      && sortOrder.Some? && |sortOrder.value| == 3
      && sortOrder.value[0] in {'a', 'A'}
      && sortOrder.value[1] in {'s', 'S', '\U{017F}'}
      && sortOrder.value[2] in {'c', 'C'}
  {
  }

  /** "asc" and "ASC" both sort ascending; "desc", an unknown word and null all sort descending. */
  lemma SortOrderExamples()
    ensures ResolveSort(None, Some("asc")).direction == Asc
    ensures ResolveSort(None, Some("ASC")).direction == Asc
    ensures ResolveSort(None, Some("desc")).direction == Desc
    ensures ResolveSort(None, Some("garbage")).direction == Desc
    ensures ResolveSort(None, None).direction == Desc
  {
  }

  /**
   * The controller's defaults ("timestamp", "desc") and two nulls resolve
   * to the same sort: newest first by timestamp.
   */
  lemma ControllerDefaultsMatchNulls()
    ensures ResolveSort(Some("timestamp"), Some("desc")) == Sort(Desc, "timestamp")
    ensures ResolveSort(None, None) == Sort(Desc, "timestamp")
  {
  }

  /** An empty `sortBy` is passed on as it is, and no attribute has the empty name, so the query fails. */
  lemma EmptySortByRejected(rows: seq<AuditLogEntity>, userId: Option<string>, eventType: Option<EventType>, sortOrder: Option<string>)
    ensures ResolveSort(Some(""), sortOrder).property == ""
    ensures Select(rows, userId, eventType, ResolveSort(Some(""), sortOrder)) == Err(UnknownSortProperty(""))
  {
  }

  /**
   * The request's description and user id fit their columns: the
   * description is null or at most 500 characters, the user id non-null
   * and at most 100.
   */
  predicate FieldsFit(request: AuditLogRequest)
  {
    FitsOptional(request.description, DESCRIPTION_LENGTH) && FitsRequired(request.userId, USER_ID_LENGTH)
  }

  class H2AuditLogService {
    const repository: AuditLogRepository

    constructor (repository: AuditLogRepository)
      ensures this.repository == repository
    {
      this.repository := repository;
    }

    /**
     * `logEvent(request)` with `eventId` the fresh UUID text and
     * `timestamp` the clock reading. The event type is parsed before
     * anything is written, so a bad type leaves the store unchanged; the
     * user id is not checked here, only by the store's constraints.
     */
    method LogEvent(request: AuditLogRequest, eventId: string, timestamp: int) returns (r: Result<AuditLogResponse, LogError>)
      requires repository.Valid()
      requires |eventId| == UUID_TEXT_LENGTH && eventId !in repository.Ids()
      modifies repository
      ensures repository.Valid()
      ensures request.eventType.None? ==> r == Err(NullEventType)
      ensures request.eventType.Some? && Parse(request.eventType.value).None? ==>
        r == Err(UnknownEventType(request.eventType.value))
      ensures request.eventType.Some? && Parse(request.eventType.value).Some? && !FieldsFit(request) ==>
        r == Err(StorageFailure(ConstraintViolation))
      ensures r.Err? ==> repository.rows == old(repository.rows)
      ensures r.Ok? <==> request.eventType.Some? && Parse(request.eventType.value).Some? && FieldsFit(request)
      ensures r.Ok? ==> r.value == AuditLogResponse(eventId, timestamp)
      ensures r.Ok? ==> repository.rows == old(repository.rows) + [AuditLogEntity(
        eventId, Parse(request.eventType.value).value, request.description, request.userId, timestamp)]
      ensures r.Ok? ==> eventId in repository.Ids() && |repository.rows| == |old(repository.rows)| + 1
    {
      if request.eventType.None? {
        return Err(NullEventType);
      }
      var eventType := Parse(request.eventType.value);
      if eventType.None? {
        return Err(UnknownEventType(request.eventType.value));
      }
      var entity := AuditLogEntity(eventId, eventType.value, request.description, request.userId, timestamp);
      ghost var before := repository.rows;
      var saved := repository.Save(entity);
      if saved.Err? {
        return Err(StorageFailure(saved.error));
      }
      SavedFresh(before, entity);
      SavedKeepsKey(before, entity);
      return Ok(AuditLogResponse(eventId, timestamp));
    }

    /** `getAllEvents()`: every stored event, in no promised order. */
    function GetAllEvents(): (events: seq<AuditLogEntity>)
      reads repository
      ensures multiset(events) == multiset(repository.rows)
    {
      repository.FindAll()
    }

    /**
     * `getEvents(userId, eventType, sortBy, sortOrder)`: resolve the sort,
     * then run the query for whichever filters are present. Whatever the
     * branch, the result is the stored events that pass every present
     * filter, ordered by the resolved sort.
     */
    function GetEvents(userId: Option<string>, eventType: Option<EventType>, sortBy: Option<string>, sortOrder: Option<string>): (r: Result<seq<AuditLogEntity>, QueryError>)
      reads repository
      ensures r.Err? <==> PropertyField(ResolveSort(sortBy, sortOrder).property).None?
      ensures r.Ok? ==> Answers(repository.rows, userId, eventType, ResolveSort(sortBy, sortOrder), r.value)
    {
      var sort := ResolveSort(sortBy, sortOrder);
      if userId.Some? && eventType.Some? then
        repository.FindByUserIdAndEventType(userId.value, eventType.value, sort)
      else if userId.Some? then
        repository.FindByUserId(userId.value, sort)
      else if eventType.Some? then
        repository.FindByEventType(eventType.value, sort)
      else
        repository.FindAllSorted(sort)
    }

    /**
     * Two events logged one after the other, each with its own fresh id:
     * when both are stored, their responses carry different ids and the
     * store holds two more rows.
     */
    method LogTwice(request1: AuditLogRequest, id1: string, time1: int, request2: AuditLogRequest, id2: string, time2: int)
      returns (r1: Result<AuditLogResponse, LogError>, r2: Result<AuditLogResponse, LogError>)
      requires repository.Valid()
      requires |id1| == UUID_TEXT_LENGTH && |id2| == UUID_TEXT_LENGTH && id1 != id2
      requires id1 !in repository.Ids() && id2 !in repository.Ids()
      modifies repository
      ensures repository.Valid()
      ensures r1.Ok? && r2.Ok? ==> r1.value.eventId != r2.value.eventId
      ensures r1.Ok? && r2.Ok? ==> |repository.rows| == |old(repository.rows)| + 2
    {
      r1 := LogEvent(request1, id1, time1);
      assert id2 !in repository.Ids() by {
        if r1.Ok? {
          IdsOfAppend(old(repository.rows), repository.rows[|repository.rows| - 1]);
        }
      }
      r2 := LogEvent(request2, id2, time2);
    }

    /**
     * An event logged for a user and then looked up by that user: when
     * it is stored and the sort is known, the answer lists it exactly
     * once.
     */
    method LogThenQueryByUser(request: AuditLogRequest, eventId: string, timestamp: int, sortBy: Option<string>, sortOrder: Option<string>)
      returns (r: Result<AuditLogResponse, LogError>, q: Result<seq<AuditLogEntity>, QueryError>)
      requires repository.Valid()
      requires |eventId| == UUID_TEXT_LENGTH && eventId !in repository.Ids()
      modifies repository
      ensures repository.Valid()
      ensures r.Ok? ==> request.userId.Some?
      ensures q.Err? <==> PropertyField(ResolveSort(sortBy, sortOrder).property).None?
      ensures r.Ok? && q.Ok? ==> multiset(q.value)[AuditLogEntity(
        eventId, Parse(request.eventType.value).value, request.description, request.userId, timestamp)] == 1
    {
      r := LogEvent(request, eventId, timestamp);
      if r.Ok? {
        var e := AuditLogEntity(eventId, Parse(request.eventType.value).value, request.description, request.userId, timestamp);
        assert e in repository.rows;
        assert multiset(repository.rows)[e] == multiset(old(repository.rows))[e] + 1;
      }
      q := GetEvents(request.userId, None, sortBy, sortOrder);
    }
  }
}
