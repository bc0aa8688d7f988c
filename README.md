# Audit event log: a Dafny model

This project models the audit-event component of the authentication
internal service. Clients log audit events: who did what, and when. They
later read the events back, optionally filtered by user and by event type,
in a chosen order. The model covers six pieces:

- the closed `EventType` enumeration and its name parser (`event_type.dfy`);
- the persisted `AuditLogEntity` record and the column constraints of
  table `audit_log` (`audit_log_entity.dfy`);
- the request record and its `@NotBlank` checks (`audit_log_request.dfy`);
- the order a sorted query applies, and a sort that meets it
  (`sorting.dfy`);
- the event store as a class over a table of rows, with `save` and its
  queries (`audit_log_repository.dfy`);
- the service that logs one event and answers a filtered, sorted read
  (`h2_audit_log_service.dfy`).

`wrappers.dfy` holds `Option` (a nullable reference) and `Result` (a
value or a thrown exception).

The central theorem is the contract of `AuditLogServices.H2AuditLogService.GetEvents`.
Whichever of its four branches runs, the answer is every stored event that
passes each filter that is present, and nothing else. It is ordered by the
resolved sort. `AuditLogRepositories.Answers` states this independently of
how the query is computed: the answer is sorted, and each entity occurs in it
exactly as often as it is stored if it passes the filters, and never
otherwise.

Modelling choices:

- The table is a sequence of rows in the order they were first written. The
  store's `Valid()` invariant says `eventId` is a unique key and every row
  satisfies its column constraints.
- `save` fails, leaving the table as it was, when a column constraint is
  violated. The constraints are: `userId` non-null and at most 100
  characters, `description` at most 500, `eventId` at most 255. Otherwise
  the row with the same id is overwritten (the merge behaviour of a JPA
  save), or the new row is appended.
- A sort names one of the five entity properties exactly: `eventId`,
  `eventType`, `description`, `userId` or `timestamp`. Any other
  name, the empty one included, makes the query fail with
  `UnknownSortProperty`.
- Strings compare character by character, a proper prefix first. For
  characters of the Basic Multilingual Plane this is `String.compareTo`;
  see "Left out" for the others. A NULL `description` or
  `userId` sorts below every value, as in H2's default NULL ordering. The
  event type sorts by its stored name.
- The random UUID and `LocalDateTime.now()` are parameters of
  `LogEvent`. The id is 36 characters long and not yet in the store. The
  clock reading is an integer.
- `@NotBlank` is decided by `String.trim()`, as Bean Validation does. A
  value is blank when every character in it is at or below U+0020.

Two behaviours of the code are easy to misread. The model follows the code:

- `logEvent` does not check the user id. A blank user id is stored as it
  is. A null one is refused only by the store's NOT NULL constraint, after
  the event type has been parsed. Only the request validation in front of the
  service rejects blank ids.
- `sortBy` falls back to `"timestamp"` only when it is null. An empty
  `sortBy` is passed on and the query fails.

## Model

| member | source | states |
|---|---|---|
| EventTypes.Parse | authentication/authentication-internal-service/src/main/java/io/mosip/authentication/internal/service/dto/EventType.java:3-12 | Parsing succeeds exactly on the nine constant names and returns the constant with that name; any other string fails |
| EventTypes.Name | authentication/authentication-internal-service/src/main/java/io/mosip/authentication/internal/service/dto/EventType.java:3-12 | Every constant has a non-empty name of upper-case letters A-Z |
| EventTypes.Value | authentication/authentication-internal-service/src/main/java/io/mosip/authentication/internal/service/dto/EventType.java:14-22 | getValue() returns the string the constant was built with, which is its own name |
| EventTypes.AllEventTypesComplete | authentication/authentication-internal-service/src/main/java/io/mosip/authentication/internal/service/dto/EventType.java:4-12 | There are exactly nine constants, pairwise distinct, and every value of the type is one of them |
| EventTypes.NamesDistinct | authentication/authentication-internal-service/src/main/java/io/mosip/authentication/internal/service/dto/EventType.java:4-12 | Distinct constants have distinct names |
| EventTypes.ValueIsName | authentication/authentication-internal-service/src/main/java/io/mosip/authentication/internal/service/dto/EventType.java:4-22 | For every constant, getValue() is the constant's own name |
| EventTypes.ParseValue | authentication/authentication-internal-service/src/main/java/io/mosip/authentication/internal/service/dto/EventType.java:4-22 | Parsing getValue(c) yields c for every constant c |
| EventTypes.ParseIsExact | authentication/authentication-internal-service/src/main/java/io/mosip/authentication/internal/service/dto/EventType.java:4-12 | When parsing s yields c, getValue(c) equals s, so parsing is exact and case-sensitive |
| EventTypes.LowerCaseNameRejected | authentication/authentication-internal-service/src/main/java/io/mosip/authentication/internal/service/dto/EventType.java:4-12 | "login" and "" parse to nothing; no default such as OTHER is returned |
| AuditLogEntities.EventTypeNameFits | authentication/authentication-internal-service/src/main/java/io/mosip/authentication/internal/service/entity/AuditLogEntity.java:23-25 | Every event type name fits the 50-character event_type column |
| AuditLogEntities.Storable | authentication/authentication-internal-service/src/main/java/io/mosip/authentication/internal/service/entity/AuditLogEntity.java:19-34 | An entity satisfies the column constraints exactly when its eventId has at most 255 characters, its description is null or at most 500, and its userId is non-null and at most 100 |
| AuditLogRequests.NotBlankIff | authentication/authentication-internal-service/src/main/java/io/mosip/authentication/internal/service/dto/AuditLogRequestDto.java:12-18 | @NotBlank holds exactly when the value is non-null and has a character that trim() keeps |
| AuditLogRequests.ValidIff | authentication/authentication-internal-service/src/main/java/io/mosip/authentication/internal/service/dto/AuditLogRequestDto.java:12-18 | A request is valid exactly when eventType and userId are both non-null and each has a non-blank character |
| AuditLogRequests.DescriptionUnconstrained | authentication/authentication-internal-service/src/main/java/io/mosip/authentication/internal/service/dto/AuditLogRequestDto.java:15 | Changing the description, to null included, never changes validity |
| AuditLogRequests.ValidRequestMayNameNoEventType | authentication/authentication-internal-service/src/main/java/io/mosip/authentication/internal/service/dto/AuditLogRequestDto.java:12-13 | A valid request can carry an event type ("login") that names no constant |
| AuditLogRequests.TrimStart | authentication/authentication-internal-service/src/main/java/io/mosip/authentication/internal/service/dto/AuditLogRequestDto.java:12-18 | Dropping leading characters at or below U+0020 leaves a suffix of the input that is empty or starts with a kept character, and every dropped character is at or below U+0020 |
| AuditLogRequests.TrimEnd | authentication/authentication-internal-service/src/main/java/io/mosip/authentication/internal/service/dto/AuditLogRequestDto.java:12-18 | Dropping trailing characters at or below U+0020 leaves a prefix of the input that is empty or ends with a kept character, and every dropped character is at or below U+0020 |
| AuditLogRequests.Trim | authentication/authentication-internal-service/src/main/java/io/mosip/authentication/internal/service/dto/AuditLogRequestDto.java:12-18 | trim() is never longer than its input and neither starts nor ends with a character at or below U+0020 |
| AuditLogRequests.NotBlank | authentication/authentication-internal-service/src/main/java/io/mosip/authentication/internal/service/dto/AuditLogRequestDto.java:12-18 | A value that passes @NotBlank is non-null and non-empty |
| AuditLogRequests.IsValid | authentication/authentication-internal-service/src/main/java/io/mosip/authentication/internal/service/dto/AuditLogRequestDto.java:12-18 | A valid request has a non-null, non-empty eventType and a non-null, non-empty userId |
| Sorting.PropertyField | authentication/authentication-internal-service/src/main/java/io/mosip/authentication/internal/service/entity/AuditLogEntity.java:19-34 | A sort property resolves exactly when it is the name of one of the five entity attributes, and then to that attribute |
| Sorting.StrLe | authentication/authentication-internal-service/src/main/java/io/mosip/authentication/internal/service/repository/AuditLogRepository.java:15-19 | The string order on the sort column puts every string at or below itself and a prefix before any longer string that extends it |
| Sorting.NullableLe | authentication/authentication-internal-service/src/main/java/io/mosip/authentication/internal/service/repository/AuditLogRepository.java:15-19 | On a nullable column NULL sorts at or below every value and no value sorts at or below NULL; equal values tie |
| Sorting.KeyLe | authentication/authentication-internal-service/src/main/java/io/mosip/authentication/internal/service/repository/AuditLogRepository.java:15-19 | Ascending order on a field: two entities with the same value in that column tie, every entity included with itself |
| Sorting.BeforeTotal | authentication/authentication-internal-service/src/main/java/io/mosip/authentication/internal/service/repository/AuditLogRepository.java:15-19 | Under every sort field and direction any two entities are comparable |
| Sorting.BeforeTransitive | authentication/authentication-internal-service/src/main/java/io/mosip/authentication/internal/service/repository/AuditLogRepository.java:15-19 | Under every sort field and direction the order is transitive |
| Sorting.SortRows | authentication/authentication-internal-service/src/main/java/io/mosip/authentication/internal/service/repository/AuditLogRepository.java:13-19 | Sorting returns a permutation of its input that is ordered by the field in the direction |
| AuditLogRepositories.SavedFresh | authentication/authentication-internal-service/src/main/java/io/mosip/authentication/internal/service/repository/AuditLogRepository.java:13 | Saving an entity with a new id appends exactly that row: the size grows by one and every earlier row is unchanged |
| AuditLogRepositories.SavedExisting | authentication/authentication-internal-service/src/main/java/io/mosip/authentication/internal/service/repository/AuditLogRepository.java:13 | Saving an entity whose id is stored overwrites that one row: the size and every other row stay the same |
| AuditLogRepositories.SavedKeepsKey | authentication/authentication-internal-service/src/main/java/io/mosip/authentication/internal/service/entity/AuditLogEntity.java:19-21 | After a save no two rows share an eventId, and the stored ids are the old ids plus the saved one |
| AuditLogRepositories.Saved | authentication/authentication-internal-service/src/main/java/io/mosip/authentication/internal/service/repository/AuditLogRepository.java:13 | After save(e) the table holds e, has the same number of rows or one more, and holds no row that is neither e nor an old row |
| AuditLogRepositories.MatchingCount | authentication/authentication-internal-service/src/main/java/io/mosip/authentication/internal/service/repository/AuditLogRepository.java:15-19 | Filtering keeps each matching row as often as it is stored and drops every other row |
| AuditLogRepositories.Matches | authentication/authentication-internal-service/src/main/java/io/mosip/authentication/internal/service/repository/AuditLogRepository.java:15-19 | With no filter every entity passes; a user filter passes only that userId and an event type filter only that type |
| AuditLogRepositories.Answers | authentication/authentication-internal-service/src/main/java/io/mosip/authentication/internal/service/repository/AuditLogRepository.java:15-19 | A correct answer has no more rows than the table, and each of its rows is stored and passes the filters |
| AuditLogRepositories.AnswersMembers | authentication/authentication-internal-service/src/main/java/io/mosip/authentication/internal/service/repository/AuditLogRepository.java:15-19 | An answer holds only and all the stored rows that pass the present filters |
| AuditLogRepositories.AnswersEmpty | authentication/authentication-internal-service/src/main/java/io/mosip/authentication/internal/service/repository/AuditLogRepository.java:15-19 | An answer is empty exactly when no stored row passes the filters |
| AuditLogRepositories.AnswersUnique | authentication/authentication-internal-service/src/main/java/io/mosip/authentication/internal/service/entity/AuditLogEntity.java:19-21 | Over a table with a unique key, an answer repeats no eventId, so it is a permutation of the matching set |
| AuditLogRepositories.CountAtMostOne | authentication/authentication-internal-service/src/main/java/io/mosip/authentication/internal/service/entity/AuditLogEntity.java:19-21 | In a table with a unique key no row is stored twice |
| AuditLogRepositories.Select | authentication/authentication-internal-service/src/main/java/io/mosip/authentication/internal/service/repository/AuditLogRepository.java:13-19 | A sorted query fails exactly when its property names no attribute; otherwise it returns a correct answer, empty exactly when nothing matches |
| AuditLogRepositories.BothFiltersIntersect | authentication/authentication-internal-service/src/main/java/io/mosip/authentication/internal/service/repository/AuditLogRepository.java:19 | As a set, the query by user and type is the intersection of the query by user and the query by type |
| AuditLogRepositories.AppendedRowFoundOnce | authentication/authentication-internal-service/src/main/java/io/mosip/authentication/internal/service/service/impl/H2AuditLogService.java:37-45 | After an event with a fresh id is saved, the query by its user lists it exactly once, and lists no other row with its id |
| AuditLogRepositories.AscendingTimestampOrder | authentication/authentication-internal-service/src/main/java/io/mosip/authentication/internal/service/service/impl/H2AuditLogService.java:66-78 | With two events at different times, every correct answer sorted by timestamp ascending lists the earlier event first |
| AuditLogRepositories.AuditLogRepository.Save | authentication/authentication-internal-service/src/main/java/io/mosip/authentication/internal/service/repository/AuditLogRepository.java:13 | save returns the entity and writes it (overwrite or append) when every column constraint holds; otherwise it fails and leaves the table unchanged; the key invariant is kept |
| AuditLogRepositories.AuditLogRepository.Valid | authentication/authentication-internal-service/src/main/java/io/mosip/authentication/internal/service/entity/AuditLogEntity.java:19-34 | In a consistent table every row has a non-null userId and an eventId of at most 255 characters |
| AuditLogRepositories.AuditLogRepository.FindAll | authentication/authentication-internal-service/src/main/java/io/mosip/authentication/internal/service/repository/AuditLogRepository.java:13 | findAll() returns every stored row as often as it is stored, in no promised order |
| AuditLogRepositories.AuditLogRepository.FindAllSorted | authentication/authentication-internal-service/src/main/java/io/mosip/authentication/internal/service/repository/AuditLogRepository.java:13 | findAll(sort) returns every stored row ordered by the sort, or fails for an unknown property |
| AuditLogRepositories.AuditLogRepository.FindByUserId | authentication/authentication-internal-service/src/main/java/io/mosip/authentication/internal/service/repository/AuditLogRepository.java:15 | findByUserId returns only and all the rows with that userId, ordered by the sort |
| AuditLogRepositories.AuditLogRepository.FindByEventType | authentication/authentication-internal-service/src/main/java/io/mosip/authentication/internal/service/repository/AuditLogRepository.java:17 | findByEventType returns only and all the rows with that event type, ordered by the sort |
| AuditLogRepositories.AuditLogRepository.FindByUserIdAndEventType | authentication/authentication-internal-service/src/main/java/io/mosip/authentication/internal/service/repository/AuditLogRepository.java:19 | findByUserIdAndEventType returns only and all the rows with both that userId and that event type, ordered by the sort |
| AuditLogServices.ResolveSort | authentication/authentication-internal-service/src/main/java/io/mosip/authentication/internal/service/service/impl/H2AuditLogService.java:66-69 | The direction is ascending iff sortOrder is non-null and equals "asc" ignoring case; the property is sortBy when it is non-null, even when empty, and "timestamp" when null |
| AuditLogServices.UpperCase | authentication/authentication-internal-service/src/main/java/io/mosip/authentication/internal/service/service/impl/H2AuditLogService.java:67 | Lower-case ASCII letters map to their upper-case letters, upper-case letters map to themselves, and every character maps to itself or to an upper-case letter |
| AuditLogServices.EqualsIgnoreCase | authentication/authentication-internal-service/src/main/java/io/mosip/authentication/internal/service/service/impl/H2AuditLogService.java:67 | equalsIgnoreCase holds for equal strings; when it holds, the strings have the same length and agree position by position after upper-casing |
| AuditLogServices.AscendingIff | authentication/authentication-internal-service/src/main/java/io/mosip/authentication/internal/service/service/impl/H2AuditLogService.java:67 | Ascending is chosen exactly for the three-letter spellings of "asc" in any mix of cases |
| AuditLogServices.SortOrderExamples | authentication/authentication-internal-service/src/test/java/io/mosip/authentication/internal/service/service/H2AuditLogServiceTest.java:183-192 | "asc" and "ASC" sort ascending; "desc", "garbage" and null sort descending |
| AuditLogServices.ControllerDefaultsMatchNulls | authentication/authentication-internal-service/src/main/java/io/mosip/authentication/internal/service/controller/AuditLogController.java:79-82 | The controller's defaults and two nulls resolve to the same sort: timestamp, descending |
| AuditLogServices.EmptySortByRejected | authentication/authentication-internal-service/src/main/java/io/mosip/authentication/internal/service/service/impl/H2AuditLogService.java:68 | An empty sortBy is passed through unchanged, and the query then fails with an unknown property |
| AuditLogServices.H2AuditLogService.LogEvent | authentication/authentication-internal-service/src/main/java/io/mosip/authentication/internal/service/service/impl/H2AuditLogService.java:31-48 | A null or unknown event type fails before anything is written. Otherwise exactly one entity is appended, with the parsed type, the request's description and userId, and the given id and timestamp, unless a column constraint refuses it. On success the response carries that id and timestamp. On failure the store is unchanged. The unique-key invariant is kept. |
| AuditLogServices.H2AuditLogService.GetAllEvents | authentication/authentication-internal-service/src/main/java/io/mosip/authentication/internal/service/service/impl/H2AuditLogService.java:51-53 | getAllEvents returns every stored event, changing nothing |
| AuditLogServices.H2AuditLogService.GetEvents | authentication/authentication-internal-service/src/main/java/io/mosip/authentication/internal/service/service/impl/H2AuditLogService.java:65-80 | Whichever of the four branches runs, the result is exactly the stored events that pass every present filter, ordered by the resolved sort; it fails only for an unknown sort property; nothing is changed |
| AuditLogServices.H2AuditLogService.LogTwice | authentication/authentication-internal-service/src/test/java/io/mosip/authentication/internal/service/service/H2AuditLogServiceTest.java:59-70 | When two events logged with distinct fresh ids are both stored, their responses carry different ids and the store has grown by two rows |
| AuditLogServices.H2AuditLogService.LogThenQueryByUser | authentication/authentication-internal-service/src/main/java/io/mosip/authentication/internal/service/service/impl/H2AuditLogService.java:31-80 | An event that is logged and then queried by its user appears in the answer exactly once; the query fails only for an unknown sort property |

## Left out

- HTTP binding, status codes, the controller's conversion of the `eventType` query string, Swagger annotations, and the health endpoints. They are transport and environment plumbing. Only the controller's two parameter defaults are stated, in `ControllerDefaultsMatchNulls`.
- The randomness of `UUID.randomUUID()` and the wall clock. The id is a parameter required to be fresh, and the timestamp is an integer parameter. `LocalDateTime` has no calendar structure here.
- Bean Validation enforcement (`@Valid`). The model states only the predicate that `@NotBlank` checks. Java's `trim()`, String lengths and `String.compareTo` work on UTF-16 code units. Here they work on Dafny characters (Unicode scalar values), so the two differ for characters outside the Basic Multilingual Plane: such a character counts as two units in Java and sorts between U+D7FF and U+E000, while here it counts as one and sorts above U+FFFF.
- AuditLogServices.EqualsIgnoreCase: case folding covers ASCII letters and U+017F, not all of Unicode. This is exact for the one comparison the service makes, against "asc", because no other character folds onto a, s or c.
- Spring's resolution of sort property names beyond exact attribute names (nested paths, other spellings). The model has one `UnknownSortProperty` error for both places where Spring refuses a name: a blank name when the `Sort` is built, and an unknown one when the query runs.
- Storage failures other than column-constraint violations: an unreachable database, timeouts, transactions and concurrent writers. The store's atomicity is taken as given.
- NULL values in the `eventId`, `eventType` and `timestamp` columns. The service never produces them, so the entity type makes them non-null.
- The order among rows that tie on the sort field. The database promises none. The model's sort fixes one order, and every stated property holds for any sorted permutation.
