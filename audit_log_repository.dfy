/**
 * The event store (AuditLogRepository.java): a table of AuditLogEntity rows
 * keyed by eventId, with the inherited `save` and `findAll`, and the three
 * derived queries whose method names fix their filters. Every sorted query
 * is "keep the rows matching the filters, then order them by the sort".
 */
module AuditLogRepositories {
  import opened Wrappers
  import opened EventTypes
  import opened AuditLogEntities
  import opened Sorting

  /** A write the database refuses: a NULL in a non-null column or a value longer than its column. */
  datatype StoreError = ConstraintViolation

  /** A sort property that names no attribute of the entity. */
  datatype QueryError = UnknownSortProperty(property: string)

  /** The event ids present in a table. */
  function IdsOf(rows: seq<AuditLogEntity>): set<string>
  {
    set e | e in rows :: e.eventId
  }

  /** eventId is the primary key: no two rows share one. */
  predicate UniqueIds(rows: seq<AuditLogEntity>)
  {
    forall i, j :: 0 <= i < j < |rows| ==> rows[i].eventId != rows[j].eventId
  }

  /**
   * The table after `save(e)`: the row with e's id is replaced by `e`
   * where there is one, and `e` is added at the end otherwise.
   */
  function Saved(rows: seq<AuditLogEntity>, e: AuditLogEntity): (r: seq<AuditLogEntity>)
    ensures e in r
    ensures |r| == |rows| || |r| == |rows| + 1
    ensures forall x :: x in r ==> x == e || x in rows
  {
    if rows == [] then [e]
    else if rows[0].eventId == e.eventId then [e] + rows[1..]
    else [rows[0]] + Saved(rows[1..], e)
  }

  /** Appending a row adds its id to the ids already present. */
  lemma IdsOfAppend(rows: seq<AuditLogEntity>, e: AuditLogEntity)
    ensures IdsOf(rows + [e]) == IdsOf(rows) + {e.eventId}
  {
    assert e in rows + [e];
    forall x | x in IdsOf(rows + [e]) ensures x in IdsOf(rows) + {e.eventId} {
      var y :| y in rows + [e] && y.eventId == x;
    }
  }

  /** Saving an entity whose id is new appends exactly that row and leaves every earlier row as it was. */
  lemma {:induction false} SavedFresh(rows: seq<AuditLogEntity>, e: AuditLogEntity)
    requires e.eventId !in IdsOf(rows)
    ensures Saved(rows, e) == rows + [e]
    ensures |Saved(rows, e)| == |rows| + 1
  {
    if rows != [] {
      assert rows[0] in rows;
      assert IdsOf(rows[1..]) <= IdsOf(rows) by {
        forall x | x in IdsOf(rows[1..]) ensures x in IdsOf(rows) {
          var y :| y in rows[1..] && y.eventId == x;
          assert y in rows;
        }
      }
      SavedFresh(rows[1..], e);
      assert rows == [rows[0]] + rows[1..];
    }
  }

  /**
   * Saving an entity whose id is already stored overwrites that one row:
   * the table keeps its size and every other row.
   */
  lemma {:induction false} SavedExisting(rows: seq<AuditLogEntity>, e: AuditLogEntity)
    requires UniqueIds(rows) && e.eventId in IdsOf(rows)
    ensures |Saved(rows, e)| == |rows|
    ensures forall i :: 0 <= i < |rows| ==>
      Saved(rows, e)[i] == if rows[i].eventId == e.eventId then e else rows[i]
  {
    var x :| x in rows && x.eventId == e.eventId;
    if rows[0].eventId == e.eventId {
      forall i | 0 < i < |rows| ensures rows[i].eventId != e.eventId {
        assert rows[0].eventId != rows[i].eventId;
      }
    } else {
      var k :| 0 <= k < |rows| && rows[k] == x;
      assert k > 0 && rows[1..][k - 1] == x;
      SavedExisting(rows[1..], e);
    }
  }

  /** Saving keeps the key unique and adds exactly the saved entity's id. */
  lemma SavedKeepsKey(rows: seq<AuditLogEntity>, e: AuditLogEntity)
    requires UniqueIds(rows)
    ensures UniqueIds(Saved(rows, e))
    ensures IdsOf(Saved(rows, e)) == IdsOf(rows) + {e.eventId}
    ensures e in Saved(rows, e)
  {
    if e.eventId in IdsOf(rows) {
      OverwriteKeepsKey(rows, e);
    } else {
      AppendKeepsKey(rows, e);
    }
  }

  lemma OverwriteKeepsKey(rows: seq<AuditLogEntity>, e: AuditLogEntity)
    requires UniqueIds(rows) && e.eventId in IdsOf(rows)
    ensures UniqueIds(Saved(rows, e))
    ensures IdsOf(Saved(rows, e)) == IdsOf(rows) + {e.eventId}
    ensures e in Saved(rows, e)
  {
    SavedExisting(rows, e);
    ReplacedKeepsKey(rows, Saved(rows, e), e);
  }

  /** A table whose rows keep their ids position by position keeps its key and its id set. */
  lemma ReplacedKeepsKey(rows: seq<AuditLogEntity>, s: seq<AuditLogEntity>, e: AuditLogEntity)
    requires UniqueIds(rows) && e.eventId in IdsOf(rows)
    requires |s| == |rows|
    requires forall i :: 0 <= i < |rows| ==> s[i] == if rows[i].eventId == e.eventId then e else rows[i]
    ensures UniqueIds(s)
    ensures IdsOf(s) == IdsOf(rows) + {e.eventId}
    ensures e in s
  {
  }

  lemma AppendKeepsKey(rows: seq<AuditLogEntity>, e: AuditLogEntity)
    requires UniqueIds(rows) && e.eventId !in IdsOf(rows)
    ensures UniqueIds(Saved(rows, e))
    ensures IdsOf(Saved(rows, e)) == IdsOf(rows) + {e.eventId}
    ensures e in Saved(rows, e)
  {
    SavedFresh(rows, e);
    var s := rows + [e];
    assert s[|rows|] == e;
    forall i, j | 0 <= i < j < |s| ensures s[i].eventId != s[j].eventId {
      if j == |rows| {
        assert rows[i] in rows;
      }
    }
  }

  /** The row passes every filter that is present; an absent filter admits every row. */
  predicate Matches(e: AuditLogEntity, userId: Option<string>, eventType: Option<EventType>)
    ensures userId.None? && eventType.None? ==> Matches(e, userId, eventType)
    ensures Matches(e, userId, eventType) && userId.Some? ==> e.userId == userId
    ensures Matches(e, userId, eventType) && eventType.Some? ==> e.eventType == eventType.value
  {
    && (userId.None? || e.userId == userId)
    && (eventType.None? || e.eventType == eventType.value)
  }

  /** The rows that pass the filters, in table order. */
  function Matching(rows: seq<AuditLogEntity>, userId: Option<string>, eventType: Option<EventType>): seq<AuditLogEntity>
  {
    if rows == [] then []
    else (if Matches(rows[0], userId, eventType) then [rows[0]] else []) + Matching(rows[1..], userId, eventType)
  }

  /** Filtering keeps every copy of a matching row and drops every copy of another. */
  lemma {:induction false} MatchingCount(rows: seq<AuditLogEntity>, userId: Option<string>, eventType: Option<EventType>, e: AuditLogEntity)
    ensures multiset(Matching(rows, userId, eventType))[e] == if Matches(e, userId, eventType) then multiset(rows)[e] else 0
  {
    if rows != [] {
      MatchingCount(rows[1..], userId, eventType, e);
      assert rows == [rows[0]] + rows[1..];
    }
  }

  /**
   * `r` is a correct answer to the query: ordered by the sort, and holding
   * every stored row that passes the filters, as often as it is stored,
   * and nothing else.
   */
  ghost predicate Answers(rows: seq<AuditLogEntity>, userId: Option<string>, eventType: Option<EventType>, sort: Sort, r: seq<AuditLogEntity>)
    ensures Answers(rows, userId, eventType, sort, r) ==> |r| <= |rows|
    ensures Answers(rows, userId, eventType, sort, r) ==> forall e :: e in r ==> e in rows && Matches(e, userId, eventType)
  {
    CountedRows(rows, userId, eventType, r);
    && PropertyField(sort.property).Some?
    && Sorted(r, PropertyField(sort.property).value, sort.direction)
    && forall e :: multiset(r)[e] == if Matches(e, userId, eventType) then multiset(rows)[e] else 0
  }

  /** Rows counted as the filter prescribes are among the stored rows and no more of them. */
  lemma CountedRows(rows: seq<AuditLogEntity>, userId: Option<string>, eventType: Option<EventType>, r: seq<AuditLogEntity>)
    ensures (forall e :: multiset(r)[e] == if Matches(e, userId, eventType) then multiset(rows)[e] else 0) ==>
      |r| <= |rows| && forall e :: e in r ==> e in rows && Matches(e, userId, eventType)
  {
    if forall e :: multiset(r)[e] == if Matches(e, userId, eventType) then multiset(rows)[e] else 0 {
      assert multiset(r) <= multiset(rows);
      assert multiset(r) + (multiset(rows) - multiset(r)) == multiset(rows);
      forall e | e in r
        ensures e in rows && Matches(e, userId, eventType)
      {
        assert multiset(r)[e] > 0;
      }
    }
  }

  /** An answer holds exactly the stored rows that pass the filters. */
  lemma AnswersMembers(rows: seq<AuditLogEntity>, userId: Option<string>, eventType: Option<EventType>, sort: Sort, r: seq<AuditLogEntity>)
    requires Answers(rows, userId, eventType, sort, r)
    ensures forall e :: e in r <==> e in rows && Matches(e, userId, eventType)
  {
  }

  /** An answer is empty exactly when no stored row passes the filters. */
  lemma AnswersEmpty(rows: seq<AuditLogEntity>, userId: Option<string>, eventType: Option<EventType>, sort: Sort, r: seq<AuditLogEntity>)
    requires Answers(rows, userId, eventType, sort, r)
    ensures r == [] <==> forall e :: e in rows ==> !Matches(e, userId, eventType)
  {
    AnswersMembers(rows, userId, eventType, sort, r);
    if r != [] {
      assert r[0] in r;
    }
  }

  /** A row that occurs at two positions of a sequence occurs in it at least twice. */
  lemma TwiceCounted(s: seq<AuditLogEntity>, i: nat, j: nat)
    requires i < j < |s| && s[i] == s[j]
    ensures multiset(s)[s[i]] >= 2
  {
    assert s == s[..j] + s[j..];
    assert s[i] in s[..j];
    assert s[j] in s[j..];
    assert multiset(s) == multiset(s[..j]) + multiset(s[j..]);
  }

  /**
   * Over a table with a unique key, an answer repeats no row and no id:
   * it is a permutation of the matching set.
   */
  lemma AnswersUnique(rows: seq<AuditLogEntity>, userId: Option<string>, eventType: Option<EventType>, sort: Sort, r: seq<AuditLogEntity>)
    requires UniqueIds(rows)
    requires Answers(rows, userId, eventType, sort, r)
    ensures UniqueIds(r)
  {
    AnswersMembers(rows, userId, eventType, sort, r);
    forall i, j | 0 <= i < j < |r| ensures r[i].eventId != r[j].eventId {
      if r[i].eventId == r[j].eventId {
        assert r[i] in rows && r[j] in rows;
        var a :| 0 <= a < |rows| && rows[a] == r[i];
        var b :| 0 <= b < |rows| && rows[b] == r[j];
        assert a == b;
        TwiceCounted(r, i, j);
        CountAtMostOne(rows, r[i]);
        assert false;
      }
    }
  }

  /** In a table with a unique key, no row is stored twice. */
  lemma CountAtMostOne(rows: seq<AuditLogEntity>, x: AuditLogEntity)
    requires UniqueIds(rows)
    ensures multiset(rows)[x] <= 1
  {
    if multiset(rows)[x] >= 2 {
      var a :| 0 <= a < |rows| && rows[a] == x;
      OtherOccurrence(rows, a);
    }
  }

  /** A row counted twice in a sequence has a second position. */
  lemma OtherOccurrence(s: seq<AuditLogEntity>, a: nat)
    requires a < |s| && multiset(s)[s[a]] >= 2
    ensures exists c :: 0 <= c < |s| && c != a && s[c] == s[a]
  {
    var x := s[a];
    assert s == s[..a] + [x] + s[a + 1..];
    assert multiset(s) == multiset(s[..a]) + multiset{x} + multiset(s[a + 1..]);
    if x in s[..a] {
      var c :| 0 <= c < a && s[..a][c] == x;
      assert s[c] == x;
    } else {
      assert x in s[a + 1..];
      var c :| 0 <= c < |s| - a - 1 && s[a + 1..][c] == x;
      assert s[a + 1 + c] == x;
    }
  }

  /**
   * The one query every finder runs: reject a property that names no
   * attribute, otherwise filter the rows and sort what is left.
   */
  function Select(rows: seq<AuditLogEntity>, userId: Option<string>, eventType: Option<EventType>, sort: Sort): (r: Result<seq<AuditLogEntity>, QueryError>)
    ensures r.Err? <==> PropertyField(sort.property).None?
    ensures r.Err? ==> r.error == UnknownSortProperty(sort.property)
    ensures r.Ok? ==> Answers(rows, userId, eventType, sort, r.value)
    ensures r.Ok? ==> (r.value == [] <==> forall e :: e in rows ==> !Matches(e, userId, eventType))
  {
    match PropertyField(sort.property)
    case None => Err(UnknownSortProperty(sort.property))
    case Some(f) =>
      var matching := Matching(rows, userId, eventType);
      var r := SortRows(matching, f, sort.direction);
      assert forall e :: multiset(r)[e] == if Matches(e, userId, eventType) then multiset(rows)[e] else 0 by {
        forall e ensures multiset(r)[e] == if Matches(e, userId, eventType) then multiset(rows)[e] else 0 {
          MatchingCount(rows, userId, eventType, e);
        }
      }
      AnswersEmpty(rows, userId, eventType, sort, r);
      Ok(r)
  }

  /**
   * The query with both filters returns, as a set, exactly the rows both
   * single-filter queries return.
   */
  lemma BothFiltersIntersect(rows: seq<AuditLogEntity>, userId: string, eventType: EventType, sort: Sort)
    requires PropertyField(sort.property).Some?
    ensures Select(rows, Some(userId), Some(eventType), sort).Ok?
    ensures forall e ::
      e in Select(rows, Some(userId), Some(eventType), sort).value <==>
      e in Select(rows, Some(userId), None, sort).value && e in Select(rows, None, Some(eventType), sort).value
  {
    AnswersMembers(rows, Some(userId), Some(eventType), sort, Select(rows, Some(userId), Some(eventType), sort).value);
    AnswersMembers(rows, Some(userId), None, sort, Select(rows, Some(userId), None, sort).value);
    AnswersMembers(rows, None, Some(eventType), sort, Select(rows, None, Some(eventType), sort).value);
  }

  /**
   * After a row with a fresh id is added, the query by its user finds it,
   * and finds no other row carrying its id.
   */
  lemma AppendedRowFoundOnce(rows: seq<AuditLogEntity>, e: AuditLogEntity, userId: string, sort: Sort)
    requires UniqueIds(rows) && e.eventId !in IdsOf(rows)
    requires e.userId == Some(userId) && PropertyField(sort.property).Some?
    ensures Select(rows + [e], Some(userId), None, sort).Ok?
    ensures e in Select(rows + [e], Some(userId), None, sort).value
    ensures forall x :: x in Select(rows + [e], Some(userId), None, sort).value && x.eventId == e.eventId ==> x == e
    ensures multiset(Select(rows + [e], Some(userId), None, sort).value)[e] == 1
  {
    AppendKeepsKey(rows, e);
    SavedFresh(rows, e);
    var r := Select(rows + [e], Some(userId), None, sort).value;
    AnswersMembers(rows + [e], Some(userId), None, sort, r);
    assert multiset(rows + [e])[e] == multiset(rows)[e] + 1;
  }

  /**
   * Two events with different timestamps, queried by timestamp ascending:
   * every correct answer lists the earlier one first.
   */
  lemma AscendingTimestampOrder(e1: AuditLogEntity, e2: AuditLogEntity, r: seq<AuditLogEntity>)
    requires e1.timestamp < e2.timestamp
    requires Answers([e1, e2], None, None, Sort(Asc, "timestamp"), r)
    ensures r == [e1, e2]
  {
    var m := multiset([e1, e2]);
    assert multiset(r)[e1] == m[e1] == 1;
    assert multiset(r)[e2] == m[e2] == 1;
    assert multiset(r) == m by {
      forall x ensures multiset(r)[x] == m[x] {
      }
    }
    assert |r| == 2 by {
      assert |multiset(r)| == |m| == 2;
    }
    assert e1 in r && e2 in r;
    assert r[0] in m && r[1] in m;
    assert Before(TimestampField, Asc, r[0], r[1]);
  }

  /** The audit table. Rows are kept in the order they were first written. */
  class AuditLogRepository {
    var rows: seq<AuditLogEntity>

    /** The primary key is unique and every row satisfies its column constraints. */
    ghost predicate Valid()
      reads this
      ensures Valid() ==> forall e :: e in rows ==> e.userId.Some? && |e.eventId| <= EVENT_ID_LENGTH
    {
      UniqueIds(rows) && forall e :: e in rows ==> Storable(e)
    }

    /** An empty table. */
    constructor ()
      ensures Valid() && rows == []
    {
      rows := [];
    }

    /** The ids currently stored. */
    function Ids(): set<string>
      reads this
    {
      IdsOf(rows)
    }

    /**
     * `save(entity)`: a constraint violation leaves the table unchanged and
     * fails; otherwise the row is written (replacing the row with the same
     * id, if any) and the entity is returned.
     */
    method Save(e: AuditLogEntity) returns (r: Result<AuditLogEntity, StoreError>)
      requires Valid()
      modifies this
      ensures Valid()
      ensures r == if Storable(e) then Ok(e) else Err(ConstraintViolation)
      ensures rows == if Storable(e) then Saved(old(rows), e) else old(rows)
    {
      if !Storable(e) {
        return Err(ConstraintViolation);
      }
      SavedKeepsKey(rows, e);
      ghost var before := rows;
      rows := Saved(rows, e);
      if e.eventId in IdsOf(before) {
        SavedExisting(before, e);
        forall x | x in rows ensures Storable(x) {
          var i :| 0 <= i < |rows| && rows[i] == x;
          assert before[i] in before;
        }
      } else {
        SavedFresh(before, e);
      }
      return Ok(e);
    }

    /** `findAll()`: every stored row, in no promised order. */
    function FindAll(): (r: seq<AuditLogEntity>)
      reads this
      ensures multiset(r) == multiset(rows)
    {
      rows
    }

    /** `findAll(sort)`: every stored row, ordered by the sort. */
    function FindAllSorted(sort: Sort): (r: Result<seq<AuditLogEntity>, QueryError>)
      reads this
      ensures r.Err? <==> PropertyField(sort.property).None?
      ensures r.Ok? ==> Answers(rows, None, None, sort, r.value)
    {
      Select(rows, None, None, sort)
    }

    /** `findByUserId(userId, sort)`: the rows of that user, ordered by the sort. */
    function FindByUserId(userId: string, sort: Sort): (r: Result<seq<AuditLogEntity>, QueryError>)
      reads this
      ensures r.Err? <==> PropertyField(sort.property).None?
      ensures r.Ok? ==> Answers(rows, Some(userId), None, sort, r.value)
    {
      Select(rows, Some(userId), None, sort)
    }

    /** `findByEventType(eventType, sort)`: the rows of that event type, ordered by the sort. */
    function FindByEventType(eventType: EventType, sort: Sort): (r: Result<seq<AuditLogEntity>, QueryError>)
      reads this
      ensures r.Err? <==> PropertyField(sort.property).None?
      ensures r.Ok? ==> Answers(rows, None, Some(eventType), sort, r.value)
    {
      Select(rows, None, Some(eventType), sort)
    }

    /** `findByUserIdAndEventType(userId, eventType, sort)`: rows passing both filters, ordered by the sort. */
    function FindByUserIdAndEventType(userId: string, eventType: EventType, sort: Sort): (r: Result<seq<AuditLogEntity>, QueryError>)
      reads this
      ensures r.Err? <==> PropertyField(sort.property).None?
      ensures r.Ok? ==> Answers(rows, Some(userId), Some(eventType), sort, r.value)
    {
      Select(rows, Some(userId), Some(eventType), sort)
    }
  }
}
