/**
 * The sort specification a query takes (`Sort.by(direction, property)`) and
 * the order the database applies for it. Strings compare character by
 * character, a proper prefix first; for characters of the Basic
 * Multilingual Plane this is Java's `String.compareTo`. A NULL column value
 * sorts below every other value; the event type column holds the
 * constant's name and sorts as that string.
 */
module Sorting {
  import opened Wrappers
  import opened EventTypes
  import opened AuditLogEntities

  datatype Direction = Asc | Desc

  /** `Sort.by(direction, property)` with one property. */
  datatype Sort = Sort(direction: Direction, property: string)

  /** The five persisted attributes a query can be ordered by. */
  datatype SortField = EventIdField | EventTypeField | DescriptionField | UserIdField | TimestampField

  /** The entity's property name for a field. */
  function PropertyName(f: SortField): string
  {
    match f
    case EventIdField => "eventId"
    case EventTypeField => "eventType"
    case DescriptionField => "description"
    case UserIdField => "userId"
    case TimestampField => "timestamp"
  }

  /** Resolves a property name to the attribute it names; `None` for a name that is no attribute. */
  function PropertyField(property: string): (f: Option<SortField>)
    ensures f.Some? ==> PropertyName(f.value) == property
    ensures f.None? ==> forall g: SortField :: PropertyName(g) != property
  {
    if property == "eventId" then Some(EventIdField)
    else if property == "eventType" then Some(EventTypeField)
    else if property == "description" then Some(DescriptionField)
    else if property == "userId" then Some(UserIdField)
    else if property == "timestamp" then Some(TimestampField)
    else None
  }

  /**
   * Lexicographic order on strings, as `a.compareTo(b) <= 0` for
   * characters of the Basic Multilingual Plane. Every string is at or
   * below itself, and a prefix comes first.
   */
  predicate StrLe(a: string, b: string)
    ensures a == b ==> StrLe(a, b)
    ensures |a| <= |b| && a == b[..|a|] ==> StrLe(a, b)
  {
    if a == [] then true
    else if b == [] then false
    else if a[0] != b[0] then a[0] < b[0]
    else StrLe(a[1..], b[1..])
  }

  /** Order on a nullable column: NULL below every string, strings by string order. */
  predicate NullableLe(a: Option<string>, b: Option<string>)
    ensures a == b ==> NullableLe(a, b)
    ensures a.None? ==> NullableLe(a, b)
    ensures a.Some? && b.None? ==> !NullableLe(a, b)
  {
    match (a, b)
    case (None, _) => true
    case (Some(_), None) => false
    case (Some(x), Some(y)) => StrLe(x, y)
  }

  /**
   * `a` may come before `b` in ascending order of field `f`. Every entity
   * ties with itself, and two entities that agree on the field's column
   * tie.
   */
  predicate KeyLe(f: SortField, a: AuditLogEntity, b: AuditLogEntity)
    ensures a == b ==> KeyLe(f, a, b)
    ensures ColumnValue(f, a) == ColumnValue(f, b) ==> KeyLe(f, a, b)
  {
    match f
    case EventIdField => StrLe(a.eventId, b.eventId)
    case EventTypeField => StrLe(Name(a.eventType), Name(b.eventType))
    case DescriptionField => NullableLe(a.description, b.description)
    case UserIdField => NullableLe(a.userId, b.userId)
    case TimestampField => a.timestamp <= b.timestamp
  }

  /** The value an entity holds in the column of field `f`. */
  datatype Column = Text(text: Option<string>) | Instant(instant: int)

  function ColumnValue(f: SortField, e: AuditLogEntity): Column
  {
    match f
    case EventIdField => Text(Some(e.eventId))
    case EventTypeField => Text(Some(Name(e.eventType)))
    case DescriptionField => Text(e.description)
    case UserIdField => Text(e.userId)
    case TimestampField => Instant(e.timestamp)
  }

  /** `a` may come before `b` when ordering by `f` in direction `d`. */
  predicate Before(f: SortField, d: Direction, a: AuditLogEntity, b: AuditLogEntity)
  {
    match d
    case Asc => KeyLe(f, a, b)
    case Desc => KeyLe(f, b, a)
  }

  /** Every earlier element may come before every later one. */
  predicate Sorted(s: seq<AuditLogEntity>, f: SortField, d: Direction)
  {
    forall i, j :: 0 <= i < j < |s| ==> Before(f, d, s[i], s[j])
  }

  lemma {:induction false} StrLeTotal(a: string, b: string)
    ensures StrLe(a, b) || StrLe(b, a)
  {
    if a != [] && b != [] && a[0] == b[0] {
      StrLeTotal(a[1..], b[1..]);
    }
  }

  lemma {:induction false} StrLeTransitive(a: string, b: string, c: string)
    requires StrLe(a, b) && StrLe(b, c)
    ensures StrLe(a, c)
  {
    if a != [] && b != [] && c != [] && a[0] == b[0] && b[0] == c[0] {
      StrLeTransitive(a[1..], b[1..], c[1..]);
    }
  }

  /** Any two entities are comparable under every field and direction. */
  lemma BeforeTotal(f: SortField, d: Direction, a: AuditLogEntity, b: AuditLogEntity)
    ensures Before(f, d, a, b) || Before(f, d, b, a)
  {
    match f
    case EventIdField => StrLeTotal(a.eventId, b.eventId);
    case EventTypeField => StrLeTotal(Name(a.eventType), Name(b.eventType));
    case DescriptionField =>
      if a.description.Some? && b.description.Some? {
        StrLeTotal(a.description.value, b.description.value);
      }
    case UserIdField =>
      if a.userId.Some? && b.userId.Some? {
        StrLeTotal(a.userId.value, b.userId.value);
      }
    case TimestampField =>
  }

  lemma KeyLeTransitive(f: SortField, a: AuditLogEntity, b: AuditLogEntity, c: AuditLogEntity)
    requires KeyLe(f, a, b) && KeyLe(f, b, c)
    ensures KeyLe(f, a, c)
  {
    match f
    case EventIdField => StrLeTransitive(a.eventId, b.eventId, c.eventId);
    case EventTypeField => StrLeTransitive(Name(a.eventType), Name(b.eventType), Name(c.eventType));
    case DescriptionField =>
      if a.description.Some? {
        StrLeTransitive(a.description.value, b.description.value, c.description.value);
      }
    case UserIdField =>
      if a.userId.Some? {
        StrLeTransitive(a.userId.value, b.userId.value, c.userId.value);
      }
    case TimestampField =>
  }

  /** The order is transitive under every field and direction. */
  lemma BeforeTransitive(f: SortField, d: Direction, a: AuditLogEntity, b: AuditLogEntity, c: AuditLogEntity)
    requires Before(f, d, a, b) && Before(f, d, b, c)
    ensures Before(f, d, a, c)
  {
    match d
    case Asc => KeyLeTransitive(f, a, b, c);
    case Desc => KeyLeTransitive(f, c, b, a);
  }

  /** Places `x` into sorted `s`, before the first element it may precede. */
  function Insert(x: AuditLogEntity, s: seq<AuditLogEntity>, f: SortField, d: Direction): (r: seq<AuditLogEntity>)
    requires Sorted(s, f, d)
    ensures Sorted(r, f, d)
    ensures multiset(r) == multiset(s) + multiset{x}
  {
    if s == [] then [x]
    else if Before(f, d, x, s[0]) then
      InsertFront(x, s, f, d);
      [x] + s
    else
      var t := Insert(x, s[1..], f, d);
      BeforeTotal(f, d, x, s[0]);
      assert s == [s[0]] + s[1..];
      InsertBehind(s[0], x, s[1..], t, f, d);
      [s[0]] + t
  }

  lemma InsertFront(x: AuditLogEntity, s: seq<AuditLogEntity>, f: SortField, d: Direction)
    requires Sorted(s, f, d) && s != [] && Before(f, d, x, s[0])
    ensures Sorted([x] + s, f, d)
  {
    forall i, j | 0 <= i < j < |[x] + s|
      ensures Before(f, d, ([x] + s)[i], ([x] + s)[j])
    {
      if i == 0 && j > 1 {
        BeforeTransitive(f, d, x, s[0], s[j - 1]);
      }
    }
  }

  lemma InsertBehind(y: AuditLogEntity, x: AuditLogEntity, s: seq<AuditLogEntity>, t: seq<AuditLogEntity>, f: SortField, d: Direction)
    requires Sorted([y] + s, f, d) && Sorted(t, f, d) && Before(f, d, y, x)
    requires multiset(t) == multiset(s) + multiset{x}
    ensures Sorted([y] + t, f, d)
  {
    forall i, j | 0 <= i < j < |[y] + t|
      ensures Before(f, d, ([y] + t)[i], ([y] + t)[j])
    {
      var z := t[j - 1];
      assert ([y] + t)[j] == z;
      if i == 0 {
        assert z in multiset(t);
        if z != x {
          assert z in multiset(s);
          var k :| 0 <= k < |s| && s[k] == z;
          assert ([y] + s)[k + 1] == z;
          assert Before(f, d, ([y] + s)[0], ([y] + s)[k + 1]);
        }
      } else {
        assert ([y] + t)[i] == t[i - 1];
      }
    }
  }

  /**
   * The rows ordered by field `f` in direction `d`: a permutation of the
   * input, sorted. Equal keys keep no promised order.
   */
  function SortRows(s: seq<AuditLogEntity>, f: SortField, d: Direction): (r: seq<AuditLogEntity>)
    ensures Sorted(r, f, d)
    ensures multiset(r) == multiset(s)
  {
    if s == [] then []
    else
      assert s == [s[0]] + s[1..];
      Insert(s[0], SortRows(s[1..], f, d), f, d)
  }
}
