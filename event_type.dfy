/**
 * The closed enumeration of audit event categories (EventType.java).
 * Each constant carries a `value` string set once by its constructor;
 * `Enum.valueOf` turns a constant's name back into the constant.
 */
module EventTypes {
  import opened Wrappers

  datatype EventType =
    | Login | Logout | Access | Create | Update | Delete
    | Authentication | Authorization | Other

  /** Every constant, in declaration order. */
  const AllEventTypes: seq<EventType> :=
    [Login, Logout, Access, Create, Update, Delete, Authentication, Authorization, Other]

  /** `Enum.name()`: the identifier the constant is declared with, a non-empty upper-case word. */
  function Name(t: EventType): (name: string)
    ensures 0 < |name| && forall i :: 0 <= i < |name| ==> 'A' <= name[i] <= 'Z'
  {
    match t
    case Login => "LOGIN"
    case Logout => "LOGOUT"
    case Access => "ACCESS"
    case Create => "CREATE"
    case Update => "UPDATE"
    case Delete => "DELETE"
    case Authentication => "AUTHENTICATION"
    case Authorization => "AUTHORIZATION"
    case Other => "OTHER"
  }

  /** `getValue()`: the string each constant passes to the enum constructor, which is its own name. */
  function Value(t: EventType): (value: string)
    ensures value == Name(t)
  {
    match t
    case Login => "LOGIN"
    case Logout => "LOGOUT"
    case Access => "ACCESS"
    case Create => "CREATE"
    case Update => "UPDATE"
    case Delete => "DELETE"
    case Authentication => "AUTHENTICATION"
    case Authorization => "AUTHORIZATION"
    case Other => "OTHER"
  }

  /**
   * `EventType.valueOf(name)` for a non-null name: exact, case-sensitive
   * match against the constant names; `None` where Java throws
   * IllegalArgumentException.
   */
  function Parse(name: string): (r: Option<EventType>)
    ensures r.Some? ==> Name(r.value) == name
    ensures r.None? ==> forall t: EventType :: Name(t) != name
  {
    if name == "LOGIN" then Some(Login)
    else if name == "LOGOUT" then Some(Logout)
    else if name == "ACCESS" then Some(Access)
    else if name == "CREATE" then Some(Create)
    else if name == "UPDATE" then Some(Update)
    else if name == "DELETE" then Some(Delete)
    else if name == "AUTHENTICATION" then Some(Authentication)
    else if name == "AUTHORIZATION" then Some(Authorization)
    else if name == "OTHER" then Some(Other)
    else None
  }

  /** There are exactly nine constants, listed once each, and no other. */
  lemma AllEventTypesComplete()
    ensures |AllEventTypes| == 9
    ensures forall i, j :: 0 <= i < j < |AllEventTypes| ==> AllEventTypes[i] != AllEventTypes[j]
    ensures forall t: EventType :: t in AllEventTypes
  {
    forall t: EventType ensures t in AllEventTypes {
      match t
      case Login => assert AllEventTypes[0] == t;
      case Logout => assert AllEventTypes[1] == t;
      case Access => assert AllEventTypes[2] == t;
      case Create => assert AllEventTypes[3] == t;
      case Update => assert AllEventTypes[4] == t;
      case Delete => assert AllEventTypes[5] == t;
      case Authentication => assert AllEventTypes[6] == t;
      case Authorization => assert AllEventTypes[7] == t;
      case Other => assert AllEventTypes[8] == t;
    }
  }

  /** Distinct constants have distinct names, so a name identifies its constant. */
  lemma NamesDistinct(s: EventType, t: EventType)
    requires s != t
    ensures Name(s) != Name(t)
  {
  }

  /** For every constant, `getValue()` is the constant's own name. */
  lemma ValueIsName(t: EventType)
    ensures Value(t) == Name(t)
  {
  }

  /** Parsing the printed value of a constant gives the constant back. */
  lemma ParseValue(t: EventType)
    ensures Parse(Value(t)) == Some(t)
  {
  }

  /** A successful parse reproduces its input exactly: parsing is case-sensitive. */
  lemma ParseIsExact(name: string, t: EventType)
    requires Parse(name) == Some(t)
    ensures Value(t) == name
  {
  }

  /** Parsing is case-sensitive: the lower-case spelling of a name is rejected, not defaulted. */
  lemma LowerCaseNameRejected()
    ensures Parse("login") == None
    ensures Parse("") == None
  {
  }
}
