/**
 * The request body for logging an event (AuditLogRequestDto.java) and the
 * `@NotBlank` checks declared on it. Bean Validation decides blankness with
 * `String.trim()`, which strips every character at or below U+0020.
 */
module AuditLogRequests {
  import opened Wrappers
  import opened EventTypes

  /** The three request fields; each is a nullable reference. */
  datatype AuditLogRequest = AuditLogRequest(
    eventType: Option<string>,
    description: Option<string>,
    userId: Option<string>)

  /** A character that `String.trim()` strips. */
  predicate IsTrimmed(c: char)
  {
    c <= ' '
  }

  /**
   * `s` with its leading trimmable characters removed: a suffix of `s`
   * that is empty or starts with a kept character, everything cut off
   * being trimmable.
   */
  function TrimStart(s: string): (r: string)
    ensures |r| <= |s| && r == s[|s| - |r|..]
    ensures r == [] || !IsTrimmed(r[0])
    ensures forall i :: 0 <= i < |s| - |r| ==> IsTrimmed(s[i])
  {
    if s != [] && IsTrimmed(s[0]) then
      var r := TrimStart(s[1..]);
      assert forall i :: 1 <= i < |s| ==> s[i] == s[1..][i - 1];
      r
    else s
  }

  /**
   * `s` with its trailing trimmable characters removed: a prefix of `s`
   * that is empty or ends with a kept character, everything cut off being
   * trimmable.
   */
  function TrimEnd(s: string): (r: string)
    ensures |r| <= |s| && r == s[..|r|]
    ensures r == [] || !IsTrimmed(r[|r| - 1])
    ensures forall i :: |r| <= i < |s| ==> IsTrimmed(s[i])
  {
    if s != [] && IsTrimmed(s[|s| - 1]) then
      var r := TrimEnd(s[..|s| - 1]);
      assert forall i :: 0 <= i < |s| - 1 ==> s[i] == s[..|s| - 1][i];
      r
    else s
  }

  /**
   * `String.trim()`: a stretch of `s` that is empty or begins and ends with
   * a kept character.
   */
  function Trim(s: string): (r: string)
    ensures |r| <= |s|
    ensures r == [] || (!IsTrimmed(r[0]) && !IsTrimmed(r[|r| - 1]))
  {
    var t := TrimStart(s);
    var r := TrimEnd(t);
    assert r != [] ==> r[0] == t[0];
    r
  }

  /** `@NotBlank`: non-null, and something is left after trimming. */
  predicate NotBlank(s: Option<string>)
    ensures NotBlank(s) ==> s.Some? && |s.value| > 0
  {
    s.Some? && |Trim(s.value)| > 0
  }

  /**
   * The request passes validation: `eventType` and `userId` are non-null
   * and not blank; `description` is free.
   */
  predicate IsValid(r: AuditLogRequest)
    ensures IsValid(r) ==> r.eventType.Some? && |r.eventType.value| > 0 && r.userId.Some? && |r.userId.value| > 0
  {
    NotBlank(r.eventType) && NotBlank(r.userId)
  }

  /** A string consisting only of trimmable characters. */
  predicate AllTrimmed(s: string)
  {
    forall i :: 0 <= i < |s| ==> IsTrimmed(s[i])
  }

  lemma {:induction false} TrimStartShape(s: string)
    ensures TrimStart(s) == [] <==> AllTrimmed(s)
  {
    if s != [] && IsTrimmed(s[0]) {
      TrimStartShape(s[1..]);
      assert AllTrimmed(s) <==> AllTrimmed(s[1..]) by {
        assert forall i :: 0 < i < |s| ==> s[i] == s[1..][i - 1];
      }
    }
  }

  lemma {:induction false} TrimEndShape(s: string)
    ensures TrimEnd(s) == [] <==> AllTrimmed(s)
  {
    if s != [] && IsTrimmed(s[|s| - 1]) {
      var p := s[..|s| - 1];
      TrimEndShape(p);
      assert AllTrimmed(s) <==> AllTrimmed(p) by {
        assert forall i :: 0 <= i < |p| ==> s[i] == p[i];
      }
    }
  }

  /** A string is blank exactly when every character in it is one that `trim()` strips. */
  lemma NotBlankIff(s: Option<string>)
    ensures NotBlank(s) <==> s.Some? && exists i :: 0 <= i < |s.value| && !IsTrimmed(s.value[i])
  {
    if s.Some? {
      var t := TrimStart(s.value);
      TrimStartShape(s.value);
      TrimEndShape(t);
      assert t != [] ==> !AllTrimmed(t);
    }
  }

  /**
   * A request is valid exactly when its event type and its user id are both
   * non-null and each holds a character that `trim()` keeps.
   */
  lemma ValidIff(r: AuditLogRequest)
    ensures IsValid(r) <==>
      && r.eventType.Some? && (exists i :: 0 <= i < |r.eventType.value| && !IsTrimmed(r.eventType.value[i]))
      && r.userId.Some? && (exists i :: 0 <= i < |r.userId.value| && !IsTrimmed(r.userId.value[i]))
  {
    NotBlankIff(r.eventType);
    NotBlankIff(r.userId);
  }

  /** The description carries no constraint: any value, null included, leaves validity as it is. */
  lemma DescriptionUnconstrained(r: AuditLogRequest, description: Option<string>)
    ensures IsValid(r.(description := description)) == IsValid(r)
  {
  }

  /**
   * Validation does not check the event type against the enumeration: a
   * valid request can still name no constant and fail later, at parse time.
   */
  lemma ValidRequestMayNameNoEventType()
    ensures IsValid(AuditLogRequest(Some("login"), None, Some("user1")))
    ensures Parse("login").None?
  {
  }
}
