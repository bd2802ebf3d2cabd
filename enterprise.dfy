/**
 * The Enterprise record, the errors a transaction can return, the role gate
 * that guards every transaction, the selector of the blacklist query, and
 * the invariant every stored record keeps.
 */
module Enterprises {
  import opened Wrappers
  import opened Strings
  import opened Recovery

  /** The document type every record carries, used by the selector query. */
  const DocTypeEnterprise: string := "enterprise"

  // The four state names a record moves between.
  const Registered: string := "REGISTERED"
  const Certified: string := "CERTIFIED"
  const Revoked: string := "REVOKED"
  const Blacklisted: string := "BLACKLISTED"

  // The role attribute values the transactions demand.
  const RoleRegistrar: string := "registrar"
  const RoleCertifier: string := "certifier"
  const RoleAdmin: string := "admin"

  /** A timestamp as read from the clock; `Zero` is the zero time value. */
  datatype Time = Zero | Instant(ticks: int)

  /** One certification record, stored in the world state under its `id`. */
  datatype Enterprise = Enterprise(
    docType: string,
    id: string,
    name: string,
    details: string,
    state: string,
    certificateId: string,
    certificationDate: Time,
    certifiedBy: string,
    revocationDate: Time,
    revocationReason: string,
    blacklistDate: Time,
    blacklistReason: string,
    organizations: seq<string>,
    channels: seq<string>,
    createdAt: Time,
    updatedAt: Time)

  /** Why a transaction failed; each case is one error return of the chaincode. */
  datatype Error =
    | MissingRoleAttribute
    | RoleMismatch(requiredRole: string)
    | AlreadyExists(id: string)
    | DoesNotExist(id: string)
    | NotRegistered(id: string)
    | NotCertified(id: string)
    | AlreadyBlacklisted(id: string)
    | NotBlacklisted(id: string)
    | PreviousStateUnknown(id: string)

  /**
   * The role gate: the caller passes only with a role attribute that is
   * exactly the required role; a missing attribute and any other role fail
   * with their own error.
   */
  function CheckRole(role: Option<string>, requiredRole: string): (r: Outcome<Error>)
    ensures r.Pass? <==> role == Some(requiredRole)
    ensures role.None? ==> r == Fail(MissingRoleAttribute)
    ensures role.Some? && role.value != requiredRole ==> r == Fail(RoleMismatch(requiredRole))
  {
    match role
    case None => Fail(MissingRoleAttribute)
    case Some(value) => if value != requiredRole then Fail(RoleMismatch(requiredRole)) else Pass
  }

  /** The selector of the blacklist query: an enterprise document in state BLACKLISTED. */
  predicate IsBlacklistedRecord(e: Enterprise)
  {
    e.docType == DocTypeEnterprise && e.state == Blacklisted
  }

  /**
   * On a valid record the selector's document-type test always holds, so
   * the blacklist query selects exactly the records in state BLACKLISTED.
   */
  lemma SelectorMatchesBlacklistedState(key: string, e: Enterprise)
    requires RecordValid(key, e)
    ensures IsBlacklistedRecord(e) <==> e.state == Blacklisted
  {
  }

  /** A state a record can be blacklisted from and restored to. */
  predicate IsActiveState(s: string)
  {
    s == Registered || s == Certified || s == Revoked
  }

  /** `details` ends with the recovery encoding of `previousState`. */
  predicate SavesState(details: string, previousState: string)
  {
    |Marker| + |previousState| <= |details|
    && details[|details| - |Marker| - |previousState|..] == Marker + previousState
  }

  /** The details as they were before blacklisting wrote `previousState` into them. */
  function DetailsBefore(details: string, previousState: string): (r: string)
    requires SavesState(details, previousState)
    ensures EncodePrevious(r, previousState) == details
  {
    var r := details[..|details| - |Marker| - |previousState|];
    assert r + Marker + previousState == details;
    r
  }

  /**
   * The invariant of a stored record: it is an enterprise document stored
   * under its own id, its state is one of the four names, a record that is
   * not blacklisted has no blacklist date or reason, and a blacklisted
   * record's details end with the state it was blacklisted from.
   */
  ghost predicate RecordValid(key: string, e: Enterprise)
  {
    && e.id == key
    && e.docType == DocTypeEnterprise
    && (IsActiveState(e.state) || e.state == Blacklisted)
    && (e.state != Blacklisted ==> e.blacklistDate == Zero && e.blacklistReason == "")
    && (e.state == Blacklisted ==>
          SavesState(e.details, Registered) || SavesState(e.details, Certified)
          || SavesState(e.details, Revoked))
  }

  /** Every state name is shorter than the marker, so none contains it. */
  lemma ActiveStateIsMarkerFree(s: string)
    requires IsActiveState(s)
    ensures !Contains(s, Marker)
  {
    ShortIsMarkerFree(s);
  }

  /**
   * Recovery of a blacklisted record saved from `previousState`: splitting
   * its details gives two parts exactly when the details before blacklisting
   * did not contain the marker, and then the parts are those details and
   * `previousState`.
   */
  lemma RecoverSavedState(details: string, previousState: string)
    requires IsActiveState(previousState) && SavesState(details, previousState)
    ensures var before := DetailsBefore(details, previousState);
      && (|Split(details, Marker)| == 2 <==> !Contains(before, Marker))
      && (|Split(details, Marker)| == 2 ==> Split(details, Marker) == [before, previousState])
  {
    var before := DetailsBefore(details, previousState);
    ActiveStateIsMarkerFree(previousState);
    SplitEncodedTwoPartsIff(before, previousState);
    if !Contains(before, Marker) {
      SplitEncoded(before, previousState);
    }
  }

  /**
   * A valid blacklisted record whose details split into two parts is
   * restored to a state it can be blacklisted from, with blacklist date and
   * reason cleared, and stays valid.
   */
  lemma RestoredRecordValid(key: string, e: Enterprise, now: Time)
    requires RecordValid(key, e) && e.state == Blacklisted
    requires |Split(e.details, Marker)| == 2
    ensures var parts := Split(e.details, Marker);
      && IsActiveState(parts[1])
      && RecordValid(key, e.(state := parts[1], details := parts[0],
                             blacklistDate := Zero, blacklistReason := "", updatedAt := now))
  {
    if SavesState(e.details, Registered) {
      RecoverSavedState(e.details, Registered);
    } else if SavesState(e.details, Certified) {
      RecoverSavedState(e.details, Certified);
    } else {
      RecoverSavedState(e.details, Revoked);
    }
  }

  /**
   * The record-level round trip: blacklisting a valid record and restoring
   * it succeeds exactly when its details did not contain the marker, and
   * then gives back the record as it was apart from its update time.
   */
  lemma BlacklistRestoreRoundTrip(key: string, e: Enterprise, reason: string, blacklistedAt: Time, restoredAt: Time)
    requires RecordValid(key, e) && e.state != Blacklisted
    ensures var b := e.(state := Blacklisted, blacklistDate := blacklistedAt, blacklistReason := reason,
                        updatedAt := blacklistedAt, details := EncodePrevious(e.details, e.state));
      var parts := Split(b.details, Marker);
      && (|parts| == 2 <==> !Contains(e.details, Marker))
      && (|parts| == 2 ==>
            b.(state := parts[1], details := parts[0], blacklistDate := Zero,
               blacklistReason := "", updatedAt := restoredAt)
            == e.(updatedAt := restoredAt))
  {
    ActiveStateIsMarkerFree(e.state);
    SplitEncodedTwoPartsIff(e.details, e.state);
    if !Contains(e.details, Marker) {
      SplitEncoded(e.details, e.state);
    }
  }
}
