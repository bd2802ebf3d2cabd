/**
 * Sequences of transactions run against the chaincode, with what the
 * transaction contracts alone let a caller conclude about them.
 */
module Scenarios {
  import opened Wrappers
  import opened Strings
  import opened Recovery
  import opened Enterprises
  import opened Chaincode

  /**
   * Blacklisting a stored record and then unblacklisting it gives back the
   * record as it was, apart from its update time, exactly when its details
   * did not already contain the marker; otherwise it stays blacklisted.
   */
  method BlacklistThenUnblacklist(c: SmartContract, id: string, reason: string, blacklistedAt: Time, restoredAt: Time)
    returns (blacklisting: Outcome<Error>, restoring: Outcome<Error>)
    requires c.Valid() && id in c.world && c.world[id].state != Blacklisted
    modifies c
    ensures blacklisting == Pass && id in c.world
    ensures restoring.Pass? <==> !Contains(old(c.world)[id].details, Marker)
    ensures restoring.Pass? ==> c.world == old(c.world)[id := old(c.world)[id].(updatedAt := restoredAt)]
    ensures restoring.Fail? ==> restoring == Fail(PreviousStateUnknown(id)) && c.world[id].state == Blacklisted
  {
    ghost var before := c.world;
    BlacklistRestoreRoundTrip(id, before[id], reason, blacklistedAt, restoredAt);
    blacklisting := c.BlacklistEnterprise(Some(RoleAdmin), id, reason, blacklistedAt);
    ghost var blacklisted := c.world;
    restoring := c.UnblacklistEnterprise(Some(RoleAdmin), id, restoredAt);
    if restoring.Pass? {
      assert c.world[id] == before[id].(updatedAt := restoredAt);
      assert c.world == blacklisted[id := c.world[id]];
    }
  }

  /**
   * Register "E1" as registrar, certify it as certifier, blacklist it as
   * admin for "fraud" and unblacklist it as admin: it is CERTIFIED again,
   * with its original details and no blacklist reason.
   */
  method AcmeLifecycle(certificateId: string, now: Time)
    returns (blacklisted: Enterprise, restored: Enterprise)
    requires certificateId != ""
    ensures blacklisted.state == Blacklisted && blacklisted.blacklistReason == "fraud"
    ensures restored.state == Certified && restored.blacklistReason == ""
    ensures restored.details == "desc" && restored.name == "Acme"
    ensures restored.certificateId == certificateId
  {
    var c := new SmartContract();
    var r := c.RegisterEnterprise(Some(RoleRegistrar), "E1", "Acme", "desc", now);
    r := c.CertifyEnterprise(Some(RoleCertifier), "E1", certificateId, now);
    r := c.BlacklistEnterprise(Some(RoleAdmin), "E1", "fraud", now);
    var q := c.QueryEnterprise("E1");
    blacklisted := q.value;
    ShortIsMarkerFree("desc");
    ShortIsMarkerFree(Certified);
    SplitEncoded("desc", Certified);
    r := c.UnblacklistEnterprise(Some(RoleAdmin), "E1", now);
    q := c.QueryEnterprise("E1");
    restored := q.value;
  }

  /**
   * A registrar cannot certify: the attempt is refused by the role gate and
   * the registered record is left as it was.
   */
  method RegistrarCannotCertify(now: Time) returns (refused: Outcome<Error>, record: Enterprise)
    ensures refused == Fail(RoleMismatch(RoleCertifier))
    ensures record.state == Registered && record.certificateId == ""
  {
    var c := new SmartContract();
    var r := c.RegisterEnterprise(Some(RoleRegistrar), "E1", "Acme", "desc", now);
    refused := c.CertifyEnterprise(Some(RoleRegistrar), "E1", "CERT-1", now);
    var q := c.QueryEnterprise("E1");
    record := q.value;
  }

  /**
   * Registering an id twice: the second attempt fails and the first
   * record is kept.
   */
  method RegisterTwice(now: Time, later: Time) returns (second: Outcome<Error>, record: Enterprise)
    ensures second == Fail(AlreadyExists("E1"))
    ensures record.name == "Acme" && record.details == "desc" && record.createdAt == now
  {
    var c := new SmartContract();
    var r := c.RegisterEnterprise(Some(RoleRegistrar), "E1", "Acme", "desc", now);
    second := c.RegisterEnterprise(Some(RoleRegistrar), "E1", "Other", "other", later);
    var q := c.QueryEnterprise("E1");
    record := q.value;
  }

  /**
   * Details that contain the marker from registration on make
   * blacklisting one-way: unblacklisting fails and the record stays
   * BLACKLISTED.
   */
  method MarkedDetailsStayBlacklisted(now: Time) returns (restoring: Outcome<Error>, record: Enterprise)
    ensures restoring == Fail(PreviousStateUnknown("E1"))
    ensures record.state == Blacklisted
  {
    var c := new SmartContract();
    var details := "x" + Marker + "CERTIFIED";
    var r := c.RegisterEnterprise(Some(RoleRegistrar), "E1", "Acme", details, now);
    r := c.BlacklistEnterprise(Some(RoleAdmin), "E1", "fraud", now);
    assert OccursAt(details, Marker, 1);
    MarkedDetailsAreUnrecoverable(details, Registered);
    restoring := c.UnblacklistEnterprise(Some(RoleAdmin), "E1", now);
    var q := c.QueryEnterprise("E1");
    record := q.value;
  }
}
