/**
 * The certification chaincode over its world state.  Every transaction
 * passes the role gate, loads the record by id, checks its state, updates
 * some fields and writes the record back under the same key; on any
 * failure nothing is written.
 */
module Chaincode {
  import opened Wrappers
  import opened Strings
  import opened Recovery
  import opened Enterprises

  /** Ids drawn from `seen`, all different from each other. */
  ghost predicate DistinctIdsFrom(records: seq<Enterprise>, seen: set<string>)
  {
    && (forall i :: 0 <= i < |records| ==> records[i].id in seen)
    && (forall i, j :: 0 <= i < j < |records| ==> records[i].id != records[j].id)
  }

  /** Appending a record whose id has not been seen keeps the ids distinct. */
  lemma AppendKeepsIdsDistinct(records: seq<Enterprise>, e: Enterprise, seen: set<string>)
    requires DistinctIdsFrom(records, seen) && e.id !in seen
    ensures DistinctIdsFrom(records + [e], seen + {e.id})
  {
  }

  class SmartContract {
    /** The world state: the stored records by key. */
    var world: map<string, Enterprise>

    /** Every stored record keeps the record invariant under its own key. */
    ghost predicate Valid()
      reads this
    {
      forall key :: key in world ==> RecordValid(key, world[key])
    }

    /** The keys of the records the blacklist query selects. */
    ghost function BlacklistedKeys(): set<string>
      reads this
    {
      set key | key in world && IsBlacklistedRecord(world[key])
    }

    /** A chaincode with an empty world state. */
    constructor ()
      ensures Valid() && world == map[]
    {
      world := map[];
    }

    /** Whether a record is stored under `id`. */
    method EnterpriseExists(id: string) returns (found: bool)
      ensures found <==> id in world
    {
      found := id in world;
    }

    /** Load the record stored under `id`, failing when there is none. */
    method QueryEnterprise(id: string) returns (r: Result<Enterprise, Error>)
      ensures r.Success? <==> id in world
      ensures r.Success? ==> r.value == world[id]
      ensures r.Failure? ==> r.error == DoesNotExist(id)
    {
      if id !in world {
        return Failure(DoesNotExist(id));
      }
      r := Success(world[id]);
    }

    /**
     * Create a record in state REGISTERED under a fresh id, with no
     * certificate, no organizations or channels and both timestamps `now`.
     */
    method RegisterEnterprise(role: Option<string>, id: string, name: string, details: string, now: Time)
      returns (r: Outcome<Error>)
      requires Valid()
      modifies this
      ensures Valid()
      ensures r == if role != Some(RoleRegistrar) then CheckRole(role, RoleRegistrar)
                   else if id in old(world) then Fail(AlreadyExists(id))
                   else Pass
      ensures r.Fail? ==> world == old(world)
      ensures r.Pass? ==> id in world && world == old(world)[id := world[id]]
      ensures r.Pass? ==> var e := world[id];
        && e.docType == DocTypeEnterprise && e.id == id && e.name == name && e.details == details
        && e.state == Registered && e.certificateId == "" && e.certifiedBy == ""
        && e.certificationDate == e.revocationDate == e.blacklistDate == Zero
        && e.revocationReason == e.blacklistReason == ""
        && e.organizations == [] && e.channels == []
        && e.createdAt == e.updatedAt == now
    {
      r := CheckRole(role, RoleRegistrar);
      if r.Fail? {
        return;
      }
      var present := EnterpriseExists(id);
      if present {
        return Fail(AlreadyExists(id));
      }
      var e := Enterprise(
        docType := DocTypeEnterprise,
        id := id,
        name := name,
        details := details,
        state := Registered,
        certificateId := "",
        certificationDate := Zero,
        certifiedBy := "",
        revocationDate := Zero,
        revocationReason := "",
        blacklistDate := Zero,
        blacklistReason := "",
        organizations := [],
        channels := [],
        createdAt := now,
        updatedAt := now);
      world := world[id := e];
    }

    /**
     * Certify a REGISTERED record with the given certificate id, which
     * stands for the generator's `CERT-<clock>` value and so is never empty.
     */
    method CertifyEnterprise(role: Option<string>, id: string, certificateId: string, now: Time)
      returns (r: Outcome<Error>)
      requires Valid()
      requires certificateId != ""
      modifies this
      ensures Valid()
      ensures r == if role != Some(RoleCertifier) then CheckRole(role, RoleCertifier)
                   else if id !in old(world) then Fail(DoesNotExist(id))
                   else if old(world)[id].state != Registered then Fail(NotRegistered(id))
                   else Pass
      ensures r.Fail? ==> world == old(world)
      ensures r.Pass? ==> world == old(world)[id := old(world)[id].(
                state := Certified, certificationDate := now,
                certificateId := certificateId, updatedAt := now)]
      ensures r.Pass? ==> world[id].state == Certified && world[id].certificateId != ""
    {
      r := CheckRole(role, RoleCertifier);
      if r.Fail? {
        return;
      }
      var q := QueryEnterprise(id);
      if q.Failure? {
        return Fail(q.error);
      }
      var e := q.value;
      if e.state != Registered {
        return Fail(NotRegistered(id));
      }
      e := e.(state := Certified);
      e := e.(certificationDate := now);
      e := e.(certificateId := certificateId);
      e := e.(updatedAt := now);
      world := world[id := e];
    }

    /** Revoke the certification of a CERTIFIED record, recording the reason. */
    method RevokeCertification(role: Option<string>, id: string, reason: string, now: Time)
      returns (r: Outcome<Error>)
      requires Valid()
      modifies this
      ensures Valid()
      ensures r == if role != Some(RoleCertifier) then CheckRole(role, RoleCertifier)
                   else if id !in old(world) then Fail(DoesNotExist(id))
                   else if old(world)[id].state != Certified then Fail(NotCertified(id))
                   else Pass
      ensures r.Fail? ==> world == old(world)
      ensures r.Pass? ==> world == old(world)[id := old(world)[id].(
                state := Revoked, revocationDate := now,
                revocationReason := reason, updatedAt := now)]
    {
      r := CheckRole(role, RoleCertifier);
      if r.Fail? {
        return;
      }
      var q := QueryEnterprise(id);
      if q.Failure? {
        return Fail(q.error);
      }
      var e := q.value;
      if e.state != Certified {
        return Fail(NotCertified(id));
      }
      e := e.(state := Revoked);
      e := e.(revocationDate := now);
      e := e.(revocationReason := reason);
      e := e.(updatedAt := now);
      world := world[id := e];
    }

    /**
     * Blacklist a record that is not already blacklisted, saving the state
     * it leaves at the end of its details.
     */
    method BlacklistEnterprise(role: Option<string>, id: string, reason: string, now: Time)
      returns (r: Outcome<Error>)
      requires Valid()
      modifies this
      ensures Valid()
      ensures r == if role != Some(RoleAdmin) then CheckRole(role, RoleAdmin)
                   else if id !in old(world) then Fail(DoesNotExist(id))
                   else if old(world)[id].state == Blacklisted then Fail(AlreadyBlacklisted(id))
                   else Pass
      ensures r.Fail? ==> world == old(world)
      ensures r.Pass? ==> world == old(world)[id := old(world)[id].(
                state := Blacklisted, blacklistDate := now, blacklistReason := reason, updatedAt := now,
                details := EncodePrevious(old(world)[id].details, old(world)[id].state))]
    {
      r := CheckRole(role, RoleAdmin);
      if r.Fail? {
        return;
      }
      var q := QueryEnterprise(id);
      if q.Failure? {
        return Fail(q.error);
      }
      var e := q.value;
      if e.state == Blacklisted {
        return Fail(AlreadyBlacklisted(id));
      }
      var previousState := e.state;
      e := e.(state := Blacklisted);
      e := e.(blacklistDate := now);
      e := e.(blacklistReason := reason);
      e := e.(updatedAt := now);
      e := e.(details := EncodePrevious(e.details, previousState));
      assert SavesState(e.details, previousState);
      world := world[id := e];
    }

    /**
     * Restore a blacklisted record to the state saved in its details.  The
     * details must split at the marker into exactly two parts: the details
     * before blacklisting and the saved state.
     */
    method UnblacklistEnterprise(role: Option<string>, id: string, now: Time)
      returns (r: Outcome<Error>)
      requires Valid()
      modifies this
      ensures Valid()
      ensures r == if role != Some(RoleAdmin) then CheckRole(role, RoleAdmin)
                   else if id !in old(world) then Fail(DoesNotExist(id))
                   else if old(world)[id].state != Blacklisted then Fail(NotBlacklisted(id))
                   else if |Split(old(world)[id].details, Marker)| != 2 then Fail(PreviousStateUnknown(id))
                   else Pass
      ensures r.Fail? ==> world == old(world)
      ensures r.Pass? ==> var parts := Split(old(world)[id].details, Marker);
        world == old(world)[id := old(world)[id].(
          state := parts[1], details := parts[0],
          blacklistDate := Zero, blacklistReason := "", updatedAt := now)]
      ensures r.Pass? ==> IsActiveState(world[id].state)
    {
      r := CheckRole(role, RoleAdmin);
      if r.Fail? {
        return;
      }
      var q := QueryEnterprise(id);
      if q.Failure? {
        return Fail(q.error);
      }
      var e := q.value;
      if e.state != Blacklisted {
        return Fail(NotBlacklisted(id));
      }
      var detailsParts := Split(e.details, Marker);
      if |detailsParts| != 2 {
        return Fail(PreviousStateUnknown(id));
      }
      RestoredRecordValid(id, e, now);
      e := e.(state := detailsParts[1]);
      e := e.(details := detailsParts[0]);
      e := e.(blacklistDate := Zero);
      e := e.(blacklistReason := "");
      e := e.(updatedAt := now);
      world := world[id := e];
    }

    /** Replace the organizations of a stored record wholesale. */
    method AssignOrganizations(role: Option<string>, id: string, organizations: seq<string>, now: Time)
      returns (r: Outcome<Error>)
      requires Valid()
      modifies this
      ensures Valid()
      ensures r == if role != Some(RoleAdmin) then CheckRole(role, RoleAdmin)
                   else if id !in old(world) then Fail(DoesNotExist(id))
                   else Pass
      ensures r.Fail? ==> world == old(world)
      ensures r.Pass? ==> world == old(world)[id := old(world)[id].(
                organizations := organizations, updatedAt := now)]
    {
      r := CheckRole(role, RoleAdmin);
      if r.Fail? {
        return;
      }
      var q := QueryEnterprise(id);
      if q.Failure? {
        return Fail(q.error);
      }
      var e := q.value;
      e := e.(organizations := organizations);
      e := e.(updatedAt := now);
      world := world[id := e];
    }

    /** Replace the channels of a stored record wholesale. */
    method AssignChannels(role: Option<string>, id: string, channels: seq<string>, now: Time)
      returns (r: Outcome<Error>)
      requires Valid()
      modifies this
      ensures Valid()
      ensures r == if role != Some(RoleAdmin) then CheckRole(role, RoleAdmin)
                   else if id !in old(world) then Fail(DoesNotExist(id))
                   else Pass
      ensures r.Fail? ==> world == old(world)
      ensures r.Pass? ==> world == old(world)[id := old(world)[id].(
                channels := channels, updatedAt := now)]
    {
      r := CheckRole(role, RoleAdmin);
      if r.Fail? {
        return;
      }
      var q := QueryEnterprise(id);
      if q.Failure? {
        return Fail(q.error);
      }
      var e := q.value;
      e := e.(channels := channels);
      e := e.(updatedAt := now);
      world := world[id := e];
    }

    /**
     * All stored records the blacklist selector matches, one per matching
     * key, in no particular order; empty when none matches.  In a valid
     * world state every record carries its own key as id, so no two
     * returned records share an id and none is returned twice.
     */
    method QueryBlacklistedEnterprises() returns (enterprises: seq<Enterprise>)
      ensures forall e :: e in enterprises <==> e in world.Values && IsBlacklistedRecord(e)
      ensures |enterprises| == |BlacklistedKeys()|
      ensures Valid() ==> forall i, j :: 0 <= i < j < |enterprises| ==> enterprises[i].id != enterprises[j].id
    {
      enterprises := [];
      var pending := world.Keys;
      ghost var matched: set<string> := {};
      ghost var keyed := forall key :: key in world ==> world[key].id == key;
      assert Valid() ==> keyed;
      while pending != {}
        invariant pending <= world.Keys && matched <= world.Keys && matched !! pending
        invariant forall key :: key in matched ==> IsBlacklistedRecord(world[key])
        invariant forall key :: key in world && key !in pending && IsBlacklistedRecord(world[key]) ==> key in matched
        invariant |enterprises| == |matched|
        invariant forall e :: e in enterprises ==> e in world.Values && IsBlacklistedRecord(e)
        invariant forall key :: key in matched ==> world[key] in enterprises
        invariant keyed ==> DistinctIdsFrom(enterprises, matched)
        decreases pending
      {
        var key :| key in pending;
        pending := pending - {key};
        if IsBlacklistedRecord(world[key]) {
          if keyed {
            AppendKeepsIdsDistinct(enterprises, world[key], matched);
          }
          enterprises := enterprises + [world[key]];
          matched := matched + {key};
        }
      }
      assert matched == BlacklistedKeys();
    }
  }
}
