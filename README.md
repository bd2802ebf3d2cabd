# Enterprise certification chaincode, modelled in Dafny

This project models the Hyperledger Fabric chaincode in `main.go`. The chaincode keeps one
Enterprise record per id in the ledger's world state. It moves each record through the
certification states `REGISTERED → CERTIFIED → REVOKED`. Any record that is not already
`BLACKLISTED` can be blacklisted, and a blacklisted record can be restored to the state it
had before. Every transaction first checks the caller's `role` attribute against the one
role it requires.

Layout:

- `wrappers.dfy` (`Wrappers`): `Option`, `Outcome` (a transaction's `error` return) and `Result`.
- `strings.dfy` (`Strings`): Go's `strings.Index` and `strings.Split` for a non-empty separator,
  as `IndexOf` and `Split` on `seq<char>`. `Join` is the inverse used to state what `Split` returns.
- `recovery.dfy` (`Recovery`): the marker `"|PREVIOUS_STATE:"`, the encoding blacklisting
  appends to the details, and the lemmas on when splitting gives the encoded parts back.
- `enterprise.dfy` (`Enterprises`): the `Enterprise` record with the sixteen fields of the Go struct (main.go:17-34), the
  errors, the role gate `CheckRole`, the blacklist query's selector, and the invariant
  `RecordValid` of a stored record.
- `chaincode.dfy` (`Chaincode`): class `SmartContract`. Its field `world: map<string, Enterprise>`
  is the world state, and there is one method per transaction. Each transaction loads the
  record, updates its fields one by one and writes it back under the same key. Every method
  states its error result and the whole new world state. The mutating methods keep `Valid()`:
  every record is stored under its own id, its state is one of the four names, a
  non-blacklisted record has no blacklist date or reason, and a blacklisted record's details
  end with the marker followed by the state it was blacklisted from.
- `scenarios.dfy` (`Scenarios`): runs of several transactions, and what the method contracts
  alone let a caller conclude about them.

Inputs the chaincode reads from its environment are method parameters:

- the caller's `role` attribute is an `Option<string>`, where `None` means the attribute is absent;
- the clock reading is a `Time` (`Zero` is Go's zero `time.Time{}`);
- the certificate id is an opaque string.

The recovery encoding round-trips only when neither the saved details nor the saved state
contains the marker. A stored state never contains it, because every state name is shorter
than the marker. The details can contain it, because registration stores any text. So
unblacklisting a valid blacklisted record succeeds exactly when the details it had before
blacklisting were marker-free (`Enterprises.RecoverSavedState`). Otherwise the record can never
leave `BLACKLISTED`, because no other transaction accepts a blacklisted record for a state change.

Three behaviours a reader might expect of the chaincode, but which its code does not have:

- One might expect stored details to contain the marker only while a record is BLACKLISTED.
  Nothing enforces this: `RegisterEnterprise` stores any details, and no later transaction
  checks them. `Scenarios.MarkedDetailsStayBlacklisted` shows the consequence.
- One might expect blacklisting to be allowed only from CERTIFIED. The code accepts every
  state except `BLACKLISTED` (main.go:152), and so does the model.
- One might expect certificate ids to be unique. `generateCertificateID` (main.go:318-320)
  returns `CERT-` followed by the clock's nanoseconds. That is never empty, but two
  certifications within the same clock tick get the same id. The model takes the id as a
  parameter and requires only that it is non-empty.

## Model

| member | source | states |
|---|---|---|
| `Strings.IndexOf` | main.go:188 | the result is absent exactly when the separator does not occur, and otherwise is the position of its leftmost occurrence |
| `Strings.Split` | main.go:188-189 | at least one part; joining the parts with the separator gives back the input; no part contains the separator; exactly one part iff the separator does not occur; the first cut is at the leftmost occurrence |
| `Recovery.EncodePrevious` | main.go:163 | the encoded details are the old details, then the marker at their end, then the previous state |
| `Recovery.OccurrenceNotBefore` | main.go:163-188 | in `a + marker + b` with marker-free `a`, no occurrence of the marker starts before the written one |
| `Recovery.OccurrenceNotAfter` | main.go:163-188 | in `a + marker + b` with marker-free `b`, no occurrence of the marker starts after the written one |
| `Recovery.DecompositionUnique` | main.go:163-194 | a string has at most one decomposition into marker-free details, the marker and a marker-free state |
| `Recovery.SplitEncoded` | main.go:156-194 | round trip: for marker-free details and state, splitting the encoding gives exactly `[details, state]` |
| `Recovery.SplitEncodedTwoPartsIff` | main.go:163-191 | the encoding splits into exactly two parts if and only if neither the details nor the state contains the marker |
| `Recovery.MarkedDetailsAreUnrecoverable` | main.go:163-191 | details that already contain the marker split into more than two parts after blacklisting, so unblacklisting fails |
| `Recovery.TwoPartsAreAnEncoding` | main.go:188-194 | decode then encode: whatever splits into two parts is the encoding of those parts, and neither part contains the marker |
| `Recovery.TwoPartsOnlyIfOccursOnce` | main.go:188-189 | when the details split at the marker into exactly two parts, the marker occurs in them at exactly one position |
| `Recovery.OccursOnceOnlyIfTwoParts` | main.go:188-189 | when the marker occurs at exactly one position, the details split into exactly two parts |
| `Recovery.TwoPartsIffOccursOnce` | main.go:188-189 | unblacklisting's two-part test holds if and only if the marker occurs in the details exactly once |
| `Enterprises.IsBlacklistedRecord` | main.go:270 | the selector of the blacklist query: a record matches iff its doc type is `enterprise` and its state is BLACKLISTED |
| `Enterprises.SelectorMatchesBlacklistedState` | main.go:270 | the query selector `IsBlacklistedRecord` (doc type `enterprise` and state BLACKLISTED) holds of a valid record iff its state is BLACKLISTED, since every stored record is an `enterprise` document |
| `Enterprises.CheckRole` | main.go:298-316 | passes iff the role attribute is present and exactly equals the required role; an absent attribute fails with `MissingRoleAttribute`, any other role with `RoleMismatch(required)` |
| `Enterprises.DetailsBefore` | main.go:163 | the details before blacklisting, from which the stored details are the encoding of the saved state |
| `Enterprises.RecoverSavedState` | main.go:184-196 | for details that end with the encoding of an active state, the split gives two parts iff the earlier details are marker-free, and then gives exactly those details and that state |
| `Enterprises.RestoredRecordValid` | main.go:188-197 | restoring a valid blacklisted record yields one of REGISTERED, CERTIFIED, REVOKED and a valid record |
| `Enterprises.BlacklistRestoreRoundTrip` | main.go:152-197 | blacklisting then restoring a valid record succeeds iff its details are marker-free, and then gives back the record with only `updatedAt` changed |
| `Chaincode.SmartContract.EnterpriseExists` | main.go:76-83 | true iff a record is stored under the id |
| `Chaincode.SmartContract.QueryEnterprise` | main.go:251-267 | returns the stored record, or `DoesNotExist(id)` when there is none |
| `Chaincode.SmartContract.RegisterEnterprise` | main.go:41-74 | fails without writing unless the role is `registrar` and the id is new; on success adds only key `id`, holding an `enterprise` document with that id, state REGISTERED, empty certificate id, organizations and channels, zero dates, and `createdAt == updatedAt == now` |
| `Chaincode.SmartContract.CertifyEnterprise` | main.go:85-111 | fails without writing unless the role is `certifier`, the id exists and the state is REGISTERED; on success rewrites only key `id`: state CERTIFIED, the given non-empty certificate id, certification and update time `now` |
| `Chaincode.SmartContract.RevokeCertification` | main.go:113-139 | fails without writing unless the role is `certifier`, the id exists and the state is CERTIFIED; on success rewrites only key `id`: state REVOKED, revocation reason and date, update time |
| `Chaincode.SmartContract.BlacklistEnterprise` | main.go:141-171 | fails without writing unless the role is `admin`, the id exists and the state is not BLACKLISTED; on success rewrites only key `id`: state BLACKLISTED, reason and date, update time, and the details followed by the marker and the previous state |
| `Chaincode.SmartContract.UnblacklistEnterprise` | main.go:173-205 | fails without writing unless the role is `admin`, the id exists, the state is BLACKLISTED and the details split at the marker into exactly two parts; on success rewrites only key `id`: state and details from the two parts, blacklist date and reason cleared, update time; the restored state is one of REGISTERED, CERTIFIED, REVOKED |
| `Chaincode.SmartContract.AssignOrganizations` | main.go:207-227 | fails without writing unless the role is `admin` and the id exists; on success replaces only that record's organizations wholesale and its update time |
| `Chaincode.SmartContract.AssignChannels` | main.go:229-249 | fails without writing unless the role is `admin` and the id exists; on success replaces only that record's channels wholesale and its update time |
| `Chaincode.SmartContract.QueryBlacklistedEnterprises` | main.go:269-297 | returns exactly the stored records with doc type `enterprise` and state BLACKLISTED, one per matching key, empty when none match; in a valid world state no two returned records share an id |
| `Scenarios.BlacklistThenUnblacklist` | main.go:141-205 | on a stored, non-blacklisted record, blacklisting passes; unblacklisting then passes iff the details were marker-free, and restores the world state except the record's `updatedAt`; otherwise it fails with `PreviousStateUnknown` and the record stays BLACKLISTED |
| `Scenarios.AcmeLifecycle` | main.go:41-205 | register, certify, blacklist for "fraud" (state BLACKLISTED, reason "fraud"), unblacklist: the record is CERTIFIED again with details "desc", no blacklist reason and its certificate id |
| `Scenarios.RegistrarCannotCertify` | main.go:85-98 | a caller with role `registrar` is refused certification with `RoleMismatch("certifier")` and the record stays REGISTERED without a certificate id |
| `Scenarios.RegisterTwice` | main.go:47-53 | a second registration of an id fails with `AlreadyExists` and the first record is kept |
| `Scenarios.MarkedDetailsStayBlacklisted` | main.go:163-191 | a record registered with the marker in its details cannot be unblacklisted and stays BLACKLISTED |

## Left out

- The Fabric stub: `GetState`, `PutState` and `GetQueryResult` become reads and writes of the `world` map. Their I/O errors ("failed to read from world state"), the result iterator and its errors (main.go:274-297) are not modelled.
- JSON marshalling and unmarshalling and their error paths: the record is a Dafny datatype. Go's distinction between a nil and an empty slice in `organizations` and `channels` is not modelled.
- The `cid` identity lookups (main.go:299-307): the role attribute is a parameter. A failure to resolve the client identity or the attribute is not modelled. The client id in the error messages is not modelled.
- Error messages are `Error` constructors, one per distinct error return, not formatted strings.
- `time.Now()`: every transaction takes one clock reading `now`. The source reads the clock once per stamped field, so two fields stamped in one call may differ slightly in the source. The UTC versus local-time distinction is not modelled.
- `generateCertificateID` (main.go:318-320) reads the clock, so the certificate id is a parameter. The model requires only the generator's one guarantee, a non-empty id. Its form `CERT-<nanoseconds>` is not modelled, and uniqueness is not modelled because the source does not guarantee it.
- `InitLedger` and `main` (main.go:36-39, 322-332): bootstrap and printing.
- Concurrency and transaction ordering belong to the ledger. Each method runs as one atomic transaction.
- `Strings.Split` models `strings.Split` only for a non-empty separator, the only kind the chaincode uses. It works on characters, not UTF-8 bytes; for the ASCII marker the occurrences are the same.
- Scenarios.BlacklistThenUnblacklist: does not restate that `Valid()` holds afterwards; the unblacklist transaction's own contract states it.
