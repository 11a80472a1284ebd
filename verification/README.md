# Verified model of the SMTP relay manager

A Dafny 4.11 model of the backend of an authenticated SMTP relay, with proofs of what it keeps over whole runs. `dafny verify dfyconfig.toml` checks everything.

| files | subject |
|---|---|
| `RateLimits`, `RateLedger`, `RateRuns`, `RateReleases`, `RateBounds`, `Authentication` | the shared rate limiter: fixed windows over nested buckets, compared with a ledger of its own history |
| `Upstream`, `Replies`, `Relay`, `DeliveryRuns` | one relayed message, and many of them interleaved with maintenance and crashes |
| `Tables`, `Registry`, `RegistryService`, `RegistryRuns`, `RegistryEffects` | users, domains, grants, credentials and the sender decision: what each request needs, brings about and can never lead to |
| `RowLocks`, `LockRuns`, `RightRuns`, `LockEffects`, `SerialRuns` | account, invitation, ownership and grant transactions split at their locking reads, interleaved, alone, and compared with the atomic requests |
| `Names`, `Hosts`, `SmtpConfigs` | normal forms of domains, addresses and upstream hosts; stored upstream settings |
| `Admission`, `ClientAddresses` | connection and DATA slots; the trusted-proxy walk |

Code that changes state in place is a class or a loop here too: the rate-limit, attempt, configuration and registry tables, the upstream session, the server and its protocol objects. Each method is tied to a specification function, and the theorems are about runs of those functions. Every `await` is an oracle that may answer, fail in any way the code tells apart, or be cancelled; a commit may take effect and still be reported as an error.

Assumed of the outside: identifiers and tokens are drawn fresh; hashing is injective and decryption undoes encryption; database transactions are atomic and row locks are held to commit, an insert waits for the lock of the row its foreign key names and a unique key refuses a duplicate; the IDNA codec is the identity on ASCII names whose labels fit and arbitrary elsewhere; IP address parsing obeys `Hosts.Sane`. The limiter's theorems need a window of at least one second (both callers pass 900).

## Results that are not plain confirmations

- Maintenance deletes rate-limit buckets. A call stamped before a pass but run after it can recreate a bucket so that an older release erases its attempt (`StaleStampAfterPurgeErasesAnAttempt`). In every run, each release reaches only windows that charged its call and still owe it exactly when no call opens a window of a bucket at a second no later than the stamp of a permitted call on that bucket not yet released (`ReleasesReachHomeIff`); on the same condition the account of attempts holds in every state and survives whichever release comes next (`AccountIsSafeIff`). It is enough that no deleted bucket is brought back before its last window was over, and so that calls run after a pass are stamped no earlier than the pass (`PurgesInOrderKeepReleasesHome`); without maintenance stamps may come in any order. Windows of one bucket being a window length apart is a stronger property, with its own condition (`WindowsStayApartIffNothingRevivedEarly`).
- A rejected recipient followed by a broken RCPT command is reported as the broken connection, not as a rejection, although the exception's description says it is raised when at least one recipient is rejected (`BrokenRcptHidesARejection`; exact condition in `RejectionKeepsEveryResult`).
- A row marked failed after DATA began reflects an explicit upstream refusal exactly when the DATA call ended in an answer, a refusal, a lost connection or a cancellation (`FailedRowIsARefusalIffUsual`). Any other exception there is recorded as failed too: when the client library raises an unexpected positive answer such as 251, the row says failed and the client is told 451 (`PositiveAnswerRecordedAsFailed`).
- Normalizing an upstream host twice is not always normalizing it once: the scope of a bracketed IPv6 address may end in a dot or a space (`ScopedAddressIsNotStable`; exact condition in `NormalHostIsStableIff`). Stored settings are still accepted, because an update normalizes the host a second time before it is stored.
- Normalizing a normal address again is refused exactly when the codec made it longer than 254 characters (`NormalAddressIsStableIffShort`; an example of 126 characters is `GrownAddressIsRefused`); this cannot happen for ASCII input.
- Registering a domain reads its owner without a lock. When a disable commits between that read and the insert, the new domain's owner is inactive (`OverlappingRegistrationLosesItsOwner`). Over every interleaving of registrations, transfers, deletions and account updates, owners stay active throughout exactly when each registration commits while its actor is active (`OwnersStayActiveIff`).
- Adding an admin compares the user with an owner read before the user's row is locked. When a transfer to that user commits in between, the owner is an admin too (`OverlappingAdditionMakesTheOwnerAnAdmin`); the exact condition over all runs is `OwnersStayApartIff`.
- Granting an address checks its registration without a lock, and deleting an address first deletes its grants, then the address. An exact grant for an unregistered address can be left (`OverlappingDeletionLeavesAGrant`); the exact condition over all runs is `GrantsStayRegisteredIff`.

## Model

| member | source | states |
|---|---|---|
| RateLimits.RateLimitTable.Consume | backend/src/smtp_relay_manager/security.py:138-170 | the consuming transaction, loop over keys with early stop, as one charge of the table |
| RateLimits.RateLimitTable.GiveBackAll | backend/src/smtp_relay_manager/security.py:187-199 | the releasing transaction, key by key |
| RateLimits.RateLimitTable.DeleteExpired | backend/src/smtp_relay_manager/maintenance.py:46-48 | the maintenance pass drops exactly the buckets whose window is over |
| RateLimits.ChargeAtKey | backend/src/smtp_relay_manager/security.py:163-169 | keys before the stop gain one attempt in their current window, the stopping key is full and only refreshed |
| RateLimits.ChargeElsewhere | backend/src/smtp_relay_manager/security.py:144-170 | no bucket beyond those looked at is created or changed |
| RateRuns.BlockedAddressChangesNothing | backend/src/smtp_relay_manager/security.py:133-135 | while an address is blocked, whatever else goes on, none of its inner buckets is created, charged or reopened |
| RateLimits.SuccessIsGivenBack | backend/src/smtp_relay_manager/security.py:173-199 | a permitted call released at once leaves each bucket as found, exactly when the window was not opened by a later stamp |
| RateLedger.ReleaseFindsItsOwnWindow | backend/src/smtp_relay_manager/security.py:196-199 | a release passing the guard finds the window that charged it, still owed, so the maximum with zero never clips |
| RateLedger.EventKeepsSound | backend/src/smtp_relay_manager/security.py:117-199 | a transaction keeps attempts equal to charges less releases of the current window, and window ends growing by a window length, exactly when it brings no deleted bucket back before its last window was over |
| RateReleases.OpenedWindowIsHitIff | backend/src/smtp_relay_manager/security.py:196-199 | which earlier calls' releases pass the guard of a newly opened window, which charged none of them |
| RateReleases.ReleasesReachHomeIff | backend/src/smtp_relay_manager/security.py:173-199 | over every run, each release whenever it comes reaches only windows that charged its call and still owe it, exactly when no call opens a window over an attempt still owed |
| RateReleases.ReleaseKeepsAccountIff | backend/src/smtp_relay_manager/security.py:187-199 | a release keeps attempts equal to charges less releases in every bucket exactly when it reaches only its own windows |
| RateReleases.AccountIsSafeIff | backend/src/smtp_relay_manager/security.py:141-199 | the exact condition, over every run, for the account to hold in every state and survive whichever release comes next |
| RateReleases.PurgesInOrderKeepReleasesHome | backend/src/smtp_relay_manager/maintenance.py:46-48 | stamps no earlier than the passes before them, or no early revival, are enough for that |
| RateReleases.AttemptsAreChargesLessReleases | backend/src/smtp_relay_manager/security.py:141-199 | the accounting at the end of every run in which no window opens over an attempt still owed |
| RateReleases.LateReleaseHitsOnlyItsOwnWindow | backend/src/smtp_relay_manager/security.py:173-199 | in such a run, however late, a release takes exactly one attempt from its own window and never erases another caller's failure |
| RateRuns.WindowsStayApartIffNothingRevivedEarly | backend/src/smtp_relay_manager/security.py:141-166 | over every run, the accounting holds and windows of a bucket are a window length apart exactly when no call revives a deleted bucket early |
| RateRuns.PurgesInOrderReviveNothing | backend/src/smtp_relay_manager/maintenance.py:46-48 | stamps no earlier than the passes before them revive nothing early |
| RateRuns.StaleStampAfterPurgeErasesAnAttempt | backend/src/smtp_relay_manager/maintenance.py:46-48 | the run that shows why stamps must follow maintenance passes |
| RateBounds.AttemptsNeverExceedTheLimit | backend/src/smtp_relay_manager/security.py:166-169 | with fixed limits no bucket ever exceeds its limit, whatever the stamps and passes |
| RateBounds.BurstIsAtMostTwiceTheLimit | backend/src/smtp_relay_manager/security.py:141-169 | with stamps in order, any interval of one window holds at most twice the limit of charged, never returned attempts |
| RateBounds.InnerBucketsAreChargedFor | backend/src/smtp_relay_manager/security.py:144-170 | inner buckets reached within an outer window are at most the outer limit plus the attempts given back to it, whatever the stamps and passes |
| Authentication.Authenticate | backend/src/smtp_relay_manager/smtp/service.py:75-101 | a blocked or failed login stays charged, a successful one is released |
| Authentication.SuccessCostsNothing | backend/src/smtp_relay_manager/smtp/service.py:80-100 | a right token leaves both buckets as found, a wrong one costs one attempt in each |
| Authentication.BlockedExactlyAtTheLimits | backend/src/smtp_relay_manager/smtp/service.py:80-91 | turned away exactly at twenty attempts of the peer or five of the pair within fifteen minutes |
| Authentication.KeysTellApart | backend/src/smtp_relay_manager/smtp/service.py:80-83 | each peer, and each credential of a peer, has a bucket of its own |
| Upstream.UpstreamSession.Deliver | backend/src/smtp_relay_manager/upstream.py:379-429 | outcome and command trace of a delivery for every answer pattern |
| Upstream.UpstreamSession.Close | backend/src/smtp_relay_manager/upstream.py:431-440 | closing swallows everything and sends QUIT once |
| Upstream.DataOnlyAfterEveryRecipient | backend/src/smtp_relay_manager/upstream.py:392-414 | DATA is sent at most once, last, after every recipient in order got a 2xx reply and a later re-authorization |
| Upstream.DataSentUnlessStopped | backend/src/smtp_relay_manager/upstream.py:392-414 | DATA is sent exactly when nothing stopped the delivery |
| Upstream.ReachesDataIff | backend/src/smtp_relay_manager/upstream.py:392-412 | what it takes to get as far as DATA |
| Upstream.LastCommandTellsTheEnd | backend/src/smtp_relay_manager/upstream.py:392-429 | each delivery ends as its last command did; once DATA began, a lost connection or a cancellation leaves the result unknown |
| Upstream.RejectionKeepsEveryResult | backend/src/smtp_relay_manager/upstream.py:395-410 | exactly when a delivery ends in a rejection, with one result per recipient in order whatever RSET does |
| Upstream.BrokenRcptHidesARejection | backend/src/smtp_relay_manager/upstream.py:395-405 | a later broken RCPT replaces an earlier rejection |
| Replies.RejectionIsTemporaryWhenRetryable | backend/src/smtp_relay_manager/smtp/server.py:79-89 | a recipient rejection is temporary exactly when some rejection is 4xx or none is 5xx |
| Replies.FailureReply | backend/src/smtp_relay_manager/smtp/server.py:76-112 | every failure maps to a 4xx or 5xx reply with the matching enhanced class |
| Replies.RejectionCodeIsTheFirst | backend/src/smtp_relay_manager/smtp/server.py:79-89 | the first 4xx answer in recipient order, else the first 5xx, else 451 |
| Replies.ReplyByCause | backend/src/smtp_relay_manager/smtp/server.py:76-112 | code and text for every other cause |
| Relay.RelayService.RelayMessage | backend/src/smtp_relay_manager/smtp/service.py:184-224 | records the attempt, relays once, closes, and converts a cancellation before DATA |
| Relay.RelayService.Finalize | backend/src/smtp_relay_manager/smtp/service.py:160-182 | overwrites status and note of an existing row; a missing row is an error |
| Relay.RelayService.HandleData | backend/src/smtp_relay_manager/smtp/server.py:180-234 | reply, rows and upstream commands of one DATA command; 250 exactly when upstream accepted |
| Relay.RelayService.SweepAttempts | backend/src/smtp_relay_manager/maintenance.py:28-45 | stale pending rows become unknown, rows past retention go |
| Relay.UncheckedIsRefused | backend/src/smtp_relay_manager/smtp/server.py:187-197 | 530 without authentication, else 451 without content, else 550 when headers do not match |
| Relay.NothingHappensUnchecked | backend/src/smtp_relay_manager/smtp/server.py:187-202 | such a message is not recorded, nothing is sent for it, and it is never accepted |
| Relay.SuccessIffUpstreamSawIt | backend/src/smtp_relay_manager/smtp/server.py:199-234 | 250 if and only if the commands the upstream server saw include DATA with a 2xx response |
| Relay.SuccessIffUpstreamAccepted | backend/src/smtp_relay_manager/smtp/server.py:199-234 | for every pattern of errors and cancellations, 250 if and only if the DATA call returned 2xx |
| Relay.NothingAfterAcceptanceMatters | backend/src/smtp_relay_manager/smtp/service.py:221-235 | neither QUIT nor the log write can undo a success |
| Relay.EveryOtherReplyIsAFailure | backend/src/smtp_relay_manager/smtp/server.py:187-234 | every other reply is 400 to 599 with a matching class |
| Relay.OutcomeIsRecorded | backend/src/smtp_relay_manager/smtp/service.py:226-249 | with working log writes the row's status and code say what happened |
| Relay.CutOffIsUnknown | backend/src/smtp_relay_manager/smtp/server.py:213-224 | a lost connection or a cancellation after DATA began is recorded as unknown and answered 451 4.4.2, whatever the log write does |
| Relay.FailureIsReported | backend/src/smtp_relay_manager/smtp/server.py:205-234 | the reply to every other failure is what its cause alone gives |
| Relay.AbortedIff | backend/src/smtp_relay_manager/smtp/server.py:199-256 | the handler ends without a reply exactly when it is cancelled while recording the attempt or its failure |
| Relay.RowsWithoutAWrite | backend/src/smtp_relay_manager/smtp/service.py:140-182 | what the log holds when a write does not go through |
| Relay.FinalWriteKeepsCreation | backend/src/smtp_relay_manager/smtp/service.py:169-182 | the last write keeps the creation time and every other row |
| Relay.SessionIsOpenedAndClosed | backend/src/smtp_relay_manager/smtp/service.py:201-224 | one QUIT at the end of every connection, none without one |
| DeliveryRuns.AloneIsTheHandler | backend/src/smtp_relay_manager/smtp/server.py:180-234 | the staged handler, undisturbed, is the handler |
| DeliveryRuns.ViewsAgree | backend/src/smtp_relay_manager/smtp/service.py:160-249 | every run keeps row, reply and upstream in agreement, through maintenance and crashes at any stage |
| DeliveryRuns.ViewsAlwaysAgree | backend/src/smtp_relay_manager/smtp/service.py:160-249 | they agree in every state reachable from an empty log |
| DeliveryRuns.PositiveAnswerRecordedAsFailed | backend/src/smtp_relay_manager/smtp/server.py:223-234 | a run whose failed row hides a positive answer |
| DeliveryRuns.FailedRowIsARefusalIffUsual | backend/src/smtp_relay_manager/upstream.py:413-427 | when a failed row after DATA reflects an explicit refusal |
| DeliveryRuns.CutOffIsNeverFinal | backend/src/smtp_relay_manager/upstream.py:413-427 | over every run a message cut off after DATA began is never recorded as accepted or failed, nor answered 250 |
| DeliveryRuns.CrashStopsTheHandler | backend/src/smtp_relay_manager/smtp/service.py:160-182 | a process may be gone at any stage; the log keeps what was committed |
| DeliveryRuns.StatusOnlyRefines | backend/src/smtp_relay_manager/smtp/service.py:169-182 | accepted and failed rows never change, unknown only by the own finalization, pending also by maintenance |
| DeliveryRuns.FinalRowsStay | backend/src/smtp_relay_manager/smtp/service.py:160-182 | over any run accepted and failed are never left |
| DeliveryRuns.NothingStalePendingAfterAPass | backend/src/smtp_relay_manager/maintenance.py:26-45 | once a pass has run, nothing is ever again pending from more than ten minutes before it |
| DeliveryRuns.FinalizedAtMostOnce | backend/src/smtp_relay_manager/smtp/server.py:199-256 | over every run the handler of an attempt does its last log write at most once |
| RegistryRuns.AuthorizedExactlyWhenPermitted | backend/src/smtp_relay_manager/policy.py:196-237 | success exactly when credential, user, domain, grant and scope permit the normal address, for one domain only |
| RegistryRuns.RequestKeepsSound | backend/src/smtp_relay_manager/api.py:1012-1603 | every handler keeps names, owners, admins, grants and unique rows sound |
| RegistryRuns.HistoryKeepsSound | backend/src/smtp_relay_manager/api.py:963-1856 | the registry invariant over every history |
| RegistryRuns.RightsGrowOnlyByGrantors | backend/src/smtp_relay_manager/api.py:1565-1614 | what a user may send grows only by a manager's grant, an approval or an activation |
| RegistryRuns.OnlyManagersChangeADomain | backend/src/smtp_relay_manager/policy.py:74-113 | who can change a domain's row, admins, addresses and grants |
| RegistryRuns.OnlyItsUserChangesACredential | backend/src/smtp_relay_manager/api.py:1789-1856 | who can change a credential and its scopes; new scopes are within current grants |
| RegistryRuns.ValidatedScopesAreGranted | backend/src/smtp_relay_manager/policy.py:116-148 | accepted scopes are distinct and covered by current grants in approved live domains |
| RegistryRuns.DeletedAddressLeavesNoExactRights | backend/src/smtp_relay_manager/api.py:1508-1521 | deleting an address removes its exact grants and scopes and no other grant |
| RegistryRuns.DeletedRightsAreInert | backend/src/smtp_relay_manager/api.py:1412-1423 | had a deleted domain's grants and scopes been dropped with it, every later history would be possible and leave the same rows of everything else |
| RegistryRuns.StatusIgnoresDeletedRights | backend/src/smtp_relay_manager/api.py:530-539 | and every request would get the same response |
| RegistryRuns.DeletedDomainNeverAuthorizes | backend/src/smtp_relay_manager/policy.py:196-237 | and every later sender decision would be the same, also when the name is registered anew; none is for the deleted domain |
| RegistryRuns.SpentCredentialNeverAuthorizes | backend/src/smtp_relay_manager/api.py:1844-1856 | a revoked or expired credential is never authorized again |
| RegistryEffects.RevocationIsFinal | backend/src/smtp_relay_manager/api.py:1844-1856 | from its successful revocation on, whatever is requested later, a credential authorizes nothing |
| RegistryEffects.RevokedCredential | backend/src/smtp_relay_manager/api.py:1844-1856 | who may revoke; the first revocation sets the moment and nothing else changes |
| RegistryEffects.ScopesAcceptedIff | backend/src/smtp_relay_manager/api.py:1704-1723 | scopes are accepted exactly when each is covered by a current grant and none is repeated, and are the normal addresses asked for |
| RegistryEffects.CreatedCredential | backend/src/smtp_relay_manager/api.py:1752-1786 | who may create a credential, and that it has exactly those scopes |
| RegistryEffects.ReplacedScopes | backend/src/smtp_relay_manager/api.py:1803-1832 | whose credential keeps exactly the scopes asked for |
| RegistryEffects.AddedGrant | backend/src/smtp_relay_manager/api.py:1572-1603 | exactly when a grant is given |
| RegistryEffects.AddedGrantRow | backend/src/smtp_relay_manager/api.py:1599-1603 | the one row a grant adds |
| RegistryEffects.GrantLetsSend | backend/src/smtp_relay_manager/policy.py:196-237 | a grant lets its user send at once where the domain is approved |
| RegistryEffects.RemovedGrant | backend/src/smtp_relay_manager/api.py:1620-1634 | who may remove a grant, and that only it goes |
| RegistryEffects.RegisteredAddress | backend/src/smtp_relay_manager/api.py:1471-1489 | exactly when an address is registered |
| RegistryEffects.AddedAddress | backend/src/smtp_relay_manager/api.py:1484-1489 | the one row registering adds, under the normal address |
| RegistryEffects.RemovedAddress | backend/src/smtp_relay_manager/api.py:1501-1521 | who may delete an address, and which rows go with it |
| RegistryEffects.RegisteredDomain | backend/src/smtp_relay_manager/api.py:1170-1183 | a name is registered exactly when no live domain has it, and awaits approval |
| RegistryEffects.DecidedDomain | backend/src/smtp_relay_manager/api.py:1284-1299 | only an operator decides, and approves once |
| RegistryEffects.DeletedDomainFreesItsName | backend/src/smtp_relay_manager/api.py:1412-1423 | only the owner deletes, and the name can be registered again |
| RegistryEffects.RejectionStopsTheMail | backend/src/smtp_relay_manager/policy.py:216-237 | a domain rejected or deleted routes nothing |
| RegistryEffects.TransferredDomain | backend/src/smtp_relay_manager/api.py:1332-1355 | ownership moves exactly to another activated account, and the old owner keeps no role |
| RegistryEffects.AddedAdmin | backend/src/smtp_relay_manager/api.py:1366-1377 | exactly when an admin is added |
| RegistryEffects.RemovedAdmin | backend/src/smtp_relay_manager/api.py:1389-1406 | exactly when an admin is removed |
| RegistryEffects.UpdatedUser | backend/src/smtp_relay_manager/api.py:971-1040 | exactly when an account is changed, and to what |
| RegistryEffects.DisablingStopsTheMail | backend/src/smtp_relay_manager/policy.py:225-229 | disabling an account stops its credentials |
| RegistryEffects.CreatedUser | backend/src/smtp_relay_manager/api.py:916-950 | only an operator creates accounts, without password and inactive |
| RegistryEffects.ActivatedUser | backend/src/smtp_relay_manager/api.py:837-841 | an invitation sets the first password and activates the account |
| RegistryEffects.RefusalCodes | backend/src/smtp_relay_manager/api.py:495-545 | 401, 403 and 404 for a missing session, role and domain |
| RegistryEffects.RefusedSender | backend/src/smtp_relay_manager/policy.py:194-237 | a sender that is no address is told apart from one that is not authorized |
| RegistryService.RegistryTables.UpdateUser | backend/src/smtp_relay_manager/api.py:971-1040 | account updates with the last-operator and owned-domain refusals |
| RegistryService.RegistryTables.TransferOwner | backend/src/smtp_relay_manager/api.py:1332-1355 | ownership moves to an activated user, who stops being an admin |
| RegistryService.RegistryTables.CreateDomain | backend/src/smtp_relay_manager/api.py:1170-1183 | registration under a free normal name |
| RegistryService.RegistryTables.DeleteDomain | backend/src/smtp_relay_manager/api.py:1417-1422 | soft deletion by the owner |
| RegistryService.RegistryTables.DeleteAddress | backend/src/smtp_relay_manager/api.py:1501-1521 | deletion with exact grants and scopes |
| RegistryService.RegistryTables.CreateGrant | backend/src/smtp_relay_manager/api.py:1572-1603 | granting to an activated user, exact addresses only when registered |
| RegistryService.RegistryTables.ValidateScopes | backend/src/smtp_relay_manager/api.py:1704-1723 | the scope loop with its repeat check and grant checks |
| RegistryService.RegistryTables.UpdateCredentialScopes | backend/src/smtp_relay_manager/api.py:1803-1832 | replaces all scopes of an unrevoked own credential |
| LockRuns.AnOperatorAlwaysRemains | backend/src/smtp_relay_manager/api.py:971-1040 | under every interleaving an active operator exists after every commit |
| LockRuns.UpdateLeavesAnOperator | backend/src/smtp_relay_manager/api.py:1000-1011 | a commit leaves an operator even when the locked list misses some |
| LockEffects.UpdateAlone | backend/src/smtp_relay_manager/api.py:971-1040 | alone, exactly when an account update goes through, and what it leaves, invitations included |
| LockRuns.RegistrationOwnerActiveIff | backend/src/smtp_relay_manager/api.py:1175-1183 | a registration's domain has an active owner exactly when the actor is active at the commit |
| LockRuns.OwnersStayActiveIff | backend/src/smtp_relay_manager/api.py:1012-1030 | over every interleaving owners of live domains are active throughout exactly when every registration commits while its actor is active |
| LockRuns.OwnersStayActive | backend/src/smtp_relay_manager/api.py:1336-1355 | interleaved transfers and account updates, without registrations, keep owners of live domains active |
| LockRuns.OverlappingRegistrationLosesItsOwner | backend/src/smtp_relay_manager/api.py:1170-1183 | a run from a quiet state in which a disable commits between a registration's read and its insert |
| RightRuns.OwnersStayApartIff | backend/src/smtp_relay_manager/api.py:1366-1377 | over every interleaving no owner is an admin of the same domain exactly when every addition commits while its user is not the owner |
| RightRuns.OverlappingAdditionMakesTheOwnerAnAdmin | backend/src/smtp_relay_manager/api.py:1332-1377 | a run in which a transfer commits between an addition's read of the owner and its lock on the user |
| RightRuns.GrantsStayRegisteredIff | backend/src/smtp_relay_manager/api.py:1582-1603 | over every interleaving exact grants name registered addresses exactly when each grant commits while its address is registered and none slips between the deletes of an address deletion |
| RightRuns.OverlappingDeletionLeavesAGrant | backend/src/smtp_relay_manager/api.py:1501-1521 | a run that leaves an exact grant for an address that is not registered |
| LockRuns.OneInvitationPerUser | backend/src/smtp_relay_manager/api.py:1066-1083 | over every interleaving a user has at most one invitation |
| LockRuns.InvitationsAreUsedOnce | backend/src/smtp_relay_manager/api.py:812-854 | no invitation accepted twice, no second password through invitations, none from before a disable accepted after it |
| LockRuns.RevocationBars | backend/src/smtp_relay_manager/api.py:1119-1129 | a committed revocation ends its invitation |
| LockRuns.BarredIsNeverAccepted | backend/src/smtp_relay_manager/api.py:823-838 | with an advancing clock a revoked, expired or used invitation is never accepted |
| LockEffects.AcceptanceAlone | backend/src/smtp_relay_manager/api.py:812-854 | alone, an acceptance goes through exactly for the right token of an unused, unexpired invitation of a user without a password |
| LockEffects.ReissueAlone | backend/src/smtp_relay_manager/api.py:1052-1083 | alone, exactly when a reissue goes through; the new invitation is the only one |
| LockEffects.RevocationAlone | backend/src/smtp_relay_manager/api.py:1114-1130 | alone, an unused invitation ends now |
| LockEffects.PurgeDropsExpired | backend/src/smtp_relay_manager/maintenance.py:51-54 | exactly the expired invitations go |
| LockEffects.SingleWritesDo | backend/src/smtp_relay_manager/api.py:916-950 | what the transactions with a single write leave |
| LockEffects.AbortAlone | backend/src/smtp_relay_manager/db.py:25-40 | giving up leaves no write and no lock |
| LockEffects.TransferAlone | backend/src/smtp_relay_manager/api.py:1332-1355 | alone, exactly when a transfer goes through |
| LockEffects.RegistrationAlone | backend/src/smtp_relay_manager/api.py:1170-1183 | alone, exactly when a registration goes through |
| LockEffects.AdditionAlone | backend/src/smtp_relay_manager/api.py:1366-1377 | alone, exactly when an admin is added |
| LockEffects.GrantAlone | backend/src/smtp_relay_manager/api.py:1572-1603 | alone, exactly when a grant goes through |
| LockEffects.UnregistrationAlone | backend/src/smtp_relay_manager/api.py:1501-1521 | alone, exactly when an address is deleted, with every grant for it |
| SerialRuns.UpdateIsTheRequest | backend/src/smtp_relay_manager/api.py:971-1040 | run alone, the split account update decides and writes as the atomic request |
| SerialRuns.TransferIsTheRequest | backend/src/smtp_relay_manager/api.py:1332-1355 | the same for a transfer |
| SerialRuns.RegistrationIsTheRequest | backend/src/smtp_relay_manager/api.py:1170-1183 | the same for a registration |
| SerialRuns.AdditionIsTheRequest | backend/src/smtp_relay_manager/api.py:1366-1377 | the same for adding an admin |
| SerialRuns.GrantIsTheRequest | backend/src/smtp_relay_manager/api.py:1572-1603 | the same for a grant by a manager |
| SerialRuns.UnregistrationIsTheRequest | backend/src/smtp_relay_manager/api.py:1501-1521 | the same for deleting an address by a manager |
| Names.NormalDomainIsStable | backend/src/smtp_relay_manager/policy.py:22-51 | a normal domain is a host name of two or more labels and its own normal form |
| Names.AsciiDomainsAccepted | backend/src/smtp_relay_manager/policy.py:31-51 | which ASCII domains are accepted, and as what |
| Names.ForeignDomainsAccepted | backend/src/smtp_relay_manager/policy.py:31-51 | which other domains are accepted: plain text the codec spells as a host name |
| Names.LowerFolds | backend/src/smtp_relay_manager/policy.py:38 | each capital becomes its own small letter and nothing else changes |
| Names.LabelsSplitAtDots | backend/src/smtp_relay_manager/policy.py:41-49 | labels hold no dot and make up the text again |
| Names.CharacterCodes | backend/src/smtp_relay_manager/policy.py:46-69 | the characters of dot-atoms and host names by code |
| Names.LocalPatternIsDotAtom | backend/src/smtp_relay_manager/policy.py:66-70 | the local-part pattern accepts exactly dot-atoms |
| Names.NormalAddressParts | backend/src/smtp_relay_manager/policy.py:54-71 | the local part is kept as submitted, the domain is normal |
| Names.AddressAcceptedIff | backend/src/smtp_relay_manager/policy.py:54-71 | exactly which addresses are accepted |
| Names.NormalAddressIsStableIffShort | backend/src/smtp_relay_manager/policy.py:63-71 | when normalizing an address again succeeds |
| Names.GrownAddressIsRefused | backend/src/smtp_relay_manager/policy.py:63-71 | an accepted address of 126 characters whose normal form, of 312, is refused |
| Names.SameNormalAddress | backend/src/smtp_relay_manager/policy.py:54-71 | two accepted ASCII addresses share a normal form exactly when local parts are equal and domains agree up to case and trailing dots |
| Hosts.NormalHostForms | backend/src/smtp_relay_manager/upstream.py:132-169 | a normal host is a host name, IPv4 text or canonical IPv6 text |
| Hosts.PlainHostAccepted | backend/src/smtp_relay_manager/upstream.py:132-169 | exactly which ASCII names are accepted as hosts, and as what |
| Hosts.IpHostAccepted | backend/src/smtp_relay_manager/upstream.py:141-149 | IP addresses are accepted as canonical text, with or without brackets |
| Hosts.RefusedHosts | backend/src/smtp_relay_manager/upstream.py:132-140 | what is refused whatever it names |
| Hosts.NormalHostIsStableIff | backend/src/smtp_relay_manager/upstream.py:132-169 | when a normal host is its own normal form |
| Hosts.ScopedAddressIsNotStable | backend/src/smtp_relay_manager/upstream.py:141-149 | a host whose normal form changes again |
| SmtpConfigs.ConfigTable.PutSmtpConfig | backend/src/smtp_relay_manager/api.py:1663-1701 | the update, field by field, stored only when it reaches its end |
| SmtpConfigs.EveryStoredConfigIsUsable | backend/src/smtp_relay_manager/upstream.py:172-190 | after any updates every stored row meets the database checks and yields an accepted endpoint |
| SmtpConfigs.UpdateAcceptedIff | backend/src/smtp_relay_manager/api.py:315-348 | exactly which updates are stored |
| SmtpConfigs.UpdateStoresItsFields | backend/src/smtp_relay_manager/api.py:1671-1701 | the row and the endpoint hold what was submitted, and no other row changes |
| SmtpConfigs.StoredPasswordIsTheLastSubmitted | backend/src/smtp_relay_manager/api.py:1687-1699 | over any updates the password the relay logs in with is exactly the last one accepted for the domain since authentication was last switched off |
| SmtpConfigs.StoredHostIsStable | backend/src/smtp_relay_manager/api.py:324-331 | when a stored host keeps its spelling on later use |
| Admission.RelayProtocol.ConnectionMade | backend/src/smtp_relay_manager/smtp/server.py:283-290 | admission happens once per protocol object |
| Admission.RelayProtocol.ConnectionLost | backend/src/smtp_relay_manager/smtp/server.py:300-308 | release happens once per admission |
| Admission.SmtpRelayServer.BeginData | backend/src/smtp_relay_manager/smtp/server.py:318-322 | a slot is taken at once or refused, acquiring never waits |
| Admission.AdmissionIsBounded | backend/src/smtp_relay_manager/smtp/server.py:446-456 | bounds, single release, the drained flag and DATA slots over every run |
| Admission.AdmittedAndReleasedIff | backend/src/smtp_relay_manager/smtp/server.py:283-308 | over every run, from its events alone: admitted exactly when connecting with room, released exactly when lost after that |
| Admission.ConnectedIffAdmittedAndNotLost | backend/src/smtp_relay_manager/smtp/server.py:446-456 | the set holds exactly the connections admitted and not lost since |
| Admission.EventTakesEffect | backend/src/smtp_relay_manager/smtp/server.py:283-335 | what each event does at any moment of a run |
| ClientAddresses.ClientAddress | backend/src/smtp_relay_manager/api.py:419-455 | terminates with the walk's result, or the peer when proxies do not apply |
| ClientAddresses.RightmostUntrustedHopWins | backend/src/smtp_relay_manager/api.py:444-453 | the rightmost untrusted hop is returned whatever is left of it |
| ClientAddresses.UnparsableHopGivesThePeer | backend/src/smtp_relay_manager/api.py:445-455 | an unparsable entry met first gives the peer |
| ClientAddresses.AllTrustedGivesTheLeftmost | backend/src/smtp_relay_manager/api.py:444-453 | all trusted gives the leftmost entry |
| ClientAddresses.ChainHasOneOfThreeShapes | backend/src/smtp_relay_manager/api.py:444-455 | every chain falls under one of these cases |

## Left out

- Relay.RelayService.HandleData: the final write of the reply to the client socket and the DATA timeout wrapper around the handler; a cancellation that leaves the handler has no reply here.
- Registry.AuthorizeSender: user names and password hashes; a user is named by id and an account only has a password or not.
- RegistryService.RegistryTables.ActivateInvited: the invitation's own validity is part of the row-lock model, not of the registry, which therefore allows more activations.
- RightRuns.GrantsStayRegisteredIff: roles of the acting manager and credential scopes are left to the registry model; the runs here allow more.
- LockRuns.AnOperatorAlwaysRemains: the scan of operator rows may miss any row, which covers every order and timing of the real scan; deadlock freedom is not claimed.
- SmtpConfigs.EveryStoredConfigIsUsable: DNS answers are an oracle that says whether a host resolves to public addresses only; address lists, socket pinning and TLS are left out.
- Storage rounding of log and invitation stamps to whole seconds; the limiter's own truncation is modelled.
- Truncation of log codes and messages to their column widths, which the fixed texts never reach.
- Message header parsing, which rests on the email library, enters `handle_DATA` as a yes or no.
- MAIL and RCPT handlers, AUTH mechanisms, certificates, sessions, CSRF and origin checks, list and detail queries, the command line, deployment and the web interface.
