# GoWeb: verified model

A Dafny model of the parts of this web application that carry real invariants, and
proofs of what they promise. `dafny verify dfyconfig.toml` checks all of it.

- **Accounts** (`Accounts`, `AccountsInvariant`, `AccountsTheorems`, `AccountsLostUpdates`,
  `AccountWrites`, `AccountProgress`, `SignInMethods`, `UncontendedRuns`, `FormVersions`,
  `EarlyEdits`). The `users` and `oauth_identities` tables as PostgreSQL clients see them, one
  action per SQL statement, with committed rows, the advisory lock, row locks and each client's
  next statement and locals. Main results: an administrator survives every interleaving, no
  update is lost, an account keeps a way to sign in; each use case leaves exactly its columns,
  each refusal has its exact reason, and nobody waits for ever.
- **Sessions, guest transfer, groups** (`Sessions`; `GuestTransfer`, `GuestAnswers`; `Groups`).
  The other locked transactions, in the same style, with what each leaves and answers.
- **Rate limiting** (`FixedWindow`, `MemoryRateLimit`, `MemoryRateLimitHistory`,
  `MemorySlidingBound`, `PostgresRateLimit`, `PostgresSlidingBound`, `RateLimitAgreement`,
  `RateLimiting`, `RateLimitKeys`, `SharedRateLimiting`). The two stores as classes that change
  their map in place, a per-key fixed-window run both project to, and the bounds that follow
  over whole histories; the in-memory store records its own history in ghost fields.
- **Query and text translation** (`AdminSearch`, `AdminListing`; `Text`, `Base64`,
  `PasswordHash`; `Templates`, `Catalog`). The generated WHERE clause against the meaning of the
  filters, the order and the pages of the list, the stored password hash against a description
  of its texts, the message scanners against template trees.
- **Migrations** (`Migrations`, `MigrationFiles`, `MigrationRuns`). The files by their names, one
  call with its loops, and any number of calls with different sources that overlap and fail.
- **External issuer** (`OidcKeys`, `SsoRevocation`, `SsoRevocationRuns`, `SsoLogouts`). The key
  cache and the revocation loop under arbitrary failures.

`Wrappers` and `Sets` hold the option and result types and a few facts about finite sets.

Rules taken from PostgreSQL: a statement reads the rows committed when it starts; a write that
waited for a row lock checks its WHERE clause again; row locks and transaction-level advisory
locks last until commit or rollback; identifiers are never reused. Parameters stand for clocks,
generated identifiers, Argon2, the reading of RSA keys, the parsing of a plural count as a
floating point number, case folding and the collation. Case folding is taken character by
character and leaves the three LIKE special characters to themselves.

Where the code keeps a promise only under a condition, the model follows the code and states
exactly when it does:

- The administrator guard, the absence of lost updates and the last way to sign in need the
  version in an administrator's form not to be ahead of the row, which neither the edit nor the
  deletion checks (`FormVersions.AdministratorKeptIff`, `EarlyEdits.NoLostUpdateIff`,
  `EarlyEdits.MethodKeptIff`). `AccountsTheorems.AdministratorSurvives`,
  `AccountsLostUpdates.CommitIsAtomicEdit`, `AccountsLostUpdates.UntouchedColumnsSurvive`,
  `SignInMethods.AccountKeepsSignInMethod`, `SignInMethods.PasswordKept` and the results of
  `AccountWrites` assume it.
- A transfer code's session outlives the code iff its compensation failed and nothing else has
  revoked it (`GuestTransfer.LeftOpenIff`).
- The in-memory store keeps the sliding bound whatever other keys do only with a limit of one
  (`MemorySlidingBound.KeepsBoundIff`); otherwise attempts have to fit.
- The database store keeps it by any clock for windows of whole milliseconds, as all configured
  ones are (`PostgresSlidingBound.KeepsBoundIff`).
- RevokeUser can return nil with a session alive iff a logout deleted its record and was not
  accepted (`SsoLogouts.HiddenIffLogoutDeletedIt`).
- Accounts beyond page 1,000,000 are announced in the page count but shown on no page
  (`AdminSearch.ReachableIffEarly`).

## Model

| member | source | states |
|---|---|---|
| AccountsTheorems.AdministratorSurvives | internal/store/postgres/users.go:94-195 | In every interleaving, one SQL statement at a time, of any number of creations, updates, deletions, guest upgrades, guest clean-ups, links and unlinks, a database with a non-guest administrator has one in every later committed state, provided no version that arrives in a form is ahead of the row read with it |
| AccountsTheorems.RemovalNeedsLock | internal/store/postgres/users.go:168-195 | Whatever branch the guard took, a commit that takes the administrator role from a row happens under the advisory lock and with another administrator present: the unlocked branch never removes one |
| AccountsTheorems.StepKeeps | internal/store/postgres/users.go:94-160 | Each single statement of each client keeps the invariant that ties locks, counts and versions of all clients together, and keeps an administrator |
| AccountsTheorems.CommitKeeps | internal/store/postgres/users.go:295-342 | A commit of any write, including UpgradeGuestWithIdentity, keeps the invariant and disturbs no other transaction in flight |
| AccountsInvariant.RecheckKeeps | internal/store/postgres/users.go:176-193 | The re-check keeps the invariant: a writer goes on only with another administrator present or with a row that is none, even when the row is gone by then |
| AccountsInvariant.GuardKeeps | internal/store/postgres/users.go:168-174 | The choice of branch keeps the invariant: without the lock the write can only match a row that is no administrator, because a promotion changes the version |
| FormVersions.AdministratorKeptIff | internal/service/admin_accounts.go:302-392 | For every database with one administrator and another account and every version v: all runs that begin with a demotion or a deletion of that account whose form names v, and in which no later form is ahead of its row, keep an administrator iff v is not ahead of the account's row |
| FormVersions.EarlyVersionLosesEveryAdministrator | internal/service/admin_accounts.go:302-392 | The losing run for a demotion and for a deletion and every version ahead of the row: the account is promoted up to it, the administrator demoted, and the early write matches; emails stay unique throughout |
| UncontendedRuns.BumpRun | internal/store/postgres/users.go:94-131 | Updates of one account in a row (promotions, renamings, password changes) are allowed and raise its version by one each |
| UncontendedRuns.ReachesWrite | internal/store/postgres/users.go:168-195 | An update or a deletion can pass its guard from its start, whichever branch that takes |
| AccountsLostUpdates.CommitIsAtomicEdit | internal/store/postgres/users.go:109-130 | While no form version is ahead of its row, a committed UpdateUser equals its use case applied to the row as it is at that instant, although the copy was read earlier and an administrator edit checks an older version than the row it re-read |
| AccountsLostUpdates.UntouchedColumnsSurvive | internal/service/admin_accounts.go:302-315 | No lost updates in any interleaving in which no form version is ahead of its row: every column a use case does not set has the value it had just before the write |
| EarlyEdits.NoLostUpdateIff | internal/service/admin_accounts.go:302-315 | Exactly: all runs that begin with an administrator's edit, and in which no later form is ahead of its row, keep the columns each committed update does not set, and are atomic at each, iff the version in that edit's form is not ahead of the account's row |
| EarlyEdits.NameTakenBack | internal/service/admin_accounts.go:302-315 | The losing run for every edit and version ahead of the row: a name set meanwhile is taken back |
| AccountsLostUpdates.EditTouchesOnlyItsColumns | internal/service/sso_client.go:378-402 | Each use case (administrator edit, password, profile, locale, theme, confirmation, guest upgrade, issuer refresh) changes only its own columns |
| AccountWrites.EditLeaves | internal/store/postgres/users.go:109-130 | Column by column, for each of the eight use cases: the committed row has exactly the values the use case sets (an issuer refresh in each of its branches), every other column as just before, the next version, and no other row or identity changed; while no form version is ahead of its row |
| AccountWrites.ConversionLeaves | internal/store/postgres/users.go:313-342 | A guest upgraded through the issuer: the named version of a guest gets email, display name and confirmation, stops being a guest, and gets the one new identity; nothing else changes |
| AccountWrites.DeletionLeaves | internal/store/postgres/users.go:134-160 | A committed deletion takes the account at the version named, with all its identities, and nothing else; a clean-up takes a guest only |
| AccountWrites.CreationTimeKept | internal/store/postgres/users.go:109-122 | In every run, whatever versions forms name and whatever copies are written back, an account keeps its creation time |
| AccountProgress.WrittenIffUnchanged | internal/store/postgres/users.go:109-130 | Optimistic locking, exactly and in every run: an update that passes the version it read is written iff the account is still there and equal to what was read |
| AccountProgress.FormWrittenIff | internal/service/admin_accounts.go:302-392 | An administrator's edit or deletion is written iff the account is there at the version its form names |
| AccountProgress.ConvertedIffUnchanged | internal/store/postgres/users.go:313-325 | A guest is converted iff its account is there, unchanged since it was read, and a guest |
| AccountProgress.GuardRefusesIff | internal/store/postgres/users.go:178-193 | The guard refuses iff no other administrator was there when they were counted and the account is an administrator when it is read again, or gone by then |
| AccountProgress.UnlinkedIff | internal/store/postgres/oauth.go:193-217 | An unlink removes its identity iff the account has a password or had two identities when they were counted, and it changes nothing else |
| AccountProgress.NoDeadlock | internal/store/postgres/users.go:168-176 | In every reachable state an open transaction can go on, or waits for a lock whose holder can, or whose holder waits for a row lock whose holder can |
| AccountProgress.ConvertsAlone | internal/store/postgres/users.go:295-342 | The run, for any idle guest and unused identity: it is converted and linked |
| AccountProgress.SweepsAlone | internal/store/postgres/guest.go:147-208 | The run, for any idle guest: the clean-up deletes it and nothing else |
| AccountProgress.InsertLeaves | internal/store/postgres/oauth.go:118-139 | A new account or identity is stored as given under a number never used, and nothing else changes |
| AccountProgress.AnyoneCanBegin | internal/store/postgres/users.go:94-108 | Any transaction on a present account can begin at any time, and an open one can end without an effect |
| AccountsLostUpdates.RowVersionsGrow | internal/store/postgres/users.go:109-130 | In every run, whatever versions forms name: equal versions of one account at two moments mean equal rows, and versions never go back |
| AccountsLostUpdates.PresentBetween | internal/store/postgres/users.go:134-160 | In every run an account present at two moments was present throughout: identifiers are not reused |
| SignInMethods.AccountKeepsSignInMethod | internal/store/postgres/oauth.go:179-218 | In every interleaving of unlinks, links, password writes and other account writes in which no form version is ahead of its row, an account with a password or an identity keeps at least one of them for as long as it exists |
| EarlyEdits.MethodKeptIff | internal/service/admin_accounts.go:302-315 | Exactly, for an account with one identity and no password: all runs that begin with an administrator's edit of it without a new password, and in which no later form is ahead of its row, keep a way to sign in iff the version in that edit's form is not ahead of the row |
| EarlyEdits.PasswordTakenBack | internal/service/admin_accounts.go:302-315 | The losing run for every version ahead of the row: a password set meanwhile allows the unlink, and the early write takes the password back |
| SignInMethods.UnlinkCommitKeepsMethod | internal/store/postgres/oauth.go:179-218 | The row lock makes the count of identities good until the deletion commits |
| SignInMethods.OwnedKept | internal/store/postgres/oauth.go:118-139 | Nothing but an unlink of that account takes an identity from it |
| SignInMethods.PasswordKept | internal/store/postgres/users.go:94-131 | In a state reached without form versions ahead of their rows, no statement clears a stored password, whatever copy it writes back |
| Sessions.NothingSurvivesRevokeUser | internal/store/postgres/sessions.go:215-240 | No session committed before a RevokeUser commit is ever accepted after it, with sign-ins, single revocations and issuer revocations running at the same time |
| Sessions.RevokeUserIsAtomic | internal/store/postgres/sessions.go:215-240 | The commit revokes exactly the sessions the account has at that moment, although the UPDATE ran earlier: the advisory lock keeps new ones out |
| Sessions.RevocationIsFinal | internal/store/postgres/sessions.go:187-213 | A set revoked_at never changes, nor does anything else of a session row |
| Sessions.RejectedStaysRejected | internal/service/session.go:122-148 | A session rejected as revoked or expired is rejected at every later time in every later state |
| Sessions.AcceptedUntilRevokedOrExpired | internal/service/session.go:122-148 | In every reachable state Lookup accepts a stored session iff it is not revoked and not expired, answers "not found" iff it is not stored and "revoked" iff it is revoked; the other refusals cannot occur |
| Sessions.RevokeOneLeaves | internal/store/postgres/sessions.go:187-213 | A sign-out sets the revocation time of its session if it had none, changes no other field and no other row, and no later lookup of it is accepted |
| Sessions.RevokeSsoLeaves | internal/store/postgres/sessions.go:143-165 | The issuer's logout sets the time of exactly the unrevoked sessions bound to it, field by field, and none of the bound ones is accepted afterwards |
| Sessions.RevokeUserLeaves | internal/store/postgres/sessions.go:215-240 | The commit of RevokeUserSessions, field by field: every unrevoked session of the account gets the UPDATE's time, and nothing else changes |
| Sessions.CreateLeaves | internal/store/postgres/sessions.go:88-117 | A sign-in that locks, inserts and commits among other clients adds exactly the row asked for, which is accepted at a time iff nothing has revoked it and its lifetime has not passed |
| Sessions.NoDeadlock | internal/store/postgres/sessions.go:270-284 | A sign-in or revocation can go on or waits for its account's lock, whose holder can; a single revocation can run or waits for a revocation that can commit |
| Sessions.SignInThenRevoke | internal/store/postgres/sessions.go:88-240 | The run, for any account, times and binding: a sign-in commits its session, and a revocation of the account ends it |
| GuestTransfer.NoSessionOutlivesItsCode | internal/service/guest_redeem.go:52-86 | With any calls interleaved and any of them failing: once an upgrade has finished, every session that a finished redemption opened with a code the upgrade revoked is revoked, unless that redemption was refused the code and then failed to revoke its session |
| GuestTransfer.RevocationKnowsEveryCode | internal/service/guest_upgrade.go:100-123 | The codes an upgrade revoked are all codes of the account issued before that call |
| GuestTransfer.LeftOpenIff | internal/service/guest_redeem.go:52-86 | Exactly: a session that a finished redemption opened with a code a finished upgrade revoked is still open iff the redemption failed to revoke it and nothing else has revoked it or its account's sessions since |
| GuestTransfer.OpenIffNeverRevoked | internal/service/guest_redeem.go:52-86 | Any session is open iff no call has revoked it or its account's sessions since it was opened |
| GuestTransfer.FailedCompensationLeavesASession | internal/service/guest_redeem.go:52-86 | Such a run for every code and account: a failed compensation leaves a session open after the upgrade finished |
| GuestTransfer.StepKeeps | internal/store/postgres/guest.go:98-139 | Each call of redemptions and upgrades keeps the invariant that links a pending redemption, its session and the state of its code |
| GuestAnswers.RedemptionAnswers | internal/service/guest_redeem.go:52-86 | What a finished redemption answered, from its own calls among those of everybody else, any of them failing: a session was opened iff the first three calls succeeded and found an unrevoked code and its owner a guest; it is the answer iff the fourth found the code still unrevoked; else it is revoked iff the fifth succeeded |
| GuestAnswers.OpenedSession | internal/service/guest_redeem.go:72-76 | A redemption's session is new, belongs to the code's owner, and is open exactly until something revokes it |
| GuestAnswers.UpgradeFinishesIff | internal/service/guest_upgrade.go:86-123 | An upgrade finishes iff its five calls succeed, the first finds a guest, and the account is the same at the third; the codes it revoked are those of the account at the second |
| GuestAnswers.GoodIffNeverRecalled | internal/store/postgres/guest.go:126-145 | A code is good exactly until an upgrade of its owner revokes the account's codes |
| GuestAnswers.SessionsChange | internal/service/guest_upgrade.go:119-123 | Sessions are opened by sign-ins, by the third call of a redemption for the code's owner and by the fifth call of an upgrade for its account, and by nothing else |
| GuestAnswers.AccountsChange | internal/service/guest_upgrade.go:104-108 | An account is changed by an edit or by the third call of its upgrade at the version that was read, which ends its being a guest, and by nothing else |
| GuestAnswers.RedeemsAlone | internal/service/guest_redeem.go:52-86 | The run, in any state: a good code of a guest gives an open session of that guest |
| GuestAnswers.UpgradesAlone | internal/service/guest_upgrade.go:86-123 | The run, in any state with a guest: its codes are revoked, its account is no guest, and its only open session is the new one |
| GuestAnswers.NobodyWaits | internal/service/guest_redeem.go:52-86 | Calls never wait for each other: in every state an unfinished redemption or upgrade can make its next call or fail at it, and everybody can begin |
| Groups.EveryGroupHasAnAdmin | internal/store/postgres/groups.go:348-441 | Every group made with its administrator has one in every state reachable by concurrent joins, role changes, removals and leaves |
| Groups.RefusedIffLastAdmin | internal/store/postgres/groups.go:499-511 | The check refuses a write iff it takes the role from the only administrator of the group |
| Groups.RowsUnderLock | internal/store/postgres/groups.go:513-527 | Rows of a group change only by the holder of its lock |
| Groups.StepKeeps | internal/store/postgres/groups.go:225-252 | Every statement, including the creation of a group with its administrator, keeps the invariant |
| Groups.CommitLeaves | internal/store/postgres/groups.go:376-435 | A committed role change meets the expected version and leaves the membership with exactly the new role and the next version; a committed removal leaves none; every other membership is as before |
| Groups.MembersChange | internal/store/postgres/groups.go:225-271 | A new group has its creator as its only member and administrator; joining adds one row; no other statement changes a membership |
| Groups.WrittenIff | internal/store/postgres/groups.go:361-390 | A whole write, statement by statement among others: it reads iff the membership is there, is refused iff it takes the role from the only administrator, and is written, as it was asked for, iff the version is the expected one |
| Groups.HandOver | internal/store/postgres/groups.go:348-441 | The run, for any group and two users: the creator makes another member administrator and leaves |
| Groups.NoDeadlock | internal/store/postgres/groups.go:513-527 | A write can go on or waits for the lock of its group, whose holder can |
| FixedWindow.AtMostTwiceTheLimit | internal/service/rate_limit.go:147-168 | Any closed interval of one window length between clears holds at most twice the limit of allowed attempts on a key |
| FixedWindow.AttemptsAreSpaced | internal/store/postgres/rate_limit.go:55-63 | Two attempts share a window and have growing counts, or their windows start at least a window apart |
| FixedWindow.AtMostTwoWindows | internal/service/rate_limit.go:147-168 | An interval of one window length meets at most two windows |
| FixedWindow.WaitingHelps | internal/service/rate_limit.go:141-168 | A denial names a wait of more than nothing and at most a window; left alone, the first attempt after it opens a new window |
| FixedWindow.BlockedUntilExpiry | internal/service/rate_limit.go:147-168 | A key at its limit is denied until its window expires |
| FixedWindow.RunMatchesReference | internal/service/rate_limit_memory.go:32-121 | A store that may forget expired windows answers like the plain counter that forgets nothing |
| FixedWindow.AnswersScale | internal/store/postgres/rate_limit.go:44-69 | Counting in milliseconds or nanoseconds gives the same answers to operations on whole milliseconds |
| MemoryRateLimit.MemoryRateLimitStore.Hit | internal/service/rate_limit_memory.go:34-49 | The map after an attempt: expired buckets gone, at most one unblocked bucket evicted when full, the counted bucket stored, or the capacity error; the call joins the recorded history |
| MemoryRateLimit.MemoryRateLimitStore.EvictOldestUnblocked | internal/service/rate_limit_memory.go:108-121 | The loop evicts the oldest bucket below the limit, and evicts iff there is one |
| MemoryRateLimit.MemoryRateLimitStore.PruneExpired | internal/service/rate_limit_memory.go:100-106 | The loop leaves exactly the live buckets |
| MemoryRateLimit.MemoryRateLimitStore.Get | internal/service/rate_limit_memory.go:51-59 | Reads the live window and changes nothing |
| MemoryRateLimit.MemoryRateLimitStore.Clear | internal/service/rate_limit_memory.go:61-66 | Forgets one key |
| MemoryRateLimit.MemoryRateLimitStore.List | internal/service/rate_limit_memory.go:68-77 | Prunes and lists every live bucket once |
| MemoryRateLimit.MemoryRateLimitStore.ForgetAction | internal/service/rate_limit_memory.go:79-90 | The loop removes exactly the buckets of one action and counts them |
| MemoryRateLimit.MemoryRateLimitStore.ClearAll | internal/service/rate_limit_memory.go:92-98 | Forgets everything and counts it |
| MemoryRateLimit.CompositeIsInjective | internal/service/rate_limit.go:377-382 | Validated actions and keys joined with NUL name one pair |
| MemoryRateLimitHistory.MatchesUnboundedCounter | internal/service/rate_limit_memory.go:34-59 | On every history whose attempts fit, the bounded and pruned store answers each attempt and read like an unbounded counter per action and key |
| MemoryRateLimitHistory.UnfittingCallShows | internal/service/rate_limit_memory.go:108-121 | The condition is exact: an attempt that does not fit is refused for capacity or evicts a live window |
| MemoryRateLimitHistory.ListShowsLiveWindows | internal/service/rate_limit_memory.go:68-77 | List shows exactly the windows live in the unbounded counter |
| MemoryRateLimitHistory.ListedIff | internal/service/rate_limit_memory.go:68-77 | A list has as many entries as buckets are stored, and shows the action, hint, count and start of each and of nothing else |
| MemoryRateLimitHistory.BlockedStaysBlocked | internal/service/rate_limit_memory.go:100-121 | A key at its limit is denied until its expiry whatever other keys do, absent clears |
| MemoryRateLimitHistory.FullIffAllBlocked | internal/service/rate_limit_memory.go:34-49 | The capacity error occurs iff the key is not live and as many live keys as allowed are all at their limit |
| MemoryRateLimitHistory.NeverOverCapacity | internal/service/rate_limit_memory.go:34-49 | The store never holds more buckets than allowed |
| MemoryRateLimitHistory.SlidingBound | internal/service/rate_limit.go:147-168 | At most twice the limit of allowed attempts on a key in any interval of one window in which the key is neither cleared nor evicted |
| MemoryRateLimitHistory.FittingSlidingBound | internal/service/rate_limit.go:147-168 | The same bound by a guard on the calls: every attempt of the interval fits, that is its key is live or fewer keys than allowed are |
| MemorySlidingBound.KeepsBoundIff | internal/service/rate_limit_memory.go:34-49 | Whatever other keys do, a store keeps the bound in all histories iff it allows one attempt per window or holds no keys |
| MemorySlidingBound.EvictionsLiftTheBound | internal/service/rate_limit_memory.go:108-121 | For every other limit and capacity, two keys that take turns in a full store are allowed any number of attempts at one moment |
| MemorySlidingBound.TurnHappens | internal/service/rate_limit_memory.go:34-49 | In a full store whose buckets are all below the limit, an attempt on a new key replaces the last one |
| MemoryRateLimitHistory.WaitingHelpsInMemory | internal/service/rate_limit.go:141-168 | After the named wait the first attempt is allowed, or refused for capacity |
| MemoryRateLimitHistory.RemovedCountsLiveIff | internal/service/rate_limit_memory.go:79-90 | The number ClearAction reports is the number of live buckets iff no expired bucket of the action is still stored |
| MemoryRateLimitHistory.Projection | internal/service/rate_limit_memory.go:34-121 | Seen from one key, every call of the store that does not evict it is a step of that key's fixed window |
| PostgresRateLimit.RateLimitTable.Hit | internal/store/postgres/rate_limit.go:44-69 | The upsert in place: a live row is incremented, any other replaced, at times cut to milliseconds |
| PostgresRateLimit.RateLimitTable.Get | internal/store/postgres/rate_limit.go:71-90 | Reads the live row of a key |
| PostgresRateLimit.RateLimitTable.Delete | internal/store/postgres/rate_limit.go:92-143 | What every key of every scope sees of a deletion: a key that is meant is gone, another keeps its row, and the clean-up keeps every live window and no expired one; the number reported is that of the rows lost |
| PostgresRateLimit.DeletionSparesOthers | internal/store/postgres/rate_limit.go:92-143 | The same of any deletion in a history of the shared table |
| PostgresRateLimit.ListShowsLive | internal/store/postgres/rate_limit.go:103-130 | A list of a scope shows each live window of that scope with its hint, count and start, and nothing else |
| PostgresRateLimit.MatchesUnboundedCounter | internal/store/postgres/rate_limit.go:44-90 | On every history the table answers like the unbounded counter at millisecond times, with other scopes sharing the table |
| PostgresRateLimit.SlidingBound | internal/store/postgres/rate_limit.go:55-63 | The bound of twice the limit in any interval of one window without a clear: by any clock for windows of whole milliseconds, for other windows by a clock in whole milliseconds |
| PostgresSlidingBound.KeepsBoundIff | internal/store/postgres/rate_limit.go:44-69 | The table keeps the bound in all histories and by any clock iff the window is whole milliseconds, or no attempt is allowed, or one is and the window is two milliseconds or more |
| PostgresSlidingBound.BoundHolds | internal/store/postgres/rate_limit.go:44-69 | One direction, for any history of the shared table |
| PostgresSlidingBound.Overrun | internal/store/postgres/rate_limit.go:52-67 | The other: for every other window and limit, a history in which more than twice the limit are allowed within one window |
| PostgresSlidingBound.AttemptHappens | internal/store/postgres/rate_limit.go:55-63 | Every attempt of that history has the effect of the upsert |
| PostgresRateLimit.WaitingHelpsInPostgres | internal/store/postgres/rate_limit.go:52-67 | The wait is long enough through the truncation to milliseconds, for any clock |
| RateLimitAgreement.StoresAgree | internal/service/rate_limit_memory.go:32-121 | The two stores given the same requests at whole milliseconds, with a window of whole milliseconds and attempts that fit the in-memory store, reply with the same counts and starts |
| RateLimiting.RateLimiter.Allow | internal/service/rate_limit.go:147-168 | The decision is the comparison of the store's count with the limit; invalid keys touch nothing; a denial names a wait in (0, window]; the first attempt of a window is allowed |
| RateLimiting.RateLimiter.Clear | internal/service/rate_limit.go:172-187 | Clears the key iff both parts are valid |
| RateLimiting.RateLimiter.Peek | internal/service/rate_limit.go:333-356 | The snapshot counts at most the limit, consumes nothing, and names a wait only for a live window |
| RateLimiting.NewRateLimiter | internal/service/rate_limit.go:117-122 | A limiter is made iff limit, window and capacity are positive |
| RateLimitKeys.KeyIsValidIff | internal/service/rate_limit.go:377-382 | A key is valid iff trimming leaves something, it has at most 255 bytes, and no NUL or line break |
| RateLimitKeys.PrintableIsValid | internal/service/rate_limit.go:377-382 | Ordinary printable keys are valid, and so are the two sign-in actions |
| RateLimitKeys.HintHides | internal/service/rate_limit.go:315-321 | A hint keeps the length of its key and shows at most its first and last character |
| RateLimiting.RateLimitedSignIn.SignIn | internal/service/rate_limit.go:411-452 | A password is checked only after the origin's budget and then the identifier's each counted and allowed this attempt, and a success clears both |
| SharedRateLimiting.PasswordChecksAreBounded | internal/service/rate_limit.go:411-452 | On the shared table, with any other statements on it: at most twice the limit of password checks per identifier in any interval of one window in which no sign-in for it succeeds, for windows and limits that meet `Bounding`, as windows of whole milliseconds do |
| SharedRateLimiting.SharedSignIn.SignIn | internal/service/rate_limit.go:411-452 | Sign-in over the shared table: a password is checked only after the origin's budget and then the identifier's each counted and allowed this attempt, with any other statements in between; a success clears both |
| SharedRateLimiting.SharedLimiter.Allow | internal/service/rate_limit.go:147-168 | Allow over the shared table: the decision is the comparison of the count with the limit, and a denial names a wait in (0, window] through the truncation to milliseconds |
| SharedRateLimiting.SharedLimiter.Clear | internal/service/rate_limit.go:172-187 | Clear over the shared table forgets that key and no other |
| SharedRateLimiting.NewSharedLimiter | internal/service/rate_limit.go:126-131 | Over a shared store the capacity does not matter: a limiter is made iff limit and window are positive |
| RateLimiting.PasswordChecksAreBounded | internal/service/rate_limit.go:411-452 | The same for the sign-in service over the in-memory store, in an interval in which the identifier is not evicted |
| RateLimiting.FittingPasswordChecksAreBounded | internal/service/rate_limit.go:411-452 | And by the guard that every attempt of the interval fits |
| AdminSearch.PatternMeansSubstring | internal/service/admin_accounts.go:503-508 | The escaped and wrapped pattern, read by the LIKE rules, matches a text iff the search occurs in it literally, for every search and text |
| AdminSearch.EscapedIsLiteral | internal/service/admin_accounts.go:503-508 | An escaped search reads back as its own characters, none of them special |
| AdminSearch.ILikeMeansShows | internal/store/postgres/admin_users.go:87-92 | ILIKE of the pattern is true iff the column is not NULL and shows the search after case folding; folding and escaping commute |
| AdminSearch.Conditions | internal/store/postgres/admin_users.go:82-116 | For every query the generated conditions and numbered arguments run without error on every row and keep exactly the rows the seven filters accept, also with more arguments appended |
| AdminSearch.ListQuery | internal/store/postgres/admin_users.go:31-62 | The whole request keeps exactly the wanted rows, and LIMIT and OFFSET find their own numbers among the arguments |
| AdminSearch.PagesShowEverything | internal/service/admin_accounts.go:446-451 | The announced number of pages, read one after the other, shows the whole list once and in order, when it is at most a million |
| AdminSearch.ReachableIffEarly | internal/service/admin_accounts.go:82-105 | An account is on some page iff it comes before row 1,000,000 times the page size: later requests are clamped |
| AdminSearch.ListingIsUnique | internal/store/postgres/admin_users.go:118-135 | The id tie-break and NULLS LAST leave one possible order, so every page is determined by the table |
| AdminListing.ListingOrder | internal/store/postgres/admin_users.go:118-135 | The order between any two rows of a list, for each sort and direction: values ascend or descend as asked, accounts without a value come last either way, and ties go by id |
| AdminListing.ListingExists | internal/store/postgres/admin_users.go:118-135 | Every table has a list in that order for every request |
| AdminListing.PageIs | internal/service/admin_accounts.go:82-105 | Which rows a request shows, in numbers: pages from 1 to a million, of 20 rows unless 1 to 100 are asked for |
| AdminListing.PagesAnnounced | internal/service/admin_accounts.go:446-451 | The announced number of pages is the smallest that holds every account |
| AdminListing.MatchesIffSplits | internal/service/admin_accounts.go:503-508 | The LIKE rules the pattern results rest on, from the other side: a text matches iff it is a sequence of pieces, one for each token |
| AdminListing.SearchTruth | internal/store/postgres/admin_users.go:87-92 | The search condition is true iff a column shows the search, and NULL iff none does and one of them is NULL |
| PasswordHash.ParsesIffDenotes | internal/service/password_hash.go:151-197 | The accepted texts and their values, described without splitting: a text parses to a hash iff it is laid out from six pieces that denote it |
| PasswordHash.RoundTripIff | internal/service/password_hash.go:139-149 | A printed hash parses back to itself iff its memory is 1 to 2^30, its passes 1 to 10, its threads 1 to 255 and at most an eighth of the memory, its salt length 8 to 2^20 and its key length 1 to 2^20, and the lengths are those of salt and key (as 32-bit numbers) |
| PasswordHash.ParsedIsBounded | internal/service/password_hash.go:128-137 | Every accepted hash is within the validated bounds, in numbers; its lengths are true iff below 2^32, and printing it gives a text that parses to the same hash |
| PasswordHash.BoundedIsParsed | internal/service/password_hash.go:128-137 | And every hash within these bounds, in numbers, is accepted as it is printed |
| PasswordHash.ReprintsIff | internal/service/password_hash.go:151-209 | An accepted text is the printed form of its value iff its numbers have no leading zeros and its base64 is canonical |
| PasswordHash.HashingSucceedsIff | internal/service/password_hash.go:77-137 | Hashing succeeds iff the configuration is all zeros or within the bounds |
| PasswordHash.StoredHashReadsBack | internal/service/password_hash.go:77-95 | The stored hash reads back with the parameters, the salt and the key it was made with |
| PasswordHash.StoredHashKeepsWorking | internal/service/password_hash.go:97-110 | A stored hash accepts exactly the passwords with the same key under the parameters it was made with, whatever is configured later |
| PasswordHash.DefaultText | internal/service/password_hash.go:40-46 | A configuration of zeros hashes with 64 MiB, 3 passes, 4 threads, and is written as "$argon2id$v=19$m=65536,t=3,p=4$" with salt and key |
| Base64.RoundTrip | internal/service/password_hash.go:139-149 | Unpadded base64 decodes every byte sequence back |
| Base64.CanonicalIff | internal/service/password_hash.go:175-182 | A decodable text is the encoding of its bytes iff it has no line break and no stray final bits |
| Base64.LineBreaksDoNotMatter | internal/service/password_hash.go:175-182 | A line break anywhere in an encoded text changes nothing |
| Base64.AlphabetIs | internal/service/password_hash.go:139-149 | The alphabet in order: A to Z, a to z, 0 to 9, + and / |
| Text.SplitJoin | internal/service/password_hash.go:152-160 | Splitting undoes joining for parts without the separator |
| Text.JoinSplit | internal/service/password_hash.go:152-160 | Joining undoes splitting, and no part holds the separator |
| Text.DecimalReadsBack | internal/service/password_hash.go:199-209 | A printed number reads back and has no leading zero |
| Text.PrintedIffNoLeadingZero | internal/service/password_hash.go:199-209 | A digit string is a printed number iff it has no leading zero |
| Text.ReadsPrinted | internal/service/password_hash.go:204-208 | A printed number is read iff it has 32 bits |
| Templates.ReadIffSpelled | internal/locale/catalog.go:284-328 | Reading a message and writing a template are inverse: each readable text is one template |
| Templates.RenderFills | internal/locale/catalog.go:284-307 | Rendering succeeds iff every placeholder is closed and has a value, gives the text with its holes filled, and otherwise names a missing one |
| Templates.RenderReportsFirst | internal/locale/catalog.go:298-303 | Rendering a readable text reports exactly the first hole without a value |
| Templates.Interpolate | internal/locale/catalog.go:284-307 | The scanning loop computes that rendering, errors included |
| Templates.Placeholders | internal/locale/catalog.go:309-328 | The other scanning loop accepts exactly the readable texts without empty names and returns their hole names: the two scanners agree |
| Catalog.ValidMessageId | internal/locale/catalog.go:342-353 | The loop accepts exactly lower-case identifiers that start with a letter |
| Catalog.SameStrings | internal/locale/catalog.go:330-340 | Equal sizes and one inclusion are equality |
| Catalog.ValidateMessage | internal/locale/catalog.go:183-209 | Accepts exactly one plain text or two plural forms, readable and with the same holes |
| Catalog.MatchingMessageShape | internal/locale/catalog.go:211-252 | Accepts exactly messages of the same form with the same holes |
| Catalog.ValidateCompleteness | internal/locale/catalog.go:129-156 | Counting messages and looking up the default's ids decides that every language has exactly the default's messages in the same shapes |
| Catalog.Translate | internal/locale/catalog.go:94-107 | The lookup with fallback, the choice of the plural form and the rendering, error by error |
| Catalog.TranslatesEverywhereOrNowhere | internal/locale/catalog.go:94-156 | In loaded and complete catalogs a translation succeeds in any language iff the id exists, a plural has a numeric count and the values cover the default's placeholders |
| Catalog.TranslationFillsTheForm | internal/locale/catalog.go:254-282 | A successful translation is the language's own form for that count with its holes filled |
| Catalog.TranslationFailsWith | internal/locale/catalog.go:94-107 | Which error a translation gives, exactly: no such message in the default catalog; a plural without a count or with one that is no number; or the first hole without a value of the language's form for that count |
| Catalog.DifferentHolesDisagree | internal/locale/catalog.go:211-229 | Message-by-message validation does not give this: two plain messages with different holes disagree for some values |
| Migrations.LoadMigrations | internal/store/migrator.go:234-274 | The directory loop returns a list sorted by version of exactly the acceptable files, and succeeds iff no file is refused and no version repeats; it reports a repeated version only when two files have it |
| MigrationFiles.AcceptedIff | internal/store/migrator.go:242-269 | What becomes of a directory entry, from the spelling of its name: skipped unless a file ending in ".up.sql"; accepted as a migration iff six digits of its positive version, an underscore and its description come before that and its script, which is the content, is not blank |
| MigrationFiles.EveryMigrationHasAFile | internal/store/migrator.go:242-269 | Every migration with a six-digit version, a description and a script has a file that is accepted as it |
| Migrations.ScanInstalled | internal/store/migrator.go:302-320 | The ledger rows as a map, refused iff a version repeats |
| Migrations.ValidateInstalled | internal/store/migrator.go:322-334 | Accepts iff everything installed is in the source under the same name |
| Migrations.Database.Apply | internal/store/migrator.go:141-187 | One call under any pattern of failing statements installs exactly what is missing, in order, or changes nothing; without drift and failures it succeeds |
| Migrations.RecordingCompletes | internal/store/migrator.go:166-180 | Recording what is missing turns any ledger without drift into the source's |
| Migrations.MissingIsAscending | internal/store/migrator.go:166-180 | What a call runs is in ascending version order |
| Migrations.NothingMissing | internal/store/migrator.go:166-180 | On a ledger equal to the source there is nothing to run |
| MigrationRuns.EachMigrationCommittedOnce | internal/store/migrator.go:141-187 | Over any interleaving of calls with any sources and failures, no version is committed twice and the ledger lists exactly what ran |
| MigrationRuns.CommitInstallsTheSource | internal/store/migrator.go:166-187 | A commit leaves the ledger equal to the call's source and adds exactly the missing scripts in ascending order |
| MigrationRuns.SuccessMeansInstalled | internal/store/migrator.go:182-187 | A call that reported success committed its whole source itself, and the source stays installed |
| MigrationRuns.HistoryGrows | internal/store/migrator.go:141-187 | Nothing committed is ever undone, renamed or reordered |
| MigrationRuns.OnlyCommitsChange | internal/store/migrator.go:152-187 | Failed and unfinished calls change nothing |
| MigrationRuns.DriftStopsTheCall | internal/store/migrator.go:322-334 | A ledger entry missing from or renamed in a source keeps every call with that source from committing, from then on |
| MigrationRuns.RepeatRunsNothing | internal/store/migrator.go:141-187 | Once a source is installed, a further commit of it runs no script |
| MigrationRuns.NoDeadlock | internal/store/migrator.go:276-291 | An unfinished call can go on, or waits for a lock whose holder can |
| MigrationRuns.CallAlone | internal/store/migrator.go:141-187 | After any history a call that finds the lock free and meets no failure reports success and leaves its source installed iff the ledger has not drifted, and otherwise changes nothing |
| MigrationRuns.FromNothing | internal/store/migrator.go:141-187 | The run from an empty database: one call installs the whole source |
| MigrationRuns.GivesUp | internal/store/migrator.go:152-164 | A call can fail at any statement; that changes nothing and gives the lock back |
| OidcKeys.KeyCache.Key | internal/adapter/oidc/client.go:350-407 | A cached key is answered at once; a miss asks at most once per pause, even when the request fails; the answer is the one key the last decoded set names, and "unknown" means it names none |
| OidcKeys.ReadKeys | internal/adapter/oidc/client.go:380-402 | The loop keeps for each kid the last usable key, and the single key iff exactly one is usable |
| OidcKeys.NamesIff | internal/adapter/oidc/client.go:380-407 | Which key a kid names, from the entries of the set: the last RSA signature key for RS256 with that kid, or without a kid the only one |
| OidcKeys.RequestsAreFew | internal/adapter/oidc/client.go:360-363 | Any interval of length T holds at most T / 30 s + 1 requests for the key set |
| OidcKeys.KeyCache.LookupIsExact | internal/adapter/oidc/client.go:409-417 | A lookup finds a key iff the last decoded set names one, and then the only one it names, also for an empty kid |
| SsoRevocation.SsoProvider.RevokeUser | internal/service/sso_provider.go:256-281 | The loop under any pattern of failures and lost answers: nil iff every call reported success; exactly the sessions whose revocation reported success and whose deletion took effect are forgotten; every other record is kept |
| SsoRevocation.SubjectIff | internal/service/sso_provider.go:335-345 | A subject names an account iff it is the decimal form of a positive 64-bit number |
| SsoRevocation.ParseIntReadsBack | internal/service/sso_provider.go:335-345 | Printed numbers are read back iff they have 64 bits |
| SsoRevocationRuns.RecordedEndedOrDropped | internal/service/sso_provider.go:267-276 | With calls, sign-ins and logouts interleaved request by request, a recorded session is later recorded for its account, or ended by the issuer, or its record was deleted by a logout |
| SsoRevocationRuns.ForgottenAliveIff | internal/service/sso_provider.go:240-250 | A session the issuer has not ended loses its record iff a logout deleted it, whose acceptance has then not taken effect |
| SsoRevocationRuns.NilIffEverySucceeded | internal/service/sso_provider.go:256-281 | A returned call is nil iff every one of its own requests reported success |
| SsoRevocationRuns.NilEndsEverySession | internal/service/sso_provider.go:252-281 | A call that returns nil has withdrawn the account's consents and ended every session recorded for it when the call started, except one whose record a logout deleted meanwhile |
| SsoRevocationRuns.RetryUntilNilEndsEverySession | internal/service/sso_provider.go:252-281 | So retrying until nil ends every session recorded at any earlier time whose record no logout deleted, whatever earlier calls failed at |
| SsoRevocationRuns.RequestsInOrder | internal/service/sso_provider.go:256-281 | The order of a call's requests: it lists or gives up, deals with each listed session once, deletes a record only after a successful revocation, goes on after a failure, and ends with the consents |
| SsoRevocationRuns.SessionAfter | internal/service/sso_provider.go:240-276 | A session is ended by a revocation or a logout's acceptance that took effect, recorded by a sign-in, and forgotten by a deletion that took effect, and by nothing else |
| SsoLogouts.HiddenIffLogoutDeletedIt | internal/service/sso_provider.go:238-250 | Exactly when a RevokeUser call that runs alone can return nil and leave alive a session that was recorded for the account, and not recorded again since: it is alive now and a logout deleted its record |
| SsoLogouts.NilCanLeaveAliveIff | internal/service/sso_provider.go:256-281 | The same in terms of the present state: the session is alive and not recorded for the account |
| SsoLogouts.LogoutHidesASession | internal/service/sso_provider.go:245-250 | The run, for every session: recorded, its record deleted by a logout, the logout not accepted, and RevokeUser returns nil without a revocation |
| SsoLogouts.CallAlone | internal/service/sso_provider.go:256-281 | A call can always run alone and return nil, and it ends only sessions recorded for the account |

## Left out

- The locked transactions of users, identities, sessions, groups and guest codes, and the overlapping runs of migrations and issuer revocations, are state machines over values, not classes: update in place and aliasing of one process are not part of them.
- GuestTransfer.NoSessionOutlivesItsCode: codes issued between an upgrade's code revocation and its account update are not covered.
- EarlyEdits.NoLostUpdateIff: the if-and-only-if is for accounts that are not guests; a constraint of the users table refuses the email every such edit would set on a guest.
- The clean-up of abandoned guests takes one candidate per transaction, and whether a candidate has memberships is left open.
- Use cases that find nothing to change send no UPDATE; the account model also allows the write of the unchanged values.
- Links in the account model ignore uniqueness and foreign-key waiting; both only refuse more runs.
- Collisions of the hashed advisory-lock keys, which only make transactions wait longer.
- RevokeSSOSessions is one atomic statement over several rows.
- Cascades of an account's deletion to its sessions, transfer codes and memberships.
- Commits that succeed but report an error, except in the migration runs.
- Groups.EveryGroupHasAnAdmin: account deletion is not among its steps, because the code does not guard it.
- Membership versions across leaving and rejoining, which start again at zero.
- RateLimiting.RateLimitedSignIn.SignIn: over the in-memory store its two budgets are charged without other calls in between; the histories the bounds are proved about allow any calls in between. An identifier that its input lacks is given as none; trimming and reading an origin as an address are not modelled.
- The checking loop that normalises a transfer code (normalizeGuestClaimCode).
- The summaries Actions, Buckets and LockedCount, which only report, and the loop with which List of the database store reads its rows.
- Normalisation of the search text and of the filter words; every query is covered as it is after that.
- ValidatePassword, and the slots that bound concurrent hashing.
- Reading and decoding the catalog files; a catalog is given by its messages.
- Migration status, and errors in reading the migration directory or its files.
- MigrationRuns.EachMigrationCommittedOnce: an absent ledger table is an empty ledger.
- OidcKeys.KeyCache.Key: discovery of the key-set address has succeeded; a clock reading of the zero time is not distinguished.
- Verification of tokens and their claims, and all HTTP calls.
- Single-use OAuth states (ConsumeOAuthState), one deleting statement.
- SsoRevocationRuns.NilEndsEverySession: a session recorded after the call started is not covered; the listing may miss it.
- Removal of expired issuer session records (DeleteExpiredSSOLoginSessions in internal/store/postgres/retention.go) and the cascade from a deleted account, both of which also take records away: the first is for sessions that can no longer be alive, the second comes after a revocation that has returned nil.
- A sign-in whose record fails, and a logout without a session ID, which leave the records as they are.
- Usage queue, statistics, themes, audit records and page rendering.
