# Verified models of the MPC wallet server

Dafny models of the stateful parts of the server, and proofs about them. To verify the whole project:
`dafny verify dfyconfig.toml`.

## What is modelled

**Authentication.** `Accounts` holds the six tables, the user as it travels in requests, and what each operation
of the service does to them as one function from tables to tables, reply and events. `AuthService` is the
service as an object with mutable tables; each method runs the statements of its operation in order and is
proved to do what `Accounts` says. `History` reads an event log without the tables: which tokens it leaves alive
and where each came from. `Sessions` runs any admissible sequence of calls, keeps the log beside the tables, and
proves one invariant over all runs; an administrator's deactivation of a user is a step of its own.
`SessionTheorems` says what the invariant means for callers, `SessionEffects` exactly when each operation does what
and which refusal has which cause, and `SessionExamples` has runs that reach the exceptions in these theorems. `Gate`
is the middleware in front of the token table, and `GateDecisions` its answers as one table over how a request
stands. `Usernames` is the normal form of usernames.

The outside world comes in through parameters: the instant of the call, the ids and tokens the database would
generate, the hash of a new password, and whether the transaction begins and commits. A run is admissible if time
does not go back, generated values are new, and the user in a request was read from the table at some time,
perhaps long ago.

**The gRPC connection cache.** `ConnectionCache` is a state machine of any number of threads with program
counters; each access to a map, lock or connection is a step of its own, and the two maps are written by separate
steps. A log records where each call takes effect on the cache seen as one atomic map. The same calls, one at a
time, are methods of the class `GrpcClient`. `ConnectionCalls` says what a finished call has done in every
interleaving, when it fails, and that it comes to an end.

**Generated models.** `CacheKey` is the key of the statement caches, a run of names without separators, and its
unique reading. `StatementCache` interleaves lookups, builds and stores of any number of threads, and `UpsertOptions`
is the part of a statement that the key does not see.
`EagerLoading` is the eager loaders on the heap, with the relation objects and pointers in both directions.

**Nodes and DKG sessions.** `Discovery` is the service registry: names, tags, and getting an id back out of
them. `NodeDiscovery` merges the nodes of the database with those of the registry, through a Go map with its
arbitrary order. `Coordinator` creates a DKG session over a database and a cache that can each fail.
`SortedStrings` is the order of Go strings and the uniqueness of a sorted arrangement.

**Push tokens.** `PushTokens` replaces a token through two database executors with different rollback, and prunes
the tokens that providers report invalid.

**Calendar and strings.** `Gregorian` is the proleptic Gregorian calendar (leap years as in Appendix C of
RFC 3339) with Go's way from a day to its date. `Time` is the date helpers over it, stated for any lawful
calendar; `Gregorian.GregorianLawful` says that this one is lawful. `ContainsAll` is the one-pass matcher.

## Where the code does not do what one would expect

The models follow the code. These are the places where that matters.

- `WithTransaction` assigns the error of `Commit` to a variable that is not its result
  (internal/util/db/db.go:27-51), so a failed commit is reported as success (`SessionTheorems.LostCommit`).
- `ResetPassword` does not remove the reset token, which works until it expires, however often it is used
  (`SessionTheorems.ResetTokenWorksAgain`, `SessionTheorems.ResetTokenStaysOpen`), and `now.After(validUntil)` accepts
  it at its last instant as well. `SessionTheorems.ResetTokensBounded` therefore counts unexpired and acceptable
  tokens separately.
- `UpdatePassword` trusts the user in the request. With a copy read before a deactivation it still issues tokens,
  and this is the only call that does (`SessionTheorems.IssuesForRetired`, `SessionExamples.StaleUpdateIssues`).
- Secure mode is described as recent re-confirmation of authentication (internal/api/middleware/auth.go:38-39), but
  what it asks for is a recent issue of tokens, which `Refresh` is as well (`Gate.SecureFollowsLog`). Exactly when it
  still means that a credential was shown recently is `Gate.SecureMeansCredential`; a run in which it does not is
  `SessionExamples.OnlyRotationsInWindow`.
- The character between scheme and token is not looked at (`Gate.ExtractExactly`).
- A middleware stacked on another one does not look at the token again, so its own format validator is skipped
  (`Gate.ShortcutSkipsFormat`); without a difference there, the shortcut is exact (`Gate.ShortcutIsRevalidation`).
- An access token whose `valid_until` is exactly Go's zero time never expires at the gate.
- `CloseConnection` leaves a connection in the cache when its `Close` fails (`ConnectionCache.RefusedStaysCached`);
  between calls a cached connection is closed if and only if this happened (`ConnectionCache.BetweenCalls`).
- The key of the upsert cache leaves out the option functions (`StatementCache.UpsertWithOptions`), so that a call with a
  conflict target can run the statement of a call without one (`UpsertOptions.ConflictTargetIgnored`).
- `DiscoverNodes` can return more nodes than asked for, so a DKG session can have more participants than
  `TotalNodes` (`NodeDiscovery.DiscoveredCount`, `NodeDiscovery.MoreThanAskedFor`); a negative count would make the slice in `DiscoverParticipants`
  panic, which its caller prevents.
- A DKG session that was saved but could not be read back is not cancelled (`Coordinator.LeftPending`), and
  cancelling one that was not cached can overwrite it with an older session of its key
  (`Coordinator.NotNotifiedLeaves`).
- StartDKG carries threshold and total truncated to 32 bits, while the stored session has them in full
  (`Coordinator.SendsWhatItStores`, `Coordinator.Int32Keeps`).
- A push token is inserted outside the transaction, so a failed replacement keeps the new token and can never be
  repeated (`PushTokens.RetryConflicts`); replacing a token by itself removes it (`PushTokens.ReplacedByItself`).
- `SendToUser` visits the providers in the order of a Go map. That is irrelevant for the providers there are, and
  exactly for those without a chain of accusations (`PushTokens.OrderIrrelevantExactly`).
- `MaxTime` of instants that all lie before Go's zero time is the zero time (`Time.MaxTime`).
- `ContainsAll` is meant to find substrings, but accepts patterns with gaps, and the empty string contains not even
  an empty pattern (`ContainsAll.AgreesWithComment`).

## Model

| member | source | states |
|---|---|---|
| `Usernames.FormatNormalises` | internal/util/string.go:132-134 | formatting a username is idempotent and its fixed points are exactly the lower-case names without outer white space |
| `Usernames.FormatExactly` | internal/util/string.go:132-134 | the normal form of any name is what lies between its outer white space, each character in lower case |
| `Accounts.WithTransaction` | internal/util/db/db.go:16-56 | an error, a failed begin or a failed commit leaves the tables as they were |
| `Accounts.AuthenticateUser` | internal/auth/service.go:565-620 | success needs the user row, and touches nothing of it but last_authenticated_at and updated_at, although the update is built from the lossy DTO |
| `Accounts.Perform` | internal/auth/service.go:56-563 | every operation with an error reply has no events, and without events changes nothing |
| `AuthService.Service.AuthenticateUser` | internal/auth/service.go:565-620 | the statements on the mutable tables give the tables and reply of its specification |
| `AuthService.Service.UpdatePassword` | internal/auth/service.go:56-115 | leaves exactly the tables, reply and events that PerformUpdatePassword specifies, for every fate of the transaction |
| `AuthService.Service.ResetPassword` | internal/auth/service.go:117-144 | leaves exactly what PerformResetPassword specifies: an expired or unknown token is refused, an open one sets the password without verification |
| `AuthService.Service.InitPasswordReset` | internal/auth/service.go:146-222 | leaves exactly what PerformInitPasswordReset specifies, with debounce, reuse of an open token and silent success for unknown users |
| `AuthService.Service.Logout` | internal/auth/service.go:224-249 | leaves exactly what PerformLogout specifies, with or without a refresh token |
| `AuthService.Service.Login` | internal/auth/service.go:251-307 | leaves exactly what PerformLogin specifies; unknown user and wrong password give the same error |
| `AuthService.Service.Refresh` | internal/auth/service.go:309-358 | leaves exactly what PerformRefresh specifies: the old token is gone and a new pair issued, or nothing happens |
| `AuthService.Service.Register` | internal/auth/service.go:360-463 | leaves exactly what PerformRegister specifies, for first registrations and repeated ones of unconfirmed users |
| `AuthService.Service.DeleteUserAccount` | internal/auth/service.go:465-507 | leaves exactly what PerformDeleteUserAccount specifies, with the cascade to all tables |
| `AuthService.Service.CompleteRegister` | internal/auth/service.go:509-563 | leaves exactly what PerformCompleteRegister specifies |
| `AuthService.Service.ServeAll` | internal/auth/service.go:56-563 | serving any sequence of calls ends in the tables and the log of the run that the theorems speak about, and each reply is the one of that run |
| `History.LiveAccessMeans` | internal/auth/service.go:573-606 | an access token that the log leaves alive was issued by an event after which nothing revoked it |
| `History.LiveRefreshMeans` | internal/auth/service.go:573-606 | the same for refresh tokens, which rotation revokes as well |
| `History.LineageUnique` | internal/auth/service.go:309-358 | two chains of rotations that end in the same token are equal |
| `History.RootIsLineage` | internal/auth/service.go:309-358 | the computed root of a token is where its chain of rotations starts |
| `Sessions.CallFaithful` | internal/auth/service.go:56-563 | every operation is a sequence of enabled events: replaying its events gives exactly its tables |
| `Sessions.EventKeepsInv` | internal/auth/service.go:56-620 | every enabled event keeps the invariant of tables and log |
| `Sessions.StepKeepsInv` | internal/auth/service.go:56-620 | every admissible call, failed or not, keeps the invariant |
| `Sessions.RunKeepsInv` | internal/auth/service.go:56-620 | so does every run |
| `SessionTheorems.EveryRunKeepsInvariant` | internal/auth/service.go:56-620 | from tables without tokens every run ends with owners present, one profile per user, unique normal usernames, and tables equal to what the log leaves alive |
| `SessionTheorems.StoreIsReplay` | internal/auth/service.go:56-620 | after every run the tables are the replay of the events logged |
| `SessionTheorems.NoNilDereference` | internal/auth/service.go:117-144 | the related user that ResetPassword, Refresh and CompleteRegister dereference exists whenever owners do |
| `SessionTheorems.LostCommit` | internal/util/db/db.go:27-51 | for every call in a transaction the reply of the committed call is also given when the commit fails, and then nothing has changed |
| `SessionTheorems.UntransactedIgnoresFate` | internal/auth/service.go:371-405 | a repeated registration does not depend on any transaction |
| `SessionTheorems.OnlyWhitelistedColumns` | internal/auth/service.go:608-611 | whatever DTO a call carries, usernames and scopes never change, and password, is_active and requires_confirmation only under the calls that list them |
| `SessionTheorems.LineageOfLiveToken` | internal/auth/service.go:309-358 | a live refresh token traces back to exactly one login, completion or password update of its own user |
| `SessionTheorems.OneLiveDescendant` | internal/auth/service.go:309-358 | such an event has at most one live refresh descendant |
| `SessionTheorems.SpentForever` | internal/auth/service.go:309-358 | a refresh token that left the table is rejected in every later state of every run |
| `SessionTheorems.RotationSpends` | internal/auth/service.go:224-249 | after a rotation or logout that reports success the token is spent if and only if the transaction committed |
| `SessionTheorems.PasswordChangeLeavesOnePair` | internal/auth/service.go:89-114 | after a committed password change the user owns exactly the two returned tokens and all others keep theirs |
| `SessionTheorems.LiveTokensPostdatePassword` | internal/auth/service.go:573-606 | in every reachable state a live access token was issued after the last password change of its user |
| `SessionTheorems.LiveRefreshPostdatesPassword` | internal/auth/service.go:573-606 | the same for refresh tokens |
| `SessionTheorems.CompletedOnce` | internal/auth/service.go:509-563 | no two completions ever issue tokens for one user |
| `SessionTheorems.UnconfirmedOwnNothing` | internal/auth/service.go:529-553 | an unconfirmed user owns no access and no refresh token |
| `SessionTheorems.IssuesExactly` | internal/auth/service.go:251-358 | in every reachable state a call issues tokens for a user if and only if it commits and presents the stored password, a live refresh token, an open confirmation or reset token of that user, or an accepted password change |
| `SessionTheorems.SetsPasswordExactly` | internal/auth/service.go:56-144 | a password is set if and only if such an accepted change or open reset token is presented and the call commits |
| `SessionEffects.SetsGivenPassword` | internal/auth/service.go:56-144 | the password set is the one given, in the row of that user and no other, and no reset or confirmation token changes |
| `SessionEffects.DeletesExactly` | internal/auth/service.go:465-507 | a user is deleted if and only if the call commits and carries an active copy of that user with a password, and that password |
| `SessionEffects.DeletionLeaves` | internal/auth/service.go:490-504 | afterwards nothing in any of the six tables belongs to the user, and everything of others is as before |
| `SessionEffects.LogsOutExactly` | internal/auth/service.go:224-249 | a logout of two tokens is logged exactly by a committed Logout that presents them |
| `SessionEffects.LogoutRemoves` | internal/auth/service.go:224-249 | after a committed Logout the access token presented is gone, the refresh token too if one was given, and every other row is as before |
| `SessionEffects.LoggedOutForever` | internal/auth/service.go:224-249 | an access token presented to a committed Logout is never in the table again, and no middleware authenticates it in any later state of any run |
| `SessionEffects.RegistersExactly` | internal/auth/service.go:360-463 | a user row is created if and only if a registration of a free name with a usable password commits; the row has the normal name, the hash, the default scopes, and is active unless confirmation is required |
| `SessionEffects.RegistrationLeaves` | internal/auth/service.go:407-463 | such a registration adds that row, an empty profile and, if required, a confirmation token that the reply names, and nothing else |
| `SessionEffects.RepeatedRegistration` | internal/auth/service.go:371-405 | a known name is refused if its user is confirmed; else a new confirmation token is sent exactly if none is recent |
| `SessionEffects.ConfirmsExactly` | internal/auth/service.go:509-563 | a registration is confirmed if and only if an open confirmation token of an inactive unconfirmed user is presented and the call commits |
| `SessionEffects.ConfirmationLeaves` | internal/auth/service.go:529-553 | then the token is gone and the user active and confirmed, and no other user, profile, reset or confirmation token changes |
| `SessionEffects.ResetsExactly` | internal/auth/service.go:146-222 | a reset token is sent if and only if the call commits for an active user of that name with a password, none is within the debounce time, and none can be used again |
| `SessionEffects.ResetReplyNamesToken` | internal/auth/service.go:165-222 | the reply names a token exactly for such a user who is not debounced; it is in the table, of that user, and either new or still valid and recent |
| `SessionEffects.ResetOfUnknownName` | internal/auth/service.go:146-163 | an unknown name gets the same successful reply without a token, and nothing changes |
| `SessionTheorems.HandsOutIssuedPair` | internal/auth/service.go:573-619 | the tokens in a reply are the pair issued last, stored for that user, the access token valid for the configured time |
| `SessionEffects.LoginRefusals` | internal/auth/service.go:251-307 | Unauthorized exactly for an unknown name or an active user whose password is missing or another; UserDeactivated exactly for an inactive one |
| `SessionEffects.RefreshRefusals` | internal/auth/service.go:309-358 | Unauthorized exactly for a token that is not stored, UserDeactivated exactly for an inactive owner |
| `SessionEffects.UpdateRefusals` | internal/auth/service.go:56-115 | each of the five refusals of a password change has exactly its cause |
| `SessionEffects.ResetRefusals` | internal/auth/service.go:117-144 | TokenNotFound exactly for an unknown reset token, TokenExpired exactly after its last instant |
| `SessionEffects.DeleteRefusals` | internal/auth/service.go:465-487 | each of the three refusals of a deletion has exactly its cause |
| `SessionEffects.RegisterRefusals` | internal/auth/service.go:360-463 | a registration is refused exactly for an unusable password of a free name, or for the name of a confirmed user |
| `SessionEffects.CompletionRefusals` | internal/auth/service.go:509-563 | a confirmation token is refused exactly if unknown or not valid beyond now; one of a user who needs none gives a reply without tokens |
| `SessionEffects.ProfilesUntouched` | internal/auth/service.go:407-463 | no call changes a profile; only a registration adds one, empty, and only a deletion removes one |
| `SessionTheorems.IssuesForRetired` | internal/auth/service.go:59-62 | for a confirmed user who was deactivated or is gone, a call issues tokens if and only if it is a committed password change carrying an older active copy of the user |
| `SessionTheorems.RetiredForever` | internal/auth/service.go:328-331 | no later state has such a user active, and if requests about the user carry current copies no later event issues tokens to them |
| `SessionExamples.StaleUpdateIssues` | internal/auth/service.go:59-62 | a run in which a password change with a copy of the user from before the deactivation gives the deactivated user a token |
| `SessionTheorems.ResetTokensBounded` | internal/auth/service.go:172-213 | at most ceil(validity / S) reset tokens of a user are unexpired and floor(validity / S) + 1 acceptable, S being min(max(debounce, reuse), validity) |
| `SessionTheorems.ResetsSentApartInRuns` | internal/auth/service.go:172-213 | any two reset tokens ever sent to a user, in any run, are at least min(max(debounce, reuse), validity) apart |
| `SessionTheorems.ConfirmationsSentApartInRuns` | internal/auth/service.go:377-400 | any two confirmation tokens ever sent to a user, in any run, are at least min(debounce, validity) apart |
| `SessionTheorems.ResetTokenWorksAgain` | internal/auth/service.go:117-144 | after a committed password reset a second one with the same token succeeds if and only if the token has not expired |
| `SessionTheorems.ResetTokenStaysOpen` | internal/auth/service.go:117-144 | after any run a reset token whose user exists sets the password if and only if it has not expired and the user is active with a password |
| `SessionTheorems.Packing` | internal/auth/service.go:172-213 | spaced tokens of one user fit an interval only so many times |
| `Gate.Authenticate` | internal/api/middleware/auth.go:249-390 | the handler rejects or enriches the context as decided from the completed configuration |
| `Gate.CheckUserScopes` | internal/api/middleware/auth.go:223-241 | true exactly if no scopes are required or one required scope is held |
| `Gate.ExtractExactly` | internal/api/middleware/auth.go:120-152 | a token is extracted exactly from scheme, any one character, token |
| `Gate.ModesNested` | internal/api/middleware/auth.go:278-388 | for every request and store Secure accepts within Required within Optional within Try within None |
| `Gate.OptionalAddsTheAnonymous` | internal/api/middleware/auth.go:304-326 | Optional accepts beyond Required exactly the requests without any value |
| `GateDecisions.DecidesByTable` | internal/api/middleware/auth.go:274-388 | in every reachable state the answer to a request without context is that of a table over seven standings, read off the raw value, the log and the user row: no value, no token in it, bad format, not alive, expired, inactive user, good |
| `GateDecisions.OneStanding` | internal/api/middleware/auth.go:274-388 | every request has exactly one of these standings |
| `GateDecisions.RequiredAuthenticates` | internal/api/middleware/auth.go:310-388 | Required and Secure let a request through only with credentials of an active user whose token is alive and unexpired |
| `GateDecisions.OptionalAnonymous` | internal/api/middleware/auth.go:310-319 | Optional lets a request through without credentials if and only if it carries no value |
| `GateDecisions.TryAnonymous` | internal/api/middleware/auth.go:310-360 | Try does if and only if it carries no well-formed token that is alive and unexpired |
| `GateDecisions.SkippedPasses` | internal/api/middleware/auth.go:278-287 | mode None and skipped requests pass with whatever context they have |
| `Gate.ShortcutIsRevalidation` | internal/api/middleware/auth.go:288-325 | for an already authenticated request the shortcut decides as full validation of the same token at the same instant would, if and only if the later format validator accepts the token |
| `Gate.ShortcutSkipsFormat` | internal/api/middleware/auth.go:288-325 | a later middleware that refuses the format passes on the shortcut what it would answer as malformed |
| `Gate.GateFollowsLog` | internal/api/middleware/auth.go:274-388 | in every reachable state a request is authenticated if and only if the log leaves its token alive and unexpired and the user is active, recent and in scope |
| `Gate.AdmittedTokenIsGenuine` | internal/api/middleware/auth.go:274-388 | an admitted token was issued to that user at most the validity ago, with no logout of it, password change or deletion since, and the user is active |
| `Gate.AuthenticatedAtLatestIssue` | internal/auth/service.go:608-611 | in every reachable state the owner of a live access token was last authenticated exactly at the latest issue of tokens to them |
| `Gate.SecureFollowsLog` | internal/api/middleware/auth.go:211-221 | in every reachable state Secure admits a request if and only if Required does and that latest issue is at most the threshold ago |
| `Gate.SecureMeansCredential` | internal/api/middleware/auth.go:38-39 | from now on being admitted by Secure implies a credential shown within the threshold, if and only if its last possible instant has passed or lies within the threshold of the latest credential |
| `SessionExamples.OnlyRotationsInWindow` | internal/api/middleware/auth.go:211-221 | a run after which Secure admits a token although only a rotation lies within the threshold |
| `ConnectionCache.ActionKeepsInv` | internal/mpc/grpc/client.go:74-171 | every step of every thread keeps locks, maps, connections and log consistent |
| `ConnectionCache.InterleavingKeepsInv` | internal/mpc/grpc/client.go:74-171 | so does every interleaving of any number of calls |
| `ConnectionCache.ActionIsAtomic` | internal/mpc/grpc/client.go:74-171 | each step changes the clients map as at most one atomic get, insert, remove or clear would |
| `ConnectionCache.BetweenCalls` | internal/mpc/grpc/client.go:390-425 | outside the critical section the maps have the same keys, each client wraps its connection, every connection dialed is cached under one node or was closed, and a cached one is closed if and only if CloseConnection got an error from closing it |
| `ConnectionCache.RefusedStaysCached` | internal/mpc/grpc/client.go:390-403 | a run after which a closed connection is still cached |
| `ConnectionCache.NothingOverwritten` | internal/mpc/grpc/client.go:124-170 | no step replaces an entry |
| `ConnectionCache.ServedAgree` | internal/mpc/grpc/client.go:75-81 | two answers for one node with no close of it between them are the same client |
| `ConnectionCache.SameClient` | internal/mpc/grpc/client.go:124-170 | so two finished calls return the same client, on either path, and each took effect within its call |
| `ConnectionCache.SameClientInRun` | internal/mpc/grpc/client.go:74-171 | any two results given along a run, at any moments and by any threads, are the same client unless the node was closed between the points where they took effect |
| `ConnectionCalls.CloseTookEffect` | internal/mpc/grpc/client.go:390-403 | in every interleaving a finished CloseConnection took effect at one point within its call: the node was not cached, or it was removed and its connection is closed, or its Close failed, and the last exactly if it met that failure |
| `ConnectionCalls.CloseAllTookEffect` | internal/mpc/grpc/client.go:406-425 | a finished Close emptied the cache at one point within its call, and every connection it found there is closed |
| `ConnectionCalls.NeverServedAfterClose` | internal/mpc/grpc/client.go:390-425 | a client that a close took out of the cache is not served at any later point, under any node |
| `ConnectionCalls.ClosedClientNotReturned` | internal/mpc/grpc/client.go:390-403 | a get that starts after a CloseConnection has removed a client does not return it, in any continuation |
| `ConnectionCalls.ClearedClientsNotReturned` | internal/mpc/grpc/client.go:406-425 | nor does one that starts after Close return any client cached before |
| `ConnectionCalls.FailureExactly` | internal/mpc/grpc/client.go:74-171 | a get fails if and only if its own lookup or dial failed, and a CloseConnection if and only if its own Close did |
| `ConnectionCalls.FailedGetMissed` | internal/mpc/grpc/client.go:74-122 | a get that failed had at some point within its call no cached client to return |
| `ConnectionCalls.SomeoneCanMove` | internal/mpc/grpc/client.go:74-171 | no deadlock: while a call is under way some thread can take a step of its own call |
| `ConnectionCalls.StepsEnd` | internal/mpc/grpc/client.go:74-171 | every step brings its call nearer to the end, by a measure that is well-founded |
| `ConnectionCache.LookupNode` | internal/mpc/grpc/client.go:83-122 | the database's node, else the first match among participants and then coordinators |
| `ConnectionCache.GrpcClient.GetOrDial` | internal/mpc/grpc/client.go:124-170 | the locked half: a cached client is returned unchanged, else the dialed connection enters both maps |
| `ConnectionCache.GrpcClient.GetOrCreateConnection` | internal/mpc/grpc/client.go:74-171 | a call by itself is an atomic hit or insert, or fails without a change |
| `ConnectionCache.GrpcClient.CloseConnection` | internal/mpc/grpc/client.go:390-403 | an atomic remove, unless closing fails |
| `ConnectionCache.GrpcClient.Close` | internal/mpc/grpc/client.go:406-425 | closes exactly the cached connections and empties both maps, whatever fails |
| `CacheKey.ConcatDecodes` | internal/models/boil_types.go:34-52 | a run of prefix-free names has one reading |
| `CacheKey.MakeCacheKey` | internal/models/boil_types.go:34-52 | the buffer ends as kind, names, and a dot with the defaults if there are any |
| `CacheKey.KeyInjective` | internal/models/boil_types.go:34-52 | over names without dot, leading digit or common prefixes the key determines its arguments |
| `CacheKey.KeyCollides` | internal/models/boil_types.go:34-52 | without prefix-freedom it does not |
| `CacheKey.ItoaIsDecimal` | internal/models/boil_types.go:37 | the number in a key is written in decimal, with a sign if negative and no leading zero |
| `CacheKey.MakeUpsertKey` | internal/models/access_tokens.go:705-732 | the key that Upsert writes into its buffer |
| `CacheKey.UpsertKeyInjective` | internal/models/access_tokens.go:705-732 | the upsert key determines everything but the options |
| `CacheKey.AccessTokenNames` | internal/models/access_tokens.go:169-172 | the columns of access_tokens are such names, which are those of confirmation_tokens and password_reset_tokens too |
| `CacheKey.UserNames` | internal/models/users.go:272-275 | the columns of users are such names |
| `CacheKey.ProfileNames` | internal/models/app_user_profiles.go:135 | so are the columns of app_user_profiles |
| `CacheKey.RefreshTokenNames` | internal/models/refresh_tokens.go:110 | and those of refresh_tokens |
| `CacheKey.PushTokenNames` | internal/models/push_tokens.go:124 | and those of push_tokens |
| `CacheKey.AuditLogNames` | internal/models/audit_logs.go:243 | and those of audit_logs |
| `CacheKey.KeyNames` | internal/models/keys.go:204 | and those of keys |
| `CacheKey.NodeNames` | internal/models/nodes.go:126 | and those of nodes |
| `CacheKey.SessionNames` | internal/models/signing_sessions.go:212 | and those of signing_sessions |
| `StatementCache.TransparentExactly` | internal/models/access_tokens.go:493-554 | in every interleaving every thread runs the statement of its own arguments, if and only if equal keys mean equal statements |
| `StatementCache.CachedExactly` | internal/models/access_tokens.go:493-554 | in every interleaving a key is cached if and only if some thread ran a statement under it without error |
| `StatementCache.InsertCacheTransparent` | internal/models/access_tokens.go:481-557 | the insert cache is transparent in every run |
| `StatementCache.UpsertCacheTransparent` | internal/models/access_tokens.go:692-814 | the upsert cache is transparent for calls without options |
| `StatementCache.UpsertWithOptions` | internal/models/access_tokens.go:692-814 | with options it is, if and only if no allowed option changes a statement |
| `UpsertOptions.ConflictTargetIgnored` | internal/models/psql_upsert.go:35-83 | a run in which a call with a conflict target is served the statement of a call without one |
| `StatementCache.InsertCache.Insert` | internal/models/access_tokens.go:481-557 | cached or not, the statement is that of the arguments, and it is stored when it ran |
| `EagerLoading.LoadUser` | internal/models/access_tokens.go:280-388 | the loops leave the pointers and lists of the join of the slice with the result |
| `EagerLoading.LoadAccessTokens` | internal/models/users.go:562-664 | the same with the roles of slice and result exchanged |
| `EagerLoading.LinkAll` | internal/models/access_tokens.go:374-385 | the nested loops give each token its first matching user and append it to that user's list, in order |
| `EagerLoading.LinkToOwner` | internal/models/access_tokens.go:375-384 | the inner loop links the first match both ways and leaves everything else alone |
| `EagerLoading.LoadUserOf` | internal/models/access_tokens.go:364-372 | one token is linked with the first row of the result |
| `EagerLoading.LoadAccessTokensOf` | internal/models/users.go:638-647 | the list of one user becomes the result and every row points back |
| `EagerLoading.JoinedIsForeignKeyJoin` | internal/models/access_tokens.go:374-385 | among users with distinct ids the scan computes the tokens owned by each, in order |
| `EagerLoading.OwnedInOrder` | internal/models/access_tokens.go:374-385 | that join keeps the order of the rows and takes each as often as it occurs |
| `EagerLoading.LoadIsForeignKeyJoin` | internal/models/users.go:650-661 | after loading a token points to a user if and only if that user has its UserID, and the user's list has grown by exactly its tokens in order |
| `EagerLoading.PointersInverse` | internal/models/users.go:650-661 | after loading a user lists a token if and only if the token points to it |
| `EagerLoading.UnmatchedStays` | internal/models/access_tokens.go:374-385 | a token whose user did not come back keeps its pointer and enters no list |
| `Discovery.ExtractNodeID` | internal/mpc/discovery/service.go:96-112 | the loop returns the first tagged id, else what the service id names |
| `Discovery.ExtractNodeType` | internal/mpc/discovery/consul.go:139-146 | the loop returns the first tagged type |
| `Discovery.TagsRoundTrip` | internal/mpc/discovery/service.go:24-40 | id and type of every registration come back from its tags |
| `Discovery.NameRoundTrip` | internal/mpc/discovery/service.go:103-111 | the service id alone gives the id back if and only if the type is participant or coordinator, or the id is empty and the type does not begin like one of them |
| `Discovery.ServiceIdInjective` | internal/mpc/discovery/service.go:24-46 | for types without a dash a service id stands for one type and one id |
| `Discovery.ServiceIdsCollide` | internal/mpc/discovery/service.go:24-46 | two types can share a service id if and only if one continues the other after a dash |
| `Discovery.RegistryTracksLive` | internal/mpc/discovery/service.go:24-46 | after any operations a service is registered if and only if its node was registered and since then neither deregistered nor removed by the agent |
| `Discovery.LiveIsRegisteredLast` | internal/mpc/discovery/service.go:24-46 | a node is live if and only if the last thing that happened to it is a registration |
| `Discovery.RegisteredLast` | internal/mpc/discovery/service.go:24-40 | the registry then has the address, port and type of that registration |
| `Discovery.DiscoveredWhereRegistered` | internal/mpc/discovery/service.go:49-79 | and a query answers with them |
| `Discovery.DiscoveredAreLive` | internal/mpc/discovery/service.go:49-79 | the ids extracted from a query's answer are distinct and exactly those of the live healthy nodes of the type |
| `Discovery.Service.RegisterNode` | internal/mpc/discovery/service.go:24-40 | the registry gains the service under its id, if the agent was reached |
| `Discovery.Service.DeregisterNode` | internal/mpc/discovery/service.go:43-46 | the registry loses that service |
| `Discovery.DiscoverParticipants` | internal/mpc/discovery/service.go:49-79 | exactly count of the services found, in their order, or all of them with an error when there are fewer |
| `SortedStrings.SortSorts` | internal/mpc/coordinator/service.go:145 | sorting sorts |
| `SortedStrings.LeExactly` | internal/mpc/coordinator/service.go:145 | the order is that of the first difference, a proper prefix coming first |
| `SortedStrings.SortedUnique` | internal/mpc/coordinator/service.go:145 | two sorted arrangements of the same strings are equal |
| `NodeDiscovery.DiscoverNodes` | internal/mpc/node/discovery.go:29-141 | the database's nodes if they suffice or the registry does not help, else one node per id of both, in some order |
| `NodeDiscovery.Deduplicate` | internal/mpc/node/discovery.go:114-118 | one node per id, the last one |
| `NodeDiscovery.ValuesOf` | internal/mpc/node/discovery.go:120-124 | ranging over the map gives each entry once |
| `NodeDiscovery.DiscoveryUpToOrder` | internal/mpc/node/discovery.go:114-124 | two results from the same database and registry are permutations of each other |
| `NodeDiscovery.WithoutRegistry` | internal/mpc/node/discovery.go:37-69 | when the registry is not asked or does not help, the answer is the beginning of the database's rows up to the limit, by default 50 |
| `NodeDiscovery.RegistryWins` | internal/mpc/node/discovery.go:78-127 | else each node is at the address and port of the last of the first limit services that name it, and in the database's words only if none does |
| `NodeDiscovery.NobodyDropped` | internal/mpc/node/discovery.go:78-127 | and exactly the ids of the database's nodes and of those services are there |
| `NodeDiscovery.DiscoveredCount` | internal/mpc/node/discovery.go:41-134 | a sufficient result has exactly the requested number if and only if the database sufficed or knew only nodes the registry returned, and always fewer than twice as many |
| `NodeDiscovery.MoreThanAskedFor` | internal/mpc/node/discovery.go:111-134 | one node of the database and two of the registry make three when two were asked for |
| `Coordinator.Service.CreateDKGSession` | internal/mpc/coordinator/service.go:99-199 | sessions, StartDKG calls and reply are those specified, whatever the stores answer |
| `Coordinator.Service.CreateKeyGenSession` | internal/mpc/session/manager.go:82-194 | saved if one of three attempts succeeds, then read back, then cached if the cache works |
| `Coordinator.Service.NotifyParticipantsForDKG` | internal/mpc/coordinator/service.go:204-271 | one StartDKG for the first node, unless there is none |
| `Coordinator.Service.CancelSession` | internal/mpc/session/manager.go:395-408 | the session found in cache or database is written back as cancelled |
| `Coordinator.OrderIndependent` | internal/mpc/coordinator/service.go:125-145 | discoveries that are permutations of each other lead to the same state, session and message |
| `Coordinator.DeterminedByStores` | internal/mpc/coordinator/service.go:125-145 | so the outcome depends on database and registry only, not on the order of Go's map |
| `Coordinator.LeaderIsLeast` | internal/mpc/coordinator/service.go:204-235 | with discovered participants the message lists all of them in order, at least TotalNodes, and goes to the least |
| `Coordinator.SendsWhatItStores` | internal/mpc/coordinator/service.go:204-235 | for every successful call the one new StartDKG carries the request's key, algorithm, curve and given nodes, goes to their first, and agrees with the request and the stored session in threshold and total as far as these fit into 32 bits; the protocol is the request's, else the default, else keygen |
| `Coordinator.Int32Keeps` | internal/mpc/coordinator/service.go:232-233 | the truncation keeps a number if and only if it fits, and else changes it by a multiple of 2 to the 32 |
| `Coordinator.FailsExactly` | internal/mpc/coordinator/service.go:99-199 | each failure has exactly its cause, in the order of the code, and nothing is stored before the third |
| `Coordinator.LeftPending` | internal/mpc/coordinator/service.go:181-186 | a failed call that saved a session leaves it pending if and only if reading it back failed or cancelling did; otherwise it is cancelled |
| `Coordinator.NobodyToNotify` | internal/mpc/coordinator/service.go:209-211 | notification fails if and only if nothing went wrong before, no nodes were given or required, and none found |
| `Coordinator.NotNotifiedLeaves` | internal/mpc/coordinator/service.go:181-186 | what such a call leaves in database and cache, for every way cancelling can go: the new session cancelled, or pending, or replaced by an older cached session of the same key |
| `Coordinator.OneCallPerSession` | internal/mpc/coordinator/service.go:99-199 | one StartDKG per session returned, none for a failed call, and no other key's session is touched |
| `PushTokens.LocalService.UpdatePushToken` | internal/data/local/service_push.go:16-75 | reply and rows are those specified for every failure, and tokens stay unique |
| `PushTokens.ExactEffect` | internal/data/local/service_push.go:19-68 | afterwards there is exactly what was there or inserted, minus the old token when delete and commit succeed |
| `PushTokens.RepliesExactly` | internal/data/local/service_push.go:19-68 | Conflict, OldNotFound and Done each exactly under its condition on what is stored and on the calls that succeed |
| `PushTokens.InsertsExactly` | internal/data/local/service_push.go:19-39 | the new token is stored if and only if the calls up to the insert succeed and nobody has it |
| `PushTokens.Outcomes` | internal/data/local/service_push.go:19-68 | conflict: nothing changes; old token missing: the new one is saved and nothing removed; success: replaced, if committed |
| `PushTokens.ReplacedByItself` | internal/data/local/service_push.go:37-68 | a token replaced by itself is gone, with success |
| `PushTokens.RetryConflicts` | internal/data/local/service_push.go:37-39 | after a failure past the insert every later call with the token is a conflict and the old token stays |
| `PushTokens.Service.SendToUser` | internal/push/service.go:63-107 | visits the providers one after the other in some order, none twice, and succeeds if and only if there is one and all database calls work |
| `PushTokens.Service.SendVia` | internal/push/service.go:72-104 | one round: the user's tokens at the provider are sent, and those reported invalid deleted |
| `PushTokens.LeavesUnreported` | internal/push/service.go:69-104 | what is left is exactly what no provider visited reported for this user |
| `PushTokens.LeavesValid` | internal/push/service.go:69-104 | with providers that answer about the token sent, exactly the tokens their own provider calls valid are left |
| `PushTokens.OrderIrrelevantExactly` | internal/push/service.go:69-104 | for every table and user all runs that visit each provider once leave the same rows, if and only if no token accuses another provider's token that would itself accuse a third party |
| `PushTokens.ChainOrderMatters` | internal/push/service.go:69-104 | for any such chain a table and two runs, each visiting every provider once, that leave different rows |
| `PushTokens.RepositoryProvidersEcho` | internal/push/provider/fcm_provider.go:57-71 | the repository's providers answer about the token sent, so their order is irrelevant |
| `PushTokens.SendMulticast` | internal/push/provider/helper.go:5-13 | one response for each token, in order |
| `Gregorian.YearContains` | internal/util/time.go:36-92 | the year computed by cycles contains the day |
| `Gregorian.GregorianLawful` | internal/util/time.go:36-92 | months have 28 to 31 days and follow each other, and the date of a day names it |
| `Gregorian.DateRoundTrip` | internal/util/time.go:74-76 | every valid date is the date of its day |
| `Gregorian.YearLengths` | internal/util/time.go:36-92 | the first days of consecutive years are 366 days apart exactly in leap years, else 365 |
| `Gregorian.MonthLengths` | internal/util/time.go:36-92 | the first days of consecutive months are 30 days apart for April, June, September and November, 28 or 29 for February, else 31 |
| `Time.UnixEpoch` | internal/util/time.go:62-72 | the first of January 1970 is a Thursday and begins 62 135 596 800 seconds after the zero time |
| `Time.DateInverts` | internal/util/time.go:74-92 | time.Date of the parts of an instant is the instant |
| `Time.MonthsTile` | internal/util/time.go:36-54 | exactly the instants from StartOfMonth to EndOfMonth have the year and month of the date, and share its start |
| `Time.MonthsMeet` | internal/util/time.go:36-54 | the nanosecond after EndOfMonth starts the next month, that after EndOfPreviousMonth is StartOfMonth |
| `Time.StartOfMonthMonotone` | internal/util/time.go:52-54 | StartOfMonth is idempotent and monotone |
| `Time.QuarterStarts` | internal/util/time.go:56-60 | a quarter starts at midnight on the first of January, April, July or October of the same year |
| `Time.QuartersTile` | internal/util/time.go:56-60 | exactly the instants of the three months from it share it |
| `Time.StartOfQuarterMonotone` | internal/util/time.go:56-60 | StartOfQuarter is idempotent and monotone |
| `Time.WeekStartsOnMonday` | internal/util/time.go:62-72 | StartOfWeek is the one Monday midnight at or before the instant and less than seven days back |
| `Time.StartOfWeekMonotone` | internal/util/time.go:62-72 | StartOfWeek is idempotent and monotone and tiles time in weeks |
| `Time.DaysTile` | internal/util/time.go:44-50 | StartOfDay, EndOfDay and DayBefore border exactly the instants with the same date |
| `Time.AddWeeksAdditive` | internal/util/time.go:78-80 | adding weeks is additive and invertible |
| `Time.AddMonthsLands` | internal/util/time.go:82-84 | adding months keeps the day if the month has it, and else runs over by at most three days |
| `Time.AddMonthsInvertible` | internal/util/time.go:82-84 | it can be taken back if and only if the day did not run over |
| `Time.AddMonthsAdditive` | internal/util/time.go:82-84 | two steps are one if and only if the first did not run over or ends in a month as long as the last |
| `Time.MaxTime` | internal/util/time.go:94-104 | the latest of the zero time and the arguments; one of the arguments if and only if one is not before the zero time |
| `ContainsAll.ContainsAll` | internal/util/string.go:154-185 | true exactly if there are no patterns, or the string is not empty and every pattern occurs in order, perhaps with gaps |
| `ContainsAll.GreedyIsExact` | internal/util/string.go:164-175 | the greedy matcher uses up a pattern if and only if it occurs at all |
| `ContainsAll.NothingMissed` | internal/util/string.go:154 | on a non-empty string patterns that are substrings are all found |
| `ContainsAll.AgreesWithComment` | internal/util/string.go:154-185 | the answer is that of the comment for every string if and only if there are no patterns, or none is longer than one character and not all are empty |

## Left out

- Interleaving inside one authentication operation: several reads happen outside the transaction; operations are
  atomic steps here.
- Database errors in the middle of an authentication operation other than constraint violations and a failing begin
  or commit.
- Hashing, UUIDs and random tokens: their results are parameters, new ones each time.
- Custom token validators of the middleware, which its shortcut skips as well, and the skipper beyond a predicate on the request.
- Time zones and daylight saving: UTC only. `Duration.Seconds()` is taken without floating-point rounding, and Go's
  bounds on years and durations are not modelled.
- Case folding and white space outside ASCII and Latin-1 in usernames; strings are code points, so invalid UTF-8
  does not arise.
- Fairness of the read-write lock, deadlines and contexts of gRPC calls; dialing yields a connection or fails.
- The interleaved connection and statement caches are state machines on values, because threads interleave inside
  their operations; the classes beside them are the same operations one at a time.
- SQL text and reflection: a statement is a function of the arguments it is built from.
- Queries of the eager loaders: their result is a parameter. The setters and the other relations repeat the same code.
- StartDKG itself and what a participant does with it, the DKG and signing engines, key shares, and signing sessions.
- The health checks of the service registry: which services are healthy is a parameter, and that the agent removes one
  can happen at any time.
- Times and signatures of sessions; a cached session does not expire.
- Delivery of push messages: a provider is its `Send`, a function from the token to the response, with `SendMulticast` as
  the shared helper has it; the interface would allow another.
- Parsing of dates, the pointer helpers, and the other small string helpers: they would add only easy members.
- HTTP binding, routing, mail, metrics, configuration, logging and the command line.
