# Verified model of the users service

A Dafny model of the stateful and the parsing parts of a users service written in Go, with proofs of what
those parts promise. `dafny verify dfyconfig.toml` checks the whole project.

| files | what they model |
|---|---|
| `Accounts.dfy` | the tables, the user cache, and the events of the account and code life cycle as a state machine |
| `AccountEffects.dfy` | what each event leaves in the tables and in the cache, column by column and key by key |
| `AccountInvariants.dfy`, `AccountHistory.dfy`, `AccountCodes.dfy`, `AccountCache.dfy` | theorems about every run of that machine |
| `AccountJourneys.dfy` | several calls in a row, and what the last one is answered |
| `UsersRepository.dfy`, `AuthService.dfy` | the transactions and the service calls as classes; every call extends a recorded run, so the theorems hold of the running service |
| `RateLimiter.dfy` | the sliding-window request limiter |
| `Subscriptions.dfy` | the subscription event log: poll, handle, commit, crash |
| `PasswordHash.dfy`, `HashPool.dfy` | the printed password hash, and the bounded pool that computes it |
| `CacheKeys.dfy`, `CacheStore.dfy` | the cache keys and the encrypted store |
| `Email.dfy`, `Codes.dfy` | the mail check and the one-time codes |
| `Pagination.dfy`, `EagerLoad.dfy`, `Retry.dfy` | paging, batched loading, retry with backoff |
| `Base64.dfy`, `Text.dfy`, `Int64.dfy`, `Wrappers.dfy` | what the others share |

## How to read the account model

A run is a sequence of events: what a service call changed, the tokens it issued, and what happens to the cache
meanwhile. An event holds every choice the call left open (row ids, drawn codes, the clock, how far it got).
`Allowed` says when an event can happen, the `New...` functions what it writes, table by table. A run starts from
any consistent database, which may already hold verification codes and blacklisted users, since no code in the
repository creates or blacklists them. The removal that an expired code starts on its own thread is an event of
its own that can come at any later time.

In the classes the statements of a transaction can fail one by one (`fault(i)`), and each contract says exactly
when the transaction commits. A service call extends the recorded run and keeps what was there before, so that a
theorem about runs applies across calls (`RemoveThenServe`). Panics of the source are answers of their own.

Assumed of what is outside: the cipher's open undoes its seal, JSON decoding undoes encoding of the exported
fields, the key derivation returns as many bytes as asked for, the database enforces the unique and NOT NULL
columns of its schema, and a failed commit has no effect.

## What the proofs found

- The column `second_factor_codes.user_second_factor_code` is NOT NULL, so clearing it can never commit. A code
  that gave a token then gives any number of further ones until it expires (`ReuseWhileNotRemoved`), and a user is
  sent at most one second factor code, ever (`SecondCodeNeedsRemoval`). The model keeps "may the owner be NULL" as
  a parameter and states the exact condition for both schemas (`LastTokenIffRemoved`).
- `VerifyAccount` drops the error of its re-read: the change commits, and the call panics before it invalidates
  the cache. This is the only event that can leave a stale entry (`StepCoherent`), and it is reachable
  (`StaleEntryHappens`).
- `ConfirmPasswordReset` sets the password but never succeeds, and `CancelPasswordReset` never succeeds: both load
  the user without its reset code, and `RemoveResetCode` commits only with it.
- Redelivery preserves each user's subscription set, but not always the order of the stored list
  (`RedeliveryCanReorder`); `OrderKeptIff` says exactly when it does.
- The shared retry backoff is zero after 64 completed waits in total (`BackoffVanishes`), and is the intended one
  exactly while it fits 64 bits (`BackoffExactIff`).
- The page offset wraps in 64 bits: a huge page number can show the first page again (`HugePageRepeatsFirst`).
- A stamp that lags by d shortens the interval the rate limit holds for by exactly d (`WindowLimitExact`).
- A cached user comes back without password and codes, which JSON leaves out (`CachedUserRecovered`).
- `GetUserByMailWithCodes` reads a key that nothing writes (`ReadKeyNeverWritten`).

## Model

| member | source | states |
|---|---|---|
| AccountInvariants.StepConsistent | app/repositories/users_repository.go:429-519 | every event keeps the database consistent: one settings row, one details row and a device for each user, existing owners, unique and well-formed codes |
| AccountInvariants.RunConsistent | app/models/ent/migrate/schema.go:12-330 | every reachable database is consistent |
| AccountInvariants.OwnColumnsFree | app/models/ent/migrate/schema.go:186-200 | a user's own mail, phone and password are free for that user, by uniqueness |
| AccountEffects.RegisteredEffect | app/repositories/users_repository.go:436-507 | the columns of all five rows of a new user: not active, not verified, two-factor off, the device without a code; nobody else is touched |
| AccountEffects.ActivatedEffect | app/repositories/users_repository.go:246-262 | the user's row with active set and no other column changed, no row with the code left, every other row as it was |
| AccountEffects.VerifiedEffect | app/repositories/users_repository.go:294-310 | the same for verified, and what the device of the call may add |
| AccountEffects.ProfileEffect | app/repositories/users_repository.go:733-760 | mail and phone are the requested ones, an empty phone leaves a missing one missing, nothing else changes |
| AccountEffects.SettingsEffect | app/repositories/users_repository.go:826-848 | the user's settings row holds the requested value and nothing else changes |
| AccountEffects.OtherUserEffects | app/repositories/users_repository.go:702-717 | a password change, a subscription change and a removal write one column of one user |
| AccountEffects.SentEffect | app/repositories/users_repository.go:551-556 | the code is stored for the user with its expiry, and the device of this owner and this token points at it |
| AccountEffects.ClearedEffect | app/repositories/users_repository.go:674-677 | a removal takes the user's rows from the user and leaves codes, expiries and the rows of others |
| AccountEffects.ResetEffects | app/repositories/users_repository.go:597-637 | a reset code is one row more for its user, its removal one row less |
| AccountEffects.MutatorsInvalidate | app/repositories/handlers.go:59-68 | which events delete a user's three keys, as they are spelled, and that all others but filling and expiry leave the cache alone |
| AccountEffects.UserKeysShown | app/utils/user_utils.go:8-19 | without details exactly "user-public:" and the id shows the user, with them exactly "user:" and the id and "user:email:" and the mail; every other key keeps what it had |
| AccountEffects.RegistrationAccepted | app/models/ent/migrate/schema.go:186-200 | a registration is possible exactly with fresh ids, a new mail and hash, and six digits not stored |
| AccountEffects.CodesAccepted | app/repositories/handlers.go:234-240 | an activation or verification code is taken exactly when a stored row holds it whose owner is neither blacklisted nor removed |
| AccountEffects.LoginAccepted | app/services/auth_service.go:342-357 | who passes the login, in columns, and that the second factor is asked for exactly with a settings row that says so |
| AccountEffects.ChangesAccepted | app/repositories/users_repository.go:733-760 | a profile change is possible exactly for a user that is there, with a mail and a phone that no other user has |
| AccountEffects.ResetsAccepted | app/models/ent/migrate/schema.go:122-129 | a reset code is possible exactly for a user that is there and has none, a new password exactly with a stored code and a new hash |
| AccountEffects.TokenAccepted | app/services/auth_service.go:416-430 | a token from a code exactly with a stored row of a user that is there, not expired, and a device that points at it |
| AccountHistory.FlagsStay | app/repositories/users_repository.go:246-297 | users are never deleted, and active, verified and removed never return to false, between any two points of any run |
| AccountHistory.NoTokenAfterRemoval | app/repositories/users_repository.go:864-892 | after a committed removal no later login, verification or second factor call issues a token for that user |
| AccountHistory.TokenDeviceIsOwned | app/services/auth_service.go:379-448 | every token is for a device of its own user |
| AccountHistory.SecondFactorOrigin | app/repositories/users_repository.go:521-573 | every stored second factor was sent by one login, keeps its code and expiry, and only that login's device points at it |
| AccountHistory.SecondFactorTokenHasLogin | app/services/auth_service.go:415-448 | every second factor token is for the user and device of an earlier login that passed the password check on an active two-factor account, sent this code and issued no token itself; the code had not expired |
| AccountHistory.SendsDistinctRows | app/repositories/users_repository.go:551-556 | two logins never send the same row, so a row names its login |
| AccountHistory.OneTokenPerRemoval | app/repositories/users_repository.go:661-695 | of two tokens for one login the earlier one's removal did not commit |
| AccountHistory.ReuseWhileNotRemoved | app/models/ent/migrate/schema.go:162-170 | after a token without a committed removal, which is every token while the owner is NOT NULL, any number of further calls with the code, at any times, is a run that issues tokens if and only if none is later than its expiry |
| AccountHistory.LastTokenIffRemoved | app/services/auth_service.go:432-447 | a login has given its last token, over all continuations of the run, if and only if the removal of its code committed with that token |
| AccountHistory.OwnerStays | app/repositories/users_repository.go:674-677 | a second factor row is unchanged until its user's removal |
| AccountHistory.RemovedBetween | app/repositories/users_repository.go:674-677 | an owner that is gone was cleared by a removal, which needs a nullable owner |
| AccountHistory.SecondCodeNeedsRemoval | app/models/ent/migrate/schema.go:169 | a user is sent a second code only after the first was removed, which needs a nullable owner |
| AccountCodes.LookupIsUnique | app/repositories/handlers.go:230-244 | a lookup by code matches at most one row and one user, in each of the four code tables of every reachable database |
| AccountCodes.ActivationConserved | app/repositories/users_repository.go:238-262 | over any stretch of any run: stored plus issued equals used plus still stored, for every activation code |
| AccountCodes.ActivatesOncePerIssue | app/repositories/users_repository.go:255-261 | a code activates again only after it was issued again |
| AccountCodes.VerifiesOnce | app/repositories/users_repository.go:304-310 | no verification code is taken twice in a run, not even after a panic |
| AccountCodes.StoredPassword | app/repositories/users_repository.go:697-723 | the stored hash is always the one of the password set last |
| AccountCodes.LoginKnowsPassword | app/services/auth_service.go:341-357 | every login presented a password that derives the same key as the one set last |
| AccountCodes.SecondFactorKnowsPassword | app/services/auth_service.go:415-448 | so did the login that a second factor token completes |
| AccountCache.CoherentReads | app/utils/user_utils.go:8-29 | what is read under any key of a user is that user's current row, never another's |
| AccountCache.StepCoherent | app/repositories/users_repository.go:286-322 | an event keeps the cache coherent if and only if it is not a verification that panics after its commit while the user, not verified before, is cached |
| AccountCache.RunCoherent | app/repositories/handlers.go:43-68 | in every run without such a panic each live entry equals the current columns, also across mail changes |
| AccountCache.StaleEntryReachable | app/repositories/users_repository.go:312-322 | from every state with an unverified visible user and its verification code, two calls lead to a stale entry |
| AccountCache.StaleEntryHappens | app/repositories/users_repository.go:312-322 | such a run from a given consistent database of one user and an empty cache |
| AccountCache.WrittenKeys | app/repositories/handlers.go:49-54 | filling the cache writes the given entry under the given keys and changes nothing else |
| UsersRepository.UsersRepository.UpdateCache | app/repositories/handlers.go:43-57 | under exactly the keys that go with or without details, spelled out, the user's present columns can be read, and every other key keeps what it had |
| UsersRepository.UsersRepository.InvalidateCache | app/repositories/handlers.go:59-68 | the three keys of the snapshot, spelled out, are gone and every other one stays |
| UsersRepository.UsersRepository.Only | app/repositories/handlers.go:199-244 | a lookup finds exactly the single match, and tells no match from several |
| UsersRepository.UsersRepository.GetUserByMail | app/repositories/handlers.go:222-224 | finds the visible user with the mail, or there is none or the query failed |
| UsersRepository.UsersRepository.GetUserByCode | app/repositories/handlers.go:234-244 | finds the row of a code whose owner is visible, or there is none or the query failed |
| UsersRepository.UsersRepository.GetUserBySecondFactor | app/repositories/handlers.go:230-232 | finds the row and the visible user of a second factor code, or there is none or the query failed |
| UsersRepository.UsersRepository.FindDevice | app/repositories/users_repository.go:904-909 | finds the user's device with the token exactly when there is one |
| UsersRepository.UsersRepository.LoadResetCode | app/repositories/handlers.go:70-149 | the reset code edge is there exactly when the query loads it and the user has a reset code |
| UsersRepository.UsersRepository.CreateUser | app/repositories/users_repository.go:435-519 | commits exactly when no statement but the dropped re-read fails, a code was drawn and every constraint holds; then all five rows are there, otherwise none; a failed re-read panics after the commit |
| UsersRepository.UsersRepository.ActivateAccount | app/repositories/users_repository.go:234-279 | commits exactly when no statement fails and the code is a visible user's; then the user's active column is set, no row holds the code any more, and nothing else changed |
| UsersRepository.UsersRepository.VerifyAccount | app/repositories/users_repository.go:281-326 | the same for verification; exactly a failed save panics inside the transaction, and exactly a failed re-read panics after the commit, without invalidation |
| UsersRepository.UsersRepository.FindOrCreateDevice | app/repositories/users_repository.go:894-951 | exactly when it succeeds and with which device, exactly when it panics because the user cannot be read back, and that the cache may be invalidated without a commit |
| UsersRepository.UsersRepository.CreateSecondFactorCode | app/repositories/users_repository.go:521-573 | commits exactly when no statement fails, a free code was drawn and the user has none; then the code is stored and the device points at it |
| UsersRepository.UsersRepository.RemoveSecondFactorCode | app/repositories/users_repository.go:661-695 | clears whatever row the user owns; commits exactly when no statement fails and the owner may be NULL or there is no such row |
| UsersRepository.UsersRepository.CreateResetCode | app/repositories/users_repository.go:575-620 | commits exactly when no statement fails, a code was drawn and the constraints hold |
| UsersRepository.UsersRepository.RemoveResetCode | app/repositories/users_repository.go:622-659 | commits exactly when the user was loaded with its reset code, the row is still there, the user is visible and no statement fails |
| UsersRepository.UsersRepository.UpdateUser | app/repositories/users_repository.go:725-783 | writes what differs, exactly when it is free; invalidates with the old mail; a failed re-read panics after that |
| UsersRepository.UsersRepository.UpdateUsersPassword | app/repositories/users_repository.go:697-723 | replaces the hash, or changes nothing |
| UsersRepository.UsersRepository.UpdateUsersSettings | app/repositories/users_repository.go:820-862 | replaces the two-factor setting, or changes nothing |
| UsersRepository.UsersRepository.RemoveAccount | app/repositories/users_repository.go:864-892 | marks the user removed exactly when no statement fails; exactly a failed save panics, inside the transaction |
| AuthService.AuthService.AlwaysConsistent | app/repositories/handlers.go:18-41 | the service's committed database is consistent at all times |
| AuthService.AuthService.FlagsKept | app/repositories/users_repository.go:246-297 | whoever was registered at some point of the service's run is still there, with every flag that was set |
| AuthService.AuthService.RemoveThenServe | app/services/users_service.go:101-107 | after a removal that was accepted, no sequence of calls, of any kind and with any failures, answers with a token for that user |
| AuthService.AuthService.Serve | app/services/auth_service.go:206-568 | every call extends the run, and an answer with a token is recorded as one |
| AuthService.AuthService.Register | app/services/auth_service.go:206-229 | commits exactly when no statement but the dropped re-read fails, a code was drawn and every constraint holds; otherwise nothing happened |
| AuthService.AuthService.ActivateAccount | app/services/auth_service.go:246-261 | accepted exactly when the code is a visible user's and no statement fails; otherwise nothing happened |
| AuthService.AuthService.CheckPassword | app/services/auth_service.go:342-357 | finds the one active visible user with the mail and the password |
| AuthService.AuthService.Login | app/services/auth_service.go:341-390 | the answer to a user whose password is right and whose device is there; no token or code without that; what a refusal can leave in the run |
| AuthService.AuthService.FinishLogin | app/services/auth_service.go:365-389 | exactly when a code is sent, exactly when a token is issued, and the event each answer leaves |
| AuthService.AuthService.VerifySecondFactor | app/services/auth_service.go:415-448 | a token exactly when a usable code is presented and lookup and signing succeed, whether or not its removal commits; a refusal changes nothing but may start the removal of an expired code |
| AuthService.AuthService.RunRemoval | app/services/auth_service.go:421-424 | a started removal, run after whatever else happened since, takes effect exactly when its transaction commits |
| AuthService.AuthService.VerifyAccount | app/services/auth_service.go:465-484 | a token exactly when the verification commits without panic and device and signing succeed; the run grows exactly when the verification commits |
| AuthService.AuthService.FinishVerification | app/services/auth_service.go:471-483 | exactly when the token is issued, and that the verification stays whatever happens |
| AuthService.AuthService.RequestPasswordReset | app/services/auth_service.go:486-503 | a reset code is stored exactly when the user is found, a code was drawn, the constraints hold and no statement fails; a failed notice does not take it back |
| AuthService.AuthService.ConfirmPasswordReset | app/services/auth_service.go:523-548 | exactly when the password is set, and that the call is refused all the same, because its lookup does not load the code that it then removes |
| AuthService.AuthService.SetPassword | app/services/auth_service.go:529-547 | with a loaded code the call succeeds exactly when password and removal commit; without one never |
| AuthService.AuthService.FinishReset | app/services/auth_service.go:511-520 | accepted exactly when the code was loaded, is stored and its removal commits |
| AuthService.AuthService.CancelPasswordReset | app/services/auth_service.go:505-521 | always refused, because a lookup by mail does not load the reset code |
| AuthService.AuthService.UpdateUser | app/services/users_service.go:52-83 | commits exactly when the new mail and phone are free and no needed statement fails; a failed notice does not take it back |
| AuthService.AuthService.UpdateSettings | app/services/users_service.go:93-99 | accepted exactly when the user is visible and no statement fails; otherwise nothing happened |
| AuthService.AuthService.RemoveAccount | app/services/users_service.go:101-107 | accepted exactly when the user is visible and no statement fails, a panic exactly when the save fails; otherwise nothing happened |
| AccountJourneys.RegisterActivateLogin | app/services/auth_service.go:206-390 | who registers is refused until the account is activated with the issued code, and then gets a token for the device of the registration |
| AccountJourneys.LoginThenSecondFactor | app/services/auth_service.go:341-448 | the code of a two-factor login gives a token, for the device of that login, exactly when it has not expired and lookup and signing succeed |
| AccountJourneys.SentCodeUsable | app/repositories/users_repository.go:551-556 | a code that was sent is usable from the device of its login exactly until it expires, and from no other one |
| AccountJourneys.SetTwoFactorThenLogin | app/services/auth_service.go:365-389 | after the settings were changed, a token only with two-factor off and a code only with it on |
| AccountJourneys.VerifyTwice | app/services/auth_service.go:465-484 | a verification that committed is refused from then on, and its user is verified |
| RateLimiter.RequestTracker.constructor | app/middlewares/limit_requests_middleware.go:30-40 | a limit of zero becomes 20; one minute window; empty history |
| RateLimiter.RequestTracker.Prune | app/middlewares/limit_requests_middleware.go:66-73 | the loop keeps exactly the stamps inside the window, in order |
| RateLimiter.RequestTracker.Limit | app/middlewares/limit_requests_middleware.go:61-91 | the new list of the address, the decision, and that no other address changes |
| RateLimiter.RequestTracker.Cleanup | app/middlewares/limit_requests_middleware.go:105-128 | prunes every list and forgets exactly the empty ones |
| RateLimiter.WindowLimit | app/middlewares/limit_requests_middleware.go:61-91 | with stamps that lag by at most d, every interval of length window - d admits at most the limit, over every interleaving |
| RateLimiter.WindowLimitExact | app/middlewares/limit_requests_middleware.go:61-91 | for every window, limit and lag d, the limit holds in the intervals of a length if and only if the length is at most window - d, or nothing is admitted at all |
| RateLimiter.StoredIsWindowOfArrivals | app/middlewares/limit_requests_middleware.go:66-81 | the stored list is the in-window part of all arrivals, refused ones included |
| RateLimiter.AdmissionIsWindowCount | app/middlewares/limit_requests_middleware.go:75-81 | a request is admitted exactly when the arrivals in its window, itself included, are within the limit |
| RateLimiter.SweepsChangeNoDecision | app/middlewares/limit_requests_middleware.go:105-128 | sweeps inserted anywhere change no decision |
| RateLimiter.SweepKeepsLiveAddresses | app/middlewares/limit_requests_middleware.go:113-124 | after a sweep exactly the addresses with an arrival in the window are left |
| Subscriptions.Consumer.RemoveIDs | app/utils/user_utils.go:31-46 | the two loops drop exactly the given ids and keep order and repetitions of the rest |
| Subscriptions.Consumer.AddSubscriptions | app/repositories/users_repository.go:1066-1103 | appends the ids not stored before |
| Subscriptions.MissingInOrder | app/repositories/users_repository.go:1071-1076 | the appended ids are those the list lacks, as often and in the order the request has them |
| Subscriptions.RemainingInOrder | app/utils/user_utils.go:37-43 | the ids left are those not removed, as often and in the order the list had them |
| Subscriptions.Consumer.RemoveSubscriptions | app/repositories/users_repository.go:1105-1130 | keeps the other ids of the user, and the other users |
| Subscriptions.Consumer.Handle | app/services/subscription_event_handler.go:35-66 | when it succeeds, its errors, which ids a user has afterwards, and that no other user and no foreign event changes anything |
| Subscriptions.Consumer.PollOnce | app/config/kafka.go:160-199 | the position moves by one, and the committed offset becomes that position exactly when the handler succeeds and the commit is accepted |
| Subscriptions.Consumer.PollThenRestart | app/config/kafka.go:177-186 | a restart right after an accepted commit redelivers nothing |
| Subscriptions.LastOperationWins | app/services/subscription_event_handler.go:41-66 | after one pass a user has exactly the ids whose last event adds them, or that no event names and were there |
| Subscriptions.EveryScheduleConverges | app/config/kafka.go:160-199 | for every log and schedule of polls, commits and crashes: back at the highest offset, each user's set is that of one pass |
| Subscriptions.RedeliveredList | app/repositories/users_repository.go:1066-1130 | handling a stretch again moves the ids that it removes behind all others and keeps the order otherwise |
| Subscriptions.OrderKeptIff | app/config/kafka.go:160-199 | redelivery keeps a user's list, order included, if and only if no id that the stretch removes stands in it before one that it does not remove |
| Subscriptions.RedeliverySettles | app/config/kafka.go:160-199 | a further redelivery changes nothing any more |
| Subscriptions.RedeliveryCanReorder | app/repositories/users_repository.go:1066-1130 | a log of three events whose redelivery changes the order |
| PasswordHash.PrintedHashParts | app/services/auth_service.go:284-287 | the printed hash splits into exactly six parts, for every salt and hash |
| PasswordHash.PrintedText | app/services/auth_service.go:284-287 | the printed string and the parameters of the derivation, spelled out |
| PasswordHash.ScanPrintedParams | app/services/auth_service.go:305-310 | scanning undoes printing for every parameter setting |
| PasswordHash.PrintedParamsAreUsed | app/services/auth_service.go:284-285 | the printed parameters are those the key was derived with |
| PasswordHash.CompareOwnHash | app/services/auth_service.go:263-339 | a stored hash accepts exactly the passwords that derive the same key, and is never refused for its format |
| PasswordHash.PrintHashInjective | app/services/auth_service.go:284-287 | equal strings come from equal salts and keys |
| Base64.DecodeEncode | app/services/auth_service.go:286-287 | decoding undoes encoding, padded and unpadded (sections 3.2 and 4 of RFC 4648) |
| Base64.NoDollar | app/services/auth_service.go:285-287 | the unpadded text has no separator in it |
| Base64.AlphabetIsStandard | app/services/auth_service.go:286-287 | the alphabet is that of section 4 of RFC 4648 |
| Base64.GroupIsBigEndian | app/services/auth_service.go:286-287 | a group's sextets are its 24 bits, most significant first |
| Base64.PaddingFills | app/infrastructure/cache_store.go:255-274 | padded text is the unpadded one filled up to groups of four |
| HashPool.RunInv | app/services/auth_service.go:77-86 | the protocol invariant holds in every reachable state |
| HashPool.PoolSafety | app/services/auth_service.go:264-296 | the queue stays within its capacity, a task runs at most once, and a caller gets its own result |
| HashPool.StepCostsOne | app/services/auth_service.go:264-296 | every step lowers the measure by one |
| HashPool.RunLength | app/services/auth_service.go:264-296 | a run of n callers has at most 4n steps |
| HashPool.NotStuck | app/services/auth_service.go:77-86 | with a worker, no reachable state with a waiting caller is stuck |
| HashPool.EveryCallReturns | app/services/auth_service.go:322-338 | a run that cannot go on has served every caller, each task once |
| HashPool.ProgressNeedsAWorker | app/services/auth_service.go:77-86 | the pool is stuck from the start if and only if it has no worker |
| Email.RegexIsScanner | app/utils/controller_utils.go:129-131 | the regular expression, read as a nondeterministic match, accepts exactly what the scanner accepts |
| Email.TwoPartsCheckNeverFires | app/utils/controller_utils.go:133-148 | a matched string splits into two parts at its only '@' |
| Email.CheckedByScanner | app/utils/controller_utils.go:124-148 | the whole check as a deterministic one |
| Email.AcceptedExactly | app/utils/controller_utils.go:124-148 | what is accepted, in plain characters: 1 to 64 letters, digits and ._%+-, an '@', letters, digits, hyphens and single dots, a dot, 2 to 63 letters, at most 254 in all |
| Email.AcceptedCharacters | app/utils/controller_utils.go:129 | what an accepted address is made of |
| Codes.CheckTokenFormat | app/utils/controller_utils.go:197-209 | accepts exactly six digits |
| Codes.DrawnCodesPass | app/utils/controller_utils.go:45-47 | every code that can be drawn has the checked format |
| Codes.DrawCode | app/repositories/users_repository.go:483-496 | the loop returns the first draw that the existence query does not report as taken |
| Codes.FirstUnreportedIsFirst | app/repositories/users_repository.go:532-549 | it ends at that draw and only there; the code is well formed, and free unless its own query failed |
| Codes.FreeDrawExists | app/repositories/users_repository.go:532-549 | while fewer than 900000 codes are stored, some draw ends the loop |
| CacheKeys.NoSharedKey | app/utils/user_utils.go:8-29 | users with different ids and mails share no key |
| CacheKeys.FamiliesInjective | app/utils/user_utils.go:8-29 | each key family is injective |
| CacheKeys.FamiliesDisjoint | app/utils/user_utils.go:8-29 | the three families are pairwise disjoint |
| CacheKeys.ReadKeyNeverWritten | app/repositories/users_repository.go:212-215 | the key read for an accepted mail is no written key of any user |
| CacheStore.CacheStore.Get | app/infrastructure/cache_store.go:75-104 | the unwrapped payload of a live entry, and the error otherwise |
| CacheStore.CacheStore.SetThenGetUser | app/repositories/users_repository.go:212-215 | a user cached under a key is read back up to what JSON leaves out, whatever is set and deleted under other keys in between, until it expires and not afterwards |
| CacheStore.CacheStore.Del | app/infrastructure/cache_store.go:137-146 | nothing is found under the key any more, and every other key gives what it gave |
| CacheStore.CacheStore.Set | app/infrastructure/cache_store.go:106-135 | a later read of the key gives the payload until the entry expires and nothing afterwards; every other key gives what it gave |
| CacheStore.UnmarshalMarshal | app/infrastructure/cache_store.go:106-135 | reading the envelope undoes writing it |
| CacheStore.UnwrapWrap | app/infrastructure/cache_store.go:255-307 | one unwrapping undoes one wrapping, for every payload and nonce |
| CacheStore.CachedUserRecovered | app/infrastructure/cache_store.go:198-253 | two unwrappings undo the two wrappings of a user, up to what JSON leaves out |
| Pagination.ClampsBehave | app/repositories/users_repository.go:1163-1168 | pages below 1 are page 1; sizes out of range behave as 20 |
| Pagination.PageIsSlice | app/repositories/users_repository.go:1163-1178 | a page in the numbers of the request: where it starts and how long it is, with sizes from 1 to 100 taken as they are |
| Pagination.PagesPartition | app/repositories/users_repository.go:1162-1179 | pages 1 to n concatenate to exactly the first n pages' worth of users |
| Pagination.PagesCoverAll | app/repositories/users_repository.go:1162-1179 | all pages give the whole list |
| Pagination.HugePageRepeatsFirst | app/repositories/users_repository.go:1170 | a page number for which the offset wraps |
| Pagination.PageCorrectIffOffsetFits | app/repositories/users_repository.go:1162-1179 | a page is the right slice of every list if and only if its offset fits 64 bits |
| EagerLoad.LoadOwner | app/models/ent/activationcode_query.go:412-443 | the asked ids, the error, and the owner of every node afterwards, for every answer of the query |
| EagerLoad.AskedExactly | app/models/ent/activationcode_query.go:413-424 | the asked ids are duplicate-free and exactly the keys present |
| EagerLoad.BatchedIsPerRow | app/models/ent/activationcode_query.go:412-443 | batched loading agrees with one lookup per row and raises no error |
| Retry.RetryMiddleware.Handle | app/middlewares/kafka_message_handler_middleware.go:64-88 | attempts at most maxRetries times, returns nil exactly when an attempt succeeded, and counts its waits |
| Retry.BackoffExactIff | app/middlewares/kafka_message_handler_middleware.go:64-88 | after k waits in total the backoff is initial * 2^k if and only if that fits 64 bits, and the waits took initial * (2^k - 1) if and only if the last one fits |
| Retry.WaitedAtMost | app/middlewares/kafka_message_handler_middleware.go:64-88 | the waits never take longer than unbounded doubling would |
| Retry.BackoffVanishes | app/middlewares/kafka_message_handler_middleware.go:64-88 | after 64 waits in total it is zero for good |
| Retry.ChainMiddleware | app/middlewares/kafka_message_handler_middleware.go:25-30 | the loop composes the middlewares, the first one outermost |
| Retry.ChainConcat | app/middlewares/kafka_message_handler_middleware.go:25-30 | chaining a list is chaining its front around its back |
| Retry.ChainOrder | app/middlewares/kafka_message_handler_middleware.go:25-30 | every middleware takes part exactly once, in the order of the list and before the handler |

## Left out

- HTTP routing, controllers, websockets, metrics, logging, configuration, key files and generated setters: plumbing.
- The clients of Redis, Postgres and Kafka: a map with expiry, tables with commit and rollback, and a log with a
  committed offset stand for them.
- Cryptography: key derivation, cipher and signatures are uninterpreted; Argon2's refusal of zero parameters is not
  modelled, since printed hashes never have them.
- Tokens: the issue of one is an event; what is in it and whether it validates is not modelled.
- The claims cache of the authentication middleware, which wraps once and unwraps twice.
- Interleaving of two account calls: a call is one event, so a reader that fills the cache between another call's
  commit and its invalidation is not modelled.
- A commit that fails without the client learning whether it took effect, and cache operations that fail.
- Timestamps other than the expiry of second factors; `expires_at` is a parameter because its default is computed
  once at start-up.
- Roles, entrepreneur details, locations, details, night mode, notification targets and role changes: writes to
  single tables that no property here depends on.
- The calls that send a code again: they change nothing or create a reset code as `RequestPasswordReset` does.
- Notice contents and delivery; only their failure is a parameter where an answer depends on it.
- Subscriptions: one partition, and handlers that fail only on invalid actions and unknown users; the loop skips
  a message whose handler failed and may commit past it.
- Decoding: JSON spellings other than the one that is written, non-ASCII bytes in mails, blanks other than space
  and tab in the scanned hash parameters.
- Checks of passwords, phones, IBAN and SWIFT numbers: easy and without effect on the rest.
- AccountHistory.SecondFactorOrigin: the database may move a device from one code to the next, which the object
  mapper may refuse; the model permits it, so what is proved holds either way.
- Codes.DrawCode: the draws are a finite list, and a call whose list runs out fails, where the source would go on
  drawing.
- AuthService.AuthService.RunRemoval: in the run, the event of a started removal may come without an expired code
  before it; what is proved of runs holds for these as well.
