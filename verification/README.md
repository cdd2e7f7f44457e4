# Verified model of the realm API backend

The repository is a Go web backend: HTTP and gRPC handlers over services that keep
their state in PostgreSQL, in memory and in file stores. This project models the
services whose correctness rests on state that changes over many calls, and proves
properties of every run of them. SQL statements are single atomic steps over tables
modelled as maps or sequences of rows with the constraints of the schema; time is an
integer clock; whatever the database, the file system or an upstream server decides
is a parameter of the call, and so is every failure.

| module | what it models |
|---|---|
| `RateLimiter` | sharded, swept and size-bounded token buckets, against one private bucket per key |
| `TokenService` | token verification behind a bounded cache with expiry, one call at a time |
| `TokenInterleaving` | the same calls taken apart into their steps, interleaved, with a command line tool that revokes behind the cache's back |
| `LikePattern`, `SqlBuilder`, `ListQueries`, `PatchQueries` | the builders of dynamic SQL, with the meaning of the clauses they build |
| `CommentThreads` | the builder of comment threads out of value copies |
| `RelationalStore` | comments, users and what refers to them, under the foreign keys |
| `Reactions` | toggling, counting and paging reactions |
| `UsernameSearch`, `OAuthIdentity`, `TwoFactor` | accounts, OAuth links, recovery codes |
| `UploadStream`, `Engines`, `FileStore`, `WebPCache` | the bytes of an upload, blobs against records, cached WebP versions |
| `LogStream`, `LastFM` | the polling log stream, and a typed cache with stale fallback |
| `Text`, `Sets`, `Wrappers` | string operations, sizes of sets, options and results |

`dafny verify dfyconfig.toml` checks all of it.

Objects whose methods update fields are classes here too, and loops are loops: each
method is proved against a specification function or relation, or against the
property itself, and the theorems about whole runs are lemmas about those functions.

## What the proofs say about the code

Most properties hold as the code and its documentation suggest. These do not, and the
lemmas named here say exactly when they do:

- A reply to a reply is counted in `TotalCount` but need not be shown: the total is the
  number of comments shown if and only if every reply to a reply stands before what it
  answers (`CommentThreads.TotalIsShownIff`); parents first, that is if and only if no
  reply answers a reply (`CommentThreads.TotalIsShownIffShallow`).
- A search box finds the texts that contain what was typed if and only if that has no
  `%`, `_` or backslash (`LikePattern.SearchMeansSubstring`).
- A user who unlinks the provider the account was registered with can still log in
  with it and is linked again, because the columns of the user row stay; any other
  unlinked pair no longer resolves (`OAuthIdentity.UnlinkedPairResolves`,
  `OAuthIdentity.SignupPairComesBack`).
- A login by address links the new pair unless the user has another account of that
  provider; then the login succeeds and the pair is not recorded
  (`OAuthIdentity.LoginSettlesPair`).
- A request is refused exactly when the bucket of its own limit is stored and has less
  than one token (`RateLimiter.GrantedIff`); under another limit it finds a full bucket
  (`RateLimiter.ChangedLimitAlwaysAllowed`). What a key can be granted at one instant is
  therefore bounded if and only if all its requests carry one positive limit; two limits
  in turn are granted any number (`RateLimiter.BoundedIffOneLimit`).
- For a key with one limit that is never forced out, refusals are exactly those the limit
  asks for: some window of the run up to the request is full
  (`RateLimiter.RefusedIffWindowFull`).
- After a Revoke has invalidated the cache the token can be accepted again if and only if
  some Verify holds the row and read it no longer ago than d, the time within which it
  writes the cache (`TokenInterleaving.RevokedComesBackIffHeld`). The bound on how long is
  proved and is reached (`TokenInterleaving.AcceptanceBound`,
  `TokenInterleaving.BoundIsReached`).
- Toggling a reaction twice restores the reactions if and only if the user had none,
  or that one (`Reactions.ToggleTwice`); a user with another one loses it.
- A stored file can be read if and only if the deployment running now has the engine it
  was uploaded to and the file is not orphaned (`FileStore.ReadableIffServed`): an S3
  deployment without a storage directory does not serve local files, nor does a local one
  S3 files, and a row write that took effect but reported an error makes the upload remove
  the blob of a record that exists (`FileStore.UntoldRowLosesItsBlob`).
- The WebP cache shows in an answer if and only if a save was left half done, its file
  could not be removed, and what it holds is not the conversion
  (`WebPCache.CacheIsTransparentIffWhole`, `WebPCache.PartialIsServed`).
- The log stream delivers all that a fetch could have seen if and only if no more than
  fifty matching rows are newer than the watermark; of more, some are never sent, and
  neither is a row that becomes visible with an older time stamp
  (`LogStream.FiftyAtMost`, `LogStream.SentIff`).
- The stream sends a log twice if and only if the first fetch and the first later fetch
  that works have a log in common that is stamped after the start
  (`LogStream.OnceInAllIff`); a row stamped ahead of this server's clock is repeated
  (`LogStream.StampedAheadIsRepeated`).
- A refused upload can leave a file: exactly when the file was written whole and only its
  `Stat` failed, or when a file that was begun could not be removed. Which of the two it
  comes to is a matter of the source, the limit and the room on the disk alone
  (`UploadStream.Store.Upload`, with `Sniffs`, `Copies` and `UploadLeavesFile` as the
  condition).

## Model

| member | source | states |
|---|---|---|
| RateLimiter.IdleEvictionUnobservable | internal/auth/limiter.go:57-128 | in every legal run, a key with a constant limit that is not the victim of a forced eviction gets answer for answer what one private, never evicted bucket gives |
| RateLimiter.Simulation | internal/auth/limiter.go:57-128 | the same from any two states that agree, and they still agree afterwards |
| RateLimiter.WindowBound | internal/auth/limiter.go:83-127 | any window of any run grants such a key at most limit + limit * T / 60 s requests |
| RateLimiter.RefusedIffWindowFull | internal/auth/limiter.go:57-128 | for a key of one limit that is not forced out, in any run: a request is refused if and only if some window that ends with it already holds so many grants that one more would exceed limit + limit * T / 60 s |
| RateLimiter.CreditIsLeastSlack | internal/auth/limiter.go:107-127 | the credit of the private bucket is, over all windows that end now, the least that is left of limit + limit * T / 60 s after the grants in it |
| RateLimiter.RemainingCounts | internal/auth/limiter.go:112-127 | the remaining count of a reply is how many of any further requests at the same instant will be granted; the reset is one minute later, in whole seconds |
| RateLimiter.CreditRun | internal/auth/limiter.go:83-127 | grants are covered by the credit there was and the credit refilled |
| RateLimiter.ReachableValid | internal/auth/limiter.go:49-54 | in every reachable table a key is only in the shard its hash names, and no shard has more than 2048 entries |
| RateLimiter.ChangedLimitAlwaysAllowed | internal/auth/limiter.go:66-125 | a request under another limit than the stored one is granted from a full bucket |
| RateLimiter.GrantedIff | internal/auth/limiter.go:66-127 | a request is granted exactly unless its own limit's bucket is stored with less than one token |
| RateLimiter.AlternatingAllGranted | internal/auth/limiter.go:66-127 | in a shard that holds no other key, any number of requests at one instant, under two positive limits in turn or none, is a legal run and is granted whole |
| RateLimiter.BoundedIffOneLimit | internal/auth/limiter.go:57-128 | what a key not forced out can be granted at one instant, over all runs, is bounded if and only if all its requests carry one positive limit |
| RateLimiter.FullAfterMinute | internal/auth/limiter.go:12-16 | a bucket untouched for 60 s is full, well before it can be evicted |
| RateLimiter.FullIsFresh | internal/auth/limiter.go:107-127 | a full bucket answers and changes like a new one |
| RateLimiter.MakeRoomFits | internal/auth/limiter.go:90-105 | sweeping, and one forced eviction if that was not enough, leaves room; of a full table exactly the entries neither idle nor the victim stay, unchanged |
| RateLimiter.NextValid | internal/auth/limiter.go:57-128 | every step keeps shard membership, the size bound and well-formed buckets |
| RateLimiter.TokenRateLimiter.constructor | internal/auth/limiter.go:34-47 | starts with 32 empty shards |
| RateLimiter.TokenRateLimiter.SweepShard | internal/auth/limiter.go:157-165 | the deletion loop removes exactly the entries idle since before the threshold |
| RateLimiter.TokenRateLimiter.Cleanup | internal/auth/limiter.go:153-166 | one pass does that to every shard and keeps the table valid |
| RateLimiter.TokenRateLimiter.Allow | internal/auth/limiter.go:57-128 | the in-place table takes the step of the specification, with a legal victim, and returns its answer |
| TokenService.CacheTransparent | internal/service/token.go:128-191 | in every reachable state Verify gives the verdict of a Verify without cache, or the database error when the database is down |
| TokenService.VerifyOutcome | internal/service/token.go:128-191 | in every reachable state, in the columns of the row as the table has it now: accepted exactly if the trimmed text has the prefix, its hash is in the table, the row is not revoked and has not expired; revoked, expired and invalid tokens are told apart; an accepted token deserves it even with the database down |
| TokenService.UseIsRecorded | internal/service/token.go:172-188 | an accepted token that was not cached comes back with a last use of now, or of at most five minutes ago |
| TokenService.RevokeIsFinal | internal/service/token.go:220-234 | after a successful Revoke no later Verify of any run accepts a token with that id |
| TokenService.CacheBounded | internal/auth/cache.go:59-83 | no run takes the cache over 10,000 entries |
| TokenService.NextCoherent | internal/service/token.go:128-234 | every step keeps each cached token a live, unrevoked row with the columns the table has now |
| TokenService.StoredFits | internal/auth/cache.go:63-81 | Set keeps the bound whichever key it evicts |
| TokenService.TokenCache.constructor | internal/auth/cache.go:27-41 | starts empty, with five minutes when the given time to live is not positive |
| TokenService.TokenCache.Get | internal/auth/cache.go:43-57 | an entry is served up to and including its expiry instant |
| TokenService.TokenCache.DropExpired | internal/auth/cache.go:126-136 | the deletion loop keeps exactly the unexpired entries |
| TokenService.TokenCache.Set | internal/auth/cache.go:59-83 | stores the entry; a full cache loses its expired entries, and one more only if it is still full |
| TokenService.TokenCache.InvalidateByID | internal/auth/cache.go:92-101 | removes exactly the entries of that token id |
| TokenService.Service.Verify | internal/service/token.go:128-191 | verdict and new cache are those of the specification, including both cache writes of a stale last use |
| TokenService.Service.Revoke | internal/service/token.go:220-234 | succeeds exactly if the database is up and knows the id; then the row is revoked and the cache has no entry of it |
| TokenInterleaving.AcceptanceBound | internal/service/token.go:128-191 | in every interleaving a token accepted at t is a row that was unrevoked at some instant no earlier than t - ttl - d, where d bounds the time from a database read to the cache write |
| TokenInterleaving.AcceptedIsUnexpired | internal/service/token.go:128-191 | in every interleaving no token is accepted more than d after its row expired |
| TokenInterleaving.BoundIsReached | internal/service/token.go:220-234 | some run, with Revoke complete at 0, accepts the token at exactly d + ttl |
| TokenInterleaving.QuietRevokeIsFinal | internal/service/token.go:220-234 | if, when Revoke has invalidated, no Verify holds the row that can still write in time, the token is never accepted again in any continuation |
| TokenInterleaving.RevokedComesBackIffHeld | internal/service/token.go:220-234 | after the invalidation some continuation accepts the token if and only if some Verify holds the row, read no longer ago than d |
| TokenInterleaving.HeldComesBack | internal/service/token.go:160-190 | a Verify that holds the row in time accepts with its own cache writes, whoever revoked meanwhile |
| TokenInterleaving.ApplyInv | cmd/token/main.go:46-47 | every step, the cache-less revocations of the command line included, keeps entries and held snapshots within the bound |
| TokenInterleaving.GoneForever | internal/service/token.go:128-191 | a revoked row that is not cached, and held at most too late, stays that way |
| LikePattern.SearchMeansSubstring | internal/repository/post.go:54-58 | searching for x finds exactly the texts containing x, ignoring case, if and only if x has no special character |
| LikePattern.PlainSearch | internal/repository/log.go:69-73 | for a plain x, LIKE on the wrapped pattern is containment |
| LikePattern.LeadingPercent | internal/repository/paste.go:168-172 | a leading % lets the rest of the pattern start anywhere, and nothing else |
| LikePattern.WitnessMatches | internal/repository/paste.go:168-172 | for any pattern, a text it matches, built from the pattern |
| SqlBuilder.Append | internal/repository/post.go:40-58 | a clause on the next placeholder, appended with its argument, adds its condition and changes no other |
| SqlBuilder.BoundMeansInRange | internal/repository/post.go:40-58 | a clause can be evaluated exactly if all its placeholders are in 1..len(args) |
| SqlBuilder.Finish | internal/repository/post.go:60-83 | with LIMIT and OFFSET numbered last the query pages, and its filters still mean what they meant |
| SqlBuilder.PageMatchesCount | internal/repository/post.go:65-83 | the page query, with its longer argument list, ranges over exactly the rows counted |
| SqlBuilder.AppendSet | internal/repository/post.go:166-218 | an assignment from the next placeholder changes that column and no other |
| ListQueries.ListPosts | internal/repository/post.go:32-110 | for every combination of filters a row is found if and only if it meets all the supplied ones; LIMIT and OFFSET bind the clamped values |
| ListQueries.GetLogs | internal/repository/log.go:48-115 | the same for level, search and trace id, with the limit clamped to 200 |
| ListQueries.ListPastes | internal/repository/paste.go:137-191 | the same for pastes, which must be unexpired and not to be burnt |
| ListQueries.ListAllComments | internal/repository/comment.go:232-282 | the same for the comment list |
| ListQueries.ListFiles | internal/repository/storage.go:121-160 | the same for files, a missing backend counting as local |
| ListQueries.ListUsers | internal/repository/user.go:491-534 | the same for users, searched case-insensitively, by provider or by linked account |
| ListQueries.WantedOverAccounts | internal/repository/user.go:512-516 | over users and their accounts, the provider filter asks for the own provider or an account of that provider belonging to the user |
| PatchQueries.UpdatePost | internal/repository/post.go:165-251 | no statement exactly if no field was supplied; otherwise, run on any table, it gives the row of that slug each supplied field in its own column, a new reading time with a new content, and the stamp, and leaves every other column and row as it was |
| PatchQueries.PostFieldsChange | internal/repository/post.go:166-218 | column by column, what a post row is after the update |
| PatchQueries.ReadingTimeReads | internal/repository/post.go:189-196 | the reading time is the fewest whole minutes, and at least one, that hold the words at 120 a minute |
| PatchQueries.WordsAdd | internal/repository/post.go:190-191 | words on either side of a space count separately |
| PatchQueries.OneWord | internal/repository/post.go:190-191 | a text without spaces is one word |
| PatchQueries.PostSets | internal/repository/post.go:166-218 | the SET list assigns exactly the supplied fields, the reading time with the content |
| PatchQueries.UpdateUser | internal/repository/user.go:608-691 | an unknown user is refused first, then taken names and addresses, then the deactivation of a superadmin; otherwise, run on any table, the row of that id gets the supplied fields, trimmed, address and name in lower case, and the stamp, and nothing else changes |
| PatchQueries.UserFieldsChange | internal/repository/user.go:654-682 | column by column, what a user row is after the update |
| PatchQueries.CheckUser | internal/repository/user.go:614-648 | refuses exactly a name or address another user has, or the deactivation of a superadmin |
| PatchQueries.PatchApplied | internal/repository/post.go:226-239 | run on a table, the statement gives the keyed rows the patch and leaves every other column and row as it was |
| PatchQueries.BuildsDistinct | internal/repository/post.go:170-220 | no SET list assigns a column twice, which PostgreSQL would refuse |
| PatchQueries.Supply | internal/repository/post.go:170-174 | clause, argument and counter move together: the next number is always one past the arguments |
| CommentThreads.BuildThreads | internal/repository/comment.go:81-116 | the total is the number of rows; the output is the rows without a listed parent, in the order of the rows, each with copies of exactly its direct replies in theirs, and each copy with what had come before it of its own replies, and so on down |
| CommentThreads.AttachedAreCopies | internal/repository/comment.go:87-99 | what is attached to a row, at whatever depth, is the rows that answer it and come before the copy was taken, in order |
| CommentThreads.HandOut | internal/repository/comment.go:87-99 | after the second pass each row carries the copies of its replies, in order, as they were when copied |
| CommentThreads.RefreshRoots | internal/repository/comment.go:101-106 | the last pass gives every root its full reply list |
| CommentThreads.ThreadsAreTwoLevels | internal/repository/comment.go:81-116 | parents first, the roots come in order, each with exactly its direct replies in order, which carry none |
| CommentThreads.AttachedAreDirect | internal/repository/comment.go:87-99 | parents first, a reply is copied before anything can be attached to it |
| CommentThreads.TotalIsShownIff | internal/repository/comment.go:81-116 | in any order of the rows the total is the number of comments shown if and only if every reply to a reply stands before what it answers |
| CommentThreads.NodesAreShown | internal/repository/comment.go:87-106 | the nodes of the output, at whatever depth, are the rows reachable through copies taken in time, once each |
| CommentThreads.TotalIsShownIffShallow | internal/repository/comment.go:81-116 | parents first, the total is the number of comments shown if and only if no reply answers a reply |
| RelationalStore.ReferencesLive | internal/database/database.go:135-210 | after any run every user_id, owner and created_by names a live user, and every parent is a live comment on the same post that is not newer |
| RelationalStore.ThreadsAcyclic | internal/service/comment.go:79-97 | after any run no comment is its own ancestor |
| RelationalStore.DeleteUserRemovesLeast | internal/repository/user.go:589-606 | deleting a user removes exactly the least set of comments closed under authorship and replies; reactions and links of others keep their values, admins forget who made them, pastes lose only their owner |
| RelationalStore.DeleteCommentRemovesLeast | internal/repository/comment.go:205-215 | deleting a comment removes exactly the least set closed under replies, and nothing else changes |
| RelationalStore.CascadeIsLeast | internal/database/database.go:167-179 | ON DELETE CASCADE removes the least reply-closed set |
| RelationalStore.NextKeepsInv | internal/database/database.go:135-210 | every operation keeps every reference live |
| RelationalStore.Store.CreateComment | internal/service/comment.go:60-98 | each error exactly when the earlier checks pass and its own fails, and then nothing changes; otherwise the trimmed comment is inserted |
| RelationalStore.CommentAccepted | internal/service/comment.go:60-98 | in any reachable state a comment is taken exactly if trimmed slug and text are there, the text is not too long, the author lives and a parent is a live comment on the same post; it is stored as sent and nothing else changes |
| RelationalStore.Store.DeleteComments | internal/database/database.go:167-179 | generation by generation, the loop removes the cascade |
| RelationalStore.Store.DeleteComment | internal/repository/comment.go:205-215 | succeeds exactly for the author of an existing comment, and then removes the least set closed under replies; a refusal changes nothing |
| RelationalStore.Store.AdminDelete | internal/repository/comment.go:318-328 | succeeds exactly for an existing comment, and then removes the least set closed under replies; a refusal changes nothing |
| RelationalStore.Store.DeleteUser | internal/repository/user.go:589-606 | superadmins and unknown users are refused, with their own errors and without a change; everybody else is deleted, and never fails on the foreign key of created_by |
| RelationalStore.Store.ClearCreator | internal/repository/user.go:596-596 | clears created_by where it names the user; nothing changes for an unknown user |
| Reactions.HistoryDecides | internal/repository/reaction.go:83-149 | after any run of toggles and deletes a user has at most one reaction to a post, the one the user's own history gives |
| Reactions.ToggleEffect | internal/repository/reaction.go:83-149 | a toggle changes the named user's reaction to the named post, as its answer says, and no other |
| Reactions.ToggleTwice | internal/repository/reaction.go:83-149 | twice restores everyone's reactions exactly if the user had none or that one |
| Reactions.ToggleTwiceFromNone | internal/repository/reaction.go:83-149 | from none, twice restores the very table |
| Reactions.ClearEffect | internal/repository/reaction.go:235-253 | a delete removes the reactions to that post, of the one user or of all, and no others |
| Reactions.TotalIsReactors | internal/repository/reaction.go:27-81 | the number of rows of a post is the number of users who reacted to it |
| Reactions.PagesConcatenate | internal/repository/reaction.go:183-232 | consecutive pages, concatenated, list every slug the search finds once, in order, with its full counts |
| Reactions.FilledIsCounts | internal/repository/reaction.go:183-201 | the map filled from grouped rows has the true count of every kind |
| Reactions.Repository.constructor | internal/repository/reaction.go:23-25 | starts without reactions |
| Reactions.Repository.ToggleReaction | internal/repository/reaction.go:83-149 | the transaction is a toggle and keeps the unique index; the answer has the true new counts and the user's reaction, which is there exactly if the toggle was active |
| Reactions.Repository.DeleteReaction | internal/repository/reaction.go:235-253 | removes one user's reaction to a post, or all reactions to it |
| Reactions.Repository.GetReactionsBySlug | internal/repository/reaction.go:27-81 | the per-kind counts are true, unused kinds are zero, they sum to the number of rows, and a user who asks gets that user's own reaction |
| Reactions.GetSummaries | internal/repository/reaction.go:151-233 | from grouped rows in any order within a slug, entry i of the page is the slug the search finds that has offset + i others before it, with its true counts; the page is full, 20 entries if the caller does not say and at most 100, unless the found slugs run out |
| Reactions.PageIsListed | internal/repository/reaction.go:203-232 | a page cut out of the ordered slugs is that page by rank |
| Reactions.SameSummaries | internal/repository/reaction.go:162-175 | a search on the slug leaves the counts of what it finds whole |
| UsernameSearch.ChooseUsername | internal/service/auth.go:304-324 | at most 50 lookups; the first free name of the original and base_1..base_49, twenty characters of the original at most before the underscore, else the random name; always a valid username, and never a taken one but the random one |
| UsernameSearch.CandidateValid | internal/service/auth.go:304-317 | every candidate fits the 3-30 character pattern |
| TwoFactor.ReachableOk | internal/service/auth.go:596-703 | in every reachable state enabled users have a secret and only enabled users have recovery codes |
| TwoFactor.AtMostEightRecoveryLogins | internal/service/auth.go:705-761 | from any point of any run, at most eight recovery logins succeed until the user enrols again |
| TwoFactor.LoginsAreSpent | internal/repository/user.go:462-489 | recovery logins and codes left never exceed the codes there were |
| TwoFactor.GeneratedIsNormal | internal/repository/user.go:469-478 | a generated code is already in the form codes are compared in |
| TwoFactor.GenerateRecoveryCodes | internal/service/auth.go:577-594 | the nested loops spell one XXXX-XXXX code from each eight random bytes |
| TwoFactor.SpelledApart | internal/service/auth.go:577-594 | two codes are the same exactly if their bytes agree in the five bits each that are used |
| TwoFactor.EnrolledStay | internal/service/auth.go:189-202 | in any run without disabling or deletion an enrolled user stays enrolled, with a secret to meet the challenge |
| TwoFactor.Service.Login | internal/service/auth.go:155-215 | succeeds exactly for an active account with a matching password, and is a mere challenge exactly if two-factor is enabled |
| TwoFactor.Service.SetPassword | internal/service/auth.go:437-471 | succeeds exactly for a new password of 8 to 72 bytes and, if there is a password, the current one |
| TwoFactor.Service.Setup2FA | internal/service/auth.go:596-634 | stores the new secret of an existing user and changes nothing else |
| TwoFactor.Service.Enable2FA | internal/service/auth.go:636-669 | enables, with eight well-formed codes, exactly if the code fits the secret in force |
| TwoFactor.Service.Disable2FA | internal/service/auth.go:671-703 | disables exactly on a fitting code or the password |
| TwoFactor.Service.ConsumeRecoveryCode | internal/repository/user.go:462-489 | removes exactly the first matching code, the others staying in order |
| TwoFactor.Service.Verify2FA | internal/service/auth.go:705-761 | a session for a TOTP code exactly if the token is a challenge for a user with two-factor enabled, the trimmed code has six characters and the TOTP check accepts it; for the recovery code i exactly if that fails and i is the first stored code equal to the typed one in normal form, and then that code is gone and the others stay; refusals change nothing |
| TwoFactor.MatchIsFirst | internal/repository/user.go:469-480 | the code found is the first of the stored ones that is equal in normal form |
| OAuthIdentity.EveryUserCanLogIn | internal/repository/user.go:398-428 | in every reachable state every user has a password or a linked account |
| OAuthIdentity.LoginReachesOwner | internal/service/auth.go:217-373 | until the owner unlinks it or is deleted, a login with a recorded pair is the owner's, or a refusal because the owner is deactivated |
| OAuthIdentity.LoginIsDecided | internal/service/auth.go:217-373 | that outcome, for every state that keeps the invariant |
| OAuthIdentity.OwnerStaysInRun | internal/repository/user.go:357-396 | no other operation moves or drops a recorded pair |
| OAuthIdentity.LoginSettlesPair | internal/service/auth.go:217-373 | a successful login is of an active user, new only if nobody matched, to whom the pair then resolves exactly if it did already or the user had no other account of the provider |
| OAuthIdentity.UnlinkedPairResolves | internal/repository/user.go:233-294 | an unlinked pair resolves to a user if and only if that user signed up with it |
| OAuthIdentity.SignupPairComesBack | internal/service/auth.go:231-260 | unlinking the registration's own pair is undone by the next login with it |
| OAuthIdentity.NextKeepsInv | internal/repository/user.go:53-97 | every operation keeps links owned, pairs and addresses unique, and every user able to log in |
| OAuthIdentity.Service.LinkOAuthAccount | internal/repository/user.go:357-396 | which error a link meets, and that a repeated link changes nothing |
| OAuthIdentity.Service.UnlinkOAuthAccount | internal/repository/user.go:398-428 | refuses the last way to log in; otherwise removes exactly that provider's link |
| OAuthIdentity.Service.CreateUser | internal/repository/user.go:53-97 | succeeds exactly if address and name are free, and links an OAuth registration |
| OAuthIdentity.Service.GetByOAuthAccount | internal/repository/user.go:233-294 | the linked owner, else the user registered with the pair |
| OAuthIdentity.Service.HandleOAuthLogin | internal/service/auth.go:217-373 | in the columns of users and links: an unverified address is refused; else the owner of the pair, else the user with that address, logs in unless deactivated; else a new account is made exactly if the name is free; a refusal changes nothing |
| UploadStream.Store.Upload | internal/service/storage.go:80-194 | an accepted upload is the whole source and within the limit, in blob, sizes and hash; whether it is accepted, and whether a refused one leaves a file, is said exactly from the source, the limit and the faults; a refused one leaves no record; without faults exactly the sources over maxMB * 2^20 bytes are refused, as too large and without a trace |
| UploadStream.Store.Keep | internal/service/storage.go:119-184 | after a save: the row is written exactly if the size is within the limit and the insert works; otherwise the file is removed, if that works |
| UploadStream.Store.UploadThenOpen | internal/storage/storage.go:106-128 | opened again, an accepted upload is the source byte for byte, and of a refused one there is something to open exactly if a file was left |
| UploadStream.Store.Save | internal/storage/storage.go:70-104 | what is stored, counted and hashed is what the reader gave; success, and what a failure leaves, follow exactly from how the reader ends, the room on the disk and the faults |
| UploadStream.Copy | internal/storage/storage.go:79-104 | succeeds exactly if what is let through fits and ends without an error, and then all of it, and nothing else, has reached the compressor, the counter and the hash |
| UploadStream.ReadFull | internal/service/storage.go:83-88 | the sniffed head and the rest of the source are the source, whatever portions it reads in; fails exactly if the source fails before the head is full |
| UploadStream.CountingReader.Read | internal/storage/storage.go:195-208 | counts and hashes exactly the bytes passed on |
| UploadStream.LimitedReader.Read | internal/service/storage.go:106-111 | never passes on more than the limit, and what it passes on it takes off the source |
| UploadStream.MultiReader.Read | internal/service/storage.go:108-108 | the head first, then the source, nothing lost between |
| FileStore.ReadableIffServed | internal/service/storage.go:73-194 | at every step boundary of every interleaving, whatever failed, a file on record reads back through the engine resolveEngine picks if and only if the running deployment has the engine it was uploaded to and the file is not orphaned |
| FileStore.ToldMeansReadable | internal/service/storage.go:73-194 | in runs in which a row write that reports an error had no effect, nothing is orphaned: readable if and only if served |
| FileStore.UntoldRowLosesItsBlob | internal/service/storage.go:179-184 | a row write that took effect and reported an error leaves a record whose blob the clean-up removes |
| FileStore.MoveToS3KeepsFiles | internal/service/storage.go:55-78 | through any restarts that keep the engine or move to S3 with the local directory kept, a file on record stays readable exactly unless orphaned |
| FileStore.NothingLeftOver | internal/service/storage.go:113-184 | unless a removal fails, a failed save leaves a file or a restart interrupts, the blobs at rest are exactly those of the records not orphaned |
| FileStore.ApplyInv | internal/service/storage.go:300-313 | every step keeps each record's blob, each blob at home, and writers and removers of one file apart |
| FileStore.LetsGo | internal/service/storage.go:113-184 | an operation gives up a blob only once it has a record or is removed |
| WebPCache.CacheIsTransparent | internal/service/storage.go:222-285 | after any run in which no save is left half done, an answer has the record and bytes that converting the stored original gives, and without failures the errors agree too |
| WebPCache.CacheIsTransparentIffWhole | internal/service/storage.go:222-285 | after any run, with any failures, the answers are those of a server without the cache if and only if no bytes of an unfinished save are in the way |
| WebPCache.PartialIsServed | internal/storage/storage.go:143-152 | bytes an unfinished save leaves behind are what undisturbed reads serve from then on |
| WebPCache.OnlyConversionsAreCached | internal/service/storage.go:261-277 | nothing is cached for a file that is no image, already WebP, or does not convert; what is cached is the conversion, or what an unfinished save left |
| WebPCache.SecondReadNeedsNoOriginal | internal/service/storage.go:245-252 | once converted, and unless left unfinished, the answer no longer needs the original |
| WebPCache.SameUntilDeleted | internal/service/storage.go:222-285 | any two answers for a file, at any two moments of a run without its deletion at which no unfinished save is in the way, have the same bytes, type and filename |
| WebPCache.OpKeepsInv | internal/service/storage.go:437-472 | every operation, background jobs and redeployments included, keeps each WebP file the conversion of the original beside it, or what an unfinished save left of it |
| WebPCache.StorageService.GetAsWebP | internal/service/storage.go:222-285 | each refusal exactly when its reason is there; an answer has the original record and bytes of a WebP image, and of another the conversion (or what an unfinished save left), under type image/webp and the old name with its extension replaced; exactly the answer of a server without the cache unless an unfinished save is in the way |
| WebPCache.ReplyOutcome | internal/service/storage.go:222-285 | that outcome, for every state that keeps the invariant, in the columns of the record and the stored bytes |
| WebPCache.ExtIsExtension | internal/service/storage.go:249-250 | the extension cut off a name is empty, or begins at the last dot of the last path element |
| WebPCache.DeletedIsNotFound | internal/service/storage.go:300-313 | a file is found until its row is deleted; after that, in any continuation and whatever the deletion left behind, it is not |
| WebPCache.StorageService.ProcessAsync | internal/service/storage.go:437-472 | fills in missing image data, of an image whose blob is there, with what the inspector makes of it, changes no other record, and pre-generates the WebP file, keeping the invariant |
| WebPCache.StorageService.Upload | internal/service/storage.go:113-184 | as one step: a record with name, type and blob in the main engine exactly on success; nothing of any other file changes |
| WebPCache.StorageService.Delete | internal/service/storage.go:300-313 | the record goes first; WebP file and blob go from the engine the record resolved to, or the main one if it could not be looked up, unless their removal fails; nothing else changes |
| LogStream.InOrderOnce | internal/grpc/server/log.go:133-163 | the polls send in non-decreasing order of time, no log twice, none as old as the start |
| LogStream.OnceInAllIff | internal/grpc/server/log.go:122-163 | the whole stream sends no log twice if and only if the first fetch and the first later one that works have no log in common stamped after the start |
| LogStream.SentAgainIff | internal/grpc/server/log.go:122-161 | a log that the first working poll could see, or that is gone for good, is ever polled if and only if that poll fetches it and it is stamped after the start |
| LogStream.StampedAheadIsRepeated | internal/grpc/server/log.go:122-161 | a row stamped after the start is sent by the first fetch and again by the poll |
| LogStream.ExactlyOnce | internal/grpc/server/log.go:133-163 | if at most fifty rows appear between successful fetches, all stamped after the watermark, the logs sent are exactly the rows that appeared, each once |
| LogStream.FiftyAtMost | internal/repository/log.go:87-95 | all rows newer than the watermark at a fetch are ever sent if and only if there are at most fifty |
| LogStream.SentIff | internal/grpc/server/log.go:144-161 | a row a fetch could see is ever sent if and only if it had been, or is newer than the watermark and among the fifty |
| LogStream.NeverAfter | internal/grpc/server/log.go:157-159 | what is no newer than the watermark has been sent or never will be |
| LogStream.StreamLogs | internal/grpc/server/log.go:114-164 | the stream carries the first fetch, its last log first, and then the batches of the polls, or a proper prefix if a send fails |
| LogStream.Newer | internal/grpc/server/log.go:145-150 | the filter loop keeps exactly the logs after the watermark, in order |
| LogStream.Stream.SendInitial | internal/grpc/server/log.go:122-131 | the first fetch goes out oldest first |
| LogStream.FromTheEnd | internal/grpc/server/log.go:122-131 | going through a fetch from its end sends log |s| - 1 - k as the k-th |
| LogStream.Stream.SendNew | internal/grpc/server/log.go:152-161 | the batch goes out oldest first and the watermark ends at its newest |
| LastFM.StaleRatherThanError | internal/service/lastfm.go:77-153 | over any run, a request answered once is never refused again: it gets a new answer from upstream or the last one it was given |
| LastFM.FreshMeansYoung | internal/service/lastfm.go:85-90 | the breaker is left alone exactly while the last answer from upstream is younger than 30 seconds for tracks, 600 for users |
| LastFM.OwnCallsDecide | internal/service/lastfm.go:77-229 | only a request's own calls decide what the shared map holds for it |
| LastFM.RepliesAreOwn | internal/service/lastfm.go:77-229 | so its reply is the same as if no other request had ever been made |
| LastFM.CacheIsLastAnswer | internal/service/lastfm.go:132-152 | the map holds, for each request, the last answer given |
| LastFM.KeyInjective | internal/service/lastfm.go:82-82 | no two requests share a key, whatever the usernames and limits |
| LastFM.Service.Get | internal/service/lastfm.go:161-168 | a look into the shared map finds the request's own entry, of the request's type |
| LastFM.Service.Put | internal/service/lastfm.go:221-226 | storing an answer changes no other request's entry |
| LastFM.Service.Ask | internal/service/lastfm.go:92-150 | a new answer is stored, a failure falls back on what there is |
| LastFM.Service.GetRecentTracks | internal/service/lastfm.go:77-153 | no type assertion fails, and the reply is that of a client with a cache per request: the breaker is asked unless an unexpired answer is there, its answer is returned and kept for 30 seconds, and on its failure the old answer, however old, is returned, or the failure if there is none |
| LastFM.Service.GetUserInfo | internal/service/lastfm.go:155-229 | the same for user information, kept for 600 seconds |
| Text.ItoaInjective | internal/service/lastfm.go:82-82 | different limits print differently |

## Left out

- Handlers, router, middleware wiring, generated protobuf code, configuration and scripts: no state of their own.
- PASETO, bcrypt, SHA-256, zstd, WebP, blurhash and TOTP: parameters of the model, with the inverse law of the compressor where it is needed.
- The S3 client, presigned URLs and bucket creation.
- The circuit breaker's inner states: it is a call that may fail without reaching the upstream.
- Floating point in the bucket arithmetic, which is exact here, and the separate clock readings inside one call: a call has one clock, except where it stores later than it looks up (Last.fm) or is taken apart (`TokenInterleaving`).
- Memory-level races in Go and concurrent calls of the identity, two-factor, WebP and Last.fm code: those invariants are proved for calls one at a time, and read-then-write sequences there are not transactions.
- Case folding and trimming beyond ASCII letters and the Unicode spaces listed in `Text`.
- Statements that take effect and still report an error, other than the insert of a file row in `FileStore`.
- Database errors inside the identity and comment calls; in the token, file and log components they are parameters.
- Creation details of tokens (prefix, scopes, expiry parsing), `HasScope`, `List` and the reading of tokens by id: they only compute or read.
- Paste creation with its retry loop, burn-after-read, encryption, analytics, CPU sampling, user agents and slug generation.
- Content type detection and neutralisation of uploads: the chosen type is a parameter.
- Registration and profile checks on names, addresses and passwords: `OAuthIdentity` takes their outcome as the row that is created or changed.
- RelationalStore.ReferencesLive: says a parent is not newer than its reply rather than older, because nothing keeps two comments from having one time stamp; acyclicity is proved separately.
- CommentThreads.ThreadsAreTwoLevels: requires parents first, which ordering by creation time gives except between comments of one time stamp; `BuildThreads` and `TotalIsShownIff` are proved for any order.
- LogStream.OnceInAllIff: takes for granted that a log row deleted before a fetch does not come back; ids are never reused.
- LogStream.StreamLogs: the stream ends with the list of polls, standing for the cancelled context; ORDER BY with LIMIT is the relation `IsWindow`, with ties in any order.
- UploadStream.Store.Delete: leaves out the WebP file beside the blob, which a new upload does not have; `WebPCache` has both.
- LastFM.Service.Ask: the part both getters repeat after a cache miss is one method here.
- FileStore.NothingLeftOver: for one deployment; files stranded by a deployment without their engine are the subject of `ReadableIffServed`.
