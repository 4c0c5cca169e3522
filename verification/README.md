# Twitter-clone back end: a verified model of its core logic

The system is four Go microservices behind a Twitter-like front end:

- **auth** keeps credentials (username, bcrypt hash, salt, role, status, verification code). It logs users in, verifies e-mail codes, changes and recovers passwords, and runs the registration saga. The saga creates the credential, then the profile, then the graph node, and calls the cancel endpoints when a later step fails. Its validators check sign-up, change-password and recovery requests.
- **profile** keeps profile documents. It creates them as private, toggles the private flag, projects them to `{Id, Name, Username}`, looks them up in batches and deletes them. It has its own, simpler validators.
- **graph** keeps a Neo4j graph of entities with `FOLLOW` and `FOLLOW_REQUEST` relationships. It follows, requests, accepts, declines, unfollows and detach-deletes. It also answers neighbourhood queries and the two-hop recommendation query.
- **tweet** assembles a feed. For each (followed user, tweet) pair it makes a masked or plain copy, then removes duplicates by Id, last occurrence winning. It also toggles likes on a tweet.

The project models these pieces as Dafny modules:

| file | module | models |
|---|---|---|
| `wrappers.dfy` | `Wrappers` | `Option` |
| `search.dfy` | `Search` | the first-match search behind every lookup by field |
| `text.dfy` | `Text` | ASCII character classes, `strconv.Itoa`, `strconv.Atoi` (64-bit), `strings.TrimRight(s, "\n")` |
| `email.dfy` | `EmailPattern` | the fixed e-mail pattern `^[a-z0-9._%+\-]+@[a-z0-9.\-]+\.[a-z]{2,4}$`, as a declarative predicate and as a decision procedure, proved equal |
| `auth_model.dfy` | `AuthModel` | `Auth`, `User`, `UserBusiness`, `ChangePassword`, `RecoveryPassword`, `CodeRecovery`, `EmailCodeRecovery` |
| `auth_database.dfy` | `AuthDatabase` | the credential and recovery collections as the class `AuthRepository`; login, code verification, the two registration sagas, password change and recovery |
| `auth_validation.dfy` | `AuthValidation` | the auth service's validators, with the character scans and the blacklist scan as loops |
| `profile_model.dfy` | `ProfileModel` | the profile service's `User`, `UserBusiness` and `Users` |
| `profile_validation.dfy` | `ProfileValidation` | the profile service's validators (the last failure wins) |
| `profile_database.dfy` | `ProfileDatabase` | the profile collection as the class `ProfileRepository`; the projections and the batch lookup |
| `social_graph.dfy` | `SocialGraph` | nodes with internal keys and labelled edges as the class `GraphRepository`; each Cypher statement as an operation |
| `feed.dfy` | `Feed` | de-duplication, feed masking, tweets by author, retweet resolution, the tweet INSERT, and the like toggle on the `tweets` table (a map keyed by its primary key `id`) |

Modelling choices:

- **Collections.** A Mongo collection is a sequence in natural order. `FindOne`, `UpdateOne` and `DeleteOne` act on the first matching document. A lookup that finds nothing yields the zero record, as the Go code compares against `model.Auth{}`.
- **Hashing.** bcrypt is an uninterpreted function `hash`. `CompareHashAndPassword` succeeds when the stored value is non-empty and equals `hash(plain)`.
- **Randomness.** The random code, salt and UUID are parameters whose ranges are stated as preconditions.
- **Remote calls.** The e-mail send and the calls to the profile and graph services, including the cancel calls, are oracle outcomes. A ghost trace `calls` records every call made, in order.
- **Cassandra rows.** An UPDATE on a missing key creates the row. Only INSERT writes a row marker, so a row created by UPDATE disappears once its last non-key cell is null. An empty list is stored as null. The table keeps the set of INSERTed ids for this.
- **Graph.** Node identity is an internal key. The `id` property is only a property, so duplicate ids are representable, as they are in the database.

## Model

| member | source | states |
|---|---|---|
| Text.Itoa | auth-microservice/server/database.go:250 | a printed code is a non-empty string of decimal digits with no leading zero |
| Text.ItoaValue | auth-microservice/server/database.go:250 | reading the printed digits back gives the number |
| Text.ItoaInjective | auth-microservice/server/database.go:250 | distinct numbers print as distinct strings, so codes may be compared as text |
| Text.SixDigits | auth-microservice/server/database.go:239-250 | every code drawn from [100000, 999999] prints as exactly six digits |
| Text.Atoi | auth-microservice/validation/validation.go:76 | a successful parse yields a value in the signed 64-bit range |
| Text.AtoiItoa | auth-microservice/validation/validation.go:76 | the parse reads back a printed number, unsigned, with "-" or with "+" |
| Text.AtoiRejectsEmpty | profile-microservice/helper.go:56 | the empty string and a lone sign do not parse |
| Text.TrimRightNewlines | auth-microservice/validation/validation.go:71 | the result is a prefix of the input that does not end in a newline, and only newlines were dropped |
| EmailPattern.IsEmailValidMatchesRegex | auth-microservice/validation/validation.go:144-147 | the decision procedure accepts exactly the strings the pattern matches |
| EmailPattern.AcceptedHasNoUppercase | profile-microservice/helper.go:82-85 | no accepted address contains an upper-case letter |
| EmailPattern.EmptyRejected | profile-microservice/helper.go:82-85 | the empty string is rejected |
| Search.FirstWhere | auth-microservice/server/database.go:668-685 | the index found is the first element satisfying the filter, or the end when none does |
| AuthDatabase.FindByUsername | auth-microservice/server/database.go:668-685 | the index found is the first record with the username, or the end when there is none |
| AuthDatabase.FindByEmail | auth-microservice/server/database.go:708-725 | the index found is the first record with the e-mail, or the end when there is none |
| AuthDatabase.FindRecoveryByEmail | auth-microservice/server/database.go:585 | the first recovery record with the e-mail, or the end |
| AuthDatabase.FindRecoveryByCode | auth-microservice/server/database.go:593 | the first recovery record with the code, or the end |
| AuthDatabase.UsernameLookup | auth-microservice/server/database.go:668-685 | in a valid store the lookup yields the zero record exactly when no record has the username |
| AuthDatabase.FindByUsernameUnique | auth-microservice/server/database.go:668-685 | in a valid store each record is the one found for its own username |
| AuthDatabase.LoginTokenIff | auth-microservice/server/database.go:56-90 | a token is issued exactly for an existing, verified record whose hash matches password + salt, and it carries that record's role |
| AuthDatabase.LoginFailureIsUniform | auth-microservice/server/database.go:56-90 | an unknown username and a wrong password get the same "Wrong Credentials" message |
| AuthDatabase.UnverifiedNeverLogsIn | auth-microservice/server/database.go:56-90 | an unverified record gets "Your profile is not verified" whatever the password, since status is checked first |
| AuthDatabase.VerifyChangesOnlyStatus | auth-microservice/server/database.go:92-134 | code verification changes only the status of the matching record; a wrong code, an unknown user, a wrong password or an already verified record leave the store unchanged; the message is "code is valid" exactly when the store changes |
| AuthDatabase.VerifyKeepsStoreValid | auth-microservice/server/database.go:92-134 | code verification keeps one record per username, each pending or verified with a six-digit code |
| AuthDatabase.VerifyThenLogin | auth-microservice/server/database.go:92-134 | after the code is accepted, the same username and password log in with the stored role |
| AuthDatabase.CodeIsSingleUse | auth-microservice/server/database.go:92-134 | submitting an accepted code again answers "" and changes nothing |
| AuthDatabase.DuplicateIdentityRejected | auth-microservice/server/database.go:146-154 | a taken username gives "Username Exists!", and a taken e-mail otherwise gives "User with this email exist!", before any write or call |
| AuthDatabase.ProfileFailureCompensation | auth-microservice/server/database.go:165-172 | when the profile step fails, the graph is never called, the profile cancel runs exactly once for the saga's Id, and a failing cancel's error replaces the step error |
| AuthDatabase.GraphFailureCompensation | auth-microservice/server/database.go:174-181 | when the graph step fails, the graph cancel runs exactly once for the saga's Id, the profile is not cancelled, and a failing cancel's error replaces the step error |
| AuthDatabase.SagaStepOrder | auth-microservice/server/database.go:156-181 | the code e-mail comes first, the profile step always runs, and it runs before the graph step |
| AuthDatabase.SagaUsesOneId | auth-microservice/server/database.go:142-181 | every profile, graph and cancel call of one saga carries the same fresh Id |
| AuthDatabase.BusinessSagaNeverCompensates | auth-microservice/server/database.go:186-222 | the business saga never calls a cancel and returns the raw step error |
| AuthDatabase.ChangePasswordOutcome | auth-microservice/server/database.go:543-577 | the password changes exactly when the user exists and the current password matches; otherwise the store is unchanged and "The password entered is incorrect" is reported, even for an unknown user |
| AuthDatabase.ChangePasswordThenLogin | auth-microservice/server/database.go:543-577 | after a change the store stays valid and a verified account logs in with the new password |
| AuthDatabase.RecoverySucceedsIff | auth-microservice/server/database.go:579-629 | recovery succeeds exactly when a recovery record has the e-mail, one has the code and a user has the e-mail; it then rehashes only that user's password with its stored salt; a failed recovery leaves the store unchanged |
| AuthDatabase.RecoveryThenLogin | auth-microservice/server/database.go:579-629 | after a recovery the new password logs the recovered, verified user in with its role, and the store stays valid |
| AuthDatabase.RecoveryCodeNotBoundToEmail | auth-microservice/server/database.go:585-597 | a code issued to one address resets the password of another address that has a recovery record |
| AuthDatabase.AuthRepository.ValidateCode | auth-microservice/server/database.go:92-134 | the new store and the message are those of the code-verification function, and the store invariant is kept |
| AuthDatabase.AuthRepository.SaveCredentialsIntoAuth | auth-microservice/server/database.go:224-284 | the code e-mail is sent first; exactly one pending record with a six-digit code is appended when it succeeds, and nothing is stored otherwise |
| AuthDatabase.AuthRepository.SaveRegularUserIntoProfile | auth-microservice/server/database.go:286-334 | records one profile call and reports the service's failure with its prefix |
| AuthDatabase.AuthRepository.SaveRegularUserIntoGraph | auth-microservice/server/database.go:450-492 | records one graph call and reports the service's failure with its prefix |
| AuthDatabase.AuthRepository.Cancel | auth-microservice/server/database.go:336-402 | records one cancel call and returns only a transport error |
| AuthDatabase.AuthRepository.SaveCredentialsRegularIntoAuth | auth-microservice/server/database.go:137-184 | guards first, then the credential, profile and graph steps with compensation; the calls, the error and the new store are those of the saga functions, and records are never removed |
| AuthDatabase.AuthRepository.SaveCredentialsBusinessIntoAuth | auth-microservice/server/database.go:186-222 | the credential, profile and graph steps without guards or compensation; the calls, the error and the new store are those of the saga functions |
| AuthDatabase.AuthRepository.ChangePassword | auth-microservice/server/database.go:543-577 | the new store and the message are those of the password-change functions |
| AuthDatabase.AuthRepository.RecoveryPassword | auth-microservice/server/database.go:579-629 | the new store and the message are those of the recovery functions; it fails exactly when the message is non-empty; recovery records are kept |
| AuthDatabase.AuthRepository.SendCodeViaEmail | auth-microservice/server/database.go:727-769 | the recovery record is appended before the send and stays when the send fails |
| AuthValidation.IsPasswordInBlackList | auth-microservice/validation/validation.go:246-270 | the password is valid exactly when it equals no blacklist line, with "Use stronger password!" otherwise |
| AuthValidation.MeetsStrengthRule | auth-microservice/validation/validation.go:34-48 | true exactly for eight or more characters with an upper-case letter, a lower-case letter and a digit |
| AuthValidation.OnlyLetters | auth-microservice/validation/validation.go:50-69 | true exactly when every character is a letter |
| AuthValidation.SignUpValidationRegularUser | auth-microservice/validation/validation.go:17-87 | the message is the first failing check's, in source order |
| AuthValidation.RegularUserAcceptedIff | auth-microservice/validation/validation.go:17-87 | the answer is "" exactly when all fields are present, the password is not blacklisted and strong, the names are letters, the gender is accepted, the age parses and the e-mail, when given, is valid |
| AuthValidation.RegularUserAcceptedEmail | auth-microservice/validation/validation.go:76-84 | an accepted age is a 64-bit integer, and an accepted e-mail matches the pattern and has no capitals |
| AuthValidation.BlacklistBeforeStrength | auth-microservice/validation/validation.go:29-48 | a blacklisted password is refused as such whatever its strength |
| AuthValidation.GenderTrailingNewlines | auth-microservice/validation/validation.go:71-74 | a gender followed by any number of newlines is accepted |
| AuthValidation.NewlinesTrimmed | auth-microservice/validation/validation.go:71 | trimming drops exactly the trailing newlines |
| AuthValidation.SignUpValidationBusinessUser | auth-microservice/validation/validation.go:89-142 | the message is the first failing check's, with the store consulted before the fields |
| AuthValidation.BusinessUserAcceptedIsFresh | auth-microservice/validation/validation.go:98-142 | an accepted business user has a fresh username and e-mail, a valid e-mail and a strong password that is not blacklisted |
| AuthValidation.BusinessTakenUsernameFirst | auth-microservice/validation/validation.go:98-113 | a taken username is reported before anything else, even for a request with empty fields |
| AuthValidation.EmailValidation | auth-microservice/validation/validation.go:149-160 | a missing e-mail passes, and a present one passes exactly when it matches the pattern |
| AuthValidation.IsChangePasswordValid | auth-microservice/validation/validation.go:162-199 | the message is the first failing check's; valid exactly when it is "" |
| AuthValidation.IsRecoveryPasswordValid | auth-microservice/validation/validation.go:201-244 | the message is the first failing check's; valid exactly when it is "" |
| AuthValidation.SamePasswordRule | auth-microservice/validation/validation.go:162-244 | change and recovery apply the same blacklist and strength rule to the new password, and accept it under the same conditions |
| AuthValidation.WeakMessagesDiffer | auth-microservice/validation/validation.go:194 | the weak-password message of change and recovery lacks the sign-up message's final "!" |
| ProfileValidation.SignUpValidationRegularUser | profile-microservice/helper.go:48-65 | "" exactly when the fields are present, the age parses and the e-mail is valid; the e-mail error beats the age error, which beats the missing-field error |
| ProfileValidation.SignUpValidationBusinessUser | profile-microservice/helper.go:67-80 | "" exactly when the fields are present and the e-mail is valid; the e-mail error beats the missing-field error |
| ProfileValidation.EmptyEmailAlwaysFails | profile-microservice/helper.go:59-62 | a profile without an e-mail is always refused with the e-mail message |
| ProfileValidation.EmptyAgeIsNotANumber | profile-microservice/helper.go:52-58 | an empty age gives "Age must be number!", never the missing-field message |
| ProfileValidation.AcceptedProfileShape | profile-microservice/helper.go:48-65 | an accepted age is a 64-bit integer and an accepted e-mail matches the pattern |
| ProfileValidation.ItoaAgeAccepted | profile-microservice/helper.go:56-58 | any age printed by Itoa, signed or not, passes |
| ProfileDatabase.FromUser | profile-microservice/server/database.go:99-112 | the stored document decodes back to the same User |
| ProfileDatabase.FromBusiness | profile-microservice/server/database.go:178-192 | the stored document decodes back to the same UserBusiness |
| ProfileDatabase.FindById | profile-microservice/server/database.go:80-97 | the first document with the id, or the end |
| ProfileDatabase.FindByUsername | profile-microservice/server/database.go:223-238 | the first document with the username, or the end |
| ProfileDatabase.GetRegularUsers | profile-microservice/server/database.go:37-60 | exactly the documents with role "regular", decoded |
| ProfileDatabase.GetBusinessUsers | profile-microservice/server/database.go:116-139 | exactly the documents with role "business", decoded |
| ProfileDatabase.GetUserByIdProjection | profile-microservice/server/database.go:288-310 | a regular user projects to first and last name joined by a space, a business user to its company, and an unknown id to the zero value |
| ProfileDatabase.ListOfUsersLength | profile-microservice/server/database.go:257-286 | one entry per found id, so never more entries than ids |
| ProfileDatabase.ListOfUsersKnownRoles | profile-microservice/server/database.go:257-286 | when every found profile has a known role, the list is the projection of the found ids, in input order |
| ProfileDatabase.StaleEntryRepeated | profile-microservice/server/database.go:261-281 | a found profile with another role repeats the previous entry |
| ProfileDatabase.GetListOfUsersByIds | profile-microservice/server/database.go:257-286 | the loop builds exactly the list of the batch-lookup function |
| ProfileDatabase.ToggleChangesOnlyTheFlag | profile-microservice/server/database.go:196-221 | the toggle negates the flag of the first document with the id and changes nothing else; an unknown id changes nothing |
| ProfileDatabase.ToggleTwiceRestores | profile-microservice/server/database.go:196-221 | toggling twice restores the collection |
| ProfileDatabase.RemoveAtRemovesOne | profile-microservice/server/database.go:223-255 | a delete removes one matching document and keeps the others in order |
| ProfileDatabase.ProfileRepository.SignUpRegularUser | profile-microservice/server/database.go:99-112 | appends the profile with the private flag forced on and every other field as given |
| ProfileDatabase.ProfileRepository.SignUpBusinessUser | profile-microservice/server/database.go:178-192 | appends the profile with the private flag forced on and every other field as given |
| ProfileDatabase.ProfileRepository.UpdateProfileStatus | profile-microservice/server/database.go:196-221 | the new collection is the toggled one |
| ProfileDatabase.ProfileRepository.DeleteUser | profile-microservice/server/database.go:223-238 | removes the first document with the username |
| ProfileDatabase.ProfileRepository.DeleteUserById | profile-microservice/server/database.go:240-255 | removes the first document with the id |
| ProfileDatabase.SignUpThenDeleteById | profile-microservice/server/database.go:240-255 | deleting a fresh sign-up by its id restores the collection, which is what the saga's profile cancel relies on |
| SocialGraph.KeysWithId | graph-microservice/data/repo.go:86 | the keys of exactly the nodes whose id property is the id |
| SocialGraph.KeysWithIdMatch | graph-microservice/data/repo.go:86 | with distinct keys, those keys are the nodes a `{id: $id}` pattern selects |
| SocialGraph.PairEdges | graph-microservice/data/repo.go:86 | the CREATE makes an edge for every pair of a matched source and a matched target |
| SocialGraph.PairEdgesCount | graph-microservice/data/repo.go:86 | it makes exactly as many edges as there are pairs |
| SocialGraph.SingleRowIff | graph-microservice/data/repo.go:93 | `Single()` succeeds exactly when one node matches on each side |
| SocialGraph.RemoveMatching | graph-microservice/data/repo.go:172 | exactly the edges of that type from a node with the first id to a node with the second are deleted |
| SocialGraph.RemoveMatchingIdempotent | graph-microservice/data/repo.go:172 | deleting twice is deleting once |
| SocialGraph.WithoutId | graph-microservice/data/repo.go:517 | DETACH DELETE keeps exactly the nodes without the id |
| SocialGraph.Detached | graph-microservice/data/repo.go:517 | DETACH DELETE keeps exactly the edges that touch no deleted node |
| SocialGraph.WithoutIdUnique | graph-microservice/data/repo.go:517 | deleting nodes keeps node keys distinct |
| SocialGraph.SurvivorFound | graph-microservice/data/repo.go:517 | a node that survives the delete is still found, with the same properties |
| SocialGraph.AppendKeepsIndex | graph-microservice/data/repo.go:38 | creating a node leaves every existing node where it was |
| SocialGraph.Targets | graph-microservice/data/repo.go:294 | the followings are exactly the ends of FOLLOW edges leaving a node with the id |
| SocialGraph.Sources | graph-microservice/data/repo.go:344 | the followers (and, for FOLLOW_REQUEST, the requesters) are exactly the starts of edges entering a node with the id |
| SocialGraph.FollowingFollowersDual | graph-microservice/data/repo.go:294-344 | a FOLLOW edge puts its target among its source's followings and its source among its target's followers |
| SocialGraph.TwoHopRows | graph-microservice/data/repo.go:394 | every recommended row ends a two-hop FOLLOW path from a node with the id, is not the user and is not directly followed by the path's start |
| SocialGraph.TwoHopRowsComplete | graph-microservice/data/repo.go:394 | every such two-hop path contributes a row |
| SocialGraph.FallbackRows | graph-microservice/data/repo.go:415 | every fallback row is another node that the user does not follow |
| SocialGraph.FallbackComplete | graph-microservice/data/repo.go:415 | every node other than the user's that the user does not follow yields a fallback row |
| SocialGraph.Limit | graph-microservice/data/repo.go:415 | LIMIT keeps a prefix of exactly min(n, number of rows) rows |
| SocialGraph.GetAllRecommended | graph-microservice/data/repo.go:374-443 | the two-hop rows when there are any, otherwise the first min(5, number of candidates) unfollowed nodes other than the user |
| SocialGraph.RecommendedTwoHop | graph-microservice/data/repo.go:392-434 | every two-hop candidate is recommended |
| SocialGraph.RecommendedFallback | graph-microservice/data/repo.go:413-434 | without a two-hop candidate, one unfollowed node other than the user makes the recommendation non-empty |
| SocialGraph.CheckRelations | graph-microservice/data/repo.go:537-580 | "" exactly when there is no edge from the first id to the second; otherwise the type of such an edge, the last one scanned |
| SocialGraph.GraphRepository.AddEntity | graph-microservice/data/repo.go:21-65 | a node with a fresh key is appended, with no check for an existing id |
| SocialGraph.GraphRepository.AddRelation | graph-microservice/data/repo.go:67-151 | the edge is added exactly when one node matches on each side; otherwise the graph is unchanged |
| SocialGraph.GraphRepository.RemoveFollow | graph-microservice/data/repo.go:153-189 | the new edges are those left after removing every matching FOLLOW edge |
| SocialGraph.GraphRepository.DeleteFollowRequest | graph-microservice/data/repo.go:191-226 | the new edges are those left after removing every matching FOLLOW_REQUEST edge |
| SocialGraph.GraphRepository.AcceptFollowRequest | graph-microservice/data/repo.go:228-272 | the new edges are those of the accept function |
| SocialGraph.GraphRepository.DeleteUser | graph-microservice/data/repo.go:499-535 | nodes with the id and their incident edges are removed |
| SocialGraph.AcceptIsDeclineThenFollow | graph-microservice/data/repo.go:244-264 | accepting removes the requests and adds a FOLLOW edge for every matched pair, whether or not a request existed |
| SocialGraph.RemoveKeepsOtherLabel | graph-microservice/data/repo.go:207-225 | decline and unfollow leave every edge of the other type alone |
| SocialGraph.FollowThenUnfollow | graph-microservice/data/repo.go:83-188 | after a follow the target is among the follower's followings, and an unfollow removes it again |
| SocialGraph.DeletedUserGone | graph-microservice/data/repo.go:515-527 | after the delete no node carries the id and no kept edge touches a deleted node |
| Feed.DedupIdsAreNub | tweet-microservice/server/database.go:397-410 | the ids kept are the input's ids, each once, in order of first occurrence |
| Feed.DedupDistinct | tweet-microservice/server/database.go:397-410 | the result has distinct ids and is no longer than the input |
| Feed.DedupLastWins | tweet-microservice/server/database.go:403 | each kept entry is the last input element with its id |
| Feed.DedupOfDistinct | tweet-microservice/server/database.go:397-410 | an input with distinct ids is returned unchanged |
| Feed.DedupIdempotent | tweet-microservice/server/database.go:397-410 | applying the de-duplication twice equals applying it once |
| Feed.RemoveDuplicated | tweet-microservice/server/database.go:397-410 | the labelled nested loop computes the de-duplication function |
| Feed.PrivateRows | tweet-microservice/server/database.go:374-379 | the private rows are the masked copies of the tweets for each user who is not the embedded author |
| Feed.PublicRows | tweet-microservice/server/database.go:380-381 | the public rows are the tweets whose embedded author is one of the users |
| Feed.GetTweetsForFeed | tweet-microservice/server/database.go:362-395 | the result is the de-duplication of the private rows followed by the public rows |
| Feed.FeedMasking | tweet-microservice/server/database.go:370-392 | each feed entry comes from a tweet; it is that tweet when some user is the embedded author, otherwise the tweet with the embedded Id, Text and Likes cleared and every outer field unchanged |
| Feed.FeedDistinct | tweet-microservice/server/database.go:392 | the feed lists every id once |
| Feed.FeedCoverage | tweet-microservice/server/database.go:370-392 | every tweet's id reaches the feed when there is a user; an empty user list gives an empty feed |
| Feed.AuthoredBy | tweet-microservice/server/database.go:245-247 | exactly the stored tweets whose User is the id |
| Feed.ByUsersMultiplicity | tweet-microservice/server/database.go:244-252 | a stored tweet appears once for each user entry whose Id is its author |
| Feed.GetTweetsByUsersIds | tweet-microservice/server/database.go:232-253 | the nested loop yields each user's tweets in turn, in store order |
| Feed.GetRetweetsForTweet | tweet-microservice/server/database.go:305-360 | one entry per tweet, in order, with its fields copied and its retweet resolved, or the empty embedded tweet when it has none |
| Feed.LikeThenUnlike | tweet-microservice/server/database.go:447-466 | a like and then an unlike by the same user restore the list |
| Feed.UnlikeRemovesOne | tweet-microservice/server/database.go:459-466 | an unlike removes exactly the first occurrence of the user and keeps the other entries in order |
| Feed.LikeAppends | tweet-microservice/server/database.go:438-458 | a like appends the user at the end, and nil likes become a one-element list |
| Feed.ToggleLike | tweet-microservice/server/database.go:435-472 | the scan and the removal loop compute the toggle function, with the like or unlike message |
| Feed.StoredLikesToggleAlike | tweet-microservice/server/database.go:438-472 | nil and the empty list toggle alike, so storing an empty list as null changes no later answer |
| Feed.TweetTable.CreateTweet | tweet-microservice/server/database.go:76-91 | the INSERT adds one row under the fresh id, stamped with the current time, an empty likes list stored as null, and marks it as inserted; the table stays live |
| Feed.TweetTable.LikeUnlikeTweet | tweet-microservice/server/database.go:412-476 | the message says unlike exactly when the user was in the likes; the table becomes `AfterToggle`: the row's likes become the toggled list, a missing row is created holding only the id and the likes, and a row never INSERTed whose likes become null disappears |
| Feed.AfterToggleKeepsRowsLive | tweet-microservice/server/database.go:438-472 | after a toggle every row is INSERTed or holds non-null likes, and every other row is untouched |
| Feed.ToggleTwiceOnMissingRow | tweet-microservice/server/database.go:438-472 | a like then an unlike by the same user on an id with no tweet leave the whole table as it was |
| Feed.LikeUnlikeRoundTrip | tweet-microservice/server/database.go:426-476 | two toggles by a user who had not liked the tweet restore the stored likes |

## Left out

- HTTP handlers, routing, JSON decoding, tracing spans and logging are not modelled. Neither are the Mongo, Neo4j and Cassandra connection code, `Ping` and `Disconnect`.
- The circuit breaker's state machine lives in an external library. Its trips count as failed outcomes of the oracle.
- The JWT that login signs is opaque: the model returns the username and role it would carry.
- bcrypt's 72-byte input limit is not modelled. Neither is the cost factor.
- SMTP delivery is a success/failure outcome.
- The blacklist file is a given sequence of lines. Reading it, and a failure to open it, are not modelled.
- Letters, upper case and lower case are ASCII ranges, and lengths count characters. The Go code uses Unicode classes and byte lengths.
- Sorting the feed by creation time (in tweet-microservice/server.go) is not modelled. Timestamps are integers and are only copied.
- The tweet service's outbound calls (`GetAllFollowing`, `GetUserById`, `GetTweetsWithUser`) are not modelled. `GetRetweetsForTweet` takes the retweet lookup as a function.
- Concurrency is not modelled. The model is sequential, so the check-then-insert race in registration is out of scope.
- Driver errors, such as a failed insert, update or query, are not modelled. Neither are the `InsertOneResult` values, beyond whether a record was inserted.
- AuthDatabase.AuthRepository.Cancel: the status code of a cancel call is not checked by the source, so only its transport error is modelled. The graph cancel is addressed to the profile host's path (auth-microservice/server/database.go:375). The model records the call, not its effect.
- AuthDatabase.AuthRepository.SaveCredentialsBusinessIntoAuth requires that the username is absent. The business saga has no guard of its own and relies on its validator. `SaveCredentialsIntoAuth` dereferences the lookup error unconditionally, so an existing username is not a supported input.
- AuthDatabase.AuthRepository.SaveCredentialsIntoAuth requires the code in [100000, 999998], the range of `rand.Intn(max-min) + min`.
- The credential store is a sequence rather than a map keyed by username. E-mail lookups return the first match, and e-mails are not unique in the business saga, so a map would lose behaviour.
- The model files for `Users`, `UserProfile`, `UserFollowing`, `Follow`, `Unfollow` and `Respond` are not part of this model. Their fields are inferred from their uses.
- The Neo4j driver's row order is not specified. Rows come out in edge order, or in node order for the fallback query.
- Requests against a tweet id that is not a UUID fail in Cassandra. That failure is not modelled.
- SocialGraph.CheckRelations: when several relationships join the two ids, the source reports whichever the driver returns last. The model fixes that to the last one in edge order.
