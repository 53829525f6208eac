# Access provisioning in the Scality COSI driver

The driver grants a workload access to a bucket by making three calls to a remote IAM service
(create a user, attach an inline policy, create an access key), and revokes it by making four or
more (look the user up, delete the policy, list the keys, delete them one by one, delete the
user). No call is atomic with the next, nothing is rolled back, the handlers hold no lock, and any
call can fail before or after it has taken effect. What the controller is finally told depends on
two independent tests for "already gone": a typed error check in the client and a table of error
codes in the translator. This project models those sequences, the service they run against and
the error translation, and proves what they guarantee.

## The model

| file | contents |
|---|---|
| `Errors.dfy` | error values as trees, the two searches through them, the table-driven translation and its two tables |
| `Json.dfy` | JSON texts of strings, arrays and objects: a writer of tokens, a reader of texts, and their agreement |
| `Policy.dfy` | the policy document as text, IAM wildcard matching, and what the document allows when read as JSON |
| `Iam.dfy` | one user name at the IAM service: the eight operations, their refusals, faults before and after the effect |
| `Saga.dfy` | grant and revoke as programs of API calls; any number of them interleaved (`Exec`); one by itself (`Solo`); the key loop (`Sweep`) |
| `Revocation.dfy` | revokes: truthfulness of success, concurrent revokes, order of authority, when an attempt succeeds, how many retries suffice |
| `Granting.dfy` | grants interleaved with grants and revokes: counting, lockout, election of one winner |
| `Recovery.dfy` | one RPC at a time: partial grants, their compensation, whole runs from an empty service |
| `Races.dfy` | grants and revokes of one user interleaved: when two credentials come to exist at once, and recovery from any race |
| `Isolation.dfy` | many users of many accounts; a run projected to one user; non-interference |
| `Buckets.dfy` | one bucket name at the S3 service and its lifecycle |
| `Clients.dfy` | the remote service, the IAM client and the S3 client as classes with state |
| `Resolution.dfy` | which secret a request leads to, and the storage parameters in it |
| `Provisioner.dfy` | the four RPC handlers as a class, whose account they act on, and grant and revoke across accounts |

The class methods follow the Go functions statement by statement. Each is proved to change the
service, to return and to spend API calls as a function of the state it finds
(`CreateBucketAccessRun`, `RevokeBucketAccessRun`, `ListAndSweep`, `ServeBucket`, `GrantEffect`,
`RevokeEffect`, `CreateBucketEffect`, `DeleteBucketEffect`); `GrantRunIsSolo`, `RevokeRunIsSolo` and `SoloIsExec` connect these functions to
the interleaved system, about which the other modules prove their results.

What is assumed of the environment, wherever a member asks for it:

- The operations behave as the AWS IAM API Reference says: CreateUser refuses an existing user,
  PutUserPolicy replaces, DeleteUser refuses a user that still has inline policies or keys, and
  the others refuse what does not exist. Access key identifiers are never reused.
- The S3 service refuses a location constraint that names the default region, and takes any other.
- `Honest`: an injected fault is taken for a missing entity by neither of the two tests, and a
  listing shows `limit` distinct live keys, or all if there are no more. The client lists once and
  never asks for a second page. What happens without the first half is stated by `Misreports` and
  the members about it.
- Nothing but the RPCs of a run changes the users it is about. Members that need the absence of
  grants, or of revokes, ask for it.

Results in which the code differs from its own comments: a grant is not idempotent
(`GrantFromLive`, `UnfaultedGrantSucceedsIff`; compare lines 186 and 187 of
`pkg/driver/provisioner_server_impl.go`); creating one's own existing bucket gives AlreadyExists
(`CreateSucceedsIff`; compare line 64 of `proto/cosi.proto`); the default region never takes
effect (`DefaultRegionIsOverwritten`); a delete cannot succeed once the Kubernetes Bucket object is
gone, even if the bucket is gone too (`DeleteHandlerSucceedsIff`; compare lines 141 to 143 of
`pkg/driver/provisioner_server_impl.go`); a revoke cannot succeed then either, nor while the user
has an inline policy of another name, nor in one attempt while it has more keys than one listing
shows (`RevokeHandlerSucceedsIff`; compare lines 240 to 242 of the same file).

One property that each RPC alone suggests is false of RPCs together: a user can come to hold two
credentials for two buckets without a single fault (`TwoGrantsSucceed`). `TwoKeysReachableIff` and
`TwoPoliciesReachableIff` say from which RPCs that can happen, `QuietRunShape` which step of a run
it takes, and `RecoveryFromAnyRace` what it costs to clean up.

## Model

| member | source | states |
|---|---|---|
| `Errors.SearchesFindListedErrors` | pkg/osperrors/errors.go:35-41 | the typed search succeeds iff some API error anywhere in the error tree has the type; the code search returns the first API error in depth-first order |
| `Errors.MissingTestsAgreeIff` | pkg/clients/iam/iam_client.go:192-197 | for errors whose types match their codes, client and translator agree on "missing" exactly when a missing entity, if mentioned, comes first |
| `Errors.MissingTestsAgreeOnOneApiError` | pkg/clients/iam/iam_client.go:192-197 | with a single API error of matching type and code the two tests always agree |
| `Errors.WrappingIsTransparent` | pkg/osperrors/errors.go:35-36 | no depth of wrapping changes what either search finds |
| `Errors.TranslateSound` | pkg/osperrors/errors.go:34-81 | for every table and action: success iff the first API code is mapped to OK and is no missing-entity code under a creating action; an error result never carries OK |
| `Errors.TranslateExact` | pkg/osperrors/errors.go:34-81 | the status of every other error, in terms of the API errors listed in it: Internal if there is none or the first code is not in the table, NotFound for a missing thing under a creating action, else exactly the code of the table |
| `Errors.IamOkCodes` | pkg/osperrors/iam_errors.go:10-111 | NoSuchEntity is the only code of the IAM table that means success |
| `Errors.S3OkCodes` | pkg/osperrors/s3_errors.go:10-108 | NoSuchBucket and NotFound are the only codes of the S3 table that mean success |
| `Errors.GrantStatusByCode` | pkg/osperrors/iam_errors.go:10-111 | which IAM codes a failed grant reports as each status, both ways; all others are Internal |
| `Errors.RevokeStatusByCode` | pkg/osperrors/errors.go:55-70 | a failed revoke gets the same status, a missing entity aside, which is success |
| `Errors.CreateStatusByCode` | pkg/osperrors/s3_errors.go:10-108 | which S3 codes a failed create reports as each status, both ways; all others are Internal |
| `Errors.DeleteStatusByCode` | pkg/osperrors/errors.go:55-70 | a failed delete gets the same status, missing buckets aside, which are success |
| `Errors.GrantAndCreateNeverNil` | pkg/driver/provisioner_server_impl.go:217-222 | a failed grant or create is never translated to success, so the grant handler has a key to hand out |
| `Errors.RevokeNilIff` | pkg/driver/provisioner_server_impl.go:278-283 | a failed revoke is reported as success exactly on the NoSuchEntity code |
| `Errors.DeleteNilIff` | pkg/driver/provisioner_server_impl.go:175-180 | a failed bucket delete is reported as success exactly on the two missing-bucket codes |
| `Json.ParseIffTokens` | pkg/clients/iam/iam_client.go:96-108 | the reader of JSON tokens accepts exactly the token sequences of a value, and gives back that value |
| `Json.LexesOnlyRendered` | pkg/clients/iam/iam_client.go:96-108 | the reader of texts accepts only marks, white space and closed quoted strings, and its tokens are theirs |
| `Json.LexChunks` | pkg/clients/iam/iam_client.go:96-108 | and it accepts all of them |
| `Policy.DocumentIsIntendedIff` | pkg/clients/iam/iam_client.go:96-108 | the whole text is JSON for the intended object, all braces and brackets closed, iff the bucket name holds no character that JSON would escape |
| `Policy.ReadInvertsDocument` | pkg/clients/iam/iam_client.go:96-108 | it then reads as one Allow statement for s3:* on the two resource patterns of the bucket |
| `Policy.StarMatchesIff` | pkg/clients/iam/iam_client.go:103-104 | in the matching that the documents are read with, a star stands for any characters and nothing else |
| `Policy.DocumentAllowsBucketIff` | pkg/clients/iam/iam_client.go:96-108 | under wildcard matching the document allows an action on a bucket ARN or object ARN iff it is an S3 action and the name is the bucket's; a text that is not JSON allows nothing |
| `Policy.GrantsExactlyIff` | pkg/clients/iam/iam_client.go:96-108 | the document grants all S3 actions on exactly the named bucket if and only if the name holds no wildcard character |
| `Iam.RefusalErrorIsFaithful` | pkg/clients/iam/iam_client.go:192-197 | both tests recognise a refusal of the service for what it is, at any wrapping depth |
| `Iam.DeletesShrink` | pkg/clients/iam/iam_client.go:154-239 | reads and deletes never add anything, whatever fails; user, policies and keys together drop strictly with each effective delete |
| `Saga.VerdictIsSucceeds` | pkg/driver/provisioner_server_impl.go:277-286 | the handler reports success iff the client returned no error, or a revoke returned one with the missing-entity code |
| `Saga.ProgramsKeep` | pkg/grpcfactory/server.go:91-102 | interleaved RPCs stay at places of their own programs and keep their jobs |
| `Saga.SoloIsExec` | pkg/grpcfactory/server.go:91-102 | an RPC run by itself is a run of the interleaved system in which all others stand still |
| `Saga.LastCallEnds` | pkg/grpcfactory/server.go:91-102 | in every interleaving an RPC that has ended was ended by a call of its own and is left alone afterwards |
| `Saga.SoloCountsFaults` | pkg/clients/iam/iam_client.go:131-179 | the faults counted in a run are exactly its calls that were hit by one |
| `Saga.GrantRunIsSolo` | pkg/clients/iam/iam_client.go:131-151 | the three calls with early returns do and return what the stepwise program does |
| `Saga.RevokeRunIsSolo` | pkg/clients/iam/iam_client.go:154-179 | the revoke sequence with early returns does and returns what the stepwise program does |
| `Saga.SweepExact` | pkg/clients/iam/iam_client.go:203-226 | on success the listed keys are gone and no others; on an error at index i exactly the first i, and the i-th too if only its reply was lost |
| `Saga.SweepRestarts` | pkg/clients/iam/iam_client.go:203-226 | after a listing or key loop that went wrong anywhere, a fresh truthful listing and an unfaulted loop over it end without error and remove every key that was left, or a full page of them; policies stay |
| `Revocation.MisreportedEndIff` | pkg/clients/iam/iam_client.go:154-239 | for each of the five kinds of call, a fault ends a revoke with reported success iff it passes the tests that the call applies to it (`Misreports`); a call does so with the user in place iff it is hit by such a fault with the user in place |
| `Revocation.MisreportedRevokeIff` | pkg/driver/provisioner_server_impl.go:277-286 | in every interleaving of grants and revokes with whatever replies, the same at the last call of a finished revoke |
| `Revocation.SuccessfulEndSeesAbsence` | pkg/clients/iam/iam_client.go:154-239 | whichever call ends a revoke with reported success, the user is absent right after it, unless a fault that one of the tests takes for a missing entity hit that very call |
| `Revocation.SuccessfulRevokeSawAbsence` | pkg/driver/provisioner_server_impl.go:277-286 | in every interleaving of grants and revokes, a revoke reported as successful ends with a call after which the user did not exist, or which was hit by a misreported fault; nothing is asked of any other reply |
| `Revocation.SuccessfulSoloSeesAbsence` | pkg/clients/iam/iam_client.go:154-179 | a revoke by itself that is reported as successful leaves the user absent; only a fault at its last call has to be recognisable as one |
| `Revocation.PolicyFaultMisreportedIff` | pkg/clients/iam/iam_client.go:186-201 | a fault in the policy step becomes reported success with the user in place iff the code test takes it for missing and the typed test does not |
| `Revocation.UntypedMissingEntityMisreported` | pkg/clients/iam/iam_client.go:186-201 | concretely: an untyped NoSuchEntity from DeleteUserPolicy is reported as success although nothing was removed |
| `Revocation.JoinedMissingEntityMisreported` | pkg/clients/iam/iam_client.go:228-239 | concretely: a typed missing entity behind a denial, from DeleteUser, is reported as success although the code is not NoSuchEntity and the user is untouched |
| `Revocation.RevokesInvariant` | pkg/clients/iam/iam_client.go:154-239 | throughout interleaved revokes each knows the policy gone after its policy step, the live keys within its unprocessed ones in the loop, and the user gone at its successful end |
| `Revocation.ConcurrentRevokesAgree` | pkg/clients/iam/iam_client.go:154-239 | among interleaved revokes of one user and bucket, one that no fault hits is reported as success, reported success means absence, and no call meets DeleteConflict |
| `Revocation.AbsentFromFirstSuccessOnward` | pkg/clients/iam/iam_client.go:228-239 | from the first reported success on the user is absent for the rest of the run |
| `Revocation.RevokesShrink` | pkg/clients/iam/iam_client.go:154-239 | runs of revokes only ever take things away, even with untruthful replies |
| `Revocation.PolicyPassedOverIff` | pkg/clients/iam/iam_client.go:186-201 | a revoke goes past its policy step with the policy in place iff a fault before the effect is taken for a typed missing entity |
| `Revocation.PolicyGoneInvariant` | pkg/clients/iam/iam_client.go:161-175 | without grants, a revoke whose policy step was not hit by such a fault finds its bucket's policy gone at every moment after that step |
| `Revocation.AccessEndsWithPolicyStep` | pkg/clients/iam/iam_client.go:161-175 | without grants, once a revoke has passed its policy step no policy of the user allows any action on the bucket or its objects any more, however many later steps fail |
| `Revocation.Attempt` | pkg/clients/iam/iam_client.go:154-179 | one attempt meets at most one fault; without one it succeeds, or removes a full page of keys if there were more than a page |
| `Revocation.ForeignPolicyOutlivesRevoke` | pkg/clients/iam/iam_client.go:186-201 | a user with an inline policy of another name survives every revoke |
| `Revocation.UnfaultedRevokeSucceedsIff` | pkg/clients/iam/iam_client.go:154-179 | a revoke that meets no fault is reported as success iff the user is absent or has only the bucket's policy and at most a page of keys |
| `Revocation.PagesIsCeiling` | pkg/clients/iam/iam_client.go:203-226 | the number of attempts in the retry bound is max(1, ceil(n / page size)) |
| `Revocation.FaultsMetAreFaultedAttempts` | pkg/clients/iam/iam_client.go:154-179 | the faults that the retry bound charges are zero iff no attempt meets one, and with recognisable faults exactly the number of attempts that do |
| `Revocation.RetryBound` | pkg/clients/iam/iam_client.go:154-239 | with n keys and at most F faults in all, some attempt among the first F + max(1, ceil(n / page size)) is reported as success and leaves the user absent |
| `Granting.UnfaultedVerdicts` | pkg/driver/provisioner_server_impl.go:193-287 | in every interleaving an unfaulted grant ends in success, AlreadyExists or NotFound, an unfaulted revoke in success or FailedPrecondition; vanished keys never stop one |
| `Granting.FaultWithoutCodeIsInternal` | pkg/driver/provisioner_server_impl.go:215-222 | a fault without an API error ends any RPC wherever it strikes and is reported as Internal |
| `Granting.GrantVerdictExplained` | pkg/driver/provisioner_server_impl.go:215-222 | in every interleaving a grant is reported as success iff it ended with a served CreateAccessKey on a live user, as AlreadyExists iff with a served CreateUser on a live user or a fault with one of two codes, as NotFound iff a later call was served on an absent user or a fault said so |
| `Granting.CreationsBalanceDeletions` | pkg/clients/iam/iam_client.go:131-179 | over every run with arbitrary faults, effective creations minus effective deletions says whether the user exists |
| `Granting.DeletionsAreCounted` | pkg/clients/iam/iam_client.go:228-239 | effective deletions are counted moment by moment |
| `Granting.CreationsAreCounted` | pkg/clients/iam/iam_client.go:85-92 | effective creations likewise |
| `Granting.PassedWereAccepted` | pkg/clients/iam/iam_client.go:131-135 | the grants counted as past CreateUser are those accepted at some moment |
| `Granting.GrantsBoundedByDeletions` | pkg/clients/iam/iam_client.go:131-179 | successful grants of an initially absent user never exceed effective deletions plus one |
| `Granting.AliveUntilDeletion` | pkg/clients/iam/iam_client.go:131-179 | an existing user stays until a DeleteUser call takes effect |
| `Granting.GrantLockout` | pkg/clients/iam/iam_client.go:131-135 | while the user exists every grant whose first call is served gets AlreadyExists and changes nothing |
| `Granting.DeletionBetweenGrants` | pkg/clients/iam/iam_client.go:131-135 | between two grants that pass CreateUser there is an effective DeleteUser |
| `Granting.ElectionInvariant` | pkg/clients/iam/iam_client.go:131-151 | throughout interleaved grants of an absent user at most one has passed CreateUser, all others are before it or failed, and the user is what the one has made of it |
| `Granting.ConcurrentGrantsElectOneWinner` | pkg/clients/iam/iam_client.go:131-151 | at most one of them passes CreateUser and every other that finishes is reported as an error, with any faults |
| `Granting.ConcurrentGrantsLeaveWinnersUser` | pkg/clients/iam/iam_client.go:131-151 | at every moment the user has at most one key, no policy but the winner's, and a key only together with that policy |
| `Granting.UnfaultedWinnerSucceeds` | pkg/clients/iam/iam_client.go:131-151 | the grant that passed CreateUser hands out a key unless a fault hits it |
| `Granting.UnfaultedGrantsElectExactlyOne` | pkg/clients/iam/iam_client.go:131-151 | without faults exactly one grant succeeds, and the user ends with its policy and its key |
| `Granting.UnfaultedLosersGetAlreadyExists` | pkg/clients/iam/iam_client.go:131-135 | a grant that has not passed CreateUser and that no fault hits is told AlreadyExists, whatever faults hit the others |
| `Recovery.GrantFromAbsent` | pkg/clients/iam/iam_client.go:131-151 | a grant cut anywhere leaves nothing, an empty user, or the bucket's policy with at most one key; success means exactly that policy and the returned key |
| `Recovery.GrantFromLive` | pkg/clients/iam/iam_client.go:131-135 | a grant of an existing user changes nothing, hands out nothing and reports AlreadyExists |
| `Recovery.UnfaultedGrantSucceedsIff` | pkg/driver/provisioner_server_impl.go:186-192 | a grant that meets no fault succeeds iff the user was absent, so it is not idempotent |
| `Recovery.GrantGivesExactAccess` | pkg/clients/iam/iam_client.go:95-151 | the key of a successful grant allows every S3 action on the granted bucket and its objects, no other action, and nothing on any other bucket |
| `Recovery.RevokeUndoesGrant` | pkg/clients/iam/iam_client.go:131-179 | after a grant cut by a fault at any call, before or after its effect, a fault-free revoke succeeds and restores the state |
| `Recovery.ShapeKept` | pkg/clients/iam/iam_client.go:95-179 | one grant or revoke with arbitrary replies keeps the shape of a user |
| `Recovery.WholeRunShape` | pkg/clients/iam/iam_client.go:95-179 | over all one-at-a-time runs from an empty service every user has at most one key, at most one policy, that of the grant that created it, and at most one credential handed out per lifetime |
| `Recovery.HandedIsCounted` | pkg/clients/iam/iam_client.go:131-179 | in the histories of such runs the user was created by the grant named as its creator, and the credentials handed out are exactly the grants reported as successful since |
| `Races.KeysAndPendingNeverGrow` | pkg/clients/iam/iam_client.go:121-179 | over every interleaving of grants and revokes with whatever replies, keys and unended grants together never grow in number |
| `Races.PoliciesComeFromGrants` | pkg/clients/iam/iam_client.go:95-118 | over every such run each policy was there before or is the policy of a grant for the bucket it names |
| `Races.OneBucketKeepsOwnPolicy` | pkg/clients/iam/iam_client.go:95-201 | grants and revokes of one bucket never leave a policy of another name |
| `Races.RecoveryFromAnyRace` | pkg/clients/iam/iam_client.go:131-239 | after any interleaving of G grants and any revokes of one user and bucket, with any replies and cut anywhere, some revoke among the next F + max(1, ceil((n + G) / page size)) succeeds and leaves the user absent |
| `Races.TwoGrantsSucceed` | pkg/clients/iam/iam_client.go:131-179 | concretely: without any fault a revoke between the CreateUser calls of two grants lets both succeed and leaves two keys and the policies of both |
| `Races.TwoKeysReachableIff` | pkg/clients/iam/iam_client.go:131-179 | RPCs for an absent user can bring it two keys iff there are two grants and a revoke among them |
| `Races.TwoPoliciesReachableIff` | pkg/clients/iam/iam_client.go:131-179 | and two policies iff there are a revoke and two grants for different buckets |
| `Races.QuietInvariant` | pkg/clients/iam/iam_client.go:131-239 | as long as no user is deleted under a grant that has passed CreateUser, at most one grant is between CreateUser and its end, and the user is what that grant has made of it or less |
| `Races.QuietRunShape` | pkg/clients/iam/iam_client.go:131-239 | interleaved grants and revokes of an absent user then leave at most one key and at most one policy, that of one of the grants, with whatever faults |
| `Isolation.OwnPicks` | pkg/clients/iam/iam_client.go:131-239 | a user's part of a run is all actions of that user's own RPCs, each once, in their order, and no others |
| `Isolation.RunProjects` | pkg/clients/iam/iam_client.go:131-239 | one user's part of a run over many users is the run of that user's own calls |
| `Isolation.NonInterference` | pkg/clients/iam/iam_client.go:131-239 | a user's record and the results of the user's RPCs do not depend on the RPCs of others |
| `Isolation.GrantsBoundedInWorld` | pkg/clients/iam/iam_client.go:131-179 | the bound on successful grants holds for each user among many |
| `Isolation.RevokesAgreeInWorld` | pkg/clients/iam/iam_client.go:154-239 | concurrent revokes of one user agree whatever the RPCs of all other users do |
| `Buckets.RefusalVerdict` | pkg/osperrors/s3_errors.go:10-108 | the code that each refusal of the S3 service is reported with |
| `Buckets.LocationNamesRegion` | pkg/clients/s3/s3_client.go:80-84 | a create carries a location constraint iff the region is not the default one, and then that region |
| `Buckets.CreateSucceedsIff` | pkg/driver/provisioner_server_impl.go:129-138 | a served create succeeds iff the bucket was absent, and then the bucket is in the secret's region; otherwise AlreadyExists, even for the caller's own bucket |
| `Buckets.DeleteSucceedsIff` | pkg/driver/provisioner_server_impl.go:169-183 | a served delete is reported as success iff the bucket was absent or the caller's own and empty, and the bucket is then gone, otherwise as it was |
| `Buckets.DeleteMisreportedIff` | pkg/driver/provisioner_server_impl.go:175-183 | a delete is reported as success with the bucket in place iff a fault with a missing-bucket code hit it and it did not take effect |
| `Buckets.DeleteSuccessMeansAbsent` | pkg/driver/provisioner_server_impl.go:175-183 | otherwise a delete reported as success means that the bucket is absent |
| `Buckets.NonEmptyBucketSurvives` | pkg/clients/s3/s3_client.go:90-95 | over every run of creates and deletes with any faults a bucket with objects stays as it is |
| `Buckets.LossOnlyByDeletionWhenEmpty` | pkg/clients/s3/s3_client.go:74-95 | a bucket that is gone, or changed owner or region, was deleted at a moment when it was empty |
| `Buckets.RepeatedDeletesSucceed` | pkg/driver/provisioner_server_impl.go:141-183 | repeated fault-free deletes all succeed and change nothing after the first |
| `Buckets.CreateThenDeleteRestores` | pkg/driver/provisioner_server_impl.go:107-183 | a create with any fault followed by a fault-free delete leaves the name as absent as before |
| `Buckets.LostCreateReplyLocksOut` | pkg/driver/provisioner_server_impl.go:129-134 | a create whose reply was lost is told AlreadyExists when retried |
| `Clients.IamClient.CreateUser` | pkg/clients/iam/iam_client.go:85-92 | one CreateUser call for the user, its error returned as it is, no other record touched |
| `Clients.IamClient.CreateS3WildcardInlinePolicy` | pkg/clients/iam/iam_client.go:95-118 | one PutUserPolicy call with the bucket as policy name and the generated document |
| `Clients.IamClient.CreateAccessKey` | pkg/clients/iam/iam_client.go:121-128 | one CreateAccessKey call; a key or an error, never both |
| `Clients.IamClient.CreateBucketAccess` | pkg/clients/iam/iam_client.go:131-151 | state, calls and result of the grant run; a key is returned iff there is no error |
| `Clients.IamClient.EnsureUserExists` | pkg/clients/iam/iam_client.go:181-184 | one GetUser call, its error returned as it is |
| `Clients.IamClient.DeleteInlinePolicy` | pkg/clients/iam/iam_client.go:186-201 | one DeleteUserPolicy call; a typed missing entity is not an error |
| `Clients.IamClient.DeleteAllAccessKeys` | pkg/clients/iam/iam_client.go:203-226 | one listing and the exact loop over it |
| `Clients.IamClient.DeleteUser` | pkg/clients/iam/iam_client.go:228-239 | one DeleteUser call; a typed missing entity is not an error |
| `Clients.IamClient.RevokeBucketAccess` | pkg/clients/iam/iam_client.go:154-179 | state, calls and result of the revoke run |
| `Clients.S3Client.CreateBucket` | pkg/clients/s3/s3_client.go:74-88 | one create request that names a location unless the region is the default one; no other bucket touched |
| `Clients.S3Client.DeleteBucket` | pkg/clients/s3/s3_client.go:90-95 | one delete request; no other bucket touched |
| `Resolution.FetchS3Parameters` | pkg/driver/provisioner_server_impl.go:352-380 | parameters iff the secret has a non-empty key identifier, secret key and endpoint; then each field is its own entry, and the IAM endpoint is its entry or else the endpoint |
| `Resolution.DefaultRegionIsOverwritten` | pkg/driver/provisioner_server_impl.go:355-360 | the region is the default one iff the secret says so; without a region a create asks for the empty location |
| `Resolution.ResolveIff` | pkg/driver/provisioner_server_impl.go:289-333 | a request resolves iff it names a secret with the required entries and a client can be made, and to what that secret says |
| `Resolution.GivenNamespaceDecides` | pkg/driver/provisioner_server_impl.go:335-345 | with a namespace in the parameters the secret of the given name in that namespace decides |
| `Resolution.PodNamespaceDecides` | pkg/driver/provisioner_server_impl.go:335-345 | without one the secret in the namespace of the pod decides |
| `Provisioner.ProvisionerServer.InitializeClient` | pkg/driver/provisioner_server_impl.go:289-333 | parameters and environment lead to a secret, to its storage parameters and to a client, or to an error; an SDK configuration that does not load is one |
| `Provisioner.ProvisionerServer.DriverCreateBucket` | pkg/driver/provisioner_server_impl.go:107-139 | Internal without any call if the parameters do not resolve; otherwise one create and its verdict |
| `Provisioner.ProvisionerServer.DriverDeleteBucket` | pkg/driver/provisioner_server_impl.go:149-184 | Internal without any call if the Bucket object is gone or does not resolve; otherwise one delete and its verdict |
| `Provisioner.ProvisionerServer.DriverGrantBucketAccess` | pkg/driver/provisioner_server_impl.go:193-238 | the grant run and its verdict; credentials iff the status is success, naming the endpoint and region of the named secret, and then the user at the account of that secret has exactly the bucket's policy and the key handed out |
| `Provisioner.ProvisionerServer.DriverRevokeBucketAccess` | pkg/driver/provisioner_server_impl.go:248-287 | the revoke run on the account of the Bucket object's parameters, and its verdict |
| `Provisioner.UnresolvedIsInternal` | pkg/driver/provisioner_server_impl.go:118-121 | a request of any of the four kinds that does not resolve, or whose Bucket object is gone, is answered Internal without a call or a change |
| `Provisioner.ResolvedMakesCalls` | pkg/driver/provisioner_server_impl.go:107-287 | and one that resolves makes at least one call |
| `Provisioner.HandlersReadGivenSecret` | pkg/driver/provisioner_server_impl.go:335-345 | with a namespace in the parameters no handler depends on any secret but that of the given name in it, nor on the namespace of the pod |
| `Provisioner.HandlersReadPodSecret` | pkg/driver/provisioner_server_impl.go:335-345 | without one no handler depends on any secret but that of the given name in the namespace of the pod |
| `Provisioner.GrantActsOnSecretsUser` | pkg/driver/provisioner_server_impl.go:203-216 | a grant acts on one user, at the account of the secret's key identifier and secret key at its IAM endpoint; on success that user was absent and has exactly the bucket's policy and one key |
| `Provisioner.RevokeActsOnSecretsUser` | pkg/driver/provisioner_server_impl.go:257-278 | a revoke acts on that one user of the secret that the Bucket object names, who is absent after reported success, misreported faults aside |
| `Provisioner.CreateActsOnSecretsEndpoint` | pkg/driver/provisioner_server_impl.go:116-138 | a create adds at most the bucket at the secret's endpoint; on success it was absent and is empty, in the secret's region and owned by the account of the secret's credentials |
| `Provisioner.DeleteActsOnSecretsEndpoint` | pkg/driver/provisioner_server_impl.go:157-183 | a delete removes at most that bucket, and only if it is empty and owned by the account of the secret's credentials; a served one succeeds iff it was absent or is removed |
| `Provisioner.RoundTripOnOneAccount` | pkg/driver/provisioner_server_impl.go:203-283 | a grant with any faults and then a fault-free revoke that resolves to the same account succeed and restore all users of all accounts |
| `Provisioner.RevokeElsewhereLeavesGrant` | pkg/driver/provisioner_server_impl.go:257-278 | a revoke that resolves to another account leaves the granted user exactly as it is |
| `Provisioner.RevokeRemovesGrantIffSameAccount` | pkg/driver/provisioner_server_impl.go:203-283 | after a successful grant a fault-free revoke removes the user iff both resolve to the same account |
| `Provisioner.RevokeSuccessMeansAbsent` | pkg/driver/provisioner_server_impl.go:257-286 | a revoke that the handler reports as success found the Bucket object and left the user absent from its account, unless a fault taken for a missing entity hit its last call |
| `Provisioner.RevokeHandlerSucceedsIff` | pkg/driver/provisioner_server_impl.go:257-286 | a fault-free revoke succeeds iff the Bucket object resolves and the user there is absent or removable |
| `Provisioner.CreateHandlerSucceedsIff` | pkg/driver/provisioner_server_impl.go:107-139 | a served create succeeds iff its parameters resolve and the bucket is absent at that endpoint |
| `Provisioner.DeleteHandlerSucceedsIff` | pkg/driver/provisioner_server_impl.go:149-184 | a served delete succeeds iff the Bucket object resolves and the bucket is absent at that endpoint, or the account's own and empty; never once the Bucket object is gone |
| `Provisioner.DeleteHandlerSuccessMeansAbsent` | pkg/driver/provisioner_server_impl.go:149-184 | a delete that the handler reports as success found the Bucket object and left the bucket absent, unless a fault with a missing-bucket code hit it |

## Left out

- Kubernetes clients and in-cluster configuration: secrets and Bucket objects are finite maps, and a missing entry stands for every failed lookup.
- TLS transport, credential providers and the SDK's own retries: a retried call is one call with one outcome. Why an SDK configuration fails to load is not modelled, only whether it does.
- The branches for a service name other than the two in use and for a client of the wrong type: the handlers always ask for the type they get.
- Parts of the IAM service that the driver never touches (groups, managed policies, MFA devices, login profiles, key quotas): what they make the service answer is covered by faults with arbitrary errors.
- Access key secrets: a key is its identifier.
- The S3 service of one legacy region that accepts the creation of an own existing bucket again: the model always refuses it.
- The text of messages and logs: a status is its code.
- gRPC transport, deadlines and cancellation: handlers run concurrently and each runs to its end; a cancelled call is a fault.
- Metrics, tracing, the identity service, flags, start-up and shutdown: no part in the access protocol.
- JSON escapes and IAM policy variables in bucket names: the reader in `Json.dfy` takes a text with an escape for unreadable, so the results about what a document allows ask for names without quotation marks, backslashes, control characters, dollar signs and slashes.
