/** Error values and their translation to gRPC status codes (pkg/osperrors).

    Two independent tests decide whether a remote call "failed because the thing is
    already gone": the IAM client searches the error for a *typed* exception, while the
    translator looks up the *code string* of the first API error it finds.
 */
module Errors {

  datatype Option<+T> = None | Some(value: T)

  /** The gRPC codes that the driver can return. */
  datatype Code =
    | OK | InvalidArgument | DeadlineExceeded | NotFound | AlreadyExists | PermissionDenied
    | ResourceExhausted | FailedPrecondition | Internal | Unavailable | Unauthenticated

  /** The dynamic type of an API error, as far as the IAM client distinguishes it. */
  datatype ApiType = NoSuchEntityException | OtherType

  datatype ApiError = ApiError(kind: ApiType, code: string)

  /** A Go error value: the SDK wraps an API error in operation and response errors, and
      `errors.Join` gives a value with two inner errors. */
  datatype Error =
    | Plain(text: string)
    | Api(api: ApiError)
    | Wrap(text: string, inner: Error)
    | Join(left: Error, right: Error)

  /** `errors.As` with a `*types.NoSuchEntityException` target. */
  predicate AsNoSuchEntity(e: Error) {
    match e
    case Plain(_) => false
    case Api(api) => api.kind == NoSuchEntityException
    case Wrap(_, inner) => AsNoSuchEntity(inner)
    case Join(left, right) => AsNoSuchEntity(left) || AsNoSuchEntity(right)
  }

  /** `errors.As` with a `smithy.APIError` target, followed by `ErrorCode()`. */
  function AsApiCode(e: Error): Option<string> {
    match e
    case Plain(_) => None
    case Api(api) => Some(api.code)
    case Wrap(_, inner) => AsApiCode(inner)
    case Join(left, right) => if AsApiCode(left).Some? then AsApiCode(left) else AsApiCode(right)
  }

  const ACTION_CREATE_BUCKET := "CreateBucket"
  const ACTION_DELETE_BUCKET := "DeleteBucket"
  const ACTION_GRANT_BUCKET_ACCESS := "GrantBucketAccess"
  const ACTION_REVOKE_BUCKET_ACCESS := "RevokeBucketAccess"

  predicate IsIdempotentAction(action: string) {
    action == ACTION_DELETE_BUCKET || action == ACTION_REVOKE_BUCKET_ACCESS || action == "delete"
  }

  predicate IsMissingCode(code: string) {
    code == "NoSuchBucket" || code == "NotFound" || code == "NoSuchEntity"
  }

  /** `status.Error`: an error with code OK is the nil error. */
  function StatusError(code: Code): Option<Code> {
    if code == OK then None else Some(code)
  }

  /** The table-driven translation; the result None is Go's nil, that is, success. */
  function Translate(action: string, e: Error, table: map<string, Code>): Option<Code> {
    match AsApiCode(e)
    case None => StatusError(Internal)
    case Some(code) =>
      if code !in table then StatusError(Internal)
      else if IsMissingCode(code) && !IsIdempotentAction(action) then StatusError(NotFound)
      else if table[code] == OK then None
      else StatusError(table[code])
  }

  const IAM_ERROR_TABLE: map<string, Code> := map[
    "EntityAlreadyExists" := AlreadyExists,
    "AccessKeyAlreadyExists" := AlreadyExists,
    "InvalidInput" := InvalidArgument,
    "InvalidUserName" := InvalidArgument,
    "ValidationError" := InvalidArgument,
    "MalformedPolicyDocument" := InvalidArgument,
    "PolicyNotAttachable" := InvalidArgument,
    "LimitExceeded" := ResourceExhausted,
    "AccessKeyLimitExceeded" := ResourceExhausted,
    "Throttled" := ResourceExhausted,
    "AccessDenied" := PermissionDenied,
    "UnauthorizedOperation" := PermissionDenied,
    "DeleteConflict" := FailedPrecondition,
    "ServiceUnavailable" := Unavailable,
    "EntityTemporarilyUnmodifiable" := Unavailable,
    "ServiceFailure" := Internal,
    "NoSuchEntity" := OK
  ]

  const S3_ERROR_TABLE: map<string, Code> := map[
    "BucketAlreadyExists" := AlreadyExists,
    "BucketAlreadyOwnedByYou" := AlreadyExists,
    "InvalidBucketName" := InvalidArgument,
    "InvalidLocationConstraint" := InvalidArgument,
    "InvalidRequest" := InvalidArgument,
    "MalformedXML" := InvalidArgument,
    "AccessDenied" := PermissionDenied,
    "BucketNotEmpty" := FailedPrecondition,
    "NoSuchBucket" := OK,
    "NotFound" := OK,
    "RequestTimeout" := DeadlineExceeded,
    "ServiceUnavailable" := Unavailable,
    "Throttled" := ResourceExhausted,
    "TooManyBuckets" := ResourceExhausted,
    "InvalidAccessKeyId" := Unauthenticated,
    "SignatureDoesNotMatch" := Unauthenticated
  ]

  function TranslateIAMError(action: string, e: Error): Option<Code> {
    Translate(action, e, IAM_ERROR_TABLE)
  }

  function TranslateS3Error(action: string, e: Error): Option<Code> {
    Translate(action, e, S3_ERROR_TABLE)
  }

  // ---------------------------------------------------------------------------------
  // What the two searches find, against the list of API errors inside an error value
  // ---------------------------------------------------------------------------------

  /** Every API error inside `e`, in the depth-first order of `errors.As`. */
  function ApiErrors(e: Error): seq<ApiError> {
    match e
    case Plain(_) => []
    case Api(api) => [api]
    case Wrap(_, inner) => ApiErrors(inner)
    case Join(left, right) => ApiErrors(left) + ApiErrors(right)
  }

  lemma {:induction false} SearchesFindListedErrors(e: Error)
    ensures AsNoSuchEntity(e) <==> exists a :: a in ApiErrors(e) && a.kind == NoSuchEntityException
    ensures AsApiCode(e) == if ApiErrors(e) == [] then None else Some(ApiErrors(e)[0].code)
  {
    match e
    case Plain(_) =>
    case Api(api) => assert api in ApiErrors(e);
    case Wrap(_, inner) => SearchesFindListedErrors(inner);
    case Join(left, right) =>
      SearchesFindListedErrors(left);
      SearchesFindListedErrors(right);
  }

  /** The code string that stands for the typed exception. */
  const NO_SUCH_ENTITY_CODE := "NoSuchEntity"

  /** The translator's view of "the entity is missing". */
  predicate CodeIsNoSuchEntity(e: Error) {
    AsApiCode(e) == Some(NO_SUCH_ENTITY_CODE)
  }

  /** Types and codes agree on every API error inside `e`, as the SDK's deserializers
      arrange for the errors they recognise. */
  ghost predicate Faithful(e: Error) {
    forall a :: a in ApiErrors(e) ==> (a.kind == NoSuchEntityException <==> a.code == NO_SUCH_ENTITY_CODE)
  }

  ghost predicate MentionsNoSuchEntity(e: Error) {
    exists a :: a in ApiErrors(e) && a.code == NO_SUCH_ENTITY_CODE
  }

  /** The typed search and the code lookup give the same verdict exactly when a missing
      entity, if mentioned at all, is the first API error in search order. */
  lemma MissingTestsAgreeIff(e: Error)
    requires Faithful(e)
    ensures (AsNoSuchEntity(e) <==> CodeIsNoSuchEntity(e))
       <==> (MentionsNoSuchEntity(e) ==> ApiErrors(e)[0].code == NO_SUCH_ENTITY_CODE)
  {
    SearchesFindListedErrors(e);
    if MentionsNoSuchEntity(e) {
      var a :| a in ApiErrors(e) && a.code == NO_SUCH_ENTITY_CODE;
      assert a.kind == NoSuchEntityException;
    }
    if ApiErrors(e) != [] {
      assert ApiErrors(e)[0] in ApiErrors(e);
    }
  }

  /** With one API error, at any depth and beside any number of plain errors, they agree. */
  lemma MissingTestsAgreeOnOneApiError(e: Error)
    requires Faithful(e) && |ApiErrors(e)| == 1
    ensures AsNoSuchEntity(e) <==> CodeIsNoSuchEntity(e)
  {
    MissingTestsAgreeIff(e);
  }

  function Wrapped(e: Error, depth: nat): Error {
    if depth == 0 then e else Wrap("operation error", Wrapped(e, depth - 1))
  }

  lemma {:induction false} WrappingIsTransparent(e: Error, depth: nat)
    ensures ApiErrors(Wrapped(e, depth)) == ApiErrors(e)
    ensures AsNoSuchEntity(Wrapped(e, depth)) == AsNoSuchEntity(e)
    ensures AsApiCode(Wrapped(e, depth)) == AsApiCode(e)
  {
    if depth != 0 {
      WrappingIsTransparent(e, depth - 1);
    }
  }

  // ---------------------------------------------------------------------------------
  // Soundness of the translator, for every table and for the two tables in use
  // ---------------------------------------------------------------------------------

  /** `e` carries, as its first API error, a code that the table maps to OK, and the
      action may treat a missing thing as done. */
  ghost predicate TreatedAsDone(action: string, e: Error, table: map<string, Code>) {
    && ApiErrors(e) != []
    && (var code := ApiErrors(e)[0].code;
        code in table && table[code] == OK && (IsMissingCode(code) ==> IsIdempotentAction(action)))
  }

  lemma TranslateSound(action: string, e: Error, table: map<string, Code>)
    ensures Translate(action, e, table) == None <==> TreatedAsDone(action, e, table)
    ensures Translate(action, e, table) != Some(OK)
  {
    SearchesFindListedErrors(e);
  }

  /** Which status an error gets that is not treated as done: Internal without an API error
      or with a first code unknown to the table; NotFound for a missing thing that a
      creating action meets; and else what the table has for the code. */
  lemma TranslateExact(action: string, e: Error, table: map<string, Code>)
    requires !TreatedAsDone(action, e, table)
    ensures ApiErrors(e) == [] ==> Translate(action, e, table) == Some(Internal)
    ensures ApiErrors(e) != [] ==>
      var code := ApiErrors(e)[0].code;
      var creating := action !in {"DeleteBucket", "RevokeBucketAccess", "delete"};
      && (code !in table ==> Translate(action, e, table) == Some(Internal))
      && (code in table && code in {"NoSuchBucket", "NotFound", "NoSuchEntity"} && creating ==>
            Translate(action, e, table) == Some(NotFound))
      && (code in table && !(code in {"NoSuchBucket", "NotFound", "NoSuchEntity"} && creating) ==>
            table[code] != OK && Translate(action, e, table) == Some(table[code]))
  {
    SearchesFindListedErrors(e);
  }

  lemma IamOkCodes()
    ensures forall c :: c in IAM_ERROR_TABLE && IAM_ERROR_TABLE[c] == OK <==> c == "NoSuchEntity"
  {
  }

  lemma S3OkCodes()
    ensures forall c :: c in S3_ERROR_TABLE && S3_ERROR_TABLE[c] == OK <==> c == "NoSuchBucket" || c == "NotFound"
  {
    assert "NotFound" in S3_ERROR_TABLE;
  }

  lemma IamRefusalCodes()
    ensures "EntityAlreadyExists" in IAM_ERROR_TABLE && IAM_ERROR_TABLE["EntityAlreadyExists"] == AlreadyExists
    ensures "DeleteConflict" in IAM_ERROR_TABLE && IAM_ERROR_TABLE["DeleteConflict"] == FailedPrecondition
    ensures "NoSuchEntity" in IAM_ERROR_TABLE && IAM_ERROR_TABLE["NoSuchEntity"] == OK
  {
  }

  /** The code that the translator looks at is one of these. */
  predicate HasCode(e: Error, codes: set<string>) {
    AsApiCode(e).Some? && AsApiCode(e).value in codes
  }

  /** The IAM codes that a failed grant reports as `status`; every other code is Internal. */
  function IamCodesFor(status: Code): set<string> {
    match status
    case NotFound => {"NoSuchEntity"}
    case AlreadyExists => {"EntityAlreadyExists", "AccessKeyAlreadyExists"}
    case InvalidArgument =>
      {"InvalidInput", "InvalidUserName", "ValidationError", "MalformedPolicyDocument", "PolicyNotAttachable"}
    case ResourceExhausted => {"LimitExceeded", "AccessKeyLimitExceeded", "Throttled"}
    case PermissionDenied => {"AccessDenied", "UnauthorizedOperation"}
    case FailedPrecondition => {"DeleteConflict"}
    case Unavailable => {"ServiceUnavailable", "EntityTemporarilyUnmodifiable"}
    case _ => {}
  }

  lemma IamTableInverse(code: string, status: Code)
    requires status != OK && status != Internal && status != NotFound
    ensures code in IamCodesFor(status) <==> code in IAM_ERROR_TABLE && IAM_ERROR_TABLE[code] == status
  {
  }

  lemma IamMissingCode(code: string)
    ensures code in IAM_ERROR_TABLE && IsMissingCode(code) <==> code == "NoSuchEntity"
    ensures code in IAM_ERROR_TABLE ==> IAM_ERROR_TABLE[code] != NotFound
  {
  }

  lemma GrantStatusByCode(e: Error, status: Code)
    requires status != Internal
    ensures TranslateIAMError(ACTION_GRANT_BUCKET_ACCESS, e) == Some(status) <==> HasCode(e, IamCodesFor(status))
  {
    ActionsDiffer();
    if AsApiCode(e).Some? {
      var code := AsApiCode(e).value;
      IamOkCodes();
      IamMissingCode(code);
      if status != OK && status != NotFound { IamTableInverse(code, status); }
    }
  }

  /** Failed revokes get the same status, a missing entity aside. */
  lemma RevokeStatusByCode(e: Error)
    ensures TranslateIAMError(ACTION_REVOKE_BUCKET_ACCESS, e)
      == if HasCode(e, {"NoSuchEntity"}) then None else TranslateIAMError(ACTION_GRANT_BUCKET_ACCESS, e)
  {
    ActionsDiffer();
    IamOkCodes();
  }

  /** The S3 codes that a failed create reports as `status`; every other code is Internal. */
  function S3CodesFor(status: Code): set<string> {
    match status
    case NotFound => {"NoSuchBucket", "NotFound"}
    case AlreadyExists => {"BucketAlreadyExists", "BucketAlreadyOwnedByYou"}
    case InvalidArgument => {"InvalidBucketName", "InvalidLocationConstraint", "InvalidRequest", "MalformedXML"}
    case PermissionDenied => {"AccessDenied"}
    case FailedPrecondition => {"BucketNotEmpty"}
    case DeadlineExceeded => {"RequestTimeout"}
    case Unavailable => {"ServiceUnavailable"}
    case ResourceExhausted => {"Throttled", "TooManyBuckets"}
    case Unauthenticated => {"InvalidAccessKeyId", "SignatureDoesNotMatch"}
    case _ => {}
  }

  lemma S3TableInverse(code: string, status: Code)
    requires status != OK && status != Internal && status != NotFound
    ensures code in S3CodesFor(status) <==> code in S3_ERROR_TABLE && S3_ERROR_TABLE[code] == status
  {
  }

  lemma S3MissingCode(code: string)
    ensures code in S3_ERROR_TABLE && IsMissingCode(code) <==> code == "NoSuchBucket" || code == "NotFound"
    ensures code in S3_ERROR_TABLE ==> S3_ERROR_TABLE[code] != NotFound
  {
  }

  lemma CreateStatusByCode(e: Error, status: Code)
    requires status != Internal
    ensures TranslateS3Error(ACTION_CREATE_BUCKET, e) == Some(status) <==> HasCode(e, S3CodesFor(status))
  {
    ActionsDiffer();
    if AsApiCode(e).Some? {
      var code := AsApiCode(e).value;
      S3OkCodes();
      S3MissingCode(code);
      if status != OK && status != NotFound { S3TableInverse(code, status); }
    }
  }

  /** Failed deletes get the same status, missing buckets aside. */
  lemma DeleteStatusByCode(e: Error)
    ensures TranslateS3Error(ACTION_DELETE_BUCKET, e)
      == if HasCode(e, {"NoSuchBucket", "NotFound"}) then None else TranslateS3Error(ACTION_CREATE_BUCKET, e)
  {
    ActionsDiffer();
    S3OkCodes();
  }

  lemma ActionsDiffer()
    ensures !IsIdempotentAction(ACTION_CREATE_BUCKET) && !IsIdempotentAction(ACTION_GRANT_BUCKET_ACCESS)
    ensures IsIdempotentAction(ACTION_DELETE_BUCKET) && IsIdempotentAction(ACTION_REVOKE_BUCKET_ACCESS)
  {
    assert ACTION_CREATE_BUCKET[0] != ACTION_DELETE_BUCKET[0];
  }

  /** A failed grant or create is never reported as success. */
  lemma GrantAndCreateNeverNil(e: Error)
    ensures TranslateIAMError(ACTION_GRANT_BUCKET_ACCESS, e).Some?
    ensures TranslateS3Error(ACTION_CREATE_BUCKET, e).Some?
  {
    IamOkCodes();
    S3OkCodes();
    ActionsDiffer();
  }

  /** A failed revoke is reported as success exactly on the missing-entity code. */
  lemma RevokeNilIff(e: Error)
    ensures TranslateIAMError(ACTION_REVOKE_BUCKET_ACCESS, e) == None <==> CodeIsNoSuchEntity(e)
  {
    IamOkCodes();
    ActionsDiffer();
  }

  lemma DeleteNilIff(e: Error)
    ensures TranslateS3Error(ACTION_DELETE_BUCKET, e) == None
       <==> AsApiCode(e) == Some("NoSuchBucket") || AsApiCode(e) == Some("NotFound")
  {
    S3OkCodes();
    ActionsDiffer();
  }
}
