/** One bucket name at an S3 endpoint, and what creating and deleting it amounts to
    (pkg/clients/s3/s3_client.go, lines 74 to 95). */
module Buckets {

  import opened Errors
  import Iam

  type Outcome = Iam.Outcome

  datatype Bucket = Bucket(owner: string, region: string, objects: set<string>)

  const DEFAULT_REGION := "us-east-1"

  /** `location` is the LocationConstraint of the request, if it carries one. */
  datatype Call = CreateBucket(location: Option<string>) | DeleteBucket

  datatype Refusal = BucketAlreadyExists | BucketAlreadyOwnedByYou | NoSuchBucket | BucketNotEmpty | AccessDenied
    | InvalidLocationConstraint

  /** The default region is named by leaving the constraint out, and cannot be named in it. */
  function Refuses(bucket: Option<Bucket>, me: string, call: Call): Option<Refusal> {
    if call == CreateBucket(Some("us-east-1")) then Some(InvalidLocationConstraint)
    else
      match bucket
      case None => if call.DeleteBucket? then Some(NoSuchBucket) else None
      case Some(b) =>
        if call.CreateBucket? then Some(if b.owner == me then BucketAlreadyOwnedByYou else BucketAlreadyExists)
        else if b.owner != me then Some(AccessDenied)
        else if b.objects != {} then Some(BucketNotEmpty)
        else None
  }

  function Apply(me: string, call: Call): Option<Bucket> {
    match call
    case CreateBucket(location) => Some(Bucket(me, if location.Some? then location.value else DEFAULT_REGION, {}))
    case DeleteBucket => None
  }

  function RefusalCode(refusal: Refusal): string {
    match refusal
    case BucketAlreadyExists => "BucketAlreadyExists"
    case BucketAlreadyOwnedByYou => "BucketAlreadyOwnedByYou"
    case NoSuchBucket => "NoSuchBucket"
    case BucketNotEmpty => "BucketNotEmpty"
    case AccessDenied => "AccessDenied"
    case InvalidLocationConstraint => "InvalidLocationConstraint"
  }

  function RefusalError(refusal: Refusal, depth: nat): Error {
    Wrapped(Api(ApiError(OtherType, RefusalCode(refusal))), depth)
  }

  /** One API call of account `me`: the new state and the error, if any. */
  function Serve(bucket: Option<Bucket>, me: string, call: Call, o: Outcome): (Option<Bucket>, Option<Error>) {
    var refusal := Refuses(bucket, me, call);
    var after := if refusal == None then Apply(me, call) else bucket;
    match o
    case Fault(err, late) => (if late then after else bucket, Some(err))
    case Served(_, depth) => (after, if refusal == None then None else Some(RefusalError(refusal.value, depth)))
  }

  /** The request that the client builds: no constraint for the default region. */
  function CreateCall(region: string): Call {
    CreateBucket(if region != DEFAULT_REGION then Some(region) else None)
  }

  /** What the handlers report. */
  function Verdict(call: Call, err: Option<Error>): Option<Code> {
    if err == None then None
    else TranslateS3Error(if call.CreateBucket? then ACTION_CREATE_BUCKET else ACTION_DELETE_BUCKET, err.value)
  }

  /** The translator takes the error for a missing bucket. */
  predicate CodeIsMissingBucket(e: Error) {
    AsApiCode(e) == Some("NoSuchBucket") || AsApiCode(e) == Some("NotFound")
  }

  /** A fault never looks like a missing bucket. */
  predicate Honest(o: Outcome) {
    o.Fault? ==> !CodeIsMissingBucket(o.err)
  }

  lemma RefusalVerdict(call: Call, refusal: Refusal, depth: nat)
    ensures Verdict(call, Some(RefusalError(refusal, depth))) ==
      match refusal
      case BucketAlreadyExists => Some(AlreadyExists)
      case BucketAlreadyOwnedByYou => Some(AlreadyExists)
      case BucketNotEmpty => Some(FailedPrecondition)
      case AccessDenied => Some(PermissionDenied)
      case InvalidLocationConstraint => Some(InvalidArgument)
      case NoSuchBucket => if call.CreateBucket? then Some(NotFound) else None
  {
    WrappingIsTransparent(RefusalError(refusal, 0), depth);
    ActionsDiffer();
  }

  // ---------------------------------------------------------------------------------
  // Single calls
  // ---------------------------------------------------------------------------------

  /** The request names every region but the default one. */
  lemma LocationNamesRegion(region: string)
    ensures CreateCall(region).CreateBucket?
    ensures CreateCall(region).location == None <==> region == "us-east-1"
    ensures region != "us-east-1" ==> CreateCall(region).location == Some(region)
  {
  }

  /** A create that is served is reported as a success exactly if the bucket was absent;
      an existing bucket gives AlreadyExists, even the caller's own in the same region. */
  lemma CreateSucceedsIff(bucket: Option<Bucket>, me: string, region: string, o: Outcome)
    requires o.Served?
    ensures var (after, err) := Serve(bucket, me, CreateCall(region), o);
      && (Verdict(CreateCall(region), err) == None <==> bucket == None)
      && (bucket.Some? ==> Verdict(CreateCall(region), err) == Some(AlreadyExists) && after == bucket)
      && (bucket == None ==> after == Some(Bucket(me, region, {})))
  {
    var refusal := Refuses(bucket, me, CreateCall(region));
    if refusal.Some? { RefusalVerdict(CreateCall(region), refusal.value, o.depth); }
  }

  /** The bucket is absent, or `me` may and can delete it. */
  predicate Deletable(bucket: Option<Bucket>, me: string) {
    bucket.Some? ==> bucket.value.owner == me && bucket.value.objects == {}
  }

  /** A delete that is served is reported as a success exactly if the bucket was absent, or
      the caller's own and empty. */
  lemma DeleteSucceedsIff(bucket: Option<Bucket>, me: string, o: Outcome)
    requires o.Served?
    ensures var (after, err) := Serve(bucket, me, DeleteBucket, o);
      && (Verdict(DeleteBucket, err) == None <==> Deletable(bucket, me))
      && after == if Deletable(bucket, me) then None else bucket
  {
    var refusal := Refuses(bucket, me, DeleteBucket);
    if refusal.Some? { RefusalVerdict(DeleteBucket, refusal.value, o.depth); }
  }

  /** A delete is reported as a success while the bucket stays exactly if it was hit by a
      fault that the translator takes for a missing bucket, and did not take effect. */
  lemma DeleteMisreportedIff(bucket: Option<Bucket>, me: string, o: Outcome)
    ensures var (after, err) := Serve(bucket, me, DeleteBucket, o);
      (Verdict(DeleteBucket, err) == None && after.Some?)
      <==> (o.Fault? && CodeIsMissingBucket(o.err) && bucket.Some? && !(o.late && Deletable(bucket, me)))
  {
    match o
    case Fault(err, _) => DeleteNilIff(err);
    case Served(_, _) => DeleteSucceedsIff(bucket, me, o);
  }

  /** Otherwise a delete reported as a success means that the bucket is absent. */
  lemma DeleteSuccessMeansAbsent(bucket: Option<Bucket>, me: string, o: Outcome)
    requires Honest(o)
    ensures var (after, err) := Serve(bucket, me, DeleteBucket, o);
      Verdict(DeleteBucket, err) == None ==> after == None
  {
    DeleteMisreportedIff(bucket, me, o);
  }

  // ---------------------------------------------------------------------------------
  // Runs
  // ---------------------------------------------------------------------------------

  /** RPCs of any account, and other clients writing and removing objects. */
  datatype Event =
    | Create(me: string, region: string, o: Outcome)
    | Delete(me: string, o: Outcome)
    | Write(objects: set<string>)

  function Step(bucket: Option<Bucket>, ev: Event): Option<Bucket> {
    match ev
    case Create(me, region, o) => Serve(bucket, me, CreateCall(region), o).0
    case Delete(me, o) => Serve(bucket, me, DeleteBucket, o).0
    case Write(objects) => if bucket.Some? then Some(bucket.value.(objects := objects)) else None
  }

  function Run(bucket: Option<Bucket>, evs: seq<Event>): Option<Bucket> {
    if evs == [] then bucket else Step(Run(bucket, evs[..|evs| - 1]), evs[|evs| - 1])
  }

  /** Whatever creates and deletes are tried by whomever, with whatever faults, a bucket
      that holds objects stays as it is. */
  lemma {:induction false} NonEmptyBucketSurvives(bucket: Option<Bucket>, evs: seq<Event>)
    requires bucket.Some? && bucket.value.objects != {}
    requires forall k :: 0 <= k < |evs| ==> !evs[k].Write?
    ensures Run(bucket, evs) == bucket
  {
    if evs != [] { NonEmptyBucketSurvives(bucket, evs[..|evs| - 1]); }
  }

  /** A bucket that is gone, or is found with another owner or region, was deleted by a
      call that took effect, at a moment when it was empty. */
  lemma {:induction false} LossOnlyByDeletionWhenEmpty(bucket: Option<Bucket>, evs: seq<Event>) returns (k: nat)
    requires bucket.Some?
    requires Run(bucket, evs) == None
      || Run(bucket, evs).value.owner != bucket.value.owner || Run(bucket, evs).value.region != bucket.value.region
    ensures k < |evs| && evs[k].Delete? && Run(bucket, evs[..k]).Some?
    ensures Run(bucket, evs[..k]).value.objects == {} && Run(bucket, evs[..k + 1]) == None
  {
    var n := |evs| - 1;
    var init := evs[..n];
    var before := Run(bucket, init);
    if before.Some? && before.value.owner == bucket.value.owner && before.value.region == bucket.value.region {
      k := n;
      assert evs[..n + 1] == evs;
    } else {
      k := LossOnlyByDeletionWhenEmpty(bucket, init);
      assert evs[..k] == init[..k] && evs[..k + 1] == init[..k + 1];
    }
  }

  /** `n` deletes by one account, one after the other, each served. */
  function Deletes(me: string, os: seq<Outcome>): seq<Event> {
    seq(|os|, i requires 0 <= i < |os| => Delete(me, os[i]))
  }

  /** Fault-free deletes of an own empty bucket, or of one that is already gone, all
      succeed, and after the first of them nothing changes any more. */
  lemma {:induction false} RepeatedDeletesSucceed(bucket: Option<Bucket>, me: string, os: seq<Outcome>)
    requires Deletable(bucket, me)
    requires os != [] && forall i :: 0 <= i < |os| ==> os[i].Served?
    ensures Run(bucket, Deletes(me, os)) == None
    ensures var before := Run(bucket, Deletes(me, os[..|os| - 1]));
      Verdict(DeleteBucket, Serve(before, me, DeleteBucket, os[|os| - 1]).1) == None
  {
    var n := |os| - 1;
    var init := os[..n];
    assert Deletes(me, os)[..n] == Deletes(me, init);
    if init == [] {
      assert Run(bucket, Deletes(me, init)) == bucket;
    } else {
      RepeatedDeletesSucceed(bucket, me, init);
    }
    RefusalVerdict(DeleteBucket, NoSuchBucket, os[n].depth);
  }

  /** Creating an absent bucket, with whatever fault, and then deleting it from the same
      account leaves it absent, and the served delete reports success. */
  lemma CreateThenDeleteRestores(me: string, region: string, o: Outcome, o': Outcome)
    requires o'.Served?
    ensures var (created, _) := Serve(None, me, CreateCall(region), o);
      var (after, err) := Serve(created, me, DeleteBucket, o');
      after == None && Verdict(DeleteBucket, err) == None
  {
    RefusalVerdict(DeleteBucket, NoSuchBucket, o'.depth);
  }

  /** A create whose reply is lost can never be retried to success while the bucket stays:
      the retry is told AlreadyExists. */
  lemma LostCreateReplyLocksOut(me: string, region: string, err: Error, o: Outcome)
    requires o.Served?
    ensures var (created, _) := Serve(None, me, CreateCall(region), Iam.Fault(err, true));
      var (after, err') := Serve(created, me, CreateCall(region), o);
      Verdict(CreateCall(region), err') == Some(AlreadyExists) && after == created
  {
    CreateSucceedsIff(Serve(None, me, CreateCall(region), Iam.Fault(err, true)).0, me, region, o);
  }
}
