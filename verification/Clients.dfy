/** The remote service and the two clients of it, as objects with state
    (pkg/clients/iam/iam_client.go and pkg/clients/s3/s3_client.go).

    The client methods are the Go functions, with their early returns and their loop. Each
    is proved against the program of module Saga: what it does to the service, what it
    returns and how many API calls it makes are those of the solo run.
 */
module Clients {

  import opened Errors
  import opened Policy
  import opened Iam
  import opened Saga
  import opened Isolation
  import Buckets

  datatype BucketId = BucketId(endpoint: string, name: string)

  type BucketStore = map<BucketId, Buckets.Bucket>

  function BucketOf(buckets: BucketStore, id: BucketId): Option<Buckets.Bucket> {
    if id in buckets then Some(buckets[id]) else None
  }

  /** One S3 API call about one bucket, with all other buckets beside it. */
  function ServeBucket(buckets: BucketStore, id: BucketId, me: string, call: Buckets.Call, o: Outcome)
    : (BucketStore, Option<Error>)
  {
    var (after, err) := Buckets.Serve(BucketOf(buckets, id), me, call, o);
    (if after.Some? then buckets[id := after.value] else buckets - {id}, err)
  }

  /** The IAM and S3 services, and the environment that answers the n-th call to them. */
  class Cloud {
    var iam: Store
    var buckets: BucketStore
    var clock: nat
    const oracle: Oracle
    /** The account that an endpoint knows an access key and secret to belong to. */
    const accountOf: (string, string, string) -> string

    constructor (oracle: Oracle, accountOf: (string, string, string) -> string)
      ensures this.oracle == oracle && this.accountOf == accountOf
      ensures iam == map[] && buckets == map[] && clock == 0
    {
      this.oracle := oracle;
      this.accountOf := accountOf;
      iam, buckets, clock := map[], map[], 0;
    }

    /** One IAM API call about one user. */
    method Invoke(who: Principal, call: Call) returns (reply: Reply)
      modifies `iam, `clock
      ensures clock == old(clock) + 1
      ensures var (rec, r) := Serve(RecordOf(old(iam), who), call, oracle(old(clock)));
        reply == r && OnlyTouched(old(iam), iam, who) && iam[who] == rec
      ensures call.CreateAccessKey? ==> reply.NewKey? || reply.Refused?
      ensures call.ListAccessKeys? ==> reply.Listing? || reply.Refused?
    {
      var o := oracle(clock);
      var rec := RecordOf(iam, who);
      var refusal := Refuses(rec, call);
      clock := clock + 1;
      iam := iam[who := rec];
      if o.Fault? && !o.late {
        return Refused(o.err);
      }
      if refusal == None {
        iam := iam[who := Apply(rec, call)];
      }
      if o.Fault? {
        return Refused(o.err);
      }
      if refusal.Some? {
        return Refused(RefusalError(refusal.value, o.depth));
      }
      return Answer(rec, call, o.page);
    }

    /** One S3 API call about one bucket. */
    method InvokeS3(id: BucketId, me: string, call: Buckets.Call) returns (err: Option<Error>)
      modifies `buckets, `clock
      ensures clock == old(clock) + 1
      ensures (buckets, err) == ServeBucket(old(buckets), id, me, call, oracle(old(clock)))
    {
      var o := oracle(clock);
      clock := clock + 1;
      var (after, e) := Buckets.Serve(BucketOf(buckets, id), me, call, o);
      buckets := if after.Some? then buckets[id := after.value] else buckets - {id};
      err := e;
    }
  }

  /** All records but that of `who` are as before. */
  predicate OnlyTouched(before: Store, after: Store, who: Principal) {
    who in after && after == before[who := after[who]]
  }

  class IamClient {
    const cloud: Cloud
    const account: string

    constructor (cloud: Cloud, iamEndpoint: string, accessKeyId: string, secretAccessKey: string)
      ensures this.cloud == cloud
      ensures account == cloud.accountOf(iamEndpoint, accessKeyId, secretAccessKey)
    {
      this.cloud := cloud;
      this.account := cloud.accountOf(iamEndpoint, accessKeyId, secretAccessKey);
    }

    function Who(userName: string): Principal { Principal(account, userName) }

    method CreateUser(userName: string) returns (err: Option<Error>)
      modifies cloud`iam, cloud`clock
      ensures cloud.clock == old(cloud.clock) + 1
      ensures var (rec, reply) :=
          Serve(RecordOf(old(cloud.iam), Who(userName)), Call.CreateUser, cloud.oracle(old(cloud.clock)));
        && OnlyTouched(old(cloud.iam), cloud.iam, Who(userName)) && cloud.iam[Who(userName)] == rec
        && err == ErrOf(reply)
    {
      var reply := cloud.Invoke(Who(userName), Call.CreateUser);
      err := ErrOf(reply);
    }

    method CreateS3WildcardInlinePolicy(userName: string, bucketName: string) returns (err: Option<Error>)
      modifies cloud`iam, cloud`clock
      ensures cloud.clock == old(cloud.clock) + 1
      ensures var call := PutUserPolicy(bucketName, Document(bucketName));
        var (rec, reply) := Serve(RecordOf(old(cloud.iam), Who(userName)), call, cloud.oracle(old(cloud.clock)));
        && OnlyTouched(old(cloud.iam), cloud.iam, Who(userName)) && cloud.iam[Who(userName)] == rec
        && err == ErrOf(reply)
    {
      var policyDocument := Document(bucketName);
      var reply := cloud.Invoke(Who(userName), PutUserPolicy(bucketName, policyDocument));
      err := ErrOf(reply);
    }

    method CreateAccessKey(userName: string) returns (key: Option<nat>, err: Option<Error>)
      modifies cloud`iam, cloud`clock
      ensures cloud.clock == old(cloud.clock) + 1
      ensures var (rec, reply) :=
          Serve(RecordOf(old(cloud.iam), Who(userName)), Call.CreateAccessKey, cloud.oracle(old(cloud.clock)));
        && OnlyTouched(old(cloud.iam), cloud.iam, Who(userName)) && cloud.iam[Who(userName)] == rec
        && (if reply.Refused? then key == None && err == Some(reply.err)
            else reply.NewKey? && key == Some(reply.key) && err == None)
    {
      var reply := cloud.Invoke(Who(userName), Call.CreateAccessKey);
      key := if reply.Refused? then None else Some(reply.key);
      err := ErrOf(reply);
    }

    /** CreateUser, PutUserPolicy, CreateAccessKey, stopping at the first error. */
    method CreateBucketAccess(userName: string, bucketName: string) returns (key: Option<nat>, err: Option<Error>)
      modifies cloud`iam, cloud`clock
      ensures var e :=
          CreateBucketAccessRun(RecordOf(old(cloud.iam), Who(userName)), bucketName, cloud.oracle, old(cloud.clock));
        && OnlyTouched(old(cloud.iam), cloud.iam, Who(userName))
        && (err == None <==> key.Some?)
        && e == Ending(cloud.iam[Who(userName)],
                       if err.Some? then Failed(err.value) else Granted(key.value), cloud.clock, 0)
    {
      err := CreateUser(userName);
      if err.Some? {
        return None, err;
      }
      err := CreateS3WildcardInlinePolicy(userName, bucketName);
      if err.Some? {
        return None, err;
      }
      key, err := CreateAccessKey(userName);
      if err.Some? {
        return None, err;
      }
      return key, None;
    }

    method EnsureUserExists(userName: string) returns (err: Option<Error>)
      modifies cloud`iam, cloud`clock
      ensures cloud.clock == old(cloud.clock) + 1
      ensures var (rec, reply) :=
          Serve(RecordOf(old(cloud.iam), Who(userName)), GetUser, cloud.oracle(old(cloud.clock)));
        && OnlyTouched(old(cloud.iam), cloud.iam, Who(userName)) && cloud.iam[Who(userName)] == rec
        && err == ErrOf(reply)
    {
      var reply := cloud.Invoke(Who(userName), GetUser);
      err := ErrOf(reply);
    }

    method DeleteInlinePolicy(userName: string, bucketName: string) returns (err: Option<Error>)
      modifies cloud`iam, cloud`clock
      ensures cloud.clock == old(cloud.clock) + 1
      ensures var (rec, reply) :=
          Serve(RecordOf(old(cloud.iam), Who(userName)), DeleteUserPolicy(bucketName), cloud.oracle(old(cloud.clock)));
        && OnlyTouched(old(cloud.iam), cloud.iam, Who(userName)) && cloud.iam[Who(userName)] == rec
        && err == ErrUnlessMissing(reply)
    {
      var reply := cloud.Invoke(Who(userName), DeleteUserPolicy(bucketName));
      if reply.Refused? {
        if AsNoSuchEntity(reply.err) {
          return None;
        }
        return Some(reply.err);
      }
      return None;
    }

    /** Lists the keys once and deletes the listed ones, one call each. */
    method DeleteAllAccessKeys(userName: string) returns (err: Option<Error>)
      modifies cloud`iam, cloud`clock
      ensures var w := ListAndSweep(RecordOf(old(cloud.iam), Who(userName)), cloud.oracle, old(cloud.clock));
        && OnlyTouched(old(cloud.iam), cloud.iam, Who(userName)) && cloud.iam[Who(userName)] == w.rec
        && err == w.err && cloud.clock == w.clock
    {
      var who := Who(userName);
      ghost var w := ListAndSweep(RecordOf(cloud.iam, who), cloud.oracle, cloud.clock);
      var reply := cloud.Invoke(who, ListAccessKeys);
      if reply.Refused? {
        return Some(reply.err);
      }
      for i := 0 to |reply.page|
        invariant OnlyTouched(old(cloud.iam), cloud.iam, who)
        invariant SameSweep(w, Sweep(cloud.iam[who], reply.page[i..], cloud.oracle, cloud.clock))
      {
        SweepUnfolds(cloud.iam[who], reply.page[i..], cloud.oracle, cloud.clock);
        assert reply.page[i..][1..] == reply.page[i + 1..];
        var deleted := cloud.Invoke(who, DeleteAccessKey(reply.page[i]));
        if deleted.Refused? {
          if AsNoSuchEntity(deleted.err) {
            continue;
          }
          return Some(deleted.err);
        }
      }
      return None;
    }

    method DeleteUser(userName: string) returns (err: Option<Error>)
      modifies cloud`iam, cloud`clock
      ensures cloud.clock == old(cloud.clock) + 1
      ensures var (rec, reply) :=
          Serve(RecordOf(old(cloud.iam), Who(userName)), Call.DeleteUser, cloud.oracle(old(cloud.clock)));
        && OnlyTouched(old(cloud.iam), cloud.iam, Who(userName)) && cloud.iam[Who(userName)] == rec
        && err == ErrUnlessMissing(reply)
    {
      var reply := cloud.Invoke(Who(userName), Call.DeleteUser);
      if reply.Refused? {
        if AsNoSuchEntity(reply.err) {
          return None;
        }
        return Some(reply.err);
      }
      return None;
    }

    /** GetUser, DeleteUserPolicy, the key loop, DeleteUser, stopping at the first error
        that is not tolerated. */
    method RevokeBucketAccess(userName: string, bucketName: string) returns (err: Option<Error>)
      modifies cloud`iam, cloud`clock
      ensures var e :=
          RevokeBucketAccessRun(RecordOf(old(cloud.iam), Who(userName)), bucketName, cloud.oracle, old(cloud.clock));
        && OnlyTouched(old(cloud.iam), cloud.iam, Who(userName))
        && e == Ending(cloud.iam[Who(userName)], if err.Some? then Failed(err.value) else Revoked, cloud.clock, 0)
    {
      err := EnsureUserExists(userName);
      if err.Some? {
        return err;
      }
      err := DeleteInlinePolicy(userName, bucketName);
      if err.Some? {
        return err;
      }
      err := DeleteAllAccessKeys(userName);
      if err.Some? {
        return err;
      }
      err := DeleteUser(userName);
      if err.Some? {
        return err;
      }
      return None;
    }
  }

  class S3Client {
    const cloud: Cloud
    const endpoint: string
    const account: string

    constructor (cloud: Cloud, endpoint: string, accessKeyId: string, secretAccessKey: string)
      ensures this.cloud == cloud && this.endpoint == endpoint
      ensures account == cloud.accountOf(endpoint, accessKeyId, secretAccessKey)
    {
      this.cloud := cloud;
      this.endpoint := endpoint;
      this.account := cloud.accountOf(endpoint, accessKeyId, secretAccessKey);
    }

    function Id(bucketName: string): BucketId { BucketId(endpoint, bucketName) }

    method CreateBucket(bucketName: string, region: string) returns (err: Option<Error>)
      modifies cloud`buckets, cloud`clock
      ensures cloud.clock == old(cloud.clock) + 1
      ensures (cloud.buckets, err) == ServeBucket(
        old(cloud.buckets), Id(bucketName), account, Buckets.CreateCall(region), cloud.oracle(old(cloud.clock)))
    {
      var location: Option<string> := None;
      if region != Buckets.DEFAULT_REGION {
        location := Some(region);
      }
      err := cloud.InvokeS3(Id(bucketName), account, Buckets.CreateBucket(location));
    }

    method DeleteBucket(bucketName: string) returns (err: Option<Error>)
      modifies cloud`buckets, cloud`clock
      ensures cloud.clock == old(cloud.clock) + 1
      ensures (cloud.buckets, err) == ServeBucket(
        old(cloud.buckets), Id(bucketName), account, Buckets.DeleteBucket, cloud.oracle(old(cloud.clock)))
    {
      err := cloud.InvokeS3(Id(bucketName), account, Buckets.DeleteBucket);
    }
  }
}
