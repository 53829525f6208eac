/** The four RPC handlers (pkg/driver/provisioner_server_impl.go, lines 95 to 287), and on
    whose account they act. */
module Provisioner {

  import opened Errors
  import opened Policy
  import opened Iam
  import opened Saga
  import opened Isolation
  import opened Clients
  import opened Resolution
  import Buckets
  import Recovery
  import Revocation

  // ---------------------------------------------------------------------------------
  // What the access handlers do, as functions of the state they find
  // ---------------------------------------------------------------------------------

  type Accounts = (string, string, string) -> string

  function WhoIs(accounts: Accounts, p: StorageClientParameters, user: string): Principal {
    Principal(accounts(p.iamEndpoint, p.accessKeyId, p.secretAccessKey), user)
  }

  datatype Effect = Effect(store: Store, clock: nat, status: Option<Code>)

  function RunJob(store: Store, who: Principal, job: Job, o: Oracle, t: nat): Effect {
    var e := Solo(RecordOf(store, who), Start(job), o, t);
    Effect(store[who := e.rec], e.clock, Verdict(job, e.result))
  }

  function GrantEffect(accounts: Accounts, kube: Kubernetes, store: Store, o: Oracle, t: nat,
                       bucket: string, user: string, parameters: Parameters): Effect
  {
    match Resolve(kube, parameters)
    case None => Effect(store, t, Some(Internal))
    case Some(p) => RunJob(store, WhoIs(accounts, p, user), Grant(bucket), o, t)
  }

  function RevokeEffect(accounts: Accounts, kube: Kubernetes, store: Store, o: Oracle, t: nat,
                        bucket: string, user: string): Effect
  {
    match ResolveBucket(kube, bucket)
    case None => Effect(store, t, Some(Internal))
    case Some(p) => RunJob(store, WhoIs(accounts, p, user), Revoke(bucket), o, t)
  }

  // ---------------------------------------------------------------------------------
  // What the bucket handlers do
  // ---------------------------------------------------------------------------------

  datatype BucketEffect = BucketEffect(buckets: BucketStore, clock: nat, status: Option<Code>)

  function S3Account(accounts: Accounts, p: StorageClientParameters): string {
    accounts(p.endpoint, p.accessKeyId, p.secretAccessKey)
  }

  function RunBucketCall(accounts: Accounts, p: StorageClientParameters, buckets: BucketStore, o: Oracle, t: nat,
                         name: string, call: Buckets.Call): BucketEffect
  {
    var (after, err) := ServeBucket(buckets, BucketId(p.endpoint, name), S3Account(accounts, p), call, o(t));
    BucketEffect(after, t + 1, Buckets.Verdict(call, err))
  }

  function CreateBucketEffect(accounts: Accounts, kube: Kubernetes, buckets: BucketStore, o: Oracle, t: nat,
                              name: string, parameters: Parameters): BucketEffect
  {
    match Resolve(kube, parameters)
    case None => BucketEffect(buckets, t, Some(Internal))
    case Some(p) => RunBucketCall(accounts, p, buckets, o, t, name, Buckets.CreateCall(p.region))
  }

  function DeleteBucketEffect(accounts: Accounts, kube: Kubernetes, buckets: BucketStore, o: Oracle, t: nat,
                              bucket: string): BucketEffect
  {
    match ResolveBucket(kube, bucket)
    case None => BucketEffect(buckets, t, Some(Internal))
    case Some(p) => RunBucketCall(accounts, p, buckets, o, t, bucket, Buckets.DeleteBucket)
  }

  // ---------------------------------------------------------------------------------
  // The handlers
  // ---------------------------------------------------------------------------------

  datatype Credentials = Credentials(accountId: string, accessKey: nat, endpoint: string, region: string)

  /** The user that a secret's credentials lead to at its IAM endpoint, or, if it names
      none, at its S3 endpoint. */
  ghost predicate IsSecretsUser(accounts: Accounts, secret: Parameters, user: string, who: Principal) {
    && "accessKeyId" in secret && "secretAccessKey" in secret && "endpoint" in secret
    && var iamEndpoint :=
         if "iamEndpoint" in secret && secret["iamEndpoint"] != "" then secret["iamEndpoint"] else secret["endpoint"];
       who == Principal(accounts(iamEndpoint, secret["accessKeyId"], secret["secretAccessKey"]), user)
  }

  /** The credentials name the user, the endpoint and the region of the secret that the
      request names; and at that secret's account the user has exactly the bucket's policy
      and the key handed out. */
  ghost predicate GrantedAt(accounts: Accounts, kube: Kubernetes, parameters: Parameters, store: Store,
                            bucket: string, user: string, response: Credentials)
  {
    exists secret, who ::
      && NamesSecret(kube, parameters, secret) && IsSecretsUser(accounts, secret, user, who)
      && RecordOf(store, who).live == Some(User(map[bucket := Document(bucket)], {response.accessKey}))
      && response.accountId == user && response.endpoint == secret["endpoint"]
      && response.region == (if "region" in secret then secret["region"] else "")
  }

  lemma GrantedCredentials(accounts: Accounts, kube: Kubernetes, store: Store, o: Oracle, t: nat,
                           bucket: string, user: string, parameters: Parameters, response: Credentials)
    requires Resolve(kube, parameters).Some?
    requires var p := Resolve(kube, parameters).value;
      var e := Solo(RecordOf(store, WhoIs(accounts, p, user)), Start(Grant(bucket)), o, t);
      e.result.Granted? && response == Credentials(user, e.result.key, p.endpoint, p.region)
    ensures var g := GrantEffect(accounts, kube, store, o, t, bucket, user, parameters);
      GrantedAt(accounts, kube, parameters, g.store, bucket, user, response)
  {
    ResolvedSecret(kube, parameters);
    var secret :| NamesSecret(kube, parameters, secret) && ParametersOf(secret) == Resolve(kube, parameters);
    var who := WhoIs(accounts, Resolve(kube, parameters).value, user);
    assert IsSecretsUser(accounts, secret, user, who);
    var rec := RecordOf(store, who);
    if rec.live == None {
      Recovery.GrantFromAbsent(rec, bucket, o, t);
    } else {
      Recovery.GrantFromLive(rec, bucket, o, t);
    }
  }

  lemma ResolvedSecret(kube: Kubernetes, parameters: Parameters)
    ensures Resolve(kube, parameters).Some? ==>
      exists secret :: NamesSecret(kube, parameters, secret) && ParametersOf(secret) == Resolve(kube, parameters)
  {
    ResolveIff(kube, parameters);
  }

  class ProvisionerServer {
    const cloud: Cloud
    var kube: Kubernetes

    constructor (cloud: Cloud, kube: Kubernetes)
      ensures this.cloud == cloud && this.kube == kube
    {
      this.cloud := cloud;
      this.kube := kube;
    }

    method InitializeClient(parameters: Parameters) returns (params: Option<StorageClientParameters>)
      ensures params == Resolve(kube, parameters)
    {
      var secretName := FetchSecretInfo(kube, parameters);
      if secretName == None || secretName.value !in kube.secrets {
        return None;
      }
      params := FetchS3Parameters(kube.secrets[secretName.value]);
      if params == None {
        return None;
      }
      if !kube.sdkConfigLoads {
        return None;
      }
    }

    method DriverCreateBucket(name: string, parameters: Parameters) returns (status: Option<Code>)
      modifies cloud`buckets, cloud`clock
      ensures BucketEffect(cloud.buckets, cloud.clock, status) == CreateBucketEffect(
        cloud.accountOf, kube, old(cloud.buckets), cloud.oracle, old(cloud.clock), name, parameters)
    {
      var params := InitializeClient(parameters);
      if params == None {
        return Some(Internal);
      }
      var p := params.value;
      var s3Client := new S3Client(cloud, p.endpoint, p.accessKeyId, p.secretAccessKey);
      var err := s3Client.CreateBucket(name, p.region);
      if err.Some? {
        var translated := TranslateS3Error(ACTION_CREATE_BUCKET, err.value);
        if translated.Some? {
          return translated;
        }
      }
      return None;
    }

    method DriverDeleteBucket(bucketId: string) returns (status: Option<Code>)
      modifies cloud`buckets, cloud`clock
      ensures BucketEffect(cloud.buckets, cloud.clock, status) == DeleteBucketEffect(
        cloud.accountOf, kube, old(cloud.buckets), cloud.oracle, old(cloud.clock), bucketId)
    {
      if bucketId !in kube.bucketObjects {
        return Some(Internal);
      }
      var params := InitializeClient(kube.bucketObjects[bucketId]);
      if params == None {
        return Some(Internal);
      }
      var p := params.value;
      var s3Client := new S3Client(cloud, p.endpoint, p.accessKeyId, p.secretAccessKey);
      var err := s3Client.DeleteBucket(bucketId);
      if err.Some? {
        var translated := TranslateS3Error(ACTION_DELETE_BUCKET, err.value);
        if translated.Some? {
          return translated;
        }
      }
      return None;
    }

    method DriverGrantBucketAccess(bucketId: string, name: string, parameters: Parameters)
      returns (response: Option<Credentials>, status: Option<Code>)
      modifies cloud`iam, cloud`clock
      ensures Effect(cloud.iam, cloud.clock, status)
        == GrantEffect(
             cloud.accountOf, kube, old(cloud.iam), cloud.oracle, old(cloud.clock), bucketId, name, parameters)
      ensures response.Some? <==> status == None
      ensures response.Some? ==>
        GrantedAt(cloud.accountOf, kube, parameters, cloud.iam, bucketId, name, response.value)
      ensures response.Some? ==>
        && Resolve(kube, parameters).Some?
        && var p := Resolve(kube, parameters).value;
           var rec := RecordOf(old(cloud.iam), WhoIs(cloud.accountOf, p, name));
           var e := Solo(rec, Start(Grant(bucketId)), cloud.oracle, old(cloud.clock));
           e.result.Granted? && response.value == Credentials(name, e.result.key, p.endpoint, p.region)
    {
      var params := InitializeClient(parameters);
      if params == None {
        return None, Some(Internal);
      }
      var p := params.value;
      var iamClient := new IamClient(cloud, p.iamEndpoint, p.accessKeyId, p.secretAccessKey);
      GrantRunIsSolo(RecordOf(cloud.iam, iamClient.Who(name)), bucketId, cloud.oracle, cloud.clock);
      var userInfo, err := iamClient.CreateBucketAccess(name, bucketId);
      if err.Some? {
        var translated := TranslateIAMError(ACTION_GRANT_BUCKET_ACCESS, err.value);
        GrantAndCreateNeverNil(err.value);
        if translated.Some? {
          return None, translated;
        }
      }
      // The Go code dereferences userInfo here.
      response, status := Some(Credentials(name, userInfo.value, p.endpoint, p.region)), None;
      GrantedCredentials(cloud.accountOf, kube, old(cloud.iam), cloud.oracle, old(cloud.clock), bucketId, name,
                         parameters, response.value);
    }

    method DriverRevokeBucketAccess(bucketId: string, accountId: string) returns (status: Option<Code>)
      modifies cloud`iam, cloud`clock
      ensures Effect(cloud.iam, cloud.clock, status)
        == RevokeEffect(cloud.accountOf, kube, old(cloud.iam), cloud.oracle, old(cloud.clock), bucketId, accountId)
    {
      if bucketId !in kube.bucketObjects {
        return Some(Internal);
      }
      var params := InitializeClient(kube.bucketObjects[bucketId]);
      if params == None {
        return Some(Internal);
      }
      var p := params.value;
      var iamClient := new IamClient(cloud, p.iamEndpoint, p.accessKeyId, p.secretAccessKey);
      RevokeRunIsSolo(RecordOf(cloud.iam, iamClient.Who(accountId)), bucketId, cloud.oracle, cloud.clock);
      var err := iamClient.RevokeBucketAccess(accountId, bucketId);
      if err.Some? {
        var translated := TranslateIAMError(ACTION_REVOKE_BUCKET_ACCESS, err.value);
        if translated.Some? {
          return translated;
        }
      }
      return None;
    }
  }

  // ---------------------------------------------------------------------------------
  // Whose account, endpoint and bucket it is
  // ---------------------------------------------------------------------------------

  /** A request that does not resolve is answered Internal, without a call and without any
      change. */
  lemma UnresolvedIsInternal(accounts: Accounts, kube: Kubernetes, store: Store, buckets: BucketStore, o: Oracle,
                             t: nat, bucket: string, user: string, parameters: Parameters)
    ensures Resolve(kube, parameters) == None ==>
      && GrantEffect(accounts, kube, store, o, t, bucket, user, parameters) == Effect(store, t, Some(Internal))
      && CreateBucketEffect(accounts, kube, buckets, o, t, bucket, parameters)
         == BucketEffect(buckets, t, Some(Internal))
    ensures bucket !in kube.bucketObjects || Resolve(kube, kube.bucketObjects[bucket]) == None ==>
      && RevokeEffect(accounts, kube, store, o, t, bucket, user) == Effect(store, t, Some(Internal))
      && DeleteBucketEffect(accounts, kube, buckets, o, t, bucket) == BucketEffect(buckets, t, Some(Internal))
  {
  }

  /** And only such a request makes no call. */
  lemma ResolvedMakesCalls(accounts: Accounts, kube: Kubernetes, store: Store, buckets: BucketStore, o: Oracle,
                           t: nat, bucket: string, user: string, parameters: Parameters)
    ensures Resolve(kube, parameters).Some? ==>
      && GrantEffect(accounts, kube, store, o, t, bucket, user, parameters).clock > t
      && CreateBucketEffect(accounts, kube, buckets, o, t, bucket, parameters).clock > t
    ensures bucket in kube.bucketObjects && Resolve(kube, kube.bucketObjects[bucket]).Some? ==>
      && RevokeEffect(accounts, kube, store, o, t, bucket, user).clock > t
      && DeleteBucketEffect(accounts, kube, buckets, o, t, bucket).clock > t
  {
    forall rec, job ensures Solo(rec, Start(job), o, t).clock > t {
      var (rec', p') := StepProc(rec, Start(job), o(t));
      SoloCountsFaults(rec', p', o, t + 1);
    }
  }

  /** The bucket's Kubernetes object has these parameters. */
  predicate GivesParameters(kube: Kubernetes, bucket: string, parameters: Parameters) {
    bucket in kube.bucketObjects && kube.bucketObjects[bucket] == parameters
  }

  /** With a namespace in the parameters, no handler depends on any secret but the one of the
      given name in it, nor on the namespace of the pod. */
  lemma HandlersReadGivenSecret(accounts: Accounts, a: Kubernetes, b: Kubernetes, store: Store, buckets: BucketStore,
                                o: Oracle, t: nat, bucket: string, user: string, parameters: Parameters,
                                namespace: string, name: string)
    requires namespace != "" && HasEntry(parameters, "objectStorageSecretNamespace", namespace)
    requires HasEntry(parameters, "objectStorageSecretName", name)
    requires AgreeOn(a, b, SecretName(namespace, name))
    ensures GrantEffect(accounts, a, store, o, t, bucket, user, parameters)
         == GrantEffect(accounts, b, store, o, t, bucket, user, parameters)
    ensures CreateBucketEffect(accounts, a, buckets, o, t, bucket, parameters)
         == CreateBucketEffect(accounts, b, buckets, o, t, bucket, parameters)
    ensures GivesParameters(a, bucket, parameters) && GivesParameters(b, bucket, parameters) ==>
      && RevokeEffect(accounts, a, store, o, t, bucket, user) == RevokeEffect(accounts, b, store, o, t, bucket, user)
      && DeleteBucketEffect(accounts, a, buckets, o, t, bucket)
         == DeleteBucketEffect(accounts, b, buckets, o, t, bucket)
  {
    OnlyGivenNamespaceMatters(a, b, parameters, namespace, name);
  }

  /** Without one, none depends on any secret but the one of that name in the namespace of
      the pod. */
  lemma HandlersReadPodSecret(accounts: Accounts, a: Kubernetes, b: Kubernetes, store: Store, buckets: BucketStore,
                              o: Oracle, t: nat, bucket: string, user: string, parameters: Parameters, name: string)
    requires "objectStorageSecretNamespace" in parameters ==> parameters["objectStorageSecretNamespace"] == ""
    requires HasEntry(parameters, "objectStorageSecretName", name)
    requires a.podNamespace == b.podNamespace && AgreeOn(a, b, SecretName(a.podNamespace, name))
    ensures GrantEffect(accounts, a, store, o, t, bucket, user, parameters)
         == GrantEffect(accounts, b, store, o, t, bucket, user, parameters)
    ensures CreateBucketEffect(accounts, a, buckets, o, t, bucket, parameters)
         == CreateBucketEffect(accounts, b, buckets, o, t, bucket, parameters)
    ensures GivesParameters(a, bucket, parameters) && GivesParameters(b, bucket, parameters) ==>
      && RevokeEffect(accounts, a, store, o, t, bucket, user) == RevokeEffect(accounts, b, store, o, t, bucket, user)
      && DeleteBucketEffect(accounts, a, buckets, o, t, bucket)
         == DeleteBucketEffect(accounts, b, buckets, o, t, bucket)
  {
    OnlyPodNamespaceMatters(a, b, parameters, name);
  }

  /** A grant acts on the user of that name at the account that the named secret's
      credentials belong to at its IAM endpoint, and on no other. If it is reported as a
      success, that user has exactly the bucket's policy and one key. */
  lemma GrantActsOnSecretsUser(accounts: Accounts, kube: Kubernetes, store: Store, o: Oracle, t: nat, bucket: string,
                               user: string, parameters: Parameters, secret: Parameters, who: Principal)
    requires NamesSecret(kube, parameters, secret) && IsSecretsUser(accounts, secret, user, who)
    ensures var g := GrantEffect(accounts, kube, store, o, t, bucket, user, parameters);
      && (forall other :: other != who ==> RecordOf(g.store, other) == RecordOf(store, other))
      && (g.status == None ==>
            && RecordOf(store, who).live == None
            && exists key :: RecordOf(g.store, who).live == Some(User(map[bucket := Document(bucket)], {key})))
  {
    ResolveIff(kube, parameters);
    var rec := RecordOf(store, who);
    var e := Solo(rec, Start(Grant(bucket)), o, t);
    Recovery.SuccessIsGranted(Grant(bucket), rec, o, t);
    if rec.live == None {
      Recovery.GrantFromAbsent(rec, bucket, o, t);
    } else {
      Recovery.GrantFromLive(rec, bucket, o, t);
    }
  }

  /** A revoke acts on that user of the secret that the bucket object names, and on no other.
      If it is reported as a success, the user is absent, faults that a test takes for a
      missing entity aside. */
  lemma RevokeActsOnSecretsUser(accounts: Accounts, kube: Kubernetes, store: Store, o: Oracle, t: nat, bucket: string,
                                user: string, secret: Parameters, who: Principal)
    requires bucket in kube.bucketObjects && NamesSecret(kube, kube.bucketObjects[bucket], secret)
    requires IsSecretsUser(accounts, secret, user, who)
    ensures var r := RevokeEffect(accounts, kube, store, o, t, bucket, user);
      && (forall other :: other != who ==> RecordOf(r.store, other) == RecordOf(store, other))
      && (r.status == None && Revocation.LastFaultHonest(o, r.clock) ==> RecordOf(r.store, who).live == None)
  {
    ResolveIff(kube, kube.bucketObjects[bucket]);
    var r := RevokeEffect(accounts, kube, store, o, t, bucket, user);
    var rec := RecordOf(store, who);
    if r.status == None && Revocation.LastFaultHonest(o, r.clock) {
      VerdictIsSucceeds(Revoke(bucket), Solo(rec, Start(Revoke(bucket)), o, t).result);
      Revocation.SuccessfulSoloSeesAbsence(rec, Start(Revoke(bucket)), o, t);
    }
  }

  /** A create makes the bucket of that name at the named secret's S3 endpoint, or nothing.
      If it is reported as a success, the bucket was absent and is now empty, in the
      secret's region, and owned by the account of the secret's credentials there. */
  lemma CreateActsOnSecretsEndpoint(accounts: Accounts, kube: Kubernetes, buckets: BucketStore, o: Oracle, t: nat,
                                    name: string, parameters: Parameters, secret: Parameters)
    requires NamesSecret(kube, parameters, secret)
    requires "accessKeyId" in secret && "secretAccessKey" in secret && "endpoint" in secret
    ensures var e, id := CreateBucketEffect(accounts, kube, buckets, o, t, name, parameters),
                         BucketId(secret["endpoint"], name);
      var made := Buckets.Bucket(
        accounts(secret["endpoint"], secret["accessKeyId"], secret["secretAccessKey"]),
        if "region" in secret then secret["region"] else "",
        {});
      && (e.buckets == buckets || (id !in buckets && e.buckets == buckets[id := made]))
      && (e.status == None ==> id !in buckets && e.buckets == buckets[id := made])
  {
    ResolveIff(kube, parameters);
    if Resolve(kube, parameters).Some? {
      var p := Resolve(kube, parameters).value;
      var before := BucketOf(buckets, BucketId(p.endpoint, name));
      if o(t).Served? {
        Buckets.CreateSucceedsIff(before, S3Account(accounts, p), p.region, o(t));
      } else {
        GrantAndCreateNeverNil(o(t).err);
      }
      assert before == None ==> buckets - {BucketId(p.endpoint, name)} == buckets;
    }
  }

  /** A delete removes the bucket of that name at the endpoint of the secret that the bucket
      object names, or nothing; and it does so only if that bucket is empty and owned by the
      account of the secret's credentials there. If its call is served, it is reported as a
      success exactly if the bucket was absent or is removed. */
  lemma DeleteActsOnSecretsEndpoint(accounts: Accounts, kube: Kubernetes, buckets: BucketStore, o: Oracle, t: nat,
                                    bucket: string, secret: Parameters)
    requires bucket in kube.bucketObjects && NamesSecret(kube, kube.bucketObjects[bucket], secret)
    requires ParametersOf(secret).Some? && kube.sdkConfigLoads
    ensures var e, id := DeleteBucketEffect(accounts, kube, buckets, o, t, bucket),
                         BucketId(secret["endpoint"], bucket);
      var removable := id in buckets && buckets[id].objects == {}
        && buckets[id].owner == accounts(secret["endpoint"], secret["accessKeyId"], secret["secretAccessKey"]);
      && (e.buckets == buckets || (removable && e.buckets == buckets - {id}))
      && (o(t).Served? ==>
            && (e.status == None <==> id !in buckets || removable)
            && e.buckets == if removable then buckets - {id} else buckets)
  {
    ResolveIff(kube, kube.bucketObjects[bucket]);
    var p := ParametersOf(secret).value;
    var before := BucketOf(buckets, BucketId(p.endpoint, bucket));
    if o(t).Served? { Buckets.DeleteSucceedsIff(before, S3Account(accounts, p), o(t)); }
    assert BucketId(p.endpoint, bucket) !in buckets ==> buckets - {BucketId(p.endpoint, bucket)} == buckets;
  }

  // ---------------------------------------------------------------------------------
  // Grant and revoke across accounts
  // ---------------------------------------------------------------------------------

  ghost predicate SameUsers(a: Store, b: Store) {
    forall who :: RecordOf(a, who).live == RecordOf(b, who).live
  }

  /** A grant with arbitrary faults and then a fault-free revoke of the same user and
      bucket: if the request parameters and the bucket object lead to the same IAM account,
      the revoke is reported as a success and all users of all accounts are as before. */
  lemma RoundTripOnOneAccount(accounts: Accounts, kg: Kubernetes, kr: Kubernetes, store: Store,
                              o: Oracle, t: nat, o': Oracle, bucket: string, user: string,
                              parameters: Parameters, limit: nat)
    requires limit > 0
    requires Resolve(kg, parameters).Some? && ResolveBucket(kr, bucket).Some?
    requires WhoIs(accounts, Resolve(kg, parameters).value, user)
          == WhoIs(accounts, ResolveBucket(kr, bucket).value, user)
    requires var who := WhoIs(accounts, Resolve(kg, parameters).value, user);
      var g := GrantEffect(accounts, kg, store, o, t, bucket, user, parameters);
      && RecordOf(store, who).live == None
      && Recovery.FaultFree(o', g.clock)
      && HonestSolo(RecordOf(g.store, who), Start(Revoke(bucket)), o', g.clock, limit)
    ensures var g := GrantEffect(accounts, kg, store, o, t, bucket, user, parameters);
      var r := RevokeEffect(accounts, kr, g.store, o', g.clock, bucket, user);
      r.status == None && SameUsers(r.store, store)
  {
    var who := WhoIs(accounts, Resolve(kg, parameters).value, user);
    var g := GrantEffect(accounts, kg, store, o, t, bucket, user, parameters);
    Recovery.RevokeUndoesGrant(RecordOf(store, who), bucket, o, t, o', g.clock, limit);
  }

  /** If they lead to different accounts, the revoke leaves what the grant made exactly as
      it is, whatever it reports. */
  lemma RevokeElsewhereLeavesGrant(accounts: Accounts, kr: Kubernetes, store: Store, o: Oracle, t: nat,
                                   bucket: string, user: string, granted: Principal)
    requires ResolveBucket(kr, bucket).Some? ==> WhoIs(accounts, ResolveBucket(kr, bucket).value, user) != granted
    ensures RecordOf(RevokeEffect(accounts, kr, store, o, t, bucket, user).store, granted) == RecordOf(store, granted)
  {
  }

  /** After a successful grant, a fault-free revoke removes the user exactly if both lead to
      the same account. */
  lemma RevokeRemovesGrantIffSameAccount(accounts: Accounts, kg: Kubernetes, kr: Kubernetes, store: Store,
                                         o: Oracle, t: nat, o': Oracle, bucket: string, user: string,
                                         parameters: Parameters, limit: nat)
    requires limit > 0 && Resolve(kg, parameters).Some? && ResolveBucket(kr, bucket).Some?
    requires var g := GrantEffect(accounts, kg, store, o, t, bucket, user, parameters);
      var who := WhoIs(accounts, ResolveBucket(kr, bucket).value, user);
      && g.status == None
      && Recovery.FaultFree(o', g.clock)
      && HonestSolo(RecordOf(g.store, who), Start(Revoke(bucket)), o', g.clock, limit)
    ensures var g := GrantEffect(accounts, kg, store, o, t, bucket, user, parameters);
      var r := RevokeEffect(accounts, kr, g.store, o', g.clock, bucket, user);
      var granted := WhoIs(accounts, Resolve(kg, parameters).value, user);
      RecordOf(r.store, granted).live == None <==> granted == WhoIs(accounts, ResolveBucket(kr, bucket).value, user)
  {
    var granted := WhoIs(accounts, Resolve(kg, parameters).value, user);
    var rec := RecordOf(store, granted);
    var e := Solo(rec, Start(Grant(bucket)), o, t);
    VerdictIsSucceeds(Grant(bucket), e.result);
    if rec.live.Some? {
      Recovery.GrantFromLive(rec, bucket, o, t);
    } else {
      Recovery.GrantFromAbsent(rec, bucket, o, t);
      if granted == WhoIs(accounts, ResolveBucket(kr, bucket).value, user) {
        RoundTripOnOneAccount(accounts, kg, kr, store, o, t, o', bucket, user, parameters, limit);
        var g := GrantEffect(accounts, kg, store, o, t, bucket, user, parameters);
        var r := RevokeEffect(accounts, kr, g.store, o', g.clock, bucket, user);
        assert RecordOf(r.store, granted).live == RecordOf(store, granted).live;
      }
    }
  }

  /** The user that a revoke acts on, if the bucket object is there and leads to an account. */
  function RevokedUser(accounts: Accounts, kube: Kubernetes, bucket: string, user: string): Option<Principal> {
    match ResolveBucket(kube, bucket)
    case None => None
    case Some(p) => Some(WhoIs(accounts, p, user))
  }

  /** A revoke that the handler reports as a success means that the user is absent from the
      account that the bucket object leads to, whatever it found there, unless its last call
      was hit by a fault that one of the two tests takes for a missing entity. */
  lemma RevokeSuccessMeansAbsent(accounts: Accounts, kube: Kubernetes, store: Store, o: Oracle, t: nat,
                                 bucket: string, user: string)
    requires RevokedUser(accounts, kube, bucket, user).Some? ==>
      Revocation.LastFaultHonest(o, RevokeEffect(accounts, kube, store, o, t, bucket, user).clock)
    ensures var r, who := RevokeEffect(accounts, kube, store, o, t, bucket, user),
                          RevokedUser(accounts, kube, bucket, user);
      r.status == None ==> who.Some? && RecordOf(r.store, who.value).live == None
  {
    var who := RevokedUser(accounts, kube, bucket, user);
    if who.Some? {
      var rec := RecordOf(store, who.value);
      Revocation.SuccessfulSoloSeesAbsence(rec, Start(Revoke(bucket)), o, t);
      VerdictIsSucceeds(Revoke(bucket), Solo(rec, Start(Revoke(bucket)), o, t).result);
    }
  }

  /** A fault-free revoke is reported as a success exactly if the bucket object is there and
      leads to an account, and the user it finds there is absent or removable. In
      particular it never succeeds once the bucket object is gone. */
  lemma RevokeHandlerSucceedsIff(accounts: Accounts, kube: Kubernetes, store: Store, o: Oracle, t: nat,
                                 bucket: string, user: string, limit: nat)
    requires limit > 0 && Recovery.FaultFree(o, t)
    requires var who := RevokedUser(accounts, kube, bucket, user);
      who.Some? ==> HonestSolo(RecordOf(store, who.value), Start(Revoke(bucket)), o, t, limit)
    ensures var who := RevokedUser(accounts, kube, bucket, user);
      RevokeEffect(accounts, kube, store, o, t, bucket, user).status == None
      <==> who.Some? && Revocation.Removable(RecordOf(store, who.value), bucket, limit)
  {
    var who := RevokedUser(accounts, kube, bucket, user);
    if who.Some? {
      var rec := RecordOf(store, who.value);
      Recovery.FaultFreeMeetsNone(rec, Start(Revoke(bucket)), o, t);
      Revocation.UnfaultedRevokeSucceedsIff(rec, bucket, o, t, limit);
    }
  }

  // ---------------------------------------------------------------------------------
  // Creating and deleting a bucket through the handlers
  // ---------------------------------------------------------------------------------

  /** A create whose call, if it makes one, is served is reported as a success exactly if the
      parameters lead to an endpoint on which the bucket is absent. */
  lemma CreateHandlerSucceedsIff(accounts: Accounts, kube: Kubernetes, buckets: BucketStore, o: Oracle, t: nat,
                                 name: string, parameters: Parameters)
    requires Resolve(kube, parameters).Some? ==> o(t).Served?
    ensures var target := Resolve(kube, parameters);
      CreateBucketEffect(accounts, kube, buckets, o, t, name, parameters).status == None
      <==> target.Some? && BucketId(target.value.endpoint, name) !in buckets
  {
    var target := Resolve(kube, parameters);
    if target.Some? {
      var p := target.value;
      Buckets.CreateSucceedsIff(BucketOf(buckets, BucketId(p.endpoint, name)), S3Account(accounts, p), p.region, o(t));
    }
  }

  /** A delete whose call, if it makes one, is served is reported as a success exactly if the
      bucket object is there and leads to an account and endpoint for which the bucket is
      absent, or its own and empty. In particular it never succeeds once the bucket object
      is gone, even if the bucket is gone as well. */
  lemma DeleteHandlerSucceedsIff(accounts: Accounts, kube: Kubernetes, buckets: BucketStore, o: Oracle, t: nat,
                                 bucket: string)
    requires ResolveBucket(kube, bucket).Some? ==> o(t).Served?
    ensures var target := ResolveBucket(kube, bucket);
      DeleteBucketEffect(accounts, kube, buckets, o, t, bucket).status == None
      <==> target.Some?
           && Buckets.Deletable(BucketOf(buckets, BucketId(target.value.endpoint, bucket)),
                                S3Account(accounts, target.value))
  {
    var target := ResolveBucket(kube, bucket);
    if target.Some? {
      var p := target.value;
      Buckets.DeleteSucceedsIff(BucketOf(buckets, BucketId(p.endpoint, bucket)), S3Account(accounts, p), o(t));
    }
  }

  /** Whatever it is answered, a delete that the handler reports as a success found the
      bucket object and left the bucket absent, unless its call was hit by a fault that the
      translator takes for a missing bucket. */
  lemma DeleteHandlerSuccessMeansAbsent(accounts: Accounts, kube: Kubernetes, buckets: BucketStore, o: Oracle, t: nat,
                                        bucket: string)
    requires ResolveBucket(kube, bucket).Some? ==> Buckets.Honest(o(t))
    ensures var e, target := DeleteBucketEffect(accounts, kube, buckets, o, t, bucket), ResolveBucket(kube, bucket);
      e.status == None ==> target.Some? && BucketId(target.value.endpoint, bucket) !in e.buckets
  {
    var target := ResolveBucket(kube, bucket);
    if target.Some? {
      var p := target.value;
      Buckets.DeleteSuccessMeansAbsent(BucketOf(buckets, BucketId(p.endpoint, bucket)), S3Account(accounts, p), o(t));
    }
  }
}
