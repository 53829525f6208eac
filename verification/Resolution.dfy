/** Which secret a request leads to, and the storage parameters in it
    (pkg/driver/provisioner_server_impl.go, lines 289 to 380). */
module Resolution {

  import opened Errors
  import Buckets

  type Parameters = map<string, string>

  /** Reading a Go map: a missing key gives the empty string. */
  function Value(m: Parameters, key: string): string {
    if key in m then m[key] else ""
  }

  predicate HasEntry(m: Parameters, key: string, value: string) { key in m && m[key] == value }

  datatype SecretName = SecretName(namespace: string, name: string)

  /** What the handlers read from Kubernetes and from their own environment. Without a
      loadable SDK configuration no client can be made. */
  datatype Kubernetes = Kubernetes(
    podNamespace: string,
    sdkConfigLoads: bool,
    secrets: map<SecretName, Parameters>,
    bucketObjects: map<string, Parameters>)

  datatype StorageClientParameters = StorageClientParameters(
    accessKeyId: string,
    secretAccessKey: string,
    endpoint: string,
    iamEndpoint: string,
    region: string,
    tlsCert: string)

  const NEW_STORAGE_CLIENT_PARAMETERS := StorageClientParameters("", "", "", "", Buckets.DEFAULT_REGION, "")

  /** None where the Go code returns an error. */
  function FetchSecretInfo(kube: Kubernetes, parameters: Parameters): Option<SecretName> {
    var name := Value(parameters, "objectStorageSecretName");
    var given := Value(parameters, "objectStorageSecretNamespace");
    var namespace := if given != "" then given else kube.podNamespace;
    if name == "" || namespace == "" then None else Some(SecretName(namespace, name))
  }

  predicate Valid(p: StorageClientParameters) {
    p.accessKeyId != "" && p.secretAccessKey != "" && p.endpoint != ""
  }

  function ParametersOf(secret: Parameters): Option<StorageClientParameters> {
    var p := StorageClientParameters(
      Value(secret, "accessKeyId"), Value(secret, "secretAccessKey"), Value(secret, "endpoint"),
      if Value(secret, "iamEndpoint") != "" then Value(secret, "iamEndpoint") else Value(secret, "endpoint"),
      Value(secret, "region"), Value(secret, "tlsCert"));
    if Valid(p) then Some(p) else None
  }

  /** Fills the parameters field by field. There are none if a required entry of the secret
      is missing or empty. Otherwise each field is its own entry; the IAM endpoint falls back
      on the S3 endpoint, and the last two on the empty string. */
  method FetchS3Parameters(secret: Parameters) returns (result: Option<StorageClientParameters>)
    ensures result == ParametersOf(secret)
    ensures result.Some? <==>
      && "accessKeyId" in secret && secret["accessKeyId"] != ""
      && "secretAccessKey" in secret && secret["secretAccessKey"] != ""
      && "endpoint" in secret && secret["endpoint"] != ""
    ensures result.Some? ==>
      && result.value.accessKeyId == secret["accessKeyId"]
      && result.value.secretAccessKey == secret["secretAccessKey"]
      && result.value.endpoint == secret["endpoint"]
      && result.value.iamEndpoint
         == (if "iamEndpoint" in secret && secret["iamEndpoint"] != "" then secret["iamEndpoint"]
             else secret["endpoint"])
      && result.value.region == (if "region" in secret then secret["region"] else "")
      && result.value.tlsCert == (if "tlsCert" in secret then secret["tlsCert"] else "")
  {
    var params := NEW_STORAGE_CLIENT_PARAMETERS;
    params := params.(accessKeyId := Value(secret, "accessKeyId"));
    params := params.(secretAccessKey := Value(secret, "secretAccessKey"));
    params := params.(endpoint := Value(secret, "endpoint"));
    params := params.(region := Value(secret, "region"));
    if "tlsCert" in secret {
      params := params.(tlsCert := secret["tlsCert"]);
    }
    if !Valid(params) {
      return None;
    }
    params := params.(iamEndpoint := params.endpoint);
    if "iamEndpoint" in secret && |secret["iamEndpoint"]| > 0 {
      params := params.(iamEndpoint := secret["iamEndpoint"]);
    }
    return Some(params);
  }

  function Resolve(kube: Kubernetes, parameters: Parameters): Option<StorageClientParameters> {
    match FetchSecretInfo(kube, parameters)
    case None => None
    case Some(name) =>
      if name in kube.secrets && kube.sdkConfigLoads then ParametersOf(kube.secrets[name]) else None
  }

  /** The initial default region never survives: the secret's region replaces it even when
      there is none, and a create then asks for the empty location. */
  lemma DefaultRegionIsOverwritten(secret: Parameters)
    requires ParametersOf(secret).Some?
    ensures ParametersOf(secret).value.region == Buckets.DEFAULT_REGION
       <==> "region" in secret && secret["region"] == Buckets.DEFAULT_REGION
    ensures "region" !in secret ==>
      Buckets.CreateCall(ParametersOf(secret).value.region) == Buckets.CreateBucket(Some(""))
  {
  }

  /** The storage parameters of a bucket, as its Kubernetes object gives them. */
  function ResolveBucket(kube: Kubernetes, bucket: string): Option<StorageClientParameters> {
    if bucket in kube.bucketObjects then Resolve(kube, kube.bucketObjects[bucket]) else None
  }

  // ---------------------------------------------------------------------------------
  // Which secret it is
  // ---------------------------------------------------------------------------------

  /** `secret` is the one that the parameters name: by its name, and in the namespace they
      give, or, if they give none, in that of the driver's own pod. */
  ghost predicate NamesSecret(kube: Kubernetes, parameters: Parameters, secret: Parameters) {
    && "objectStorageSecretName" in parameters && parameters["objectStorageSecretName"] != ""
    && var namespace :=
         if "objectStorageSecretNamespace" in parameters && parameters["objectStorageSecretNamespace"] != ""
         then parameters["objectStorageSecretNamespace"]
         else kube.podNamespace;
       namespace != ""
       && var at := SecretName(namespace, parameters["objectStorageSecretName"]);
          at in kube.secrets && kube.secrets[at] == secret
  }

  /** A request resolves exactly if it names a secret with the three required entries and
      the SDK configuration loads; and then to what that secret says. */
  lemma ResolveIff(kube: Kubernetes, parameters: Parameters)
    ensures Resolve(kube, parameters).Some?
      <==> kube.sdkConfigLoads
           && exists secret :: NamesSecret(kube, parameters, secret) && ParametersOf(secret).Some?
    ensures forall secret :: NamesSecret(kube, parameters, secret) && kube.sdkConfigLoads ==>
      Resolve(kube, parameters) == ParametersOf(secret)
  {
    if Resolve(kube, parameters).Some? {
      var name := FetchSecretInfo(kube, parameters).value;
      assert NamesSecret(kube, parameters, kube.secrets[name]);
    }
  }

  /** With a namespace in the parameters, that one decides: the request fails exactly if the
      name is missing or empty, there is no such secret in that namespace, the secret lacks
      a required entry, or the SDK configuration does not load. */
  lemma GivenNamespaceDecides(kube: Kubernetes, parameters: Parameters)
    requires "objectStorageSecretNamespace" in parameters && parameters["objectStorageSecretNamespace"] != ""
    ensures "objectStorageSecretName" !in parameters ==> Resolve(kube, parameters) == None
    ensures "objectStorageSecretName" in parameters ==>
      var at := SecretName(parameters["objectStorageSecretNamespace"], parameters["objectStorageSecretName"]);
      Resolve(kube, parameters)
      == if at.name != "" && at in kube.secrets && kube.sdkConfigLoads then ParametersOf(kube.secrets[at]) else None
  {
  }

  /** Without one, the namespace of the pod decides, and must be known. */
  lemma PodNamespaceDecides(kube: Kubernetes, parameters: Parameters)
    requires "objectStorageSecretNamespace" in parameters ==> parameters["objectStorageSecretNamespace"] == ""
    ensures "objectStorageSecretName" !in parameters || kube.podNamespace == "" ==> Resolve(kube, parameters) == None
    ensures "objectStorageSecretName" in parameters && kube.podNamespace != "" ==>
      var at := SecretName(kube.podNamespace, parameters["objectStorageSecretName"]);
      Resolve(kube, parameters)
      == if at.name != "" && at in kube.secrets && kube.sdkConfigLoads then ParametersOf(kube.secrets[at]) else None
  {
  }

  /** The two clusters hold the same under that name, and load the SDK configuration alike. */
  ghost predicate AgreeOn(a: Kubernetes, b: Kubernetes, at: SecretName) {
    && a.sdkConfigLoads == b.sdkConfigLoads
    && (at in a.secrets <==> at in b.secrets)
    && (at in a.secrets ==> a.secrets[at] == b.secrets[at])
  }

  /** No secret but the one in the given namespace matters, and neither does the pod's
      namespace. */
  lemma OnlyGivenNamespaceMatters(a: Kubernetes, b: Kubernetes, parameters: Parameters, namespace: string, name: string)
    requires namespace != "" && HasEntry(parameters, "objectStorageSecretNamespace", namespace)
    requires HasEntry(parameters, "objectStorageSecretName", name)
    requires AgreeOn(a, b, SecretName(namespace, name))
    ensures Resolve(a, parameters) == Resolve(b, parameters)
  {
    GivenNamespaceDecides(a, parameters);
    GivenNamespaceDecides(b, parameters);
  }

  /** Without a given namespace, none but the one in the pod's namespace matters. */
  lemma OnlyPodNamespaceMatters(a: Kubernetes, b: Kubernetes, parameters: Parameters, name: string)
    requires "objectStorageSecretNamespace" in parameters ==> parameters["objectStorageSecretNamespace"] == ""
    requires HasEntry(parameters, "objectStorageSecretName", name)
    requires a.podNamespace == b.podNamespace && AgreeOn(a, b, SecretName(a.podNamespace, name))
    ensures Resolve(a, parameters) == Resolve(b, parameters)
  {
    PodNamespaceDecides(a, parameters);
    PodNamespaceDecides(b, parameters);
  }
}
