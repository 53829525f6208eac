/** One IAM user name at the remote service, and the eight operations of the driver's
    IAMAPI interface on it (pkg/clients/iam/iam_client.go, lines 25 to 34).

    Every operation names one user and touches nothing else, so the service is modelled
    one user name at a time; module Isolation puts many of them side by side. The
    semantics of the operations are those of the AWS IAM API Reference.
 */
module Iam {

  import opened Errors

  datatype User = User(policies: map<string, string>, keys: set<nat>)

  /** What the service holds under a user name. Access key identifiers are never reused,
      not even by a later user of the same name: `minted` counts those given out. */
  datatype Record = Record(live: Option<User>, minted: nat)

  const NO_RECORD := Record(None, 0)

  datatype Call =
    | CreateUser
    | PutUserPolicy(name: string, document: string)
    | CreateAccessKey
    | GetUser
    | DeleteUserPolicy(name: string)
    | ListAccessKeys
    | DeleteAccessKey(key: nat)
    | DeleteUser

  datatype Refusal = EntityAlreadyExists | NoSuchEntity | DeleteConflict

  /** How the environment answers one call: it is served, with `page` as the listing (if
      the call is one) and `depth` layers of SDK wrapping around a refusal; or it fails
      with `err`, before the call takes effect or, when the reply is lost, after. */
  datatype Outcome =
    | Served(page: seq<nat>, depth: nat)
    | Fault(err: Error, late: bool)

  datatype Reply = Ack | NewKey(key: nat) | Listing(page: seq<nat>) | Refused(err: Error)

  function Refuses(rec: Record, call: Call): Option<Refusal> {
    match rec.live
    case None => if call.CreateUser? then None else Some(NoSuchEntity)
    case Some(user) =>
      match call
      case CreateUser => Some(EntityAlreadyExists)
      case DeleteUserPolicy(name) => if name in user.policies then None else Some(NoSuchEntity)
      case DeleteAccessKey(key) => if key in user.keys then None else Some(NoSuchEntity)
      case DeleteUser => if user.policies == map[] && user.keys == {} then None else Some(DeleteConflict)
      case _ => None
  }

  /** The record after a call that is not refused. */
  function Apply(rec: Record, call: Call): Record
    requires Refuses(rec, call) == None
  {
    match call
    case CreateUser => rec.(live := Some(User(map[], {})))
    case PutUserPolicy(name, document) =>
      rec.(live := Some(rec.live.value.(policies := rec.live.value.policies[name := document])))
    case CreateAccessKey =>
      Record(Some(rec.live.value.(keys := rec.live.value.keys + {rec.minted})), rec.minted + 1)
    case DeleteUserPolicy(name) =>
      rec.(live := Some(rec.live.value.(policies := rec.live.value.policies - {name})))
    case DeleteAccessKey(key) =>
      rec.(live := Some(rec.live.value.(keys := rec.live.value.keys - {key})))
    case DeleteUser => rec.(live := None)
    case GetUser => rec
    case ListAccessKeys => rec
  }

  /** The error value of a refusal. The SDK recognises NoSuchEntity by its code and gives
      it its own type. */
  function RefusalError(refusal: Refusal, depth: nat): Error {
    var api := match refusal
      case EntityAlreadyExists => ApiError(OtherType, "EntityAlreadyExists")
      case NoSuchEntity => ApiError(NoSuchEntityException, NO_SUCH_ENTITY_CODE)
      case DeleteConflict => ApiError(OtherType, "DeleteConflict");
    Wrapped(Api(api), depth)
  }

  function Answer(rec: Record, call: Call, page: seq<nat>): Reply {
    match call
    case CreateAccessKey => NewKey(rec.minted)
    case ListAccessKeys => Listing(page)
    case _ => Ack
  }

  /** One API call: the new record and what the client sees. */
  function Serve(rec: Record, call: Call, o: Outcome): (Record, Reply) {
    var refusal := Refuses(rec, call);
    var after := if refusal == None then Apply(rec, call) else rec;
    match o
    case Fault(err, late) => (if late then after else rec, Refused(err))
    case Served(page, depth) =>
      (after, if refusal == None then Answer(rec, call, page) else Refused(RefusalError(refusal.value, depth)))
  }

  // ---------------------------------------------------------------------------------
  // Assumptions about the environment
  // ---------------------------------------------------------------------------------

  /** A listing of one page of at most `limit` keys: live keys, each once, in any order. */
  ghost predicate IsPage(page: seq<nat>, keys: set<nat>, limit: nat) {
    && (forall i, j :: 0 <= i < j < |page| ==> page[i] != page[j])
    && (forall k :: k in page ==> k in keys)
    && |page| == if |keys| <= limit then |keys| else limit
  }

  /** Neither test for a missing entity is fooled by this error. */
  predicate NeverMissing(err: Error) {
    !AsNoSuchEntity(err) && !CodeIsNoSuchEntity(err)
  }

  /** Missing-entity replies and listings are truthful. */
  ghost predicate Honest(rec: Record, call: Call, o: Outcome, limit: nat) {
    match o
    case Fault(err, _) => NeverMissing(err)
    case Served(page, _) =>
      call.ListAccessKeys? && rec.live.Some? ==> IsPage(page, rec.live.value.keys, limit)
  }

  // ---------------------------------------------------------------------------------
  // Facts about single calls
  // ---------------------------------------------------------------------------------

  /** Both tests recognise a refusal for what it is, at any wrapping depth. */
  lemma RefusalErrorIsFaithful(refusal: Refusal, depth: nat)
    ensures AsNoSuchEntity(RefusalError(refusal, depth)) <==> refusal == NoSuchEntity
    ensures CodeIsNoSuchEntity(RefusalError(refusal, depth)) <==> refusal == NoSuchEntity
    ensures AsApiCode(RefusalError(refusal, depth)) == Some(
      match refusal
      case EntityAlreadyExists => "EntityAlreadyExists"
      case NoSuchEntity => "NoSuchEntity"
      case DeleteConflict => "DeleteConflict")
  {
    WrappingIsTransparent(RefusalError(refusal, 0), depth);
  }

  predicate Deletes(call: Call) {
    call.DeleteUserPolicy? || call.DeleteAccessKey? || call.DeleteUser?
  }

  predicate Reads(call: Call) {
    call.GetUser? || call.ListAccessKeys?
  }

  /** The user, its inline policies and its keys, counted together. */
  function Size(rec: Record): nat {
    match rec.live
    case None => 0
    case Some(user) => 1 + |user.policies| + |user.keys|
  }

  /** Nothing has been added. */
  ghost predicate Shrunk(before: Record, after: Record) {
    && after.minted == before.minted
    && (after.live.Some? ==>
        && before.live.Some?
        && after.live.value.policies.Keys <= before.live.value.policies.Keys
        && (forall n :: n in after.live.value.policies ==>
              after.live.value.policies[n] == before.live.value.policies[n])
        && after.live.value.keys <= before.live.value.keys)
  }

  /** Reads and deletes only ever take things away, whatever goes wrong; a delete that
      takes effect leaves strictly less. */
  lemma DeletesShrink(rec: Record, call: Call, o: Outcome)
    requires Deletes(call) || Reads(call)
    ensures Shrunk(rec, Serve(rec, call, o).0)
    ensures Size(Serve(rec, call, o).0) <= Size(rec)
    ensures Deletes(call) && Refuses(rec, call) == None ==> Size(Apply(rec, call)) < Size(rec)
  {
    if rec.live.Some? && Deletes(call) && Refuses(rec, call) == None {
      var user := rec.live.value;
      match call
      case DeleteUserPolicy(name) =>
        assert (user.policies - {name}).Keys == user.policies.Keys - {name};
        assert |(user.policies - {name}).Keys| == |user.policies| - 1;
      case DeleteAccessKey(key) =>
      case DeleteUser =>
    }
  }
}
