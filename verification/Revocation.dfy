/** What revokes guarantee, alone, retried and side by side
    (pkg/clients/iam/iam_client.go, lines 154 to 239). */
module Revocation {

  import opened Errors
  import opened Policy
  import opened Iam
  import opened Saga

  // ---------------------------------------------------------------------------------
  // When success is reported while the user is there
  // ---------------------------------------------------------------------------------

  /** A fault with error `err`, met at `pc`, ends a revoke with driver success. Where the
      client tolerates no error, the code test decides. Where it tolerates a missing entity
      and goes on, the error must pass the code test and fail the typed test. At the last
      call either test will do. */
  predicate Misreports(pc: Pc, err: Error) {
    match pc
    case GettingUser => CodeIsNoSuchEntity(err)
    case DeletingPolicy => CodeIsNoSuchEntity(err) && !AsNoSuchEntity(err)
    case ListingKeys => CodeIsNoSuchEntity(err)
    case DeletingKeys(_, _) => CodeIsNoSuchEntity(err) && !AsNoSuchEntity(err)
    case DeletingUser => CodeIsNoSuchEntity(err) || AsNoSuchEntity(err)
    case _ => false
  }

  predicate MisreportedFault(p: Proc, o: Outcome) {
    o.Fault? && Misreports(p.pc, o.err)
  }

  /** A fault ends a revoke with driver success exactly if it is of that kind. A call does so
      while the user is there exactly if it is hit by such a fault and the user is there. */
  lemma MisreportedEndIff(rec: Record, p: Proc, o: Outcome)
    requires p.job.Revoke? && PcFits(p) && !p.pc.Finished?
    ensures var p' := StepProc(rec, p, o).1;
      o.Fault? ==> (p'.pc.Finished? && Verdict(p'.job, p'.pc.result) == None <==> Misreports(p.pc, o.err))
    ensures var (rec', p') := StepProc(rec, p, o);
      (p'.pc.Finished? && Verdict(p'.job, p'.pc.result) == None && rec'.live.Some?)
      <==> (MisreportedFault(p, o) && rec'.live.Some?)
  {
    var p' := StepProc(rec, p, o).1;
    if p'.pc.Finished? { VerdictIsSucceeds(p'.job, p'.pc.result); }
    var refusal := Refuses(rec, NextCall(p));
    if o.Served? && refusal.Some? {
      RefusalErrorIsFaithful(refusal.value, o.depth);
    }
  }

  /** The call that ends RPC `id` before moment `k` is hit by such a fault. */
  ghost predicate MisreportedAt(s: Sys, acts: seq<Action>, id: nat, k: nat) {
    EndsAt(s, acts, id, k) && MisreportedFault(At(s, acts, k - 1).procs[id], acts[k - 1].o)
  }

  /** In every interleaving of grants and revokes, with whatever replies, a finished revoke
      has been reported as a success with the user in place at its last call exactly if
      that call was hit by such a fault with the user in place. */
  lemma MisreportedRevokeIff(s: Sys, acts: seq<Action>, id: nat)
    requires Fresh(s) && id in s.procs && s.procs[id].job.Revoke?
    requires id in Exec(s, acts).procs && Exec(s, acts).procs[id].pc.Finished?
    ensures exists k: nat ::
      && EndsAt(s, acts, id, k)
      && ((Verdict(s.procs[id].job, Exec(s, acts).procs[id].pc.result) == None && At(s, acts, k).rec.live.Some?)
          <==> (MisreportedAt(s, acts, id, k) && At(s, acts, k).rec.live.Some?))
  {
    LastCallEnds(s, acts, id);
    var k: nat :| EndsAt(s, acts, id, k) && At(s, acts, k).procs[id] == Exec(s, acts).procs[id];
    ProgramsKeep(s, acts[..k - 1]);
    EndIsStep(s, acts, id, k);
    var before := At(s, acts, k - 1);
    MisreportedEndIff(before.rec, before.procs[id], acts[k - 1].o);
  }

  /** Hence a revoke that the driver reports as successful has a moment, the return of its
      own last call, at which the user did not exist or the call before it was hit by such
      a fault. */
  lemma SuccessfulRevokeSawAbsence(s: Sys, acts: seq<Action>, id: nat)
    requires Fresh(s) && id in s.procs && s.procs[id].job.Revoke?
    requires id in Exec(s, acts).procs
    requires var p := Exec(s, acts).procs[id];
      p.pc.Finished? && Verdict(p.job, p.pc.result) == None
    ensures exists k: nat ::
      EndsAt(s, acts, id, k) && (At(s, acts, k).rec.live == None || MisreportedAt(s, acts, id, k))
  {
    ProgramsKeep(s, acts);
    MisreportedRevokeIff(s, acts, id);
  }

  /** Whichever call ends a revoke with driver success, the user is absent after it, unless
      a fault that one of the two tests takes for a missing entity hit that very call. */
  lemma SuccessfulEndSeesAbsence(rec: Record, p: Proc, o: Outcome)
    requires p.job.Revoke? && PcFits(p) && !p.pc.Finished?
    requires o.Fault? ==> NeverMissing(o.err)
    ensures var (rec', p') := StepProc(rec, p, o);
      p'.pc.Finished? && Succeeds(p'.job, p'.pc.result) ==> rec'.live == None
  {
    var p' := StepProc(rec, p, o).1;
    if p'.pc.Finished? { VerdictIsSucceeds(p'.job, p'.pc.result); }
    MisreportedEndIff(rec, p, o);
  }

  /** If its last call is hit by a fault, neither test takes that for a missing entity. */
  ghost predicate LastFaultHonest(o: Oracle, clock: nat) {
    clock > 0 && o(clock - 1).Fault? ==> NeverMissing(o(clock - 1).err)
  }

  /** For a revoke by itself only its last call matters. */
  lemma {:induction false} SuccessfulSoloSeesAbsence(rec: Record, p: Proc, o: Oracle, t: nat)
    requires p.job.Revoke? && PcFits(p) && !p.pc.Finished? && LastFaultHonest(o, Solo(rec, p, o, t).clock)
    ensures var e := Solo(rec, p, o, t); Succeeds(p.job, e.result) ==> e.rec.live == None
    decreases Stage(p.pc), KeysLeft(p.pc)
  {
    var (rec', p') := StepProc(rec, p, o(t));
    if p'.pc.Finished? {
      assert Solo(rec, p, o, t).clock == t + 1;
      SuccessfulEndSeesAbsence(rec, p, o(t));
    } else {
      SuccessfulSoloSeesAbsence(rec', p', o, t + 1);
    }
  }

  lemma {:induction false} HonestToTheLastCall(rec: Record, p: Proc, o: Oracle, t: nat, limit: nat)
    requires !p.pc.Finished? && HonestSolo(rec, p, o, t, limit)
    ensures LastFaultHonest(o, Solo(rec, p, o, t).clock)
    decreases Stage(p.pc), KeysLeft(p.pc)
  {
    var (rec', p') := StepProc(rec, p, o(t));
    if p'.pc.Finished? {
      assert Solo(rec, p, o, t).clock == t + 1;
    } else {
      HonestToTheLastCall(rec', p', o, t + 1, limit);
    }
  }

  // ---------------------------------------------------------------------------------
  // Faults that are misreported
  // ---------------------------------------------------------------------------------

  /** A fault in the policy step ends the revoke with driver success while the user stays,
      exactly if the code test takes it for a missing entity and the typed test does not. */
  lemma PolicyFaultMisreportedIff(rec: Record, bucket: string, err: Error, late: bool)
    requires rec.live.Some?
    ensures var (rec', p') := StepProc(rec, Proc(Revoke(bucket), DeletingPolicy), Fault(err, late));
      && rec'.live.Some? && rec'.live.value.keys == rec.live.value.keys
      && ((p'.pc.Finished? && Verdict(p'.job, p'.pc.result) == None)
          <==> CodeIsNoSuchEntity(err) && !AsNoSuchEntity(err))
  {
    VerdictIsSucceeds(Revoke(bucket), Failed(err));
  }

  /** With an untyped NoSuchEntity from DeleteUserPolicy, the driver reports a revoke that
      has removed nothing. */
  lemma UntypedMissingEntityMisreported(bucket: string)
    ensures var rec := Record(Some(User(map[bucket := Document(bucket)], {0})), 1);
      var untyped := Fault(Api(ApiError(OtherType, NO_SUCH_ENTITY_CODE)), false);
      var o: Oracle := n => if n == 1 then untyped else Served([0], 0);
      var e := Solo(rec, Start(Revoke(bucket)), o, 0);
      Verdict(Revoke(bucket), e.result) == None && e.rec == rec
  {
    var rec := Record(Some(User(map[bucket := Document(bucket)], {0})), 1);
    var err := Api(ApiError(OtherType, NO_SUCH_ENTITY_CODE));
    VerdictIsSucceeds(Revoke(bucket), Failed(err));
    var o: Oracle := n => if n == 1 then Fault(err, false) else Served([0], 0);
    var p := Start(Revoke(bucket));
    assert StepProc(rec, p, o(0)) == (rec, p.(pc := DeletingPolicy));
    assert StepProc(rec, p.(pc := DeletingPolicy), o(1)) == (rec, p.(pc := Finished(Failed(err))));
    assert Solo(rec, p.(pc := DeletingPolicy), o, 1).result == Failed(err);
  }

  /** Nor is a code other than NoSuchEntity enough to be safe: joined to a denial, a typed
      missing entity from DeleteUser is reported as a success with the user untouched. */
  lemma JoinedMissingEntityMisreported(rec: Record, bucket: string)
    requires rec.live.Some?
    ensures var denied := Api(ApiError(OtherType, "AccessDenied"));
      var missing := Api(ApiError(NoSuchEntityException, NO_SUCH_ENTITY_CODE));
      var (rec', p') := StepProc(rec, Proc(Revoke(bucket), DeletingUser), Fault(Join(denied, missing), false));
      && !CodeIsNoSuchEntity(Join(denied, missing))
      && rec' == rec && p'.pc.Finished? && Verdict(p'.job, p'.pc.result) == None
  {
  }

  // ---------------------------------------------------------------------------------
  // Any number of revokes of one user and bucket, interleaved
  // ---------------------------------------------------------------------------------

  /** No policy but the bucket's own, and keys that fit one page. */
  ghost predicate Removable(rec: Record, bucket: string, limit: nat) {
    rec.live.Some? ==> rec.live.value.policies.Keys <= {bucket} && |rec.live.value.keys| <= limit
  }

  /** What a revoke knows at each place of its program: the policy is gone, the live keys
      are among those it has still to process, and at its end the user is gone. */
  ghost predicate RevokeKnows(rec: Record, p: Proc) {
    match p.pc
    case ListingKeys => rec.live.Some? ==> rec.live.value.policies == map[]
    case DeletingKeys(key, rest) =>
      rec.live.Some? ==>
        && rec.live.value.policies == map[]
        && (forall k :: k in rec.live.value.keys ==> k == key || k in rest)
    case DeletingUser => rec.live.Some? ==> rec.live.value.policies == map[] && rec.live.value.keys == {}
    case Finished(result) => Succeeds(p.job, result) ==> rec.live == None
    case _ => true
  }

  lemma KnowledgeSurvivesShrinking(before: Record, after: Record, p: Proc)
    requires RevokeKnows(before, p) && Shrunk(before, after)
    ensures RevokeKnows(after, p)
  {
  }

  lemma RemovableSurvivesShrinking(before: Record, after: Record, bucket: string, limit: nat)
    requires Removable(before, bucket, limit) && Shrunk(before, after)
    ensures Removable(after, bucket, limit)
  {
    if after.live.Some? {
      SetSizeMonotone(after.live.value.keys, before.live.value.keys);
    }
  }

  /** The listing step: all keys fit the page, so none is left out of it. */
  lemma ListingStepKnows(rec: Record, p: Proc, o: Outcome, bucket: string, limit: nat)
    requires p.job == Revoke(bucket) && p.pc.ListingKeys?
    requires Removable(rec, bucket, limit) && RevokeKnows(rec, p)
    requires Honest(rec, ListAccessKeys, o, limit)
    ensures RevokeKnows(StepProc(rec, p, o).0, StepProc(rec, p, o).1)
  {
    if o.Served? {
      if rec.live.Some? {
        PageOfAll(o.page, rec.live.value.keys, limit);
        assert forall k :: k in rec.live.value.keys ==> k in Elements(o.page);
        assert o.page != [] ==> o.page == [o.page[0]] + o.page[1..];
      }
    }
  }

  lemma RevokeStepKnows(rec: Record, p: Proc, o: Outcome, bucket: string, limit: nat)
    requires p.job == Revoke(bucket) && PcFits(p) && !p.pc.Finished?
    requires Removable(rec, bucket, limit) && RevokeKnows(rec, p)
    requires Honest(rec, NextCall(p), o, limit)
    ensures Refuses(rec, NextCall(p)) != Some(DeleteConflict)
    ensures RevokeKnows(StepProc(rec, p, o).0, StepProc(rec, p, o).1)
  {
    SuccessfulEndSeesAbsence(rec, p, o);
    if p.pc.ListingKeys? {
      ListingStepKnows(rec, p, o, bucket, limit);
    } else if p.pc.DeletingKeys? {
      assert p.pc.rest != [] ==> p.pc.rest == [p.pc.rest[0]] + p.pc.rest[1..];
    }
  }

  /** A call that is served never ends a revoke in failure, conflicts aside. */
  lemma ServedStepSucceeds(rec: Record, p: Proc, o: Outcome)
    requires p.job.Revoke? && PcFits(p) && !p.pc.Finished?
    requires o.Served? && Refuses(rec, NextCall(p)) != Some(DeleteConflict)
    ensures var p' := StepProc(rec, p, o).1;
      p'.pc.Finished? ==> Succeeds(p'.job, p'.pc.result)
  {
    var refusal := Refuses(rec, NextCall(p));
    if refusal.Some? {
      RefusalErrorIsFaithful(refusal.value, o.depth);
    }
  }

  lemma SetSizeMonotone(a: set<nat>, b: set<nat>)
    requires a <= b
    ensures |a| <= |b|
  {
    assert |b - a| == |b| - |a|;
  }

  ghost predicate AllRevoke(s: Sys, bucket: string) {
    forall i :: i in s.procs ==> s.procs[i] == Start(Revoke(bucket))
  }

  ghost predicate AllKnow(s: Sys, bucket: string) {
    forall i :: i in s.procs ==>
      s.procs[i].job == Revoke(bucket) && PcFits(s.procs[i]) && RevokeKnows(s.rec, s.procs[i])
  }

  /** The invariant of interleaved revokes. */
  lemma {:induction false} RevokesInvariant(s: Sys, acts: seq<Action>, bucket: string, limit: nat)
    requires AllRevoke(s, bucket) && Removable(s.rec, bucket, limit) && HonestRun(s, acts, limit)
    ensures var t := Exec(s, acts);
      t.procs.Keys == s.procs.Keys && Removable(t.rec, bucket, limit) && AllKnow(t, bucket)
  {
    if acts != [] {
      var init, a := acts[..|acts| - 1], acts[|acts| - 1];
      RevokesInvariant(s, init, bucket, limit);
      var before := Exec(s, init);
      if Enabled(before, a) { InvariantStep(before, a, bucket, limit); }
    }
  }

  lemma InvariantStep(s: Sys, a: Action, bucket: string, limit: nat)
    requires Enabled(s, a) && AllKnow(s, bucket) && Removable(s.rec, bucket, limit)
    requires Honest(s.rec, NextCall(s.procs[a.id]), a.o, limit)
    ensures Removable(Next(s, a).rec, bucket, limit) && AllKnow(Next(s, a), bucket)
  {
    var p, t := s.procs[a.id], Next(s, a);
    RevokeStepKnows(s.rec, p, a.o, bucket, limit);
    DeletesShrink(s.rec, NextCall(p), a.o);
    RemovableSurvivesShrinking(s.rec, t.rec, bucket, limit);
    forall i | i in t.procs && i != a.id
      ensures RevokeKnows(t.rec, t.procs[i])
    {
      KnowledgeSurvivesShrinking(s.rec, t.rec, s.procs[i]);
    }
  }

  /** A revoke among them that no fault hits succeeds. */
  lemma {:induction false} UnfaultedRevokeSucceeds(s: Sys, acts: seq<Action>, bucket: string, limit: nat, id: nat)
    requires AllRevoke(s, bucket) && Removable(s.rec, bucket, limit) && HonestRun(s, acts, limit)
    requires id in s.procs && Clean(acts, id)
    ensures id in Exec(s, acts).procs
    ensures var p := Exec(s, acts).procs[id]; p.pc.Finished? ==> Succeeds(p.job, p.pc.result)
  {
    if acts != [] {
      var init, a := acts[..|acts| - 1], acts[|acts| - 1];
      CleanInit(acts, id);
      UnfaultedRevokeSucceeds(s, init, bucket, limit, id);
      RevokesInvariant(s, init, bucket, limit);
      var before := Exec(s, init);
      if Enabled(before, a) && a.id == id {
        RevokeStepKnows(before.rec, before.procs[id], a.o, bucket, limit);
        ServedStepSucceeds(before.rec, before.procs[id], a.o);
      }
    }
  }

  /** Concurrent revokes agree: whatever the interleaving and whatever faults hit the
      others, an RPC that no fault hits makes the driver report success; a reported success
      means that the user is gone; and no call is answered with DeleteConflict. */
  lemma ConcurrentRevokesAgree(s: Sys, acts: seq<Action>, bucket: string, limit: nat, id: nat)
    requires AllRevoke(s, bucket) && Removable(s.rec, bucket, limit) && HonestRun(s, acts, limit)
    requires id in s.procs
    ensures var t := Exec(s, acts);
      && id in t.procs
      && var p := t.procs[id];
      && (p.pc.Finished? && Clean(acts, id) ==> Verdict(p.job, p.pc.result) == None)
      && (p.pc.Finished? && Verdict(p.job, p.pc.result) == None ==> t.rec.live == None)
      && (!p.pc.Finished? ==> Refuses(t.rec, NextCall(p)) != Some(DeleteConflict))
  {
    RevokesInvariant(s, acts, bucket, limit);
    var t := Exec(s, acts);
    var p := t.procs[id];
    if Clean(acts, id) { UnfaultedRevokeSucceeds(s, acts, bucket, limit, id); }
    if p.pc.Finished? { VerdictIsSucceeds(p.job, p.pc.result); }
  }

  /** Once one of them has reported success, the user is absent for the rest of the run. */
  lemma AbsentFromFirstSuccessOnward(s: Sys, acts: seq<Action>, bucket: string, limit: nat, id: nat, k: nat)
    requires AllRevoke(s, bucket) && Removable(s.rec, bucket, limit)
    requires k <= |acts| && HonestRun(s, acts[..k], limit) && id in At(s, acts, k).procs
    requires var p := At(s, acts, k).procs[id]; p.pc.Finished? && Verdict(p.job, p.pc.result) == None
    ensures Exec(s, acts).rec.live == None
  {
    var p := At(s, acts, k).procs[id];
    VerdictIsSucceeds(p.job, p.pc.result);
    RevokesInvariant(s, acts[..k], bucket, limit);
    RevokesShrink(At(s, acts, k), acts[k..]);
    SplitRun(s, acts, k);
  }

  ghost predicate OnlyRevokes(s: Sys) {
    forall i :: i in s.procs ==> s.procs[i].job.Revoke? && PcFits(s.procs[i])
  }

  /** Without grants nothing is ever added, honest environment or not. */
  lemma {:induction false} RevokesShrink(s: Sys, acts: seq<Action>)
    requires OnlyRevokes(s)
    ensures Shrunk(s.rec, Exec(s, acts).rec) && OnlyRevokes(Exec(s, acts))
  {
    if acts != [] {
      var init, a := acts[..|acts| - 1], acts[|acts| - 1];
      RevokesShrink(s, init);
      var before := Exec(s, init);
      if Enabled(before, a) {
        DeletesShrink(before.rec, NextCall(before.procs[a.id]), a.o);
      }
    }
  }

  // ---------------------------------------------------------------------------------
  // Order of authority
  // ---------------------------------------------------------------------------------

  /** `user` may take the action on the resource under one of its inline policies. */
  ghost predicate MayAccess(user: User, action: string, arn: string) {
    exists n :: n in user.policies && Allows(user.policies[n], action, arn)
  }

  /** All inline policies are as grants write them, for ordinary bucket names. */
  ghost predicate Generated(user: User) {
    forall n :: n in user.policies ==>
      user.policies[n] == Document(n) && Readable(n) && WildcardFree(n)
  }

  predicate PastPolicyStep(pc: Pc) {
    pc.ListingKeys? || pc.DeletingKeys? || pc.DeletingUser?
  }

  /** A revoke goes past its policy step with the policy in place exactly if a fault comes
      before the effect of the call and the typed test takes it for a missing entity. */
  lemma PolicyPassedOverIff(rec: Record, p: Proc, o: Outcome)
    requires p.job.Revoke? && p.pc.DeletingPolicy?
    requires rec.live.Some? && p.job.bucket in rec.live.value.policies
    ensures var (rec', p') := StepProc(rec, p, o);
      && rec'.live.Some?
      && ((PastPolicyStep(p'.pc) && p.job.bucket in rec'.live.value.policies)
          <==> (o.Fault? && !o.late && AsNoSuchEntity(o.err)))
  {
  }

  /** No fault of that kind hits the policy step of RPC `id`. */
  ghost predicate PolicyStepTruthful(s: Sys, acts: seq<Action>, id: nat) {
    acts == [] ||
    (var init, a := acts[..|acts| - 1], acts[|acts| - 1];
     var before := Exec(s, init);
     && PolicyStepTruthful(s, init, id)
     && (a.id == id && Enabled(before, a) && before.procs[id].pc.DeletingPolicy? && a.o.Fault? && !a.o.late ==>
           !AsNoSuchEntity(a.o.err)))
  }

  /** If RPC `id` is past its policy step, its policy is gone. */
  ghost predicate PolicyGone(t: Sys, id: nat) {
    id in t.procs && PastPolicyStep(t.procs[id].pc) && t.rec.live.Some? ==>
      t.procs[id].job.bucket !in t.rec.live.value.policies
  }

  lemma PolicyGoneStep(t: Sys, a: Action, id: nat)
    requires OnlyRevokes(t) && PolicyGone(t, id) && Enabled(t, a)
    requires a.id == id && t.procs[id].pc.DeletingPolicy? && a.o.Fault? && !a.o.late ==> !AsNoSuchEntity(a.o.err)
    ensures PolicyGone(Next(t, a), id)
  {
    DeletesShrink(t.rec, NextCall(t.procs[a.id]), a.o);
  }

  lemma {:induction false} PolicyGoneInvariant(s: Sys, acts: seq<Action>, id: nat)
    requires Fresh(s) && OnlyRevokes(s) && PolicyStepTruthful(s, acts, id)
    ensures OnlyRevokes(Exec(s, acts)) && PolicyGone(Exec(s, acts), id)
  {
    RevokesShrink(s, acts);
    if acts != [] {
      var init, a := acts[..|acts| - 1], acts[|acts| - 1];
      PolicyGoneInvariant(s, init, id);
      if Enabled(Exec(s, init), a) { PolicyGoneStep(Exec(s, init), a, id); }
    }
  }

  /** In runs of revokes only, once a revoke has passed its policy step at moment `k`, the
      user's keys are worth nothing on that bucket, then and for the rest of the run,
      however many later steps fail. */
  lemma AccessEndsWithPolicyStep(s: Sys, acts: seq<Action>, id: nat, k: nat, action: string, key: string)
    requires Fresh(s) && OnlyRevokes(s) && k <= |acts| && PolicyStepTruthful(s, acts[..k], id)
    requires s.rec.live.Some? ==> Generated(s.rec.live.value)
    requires id in At(s, acts, k).procs && PastPolicyStep(At(s, acts, k).procs[id].pc)
    requires '/' !in At(s, acts, k).procs[id].job.bucket
    ensures var bucket, now := At(s, acts, k).procs[id].job.bucket, Exec(s, acts).rec;
      now.live.Some? ==>
        && !MayAccess(now.live.value, action, BucketArn(bucket))
        && !MayAccess(now.live.value, action, ObjectArn(bucket, key))
  {
    PolicyGoneInvariant(s, acts[..k], id);
    RevokesShrink(s, acts[..k]);
    RevokesShrink(At(s, acts, k), acts[k..]);
    SplitRun(s, acts, k);
    var bucket, now := At(s, acts, k).procs[id].job.bucket, Exec(s, acts).rec;
    if now.live.Some? {
      forall n | n in now.live.value.policies
        ensures !Allows(now.live.value.policies[n], action, BucketArn(bucket))
        ensures !Allows(now.live.value.policies[n], action, ObjectArn(bucket, key))
      {
        assert n in s.rec.live.value.policies;
        DocumentAllowsBucketIff(n, action, bucket, key);
      }
    }
  }

  // ---------------------------------------------------------------------------------
  // One attempt at a revoke
  // ---------------------------------------------------------------------------------

  function KeyCount(rec: Record): nat {
    if rec.live.Some? then |rec.live.value.keys| else 0
  }

  ghost predicate OnlyOwnPolicy(rec: Record, bucket: string) {
    rec.live.Some? ==> rec.live.value.policies.Keys <= {bucket}
  }

  /** What an attempt from `rec` with ending `e` achieves. */
  ghost predicate Achieves(rec: Record, bucket: string, limit: nat, e: Ending) {
    && e.faults <= 1 && OnlyOwnPolicy(e.rec, bucket) && KeyCount(e.rec) <= KeyCount(rec)
    && (e.faults == 0 ==>
          if KeyCount(rec) <= limit then Succeeds(Revoke(bucket), e.result) && e.rec.live == None
          else !Succeeds(Revoke(bucket), e.result) && KeyCount(e.rec) == KeyCount(rec) - limit)
  }

  /** The same for the last call alone. */
  ghost predicate LastCallAchieves(rec: Record, bucket: string, e: Ending) {
    && e.faults <= 1 && OnlyOwnPolicy(e.rec, bucket) && KeyCount(e.rec) <= KeyCount(rec)
    && (e.faults == 0 ==>
          if KeyCount(rec) == 0 then e.result == Revoked && e.rec.live == None
          else !Succeeds(Revoke(bucket), e.result) && e.rec == rec)
  }

  lemma AttemptFromDeletingUser(rec: Record, bucket: string, o: Oracle, t: nat)
    requires rec.live.Some? && rec.live.value.policies == map[]
    ensures LastCallAchieves(rec, bucket, Solo(rec, Proc(Revoke(bucket), DeletingUser), o, t))
  {
    RefusalErrorIsFaithful(DeleteConflict, if o(t).Served? then o(t).depth else 0);
    var (rec', p') := StepProc(rec, Proc(Revoke(bucket), DeletingUser), o(t));
    assert p'.pc.Finished?;
  }

  /** What a key loop over one page leaves of the user. */
  ghost predicate Counted(w: Swept, rec: Record, limit: nat) {
    && w.rec.live.Some? && w.rec.live.value.policies == map[] && KeyCount(w.rec) <= KeyCount(rec)
    && (w.err == None ==>
          w.faults == 0 && KeyCount(w.rec) == if KeyCount(rec) <= limit then 0 else KeyCount(rec) - limit)
    && (w.err.Some? ==> w.faults == 1)
  }

  lemma ExactSweepCounts(w: Swept, rec: Record, page: seq<nat>, o: Oracle, t: nat, limit: nat)
    requires rec.live.Some? && rec.live.value.policies == map[]
    requires IsPage(page, rec.live.value.keys, limit) && ExactSweep(w, rec, page, o, t)
    ensures Counted(w, rec, limit)
  {
    SetSizeMonotone(w.rec.live.value.keys, rec.live.value.keys);
    SizeOfRest(page, rec.live.value.keys, limit);
  }

  lemma SweepThenLastCall(rec: Record, bucket: string, limit: nat, w: Swept, last: Ending)
    requires Counted(w, rec, limit) && w.err == None && LastCallAchieves(w.rec, bucket, last)
    ensures Achieves(rec, bucket, limit, last.(faults := last.faults + w.faults))
  {
  }

  /** One attempt, from the key loop on. */
  lemma AttemptFromKeyLoop(rec: Record, bucket: string, page: seq<nat>, o: Oracle, t: nat, limit: nat)
    requires rec.live.Some? && rec.live.value.policies == map[] && IsPage(page, rec.live.value.keys, limit)
    requires HonestSolo(rec, Proc(Revoke(bucket), KeyLoop(page)), o, t, limit)
    ensures Achieves(rec, bucket, limit, Solo(rec, Proc(Revoke(bucket), KeyLoop(page)), o, t))
  {
    var w := Sweep(rec, page, o, t);
    assert Counted(w, rec, limit) by {
      HonestThroughKeyLoop(rec, bucket, page, o, t, limit);
      SweepExact(rec, page, o, t);
      ExactSweepCounts(w, rec, page, o, t, limit);
    }
    SoloThroughKeyLoop(rec, bucket, page, o, t);
    if w.err == None {
      AttemptFromDeletingUser(w.rec, bucket, o, w.clock);
      SweepThenLastCall(rec, bucket, limit, w, Solo(w.rec, Proc(Revoke(bucket), DeletingUser), o, w.clock));
    }
  }

  /** One attempt, from ListAccessKeys on. */
  lemma AttemptFromListing(rec: Record, bucket: string, o: Oracle, t: nat, limit: nat)
    requires rec.live.Some? && rec.live.value.policies == map[]
    requires HonestSolo(rec, Proc(Revoke(bucket), ListingKeys), o, t, limit)
    ensures Achieves(rec, bucket, limit, Solo(rec, Proc(Revoke(bucket), ListingKeys), o, t))
  {
    if o(t).Served? { AttemptFromKeyLoop(rec, bucket, o(t).page, o, t + 1, limit); }
  }

  /** One attempt, from DeleteUserPolicy on. */
  lemma AttemptFromPolicy(rec: Record, bucket: string, o: Oracle, t: nat, limit: nat)
    requires rec.live.Some? && OnlyOwnPolicy(rec, bucket)
    requires HonestSolo(rec, Proc(Revoke(bucket), DeletingPolicy), o, t, limit)
    ensures Achieves(rec, bucket, limit, Solo(rec, Proc(Revoke(bucket), DeletingPolicy), o, t))
  {
    var (rec', p') := StepProc(rec, Proc(Revoke(bucket), DeletingPolicy), o(t));
    RefusalErrorIsFaithful(NoSuchEntity, if o(t).Served? then o(t).depth else 0);
    if o(t).Served? {
      assert rec'.live.value.policies == map[];
      AttemptFromListing(rec', bucket, o, t + 1, limit);
    }
  }

  /** One whole attempt: it meets at most one fault; without one it either succeeds or,
      if there were more keys than a listing shows, removes a full page of them. */
  lemma Attempt(rec: Record, bucket: string, o: Oracle, t: nat, limit: nat)
    requires OnlyOwnPolicy(rec, bucket) && HonestSolo(rec, Start(Revoke(bucket)), o, t, limit)
    ensures Achieves(rec, bucket, limit, Solo(rec, Start(Revoke(bucket)), o, t))
  {
    if o(t).Served? {
      if rec.live == None {
        RefusalErrorIsFaithful(NoSuchEntity, o(t).depth);
      } else {
        AttemptFromPolicy(rec, bucket, o, t + 1, limit);
      }
    }
  }

  // ---------------------------------------------------------------------------------
  // When a revoke succeeds
  // ---------------------------------------------------------------------------------

  /** Under a policy of another name the user outlives every revoke, whatever the
      environment does: the client removes the one policy named after its bucket. */
  lemma {:induction false} ForeignPolicyOutlivesRevoke(rec: Record, p: Proc, o: Oracle, t: nat, name: string)
    requires p.job.Revoke? && PcFits(p) && name != p.job.bucket
    requires rec.live.Some? && name in rec.live.value.policies
    ensures var e := Solo(rec, p, o, t); e.rec.live.Some? && name in e.rec.live.value.policies
    decreases Stage(p.pc), KeysLeft(p.pc)
  {
    if !p.pc.Finished? {
      var (rec', p') := StepProc(rec, p, o(t));
      assert rec'.live.Some? && name in rec'.live.value.policies;
      ForeignPolicyOutlivesRevoke(rec', p', o, t + 1, name);
    }
  }

  /** A revoke that meets no fault succeeds exactly if the user is absent or has no policy
      but the bucket's and no more keys than one listing shows. */
  lemma UnfaultedRevokeSucceedsIff(rec: Record, bucket: string, o: Oracle, t: nat, limit: nat)
    requires limit > 0 && HonestSolo(rec, Start(Revoke(bucket)), o, t, limit)
    requires Solo(rec, Start(Revoke(bucket)), o, t).faults == 0
    ensures Verdict(Revoke(bucket), Solo(rec, Start(Revoke(bucket)), o, t).result) == None
       <==> Removable(rec, bucket, limit)
  {
    var e := Solo(rec, Start(Revoke(bucket)), o, t);
    VerdictIsSucceeds(Revoke(bucket), e.result);
    if OnlyOwnPolicy(rec, bucket) {
      Attempt(rec, bucket, o, t, limit);
    } else {
      var name :| name in rec.live.value.policies && name != bucket;
      ForeignPolicyOutlivesRevoke(rec, Start(Revoke(bucket)), o, t, name);
      HonestToTheLastCall(rec, Start(Revoke(bucket)), o, t, limit);
      SuccessfulSoloSeesAbsence(rec, Start(Revoke(bucket)), o, t);
    }
  }

  // ---------------------------------------------------------------------------------
  // Retrying
  // ---------------------------------------------------------------------------------

  /** Retrying: attempt after attempt, each against its own environment, until one
      succeeds. */
  predicate SucceedsWithin(rec: Record, bucket: string, os: seq<Oracle>)
    decreases |os|
  {
    os != [] &&
    var e := Solo(rec, Start(Revoke(bucket)), os[0], 0);
    Verdict(Revoke(bucket), e.result) == None || SucceedsWithin(e.rec, bucket, os[1..])
  }

  /** The record after these attempts, the first successful one being the last. */
  function AfterAttempts(rec: Record, bucket: string, os: seq<Oracle>): Record
    decreases |os|
  {
    if os == [] then rec
    else
      var e := Solo(rec, Start(Revoke(bucket)), os[0], 0);
      if Verdict(Revoke(bucket), e.result) == None then e.rec else AfterAttempts(e.rec, bucket, os[1..])
  }

  function FaultsMet(rec: Record, bucket: string, os: seq<Oracle>): nat
    decreases |os|
  {
    if os == [] then 0
    else
      var e := Solo(rec, Start(Revoke(bucket)), os[0], 0);
      e.faults + if Verdict(Revoke(bucket), e.result) == None then 0 else FaultsMet(e.rec, bucket, os[1..])
  }

  /** The number of attempts of which some call met a fault. */
  function FaultedAttempts(rec: Record, bucket: string, os: seq<Oracle>): nat
    decreases |os|
  {
    if os == [] then 0
    else
      var e := Solo(rec, Start(Revoke(bucket)), os[0], 0);
      (if FaultMoments(os[0], 0, e.clock) != {} then 1 else 0)
      + if Verdict(Revoke(bucket), e.result) == None then 0 else FaultedAttempts(e.rec, bucket, os[1..])
  }

  /** Faults met are calls hit by a fault, so at least one for each such attempt; and of
      honest faults an attempt meets at most one. */
  lemma {:induction false} FaultsMetAreFaultedAttempts(rec: Record, bucket: string, os: seq<Oracle>, limit: nat)
    ensures FaultsMet(rec, bucket, os) >= FaultedAttempts(rec, bucket, os)
    ensures FaultsMet(rec, bucket, os) == 0 <==> FaultedAttempts(rec, bucket, os) == 0
    ensures OnlyOwnPolicy(rec, bucket) && HonestAttempts(rec, bucket, os, limit) ==>
      FaultsMet(rec, bucket, os) == FaultedAttempts(rec, bucket, os)
    decreases |os|
  {
    if os != [] {
      var e := Solo(rec, Start(Revoke(bucket)), os[0], 0);
      SoloCountsFaults(rec, Start(Revoke(bucket)), os[0], 0);
      FaultsMetAreFaultedAttempts(e.rec, bucket, os[1..], limit);
      if OnlyOwnPolicy(rec, bucket) && HonestAttempts(rec, bucket, os, limit) {
        Attempt(rec, bucket, os[0], 0, limit);
      }
    }
  }

  ghost predicate HonestAttempts(rec: Record, bucket: string, os: seq<Oracle>, limit: nat)
    decreases |os|
  {
    os == [] ||
    (&& HonestSolo(rec, Start(Revoke(bucket)), os[0], 0, limit)
     && HonestAttempts(Solo(rec, Start(Revoke(bucket)), os[0], 0).rec, bucket, os[1..], limit))
  }

  /** max(1, ceil(n / limit)) */
  function Pages(n: nat, limit: nat): nat
    requires limit > 0
  {
    if n <= limit then 1 else 1 + Pages(n - limit, limit)
  }

  lemma {:induction false} PagesIsCeiling(n: nat, limit: nat)
    requires limit > 0
    ensures Pages(n, limit) >= 1
    ensures (Pages(n, limit) - 1) * limit < n || (n == 0 && Pages(n, limit) == 1)
    ensures n <= Pages(n, limit) * limit
  {
    if n > limit { PagesIsCeiling(n - limit, limit); }
  }

  lemma {:induction false} PagesMonotone(m: nat, n: nat, limit: nat)
    requires limit > 0 && m <= n
    ensures Pages(m, limit) <= Pages(n, limit)
  {
    if m > limit { PagesMonotone(m - limit, n - limit, limit); }
  }

  /** With n keys, pages of `limit` and at most `faults` faults in all, before or after
      their effect, some attempt among the first faults + max(1, ceil(n / limit)) is
      reported as a success, and leaves the user absent. */
  lemma {:induction false} RetryBound(rec: Record, bucket: string, os: seq<Oracle>, limit: nat, faults: nat)
    requires limit > 0 && OnlyOwnPolicy(rec, bucket) && HonestAttempts(rec, bucket, os, limit)
    requires FaultsMet(rec, bucket, os) <= faults
    requires |os| >= faults + Pages(KeyCount(rec), limit)
    ensures SucceedsWithin(rec, bucket, os) && AfterAttempts(rec, bucket, os).live == None
    decreases |os|
  {
    var e := Solo(rec, Start(Revoke(bucket)), os[0], 0);
    Attempt(rec, bucket, os[0], 0, limit);
    VerdictIsSucceeds(Revoke(bucket), e.result);
    if Verdict(Revoke(bucket), e.result) == None {
      HonestToTheLastCall(rec, Start(Revoke(bucket)), os[0], 0, limit);
      SuccessfulSoloSeesAbsence(rec, Start(Revoke(bucket)), os[0], 0);
    } else {
      PagesMonotone(KeyCount(e.rec), KeyCount(rec), limit);
      RetryBound(e.rec, bucket, os[1..], limit, faults - e.faults);
    }
  }
}
