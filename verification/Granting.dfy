/** What grants guarantee when they interleave with each other and with revokes
    (pkg/clients/iam/iam_client.go, lines 131 to 151). */
module Granting {

  import opened Errors
  import opened Policy
  import opened Iam
  import opened Saga

  // ---------------------------------------------------------------------------------
  // Verdicts of RPCs that no fault hits
  // ---------------------------------------------------------------------------------

  lemma CodeVerdicts(job: Job, err: Error)
    ensures AsApiCode(err) == Some("EntityAlreadyExists") ==> Verdict(job, Failed(err)) == Some(AlreadyExists)
    ensures AsApiCode(err) == Some("DeleteConflict") ==> Verdict(job, Failed(err)) == Some(FailedPrecondition)
    ensures AsApiCode(err) == Some("NoSuchEntity") ==>
      Verdict(job, Failed(err)) == if job.Grant? then Some(NotFound) else None
  {
    IamRefusalCodes();
    ActionsDiffer();
  }

  /** The codes with which the service itself can end an RPC. */
  predicate ServiceEnd(job: Job, result: Result) {
    result.Failed? ==>
      AsApiCode(result.err) == Some("NoSuchEntity")
      || AsApiCode(result.err) == Some(if job.Grant? then "EntityAlreadyExists" else "DeleteConflict")
  }

  lemma ServedStepEnd(rec: Record, p: Proc, o: Outcome)
    requires PcFits(p) && !p.pc.Finished? && o.Served?
    ensures var p' := StepProc(rec, p, o).1;
      p'.pc.Finished? ==> ServiceEnd(p'.job, p'.pc.result)
  {
    var refusal := Refuses(rec, NextCall(p));
    if refusal.Some? { RefusalErrorIsFaithful(refusal.value, o.depth); }
  }

  lemma {:induction false} UnfaultedEnds(s: Sys, acts: seq<Action>, id: nat)
    requires Fresh(s) && id in s.procs && Clean(acts, id)
    ensures var t := Exec(s, acts);
      && id in t.procs && PcFits(t.procs[id]) && t.procs[id].job == s.procs[id].job
      && (t.procs[id].pc.Finished? ==> ServiceEnd(t.procs[id].job, t.procs[id].pc.result))
  {
    if acts != [] {
      var init, a := acts[..|acts| - 1], acts[|acts| - 1];
      CleanInit(acts, id);
      UnfaultedEnds(s, init, id);
      var before := Exec(s, init);
      if Enabled(before, a) && a.id == id { ServedStepEnd(before.rec, before.procs[id], a.o); }
    }
  }

  /** In every interleaving of grants and revokes, whatever keys, policies or users vanish
      or appear in between, an RPC that no fault hits can end in these ways only. In
      particular no vanished key ever stops a revoke. */
  lemma UnfaultedVerdicts(s: Sys, acts: seq<Action>, id: nat)
    requires Fresh(s) && id in s.procs && Clean(acts, id)
    ensures id in Exec(s, acts).procs
    ensures var p := Exec(s, acts).procs[id];
      p.pc.Finished? ==>
        Verdict(p.job, p.pc.result) in
          if p.job.Grant? then {None, Some(AlreadyExists), Some(NotFound)} else {None, Some(FailedPrecondition)}
  {
    UnfaultedEnds(s, acts, id);
    var p := Exec(s, acts).procs[id];
    if p.pc.Finished? && p.pc.result.Failed? { CodeVerdicts(p.job, p.pc.result.err); }
  }

  // ---------------------------------------------------------------------------------
  // What the verdict says about the last call
  // ---------------------------------------------------------------------------------

  /** A fault without an API error in it ends an RPC wherever it strikes, and is reported as
      Internal. */
  lemma FaultWithoutCodeIsInternal(rec: Record, p: Proc, o: Outcome)
    requires !p.pc.Finished? && o.Fault? && ApiErrors(o.err) == []
    ensures var p' := StepProc(rec, p, o).1;
      p'.pc.Finished? && Verdict(p'.job, p'.pc.result) == Some(Internal)
  {
    SearchesFindListedErrors(o.err);
    TranslateExact(ActionOf(p.job), o.err, IAM_ERROR_TABLE);
  }

  predicate FaultWithCode(o: Outcome, codes: set<string>) {
    o.Fault? && HasCode(o.err, codes)
  }

  /** What the status of a grant says about the call that ended it: success, that its
      CreateAccessKey was served on a live user; AlreadyExists, that its CreateUser was, or
      that a fault carried one of two codes; NotFound, that one of its two other calls was
      served on an absent user, or that a fault carried the missing-entity code. */
  ghost predicate GrantVerdict(rec: Record, p: Proc, o: Outcome, status: Option<Code>) {
    && (status == None <==> p.pc.CreatingKey? && rec.live.Some? && o.Served?)
    && (status == Some(AlreadyExists) <==>
          || (p.pc.CreatingUser? && rec.live.Some? && o.Served?)
          || FaultWithCode(o, {"EntityAlreadyExists", "AccessKeyAlreadyExists"}))
    && (status == Some(NotFound) <==>
          || (!p.pc.CreatingUser? && rec.live == None && o.Served?)
          || FaultWithCode(o, {"NoSuchEntity"}))
    && (o.Fault? && ApiErrors(o.err) == [] ==> status == Some(Internal))
  }

  lemma GrantStepVerdict(rec: Record, p: Proc, o: Outcome)
    requires p.job.Grant? && PcFits(p) && !p.pc.Finished? && StepProc(rec, p, o).1.pc.Finished?
    ensures GrantVerdict(rec, p, o, Verdict(p.job, StepProc(rec, p, o).1.pc.result))
  {
    var p' := StepProc(rec, p, o).1;
    if o.Fault? && ApiErrors(o.err) == [] { FaultWithoutCodeIsInternal(rec, p, o); }
    if p'.pc.result.Failed? {
      GrantStatusByCode(p'.pc.result.err, AlreadyExists);
      GrantStatusByCode(p'.pc.result.err, NotFound);
      var refusal := Refuses(rec, NextCall(p));
      if refusal.Some? && o.Served? { RefusalErrorIsFaithful(refusal.value, o.depth); }
    }
  }

  /** The call before moment `k` ended the RPC `id`, a grant with this status. */
  ghost predicate GrantEndsWith(s: Sys, acts: seq<Action>, id: nat, k: nat, status: Option<Code>) {
    EndsAt(s, acts, id, k) && GrantVerdict(At(s, acts, k - 1).rec, At(s, acts, k - 1).procs[id], acts[k - 1].o, status)
  }

  /** In every interleaving, with whatever faults, the status of a grant says this. */
  lemma GrantVerdictExplained(s: Sys, acts: seq<Action>, id: nat)
    requires Fresh(s) && id in s.procs && s.procs[id].job.Grant?
    requires id in Exec(s, acts).procs && Exec(s, acts).procs[id].pc.Finished?
    ensures exists k: nat ::
      GrantEndsWith(s, acts, id, k, Verdict(s.procs[id].job, Exec(s, acts).procs[id].pc.result))
  {
    LastCallEnds(s, acts, id);
    var k: nat :| EndsAt(s, acts, id, k) && At(s, acts, k).procs[id] == Exec(s, acts).procs[id];
    ProgramsKeep(s, acts[..k - 1]);
    EndIsStep(s, acts, id, k);
    GrantStepVerdict(At(s, acts, k - 1).rec, At(s, acts, k - 1).procs[id], acts[k - 1].o);
    assert GrantEndsWith(s, acts, id, k, Verdict(s.procs[id].job, Exec(s, acts).procs[id].pc.result));
  }

  // ---------------------------------------------------------------------------------
  // Counting creations and deletions
  // ---------------------------------------------------------------------------------

  /** The step makes a CreateUser call, and it takes effect. */
  predicate CreatesUser(s: Sys, a: Action) {
    Enabled(s, a) && s.procs[a.id].pc.CreatingUser? && s.rec.live == None && Next(s, a).rec.live.Some?
  }

  /** The step makes a DeleteUser call, and it takes effect. */
  predicate DeletesUser(s: Sys, a: Action) {
    Enabled(s, a) && s.procs[a.id].pc.DeletingUser? && s.rec.live.Some? && Next(s, a).rec.live == None
  }

  /** The step is a grant's CreateUser call and the grant is told that it succeeded. */
  predicate Accepted(s: Sys, a: Action) {
    Enabled(s, a) && s.procs[a.id].pc.CreatingUser? && Next(s, a).procs[a.id].pc.PuttingPolicy?
  }

  function Creations(s: Sys, acts: seq<Action>): nat {
    if acts == [] then 0
    else
      var init, a := acts[..|acts| - 1], acts[|acts| - 1];
      Creations(s, init) + if CreatesUser(Exec(s, init), a) then 1 else 0
  }

  function Deletions(s: Sys, acts: seq<Action>): nat {
    if acts == [] then 0
    else
      var init, a := acts[..|acts| - 1], acts[|acts| - 1];
      Deletions(s, init) + if DeletesUser(Exec(s, init), a) then 1 else 0
  }

  /** The grants that have passed their CreateUser call. */
  function Passed(s: Sys, acts: seq<Action>): set<nat> {
    if acts == [] then {}
    else
      var init, a := acts[..|acts| - 1], acts[|acts| - 1];
      Passed(s, init) + if Accepted(Exec(s, init), a) then {a.id} else {}
  }

  /** The moments before which steps of the kind `kind` were made. */
  function Moments(s: Sys, acts: seq<Action>, kind: (Sys, Action) -> bool): set<nat> {
    set m: nat | m < |acts| && kind(At(s, acts, m), acts[m])
  }

  lemma MomentsGrow(s: Sys, acts: seq<Action>, kind: (Sys, Action) -> bool)
    requires acts != []
    ensures var n := |acts| - 1;
      Moments(s, acts, kind) == Moments(s, acts[..n], kind) + if kind(Exec(s, acts[..n]), acts[n]) then {n} else {}
  {
    var n := |acts| - 1;
    forall m: nat | m < n ensures acts[..m] == acts[..n][..m] {}
  }

  /** `Deletions` counts the moments at which a deletion took effect. */
  lemma {:induction false} DeletionsAreCounted(s: Sys, acts: seq<Action>)
    ensures Deletions(s, acts) == |Moments(s, acts, DeletesUser)|
  {
    if acts != [] {
      DeletionsAreCounted(s, acts[..|acts| - 1]);
      MomentsGrow(s, acts, DeletesUser);
    }
  }

  /** And `Creations` those at which a creation did. */
  lemma {:induction false} CreationsAreCounted(s: Sys, acts: seq<Action>)
    ensures Creations(s, acts) == |Moments(s, acts, CreatesUser)|
  {
    if acts != [] {
      CreationsAreCounted(s, acts[..|acts| - 1]);
      MomentsGrow(s, acts, CreatesUser);
    }
  }

  /** `Passed` holds the grants accepted at some moment, and no others. */
  lemma {:induction false} PassedWereAccepted(s: Sys, acts: seq<Action>, id: nat)
    ensures id in Passed(s, acts) <==> exists m: nat :: m in Moments(s, acts, Accepted) && acts[m].id == id
  {
    if acts != [] {
      var n := |acts| - 1;
      PassedWereAccepted(s, acts[..n], id);
      MomentsGrow(s, acts, Accepted);
      forall m: nat | m < n ensures acts[..n][m] == acts[m] {}
    }
  }

  function Alive(rec: Record): nat { if rec.live.Some? then 1 else 0 }

  /** No other call brings a user into being or makes one disappear. */
  lemma OnlyTheseCallsChangeLife(s: Sys, a: Action)
    ensures Alive(Next(s, a).rec) - Alive(s.rec)
      == (if CreatesUser(s, a) then 1 else 0) - (if DeletesUser(s, a) then 1 else 0)
  {
  }

  lemma AcceptedCreates(s: Sys, a: Action)
    requires Accepted(s, a)
    ensures CreatesUser(s, a) && Next(s, a).rec.live == Some(User(map[], {}))
  {
  }

  /** Over every run, with arbitrary faults, the user exists or not as creations and
      deletions say. */
  lemma {:induction false} CreationsBalanceDeletions(s: Sys, acts: seq<Action>)
    ensures Creations(s, acts) - Deletions(s, acts) == Alive(Exec(s, acts).rec) - Alive(s.rec)
  {
    if acts != [] {
      var init := acts[..|acts| - 1];
      CreationsBalanceDeletions(s, init);
      OnlyTheseCallsChangeLife(Exec(s, init), acts[|acts| - 1]);
    }
  }

  predicate HasPassed(pc: Pc) {
    pc.PuttingPolicy? || pc.CreatingKey? || (pc.Finished? && pc.result.Granted?)
  }

  lemma {:induction false} PassedAreCreations(s: Sys, acts: seq<Action>)
    ensures |Passed(s, acts)| <= Creations(s, acts)
  {
    if acts != [] {
      var init, a := acts[..|acts| - 1], acts[|acts| - 1];
      PassedAreCreations(s, init);
      if Accepted(Exec(s, init), a) { AcceptedCreates(Exec(s, init), a); }
    }
  }

  lemma {:induction false} BeyondCreateUserIsPassed(s: Sys, acts: seq<Action>, id: nat)
    requires Fresh(s) && id in s.procs
    ensures id in Exec(s, acts).procs
    ensures HasPassed(Exec(s, acts).procs[id].pc) ==> id in Passed(s, acts)
  {
    if acts != [] {
      var init := acts[..|acts| - 1];
      BeyondCreateUserIsPassed(s, init, id);
      ProgramsKeep(s, init);
    }
  }

  /** The grants that have handed out a credential. */
  function GrantedIds(s: Sys): set<nat> {
    set i | i in s.procs && s.procs[i].pc.Finished? && s.procs[i].pc.result.Granted?
  }

  /** For an initially absent user, successful grants never exceed effective deletions by
      more than one, whatever interleaves and whatever fails. */
  lemma GrantsBoundedByDeletions(s: Sys, acts: seq<Action>)
    requires Fresh(s) && s.rec.live == None
    ensures |GrantedIds(Exec(s, acts))| <= Deletions(s, acts) + 1
  {
    CreationsBalanceDeletions(s, acts);
    PassedAreCreations(s, acts);
    ProgramsKeep(s, acts);
    var granted, passed := GrantedIds(Exec(s, acts)), Passed(s, acts);
    forall id | id in granted ensures id in passed { BeyondCreateUserIsPassed(s, acts, id); }
    assert granted <= passed;
    assert |passed - granted| == |passed| - |granted|;
  }

  // ---------------------------------------------------------------------------------
  // Lockout
  // ---------------------------------------------------------------------------------

  ghost predicate NoDeletion(s: Sys, acts: seq<Action>, from: nat) {
    forall m: nat :: from <= m < |acts| ==> !DeletesUser(At(s, acts, m), acts[m])
  }

  lemma {:induction false} AliveUntilDeletion(s: Sys, acts: seq<Action>, from: nat)
    requires from <= |acts| && At(s, acts, from).rec.live.Some? && NoDeletion(s, acts, from)
    ensures Exec(s, acts).rec.live.Some?
    decreases |acts|
  {
    if from == |acts| {
      assert acts[..from] == acts;
    } else {
      var n := |acts| - 1;
      var init := acts[..n];
      assert init[..from] == acts[..from];
      forall m: nat | from <= m < n
        ensures !DeletesUser(At(s, init, m), init[m])
      {
        assert init[..m] == acts[..m];
      }
      AliveUntilDeletion(s, init, from);
      assert !DeletesUser(At(s, acts, n), acts[n]);
      OnlyTheseCallsChangeLife(Exec(s, init), acts[n]);
    }
  }

  /** Once the user exists, and until a DeleteUser takes effect, every grant whose
      CreateUser call is served gets AlreadyExists and changes nothing. */
  lemma GrantLockout(s: Sys, acts: seq<Action>, from: nat, a: Action)
    requires from <= |acts| && At(s, acts, from).rec.live.Some? && NoDeletion(s, acts, from)
    requires var now := Exec(s, acts);
      Enabled(now, a) && now.procs[a.id].job.Grant? && now.procs[a.id].pc.CreatingUser? && a.o.Served?
    ensures var now, next := Exec(s, acts), Next(Exec(s, acts), a);
      && next.rec == now.rec
      && next.procs[a.id].pc.Finished?
      && Verdict(next.procs[a.id].job, next.procs[a.id].pc.result) == Some(AlreadyExists)
  {
    AliveUntilDeletion(s, acts, from);
    RefusalErrorIsFaithful(EntityAlreadyExists, a.o.depth);
    CodeVerdicts(Exec(s, acts).procs[a.id].job, RefusalError(EntityAlreadyExists, a.o.depth));
  }

  /** Between any two grants that pass CreateUser there is an effective DeleteUser. */
  lemma DeletionBetweenGrants(s: Sys, acts: seq<Action>, j: nat, k: nat)
    requires j < k < |acts| && Accepted(At(s, acts, j), acts[j]) && Accepted(At(s, acts, k), acts[k])
    ensures exists m: nat :: j < m < k && DeletesUser(At(s, acts, m), acts[m])
  {
    AcceptedCreates(At(s, acts, j), acts[j]);
    AcceptedCreates(At(s, acts, k), acts[k]);
    assert acts[..j + 1][..j] == acts[..j];
    assert At(s, acts, j + 1) == Next(At(s, acts, j), acts[j]);
    if forall m: nat :: j < m < k ==> !DeletesUser(At(s, acts, m), acts[m]) {
      var run := acts[..k];
      assert run[..j + 1] == acts[..j + 1];
      forall m: nat | j + 1 <= m < |run|
        ensures !DeletesUser(At(s, run, m), run[m])
      {
        assert run[..m] == acts[..m];
      }
      AliveUntilDeletion(s, run, j + 1);
    }
  }

  // ---------------------------------------------------------------------------------
  // Grants side by side: one winner
  // ---------------------------------------------------------------------------------

  function OwnPolicy(bucket: string): map<string, string> { map[bucket := Document(bucket)] }

  /** What the one grant that passed CreateUser has made of the user so far. */
  predicate WinnerHolds(user: User, p: Proc) {
    match p.pc
    case PuttingPolicy => user == User(map[], {})
    case CreatingKey => user == User(OwnPolicy(p.job.bucket), {})
    case Finished(Granted(key)) => user == User(OwnPolicy(p.job.bucket), {key})
    case Finished(Failed(_)) =>
      || user == User(map[], {})
      || (user.policies == OwnPolicy(p.job.bucket) && |user.keys| <= 1)
    case _ => false
  }

  /** A grant that has not passed CreateUser. */
  predicate Loser(p: Proc) {
    p.pc.CreatingUser? || (p.pc.Finished? && p.pc.result.Failed?)
  }

  ghost predicate OnlyGrants(s: Sys) {
    forall i :: i in s.procs ==> s.procs[i].job.Grant?
  }

  ghost predicate Election(procs: map<nat, Proc>, rec: Record, passed: set<nat>) {
    && passed <= procs.Keys
    && (forall i, j :: i in passed && j in passed ==> i == j)
    && (forall i :: i in procs ==> procs[i].job.Grant? && (i !in passed ==> Loser(procs[i])))
    && (forall i :: i in passed ==> rec.live.Some? && WinnerHolds(rec.live.value, procs[i]))
    && (passed == {} && rec.live.Some? ==> rec.live.value == User(map[], {}))
  }

  lemma WinnerStep(rec: Record, p: Proc, o: Outcome)
    requires p.job.Grant? && !p.pc.Finished? && !p.pc.CreatingUser?
    requires rec.live.Some? && WinnerHolds(rec.live.value, p)
    ensures var (rec', p') := StepProc(rec, p, o);
      && rec'.live.Some? && WinnerHolds(rec'.live.value, p')
      && (o.Served? && p'.pc.Finished? ==> p'.pc.result.Granted?)
  {
  }

  lemma LoserStep(rec: Record, p: Proc, o: Outcome)
    requires p.job.Grant? && p.pc.CreatingUser?
    ensures var (rec', p') := StepProc(rec, p, o);
      && (rec.live.Some? ==> rec' == rec && Loser(p'))
      && (rec.live == None ==>
            && (rec'.live.Some? ==> rec'.live.value == User(map[], {}))
            && (rec'.live == None ==> Loser(p'))
            && (Loser(p') || (p'.pc == PuttingPolicy && rec'.live.Some?))
            && (o.Served? ==> p'.pc == PuttingPolicy))
  {
  }

  lemma {:induction false} ElectionInvariant(s: Sys, acts: seq<Action>)
    requires Fresh(s) && OnlyGrants(s) && s.rec.live == None
    ensures var t := Exec(s, acts);
      t.procs.Keys == s.procs.Keys && Election(t.procs, t.rec, Passed(s, acts))
  {
    if acts != [] {
      var init, a := acts[..|acts| - 1], acts[|acts| - 1];
      ElectionInvariant(s, init);
      var before := Exec(s, init);
      if Enabled(before, a) {
        var p := before.procs[a.id];
        if p.pc.CreatingUser? {
          LoserStep(before.rec, p, a.o);
        } else {
          WinnerStep(before.rec, p, a.o);
        }
      }
    }
  }

  /** The grant that passed CreateUser succeeds unless a fault hits it. */
  lemma {:induction false} UnfaultedWinnerSucceeds(s: Sys, acts: seq<Action>, id: nat)
    requires Fresh(s) && OnlyGrants(s) && s.rec.live == None
    requires id in Passed(s, acts) && Clean(acts, id)
    ensures id in Exec(s, acts).procs
    ensures Exec(s, acts).procs[id].pc.Finished? ==> Exec(s, acts).procs[id].pc.result.Granted?
  {
    var init, a := acts[..|acts| - 1], acts[|acts| - 1];
    CleanInit(acts, id);
    ElectionInvariant(s, init);
    var before := Exec(s, init);
    if id in Passed(s, init) {
      UnfaultedWinnerSucceeds(s, init, id);
      if Enabled(before, a) && a.id == id { WinnerStep(before.rec, before.procs[id], a.o); }
    }
  }

  /** As long as no call is faulted and no grant has passed CreateUser, none has begun. */
  lemma {:induction false} NoWinnerNothingHappened(s: Sys, acts: seq<Action>)
    requires Fresh(s) && OnlyGrants(s) && s.rec.live == None
    requires forall i :: i in s.procs ==> Clean(acts, i)
    requires Passed(s, acts) == {}
    ensures Exec(s, acts) == s
  {
    if acts != [] {
      var init, a := acts[..|acts| - 1], acts[|acts| - 1];
      forall i | i in s.procs ensures Clean(init, i) { CleanInit(acts, i); }
      NoWinnerNothingHappened(s, init);
      if Enabled(s, a) {
        CleanInit(acts, a.id);
        LoserStep(s.rec, s.procs[a.id], a.o);
      }
    }
  }

  /** Of any number of interleaved grants of one absent user name, to any buckets and with
      any faults, at most one passes CreateUser, and every other that finishes is reported
      as an error. */
  lemma {:induction false} ConcurrentGrantsElectOneWinner(s: Sys, acts: seq<Action>, id: nat)
    requires Fresh(s) && OnlyGrants(s) && s.rec.live == None && id in s.procs
    ensures |Passed(s, acts)| <= 1 && id in Exec(s, acts).procs
    ensures var p := Exec(s, acts).procs[id];
      id !in Passed(s, acts) && p.pc.Finished? ==> Verdict(p.job, p.pc.result).Some?
  {
    ElectionInvariant(s, acts);
    AtMostOne(Passed(s, acts));
    var p := Exec(s, acts).procs[id];
    if id !in Passed(s, acts) && p.pc.Finished? {
      GrantAndCreateNeverNil(p.pc.result.err);
    }
  }

  /** The user holds at most one key, no policy but that of one of the grants in `passed`,
      and a key only together with that policy. */
  ghost predicate HoldsOnlyOf(user: User, procs: map<nat, Proc>, passed: set<nat>) {
    && |user.keys| <= 1
    && (user.policies == map[] ==> user.keys == {})
    && (user.policies != map[] ==>
          exists i :: i in passed && i in procs && user.policies == OwnPolicy(procs[i].job.bucket))
  }

  /** At every moment of such a run the user is the winner's alone. */
  lemma {:induction false} ConcurrentGrantsLeaveWinnersUser(s: Sys, acts: seq<Action>)
    requires Fresh(s) && OnlyGrants(s) && s.rec.live == None
    ensures var t := Exec(s, acts);
      t.rec.live.Some? ==> HoldsOnlyOf(t.rec.live.value, t.procs, Passed(s, acts))
  {
    ElectionInvariant(s, acts);
    var t, passed := Exec(s, acts), Passed(s, acts);
    if passed != {} {
      var i :| i in passed;
      assert WinnerHolds(t.rec.live.value, t.procs[i]);
      assert OwnPolicy(t.procs[i].job.bucket) != map[] by {
        assert t.procs[i].job.bucket in OwnPolicy(t.procs[i].job.bucket);
      }
    }
  }

  lemma AtMostOne(ids: set<nat>)
    requires forall i, j :: i in ids && j in ids ==> i == j
    ensures |ids| <= 1
  {
    if ids != {} {
      var i :| i in ids;
      assert ids == {i};
    }
  }

  /** `w` alone has passed CreateUser, and the user has its policy and its key. */
  ghost predicate SoleWinner(t: Sys, passed: set<nat>, w: nat) {
    && passed == {w} && w in t.procs
    && t.procs[w].pc.Finished? && t.procs[w].pc.result.Granted?
    && t.rec.live == Some(User(OwnPolicy(t.procs[w].job.bucket), {t.procs[w].pc.result.key}))
  }

  ghost predicate AllCleanlyFinished(s: Sys, acts: seq<Action>) {
    && (forall i :: i in s.procs ==> Clean(acts, i))
    && (forall i :: i in Exec(s, acts).procs ==> Exec(s, acts).procs[i].pc.Finished?)
  }

  /** If no call at all is faulted and all grants run to their end, exactly one succeeds. */
  lemma UnfaultedGrantsElectExactlyOne(s: Sys, acts: seq<Action>)
    requires Fresh(s) && OnlyGrants(s) && s.rec.live == None && s.procs != map[]
    requires AllCleanlyFinished(s, acts)
    ensures exists w :: SoleWinner(Exec(s, acts), Passed(s, acts), w)
  {
    var t, passed := Exec(s, acts), Passed(s, acts);
    ElectionInvariant(s, acts);
    var some :| some in s.procs;
    assert s.procs[some].pc.CreatingUser? && some in t.procs;
    if passed == {} { NoWinnerNothingHappened(s, acts); }
    var w :| w in passed;
    assert passed == {w};
    UnfaultedWinnerSucceeds(s, acts, w);
    assert WinnerHolds(t.rec.live.value, t.procs[w]);
    assert SoleWinner(t, passed, w);
  }

  /** And whatever faults hit the others, a losing grant that none hits gets AlreadyExists. */
  lemma UnfaultedLosersGetAlreadyExists(s: Sys, acts: seq<Action>, id: nat)
    requires Fresh(s) && OnlyGrants(s) && s.rec.live == None && id in s.procs && Clean(acts, id)
    requires id !in Passed(s, acts)
    ensures id in Exec(s, acts).procs
    ensures var p := Exec(s, acts).procs[id];
      p.pc.Finished? ==> Verdict(p.job, p.pc.result) == Some(AlreadyExists)
  {
    ElectionInvariant(s, acts);
    var p := Exec(s, acts).procs[id];
    if p.pc.Finished? {
      LoserWasRefused(s, acts, id);
      CodeVerdicts(p.job, p.pc.result.err);
    }
  }

  lemma {:induction false} LoserWasRefused(s: Sys, acts: seq<Action>, id: nat)
    requires Fresh(s) && OnlyGrants(s) && s.rec.live == None && id in s.procs && Clean(acts, id)
    requires id in Exec(s, acts).procs && id !in Passed(s, acts)
    requires Exec(s, acts).procs[id].pc.Finished?
    ensures Exec(s, acts).procs[id].pc.result.Failed?
    ensures AsApiCode(Exec(s, acts).procs[id].pc.result.err) == Some("EntityAlreadyExists")
  {
    if acts != [] {
      var init, a := acts[..|acts| - 1], acts[|acts| - 1];
      CleanInit(acts, id);
      ElectionInvariant(s, init);
      var before := Exec(s, init);
      if before.procs[id].pc.Finished? {
        LoserWasRefused(s, init, id);
      } else {
        RefusalErrorIsFaithful(EntityAlreadyExists, a.o.depth);
        LoserStep(before.rec, before.procs[id], a.o);
      }
    }
  }
}
