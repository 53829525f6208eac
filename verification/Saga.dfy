/** The grant and revoke sequences of the IAM client as programs of API calls
    (pkg/clients/iam/iam_client.go, lines 131 to 239).

    `Resume` is the client code between two API calls: which call comes next, or how the
    sequence ends. A `Sys` is one user name at the service together with any number of
    RPCs in flight for it; since the handlers hold no lock, RPCs interleave call by call.
    `Solo` is the same program run by itself.
 */
module Saga {

  import opened Errors
  import opened Policy
  import opened Iam

  datatype Job = Grant(bucket: string) | Revoke(bucket: string)

  /** How the client function returns: a key, no error, or an error. */
  datatype Result = Granted(key: nat) | Revoked | Failed(err: Error)

  datatype Pc =
    | CreatingUser | PuttingPolicy | CreatingKey
    | GettingUser | DeletingPolicy | ListingKeys | DeletingKeys(key: nat, rest: seq<nat>) | DeletingUser
    | Finished(result: Result)

  datatype Proc = Proc(job: Job, pc: Pc)

  function Start(job: Job): Proc {
    Proc(job, if job.Grant? then CreatingUser else GettingUser)
  }

  function NextCall(p: Proc): Call
    requires !p.pc.Finished?
  {
    match p.pc
    case CreatingUser => CreateUser
    case PuttingPolicy => PutUserPolicy(p.job.bucket, Document(p.job.bucket))
    case CreatingKey => CreateAccessKey
    case GettingUser => GetUser
    case DeletingPolicy => DeleteUserPolicy(p.job.bucket)
    case ListingKeys => ListAccessKeys
    case DeletingKeys(key, _) => DeleteAccessKey(key)
    case DeletingUser => DeleteUser
  }

  /** The head of the key loop: the next listed key, or the end of the loop. */
  function KeyLoop(page: seq<nat>): Pc {
    if page == [] then DeletingUser else DeletingKeys(page[0], page[1..])
  }

  /** The client code that runs when an API call returns. */
  function Resume(pc: Pc, reply: Reply): Pc
    requires !pc.Finished?
    requires pc.CreatingKey? ==> reply.NewKey? || reply.Refused?
    requires pc.ListingKeys? ==> reply.Listing? || reply.Refused?
  {
    match pc
    case CreatingUser => if reply.Refused? then Finished(Failed(reply.err)) else PuttingPolicy
    case PuttingPolicy => if reply.Refused? then Finished(Failed(reply.err)) else CreatingKey
    case CreatingKey => if reply.Refused? then Finished(Failed(reply.err)) else Finished(Granted(reply.key))
    case GettingUser => if reply.Refused? then Finished(Failed(reply.err)) else DeletingPolicy
    case DeletingPolicy =>
      if reply.Refused? && !AsNoSuchEntity(reply.err) then Finished(Failed(reply.err)) else ListingKeys
    case ListingKeys => if reply.Refused? then Finished(Failed(reply.err)) else KeyLoop(reply.page)
    case DeletingKeys(_, rest) =>
      if reply.Refused? && !AsNoSuchEntity(reply.err) then Finished(Failed(reply.err)) else KeyLoop(rest)
    case DeletingUser =>
      if reply.Refused? && !AsNoSuchEntity(reply.err) then Finished(Failed(reply.err)) else Finished(Revoked)
  }

  /** One API call of `p` and the client code after it. */
  function StepProc(rec: Record, p: Proc, o: Outcome): (Record, Proc)
    requires !p.pc.Finished?
  {
    var (rec', reply) := Serve(rec, NextCall(p), o);
    (rec', p.(pc := Resume(p.pc, reply)))
  }

  // ---------------------------------------------------------------------------------
  // What the driver reports
  // ---------------------------------------------------------------------------------

  function ActionOf(job: Job): string {
    if job.Grant? then ACTION_GRANT_BUCKET_ACCESS else ACTION_REVOKE_BUCKET_ACCESS
  }

  /** The status that the RPC handler returns for a client result; None is success. */
  function Verdict(job: Job, result: Result): Option<Code> {
    match result
    case Failed(err) => TranslateIAMError(ActionOf(job), err)
    case _ => None
  }

  /** The same verdict, without the error table. */
  predicate Succeeds(job: Job, result: Result) {
    match result
    case Failed(err) => job.Revoke? && CodeIsNoSuchEntity(err)
    case _ => true
  }

  lemma VerdictIsSucceeds(job: Job, result: Result)
    ensures Verdict(job, result) == None <==> Succeeds(job, result)
  {
    if result.Failed? {
      GrantAndCreateNeverNil(result.err);
      RevokeNilIff(result.err);
    }
  }

  // ---------------------------------------------------------------------------------
  // Any number of RPCs for one user, interleaved
  // ---------------------------------------------------------------------------------

  datatype Sys = Sys(rec: Record, procs: map<nat, Proc>)

  /** RPC `id` makes its next API call and gets `o` from the environment. */
  datatype Action = Action(id: nat, o: Outcome)

  predicate Enabled(s: Sys, a: Action) {
    a.id in s.procs && !s.procs[a.id].pc.Finished?
  }

  function Next(s: Sys, a: Action): Sys {
    if Enabled(s, a) then
      var (rec', p') := StepProc(s.rec, s.procs[a.id], a.o);
      Sys(rec', s.procs[a.id := p'])
    else s
  }

  function Exec(s: Sys, acts: seq<Action>): Sys {
    if acts == [] then s else Next(Exec(s, acts[..|acts| - 1]), acts[|acts| - 1])
  }

  /** The state before the `k`-th action of a run. */
  function At(s: Sys, acts: seq<Action>, k: nat): Sys
    requires k <= |acts|
  {
    Exec(s, acts[..k])
  }

  /** The call that ends RPC `id` is the one before moment `k`. */
  ghost predicate EndsAt(s: Sys, acts: seq<Action>, id: nat, k: nat) {
    && 0 < k <= |acts| && acts[k - 1].id == id
    && id in At(s, acts, k - 1).procs && !At(s, acts, k - 1).procs[id].pc.Finished?
    && id in At(s, acts, k).procs && At(s, acts, k).procs[id].pc.Finished?
  }

  /** The environment is honest at every step of the run. */
  ghost predicate HonestRun(s: Sys, acts: seq<Action>, limit: nat) {
    acts == [] ||
    (var init, a := acts[..|acts| - 1], acts[|acts| - 1];
     var before := Exec(s, init);
     && HonestRun(s, init, limit)
     && (Enabled(before, a) ==> Honest(before.rec, NextCall(before.procs[a.id]), a.o, limit)))
  }

  /** No call of RPC `id` is hit by a fault. */
  ghost predicate Clean(acts: seq<Action>, id: nat) {
    forall k :: 0 <= k < |acts| && acts[k].id == id ==> acts[k].o.Served?
  }

  lemma CleanInit(acts: seq<Action>, id: nat)
    requires acts != [] && Clean(acts, id)
    ensures Clean(acts[..|acts| - 1], id)
    ensures acts[|acts| - 1].id == id ==> acts[|acts| - 1].o.Served?
  {
  }

  /** Every RPC is at its beginning; one that never takes a step has not arrived yet. */
  ghost predicate Fresh(s: Sys) {
    forall i :: i in s.procs ==> s.procs[i] == Start(s.procs[i].job)
  }

  predicate PcFits(p: Proc) {
    match p.pc
    case Finished(result) => if p.job.Grant? then !result.Revoked? else !result.Granted?
    case CreatingUser => p.job.Grant?
    case PuttingPolicy => p.job.Grant?
    case CreatingKey => p.job.Grant?
    case _ => p.job.Revoke?
  }

  /** RPCs stay what they are, and at places of their own program. */
  lemma {:induction false} ProgramsKeep(s: Sys, acts: seq<Action>)
    requires forall i :: i in s.procs ==> PcFits(s.procs[i])
    ensures Exec(s, acts).procs.Keys == s.procs.Keys
    ensures forall i :: i in s.procs ==>
      PcFits(Exec(s, acts).procs[i]) && Exec(s, acts).procs[i].job == s.procs[i].job
  {
    if acts != [] {
      ProgramsKeep(s, acts[..|acts| - 1]);
    }
  }

  /** An RPC that has ended was ended by a call of its own, and has been left alone since. */
  lemma {:induction false} LastCallEnds(s: Sys, acts: seq<Action>, id: nat)
    requires id in s.procs && !s.procs[id].pc.Finished?
    requires id in Exec(s, acts).procs && Exec(s, acts).procs[id].pc.Finished?
    ensures exists k: nat :: EndsAt(s, acts, id, k) && At(s, acts, k).procs[id] == Exec(s, acts).procs[id]
  {
    var n := |acts| - 1;
    var init := acts[..n];
    if id in Exec(s, init).procs && Exec(s, init).procs[id].pc.Finished? {
      LastCallEnds(s, init, id);
      var k: nat :| EndsAt(s, init, id, k) && At(s, init, k).procs[id] == Exec(s, init).procs[id];
      assert acts[..k] == init[..k] && acts[..k - 1] == init[..k - 1];
      assert EndsAt(s, acts, id, k);
    } else {
      assert acts[..n + 1] == acts;
      assert EndsAt(s, acts, id, n + 1);
    }
  }

  /** It was the step of its program from the record it found. */
  lemma EndIsStep(s: Sys, acts: seq<Action>, id: nat, k: nat)
    requires EndsAt(s, acts, id, k)
    ensures var before, after := At(s, acts, k - 1), At(s, acts, k);
      StepProc(before.rec, before.procs[id], acts[k - 1].o) == (after.rec, after.procs[id])
  {
    assert acts[..k][..k - 1] == acts[..k - 1];
  }

  lemma {:induction false} ExecAppend(s: Sys, a: seq<Action>, b: seq<Action>)
    ensures Exec(s, a + b) == Exec(Exec(s, a), b)
  {
    if b == [] {
      assert a + b == a;
    } else {
      ExecAppend(s, a, b[..|b| - 1]);
      assert (a + b)[..|a + b| - 1] == a + b[..|b| - 1];
    }
  }

  lemma SplitRun(s: Sys, acts: seq<Action>, k: nat)
    requires k <= |acts|
    ensures Exec(At(s, acts, k), acts[k..]) == Exec(s, acts)
  {
    ExecAppend(s, acts[..k], acts[k..]);
    assert acts[..k] + acts[k..] == acts;
  }

  // ---------------------------------------------------------------------------------
  // One RPC by itself
  // ---------------------------------------------------------------------------------

  /** The environment, as the outcome of the n-th API call. */
  type Oracle = nat -> Outcome

  datatype Ending = Ending(rec: Record, result: Result, clock: nat, faults: nat)

  function Stage(pc: Pc): nat {
    match pc
    case CreatingUser => 3
    case PuttingPolicy => 2
    case CreatingKey => 1
    case GettingUser => 5
    case DeletingPolicy => 4
    case ListingKeys => 3
    case DeletingKeys(_, _) => 2
    case DeletingUser => 1
    case Finished(_) => 0
  }

  function KeysLeft(pc: Pc): nat {
    if pc.DeletingKeys? then |pc.rest| else 0
  }

  /** Runs `p` from its present place to its end, the next API call being number `t`. */
  function Solo(rec: Record, p: Proc, o: Oracle, t: nat): Ending
    decreases Stage(p.pc), KeysLeft(p.pc)
  {
    if p.pc.Finished? then Ending(rec, p.pc.result, t, 0)
    else
      var (rec', p') := StepProc(rec, p, o(t));
      var e := Solo(rec', p', o, t + 1);
      if o(t).Fault? then e.(faults := e.faults + 1) else e
  }

  /** `faults` counts the calls made that were hit by a fault. */
  lemma {:induction false} SoloCountsFaults(rec: Record, p: Proc, o: Oracle, t: nat)
    ensures t <= Solo(rec, p, o, t).clock
    ensures Solo(rec, p, o, t).faults == |FaultMoments(o, t, Solo(rec, p, o, t).clock)|
    decreases Stage(p.pc), KeysLeft(p.pc)
  {
    var end := Solo(rec, p, o, t).clock;
    if p.pc.Finished? {
      assert FaultMoments(o, t, end) == {};
    } else {
      var (rec', p') := StepProc(rec, p, o(t));
      SoloCountsFaults(rec', p', o, t + 1);
      FaultMomentsStep(o, t, end);
    }
  }

  lemma FaultMomentsStep(o: Oracle, t: nat, end: nat)
    requires t < end
    ensures |FaultMoments(o, t, end)| == |FaultMoments(o, t + 1, end)| + if o(t).Fault? then 1 else 0
  {
    assert FaultMoments(o, t, end) == FaultMoments(o, t + 1, end) + if o(t).Fault? then {t} else {};
  }

  function FaultMoments(o: Oracle, t: nat, end: nat): set<nat> {
    set n: nat | t <= n < end && o(n).Fault?
  }

  /** The same end, counted faults aside. */
  predicate SameEnding(a: Ending, b: Ending) {
    a.(faults := 0) == b.(faults := 0)
  }

  lemma SoloStep(rec: Record, p: Proc, o: Oracle, t: nat)
    requires !p.pc.Finished?
    ensures var (rec', p') := StepProc(rec, p, o(t));
      SameEnding(Solo(rec, p, o, t),
        if p'.pc.Finished? then Ending(rec', p'.pc.result, t + 1, 0) else Solo(rec', p', o, t + 1))
  {
  }

  /** The error that a Go client function returns for a reply: any error, or any but a
      missing entity. */
  function ErrOf(reply: Reply): Option<Error> {
    if reply.Refused? then Some(reply.err) else None
  }

  function ErrUnlessMissing(reply: Reply): Option<Error> {
    if reply.Refused? && !AsNoSuchEntity(reply.err) then Some(reply.err) else None
  }

  ghost predicate HonestSolo(rec: Record, p: Proc, o: Oracle, t: nat, limit: nat)
    decreases Stage(p.pc), KeysLeft(p.pc)
  {
    p.pc.Finished? ||
    (&& Honest(rec, NextCall(p), o(t), limit)
     && (var (rec', p') := StepProc(rec, p, o(t)); HonestSolo(rec', p', o, t + 1, limit)))
  }

  function Schedule(id: nat, o: Oracle, t: nat, n: nat): seq<Action> {
    seq(n, k requires 0 <= k => Action(id, o(t + k)))
  }

  lemma SoloFirstStep(s: Sys, id: nat, o: Oracle, t: nat)
    requires id in s.procs && !s.procs[id].pc.Finished?
    ensures var p, s' := s.procs[id], Next(s, Action(id, o(t)));
      && id in s'.procs && s'.procs[id].job == p.job
      && s'.procs == s.procs[id := s'.procs[id]]
      && (Stage(s'.procs[id].pc) < Stage(p.pc)
          || (Stage(s'.procs[id].pc) == Stage(p.pc) && KeysLeft(s'.procs[id].pc) < KeysLeft(p.pc)))
      && (var e, e' := Solo(s.rec, p, o, t), Solo(s'.rec, s'.procs[id], o, t + 1);
          e.rec == e'.rec && e.result == e'.result && e.clock == e'.clock)
  {
  }

  lemma ScheduleFirst(id: nat, o: Oracle, t: nat, n: nat)
    requires n > 0
    ensures Schedule(id, o, t, n) == [Action(id, o(t))] + Schedule(id, o, t + 1, n - 1)
  {
  }

  lemma ExecFirst(s: Sys, a: Action, acts: seq<Action>)
    ensures Exec(s, [a] + acts) == Exec(Next(s, a), acts)
  {
    ExecAppend(s, [a], acts);
    assert Exec(s, [a][..0]) == s;
    assert Exec(s, [a]) == Next(s, a);
  }

  /** A solo run is a run of the interleaved system in which the others stand still. */
  lemma {:induction false} SoloIsExec(s: Sys, id: nat, o: Oracle, t: nat)
    requires id in s.procs
    ensures t <= Solo(s.rec, s.procs[id], o, t).clock
    ensures var p, e := s.procs[id], Solo(s.rec, s.procs[id], o, t);
      Exec(s, Schedule(id, o, t, e.clock - t)) == Sys(e.rec, s.procs[id := Proc(p.job, Finished(e.result))])
    decreases Stage(s.procs[id].pc), KeysLeft(s.procs[id].pc)
  {
    var p, e := s.procs[id], Solo(s.rec, s.procs[id], o, t);
    if p.pc.Finished? {
      assert s.procs[id := p] == s.procs;
    } else {
      var s' := Next(s, Action(id, o(t)));
      SoloFirstStep(s, id, o, t);
      SoloIsExec(s', id, o, t + 1);
      ScheduleFirst(id, o, t, e.clock - t);
      ExecFirst(s, Action(id, o(t)), Schedule(id, o, t + 1, e.clock - t - 1));
      var end := Proc(p.job, Finished(e.result));
      assert s.procs[id := s'.procs[id]][id := end] == s.procs[id := end];
    }
  }

  // ---------------------------------------------------------------------------------
  // The key loop by itself
  // ---------------------------------------------------------------------------------

  datatype Swept = Swept(rec: Record, err: Option<Error>, clock: nat, faults: nat)

  /** Deletes the listed keys one by one, going on past keys that are already gone. */
  function Sweep(rec: Record, page: seq<nat>, o: Oracle, t: nat): Swept
    decreases |page|
  {
    if page == [] then Swept(rec, None, t, 0)
    else
      var (rec', reply) := Serve(rec, DeleteAccessKey(page[0]), o(t));
      var hit := if o(t).Fault? then 1 else 0;
      if reply.Refused? && !AsNoSuchEntity(reply.err) then Swept(rec', Some(reply.err), t + 1, hit)
      else
        var w := Sweep(rec', page[1..], o, t + 1);
        w.(faults := w.faults + hit)
  }

  predicate SameSweep(a: Swept, b: Swept) {
    a.(faults := 0) == b.(faults := 0)
  }

  lemma SweepUnfolds(rec: Record, page: seq<nat>, o: Oracle, t: nat)
    requires page != []
    ensures var (rec', reply) := Serve(rec, DeleteAccessKey(page[0]), o(t));
      SameSweep(Sweep(rec, page, o, t),
        if ErrUnlessMissing(reply).Some? then Swept(rec', ErrUnlessMissing(reply), t + 1, 0)
        else Sweep(rec', page[1..], o, t + 1))
  {
  }

  /** The solo run goes through the loop and then on to DeleteUser. */
  lemma {:induction false} SoloThroughKeyLoop(rec: Record, bucket: string, page: seq<nat>, o: Oracle, t: nat)
    ensures var w := Sweep(rec, page, o, t);
      Solo(rec, Proc(Revoke(bucket), KeyLoop(page)), o, t)
      == match w.err
         case Some(err) => Ending(w.rec, Failed(err), w.clock, w.faults)
         case None =>
           var e := Solo(w.rec, Proc(Revoke(bucket), DeletingUser), o, w.clock);
           e.(faults := e.faults + w.faults)
    decreases |page|
  {
    if page != [] {
      var rec' := Serve(rec, DeleteAccessKey(page[0]), o(t)).0;
      RefusalErrorIsFaithful(NoSuchEntity, if o(t).Served? then o(t).depth else 0);
      SoloThroughKeyLoop(rec', bucket, page[1..], o, t + 1);
    }
  }

  /** One listing, and the loop over what it shows. */
  function ListAndSweep(rec: Record, o: Oracle, t: nat): Swept {
    var (rec', reply) := Serve(rec, ListAccessKeys, o(t));
    match reply
    case Listing(page) => Sweep(rec', page, o, t + 1)
    case _ => Swept(rec', ErrOf(reply), t + 1, 0)
  }

  lemma {:induction false} HonestThroughKeyLoop(rec: Record, bucket: string, page: seq<nat>, o: Oracle, t: nat,
                                                limit: nat)
    requires HonestSolo(rec, Proc(Revoke(bucket), KeyLoop(page)), o, t, limit)
    ensures forall n :: t <= n < Sweep(rec, page, o, t).clock && o(n).Fault? ==> NeverMissing(o(n).err)
    ensures Sweep(rec, page, o, t).err == None ==>
      HonestSolo(Sweep(rec, page, o, t).rec, Proc(Revoke(bucket), DeletingUser), o, Sweep(rec, page, o, t).clock, limit)
    decreases |page|
  {
    if page != [] {
      var (rec', reply) := Serve(rec, DeleteAccessKey(page[0]), o(t));
      if !(reply.Refused? && !AsNoSuchEntity(reply.err)) {
        HonestThroughKeyLoop(rec', bucket, page[1..], o, t + 1, limit);
      }
    }
  }

  function Elements(page: seq<nat>): set<nat> { set k | k in page }

  lemma PageOfAll(page: seq<nat>, keys: set<nat>, limit: nat)
    requires IsPage(page, keys, limit)
    ensures |Elements(page)| == |page| && Elements(page) <= keys
    ensures |keys| <= limit ==> Elements(page) == keys
  {
    DistinctElements(page);
    if |keys| <= limit {
      SubsetOfSameSize(Elements(page), keys);
    }
  }

  lemma {:induction false} DistinctElements(page: seq<nat>)
    requires forall i, j :: 0 <= i < j < |page| ==> page[i] != page[j]
    ensures |Elements(page)| == |page|
  {
    if page != [] {
      DistinctElements(page[1..]);
      assert page == [page[0]] + page[1..];
      assert Elements(page) == {page[0]} + Elements(page[1..]);
    }
  }

  lemma SubsetOfSameSize(a: set<nat>, b: set<nat>)
    requires a <= b && |a| == |b|
    ensures a == b
  {
    assert |b - a| == |b| - |a|;
  }

  lemma SizeOfRest(page: seq<nat>, keys: set<nat>, limit: nat)
    requires IsPage(page, keys, limit)
    ensures |keys - Elements(page)| == if |keys| <= limit then 0 else |keys| - limit
  {
    PageOfAll(page, keys, limit);
    assert |keys - Elements(page)| == |keys| - |Elements(page)|;
  }

  function WithoutKey(rec: Record, key: nat): Record
    requires rec.live.Some?
  {
    rec.(live := Some(rec.live.value.(keys := rec.live.value.keys - {key})))
  }

  /** One pass through the loop body: the key is gone unless a fault came first, and only a
      fault leaves the loop. */
  lemma SweepStep(rec: Record, page: seq<nat>, o: Oracle, t: nat)
    requires rec.live.Some? && page != [] && (o(t).Fault? ==> !AsNoSuchEntity(o(t).err))
    ensures Sweep(rec, page, o, t) ==
      match o(t)
      case Fault(err, late) => Swept(if late then WithoutKey(rec, page[0]) else rec, Some(err), t + 1, 1)
      case Served(_, _) => Sweep(WithoutKey(rec, page[0]), page[1..], o, t + 1)
  {
    RefusalErrorIsFaithful(NoSuchEntity, if o(t).Served? then o(t).depth else 0);
    var user := rec.live.value;
    assert page[0] !in user.keys ==> user.keys - {page[0]} == user.keys;
  }

  lemma ElementsOfPrefix(page: seq<nat>, m: nat)
    requires 0 < m <= |page|
    ensures Elements(page[..m]) == {page[0]} + Elements(page[1..][..m - 1])
  {
    assert page[..m] == [page[0]] + page[1..][..m - 1];
  }

  /** `w` is an exact end of the loop. Without an error, the listed keys are gone and no
      others. With one, that was a fault in the last call made, number i of the page
      counted from 0: the first i listed keys are gone, and the i-th as well if only the
      reply was lost. */
  ghost predicate ExactSweep(w: Swept, rec: Record, page: seq<nat>, o: Oracle, t: nat)
    requires rec.live.Some?
  {
    && w.rec.minted == rec.minted && w.rec.live.Some?
    && w.rec.live.value.policies == rec.live.value.policies
    && (match w.err
        case None =>
          w.clock == t + |page| && w.faults == 0
          && w.rec.live.value.keys == rec.live.value.keys - Elements(page)
        case Some(err) =>
          var i := w.clock - t - 1;
          0 <= i < |page| && w.faults == 1 && o(t + i).Fault? && o(t + i).err == err
          && w.rec.live.value.keys
             == rec.live.value.keys - Elements(page[..if o(t + i).late then i + 1 else i]))
  }

  lemma ExactSweepExtends(w: Swept, rec: Record, page: seq<nat>, o: Oracle, t: nat)
    requires rec.live.Some? && page != []
    requires ExactSweep(w, WithoutKey(rec, page[0]), page[1..], o, t + 1)
    ensures ExactSweep(w, rec, page, o, t)
  {
    match w.err
    case None =>
      ElementsOfPrefix(page, |page|);
      assert page[..|page|] == page && page[1..][..|page| - 1] == page[1..];
    case Some(_) =>
      var i := w.clock - t - 1;
      ElementsOfPrefix(page, if o(t + i).late then i + 1 else i);
  }

  /** The loop is exact. */
  lemma {:induction false} SweepExact(rec: Record, page: seq<nat>, o: Oracle, t: nat)
    requires rec.live.Some?
    requires forall n :: t <= n < Sweep(rec, page, o, t).clock && o(n).Fault? ==> !AsNoSuchEntity(o(n).err)
    ensures ExactSweep(Sweep(rec, page, o, t), rec, page, o, t)
    decreases |page|
  {
    if page != [] {
      SweepAdvances(rec, page, o, t);
      SweepStep(rec, page, o, t);
      if o(t).Fault? {
        assert page[..1] == [page[0]] && page[..0] == [];
        assert Elements(page[..1]) == {page[0]} && Elements(page[..0]) == {};
      } else {
        SweepExact(WithoutKey(rec, page[0]), page[1..], o, t + 1);
        ExactSweepExtends(Sweep(rec, page, o, t), rec, page, o, t);
      }
    }
  }

  lemma {:induction false} SweepAdvances(rec: Record, page: seq<nat>, o: Oracle, t: nat)
    ensures t <= Sweep(rec, page, o, t).clock
    ensures page != [] ==> t < Sweep(rec, page, o, t).clock
    decreases |page|
  {
    if page != [] {
      SweepAdvances(Serve(rec, DeleteAccessKey(page[0]), o(t)).0, page[1..], o, t + 1);
    }
  }

  /** Whatever goes wrong in the loop, the user keeps its policies and gets no new key. */
  lemma {:induction false} SweepOnlyRemovesKeys(rec: Record, page: seq<nat>, o: Oracle, t: nat)
    requires rec.live.Some?
    ensures var left := Sweep(rec, page, o, t).rec.live;
      left.Some? && left.value.policies == rec.live.value.policies && left.value.keys <= rec.live.value.keys
    decreases |page|
  {
    if page != [] {
      SweepOnlyRemovesKeys(Serve(rec, DeleteAccessKey(page[0]), o(t)).0, page[1..], o, t + 1);
    }
  }

  lemma ListAndSweepOnlyRemovesKeys(rec: Record, o: Oracle, t: nat)
    requires rec.live.Some?
    ensures var left := ListAndSweep(rec, o, t).rec.live;
      left.Some? && left.value.policies == rec.live.value.policies && left.value.keys <= rec.live.value.keys
  {
    if o(t).Served? { SweepOnlyRemovesKeys(rec, o(t).page, o, t + 1); }
  }

  lemma UnfaultedSweep(rec: Record, page: seq<nat>, o: Oracle, t: nat)
    requires rec.live.Some? && (forall n :: n >= t ==> o(n).Served?)
    ensures var w := Sweep(rec, page, o, t);
      && w.err == None && w.rec.live.Some?
      && w.rec.live.value == rec.live.value.(keys := rec.live.value.keys - Elements(page))
  {
    SweepExact(rec, page, o, t);
    assert ExactSweep(Sweep(rec, page, o, t), rec, page, o, t);
  }

  /** A pass that no fault hits. */
  lemma UnfaultedPass(rec: Record, o: Oracle, t: nat, limit: nat)
    requires rec.live.Some? && (forall n :: n >= t ==> o(n).Served?)
    requires IsPage(o(t).page, rec.live.value.keys, limit)
    ensures var w, keys := ListAndSweep(rec, o, t), rec.live.value.keys;
      && w.err == None && w.rec.live.Some?
      && w.rec.live.value == rec.live.value.(keys := keys - Elements(o(t).page))
      && |w.rec.live.value.keys| == if |keys| <= limit then 0 else |keys| - limit
  {
    UnfaultedSweep(rec, o(t).page, o, t + 1);
    SizeOfRest(o(t).page, rec.live.value.keys, limit);
  }

  /** After a listing or a loop that went wrong in whatever way, a fresh listing and the loop
      over it, if no fault hits them, finish without an error: gone are all keys that the
      interrupted pass has left, or a full page of them if there are more. */
  lemma SweepRestarts(rec: Record, o: Oracle, t: nat, o': Oracle, t': nat, limit: nat)
    requires rec.live.Some?
    requires forall n :: n >= t' ==> o'(n).Served?
    requires var left := ListAndSweep(rec, o, t).rec;
      left.live.Some? ==> IsPage(o'(t').page, left.live.value.keys, limit)
    ensures var left := ListAndSweep(rec, o, t).rec;
      var again := ListAndSweep(left, o', t');
      && left.live.Some? && left.live.value.keys <= rec.live.value.keys
      && again.err == None && again.rec.live.Some?
      && again.rec.live.value.policies == rec.live.value.policies
      && again.rec.live.value.keys == left.live.value.keys - Elements(o'(t').page)
      && |again.rec.live.value.keys| == if |left.live.value.keys| <= limit then 0 else |left.live.value.keys| - limit
  {
    ListAndSweepOnlyRemovesKeys(rec, o, t);
    UnfaultedPass(ListAndSweep(rec, o, t).rec, o', t', limit);
  }

  // ---------------------------------------------------------------------------------
  // The two client functions, call after call
  // ---------------------------------------------------------------------------------

  function Failing(rec: Record, err: Option<Error>, t: nat): Ending
    requires err.Some?
  {
    Ending(rec, Failed(err.value), t, 0)
  }

  function CreateBucketAccessRun(rec: Record, bucket: string, o: Oracle, t: nat): Ending {
    var (r1, a1) := Serve(rec, CreateUser, o(t));
    if ErrOf(a1).Some? then Failing(r1, ErrOf(a1), t + 1)
    else
      var (r2, a2) := Serve(r1, PutUserPolicy(bucket, Document(bucket)), o(t + 1));
      if ErrOf(a2).Some? then Failing(r2, ErrOf(a2), t + 2)
      else
        var (r3, a3) := Serve(r2, CreateAccessKey, o(t + 2));
        if ErrOf(a3).Some? then Failing(r3, ErrOf(a3), t + 3) else Ending(r3, Granted(a3.key), t + 3, 0)
  }

  function RevokeBucketAccessRun(rec: Record, bucket: string, o: Oracle, t: nat): Ending {
    var (r1, a1) := Serve(rec, GetUser, o(t));
    if ErrOf(a1).Some? then Failing(r1, ErrOf(a1), t + 1)
    else
      var (r2, a2) := Serve(r1, DeleteUserPolicy(bucket), o(t + 1));
      if ErrUnlessMissing(a2).Some? then Failing(r2, ErrUnlessMissing(a2), t + 2)
      else KeysAndUserRun(r2, o, t + 2)
  }

  /** The second half of a revoke: the keys and the user. */
  function KeysAndUserRun(rec: Record, o: Oracle, t: nat): Ending {
    var w := ListAndSweep(rec, o, t);
    if w.err.Some? then Failing(w.rec, w.err, w.clock)
    else
      var (rec', reply) := Serve(w.rec, DeleteUser, o(w.clock));
      if ErrUnlessMissing(reply).Some? then Failing(rec', ErrUnlessMissing(reply), w.clock + 1)
      else Ending(rec', Revoked, w.clock + 1, 0)
  }

  lemma ListAndSweepIsSolo(rec: Record, bucket: string, o: Oracle, t: nat)
    ensures var w := ListAndSweep(rec, o, t);
      SameEnding(Solo(rec, Proc(Revoke(bucket), ListingKeys), o, t),
        if w.err.Some? then Failing(w.rec, w.err, w.clock)
        else Solo(w.rec, Proc(Revoke(bucket), DeletingUser), o, w.clock))
  {
    var (rec', reply) := Serve(rec, ListAccessKeys, o(t));
    SoloStep(rec, Proc(Revoke(bucket), ListingKeys), o, t);
    if reply.Listing? {
      SoloThroughKeyLoop(rec', bucket, reply.page, o, t + 1);
    }
  }

  /** Written out call after call or as a program of steps, the client functions do the
      same to the service and return the same. */
  lemma GrantRunIsSolo(rec: Record, bucket: string, o: Oracle, t: nat)
    ensures SameEnding(CreateBucketAccessRun(rec, bucket, o, t), Solo(rec, Start(Grant(bucket)), o, t))
  {
    var p := Start(Grant(bucket));
    SoloStep(rec, p, o, t);
    var (r1, a1) := Serve(rec, CreateUser, o(t));
    if ErrOf(a1) == None {
      SoloStep(r1, p.(pc := PuttingPolicy), o, t + 1);
      var (r2, a2) := Serve(r1, PutUserPolicy(bucket, Document(bucket)), o(t + 1));
      if ErrOf(a2) == None { SoloStep(r2, p.(pc := CreatingKey), o, t + 2); }
    }
  }

  lemma KeysAndUserRunIsSolo(rec: Record, bucket: string, o: Oracle, t: nat)
    ensures SameEnding(KeysAndUserRun(rec, o, t), Solo(rec, Proc(Revoke(bucket), ListingKeys), o, t))
  {
    ListAndSweepIsSolo(rec, bucket, o, t);
    var w := ListAndSweep(rec, o, t);
    if w.err == None { SoloStep(w.rec, Proc(Revoke(bucket), DeletingUser), o, w.clock); }
  }

  lemma RevokeRunIsSolo(rec: Record, bucket: string, o: Oracle, t: nat)
    ensures SameEnding(RevokeBucketAccessRun(rec, bucket, o, t), Solo(rec, Start(Revoke(bucket)), o, t))
  {
    var p := Start(Revoke(bucket));
    SoloStep(rec, p, o, t);
    var (r1, a1) := Serve(rec, GetUser, o(t));
    if ErrOf(a1) == None {
      SoloStep(r1, p.(pc := DeletingPolicy), o, t + 1);
      var (r2, a2) := Serve(r1, DeleteUserPolicy(bucket), o(t + 1));
      if ErrUnlessMissing(a2) == None { KeysAndUserRunIsSolo(r2, bucket, o, t + 2); }
    }
  }
}
