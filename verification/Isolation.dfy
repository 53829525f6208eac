/** Many users of many accounts at once. RPCs for different users do not disturb each
    other, so what modules Revocation and Granting prove about one user name holds for
    every user of an interleaved run over all of them. */
module Isolation {

  import opened Errors
  import opened Iam
  import opened Saga
  import Granting
  import Revocation

  /** A user name within the account that owns it. */
  datatype Principal = Principal(account: string, user: string)

  type Store = map<Principal, Record>

  function RecordOf(store: Store, who: Principal): Record {
    if who in store then store[who] else NO_RECORD
  }

  datatype Rpc = Rpc(who: Principal, proc: Proc)

  datatype World = World(store: Store, rpcs: map<nat, Rpc>)

  function NextInWorld(w: World, a: Action): World {
    if a.id in w.rpcs && !w.rpcs[a.id].proc.pc.Finished? then
      var who := w.rpcs[a.id].who;
      var (rec', p') := StepProc(RecordOf(w.store, who), w.rpcs[a.id].proc, a.o);
      World(w.store[who := rec'], w.rpcs[a.id := Rpc(who, p')])
    else w
  }

  function ExecWorld(w: World, acts: seq<Action>): World {
    if acts == [] then w else NextInWorld(ExecWorld(w, acts[..|acts| - 1]), acts[|acts| - 1])
  }

  /** One user's part of the world. */
  function Project(w: World, who: Principal): Sys {
    Sys(RecordOf(w.store, who), map i | i in w.rpcs && w.rpcs[i].who == who :: w.rpcs[i].proc)
  }

  predicate IsOf(w: World, a: Action, who: Principal) {
    a.id in w.rpcs && w.rpcs[a.id].who == who
  }

  /** The actions of one user's RPCs, in their order. */
  function Own(w: World, acts: seq<Action>, who: Principal): seq<Action> {
    if acts == [] then []
    else
      var init, a := acts[..|acts| - 1], acts[|acts| - 1];
      Own(w, init, who) + if IsOf(w, a, who) then [a] else []
  }

  /** `at` are positions in `acts`, in their order: all those, and only those, at which one
      of the user's own RPCs acts. */
  ghost predicate OwnPositions(w: World, acts: seq<Action>, who: Principal, at: seq<nat>) {
    && (forall i :: 0 <= i < |at| ==> at[i] < |acts| && IsOf(w, acts[at[i]], who))
    && (forall i, j :: 0 <= i < j < |at| ==> at[i] < at[j])
    && (forall m: nat :: m < |acts| && IsOf(w, acts[m], who) ==> m in at)
  }

  lemma {:induction false} LongerRun(w: World, init: seq<Action>, a: Action, who: Principal, at: seq<nat>)
    requires OwnPositions(w, init, who, at)
    ensures IsOf(w, a, who) ==> OwnPositions(w, init + [a], who, at + [|init|])
    ensures !IsOf(w, a, who) ==> OwnPositions(w, init + [a], who, at)
  {
    var acts, all := init + [a], at + [|init|];
    assert acts[|init|] == a && all[|at|] == |init|;
    forall m: nat | m < |init| ensures acts[m] == init[m] {}
    forall m | m in at ensures m in all {}
  }

  /** `Own` picks exactly these positions. */
  lemma {:induction false} OwnPicks(w: World, acts: seq<Action>, who: Principal) returns (at: seq<nat>)
    ensures OwnPositions(w, acts, who, at)
    ensures |Own(w, acts, who)| == |at|
    ensures forall i :: 0 <= i < |at| ==> Own(w, acts, who)[i] == acts[at[i]]
  {
    at := [];
    if acts != [] {
      var n := |acts| - 1;
      var picked := OwnPicks(w, acts[..n], who);
      LongerRun(w, acts[..n], acts[n], who, picked);
      assert acts[..n] + [acts[n]] == acts;
      at := picked;
      if IsOf(w, acts[n], who) { at := at + [n]; }
    }
  }

  ghost predicate SameOwners(w: World, w': World) {
    && w'.rpcs.Keys == w.rpcs.Keys
    && forall i :: i in w.rpcs ==> w'.rpcs[i].who == w.rpcs[i].who
  }

  lemma {:induction false} OwnersNeverChange(w: World, acts: seq<Action>)
    ensures SameOwners(w, ExecWorld(w, acts))
  {
    if acts != [] { OwnersNeverChange(w, acts[..|acts| - 1]); }
  }

  /** A step of one user's RPC is a step of that user's part, and nothing to the others. */
  lemma StepProjects(w: World, a: Action, who: Principal)
    ensures Project(NextInWorld(w, a), who)
         == if IsOf(w, a, who) then Next(Project(w, who), a) else Project(w, who)
  {
    var w' := NextInWorld(w, a);
    if IsOf(w, a, who) {
      assert Project(w', who).procs == Next(Project(w, who), a).procs;
    } else {
      assert Project(w', who).procs == Project(w, who).procs;
    }
  }

  /** A user's part of a run over the whole world is the run of that user's own actions. */
  lemma {:induction false} RunProjects(w: World, acts: seq<Action>, who: Principal)
    ensures Project(ExecWorld(w, acts), who) == Exec(Project(w, who), Own(w, acts, who))
  {
    if acts != [] {
      var init, a := acts[..|acts| - 1], acts[|acts| - 1];
      RunProjects(w, init, who);
      OwnersNeverChange(w, init);
      StepProjects(ExecWorld(w, init), a, who);
      var own := Own(w, init, who);
      if IsOf(w, a, who) {
        assert Own(w, acts, who) == own + [a];
        assert (own + [a])[..|own + [a]| - 1] == own;
      } else {
        assert Own(w, acts, who) == own;
      }
    }
  }

  lemma {:induction false} OwnIsIdempotent(w: World, acts: seq<Action>, who: Principal)
    ensures Own(w, Own(w, acts, who), who) == Own(w, acts, who)
  {
    if acts != [] {
      var init, a := acts[..|acts| - 1], acts[|acts| - 1];
      OwnIsIdempotent(w, init, who);
      var own := Own(w, init, who);
      if IsOf(w, a, who) {
        assert Own(w, acts, who) == own + [a];
        assert (own + [a])[..|own + [a]| - 1] == own;
      } else {
        assert Own(w, acts, who) == own;
      }
    }
  }

  /** Non-interference: the final record of a user and the ends of all of the user's RPCs
      are those of the run in which only that user's RPCs take their steps. */
  lemma NonInterference(w: World, acts: seq<Action>, who: Principal)
    ensures Project(ExecWorld(w, acts), who) == Project(ExecWorld(w, Own(w, acts, who)), who)
  {
    RunProjects(w, acts, who);
    RunProjects(w, Own(w, acts, who), who);
    OwnIsIdempotent(w, acts, who);
  }

  /** A one-user result carried over to the whole world: successful grants of a user that
      did not exist exceed the effective deletions of that user by at most one, whatever
      the RPCs of all other users do in between. */
  lemma GrantsBoundedInWorld(w: World, acts: seq<Action>, who: Principal)
    requires forall i :: i in w.rpcs ==> w.rpcs[i].proc == Start(w.rpcs[i].proc.job)
    requires RecordOf(w.store, who).live == None
    ensures |Granting.GrantedIds(Project(ExecWorld(w, acts), who))|
         <= Granting.Deletions(Project(w, who), Own(w, acts, who)) + 1
  {
    RunProjects(w, acts, who);
    Granting.GrantsBoundedByDeletions(Project(w, who), Own(w, acts, who));
  }

  /** And so the revokes of one user and bucket agree whatever all other users' RPCs do. */
  lemma RevokesAgreeInWorld(w: World, acts: seq<Action>, who: Principal, bucket: string, limit: nat, id: nat)
    requires id in w.rpcs && w.rpcs[id].who == who
    requires Revocation.AllRevoke(Project(w, who), bucket)
    requires Revocation.Removable(RecordOf(w.store, who), bucket, limit)
    requires HonestRun(Project(w, who), Own(w, acts, who), limit)
    requires Clean(Own(w, acts, who), id)
    ensures id in ExecWorld(w, acts).rpcs
    ensures var p := ExecWorld(w, acts).rpcs[id].proc;
      p.pc.Finished? ==>
        Verdict(p.job, p.pc.result) == None && RecordOf(ExecWorld(w, acts).store, who).live == None
  {
    RunProjects(w, acts, who);
    OwnersNeverChange(w, acts);
    Revocation.ConcurrentRevokesAgree(Project(w, who), Own(w, acts, who), bucket, limit, id);
    assert Project(ExecWorld(w, acts), who).procs[id] == ExecWorld(w, acts).rpcs[id].proc;
  }
}
