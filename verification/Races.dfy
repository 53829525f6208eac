/** Grants and revokes of one user name side by side: when two credentials can come to
    exist at once, and what any interleaving leaves for later revokes to clean up
    (pkg/clients/iam/iam_client.go, lines 131 to 239). */
module Races {

  import opened Errors
  import opened Policy
  import opened Iam
  import opened Saga
  import opened Granting
  import opened Revocation

  // ---------------------------------------------------------------------------------
  // No run makes more keys than it has grants
  // ---------------------------------------------------------------------------------

  /** The grants that have not ended. */
  function Pending(s: Sys): set<nat> {
    set i | i in s.procs && s.procs[i].job.Grant? && !s.procs[i].pc.Finished?
  }

  ghost predicate AllFit(s: Sys) {
    forall i :: i in s.procs ==> PcFits(s.procs[i])
  }

  lemma StepKeys(rec: Record, p: Proc, o: Outcome)
    requires PcFits(p) && !p.pc.Finished?
    ensures var (rec', p') := StepProc(rec, p, o);
      && (!p.pc.CreatingKey? ==> KeyCount(rec') <= KeyCount(rec))
      && (p.pc.CreatingKey? ==> KeyCount(rec') <= KeyCount(rec) + 1 && p'.pc.Finished?)
  {
    if p.job.Revoke? {
      DeletesShrink(rec, NextCall(p), o);
      var rec' := StepProc(rec, p, o).0;
      if rec'.live.Some? { SetSizeMonotone(rec'.live.value.keys, rec.live.value.keys); }
    }
  }

  /** In any run, keys and unended grants together never grow in number. */
  lemma {:induction false} KeysAndPendingNeverGrow(s: Sys, acts: seq<Action>)
    requires AllFit(s)
    ensures KeyCount(Exec(s, acts).rec) + |Pending(Exec(s, acts))| <= KeyCount(s.rec) + |Pending(s)|
    ensures AllFit(Exec(s, acts))
  {
    if acts != [] {
      var init, a := acts[..|acts| - 1], acts[|acts| - 1];
      KeysAndPendingNeverGrow(s, init);
      ProgramsKeep(s, acts);
      var before := Exec(s, init);
      if Enabled(before, a) {
        StepKeys(before.rec, before.procs[a.id], a.o);
        PendingStep(before, a);
      }
    }
  }

  lemma PendingStep(s: Sys, a: Action)
    requires Enabled(s, a)
    ensures Pending(Next(s, a)) ==
      if s.procs[a.id].job.Grant? && Next(s, a).procs[a.id].pc.Finished? then Pending(s) - {a.id} else Pending(s)
    ensures |Pending(Next(s, a))| ==
      if s.procs[a.id].job.Grant? && Next(s, a).procs[a.id].pc.Finished? then |Pending(s)| - 1 else |Pending(s)|
  {
  }

  // ---------------------------------------------------------------------------------
  // No run makes a policy that no grant asks for
  // ---------------------------------------------------------------------------------

  ghost predicate GrantFor(s: Sys, bucket: string) {
    exists i :: i in s.procs && s.procs[i].job == Grant(bucket)
  }

  /** Every policy is one of `initial`, or the policy of a grant for the bucket it names. */
  ghost predicate PoliciesOf(rec: Record, initial: Record, s: Sys) {
    rec.live.Some? ==>
      forall n :: n in rec.live.value.policies ==>
        || (initial.live.Some? && n in initial.live.value.policies
            && initial.live.value.policies[n] == rec.live.value.policies[n])
        || (GrantFor(s, n) && rec.live.value.policies[n] == Document(n))
  }

  /** In any run, every policy was there before or is the policy of one of the grants. */
  lemma {:induction false} PoliciesComeFromGrants(s: Sys, acts: seq<Action>)
    requires AllFit(s)
    ensures PoliciesOf(Exec(s, acts).rec, s.rec, s)
  {
    if acts != [] {
      var init, a := acts[..|acts| - 1], acts[|acts| - 1];
      PoliciesComeFromGrants(s, init);
      ProgramsKeep(s, init);
      var before := Exec(s, init);
      if Enabled(before, a) {
        var p := before.procs[a.id];
        if p.job.Revoke? {
          DeletesShrink(before.rec, NextCall(p), a.o);
        } else {
          assert GrantFor(s, p.job.bucket);
        }
      }
    }
  }

  ghost predicate AllFor(s: Sys, bucket: string) {
    forall i :: i in s.procs ==> s.procs[i].job.bucket == bucket
  }

  /** Grants and revokes of one bucket never leave a policy of another name. */
  lemma OneBucketKeepsOwnPolicy(s: Sys, acts: seq<Action>, bucket: string)
    requires AllFit(s) && AllFor(s, bucket) && OnlyOwnPolicy(s.rec, bucket)
    ensures OnlyOwnPolicy(Exec(s, acts).rec, bucket)
  {
    PoliciesComeFromGrants(s, acts);
  }

  /** Recovery from any race: grants and revokes of one user and bucket interleave, hit by
      whatever faults and answered by whatever listings, and stop anywhere. Then, with n
      keys and G unended grants before the race and at most `faults` faults after it, some
      revoke among the next faults + max(1, ceil((n + G) / limit)) is reported as a
      success and leaves the user absent. */
  lemma {:induction false} RecoveryFromAnyRace(s: Sys, acts: seq<Action>, bucket: string, os: seq<Oracle>,
                                               limit: nat, faults: nat)
    requires AllFit(s) && AllFor(s, bucket) && OnlyOwnPolicy(s.rec, bucket) && limit > 0
    requires HonestAttempts(Exec(s, acts).rec, bucket, os, limit)
    requires FaultsMet(Exec(s, acts).rec, bucket, os) <= faults
    requires |os| >= faults + Pages(KeyCount(s.rec) + |Pending(s)|, limit)
    ensures SucceedsWithin(Exec(s, acts).rec, bucket, os)
    ensures AfterAttempts(Exec(s, acts).rec, bucket, os).live == None
  {
    OneBucketKeepsOwnPolicy(s, acts, bucket);
    KeysAndPendingNeverGrow(s, acts);
    var left := Exec(s, acts).rec;
    PagesMonotone(KeyCount(left), KeyCount(s.rec) + |Pending(s)|, limit);
    RetryBound(left, bucket, os, limit, faults);
  }

  // ---------------------------------------------------------------------------------
  // When two credentials can exist at once
  // ---------------------------------------------------------------------------------

  /** `i` and `j` are grants, and `r` a revoke, of one user. */
  ghost predicate Trio(s: Sys, i: nat, j: nat, r: nat) {
    && i in s.procs && j in s.procs && r in s.procs && i != j
    && s.procs[i].job.Grant? && s.procs[j].job.Grant? && s.procs[r].job.Revoke?
  }

  /** A call that is served; a listing shows no key. */
  function Go(id: nat): Action { Action(id, Served([], 0)) }

  /** The first grant creates the user; the revoke runs to its end and removes it again; the
      second grant creates it anew; then both grants go on. */
  function Overtaking(i: nat, j: nat, r: nat): seq<Action> {
    [Go(i)] + (([Go(r), Go(r)] + [Go(r), Go(r)]) + ([Go(j)] + ([Go(i), Go(i)] + [Go(j), Go(j)])))
  }

  lemma OneCall(s: Sys, a: Action)
    ensures Exec(s, [a]) == Next(s, a)
  {
    assert [a][..0] == [];
  }

  lemma TwoCalls(s: Sys, a: Action, b: Action)
    ensures Exec(s, [a, b]) == Next(Next(s, a), b)
  {
    OneCall(s, a);
    assert [a, b][..1] == [a];
  }

  lemma GrantBegins(s: Sys, i: nat)
    requires i in s.procs && s.procs[i].pc == CreatingUser && s.rec.live == None
    ensures Exec(s, [Go(i)])
         == Sys(Record(Some(User(map[], {})), s.rec.minted), s.procs[i := s.procs[i].(pc := PuttingPolicy)])
  {
    OneCall(s, Go(i));
  }

  lemma GrantGoesOn(s: Sys, i: nat)
    requires i in s.procs && s.procs[i].pc == PuttingPolicy && s.procs[i].job.Grant? && s.rec.live.Some?
    ensures var bucket, user, n := s.procs[i].job.bucket, s.rec.live.value, s.rec.minted;
      Exec(s, [Go(i), Go(i)])
      == Sys(Record(Some(User(user.policies[bucket := Document(bucket)], user.keys + {n})), n + 1),
             s.procs[i := s.procs[i].(pc := Finished(Granted(n)))])
  {
    TwoCalls(s, Go(i), Go(i));
  }

  /** A revoke of a user without policies and keys gets through its first three calls. */
  lemma EmptyUserIsSearched(s: Sys, r: nat)
    requires r in s.procs && s.procs[r].job.Revoke? && s.rec.live == Some(User(map[], {}))
    requires s.procs[r].pc.GettingUser? || s.procs[r].pc.DeletingPolicy? || s.procs[r].pc.ListingKeys?
    ensures Next(s, Go(r)) == s.(procs := s.procs[r := s.procs[r].(pc :=
      match s.procs[r].pc
      case GettingUser => DeletingPolicy
      case DeletingPolicy => ListingKeys
      case _ => DeletingUser)])
  {
    RefusalErrorIsFaithful(NoSuchEntity, 0);
  }

  /** The first two calls. */
  lemma EmptyUserIsFound(s: Sys, r: nat)
    requires r in s.procs && s.procs[r].job.Revoke? && s.procs[r].pc == GettingUser
    requires s.rec.live == Some(User(map[], {}))
    ensures Exec(s, [Go(r), Go(r)]) == s.(procs := s.procs[r := s.procs[r].(pc := ListingKeys)])
  {
    TwoCalls(s, Go(r), Go(r));
    EmptyUserIsSearched(s, r);
    EmptyUserIsSearched(Next(s, Go(r)), r);
  }

  /** The last two calls. */
  lemma EmptyUserIsDeleted(s: Sys, r: nat)
    requires r in s.procs && s.procs[r].job.Revoke? && s.procs[r].pc == ListingKeys
    requires s.rec.live == Some(User(map[], {}))
    ensures Exec(s, [Go(r), Go(r)])
         == Sys(s.rec.(live := None), s.procs[r := s.procs[r].(pc := Finished(Revoked))])
  {
    TwoCalls(s, Go(r), Go(r));
    EmptyUserIsSearched(s, r);
  }

  lemma EmptyUserIsRevoked(s: Sys, r: nat)
    requires r in s.procs && s.procs[r].job.Revoke? && s.procs[r].pc == GettingUser
    requires s.rec.live == Some(User(map[], {}))
    ensures Exec(s, [Go(r), Go(r)] + [Go(r), Go(r)])
         == Sys(s.rec.(live := None), s.procs[r := s.procs[r].(pc := Finished(Revoked))])
  {
    ExecAppend(s, [Go(r), Go(r)], [Go(r), Go(r)]);
    EmptyUserIsFound(s, r);
    EmptyUserIsDeleted(Exec(s, [Go(r), Go(r)]), r);
  }

  /** The state in which both grants have passed CreateUser. */
  function BothMidway(s: Sys, i: nat, j: nat, r: nat): Sys
    requires Trio(s, i, j, r)
  {
    Sys(Record(Some(User(map[], {})), s.rec.minted),
        s.procs[i := s.procs[i].(pc := PuttingPolicy)]
               [r := s.procs[r].(pc := Finished(Revoked))]
               [j := s.procs[j].(pc := PuttingPolicy)])
  }

  lemma BothGetMidway(s: Sys, i: nat, j: nat, r: nat, rest: seq<Action>)
    requires Fresh(s) && s.rec.live == None && Trio(s, i, j, r)
    ensures Exec(s, [Go(i)] + (([Go(r), Go(r)] + [Go(r), Go(r)]) + ([Go(j)] + rest)))
         == Exec(BothMidway(s, i, j, r), rest)
  {
    var revoke := [Go(r), Go(r)] + [Go(r), Go(r)];
    ExecAppend(s, [Go(i)], revoke + ([Go(j)] + rest));
    GrantBegins(s, i);
    var s1 := Exec(s, [Go(i)]);
    ExecAppend(s1, revoke, [Go(j)] + rest);
    EmptyUserIsRevoked(s1, r);
    var s2 := Exec(s1, revoke);
    ExecAppend(s2, [Go(j)], rest);
    GrantBegins(s2, j);
  }

  lemma BothGoOn(mid: Sys, i: nat, j: nat)
    requires i in mid.procs && j in mid.procs && i != j && mid.rec.live == Some(User(map[], {}))
    requires mid.procs[i].job.Grant? && mid.procs[i].pc == PuttingPolicy
    requires mid.procs[j].job.Grant? && mid.procs[j].pc == PuttingPolicy
    ensures var t, n := Exec(mid, [Go(i), Go(i)] + [Go(j), Go(j)]), mid.rec.minted;
      && t.procs == mid.procs[i := mid.procs[i].(pc := Finished(Granted(n)))]
                             [j := mid.procs[j].(pc := Finished(Granted(n + 1)))]
      && t.rec.live == Some(User(OwnPolicy(mid.procs[i].job.bucket) + OwnPolicy(mid.procs[j].job.bucket), {n, n + 1}))
  {
    ExecAppend(mid, [Go(i), Go(i)], [Go(j), Go(j)]);
    GrantGoesOn(mid, i);
    GrantGoesOn(Exec(mid, [Go(i), Go(i)]), j);
    var a, b, n := mid.procs[i].job.bucket, mid.procs[j].job.bucket, mid.rec.minted;
    assert map[][a := Document(a)][b := Document(b)] == OwnPolicy(a) + OwnPolicy(b);
    assert {} + {n} + {n + 1} == {n, n + 1};
  }

  /** Without a single fault, two grants and a revoke of one absent user can leave it with
      two credentials, both handed out, under the policies of both grants. */
  lemma TwoGrantsSucceed(s: Sys, i: nat, j: nat, r: nat)
    requires Fresh(s) && s.rec.live == None && Trio(s, i, j, r)
    ensures forall k :: 0 <= k < |Overtaking(i, j, r)| ==> Overtaking(i, j, r)[k].o.Served?
    ensures var t, n := Exec(s, Overtaking(i, j, r)), s.rec.minted;
      && t.procs.Keys == s.procs.Keys
      && t.procs[i].pc == Finished(Granted(n)) && t.procs[j].pc == Finished(Granted(n + 1))
      && t.rec.live == Some(User(OwnPolicy(s.procs[i].job.bucket) + OwnPolicy(s.procs[j].job.bucket), {n, n + 1}))
  {
    BothGetMidway(s, i, j, r, [Go(i), Go(i)] + [Go(j), Go(j)]);
    BothGoOn(BothMidway(s, i, j, r), i, j);
  }

  lemma AtMostOneGrantAtMostOneKey(s: Sys, acts: seq<Action>)
    requires Fresh(s) && s.rec.live == None
    requires forall i, j :: i in Pending(s) && j in Pending(s) ==> i == j
    ensures KeyCount(Exec(s, acts).rec) <= 1
  {
    AtMostOne(Pending(s));
    KeysAndPendingNeverGrow(s, acts);
  }

  lemma WithoutRevokesAtMostOneKey(s: Sys, acts: seq<Action>)
    requires Fresh(s) && OnlyGrants(s) && s.rec.live == None
    ensures KeyCount(Exec(s, acts).rec) <= 1
  {
    ConcurrentGrantsLeaveWinnersUser(s, acts);
  }

  /** RPCs for an absent user can bring it two keys, in some interleaving with some faults,
      exactly if there are two grants and a revoke among them. */
  lemma TwoKeysReachableIff(s: Sys)
    requires Fresh(s) && s.rec.live == None
    ensures (exists acts :: KeyCount(Exec(s, acts).rec) >= 2) <==> (exists i, j, r :: Trio(s, i, j, r))
  {
    if i, j, r :| Trio(s, i, j, r) {
      TwoGrantsSucceed(s, i, j, r);
      assert KeyCount(Exec(s, Overtaking(i, j, r)).rec) >= 2;
    } else {
      forall acts ensures KeyCount(Exec(s, acts).rec) <= 1 {
        if OnlyGrants(s) {
          WithoutRevokesAtMostOneKey(s, acts);
        } else {
          var r :| r in s.procs && s.procs[r].job.Revoke?;
          forall i, j | i in Pending(s) && j in Pending(s) ensures i == j {
            assert i != j ==> Trio(s, i, j, r);
          }
          AtMostOneGrantAtMostOneKey(s, acts);
        }
      }
    }
  }

  function PolicyCount(rec: Record): nat {
    if rec.live.Some? then |rec.live.value.policies| else 0
  }

  /** A trio whose grants are for different buckets. */
  ghost predicate CrossTrio(s: Sys, i: nat, j: nat, r: nat) {
    Trio(s, i, j, r) && s.procs[i].job.bucket != s.procs[j].job.bucket
  }

  lemma CrossTrioGivesTwoPolicies(s: Sys, i: nat, j: nat, r: nat)
    requires Fresh(s) && s.rec.live == None && CrossTrio(s, i, j, r)
    ensures PolicyCount(Exec(s, Overtaking(i, j, r)).rec) == 2
  {
    TwoGrantsSucceed(s, i, j, r);
    var a, b := s.procs[i].job.bucket, s.procs[j].job.bucket;
    assert (OwnPolicy(a) + OwnPolicy(b)).Keys == {a, b};
    assert |OwnPolicy(a) + OwnPolicy(b)| == |{a, b}|;
  }

  lemma AtMostOnePolicy(rec: Record)
    requires rec.live.Some? ==>
      forall m, n :: m in rec.live.value.policies && n in rec.live.value.policies ==> m == n
    ensures PolicyCount(rec) <= 1
  {
    if PolicyCount(rec) > 0 {
      var n :| n in rec.live.value.policies;
      assert rec.live.value.policies.Keys == {n};
    }
  }

  lemma WithoutCrossTrioAtMostOnePolicy(s: Sys, acts: seq<Action>)
    requires Fresh(s) && s.rec.live == None && forall i, j, r :: !CrossTrio(s, i, j, r)
    ensures PolicyCount(Exec(s, acts).rec) <= 1
  {
    var left := Exec(s, acts).rec;
    if left.live.Some? {
      if OnlyGrants(s) {
        ConcurrentGrantsLeaveWinnersUser(s, acts);
      } else {
        PoliciesComeFromGrants(s, acts);
        var r :| r in s.procs && s.procs[r].job.Revoke?;
        forall m, n | m in left.live.value.policies && n in left.live.value.policies
          ensures m == n
        {
          var i :| i in s.procs && s.procs[i].job == Grant(m);
          var j :| j in s.procs && s.procs[j].job == Grant(n);
          assert !CrossTrio(s, i, j, r);
        }
      }
      AtMostOnePolicy(left);
    }
  }

  /** And they can bring it two policies exactly if there are a revoke and two grants for
      different buckets. */
  lemma TwoPoliciesReachableIff(s: Sys)
    requires Fresh(s) && s.rec.live == None
    ensures (exists acts :: PolicyCount(Exec(s, acts).rec) >= 2) <==> (exists i, j, r :: CrossTrio(s, i, j, r))
  {
    if i, j, r :| CrossTrio(s, i, j, r) {
      CrossTrioGivesTwoPolicies(s, i, j, r);
      assert PolicyCount(Exec(s, Overtaking(i, j, r)).rec) >= 2;
    } else {
      forall acts ensures PolicyCount(Exec(s, acts).rec) <= 1 { WithoutCrossTrioAtMostOnePolicy(s, acts); }
    }
  }

  // ---------------------------------------------------------------------------------
  // What goes wrong in such a run
  // ---------------------------------------------------------------------------------

  /** Past CreateUser and not yet at its end. */
  predicate Midway(p: Proc) {
    p.pc.PuttingPolicy? || p.pc.CreatingKey?
  }

  /** The step removes the user under a grant that is midway. */
  ghost predicate Orphans(s: Sys, a: Action) {
    DeletesUser(s, a) && exists i :: i in s.procs && Midway(s.procs[i])
  }

  ghost predicate Quiet(s: Sys, acts: seq<Action>) {
    acts == [] ||
    (var init, a := acts[..|acts| - 1], acts[|acts| - 1];
     Quiet(s, init) && !Orphans(Exec(s, init), a))
  }

  /** A user as one of the grants makes it, or as revokes leave it. */
  ghost predicate OneGrantsUser(user: User, s: Sys) {
    && |user.keys| <= 1
    && (user.policies == map[] || exists bucket :: GrantFor(s, bucket) && user.policies == OwnPolicy(bucket))
  }

  /** The user while the grant `p` is midway. */
  predicate InTheMaking(user: User, p: Proc) {
    && user.keys == {}
    && (user.policies == map[] || (p.pc.CreatingKey? && user.policies == OwnPolicy(p.job.bucket)))
  }

  /** The invariant of quiet runs from `s`: at most one grant is midway, and it has the user
      to itself. */
  ghost predicate OneMidway(s: Sys, t: Sys) {
    && (t.rec.live.Some? ==> OneGrantsUser(t.rec.live.value, s))
    && (forall i :: i in t.procs && Midway(t.procs[i]) ==>
          t.rec.live.Some? && InTheMaking(t.rec.live.value, t.procs[i]))
    && (forall i, j :: i in t.procs && j in t.procs && Midway(t.procs[i]) && Midway(t.procs[j]) ==> i == j)
  }

  ghost predicate SamePrograms(s: Sys, t: Sys) {
    && t.procs.Keys == s.procs.Keys && AllFit(t)
    && forall i :: i in s.procs ==> t.procs[i].job == s.procs[i].job
  }

  lemma ShrinkingLeavesNoneOrOwn(before: User, after: User, bucket: string)
    requires after.policies.Keys <= before.policies.Keys
    requires forall n :: n in after.policies ==> after.policies[n] == before.policies[n]
    requires before.policies == map[] || before.policies == OwnPolicy(bucket)
    ensures after.policies == map[] || after.policies == OwnPolicy(bucket)
    ensures before.policies == map[] ==> after.policies == map[]
  {
    if bucket !in after.policies { assert after.policies.Keys == {}; }
  }

  lemma ShrunkUserKeepsForm(before: Record, after: Record, s: Sys)
    requires Shrunk(before, after) && (before.live.Some? ==> OneGrantsUser(before.live.value, s))
    ensures after.live.Some? ==> OneGrantsUser(after.live.value, s)
  {
    if after.live.Some? {
      var user, user' := before.live.value, after.live.value;
      SetSizeMonotone(user'.keys, user.keys);
      if user.policies == map[] {
        ShrinkingLeavesNoneOrOwn(user, user', "");
      } else {
        var bucket :| GrantFor(s, bucket) && user.policies == OwnPolicy(bucket);
        ShrinkingLeavesNoneOrOwn(user, user', bucket);
      }
    }
  }

  lemma ShrunkUserStaysInTheMaking(before: Record, after: Record, p: Proc)
    requires Shrunk(before, after) && after.live.Some? && InTheMaking(before.live.value, p)
    ensures InTheMaking(after.live.value, p)
  {
    ShrinkingLeavesNoneOrOwn(before.live.value, after.live.value, p.job.bucket);
  }

  lemma RevokeStepKeepsOneMidway(s: Sys, t: Sys, a: Action)
    requires SamePrograms(s, t) && OneMidway(s, t)
    requires Enabled(t, a) && t.procs[a.id].job.Revoke? && !Orphans(t, a)
    ensures OneMidway(s, Next(t, a))
  {
    var t', p := Next(t, a), t.procs[a.id];
    DeletesShrink(t.rec, NextCall(p), a.o);
    ShrunkUserKeepsForm(t.rec, t'.rec, s);
    assert !Midway(t'.procs[a.id]);
    OnlyTheseCallsChangeLife(t, a);
    forall i | i in t'.procs && Midway(t'.procs[i])
      ensures t'.rec.live.Some? && InTheMaking(t'.rec.live.value, t'.procs[i])
    {
      assert t'.procs[i] == t.procs[i];
      ShrunkUserStaysInTheMaking(t.rec, t'.rec, t.procs[i]);
    }
  }

  /** The call of a grant that is midway, for the user it has to itself. */
  lemma MidwayStep(rec: Record, p: Proc, o: Outcome)
    requires p.job.Grant? && Midway(p) && rec.live.Some? && InTheMaking(rec.live.value, p)
    ensures var (rec', p') := StepProc(rec, p, o);
      && rec'.live.Some? && |rec'.live.value.keys| <= 1
      && (rec'.live.value.policies == map[] || rec'.live.value.policies == OwnPolicy(p.job.bucket))
      && (Midway(p') ==> InTheMaking(rec'.live.value, p'))
  {
    assert map[][p.job.bucket := Document(p.job.bucket)] == OwnPolicy(p.job.bucket);
  }

  lemma GrantStepKeepsOneMidway(s: Sys, t: Sys, a: Action)
    requires SamePrograms(s, t) && OneMidway(s, t)
    requires Enabled(t, a) && t.procs[a.id].job.Grant?
    ensures OneMidway(s, Next(t, a))
  {
    var t', p := Next(t, a), t.procs[a.id];
    if p.pc.CreatingUser? {
      LoserStep(t.rec, p, a.o);
    } else {
      MidwayStep(t.rec, p, a.o);
      assert GrantFor(s, p.job.bucket) by { assert s.procs[a.id].job == Grant(p.job.bucket); }
    }
  }

  lemma {:induction false} QuietInvariant(s: Sys, acts: seq<Action>)
    requires Fresh(s) && s.rec.live == None && Quiet(s, acts)
    ensures SamePrograms(s, Exec(s, acts)) && OneMidway(s, Exec(s, acts))
  {
    ProgramsKeep(s, acts);
    if acts != [] {
      var init, a := acts[..|acts| - 1], acts[|acts| - 1];
      QuietInvariant(s, init);
      var before := Exec(s, init);
      if Enabled(before, a) {
        if before.procs[a.id].job.Grant? {
          GrantStepKeepsOneMidway(s, before, a);
        } else {
          RevokeStepKeepsOneMidway(s, before, a);
        }
      }
    }
  }

  /** Unless the user is removed under a grant that is midway, any interleaving of grants
      and revokes of an absent user, with whatever faults and replies, leaves at most one
      key and at most one policy, that of one of the grants. */
  lemma QuietRunShape(s: Sys, acts: seq<Action>)
    requires Fresh(s) && s.rec.live == None && Quiet(s, acts)
    ensures Exec(s, acts).rec.live.Some? ==> OneGrantsUser(Exec(s, acts).rec.live.value, s)
  {
    QuietInvariant(s, acts);
  }
}
