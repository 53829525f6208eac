/** Grants and revokes one at a time: what a grant leaves behind when it is cut short,
    how a revoke undoes it, and what holds over whole runs
    (pkg/clients/iam/iam_client.go, lines 95 to 179). */
module Recovery {

  import opened Errors
  import opened Policy
  import opened Iam
  import opened Saga
  import opened Granting
  import Revocation

  // ---------------------------------------------------------------------------------
  // One grant
  // ---------------------------------------------------------------------------------

  /** The state at `rec` that a grant for `bucket` can leave: nothing, or a user without
      policy and keys, or a user with the bucket's policy and at most one key. */
  ghost predicate PartialGrant(rec: Record, bucket: string) {
    rec.live.Some? ==>
      || rec.live.value == User(map[], {})
      || (rec.live.value.policies == OwnPolicy(bucket) && |rec.live.value.keys| <= 1)
  }

  /** A grant of an absent user, whatever faults cut it short: a key exists only under the
      bucket's policy, and success means exactly that policy and the key handed out. */
  lemma GrantFromAbsent(rec: Record, bucket: string, o: Oracle, t: nat)
    requires rec.live == None
    ensures var e := Solo(rec, Start(Grant(bucket)), o, t);
      && PartialGrant(e.rec, bucket)
      && !e.result.Revoked?
      && (e.result.Granted? ==> e.rec.live == Some(User(OwnPolicy(bucket), {e.result.key})))
      && (e.faults == 0 ==> e.result == Granted(rec.minted))
  {
    var p := Start(Grant(bucket));
    var (r1, p1) := StepProc(rec, p, o(t));
    if p1.pc == PuttingPolicy {
      assert r1.live == Some(User(map[], {}));
      var (r2, p2) := StepProc(r1, p1, o(t + 1));
      GrantFromCreatedUser(r1, bucket, o, t + 1);
    }
  }

  lemma GrantFromCreatedUser(rec: Record, bucket: string, o: Oracle, t: nat)
    requires rec.live == Some(User(map[], {}))
    ensures var e := Solo(rec, Proc(Grant(bucket), PuttingPolicy), o, t);
      && PartialGrant(e.rec, bucket) && e.rec.live.Some?
      && !e.result.Revoked?
      && (e.result.Granted? ==> e.rec.live == Some(User(OwnPolicy(bucket), {e.result.key})))
      && (e.faults == 0 ==> e.result == Granted(rec.minted))
  {
    var (r1, p1) := StepProc(rec, Proc(Grant(bucket), PuttingPolicy), o(t));
    assert map[][bucket := Document(bucket)] == OwnPolicy(bucket);
    if p1.pc == CreatingKey {
      GrantFromPolicy(r1, bucket, o, t + 1);
    }
  }

  lemma GrantFromPolicy(rec: Record, bucket: string, o: Oracle, t: nat)
    requires rec.live == Some(User(OwnPolicy(bucket), {}))
    ensures var e := Solo(rec, Proc(Grant(bucket), CreatingKey), o, t);
      && e.rec.live.Some? && e.rec.live.value.policies == OwnPolicy(bucket)
      && |e.rec.live.value.keys| <= 1
      && !e.result.Revoked?
      && (e.result.Granted? ==> e.rec.live.value.keys == {e.result.key})
      && (e.faults == 0 ==> e.result == Granted(rec.minted))
  {
    var (r1, p1) := StepProc(rec, Proc(Grant(bucket), CreatingKey), o(t));
    assert p1.pc.Finished?;
  }

  /** A grant of an existing user changes nothing and hands out nothing; if its first call
      is served, it reports AlreadyExists. A grant is not idempotent. */
  lemma GrantFromLive(rec: Record, bucket: string, o: Oracle, t: nat)
    requires rec.live.Some?
    ensures var e := Solo(rec, Start(Grant(bucket)), o, t);
      && e.rec == rec && e.result.Failed?
      && (o(t).Served? ==> Verdict(Grant(bucket), e.result) == Some(AlreadyExists))
  {
    if o(t).Served? {
      RefusalErrorIsFaithful(EntityAlreadyExists, o(t).depth);
      CodeVerdicts(Grant(bucket), RefusalError(EntityAlreadyExists, o(t).depth));
    }
  }

  /** A grant that meets no fault succeeds exactly if the user was absent. */
  lemma UnfaultedGrantSucceedsIff(rec: Record, bucket: string, o: Oracle, t: nat)
    requires Solo(rec, Start(Grant(bucket)), o, t).faults == 0
    ensures Verdict(Grant(bucket), Solo(rec, Start(Grant(bucket)), o, t).result) == None <==> rec.live == None
  {
    if rec.live == None {
      GrantFromAbsent(rec, bucket, o, t);
    } else {
      GrantFromLive(rec, bucket, o, t);
      SoloStep(rec, Start(Grant(bucket)), o, t);
    }
  }

  /** The credential that a grant hands out opens the bucket and its objects to all S3
      actions, and no other bucket and to no other action. */
  lemma GrantGivesExactAccess(rec: Record, bucket: string, o: Oracle, t: nat,
                              action: string, other: string, key: string)
    requires Readable(bucket) && WildcardFree(bucket) && '/' !in other
    requires rec.live == None && Solo(rec, Start(Grant(bucket)), o, t).result.Granted?
    ensures var e := Solo(rec, Start(Grant(bucket)), o, t);
      && e.rec.live.Some? && e.result.key in e.rec.live.value.keys
      && (Revocation.MayAccess(e.rec.live.value, action, BucketArn(other)) <==> S3Action(action) && other == bucket)
      && (Revocation.MayAccess(e.rec.live.value, action, ObjectArn(other, key))
          <==> S3Action(action) && other == bucket)
  {
    GrantFromAbsent(rec, bucket, o, t);
    DocumentAllowsBucketIff(bucket, action, other, key);
    assert bucket in OwnPolicy(bucket) && OwnPolicy(bucket)[bucket] == Document(bucket);
  }

  // ---------------------------------------------------------------------------------
  // A revoke compensates any partial grant
  // ---------------------------------------------------------------------------------

  /** No fault from the t-th call on. */
  ghost predicate FaultFree(o: Oracle, t: nat) {
    forall n :: n >= t ==> o(n).Served?
  }

  lemma {:induction false} FaultFreeMeetsNone(rec: Record, p: Proc, o: Oracle, t: nat)
    requires FaultFree(o, t)
    ensures Solo(rec, p, o, t).faults == 0
    decreases Stage(p.pc), KeysLeft(p.pc)
  {
    if !p.pc.Finished? {
      var (rec', p') := StepProc(rec, p, o(t));
      FaultFreeMeetsNone(rec', p', o, t + 1);
    }
  }

  /** A grant of an absent user is cut by a fault at any call, before or after its effect,
      or not cut at all; then a fault-free revoke of the same user and bucket reports
      success and leaves the user as absent as it was. */
  lemma RevokeUndoesGrant(rec: Record, bucket: string, o: Oracle, t: nat, o': Oracle, t': nat, limit: nat)
    requires rec.live == None && limit > 0 && FaultFree(o', t')
    requires var granted := Solo(rec, Start(Grant(bucket)), o, t).rec;
      HonestSolo(granted, Start(Revoke(bucket)), o', t', limit)
    ensures var granted := Solo(rec, Start(Grant(bucket)), o, t).rec;
      var e := Solo(granted, Start(Revoke(bucket)), o', t');
      Verdict(Revoke(bucket), e.result) == None && e.rec.live == rec.live
  {
    var granted := Solo(rec, Start(Grant(bucket)), o, t).rec;
    GrantFromAbsent(rec, bucket, o, t);
    Revocation.Attempt(granted, bucket, o', t', limit);
    FaultFreeMeetsNone(granted, Start(Revoke(bucket)), o', t');
    var e := Solo(granted, Start(Revoke(bucket)), o', t');
    VerdictIsSucceeds(Revoke(bucket), e.result);
  }

  // ---------------------------------------------------------------------------------
  // Whole runs, one RPC at a time
  // ---------------------------------------------------------------------------------

  lemma {:induction false} SoloRevokeShrinks(rec: Record, p: Proc, o: Oracle, t: nat)
    requires p.job.Revoke? && PcFits(p)
    ensures Shrunk(rec, Solo(rec, p, o, t).rec) && !Solo(rec, p, o, t).result.Granted?
    decreases Stage(p.pc), KeysLeft(p.pc)
  {
    if !p.pc.Finished? {
      var (rec', p') := StepProc(rec, p, o(t));
      DeletesShrink(rec, NextCall(p), o(t));
      SoloRevokeShrinks(rec', p', o, t + 1);
    }
  }

  /** A user name with the history of its current lifetime: the bucket of the grant that
      created the user, and the number of credentials handed out since. */
  datatype Life = Life(rec: Record, creator: Option<string>, handed: nat)

  datatype Op = Op(user: string, job: Job, o: Oracle)

  function RunOn(life: Life, job: Job, o: Oracle): Life {
    var e := Solo(life.rec, Start(job), o, 0);
    var born := life.rec.live == None;
    if e.rec.live == None then Life(e.rec, None, 0)
    else Life(e.rec,
              if born then Some(job.bucket) else life.creator,
              (if born then 0 else life.handed) + if e.result.Granted? then 1 else 0)
  }

  type Ledger = map<string, Life>

  function LifeOf(ledger: Ledger, user: string): Life {
    if user in ledger then ledger[user] else Life(NO_RECORD, None, 0)
  }

  function RunAll(ledger: Ledger, ops: seq<Op>): Ledger {
    if ops == [] then ledger
    else
      var l, op := RunAll(ledger, ops[..|ops| - 1]), ops[|ops| - 1];
      l[op.user := RunOn(LifeOf(l, op.user), op.job, op.o)]
  }

  /** The life of `user` before the `n`-th RPC of a run from an empty service. */
  function LifeAfter(ops: seq<Op>, user: string, n: nat): Life
    requires n <= |ops|
  {
    LifeOf(RunAll(map[], ops[..n]), user)
  }

  lemma LifeStep(ops: seq<Op>, user: string, n: nat)
    requires n < |ops|
    ensures LifeAfter(ops, user, n + 1)
         == if ops[n].user == user then RunOn(LifeAfter(ops, user, n), ops[n].job, ops[n].o)
            else LifeAfter(ops, user, n)
  {
    assert ops[..n + 1][..n] == ops[..n];
  }

  /** The `m`-th RPC is a grant of `user`, and is reported as a success. */
  predicate Hands(ops: seq<Op>, user: string, m: nat)
    requires m < |ops|
  {
    && ops[m].user == user && ops[m].job.Grant?
    && Verdict(ops[m].job, Solo(LifeAfter(ops, user, m).rec, Start(ops[m].job), ops[m].o, 0).result) == None
  }

  function Handing(ops: seq<Op>, user: string, born: nat, n: nat): set<nat>
    requires n <= |ops|
  {
    set m: nat | born <= m < n && Hands(ops, user, m)
  }

  /** `user` does not exist before the `born`-th RPC, and does after it and up to the
      `n`-th; and that one is a grant for the bucket that the history names. */
  ghost predicate BornAt(ops: seq<Op>, user: string, born: nat, n: nat)
    requires n <= |ops|
  {
    && born < n && ops[born].user == user && ops[born].job.Grant?
    && LifeAfter(ops, user, born).rec.live == None
    && (forall m: nat :: born < m <= n ==> LifeAfter(ops, user, m).rec.live.Some?)
    && LifeAfter(ops, user, n).creator == Some(ops[born].job.bucket)
  }

  lemma SuccessIsGranted(job: Job, rec: Record, o: Oracle, t: nat)
    ensures var e := Solo(rec, Start(job), o, t);
      e.result.Granted? <==> job.Grant? && Verdict(job, e.result) == None
    ensures rec.live == None && Solo(rec, Start(job), o, t).rec.live.Some? ==> job.Grant?
  {
    var e := Solo(rec, Start(job), o, t);
    VerdictIsSucceeds(job, e.result);
    if job.Revoke? {
      SoloRevokeShrinks(rec, Start(job), o, t);
    } else if rec.live == None {
      GrantFromAbsent(rec, job.bucket, o, t);
    } else {
      GrantFromLive(rec, job.bucket, o, t);
    }
  }

  lemma HandingGrows(ops: seq<Op>, user: string, born: nat, n: nat)
    requires born <= n < |ops|
    ensures |Handing(ops, user, born, n + 1)| == |Handing(ops, user, born, n)| + if Hands(ops, user, n) then 1 else 0
  {
    assert Handing(ops, user, born, n + 1)
        == Handing(ops, user, born, n) + if Hands(ops, user, n) then {n} else {};
  }

  /** The history is exact: an existing user was created by the grant named in it, and
      `handed` is the number of grants reported as successful from that one on. */
  lemma {:induction false} HandedIsCounted(ops: seq<Op>, user: string, n: nat)
    requires n <= |ops| && LifeAfter(ops, user, n).rec.live.Some?
    ensures exists born: nat ::
      BornAt(ops, user, born, n) && LifeAfter(ops, user, n).handed == |Handing(ops, user, born, n)|
  {
    var k, op := n - 1, ops[n - 1];
    var before := LifeAfter(ops, user, k);
    LifeStep(ops, user, k);
    if op.user == user { SuccessIsGranted(op.job, before.rec, op.o, 0); }
    if before.rec.live == None {
      assert Handing(ops, user, k, k) == {};
      HandingGrows(ops, user, k, k);
      assert BornAt(ops, user, k, n);
    } else {
      HandedIsCounted(ops, user, k);
      var born: nat :| BornAt(ops, user, born, k) && before.handed == |Handing(ops, user, born, k)|;
      HandingGrows(ops, user, born, k);
      assert BornAt(ops, user, born, n);
    }
  }

  /** At most one key, at most one policy, and that the creator's; at most one credential
      handed out in this lifetime. */
  ghost predicate Shaped(life: Life) {
    match life.rec.live
    case None => life.creator == None && life.handed == 0
    case Some(user) =>
      && life.creator.Some? && life.handed <= 1 && |user.keys| <= 1
      && (user.policies == map[] || user.policies == OwnPolicy(life.creator.value))
  }

  lemma ShapeKept(life: Life, job: Job, o: Oracle)
    requires Shaped(life)
    ensures Shaped(RunOn(life, job, o))
  {
    var e := Solo(life.rec, Start(job), o, 0);
    if job.Grant? {
      if life.rec.live == None {
        GrantFromAbsent(life.rec, job.bucket, o, 0);
      } else {
        GrantFromLive(life.rec, job.bucket, o, 0);
      }
    } else {
      SoloRevokeShrinks(life.rec, Start(job), o, 0);
      if e.rec.live.Some? {
        Revocation.SetSizeMonotone(e.rec.live.value.keys, life.rec.live.value.keys);
        var before, after := life.rec.live.value.policies, e.rec.live.value.policies;
        if after != map[] {
          var n :| n in after;
          assert after == before;
        }
      }
    }
  }

  /** In every state reached by one-at-a-time grants and revokes of any users, with
      arbitrary faults and even untruthful replies, every user has this shape. */
  lemma {:induction false} WholeRunShape(ops: seq<Op>, user: string)
    ensures Shaped(LifeOf(RunAll(map[], ops), user))
  {
    if ops != [] {
      var init, op := ops[..|ops| - 1], ops[|ops| - 1];
      WholeRunShape(init, user);
      WholeRunShape(init, op.user);
      ShapeKept(LifeOf(RunAll(map[], init), op.user), op.job, op.o);
    }
  }
}
