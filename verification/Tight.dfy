/**
  The bound on a stage's life is attained: for all settings, and for any number of recoveries that
  the settings allow, a run the code can take uses it up.
 */
module Tight {
  import opened Prelude
  import opened Tables
  import opened Transactions
  import opened Machine
  import opened Budget
  import opened Lease
  import opened FaithfulRuns
  import opened Recoveries

  const SOLO_TASK := TaskReq([StageReq("a", None, None)], 0, None, None, None)

  /** One worker and one task with one stage, in the given status. */
  ghost predicate Solo(c: Settings, w: World, status: StageStatus, retry: nat) {
    && w.db.nodes.Keys == {0} && IsWorker(w.db.nodes[0])
    && w.db.tasks.Keys == {0} && (w.db.tasks[0].owner.None? || w.db.tasks[0].owner == Some(0))
    && w.db.stages.Keys == {0}
    && var st := w.db.stages[0];
    && st.task == 0 && st.capability == "a" && st.dependsOn == [] && st.pin.None?
    && st.status == status && st.retryCount == retry
    && (InHand(status) ==> st.claimedBy == Some(0))
    && (status.Claimed? ==>
          st.claimedAt.Some? && st.claimExpiresAt.Some? && st.claimExpiresAt.value <= w.db.clock + c.claimTtl)
  }

  /** The note was written `age` ago, and the worker was seen just now if `seen`. */
  ghost predicate Noted(c: Settings, w: World, age: nat, seen: bool)
    requires 0 in w.db.stages && 0 in w.db.nodes
  {
    && w.db.stages[0].lastNoteAt == Some(w.db.clock - age)
    && w.db.stages[0].leaseExpiresAt == Some(w.db.clock - age + c.longrunTtl)
    && (seen ==> w.db.nodes[0].lastSeen == Some(w.db.clock))
  }

  /** What the stage has spent so far. */
  datatype Bill = Bill(claims: nat, changes: nat, recoveries: nat)

  ghost function BillOf(steps: seq<Step>): Bill {
    Bill(ClaimCount(START, steps, 0), ChangeCount(START, steps, 0), RecoveryCount(START, steps, 0))
  }

  /** What a change from one status to another adds. */
  function Charged(b: Bill, before: StageStatus, after: StageStatus): Bill {
    Bill(b.claims + (if before.Pending? && after.Claimed? then 1 else 0),
         b.changes + (if before != after then 1 else 0),
         b.recoveries + (if before.Orphaned? && after.Accepted? then 1 else 0))
  }

  /** A run of the code from the empty tables that leaves the stage so, with that bill. */
  ghost predicate Used(c: Settings, steps: seq<Step>, status: StageStatus, retry: nat, bill: Bill) {
    && Faithful(c, START, steps)
    && Capped(steps, c.maxRetries)
    && Solo(c, Exec(START, steps), status, retry)
    && BillOf(steps) == bill
  }

  lemma {:induction false} CountsExtend(w: World, steps: seq<Step>, last: Step, s: StageId)
    ensures var v := Exec(w, steps);
      && Exec(w, steps + [last]) == Apply(v, last)
      && ClaimCount(w, steps + [last], s) == ClaimCount(w, steps, s) + (if Claims(v, last, s) then 1 else 0)
      && ChangeCount(w, steps + [last], s) == ChangeCount(w, steps, s) + (if Changes(v, last, s) then 1 else 0)
      && RecoveryCount(w, steps + [last], s) == RecoveryCount(w, steps, s) + (if Recovers(v, last, s) then 1 else 0)
    decreases |steps|
  {
    if steps == [] {
      assert [last][1..] == [];
      assert Exec(w, [last]) == Exec(Apply(w, last), []);
    } else {
      assert (steps + [last])[1..] == steps[1..] + [last];
      CountsExtend(Apply(w, steps[0]), steps[1..], last, s);
    }
  }

  lemma BillExtends(c: Settings, steps: seq<Step>, last: Step, before: StageStatus, after: StageStatus, retry: nat,
                    newRetry: nat)
    requires Solo(c, Exec(START, steps), before, retry)
    requires Solo(c, Apply(Exec(START, steps), last), after, newRetry)
    ensures Exec(START, steps + [last]) == Apply(Exec(START, steps), last)
    ensures BillOf(steps + [last]) == Charged(BillOf(steps), before, after)
  {
    CountsExtend(START, steps, last, 0);
  }

  /** One more transaction. */
  lemma Extend(c: Settings, steps: seq<Step>, last: Step, before: StageStatus, retry: nat, bill: Bill,
               after: StageStatus, newRetry: nat)
    requires Used(c, steps, before, retry, bill)
    requires FaithfulStep(c, Exec(START, steps), last)
    requires Solo(c, Apply(Exec(START, steps), last), after, newRetry)
    ensures Used(c, steps + [last], after, newRetry, Charged(bill, before, after))
    ensures Exec(START, steps + [last]) == Apply(Exec(START, steps), last)
  {
    FaithfulThen(c, START, steps, last);
    BillExtends(c, steps, last, before, after, retry, newRetry);
  }

  // ---- The moves of the only stage ------------------------------------------------------

  const CLAIMED_NAMES: set<string> := {"a"}

  ghost function SoloClaim(c: Settings): Step {
    Claim(0, 0, CLAIMED_NAMES, c.claimTtl)
  }

  lemma ClaimTakes(c: Settings, w: World, retry: nat)
    requires Solo(c, w, Pending, retry)
    ensures FaithfulStep(c, w, SoloClaim(c))
    ensures Solo(c, Apply(w, SoloClaim(c)), Claimed, retry)
  {
    assert CompletedAmong(w.db.stages, []) == {};
    WorkerOffers(w.db.nodes[0]);
    assert ClaimEnabled(w.db, 0, 0, CLAIMED_NAMES);
    forall other | Eligible(w.db, 0, CLAIMED_NAMES, other) ensures !Precedes(w.db, other, 0) {
      assert other == 0;
    }
    assert Chosen(w.db, 0, 0, CLAIMED_NAMES);
  }

  lemma TickExpires(c: Settings, w: World, retry: nat)
    requires Solo(c, w, Claimed, retry)
    ensures var after := Apply(w, Tick(c.claimTtl + 1));
      Solo(c, after, Claimed, retry) && Expired(after.db.stages[0], after.db.clock)
  {
  }

  lemma ObserveSees(c: Settings, w: World, retry: nat)
    requires Solo(c, w, Claimed, retry) && Expired(w.db.stages[0], w.db.clock)
    ensures var after := Apply(w, ObserveExpired);
      && Solo(c, after, Claimed, retry) && after.db == w.db
      && RowsSeen(after, ExpiredRows(w.db)) && 0 in ExpiredRows(w.db)
  {
    assert 0 in ExpiredRows(w.db);
    forall s | s in ExpiredRows(w.db) ensures ExpiredRows(w.db)[s] in ExpiredRows(w.db).Values {
    }
  }

  lemma ReleaseReturns(c: Settings, w: World, retry: nat)
    requires Solo(c, w, Claimed, retry) && Expired(w.db.stages[0], w.db.clock)
    requires RowsSeen(w, ExpiredRows(w.db)) && retry < c.maxRetries
    ensures FaithfulStep(c, w, CommitRelease(ExpiredRows(w.db), c.maxRetries))
    ensures Solo(c, Apply(w, CommitRelease(ExpiredRows(w.db), c.maxRetries)), Pending, retry + 1)
  {
    assert 0 in ExpiredRows(w.db);
  }

  lemma NoteAccepts(c: Settings, w: World, status: StageStatus, retry: nat)
    requires Solo(c, w, status, retry) && (status.Claimed? || status.Orphaned?)
    ensures var after := Apply(w, Note(0, 0, true, c.longrunTtl));
      Solo(c, after, Accepted, retry) && Noted(c, after, 0, false)
  {
  }

  lemma TickOverdue(c: Settings, w: World, retry: nat)
    requires Solo(c, w, Accepted, retry) && Noted(c, w, 0, false)
    ensures var after := Apply(w, Tick(c.longrunTtl + 1));
      Solo(c, after, Accepted, retry) && Noted(c, after, c.longrunTtl + 1, false)
  {
  }

  ghost function Heartbeat(w: World): Step {
    PutNode(0, Worker(w.db.clock))
  }

  lemma HeartbeatSeen(c: Settings, w: World, retry: nat)
    requires Solo(c, w, Accepted, retry) && Noted(c, w, c.longrunTtl + 1, false)
    ensures FaithfulStep(c, w, Heartbeat(w))
    ensures Solo(c, Apply(w, Heartbeat(w)), Accepted, retry)
    ensures Noted(c, Apply(w, Heartbeat(w)), c.longrunTtl + 1, true)
  {
  }

  /** The first loop of a lease sweep orphans an overdue stage and changes nothing else. */
  lemma OverdueOrphans(c: Settings, w: World, retry: nat)
    requires Solo(c, w, Accepted, retry) && Noted(c, w, c.longrunTtl + 1, true)
    ensures OverdueRows(w.db) == {0}
    ensures var one := Apply(w, CommitSweep(Overdue, {0}));
      && Solo(c, one, Orphaned, retry) && Noted(c, one, c.longrunTtl + 1, true)
      && one.db == SweepRows(Overdue, w.db, {0})
  {
    assert OverdueRows(w.db) == {0};
    var stages := SweepStages(Overdue, w.db.stages, {0});
    assert NewlyFailed(w.db.stages, stages, w.db.tasks.Keys) == {};
    assert DoneTasks(w.db.(stages := stages), {}, {Failed}) == {};
  }

  /** The lease sweep over an overdue stage of a live worker: it is orphaned, and no more. */
  lemma SweepRowsAre(c: Settings, w: World, retry: nat)
    requires Solo(c, w, Accepted, retry) && Noted(c, w, c.longrunTtl + 1, true) && c.longrunTtl < c.orphanedTtl
    ensures LeaseSweep(w.db, c.orphanedTtl, c.grace)
         == [CommitSweep(Overdue, {0}), CommitSweep(OrphanDead, {}), CommitSweep(WorkerDead, {})]
    ensures Solo(c, Apply(w, CommitSweep(Overdue, {0})), Orphaned, retry)
  {
    OverdueOrphans(c, w, retry);
    var one := SweepRows(Overdue, w.db, {0});
    assert OrphanDeadRows(one, c.orphanedTtl) == {};
    EmptySweep(OrphanDead, one);
    assert Present(one, 0, c.grace);
    assert WorkerDeadRows(one, c.grace) == {};
  }

  lemma NoneHeld(db: DB, grace: nat)
    requires forall s | s in db.stages :: db.stages[s].status == Failed
    ensures WorkerDeadRows(db, grace) == {}
  {
  }

  /** The second loop fails an orphaned stage that no setting keeps, and leaves none to the third. */
  lemma OrphanFails(c: Settings, w: World, retry: nat)
    requires Solo(c, w, Orphaned, retry) && Noted(c, w, c.longrunTtl + 1, true) && c.orphanedTtl <= c.longrunTtl
    ensures OrphanDeadRows(w.db, c.orphanedTtl) == {0}
    ensures Solo(c, Apply(w, CommitSweep(OrphanDead, {0})), Failed, retry)
    ensures WorkerDeadRows(SweepRows(OrphanDead, w.db, {0}), c.grace) == {}
  {
    assert OrphanDeadRows(w.db, c.orphanedTtl) == {0};
    var after := SweepRows(OrphanDead, w.db, {0});
    SweepShape(OrphanDead, w.db, {0});
    assert after.stages[0] == w.db.stages[0].(status := Failed);
    NoneHeld(after, c.grace);
  }

  /** The same sweep with settings that keep no orphaned stage: its second loop fails the stage. */
  lemma MissedRowsAre(c: Settings, w: World, retry: nat)
    requires Solo(c, w, Accepted, retry) && Noted(c, w, c.longrunTtl + 1, true) && c.orphanedTtl <= c.longrunTtl
    ensures LeaseSweep(w.db, c.orphanedTtl, c.grace)
         == [CommitSweep(Overdue, {0}), CommitSweep(OrphanDead, {0}), CommitSweep(WorkerDead, {})]
    ensures Solo(c, Apply(w, CommitSweep(Overdue, {0})), Orphaned, retry)
    ensures Solo(c, Apply(Apply(w, CommitSweep(Overdue, {0})), CommitSweep(OrphanDead, {0})), Failed, retry)
  {
    OverdueOrphans(c, w, retry);
    OrphanFails(c, Apply(w, CommitSweep(Overdue, {0})), retry);
  }

  /** A sweep without rows changes nothing. */
  lemma EmptySweep(kind: Sweep, db: DB)
    requires kind.OrphanDead? || kind.WorkerDead?
    ensures SweepRows(kind, db, {}) == db
  {
    assert SweepStages(kind, db.stages, {}) == db.stages;
    assert NewlyFailed(db.stages, db.stages, db.tasks.Keys) == {};
    assert DoneTasks(db, {}, {Failed}) == {};
  }

  lemma CompleteEnds(c: Settings, w: World, retry: nat)
    requires Solo(c, w, Orphaned, retry)
    ensures Solo(c, Apply(w, Complete(0, 0)), Completed, retry)
  {
  }

  // ---- The run --------------------------------------------------------------------------

  lemma Created(c: Settings) returns (steps: seq<Step>)
    ensures Used(c, steps, Pending, 0, Bill(0, 0, 0))
  {
    var put := PutNode(0, Worker(0));
    var create := Create(0, [0], SOLO_TASK);
    CountsExtend(START, [], put, 0);
    FaithfulThen(c, START, [], put);
    assert [] + [put] == [put];
    var w := Exec(START, [put]);
    assert Insertable(w.db, 0, [0], SOLO_TASK);
    assert NewRows(0, [0], SOLO_TASK.stages).Keys == {0};
    CountsExtend(START, [put], create, 0);
    FaithfulThen(c, START, [put], create);
    steps := [put] + [create];
    assert Exec(START, steps) == Apply(w, create);
  }

  /** A claim that expires and is released. */
  lemma LoseClaim(c: Settings, steps: seq<Step>, retry: nat) returns (after: seq<Step>)
    requires Used(c, steps, Pending, retry, Bill(retry, 2 * retry, 0)) && retry < c.maxRetries
    ensures Used(c, after, Pending, retry + 1, Bill(retry + 1, 2 * retry + 2, 0))
  {
    after := ClaimRunsOut(c, steps, retry, Bill(retry, 2 * retry, 0));
    after := ReleaseIt(c, after, retry, Bill(retry + 1, 2 * retry + 1, 0));
  }

  lemma ReleaseIt(c: Settings, steps: seq<Step>, retry: nat, bill: Bill) returns (after: seq<Step>)
    requires Used(c, steps, Claimed, retry, bill) && retry < c.maxRetries
    requires var w := Exec(START, steps);
      Expired(w.db.stages[0], w.db.clock) && RowsSeen(w, ExpiredRows(w.db))
    ensures Used(c, after, Pending, retry + 1, Charged(bill, Claimed, Pending))
  {
    var w := Exec(START, steps);
    var release := CommitRelease(ExpiredRows(w.db), c.maxRetries);
    ReleaseReturns(c, w, retry);
    Extend(c, steps, release, Claimed, retry, bill, Pending, retry + 1);
    after := steps + [release];
  }

  lemma ClaimRunsOut(c: Settings, steps: seq<Step>, retry: nat, bill: Bill) returns (after: seq<Step>)
    requires Used(c, steps, Pending, retry, bill)
    ensures Used(c, after, Claimed, retry, Charged(bill, Pending, Claimed))
    ensures var w := Exec(START, after);
      Expired(w.db.stages[0], w.db.clock) && RowsSeen(w, ExpiredRows(w.db))
  {
    after := ClaimIt(c, steps, retry, bill);
    var spent := Charged(bill, Pending, Claimed);
    TickExpires(c, Exec(START, after), retry);
    Extend(c, after, Tick(c.claimTtl + 1), Claimed, retry, spent, Claimed, retry);
    after := after + [Tick(c.claimTtl + 1)];
    ObserveSees(c, Exec(START, after), retry);
    Extend(c, after, ObserveExpired, Claimed, retry, spent, Claimed, retry);
    after := after + [ObserveExpired];
  }

  lemma ClaimIt(c: Settings, steps: seq<Step>, retry: nat, bill: Bill) returns (after: seq<Step>)
    requires Used(c, steps, Pending, retry, bill)
    ensures Used(c, after, Claimed, retry, Charged(bill, Pending, Claimed))
  {
    ClaimTakes(c, Exec(START, steps), retry);
    Extend(c, steps, SoloClaim(c), Pending, retry, bill, Claimed, retry);
    after := steps + [SoloClaim(c)];
  }

  lemma {:induction false} LoseClaims(c: Settings, n: nat) returns (steps: seq<Step>)
    requires n <= c.maxRetries
    ensures Used(c, steps, Pending, n, Bill(n, 2 * n, 0))
    decreases n
  {
    if n == 0 {
      steps := Created(c);
    } else {
      steps := LoseClaims(c, n - 1);
      steps := LoseClaim(c, steps, n - 1);
    }
  }

  /** A note takes the stage up, and the lease runs out while the worker still heartbeats. */
  lemma NoteThenTime(c: Settings, steps: seq<Step>, status: StageStatus, retry: nat,
                     bill: Bill) returns (after: seq<Step>)
    requires Used(c, steps, status, retry, bill) && (status.Claimed? || status.Orphaned?)
    ensures Used(c, after, Accepted, retry, Charged(bill, status, Accepted))
    ensures Noted(c, Exec(START, after), c.longrunTtl + 1, true)
  {
    var note := Note(0, 0, true, c.longrunTtl);
    NoteAccepts(c, Exec(START, steps), status, retry);
    Extend(c, steps, note, status, retry, bill, Accepted, retry);
    var spent := Charged(bill, status, Accepted);
    after := steps + [note];
    TickOverdue(c, Exec(START, after), retry);
    Extend(c, after, Tick(c.longrunTtl + 1), Accepted, retry, spent, Accepted, retry);
    after := after + [Tick(c.longrunTtl + 1)];
    var beat := Heartbeat(Exec(START, after));
    HeartbeatSeen(c, Exec(START, after), retry);
    Extend(c, after, beat, Accepted, retry, spent, Accepted, retry);
    after := after + [beat];
  }

  /** The next sweep orphans the stage. */
  lemma NoteThenSilence(c: Settings, steps: seq<Step>, status: StageStatus, retry: nat,
                        bill: Bill) returns (after: seq<Step>)
    requires c.longrunTtl < c.orphanedTtl
    requires Used(c, steps, status, retry, bill) && (status.Claimed? || status.Orphaned?)
    ensures Used(c, after, Orphaned, retry, Charged(Charged(bill, status, Accepted), Accepted, Orphaned))
  {
    after := NoteThenTime(c, steps, status, retry, bill);
    after := SweepIt(c, after, retry, Charged(bill, status, Accepted));
  }

  /** The next sweep orphans and fails the stage. */
  lemma NoteThenFailure(c: Settings, steps: seq<Step>, retry: nat, bill: Bill) returns (after: seq<Step>)
    requires c.orphanedTtl <= c.longrunTtl && Used(c, steps, Claimed, retry, bill)
    ensures Used(c, after, Failed, retry,
                 Charged(Charged(Charged(bill, Claimed, Accepted), Accepted, Orphaned), Orphaned, Failed))
  {
    after := NoteThenTime(c, steps, Claimed, retry, bill);
    after := MissIt(c, after, retry, Charged(bill, Claimed, Accepted));
  }

  /** The three steps of that sweep cost one change. */
  lemma SweepBill(c: Settings, steps: seq<Step>, retry: nat)
    requires Solo(c, Exec(START, steps), Accepted, retry)
    requires Solo(c, Apply(Exec(START, steps), CommitSweep(Overdue, {0})), Orphaned, retry)
    ensures Solo(c, Exec(START, Swept(steps, {})), Orphaned, retry)
    ensures BillOf(Swept(steps, {})) == Charged(BillOf(steps), Accepted, Orphaned)
  {
    var one := steps + [CommitSweep(Overdue, {0})];
    BillExtends(c, steps, CommitSweep(Overdue, {0}), Accepted, Orphaned, retry, retry);
    EmptySweep(OrphanDead, Exec(START, one).db);
    IdleSweep(c, one, OrphanDead, Orphaned, retry);
    EmptySweep(WorkerDead, Exec(START, one).db);
    IdleSweep(c, one + [CommitSweep(OrphanDead, {})], WorkerDead, Orphaned, retry);
  }

  lemma IdleSweep(c: Settings, steps: seq<Step>, kind: Sweep, status: StageStatus, retry: nat)
    requires Solo(c, Exec(START, steps), status, retry)
    requires SweepRows(kind, Exec(START, steps).db, {}) == Exec(START, steps).db
    ensures Exec(START, steps + [CommitSweep(kind, {})]) == Exec(START, steps)
    ensures BillOf(steps + [CommitSweep(kind, {})]) == BillOf(steps)
  {
    assert Apply(Exec(START, steps), CommitSweep(kind, {})) == Exec(START, steps);
    BillExtends(c, steps, CommitSweep(kind, {}), status, status, retry, retry);
  }

  /** The run with a lease sweep at its end: the second loop finds the rows `ended`. */
  function Swept(steps: seq<Step>, ended: set<StageId>): seq<Step> {
    steps + [CommitSweep(Overdue, {0})] + [CommitSweep(OrphanDead, ended)] + [CommitSweep(WorkerDead, {})]
  }

  lemma SweptIsFaithful(c: Settings, steps: seq<Step>, ended: set<StageId>)
    requires Faithful(c, START, steps)
    requires LeaseSweep(Exec(START, steps).db, c.orphanedTtl, c.grace)
          == [CommitSweep(Overdue, {0}), CommitSweep(OrphanDead, ended), CommitSweep(WorkerDead, {})]
    ensures Faithful(c, START, Swept(steps, ended))
  {
    FaithfulSweep(c, START, steps);
    assert Swept(steps, ended) == steps + LeaseSweep(Exec(START, steps).db, c.orphanedTtl, c.grace);
  }

  lemma SweptIsCapped(steps: seq<Step>, ended: set<StageId>, cap: nat)
    requires Capped(steps, cap)
    ensures Capped(Swept(steps, ended), cap)
  {
  }

  lemma SweepIt(c: Settings, steps: seq<Step>, retry: nat, bill: Bill) returns (after: seq<Step>)
    requires c.longrunTtl < c.orphanedTtl && Used(c, steps, Accepted, retry, bill)
    requires Noted(c, Exec(START, steps), c.longrunTtl + 1, true)
    ensures Used(c, after, Orphaned, retry, Charged(bill, Accepted, Orphaned))
  {
    SweepRowsAre(c, Exec(START, steps), retry);
    SweepBill(c, steps, retry);
    SweptIsFaithful(c, steps, {});
    SweptIsCapped(steps, {}, c.maxRetries);
    after := Swept(steps, {});
  }

  /** The three steps of a sweep that fails the stage cost two changes. */
  lemma MissBill(c: Settings, steps: seq<Step>, retry: nat)
    requires Solo(c, Exec(START, steps), Accepted, retry)
    requires var one := Apply(Exec(START, steps), CommitSweep(Overdue, {0}));
      Solo(c, one, Orphaned, retry) && Solo(c, Apply(one, CommitSweep(OrphanDead, {0})), Failed, retry)
    ensures Solo(c, Exec(START, Swept(steps, {0})), Failed, retry)
    ensures BillOf(Swept(steps, {0})) == Charged(Charged(BillOf(steps), Accepted, Orphaned), Orphaned, Failed)
  {
    var one := steps + [CommitSweep(Overdue, {0})];
    BillExtends(c, steps, CommitSweep(Overdue, {0}), Accepted, Orphaned, retry, retry);
    var two := one + [CommitSweep(OrphanDead, {0})];
    BillExtends(c, one, CommitSweep(OrphanDead, {0}), Orphaned, Failed, retry, retry);
    EmptySweep(WorkerDead, Exec(START, two).db);
    IdleSweep(c, two, WorkerDead, Failed, retry);
  }

  lemma MissIt(c: Settings, steps: seq<Step>, retry: nat, bill: Bill) returns (after: seq<Step>)
    requires c.orphanedTtl <= c.longrunTtl && Used(c, steps, Accepted, retry, bill)
    requires Noted(c, Exec(START, steps), c.longrunTtl + 1, true)
    ensures Used(c, after, Failed, retry, Charged(Charged(bill, Accepted, Orphaned), Orphaned, Failed))
  {
    MissedRowsAre(c, Exec(START, steps), retry);
    MissBill(c, steps, retry);
    SweptIsFaithful(c, steps, {0});
    SweptIsCapped(steps, {0}, c.maxRetries);
    after := Swept(steps, {0});
  }

  lemma {:induction false} Recovered(c: Settings, recoveries: nat) returns (steps: seq<Step>)
    requires c.longrunTtl < c.orphanedTtl
    ensures var m := c.maxRetries;
      Used(c, steps, Orphaned, m, Bill(m + 1, 2 * m + 3 + 2 * recoveries, recoveries))
    decreases recoveries
  {
    var m := c.maxRetries;
    if recoveries == 0 {
      steps := LoseClaims(c, m);
      steps := ClaimIt(c, steps, m, Bill(m, 2 * m, 0));
      steps := NoteThenSilence(c, steps, Claimed, m, Bill(m + 1, 2 * m + 1, 0));
    } else {
      steps := Recovered(c, recoveries - 1);
      steps := NoteThenSilence(c, steps, Orphaned, m, Bill(m + 1, 2 * m + 3 + 2 * (recoveries - 1), recoveries - 1));
    }
  }

  /** The run is one the code can take and leaves stage 0 with that many recoveries and with both
      bounds of its life used up. */
  ghost predicate SpendsAll(c: Settings, steps: seq<Step>, recoveries: nat) {
    && Faithful(c, START, steps)
    && RecoveryCount(START, steps, 0) == recoveries
    && ClaimCount(START, steps, 0) == c.maxRetries + 1
    && ChangeCount(START, steps, 0) == 2 * c.maxRetries + 4 + 2 * recoveries
  }

  lemma SpendRecovered(c: Settings, recoveries: nat) returns (steps: seq<Step>)
    requires c.longrunTtl < c.orphanedTtl
    ensures SpendsAll(c, steps, recoveries)
  {
    var m := c.maxRetries;
    var before := Recovered(c, recoveries);
    CompleteEnds(c, Exec(START, before), m);
    Extend(c, before, Complete(0, 0), Orphaned, m, Bill(m + 1, 2 * m + 3 + 2 * recoveries, recoveries), Completed, m);
    steps := before + [Complete(0, 0)];
    assert BillOf(steps) == Bill(m + 1, 2 * m + 4 + 2 * recoveries, recoveries);
  }

  lemma SpendUnrecovered(c: Settings) returns (steps: seq<Step>)
    requires c.orphanedTtl <= c.longrunTtl
    ensures SpendsAll(c, steps, 0)
  {
    var m := c.maxRetries;
    steps := LoseClaims(c, m);
    steps := ClaimIt(c, steps, m, Bill(m, 2 * m, 0));
    steps := NoteThenFailure(c, steps, m, Bill(m + 1, 2 * m + 1, 0));
    assert BillOf(steps) == Bill(m + 1, 2 * m + 4, 0);
  }

  /** Both bounds on a stage's life are attained in one run the code can take, for all settings and
      exactly the numbers of recoveries the settings allow: any number with a lease shorter than the
      time an orphaned stage is kept, and none otherwise. */
  lemma BoundIsAttained(c: Settings, recoveries: nat)
    requires Legal(c)
    ensures (exists steps :: SpendsAll(c, steps, recoveries)) <==> c.longrunTtl < c.orphanedTtl || recoveries == 0
  {
    if c.longrunTtl < c.orphanedTtl {
      var steps := SpendRecovered(c, recoveries);
    } else {
      var steps := SpendUnrecovered(c);
      forall run | SpendsAll(c, run, recoveries) ensures recoveries == 0 {
        NeverRecovered(c, run, 0);
      }
    }
  }
}
