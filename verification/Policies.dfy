/** How the failure policies compose, and the rows the maintenance sweeps select. */
module Policies {
  import opened Tables
  import opened Transactions
  import opened Invariants

  // ---- Rows a sweep selects -------------------------------------------------------------

  /** Pending stages pinned to a node that does not exist. */
  ghost function DeadPinRows(db: DB): set<StageId> {
    set s | s in db.stages && db.stages[s].status.Pending?
      && db.stages[s].pin.Some? && db.stages[s].pin.value !in db.nodes
  }

  ghost predicate Covered(db: DB, capability: string) {
    exists n :: n in db.nodes && capability in db.nodes[n].index && IsLive(db.nodes[n].status)
  }

  /** Pending stages whose capability no live node advertises. */
  ghost function UncoveredRows(db: DB): set<StageId> {
    set s | s in db.stages && db.stages[s].status.Pending? && !Covered(db, db.stages[s].capability)
  }

  ghost function FailOrphans(db: DB): DB {
    SweepRows(Uncovered, db, DeadPinRows(db) + UncoveredRows(db))
  }

  /** Deletion clears every pin at the node it removes, so no pin is ever dead. */
  lemma NoDeadPins(db: DB)
    requires Consistent(db)
    ensures DeadPinRows(db) == {}
  {
    forall s | s in db.stages ensures s !in DeadPinRows(db) {
      assert StageOk(db, s);
    }
  }

  ghost function SilentNodes(db: DB, threshold: Time): set<NodeId> {
    set n | n in db.nodes && IsLive(db.nodes[n].status) && !db.nodes[n].isAdmin
      && db.nodes[n].lastSeen.Some? && db.nodes[n].lastSeen.value < threshold
  }

  ghost function HeldRows(stages: map<StageId, Stage>, holders: set<NodeId>): set<StageId> {
    set s | s in stages && stages[s].status.Claimed? && stages[s].claimedBy.Some?
        && stages[s].claimedBy.value in holders
  }

  /** The offline watchdog's update looks at the status alone. With the rows it listed in an
      earlier state it fails exactly the listed stages that are claimed now, whoever claims
      them: a claim that another node took over in between is lost with the rest. */
  lemma OfflineFailsWhatItListed(before: DB, now: DB, gone: set<NodeId>, s: StageId)
    requires s in now.stages
    ensures var after := MarkOffline(now, gone, HeldRows(before.stages, gone)).stages;
      && s in after
      && (after[s] != now.stages[s] <==> s in HeldRows(before.stages, gone) && now.stages[s].status.Claimed?)
      && (after[s] != now.stages[s] ==> after[s].status.Failed? && after[s].claimedBy.None?)
  {
  }

  /** A claim of a node that is not gone. */
  predicate Innocent(st: Stage, gone: set<NodeId>) {
    st.status.Claimed? && st.claimedBy.Some? && st.claimedBy.value !in gone
  }

  /** No such claim is lost exactly when every listed stage that is claimed now is claimed by a
      node that is gone. */
  lemma OfflineSparesInnocent(before: DB, now: DB, gone: set<NodeId>)
    requires Consistent(now)
    ensures var after := MarkOffline(now, gone, HeldRows(before.stages, gone)).stages;
      && after.Keys == now.stages.Keys
      && ((forall s | s in now.stages && Innocent(now.stages[s], gone) :: after[s] == now.stages[s]) <==>
            forall s | s in HeldRows(before.stages, gone) && s in now.stages && now.stages[s].status.Claimed? ::
              now.stages[s].claimedBy.Some? && now.stages[s].claimedBy.value in gone)
  {
    var after := MarkOffline(now, gone, HeldRows(before.stages, gone)).stages;
    assert after.Keys == now.stages.Keys;
    forall s | s in now.stages
      ensures now.stages[s].status.Claimed? ==> now.stages[s].claimedBy.Some?
      ensures after[s] != now.stages[s] <==> s in HeldRows(before.stages, gone) && now.stages[s].status.Claimed?
    {
      assert StageOk(now, s);
      OfflineFailsWhatItListed(before, now, gone, s);
    }
  }

  /** In one snapshot the listed claims are those of the nodes gone, and no other claim is lost. */
  lemma OfflineSparesOthers(db: DB, gone: set<NodeId>, s: StageId)
    requires s in db.stages && db.stages[s].claimedBy.Some? && db.stages[s].claimedBy.value !in gone
    ensures MarkOffline(db, gone, HeldRows(db.stages, gone)).stages[s] == db.stages[s]
  {
    OfflineFailsWhatItListed(db, db, gone, s);
  }

  // ---- One more task --------------------------------------------------------------------

  lemma LoseOneMore(db: DB, f: set<TaskId>, t: TaskId)
    requires t in db.tasks && t !in f
    ensures LoseTasks(db, f + {t}).tasks == LoseTasks(db, f).tasks[t := db.tasks[t].(status := Lost)]
    ensures LoseTasks(db, f + {t}).events == LoseTasks(db, f).events + multiset{TaskFailed(t)}
  {
    var ef := set u | u in f :: TaskFailed(u);
    assert (set u | u in f + {t} :: TaskFailed(u)) == ef + {TaskFailed(t)};
    assert TaskFailed(t) !in ef;
    assert multiset(ef + {TaskFailed(t)}) == multiset(ef) + multiset{TaskFailed(t)};
  }

  lemma LoseNone(db: DB)
    ensures LoseTasks(db, {}) == db
  {}

  // ---- Composition of policies ----------------------------------------------------------

  lemma EventsOfBoth(f: set<TaskId>, g: set<TaskId>)
    requires f !! g
    ensures multiset(set t | t in f :: TaskFailed(t)) + multiset(set t | t in g :: TaskFailed(t))
         == multiset(set t | t in f + g :: TaskFailed(t))
  {
    var ef, eg := set t | t in f :: TaskFailed(t), set t | t in g :: TaskFailed(t);
    assert ef !! eg;
    assert (set t | t in f + g :: TaskFailed(t)) == ef + eg;
    assert multiset(ef) + multiset(eg) == multiset(ef + eg);
  }

  lemma TasksOfTwice(db: DB, f: set<TaskId>, g: set<TaskId>)
    ensures LoseTasks(LoseTasks(db, f), g).tasks == LoseTasks(db, f + g).tasks
  {
  }

  lemma LoseTwice(db: DB, f: set<TaskId>, g: set<TaskId>)
    requires f !! g
    ensures LoseTasks(LoseTasks(db, f), g) == LoseTasks(db, f + g)
  {
    EventsOfBoth(f, g);
    TasksOfTwice(db, f, g);
  }

  /** An open affected task whose every stage failed has a failed stage: after the all-done
      policy the critical policy finds the rest, and the two together lose what it alone would. */
  lemma CriticalSubsumesAllFailed(db: DB, affected: set<TaskId>)
    requires forall t | t in affected && t in db.tasks :: SomeFailed(db.stages, t)
    ensures LoseIfAnyFailed(LoseIfAllDone(db, affected, {Failed}), affected) == LoseIfAnyFailed(db, affected)
    ensures DoneTasks(db, affected, {Failed}) + BrokenTasks(LoseIfAllDone(db, affected, {Failed}), affected)
         == BrokenTasks(db, affected)
  {
    var f := DoneTasks(db, affected, {Failed});
    var g := BrokenTasks(LoseTasks(db, f), affected);
    assert f + g == BrokenTasks(db, affected);
    LoseTwice(db, f, g);
  }

  /** The all-done policy depends only on which done, open tasks are affected. */
  lemma SameLoss(db: DB, a: set<TaskId>, b: set<TaskId>, done: set<StageStatus>)
    requires forall t | t in db.tasks && AllIn(db.stages, t, done) :: t in a <==> t in b
    ensures LoseIfAllDone(db, a, done) == LoseIfAllDone(db, b, done)
  {
    assert DoneTasks(db, a, done) == DoneTasks(db, b, done);
  }

  lemma SameCritical(db: DB, a: set<TaskId>, b: set<TaskId>)
    requires forall t | t in db.tasks :: t in a <==> t in b
    ensures LoseIfAnyFailed(db, a) == LoseIfAnyFailed(db, b)
  {
    assert BrokenTasks(db, a) == BrokenTasks(db, b);
  }

  // ---- One policy after three lease sweeps ----------------------------------------------

  ghost predicate AllFailed(stages: map<StageId, Stage>, t: TaskId) {
    AllIn(stages, t, {Failed})
  }

  /** A sweep loses exactly the open tasks it leaves all failed and did not find all failed. */
  lemma SweepLoses(kind: Sweep, db: DB, rows: set<StageId>)
    requires kind.OrphanDead? || kind.WorkerDead? || kind.Overdue?
    ensures var after := SweepStages(kind, db.stages, rows);
      SweepRows(kind, db, rows)
      == LoseTasks(db.(stages := after), FreshlyLost(db, db.stages, after))
  {
    var after := SweepStages(kind, db.stages, rows);
    var affected := NewlyFailed(db.stages, after, db.tasks.Keys);
    forall t | t in db.tasks && AllFailed(after, t) ensures t in affected <==> !AllFailed(db.stages, t) {
      if !AllFailed(db.stages, t) {
        var s :| s in db.stages && db.stages[s].task == t && db.stages[s].status !in {Failed};
        assert s in after && after[s].status in {Failed};
      }
    }
    assert DoneTasks(db.(stages := after), affected, {Failed}) == FreshlyLost(db, db.stages, after);
  }

  lemma AllFailedStays(kind: Sweep, stages: map<StageId, Stage>, rows: set<StageId>, t: TaskId)
    ensures AllFailed(stages, t) ==> AllFailed(SweepStages(kind, stages, rows), t)
    ensures kind.Overdue? && AllFailed(SweepStages(kind, stages, rows), t) ==> AllFailed(stages, t)
  {
    var after := SweepStages(kind, stages, rows);
    if AllFailed(stages, t) {
      forall s | s in after && after[s].task == t ensures after[s].status in {Failed} {
        assert stages[s].status in {Failed};
      }
    }
    if kind.Overdue? && AllFailed(after, t) {
      forall s | s in stages && stages[s].task == t ensures stages[s].status in {Failed} {
        assert after[s].status in {Failed};
      }
    }
  }

  /** The open tasks all failed in `after` and not in `before`. */
  ghost function FreshlyLost(db: DB, before: map<StageId, Stage>, after: map<StageId, Stage>): set<TaskId> {
    set t | t in db.tasks && !TaskTerminal(db.tasks[t].status) && AllFailed(after, t) && !AllFailed(before, t)
  }

  ghost predicate FailureKept(before: map<StageId, Stage>, after: map<StageId, Stage>) {
    forall t :: AllFailed(before, t) ==> AllFailed(after, t)
  }

  lemma TwoPolicies(db: DB, s1: map<StageId, Stage>, s2: map<StageId, Stage>, s3: map<StageId, Stage>)
    requires FailureKept(s1, s2) && FailureKept(s2, s3)
    ensures var two := LoseTasks(db.(stages := s2), FreshlyLost(db, s1, s2));
      LoseTasks(two.(stages := s3), FreshlyLost(two, s2, s3)) == LoseTasks(db.(stages := s3), FreshlyLost(db, s1, s3))
  {
    var f := FreshlyLost(db, s1, s2);
    var two := LoseTasks(db.(stages := s2), f);
    var g := FreshlyLost(two, s2, s3);
    assert two.tasks.Keys == db.tasks.Keys;
    assert f + g == FreshlyLost(db, s1, s3);
    assert two.(stages := s3) == LoseTasks(db.(stages := s3), f);
    LoseTwice(db.(stages := s3), f, g);
  }

  lemma OverdueLoses(db: DB, r1: set<StageId>)
    ensures SweepRows(Overdue, db, r1) == db.(stages := SweepStages(Overdue, db.stages, r1))
  {
    var after := SweepStages(Overdue, db.stages, r1);
    forall t ensures AllFailed(after, t) <==> AllFailed(db.stages, t) {
      AllFailedStays(Overdue, db.stages, r1, t);
    }
    SweepLoses(Overdue, db, r1);
    assert FreshlyLost(db, db.stages, after) == {};
    assert LoseTasks(db.(stages := after), {}) == db.(stages := after);
  }

  lemma OrphanThenWorkerLose(db: DB, r2: set<StageId>, r3: set<StageId>)
    ensures var s2 := SweepStages(OrphanDead, db.stages, r2);
      var s3 := SweepStages(WorkerDead, s2, r3);
      SweepRows(WorkerDead, SweepRows(OrphanDead, db, r2), r3)
      == LoseTasks(db.(stages := s3), FreshlyLost(db, db.stages, s3))
  {
    var s2 := SweepStages(OrphanDead, db.stages, r2);
    var s3 := SweepStages(WorkerDead, s2, r3);
    forall t ensures (AllFailed(db.stages, t) ==> AllFailed(s2, t)) && (AllFailed(s2, t) ==> AllFailed(s3, t)) {
      AllFailedStays(OrphanDead, db.stages, r2, t);
      AllFailedStays(WorkerDead, s2, r3, t);
    }
    SweepLoses(OrphanDead, db, r2);
    SweepLoses(WorkerDead, LoseTasks(db.(stages := s2), FreshlyLost(db, db.stages, s2)), r3);
    TwoPolicies(db, db.stages, s2, s3);
  }

  lemma ThreeSweepsLose(db: DB, r1: set<StageId>, r2: set<StageId>, r3: set<StageId>, s1: map<StageId, Stage>,
                        s3: map<StageId, Stage>)
    requires s1 == SweepStages(Overdue, db.stages, r1)
    requires s3 == SweepStages(WorkerDead, SweepStages(OrphanDead, s1, r2), r3)
    ensures SweepRows(WorkerDead, SweepRows(OrphanDead, SweepRows(Overdue, db, r1), r2), r3)
      == LoseTasks(db.(stages := s3), FreshlyLost(db, db.stages, s3))
  {
    forall t ensures AllFailed(s1, t) <==> AllFailed(db.stages, t) {
      AllFailedStays(Overdue, db.stages, r1, t);
    }
    OverdueLoses(db, r1);
    OrphanThenWorkerLose(db.(stages := s1), r2, r3);
    assert FreshlyLost(db.(stages := s1), s1, s3) == FreshlyLost(db, db.stages, s3);
  }

  /** `_fail_tasks_if_all_stages_done`, run once after the three lease sweeps, loses the same
      tasks as running it after each of them. */
  lemma PolicyOnce(db: DB, r1: set<StageId>, r2: set<StageId>, r3: set<StageId>,
                   s1: map<StageId, Stage>, s3: map<StageId, Stage>, affected: set<TaskId>)
    requires s1 == SweepStages(Overdue, db.stages, r1)
    requires s3 == SweepStages(WorkerDead, SweepStages(OrphanDead, s1, r2), r3)
    requires forall t | t in db.tasks && AllFailed(s3, t) :: t in affected <==> !AllFailed(db.stages, t)
    ensures LoseIfAllDone(db.(stages := s3), affected, {Failed})
      == SweepRows(WorkerDead, SweepRows(OrphanDead, SweepRows(Overdue, db, r1), r2), r3)
  {
    ThreeSweepsLose(db, r1, r2, r3, s1, s3);
    assert DoneTasks(db.(stages := s3), affected, {Failed}) == FreshlyLost(db, db.stages, s3);
  }
}
