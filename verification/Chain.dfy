/** Tasks built with the default dependency chain. */
module Chain {
  import opened Tables
  import opened Transactions
  import opened Machine
  import opened Invariants
  import opened Moves

  ghost predicate Of(stages: map<StageId, Stage>, s: StageId, t: TaskId) {
    s in stages && stages[s].task == t
  }

  ghost predicate FollowsPrevious(stages: map<StageId, Stage>, t: TaskId, s: StageId)
    requires s in stages
  {
    exists p: StageId :: Of(stages, p, t) && stages[p].sequence + 1 == stages[s].sequence && stages[s].dependsOn == [p]
  }

  /** Each stage but the first depends on the one before it, and only on that one. */
  ghost predicate Chained(stages: map<StageId, Stage>, t: TaskId) {
    && (forall s {:trigger FollowsPrevious(stages, t, s)} | Of(stages, s, t) ::
          stages[s].sequence > 0 ==> FollowsPrevious(stages, t, s))
    && (forall s, r | Of(stages, s, t) && Of(stages, r, t) :: stages[s].sequence == stages[r].sequence ==> s == r)
  }

  ghost predicate DoneBefore(stages: map<StageId, Stage>, t: TaskId, s: StageId)
    requires s in stages
  {
    forall r | Of(stages, r, t) && stages[r].sequence < stages[s].sequence :: stages[r].status.Completed?
  }

  /** Whatever has been started has every earlier stage completed; so has whatever failed
      without failing the task; and a completed task has completed stages only. */
  ghost predicate ChainOk(db: DB, t: TaskId) {
    && t in db.tasks
    && Chained(db.stages, t)
    && (forall s | Of(db.stages, s, t) && (InHand(db.stages[s].status) || db.stages[s].status.Completed?) ::
          DoneBefore(db.stages, t, s))
    && (!TaskTerminal(db.tasks[t].status) ==>
          forall s | Of(db.stages, s, t) && db.stages[s].status.Failed? :: DoneBefore(db.stages, t, s))
    && (db.tasks[t].status.Done? ==> forall s | Of(db.stages, s, t) :: db.stages[s].status.Completed?)
  }

  // ---- Which steps start, fail and finish ------------------------------------------------

  /** A pending stage fails only together with its task. */
  lemma PendingFailsWithTask(w: World, step: Step, s: StageId)
    requires Inv(w) && s in w.db.stages && s in Apply(w, step).db.stages
    requires Drops(w.db.stages[s], Apply(w, step).db.stages[s])
    ensures w.db.stages[s].task in Apply(w, step).db.tasks
    ensures TaskTerminal(Apply(w, step).db.tasks[w.db.stages[s].task].status)
  {
    assert StageOk(w.db, s);
    StageMoves(w, step, s);
    UncoveredLosesTask(w.db, step.swept, s);
  }

  lemma UncoveredLosesTask(db: DB, swept: set<StageId>, s: StageId)
    requires s in db.stages && db.stages[s].task in db.tasks && !db.stages[s].status.Failed?
    requires SweepStages(Uncovered, db.stages, swept)[s].status.Failed?
    ensures db.stages[s].task in SweepRows(Uncovered, db, swept).tasks
    ensures TaskTerminal(SweepRows(Uncovered, db, swept).tasks[db.stages[s].task].status)
  {
    var stages, t := SweepStages(Uncovered, db.stages, swept), db.stages[s].task;
    assert t in NewlyFailed(db.stages, stages, db.tasks.Keys);
    assert SomeFailed(stages, t);
  }

  lemma NoNewRowsForOldTask(w: World, step: Step, t: TaskId, s: StageId)
    requires t in w.db.tasks && Of(Apply(w, step).db.stages, s, t)
    ensures s in w.db.stages
  {
    match step
    case Delete(n) => if n in w.db.nodes { DeleteInTwo(w.db, n); }
    case _ =>
  }

  // ---- Preservation ---------------------------------------------------------------------

  /** The rows of an existing task stay, with their place in the chain. */
  lemma SameRows(w: World, step: Step, t: TaskId)
    requires Inv(w) && t in w.db.tasks
    ensures forall s | Of(w.db.stages, s, t) ::
      Of(Apply(w, step).db.stages, s, t) && RowMove(w.db.clock, w.db.stages[s], Apply(w, step).db.stages[s])
    ensures forall s | Of(Apply(w, step).db.stages, s, t) :: Of(w.db.stages, s, t)
  {
    forall s | s in w.db.stages
      ensures s in Apply(w, step).db.stages && RowMove(w.db.clock, w.db.stages[s], Apply(w, step).db.stages[s])
    {
      StageMoves(w, step, s);
    }
    forall s | Of(Apply(w, step).db.stages, s, t) ensures Of(w.db.stages, s, t) {
      NoNewRowsForOldTask(w, step, t, s);
    }
  }

  lemma ChainedStays(before: map<StageId, Stage>, after: map<StageId, Stage>, t: TaskId, now: Time)
    requires Chained(before, t)
    requires forall s | Of(before, s, t) :: Of(after, s, t) && RowMove(now, before[s], after[s])
    requires forall s | Of(after, s, t) :: Of(before, s, t)
    ensures Chained(after, t)
    ensures forall s | Of(before, s, t) && DoneBefore(before, t, s) :: DoneBefore(after, t, s)
  {
    forall s | Of(after, s, t) && after[s].sequence > 0 ensures FollowsPrevious(after, t, s) {
      assert FollowsPrevious(before, t, s);
      var p: StageId :| Of(before, p, t) && before[p].sequence + 1 == before[s].sequence && before[s].dependsOn == [p];
      assert Of(after, p, t);
    }
  }

  /** A stage whose only dependency is completed has every earlier stage completed. */
  lemma ReadyMeansDoneBefore(db: DB, t: TaskId, s: StageId)
    requires ChainOk(db, t) && Of(db.stages, s, t) && DepsCompleted(db.stages, db.stages[s].dependsOn)
    ensures DoneBefore(db.stages, t, s)
  {
    var stages := db.stages;
    if stages[s].sequence > 0 {
      assert FollowsPrevious(stages, t, s);
      var p: StageId :| Of(stages, p, t) && stages[p].sequence + 1 == stages[s].sequence && stages[s].dependsOn == [p];
      var finished := CompletedAmong(stages, stages[s].dependsOn);
      assert finished <= {p} && finished != {};
      forall r | Of(stages, r, t) && stages[r].sequence < stages[s].sequence ensures stages[r].status.Completed? {
        if stages[r].sequence < stages[p].sequence { assert DoneBefore(stages, t, p); } else { assert r == p; }
      }
    }
  }

  lemma StartedStays(w: World, step: Step, t: TaskId, s: StageId)
    requires Inv(w) && ChainOk(w.db, t) && Of(Apply(w, step).db.stages, s, t)
    requires var st := Apply(w, step).db.stages[s].status; InHand(st) || st.Completed?
    ensures s in w.db.stages && DoneBefore(w.db.stages, t, s)
  {
    SameRows(w, step, t);
    if w.db.stages[s].status.Pending? {
      StageMoves(w, step, s);
      ReadyMeansDoneBefore(w.db, t, s);
    }
  }

  lemma FailedStays(w: World, step: Step, t: TaskId, s: StageId)
    requires Inv(w) && ChainOk(w.db, t) && Of(Apply(w, step).db.stages, s, t)
    requires t in Apply(w, step).db.tasks && !TaskTerminal(Apply(w, step).db.tasks[t].status)
    requires Apply(w, step).db.stages[s].status.Failed?
    ensures s in w.db.stages && DoneBefore(w.db.stages, t, s)
  {
    SameRows(w, step, t);
    TaskMoves(w, step, t);
    if w.db.stages[s].status.Pending? {
      PendingFailsWithTask(w, step, s);
    }
  }

  lemma FailedAndInHandClash(db: DB, t: TaskId, s: StageId, r: StageId)
    requires ChainOk(db, t) && Of(db.stages, s, t) && Of(db.stages, r, t) && !TaskTerminal(db.tasks[t].status)
    requires InHand(db.stages[r].status)
    ensures !db.stages[s].status.Failed?
  {
    assert db.stages[s].status.Failed? ==> DoneBefore(db.stages, t, s);
  }

  lemma ClosedRowStays(w: World, step: Step, s: StageId)
    requires Inv(w) && s in w.db.stages && StageTerminal(w.db.stages[s].status)
    ensures s in Apply(w, step).db.stages
    ensures Apply(w, step).db.stages[s].status == w.db.stages[s].status
  {
    StageMoves(w, step, s);
  }

  lemma RowKeepsTask(w: World, step: Step, s: StageId)
    requires Inv(w) && s in w.db.stages
    ensures s in Apply(w, step).db.stages && Apply(w, step).db.stages[s].task == w.db.stages[s].task
  {
    StageMoves(w, step, s);
  }

  /** When the last open stage of an open chain completes, no other stage can have failed. */
  lemma FinishedIsComplete(w: World, step: Step, t: TaskId, s: StageId)
    requires Inv(w) && ChainOk(w.db, t) && Of(Apply(w, step).db.stages, s, t)
    requires t in Apply(w, step).db.tasks && Apply(w, step).db.tasks[t].status.Done?
    ensures Apply(w, step).db.stages[s].status.Completed?
  {
    if w.db.tasks[t].status.Done? {
      NoNewRowsForOldTask(w, step, t, s);
      RowKeepsTask(w, step, s);
      assert Of(w.db.stages, s, t);
      ClosedRowStays(w, step, s);
    } else {
      TaskMoves(w, step, t);
      CompletesLast(w, step, t, s);
    }
  }

  lemma CompletesLast(w: World, step: Step, t: TaskId, s: StageId)
    requires step.Complete? && ChainOk(w.db, t) && !TaskTerminal(w.db.tasks[t].status)
    requires Completable(w.db, step.s, step.n) && w.db.stages[step.s].task == t
    requires AllClosed(Apply(w, step).db.stages, t) && Of(Apply(w, step).db.stages, s, t)
    ensures Apply(w, step).db.stages[s].status.Completed?
  {
    LastCompletion(w.db, step.s, step.n, t, s);
  }

  lemma LastCompletion(db: DB, r: StageId, n: NodeId, t: TaskId, s: StageId)
    requires ChainOk(db, t) && Completable(db, r, n) && db.stages[r].task == t && !TaskTerminal(db.tasks[t].status)
    requires AllClosed(CompleteStage(db, r, n).stages, t) && Of(CompleteStage(db, r, n).stages, s, t)
    ensures CompleteStage(db, r, n).stages[s].status.Completed?
  {
    assert StageTerminal(CompleteStage(db, r, n).stages[s].status);
    if s != r { FailedAndInHandClash(db, t, s, r); }
  }

  lemma ChainStep(w: World, step: Step, t: TaskId)
    requires Inv(w) && ChainOk(w.db, t)
    ensures ChainOk(Apply(w, step).db, t)
  {
    var db' := Apply(w, step).db;
    TaskMoves(w, step, t);
    SameRows(w, step, t);
    ChainedStays(w.db.stages, db'.stages, t, w.db.clock);
    forall s | Of(db'.stages, s, t) && (InHand(db'.stages[s].status) || db'.stages[s].status.Completed?)
      ensures DoneBefore(db'.stages, t, s)
    {
      StartedStays(w, step, t, s);
    }
    if !TaskTerminal(db'.tasks[t].status) {
      forall s | Of(db'.stages, s, t) && db'.stages[s].status.Failed? ensures DoneBefore(db'.stages, t, s) {
        FailedStays(w, step, t, s);
      }
    }
    if db'.tasks[t].status.Done? {
      forall s | Of(db'.stages, s, t) ensures db'.stages[s].status.Completed? {
        FinishedIsComplete(w, step, t, s);
      }
    }
  }

  lemma {:induction false} ChainRun(w: World, steps: seq<Step>, t: TaskId)
    requires Inv(w) && ChainOk(w.db, t)
    ensures ChainOk(Exec(w, steps).db, t)
    decreases |steps|
  {
    if steps != [] {
      ChainStep(w, steps[0], t);
      InvStep(w, steps[0]);
      ChainRun(Apply(w, steps[0]), steps[1..], t);
    }
  }

  // ---- The default chain ----------------------------------------------------------------

  /** The rows of `t` are exactly the new stages, at their positions. */
  ghost predicate Laid(stages: map<StageId, Stage>, t: TaskId, ids: seq<StageId>, reqs: seq<StageReq>) {
    && |ids| == |reqs|
    && (forall i | 0 <= i < |ids| :: Of(stages, ids[i], t) && stages[ids[i]] == NewStage(t, reqs, ids, i))
    && (forall s | Of(stages, s, t) :: s in ids)
  }

  lemma LaidOut(db: DB, t: TaskId, ids: seq<StageId>, req: TaskReq)
    requires StagesOk(db) && Insertable(db, t, ids, req)
    ensures Laid(db.stages + NewRows(t, ids, req.stages), t, ids, req.stages)
  {
    var stages := db.stages + NewRows(t, ids, req.stages);
    forall i | 0 <= i < |ids| ensures Of(stages, ids[i], t) && stages[ids[i]] == NewStage(t, req.stages, ids, i) {
      assert Position(ids, ids[i]) == i;
    }
    forall s | Of(stages, s, t) ensures s in ids {
      assert s in db.stages ==> StageOk(db, s);
    }
  }

  lemma LaidIsChained(stages: map<StageId, Stage>, t: TaskId, ids: seq<StageId>, reqs: seq<StageReq>)
    requires Laid(stages, t, ids, reqs)
    requires forall i | 0 <= i < |reqs| :: reqs[i].dependsOn.None?
    ensures Chained(stages, t)
    ensures forall s | Of(stages, s, t) :: stages[s].status.Pending?
  {
    forall s | Of(stages, s, t)
      ensures stages[s].status.Pending? && (stages[s].sequence > 0 ==> FollowsPrevious(stages, t, s))
    {
      var i := Position(ids, s);
      assert stages[ids[i]] == NewStage(t, reqs, ids, i);
      assert i > 0 ==> Of(stages, ids[i - 1], t) && stages[ids[i - 1]] == NewStage(t, reqs, ids, i - 1);
    }
    forall s, r | Of(stages, s, t) && Of(stages, r, t) && stages[s].sequence == stages[r].sequence ensures s == r {
      var i, j := Position(ids, s), Position(ids, r);
      assert stages[ids[i]].sequence == i && stages[ids[j]].sequence == j;
    }
  }

  lemma CreatedRows(db: DB, t: TaskId, ids: seq<StageId>, req: TaskReq)
    requires StagesOk(db) && Insertable(db, t, ids, req)
    requires forall i | 0 <= i < |req.stages| :: req.stages[i].dependsOn.None?
    ensures Chained(db.stages + NewRows(t, ids, req.stages), t)
    ensures forall s | Of(db.stages + NewRows(t, ids, req.stages), s, t) ::
      (db.stages + NewRows(t, ids, req.stages))[s].status.Pending?
  {
    LaidOut(db, t, ids, req);
    LaidIsChained(db.stages + NewRows(t, ids, req.stages), t, ids, req.stages);
  }

  lemma PendingChainIsOk(db: DB, t: TaskId)
    requires t in db.tasks && db.tasks[t].status.Waiting? && Chained(db.stages, t)
    requires forall s | Of(db.stages, s, t) :: db.stages[s].status.Pending?
    ensures ChainOk(db, t)
  {
  }

  lemma CreatedIsChained(db: DB, t: TaskId, ids: seq<StageId>, req: TaskReq)
    requires StagesOk(db) && Insertable(db, t, ids, req)
    requires forall i | 0 <= i < |req.stages| :: req.stages[i].dependsOn.None?
    ensures ChainOk(CreateTask(db, t, ids, req), t)
  {
    CreatedRows(db, t, ids, req);
    PendingChainIsOk(CreateTask(db, t, ids, req), t);
  }

  /** Along every run after a task is created with no `depends_on`: completed stages form a
      prefix, at most one stage is in hand, and a completed task has every stage completed. */
  lemma DefaultChainRuns(before: seq<Step>, create: Step, after: seq<Step>)
    requires create.Create?
    requires Insertable(Exec(START, before).db, create.t, create.ids, create.req)
    requires forall i | 0 <= i < |create.req.stages| :: create.req.stages[i].dependsOn.None?
    ensures var db := Exec(Apply(Exec(START, before), create), after).db;
      var t := create.t;
      && t in db.tasks
      && (forall s, r | Of(db.stages, s, t) && Of(db.stages, r, t) ::
            db.stages[s].status.Completed? && db.stages[r].sequence < db.stages[s].sequence ==>
                db.stages[r].status.Completed?)
      && (forall s, r | Of(db.stages, s, t) && Of(db.stages, r, t) ::
            InHand(db.stages[s].status) && InHand(db.stages[r].status) ==> s == r)
      && (db.tasks[t].status.Done? ==> forall s | Of(db.stages, s, t) :: db.stages[s].status.Completed?)
  {
    var w := Exec(START, before);
    var t := create.t;
    AlwaysConsistent(before);
    CreatedIsChained(w.db, t, create.ids, create.req);
    InvStep(w, create);
    ChainRun(Apply(w, create), after, t);
    var db := Exec(Apply(w, create), after).db;
    forall s, r | Of(db.stages, s, t) && Of(db.stages, r, t) && InHand(db.stages[s].status)
        && InHand(db.stages[r].status)
      ensures s == r
    {
      assert DoneBefore(db.stages, t, s) && DoneBefore(db.stages, t, r);
    }
  }

  lemma {:induction false} PlaceRun(w: World, steps: seq<Step>, s: StageId)
    requires Inv(w) && s in w.db.stages
    ensures s in Exec(w, steps).db.stages
    ensures Exec(w, steps).db.stages[s].task == w.db.stages[s].task
    ensures Exec(w, steps).db.stages[s].sequence == w.db.stages[s].sequence
    decreases |steps|
  {
    if steps != [] {
      StageMoves(w, steps[0], s);
      InvStep(w, steps[0]);
      PlaceRun(Apply(w, steps[0]), steps[1..], s);
    }
  }

  /** Once a stage of a chain has failed, no later stage is ever taken up. */
  lemma FailureBlocksTheRest(w: World, steps: seq<Step>, t: TaskId, s: StageId, r: StageId)
    requires Inv(w) && ChainOk(w.db, t) && Of(w.db.stages, s, t) && Of(w.db.stages, r, t)
    requires w.db.stages[s].status.Failed? && w.db.stages[s].sequence < w.db.stages[r].sequence
    ensures Of(Exec(w, steps).db.stages, r, t)
    ensures var st := Exec(w, steps).db.stages[r].status; st.Pending? || st.Failed?
  {
    PlaceRun(w, steps, s);
    PlaceRun(w, steps, r);
    TerminalIsForever(w, steps, s);
    ChainRun(w, steps, t);
    assert !DoneBefore(Exec(w, steps).db.stages, t, r);
  }
}
