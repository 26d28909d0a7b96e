/**
  Tasks whose stages are all terminal while the task is not. Two transactions leave one behind:
  the creation of a task without stages, and the lease sweep that closes the last open stages of
  a task with a completed one, because its policy asks for every stage to have failed. No other
  does, and no later step completes or fails such a task.
 */
module Stranded {
  import opened Tables
  import opened Transactions
  import opened Machine
  import opened Invariants
  import opened Moves
  import opened Chain
  import opened Lease
  import opened Policies

  ghost predicate IsStranded(db: DB, t: TaskId) {
    t in db.tasks && !TaskTerminal(db.tasks[t].status) && AllClosed(db.stages, t)
  }

  ghost predicate OpenRowChanges(before: map<StageId, Stage>, after: map<StageId, Stage>, t: TaskId) {
    exists s :: Of(before, s, t) && !StageTerminal(before[s].status) && s in after
        && after[s].status != before[s].status
  }

  // ---- A task changes only with one of its open stages ----------------------------------

  lemma SweepChangesWithRow(kind: Sweep, db: DB, rows: set<StageId>, t: TaskId)
    requires t in db.tasks && SweepRows(kind, db, rows).tasks[t].status != db.tasks[t].status
    ensures OpenRowChanges(db.stages, SweepStages(kind, db.stages, rows), t)
  {
    var stages := SweepStages(kind, db.stages, rows);
    assert t in NewlyFailed(db.stages, stages, db.tasks.Keys);
    var s :| s in db.stages && s in stages && stages[s].task == t && stages[s].status.Failed?
        && !db.stages[s].status.Failed?;
    assert Of(db.stages, s, t);
  }

  lemma ReleaseChangesWithRow(db: DB, rows: map<StageId, ClaimRow>, maxRetries: nat, t: TaskId)
    requires t in db.tasks && ReleaseClaims(db, rows, maxRetries).tasks[t].status != db.tasks[t].status
    ensures OpenRowChanges(db.stages, ReleaseStages(db.stages, rows, maxRetries), t)
  {
    var stages := ReleaseStages(db.stages, rows, maxRetries);
    assert t in NewlyFailed(db.stages, stages, db.tasks.Keys);
    var s :| s in db.stages && s in stages && stages[s].task == t && stages[s].status.Failed?
        && !db.stages[s].status.Failed?;
    assert Of(db.stages, s, t);
  }

  lemma DeleteChangesWithRow(db: DB, n: NodeId, t: TaskId)
    requires t in db.tasks && DeleteNode(db, n).tasks[t].status != db.tasks[t].status
    ensures OpenRowChanges(db.stages, DeleteNode(db, n).stages, t)
  {
    DeleteInTwo(db, n);
    assert t in NewlyFailed(db.stages, Detached(db, n), db.tasks.Keys);
    var s :| s in db.stages && s in Detached(db, n) && Detached(db, n)[s].task == t
      && Detached(db, n)[s].status.Failed? && !db.stages[s].status.Failed?;
    assert Of(db.stages, s, t);
  }

  lemma ClaimChangesWithRow(db: DB, s: StageId, n: NodeId, names: set<string>, ttl: nat, t: TaskId)
    requires ClaimEnabled(db, s, n, names) && t in db.tasks
    requires ClaimStage(db, s, n, ttl).tasks[t].status != db.tasks[t].status
    ensures OpenRowChanges(db.stages, ClaimStage(db, s, n, ttl).stages, t)
  {
    assert Of(db.stages, s, t);
  }

  lemma CompleteChangesWithRow(db: DB, s: StageId, n: NodeId, t: TaskId)
    requires t in db.tasks && CompleteStage(db, s, n).tasks[t].status != db.tasks[t].status
    ensures OpenRowChanges(db.stages, CompleteStage(db, s, n).stages, t)
  {
    assert Of(db.stages, s, t);
  }

  /** The steps that write no status of an existing task. */
  predicate Quiet(step: Step) {
    step.Tick? || step.PutNode? || step.Create? || step.FailAddressed? || step.Note? || step.ObserveExpired?
  }

  lemma QuietKeepsTasks(w: World, step: Step, t: TaskId)
    requires Quiet(step) && t in w.db.tasks
    ensures t in Apply(w, step).db.tasks && Apply(w, step).db.tasks[t] == w.db.tasks[t]
  {}

  /** If the step changes the status of task `t`, it changes one of its open stages. */
  ghost predicate ChangesWithRow(w: World, step: Step, t: TaskId)
    requires t in w.db.tasks
  {
    var after := Apply(w, step).db;
    t in after.tasks && after.tasks[t].status != w.db.tasks[t].status ==>
      OpenRowChanges(w.db.stages, after.stages, t)
  }

  lemma ClaimStepChanges(w: World, step: Step, t: TaskId)
    requires t in w.db.tasks && step.Claim?
    ensures ChangesWithRow(w, step, t)
  {
    var db := w.db;
    if ClaimEnabled(db, step.s, step.n, step.names)
      && ClaimStage(db, step.s, step.n, step.ttl).tasks[t].status != db.tasks[t].status
    {
      ClaimChangesWithRow(db, step.s, step.n, step.names, step.ttl, t);
    }
  }

  lemma CompleteStepChanges(w: World, step: Step, t: TaskId)
    requires t in w.db.tasks && step.Complete?
    ensures ChangesWithRow(w, step, t)
  {
    if CompleteStage(w.db, step.s, step.n).tasks[t].status != w.db.tasks[t].status {
      CompleteChangesWithRow(w.db, step.s, step.n, t);
    }
  }

  lemma ReleaseStepChanges(w: World, step: Step, t: TaskId)
    requires t in w.db.tasks && step.CommitRelease?
    ensures ChangesWithRow(w, step, t)
  {
    if ReleaseClaims(w.db, step.rows, step.maxRetries).tasks[t].status != w.db.tasks[t].status {
      ReleaseChangesWithRow(w.db, step.rows, step.maxRetries, t);
    }
  }

  lemma SweepStepChanges(w: World, step: Step, t: TaskId)
    requires t in w.db.tasks && step.CommitSweep?
    ensures ChangesWithRow(w, step, t)
  {
    if SweepRows(step.kind, w.db, step.swept).tasks[t].status != w.db.tasks[t].status {
      SweepChangesWithRow(step.kind, w.db, step.swept, t);
    }
  }

  lemma OfflineStepChanges(w: World, step: Step, t: TaskId)
    requires t in w.db.tasks && step.CommitOffline?
    ensures ChangesWithRow(w, step, t)
  {
    var db := NodesOff(w.db, step.gone);
    if SweepRows(NodeOffline, db, step.held).tasks[t].status != db.tasks[t].status {
      SweepChangesWithRow(NodeOffline, db, step.held, t);
    }
  }

  lemma DeleteStepChanges(w: World, step: Step, t: TaskId)
    requires t in w.db.tasks && step.Delete?
    ensures ChangesWithRow(w, step, t)
  {
    if step.n in w.db.nodes {
      DeleteInTwo(w.db, step.n);
      if DeleteNode(w.db, step.n).tasks[t].status != w.db.tasks[t].status {
        DeleteChangesWithRow(w.db, step.n, t);
      }
    }
  }

  lemma TaskChangesWithRow(w: World, step: Step, t: TaskId)
    requires t in w.db.tasks
    ensures ChangesWithRow(w, step, t)
  {
    match step
    case Claim(_, _, _, _) => ClaimStepChanges(w, step, t);
    case Complete(_, _) => CompleteStepChanges(w, step, t);
    case CommitRelease(_, _) => ReleaseStepChanges(w, step, t);
    case CommitSweep(_, _) => SweepStepChanges(w, step, t);
    case CommitOffline(_, _) => OfflineStepChanges(w, step, t);
    case Delete(_) => DeleteStepChanges(w, step, t);
    case _ => QuietKeepsTasks(w, step, t);
  }

  lemma ClosedRows(before: map<StageId, Stage>, after: map<StageId, Stage>, t: TaskId)
    requires AllClosed(before, t)
    requires forall s | s in after && after[s].task == t :: s in before && before[s].task == t
    requires forall s | s in before && StageTerminal(before[s].status) ::
      s in after && after[s].status == before[s].status
    ensures AllClosed(after, t) && !OpenRowChanges(before, after, t)
  {
  }

  lemma ClosedStays(w: World, step: Step, t: TaskId)
    requires Inv(w) && t in w.db.tasks && AllClosed(w.db.stages, t)
    ensures AllClosed(Apply(w, step).db.stages, t)
    ensures !OpenRowChanges(w.db.stages, Apply(w, step).db.stages, t)
  {
    var after := Apply(w, step).db.stages;
    forall s | s in after && after[s].task == t ensures s in w.db.stages && w.db.stages[s].task == t {
      NoNewRowsForOldTask(w, step, t, s);
      RowKeepsTask(w, step, s);
    }
    forall s | s in w.db.stages && StageTerminal(w.db.stages[s].status)
      ensures s in after && after[s].status == w.db.stages[s].status
    {
      ClosedRowStays(w, step, s);
    }
    ClosedRows(w.db.stages, after, t);
  }

  lemma StrandedStep(w: World, step: Step, t: TaskId)
    requires Inv(w) && IsStranded(w.db, t)
    ensures IsStranded(Apply(w, step).db, t)
    ensures Apply(w, step).db.tasks[t].status == w.db.tasks[t].status
  {
    ClosedStays(w, step, t);
    TaskMoves(w, step, t);
    TaskChangesWithRow(w, step, t);
  }

  /** No later step completes or fails a stranded task. */
  lemma {:induction false} StrandedForever(w: World, steps: seq<Step>, t: TaskId)
    requires Inv(w) && IsStranded(w.db, t)
    ensures IsStranded(Exec(w, steps).db, t)
    ensures Exec(w, steps).db.tasks[t].status == w.db.tasks[t].status
    decreases |steps|
  {
    if steps != [] {
      StrandedStep(w, steps[0], t);
      InvStep(w, steps[0]);
      StrandedForever(Apply(w, steps[0]), steps[1..], t);
    }
  }

  // ---- Which steps strand a task --------------------------------------------------------

  ghost predicate LeaseKind(kind: Sweep) {
    kind.OrphanDead? || kind.WorkerDead?
  }

  /** The rows the sweep is about to fail are all that is open, and something is completed. */
  ghost predicate WillStrand(db: DB, kind: Sweep, rows: set<StageId>, t: TaskId) {
    && LeaseKind(kind)
    && t in db.tasks && !TaskTerminal(db.tasks[t].status)
    && SomeCompleted(db.stages, t)
    && forall s | Of(db.stages, s, t) && !StageTerminal(db.stages[s].status) :: s in rows
        && Guard(kind, db.stages[s].status)
  }

  lemma SweepStrands(kind: Sweep, db: DB, rows: set<StageId>, t: TaskId)
    requires t in db.tasks && !IsStranded(db, t)
    ensures IsStranded(SweepRows(kind, db, rows), t) <==> WillStrand(db, kind, rows, t)
  {
    var stages := SweepStages(kind, db.stages, rows);
    if !TaskTerminal(db.tasks[t].status) {
      var o :| o in db.stages && db.stages[o].task == t && !StageTerminal(db.stages[o].status);
      if WillStrand(db, kind, rows, t) {
        WillStrandStrands(kind, db, rows, t);
      } else if AllClosed(stages, t) {
        assert StageTerminal(stages[o].status);
        ClosedSweepLoses(kind, db, rows, t, o);
      }
    }
  }

  lemma WillStrandStrands(kind: Sweep, db: DB, rows: set<StageId>, t: TaskId)
    requires WillStrand(db, kind, rows, t)
    ensures IsStranded(SweepRows(kind, db, rows), t)
  {
    var stages := SweepStages(kind, db.stages, rows);
    forall s | s in stages && stages[s].task == t ensures StageTerminal(stages[s].status) {
      assert Of(db.stages, s, t);
    }
    var c :| c in db.stages && db.stages[c].task == t && db.stages[c].status.Completed?;
    assert c in stages && stages[c].status.Completed?;
  }

  lemma ClosedSweepLoses(kind: Sweep, db: DB, rows: set<StageId>, t: TaskId, o: StageId)
    requires t in db.tasks && !TaskTerminal(db.tasks[t].status) && !WillStrand(db, kind, rows, t)
    requires AllClosed(SweepStages(kind, db.stages, rows), t)
    requires Of(db.stages, o, t) && !StageTerminal(db.stages[o].status)
    ensures SweepRows(kind, db, rows).tasks[t].status.Lost?
  {
    var stages := SweepStages(kind, db.stages, rows);
    assert o in stages && stages[o].status.Failed?;
    assert t in NewlyFailed(db.stages, stages, db.tasks.Keys);
    assert SomeFailed(stages, t);
    forall s | Of(db.stages, s, t) && !StageTerminal(db.stages[s].status)
      ensures s in rows && Guard(kind, db.stages[s].status)
    {
      assert s in stages;
    }
    if LeaseKind(kind) {
      forall s | s in stages && stages[s].task == t ensures stages[s].status in {Failed} {
        assert Of(db.stages, s, t);
        assert s in db.stages && db.stages[s].status.Completed? ==> SomeCompleted(db.stages, t);
      }
    }
  }

  lemma CompleteDoesNotStrand(db: DB, s: StageId, n: NodeId, t: TaskId)
    requires t in db.tasks && !IsStranded(db, t)
    ensures !IsStranded(CompleteStage(db, s, n), t)
  {
    if !TaskTerminal(db.tasks[t].status) {
      var o :| o in db.stages && db.stages[o].task == t && !StageTerminal(db.stages[o].status);
      assert o in CompleteStage(db, s, n).stages;
    }
  }

  lemma ReleaseDoesNotStrand(db: DB, rows: map<StageId, ClaimRow>, maxRetries: nat, t: TaskId)
    requires t in db.tasks && !IsStranded(db, t)
    ensures !IsStranded(ReleaseClaims(db, rows, maxRetries), t)
  {
    if !TaskTerminal(db.tasks[t].status) {
      var stages := ReleaseStages(db.stages, rows, maxRetries);
      var o :| o in db.stages && db.stages[o].task == t && !StageTerminal(db.stages[o].status);
      if AllClosed(stages, t) {
        assert stages[o].status.Failed?;
        assert t in NewlyFailed(db.stages, stages, db.tasks.Keys);
        assert SomeFailed(stages, t);
      }
    }
  }

  lemma DeleteDoesNotStrand(db: DB, n: NodeId, t: TaskId)
    requires t in db.tasks && !IsStranded(db, t)
    ensures !IsStranded(DeleteNode(db, n), t)
  {
    if n in db.nodes && !TaskTerminal(db.tasks[t].status) {
      DeleteInTwo(db, n);
      var stages := Detached(db, n);
      var o :| o in db.stages && db.stages[o].task == t && !StageTerminal(db.stages[o].status);
      if AllClosed(stages, t) {
        assert stages[o].status.Failed?;
        assert t in NewlyFailed(db.stages, stages, db.tasks.Keys);
        assert SomeFailed(stages, t);
      }
    }
  }

  lemma QuietDoesNotStrand(w: World, step: Step, t: TaskId)
    requires Inv(w) && (Quiet(step) || step.Claim?) && t in w.db.tasks && !IsStranded(w.db, t)
    ensures !IsStranded(Apply(w, step).db, t)
  {
    TaskMoves(w, step, t);
    if !TaskTerminal(w.db.tasks[t].status) {
      var o :| o in w.db.stages && w.db.stages[o].task == t && !StageTerminal(w.db.stages[o].status);
      OpenStays(w, step, o);
    }
  }

  /** Whether the step strands the existing task `t` is told by this condition. */
  ghost predicate StrandsAsTold(w: World, step: Step, t: TaskId) {
    IsStranded(Apply(w, step).db, t) <==> step.CommitSweep? && WillStrand(w.db, step.kind, step.swept, t)
  }

  lemma SweepStepStrands(w: World, step: Step, t: TaskId)
    requires t in w.db.tasks && !IsStranded(w.db, t) && step.CommitSweep?
    ensures StrandsAsTold(w, step, t)
  {
    SweepStrands(step.kind, w.db, step.swept, t);
  }

  lemma OfflineStepStrands(w: World, step: Step, t: TaskId)
    requires t in w.db.tasks && !IsStranded(w.db, t) && step.CommitOffline?
    ensures StrandsAsTold(w, step, t)
  {
    SweepStrands(NodeOffline, NodesOff(w.db, step.gone), step.held, t);
  }

  lemma LoudStepStrands(w: World, step: Step, t: TaskId)
    requires t in w.db.tasks && !IsStranded(w.db, t) && (step.Complete? || step.CommitRelease? || step.Delete?)
    ensures StrandsAsTold(w, step, t)
  {
    match step
    case Complete(s, n) => CompleteDoesNotStrand(w.db, s, n, t);
    case CommitRelease(rows, maxRetries) =>
      if RowsSeen(w, rows) { ReleaseDoesNotStrand(w.db, rows, maxRetries, t); }
    case Delete(n) => DeleteDoesNotStrand(w.db, n, t);
  }

  lemma QuietStepStrands(w: World, step: Step, t: TaskId)
    requires Inv(w) && (Quiet(step) || step.Claim?) && t in w.db.tasks && !IsStranded(w.db, t)
    ensures StrandsAsTold(w, step, t)
  {
    QuietDoesNotStrand(w, step, t);
  }

  /** A step on an existing task strands it exactly when it is such a lease sweep. */
  lemma ExistingStrands(w: World, step: Step, t: TaskId)
    requires Inv(w) && t in w.db.tasks && !IsStranded(w.db, t)
    ensures StrandsAsTold(w, step, t)
  {
    match step
    case CommitSweep(_, _) => SweepStepStrands(w, step, t);
    case CommitOffline(_, _) => OfflineStepStrands(w, step, t);
    case Complete(_, _) => LoudStepStrands(w, step, t);
    case CommitRelease(_, _) => LoudStepStrands(w, step, t);
    case Delete(_) => LoudStepStrands(w, step, t);
    case _ => QuietStepStrands(w, step, t);
  }

  /** The step inserts task `t` without a single stage. */
  ghost predicate CreatesEmpty(w: World, step: Step, t: TaskId) {
    step.Create? && step.t == t && step.req.stages == [] && Insertable(w.db, t, step.ids, step.req)
  }

  lemma SweepKeepsTaskIds(kind: Sweep, db: DB, rows: set<StageId>)
    ensures SweepRows(kind, db, rows).tasks.Keys == db.tasks.Keys
  {
  }

  lemma ReleaseKeepsTaskIds(db: DB, rows: map<StageId, ClaimRow>, maxRetries: nat)
    ensures ReleaseClaims(db, rows, maxRetries).tasks.Keys == db.tasks.Keys
  {
  }

  lemma OnlyCreateInserts(w: World, step: Step, t: TaskId)
    requires t !in w.db.tasks && t in Apply(w, step).db.tasks
    ensures step.Create? && step.t == t && Insertable(w.db, t, step.ids, step.req)
  {
    match step
    case CommitRelease(rows, maxRetries) => ReleaseKeepsTaskIds(w.db, rows, maxRetries);
    case CommitSweep(kind, swept) => SweepKeepsTaskIds(kind, w.db, swept);
    case CommitOffline(gone, held) => SweepKeepsTaskIds(NodeOffline, NodesOff(w.db, gone), held);
    case Delete(n) => if n in w.db.nodes { DeleteInTwo(w.db, n); }
    case _ =>
  }

  /** A created task has closed stages only exactly when it has none. */
  lemma CreatedIsClosed(db: DB, t: TaskId, ids: seq<StageId>, req: TaskReq)
    requires StagesOk(db) && Insertable(db, t, ids, req)
    ensures AllClosed(CreateTask(db, t, ids, req).stages, t) <==> req.stages == []
  {
    var stages := db.stages + NewRows(t, ids, req.stages);
    LaidOut(db, t, ids, req);
    if req.stages != [] {
      assert Of(stages, ids[0], t) && stages[ids[0]].status.Pending?;
    }
  }

  lemma CreateStepStrands(w: World, step: Step, t: TaskId)
    requires Inv(w) && t !in w.db.tasks && step.Create? && step.t == t && Insertable(w.db, t, step.ids, step.req)
    ensures IsStranded(Apply(w, step).db, t) <==> step.req.stages == []
  {
    CreatedIsClosed(w.db, t, step.ids, step.req);
  }

  lemma NewTaskStrands(w: World, step: Step, t: TaskId)
    requires Inv(w) && t !in w.db.tasks
    ensures IsStranded(Apply(w, step).db, t) <==> CreatesEmpty(w, step, t)
  {
    if t in Apply(w, step).db.tasks {
      OnlyCreateInserts(w, step, t);
      CreateStepStrands(w, step, t);
    } else {
      NotInserted(w, step, t);
    }
  }

  lemma NotInserted(w: World, step: Step, t: TaskId)
    requires t !in Apply(w, step).db.tasks
    ensures !CreatesEmpty(w, step, t) && !IsStranded(Apply(w, step).db, t)
  {
  }

  /** Exactly when a step strands a task that was not stranded before. */
  lemma OnlyTheseStrand(w: World, step: Step, t: TaskId)
    requires Inv(w) && !IsStranded(w.db, t)
    ensures IsStranded(Apply(w, step).db, t) <==>
      CreatesEmpty(w, step, t) || (step.CommitSweep? && WillStrand(w.db, step.kind, step.swept, t))
  {
    if t in w.db.tasks { ExistingStrands(w, step, t); } else { NewTaskStrands(w, step, t); }
  }

  // ---- One lease sweep ------------------------------------------------------------------

  /** The three loops and the policy of one call: row by row, then the tasks left all failed. */
  lemma EnforceShape(db: DB, orphanedTtl: nat, grace: nat)
    ensures var after := EnforceLeases(db, orphanedTtl, grace);
      after == LoseTasks(db.(stages := after.stages), FreshlyLost(db, db.stages, after.stages))
  {
    var r1 := OverdueRows(db);
    var one := SweepRows(Overdue, db, r1);
    var r2 := OrphanDeadRows(one, orphanedTtl);
    var two := SweepRows(OrphanDead, one, r2);
    var r3 := WorkerDeadRows(two, grace);
    SweepShape(Overdue, db, r1);
    SweepShape(OrphanDead, one, r2);
    SweepShape(WorkerDead, two, r3);
    var s1 := SweepStages(Overdue, db.stages, r1);
    ThreeSweepsLose(db, r1, r2, r3, s1, SweepStages(WorkerDead, SweepStages(OrphanDead, s1, r2), r3));
  }

  /** What one lease sweep makes of a row. */
  ghost function Leased(db: DB, orphanedTtl: nat, grace: nat, st: Stage): Stage {
    LeasedRow(st, db.clock, orphanedTtl, st.claimedBy.Some? && Present(db, st.claimedBy.value, grace))
  }

  lemma LeasedCloses(db: DB, orphanedTtl: nat, grace: nat, st: Stage)
    ensures var after := Leased(db, orphanedTtl, grace, st);
      && after.task == st.task
      && (StageTerminal(st.status) ==> after == st)
      && (StageTerminal(after.status) && !StageTerminal(st.status) ==> after.status.Failed?)
  {
  }

  /** The open stages of `t` are all failed by the sweep, beside a completed one. */
  ghost predicate LeaseClosesAll(db: DB, orphanedTtl: nat, grace: nat, t: TaskId) {
    && SomeCompleted(db.stages, t)
    && forall s | Of(db.stages, s, t) && !StageTerminal(db.stages[s].status) ::
         Leased(db, orphanedTtl, grace, db.stages[s]).status.Failed?
  }

  /** The policy leaves an open task open exactly when not all of its stages failed. */
  lemma PolicyStrands(db: DB, stages: map<StageId, Stage>, after: DB, t: TaskId)
    requires t in db.tasks && !TaskTerminal(db.tasks[t].status) && !AllFailed(db.stages, t)
    requires after == LoseTasks(db.(stages := stages), FreshlyLost(db, db.stages, stages))
    ensures IsStranded(after, t) <==> AllClosed(stages, t) && !AllFailed(stages, t)
  {
  }

  lemma TerminalIsNotStranded(db: DB, stages: map<StageId, Stage>, after: DB, t: TaskId)
    requires t in db.tasks && TaskTerminal(db.tasks[t].status)
    requires after == LoseTasks(db.(stages := stages), FreshlyLost(db, db.stages, stages))
    ensures !IsStranded(after, t)
  {
  }

  /** A whole lease sweep strands an open task exactly when it fails all of its open stages
      beside a completed one. */
  lemma EnforceStrands(db: DB, orphanedTtl: nat, grace: nat, t: TaskId)
    requires t in db.tasks && !IsStranded(db, t)
    ensures IsStranded(EnforceLeases(db, orphanedTtl, grace), t) <==>
      !TaskTerminal(db.tasks[t].status) && LeaseClosesAll(db, orphanedTtl, grace, t)
  {
    var after := EnforceLeases(db, orphanedTtl, grace);
    EnforceShape(db, orphanedTtl, grace);
    if TaskTerminal(db.tasks[t].status) {
      TerminalIsNotStranded(db, after.stages, after, t);
    } else {
      EnforceKeepsRows(db, orphanedTtl, grace);
      forall s | s in db.stages ensures after.stages[s] == Leased(db, orphanedTtl, grace, db.stages[s]) {
        EnforceRow(db, orphanedTtl, grace, s);
      }
      ClosedByLease(db, orphanedTtl, grace, after.stages, t);
      OpenIsNotAllFailed(db.stages, t);
      PolicyStrands(db, after.stages, after, t);
    }
  }

  lemma OpenIsNotAllFailed(stages: map<StageId, Stage>, t: TaskId)
    requires !AllClosed(stages, t)
    ensures !AllFailed(stages, t)
  {
    var o :| o in stages && stages[o].task == t && !StageTerminal(stages[o].status);
    assert stages[o].status !in {Failed};
  }

  lemma EnforceKeepsRows(db: DB, orphanedTtl: nat, grace: nat)
    ensures EnforceLeases(db, orphanedTtl, grace).stages.Keys == db.stages.Keys
  {
    var one := SweepRows(Overdue, db, OverdueRows(db));
    SweepShape(Overdue, db, OverdueRows(db));
    var two := SweepRows(OrphanDead, one, OrphanDeadRows(one, orphanedTtl));
    SweepShape(OrphanDead, one, OrphanDeadRows(one, orphanedTtl));
    SweepShape(WorkerDead, two, WorkerDeadRows(two, grace));
  }

  /** With each row swept, the task is closed but not all failed exactly under that condition. */
  lemma ClosedByLease(db: DB, orphanedTtl: nat, grace: nat, after: map<StageId, Stage>, t: TaskId)
    requires after.Keys == db.stages.Keys
    requires forall s | s in db.stages :: after[s] == Leased(db, orphanedTtl, grace, db.stages[s])
    requires !AllClosed(db.stages, t)
    ensures AllClosed(after, t) && !AllFailed(after, t) <==> LeaseClosesAll(db, orphanedTtl, grace, t)
  {
    forall s | s in db.stages
      ensures after[s].task == db.stages[s].task
      ensures StageTerminal(db.stages[s].status) ==> after[s] == db.stages[s]
      ensures StageTerminal(after[s].status) && !StageTerminal(db.stages[s].status) ==> after[s].status.Failed?
    {
      LeasedCloses(db, orphanedTtl, grace, db.stages[s]);
    }
    if AllClosed(after, t) && !AllFailed(after, t) {
      var c :| c in after && after[c].task == t && after[c].status !in {Failed};
      assert db.stages[c].status.Completed?;
    }
    if SomeCompleted(db.stages, t) {
      var c :| c in db.stages && db.stages[c].task == t && db.stages[c].status.Completed?;
      assert c in after && after[c].status !in {Failed};
    }
  }

  /** Stage `o` is there after the step, of the same task and still open. */
  ghost predicate StaysOpen(w: World, step: Step, o: StageId)
    requires o in w.db.stages
  {
    var after := Apply(w, step).db.stages;
    o in after && !StageTerminal(after[o].status) && after[o].task == w.db.stages[o].task
  }

  lemma ClaimKeepsOpen(w: World, step: Step, o: StageId)
    requires o in w.db.stages && !StageTerminal(w.db.stages[o].status) && step.Claim?
    ensures StaysOpen(w, step, o)
  {
  }

  lemma NoteKeepsOpen(w: World, step: Step, o: StageId)
    requires o in w.db.stages && !StageTerminal(w.db.stages[o].status) && step.Note?
    ensures StaysOpen(w, step, o)
  {
  }

  lemma AddressedKeepsOpen(w: World, step: Step, o: StageId)
    requires Inv(w) && o in w.db.stages && !StageTerminal(w.db.stages[o].status) && step.FailAddressed?
    ensures StaysOpen(w, step, o)
  {
    if step.s in w.db.stages { AddressedBranchIsDead(w.db, step.s); }
  }

  lemma OtherKeepsOpen(w: World, step: Step, o: StageId)
    requires o in w.db.stages && !StageTerminal(w.db.stages[o].status)
    requires step.Tick? || step.PutNode? || step.ObserveExpired? || step.Create?
    ensures StaysOpen(w, step, o)
  {
  }

  lemma OpenStays(w: World, step: Step, o: StageId)
    requires Inv(w) && o in w.db.stages && !StageTerminal(w.db.stages[o].status)
    requires Quiet(step) || step.Claim?
    ensures StaysOpen(w, step, o)
  {
    match step
    case Claim(_, _, _, _) => ClaimKeepsOpen(w, step, o);
    case Note(_, _, _, _) => NoteKeepsOpen(w, step, o);
    case FailAddressed(_) => AddressedKeepsOpen(w, step, o);
    case _ => OtherKeepsOpen(w, step, o);
  }
}
