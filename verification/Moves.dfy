/** The only ways a step changes one stage row or one task row, and safety over whole runs. */
module Moves {
  import opened Prelude
  import opened Tables
  import opened Transactions
  import opened Machine
  import opened Invariants

  /** The transitions of a stage. `now` is the clock of the step. Only a release (or a failure
      of the same sweep) counts a retry, and only of a claim that has expired by then. */
  predicate RowMove(now: Time, a: Stage, b: Stage) {
    && b.task == a.task && b.sequence == a.sequence && b.capability == a.capability && b.dependsOn == a.dependsOn
    && (b.pin == a.pin || b.pin.None?)
    && match (a.status, b.status)
       case (Pending, Pending) => b.retryCount == a.retryCount
       case (Pending, Claimed) => b.retryCount == a.retryCount && b.claimedAt == Some(now)
       case (Pending, Failed) => b.retryCount == a.retryCount
       case (Claimed, Claimed) =>
         b.retryCount == a.retryCount && b.claimedAt == a.claimedAt && b.claimExpiresAt == a.claimExpiresAt
         && b.claimedBy == a.claimedBy
       case (Claimed, Pending) =>
         b.retryCount == a.retryCount + 1 && a.claimExpiresAt.Some? && a.claimExpiresAt.value < now
       case (Claimed, Failed) =>
         || b.retryCount == a.retryCount
         || (b.retryCount == a.retryCount + 1 && a.claimExpiresAt.Some? && a.claimExpiresAt.value < now)
       case (Claimed, Accepted) => b.retryCount == a.retryCount
       case (Claimed, Completed) => b.retryCount == a.retryCount
       case (Accepted, Accepted) => b.retryCount == a.retryCount
       case (Accepted, Orphaned) => b.retryCount == a.retryCount
       case (Accepted, Completed) => b.retryCount == a.retryCount
       case (Accepted, Failed) => b.retryCount == a.retryCount
       case (Orphaned, Orphaned) => b.retryCount == a.retryCount
       case (Orphaned, Accepted) => b.retryCount == a.retryCount
       case (Orphaned, Completed) => b.retryCount == a.retryCount
       case (Orphaned, Failed) => b.retryCount == a.retryCount
       case (Completed, Completed) => b.retryCount == a.retryCount
       case (Failed, Failed) => b.retryCount == a.retryCount
       case _ => false
  }

  /** A claimed stage goes back to the queue. */
  predicate GivesBack(a: Stage, b: Stage) {
    a.status.Claimed? && b.status.Pending?
  }

  predicate Takes(a: Stage, b: Stage) {
    a.status.Pending? && b.status.Claimed?
  }

  /** A stage fails without ever having been in hand since it last was pending. */
  predicate Drops(a: Stage, b: Stage) {
    a.status.Pending? && b.status.Failed?
  }

  /** An accepted stage is orphaned. */
  predicate Parks(a: Stage, b: Stage) {
    a.status.Accepted? && b.status.Orphaned?
  }

  predicate Finishes(a: Stage, b: Stage) {
    a.status != Completed && b.status == Completed
  }

  predicate LeaseKept(a: Stage, b: Stage) {
    b.lastNoteAt == a.lastNoteAt && b.leaseExpiresAt == a.leaseExpiresAt
  }

  lemma ReleaseMoves(w: World, rows: map<StageId, ClaimRow>, maxRetries: nat, s: StageId)
    requires Inv(w) && RowsSeen(w, rows) && s in w.db.stages
    ensures RowMove(w.db.clock, w.db.stages[s], ReleaseStages(w.db.stages, rows, maxRetries)[s])
    ensures LeaseKept(w.db.stages[s], ReleaseStages(w.db.stages, rows, maxRetries)[s])
    ensures w.db.stages[s].status.Pending? ==> ReleaseStages(w.db.stages, rows, maxRetries)[s] == w.db.stages[s]
    ensures !Parks(w.db.stages[s], ReleaseStages(w.db.stages, rows, maxRetries)[s])
    ensures !Finishes(w.db.stages[s], ReleaseStages(w.db.stages, rows, maxRetries)[s])
  {
    if s in rows {
      assert RowOk(w.db, rows[s]);
    }
  }

  lemma ClaimMoves(db: DB, s: StageId, n: NodeId, names: set<string>, ttl: nat, r: StageId)
    requires ClaimEnabled(db, s, n, names) && r in db.stages
    ensures r in ClaimStage(db, s, n, ttl).stages
        && RowMove(db.clock, db.stages[r], ClaimStage(db, s, n, ttl).stages[r])
    ensures !GivesBack(db.stages[r], ClaimStage(db, s, n, ttl).stages[r])
    ensures LeaseKept(db.stages[r], ClaimStage(db, s, n, ttl).stages[r])
    ensures Takes(db.stages[r], ClaimStage(db, s, n, ttl).stages[r]) ==> r == s
    ensures !Drops(db.stages[r], ClaimStage(db, s, n, ttl).stages[r])
    ensures !Parks(db.stages[r], ClaimStage(db, s, n, ttl).stages[r])
        && !Finishes(db.stages[r], ClaimStage(db, s, n, ttl).stages[r])
  {}

  lemma NoteMoves(db: DB, t: TaskId, n: NodeId, longrun: bool, ttl: nat, s: StageId)
    requires StagesOk(db) && s in db.stages
    ensures s in AddNote(db, t, n, longrun, ttl).stages
    ensures RowMove(db.clock, db.stages[s], AddNote(db, t, n, longrun, ttl).stages[s])
    ensures !GivesBack(db.stages[s], AddNote(db, t, n, longrun, ttl).stages[s])
    ensures !Takes(db.stages[s], AddNote(db, t, n, longrun, ttl).stages[s])
        && !Drops(db.stages[s], AddNote(db, t, n, longrun, ttl).stages[s])
    ensures !Parks(db.stages[s], AddNote(db, t, n, longrun, ttl).stages[s])
        && !Finishes(db.stages[s], AddNote(db, t, n, longrun, ttl).stages[s])
  {
    assert StageOk(db, s);
  }

  lemma SweepMoves(kind: Sweep, db: DB, rows: set<StageId>, s: StageId)
    requires s in db.stages
    ensures s in SweepRows(kind, db, rows).stages
    ensures RowMove(db.clock, db.stages[s], SweepRows(kind, db, rows).stages[s])
    ensures !GivesBack(db.stages[s], SweepRows(kind, db, rows).stages[s])
    ensures LeaseKept(db.stages[s], SweepRows(kind, db, rows).stages[s])
    ensures !Takes(db.stages[s], SweepRows(kind, db, rows).stages[s])
        && (Drops(db.stages[s], SweepRows(kind, db, rows).stages[s]) ==> kind.Uncovered?)
    ensures Parks(db.stages[s], SweepRows(kind, db, rows).stages[s]) ==> kind.Overdue?
    ensures !Finishes(db.stages[s], SweepRows(kind, db, rows).stages[s])
  {
    assert SweepRows(kind, db, rows).stages == SweepStages(kind, db.stages, rows);
  }

  lemma DeleteMoves(db: DB, n: NodeId, s: StageId)
    requires s in db.stages
    ensures s in DeleteNode(db, n).stages
    ensures RowMove(db.clock, db.stages[s], DeleteNode(db, n).stages[s])
    ensures !GivesBack(db.stages[s], DeleteNode(db, n).stages[s])
    ensures LeaseKept(db.stages[s], DeleteNode(db, n).stages[s])
    ensures !Takes(db.stages[s], DeleteNode(db, n).stages[s]) && !Drops(db.stages[s], DeleteNode(db, n).stages[s])
    ensures !Parks(db.stages[s], DeleteNode(db, n).stages[s]) && !Finishes(db.stages[s], DeleteNode(db, n).stages[s])
  {
    if n in db.nodes { DeleteInTwo(db, n); }
  }

  lemma CompleteMoves(db: DB, r: StageId, n: NodeId, s: StageId)
    requires s in db.stages
    ensures s in CompleteStage(db, r, n).stages
    ensures RowMove(db.clock, db.stages[s], CompleteStage(db, r, n).stages[s])
    ensures !GivesBack(db.stages[s], CompleteStage(db, r, n).stages[s])
    ensures LeaseKept(db.stages[s], CompleteStage(db, r, n).stages[s])
    ensures !Takes(db.stages[s], CompleteStage(db, r, n).stages[s])
        && !Drops(db.stages[s], CompleteStage(db, r, n).stages[s])
    ensures !Parks(db.stages[s], CompleteStage(db, r, n).stages[s])
    ensures Finishes(db.stages[s], CompleteStage(db, r, n).stages[s]) ==> r == s && db.stages[s].claimedBy == Some(n)
  {
    StayMoves(db.clock, db.stages[s]);
    if Completable(db, r, n) { CompletedRowMoves(db.clock, db.stages[r]); }
  }

  lemma CompletedRowMoves(now: Time, st: Stage)
    requires InHand(st.status)
    ensures RowMove(now, st, st.(status := Completed))
  {}

  lemma StayMoves(now: Time, st: Stage)
    ensures RowMove(now, st, st)
  {}

  /** The step moves row `s` along the transitions, and only the right kinds of step take it, give
      it back, drop it, orphan it, finish it or move its lease; its claimant alone finishes it. */
  ghost predicate StageMoved(w: World, step: Step, s: StageId)
    requires s in w.db.stages
  {
    var after := Apply(w, step).db.stages;
    && s in after
    && var a, b := w.db.stages[s], after[s];
    && RowMove(w.db.clock, a, b)
    && (GivesBack(a, b) ==> step.CommitRelease? && RowsSeen(w, step.rows))
    && (Takes(a, b) ==> step.Claim? && step.s == s && ClaimEnabled(w.db, s, step.n, step.names))
    && (Drops(a, b) ==> step.CommitSweep? && step.kind.Uncovered?)
    && (Parks(a, b) ==> step.CommitSweep? && step.kind.Overdue?)
    && (Finishes(a, b) ==> step.Complete? && step.s == s && a.claimedBy == Some(step.n))
    && (!step.Note? ==> LeaseKept(a, b))
  }

  lemma ClaimStepMoves(w: World, step: Step, s: StageId)
    requires Inv(w) && s in w.db.stages && step.Claim?
    ensures StageMoved(w, step, s)
  {
    StayMoves(w.db.clock, w.db.stages[s]);
    if ClaimEnabled(w.db, step.s, step.n, step.names) { ClaimMoves(w.db, step.s, step.n, step.names, step.ttl, s); }
  }

  lemma ReleaseStepMoves(w: World, step: Step, s: StageId)
    requires Inv(w) && s in w.db.stages && step.CommitRelease?
    ensures StageMoved(w, step, s)
  {
    StayMoves(w.db.clock, w.db.stages[s]);
    if RowsSeen(w, step.rows) { ReleaseMoves(w, step.rows, step.maxRetries, s); }
  }

  lemma SweepStepMoves(w: World, step: Step, s: StageId)
    requires s in w.db.stages && step.CommitSweep?
    ensures StageMoved(w, step, s)
  {
    SweepMoves(step.kind, w.db, step.swept, s);
  }

  lemma OfflineStepMoves(w: World, step: Step, s: StageId)
    requires s in w.db.stages && step.CommitOffline?
    ensures StageMoved(w, step, s)
  {
    SweepMoves(NodeOffline, NodesOff(w.db, step.gone), step.held, s);
  }

  lemma DeleteStepMoves(w: World, step: Step, s: StageId)
    requires s in w.db.stages && step.Delete?
    ensures StageMoved(w, step, s)
  {
    DeleteMoves(w.db, step.n, s);
  }

  lemma NoteStepMoves(w: World, step: Step, s: StageId)
    requires Inv(w) && s in w.db.stages && step.Note?
    ensures StageMoved(w, step, s)
  {
    NoteMoves(w.db, step.t, step.n, step.longrun, step.ttl, s);
  }

  lemma CompleteStepMoves(w: World, step: Step, s: StageId)
    requires s in w.db.stages && step.Complete?
    ensures StageMoved(w, step, s)
  {
    CompleteMoves(w.db, step.s, step.n, s);
  }

  lemma AddressedStepMoves(w: World, step: Step, s: StageId)
    requires Inv(w) && s in w.db.stages && step.FailAddressed?
    ensures StageMoved(w, step, s)
  {
    StayMoves(w.db.clock, w.db.stages[s]);
    if step.s in w.db.stages { AddressedBranchIsDead(w.db, step.s); }
  }

  lemma OtherStepMoves(w: World, step: Step, s: StageId)
    requires s in w.db.stages && (step.Tick? || step.PutNode? || step.ObserveExpired? || step.Create?)
    ensures StageMoved(w, step, s)
  {
    StayMoves(w.db.clock, w.db.stages[s]);
    assert s in Apply(w, step).db.stages && Apply(w, step).db.stages[s] == w.db.stages[s];
  }

  lemma StageMoves(w: World, step: Step, s: StageId)
    requires Inv(w) && s in w.db.stages
    ensures StageMoved(w, step, s)
  {
    match step
    case Claim(_, _, _, _) => ClaimStepMoves(w, step, s);
    case FailAddressed(_) => AddressedStepMoves(w, step, s);
    case Note(_, _, _, _) => NoteStepMoves(w, step, s);
    case CommitRelease(_, _) => ReleaseStepMoves(w, step, s);
    case CommitSweep(_, _) => SweepStepMoves(w, step, s);
    case CommitOffline(_, _) => OfflineStepMoves(w, step, s);
    case Delete(_) => DeleteStepMoves(w, step, s);
    case Complete(_, _) => CompleteStepMoves(w, step, s);
    case _ => OtherStepMoves(w, step, s);
  }

  lemma ClockMoves(w: World, step: Step)
    ensures w.db.clock <= Apply(w, step).db.clock
  {}

  lemma RowStays(db: DB, db': DB, row: ClaimRow)
    requires RowOk(db, row) && db.clock <= db'.clock
    requires row.stage in db'.stages && RowMove(db.clock, db.stages[row.stage], db'.stages[row.stage])
    ensures RowOk(db', row)
  {}

  lemma InvStep(w: World, step: Step)
    requires Inv(w)
    ensures Inv(Apply(w, step))
  {
    var w' := Apply(w, step);
    StepKeepsTables(w, step);
    ClockMoves(w, step);
    forall row | row in w'.seen ensures RowOk(w'.db, row) {
      if row in w.seen {
        assert RowOk(w.db, row);
        StageMoves(w, step, row.stage);
        RowStays(w.db, w'.db, row);
      } else {
        assert row in ExpiredRows(w.db).Values;
        var s :| s in ExpiredRows(w.db) && ExpiredRows(w.db)[s] == row;
        assert StageOk(w.db, s);
      }
    }
  }

  lemma {:induction false} InvRun(w: World, steps: seq<Step>)
    requires Inv(w)
    ensures Inv(Exec(w, steps))
    decreases |steps|
  {
    if steps != [] {
      InvStep(w, steps[0]);
      InvRun(Apply(w, steps[0]), steps[1..]);
    }
  }

  /** Every state any run reaches from the empty database satisfies the invariant. */
  lemma AlwaysConsistent(steps: seq<Step>)
    ensures Inv(Exec(START, steps))
  {
    InvRun(START, steps);
  }

  // ---- Terminal is absorbing ------------------------------------------------------------

  /** Tasks move from waiting to running to one final status, and stay there. */
  predicate TaskMove(a: TaskStatus, b: TaskStatus) {
    (TaskTerminal(a) ==> b == a) && (a.Running? ==> !b.Waiting?)
  }

  lemma SweepTaskMoves(kind: Sweep, db: DB, rows: set<StageId>, t: TaskId)
    requires t in db.tasks
    ensures t in SweepRows(kind, db, rows).tasks
    ensures var st := SweepRows(kind, db, rows).tasks[t].status;
      st == db.tasks[t].status || (st.Lost? && !TaskTerminal(db.tasks[t].status))
  {}

  lemma ReleaseTaskMoves(db: DB, rows: map<StageId, ClaimRow>, maxRetries: nat, t: TaskId)
    requires t in db.tasks
    ensures t in ReleaseClaims(db, rows, maxRetries).tasks
    ensures var st := ReleaseClaims(db, rows, maxRetries).tasks[t].status;
      st == db.tasks[t].status || (st.Lost? && !TaskTerminal(db.tasks[t].status))
  {}

  lemma DeleteTaskMoves(db: DB, n: NodeId, t: TaskId)
    requires t in db.tasks
    ensures t in DeleteNode(db, n).tasks
    ensures var st := DeleteNode(db, n).tasks[t].status;
      st == db.tasks[t].status || (st.Lost? && !TaskTerminal(db.tasks[t].status))
  {
    if n in db.nodes { DeleteInTwo(db, n); }
  }

  /** Only a completion writes the status `completed`. */
  lemma TaskMoves(w: World, step: Step, t: TaskId)
    requires t in w.db.tasks
    ensures t in Apply(w, step).db.tasks
    ensures TaskMove(w.db.tasks[t].status, Apply(w, step).db.tasks[t].status)
    ensures !w.db.tasks[t].status.Done? && Apply(w, step).db.tasks[t].status.Done? ==>
      && step.Complete? && Completable(w.db, step.s, step.n) && w.db.stages[step.s].task == t
      && !TaskTerminal(w.db.tasks[t].status) && AllClosed(Apply(w, step).db.stages, t)
  {
    match step
    case CommitRelease(rows, maxRetries) => ReleaseTaskMoves(w.db, rows, maxRetries, t);
    case CommitSweep(kind, swept) => SweepTaskMoves(kind, w.db, swept, t);
    case CommitOffline(gone, held) =>
      SweepTaskMoves(NodeOffline, NodesOff(w.db, gone), held, t);
    case Delete(n) => DeleteTaskMoves(w.db, n, t);
    case _ =>
  }

  lemma {:induction false} TerminalIsForever(w: World, steps: seq<Step>, s: StageId)
    requires Inv(w) && s in w.db.stages && StageTerminal(w.db.stages[s].status)
    ensures s in Exec(w, steps).db.stages
    ensures Exec(w, steps).db.stages[s].status == w.db.stages[s].status
    decreases |steps|
  {
    if steps != [] {
      InvStep(w, steps[0]);
      StageMoves(w, steps[0], s);
      TerminalIsForever(Apply(w, steps[0]), steps[1..], s);
    }
  }

  lemma {:induction false} TerminalTaskIsForever(w: World, steps: seq<Step>, t: TaskId)
    requires t in w.db.tasks && TaskTerminal(w.db.tasks[t].status)
    ensures t in Exec(w, steps).db.tasks
    ensures Exec(w, steps).db.tasks[t].status == w.db.tasks[t].status
    decreases |steps|
  {
    if steps != [] {
      TaskMoves(w, steps[0], t);
      TerminalTaskIsForever(Apply(w, steps[0]), steps[1..], t);
    }
  }

  /** Over the whole log: one `task_completed` or one `task_failed` for a terminal task, the one
      its status names, and none for any other task id. */
  lemma OneTerminalEvent(steps: seq<Step>, t: TaskId)
    ensures var db := Exec(START, steps).db;
      && db.events[TaskCompleted(t)] + db.events[TaskFailed(t)]
           == (if t in db.tasks && TaskTerminal(db.tasks[t].status) then 1 else 0)
      && (TaskCompleted(t) in db.events <==> t in db.tasks && db.tasks[t].status.Done?)
      && (TaskFailed(t) in db.events <==> t in db.tasks && db.tasks[t].status.Lost?)
  {
    AlwaysConsistent(steps);
    var db := Exec(START, steps).db;
    if t in db.tasks { assert TaskOk(db, t); } else { assert Silent(db.events, t); }
  }

  // ---- Claimants ------------------------------------------------------------------------

  /** `get_task` shows the task to this caller; `None` is the administrator's view. */
  predicate GetShows(task: Task, scope: Option<NodeId>) {
    || scope.None?
    || task.owner.None?
    || task.owner == scope
    || task.submittedBy == scope
  }

  /** `list_tasks` shows the task to this caller. */
  predicate ListShows(task: Task, scope: Option<NodeId>, sender: Option<NodeId>) {
    scope.Some? ==> task.owner.None? || task.owner == scope || (sender.Some? && task.submittedBy == sender)
  }

  /** A claimant exists, is the pin target and the owner where there is one, and therefore
      sees the task in both scoped views; a pending stage has no claimant, a claimed one has. */
  lemma ClaimantSeesTask(steps: seq<Step>, s: StageId)
    requires s in Exec(START, steps).db.stages
    ensures var db := Exec(START, steps).db;
      var st := db.stages[s];
      && st.task in db.tasks
      && (st.status.Pending? ==> st.claimedBy.None?)
      && (st.status.Claimed? ==> st.claimedBy.Some?)
      && (st.claimedBy.Some? ==>
            var n, task := st.claimedBy.value, db.tasks[st.task];
            && n in db.nodes
            && Admits(st.pin, n) && Admits(task.owner, n)
            && GetShows(task, Some(n)) && ListShows(task, Some(n), Some(n)))
  {
    AlwaysConsistent(steps);
    assert StageOk(Exec(START, steps).db, s);
  }

  /** Task and stage statuses agree in every reachable state. */
  lemma StatusesAgree(steps: seq<Step>, t: TaskId)
    requires t in Exec(START, steps).db.tasks
    ensures var db := Exec(START, steps).db;
      && (db.tasks[t].status.Lost? ==> SomeFailed(db.stages, t))
      && (db.tasks[t].status.Done? ==> AllClosed(db.stages, t) && SomeCompleted(db.stages, t))
      && (db.tasks[t].status.Waiting? ==> Untouched(db.stages, t))
  {
    AlwaysConsistent(steps);
    assert TaskOk(Exec(START, steps).db, t);
  }
}
