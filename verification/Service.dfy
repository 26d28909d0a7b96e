/**
  The scheduler's operations as they run: statement by statement over tables they update in
  place. Each is proved equal to the transaction that the state machine takes as one step.
 */
module Service {
  import opened Prelude
  import opened Tables
  import opened Transactions
  import opened Machine
  import opened Invariants
  import opened Lease
  import opened Policies
  import opened ClaimOrder
  import opened Effects

  datatype CreateError = IntegrityError

  predicate Holds(st: Stage, t: TaskId, n: NodeId) {
    st.task == t && st.claimedBy == Some(n)
  }

  function Touched(st: Stage, t: TaskId, n: NodeId, now: Time, ttl: nat): Stage {
    if Holds(st, t, n) then st.(lastNoteAt := Some(now), leaseExpiresAt := Some(now + ttl)) else st
  }

  function TakenOver(st: Stage, t: TaskId, n: NodeId): Stage {
    if Holds(st, t, n) && st.status.Claimed? then st.(status := Accepted) else st
  }

  function Returned(st: Stage, t: TaskId, n: NodeId): Stage {
    if Holds(st, t, n) && st.status.Orphaned? then st.(status := Accepted) else st
  }

  lemma NotedInThree(st: Stage, t: TaskId, n: NodeId, longrun: bool, now: Time, ttl: nat)
    ensures var touched := Touched(st, t, n, now, ttl);
      NotedRow(st, t, n, longrun, now, ttl) == Returned(if longrun then TakenOver(touched, t, n) else touched, t, n)
  {}

  /** The tasks of some rows. */
  function TasksOf(stages: map<StageId, Stage>, rows: set<StageId>): set<TaskId> {
    set s | s in rows && s in stages :: stages[s].task
  }

  /** Of the rows of a claim-TTL sweep, those it gives back. */
  function GivenBack(stages: map<StageId, Stage>, rows: map<StageId, ClaimRow>, maxRetries: nat): set<StageId> {
    set s | s in rows && s in stages && SameClaim(stages[s], rows[s]) && rows[s].retry + 1 <= maxRetries
  }

  /** Those it fails. */
  function GivenUp(stages: map<StageId, Stage>, rows: map<StageId, ClaimRow>, maxRetries: nat): set<StageId> {
    set s | s in rows && s in stages && SameClaim(stages[s], rows[s]) && rows[s].retry + 1 > maxRetries
  }

  /** The tasks that became failed. */
  function LostBetween(before: map<TaskId, Task>, after: map<TaskId, Task>): set<TaskId> {
    set t | t in before && t in after && after[t].status.Lost? && !before[t].status.Lost?
  }

  lemma ReleaseOutcome(db: DB, maxRetries: nat)
    requires Consistent(db)
    ensures var rows := ExpiredRows(db);
      var after := ReleaseClaims(db, rows, maxRetries).stages;
      && GivenBack(db.stages, rows, maxRetries) == Became(db.stages, after, Claimed, Pending)
      && GivenUp(db.stages, rows, maxRetries) == Became(db.stages, after, Claimed, Failed)
  {
    var after := ReleaseClaims(db, ExpiredRows(db), maxRetries).stages;
    forall s | s in db.stages
      ensures s in GivenBack(db.stages, ExpiredRows(db), maxRetries) <==>
        s in Became(db.stages, after, Claimed, Pending)
      ensures s in GivenUp(db.stages, ExpiredRows(db), maxRetries) <==>
        s in Became(db.stages, after, Claimed, Failed)
    {
      ReleasedRows(db, maxRetries, s);
      assert StageOk(db, s);
    }
  }

  lemma LostAre(db: DB, f: set<TaskId>)
    requires forall t | t in f :: t in db.tasks && !TaskTerminal(db.tasks[t].status)
    ensures LostBetween(db.tasks, LoseTasks(db, f).tasks) == f
  {
  }

  class Relay {
    var clock: Time
    var nodes: map<NodeId, Node>
    var tasks: map<TaskId, Task>
    var stages: map<StageId, Stage>
    var events: multiset<Event>

    ghost function Db(): DB
      reads this
    {
      DB(clock, nodes, tasks, stages, events)
    }

    constructor ()
      ensures Db() == EMPTY && Consistent(Db())
    {
      clock, nodes, tasks, stages, events := 0, map[], map[], map[], multiset{};
    }

    // ---- Task policies ------------------------------------------------------------------

    method MarkLost(t: TaskId, ghost db: DB, ghost f: set<TaskId>)
      requires t in db.tasks && t !in f && Db() == LoseTasks(db, f)
      modifies this
      ensures Db() == LoseTasks(db, f + {t})
    {
      LoseOneMore(db, f, t);
      tasks := tasks[t := tasks[t].(status := Lost)];
      events := events + multiset{TaskFailed(t)};
    }

    /** Loses task `t` if it is open and every stage of it has one of the statuses. */
    method LoseIfDone(t: TaskId, done: set<StageStatus>, ghost db: DB, ghost f: set<TaskId>) returns (hit: bool)
      requires t !in f && Db() == LoseTasks(db, f)
      modifies this
      ensures hit == IsDone(db, t, done)
      ensures Db() == LoseTasks(db, if hit then f + {t} else f)
    {
      if t !in tasks || TaskTerminal(tasks[t].status) { return false; }
      var remaining := set s | s in stages && stages[s].task == t && stages[s].status !in done;
      EmptyWhenAllIn(db.stages, t, done, remaining);
      if |remaining| != 0 { return false; }
      MarkLost(t, db, f);
      return true;
    }

    /** Loses task `t` if it is open and has a failed stage. */
    method LoseIfBroken(t: TaskId, ghost db: DB, ghost f: set<TaskId>) returns (hit: bool)
      requires t !in f && Db() == LoseTasks(db, f)
      modifies this
      ensures hit == IsBroken(db, t)
      ensures Db() == LoseTasks(db, if hit then f + {t} else f)
    {
      var broken := set s | s in stages && stages[s].task == t && stages[s].status.Failed?;
      SomeWhenBroken(db.stages, t, broken);
      if |broken| == 0 || t !in tasks || TaskTerminal(tasks[t].status) { return false; }
      MarkLost(t, db, f);
      return true;
    }

    method FailTasksIfAllStagesDone(affected: set<TaskId>, done: set<StageStatus>) returns (failed: set<TaskId>)
      modifies this
      ensures Db() == LoseIfAllDone(old(Db()), affected, done)
      ensures failed == DoneTasks(old(Db()), affected, done)
      ensures FailedTogether(old(Db()), Db(), affected, done, failed)
    {
      failed := {};
      var rest := affected;
      ghost var db := Db();
      LoseNone(db);
      while rest != {}
        invariant rest <= affected
        invariant failed == DoneTasks(db, affected - rest, done)
        invariant Db() == LoseTasks(db, failed)
        decreases rest
      {
        var t :| t in rest;
        ghost var before := affected - rest;
        rest := rest - {t};
        assert affected - rest == before + {t};
        DoneOneMore(db, before, done, t);
        var hit := LoseIfDone(t, done, db, failed);
        if hit { failed := failed + {t}; }
      }
      assert affected - rest == affected;
      DoneTasksFail(db, affected, done);
    }

    method FailTasksWithFailedStages(affected: set<TaskId>) returns (failed: set<TaskId>)
      modifies this
      ensures Db() == LoseIfAnyFailed(old(Db()), affected)
      ensures failed == BrokenTasks(old(Db()), affected)
      ensures FailedByOne(old(Db()), Db(), affected, failed)
    {
      failed := {};
      var rest := affected;
      ghost var db := Db();
      LoseNone(db);
      while rest != {}
        invariant rest <= affected
        invariant failed == BrokenTasks(db, affected - rest)
        invariant Db() == LoseTasks(db, failed)
        decreases rest
      {
        var t :| t in rest;
        ghost var before := affected - rest;
        rest := rest - {t};
        assert affected - rest == before + {t};
        BrokenOneMore(db, before, t);
        var hit := LoseIfBroken(t, db, failed);
        if hit { failed := failed + {t}; }
      }
      assert affected - rest == affected;
      BrokenTasksFail(db, affected);
    }

    /** Both policies in the order the sweeps apply them: with a failed stage in every affected
        task, this is the linear failure policy. */
    method FailTasksLinearly(affected: set<TaskId>) returns (failed: set<TaskId>)
      requires forall t | t in affected :: SomeFailed(stages, t)
      modifies this
      ensures Db() == LoseIfAnyFailed(old(Db()), affected)
      ensures failed == BrokenTasks(old(Db()), affected)
    {
      ghost var db := Db();
      var allDone := FailTasksIfAllStagesDone(affected, {Failed});
      var critical := FailTasksWithFailedStages(affected);
      CriticalSubsumesAllFailed(db, affected);
      failed := allDone + critical;
    }

    // ---- The claim-TTL sweep ------------------------------------------------------------

    /** `UPDATE ... WHERE stage_id = ? AND status = 'claimed' AND claimed_at = ?`; true when it hit. */
    method EndClaim(row: ClaimRow, status: StageStatus, retry: nat) returns (hit: bool)
      requires row.stage in stages
      modifies this`stages
      ensures hit == SameClaim(old(stages)[row.stage], row)
      ensures stages == old(stages)[row.stage := EndedRow(old(stages)[row.stage], row, status, retry)]
    {
      var st := stages[row.stage];
      hit := SameClaim(st, row);
      if hit {
        stages := stages[row.stage := st.(status := status, retryCount := retry,
                                          claimedBy := None, claimedAt := None, claimExpiresAt := None)];
      }
    }

    /** One row of the sweep: failed when its retries are used up, else back to pending. */
    method EndOne(row: ClaimRow, maxRetries: nat) returns (hit: bool)
      requires row.stage in stages
      modifies this`stages
      ensures hit == SameClaim(old(stages)[row.stage], row)
      ensures stages == old(stages)[row.stage := ReleasedRow(old(stages)[row.stage], row, maxRetries)]
    {
      var retry := row.retry + 1;
      if retry > maxRetries {
        hit := EndClaim(row, Failed, retry);
      } else {
        hit := EndClaim(row, Pending, retry);
      }
    }

    /** The loop over the selected rows, in any order. */
    method ReleaseEach(rows: map<StageId, ClaimRow>, maxRetries: nat)
        returns (released: set<StageId>, failed: set<StageId>, affected: set<TaskId>)
      requires forall s | s in rows :: rows[s].stage == s && s in stages && rows[s].task == stages[s].task
      modifies this`stages
      ensures stages == ReleaseStages(old(stages), rows, maxRetries)
      ensures released == GivenBack(old(stages), rows, maxRetries)
      ensures failed == GivenUp(old(stages), rows, maxRetries)
      ensures affected == TasksOf(old(stages), failed)
    {
      released, failed, affected := {}, {}, {};
      ghost var before := stages;
      var rest := rows.Keys;
      while rest != {}
        invariant rest <= rows.Keys
        invariant stages == ReleaseStages(before, rows - rest, maxRetries)
        invariant released == GivenBack(before, rows - rest, maxRetries)
        invariant failed == GivenUp(before, rows - rest, maxRetries)
        invariant affected == TasksOf(before, failed)
        decreases rest
      {
        var s :| s in rest;
        var row := rows[s];
        ReleaseOneMore(before, rows, rest, maxRetries, s);
        OutcomeOneMore(before, rows, rest, maxRetries, s);
        rest := rest - {s};
        var hit := EndOne(row, maxRetries);
        if hit && row.retry + 1 > maxRetries {
          OneMoreTask(before, failed, s);
          failed := failed + {s};
          affected := affected + {row.task};
        } else if hit {
          released := released + {s};
        }
      }
      assert rows - rest == rows;
    }

    method ReleaseOrFailClaims(maxRetries: nat)
        returns (released: set<StageId>, failed: set<StageId>, tasksFailed: set<TaskId>)
      modifies this
      ensures Db() == ReleaseClaims(old(Db()), ExpiredRows(old(Db())), maxRetries)
      ensures released == GivenBack(old(stages), ExpiredRows(old(Db())), maxRetries)
      ensures failed == GivenUp(old(stages), ExpiredRows(old(Db())), maxRetries)
      ensures tasksFailed == LostBetween(old(tasks), tasks)
      ensures Consistent(old(Db())) ==> Consistent(Db())
      ensures Consistent(old(Db())) ==> ReleaseEffect(old(Db()), Db(), maxRetries)
      ensures Consistent(old(Db())) ==>
        && released == Became(old(stages), stages, StageStatus.Claimed, StageStatus.Pending)
        && failed == Became(old(stages), stages, StageStatus.Claimed, StageStatus.Failed)
    {
      ghost var db := Db();
      var rows := map s | s in stages && Expired(stages[s], clock) ::
        ClaimRow(s, stages[s].task, stages[s].retryCount, stages[s].claimedAt);
      assert rows == ExpiredRows(db);
      var affected;
      released, failed, affected := ReleaseEach(rows, maxRetries);
      ReleaseCompletes(db, Db(), rows, maxRetries, failed, affected);
      LostAre(Db(), BrokenTasks(Db(), affected));
      tasksFailed := FailTasksLinearly(affected);
      if Consistent(db) {
        ReleaseKeeps(World(db, {}), rows, maxRetries);
        ReleaseHasEffect(db, maxRetries);
        ReleaseOutcome(db, maxRetries);
      }
    }

    // ---- The status sweeps --------------------------------------------------------------

    /** The guarded UPDATE of each selected row, in any order; `hit` are the rows it changed. */
    method SweepEach(kind: Sweep, rows: set<StageId>) returns (hit: set<StageId>, affected: set<TaskId>)
      requires rows <= stages.Keys
      modifies this`stages
      ensures stages == SweepStages(kind, old(stages), rows)
      ensures hit == set s | s in rows && Guard(kind, old(stages)[s].status)
      ensures affected == TasksOf(old(stages), hit)
    {
      hit, affected := {}, {};
      ghost var before := stages;
      var rest := rows;
      while rest != {}
        invariant rest <= rows
        invariant stages == SweepStages(kind, before, rows - rest)
        invariant hit == set s | s in rows && s !in rest && Guard(kind, before[s].status)
        invariant affected == TasksOf(before, hit)
        decreases rest
      {
        var s :| s in rest;
        SweepOneMore(kind, before, rows, rest, s);
        rest := rest - {s};
        if Guard(kind, stages[s].status) {
          OneMoreTask(before, hit, s);
          hit := hit + {s};
          affected := affected + {stages[s].task};
          stages := stages[s := SweptRow(kind, stages[s])];
        }
      }
      assert rows - rest == rows;
    }

    /** The dead-pin rows first, then the pending rows whose capability no live node offers. */
    method FailUnclaimable() returns (stagesFailed: set<StageId>, deadPinned: set<StageId>, affected: set<TaskId>)
      modifies this`stages
      ensures stages == SweepStages(Uncovered, old(stages), DeadPinRows(old(Db())) + UncoveredRows(old(Db())))
      ensures deadPinned == DeadPinRows(old(Db()))
      ensures stagesFailed == UncoveredRows(old(Db())) - deadPinned
      ensures affected == TasksOf(old(stages), DeadPinRows(old(Db())) + UncoveredRows(old(Db())))
    {
      ghost var before := stages;
      ghost var db := Db();
      var dead := set s | s in stages && stages[s].status.Pending? && stages[s].pin.Some?
          && stages[s].pin.value !in nodes;
      var affectedToo;
      deadPinned, affected := SweepEach(Uncovered, dead);
      ghost var first := stages;
      var uncovered := set s | s in stages && stages[s].status.Pending?
        && !exists n :: n in nodes && stages[s].capability in nodes[n].index && IsLive(nodes[n].status);
      assert uncovered == UncoveredRows(db) - dead;
      TwoSweeps(Uncovered, before, first, dead, uncovered);
      assert dead + uncovered == DeadPinRows(db) + UncoveredRows(db);
      stagesFailed, affectedToo := SweepEach(Uncovered, uncovered);
      TasksOfSwept(Uncovered, before, dead, uncovered);
      TasksOfBoth(before, dead, uncovered);
      affected := affected + affectedToo;
    }

    method FailOrphanedStages() returns (stagesFailed: set<StageId>, deadPinned: set<StageId>, tasksFailed: set<TaskId>)
      modifies this
      ensures Db() == FailOrphans(old(Db()))
      ensures deadPinned == DeadPinRows(old(Db()))
      ensures stagesFailed == UncoveredRows(old(Db())) - deadPinned
      ensures tasksFailed == LostBetween(old(tasks), tasks)
      ensures Consistent(old(Db())) ==> Consistent(Db()) && deadPinned == {}
      ensures OrphansEffect(old(Db()), Db())
      ensures stagesFailed + deadPinned == Became(old(stages), stages, StageStatus.Pending, StageStatus.Failed)
    {
      ghost var db := Db();
      var affected;
      stagesFailed, deadPinned, affected := FailUnclaimable();
      UncoveredCompletes(db, Db(), DeadPinRows(db) + UncoveredRows(db), affected);
      LostAre(Db(), BrokenTasks(Db(), affected));
      tasksFailed := FailTasksLinearly(affected);
      assert Db() == FailOrphans(db);
      OrphansTold(db);
    }

    method OrphanOverdue() returns (rows: set<StageId>, affected: set<TaskId>)
      modifies this`stages
      ensures rows == OverdueRows(old(Db())) && stages == SweepStages(Overdue, old(stages), rows)
      ensures affected == TasksOf(old(stages), rows)
    {
      var due := set s | s in stages && stages[s].status.Accepted?
        && stages[s].leaseExpiresAt.Some? && stages[s].leaseExpiresAt.value < clock;
      rows, affected := SweepEach(Overdue, due);
    }

    method FailSilent(orphanedTtl: nat) returns (rows: set<StageId>, affected: set<TaskId>)
      modifies this`stages
      ensures rows == OrphanDeadRows(old(Db()), orphanedTtl) && stages == SweepStages(OrphanDead, old(stages), rows)
      ensures affected == TasksOf(old(stages), rows)
    {
      var deadline := clock - orphanedTtl;
      var due := set s | s in stages && stages[s].status.Orphaned?
        && (stages[s].lastNoteAt.None? || stages[s].lastNoteAt.value < deadline);
      rows, affected := SweepEach(OrphanDead, due);
    }

    method FailAbsent(grace: nat) returns (rows: set<StageId>, affected: set<TaskId>)
      modifies this`stages
      ensures rows == WorkerDeadRows(old(Db()), grace) && stages == SweepStages(WorkerDead, old(stages), rows)
      ensures affected == TasksOf(old(stages), rows)
    {
      var deadline := clock - grace;
      var present := set n | n in nodes && IsLive(nodes[n].status)
        && (nodes[n].lastSeen.None? || nodes[n].lastSeen.value >= deadline);
      var due := set s | s in stages && (stages[s].status.Accepted? || stages[s].status.Orphaned?)
        && stages[s].claimedBy.Some? && stages[s].claimedBy.value !in present;
      rows, affected := SweepEach(WorkerDead, due);
    }

    /** The three guarded loops of the lease sweep, before its task policy. */
    method SweepLeases(orphanedTtl: nat, grace: nat)
        returns (orphaned: set<StageId>, silent: set<StageId>, absent: set<StageId>, affected: set<TaskId>)
      modifies this`stages
      ensures orphaned == OverdueRows(old(Db()))
      ensures var one := old(Db()).(stages := SweepStages(Overdue, old(stages), orphaned));
        && silent == OrphanDeadRows(one, orphanedTtl)
        && var two := one.(stages := SweepStages(OrphanDead, one.stages, silent));
        && absent == WorkerDeadRows(two, grace)
        && stages == SweepStages(WorkerDead, two.stages, absent)
      ensures affected == TasksOf(old(stages), orphaned + silent + absent)
    {
      ghost var zero := stages;
      var more, yetMore;
      orphaned, affected := OrphanOverdue();
      ghost var one := stages;
      silent, more := FailSilent(orphanedTtl);
      ghost var two := stages;
      absent, yetMore := FailAbsent(grace);
      TasksOfThree(zero, one, two, orphaned, silent, absent);
      affected := affected + more + yetMore;
    }

    method EnforceLongrunLeases(orphanedTtl: nat, grace: nat)
        returns (orphaned: set<StageId>, silent: set<StageId>, absent: set<StageId>, tasksFailed: set<TaskId>)
      modifies this
      ensures Db() == EnforceLeases(old(Db()), orphanedTtl, grace)
      ensures orphaned == OverdueRows(old(Db()))
      ensures var one := SweepRows(Overdue, old(Db()), orphaned);
        && silent == OrphanDeadRows(one, orphanedTtl)
        && absent == WorkerDeadRows(SweepRows(OrphanDead, one, silent), grace)
      ensures tasksFailed == LostBetween(old(tasks), tasks)
      ensures Consistent(old(Db())) ==> Consistent(Db())
      ensures LeaseEffect(old(Db()), Db(), orphanedTtl, grace)
      ensures LeaseLists(old(Db()), orphanedTtl, grace, orphaned, silent, absent)
    {
      ghost var db := Db();
      var affected;
      orphaned, silent, absent, affected := SweepLeases(orphanedTtl, grace);
      LeasesComplete(db, Db(), orphaned, silent, absent, affected, orphanedTtl, grace);
      LostAre(Db(), DoneTasks(Db(), affected, {Failed}));
      tasksFailed := FailTasksIfAllStagesDone(affected, {Failed});
      if Consistent(db) { EnforceKeeps(db, orphanedTtl, grace); }
      LeaseHasEffect(db, orphanedTtl, grace);
      LeaseListsAre(db, orphanedTtl, grace);
    }

    // ---- Offline nodes ------------------------------------------------------------------

    /** One guarded UPDATE for each candidate: `last_seen` is checked again. */
    method SetOffline(candidates: set<NodeId>, threshold: Time)
      requires candidates <= SilentNodes(Db(), threshold)
      modifies this`nodes
      ensures nodes == NodesOff(old(Db()), candidates).nodes
    {
      ghost var db := Db();
      var rest := candidates;
      while rest != {}
        invariant rest <= candidates
        invariant nodes == NodesOff(db, candidates - rest).nodes
        decreases rest
      {
        var n :| n in rest;
        rest := rest - {n};
        if nodes[n].lastSeen.Some? && nodes[n].lastSeen.value < threshold {
          nodes := nodes[n := nodes[n].(status := Offline)];
        }
      }
      assert candidates - rest == candidates;
    }

    method MarkOfflineNodes(threshold: Time) returns (gone: set<NodeId>, tasksFailed: set<TaskId>)
      modifies this
      ensures gone == SilentNodes(old(Db()), threshold)
      ensures Db() == MarkOffline(old(Db()), gone, HeldRows(old(stages), gone))
      ensures tasksFailed == LostBetween(old(tasks), tasks)
      ensures Consistent(old(Db())) ==> Consistent(Db())
      ensures OfflineEffect(old(Db()), Db(), threshold, gone)
    {
      ghost var db := Db();
      var candidates := set n | n in nodes && IsLive(nodes[n].status) && !nodes[n].isAdmin
        && nodes[n].lastSeen.Some? && nodes[n].lastSeen.value < threshold;
      SetOffline(candidates, threshold);
      gone := set n | n in candidates && nodes[n].status.Offline?;
      assert gone == candidates;
      var held := set s | s in stages && stages[s].status.Claimed? && stages[s].claimedBy.Some?
          && stages[s].claimedBy.value in gone;
      assert held == HeldRows(db.stages, gone);
      var hit, affected := SweepEach(NodeOffline, held);
      OfflineCompletes(db, Db(), gone, held, hit, affected);
      LostAre(Db(), DoneTasks(Db(), affected, {Completed, Failed}));
      tasksFailed := FailTasksIfAllStagesDone(affected, {Completed, Failed});
      if Consistent(db) { OfflineKeeps(db, gone, held); }
      OfflineHasEffect(db, threshold);
    }

    // ---- Notes and completion -----------------------------------------------------------

    /** An UPDATE over the whole table: `row` is its SET clause under its WHERE clause. */
    method Update(row: Stage -> Stage)
      modifies this`stages
      ensures stages.Keys == old(stages).Keys
      ensures forall s | s in stages :: stages[s] == row(old(stages)[s])
    {
      stages := map s | s in stages :: row(stages[s]);
    }

    /** Three UPDATEs: the note heartbeat, the take-over of a claim, the return from orphaned. */
    method NoteStages(t: TaskId, n: NodeId, longrun: bool, ttl: nat)
      modifies this`stages
      ensures stages.Keys == old(stages).Keys
      ensures forall s | s in stages :: stages[s] == NotedRow(old(stages)[s], t, n, longrun, clock, ttl)
    {
      var now := clock;
      Update(st => Touched(st, t, n, now, ttl));
      if longrun {
        Update(st => TakenOver(st, t, n));
      }
      Update(st => Returned(st, t, n));
      forall s | s in stages ensures stages[s] == NotedRow(old(stages)[s], t, n, longrun, clock, ttl) {
        NotedInThree(old(stages)[s], t, n, longrun, clock, ttl);
      }
    }

    method AddNote(t: TaskId, n: NodeId, longrun: bool, ttl: nat) returns (found: bool)
      modifies this`stages
      ensures found == (t in tasks)
      ensures Db() == Transactions.AddNote(old(Db()), t, n, longrun, ttl)
      ensures Consistent(old(Db())) ==> Consistent(Db())
      ensures NoteEffect(old(Db()), Db(), t, n, longrun, ttl)
    {
      ghost var db := Db();
      found := t in tasks;
      if found {
        NoteStages(t, n, longrun, ttl);
        assert stages == Transactions.AddNote(db, t, n, longrun, ttl).stages;
      }
      if Consistent(db) {
        NoteKeepsStages(db, t, n, longrun, ttl);
        NoteKeepsTasks(db, t, n, longrun, ttl);
      }
      NoteHasEffect(db, t, n, longrun, ttl);
    }

    method CompleteStage(s: StageId, n: NodeId) returns (completed: bool)
      modifies this
      ensures completed == Completable(old(Db()), s, n)
      ensures Db() == Transactions.CompleteStage(old(Db()), s, n)
      ensures Consistent(old(Db())) ==> Consistent(Db())
      ensures CompleteEffect(old(Db()), Db(), s, n, completed)
    {
      ghost var db := Db();
      CompleteHasEffect(db, s, n);
      if s !in stages || stages[s].claimedBy != Some(n) || !InHand(stages[s].status) { return false; }
      var t := stages[s].task;
      stages := stages[s := stages[s].(status := Completed)];
      var open := set r | r in stages && stages[r].task == t && !StageTerminal(stages[r].status);
      EmptyWhenClosed(stages, t, open);
      if |open| == 0 && t in tasks && !TaskTerminal(tasks[t].status) {
        tasks := tasks[t := tasks[t].(status := Done)];
        events := events + multiset{TaskCompleted(t)};
      }
      if Consistent(db) {
        CompleteKeepsStages(db, s, n);
        CompleteKeepsTasks(db, s, n);
      }
      return true;
    }

    // ---- Node deletion ------------------------------------------------------------------

    method Disown(n: NodeId)
      modifies this`tasks
      ensures tasks == Disowned(old(Db()), n).tasks
    {
      tasks := map t | t in tasks :: if tasks[t].owner == Some(n) then tasks[t].(owner := None) else tasks[t];
    }

    /** Unpin, then fail the stages the node has claimed. */
    method UnpinAndFail(n: NodeId) returns (failed: set<StageId>, affected: set<TaskId>)
      modifies this`stages
      ensures stages.Keys == old(stages).Keys
      ensures forall s | s in stages :: stages[s] == HalfDetached(old(stages)[s], n)
      ensures failed == HeldRows(old(stages), {n})
      ensures affected == TasksOf(old(stages), failed)
    {
      ghost var before := stages;
      Update(st => Unpinned(st, n));
      ghost var unpinned := stages;
      var held := set s | s in stages && stages[s].claimedBy == Some(n) && stages[s].status.Claimed?;
      assert held == HeldRows(before, {n});
      failed, affected := SweepEach(NodeOffline, held);
      SameTasksOf(before, unpinned, failed);
      forall s | s in stages ensures stages[s] == HalfDetached(before[s], n) {
        assert stages[s] == if s in held then SweptRow(NodeOffline, unpinned[s]) else unpinned[s];
        HalfDetachedBy(before[s], n, unpinned[s], s in held);
      }
    }

    /** Then their tasks, the claim columns of finished rows, and the node itself. */
    method DeleteNode(n: NodeId) returns (found: bool, failed: set<StageId>)
      modifies this
      ensures found == (n in old(nodes))
      ensures Db() == Transactions.DeleteNode(old(Db()), n)
      ensures failed == if n in old(nodes) then HeldRows(old(stages), {n}) else {}
      ensures Consistent(old(Db())) ==> Consistent(Db())
      ensures if found then DeleteEffect(old(Db()), Db(), n) else Db() == old(Db())
      ensures failed == Became(old(stages), stages, StageStatus.Claimed, StageStatus.Failed)
    {
      ghost var db := Db();
      found, failed := n in nodes, {};
      if found {
        var affected;
        Disown(n);
        failed, affected := UnpinAndFail(n);
        DeleteCompletes(db, Db(), n, failed, affected);
        var lost := FailTasksWithFailedStages(affected);
        Update(st => Cleared(st, n));
        nodes := nodes - {n};
        DetachedRowwise(db, stages, n);
        if Consistent(db) { DeleteKeeps(db, n); }
        DeleteHasEffect(db, n);
        HeldBecomeFailed(db, n);
      }
    }

    // ---- Creation -----------------------------------------------------------------------

    /** The record of one stage, linked to the one before it when the caller gave no list. */
    static method StageRow(t: TaskId, ids: seq<StageId>, reqs: seq<StageReq>, i: nat) returns (row: Stage)
      requires i < |ids| == |reqs|
      ensures row == NewStage(t, reqs, ids, i)
    {
      var deps := match reqs[i].dependsOn { case Some(given) => given case None => [] };
      if reqs[i].dependsOn.None? && i > 0 {
        deps := [ids[i - 1]];
      }
      row := Stage(t, i, reqs[i].capability, deps, reqs[i].pin, Pending, None, None, None, 0, None, None);
    }

    method InsertStages(t: TaskId, ids: seq<StageId>, reqs: seq<StageReq>)
      requires |ids| == |reqs| && Distinct(ids) && forall s | s in ids :: s !in stages
      modifies this`stages
      ensures stages == old(stages) + NewRows(t, ids, reqs)
    {
      ghost var before := stages;
      ghost var rows := NewRows(t, ids, reqs);
      for i := 0 to |ids|
        invariant stages.Keys == before.Keys + set s | s in ids[..i]
        invariant forall s | s in stages :: stages[s] == if s in before then before[s] else rows[s]
      {
        var row := StageRow(t, ids, reqs, i);
        NewRowAt(t, ids, reqs, i);
        assert ids[..i + 1] == ids[..i] + [ids[i]];
        stages := stages[ids[i] := row];
      }
      assert ids[..|ids|] == ids;
    }

    /** The constraints of the INSERTs. */
    method CheckRows(t: TaskId, ids: seq<StageId>, req: TaskReq) returns (insertable: bool)
      requires |ids| == |req.stages|
      ensures insertable == Insertable(Db(), t, ids, req)
    {
      var unique := forall i, j :: 0 <= i < j < |ids| ==> ids[i] != ids[j];
      var unused := forall s :: s in ids ==> s !in stages;
      var pinned := forall i :: 0 <= i < |req.stages| ==>
          (req.stages[i].pin.Some? ==> req.stages[i].pin.value in nodes);
      insertable := t !in tasks && unique && unused && pinned && (req.owner.Some? ==> req.owner.value in nodes);
    }

    /** A known idempotency key returns the task it names and changes nothing; otherwise the
        rows go in together or, when a constraint is violated, not at all. */
    method CreateTask(t: TaskId, ids: seq<StageId>, req: TaskReq) returns (r: Result<TaskId, CreateError>)
      requires |ids| == |req.stages|
      modifies this
      ensures KnownKey(old(tasks), req.key) ==>
        Db() == old(Db()) && r.Ok? && r.value in tasks && tasks[r.value].key == req.key
      ensures !KnownKey(old(tasks), req.key) ==> Db() == Transactions.CreateTask(old(Db()), t, ids, req)
      ensures !KnownKey(old(tasks), req.key) ==>
        r == if Fits(old(Db()), t, ids, req) then Ok(t) else Err(IntegrityError)
      ensures !KnownKey(old(tasks), req.key) ==> CreateEffect(old(Db()), Db(), t, ids, req)
      ensures Consistent(old(Db())) ==> Consistent(Db())
    {
      if Given(req.key) {
        var known := set u | u in tasks && tasks[u].key == req.key;
        if known != {} {
          var u :| u in known;
          return Ok(u);
        }
        assert forall u | u in tasks && tasks[u].key == req.key :: u in known;
      }
      ghost var db := Db();
      var insertable := CheckRows(t, ids, req);
      FitsIsInsertable(db, t, ids, req);
      CreateHasEffect(db, t, ids, req);
      if !insertable {
        return Err(IntegrityError);
      }
      tasks := tasks[t := Task(Waiting, req.priority, req.owner, req.sender, req.key, clock)];
      InsertStages(t, ids, req.stages);
      if Consistent(db) { CreateKeeps(db, t, ids, req); }
      return Ok(t);
    }

    // ---- Claiming -----------------------------------------------------------------------

    /** A first row of a non-empty result set. */
    method FirstOf(rows: set<StageId>) returns (first: StageId)
      requires rows != {} && forall s | s in rows :: s in stages && stages[s].task in tasks
      ensures first in rows && forall s | s in rows :: !Precedes(Db(), s, first)
    {
      first :| first in rows;
      var rest := rows - {first};
      while rest != {}
        invariant rest <= rows && first in rows
        invariant forall s | s in rows - rest :: !Precedes(Db(), s, first)
        decreases rest
      {
        var s :| s in rest;
        ghost var seen := rows - rest;
        rest := rest - {s};
        assert rows - rest == seen + {s};
        if Earlier(tasks[stages[s].task], stages[s], tasks[stages[first].task], stages[first]) {
          forall x | x in seen ensures !Precedes(Db(), x, s) {
            assert !Precedes(Db(), x, first);
          }
          first := s;
        }
      }
    }

    /** The candidate SELECT with its ORDER BY. */
    method SelectCandidates(n: NodeId, names: set<string>) returns (rows: seq<StageId>)
      ensures CandidateList(Db(), n, names, rows)
    {
      var all := set s | s in stages && stages[s].task in tasks && stages[s].status.Pending?
        && stages[s].capability in names && (stages[s].pin.None? || stages[s].pin == Some(n));
      rows := [];
      var rest := all;
      while rest != {}
        invariant rest <= all && Distinct(rows)
        invariant forall s :: s in rows <==> s in all - rest
        invariant forall i | 0 <= i < |rows| :: rows[i] in all
        invariant forall i, j :: 0 <= i < j < |rows| ==> !Precedes(Db(), rows[j], rows[i])
        invariant forall r, s :: r in rows && s in rest ==> !Precedes(Db(), s, r)
        decreases rest
      {
        var first := FirstOf(rest);
        assert first !in rows;
        rows := rows + [first];
        rest := rest - {first};
      }
      assert forall s :: s in all <==> Candidate(Db(), n, names, s);
    }

    method DepsMet(deps: seq<StageId>) returns (met: bool)
      ensures met == DepsCompleted(stages, deps)
    {
      var completed := set d | d in deps && d in stages && stages[d].status.Completed?;
      assert completed == CompletedAmong(stages, deps);
      met := |completed| == |deps|;
    }

    /** The claim loop: skip what is not ready or not addressed to this node, fail what is
        addressed to a node that is gone, and take the first stage that remains. */
    method ScanCandidates(n: NodeId, rows: seq<StageId>, ttl: nat) returns (r: Option<StageId>)
      modifies this
      ensures (Db(), r) == ClaimScan(old(Db()), n, rows, ttl)
    {
      ghost var all := ClaimScan(Db(), n, rows, ttl);
      assert rows[0..] == rows;
      for i := 0 to |rows|
        invariant all == ClaimScan(Db(), n, rows[i..], ttl)
      {
        var s := rows[i];
        ScanStep(Db(), n, rows, i, ttl);
        if s !in stages || stages[s].task !in tasks { continue; }
        var st := stages[s];
        var met := DepsMet(st.dependsOn);
        if !met { continue; }
        var owner := tasks[st.task].owner;
        if owner.Some? && owner != Some(n) {
          if owner.value !in nodes && st.status.Pending? {
            stages := stages[s := st.(status := Failed)];
          }
          continue;
        }
        if !st.status.Pending? { continue; }
        var siblings := set o | o in stages && stages[o].task == st.task;
        assert siblings == StagesOf(stages, st.task);
        var task := tasks[st.task];
        stages := stages[s := st.(status := Claimed, claimedBy := Some(n),
                                  claimedAt := Some(clock), claimExpiresAt := Some(clock + ttl))];
        if |siblings| == 1 && task.owner.None? {
          task := task.(owner := Some(n));
        }
        if task.status.Waiting? {
          task := task.(status := Running);
        }
        tasks := tasks[st.task := task];
        return Some(s);
      }
      return None;
    }

    /** Optimal and complete: a node that may claim gets the first eligible stage in the order
        priority, age, sequence, and nothing only when nothing is eligible. */
    method ClaimStage(n: NodeId, capability: Option<string>, kind: Option<string>, ttl: nat)
        returns (r: Option<StageId>)
      modifies this
      ensures !(n in old(nodes) && CanClaim(old(nodes)[n].status)) ==> r.None? && Db() == old(Db())
      ensures Consistent(old(Db())) ==> Consistent(Db())
      ensures Consistent(old(Db())) && n in old(nodes) && CanClaim(old(nodes)[n].status) ==>
        BestClaim(old(Db()), n, UsableNames(old(nodes)[n], capability, kind), ttl, Db(), r)
      ensures Consistent(old(Db())) ==> ClaimEffect(old(Db()), Db(), n, capability, kind, ttl, r)
    {
      ghost var db := Db();
      if n !in nodes || !CanClaim(nodes[n].status) { return None; }
      var names := UsableNames(nodes[n], capability, kind);
      if names == {} {
        ClaimHasEffect(db, db, n, capability, kind, ttl, None);
        return None;
      }
      var rows := SelectCandidates(n, names);
      r := ScanCandidates(n, rows, ttl);
      if Consistent(db) {
        ScanFindsBest(db, n, names, rows, ttl);
        ClaimHasEffect(db, Db(), n, capability, kind, ttl, r);
        if r.Some? {
          ClaimKeepsStages(db, r.value, n, names, ttl);
          ClaimKeepsTasks(db, r.value, n, names, ttl);
        }
      }
    }
  }

  lemma NewRowAt(t: TaskId, ids: seq<StageId>, reqs: seq<StageReq>, i: nat)
    requires i < |ids| == |reqs| && Distinct(ids)
    ensures ids[i] in NewRows(t, ids, reqs) && NewRows(t, ids, reqs)[ids[i]] == NewStage(t, reqs, ids, i)
  {
    assert Position(ids, ids[i]) == i;
  }

  lemma ScanStep(db: DB, n: NodeId, rows: seq<StageId>, i: nat, ttl: nat)
    requires i < |rows|
    ensures rows[i..][0] == rows[i] && rows[i..][1..] == rows[i + 1..]
  {}

  ghost predicate KnownKey(tasks: map<TaskId, Task>, key: Option<string>) {
    key.Some? && key.value != "" && exists u :: u in tasks && tasks[u].key == key
  }

  lemma SameTasksOf(a: map<StageId, Stage>, b: map<StageId, Stage>, rows: set<StageId>)
    requires a.Keys == b.Keys && forall s | s in a :: a[s].task == b[s].task
    ensures TasksOf(a, rows) == TasksOf(b, rows)
  {
    assert forall s | s in rows && s in a :: a[s].task == b[s].task;
  }

  lemma DetachedRowwise(db: DB, after: map<StageId, Stage>, n: NodeId)
    requires after.Keys == db.stages.Keys
    requires forall s | s in after :: after[s] == Cleared(HalfDetached(db.stages[s], n), n)
    ensures after == Detached(db, n)
  {
    forall s | s in db.stages ensures after[s] == DetachedRow(db.stages[s], n) {
      DetachedInThree(db.stages[s], n);
    }
  }

  function Unpinned(st: Stage, n: NodeId): Stage {
    if st.pin == Some(n) then st.(pin := None) else st
  }

  function HalfDetached(st: Stage, n: NodeId): Stage {
    var unpinned := Unpinned(st, n);
    if st.claimedBy == Some(n) && st.status.Claimed? then SweptRow(NodeOffline, unpinned) else unpinned
  }

  /** `... WHERE claimed_by = ? AND status != 'claimed'`: the claim columns of finished rows. */
  function Cleared(st: Stage, n: NodeId): Stage {
    if st.claimedBy == Some(n) && !st.status.Claimed?
    then st.(claimedBy := None, claimedAt := None, claimExpiresAt := None) else st
  }

  lemma DetachedInThree(st: Stage, n: NodeId)
    ensures DetachedRow(st, n) == Cleared(HalfDetached(st, n), n)
  {}

  lemma HalfDetachedBy(st: Stage, n: NodeId, unpinned: Stage, held: bool)
    requires unpinned == Unpinned(st, n) && held == (unpinned.claimedBy == Some(n) && unpinned.status.Claimed?)
    ensures HalfDetached(st, n) == if held then SweptRow(NodeOffline, unpinned) else unpinned
  {}

  lemma HalfDetachedStatus(st: Stage, n: NodeId)
    ensures HalfDetached(st, n).status == DetachedRow(st, n).status && HalfDetached(st, n).task == st.task
    ensures HalfDetached(st, n).status.Failed? && !st.status.Failed? <==> st.claimedBy == Some(n) && st.status.Claimed?
  {}

  /** The tasks lost before the last UPDATEs are those lost at the end. */
  lemma DeleteLosesThese(db: DB, mid: DB, n: NodeId, held: set<StageId>, affected: set<TaskId>)
    requires mid.stages.Keys == db.stages.Keys && mid.tasks == Disowned(db, n).tasks
    requires forall s | s in db.stages :: mid.stages[s] == HalfDetached(db.stages[s], n)
    requires held == HeldRows(db.stages, {n})
    requires affected == TasksOf(db.stages, held)
    ensures BrokenTasks(mid, affected) == LostByDelete(db, n)
  {
    forall t ensures SomeFailed(mid.stages, t) <==> SomeFailed(Detached(db, n), t) {
      SameFailures(db, mid.stages, n, t);
    }
    var newly := NewlyFailed(db.stages, Detached(db, n), db.tasks.Keys);
    forall t | t in db.tasks ensures t in affected <==> t in newly {
      HeldTasksNewlyFail(db, n, held, t);
    }
  }

  /** Losing the tasks of the claimed rows before the last UPDATEs is losing them at the end. */
  lemma DeleteCompletes(db: DB, mid: DB, n: NodeId, held: set<StageId>, affected: set<TaskId>)
    requires n in db.nodes && mid.stages.Keys == db.stages.Keys
    requires forall s | s in db.stages :: mid.stages[s] == HalfDetached(db.stages[s], n)
    requires mid == db.(stages := mid.stages, tasks := Disowned(db, n).tasks)
    requires held == HeldRows(db.stages, {n})
    requires affected == TasksOf(db.stages, held)
    ensures LoseIfAnyFailed(mid, affected).(stages := Detached(db, n), nodes := db.nodes - {n}) ==
        Transactions.DeleteNode(db, n)
  {
    DeleteLosesThese(db, mid, n, held, affected);
    DeleteInTwo(db, n);
  }

  lemma SameFailures(db: DB, stages: map<StageId, Stage>, n: NodeId, t: TaskId)
    requires stages.Keys == db.stages.Keys
    requires forall s | s in db.stages :: stages[s] == HalfDetached(db.stages[s], n)
    ensures SomeFailed(stages, t) <==> SomeFailed(Detached(db, n), t)
  {
    if SomeFailed(stages, t) {
      var s :| s in stages && stages[s].task == t && stages[s].status.Failed?;
      HalfDetachedStatus(db.stages[s], n);
      assert s in Detached(db, n) && Detached(db, n)[s].task == t && Detached(db, n)[s].status.Failed?;
    }
    if SomeFailed(Detached(db, n), t) {
      var s :| s in Detached(db, n) && Detached(db, n)[s].task == t && Detached(db, n)[s].status.Failed?;
      HalfDetachedStatus(db.stages[s], n);
      assert stages[s].task == t && stages[s].status.Failed?;
    }
  }

  lemma HeldTasksNewlyFail(db: DB, n: NodeId, held: set<StageId>, t: TaskId)
    requires held == HeldRows(db.stages, {n})
    requires t in db.tasks
    ensures t in TasksOf(db.stages, held) <==> t in NewlyFailed(db.stages, Detached(db, n), db.tasks.Keys)
  {
    if t in TasksOf(db.stages, held) {
      var s :| s in held && s in db.stages && db.stages[s].task == t;
      assert Detached(db, n)[s].status.Failed? && Detached(db, n)[s].task == t;
    }
    if t in NewlyFailed(db.stages, Detached(db, n), db.tasks.Keys) {
      var s :| s in db.stages && s in Detached(db, n) && Detached(db, n)[s].task == t
        && Detached(db, n)[s].status.Failed? && !db.stages[s].status.Failed?;
      assert s in held;
    }
  }

  lemma DoneOneMore(db: DB, before: set<TaskId>, done: set<StageStatus>, t: TaskId)
    ensures DoneTasks(db, before + {t}, done) == DoneTasks(db, before, done) + if IsDone(db, t, done) then {t} else {}
  {
  }

  lemma BrokenOneMore(db: DB, before: set<TaskId>, t: TaskId)
    ensures BrokenTasks(db, before + {t}) == BrokenTasks(db, before) + if IsBroken(db, t) then {t} else {}
  {
  }

  lemma OneMoreTask(stages: map<StageId, Stage>, rows: set<StageId>, s: StageId)
    requires s in stages
    ensures TasksOf(stages, rows + {s}) == TasksOf(stages, rows) + {stages[s].task}
  {
    assert s in rows + {s};
  }

  lemma TasksOfBoth(stages: map<StageId, Stage>, a: set<StageId>, b: set<StageId>)
    ensures TasksOf(stages, a) + TasksOf(stages, b) == TasksOf(stages, a + b)
  {}

  lemma TasksOfSwept(kind: Sweep, stages: map<StageId, Stage>, rows: set<StageId>, of: set<StageId>)
    ensures TasksOf(SweepStages(kind, stages, rows), of) == TasksOf(stages, of)
  {
    var after := SweepStages(kind, stages, rows);
    forall t | t in TasksOf(stages, of) ensures t in TasksOf(after, of) {
      var s :| s in of && s in stages && stages[s].task == t;
      assert s in after && after[s].task == t;
    }
    forall t | t in TasksOf(after, of) ensures t in TasksOf(stages, of) {
      var s :| s in of && s in after && after[s].task == t;
      assert stages[s].task == t;
    }
  }

  lemma TasksOfThree(zero: map<StageId, Stage>, one: map<StageId, Stage>, two: map<StageId, Stage>,
                     a: set<StageId>, b: set<StageId>, c: set<StageId>)
    requires one == SweepStages(Overdue, zero, a) && two == SweepStages(OrphanDead, one, b)
    ensures TasksOf(zero, a) + TasksOf(one, b) + TasksOf(two, c) == TasksOf(zero, a + b + c)
  {
    TasksOfSwept(Overdue, zero, a, b);
    TasksOfSwept(OrphanDead, one, b, c);
    TasksOfSwept(Overdue, zero, a, c);
    TasksOfBoth(zero, a, b);
    TasksOfBoth(zero, a + b, c);
  }

  lemma OrphansTold(db: DB)
    ensures OrphansEffect(db, FailOrphans(db))
    ensures UncoveredRows(db) - DeadPinRows(db) + DeadPinRows(db) ==
      Became(db.stages, FailOrphans(db).stages, Pending, Failed)
    ensures Consistent(db) ==> Consistent(FailOrphans(db)) && DeadPinRows(db) == {}
  {
    if Consistent(db) {
      SweepKeeps(Uncovered, db, DeadPinRows(db) + UncoveredRows(db));
      NoDeadPins(db);
    }
    OrphansHaveEffect(db);
    OrphansBecomeFailed(db);
    assert UncoveredRows(db) - DeadPinRows(db) + DeadPinRows(db) == DeadPinRows(db) + UncoveredRows(db);
  }

  lemma OfflineKeeps(db: DB, gone: set<NodeId>, held: set<StageId>)
    requires Consistent(db)
    ensures Consistent(MarkOffline(db, gone, held))
  {
    NodesKeep(db, NodesOff(db, gone).nodes);
    SweepKeeps(NodeOffline, NodesOff(db, gone), held);
  }

  lemma EmptyWhenClosed(stages: map<StageId, Stage>, t: TaskId, open: set<StageId>)
    requires open == set r | r in stages && stages[r].task == t && !StageTerminal(stages[r].status)
    ensures |open| == 0 <==> AllClosed(stages, t)
  {
    if |open| == 0 {
      forall r | r in stages && stages[r].task == t ensures StageTerminal(stages[r].status) {
        assert r !in open;
      }
    }
    if AllClosed(stages, t) {
      assert open == {};
    }
  }

  lemma EnforceKeeps(db: DB, orphanedTtl: nat, grace: nat)
    requires Consistent(db)
    ensures Consistent(EnforceLeases(db, orphanedTtl, grace))
  {
    var one := SweepRows(Overdue, db, OverdueRows(db));
    var two := SweepRows(OrphanDead, one, OrphanDeadRows(one, orphanedTtl));
    SweepKeeps(Overdue, db, OverdueRows(db));
    SweepKeeps(OrphanDead, one, OrphanDeadRows(one, orphanedTtl));
    SweepKeeps(WorkerDead, two, WorkerDeadRows(two, grace));
  }

  /** A row changes in some of the three sweeps exactly when one of them selects it. */
  lemma SelectedRowsChange(db: DB, r1: set<StageId>, r2: set<StageId>, r3: set<StageId>, s: StageId)
    requires s in db.stages
    requires s in r1 ==> Guard(Overdue, db.stages[s].status)
    requires s in r2 ==> Guard(OrphanDead, SweepStages(Overdue, db.stages, r1)[s].status)
    requires s in r3 ==> Guard(WorkerDead, SweepStages(OrphanDead, SweepStages(Overdue, db.stages, r1), r2)[s].status)
    ensures var s3 := SweepStages(WorkerDead, SweepStages(OrphanDead, SweepStages(Overdue, db.stages, r1), r2), r3);
      && s3[s].task == db.stages[s].task
      && (s in r1 + r2 + r3 ==> !db.stages[s].status.Failed?)
      && (s3[s].status.Failed? && !db.stages[s].status.Failed? ==> s in r1 + r2 + r3)
  {}

  lemma LeasesComplete(db: DB, mid: DB, orphaned: set<StageId>, silent: set<StageId>, absent: set<StageId>,
                       affected: set<TaskId>, orphanedTtl: nat, grace: nat)
    requires orphaned == OverdueRows(db)
    requires silent == OrphanDeadRows(db.(stages := SweepStages(Overdue, db.stages, orphaned)), orphanedTtl)
    requires absent == WorkerDeadRows(db.(stages :=
      SweepStages(OrphanDead, SweepStages(Overdue, db.stages, orphaned), silent)), grace)
    requires mid == db.(stages :=
      SweepStages(WorkerDead, SweepStages(OrphanDead, SweepStages(Overdue, db.stages, orphaned), silent), absent))
    requires affected == TasksOf(db.stages, orphaned + silent + absent)
    ensures LoseIfAllDone(mid, affected, {Failed}) == EnforceLeases(db, orphanedTtl, grace)
    ensures silent == OrphanDeadRows(SweepRows(Overdue, db, orphaned), orphanedTtl)
    ensures absent == WorkerDeadRows(SweepRows(OrphanDead, SweepRows(Overdue, db, orphaned), silent), grace)
  {
    var s1 := SweepStages(Overdue, db.stages, orphaned);
    var s3 := mid.stages;
    LeaseAffected(db, s3, orphaned, silent, absent, affected);
    PolicyOnce(db, orphaned, silent, absent, s1, s3, affected);
    SweepShape(Overdue, db, orphaned);
    var one := SweepRows(Overdue, db, orphaned);
    SweepShape(OrphanDead, one, silent);
    RowsIgnoreTasks(db.(stages := s1), one, orphanedTtl, grace);
    RowsIgnoreTasks(db.(stages := SweepStages(OrphanDead, s1, silent)), SweepRows(OrphanDead, one, silent),
        orphanedTtl, grace);
  }

  lemma RowsIgnoreTasks(a: DB, b: DB, orphanedTtl: nat, grace: nat)
    requires a.stages == b.stages && a.clock == b.clock && a.nodes == b.nodes
    ensures OrphanDeadRows(a, orphanedTtl) == OrphanDeadRows(b, orphanedTtl)
    ensures WorkerDeadRows(a, grace) == WorkerDeadRows(b, grace)
  {}

  lemma LeaseAffected(db: DB, s3: map<StageId, Stage>, r1: set<StageId>, r2: set<StageId>, r3: set<StageId>,
                      affected: set<TaskId>)
    requires s3 == SweepStages(WorkerDead, SweepStages(OrphanDead, SweepStages(Overdue, db.stages, r1), r2), r3)
    requires forall s | s in r1 :: s in db.stages && Guard(Overdue, db.stages[s].status)
    requires forall s | s in r2 :: s in db.stages && Guard(OrphanDead, SweepStages(Overdue, db.stages, r1)[s].status)
    requires forall s | s in r3 ::
      s in db.stages && Guard(WorkerDead, SweepStages(OrphanDead, SweepStages(Overdue, db.stages, r1), r2)[s].status)
    requires affected == TasksOf(db.stages, r1 + r2 + r3)
    ensures forall t | t in db.tasks && AllFailed(s3, t) :: t in affected <==> !AllFailed(db.stages, t)
  {
    forall t | t in db.tasks && AllFailed(s3, t) ensures t in affected <==> !AllFailed(db.stages, t) {
      if t in affected {
        var s :| s in r1 + r2 + r3 && s in db.stages && db.stages[s].task == t;
        SelectedRowsChange(db, r1, r2, r3, s);
        assert db.stages[s].status !in {Failed};
      }
      if !AllFailed(db.stages, t) {
        var s :| s in db.stages && db.stages[s].task == t && db.stages[s].status !in {Failed};
        SelectedRowsChange(db, r1, r2, r3, s);
        assert s in s3 && s3[s].status in {Failed};
      }
    }
  }

  lemma OfflineCompletes(db: DB, mid: DB, gone: set<NodeId>, rows: set<StageId>, hit: set<StageId>,
                         affected: set<TaskId>)
    requires mid == NodesOff(db, gone).(stages := SweepStages(NodeOffline, db.stages, rows))
    requires rows <= db.stages.Keys && hit == set s | s in rows && Guard(NodeOffline, db.stages[s].status)
    requires affected == TasksOf(db.stages, hit)
    ensures LoseIfAllDone(mid, affected, {Completed, Failed}) == MarkOffline(db, gone, rows)
  {
    var newly := NewlyFailed(db.stages, mid.stages, db.tasks.Keys);
    forall t | t in affected && t in db.tasks ensures t in newly {
      var s :| s in hit && db.stages[s].task == t;
      assert mid.stages[s].status.Failed? && mid.stages[s].task == t;
    }
    forall t | t in newly ensures t in affected {
      var s :| s in db.stages && s in mid.stages && mid.stages[s].task == t && mid.stages[s].status.Failed?
          && !db.stages[s].status.Failed?;
      assert s in hit;
    }
    SameLoss(mid, affected, newly, {Completed, Failed});
  }

  lemma SweepOneMore(kind: Sweep, before: map<StageId, Stage>, rows: set<StageId>, rest: set<StageId>, s: StageId)
    requires s in rest && rest <= rows && s in before
    ensures SweepStages(kind, before, rows - rest)[s] == before[s]
    ensures SweepStages(kind, before, rows - (rest - {s}))
         == SweepStages(kind, before, rows - rest)[s := SweptRow(kind, before[s])]
  {}

  /** Two sweeps of one kind over rows their guards select are one sweep over both. */
  lemma TwoSweeps(kind: Sweep, before: map<StageId, Stage>, first: map<StageId, Stage>, a: set<StageId>,
                  b: set<StageId>)
    requires first == SweepStages(kind, before, a)
    ensures SweepStages(kind, first, b) == SweepStages(kind, before, a + b)
  {
    forall s | s in before
      ensures SweepStages(kind, first, b)[s] == SweepStages(kind, before, a + b)[s]
    {
      assert !Guard(kind, SweptRow(kind, before[s]).status);
    }
  }

  /** The linear policy over the affected tasks completes the uncovered-capability sweep. */
  lemma UncoveredCompletes(db: DB, mid: DB, rows: set<StageId>, affected: set<TaskId>)
    requires mid == db.(stages := SweepStages(Uncovered, db.stages, rows))
    requires affected == TasksOf(db.stages, rows)
    requires forall s | s in rows :: s in db.stages && db.stages[s].status.Pending?
    ensures forall t | t in affected :: SomeFailed(mid.stages, t)
    ensures LoseIfAnyFailed(mid, affected) == SweepRows(Uncovered, db, rows)
  {
    var newly := NewlyFailed(db.stages, mid.stages, db.tasks.Keys);
    forall t | t in affected ensures SomeFailed(mid.stages, t) && (t in db.tasks ==> t in newly) {
      var s :| s in rows && s in db.stages && db.stages[s].status.Pending? && db.stages[s].task == t;
      assert mid.stages[s].status.Failed? && mid.stages[s].task == t;
    }
    forall t | t in newly ensures t in affected {
      var s :| s in db.stages && s in mid.stages && mid.stages[s].task == t && mid.stages[s].status.Failed?
          && !db.stages[s].status.Failed?;
      assert s in rows;
    }
    SameCritical(mid, affected, newly);
  }

  /** The linear policy over the affected tasks completes the claim-TTL sweep. */
  lemma ReleaseCompletes(db: DB, mid: DB, rows: map<StageId, ClaimRow>, maxRetries: nat, failed: set<StageId>,
                         affected: set<TaskId>)
    requires forall s | s in rows :: s in db.stages
    requires mid == db.(stages := ReleaseStages(db.stages, rows, maxRetries))
    requires failed == GivenUp(db.stages, rows, maxRetries)
    requires affected == TasksOf(db.stages, failed)
    ensures forall t | t in affected :: SomeFailed(mid.stages, t)
    ensures LoseIfAnyFailed(mid, affected) == ReleaseClaims(db, rows, maxRetries)
  {
    var newly := NewlyFailed(db.stages, mid.stages, db.tasks.Keys);
    forall t | t in affected ensures SomeFailed(mid.stages, t) && (t in db.tasks ==> t in newly) {
      var s :| s in failed && db.stages[s].task == t;
      assert mid.stages[s].status.Failed? && mid.stages[s].task == t;
    }
    forall t | t in newly ensures t in affected {
      var s :| s in db.stages && s in mid.stages && mid.stages[s].task == t && mid.stages[s].status.Failed?
          && !db.stages[s].status.Failed?;
      assert s in failed;
    }
    SameCritical(mid, affected, newly);
  }

  lemma ReleaseOneMore(before: map<StageId, Stage>, rows: map<StageId, ClaimRow>, rest: set<StageId>,
                       maxRetries: nat, s: StageId)
    requires s in rest && rest <= rows.Keys && s in before
    ensures ReleaseStages(before, rows - rest, maxRetries)[s] == before[s]
    ensures ReleaseStages(before, rows - (rest - {s}), maxRetries)
         == ReleaseStages(before, rows - rest, maxRetries)[s := ReleasedRow(before[s], rows[s], maxRetries)]
  {}

  lemma OutcomeOneMore(before: map<StageId, Stage>, rows: map<StageId, ClaimRow>, rest: set<StageId>,
                       maxRetries: nat, s: StageId)
    requires s in rest && rest <= rows.Keys && s in before
    ensures var hit := SameClaim(before[s], rows[s]);
      var over := rows[s].retry + 1 > maxRetries;
      && GivenBack(before, rows - (rest - {s}), maxRetries)
         == GivenBack(before, rows - rest, maxRetries) + (if hit && !over then {s} else {})
      && GivenUp(before, rows - (rest - {s}), maxRetries)
         == GivenUp(before, rows - rest, maxRetries) + (if hit && over then {s} else {})
  {}

  lemma EmptyWhenAllIn(stages: map<StageId, Stage>, t: TaskId, done: set<StageStatus>, remaining: set<StageId>)
    requires remaining == set s | s in stages && stages[s].task == t && stages[s].status !in done
    ensures |remaining| == 0 <==> AllIn(stages, t, done)
  {
    if |remaining| == 0 {
      forall s | s in stages && stages[s].task == t ensures stages[s].status in done {
        assert s !in remaining;
      }
    }
    if AllIn(stages, t, done) {
      assert remaining == {};
    }
  }

  lemma SomeWhenBroken(stages: map<StageId, Stage>, t: TaskId, broken: set<StageId>)
    requires broken == set s | s in stages && stages[s].task == t && stages[s].status.Failed?
    ensures |broken| != 0 <==> SomeFailed(stages, t)
  {
    if SomeFailed(stages, t) {
      var s :| s in stages && stages[s].task == t && stages[s].status.Failed?;
      assert s in broken;
    }
    if |broken| != 0 {
      var s :| s in broken;
    }
  }
}
