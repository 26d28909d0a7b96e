/** What holds in every reachable state, whatever the interleaving. */
module Invariants {
  import opened Prelude
  import opened Tables
  import opened Transactions
  import opened Machine

  ghost predicate Admits(slot: Option<NodeId>, n: NodeId) {
    slot.None? || slot == Some(n)
  }

  /** Claim and lease columns fit the status. */
  predicate ColumnsOk(st: Stage, now: Time) {
    && (st.status.Pending? ==> st.claimedBy.None? && st.claimedAt.None? && st.claimExpiresAt.None?)
    && (st.status.Claimed? ==>
          && st.claimedBy.Some? && st.claimedAt.Some? && st.claimExpiresAt.Some?
          && st.claimedAt.value <= st.claimExpiresAt.value && st.claimedAt.value <= now)
    && (st.status.Accepted? || st.status.Orphaned? ==> st.lastNoteAt.Some? && st.leaseExpiresAt.Some?)
    && (st.lastNoteAt.Some? <==> st.leaseExpiresAt.Some?)
    && (st.lastNoteAt.Some? ==> st.lastNoteAt.value <= now)
  }

  /** The task, the pin and the claimant exist, and pin and owner admit the claimant. */
  ghost predicate RefsOk(db: DB, st: Stage) {
    && st.task in db.tasks
    && (st.pin.Some? ==> st.pin.value in db.nodes)
    && (st.claimedBy.Some? ==>
          && st.claimedBy.value in db.nodes
          && Admits(st.pin, st.claimedBy.value)
          && Admits(db.tasks[st.task].owner, st.claimedBy.value))
  }

  ghost predicate StageOk(db: DB, s: StageId)
    requires s in db.stages
  {
    RefsOk(db, db.stages[s]) && ColumnsOk(db.stages[s], db.clock)
  }

  ghost predicate SomeCompleted(stages: map<StageId, Stage>, t: TaskId) {
    exists s :: s in stages && stages[s].task == t && stages[s].status.Completed?
  }

  ghost predicate Untouched(stages: map<StageId, Stage>, t: TaskId) {
    forall s | s in stages && stages[s].task == t :: stages[s].status.Pending? && stages[s].retryCount == 0
  }

  /** The status of task `t` agrees with the statuses of its stages. */
  ghost predicate StatusFits(stages: map<StageId, Stage>, t: TaskId, status: TaskStatus) {
    match status
    case Waiting => Untouched(stages, t)
    case Running => true
    case Lost => SomeFailed(stages, t)
    case Done => AllClosed(stages, t) && SomeCompleted(stages, t)
  }

  /** The log holds exactly the task event its status calls for. */
  ghost predicate EventsFit(events: multiset<Event>, t: TaskId, status: TaskStatus) {
    && events[TaskCompleted(t)] == (if status.Done? then 1 else 0)
    && events[TaskFailed(t)] == (if status.Lost? then 1 else 0)
  }

  ghost predicate TaskOk(db: DB, t: TaskId)
    requires t in db.tasks
  {
    && (db.tasks[t].owner.Some? ==> db.tasks[t].owner.value in db.nodes)
    && StatusFits(db.stages, t, db.tasks[t].status)
    && EventsFit(db.events, t, db.tasks[t].status)
  }

  ghost predicate Silent(events: multiset<Event>, t: TaskId) {
    events[TaskCompleted(t)] == 0 && events[TaskFailed(t)] == 0
  }

  ghost predicate StagesOk(db: DB) {
    forall s | s in db.stages :: StageOk(db, s)
  }

  ghost predicate TasksOk(db: DB) {
    && (forall t | t in db.tasks :: TaskOk(db, t))
    && (forall t | t !in db.tasks :: Silent(db.events, t))
  }

  ghost predicate Consistent(db: DB) {
    StagesOk(db) && TasksOk(db)
  }

  /** A stale row that still names the live claim agrees with it, and that claim has expired. */
  ghost predicate RowOk(db: DB, row: ClaimRow) {
    && row.claimedAt.Some?
    && row.claimedAt.value < db.clock
    && row.stage in db.stages
    && row.task == db.stages[row.stage].task
    && (SameClaim(db.stages[row.stage], row) ==>
          && db.stages[row.stage].retryCount == row.retry
          && db.stages[row.stage].claimExpiresAt.Some? && db.stages[row.stage].claimExpiresAt.value < db.clock)
  }

  ghost predicate Inv(w: World) {
    && Consistent(w.db)
    && forall row | row in w.seen :: RowOk(w.db, row)
  }

  // ---- Framing --------------------------------------------------------------------------

  /** The same rows, each of the same task, and terminal rows with their status. */
  ghost predicate Evolved(before: map<StageId, Stage>, after: map<StageId, Stage>) {
    && before.Keys == after.Keys
    && forall s | s in before ::
         && after[s].task == before[s].task
         && (StageTerminal(before[s].status) ==> after[s].status == before[s].status)
  }

  lemma FitsAfter(before: map<StageId, Stage>, after: map<StageId, Stage>, t: TaskId, status: TaskStatus)
    requires StatusFits(before, t, status) && Evolved(before, after)
    requires status.Waiting? ==> Untouched(after, t)
    ensures StatusFits(after, t, status)
  {
    if status.Lost? {
      var s :| s in before && before[s].task == t && before[s].status.Failed?;
      assert s in after;
    }
    if status.Done? {
      var s :| s in before && before[s].task == t && before[s].status.Completed?;
      assert s in after;
    }
  }

  /** References survive when no node or task disappears and no owner changes. */
  ghost predicate Widened(db: DB, db': DB) {
    && db.nodes.Keys <= db'.nodes.Keys
    && db.tasks.Keys <= db'.tasks.Keys
    && (forall t | t in db.tasks :: db'.tasks[t].owner == db.tasks[t].owner)
    && db.clock <= db'.clock
  }

  lemma RefsAfter(db: DB, db': DB, st: Stage)
    requires Widened(db, db') && RefsOk(db, st)
    ensures RefsOk(db', st)
  {}

  // ---- Claim ----------------------------------------------------------------------------

  lemma OnlyStage(stages: map<StageId, Stage>, s: StageId, r: StageId)
    requires s in stages && r in stages && stages[s].task == stages[r].task
    requires |StagesOf(stages, stages[s].task)| == 1
    ensures s == r
  {
    var all := StagesOf(stages, stages[s].task);
    assert all == {s} + (all - {s});
    assert r in all;
  }

  lemma ClaimKeepsStages(db: DB, s: StageId, n: NodeId, names: set<string>, ttl: nat)
    requires Consistent(db) && ClaimEnabled(db, s, n, names)
    ensures StagesOk(ClaimStage(db, s, n, ttl))
  {
    var db' := ClaimStage(db, s, n, ttl);
    var t := db.stages[s].task;
    forall r | r in db'.stages ensures StageOk(db', r) {
      assert StageOk(db, r);
      if r != s && db.stages[r].task == t && |StagesOf(db.stages, t)| == 1 {
        OnlyStage(db.stages, s, r);
      }
    }
  }

  lemma ClaimKeepsTasks(db: DB, s: StageId, n: NodeId, names: set<string>, ttl: nat)
    requires Consistent(db) && ClaimEnabled(db, s, n, names)
    ensures TasksOk(ClaimStage(db, s, n, ttl))
  {
    var db' := ClaimStage(db, s, n, ttl);
    assert Evolved(db.stages, db'.stages);
    forall u | u in db'.tasks ensures TaskOk(db', u) {
      assert TaskOk(db, u);
      if !db'.tasks[u].status.Running? {
        FitsAfter(db.stages, db'.stages, u, db.tasks[u].status);
      }
    }
  }

  // ---- Notes and completion -------------------------------------------------------------

  lemma NoteKeepsStages(db: DB, t: TaskId, n: NodeId, longrun: bool, ttl: nat)
    requires StagesOk(db)
    ensures StagesOk(AddNote(db, t, n, longrun, ttl))
  {
    var db' := AddNote(db, t, n, longrun, ttl);
    forall r | r in db'.stages ensures StageOk(db', r) {
      assert StageOk(db, r);
    }
  }

  lemma NotedTaskOk(db: DB, t: TaskId, n: NodeId, longrun: bool, ttl: nat, u: TaskId)
    requires StagesOk(db) && u in db.tasks && TaskOk(db, u)
    requires Evolved(db.stages, AddNote(db, t, n, longrun, ttl).stages)
    ensures u in AddNote(db, t, n, longrun, ttl).tasks && TaskOk(AddNote(db, t, n, longrun, ttl), u)
  {
    if db.tasks[u].status.Waiting? { NoteLeavesUntouched(db, u, t, n, longrun, ttl); }
    FitsAfter(db.stages, AddNote(db, t, n, longrun, ttl).stages, u, db.tasks[u].status);
  }

  lemma NoteKeepsTasks(db: DB, t: TaskId, n: NodeId, longrun: bool, ttl: nat)
    requires Consistent(db)
    ensures TasksOk(AddNote(db, t, n, longrun, ttl))
  {
    assert Evolved(db.stages, AddNote(db, t, n, longrun, ttl).stages);
    forall u | u in db.tasks
      ensures u in AddNote(db, t, n, longrun, ttl).tasks && TaskOk(AddNote(db, t, n, longrun, ttl), u)
    {
      NotedTaskOk(db, t, n, longrun, ttl, u);
    }
  }

  lemma NoteLeavesUntouched(db: DB, u: TaskId, t: TaskId, n: NodeId, longrun: bool, ttl: nat)
    requires StagesOk(db) && Untouched(db.stages, u)
    ensures Untouched(AddNote(db, t, n, longrun, ttl).stages, u)
  {
    forall s | s in db.stages && db.stages[s].task == u
      ensures NotedRow(db.stages[s], t, n, longrun, db.clock, ttl) == db.stages[s]
    {
      assert StageOk(db, s);
    }
  }

  lemma CompleteKeepsStages(db: DB, s: StageId, n: NodeId)
    requires Consistent(db)
    ensures StagesOk(CompleteStage(db, s, n))
  {
    var db' := CompleteStage(db, s, n);
    if Completable(db, s, n) {
      assert Widened(db, db');
      forall r | r in db'.stages ensures StageOk(db', r) {
        assert StageOk(db, r);
        RefsAfter(db, db', db.stages[r]);
      }
    }
  }

  lemma CompleteEvolves(db: DB, s: StageId, n: NodeId)
    requires StagesOk(db) && Completable(db, s, n)
    ensures var after := CompleteStage(db, s, n);
      && Evolved(db.stages, after.stages)
      && after.tasks.Keys == db.tasks.Keys && db.stages[s].task in db.tasks
      && SomeCompleted(after.stages, db.stages[s].task)
  {
    assert StageOk(db, s);
    assert s in CompleteStage(db, s, n).stages;
  }

  /** Task `u` after stage `s` is completed, whether this completes it or not. */
  lemma CompletedTaskOk(db: DB, s: StageId, n: NodeId, u: TaskId)
    requires Completable(db, s, n) && u in db.tasks && TaskOk(db, u)
    requires Evolved(db.stages, CompleteStage(db, s, n).stages)
    requires SomeCompleted(CompleteStage(db, s, n).stages, db.stages[s].task)
    ensures u in CompleteStage(db, s, n).tasks && TaskOk(CompleteStage(db, s, n), u)
  {
    var db' := CompleteStage(db, s, n);
    if db'.tasks[u].status == db.tasks[u].status {
      FitsAfter(db.stages, db'.stages, u, db.tasks[u].status);
    }
  }

  lemma CompleteKeepsTasks(db: DB, s: StageId, n: NodeId)
    requires Consistent(db)
    ensures TasksOk(CompleteStage(db, s, n))
  {
    if Completable(db, s, n) {
      CompleteEvolves(db, s, n);
      forall u | u in db.tasks ensures u in CompleteStage(db, s, n).tasks && TaskOk(CompleteStage(db, s, n), u) {
        CompletedTaskOk(db, s, n, u);
      }
      forall u | u !in db.tasks ensures Silent(CompleteStage(db, s, n).events, u) {
        assert Silent(db.events, u);
      }
    }
  }

  // ---- Sweeps ---------------------------------------------------------------------------

  lemma PolicyKeeps(db: DB, stages: map<StageId, Stage>, lost: set<TaskId>)
    requires TasksOk(db) && Evolved(db.stages, stages)
    requires forall t | t in lost :: t in db.tasks && !TaskTerminal(db.tasks[t].status) && SomeFailed(stages, t)
    requires forall t | t in db.tasks && db.tasks[t].status.Waiting? && t !in lost :: Untouched(stages, t)
    ensures TasksOk(LoseTasks(db.(stages := stages), lost))
  {
    var db' := LoseTasks(db.(stages := stages), lost);
    forall t | t in db'.tasks ensures TaskOk(db', t) {
      assert TaskOk(db, t);
      assert TaskFailed(t) in (set u | u in lost :: TaskFailed(u)) <==> t in lost;
      if t !in lost {
        FitsAfter(db.stages, stages, t, db.tasks[t].status);
      }
    }
    forall t | t !in db'.tasks ensures Silent(db'.events, t) {
      assert Silent(db.events, t);
      assert t !in lost;
    }
  }

  lemma PolicyKeepsStages(db: DB, stages: map<StageId, Stage>, lost: set<TaskId>)
    requires forall s | s in stages :: RefsOk(db, stages[s]) && ColumnsOk(stages[s], db.clock)
    ensures StagesOk(LoseTasks(db.(stages := stages), lost))
  {
    var db' := LoseTasks(db.(stages := stages), lost);
    assert Widened(db, db');
    forall s | s in db'.stages ensures StageOk(db', s) {
      RefsAfter(db, db', stages[s]);
    }
  }

  lemma ReleasedRowOk(db: DB, st: Stage, row: ClaimRow, maxRetries: nat)
    requires RefsOk(db, st) && ColumnsOk(st, db.clock)
    ensures RefsOk(db, ReleasedRow(st, row, maxRetries)) && ColumnsOk(ReleasedRow(st, row, maxRetries), db.clock)
  {
  }

  lemma ReleaseKeepsRows(db: DB, rows: map<StageId, ClaimRow>, maxRetries: nat)
    requires StagesOk(db)
    ensures var stages := ReleaseStages(db.stages, rows, maxRetries);
      && Evolved(db.stages, stages)
      && forall s | s in stages :: RefsOk(db, stages[s]) && ColumnsOk(stages[s], db.clock)
  {
    var stages := ReleaseStages(db.stages, rows, maxRetries);
    forall s | s in stages ensures RefsOk(db, stages[s]) && ColumnsOk(stages[s], db.clock) {
      assert StageOk(db, s);
      if s in rows { ReleasedRowOk(db, db.stages[s], rows[s], maxRetries); }
    }
  }

  lemma ReleaseLeavesUntouched(stages: map<StageId, Stage>, rows: map<StageId, ClaimRow>, maxRetries: nat, t: TaskId)
    requires Untouched(stages, t)
    ensures Untouched(ReleaseStages(stages, rows, maxRetries), t)
  {
  }

  lemma ReleaseKeeps(w: World, rows: map<StageId, ClaimRow>, maxRetries: nat)
    requires Consistent(w.db)
    ensures Consistent(ReleaseClaims(w.db, rows, maxRetries))
  {
    var db := w.db;
    var stages := ReleaseStages(db.stages, rows, maxRetries);
    var affected := NewlyFailed(db.stages, stages, db.tasks.Keys);
    var lost := BrokenTasks(db.(stages := stages), affected);
    ReleaseKeepsRows(db, rows, maxRetries);
    PolicyKeepsStages(db, stages, lost);
    forall t | t in db.tasks && db.tasks[t].status.Waiting? && t !in lost ensures Untouched(stages, t) {
      assert TaskOk(db, t);
      ReleaseLeavesUntouched(db.stages, rows, maxRetries, t);
    }
    PolicyKeeps(db, stages, lost);
  }

  lemma SweptRowOk(kind: Sweep, db: DB, st: Stage)
    requires RefsOk(db, st) && ColumnsOk(st, db.clock)
    ensures RefsOk(db, SweptRow(kind, st)) && ColumnsOk(SweptRow(kind, st), db.clock)
  {
  }

  lemma SweepKeepsRows(kind: Sweep, db: DB, rows: set<StageId>)
    requires Consistent(db)
    ensures Evolved(db.stages, SweepStages(kind, db.stages, rows))
    ensures forall s | s in db.stages ::
      RefsOk(db, SweepStages(kind, db.stages, rows)[s]) && ColumnsOk(SweepStages(kind, db.stages, rows)[s], db.clock)
  {
    forall s | s in db.stages
      ensures RefsOk(db, SweepStages(kind, db.stages, rows)[s])
      ensures ColumnsOk(SweepStages(kind, db.stages, rows)[s], db.clock)
    {
      assert StageOk(db, s);
      SweptRowOk(kind, db, db.stages[s]);
    }
  }

  /** A waiting task stays untouched unless one of its pending stages has just failed. */
  lemma SweepLeavesUntouched(kind: Sweep, db: DB, rows: set<StageId>, t: TaskId)
    requires t in db.tasks && Untouched(db.stages, t)
    ensures var stages := SweepStages(kind, db.stages, rows);
      Untouched(stages, t) || (kind.Uncovered? && t in NewlyFailed(db.stages, stages, db.tasks.Keys))
  {
    var stages := SweepStages(kind, db.stages, rows);
    if !Untouched(stages, t) {
      var s :| s in stages && stages[s].task == t && !(stages[s].status.Pending? && stages[s].retryCount == 0);
      assert s in db.stages;
    }
  }

  lemma SweepKeeps(kind: Sweep, db: DB, rows: set<StageId>)
    requires Consistent(db)
    ensures Consistent(SweepRows(kind, db, rows))
  {
    var stages := SweepStages(kind, db.stages, rows);
    var affected := NewlyFailed(db.stages, stages, db.tasks.Keys);
    var lost := match kind
      case Uncovered => BrokenTasks(db.(stages := stages), affected)
      case NodeOffline => DoneTasks(db.(stages := stages), affected, {Completed, Failed})
      case _ => DoneTasks(db.(stages := stages), affected, {Failed});
    assert SweepRows(kind, db, rows) == LoseTasks(db.(stages := stages), lost);
    SweepKeepsRows(kind, db, rows);
    PolicyKeepsStages(db, stages, lost);
    forall t | t in db.tasks && db.tasks[t].status.Waiting? && t !in lost ensures Untouched(stages, t) {
      assert TaskOk(db, t);
      SweepLeavesUntouched(kind, db, rows, t);
    }
    PolicyKeeps(db, stages, lost);
  }

  lemma NodesKeep(db: DB, nodes: map<NodeId, Node>)
    requires Consistent(db) && db.nodes.Keys <= nodes.Keys
    ensures Consistent(db.(nodes := nodes))
  {
    var db' := db.(nodes := nodes);
    forall s | s in db'.stages ensures StageOk(db', s) {
      assert StageOk(db, s);
    }
    forall t | t in db'.tasks ensures TaskOk(db', t) {
      assert TaskOk(db, t);
    }
  }

  // ---- Deletion -------------------------------------------------------------------------

  ghost function Disowned(db: DB, n: NodeId): DB {
    db.(tasks := map t | t in db.tasks ::
          if db.tasks[t].owner == Some(n) then db.tasks[t].(owner := None) else db.tasks[t],
        nodes := db.nodes - {n})
  }

  ghost function Detached(db: DB, n: NodeId): map<StageId, Stage> {
    map s | s in db.stages :: DetachedRow(db.stages[s], n)
  }

  lemma DisownedTasks(db: DB, n: NodeId)
    requires TasksOk(db)
    ensures TasksOk(Disowned(db, n))
  {
    var db' := Disowned(db, n);
    forall t | t in db'.tasks ensures TaskOk(db', t) {
      assert TaskOk(db, t);
    }
  }

  lemma DetachedRowOk(db: DB, n: NodeId, st: Stage)
    requires RefsOk(db, st) && ColumnsOk(st, db.clock)
    ensures RefsOk(Disowned(db, n), DetachedRow(st, n)) && ColumnsOk(DetachedRow(st, n), db.clock)
  {}

  lemma DetachedRows(db: DB, n: NodeId)
    requires StagesOk(db)
    ensures Evolved(db.stages, Detached(db, n))
    ensures forall s | s in Detached(db, n) ::
      RefsOk(Disowned(db, n), Detached(db, n)[s]) && ColumnsOk(Detached(db, n)[s], db.clock)
  {
    forall s | s in Detached(db, n)
      ensures RefsOk(Disowned(db, n), Detached(db, n)[s]) && ColumnsOk(Detached(db, n)[s], db.clock)
    {
      assert StageOk(db, s);
      DetachedRowOk(db, n, db.stages[s]);
    }
  }

  /** Deleting is: clear the references, then fail the tasks of the stages that just failed. */
  ghost function LostByDelete(db: DB, n: NodeId): set<TaskId> {
    BrokenTasks(db.(stages := Detached(db, n)), NewlyFailed(db.stages, Detached(db, n), db.tasks.Keys))
  }

  lemma DeleteInTwo(db: DB, n: NodeId)
    requires n in db.nodes
    ensures DeleteNode(db, n) == LoseTasks(Disowned(db, n).(stages := Detached(db, n)), LostByDelete(db, n))
  {
    var mid := Disowned(db, n).(stages := Detached(db, n));
    var affected := NewlyFailed(db.stages, Detached(db, n), db.tasks.Keys);
    assert BrokenTasks(mid, affected) == LostByDelete(db, n);
    assert BrokenTasks(mid.(nodes := db.nodes), affected) == LostByDelete(db, n);
  }

  lemma DetachLeavesUntouched(db: DB, n: NodeId, t: TaskId)
    requires Untouched(db.stages, t)
    ensures Untouched(Detached(db, n), t)
  {}

  lemma DeleteKeepsTasks(db: DB, n: NodeId)
    requires TasksOk(db) && Evolved(db.stages, Detached(db, n))
    ensures TasksOk(LoseTasks(Disowned(db, n).(stages := Detached(db, n)), LostByDelete(db, n)))
  {
    var mid, stages, lost := Disowned(db, n), Detached(db, n), LostByDelete(db, n);
    DisownedTasks(db, n);
    forall t | t in mid.tasks && mid.tasks[t].status.Waiting? && t !in lost ensures Untouched(stages, t) {
      assert TaskOk(db, t);
      DetachLeavesUntouched(db, n, t);
    }
    PolicyKeeps(mid, stages, lost);
  }

  lemma DeleteKeeps(db: DB, n: NodeId)
    requires Consistent(db) && n in db.nodes
    ensures Consistent(DeleteNode(db, n))
  {
    DeleteInTwo(db, n);
    DetachedRows(db, n);
    PolicyKeepsStages(Disowned(db, n), Detached(db, n), LostByDelete(db, n));
    DeleteKeepsTasks(db, n);
  }

  // ---- Creation and time ----------------------------------------------------------------

  lemma CreateKeeps(db: DB, t: TaskId, ids: seq<StageId>, req: TaskReq)
    requires Consistent(db)
    ensures Consistent(CreateTask(db, t, ids, req))
  {
    var db' := CreateTask(db, t, ids, req);
    if Insertable(db, t, ids, req) {
      assert Widened(db, db');
      forall s | s in db'.stages ensures StageOk(db', s) {
        if s in db.stages {
          assert StageOk(db, s);
          RefsAfter(db, db', db.stages[s]);
        }
      }
      CreateKeepsTasks(db, t, ids, req);
    }
  }

  lemma CreateKeepsTasks(db: DB, t: TaskId, ids: seq<StageId>, req: TaskReq)
    requires Consistent(db) && Insertable(db, t, ids, req)
    ensures TasksOk(CreateTask(db, t, ids, req))
  {
    var db' := CreateTask(db, t, ids, req);
    forall u | u in db'.tasks ensures TaskOk(db', u) {
      CreatedFits(db, db', t, ids, u);
    }
  }

  lemma CreatedFits(db: DB, db': DB, t: TaskId, ids: seq<StageId>, u: TaskId)
    requires Consistent(db) && t !in db.tasks && u in db'.tasks && db'.tasks.Keys == db.tasks.Keys + {t}
    requires db'.nodes == db.nodes && db'.events == db.events
    requires forall v | v in db.tasks :: db'.tasks[v] == db.tasks[v]
    requires db'.tasks[t].status.Waiting? && (db'.tasks[t].owner.Some? ==> db'.tasks[t].owner.value in db.nodes)
    requires forall s | s in db.stages :: s in db'.stages && db'.stages[s] == db.stages[s]
    requires forall s | s in db'.stages && s !in db.stages ::
      db'.stages[s].task == t && db'.stages[s].status.Pending? && db'.stages[s].retryCount == 0
    ensures TaskOk(db', u)
  {
    assert forall s | s in db.stages :: StageOk(db, s);
    if u == t {
      assert Silent(db.events, t);
    } else {
      assert TaskOk(db, u);
      if db.tasks[u].status.Lost? {
        var s :| s in db.stages && db.stages[s].task == u && db.stages[s].status.Failed?;
        assert s in db'.stages;
      }
      if db.tasks[u].status.Done? {
        var s :| s in db.stages && db.stages[s].task == u && db.stages[s].status.Completed?;
        assert s in db'.stages;
      }
    }
  }

  lemma TickKeeps(db: DB, d: nat)
    requires Consistent(db)
    ensures Consistent(db.(clock := db.clock + d))
  {
    var db' := db.(clock := db.clock + d);
    forall s | s in db'.stages ensures StageOk(db', s) {
      assert StageOk(db, s);
    }
    forall t | t in db'.tasks ensures TaskOk(db', t) {
      assert TaskOk(db, t);
    }
  }

  /** With every owner registered, the branch for a deleted addressee changes nothing. */
  lemma AddressedBranchIsDead(db: DB, s: StageId)
    requires Consistent(db) && s in db.stages
    ensures db.stages[s].task in db.tasks && FailAddressedToGone(db, s) == db
  {
    assert StageOk(db, s);
    assert TaskOk(db, db.stages[s].task);
  }

  // ---- Every step -----------------------------------------------------------------------

  lemma ClaimStepKeeps(w: World, step: Step)
    requires Inv(w) && step.Claim?
    ensures Consistent(Apply(w, step).db)
  {
    if ClaimEnabled(w.db, step.s, step.n, step.names) {
      ClaimKeepsStages(w.db, step.s, step.n, step.names, step.ttl);
      ClaimKeepsTasks(w.db, step.s, step.n, step.names, step.ttl);
    }
  }

  lemma AddressedStepKeeps(w: World, step: Step)
    requires Inv(w) && step.FailAddressed?
    ensures Consistent(Apply(w, step).db)
  {
    if step.s in w.db.stages { AddressedBranchIsDead(w.db, step.s); }
  }

  lemma NoteStepKeeps(w: World, step: Step)
    requires Inv(w) && step.Note?
    ensures Consistent(Apply(w, step).db)
  {
    NoteKeepsStages(w.db, step.t, step.n, step.longrun, step.ttl);
    NoteKeepsTasks(w.db, step.t, step.n, step.longrun, step.ttl);
  }

  lemma CompleteStepKeeps(w: World, step: Step)
    requires Inv(w) && step.Complete?
    ensures Consistent(Apply(w, step).db)
  {
    CompleteKeepsStages(w.db, step.s, step.n);
    CompleteKeepsTasks(w.db, step.s, step.n);
  }

  lemma ReleaseStepKeeps(w: World, step: Step)
    requires Inv(w) && step.CommitRelease?
    ensures Consistent(Apply(w, step).db)
  {
    ReleaseKeeps(w, step.rows, step.maxRetries);
  }

  lemma SweepStepKeeps(w: World, step: Step)
    requires Inv(w) && step.CommitSweep?
    ensures Consistent(Apply(w, step).db)
  {
    SweepKeeps(step.kind, w.db, step.swept);
  }

  lemma OfflineStepKeeps(w: World, step: Step)
    requires Inv(w) && step.CommitOffline?
    ensures Consistent(Apply(w, step).db)
  {
    NodesKeep(w.db, NodesOff(w.db, step.gone).nodes);
    SweepKeeps(NodeOffline, NodesOff(w.db, step.gone), step.held);
  }

  lemma DeleteStepKeeps(w: World, step: Step)
    requires Inv(w) && step.Delete?
    ensures Consistent(Apply(w, step).db)
  {
    if step.n in w.db.nodes { DeleteKeeps(w.db, step.n); }
  }

  lemma CreateStepKeeps(w: World, step: Step)
    requires Inv(w) && step.Create?
    ensures Consistent(Apply(w, step).db)
  {
    CreateKeeps(w.db, step.t, step.ids, step.req);
  }

  lemma OtherStepKeeps(w: World, step: Step)
    requires Inv(w) && (step.Tick? || step.PutNode? || step.ObserveExpired?)
    ensures Consistent(Apply(w, step).db)
  {
    match step
    case Tick(d) => TickKeeps(w.db, d);
    case PutNode(n, node) => NodesKeep(w.db, w.db.nodes[n := node]);
    case ObserveExpired =>
  }

  lemma StepKeepsTables(w: World, step: Step)
    requires Inv(w)
    ensures Consistent(Apply(w, step).db)
  {
    match step
    case Claim(_, _, _, _) => ClaimStepKeeps(w, step);
    case FailAddressed(_) => AddressedStepKeeps(w, step);
    case Note(_, _, _, _) => NoteStepKeeps(w, step);
    case Complete(_, _) => CompleteStepKeeps(w, step);
    case CommitRelease(_, _) => ReleaseStepKeeps(w, step);
    case CommitSweep(_, _) => SweepStepKeeps(w, step);
    case CommitOffline(_, _) => OfflineStepKeeps(w, step);
    case Delete(_) => DeleteStepKeeps(w, step);
    case Create(_, _, _) => CreateStepKeeps(w, step);
    case _ => OtherStepKeeps(w, step);
  }
}
