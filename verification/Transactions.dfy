/**
  What each database transaction of the scheduler does to the tables, as functions of the
  tables and of the rows the transaction selected earlier. Every UPDATE is written with its
  guard: a row whose guard no longer holds is left alone.
 */
module Transactions {
  import opened Prelude
  import opened Tables

  // ---- Claim candidates -----------------------------------------------------------------

  function LowerChar(c: char): char {
    if 'A' <= c <= 'Z' then (c as int + 32) as char else c
  }

  function Lower(s: string): string {
    seq(|s|, i requires 0 <= i < |s| => LowerChar(s[i]))
  }

  /** A parameter Python treats as true: present and not empty. */
  predicate Given(o: Option<string>) {
    o.Some? && o.value != ""
  }

  function KindText(kind: Attr): string {
    match kind
    case Absent => ""
    case Null => "None"
    case Text(t) => t
  }

  /** The names of the JSON column, optionally of one type. */
  function DeclaredNames(declared: seq<Declared>, kind: Option<string>): set<string> {
    set i: nat |
      && i < |declared| && declared[i].Declared? && Given(declared[i].name)
      && (Given(kind) ==> Lower(KindText(declared[i].kind)) == Lower(kind.value))
      :: (if declared[i].Declared? && declared[i].name.Some? then declared[i].name.value else "")
  }

  /** The capability names a claim of this node may serve: the index first, the JSON column
      when the index holds no row, and only the requested name when one is requested. */
  function UsableNames(node: Node, capability: Option<string>, kind: Option<string>): set<string> {
    if Given(capability) then
      var offered := if node.index != map[] then node.index.Keys else DeclaredNames(node.declared, None);
      if capability.value in offered then {capability.value} else {}
    else if node.index == map[] then
      DeclaredNames(node.declared, kind)
    else if Given(kind) then
      set name | name in node.index && node.index[name].Some?
        && Lower(node.index[name].value) == Lower(kind.value)
    else
      node.index.Keys
  }

  ghost function CompletedAmong(stages: map<StageId, Stage>, deps: seq<StageId>): set<StageId> {
    set d | d in deps && d in stages && stages[d].status.Completed?
  }

  /** `COUNT(*) ... stage_id IN deps AND status = 'completed'` equals `len(deps)`. */
  ghost predicate DepsCompleted(stages: map<StageId, Stage>, deps: seq<StageId>) {
    |CompletedAmong(stages, deps)| == |deps|
  }

  ghost predicate Candidate(db: DB, n: NodeId, names: set<string>, s: StageId) {
    && s in db.stages
    && var st := db.stages[s];
    && st.task in db.tasks
    && st.status.Pending?
    && st.capability in names
    && (st.pin.None? || st.pin == Some(n))
  }

  ghost predicate Eligible(db: DB, n: NodeId, names: set<string>, s: StageId) {
    && Candidate(db, n, names, s)
    && DepsCompleted(db.stages, db.stages[s].dependsOn)
    && var owner := db.tasks[db.stages[s].task].owner;
    && (owner.None? || owner == Some(n))
  }

  /** Strictly earlier in `ORDER BY t.priority DESC, t.created_at ASC, s.sequence ASC`. */
  predicate Earlier(ta: Task, sa: Stage, tb: Task, sb: Stage) {
    || ta.priority > tb.priority
    || (ta.priority == tb.priority && ta.createdAt < tb.createdAt)
    || (ta.priority == tb.priority && ta.createdAt == tb.createdAt && sa.sequence < sb.sequence)
  }

  ghost predicate Precedes(db: DB, a: StageId, b: StageId)
    requires a in db.stages && db.stages[a].task in db.tasks
    requires b in db.stages && db.stages[b].task in db.tasks
  {
    Earlier(db.tasks[db.stages[a].task], db.stages[a], db.tasks[db.stages[b].task], db.stages[b])
  }

  /** Node `n` takes stage `s`; the only stage of an ownerless task makes `n` its owner. */
  ghost function ClaimStage(db: DB, s: StageId, n: NodeId, ttl: nat): DB
    requires s in db.stages && db.stages[s].task in db.tasks
  {
    var st := db.stages[s];
    var task := db.tasks[st.task];
    db.(
      stages := db.stages[s := st.(
        status := Claimed, claimedBy := Some(n),
        claimedAt := Some(db.clock), claimExpiresAt := Some(db.clock + ttl))],
      tasks := db.tasks[st.task := task.(
        owner := if |StagesOf(db.stages, st.task)| == 1 && task.owner.None? then Some(n) else task.owner,
        status := if task.status.Waiting? then Running else task.status)])
  }

  /** The claim loop's branch for a stage addressed to a node that is gone. */
  ghost function FailAddressedToGone(db: DB, s: StageId): DB
    requires s in db.stages && db.stages[s].task in db.tasks
  {
    var owner := db.tasks[db.stages[s].task].owner;
    if db.stages[s].status.Pending? && owner.Some? && owner.value !in db.nodes
    then db.(stages := db.stages[s := db.stages[s].(status := Failed)])
    else db
  }

  // ---- Notes and completion -------------------------------------------------------------

  function NotedRow(st: Stage, t: TaskId, n: NodeId, longrun: bool, now: Time, ttl: nat): Stage {
    if st.task == t && st.claimedBy == Some(n) then
      st.(lastNoteAt := Some(now), leaseExpiresAt := Some(now + ttl),
          status := if (longrun && st.status.Claimed?) || st.status.Orphaned? then Accepted else st.status)
    else
      st
  }

  ghost function AddNote(db: DB, t: TaskId, n: NodeId, longrun: bool, ttl: nat): DB {
    if t !in db.tasks then db
    else db.(stages := map s | s in db.stages :: NotedRow(db.stages[s], t, n, longrun, db.clock, ttl))
  }

  ghost predicate Completable(db: DB, s: StageId, n: NodeId) {
    && s in db.stages
    && db.stages[s].claimedBy == Some(n)
    && InHand(db.stages[s].status)
  }

  /** Every stage of `t` has a terminal status. */
  ghost predicate AllClosed(stages: map<StageId, Stage>, t: TaskId) {
    forall s | s in stages && stages[s].task == t :: StageTerminal(stages[s].status)
  }

  ghost function CompleteStage(db: DB, s: StageId, n: NodeId): DB {
    if !Completable(db, s, n) then db
    else
      var t := db.stages[s].task;
      var stages := db.stages[s := db.stages[s].(status := Completed)];
      if AllClosed(stages, t) && t in db.tasks && !TaskTerminal(db.tasks[t].status)
      then db.(stages := stages, tasks := db.tasks[t := db.tasks[t].(status := Done)],
               events := db.events + multiset{TaskCompleted(t)})
      else db.(stages := stages)
  }

  // ---- Task failure policies ------------------------------------------------------------

  ghost predicate SomeFailed(stages: map<StageId, Stage>, t: TaskId) {
    exists s :: s in stages && stages[s].task == t && stages[s].status.Failed?
  }

  ghost predicate AllIn(stages: map<StageId, Stage>, t: TaskId, done: set<StageStatus>) {
    forall s | s in stages && stages[s].task == t :: stages[s].status in done
  }

  /** The tasks with a stage that `after` shows failed and `before` does not. */
  ghost function NewlyFailed(before: map<StageId, Stage>, after: map<StageId, Stage>, ids: set<TaskId>): set<TaskId> {
    set t | t in ids && exists s :: s in before && s in after && after[s].task == t
                                    && after[s].status.Failed? && !before[s].status.Failed?
  }

  /** The still open tasks `f` become failed, one event each. */
  ghost function LoseTasks(db: DB, f: set<TaskId>): DB {
    db.(tasks := map t | t in db.tasks :: if t in f then db.tasks[t].(status := Lost) else db.tasks[t],
        events := db.events + multiset(set t | t in f :: TaskFailed(t)))
  }

  ghost predicate IsDone(db: DB, t: TaskId, done: set<StageStatus>) {
    t in db.tasks && !TaskTerminal(db.tasks[t].status) && AllIn(db.stages, t, done)
  }

  ghost predicate IsBroken(db: DB, t: TaskId) {
    t in db.tasks && !TaskTerminal(db.tasks[t].status) && SomeFailed(db.stages, t)
  }

  ghost function DoneTasks(db: DB, affected: set<TaskId>, done: set<StageStatus>): set<TaskId> {
    set t | t in affected && IsDone(db, t, done)
  }

  ghost function BrokenTasks(db: DB, affected: set<TaskId>): set<TaskId> {
    set t | t in affected && IsBroken(db, t)
  }

  /** `_fail_tasks_if_all_stages_done`: an affected open task whose every stage is in `done`. */
  ghost function LoseIfAllDone(db: DB, affected: set<TaskId>, done: set<StageStatus>): DB {
    LoseTasks(db, DoneTasks(db, affected, done))
  }

  /** `_fail_tasks_with_failed_critical_stages`: one failed stage fails an affected open task. */
  ghost function LoseIfAnyFailed(db: DB, affected: set<TaskId>): DB {
    LoseTasks(db, BrokenTasks(db, affected))
  }

  // ---- The claim-TTL sweep --------------------------------------------------------------

  /** A row of the sweep's SELECT: what it remembers of the claim it saw. */
  datatype ClaimRow = ClaimRow(stage: StageId, task: TaskId, retry: nat, claimedAt: Option<Time>)

  predicate Expired(st: Stage, now: Time) {
    st.status.Claimed? && st.claimExpiresAt.Some? && st.claimExpiresAt.value < now
  }

  ghost function ExpiredRows(db: DB): map<StageId, ClaimRow> {
    map s | s in db.stages && Expired(db.stages[s], db.clock) ::
      ClaimRow(s, db.stages[s].task, db.stages[s].retryCount, db.stages[s].claimedAt)
  }

  /** `WHERE stage_id = ? AND status = 'claimed' AND claimed_at = ?` (NULL equals nothing). */
  predicate SameClaim(st: Stage, row: ClaimRow) {
    st.status.Claimed? && row.claimedAt.Some? && st.claimedAt == row.claimedAt
  }

  function EndedRow(st: Stage, row: ClaimRow, status: StageStatus, retry: nat): Stage {
    if !SameClaim(st, row) then st
    else st.(status := status, retryCount := retry, claimedBy := None, claimedAt := None, claimExpiresAt := None)
  }

  function ReleasedRow(st: Stage, row: ClaimRow, maxRetries: nat): Stage {
    EndedRow(st, row, if row.retry + 1 > maxRetries then Failed else Pending, row.retry + 1)
  }

  ghost function ReleaseStages(stages: map<StageId, Stage>, rows: map<StageId, ClaimRow>,
                               maxRetries: nat): map<StageId, Stage> {
    map s | s in stages :: if s in rows then ReleasedRow(stages[s], rows[s], maxRetries) else stages[s]
  }

  ghost function ReleaseClaims(db: DB, rows: map<StageId, ClaimRow>, maxRetries: nat): DB {
    var stages := ReleaseStages(db.stages, rows, maxRetries);
    LoseIfAnyFailed(db.(stages := stages), NewlyFailed(db.stages, stages, db.tasks.Keys))
  }

  // ---- The status sweeps ----------------------------------------------------------------

  /** The sweeps whose UPDATE is guarded by the status alone. */
  datatype Sweep = Uncovered | Overdue | OrphanDead | WorkerDead | NodeOffline

  predicate Guard(kind: Sweep, st: StageStatus) {
    match kind
    case Uncovered => st.Pending?
    case Overdue => st.Accepted?
    case OrphanDead => st.Orphaned?
    case WorkerDead => st.Accepted? || st.Orphaned?
    case NodeOffline => st.Claimed?
  }

  function SweptRow(kind: Sweep, st: Stage): Stage {
    if !Guard(kind, st.status) then st
    else match kind
      case Overdue => st.(status := Orphaned)
      case NodeOffline => st.(status := Failed, claimedBy := None, claimedAt := None, claimExpiresAt := None)
      case _ => st.(status := Failed)
  }

  ghost function SweepStages(kind: Sweep, stages: map<StageId, Stage>, rows: set<StageId>): map<StageId, Stage> {
    map s | s in stages :: if s in rows then SweptRow(kind, stages[s]) else stages[s]
  }

  /** Only the uncovered-capability sweep applies the linear failure policy. */
  ghost function SweepRows(kind: Sweep, db: DB, rows: set<StageId>): DB {
    var stages := SweepStages(kind, db.stages, rows);
    var affected := NewlyFailed(db.stages, stages, db.tasks.Keys);
    match kind
    case Uncovered => LoseIfAnyFailed(db.(stages := stages), affected)
    case NodeOffline => LoseIfAllDone(db.(stages := stages), affected, {Completed, Failed})
    case _ => LoseIfAllDone(db.(stages := stages), affected, {Failed})
  }

  ghost function NodesOff(db: DB, gone: set<NodeId>): DB {
    db.(nodes := map n | n in db.nodes :: if n in gone then db.nodes[n].(status := Offline) else db.nodes[n])
  }

  ghost function MarkOffline(db: DB, gone: set<NodeId>, rows: set<StageId>): DB {
    SweepRows(NodeOffline, NodesOff(db, gone), rows)
  }

  // ---- Node deletion --------------------------------------------------------------------

  function DetachedRow(st: Stage, n: NodeId): Stage {
    var unpinned := if st.pin == Some(n) then st.(pin := None) else st;
    if st.claimedBy != Some(n) then unpinned
    else unpinned.(status := if st.status.Claimed? then Failed else st.status,
                   claimedBy := None, claimedAt := None, claimExpiresAt := None)
  }

  ghost function DeleteNode(db: DB, n: NodeId): DB {
    if n !in db.nodes then db
    else
      var stages := map s | s in db.stages :: DetachedRow(db.stages[s], n);
      var tasks := map t | t in db.tasks ::
        if db.tasks[t].owner == Some(n) then db.tasks[t].(owner := None) else db.tasks[t];
      var lost := LoseIfAnyFailed(db.(stages := stages, tasks := tasks),
                                  NewlyFailed(db.stages, stages, db.tasks.Keys));
      lost.(nodes := db.nodes - {n})
  }

  // ---- Task creation --------------------------------------------------------------------

  /** A submitted stage; `dependsOn` is `None` when the caller leaves `depends_on` out. */
  datatype StageReq = StageReq(capability: string, dependsOn: Option<seq<StageId>>, pin: Option<NodeId>)

  /** The arguments of `create_task` that the scheduler acts on. */
  datatype TaskReq = TaskReq(
    stages: seq<StageReq>,
    priority: int,
    owner: Option<NodeId>,
    sender: Option<NodeId>,
    key: Option<string>)

  /** The dependency list stored for stage `i`: the previous stage when the caller gave none. */
  function StoredDeps(reqs: seq<StageReq>, ids: seq<StageId>, i: nat): seq<StageId>
    requires i < |reqs| == |ids|
  {
    match reqs[i].dependsOn
    case Some(deps) => deps
    case None => if i > 0 then [ids[i - 1]] else []
  }

  function NewStage(t: TaskId, reqs: seq<StageReq>, ids: seq<StageId>, i: nat): Stage
    requires i < |reqs| == |ids|
  {
    Stage(t, i, reqs[i].capability, StoredDeps(reqs, ids, i), reqs[i].pin, Pending, None, None, None, 0, None, None)
  }

  ghost predicate Distinct(ids: seq<StageId>) {
    forall i, j :: 0 <= i < j < |ids| ==> ids[i] != ids[j]
  }

  ghost function Position(ids: seq<StageId>, s: StageId): (i: nat)
    requires s in ids
    ensures i < |ids| && ids[i] == s
  {
    var i: nat :| i < |ids| && ids[i] == s; i
  }

  /** The constraints of the INSERTs: fresh keys, an existing owner and existing pins. */
  ghost predicate Insertable(db: DB, t: TaskId, ids: seq<StageId>, req: TaskReq) {
    && t !in db.tasks
    && |ids| == |req.stages|
    && Distinct(ids)
    && (forall s | s in ids :: s !in db.stages)
    && (req.owner.Some? ==> req.owner.value in db.nodes)
    && (forall i | 0 <= i < |req.stages| :: req.stages[i].pin.Some? ==> req.stages[i].pin.value in db.nodes)
  }

  ghost function NewRows(t: TaskId, ids: seq<StageId>, reqs: seq<StageReq>): map<StageId, Stage>
    requires |ids| == |reqs|
  {
    map s | s in ids :: NewStage(t, reqs, ids, Position(ids, s))
  }

  ghost function CreateTask(db: DB, t: TaskId, ids: seq<StageId>, req: TaskReq): DB {
    if !Insertable(db, t, ids, req) then db
    else db.(
      tasks := db.tasks[t := Task(Waiting, req.priority, req.owner, req.sender, req.key, db.clock)],
      stages := db.stages + NewRows(t, ids, req.stages))
  }
}
