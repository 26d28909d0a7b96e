/**
  The scheduler as a state machine. A step is one committed transaction. The claim-TTL
  sweep works from rows it selected earlier: `ObserveExpired` is such a SELECT, and a later
  `CommitRelease` may use any rows ever observed, so every interleaving of overlapping
  sweeps with every other transaction is a run. The status sweeps may name any rows at all:
  their guards look at the status alone, so nothing a snapshot says matters to them.
 */
module Machine {
  import opened Tables
  import opened Transactions

  datatype World = World(db: DB, seen: set<ClaimRow>)

  const START := World(EMPTY, {})

  datatype Step =
    | Tick(d: nat)
    | PutNode(n: NodeId, node: Node)
    | Create(t: TaskId, ids: seq<StageId>, req: TaskReq)
    | Claim(s: StageId, n: NodeId, names: set<string>, ttl: nat)
    | FailAddressed(s: StageId)
    | Note(t: TaskId, n: NodeId, longrun: bool, ttl: nat)
    | Complete(s: StageId, n: NodeId)
    | ObserveExpired
    | CommitRelease(rows: map<StageId, ClaimRow>, maxRetries: nat)
    | CommitSweep(kind: Sweep, swept: set<StageId>)
    | CommitOffline(gone: set<NodeId>, held: set<StageId>)
    | Delete(n: NodeId)

  ghost predicate ClaimEnabled(db: DB, s: StageId, n: NodeId, names: set<string>) {
    n in db.nodes && CanClaim(db.nodes[n].status) && Eligible(db, n, names, s)
  }

  ghost predicate RowsSeen(w: World, rows: map<StageId, ClaimRow>) {
    forall s | s in rows :: rows[s].stage == s && rows[s] in w.seen
  }

  ghost function Apply(w: World, step: Step): World {
    match step
    case Tick(d) => w.(db := w.db.(clock := w.db.clock + d))
    case PutNode(n, node) => w.(db := w.db.(nodes := w.db.nodes[n := node]))
    case Create(t, ids, req) =>
      w.(db := CreateTask(w.db, t, ids, req))
    case Claim(s, n, names, ttl) =>
      if ClaimEnabled(w.db, s, n, names) then w.(db := ClaimStage(w.db, s, n, ttl)) else w
    case FailAddressed(s) =>
      if s in w.db.stages && w.db.stages[s].task in w.db.tasks
      then w.(db := FailAddressedToGone(w.db, s)) else w
    case Note(t, n, longrun, ttl) => w.(db := AddNote(w.db, t, n, longrun, ttl))
    case Complete(s, n) => w.(db := CompleteStage(w.db, s, n))
    case ObserveExpired => w.(seen := w.seen + ExpiredRows(w.db).Values)
    case CommitRelease(rows, maxRetries) =>
      if RowsSeen(w, rows) then w.(db := ReleaseClaims(w.db, rows, maxRetries)) else w
    case CommitSweep(kind, swept) => w.(db := SweepRows(kind, w.db, swept))
    case CommitOffline(gone, held) => w.(db := MarkOffline(w.db, gone, held))
    case Delete(n) => w.(db := DeleteNode(w.db, n))
  }

  ghost function Exec(w: World, steps: seq<Step>): World
    decreases |steps|
  {
    if steps == [] then w else Exec(Apply(w, steps[0]), steps[1..])
  }
}
