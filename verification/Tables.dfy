/**
  The two tables the scheduler works on (`tasks`, `task_stages`), the part of `nodes` its
  guards read, and the log of task-level events. A table is a map from primary key to row;
  columns that no guard reads (names, payloads, results, `updated_at`) are not modelled.
  Instants are integers; `Timestamps` shows that the stored text compares the same way.
 */
module Tables {
  import opened Prelude

  type NodeId = nat
  type TaskId = nat
  type StageId = nat
  type Time = int

  datatype NodeStatus = Unapproved | Approved | Online | Idle | Busy | Maintenance | Offline

  /** The AVAILABLE category: the node may claim. */
  predicate CanClaim(st: NodeStatus) {
    st.Approved? || st.Online? || st.Idle?
  }

  /** AVAILABLE or BUSY: the node sends heartbeats. */
  predicate IsLive(st: NodeStatus) {
    CanClaim(st) || st.Busy? || st.Maintenance?
  }

  /** A JSON value read with `dict.get`: the key may be missing or hold null. */
  datatype Attr = Absent | Null | Text(text: string)

  /** One entry of the JSON column `nodes.capabilities`, as the claim fallback reads it. */
  datatype Declared = Declared(name: Option<string>, kind: Attr) | Bare(text: string)

  /** `index` holds the node's rows of `node_capabilities`: capability name to type. */
  datatype Node = Node(
    status: NodeStatus,
    lastSeen: Option<Time>,
    isAdmin: bool,
    index: map<string, Option<string>>,
    declared: seq<Declared>)

  datatype TaskStatus = Waiting | Running | Done | Lost

  predicate TaskTerminal(st: TaskStatus) {
    st.Done? || st.Lost?
  }

  /** Statuses `pending`, `running`, `completed`, `failed` are `Waiting`, `Running`, `Done`, `Lost`. */
  datatype Task = Task(
    status: TaskStatus,
    priority: int,
    owner: Option<NodeId>,
    submittedBy: Option<NodeId>,
    key: Option<string>,
    createdAt: Time)

  datatype StageStatus = Pending | Claimed | Accepted | Orphaned | Completed | Failed

  predicate StageTerminal(st: StageStatus) {
    st.Completed? || st.Failed?
  }

  /** A worker holds the stage: the statuses `complete_stage` accepts. */
  predicate InHand(st: StageStatus) {
    st.Claimed? || st.Accepted? || st.Orphaned?
  }

  datatype Stage = Stage(
    task: TaskId,
    sequence: nat,
    capability: string,
    dependsOn: seq<StageId>,
    pin: Option<NodeId>,
    status: StageStatus,
    claimedBy: Option<NodeId>,
    claimedAt: Option<Time>,
    claimExpiresAt: Option<Time>,
    retryCount: nat,
    lastNoteAt: Option<Time>,
    leaseExpiresAt: Option<Time>)

  datatype Event = TaskCompleted(id: TaskId) | TaskFailed(id: TaskId)

  datatype DB = DB(
    clock: Time,
    nodes: map<NodeId, Node>,
    tasks: map<TaskId, Task>,
    stages: map<StageId, Stage>,
    events: multiset<Event>)

  const EMPTY := DB(0, map[], map[], map[], multiset{})

  ghost function StagesOf(stages: map<StageId, Stage>, t: TaskId): set<StageId> {
    set s | s in stages && stages[s].task == t
  }
}
