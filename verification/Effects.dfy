/**
  What each call of the scheduler does to the tables, told by the columns before and after it
  alone. The transactions are built from guards, selections and policies; an effect names none of
  these, so it holds the transaction to what its caller sees.
 */
module Effects {
  import opened Prelude
  import opened Tables
  import opened Transactions
  import opened Invariants
  import opened Lease
  import opened Policies
  import opened ClaimOrder
  import opened Dependencies

  // ---- Tasks that fail ------------------------------------------------------------------

  /** The tasks `f` become failed with one event each; no other task and no other event changes. */
  ghost predicate Loses(before: DB, after: DB, f: set<TaskId>) {
    && after.tasks.Keys == before.tasks.Keys
    && (forall t | t in before.tasks ::
          after.tasks[t] == if t in f then before.tasks[t].(status := Lost) else before.tasks[t])
    && (forall e: Event :: after.events[e] == before.events[e] + if e.TaskFailed? && e.id in f then 1 else 0)
  }

  /** The pending and running tasks with a stage that failed in between. */
  ghost function Struck(before: DB, after: DB): set<TaskId> {
    set t | t in before.tasks && before.tasks[t].status in {Waiting, Running}
      && exists s :: s in before.stages && s in after.stages && after.stages[s].task == t
                     && before.stages[s].status != Failed && after.stages[s].status == Failed
  }

  /** Those of them whose every stage now has one of the statuses. */
  ghost function StruckOut(before: DB, after: DB, done: set<StageStatus>): set<TaskId> {
    set t | t in Struck(before, after)
      && forall s :: s in after.stages && after.stages[s].task == t ==> after.stages[s].status in done
  }

  /** The rows that went from one status to another. */
  function Became(before: map<StageId, Stage>, after: map<StageId, Stage>, from: StageStatus,
                  into: StageStatus): set<StageId> {
    set s | s in before && s in after && before[s].status == from && after[s].status == into
  }

  /** Of the affected tasks, exactly the open ones whose every stage has one of the statuses fail. */
  ghost predicate FailedTogether(before: DB, after: DB, affected: set<TaskId>, done: set<StageStatus>,
                                 failed: set<TaskId>) {
    && (forall t :: t in failed <==>
          && t in affected && t in before.tasks && before.tasks[t].status in {Waiting, Running}
          && forall s | s in before.stages && before.stages[s].task == t :: before.stages[s].status in done)
    && after == before.(tasks := after.tasks, events := after.events) && Loses(before, after, failed)
  }

  /** Of the affected tasks, exactly the open ones with a failed stage fail. */
  ghost predicate FailedByOne(before: DB, after: DB, affected: set<TaskId>, failed: set<TaskId>) {
    && (forall t :: t in failed <==>
          && t in affected && t in before.tasks && before.tasks[t].status in {Waiting, Running}
          && exists s :: s in before.stages && before.stages[s].task == t && before.stages[s].status == Failed)
    && after == before.(tasks := after.tasks, events := after.events) && Loses(before, after, failed)
  }

  lemma DoneTasksFail(db: DB, affected: set<TaskId>, done: set<StageStatus>)
    ensures FailedTogether(db, LoseIfAllDone(db, affected, done), affected, done, DoneTasks(db, affected, done))
  {
    LoseTasksLoses(db, DoneTasks(db, affected, done));
  }

  lemma BrokenTasksFail(db: DB, affected: set<TaskId>)
    ensures FailedByOne(db, LoseIfAnyFailed(db, affected), affected, BrokenTasks(db, affected))
  {
    LoseTasksLoses(db, BrokenTasks(db, affected));
  }

  lemma LoseTasksLoses(db: DB, f: set<TaskId>)
    ensures Loses(db, LoseTasks(db, f), f)
  {
    var lost := set t | t in f :: TaskFailed(t);
    forall e: Event ensures e in lost <==> e.TaskFailed? && e.id in f {
    }
    assert LoseTasks(db, f).events == db.events + multiset(lost);
  }

  // ---- The claim-TTL sweep --------------------------------------------------------------

  /** Exactly the claimed stages whose claim expires before now end their claim: back to pending
      while retries are left, else failed, counted once. A failed stage fails its open task. */
  ghost predicate ReleaseEffect(before: DB, after: DB, maxRetries: nat) {
    && after.clock == before.clock && after.nodes == before.nodes && after.stages.Keys == before.stages.Keys
    && (forall s | s in before.stages ::
          var a := before.stages[s];
          after.stages[s] ==
            if a.status == Claimed && a.claimExpiresAt.Some? && a.claimExpiresAt.value < before.clock
            then a.(status := if a.retryCount < maxRetries then Pending else Failed, retryCount := a.retryCount + 1,
                    claimedBy := None, claimedAt := None, claimExpiresAt := None)
            else a)
    && Loses(before, after, Struck(before, after))
  }

  lemma CriticalLoses(before: DB, mid: DB)
    requires mid.tasks == before.tasks && mid.events == before.events && mid.stages.Keys == before.stages.Keys
    ensures var after := LoseIfAnyFailed(mid, NewlyFailed(before.stages, mid.stages, before.tasks.Keys));
      after == mid.(tasks := after.tasks, events := after.events) && Loses(before, after, Struck(before, after))
  {
    var affected := NewlyFailed(before.stages, mid.stages, before.tasks.Keys);
    var after := LoseIfAnyFailed(mid, affected);
    forall t ensures t in BrokenTasks(mid, affected) <==> t in Struck(before, after) {
      if t in affected {
        var s :| s in before.stages && s in mid.stages && mid.stages[s].task == t
          && mid.stages[s].status.Failed? && !before.stages[s].status.Failed?;
        assert SomeFailed(mid.stages, t);
      }
    }
    assert BrokenTasks(mid, affected) == Struck(before, after);
    LoseTasksLoses(mid, BrokenTasks(mid, affected));
  }

  lemma ReleasedRows(db: DB, maxRetries: nat, s: StageId)
    requires Consistent(db) && s in db.stages
    ensures var a := db.stages[s];
      ReleaseStages(db.stages, ExpiredRows(db), maxRetries)[s] ==
        if a.status == Claimed && a.claimExpiresAt.Some? && a.claimExpiresAt.value < db.clock
        then a.(status := if a.retryCount < maxRetries then Pending else Failed, retryCount := a.retryCount + 1,
                claimedBy := None, claimedAt := None, claimExpiresAt := None)
        else a
  {
    assert StageOk(db, s);
  }

  /** The sweep of one call has that effect on consistent tables. */
  lemma ReleaseHasEffect(db: DB, maxRetries: nat)
    requires Consistent(db)
    ensures ReleaseEffect(db, ReleaseClaims(db, ExpiredRows(db), maxRetries), maxRetries)
  {
    var mid := db.(stages := ReleaseStages(db.stages, ExpiredRows(db), maxRetries));
    CriticalLoses(db, mid);
    forall s | s in db.stages {
      ReleasedRows(db, maxRetries, s);
    }
  }

  // ---- Claiming -------------------------------------------------------------------------

  /** The two texts are the same up to the case of ASCII letters. */
  predicate SameFold(a: string, b: string) {
    |a| == |b| && forall i | 0 <= i < |a| ::
      || a[i] == b[i]
      || ('A' <= a[i] <= 'Z' && b[i] as int == a[i] as int + 32)
      || ('A' <= b[i] <= 'Z' && a[i] as int == b[i] as int + 32)
  }

  /** The node may serve that capability name in a claim for `capability` or of type `kind`: by its
      index rows, or by its JSON column when it has none. A null type in that column reads `None`. */
  predicate Offers(node: Node, capability: Option<string>, kind: Option<string>, name: string) {
    if capability.Some? && capability.value != "" then
      && name == capability.value
      && if node.index != map[] then name in node.index
         else exists i :: 0 <= i < |node.declared| && node.declared[i].Declared?
                          && node.declared[i].name == Some(name)
    else if node.index != map[] then
      && name in node.index
      && (kind.Some? && kind.value != "" ==>
            node.index[name].Some? && SameFold(node.index[name].value, kind.value))
    else
      && name != ""
      && exists i :: 0 <= i < |node.declared| && node.declared[i].Declared? && node.declared[i].name == Some(name)
           && (kind.Some? && kind.value != "" ==>
                 match node.declared[i].kind
                 case Absent => false
                 case Null => SameFold("None", kind.value)
                 case Text(text) => SameFold(text, kind.value))
  }

  /** Stage `s` may be claimed by node `n`: pending, of a capability the node offers, pinned to no
      other node and owned by no other, with every dependency completed and listed once. */
  ghost predicate MayTake(db: DB, n: NodeId, capability: Option<string>, kind: Option<string>, s: StageId)
    requires n in db.nodes
  {
    && s in db.stages
    && var st := db.stages[s];
    && st.status == Pending
    && Offers(db.nodes[n], capability, kind, st.capability)
    && (st.pin == None || st.pin == Some(n))
    && st.task in db.tasks
    && (db.tasks[st.task].owner == None || db.tasks[st.task].owner == Some(n))
    && (forall i | 0 <= i < |st.dependsOn| ::
          st.dependsOn[i] in db.stages && db.stages[st.dependsOn[i]].status == Completed)
    && (forall i, j | 0 <= i < j < |st.dependsOn| :: st.dependsOn[i] != st.dependsOn[j])
  }

  /** Stage `a` is served before `b`: by higher priority, then by the older task, then by position. */
  ghost predicate Ahead(db: DB, a: StageId, b: StageId)
    requires a in db.stages && db.stages[a].task in db.tasks && b in db.stages && db.stages[b].task in db.tasks
  {
    var ta, tb := db.tasks[db.stages[a].task], db.tasks[db.stages[b].task];
    || tb.priority < ta.priority
    || (tb.priority == ta.priority
        && (|| ta.createdAt < tb.createdAt
            || (ta.createdAt == tb.createdAt && db.stages[a].sequence < db.stages[b].sequence)))
  }

  /** The stage is claimed for `ttl`, a waiting task runs, and the claimer becomes the owner of an
      ownerless task that has no other stage; nothing else changes. */
  ghost predicate TakeEffect(before: DB, after: DB, n: NodeId, s: StageId, ttl: nat)
    requires s in before.stages && before.stages[s].task in before.tasks
  {
    var t := before.stages[s].task;
    var task := before.tasks[t];
    after == before.(
      stages := before.stages[s := before.stages[s].(
        status := Claimed, claimedBy := Some(n),
        claimedAt := Some(before.clock), claimExpiresAt := Some(before.clock + ttl))],
      tasks := before.tasks[t := task.(
        owner := if task.owner == None && (forall o | o in before.stages && before.stages[o].task == t :: o == s)
                 then Some(n) else task.owner,
        status := if task.status == Waiting then Running else task.status)])
  }

  /** A node that may not claim gets nothing. One that may takes a stage that none it may take is
      ahead of, and nothing exactly when there is none. */
  ghost predicate ClaimEffect(before: DB, after: DB, n: NodeId, capability: Option<string>, kind: Option<string>,
                              ttl: nat, r: Option<StageId>) {
    if n in before.nodes && before.nodes[n].status in {Approved, Online, Idle} then
      match r
      case None => after == before && forall s :: !MayTake(before, n, capability, kind, s)
      case Some(s) =>
        && MayTake(before, n, capability, kind, s)
        && TakeEffect(before, after, n, s, ttl)
        && forall other | MayTake(before, n, capability, kind, other) :: !Ahead(before, other, s)
    else r == None && after == before
  }

  lemma LowerIsFold(a: string, b: string)
    ensures Lower(a) == Lower(b) <==> SameFold(a, b)
  {
    if Lower(a) == Lower(b) {
      assert |Lower(a)| == |a| && |Lower(b)| == |b|;
      forall i | 0 <= i < |a|
        ensures LowerChar(a[i]) == LowerChar(b[i])
      {
        assert Lower(a)[i] == Lower(b)[i];
      }
    }
    if SameFold(a, b) {
      assert forall i | 0 <= i < |a| :: Lower(a)[i] == Lower(b)[i];
    }
  }

  lemma DeclaredNamesOffer(node: Node, kind: Option<string>, name: string)
    requires node.index == map[]
    ensures name in DeclaredNames(node.declared, kind) <==> Offers(node, None, kind, name)
  {
    forall i | 0 <= i < |node.declared| && node.declared[i].Declared? && Given(kind)
      ensures Lower(KindText(node.declared[i].kind)) == Lower(kind.value) <==>
        match node.declared[i].kind
        case Absent => false
        case Null => SameFold("None", kind.value)
        case Text(text) => SameFold(text, kind.value)
    {
      LowerIsFold(KindText(node.declared[i].kind), kind.value);
    }
  }

  lemma UsableNamesOffer(node: Node, capability: Option<string>, kind: Option<string>, name: string)
    ensures name in UsableNames(node, capability, kind) <==> Offers(node, capability, kind, name)
  {
    if Given(capability) {
      if node.index == map[] { DeclaredNamesOffer(node, None, name); }
    } else if node.index == map[] {
      DeclaredNamesOffer(node, kind, name);
    } else if Given(kind) && name in node.index && node.index[name].Some? {
      LowerIsFold(node.index[name].value, kind.value);
    }
  }

  lemma EligibleMayTake(db: DB, n: NodeId, capability: Option<string>, kind: Option<string>, s: StageId)
    requires n in db.nodes
    ensures Eligible(db, n, UsableNames(db.nodes[n], capability, kind), s) <==> MayTake(db, n, capability, kind, s)
  {
    if s in db.stages {
      UsableNamesOffer(db.nodes[n], capability, kind, db.stages[s].capability);
      CountTestMeans(db.stages, db.stages[s].dependsOn);
    }
  }

  lemma OnlyStageOf(stages: map<StageId, Stage>, s: StageId)
    requires s in stages
    ensures |StagesOf(stages, stages[s].task)| == 1 <==>
      forall o | o in stages && stages[o].task == stages[s].task :: o == s
  {
    var own := StagesOf(stages, stages[s].task);
    assert s in own;
    SmallerSubset({s}, own);
    if |own| == 1 {
      assert {s} == own;
      assert forall o | o in stages && stages[o].task == stages[s].task :: o in own;
    }
    if forall o | o in stages && stages[o].task == stages[s].task :: o == s {
      assert own == {s};
    }
  }

  /** The best claim is such an outcome. */
  lemma ClaimHasEffect(db: DB, after: DB, n: NodeId, capability: Option<string>, kind: Option<string>, ttl: nat,
                       r: Option<StageId>)
    requires n in db.nodes && CanClaim(db.nodes[n].status)
    requires BestClaim(db, n, UsableNames(db.nodes[n], capability, kind), ttl, after, r)
    ensures ClaimEffect(db, after, n, capability, kind, ttl, r)
  {
    forall s ensures
      Eligible(db, n, UsableNames(db.nodes[n], capability, kind), s) <==> MayTake(db, n, capability, kind, s)
    {
      EligibleMayTake(db, n, capability, kind, s);
    }
    if r.Some? {
      OnlyStageOf(db.stages, r.value);
    }
  }

  // ---- Completion and notes -------------------------------------------------------------

  /** Exactly the claimant of a claimed, accepted or orphaned stage completes it. Its task completes
      with one event when it was open and every other stage of it is closed. */
  ghost predicate CompleteEffect(before: DB, after: DB, s: StageId, n: NodeId, completed: bool) {
    && (completed <==> s in before.stages && before.stages[s].claimedBy == Some(n)
                       && before.stages[s].status in {Claimed, Accepted, Orphaned})
    && if !completed then after == before
       else
         var t := before.stages[s].task;
         var last := t in before.tasks && before.tasks[t].status in {Waiting, Running}
           && forall o | o in before.stages && before.stages[o].task == t && o != s ::
                before.stages[o].status in {Completed, Failed};
         after == before.(
           stages := before.stages[s := before.stages[s].(status := Completed)],
           tasks := if last then before.tasks[t := before.tasks[t].(status := Done)] else before.tasks,
           events := if last then before.events + multiset{TaskCompleted(t)} else before.events)
  }

  lemma CompleteHasEffect(db: DB, s: StageId, n: NodeId)
    ensures CompleteEffect(db, CompleteStage(db, s, n), s, n, Completable(db, s, n))
  {
    if Completable(db, s, n) {
      var t := db.stages[s].task;
      var stages := db.stages[s := db.stages[s].(status := Completed)];
      if AllClosed(stages, t) {
        forall o | o in db.stages && db.stages[o].task == t && o != s
          ensures db.stages[o].status in {Completed, Failed}
        {
          assert stages[o] == db.stages[o];
        }
      }
    }
  }

  /** A note on a known task is written on the stages of that task that its author holds, whatever
      their status; it takes up a claimed one when it is a long-run note, and an orphaned one. */
  ghost predicate NoteEffect(before: DB, after: DB, t: TaskId, n: NodeId, longrun: bool, ttl: nat) {
    && after == before.(stages := after.stages)
    && after.stages.Keys == before.stages.Keys
    && forall s | s in before.stages ::
         var a := before.stages[s];
         after.stages[s] ==
           if t in before.tasks && a.task == t && a.claimedBy == Some(n)
           then a.(lastNoteAt := Some(before.clock), leaseExpiresAt := Some(before.clock + ttl),
                   status := if a.status == Orphaned || (a.status == Claimed && longrun) then Accepted else a.status)
           else a
  }

  lemma NoteHasEffect(db: DB, t: TaskId, n: NodeId, longrun: bool, ttl: nat)
    ensures NoteEffect(db, AddNote(db, t, n, longrun, ttl), t, n, longrun, ttl)
  {
  }

  // ---- The lease sweep ------------------------------------------------------------------

  /** The claimant of a row is missing, of a status that sends no heartbeats, or silent too long. */
  predicate Gone(nodes: map<NodeId, Node>, a: Stage, now: Time, grace: nat) {
    && a.claimedBy.Some?
    && var n := a.claimedBy.value;
       n in nodes && nodes[n].status in {Approved, Online, Idle, Busy, Maintenance} ==>
         nodes[n].lastSeen.Some? && nodes[n].lastSeen.value < now - grace
  }

  /** The lease of an accepted row has run out. */
  predicate Overran(a: Stage, now: Time) {
    a.status == Accepted && a.leaseExpiresAt.Some? && a.leaseExpiresAt.value < now
  }

  /** The row was last noted too long ago to be kept as orphaned. */
  predicate Unheard(a: Stage, now: Time, orphanedTtl: nat) {
    a.lastNoteAt.None? || a.lastNoteAt.value < now - orphanedTtl
  }

  /** An accepted or orphaned stage fails when its claimant is gone, or when it is orphaned or overran
      its lease and was last noted too long ago; an accepted one that only overran its lease is
      orphaned; any other row stays. An open task fails when one of its stages did and all have. */
  ghost predicate LeaseEffect(before: DB, after: DB, orphanedTtl: nat, grace: nat) {
    && after.clock == before.clock && after.nodes == before.nodes && after.stages.Keys == before.stages.Keys
    && (forall s | s in before.stages :: var a := before.stages[s];
          after.stages[s] == a.(status :=
            if a.status !in {Accepted, Orphaned} then a.status
            else if Gone(before.nodes, a, before.clock, grace) then Failed
            else if a.status == Accepted && !Overran(a, before.clock) then Accepted
            else if Unheard(a, before.clock, orphanedTtl) then Failed
            else Orphaned))
    && Loses(before, after, StruckOut(before, after, {Failed}))
  }

  lemma LeasedRows(db: DB, orphanedTtl: nat, grace: nat, s: StageId)
    requires s in db.stages
    ensures var a := db.stages[s];
      && s in EnforceLeases(db, orphanedTtl, grace).stages
      && EnforceLeases(db, orphanedTtl, grace).stages[s] == a.(status :=
           if a.status !in {Accepted, Orphaned} then a.status
           else if Gone(db.nodes, a, db.clock, grace) then Failed
           else if a.status == Accepted && !Overran(a, db.clock) then Accepted
           else if Unheard(a, db.clock, orphanedTtl) then Failed
           else Orphaned)
  {
    EnforceRow(db, orphanedTtl, grace, s);
  }

  lemma FreshlyLostAreStruck(db: DB, after: DB)
    requires after.stages.Keys == db.stages.Keys
    requires forall s | s in db.stages :: after.stages[s].task == db.stages[s].task
    ensures FreshlyLost(db, db.stages, after.stages) == StruckOut(db, after, {Failed})
  {
    forall t ensures t in FreshlyLost(db, db.stages, after.stages) <==> t in StruckOut(db, after, {Failed}) {
      if t in FreshlyLost(db, db.stages, after.stages) {
        var s :| s in db.stages && db.stages[s].task == t && db.stages[s].status !in {Failed};
        assert after.stages[s].status in {Failed};
        assert t in Struck(db, after);
      }
    }
  }

  lemma LeaseTasks(db: DB, orphanedTtl: nat, grace: nat)
    ensures var after := EnforceLeases(db, orphanedTtl, grace);
      && after == db.(stages := after.stages, tasks := after.tasks, events := after.events)
      && after.stages.Keys == db.stages.Keys
      && Loses(db, after, FreshlyLost(db, db.stages, after.stages))
  {
    var one := SweepRows(Overdue, db, OverdueRows(db));
    var two := SweepRows(OrphanDead, one, OrphanDeadRows(one, orphanedTtl));
    var s1 := SweepStages(Overdue, db.stages, OverdueRows(db));
    var s2 := SweepStages(OrphanDead, s1, OrphanDeadRows(one, orphanedTtl));
    var s3 := SweepStages(WorkerDead, s2, WorkerDeadRows(two, grace));
    ThreeSweepsLose(db, OverdueRows(db), OrphanDeadRows(one, orphanedTtl), WorkerDeadRows(two, grace), s1, s3);
    LoseTasksLoses(db.(stages := s3), FreshlyLost(db, db.stages, s3));
  }

  lemma LeaseHasEffect(db: DB, orphanedTtl: nat, grace: nat)
    ensures LeaseEffect(db, EnforceLeases(db, orphanedTtl, grace), orphanedTtl, grace)
  {
    var after := EnforceLeases(db, orphanedTtl, grace);
    LeaseTasks(db, orphanedTtl, grace);
    forall s | s in db.stages {
      LeasedRows(db, orphanedTtl, grace, s);
    }
    FreshlyLostAreStruck(db, after);
  }

  /** What the call returns: the stages whose lease overran, those then or already orphaned that were
      last noted too long ago, and the others whose claimant is gone. */
  ghost predicate LeaseLists(before: DB, orphanedTtl: nat, grace: nat, orphaned: set<StageId>,
                             silent: set<StageId>, absent: set<StageId>) {
    && (forall s :: s in orphaned <==> s in before.stages && Overran(before.stages[s], before.clock))
    && (forall s :: s in silent <==>
          && s in before.stages
          && (before.stages[s].status == Orphaned || Overran(before.stages[s], before.clock))
          && Unheard(before.stages[s], before.clock, orphanedTtl))
    && (forall s :: s in absent <==>
          && s in before.stages && before.stages[s].status in {Accepted, Orphaned} && s !in silent
          && Gone(before.nodes, before.stages[s], before.clock, grace))
  }

  lemma OverduesAre(db: DB, s: StageId)
    ensures s in OverdueRows(db) <==> s in db.stages && Overran(db.stages[s], db.clock)
  {
  }

  lemma SilentsAre(db: DB, orphanedTtl: nat, s: StageId)
    ensures s in OrphanDeadRows(SweepRows(Overdue, db, OverdueRows(db)), orphanedTtl) <==>
      && s in db.stages
      && (db.stages[s].status == Orphaned || Overran(db.stages[s], db.clock))
      && Unheard(db.stages[s], db.clock, orphanedTtl)
  {
    SweepShape(Overdue, db, OverdueRows(db));
    if s in db.stages { AfterOverdue(db, s); }
  }

  lemma AbsentsAre(db: DB, orphanedTtl: nat, grace: nat, s: StageId)
    ensures var one := SweepRows(Overdue, db, OverdueRows(db));
      var silent := OrphanDeadRows(one, orphanedTtl);
      s in WorkerDeadRows(SweepRows(OrphanDead, one, silent), grace) <==>
        && s in db.stages && db.stages[s].status in {Accepted, Orphaned} && s !in silent
        && Gone(db.nodes, db.stages[s], db.clock, grace)
  {
    var one := SweepRows(Overdue, db, OverdueRows(db));
    SweepShape(Overdue, db, OverdueRows(db));
    SweepShape(OrphanDead, one, OrphanDeadRows(one, orphanedTtl));
    if s in db.stages {
      AfterOverdue(db, s);
      AfterSilent(one, orphanedTtl, s);
    }
  }

  lemma LeaseListsAre(db: DB, orphanedTtl: nat, grace: nat)
    ensures var one := SweepRows(Overdue, db, OverdueRows(db));
      var two := SweepRows(OrphanDead, one, OrphanDeadRows(one, orphanedTtl));
      LeaseLists(db, orphanedTtl, grace, OverdueRows(db), OrphanDeadRows(one, orphanedTtl), WorkerDeadRows(two, grace))
  {
    var one := SweepRows(Overdue, db, OverdueRows(db));
    var silent := OrphanDeadRows(one, orphanedTtl);
    var absent := WorkerDeadRows(SweepRows(OrphanDead, one, silent), grace);
    forall s ensures s in OverdueRows(db) <==> s in db.stages && Overran(db.stages[s], db.clock) {
      OverduesAre(db, s);
    }
    forall s ensures s in silent <==>
      && s in db.stages
      && (db.stages[s].status == Orphaned || Overran(db.stages[s], db.clock))
      && Unheard(db.stages[s], db.clock, orphanedTtl)
    {
      SilentsAre(db, orphanedTtl, s);
    }
    forall s ensures s in absent <==>
      && s in db.stages && db.stages[s].status in {Accepted, Orphaned} && s !in silent
      && Gone(db.nodes, db.stages[s], db.clock, grace)
    {
      AbsentsAre(db, orphanedTtl, grace, s);
    }
  }

  // ---- Stages nobody can take -----------------------------------------------------------

  /** A pending stage fails when no node of a status that sends heartbeats has its capability in the
      index, or when it is pinned to a node that does not exist; so does its open task. */
  ghost predicate OrphansEffect(before: DB, after: DB) {
    && after.clock == before.clock && after.nodes == before.nodes && after.stages.Keys == before.stages.Keys
    && (forall s | s in before.stages :: var a := before.stages[s];
          after.stages[s] ==
            if && a.status == Pending
               && (|| (a.pin.Some? && a.pin.value !in before.nodes)
                   || forall n | n in before.nodes && a.capability in before.nodes[n].index ::
                        before.nodes[n].status in {Unapproved, Offline})
            then a.(status := Failed) else a)
    && Loses(before, after, Struck(before, after))
  }

  lemma OrphansHaveEffect(db: DB)
    ensures OrphansEffect(db, FailOrphans(db))
  {
    var rows := DeadPinRows(db) + UncoveredRows(db);
    var mid := db.(stages := SweepStages(Uncovered, db.stages, rows));
    CriticalLoses(db, mid);
    forall s | s in db.stages
      ensures Covered(db, db.stages[s].capability) <==>
        !forall n | n in db.nodes && db.stages[s].capability in db.nodes[n].index ::
          db.nodes[n].status in {Unapproved, Offline}
    {
    }
  }

  lemma OrphansBecomeFailed(db: DB)
    ensures DeadPinRows(db) + UncoveredRows(db) == Became(db.stages, FailOrphans(db).stages, Pending, Failed)
  {
    var rows := DeadPinRows(db) + UncoveredRows(db);
    SweepShape(Uncovered, db, rows);
    assert forall s | s in db.stages ::
        FailOrphans(db).stages[s] == if s in rows then SweptRow(Uncovered, db.stages[s]) else db.stages[s];
  }

  // ---- Nodes that go --------------------------------------------------------------------

  /** Exactly the nodes that send heartbeats, are no administrators and were last seen before the
      threshold go offline; the stages they have claimed fail and lose their claim. An open task
      fails when one of its stages did and all are closed. */
  ghost predicate OfflineEffect(before: DB, after: DB, threshold: Time, gone: set<NodeId>) {
    && after.clock == before.clock && after.nodes.Keys == before.nodes.Keys && after.stages.Keys == before.stages.Keys
    && (forall n :: n in gone <==>
          && n in before.nodes && before.nodes[n].status !in {Unapproved, Offline} && !before.nodes[n].isAdmin
          && before.nodes[n].lastSeen.Some? && before.nodes[n].lastSeen.value < threshold)
    && (forall n | n in before.nodes ::
          after.nodes[n] == if n in gone then before.nodes[n].(status := Offline) else before.nodes[n])
    && (forall s | s in before.stages :: var a := before.stages[s];
          after.stages[s] ==
            if a.status == Claimed && a.claimedBy.Some? && a.claimedBy.value in gone
            then a.(status := Failed, claimedBy := None, claimedAt := None, claimExpiresAt := None) else a)
    && Loses(before, after, StruckOut(before, after, {Completed, Failed}))
  }

  lemma DoneLoses(before: DB, mid: DB, done: set<StageStatus>)
    requires mid.tasks == before.tasks && mid.events == before.events && mid.stages.Keys == before.stages.Keys
    ensures var after := LoseIfAllDone(mid, NewlyFailed(before.stages, mid.stages, before.tasks.Keys), done);
      && after == mid.(tasks := after.tasks, events := after.events)
      && Loses(before, after, StruckOut(before, after, done))
  {
    var affected := NewlyFailed(before.stages, mid.stages, before.tasks.Keys);
    var after := LoseIfAllDone(mid, affected, done);
    assert DoneTasks(mid, affected, done) == StruckOut(before, after, done);
    LoseTasksLoses(mid, DoneTasks(mid, affected, done));
  }

  lemma OfflineRows(db: DB, threshold: Time)
    ensures var gone := SilentNodes(db, threshold);
      var after := SweepStages(NodeOffline, db.stages, HeldRows(db.stages, gone));
      forall s | s in db.stages :: var a := db.stages[s];
        after[s] == if a.status == Claimed && a.claimedBy.Some? && a.claimedBy.value in gone
                    then a.(status := Failed, claimedBy := None, claimedAt := None, claimExpiresAt := None) else a
  {
  }

  lemma OfflineTasks(db: DB, gone: set<NodeId>, held: set<StageId>)
    ensures var after := MarkOffline(db, gone, held);
      && after == NodesOff(db, gone).(stages := SweepStages(NodeOffline, db.stages, held),
                                      tasks := after.tasks, events := after.events)
      && Loses(db, after, StruckOut(db, after, {Completed, Failed}))
  {
    var off := NodesOff(db, gone);
    var after := MarkOffline(db, gone, held);
    DoneLoses(off, off.(stages := SweepStages(NodeOffline, db.stages, held)), {Completed, Failed});
    assert Struck(db, after) == Struck(off, after);
    assert StruckOut(db, after, {Completed, Failed}) == StruckOut(off, after, {Completed, Failed});
  }

  lemma OfflineHasEffect(db: DB, threshold: Time)
    ensures var gone := SilentNodes(db, threshold);
      OfflineEffect(db, MarkOffline(db, gone, HeldRows(db.stages, gone)), threshold, gone)
  {
    var gone := SilentNodes(db, threshold);
    OfflineRows(db, threshold);
    OfflineTasks(db, gone, HeldRows(db.stages, gone));
  }

  /** The node's row goes. No stage stays pinned to it, no task owned by it, no row claimed by it; a
      stage it had claimed fails, and with it the open task. */
  ghost predicate DeleteEffect(before: DB, after: DB, n: NodeId) {
    && after.clock == before.clock && after.nodes == before.nodes - {n} && after.stages.Keys == before.stages.Keys
    && (forall s | s in before.stages :: var a := before.stages[s]; var b := after.stages[s];
          if a.claimedBy == Some(n)
          then b == a.(pin := b.pin, status := if a.status == Claimed then Failed else a.status,
                       claimedBy := None, claimedAt := None, claimExpiresAt := None)
          else b == a.(pin := b.pin))
    && (forall s | s in before.stages ::
          after.stages[s].pin == if before.stages[s].pin == Some(n) then None else before.stages[s].pin)
    && after.tasks.Keys == before.tasks.Keys
    && (forall t | t in before.tasks ::
          after.tasks[t] == before.tasks[t].(
            owner := if before.tasks[t].owner == Some(n) then None else before.tasks[t].owner,
            status := if t in Struck(before, after) then Lost else before.tasks[t].status))
    && (forall e: Event ::
          after.events[e] == before.events[e] + if e.TaskFailed? && e.id in Struck(before, after) then 1 else 0)
  }

  lemma DeletedTasks(db: DB, n: NodeId)
    requires n in db.nodes
    ensures LostByDelete(db, n) == Struck(db, DeleteNode(db, n))
  {
    DeleteInTwo(db, n);
    var after := DeleteNode(db, n);
    assert after.stages == Detached(db, n);
    var newly := NewlyFailed(db.stages, Detached(db, n), db.tasks.Keys);
    forall t | t in newly ensures SomeFailed(Detached(db, n), t) {
      var s :| s in db.stages && s in Detached(db, n) && Detached(db, n)[s].task == t
        && Detached(db, n)[s].status.Failed? && !db.stages[s].status.Failed?;
    }
  }

  lemma DeleteHasEffect(db: DB, n: NodeId)
    requires n in db.nodes
    ensures DeleteEffect(db, DeleteNode(db, n), n)
  {
    DeletedTasks(db, n);
    DeleteInTwo(db, n);
    LoseTasksLoses(Disowned(db, n).(stages := Detached(db, n)), LostByDelete(db, n));
  }

  lemma HeldBecomeFailed(db: DB, n: NodeId)
    requires n in db.nodes
    ensures HeldRows(db.stages, {n}) == Became(db.stages, DeleteNode(db, n).stages, Claimed, Failed)
  {
    DeleteInTwo(db, n);
    assert DeleteNode(db, n).stages == Detached(db, n);
  }

  // ---- Creation -------------------------------------------------------------------------

  /** The constraints of the tables: a fresh task id, fresh stage ids without repetition, a
      registered owner if any, registered pins if any. */
  ghost predicate Fits(db: DB, t: TaskId, ids: seq<StageId>, req: TaskReq) {
    && t !in db.tasks
    && |ids| == |req.stages|
    && (forall i | 0 <= i < |ids| :: ids[i] !in db.stages)
    && (forall i, j | 0 <= i < j < |ids| :: ids[i] != ids[j])
    && (req.owner == None || req.owner.value in db.nodes)
    && (forall i | 0 <= i < |ids| :: req.stages[i].pin == None || req.stages[i].pin.value in db.nodes)
  }

  /** One waiting task and its pending stages in the order submitted, each with the capability, pin
      and dependencies given, or without a list the one before it as its dependency. */
  ghost predicate CreateEffect(before: DB, after: DB, t: TaskId, ids: seq<StageId>, req: TaskReq) {
    if !Fits(before, t, ids, req) then after == before
    else
      && after == before.(tasks := after.tasks, stages := after.stages)
      && after.tasks ==
         before.tasks[t := Task(Waiting, req.priority, req.owner, req.sender, req.key, before.clock)]
      && after.stages.Keys == before.stages.Keys + (set i | 0 <= i < |ids| :: ids[i])
      && (forall s | s in before.stages :: after.stages[s] == before.stages[s])
      && forall i | 0 <= i < |ids| ::
           after.stages[ids[i]] ==
             Stage(t, i, req.stages[i].capability,
                   if req.stages[i].dependsOn.Some? then req.stages[i].dependsOn.value
                   else if i == 0 then [] else [ids[i - 1]],
                   req.stages[i].pin, Pending, None, None, None, 0, None, None)
  }

  lemma FitsIsInsertable(db: DB, t: TaskId, ids: seq<StageId>, req: TaskReq)
    ensures Insertable(db, t, ids, req) <==> Fits(db, t, ids, req)
  {
    assert forall s | s in ids :: exists i :: 0 <= i < |ids| && ids[i] == s;
  }

  lemma InsertedRows(t: TaskId, ids: seq<StageId>, req: TaskReq)
    requires |ids| == |req.stages| && Distinct(ids)
    ensures NewRows(t, ids, req.stages).Keys == set i | 0 <= i < |ids| :: ids[i]
    ensures forall i | 0 <= i < |ids| ::
      NewRows(t, ids, req.stages)[ids[i]] ==
        Stage(t, i, req.stages[i].capability,
              if req.stages[i].dependsOn.Some? then req.stages[i].dependsOn.value
              else if i == 0 then [] else [ids[i - 1]],
              req.stages[i].pin, Pending, None, None, None, 0, None, None)
  {
    var rows := NewRows(t, ids, req.stages);
    assert forall s :: s in rows <==> s in ids;
    forall i | 0 <= i < |ids| ensures rows[ids[i]] == NewStage(t, req.stages, ids, i) {
      assert Position(ids, ids[i]) == i;
    }
  }

  lemma CreateHasEffect(db: DB, t: TaskId, ids: seq<StageId>, req: TaskReq)
    ensures CreateEffect(db, CreateTask(db, t, ids, req), t, ids, req)
  {
    FitsIsInsertable(db, t, ids, req);
    if Fits(db, t, ids, req) {
      InsertedRows(t, ids, req);
    }
  }
}
