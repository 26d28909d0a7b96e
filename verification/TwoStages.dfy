/** Two workers and one task of two chained stages: the moves that the example runs are made of. */
module TwoStages {
  import opened Prelude
  import opened Tables
  import opened Transactions
  import opened Machine
  import opened FaithfulRuns

  const TWO_STAGES := TaskReq([StageReq("a", None, None), StageReq("a", None, None)], 0, None, None, None)
  const OFFERED: set<string> := {"a"}

  /** The row of stage number `i` of the task. */
  predicate PairRow(st: Stage, i: nat, status: StageStatus) {
    && st.task == 0 && st.capability == "a" && st.pin.None? && st.sequence == i
    && st.dependsOn == (if i == 0 then [] else [0])
    && st.status == status
  }

  ghost predicate Pair(stages: map<StageId, Stage>, first: StageStatus, second: StageStatus) {
    && stages.Keys == {0, 1}
    && PairRow(stages[0], 0, first) && PairRow(stages[1], 1, second)
  }

  /** Both workers are there and the task is open, its stages in the given statuses. */
  ghost predicate Duo(w: World, first: StageStatus, second: StageStatus) {
    && w.db.nodes.Keys == {0, 1} && IsWorker(w.db.nodes[0]) && IsWorker(w.db.nodes[1])
    && w.db.tasks.Keys == {0} && w.db.tasks[0].owner.None? && !TaskTerminal(w.db.tasks[0].status)
    && Pair(w.db.stages, first, second)
  }

  /** Stage `s` is claimed by `n` until its time runs out at `until`. */
  ghost predicate HeldBy(w: World, s: StageId, n: NodeId, until: Time)
    requires s in w.db.stages
  {
    && w.db.stages[s].claimedBy == Some(n) && w.db.stages[s].claimedAt.Some?
    && w.db.stages[s].claimExpiresAt == Some(until)
  }

  ghost function TwoWorkers(): seq<Step> {
    [PutNode(0, Worker(0)), PutNode(1, Worker(0))]
  }

  lemma WorkersJoin(c: Settings)
    ensures Faithful(c, START, TwoWorkers())
    ensures Exec(START, TwoWorkers()) == World(EMPTY.(nodes := map[0 := Worker(0), 1 := Worker(0)]), {})
  {
    FaithfulThen(c, START, [], PutNode(0, Worker(0)));
    assert [] + [PutNode(0, Worker(0))] == [PutNode(0, Worker(0))];
    FaithfulThen(c, START, [PutNode(0, Worker(0))], PutNode(1, Worker(0)));
    assert [PutNode(0, Worker(0))] + [PutNode(1, Worker(0))] == TwoWorkers();
  }

  /** The two rows of the new task. */
  lemma NewPair()
    ensures var rows := NewRows(0, [0, 1], TWO_STAGES.stages);
      && rows.Keys == {0, 1}
      && rows[0] == Stage(0, 0, "a", [], None, Pending, None, None, None, 0, None, None)
      && rows[1] == Stage(0, 1, "a", [0], None, Pending, None, None, None, 0, None, None)
  {
    var rows := NewRows(0, [0, 1], TWO_STAGES.stages);
    assert forall s :: s in rows <==> s in [0, 1];
    assert Position([0, 1], 0) == 0 && Position([0, 1], 1) == 1;
    assert rows[0] == NewStage(0, TWO_STAGES.stages, [0, 1], 0);
    assert rows[1] == NewStage(0, TWO_STAGES.stages, [0, 1], 1);
  }

  lemma PairInsertable(db: DB)
    requires db.tasks == map[] && db.stages == map[]
    ensures Insertable(db, 0, [0, 1], TWO_STAGES)
  {
  }

  lemma DuoCreated(w: World)
    requires w == World(EMPTY.(nodes := map[0 := Worker(0), 1 := Worker(0)]), {})
    ensures Insertable(w.db, 0, [0, 1], TWO_STAGES)
    ensures Duo(Apply(w, Create(0, [0, 1], TWO_STAGES)), Pending, Pending)
    ensures Apply(w, Create(0, [0, 1], TWO_STAGES)).db.stages[0].retryCount == 0
  {
    PairInsertable(w.db);
    NewPair();
    assert CreateTask(w.db, 0, [0, 1], TWO_STAGES).stages == NewRows(0, [0, 1], TWO_STAGES.stages);
  }

  /** A run to the created task. */
  lemma DuoStarts(c: Settings) returns (steps: seq<Step>)
    ensures Faithful(c, START, steps)
    ensures Duo(Exec(START, steps), Pending, Pending)
    ensures Exec(START, steps).db.stages[0].retryCount == 0
    ensures Exec(START, steps).db.nodes[0] == Worker(0) && Exec(START, steps).db.clock == 0
  {
    WorkersJoin(c);
    DuoCreated(Exec(START, TwoWorkers()));
    FaithfulThen(c, START, TwoWorkers(), Create(0, [0, 1], TWO_STAGES));
    steps := TwoWorkers() + [Create(0, [0, 1], TWO_STAGES)];
  }

  lemma SecondWaits(w: World, n: NodeId, first: StageStatus)
    requires Duo(w, first, Pending) && !first.Completed?
    ensures !Eligible(w.db, n, OFFERED, 1)
  {
    assert CompletedAmong(w.db.stages, [0]) == {};
  }

  lemma FirstIsChosen(w: World, n: NodeId)
    requires Duo(w, Pending, Pending) && n in {0, 1}
    ensures Chosen(w.db, 0, n, OFFERED)
  {
    assert CompletedAmong(w.db.stages, []) == {};
    WorkerOffers(w.db.nodes[n]);
    SecondWaits(w, n, Pending);
    assert ClaimEnabled(w.db, 0, n, OFFERED);
    forall other | Eligible(w.db, n, OFFERED, other) ensures !Precedes(w.db, other, 0) {
      assert other == 0;
    }
  }

  /** Taking a stage of an open task of two. */
  lemma TakesFirst(w: World, n: NodeId, ttl: nat)
    requires Duo(w, Pending, Pending)
    ensures var after := w.(db := ClaimStage(w.db, 0, n, ttl));
      Duo(after, Claimed, Pending) && HeldBy(after, 0, n, w.db.clock + ttl)
  {
    assert StagesOf(w.db.stages, 0) == {0, 1};
  }

  lemma TakesSecond(w: World, n: NodeId, ttl: nat)
    requires Duo(w, Completed, Pending)
    ensures var after := w.(db := ClaimStage(w.db, 1, n, ttl));
      Duo(after, Completed, Claimed) && HeldBy(after, 1, n, w.db.clock + ttl)
  {
    assert StagesOf(w.db.stages, 0) == {0, 1};
  }

  lemma ClaimApplies(w: World, s: StageId, n: NodeId, ttl: nat)
    requires ClaimEnabled(w.db, s, n, OFFERED)
    ensures var after := Apply(w, Claim(s, n, OFFERED, ttl));
      && after == w.(db := ClaimStage(w.db, s, n, ttl))
      && after.db.stages[s].retryCount == w.db.stages[s].retryCount
      && after.db.nodes == w.db.nodes && after.db.clock == w.db.clock
  {
  }

  lemma ClaimFirst(c: Settings, w: World, n: NodeId)
    requires Duo(w, Pending, Pending) && n in {0, 1}
    ensures FaithfulStep(c, w, Claim(0, n, OFFERED, c.claimTtl))
    ensures var after := Apply(w, Claim(0, n, OFFERED, c.claimTtl));
      && Duo(after, Claimed, Pending) && HeldBy(after, 0, n, w.db.clock + c.claimTtl)
      && after.db.stages[0].retryCount == w.db.stages[0].retryCount
      && after.db.nodes == w.db.nodes && after.db.clock == w.db.clock
  {
    FirstIsChosen(w, n);
    ClaimApplies(w, 0, n, c.claimTtl);
    TakesFirst(w, n, c.claimTtl);
  }

  lemma CompleteFirst(w: World, n: NodeId, until: Time)
    requires Duo(w, Claimed, Pending) && HeldBy(w, 0, n, until)
    ensures Duo(Apply(w, Complete(0, n)), Completed, Pending)
  {
    var stages := w.db.stages[0 := w.db.stages[0].(status := Completed)];
    assert stages[1].task == 0 && !StageTerminal(stages[1].status);
    assert !AllClosed(stages, 0);
  }

  lemma SecondIsChosen(w: World, n: NodeId)
    requires Duo(w, Completed, Pending) && n in {0, 1}
    ensures Chosen(w.db, 1, n, OFFERED)
  {
    assert CompletedAmong(w.db.stages, [0]) == {0};
    WorkerOffers(w.db.nodes[n]);
    assert ClaimEnabled(w.db, 1, n, OFFERED);
    forall other | Eligible(w.db, n, OFFERED, other) ensures !Precedes(w.db, other, 1) {
      assert other == 1;
    }
  }

  lemma ClaimSecond(c: Settings, w: World, n: NodeId)
    requires Duo(w, Completed, Pending) && n in {0, 1}
    ensures FaithfulStep(c, w, Claim(1, n, OFFERED, c.claimTtl))
    ensures var after := Apply(w, Claim(1, n, OFFERED, c.claimTtl));
      Duo(after, Completed, Claimed) && HeldBy(after, 1, n, w.db.clock + c.claimTtl)
  {
    SecondIsChosen(w, n);
    ClaimApplies(w, 1, n, c.claimTtl);
    TakesSecond(w, n, c.claimTtl);
  }
}
