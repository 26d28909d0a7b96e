/** Runs of the code that strand a task, one for each way. */
module StrandedRun {
  import opened Prelude
  import opened Tables
  import opened Transactions
  import opened Machine
  import opened Lease
  import opened Stranded
  import opened FaithfulRuns
  import opened TwoStages

  const NO_STAGES := TaskReq([], 0, None, None, None)

  /** A task created without stages is open and has nothing to close it. */
  lemma EmptyTaskIsStranded(c: Settings)
    ensures Faithful(c, START, [Create(0, [], NO_STAGES)])
    ensures IsStranded(Exec(START, [Create(0, [], NO_STAGES)]).db, 0)
  {
    FaithfulThen(c, START, [], Create(0, [], NO_STAGES));
    assert [] + [Create(0, [], NO_STAGES)] == [Create(0, [], NO_STAGES)];
    assert NewRows(0, [], []) == map[];
  }

  // ---- The lease sweep ------------------------------------------------------------------

  lemma SecondClaimed(c: Settings) returns (steps: seq<Step>)
    ensures Faithful(c, START, steps)
    ensures Duo(Exec(START, steps), Completed, Claimed) && Exec(START, steps).db.stages[1].claimedBy == Some(0)
  {
    steps := DuoStarts(c);
    var until := Exec(START, steps).db.clock + c.claimTtl;
    ClaimFirst(c, Exec(START, steps), 0);
    FaithfulThen(c, START, steps, Claim(0, 0, OFFERED, c.claimTtl));
    steps := steps + [Claim(0, 0, OFFERED, c.claimTtl)];
    CompleteFirst(Exec(START, steps), 0, until);
    FaithfulThen(c, START, steps, Complete(0, 0));
    steps := steps + [Complete(0, 0)];
    ClaimSecond(c, Exec(START, steps), 0);
    FaithfulThen(c, START, steps, Claim(1, 0, OFFERED, c.claimTtl));
    steps := steps + [Claim(1, 0, OFFERED, c.claimTtl)];
  }

  lemma NotedPair(c: Settings, db: DB)
    requires Pair(db.stages, Completed, Claimed) && db.stages[1].claimedBy == Some(0) && 0 in db.tasks
    ensures var after := AddNote(db, 0, 0, true, c.longrunTtl);
      && Pair(after.stages, Completed, Accepted) && after.stages[1].lastNoteAt == Some(db.clock)
      && after.stages[1].leaseExpiresAt == Some(db.clock + c.longrunTtl)
      && after.clock == db.clock && after.nodes == db.nodes && after.tasks == db.tasks
  {
  }

  lemma NoteSecond(c: Settings, w: World)
    requires Duo(w, Completed, Claimed) && w.db.stages[1].claimedBy == Some(0)
    ensures var after := Apply(w, Note(0, 0, true, c.longrunTtl));
      && Duo(after, Completed, Accepted) && after.db.stages[1].lastNoteAt == Some(after.db.clock)
      && after.db.stages[1].leaseExpiresAt == Some(after.db.clock + c.longrunTtl)
  {
    NotedPair(c, w.db);
  }

  /** The second stage has been silent past every deadline. */
  ghost predicate Neglected(c: Settings, w: World) {
    && Duo(w, Completed, Accepted)
    && w.db.stages[1].lastNoteAt.Some? && w.db.stages[1].leaseExpiresAt.Some?
    && w.db.stages[1].leaseExpiresAt.value < w.db.clock
    && w.db.stages[1].lastNoteAt.value < w.db.clock - c.orphanedTtl
  }

  lemma SilentSecond(c: Settings) returns (steps: seq<Step>)
    ensures Faithful(c, START, steps) && Neglected(c, Exec(START, steps))
  {
    steps := SecondClaimed(c);
    var note := Note(0, 0, true, c.longrunTtl);
    NoteSecond(c, Exec(START, steps));
    FaithfulThen(c, START, steps, note);
    steps := steps + [note];
    var wait := Tick(Max(c.longrunTtl, c.orphanedTtl) + 1);
    FaithfulThen(c, START, steps, wait);
    steps := steps + [wait];
  }

  lemma SecondRunsOut(c: Settings, w: World)
    requires Neglected(c, w)
    ensures Leased(w.db, c.orphanedTtl, c.grace, w.db.stages[1]).status.Failed?
  {
  }

  /** The lease sweep then fails it beside the completed one. */
  lemma SilentDies(c: Settings, w: World)
    requires Neglected(c, w)
    ensures IsStranded(EnforceLeases(w.db, c.orphanedTtl, c.grace), 0)
  {
    SecondRunsOut(c, w);
    assert LeaseClosesAll(w.db, c.orphanedTtl, c.grace, 0) by {
      assert 0 in w.db.stages && w.db.stages[0].status.Completed?;
    }
    assert !AllClosed(w.db.stages, 0) by {
      assert 1 in w.db.stages && w.db.stages[1].task == 0 && !StageTerminal(w.db.stages[1].status);
    }
    EnforceStrands(w.db, c.orphanedTtl, c.grace, 0);
  }

  /** For all settings the code takes a run to a task whose stages are all closed while it runs on:
      its first stage is completed, its second went long and stayed silent past every deadline. */
  lemma StrandedIsReachable(c: Settings)
    requires Legal(c)
    ensures exists steps :: Faithful(c, START, steps) && IsStranded(Exec(START, steps).db, 0)
  {
    var steps := SilentSecond(c);
    SilentDies(c, Exec(START, steps));
    FaithfulSweep(c, START, steps);
  }
}
