/**
  Whether a note ever brings an orphaned stage back is a matter of two settings: with a lease at
  least as long as the time an orphaned stage is kept, the sweep that orphans a stage fails it too.
 */
module Recoveries {
  import opened Tables
  import opened Transactions
  import opened Machine
  import opened Invariants
  import opened Moves
  import opened Budget
  import opened Lease
  import opened FaithfulRuns

  /** A row as it stands between two calls: not orphaned, and with a lease as long as the setting says. */
  predicate Settled(c: Settings, st: Stage) {
    && !st.status.Orphaned?
    && (st.lastNoteAt.Some? && st.leaseExpiresAt.Some? ==>
          st.leaseExpiresAt.value == st.lastNoteAt.value + c.longrunTtl)
  }

  ghost predicate AllSettled(c: Settings, db: DB) {
    forall s | s in db.stages :: Settled(c, db.stages[s])
  }

  lemma SettledNote(c: Settings, db: DB, step: Step, s: StageId)
    requires step.Note? && step.ttl == c.longrunTtl && s in db.stages && Settled(c, db.stages[s])
    ensures Settled(c, AddNote(db, step.t, step.n, step.longrun, step.ttl).stages[s])
  {
  }

  lemma SettledStep(c: Settings, w: World, step: Step)
    requires Inv(w) && AllSettled(c, w.db) && FaithfulStep(c, w, step)
    ensures AllSettled(c, Apply(w, step).db)
  {
    var after := Apply(w, step).db.stages;
    forall s | s in after ensures Settled(c, after[s]) {
      if s !in w.db.stages {
        NewRowsArePlain(w, step, s);
      } else if step.Note? {
        StageMoves(w, step, s);
        SettledNote(c, w.db, step, s);
      } else {
        StageMoves(w, step, s);
      }
    }
  }

  /** The three loops end what the first of them orphans. */
  lemma SettledRow(c: Settings, st: Stage, now: Time, present: bool)
    requires Settled(c, st) && c.orphanedTtl <= c.longrunTtl
    ensures Settled(c, LeasedRow(st, now, c.orphanedTtl, present))
  {
  }

  lemma SettledSweep(c: Settings, w: World)
    requires AllSettled(c, w.db) && c.orphanedTtl <= c.longrunTtl
    ensures AllSettled(c, Exec(w, LeaseSweep(w.db, c.orphanedTtl, c.grace)).db)
  {
    var after := EnforceLeases(w.db, c.orphanedTtl, c.grace);
    EnforceIsRun(w, c.orphanedTtl, c.grace);
    forall s | s in after.stages ensures Settled(c, after.stages[s]) {
      var holder := w.db.stages[s].claimedBy;
      EnforceRow(w.db, c.orphanedTtl, c.grace, s);
      SettledRow(c, w.db.stages[s], w.db.clock, holder.Some? && Present(w.db, holder.value, c.grace));
    }
  }

  lemma SweepRecoversNothing(w: World, kind: Sweep, rows: set<StageId>, s: StageId)
    ensures !Recovers(w, CommitSweep(kind, rows), s)
  {
  }

  lemma SweepIsUncounted(c: Settings, w: World, rest: seq<Step>, s: StageId)
    ensures var sweep := LeaseSweep(w.db, c.orphanedTtl, c.grace);
      RecoveryCount(w, sweep + rest, s) == RecoveryCount(Exec(w, sweep), rest, s)
  {
    var sweep := LeaseSweep(w.db, c.orphanedTtl, c.grace);
    var one := Apply(w, sweep[0]);
    var two := Apply(one, sweep[1]);
    ExecThree(w, sweep[0], sweep[1], sweep[2]);
    SweepRecoversNothing(w, sweep[0].kind, sweep[0].swept, s);
    SweepRecoversNothing(one, sweep[1].kind, sweep[1].swept, s);
    SweepRecoversNothing(two, sweep[2].kind, sweep[2].swept, s);
    assert (sweep + rest)[1..] == [sweep[1], sweep[2]] + rest;
    assert ([sweep[1], sweep[2]] + rest)[1..] == [sweep[2]] + rest;
    assert ([sweep[2]] + rest)[1..] == rest;
    assert RecoveryCount(w, sweep + rest, s) == RecoveryCount(one, [sweep[1], sweep[2]] + rest, s);
    assert RecoveryCount(one, [sweep[1], sweep[2]] + rest, s) == RecoveryCount(two, [sweep[2]] + rest, s);
  }

  lemma {:induction false} SettledRun(c: Settings, w: World, steps: seq<Step>, s: StageId)
    requires Inv(w) && AllSettled(c, w.db) && c.orphanedTtl <= c.longrunTtl
    requires Faithful(c, w, steps)
    ensures RecoveryCount(w, steps, s) == 0
    decreases |steps|
  {
    if steps == [] {
    } else if FaithfulStep(c, w, steps[0]) && Faithful(c, Apply(w, steps[0]), steps[1..]) {
      SettledStep(c, w, steps[0]);
      InvStep(w, steps[0]);
      SettledRun(c, Apply(w, steps[0]), steps[1..], s);
    } else {
      var sweep := LeaseSweep(w.db, c.orphanedTtl, c.grace);
      assert steps == sweep + steps[3..];
      SweepIsUncounted(c, w, steps[3..], s);
      SettledSweep(c, w);
      InvRun(w, sweep);
      SettledRun(c, Exec(w, sweep), steps[3..], s);
    }
  }

  /** With such settings no run the code can take recovers a stage: the status is never seen
      between two calls. */
  lemma NeverRecovered(c: Settings, steps: seq<Step>, s: StageId)
    requires c.orphanedTtl <= c.longrunTtl && Faithful(c, START, steps)
    ensures RecoveryCount(START, steps, s) == 0
  {
    SettledRun(c, START, steps, s);
  }
}
