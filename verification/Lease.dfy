/** The long-run lease: bounded for silent workers, safe for live ones. */
module Lease {
  import opened Tables
  import opened Transactions
  import opened Machine
  import opened Invariants
  import opened Moves
  import opened Budget

  function Max(a: int, b: int): int {
    if a < b then b else a
  }

  ghost function OverdueRows(db: DB): set<StageId> {
    set s | s in db.stages && db.stages[s].status.Accepted?
      && db.stages[s].leaseExpiresAt.Some? && db.stages[s].leaseExpiresAt.value < db.clock
  }

  ghost function OrphanDeadRows(db: DB, orphanedTtl: nat): set<StageId> {
    set s | s in db.stages && db.stages[s].status.Orphaned?
      && (db.stages[s].lastNoteAt.None? || db.stages[s].lastNoteAt.value < db.clock - orphanedTtl)
  }

  /** The node is live and was seen within the grace period (or never). */
  ghost predicate Present(db: DB, n: NodeId, grace: nat) {
    && n in db.nodes
    && IsLive(db.nodes[n].status)
    && (db.nodes[n].lastSeen.None? || db.nodes[n].lastSeen.value >= db.clock - grace)
  }

  ghost function WorkerDeadRows(db: DB, grace: nat): set<StageId> {
    set s | s in db.stages && (db.stages[s].status.Accepted? || db.stages[s].status.Orphaned?)
      && db.stages[s].claimedBy.Some? && !Present(db, db.stages[s].claimedBy.value, grace)
  }

  /** `enforce_longrun_leases` run without interruption: three sweeps, each on fresh rows. */
  ghost function EnforceLeases(db: DB, orphanedTtl: nat, grace: nat): DB {
    var one := SweepRows(Overdue, db, OverdueRows(db));
    var two := SweepRows(OrphanDead, one, OrphanDeadRows(one, orphanedTtl));
    SweepRows(WorkerDead, two, WorkerDeadRows(two, grace))
  }

  lemma SweepShape(kind: Sweep, db: DB, rows: set<StageId>)
    ensures SweepRows(kind, db, rows).stages == SweepStages(kind, db.stages, rows)
    ensures SweepRows(kind, db, rows).clock == db.clock && SweepRows(kind, db, rows).nodes == db.nodes
  {}

  /** The steps of one lease sweep: each loop names the rows its own SELECT returns. */
  ghost function LeaseSweep(db: DB, orphanedTtl: nat, grace: nat): seq<Step> {
    var one := SweepRows(Overdue, db, OverdueRows(db));
    var two := SweepRows(OrphanDead, one, OrphanDeadRows(one, orphanedTtl));
    [CommitSweep(Overdue, OverdueRows(db)), CommitSweep(OrphanDead, OrphanDeadRows(one, orphanedTtl)),
     CommitSweep(WorkerDead, WorkerDeadRows(two, grace))]
  }

  lemma ExecThree(w: World, a: Step, b: Step, c: Step)
    ensures Exec(w, [a, b, c]) == Apply(Apply(Apply(w, a), b), c)
  {
    assert [a, b, c][1..] == [b, c] && [b, c][1..] == [c] && [c][1..] == [];
    assert Exec(w, [a, b, c]) == Exec(Apply(w, a), [b, c]) == Exec(Apply(Apply(w, a), b), [c]);
    assert Exec(Apply(Apply(w, a), b), [c]) == Exec(Apply(Apply(Apply(w, a), b), c), []);
  }

  /** The uninterrupted lease sweep is a run of the machine, so every invariant survives it. */
  lemma EnforceIsRun(w: World, orphanedTtl: nat, grace: nat)
    ensures Exec(w, LeaseSweep(w.db, orphanedTtl, grace)) == w.(db := EnforceLeases(w.db, orphanedTtl, grace))
  {
    var steps := LeaseSweep(w.db, orphanedTtl, grace);
    ExecThree(w, steps[0], steps[1], steps[2]);
  }

  ghost predicate Alive(st: StageStatus) {
    st.Accepted? || st.Orphaned?
  }

  // ---- Lease columns along a run --------------------------------------------------------

  /** Every lease ends at most `ttl` after the note that started it. */
  ghost predicate LeasesBounded(db: DB, ttl: nat) {
    forall s | s in db.stages && db.stages[s].lastNoteAt.Some? && db.stages[s].leaseExpiresAt.Some? ::
      db.stages[s].leaseExpiresAt.value <= db.stages[s].lastNoteAt.value + ttl
  }

  ghost predicate NotesUse(steps: seq<Step>, ttl: nat) {
    forall i | 0 <= i < |steps| && steps[i].Note? :: steps[i].ttl <= ttl
  }

  lemma LeasesStep(w: World, step: Step, ttl: nat)
    requires Inv(w) && LeasesBounded(w.db, ttl) && (step.Note? ==> step.ttl <= ttl)
    ensures LeasesBounded(Apply(w, step).db, ttl)
  {
    if !step.Note? {
      var after := Apply(w, step).db.stages;
      forall s | s in after && after[s].lastNoteAt.Some? && after[s].leaseExpiresAt.Some?
        ensures after[s].leaseExpiresAt.value <= after[s].lastNoteAt.value + ttl
      {
        if s in w.db.stages { StageMoves(w, step, s); } else { NewRowsArePlain(w, step, s); }
      }
    }
  }

  lemma {:induction false} LeasesRun(w: World, steps: seq<Step>, ttl: nat)
    requires Inv(w) && LeasesBounded(w.db, ttl) && NotesUse(steps, ttl)
    ensures LeasesBounded(Exec(w, steps).db, ttl)
    decreases |steps|
  {
    if steps != [] {
      assert steps[0].Note? ==> steps[0].ttl <= ttl;
      LeasesStep(w, steps[0], ttl);
      InvStep(w, steps[0]);
      LeasesRun(Apply(w, steps[0]), steps[1..], ttl);
    }
  }

  // ---- Bounded and safe -----------------------------------------------------------------

  function OverdueRow(st: Stage, now: Time): Stage {
    if st.status.Accepted? && st.leaseExpiresAt.Some? && st.leaseExpiresAt.value < now
    then st.(status := Orphaned) else st
  }

  function SilentRow(st: Stage, now: Time, orphanedTtl: nat): Stage {
    if st.status.Orphaned? && (st.lastNoteAt.None? || st.lastNoteAt.value < now - orphanedTtl)
    then st.(status := Failed) else st
  }

  function AbsentRow(st: Stage, present: bool): Stage {
    if (st.status.Accepted? || st.status.Orphaned?) && st.claimedBy.Some? && !present
    then st.(status := Failed) else st
  }

  /** What the three sweeps do to one row. */
  function LeasedRow(st: Stage, now: Time, orphanedTtl: nat, present: bool): Stage {
    AbsentRow(SilentRow(OverdueRow(st, now), now, orphanedTtl), present)
  }

  lemma AfterOverdue(db: DB, s: StageId)
    requires s in db.stages
    ensures var after := SweepRows(Overdue, db, OverdueRows(db));
      && s in after.stages && after.stages[s] == OverdueRow(db.stages[s], db.clock)
      && after.clock == db.clock && after.nodes == db.nodes
  {
  }

  lemma AfterSilent(db: DB, orphanedTtl: nat, s: StageId)
    requires s in db.stages
    ensures var after := SweepRows(OrphanDead, db, OrphanDeadRows(db, orphanedTtl));
      && s in after.stages && after.stages[s] == SilentRow(db.stages[s], db.clock, orphanedTtl)
      && after.clock == db.clock && after.nodes == db.nodes
  {
  }

  lemma AfterAbsent(db: DB, grace: nat, s: StageId)
    requires s in db.stages
    ensures var after := SweepRows(WorkerDead, db, WorkerDeadRows(db, grace));
      && s in after.stages
      && after.stages[s] == AbsentRow(db.stages[s],
                                      db.stages[s].claimedBy.Some? && Present(db, db.stages[s].claimedBy.value, grace))
  {
  }

  lemma EnforceRow(db: DB, orphanedTtl: nat, grace: nat, s: StageId)
    requires s in db.stages
    ensures s in EnforceLeases(db, orphanedTtl, grace).stages
    ensures EnforceLeases(db, orphanedTtl, grace).stages[s]
      == LeasedRow(db.stages[s], db.clock, orphanedTtl,
                   db.stages[s].claimedBy.Some? && Present(db, db.stages[s].claimedBy.value, grace))
  {
    AfterOverdue(db, s);
    var one := SweepRows(Overdue, db, OverdueRows(db));
    AfterSilent(one, orphanedTtl, s);
    var two := SweepRows(OrphanDead, one, OrphanDeadRows(one, orphanedTtl));
    AfterAbsent(two, grace, s);
  }

  /** In every reachable state an accepted or orphaned stage carries note and lease times, and
      a lease sweep more than `max(longrun ttl, orphaned ttl)` after its last note ends it. */
  lemma SilenceEnds(steps: seq<Step>, longrunTtl: nat, orphanedTtl: nat, grace: nat, s: StageId)
    requires NotesUse(steps, longrunTtl)
    requires s in Exec(START, steps).db.stages && Alive(Exec(START, steps).db.stages[s].status)
    ensures var db := Exec(START, steps).db;
      && db.stages[s].lastNoteAt.Some? && db.stages[s].leaseExpiresAt.Some?
      && s in EnforceLeases(db, orphanedTtl, grace).stages
      && (db.stages[s].lastNoteAt.value + Max(longrunTtl, orphanedTtl) < db.clock ==>
            EnforceLeases(db, orphanedTtl, grace).stages[s].status.Failed?)
  {
    var db := Exec(START, steps).db;
    AlwaysConsistent(steps);
    LeasesRun(START, steps, longrunTtl);
    assert StageOk(db, s);
    EnforceRow(db, orphanedTtl, grace, s);
  }

  /** An accepted stage with a running lease and a present worker is left exactly as it is. */
  lemma WorkerIsSafe(db: DB, orphanedTtl: nat, grace: nat, s: StageId)
    requires s in db.stages && db.stages[s].status.Accepted?
    requires db.stages[s].leaseExpiresAt.Some? ==> db.clock <= db.stages[s].leaseExpiresAt.value
    requires db.stages[s].claimedBy.Some? ==> Present(db, db.stages[s].claimedBy.value, grace)
    ensures s in EnforceLeases(db, orphanedTtl, grace).stages
    ensures EnforceLeases(db, orphanedTtl, grace).stages[s] == db.stages[s]
  {
    EnforceRow(db, orphanedTtl, grace, s);
  }
}
