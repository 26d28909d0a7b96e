/** Retries: overlapping stale sweeps count every lost claim exactly once, and a stage's life is bounded. */
module Budget {
  import opened Prelude
  import opened Tables
  import opened Transactions
  import opened Machine
  import opened Invariants
  import opened Moves

  // ---- Stale sweeps and fresh claims ----------------------------------------------------

  /** A sweep working from any stale rows either leaves a stage alone or ends exactly the claim
      those rows saw: that claim has expired and its retry is counted once. */
  lemma ReleaseIsExact(w: World, rows: map<StageId, ClaimRow>, maxRetries: nat, s: StageId)
    requires Inv(w) && RowsSeen(w, rows) && s in w.db.stages
    ensures var a, b := w.db.stages[s], Apply(w, CommitRelease(rows, maxRetries)).db.stages[s];
      || b == a
      || (a.status == Claimed && a.claimExpiresAt.Some? && a.claimExpiresAt.value < w.db.clock
          && b.retryCount == a.retryCount + 1
          && b.status == (if a.retryCount + 1 > maxRetries then Failed else Pending)
          && b.claimedBy.None? && b.claimedAt.None? && b.claimExpiresAt.None?)
  {
    if s in rows {
      assert RowOk(w.db, rows[s]);
    }
  }

  /** Since a claim at instant `c`, the stage is not pending until the clock has passed `c`. */
  ghost predicate Since(db: DB, s: StageId, c: Time)
    requires s in db.stages
  {
    match db.stages[s].status
    case Pending => c < db.clock
    case Claimed => db.stages[s].claimedAt.Some? && c <= db.stages[s].claimedAt.value
    case _ => true
  }

  /** The step turns the stage from pending to claimed. */
  ghost predicate Claims(w: World, step: Step, s: StageId) {
    && s in w.db.stages && w.db.stages[s].status.Pending?
    && s in Apply(w, step).db.stages && Apply(w, step).db.stages[s].status.Claimed?
  }

  lemma SinceStep(w: World, step: Step, s: StageId, c: Time)
    requires Inv(w) && s in w.db.stages && Since(w.db, s, c)
    ensures s in Apply(w, step).db.stages && Since(Apply(w, step).db, s, c)
    ensures Claims(w, step, s) ==> c < w.db.clock && Apply(w, step).db.stages[s].claimedAt == Some(w.db.clock)
  {
    StageMoves(w, step, s);
    ClockMoves(w, step);
    assert StageOk(w.db, s);
  }

  lemma {:induction false} SinceRun(w: World, steps: seq<Step>, s: StageId, c: Time)
    requires Inv(w) && s in w.db.stages && Since(w.db, s, c)
    ensures s in Exec(w, steps).db.stages && Since(Exec(w, steps).db, s, c)
    decreases |steps|
  {
    if steps != [] {
      SinceStep(w, steps[0], s, c);
      InvStep(w, steps[0]);
      SinceRun(Apply(w, steps[0]), steps[1..], s, c);
    }
  }

  /** A re-claim carries a strictly later `claimed_at` than every claim before it, so a row
      that remembers an older claim can never match a newer one. */
  lemma ReclaimIsLater(w: World, steps: seq<Step>, last: Step, s: StageId)
    requires Inv(w) && s in w.db.stages && w.db.stages[s].status.Claimed?
    requires Claims(Exec(w, steps), last, s)
    ensures var again := Apply(Exec(w, steps), last).db.stages[s];
      && w.db.stages[s].claimedAt.Some? && again.claimedAt.Some?
      && w.db.stages[s].claimedAt.value < again.claimedAt.value
  {
    assert StageOk(w.db, s);
    var c := w.db.stages[s].claimedAt.value;
    SinceRun(w, steps, s, c);
    InvRun(w, steps);
    SinceStep(Exec(w, steps), last, s, c);
  }

  // ---- Counting over a run --------------------------------------------------------------

  ghost function ClaimCount(w: World, steps: seq<Step>, s: StageId): nat
    decreases |steps|
  {
    if steps == [] then 0
    else (if Claims(w, steps[0], s) then 1 else 0) + ClaimCount(Apply(w, steps[0]), steps[1..], s)
  }

  ghost predicate Changes(w: World, step: Step, s: StageId) {
    && s in w.db.stages && s in Apply(w, step).db.stages
    && Apply(w, step).db.stages[s].status != w.db.stages[s].status
  }

  ghost function ChangeCount(w: World, steps: seq<Step>, s: StageId): nat
    decreases |steps|
  {
    if steps == [] then 0
    else (if Changes(w, steps[0], s) then 1 else 0) + ChangeCount(Apply(w, steps[0]), steps[1..], s)
  }

  /** A note brings an orphaned stage back. */
  ghost predicate Recovers(w: World, step: Step, s: StageId) {
    && s in w.db.stages && w.db.stages[s].status.Orphaned?
    && s in Apply(w, step).db.stages && Apply(w, step).db.stages[s].status.Accepted?
  }

  ghost function RecoveryCount(w: World, steps: seq<Step>, s: StageId): nat
    decreases |steps|
  {
    if steps == [] then 0
    else (if Recovers(w, steps[0], s) then 1 else 0) + RecoveryCount(Apply(w, steps[0]), steps[1..], s)
  }

  /** `max_retries` may change between sweeps but never exceeds `cap`. */
  ghost predicate Capped(steps: seq<Step>, cap: nat) {
    forall i | 0 <= i < |steps| && steps[i].CommitRelease? :: steps[i].maxRetries <= cap
  }

  ghost predicate RetriesCapped(db: DB, s: StageId, cap: nat) {
    s in db.stages && (db.stages[s].status.Pending? || db.stages[s].status.Claimed?) ==> db.stages[s].retryCount <= cap
  }

  lemma CapStep(w: World, step: Step, s: StageId, cap: nat)
    requires Inv(w) && RetriesCapped(w.db, s, cap)
    requires step.CommitRelease? ==> step.maxRetries <= cap
    ensures RetriesCapped(Apply(w, step).db, s, cap)
  {
    if s in w.db.stages {
      StageMoves(w, step, s);
      var a, b := w.db.stages[s], Apply(w, step).db.stages[s];
      if a.status.Claimed? && b.status.Pending? {
        ReleaseIsExact(w, step.rows, step.maxRetries, s);
      }
    } else if s in Apply(w, step).db.stages {
      NewRowsArePlain(w, step, s);
    }
  }

  lemma NewRowsArePlain(w: World, step: Step, s: StageId)
    requires s !in w.db.stages && s in Apply(w, step).db.stages
    ensures step.Create? && Apply(w, step).db.stages[s].status.Pending? && Apply(w, step).db.stages[s].retryCount == 0
    ensures Apply(w, step).db.stages[s].lastNoteAt.None?
  {
    match step
    case Delete(n) => if n in w.db.nodes { DeleteInTwo(w.db, n); }
    case _ =>
  }

  // ---- The bound ------------------------------------------------------------------------

  /** Claims still possible for a stage. */
  ghost function ClaimsLeft(db: DB, s: StageId, cap: nat): int {
    if s !in db.stages then cap + 1
    else match db.stages[s].status
      case Pending => cap + 1 - db.stages[s].retryCount
      case Claimed => cap - db.stages[s].retryCount
      case _ => 0
  }

  /** Status changes still possible for a stage that no note recovers. */
  ghost function ChangesLeft(db: DB, s: StageId, cap: nat): int {
    if s !in db.stages then 2 * cap + 4
    else match db.stages[s].status
      case Pending => 2 * (cap - db.stages[s].retryCount) + 4
      case Claimed => 2 * (cap - db.stages[s].retryCount) + 3
      case Accepted => 2
      case Orphaned => 1
      case _ => 0
  }

  lemma ClaimsSpend(w: World, step: Step, s: StageId, cap: nat)
    requires Inv(w) && RetriesCapped(w.db, s, cap) && RetriesCapped(Apply(w, step).db, s, cap)
    ensures ClaimsLeft(Apply(w, step).db, s, cap) + (if Claims(w, step, s) then 1 else 0) <= ClaimsLeft(w.db, s, cap)
  {
    if s in w.db.stages {
      StageMoves(w, step, s);
    } else if s in Apply(w, step).db.stages {
      NewRowsArePlain(w, step, s);
    }
  }

  lemma ChangesSpend(w: World, step: Step, s: StageId, cap: nat)
    requires Inv(w) && RetriesCapped(w.db, s, cap) && RetriesCapped(Apply(w, step).db, s, cap)
    ensures ChangesLeft(Apply(w, step).db, s, cap) + (if Changes(w, step, s) then 1 else 0)
            <= ChangesLeft(w.db, s, cap) + (if Recovers(w, step, s) then 2 else 0)
  {
    if s in w.db.stages {
      StageMoves(w, step, s);
    } else if s in Apply(w, step).db.stages {
      NewRowsArePlain(w, step, s);
    }
  }

  lemma {:induction false} SpendRun(w: World, steps: seq<Step>, s: StageId, cap: nat)
    requires Inv(w) && RetriesCapped(w.db, s, cap) && Capped(steps, cap)
    ensures ClaimCount(w, steps, s) <= ClaimsLeft(w.db, s, cap)
    ensures ChangeCount(w, steps, s) <= ChangesLeft(w.db, s, cap) + 2 * RecoveryCount(w, steps, s)
    decreases |steps|
  {
    if steps != [] {
      assert steps[0].CommitRelease? ==> steps[0].maxRetries <= cap;
      CapStep(w, steps[0], s, cap);
      ClaimsSpend(w, steps[0], s, cap);
      ChangesSpend(w, steps[0], s, cap);
      InvStep(w, steps[0]);
      SpendRun(Apply(w, steps[0]), steps[1..], s, cap);
    }
  }

  /** In any run whose sweeps use at most `cap` retries, a stage is claimed at most `cap + 1`
      times and changes status at most `2 cap + 4 + 2 R` times, `R` being its recoveries. */
  lemma LifeIsBounded(steps: seq<Step>, s: StageId, cap: nat)
    requires Capped(steps, cap)
    ensures ClaimCount(START, steps, s) <= cap + 1
    ensures ChangeCount(START, steps, s) <= 2 * cap + 4 + 2 * RecoveryCount(START, steps, s)
  {
    SpendRun(START, steps, s, cap);
  }

  // ---- Conservation ---------------------------------------------------------------------

  /** A claim-TTL sweep ends the stage's claim, giving the stage back or failing it. */
  ghost predicate Ends(w: World, step: Step, s: StageId) {
    step.CommitRelease? && Changes(w, step, s)
  }

  ghost function EndCount(w: World, steps: seq<Step>, s: StageId): nat
    decreases |steps|
  {
    if steps == [] then 0
    else (if Ends(w, steps[0], s) then 1 else 0) + EndCount(Apply(w, steps[0]), steps[1..], s)
  }

  lemma SweepKeepsRetry(kind: Sweep, db: DB, rows: set<StageId>, s: StageId)
    requires s in db.stages
    ensures s in SweepRows(kind, db, rows).stages
    ensures SweepRows(kind, db, rows).stages[s].retryCount == db.stages[s].retryCount
  {
  }

  lemma DeleteKeepsRetry(db: DB, n: NodeId, s: StageId)
    requires s in db.stages
    ensures s in DeleteNode(db, n).stages
    ensures DeleteNode(db, n).stages[s].retryCount == db.stages[s].retryCount
  {
    if n in db.nodes { DeleteInTwo(db, n); }
  }

  ghost predicate RetryCounted(w: World, step: Step, s: StageId)
    requires s in w.db.stages
  {
    && s in Apply(w, step).db.stages
    && Apply(w, step).db.stages[s].retryCount == w.db.stages[s].retryCount + (if Ends(w, step, s) then 1 else 0)
  }

  lemma ReleaseRetry(w: World, step: Step, s: StageId)
    requires Inv(w) && s in w.db.stages && step.CommitRelease?
    ensures RetryCounted(w, step, s)
  {
    StageMoves(w, step, s);
    if RowsSeen(w, step.rows) { ReleaseIsExact(w, step.rows, step.maxRetries, s); }
  }

  lemma OtherSweepRetry(w: World, step: Step, s: StageId)
    requires s in w.db.stages && (step.CommitSweep? || step.CommitOffline? || step.Delete?)
    ensures RetryCounted(w, step, s)
  {
    match step
    case CommitSweep(kind, swept) => SweepKeepsRetry(kind, w.db, swept, s);
    case CommitOffline(gone, held) => SweepKeepsRetry(NodeOffline, NodesOff(w.db, gone), held, s);
    case Delete(n) => DeleteKeepsRetry(w.db, n, s);
  }

  lemma ClaimRetry(w: World, step: Step, s: StageId)
    requires s in w.db.stages && step.Claim?
    ensures RetryCounted(w, step, s)
  {
  }

  lemma CompleteRetry(w: World, step: Step, s: StageId)
    requires s in w.db.stages && step.Complete?
    ensures RetryCounted(w, step, s)
  {
  }

  lemma NoteRetry(w: World, step: Step, s: StageId)
    requires s in w.db.stages && step.Note?
    ensures RetryCounted(w, step, s)
  {
  }

  lemma AddressedRetry(w: World, step: Step, s: StageId)
    requires Inv(w) && s in w.db.stages && step.FailAddressed?
    ensures RetryCounted(w, step, s)
  {
    if step.s in w.db.stages { AddressedBranchIsDead(w.db, step.s); }
  }

  lemma PlainRetry(w: World, step: Step, s: StageId)
    requires s in w.db.stages && (step.Tick? || step.PutNode? || step.ObserveExpired? || step.Create?)
    ensures RetryCounted(w, step, s)
  {
    assert s in Apply(w, step).db.stages && Apply(w, step).db.stages[s] == w.db.stages[s];
  }

  /** Each step raises `retry_count` by one exactly when it is a sweep that ends the claim. */
  lemma RetryStep(w: World, step: Step, s: StageId)
    requires Inv(w) && s in w.db.stages
    ensures RetryCounted(w, step, s)
  {
    match step
    case CommitRelease(_, _) => ReleaseRetry(w, step, s);
    case CommitSweep(_, _) => OtherSweepRetry(w, step, s);
    case CommitOffline(_, _) => OtherSweepRetry(w, step, s);
    case Delete(_) => OtherSweepRetry(w, step, s);
    case Claim(_, _, _, _) => ClaimRetry(w, step, s);
    case Complete(_, _) => CompleteRetry(w, step, s);
    case Note(_, _, _, _) => NoteRetry(w, step, s);
    case FailAddressed(_) => AddressedRetry(w, step, s);
    case _ => PlainRetry(w, step, s);
  }

  lemma {:induction false} RetriesFrom(w: World, steps: seq<Step>, s: StageId)
    requires Inv(w) && s in Exec(w, steps).db.stages
    ensures Exec(w, steps).db.stages[s].retryCount
         == (if s in w.db.stages then w.db.stages[s].retryCount else 0) + EndCount(w, steps, s)
    decreases |steps|
  {
    if steps != [] {
      InvStep(w, steps[0]);
      RetriesFrom(Apply(w, steps[0]), steps[1..], s);
      if s in w.db.stages {
        RetryStep(w, steps[0], s);
      } else if s in Apply(w, steps[0]).db.stages {
        NewRowsArePlain(w, steps[0], s);
      }
    }
  }

  /** Of the claims of a stage all were ended by a sweep but the one it is in now; a completed
      stage's last claim was not, and a failed one's may have been. */
  predicate ClaimsAndEnds(status: StageStatus, claims: nat, ends: nat) {
    match status
    case Pending => claims == ends
    case Failed => ends <= claims <= ends + 1
    case _ => claims == ends + 1
  }

  lemma {:induction false} EndsRun(w: World, steps: seq<Step>, s: StageId, claims: nat, ends: nat)
    requires Inv(w) && s in w.db.stages && ClaimsAndEnds(w.db.stages[s].status, claims, ends)
    ensures s in Exec(w, steps).db.stages
    ensures ClaimsAndEnds(Exec(w, steps).db.stages[s].status, claims + ClaimCount(w, steps, s),
        ends + EndCount(w, steps, s))
    decreases |steps|
  {
    if steps != [] {
      EndsStep(w, steps[0], s, claims, ends);
      InvStep(w, steps[0]);
      EndsRun(Apply(w, steps[0]), steps[1..], s,
              claims + (if Claims(w, steps[0], s) then 1 else 0), ends + (if Ends(w, steps[0], s) then 1 else 0));
    }
  }

  lemma EndsStep(w: World, step: Step, s: StageId, claims: nat, ends: nat)
    requires Inv(w) && s in w.db.stages && ClaimsAndEnds(w.db.stages[s].status, claims, ends)
    ensures s in Apply(w, step).db.stages
    ensures ClaimsAndEnds(Apply(w, step).db.stages[s].status,
                          claims + (if Claims(w, step, s) then 1 else 0), ends + (if Ends(w, step, s) then 1 else 0))
  {
    StageMoves(w, step, s);
    if Ends(w, step, s) && RowsSeen(w, step.rows) { ReleaseIsExact(w, step.rows, step.maxRetries, s); }
  }

  lemma {:induction false} EndsFrom(w: World, steps: seq<Step>, s: StageId)
    requires Inv(w) && s !in w.db.stages && s in Exec(w, steps).db.stages
    ensures ClaimsAndEnds(Exec(w, steps).db.stages[s].status, ClaimCount(w, steps, s), EndCount(w, steps, s))
    decreases |steps|
  {
    if steps != [] {
      InvStep(w, steps[0]);
      if s in Apply(w, steps[0]).db.stages {
        NewRowsArePlain(w, steps[0], s);
        EndsRun(Apply(w, steps[0]), steps[1..], s, 0, 0);
      } else {
        EndsFrom(Apply(w, steps[0]), steps[1..], s);
      }
    }
  }

  /** In every run `retry_count` is exactly the number of claims that claim-TTL sweeps ended,
      however the sweeps overlap, and no claim is ended twice. */
  lemma RetriesCountLostClaims(steps: seq<Step>, s: StageId)
    requires s in Exec(START, steps).db.stages
    ensures var st := Exec(START, steps).db.stages[s];
      && st.retryCount == EndCount(START, steps, s)
      && ClaimsAndEnds(st.status, ClaimCount(START, steps, s), EndCount(START, steps, s))
  {
    RetriesFrom(START, steps, s);
    EndsFrom(START, steps, s);
  }
}
