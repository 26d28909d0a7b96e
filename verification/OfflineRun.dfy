/** A run of the code in which the offline watchdog takes a claim of a node that is not offline. */
module OfflineRun {
  import opened Prelude
  import opened Tables
  import opened Transactions
  import opened Machine
  import opened Policies
  import opened FaithfulRuns
  import opened TwoStages

  /** Worker 0 has claimed the first stage and has not been seen since, worker 1 just now. */
  ghost predicate Silent(c: Settings, w: World) {
    && Duo(w, Claimed, Pending)
    && w.db.stages[0].claimedBy == Some(0) && w.db.stages[0].retryCount == 0
    && Expired(w.db.stages[0], w.db.clock) && w.db.stages[0].claimedAt.Some?
    && SilentNodes(w.db, w.db.clock - c.timeout) == {0}
  }

  /** Waiting without a heartbeat of worker 0, then one of worker 1. */
  lemma OnlyOneSeen(c: Settings, w: World)
    requires Duo(w, Claimed, Pending) && HeldBy(w, 0, 0, w.db.clock + c.claimTtl) && w.db.stages[0].retryCount == 0
    requires w.db.nodes[0] == Worker(w.db.clock)
    ensures var later := Apply(w, Tick(c.claimTtl + c.timeout + 1));
      Silent(c, Apply(later, PutNode(1, Worker(later.db.clock))))
  {
    var later := Apply(w, Tick(c.claimTtl + c.timeout + 1));
    var after := Apply(later, PutNode(1, Worker(later.db.clock)));
    assert after.db.nodes.Keys == {0, 1};
    assert SilentNodes(after.db, after.db.clock - c.timeout) == {0};
  }

  lemma FallsSilent(c: Settings) returns (before: seq<Step>)
    ensures Faithful(c, START, before) && Silent(c, Exec(START, before))
  {
    before := DuoStarts(c);
    ClaimFirst(c, Exec(START, before), 0);
    FaithfulThen(c, START, before, Claim(0, 0, OFFERED, c.claimTtl));
    before := before + [Claim(0, 0, OFFERED, c.claimTtl)];
    OnlyOneSeen(c, Exec(START, before));
    var wait := Tick(c.claimTtl + c.timeout + 1);
    FaithfulThen(c, START, before, wait);
    before := before + [wait];
    var beat := PutNode(1, Worker(Exec(START, before).db.clock));
    FaithfulThen(c, START, before, beat);
    before := before + [beat];
  }

  lemma Observed(c: Settings, w: World)
    requires Silent(c, w)
    ensures var after := Apply(w, ObserveExpired);
      after.db == w.db && RowsSeen(after, ExpiredRows(w.db)) && 0 in ExpiredRows(w.db)
  {
    assert 0 in ExpiredRows(w.db);
    forall s | s in ExpiredRows(w.db) ensures ExpiredRows(w.db)[s] in ExpiredRows(w.db).Values {
    }
  }

  lemma ReleasedPair(c: Settings, w: World)
    requires Silent(c, w) && c.maxRetries >= 1
    ensures Pair(ReleaseStages(w.db.stages, ExpiredRows(w.db), c.maxRetries), Pending, Pending)
  {
    assert 0 in ExpiredRows(w.db) && 1 !in ExpiredRows(w.db);
  }

  lemma Released(c: Settings, w: World)
    requires Silent(c, w) && RowsSeen(w, ExpiredRows(w.db)) && c.maxRetries >= 1
    ensures var after := Apply(w, CommitRelease(ExpiredRows(w.db), c.maxRetries));
      && Duo(after, Pending, Pending) && after.db.nodes == w.db.nodes && after.db.clock == w.db.clock
  {
    ReleasedPair(c, w);
    var stages := ReleaseStages(w.db.stages, ExpiredRows(w.db), c.maxRetries);
    assert NewlyFailed(w.db.stages, stages, w.db.tasks.Keys) == {};
    assert BrokenTasks(w.db.(stages := stages), {}) == {};
  }

  /** The claim runs out and is released. */
  lemma ClaimIsReleased(c: Settings, w: World) returns (steps: seq<Step>)
    requires Silent(c, w) && c.maxRetries >= 1
    ensures Faithful(c, w, steps)
    ensures var free := Exec(w, steps);
      Duo(free, Pending, Pending) && free.db.nodes == w.db.nodes && free.db.clock == w.db.clock
  {
    Observed(c, w);
    FaithfulThen(c, w, [], ObserveExpired);
    steps := [] + [ObserveExpired];
    var seen := Exec(w, steps);
    assert seen.db == w.db;
    var release := CommitRelease(ExpiredRows(seen.db), c.maxRetries);
    Released(c, seen);
    FaithfulThen(c, w, steps, release);
    steps := steps + [release];
  }

  /** Then a live worker claims the stage. */
  lemma ClaimMovesOn(c: Settings, w: World) returns (between: seq<Step>)
    requires Silent(c, w) && c.maxRetries >= 1
    ensures Faithful(c, w, between)
    ensures var now := Exec(w, between);
      && Duo(now, Claimed, Pending) && now.db.stages[0].claimedBy == Some(1)
      && now.db.nodes == w.db.nodes && now.db.clock == w.db.clock
  {
    between := ClaimIsReleased(c, w);
    ClaimFirst(c, Exec(w, between), 1);
    FaithfulThen(c, w, between, Claim(0, 1, OFFERED, c.claimTtl));
    between := between + [Claim(0, 1, OFFERED, c.claimTtl)];
  }

  lemma WatchdogTakesIt(listed: DB, now: DB)
    requires 0 in listed.stages && listed.stages[0].status.Claimed? && listed.stages[0].claimedBy == Some(0)
    requires 0 in now.stages && now.stages[0].status.Claimed?
    ensures var after := MarkOffline(now, {0}, HeldRows(listed.stages, {0}));
      0 in after.stages && after.stages[0].status.Failed? && after.stages[0].claimedBy.None?
  {
    OfflineFailsWhatItListed(listed, now, {0}, 0);
  }

  /** With what the watchdog listed in `listed`, its update in `now` fails the first stage, which
      the node 1 claims, though the silent nodes are still the same and node 1 is not among them. */
  ghost predicate LosesFreshClaim(c: Settings, listed: DB, now: DB) {
    var gone := SilentNodes(listed, listed.clock - c.timeout);
    && gone == SilentNodes(now, now.clock - c.timeout) && 1 in now.nodes && 1 !in gone
    && 0 in now.stages && now.stages[0].status.Claimed? && now.stages[0].claimedBy == Some(1)
    && var after := MarkOffline(now, gone, HeldRows(listed.stages, gone)).stages;
    && 0 in after && after[0].status.Failed? && after[0].claimedBy.None?
  }

  lemma FreshClaimIsLost(c: Settings, w: World, now: World)
    requires Silent(c, w) && Duo(now, Claimed, Pending) && now.db.stages[0].claimedBy == Some(1)
    requires now.db.nodes == w.db.nodes && now.db.clock == w.db.clock
    ensures LosesFreshClaim(c, w.db, now.db)
  {
    assert SilentNodes(now.db, now.db.clock - c.timeout) == SilentNodes(w.db, w.db.clock - c.timeout) == {0};
    WatchdogTakesIt(w.db, now.db);
  }

  /** For all settings that retry at all: the watchdog lists the claims of the silent worker 0, a
      release and a claim by the live worker 1 follow, and the watchdog's update then fails the
      claim of worker 1. */
  lemma OfflineTakesFreshClaim(c: Settings) returns (before: seq<Step>, between: seq<Step>)
    requires Legal(c) && c.maxRetries >= 1
    ensures Faithful(c, START, before) && Faithful(c, Exec(START, before), between)
    ensures LosesFreshClaim(c, Exec(START, before).db, Exec(Exec(START, before), between).db)
  {
    before := FallsSilent(c);
    between := ClaimMovesOn(c, Exec(START, before));
    FreshClaimIsLost(c, Exec(START, before), Exec(Exec(START, before), between));
  }
}
