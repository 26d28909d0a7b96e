/** The claim loop over its ordered candidate list, and why it serves the best stage there is. */
module ClaimOrder {
  import opened Prelude
  import opened Tables
  import opened Transactions
  import opened Invariants

  /** The rows of the candidate SELECT: every candidate once, in its ORDER BY order. */
  ghost predicate CandidateList(db: DB, n: NodeId, names: set<string>, rows: seq<StageId>) {
    && Distinct(rows)
    && (forall s :: s in rows <==> Candidate(db, n, names, s))
    && (forall i, j :: 0 <= i < j < |rows| && Candidate(db, n, names, rows[i]) && Candidate(db, n, names, rows[j])
          ==> !Precedes(db, rows[j], rows[i]))
  }

  /** The loop itself, from some row on. */
  ghost function ClaimScan(db: DB, n: NodeId, rows: seq<StageId>, ttl: nat): (DB, Option<StageId>)
    decreases |rows|
  {
    if rows == [] then (db, None)
    else
      var s := rows[0];
      if s !in db.stages || db.stages[s].task !in db.tasks || !DepsCompleted(db.stages, db.stages[s].dependsOn) then
        ClaimScan(db, n, rows[1..], ttl)
      else if !Admits(db.tasks[db.stages[s].task].owner, n) then
        ClaimScan(FailAddressedToGone(db, s), n, rows[1..], ttl)
      else if !db.stages[s].status.Pending? then
        ClaimScan(db, n, rows[1..], ttl)
      else
        (ClaimStage(db, s, n, ttl), Some(s))
  }

  /** The outcome of a claim by a node that may claim: the first eligible stage in the order, or
      nothing at all when no stage is eligible. */
  ghost predicate BestClaim(db: DB, n: NodeId, names: set<string>, ttl: nat, db': DB, r: Option<StageId>) {
    match r
    case None => db' == db && forall s :: !Eligible(db, n, names, s)
    case Some(s) =>
      && Eligible(db, n, names, s)
      && db' == ClaimStage(db, s, n, ttl)
      && forall other | Eligible(db, n, names, other) :: !Precedes(db, other, s)
  }

  ghost predicate NoneEligible(db: DB, n: NodeId, names: set<string>, rows: seq<StageId>) {
    forall i | 0 <= i < |rows| :: !Eligible(db, n, names, rows[i])
  }

  lemma {:induction false} ScanFromFindsBest(db: DB, n: NodeId, names: set<string>, rows: seq<StageId>, k: nat,
                                             ttl: nat)
    requires Consistent(db) && CandidateList(db, n, names, rows)
    requires k <= |rows| && NoneEligible(db, n, names, rows[..k])
    ensures var (db', r) := ClaimScan(db, n, rows[k..], ttl); BestClaim(db, n, names, ttl, db', r)
    decreases |rows| - k
  {
    if k == |rows| {
      forall s ensures !Eligible(db, n, names, s) {
        if Candidate(db, n, names, s) {
          assert s in rows[..k];
        }
      }
    } else {
      var s := rows[k];
      assert rows[k..][0] == s && rows[k..][1..] == rows[k + 1..];
      assert Candidate(db, n, names, s) by { assert s in rows; }
      if Eligible(db, n, names, s) {
        FirstEligibleIsBest(db, n, names, rows, k);
      } else {
        AddressedBranchIsDead(db, s);
        assert rows[..k + 1] == rows[..k] + [s];
        ScanFromFindsBest(db, n, names, rows, k + 1, ttl);
      }
    }
  }

  lemma FirstEligibleIsBest(db: DB, n: NodeId, names: set<string>, rows: seq<StageId>, k: nat)
    requires CandidateList(db, n, names, rows) && k < |rows|
    requires NoneEligible(db, n, names, rows[..k]) && Eligible(db, n, names, rows[k])
    ensures forall other | Eligible(db, n, names, other) :: !Precedes(db, other, rows[k])
  {
    forall i | 0 <= i < k ensures !Eligible(db, n, names, rows[i]) {
      assert rows[..k][i] == rows[i];
    }
    forall other | Eligible(db, n, names, other) ensures !Precedes(db, other, rows[k]) {
      assert other in rows;
    }
  }

  /** With every owner registered, the scan of an ordered candidate list is optimal and complete. */
  lemma ScanFindsBest(db: DB, n: NodeId, names: set<string>, rows: seq<StageId>, ttl: nat)
    requires Consistent(db) && CandidateList(db, n, names, rows)
    ensures var (db', r) := ClaimScan(db, n, rows, ttl); BestClaim(db, n, names, ttl, db', r)
  {
    assert rows[0..] == rows;
    ScanFromFindsBest(db, n, names, rows, 0, ttl);
  }
}
