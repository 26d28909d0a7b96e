/**
  Runs the code can take. The machine allows more than the code does, which safety results may
  ignore; a run that is to show something has to name only rows that the SELECTs return in
  their states, use the settings' own times, and claim what the claim loop would claim.
 */
module FaithfulRuns {
  import opened Prelude
  import opened Tables
  import opened Transactions
  import opened Machine
  import opened Policies
  import opened Lease

  /** One second, in the microseconds the clock counts. */
  const SECOND := 1_000_000

  datatype Settings = Settings(
    claimTtl: nat,
    longrunTtl: nat,
    orphanedTtl: nat,
    grace: nat,
    timeout: nat,
    maxRetries: nat)

  /** What the validators of the settings let through. */
  predicate Legal(c: Settings) {
    60 * SECOND <= c.claimTtl <= 300 * SECOND && c.maxRetries <= 10
  }

  /** A claim the loop makes: by a node that may claim, of the first stage eligible for it. */
  ghost predicate Chosen(db: DB, s: StageId, n: NodeId, names: set<string>) {
    && ClaimEnabled(db, s, n, names)
    && (exists capability, kind :: names == UsableNames(db.nodes[n], capability, kind))
    && forall other | Eligible(db, n, names, other) :: !Precedes(db, other, s)
  }

  /** One transaction other than a lease sweep, as the code would commit it now. */
  ghost predicate FaithfulStep(c: Settings, w: World, step: Step) {
    match step
    case PutNode(_, node) => node.lastSeen == Some(w.db.clock)
    case Create(t, ids, req) => Insertable(w.db, t, ids, req)
    case Claim(s, n, names, ttl) => ttl == c.claimTtl && Chosen(w.db, s, n, names)
    case FailAddressed(_) => false
    case Note(_, n, _, ttl) => ttl == c.longrunTtl && n in w.db.nodes
    case CommitRelease(rows, maxRetries) =>
      rows == ExpiredRows(w.db) && RowsSeen(w, rows) && maxRetries == c.maxRetries
    case CommitSweep(kind, swept) => kind.Uncovered? && swept == DeadPinRows(w.db) + UncoveredRows(w.db)
    case CommitOffline(gone, held) =>
      gone == SilentNodes(w.db, w.db.clock - c.timeout) && held == HeldRows(w.db.stages, gone)
    case _ => true
  }

  /** Such transactions and whole lease sweeps, one after the other. */
  ghost predicate Faithful(c: Settings, w: World, steps: seq<Step>)
    decreases |steps|
  {
    || steps == []
    || (FaithfulStep(c, w, steps[0]) && Faithful(c, Apply(w, steps[0]), steps[1..]))
    || (|steps| >= 3 && steps[..3] == LeaseSweep(w.db, c.orphanedTtl, c.grace)
        && Faithful(c, Exec(w, steps[..3]), steps[3..]))
  }

  lemma {:induction false} ExecBoth(w: World, a: seq<Step>, b: seq<Step>)
    ensures Exec(w, a + b) == Exec(Exec(w, a), b)
    decreases |a|
  {
    if a == [] {
      assert a + b == b;
    } else {
      assert (a + b)[1..] == a[1..] + b;
      ExecBoth(Apply(w, a[0]), a[1..], b);
    }
  }

  lemma {:induction false} FaithfulBoth(c: Settings, w: World, a: seq<Step>, b: seq<Step>)
    requires Faithful(c, w, a) && Faithful(c, Exec(w, a), b)
    ensures Faithful(c, w, a + b)
    decreases |a|
  {
    if a == [] {
      assert a + b == b;
    } else if FaithfulStep(c, w, a[0]) && Faithful(c, Apply(w, a[0]), a[1..]) {
      assert (a + b)[0] == a[0] && (a + b)[1..] == a[1..] + b;
      FaithfulBoth(c, Apply(w, a[0]), a[1..], b);
    } else {
      assert (a + b)[..3] == a[..3] && (a + b)[3..] == a[3..] + b && a == a[..3] + a[3..];
      ExecBoth(w, a[..3], a[3..]);
      FaithfulBoth(c, Exec(w, a[..3]), a[3..], b);
    }
  }

  /** A run goes on with one more transaction. */
  lemma FaithfulThen(c: Settings, w: World, steps: seq<Step>, last: Step)
    requires Faithful(c, w, steps) && FaithfulStep(c, Exec(w, steps), last)
    ensures Faithful(c, w, steps + [last])
    ensures Exec(w, steps + [last]) == Apply(Exec(w, steps), last)
  {
    var v := Exec(w, steps);
    assert [last][1..] == [] && Faithful(c, Apply(v, last), []);
    assert Faithful(c, v, [last]);
    FaithfulBoth(c, w, steps, [last]);
    ExecBoth(w, steps, [last]);
    assert Exec(v, [last]) == Exec(Apply(v, last), []);
  }

  /** A run goes on with a lease sweep. */
  lemma FaithfulSweep(c: Settings, w: World, steps: seq<Step>)
    requires Faithful(c, w, steps)
    ensures var v := Exec(w, steps);
      var sweep := LeaseSweep(v.db, c.orphanedTtl, c.grace);
      && Faithful(c, w, steps + sweep)
      && Exec(w, steps + sweep) == v.(db := EnforceLeases(v.db, c.orphanedTtl, c.grace))
  {
    var v := Exec(w, steps);
    var sweep := LeaseSweep(v.db, c.orphanedTtl, c.grace);
    assert sweep[..3] == sweep && sweep[3..] == [];
    assert Faithful(c, Exec(v, sweep), []);
    FaithfulBoth(c, w, steps, sweep);
    ExecBoth(w, steps, sweep);
    EnforceIsRun(v, c.orphanedTtl, c.grace);
  }

  // ---- Workers --------------------------------------------------------------------------

  /** A worker that offers capability `a` and was seen at that instant. */
  function Worker(seen: Time): Node {
    Node(Online, Some(seen), false, map["a" := None], [])
  }

  /** A node row of such a worker. */
  predicate IsWorker(node: Node) {
    node.lastSeen.Some? && node == Worker(node.lastSeen.value)
  }

  lemma WorkerOffers(node: Node)
    requires IsWorker(node)
    ensures UsableNames(node, None, None) == {"a"} && CanClaim(node.status)
  {
    assert "a" in node.index;
  }
}
