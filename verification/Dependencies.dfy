/** Dependencies as submitted, whatever they are: nothing is started before all of its own are completed. */
module Dependencies {
  import opened Tables
  import opened Transactions
  import opened Machine
  import opened Invariants
  import opened Moves
  import opened Budget

  // ---- The count test -------------------------------------------------------------------

  function Elements(deps: seq<StageId>): set<StageId> {
    set d | d in deps
  }

  lemma {:induction false} ElementsCount(deps: seq<StageId>)
    ensures |Elements(deps)| <= |deps|
    ensures |Elements(deps)| == |deps| <==> Distinct(deps)
  {
    if deps != [] {
      var n := |deps| - 1;
      var before := deps[..n];
      ElementsCount(before);
      assert deps == before + [deps[n]];
      assert Elements(deps) == Elements(before) + {deps[n]};
      if deps[n] in before {
        assert Elements(deps) == Elements(before);
        var i :| 0 <= i < n && before[i] == deps[n];
        assert deps[i] == deps[n];
      } else {
        assert forall i | 0 <= i < n :: before[i] == deps[i] && deps[i] != deps[n];
        assert Distinct(deps) <==> Distinct(before);
      }
    }
  }

  lemma SmallerSubset<T>(a: set<T>, b: set<T>)
    requires a <= b
    ensures |a| <= |b| && (|a| == |b| ==> a == b)
  {
    assert b == a + (b - a);
  }

  /** The claim loop compares a count of rows with the length of the list: that holds exactly when
      every dependency is completed and none is listed twice. */
  lemma CountTestMeans(stages: map<StageId, Stage>, deps: seq<StageId>)
    ensures DepsCompleted(stages, deps) <==>
      Distinct(deps) && forall d | d in deps :: d in stages && stages[d].status.Completed?
  {
    var completed := CompletedAmong(stages, deps);
    ElementsCount(deps);
    SmallerSubset(completed, Elements(deps));
    if DepsCompleted(stages, deps) {
      assert completed == Elements(deps);
      assert forall d | d in deps :: d in Elements(deps);
    }
    if forall d | d in deps :: d in stages && stages[d].status.Completed? {
      assert completed == Elements(deps);
    }
  }

  // ---- Along every run ------------------------------------------------------------------

  predicate Started(st: StageStatus) {
    InHand(st) || st.Completed?
  }

  ghost predicate DepsRespected(db: DB) {
    forall s | s in db.stages && Started(db.stages[s].status) :: DepsCompleted(db.stages, db.stages[s].dependsOn)
  }

  /** Completed rows stay completed, so a list that was completed stays so. */
  lemma CompletedListStays(w: World, step: Step, deps: seq<StageId>)
    requires Inv(w) && DepsCompleted(w.db.stages, deps)
    ensures DepsCompleted(Apply(w, step).db.stages, deps)
  {
    var after := Apply(w, step).db.stages;
    CountTestMeans(w.db.stages, deps);
    forall d | d in deps ensures d in after && after[d].status.Completed? {
      StageMoves(w, step, d);
    }
    CountTestMeans(after, deps);
  }

  lemma RespectedStep(w: World, step: Step)
    requires Inv(w) && DepsRespected(w.db)
    ensures DepsRespected(Apply(w, step).db)
  {
    var after := Apply(w, step).db.stages;
    forall s | s in after && Started(after[s].status) ensures DepsCompleted(after, after[s].dependsOn) {
      if s in w.db.stages {
        StageMoves(w, step, s);
        CompletedListStays(w, step, w.db.stages[s].dependsOn);
      } else {
        NewRowsArePlain(w, step, s);
      }
    }
  }

  lemma {:induction false} RespectedRun(w: World, steps: seq<Step>)
    requires Inv(w) && DepsRespected(w.db)
    ensures DepsRespected(Exec(w, steps).db)
    decreases |steps|
  {
    if steps != [] {
      RespectedStep(w, steps[0]);
      InvStep(w, steps[0]);
      RespectedRun(Apply(w, steps[0]), steps[1..]);
    }
  }

  /** In every reachable state a stage in hand or completed has every stage it depends on
      completed, for whatever `depends_on` was submitted, and lists none twice. */
  lemma DependenciesHold(steps: seq<Step>, s: StageId)
    requires s in Exec(START, steps).db.stages && Started(Exec(START, steps).db.stages[s].status)
    ensures var stages := Exec(START, steps).db.stages;
      && Distinct(stages[s].dependsOn)
      && forall d | d in stages[s].dependsOn :: d in stages && stages[d].status.Completed?
  {
    RespectedRun(START, steps);
    CountTestMeans(Exec(START, steps).db.stages, Exec(START, steps).db.stages[s].dependsOn);
  }

  lemma {:induction false} ListStays(w: World, steps: seq<Step>, s: StageId)
    requires Inv(w) && s in w.db.stages
    ensures s in Exec(w, steps).db.stages
    ensures Exec(w, steps).db.stages[s].dependsOn == w.db.stages[s].dependsOn
    decreases |steps|
  {
    if steps != [] {
      StageMoves(w, steps[0], s);
      InvStep(w, steps[0]);
      ListStays(Apply(w, steps[0]), steps[1..], s);
    }
  }

  /** A stage created with a dependency listed twice is never started, even with all completed. */
  lemma ListedTwiceNeverStarts(before: seq<Step>, after: seq<Step>, s: StageId)
    requires s in Exec(START, before).db.stages && !Distinct(Exec(START, before).db.stages[s].dependsOn)
    ensures s in Exec(Exec(START, before), after).db.stages
    ensures !Started(Exec(Exec(START, before), after).db.stages[s].status)
  {
    AlwaysConsistent(before);
    RespectedRun(START, before);
    RespectedRun(Exec(START, before), after);
    ListStays(Exec(START, before), after, s);
    var stages := Exec(Exec(START, before), after).db.stages;
    CountTestMeans(stages, stages[s].dependsOn);
  }
}
