/** The capability columns and their index, updated in place by heartbeats and restarts. */
module CapabilityService {
  import opened Prelude
  import opened Capabilities

  /** The index rows of a node. */
  function RowsIn(index: map<string, Rows>, node: string): Rows {
    if node in index then index[node] else map[]
  }

  class CapabilityStore {
    var columns: map<string, seq<Cap>>
    var index: map<string, Rows>

    function RowsOf(node: string): Rows
      reads this
    {
      RowsIn(index, node)
    }

    constructor ()
      ensures columns == map[] && index == map[]
    {
      columns, index := map[], map[];
    }

    /** Puts the object entries of `caps` into a dictionary, only the named ones if `realOnly`. */
    static method PutEntries(dict: seq<Cap>, caps: seq<Cap>, realOnly: bool) returns (r: seq<Cap>)
      requires IsDict(dict)
      ensures r == PutAll(dict, caps, realOnly)
    {
      r := dict;
      for i := 0 to |caps|
        invariant r == PutAll(dict, caps[..i], realOnly)
      {
        assert caps[..i + 1][..i] == caps[..i];
        if caps[i].Cap? && (realOnly ==> IsReal(caps[i].name)) { r := Put(r, caps[i]); }
      }
      assert caps[..|caps|] == caps;
    }

    /** The rows of all entries, or nothing when a value cannot be bound or a name comes twice. */
    static method InsertRows(caps: seq<Cap>, now: int) returns (inserted: Option<Rows>)
      ensures inserted == if Storable(caps) then Some(Stamped(Projected(caps), now)) else None
    {
      var rows: Rows := map[];
      for i := 0 to |caps|
        invariant Storable(caps[..i])
        invariant rows == Stamped(Projected(caps[..i]), now)
      {
        StorableNext(caps, i);
        ProjectedNext(caps, i, now);
        var name := IndexName(caps[i]);
        if name.Some? {
          var details := DetailsOf(caps[i]);
          if !DetailsBindable(details) || name.value in rows {
            if Storable(caps) { StorablePrefix(caps, i + 1); }
            return None;
          }
          rows := rows[name.value := IndexRow(details, now)];
        }
      }
      assert caps[..|caps|] == caps;
      return Some(rows);
    }

    /** Deletes the node's rows and inserts one per named entry; a failed insert rolls everything
        back. */
    method SyncNodeCapabilities(node: string, caps: seq<Cap>, now: int) returns (done: bool)
      modifies this`index
      ensures done == Storable(caps)
      ensures RowsOf(node) == Synced(old(RowsOf(node)), caps, now)
      ensures done == CanSync(caps) && SyncEffect(old(RowsOf(node)), RowsOf(node), caps, now)
      ensures forall n | n != node :: RowsOf(n) == old(RowsOf(n))
    {
      SyncMeans(caps);
      SyncHasEffect(RowsOf(node), caps, now);
      var rows := InsertRows(caps, now);
      if rows.Some? {
        index := index[node := rows.value];
      }
      return rows.Some?;
    }

    /** A heartbeat: an unknown node is refused; reported capabilities are merged or replace the
        column, and the index is synced with what was stored. */
    method Heartbeat(node: string, report: Option<seq<Cap>>, replace: bool, now: int) returns (found: bool)
      modifies this
      ensures found == (node in old(columns))
      ensures !found || report.None? ==> columns == old(columns) && index == old(index)
      ensures found && report.Some? ==>
        && columns == old(columns)[node := AfterBeat(old(columns[node]), Beat(report.value, replace))]
        && RowsOf(node) == Synced(old(RowsOf(node)), AfterBeat(old(columns[node]), Beat(report.value, replace)), now)
        && SyncEffect(old(RowsOf(node)), RowsOf(node), columns[node], now)
        && (replace ==> columns[node] == report.value)
      ensures forall n | n != node :: RowsOf(n) == old(RowsOf(n))
    {
      if node !in columns { return false; }
      if report.None? { return true; }
      var merged := report.value;
      if !replace {
        merged := PutEntries([], columns[node], false);
        merged := PutEntries(merged, report.value, true);
      }
      columns := columns[node := merged];
      var _ := SyncNodeCapabilities(node, merged, now);
      return true;
    }

    /** Upserts the entries over the rows, or nothing when a value cannot be bound. */
    static method UpsertRows(rows: Rows, caps: seq<Cap>, now: int) returns (upserted: Option<Rows>)
      ensures upserted == if AllBindable(caps) then Some(Backfilled(rows, caps, true, now)) else None
    {
      var after := rows;
      for i := 0 to |caps|
        invariant AllBindable(caps[..i])
        invariant after == Backfilled(rows, caps[..i], true, now)
      {
        BackfilledNext(rows, caps, i, now);
        BindableNext(caps, i);
        var name := IndexName(caps[i]);
        if name.Some? {
          var details := DetailsOf(caps[i]);
          if !DetailsBindable(details) { return None; }
          after := after[name.value := IndexRow(details, now)];
        }
      }
      assert caps[..|caps|] == caps;
      return Some(after);
    }

    /** The startup backfill: every node's entries are upserted, in whatever order of nodes, or
        none at all when an entry of any node cannot be written. */
    method MigrateNodeCapabilities(now: int) returns (done: bool)
      modifies this`index
      ensures done <==> forall n | n in columns :: AllBindable(columns[n])
      ensures forall n | n in columns :: RowsOf(n) == Backfilled(old(RowsOf(n)), columns[n], done, now)
      ensures forall n | n in columns :: BackfillEffect(old(RowsOf(n)), RowsOf(n), columns[n], done, now)
      ensures forall n | n !in columns :: RowsOf(n) == old(RowsOf(n))
    {
      var saved := index;
      var left := columns.Keys;
      while left != {}
        invariant left <= columns.Keys
        invariant forall n | n in columns && n !in left :: AllBindable(columns[n])
        invariant forall n | n in columns && n !in left ::
          RowsIn(index, n) == Backfilled(RowsIn(saved, n), columns[n], true, now)
        invariant forall n | n !in columns || n in left :: RowsIn(index, n) == RowsIn(saved, n)
        decreases left
      {
        var n :| n in left;
        var rows := UpsertRows(RowsOf(n), columns[n], now);
        if rows.None? {
          index := saved;
          assert n in columns && !AllBindable(columns[n]);
          EachBackfilled(saved, index, columns, false, now);
          return false;
        }
        index := index[n := rows.value];
        left := left - {n};
      }
      EachBackfilled(saved, index, columns, true, now);
      return true;
    }
  }

  lemma EachBackfilled(before: map<string, Rows>, after: map<string, Rows>, columns: map<string, seq<Cap>>, done: bool,
                       now: int)
    requires forall n | n in columns :: RowsIn(after, n) == Backfilled(RowsIn(before, n), columns[n], done, now)
    ensures forall n | n in columns :: BackfillEffect(RowsIn(before, n), RowsIn(after, n), columns[n], done, now)
  {
    forall n | n in columns ensures BackfillEffect(RowsIn(before, n), RowsIn(after, n), columns[n], done, now) {
      BackfillHasEffect(RowsIn(before, n), columns[n], done, now);
    }
  }

  /** One more entry keeps the entries storable exactly when it can be written and is new. */
  lemma StorableNext(caps: seq<Cap>, i: nat)
    requires i < |caps| && Storable(caps[..i])
    ensures Storable(caps[..i + 1]) <==>
      (IndexName(caps[i]).Some? ==>
         DetailsBindable(DetailsOf(caps[i])) && IndexName(caps[i]).value !in Projected(caps[..i]))
  {
    if IndexName(caps[i]).Some? { ProjectedNames(caps[..i], IndexName(caps[i]).value); }
    var more := caps[..i + 1];
    assert more[i] == caps[i] && forall k | 0 <= k < i :: caps[..i][k] == more[k] == caps[k];
    assert AllBindable(more) <==> EntryBindable(caps[i]);
    assert DistinctNames(more) <==>
      (IndexName(caps[i]).Some? ==> forall k | 0 <= k < i :: IndexName(caps[k]) != IndexName(caps[i]));
  }

  lemma {:induction false} ProjectedNames(caps: seq<Cap>, name: string)
    ensures name in Projected(caps) <==> exists k :: 0 <= k < |caps| && IndexName(caps[k]) == Some(name)
  {
    if caps != [] {
      var n := |caps| - 1;
      ProjectedNames(caps[..n], name);
      assert forall k | 0 <= k < n :: caps[..n][k] == caps[k];
    }
  }

  lemma StorablePrefix(caps: seq<Cap>, i: nat)
    requires i <= |caps| && Storable(caps)
    ensures Storable(caps[..i])
  {
    assert forall k | 0 <= k < i :: caps[..i][k] == caps[k];
  }

  lemma ProjectedNext(caps: seq<Cap>, i: nat, now: int)
    requires i < |caps|
    ensures var name := IndexName(caps[i]);
      Stamped(Projected(caps[..i + 1]), now) ==
        if name.None? then Stamped(Projected(caps[..i]), now)
        else Stamped(Projected(caps[..i]), now)[name.value := IndexRow(DetailsOf(caps[i]), now)]
  {
    assert caps[..i + 1][..i] == caps[..i];
  }

  lemma BindableNext(caps: seq<Cap>, i: nat)
    requires i < |caps| && AllBindable(caps[..i])
    ensures AllBindable(caps[..i + 1]) <==> (IndexName(caps[i]).Some? ==> DetailsBindable(DetailsOf(caps[i])))
    ensures IndexName(caps[i]).Some? && !DetailsBindable(DetailsOf(caps[i])) ==> !AllBindable(caps)
  {
    assert EntryBindable(caps[i]) <==> (IndexName(caps[i]).Some? ==> DetailsBindable(DetailsOf(caps[i])));
    assert forall k | 0 <= k < i :: caps[..i][k] == caps[..i + 1][k];
    assert caps[..i + 1][i] == caps[i];
  }

  lemma BackfilledNext(rows: Rows, caps: seq<Cap>, i: nat, now: int)
    requires i < |caps|
    ensures var name := IndexName(caps[i]);
      Backfilled(rows, caps[..i + 1], true, now) ==
        if name.None? then Backfilled(rows, caps[..i], true, now)
        else Backfilled(rows, caps[..i], true, now)[name.value := IndexRow(DetailsOf(caps[i]), now)]
  {
    ProjectedNext(caps, i, now);
  }
}
