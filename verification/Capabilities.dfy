/**
  Capabilities in two representations: the JSON column a heartbeat merges or replaces, and the
  normalised index kept beside it. The column is the union of what was reported, and the index
  is its projection, with the exact condition under which a sync fails and leaves it behind.
 */
module Capabilities {
  import opened Prelude
  import opened JsonValues

  /** An entry of the column: an object with its name, absent or null as `None`, and its other
      fields; or an entry that is no object, by its text. */
  datatype Cap = Cap(name: Option<string>, fields: Fields) | Plain(text: string)

  /** What a row of the index says of a capability. */
  datatype Details = Details(
    kind: Json,
    version: Json,
    description: Json,
    schema: Json,
    uploadModes: Json,
    resultPathHints: Json,
    available: bool)

  datatype IndexRow = IndexRow(details: Details, updatedAt: int)

  /** The index rows of one node by capability name. */
  type Rows = map<string, IndexRow>

  // ---- The column -----------------------------------------------------------------------

  predicate IsReal(name: Option<string>) {
    name.Some? && name.value != ""
  }

  /** Assignment to an ordered dictionary: an old key keeps its place. */
  function Put(dict: seq<Cap>, c: Cap): seq<Cap>
    requires c.Cap? && forall d | d in dict :: d.Cap?
  {
    if dict == [] then [c]
    else if dict[0].name == c.name then [c] + dict[1..]
    else [dict[0]] + Put(dict[1..], c)
  }

  ghost predicate IsDict(caps: seq<Cap>) {
    && (forall i | 0 <= i < |caps| :: caps[i].Cap?)
    && (forall i, j | 0 <= i < j < |caps| :: caps[i].name != caps[j].name)
  }

  /** The last object entry of that name. */
  function Latest(caps: seq<Cap>, name: Option<string>): Option<Cap> {
    if caps == [] then None
    else
      var last := caps[|caps| - 1];
      if last.Cap? && last.name == name then Some(last) else Latest(caps[..|caps| - 1], name)
  }

  /** The dictionary after each object entry of `caps` is put in turn, only those with a real
      name when `realOnly`. */
  ghost function PutAll(dict: seq<Cap>, caps: seq<Cap>, realOnly: bool): (r: seq<Cap>)
    requires IsDict(dict)
    ensures IsDict(r)
  {
    if caps == [] then dict
    else
      var before := PutAll(dict, caps[..|caps| - 1], realOnly);
      var last := caps[|caps| - 1];
      if last.Cap? && (realOnly ==> IsReal(last.name)) then
        PutKeepsDict(before, last);
        Put(before, last)
      else before
  }

  ghost function Merged(existing: seq<Cap>, report: seq<Cap>): (r: seq<Cap>)
    ensures IsDict(r)
  {
    PutAll(PutAll([], existing, false), report, true)
  }

  lemma {:induction false} PutKeepsDict(dict: seq<Cap>, c: Cap)
    requires IsDict(dict) && c.Cap?
    ensures IsDict(Put(dict, c))
    ensures forall d | d in Put(dict, c) :: d == c || (d in dict && d.name != c.name)
  {
    if dict != [] && dict[0].name != c.name {
      PutKeepsDict(dict[1..], c);
      var rest := Put(dict[1..], c);
      forall d | d in rest ensures d.name != dict[0].name {
        if d in dict[1..] {
          var i :| 0 <= i < |dict| - 1 && dict[1..][i] == d;
          assert dict[i + 1] == d;
        }
      }
    }
  }

  /** Looking a name up in a dictionary does not depend on the order. */
  lemma {:induction false} LatestIsMember(caps: seq<Cap>, name: Option<string>)
    ensures Latest(caps, name).Some? ==>
        Latest(caps, name).value in caps && Latest(caps, name).value.Cap? && Latest(caps, name).value.name == name
    ensures Latest(caps, name).None? ==> forall c | c in caps && c.Cap? :: c.name != name
  {
    if caps != [] {
      LatestIsMember(caps[..|caps| - 1], name);
      assert caps == caps[..|caps| - 1] + [caps[|caps| - 1]];
    }
  }

  lemma LatestInDict(dict: seq<Cap>, c: Cap)
    requires IsDict(dict) && c in dict
    ensures Latest(dict, c.name) == Some(c)
  {
    LatestIsMember(dict, c.name);
  }

  lemma {:induction false} PutHas(dict: seq<Cap>, c: Cap)
    requires IsDict(dict) && c.Cap?
    ensures c in Put(dict, c)
    ensures forall d | d in dict && d.name != c.name :: d in Put(dict, c)
  {
    if dict != [] && dict[0].name != c.name {
      PutHas(dict[1..], c);
      assert dict == [dict[0]] + dict[1..];
    } else if dict != [] {
      assert dict == [dict[0]] + dict[1..];
    }
  }

  lemma LatestAfterPut(dict: seq<Cap>, c: Cap, name: Option<string>)
    requires IsDict(dict) && c.Cap?
    ensures Latest(Put(dict, c), name) == if c.name == name then Some(c) else Latest(dict, name)
  {
    PutKeepsDict(dict, c);
    PutHas(dict, c);
    LatestIsMember(dict, name);
    LatestIsMember(Put(dict, c), name);
    if c.name == name {
      LatestInDict(Put(dict, c), c);
    } else if Latest(dict, name).Some? {
      LatestInDict(Put(dict, c), Latest(dict, name).value);
    }
  }

  lemma {:induction false} LatestAfterPuts(dict: seq<Cap>, caps: seq<Cap>, realOnly: bool, name: Option<string>)
    requires IsDict(dict)
    ensures Latest(PutAll(dict, caps, realOnly), name) ==
      if (realOnly ==> IsReal(name)) && Latest(caps, name).Some? then Latest(caps, name) else Latest(dict, name)
  {
    if caps != [] {
      var before := PutAll(dict, caps[..|caps| - 1], realOnly);
      var last := caps[|caps| - 1];
      LatestAfterPuts(dict, caps[..|caps| - 1], realOnly, name);
      if last.Cap? { LatestAfterPut(before, last, name); }
    }
  }

  /** A merge is a right-biased union by name: a real name is what the report says of it last,
      any other and any unreported name is what the column had. */
  lemma MergedIsUnion(existing: seq<Cap>, report: seq<Cap>, name: Option<string>)
    ensures Latest(Merged(existing, report), name) ==
      if name != None && name != Some("") && Latest(report, name).Some? then Latest(report, name)
      else Latest(existing, name)
  {
    LatestAfterPuts(PutAll([], existing, false), report, true, name);
    LatestAfterPuts([], existing, false, name);
  }

  /** One heartbeat that reports capabilities. */
  datatype Beat = Beat(report: seq<Cap>, replace: bool)

  ghost function AfterBeat(column: seq<Cap>, b: Beat): seq<Cap> {
    if b.replace then b.report else Merged(column, b.report)
  }

  ghost function AfterBeats(column: seq<Cap>, beats: seq<Beat>): seq<Cap> {
    if beats == [] then column else AfterBeat(AfterBeats(column, beats[..|beats| - 1]), beats[|beats| - 1])
  }

  /** Everything told since the last replace, in order. */
  function Told(column: seq<Cap>, beats: seq<Beat>): seq<Cap> {
    if beats == [] then column
    else
      var last := beats[|beats| - 1];
      if last.replace then last.report else Told(column, beats[..|beats| - 1]) + last.report
  }

  lemma {:induction false} LatestOfBoth(a: seq<Cap>, b: seq<Cap>, name: Option<string>)
    ensures Latest(a + b, name) == if Latest(b, name).Some? then Latest(b, name) else Latest(a, name)
  {
    if b == [] {
      assert a + b == a;
    } else {
      assert (a + b)[..|a + b| - 1] == a + b[..|b| - 1];
      LatestOfBoth(a, b[..|b| - 1], name);
    }
  }

  /** After any heartbeats, a real name is in the column as it was last told since the last
      replace. */
  lemma {:induction false} ColumnIsUnion(column: seq<Cap>, beats: seq<Beat>, name: Option<string>)
    requires name != None && name != Some("")
    ensures Latest(AfterBeats(column, beats), name) == Latest(Told(column, beats), name)
  {
    if beats != [] {
      var before := beats[..|beats| - 1];
      var last := beats[|beats| - 1];
      ColumnIsUnion(column, before, name);
      if !last.replace {
        MergedIsUnion(AfterBeats(column, before), last.report, name);
        LatestOfBoth(Told(column, before), last.report, name);
      }
    }
  }

  // ---- The index ------------------------------------------------------------------------

  /** The name an entry is indexed under; objects without a real name are not indexed. */
  function IndexName(c: Cap): Option<string> {
    match c
    case Cap(name, _) => if IsReal(name) then name else None
    case Plain(text) => Some(text)
  }

  function DetailsOf(c: Cap): Details {
    match c
    case Cap(_, fields) =>
      Details(Get(fields, "type"), if "version" in fields then fields["version"] else Str("1.0.0"),
              Get(fields, "description"), Get(fields, "input_schema"), Get(fields, "upload_modes"),
              Get(fields, "result_path_hints"), Get(fields, "available") != Bool(false))
    case Plain(_) => Details(Null, Str("1.0.0"), Null, Null, Null, Null, true)
  }

  /** The column as index rows, the last entry of a name winning. */
  function Projected(caps: seq<Cap>): map<string, Details> {
    if caps == [] then map[]
    else
      var rest := Projected(caps[..|caps| - 1]);
      var last := caps[|caps| - 1];
      if IndexName(last).None? then rest else rest[IndexName(last).value := DetailsOf(last)]
  }

  function Stamped(details: map<string, Details>, now: int): Rows {
    map name | name in details :: IndexRow(details[name], now)
  }

  /** The rows without their time stamps. */
  function Unstamped(rows: Rows): map<string, Details> {
    map name | name in rows :: rows[name].details
  }

  predicate DistinctNames(caps: seq<Cap>) {
    forall i, j | 0 <= i < j < |caps| :: IndexName(caps[i]).Some? ==> IndexName(caps[i]) != IndexName(caps[j])
  }

  /** What the database driver takes as a column value: null, a boolean, a number within 64 bits
      or text, but no list and no object. */
  predicate Bindable(j: Json) {
    match j
    case Int(i) => -0x8000_0000_0000_0000 <= i < 0x8000_0000_0000_0000
    case Arr(_) => false
    case Obj(_) => false
    case Foreign => false
    case _ => true
  }

  /** Type, version and description are bound as they are; schema, modes and hints as JSON text. */
  predicate DetailsBindable(d: Details) {
    Bindable(d.kind) && Bindable(d.version) && Bindable(d.description)
  }

  /** An indexed entry can be written to its row; entries without a real name are passed over. */
  predicate EntryBindable(c: Cap) {
    IndexName(c).Some? ==> DetailsBindable(DetailsOf(c))
  }

  predicate AllBindable(caps: seq<Cap>) {
    forall i | 0 <= i < |caps| :: EntryBindable(caps[i])
  }

  /** Every entry can be inserted, none against the primary key. */
  predicate Storable(caps: seq<Cap>) {
    DistinctNames(caps) && AllBindable(caps)
  }

  /** A sync rewrites the rows, or fails as a whole and leaves them. */
  function Synced(rows: Rows, caps: seq<Cap>, now: int): Rows {
    if Storable(caps) then Stamped(Projected(caps), now) else rows
  }

  /** The startup backfill upserts every entry and deletes nothing. It is one transaction over all
      nodes: when one entry of any node cannot be written, `done` is false and nothing is. */
  function Backfilled(rows: Rows, caps: seq<Cap>, done: bool, now: int): Rows {
    if done then rows + Stamped(Projected(caps), now) else rows
  }

  ghost predicate Agrees(rows: Rows, caps: seq<Cap>) {
    Unstamped(rows) == Projected(caps)
  }

  /** A dictionary indexes each real name under what it says of it. */
  lemma {:induction false} ProjectedIsLatest(dict: seq<Cap>, name: string)
    requires forall i | 0 <= i < |dict| :: dict[i].Cap?
    ensures name in Projected(dict) <==> name != "" && Latest(dict, Some(name)).Some?
    ensures name in Projected(dict) ==> Projected(dict)[name] == DetailsOf(Latest(dict, Some(name)).value)
  {
    if dict != [] {
      var before := dict[..|dict| - 1];
      assert forall i | 0 <= i < |before| :: before[i] == dict[i];
      ProjectedIsLatest(before, name);
    }
  }

  /** What is told last of every real name can be written. */
  ghost predicate LatestBindable(caps: seq<Cap>) {
    forall name: string | name != "" && Latest(caps, Some(name)).Some? :: Writable(Latest(caps, Some(name)).value)
  }

  // ---- The index by its columns ---------------------------------------------------------

  /** Type, version and description of an entry, where it gives them, can be bound: no list, no
      object, no integer beyond 64 bits. */
  predicate Writable(c: Cap) {
    c.Cap? ==> forall key | key in {"type", "version", "description"} && key in c.fields ::
      && !c.fields[key].Arr? && !c.fields[key].Obj? && !c.fields[key].Foreign?
      && (c.fields[key].Int? ==> -9223372036854775808 <= c.fields[key].i <= 9223372036854775807)
  }

  /** The entry goes to the row of that name: an object under its name unless that is empty, anything
      else under its text. */
  predicate Indexed(c: Cap, name: string) {
    match c
    case Cap(own, _) => own == Some(name) && name != ""
    case Plain(text) => text == name
  }

  /** The row shows the entry: each column the field of its name, a version of 1.0.0 by default, and
      available unless the entry says false. */
  predicate Shows(d: Details, c: Cap) {
    match c
    case Cap(_, fields) =>
      && d.kind == Get(fields, "type")
      && d.version == (if "version" in fields then fields["version"] else Str("1.0.0"))
      && d.description == Get(fields, "description")
      && d.schema == Get(fields, "input_schema")
      && d.uploadModes == Get(fields, "upload_modes")
      && d.resultPathHints == Get(fields, "result_path_hints")
      && (d.available <==> !("available" in fields && fields["available"] == Bool(false)))
    case Plain(_) => d == Details(Null, Str("1.0.0"), Null, Null, Null, Null, true)
  }

  /** No two entries go to one row, and every entry with a row can be written. */
  ghost predicate CanSync(caps: seq<Cap>) {
    && (forall i, j, name | 0 <= i < j < |caps| :: !(Indexed(caps[i], name) && Indexed(caps[j], name)))
    && (forall i, name | 0 <= i < |caps| && Indexed(caps[i], name) :: Writable(caps[i]))
  }

  lemma EntryMeans(c: Cap, name: string)
    ensures IndexName(c) == Some(name) <==> Indexed(c, name)
    ensures Shows(DetailsOf(c), c)
    ensures DetailsBindable(DetailsOf(c)) <==> Writable(c)
  {
  }

  lemma SyncMeans(caps: seq<Cap>)
    ensures Storable(caps) <==> CanSync(caps)
  {
    forall i, name | 0 <= i < |caps|
      ensures IndexName(caps[i]) == Some(name) <==> Indexed(caps[i], name)
      ensures DetailsBindable(DetailsOf(caps[i])) <==> Writable(caps[i])
    {
      EntryMeans(caps[i], name);
    }
  }

  /** A name is projected exactly when some entry goes to it, and shows the last one that does. */
  lemma {:induction false} ProjectedShows(caps: seq<Cap>, name: string)
    ensures name in Projected(caps) <==> exists i :: 0 <= i < |caps| && Indexed(caps[i], name)
    ensures forall i | 0 <= i < |caps| && Indexed(caps[i], name)
              && (forall j | i < j < |caps| :: !Indexed(caps[j], name)) ::
              name in Projected(caps) && Shows(Projected(caps)[name], caps[i])
  {
    if caps != [] {
      var n := |caps| - 1;
      ProjectedShows(caps[..n], name);
      EntryMeans(caps[n], name);
      assert forall i | 0 <= i < n :: caps[..n][i] == caps[i];
    }
  }

  /** The rows one sync leaves: when it can be done, a row for exactly the names entries go to, each
      showing its entry and stamped now, else the rows it found. */
  ghost predicate SyncEffect(before: Rows, after: Rows, caps: seq<Cap>, now: int) {
    if CanSync(caps) then
      && (forall name :: name in after <==> exists i :: 0 <= i < |caps| && Indexed(caps[i], name))
      && (forall i, name | 0 <= i < |caps| && Indexed(caps[i], name) && name in after ::
            Shows(after[name].details, caps[i]) && after[name].updatedAt == now)
    else after == before
  }

  lemma SyncHasEffect(rows: Rows, caps: seq<Cap>, now: int)
    ensures SyncEffect(rows, Synced(rows, caps, now), caps, now)
  {
    SyncMeans(caps);
    forall name
      ensures name in Projected(caps) <==> exists i :: 0 <= i < |caps| && Indexed(caps[i], name)
      ensures forall i | 0 <= i < |caps| && Indexed(caps[i], name)
                && (forall j | i < j < |caps| :: !Indexed(caps[j], name)) ::
                name in Projected(caps) && Shows(Projected(caps)[name], caps[i])
    {
      ProjectedShows(caps, name);
    }
  }

  /** The rows a backfill leaves that is done: those it found, except that each name an entry goes to
      shows the last such entry and is stamped now. */
  ghost predicate BackfillEffect(before: Rows, after: Rows, caps: seq<Cap>, done: bool, now: int) {
    if !done then after == before
    else
      forall name ::
        if forall i | 0 <= i < |caps| :: !Indexed(caps[i], name) then
          (name in after <==> name in before) && (name in before ==> after[name] == before[name])
        else
          && name in after && after[name].updatedAt == now
          && forall i | 0 <= i < |caps| && Indexed(caps[i], name)
               && (forall j | i < j < |caps| :: !Indexed(caps[j], name)) :: Shows(after[name].details, caps[i])
  }

  lemma BackfillHasEffect(rows: Rows, caps: seq<Cap>, done: bool, now: int)
    ensures BackfillEffect(rows, Backfilled(rows, caps, done, now), caps, done, now)
  {
    forall name
      ensures name in Projected(caps) <==> exists i :: 0 <= i < |caps| && Indexed(caps[i], name)
      ensures forall i | 0 <= i < |caps| && Indexed(caps[i], name)
                && (forall j | i < j < |caps| :: !Indexed(caps[j], name)) ::
                name in Projected(caps) && Shows(Projected(caps)[name], caps[i])
    {
      ProjectedShows(caps, name);
    }
  }

  lemma DictBindable(dict: seq<Cap>)
    requires IsDict(dict)
    ensures AllBindable(dict) <==> LatestBindable(dict)
  {
    if AllBindable(dict) {
      forall name: string | name != "" && Latest(dict, Some(name)).Some?
        ensures Writable(Latest(dict, Some(name)).value)
      {
        LatestIsMember(dict, Some(name));
        var c := Latest(dict, Some(name)).value;
        assert EntryBindable(c);
        EntryMeans(c, name);
      }
    }
    if LatestBindable(dict) {
      forall i | 0 <= i < |dict| ensures EntryBindable(dict[i]) {
        LatestInDict(dict, dict[i]);
        EntryMeans(dict[i], if dict[i].name.Some? then dict[i].name.value else "");
      }
    }
  }

  /** A merge can be synced exactly when what column and report tell last of every real name can
      be written; it never repeats a name. */
  lemma MergeIsStorable(column: seq<Cap>, report: seq<Cap>)
    ensures Storable(Merged(column, report)) <==> LatestBindable(column + report)
  {
    var merged := Merged(column, report);
    assert DistinctNames(merged);
    DictBindable(merged);
    forall name: string | name != "" ensures Latest(merged, Some(name)) == Latest(column + report, Some(name)) {
      MergedIsUnion(column, report, Some(name));
      LatestOfBoth(column, report, Some(name));
    }
  }

  /** After a sync the index agrees exactly when the entries have distinct names and can be
      written, or it said the same before. */
  lemma SyncAgrees(rows: Rows, caps: seq<Cap>, now: int)
    ensures Agrees(Synced(rows, caps, now), caps) <==> Storable(caps) || Agrees(rows, caps)
  {
    if Storable(caps) {
      assert Unstamped(Stamped(Projected(caps), now)) == Projected(caps);
    }
  }

  /** A merge brings any index back into agreement exactly when what was told last of every real
      name can be written, or it agreed already. */
  lemma MergeHeals(rows: Rows, column: seq<Cap>, report: seq<Cap>, now: int)
    ensures Agrees(Synced(rows, Merged(column, report), now), Merged(column, report)) <==>
      LatestBindable(column + report) || Agrees(rows, Merged(column, report))
  {
    MergeIsStorable(column, report);
    SyncAgrees(rows, Merged(column, report), now);
  }

  /** A replace that repeats a name is stored in the column and leaves the index behind; the next
      merge heals it. */
  lemma RepeatedNameLeavesIndexBehind(now: int)
    ensures var caps := [Cap(Some("a"), map[]), Cap(Some("a"), map[])];
      && Synced(map[], caps, now) == map[] && !Agrees(map[], caps)
      && Agrees(Synced(map[], Merged(caps, []), now), Merged(caps, []))
  {
    var a := Cap(Some("a"), map[]);
    var caps := [a, a];
    assert IndexName(caps[0]) == IndexName(caps[1]) == Some("a");
    assert "a" in Projected(caps);
    assert "a" !in Unstamped(map[]);
    forall name: string | Latest(caps + [], Some(name)).Some? ensures Latest(caps + [], Some(name)).value == a {
      LatestIsMember(caps + [], Some(name));
    }
    MergeHeals(map[], caps, [], now);
  }

  /** A replace with a type that is a list is stored in the column and leaves the index behind,
      and so does every merge that does not report the name again. */
  lemma UnbindableTypeLeavesIndexBehind(report: seq<Cap>, now: int)
    requires Latest(report, Some("a")).None?
    ensures var caps := [Cap(Some("a"), map["type" := Arr([Str("x")])])];
      && DistinctNames(caps) && Synced(map[], caps, now) == map[] && !Agrees(map[], caps)
      && Synced(map[], Merged(caps, report), now) == map[] && !Agrees(map[], Merged(caps, report))
  {
    var a := Cap(Some("a"), map["type" := Arr([Str("x")])]);
    var caps := [a];
    assert !EntryBindable(caps[0]);
    assert "a" in Projected(caps);
    assert "a" !in Unstamped(map[]);
    LatestOfBoth(caps, report, Some("a"));
    assert Latest(caps, Some("a")) == Some(a);
    MergeIsStorable(caps, report);
    MergedIsUnion(caps, report, Some("a"));
    ProjectedIsLatest(Merged(caps, report), "a");
  }

  /** A startup backfill of an index that agrees changes nothing but time stamps, and those of
      every row. */
  lemma BackfillOnlyStamps(rows: Rows, caps: seq<Cap>, done: bool, now: int)
    requires Agrees(rows, caps)
    ensures Unstamped(Backfilled(rows, caps, done, now)) == Unstamped(rows)
    ensures done ==> forall name | name in rows :: Backfilled(rows, caps, done, now)[name].updatedAt == now
  {
    assert Unstamped(rows).Keys == rows.Keys;
    assert Stamped(Projected(caps), now).Keys == rows.Keys;
  }

  /** A backfill that succeeds repairs every index but one with rows the column no longer has:
      those it keeps. One that fails repairs nothing. */
  lemma BackfillAgrees(rows: Rows, caps: seq<Cap>, done: bool, now: int)
    ensures Agrees(Backfilled(rows, caps, done, now), caps) <==>
      if done then rows.Keys <= Projected(caps).Keys else Agrees(rows, caps)
  {
    var after := Backfilled(rows, caps, true, now);
    assert after.Keys == rows.Keys + Projected(caps).Keys;
    assert Unstamped(after).Keys == after.Keys;
    if rows.Keys <= Projected(caps).Keys {
      assert after.Keys == Projected(caps).Keys;
      assert Unstamped(after) == Projected(caps);
    }
  }

  // ---- Column and index over a run ------------------------------------------------------

  datatype Entry = Entry(column: seq<Cap>, rows: Rows)

  /** A heartbeat with capabilities, or a server start, whose backfill may fail on another node. */
  datatype Event = Reported(beat: Beat, at: int) | Started(othersFit: bool, at: int)

  ghost function AfterEvent(e: Entry, event: Event): Entry {
    match event
    case Reported(beat, at) => Entry(AfterBeat(e.column, beat), Synced(e.rows, AfterBeat(e.column, beat), at))
    case Started(othersFit, at) =>
      Entry(e.column, Backfilled(e.rows, e.column, othersFit && AllBindable(e.column), at))
  }

  ghost function AfterEvents(e: Entry, events: seq<Event>): Entry {
    if events == [] then e else AfterEvent(AfterEvents(e, events[..|events| - 1]), events[|events| - 1])
  }

  /** A report that can be written: a replacing one with distinct names too. */
  predicate GoodReport(event: Event) {
    event.Reported? ==> if event.beat.replace then Storable(event.beat.report) else AllBindable(event.beat.report)
  }

  lemma LatestStaysBindable(column: seq<Cap>, report: seq<Cap>)
    requires AllBindable(column) && AllBindable(report)
    ensures LatestBindable(column + report)
  {
    forall name: string | name != "" && Latest(column + report, Some(name)).Some?
      ensures Writable(Latest(column + report, Some(name)).value)
    {
      LatestIsMember(column + report, Some(name));
      assert EntryBindable(Latest(column + report, Some(name)).value);
      EntryMeans(Latest(column + report, Some(name)).value, name);
    }
  }

  /** When every report can be written, replaces with distinct names, column and index agree
      throughout every run of merges, replaces and restarts. */
  lemma {:induction false} AlwaysAgrees(e: Entry, events: seq<Event>)
    requires Agrees(e.rows, e.column) && AllBindable(e.column)
    requires forall i | 0 <= i < |events| :: GoodReport(events[i])
    ensures Agrees(AfterEvents(e, events).rows, AfterEvents(e, events).column)
    ensures AllBindable(AfterEvents(e, events).column)
  {
    if events != [] {
      var before := events[..|events| - 1];
      assert forall i | 0 <= i < |before| :: before[i] == events[i];
      AlwaysAgrees(e, before);
      var was := AfterEvents(e, before);
      assert GoodReport(events[|events| - 1]);
      match events[|events| - 1]
      case Reported(beat, at) =>
        if !beat.replace {
          LatestStaysBindable(was.column, beat.report);
          MergeIsStorable(was.column, beat.report);
        }
        SyncAgrees(was.rows, AfterBeat(was.column, beat), at);
      case Started(othersFit, at) =>
        BackfillOnlyStamps(was.rows, was.column, othersFit && AllBindable(was.column), at);
    }
  }

  /** After any heartbeats that end in a merge the sync succeeds exactly when what was told last of
      every real name since the last replace can be written. */
  lemma LastMergeIsStorable(column: seq<Cap>, beats: seq<Beat>)
    requires beats != [] && !beats[|beats| - 1].replace
    ensures Storable(AfterBeats(column, beats)) <==> LatestBindable(Told(column, beats))
  {
    var before := AfterBeats(column, beats[..|beats| - 1]);
    var report := beats[|beats| - 1].report;
    MergeIsStorable(before, report);
    var told := Told(column, beats);
    forall name: string | name != "" ensures Latest(before + report, Some(name)) == Latest(told, Some(name)) {
      ColumnIsUnion(column, beats, Some(name));
      MergedIsUnion(before, report, Some(name));
      LatestOfBoth(before, report, Some(name));
    }
  }

  /** The index then offers a real name exactly when it was told since the last replace, with what
      was told of it last; otherwise the index is left as it was. */
  lemma IndexIsWhatWasTold(column: seq<Cap>, beats: seq<Beat>, rows: Rows, now: int, name: string)
    requires beats != [] && !beats[|beats| - 1].replace && name != ""
    ensures var after := Synced(rows, AfterBeats(column, beats), now);
      var told := Told(column, beats);
      if LatestBindable(told) then
        && (name in after <==> Latest(told, Some(name)).Some?)
        && (name in after ==>
              && after[name].details == DetailsOf(Latest(told, Some(name)).value)
              && Shows(after[name].details, Latest(told, Some(name)).value))
      else after == rows
  {
    LastMergeIsStorable(column, beats);
    ColumnIsUnion(column, beats, Some(name));
    ProjectedIsLatest(AfterBeats(column, beats), name);
    var after := Synced(rows, AfterBeats(column, beats), now);
    assert Unstamped(after).Keys == after.Keys;
    assert name in after ==> Unstamped(after)[name] == after[name].details;
  }
}
