/**
  Forward slots as a node declares them: the normalisers of one declaration entry, and the
  replacement of a node's rows, which checks the whole declaration before it writes.
 */
module Slots {
  import opened Prelude
  import opened ForwardErrors
  import opened JsonValues

  const SLOT_MAX_CHARS := 64

  datatype SlotType = Forward | Text | Boolean

  datatype SlotRef = SlotRef(slot: string, field: string)

  /** A row of `forward_slots`; rows older than typed slots have no type. The column `label` is
      `caption` here. */
  datatype SlotRow = SlotRow(
    slotType: Option<SlotType>,
    value: Json,
    ref: Option<SlotRef>,
    schema: Json,
    caption: Option<string>,
    description: Option<string>)

  datatype Entry = Entry(slot: string, row: SlotRow)

  /** The rows of `forward_slots`, grouped by node. */
  type Declared = map<string, SlotRow>
  type SlotTable = map<string, Declared>

  // ---- Slot names -----------------------------------------------------------------------

  predicate IsSlotChar(c: char) {
    'A' <= c <= 'Z' || 'a' <= c <= 'z' || '0' <= c <= '9' || c == '_' || c == '-'
  }

  predicate SlotOk(slot: string) {
    1 <= |slot| <= SLOT_MAX_CHARS && forall c | c in slot :: IsSlotChar(c)
  }

  function Digits(n: nat): string {
    if n < 10 then [('0' as int + n) as char] else Digits(n / 10) + [('0' as int + n % 10) as char]
  }

  /** `str` of an integer. */
  function Decimal(i: int): string {
    if i < 0 then "-" + Digits(-i) else Digits(i)
  }

  lemma {:induction false} DigitsAreSlotChars(n: nat)
    ensures Digits(n) != "" && forall c | c in Digits(n) :: IsSlotChar(c)
  {
    if n >= 10 { DigitsAreSlotChars(n / 10); }
  }

  function NormalizeSlot(value: Json): Result<string, ForwardError> {
    if !value.Int? && !value.Str? then Err(MappingInvalid) else
    var slot := Strip(if value.Int? then Decimal(value.i) else value.s);
    if SlotOk(slot) then Ok(slot) else Err(MappingInvalid)
  }

  lemma SlotCharsAreTrimmed(slot: string)
    requires forall c | c in slot :: IsSlotChar(c)
    ensures Strip(slot) == slot
  {
    assert slot != "" ==> slot[0] in slot && slot[|slot| - 1] in slot;
    StripTrims(slot);
  }

  /** A normalised slot is its own normal form, and an integer is refused for its length only. */
  lemma NormalizeSlotIsStable(value: Json)
    ensures NormalizeSlot(value).Ok? ==> NormalizeSlot(Str(NormalizeSlot(value).value)) == NormalizeSlot(value)
    ensures value.Int? ==> (NormalizeSlot(value) == Ok(Decimal(value.i)) <==> |Decimal(value.i)| <= SLOT_MAX_CHARS)
  {
    if NormalizeSlot(value).Ok? { SlotCharsAreTrimmed(NormalizeSlot(value).value); }
    if value.Int? {
      DigitsAreSlotChars(if value.i < 0 then -value.i else value.i);
      SlotCharsAreTrimmed(Decimal(value.i));
    }
  }

  // ---- Types, values and refs -----------------------------------------------------------

  function TypeName(t: SlotType): string {
    match t
    case Forward => "forward"
    case Text => "text"
    case Boolean => "bool"
  }

  function NormalizeSlotType(value: Json): Result<SlotType, ForwardError> {
    if value.Null? then Ok(Forward)
    else if !value.Str? then Err(SlotInvalid)
    else
      var name := Strip(value.s);
      if name == "forward" then Ok(Forward)
      else if name == "text" then Ok(Text)
      else if name == "bool" then Ok(Boolean)
      else Err(SlotInvalid)
  }

  function NormalizeSlotValue(t: SlotType, value: Json): Result<Json, ForwardError> {
    if value.Null? || (t.Text? && value.Str?) || (t.Boolean? && value.Bool?) then Ok(value) else Err(SlotInvalid)
  }

  /** A ref is whole or absent; a ref field that is no string counts as absent. */
  function NormalizeSlotRef(entry: Fields, t: SlotType): Result<Option<SlotRef>, ForwardError> {
    var slot, field := Get(entry, "ref_slot"), Get(entry, "ref_field");
    if t.Forward? then
      if slot.Null? && field.Null? then Ok(None) else Err(SlotInvalid)
    else if !slot.Null? != field.Str? then Err(SlotInvalid)
    else if slot.Null? then Ok(None)
    else
      match NormalizeSlot(slot)
      case Ok(name) => Ok(Some(SlotRef(name, field.s)))
      case Err(_) => Err(SlotInvalid)
  }

  /** A label or description: trimmed text, anything else is dropped. */
  function NormalizeText(value: Json): Option<string> {
    if value.Str? && Strip(value.s) != "" then Some(Strip(value.s)) else None
  }

  function NormalizeSchema(t: SlotType, schema: Json): Result<Json, ForwardError> {
    if schema.Null? || (t.Forward? && schema.Obj?) then Ok(schema) else Err(SlotInvalid)
  }

  function ParseEntry(entry: Json): Result<Entry, ForwardError> {
    if !entry.Obj? then Err(SlotInvalid) else
    var fields := entry.fields;
    var slot :- NormalizeSlot(Get(fields, "slot"));
    var slotType :- NormalizeSlotType(Get(fields, "type"));
    var value :- NormalizeSlotValue(slotType, Get(fields, "value"));
    var ref :- NormalizeSlotRef(fields, slotType);
    var schema :- NormalizeSchema(slotType, Get(fields, "input_schema"));
    Ok(Entry(slot, SlotRow(Some(slotType), value, ref, schema,
                           NormalizeText(Get(fields, "label")), NormalizeText(Get(fields, "description")))))
  }

  predicate ValueRowOk(row: SlotRow) {
    (row.ref.Some? ==> SlotOk(row.ref.value.slot)) && row.schema.Null?
  }

  /** What a stored row may hold: routing slots carry neither value nor ref, value slots no schema. */
  predicate RowOk(row: SlotRow) {
    match row.slotType
    case None => row.value.Null? && row.ref.None? && row.schema.Null?
    case Some(Forward) => row.value.Null? && row.ref.None? && (row.schema.Null? || row.schema.Obj?)
    case Some(Text) => (row.value.Null? || row.value.Str?) && ValueRowOk(row)
    case Some(Boolean) => (row.value.Null? || row.value.Bool?) && ValueRowOk(row)
  }

  lemma ParsedRowOk(entry: Json)
    requires ParseEntry(entry).Ok?
    ensures SlotOk(ParseEntry(entry).value.slot) && ParseEntry(entry).value.row.slotType.Some?
    ensures RowOk(ParseEntry(entry).value.row)
  {
  }

  function OptionJson(text: Option<string>): Json {
    match text
    case None => Null
    case Some(s) => Str(s)
  }

  /** A parsed entry written as a declaration again. */
  function EntryJson(e: Entry): Json
    requires e.row.slotType.Some?
  {
    Obj(map["slot" := Str(e.slot), "type" := Str(TypeName(e.row.slotType.value)), "value" := e.row.value,
            "ref_slot" := if e.row.ref.Some? then Str(e.row.ref.value.slot) else Null,
            "ref_field" := if e.row.ref.Some? then Str(e.row.ref.value.field) else Null,
            "input_schema" := e.row.schema,
            "label" := OptionJson(e.row.caption), "description" := OptionJson(e.row.description)])
  }

  lemma RefIsStable(fields: Fields, t: SlotType, ref: Option<SlotRef>)
    requires t.Forward? ==> ref.None?
    requires ref.Some? ==> SlotOk(ref.value.slot)
    requires Get(fields, "ref_slot") == (if ref.Some? then Str(ref.value.slot) else Null)
    requires Get(fields, "ref_field") == (if ref.Some? then Str(ref.value.field) else Null)
    ensures NormalizeSlotRef(fields, t) == Ok(ref)
  {
    if ref.Some? { SlotCharsAreTrimmed(ref.value.slot); }
  }

  lemma TypeIsStable(t: SlotType)
    ensures NormalizeSlotType(Str(TypeName(t))) == Ok(t)
  {
    StripTrims(TypeName(t));
  }

  /** Declaring a parsed entry again parses to the same entry. */
  lemma ParseIsStable(entry: Json)
    requires ParseEntry(entry).Ok?
    ensures ParseEntry(EntryJson(ParseEntry(entry).value)) == ParseEntry(entry)
  {
    var e := ParseEntry(entry).value;
    ParsedRowOk(entry);
    assert NormalizeText(OptionJson(e.row.caption)) == e.row.caption by { TextIsStable(Get(entry.fields, "label")); }
    assert NormalizeText(OptionJson(e.row.description)) == e.row.description
        by { TextIsStable(Get(entry.fields, "description")); }
    EntryParses(e);
  }

  lemma EntryFields(e: Entry)
    requires e.row.slotType.Some?
    ensures var fields := EntryJson(e).fields;
      && Get(fields, "slot") == Str(e.slot) && Get(fields, "type") == Str(TypeName(e.row.slotType.value))
      && Get(fields, "value") == e.row.value && Get(fields, "input_schema") == e.row.schema
      && Get(fields, "ref_slot") == (if e.row.ref.Some? then Str(e.row.ref.value.slot) else Null)
      && Get(fields, "ref_field") == (if e.row.ref.Some? then Str(e.row.ref.value.field) else Null)
      && Get(fields, "label") == OptionJson(e.row.caption)
          && Get(fields, "description") == OptionJson(e.row.description)
  {
  }

  /** An entry parses from its parsed parts. */
  lemma ParsedParts(fields: Fields, e: Entry)
    requires NormalizeSlot(Get(fields, "slot")) == Ok(e.slot)
    requires e.row.slotType.Some? && NormalizeSlotType(Get(fields, "type")) == Ok(e.row.slotType.value)
    requires NormalizeSlotValue(e.row.slotType.value, Get(fields, "value")) == Ok(e.row.value)
    requires NormalizeSlotRef(fields, e.row.slotType.value) == Ok(e.row.ref)
    requires NormalizeSchema(e.row.slotType.value, Get(fields, "input_schema")) == Ok(e.row.schema)
    requires NormalizeText(Get(fields, "label")) == e.row.caption
        && NormalizeText(Get(fields, "description")) == e.row.description
    ensures ParseEntry(Obj(fields)) == Ok(e)
  {
  }

  lemma EntryParses(e: Entry)
    requires SlotOk(e.slot) && e.row.slotType.Some? && RowOk(e.row)
    requires NormalizeText(OptionJson(e.row.caption)) == e.row.caption
    requires NormalizeText(OptionJson(e.row.description)) == e.row.description
    ensures ParseEntry(EntryJson(e)) == Ok(e)
  {
    EntryFields(e);
    assert NormalizeSlot(Str(e.slot)) == Ok(e.slot) by { SlotCharsAreTrimmed(e.slot); }
    TypeIsStable(e.row.slotType.value);
    RefIsStable(EntryJson(e).fields, e.row.slotType.value, e.row.ref);
    ParsedParts(EntryJson(e).fields, e);
  }

  lemma TextIsStable(value: Json)
    ensures NormalizeText(OptionJson(NormalizeText(value))) == NormalizeText(value)
  {
    if value.Str? {
      StripTrims(value.s);
      StripTrims(Strip(value.s));
    }
  }

  // ---- Declared field names -------------------------------------------------------------

  /** One field spec: an object whose name, if it has a true one, can be a dictionary key. */
  predicate SpecOk(spec: Json) {
    spec.Obj? && var name := Get(spec.fields, "name"); !(Truthy(name) && (name.Arr? || name.Obj?))
  }

  /** The name a spec declares, its key by default; a name that is no string declares none. */
  function SpecName(spec: Json, key: string): Option<string>
    requires SpecOk(spec)
  {
    var name := Get(spec.fields, "name");
    if !Truthy(name) then Some(key) else if name.Str? then Some(name.s) else None
  }

  function KeyedNames(specs: Fields): Result<set<string>, ForwardError> {
    if exists key | key in specs :: !SpecOk(specs[key]) then Err(BindingInvalid)
    else Ok(set key | key in specs && SpecName(specs[key], key).Some? :: SpecName(specs[key], key).value)
  }

  function ListedNames(specs: seq<Json>): Result<set<string>, ForwardError> {
    if exists i | 0 <= i < |specs| :: !SpecOk(specs[i]) then Err(BindingInvalid)
    else Ok(set i | 0 <= i < |specs| && SpecName(specs[i], "field_" + Digits(i)).Some? ::
        SpecName(specs[i], "field_" + Digits(i)).value)
  }

  /** The field names of an input schema: nested under `fields` or flat, keyed or listed. */
  function SchemaFieldNames(schema: Json): Result<set<string>, ForwardError> {
    if !schema.Obj? then Err(BindingInvalid)
    else if schema.fields == map[] then Ok({})
    else if "fields" !in schema.fields then KeyedNames(schema.fields)
    else
      match schema.fields["fields"]
      case Obj(specs) => KeyedNames(specs)
      case Arr(specs) => ListedNames(specs)
      case Str(text) => if text == "" then Ok({}) else Err(BindingInvalid)
      case _ => Err(BindingInvalid)
  }

  // ---- A whole declaration --------------------------------------------------------------

  /** Every item parsed, or the refusal of the first that is refused. */
  function Collect<T>(parse: Json -> Result<T, ForwardError>, items: seq<Json>): Result<seq<T>, ForwardError> {
    if items == [] then Ok([]) else
    var before :- Collect(parse, items[..|items| - 1]);
    var last :- parse(items[|items| - 1]);
    Ok(before + [last])
  }

  function ParseAll(items: seq<Json>): Result<seq<Entry>, ForwardError> {
    Collect(ParseEntry, items)
  }

  /** Later entries of the same slot win. */
  function LastWins(entries: seq<Entry>): Declared {
    if entries == [] then map[]
    else LastWins(entries[..|entries| - 1])[entries[|entries| - 1].slot := entries[|entries| - 1].row]
  }

  /** A ref names a forward slot of the same declaration whose schema declares the field. */
  predicate RefHolds(declared: Declared, row: SlotRow) {
    row.ref.Some? ==>
      && row.ref.value.slot in declared
      && var referenced := declared[row.ref.value.slot];
      && referenced.slotType == Some(Forward)
      && !referenced.schema.Null?
      && SchemaFieldNames(referenced.schema).Ok?
      && row.ref.value.field in SchemaFieldNames(referenced.schema).value
  }

  /** The whole check of a declaration, before anything is written. */
  function CheckDeclaration(slots: Json): Result<seq<Entry>, ForwardError> {
    if !slots.Arr? then Err(SlotInvalid) else
    var entries :- ParseAll(slots.items);
    if forall i | 0 <= i < |entries| :: RefHolds(LastWins(entries), entries[i].row) then Ok(entries)
        else Err(SlotInvalid)
  }

  /** The rows after `node` declares `slots`, and what the call returns. */
  function Replaced(nodes: set<string>, table: SlotTable, node: string,
                    slots: Json): (Result<nat, ForwardError>, SlotTable) {
    match CheckDeclaration(slots)
    case Err(e) => (Err(e), table)
    case Ok(entries) =>
      if node !in nodes then (Err(NodeUnknown), table)
      else (Ok(|entries|), if entries == [] then table - {node} else table[node := LastWins(entries)])
  }

  /** Every stored ref names a forward slot of the same node whose schema declares that field. */
  ghost predicate RefsSound(table: SlotTable) {
    forall n, s :: n in table && s in table[n] ==> RefHolds(table[n], table[n][s])
  }

  ghost predicate RowsSound(table: SlotTable) {
    forall n, s :: n in table && s in table[n] ==> SlotOk(s) && RowOk(table[n][s])
  }

  lemma {:induction false} CollectedAt<T>(parse: Json -> Result<T, ForwardError>, items: seq<Json>)
    requires Collect(parse, items).Ok?
    ensures |Collect(parse, items).value| == |items|
    ensures forall i | 0 <= i < |items| :: parse(items[i]) == Ok(Collect(parse, items).value[i])
  {
    if items != [] {
      var n := |items| - 1;
      CollectedAt(parse, items[..n]);
      assert forall i | 0 <= i < n :: items[..n][i] == items[i];
    }
  }

  lemma ParsedRowsOk(items: seq<Json>)
    requires ParseAll(items).Ok?
    ensures forall i | 0 <= i < |ParseAll(items).value| ::
      SlotOk(ParseAll(items).value[i].slot) && RowOk(ParseAll(items).value[i].row)
  {
    CollectedAt(ParseEntry, items);
    forall i | 0 <= i < |ParseAll(items).value|
      ensures SlotOk(ParseAll(items).value[i].slot) && RowOk(ParseAll(items).value[i].row)
    {
      assert ParseEntry(items[i]) == Ok(ParseAll(items).value[i]);
      ParsedRowOk(items[i]);
    }
  }

  lemma {:induction false} LastWinsNames(entries: seq<Entry>, s: string)
    ensures s in LastWins(entries) <==> exists i :: 0 <= i < |entries| && entries[i].slot == s
  {
    if entries != [] {
      var before := entries[..|entries| - 1];
      LastWinsNames(before, s);
      assert forall i | 0 <= i < |before| :: before[i] == entries[i];
    }
  }

  /** The stored row of a slot is the last entry that names it. */
  lemma {:induction false} LastWinsIsLast(entries: seq<Entry>, i: nat)
    requires i < |entries| && forall j | i < j < |entries| :: entries[j].slot != entries[i].slot
    ensures entries[i].slot in LastWins(entries) && LastWins(entries)[entries[i].slot] == entries[i].row
  {
    var n := |entries| - 1;
    if i < n {
      assert forall j | i < j < n :: entries[..n][j] == entries[j];
      LastWinsIsLast(entries[..n], i);
    }
  }

  lemma {:induction false} LastWinsIsListed(entries: seq<Entry>, s: string)
    requires s in LastWins(entries)
    ensures exists i :: 0 <= i < |entries| && entries[i].slot == s && entries[i].row == LastWins(entries)[s]
  {
    var n := |entries| - 1;
    if entries[n].slot != s { LastWinsIsListed(entries[..n], s); }
  }

  ghost predicate NamedOnce(entries: seq<Entry>) {
    forall i, j :: 0 <= i < j < |entries| ==> entries[i].slot != entries[j].slot
  }

  lemma {:induction false} RowsAtMostEntries(entries: seq<Entry>)
    ensures |LastWins(entries)| <= |entries|
    ensures |LastWins(entries)| == |entries| <==> NamedOnce(entries)
  {
    if entries != [] {
      var n := |entries| - 1;
      var before := entries[..n];
      RowsAtMostEntries(before);
      LastWinsNames(before, entries[n].slot);
      assert forall i | 0 <= i < n :: before[i] == entries[i];
      var rows := LastWins(before);
      assert LastWins(entries).Keys == rows.Keys + {entries[n].slot};
      assert |LastWins(entries)| == |LastWins(entries).Keys|;
      assert |rows| == |rows.Keys|;
      if entries[n].slot in rows {
        assert LastWins(entries).Keys == rows.Keys;
      }
    }
  }

  /** The count an accepted declaration returns is the number of rows it leaves exactly when it
      names no slot twice; else it is more. */
  lemma CountIsStored(nodes: set<string>, table: SlotTable, node: string, slots: Json)
    requires Replaced(nodes, table, node, slots).0.Ok?
    ensures var (count, after) := Replaced(nodes, table, node, slots);
      var stored := if node in after then |after[node]| else 0;
      && stored <= count.value
      && (stored == count.value <==> NamedOnce(CheckDeclaration(slots).value))
  {
    RowsAtMostEntries(CheckDeclaration(slots).value);
  }

  lemma CollectNext<T>(parse: Json -> Result<T, ForwardError>, before: seq<Json>, item: Json)
    requires Collect(parse, before).Ok? && parse(item).Ok?
    ensures Collect(parse, before + [item]) == Ok(Collect(parse, before).value + [parse(item).value])
  {
    assert (before + [item])[..|before|] == before;
  }

  lemma LastWinsNext(before: seq<Entry>, e: Entry)
    ensures LastWins(before + [e]) == LastWins(before)[e.slot := e.row]
  {
    assert (before + [e])[..|before|] == before;
  }

  lemma CollectOne<T>(parse: Json -> Result<T, ForwardError>, item: Json)
    requires parse(item).Ok?
    ensures Collect(parse, [item]) == Ok([parse(item).value])
  {
    assert Collect(parse, [item][..0]) == Ok([]);
    assert Collect(parse, [item]).value == [parse(item).value];
  }

  lemma CollectTwice<T>(parse: Json -> Result<T, ForwardError>, item: Json)
    requires parse(item).Ok?
    ensures Collect(parse, [item, item]) == Ok([parse(item).value, parse(item).value])
  {
    CollectOne(parse, item);
    CollectNext(parse, [item], item);
    assert [item] + [item] == [item, item];
    assert Collect(parse, [item, item]).value == [parse(item).value, parse(item).value];
  }

  lemma LastWinsTwice(e: Entry)
    ensures LastWins([e, e]) == map[e.slot := e.row]
  {
    assert LastWins([e][..0]) == map[];
    assert LastWins([e]) == map[e.slot := e.row];
    LastWinsNext([e], e);
    assert [e] + [e] == [e, e];
  }

  /** Any item without a ref passes the check when it is declared twice. */
  lemma TwicePasses(item: Json, e: Entry)
    requires ParseEntry(item) == Ok(e) && e.row.ref.None?
    ensures CheckDeclaration(Arr([item, item])) == Ok([e, e])
  {
    CollectTwice(ParseEntry, item);
    assert forall i | 0 <= i < 2 :: RefHolds(LastWins([e, e]), [e, e][i].row);
  }

  lemma PlainSlotParses()
    ensures ParseEntry(Obj(map["slot" := Str("a")])) ==
        Ok(Entry("a", SlotRow(Some(Forward), Null, None, Null, None, None)))
  {
    SlotCharsAreTrimmed("a");
    ParsedParts(map["slot" := Str("a")], Entry("a", SlotRow(Some(Forward), Null, None, Null, None, None)));
  }

  /** A declaration that says `a` twice is counted as two and stores one row. */
  lemma CountedTwice()
    ensures var item := Obj(map["slot" := Str("a")]);
      var (count, after) := Replaced({"n"}, map[], "n", Arr([item, item]));
      count == Ok(2) && "n" in after && |after["n"]| == 1
  {
    PlainSlotParses();
    var e := Entry("a", SlotRow(Some(Forward), Null, None, Null, None, None));
    TwicePasses(Obj(map["slot" := Str("a")]), e);
    LastWinsTwice(e);
  }

  /** Every call leaves the refs sound, and a refused one leaves the rows as they were. */
  lemma ReplacedKeepsSound(nodes: set<string>, table: SlotTable, node: string, slots: Json)
    requires RefsSound(table) && RowsSound(table)
    ensures var (r, after) := Replaced(nodes, table, node, slots);
      && RefsSound(after) && RowsSound(after)
      && (r.Err? ==> after == table)
      && (forall n | n != node :: (n in after <==> n in table) && (n in table ==> after[n] == table[n]))
  {
    if CheckDeclaration(slots).Ok? {
      var entries := CheckDeclaration(slots).value;
      ParsedRowsOk(slots.items);
      forall s | s in LastWins(entries)
        ensures SlotOk(s) && RowOk(LastWins(entries)[s]) && RefHolds(LastWins(entries), LastWins(entries)[s])
      {
        LastWinsIsListed(entries, s);
      }
    }
  }

  /** Refs never chain: what a ref names carries no ref itself. */
  lemma RefsNeverChain(table: SlotTable, n: string, s: string)
    requires RefsSound(table) && RowsSound(table) && n in table && s in table[n] && table[n][s].ref.Some?
    ensures table[n][s].ref.value.slot in table[n] && table[n][table[n][s].ref.value.slot].ref.None?
    ensures table[n][s].ref.value.slot != s
  {
    var r := table[n][s].ref.value.slot;
    assert RefHolds(table[n], table[n][s]);
    assert r in table[n];
    assert SlotOk(r) && RowOk(table[n][r]);
    assert SlotOk(s) && RowOk(table[n][s]);
  }
}
