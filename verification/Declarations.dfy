/**
  What a declared slot says, told by the JSON a node sends: which name, type, value, reference,
  schema and texts an entry stands for, which field names a schema declares, and which
  declarations pass. None of it names a normaliser.
 */
module Declarations {
  import opened Prelude
  import opened ForwardErrors
  import opened JsonValues
  import opened Slots

  // ---- Names ----------------------------------------------------------------------------

  /** The number some decimal digits spell. */
  function NumberOf(digits: string): int {
    if digits == "" then 0
    else NumberOf(digits[..|digits| - 1]) * 10 + (digits[|digits| - 1] as int - '0' as int)
  }

  lemma {:induction false} DigitsSpell(n: nat)
    ensures NumberOf(Digits(n)) == n
    ensures forall c | c in Digits(n) :: '0' <= c <= '9'
    ensures Digits(n) != "" && (n > 0 ==> Digits(n)[0] != '0') && (n == 0 ==> Digits(n) == "0")
  {
    if n < 10 {
      assert Digits(n)[..0] == "";
    } else {
      DigitsSpell(n / 10);
      assert Digits(n)[..|Digits(n)| - 1] == Digits(n / 10);
    }
  }

  /** The text spells the integer: a minus sign for a negative one, digits, no leading zero. */
  predicate SpellsInt(text: string, i: int) {
    var digits := if i < 0 && text != "" then text[1..] else text;
    && text != "" && (i < 0 ==> text[0] == '-')
    && (forall c | c in digits :: '0' <= c <= '9')
    && digits != "" && (digits[0] == '0' ==> digits == "0")
    && NumberOf(digits) == if i < 0 then -i else i
  }

  lemma DecimalSpells(i: int)
    ensures SpellsInt(Decimal(i), i)
  {
    DigitsSpell(if i < 0 then -i else i);
    if i < 0 { assert Decimal(i)[1..] == Digits(-i); }
  }

  /** The value names that slot: 1 to 64 letters, digits, underscores and dashes, around which a
      string may have whitespace and which an integer spells. */
  ghost predicate NamesSlot(value: Json, slot: string) {
    && 1 <= |slot| <= 64
    && (forall c | c in slot :: 'A' <= c <= 'Z' || 'a' <= c <= 'z' || '0' <= c <= '9' || c == '_' || c == '-')
    && match value
       case Str(s) => StripsTo(s, slot)
       case Int(i) => slot == Decimal(i)
       case _ => false
  }

  lemma NormalizeSlotNames(value: Json, slot: string)
    ensures NormalizeSlot(value) == Ok(slot) <==> NamesSlot(value, slot)
    ensures NormalizeSlot(value).Err? ==> NormalizeSlot(value) == Err(MappingInvalid)
  {
    assert SlotOk(slot) <==>
      && 1 <= |slot| <= 64
      && forall c | c in slot :: 'A' <= c <= 'Z' || 'a' <= c <= 'z' || '0' <= c <= '9' || c == '_' || c == '-';
    if value.Str? {
      StripCuts(value.s, slot);
    } else if value.Int? {
      DigitsAreSlotChars(if value.i < 0 then -value.i else value.i);
      SlotCharsAreTrimmed(Decimal(value.i));
    }
  }

  lemma NamedNamesItself(slot: string)
    ensures SlotOk(slot) <==> NamesSlot(Str(slot), slot)
  {
    if SlotOk(slot) { SlotCharsAreTrimmed(slot); }
    NormalizeSlotNames(Str(slot), slot);
  }

  // ---- One entry ------------------------------------------------------------------------

  /** The type an entry asks for; none asks for a routing slot. */
  ghost predicate NamesType(value: Json, t: SlotType) {
    match value
    case Null => t == Forward
    case Str(s) => StripsTo(s, match t case Forward => "forward" case Text => "text" case Boolean => "bool")
    case _ => false
  }

  /** A text column: the trimmed text, or nothing of a blank or of anything else. */
  ghost predicate NamesText(value: Json, text: Option<string>) {
    match text
    case Some(x) => value.Str? && StripsTo(value.s, x) && x != ""
    case None => !value.Str? || StripsTo(value.s, "")
  }

  /** The reference of an entry: none for a routing slot, which may not carry one; for a value slot a
      slot name together with a field, or neither. */
  ghost predicate NamesRef(slot: Json, field: Json, t: SlotType, ref: Option<SlotRef>) {
    if t == Forward then slot == Null && field == Null && ref == None
    else
      match ref
      case None => slot == Null && !field.Str?
      case Some(r) => slot != Null && NamesSlot(slot, r.slot) && field == Str(r.field)
  }

  /** The entry declares that slot with that row. */
  ghost predicate Declares(fields: Fields, slot: string, row: SlotRow) {
    && NamesSlot(Get(fields, "slot"), slot)
    && row.slotType.Some?
    && var t := row.slotType.value;
    && NamesType(Get(fields, "type"), t)
    && row.value == Get(fields, "value")
    && (row.value == Null || (t == Text && row.value.Str?) || (t == Boolean && row.value.Bool?))
    && NamesRef(Get(fields, "ref_slot"), Get(fields, "ref_field"), t, row.ref)
    && row.schema == Get(fields, "input_schema")
    && (row.schema == Null || (t == Forward && row.schema.Obj?))
    && NamesText(Get(fields, "label"), row.caption)
    && NamesText(Get(fields, "description"), row.description)
  }

  lemma TypeNames(value: Json, t: SlotType)
    ensures NormalizeSlotType(value) == Ok(t) <==> NamesType(value, t)
  {
    if value.Str? {
      StripCuts(value.s, TypeName(t));
    }
  }

  lemma TextNames(value: Json, text: Option<string>)
    ensures NormalizeText(value) == text <==> NamesText(value, text)
  {
    if value.Str? {
      StripCuts(value.s, "");
      if text.Some? { StripCuts(value.s, text.value); }
    }
  }

  lemma RefNames(fields: Fields, t: SlotType, ref: Option<SlotRef>)
    ensures NormalizeSlotRef(fields, t) == Ok(ref) <==>
      NamesRef(Get(fields, "ref_slot"), Get(fields, "ref_field"), t, ref)
  {
    if ref.Some? { NormalizeSlotNames(Get(fields, "ref_slot"), ref.value.slot); }
  }

  /** The parts the normalisers make of the entry are those of `e`. */
  predicate PartsAre(fields: Fields, e: Entry) {
    && NormalizeSlot(Get(fields, "slot")) == Ok(e.slot)
    && e.row.slotType.Some? && NormalizeSlotType(Get(fields, "type")) == Ok(e.row.slotType.value)
    && NormalizeSlotValue(e.row.slotType.value, Get(fields, "value")) == Ok(e.row.value)
    && NormalizeSlotRef(fields, e.row.slotType.value) == Ok(e.row.ref)
    && NormalizeSchema(e.row.slotType.value, Get(fields, "input_schema")) == Ok(e.row.schema)
    && NormalizeText(Get(fields, "label")) == e.row.caption
    && NormalizeText(Get(fields, "description")) == e.row.description
  }

  lemma PartsParse(fields: Fields, e: Entry)
    ensures ParseEntry(Obj(fields)) == Ok(e) <==> PartsAre(fields, e)
  {
    if PartsAre(fields, e) {
      ParsedParts(fields, e);
    }
  }

  lemma PartsDeclare(fields: Fields, e: Entry)
    ensures PartsAre(fields, e) <==> Declares(fields, e.slot, e.row)
  {
    NormalizeSlotNames(Get(fields, "slot"), e.slot);
    TextNames(Get(fields, "label"), e.row.caption);
    TextNames(Get(fields, "description"), e.row.description);
    if e.row.slotType.Some? {
      TypeNames(Get(fields, "type"), e.row.slotType.value);
      RefNames(fields, e.row.slotType.value, e.row.ref);
    }
  }

  /** An entry parses to exactly what it declares. */
  lemma ParseMeans(fields: Fields, e: Entry)
    ensures ParseEntry(Obj(fields)) == Ok(e) <==> Declares(fields, e.slot, e.row)
  {
    PartsParse(fields, e);
    PartsDeclare(fields, e);
  }

  // ---- Field names of a schema ----------------------------------------------------------

  /** A name that counts as given. */
  predicate Blank(name: Json) {
    name in {Null, Bool(false), Int(0), Float(0.0), Str(""), Arr([]), Obj(map[])}
  }

  /** One field spec can be read: an object, and a name that is a list or object is empty. */
  predicate SpecReads(spec: Json) {
    spec.Obj? && (Get(spec.fields, "name").Arr? || Get(spec.fields, "name").Obj? ==> Blank(Get(spec.fields, "name")))
  }

  /** The spec under that key declares that field: by its name, or without one by its key. */
  predicate SpecDeclares(spec: Json, key: string, field: string) {
    spec.Obj? && var name := Get(spec.fields, "name"); if Blank(name) then field == key else name == Str(field)
  }

  /** Every field spec of the schema can be read, be they nested, flat, keyed or listed. */
  predicate SchemaReads(schema: Json) {
    && schema.Obj?
    && if "fields" !in schema.fields then forall key | key in schema.fields :: SpecReads(schema.fields[key])
       else
         match schema.fields["fields"]
         case Obj(specs) => forall key | key in specs :: SpecReads(specs[key])
         case Arr(items) => forall i | 0 <= i < |items| :: SpecReads(items[i])
         case other => other == Str("")
  }

  /** Some spec of the schema declares that field; a listed one is keyed by its position. */
  predicate SchemaDeclares(schema: Json, field: string) {
    && schema.Obj?
    && if "fields" !in schema.fields then
         exists key | key in schema.fields :: SpecDeclares(schema.fields[key], key, field)
       else
         match schema.fields["fields"]
         case Obj(specs) => exists key | key in specs :: SpecDeclares(specs[key], key, field)
         case Arr(items) => exists i | 0 <= i < |items| :: SpecDeclares(items[i], "field_" + Digits(i), field)
         case _ => false
  }

  lemma SpecMeans(spec: Json, key: string, field: string)
    ensures SpecOk(spec) <==> SpecReads(spec)
    ensures SpecOk(spec) ==> (SpecName(spec, key) == Some(field) <==> SpecDeclares(spec, key, field))
  {
    if spec.Obj? { FalsyAre(Get(spec.fields, "name")); }
  }

  lemma KeyedMeans(specs: Fields)
    ensures KeyedNames(specs).Ok? <==> forall key | key in specs :: SpecReads(specs[key])
    ensures KeyedNames(specs).Ok? ==> forall field ::
      field in KeyedNames(specs).value <==> exists key | key in specs :: SpecDeclares(specs[key], key, field)
  {
    forall key, field | key in specs
      ensures SpecOk(specs[key]) <==> SpecReads(specs[key])
      ensures SpecOk(specs[key]) ==>
        (SpecName(specs[key], key) == Some(field) <==> SpecDeclares(specs[key], key, field))
    {
      SpecMeans(specs[key], key, field);
    }
    if KeyedNames(specs).Ok? {
      forall field
        ensures field in KeyedNames(specs).value <==> exists key | key in specs :: SpecDeclares(specs[key], key, field)
      {
        if field in KeyedNames(specs).value {
          var key :| key in specs && SpecOk(specs[key]) && SpecName(specs[key], key) == Some(field);
        }
      }
    }
  }

  lemma ListedMeans(items: seq<Json>)
    ensures ListedNames(items).Ok? <==> forall i | 0 <= i < |items| :: SpecReads(items[i])
    ensures ListedNames(items).Ok? ==> forall field ::
      field in ListedNames(items).value <==>
        exists i | 0 <= i < |items| :: SpecDeclares(items[i], "field_" + Digits(i), field)
  {
    forall i, field | 0 <= i < |items|
      ensures SpecOk(items[i]) <==> SpecReads(items[i])
      ensures SpecOk(items[i]) ==>
        (SpecName(items[i], "field_" + Digits(i)) == Some(field) <==>
           SpecDeclares(items[i], "field_" + Digits(i), field))
    {
      SpecMeans(items[i], "field_" + Digits(i), field);
    }
    if ListedNames(items).Ok? {
      forall field
        ensures field in ListedNames(items).value <==>
          exists i | 0 <= i < |items| :: SpecDeclares(items[i], "field_" + Digits(i), field)
      {
        if field in ListedNames(items).value {
          var i :| 0 <= i < |items| && SpecOk(items[i]) && SpecName(items[i], "field_" + Digits(i)) == Some(field);
        }
      }
    }
  }

  /** The names of a schema are the fields its specs declare, if all of them can be read. */
  lemma SchemaMeans(schema: Json)
    ensures SchemaFieldNames(schema).Ok? <==> SchemaReads(schema)
    ensures SchemaFieldNames(schema).Ok? ==>
      forall field :: field in SchemaFieldNames(schema).value <==> SchemaDeclares(schema, field)
  {
    if schema.Obj? {
      if "fields" !in schema.fields {
        KeyedMeans(schema.fields);
      } else if schema.fields["fields"].Obj? {
        KeyedMeans(schema.fields["fields"].fields);
      } else if schema.fields["fields"].Arr? {
        ListedMeans(schema.fields["fields"].items);
      }
    }
  }

  // ---- A whole declaration --------------------------------------------------------------

  /** Item `i` declares the slot with that row, and no later item declares it again. */
  ghost predicate LastDeclares(items: seq<Json>, i: nat, slot: string, row: SlotRow) {
    && i < |items| && items[i].Obj? && Declares(items[i].fields, slot, row)
    && forall j, other | i < j < |items| && items[j].Obj? :: !Declares(items[j].fields, slot, other)
  }

  /** The row's reference, if any, leads to a routing slot of the same declaration, whose schema can
      be read and declares the field. */
  ghost predicate RefLeads(items: seq<Json>, row: SlotRow) {
    row.ref.Some? ==>
      exists i: nat, to: SlotRow ::
        && LastDeclares(items, i, row.ref.value.slot, to)
        && to.slotType == Some(Forward) && SchemaReads(to.schema) && SchemaDeclares(to.schema, row.ref.value.field)
  }

  lemma ItemParses(item: Json)
    ensures ParseEntry(item).Ok? <==> item.Obj? && exists e: Entry :: Declares(item.fields, e.slot, e.row)
  {
    if item.Obj? {
      if ParseEntry(item).Ok? {
        ParseMeans(item.fields, ParseEntry(item).value);
      }
      if e: Entry :| Declares(item.fields, e.slot, e.row) {
        ParseMeans(item.fields, e);
      }
    }
  }

  lemma ParsedItems(items: seq<Json>)
    ensures ParseAll(items).Ok? <==>
      forall i | 0 <= i < |items| :: items[i].Obj? && exists e: Entry :: Declares(items[i].fields, e.slot, e.row)
    ensures ParseAll(items).Ok? ==>
      && |ParseAll(items).value| == |items|
      && forall i | 0 <= i < |items| ::
           items[i].Obj? && Declares(items[i].fields, ParseAll(items).value[i].slot, ParseAll(items).value[i].row)
    decreases |items|
  {
    forall i | 0 <= i < |items|
      ensures ParseEntry(items[i]).Ok? <==>
        items[i].Obj? && exists e: Entry :: Declares(items[i].fields, e.slot, e.row)
    {
      ItemParses(items[i]);
    }
    ItemsParse(items);
    if ParseAll(items).Ok? {
      CollectedAt(ParseEntry, items);
      forall i | 0 <= i < |items|
        ensures items[i].Obj? && Declares(items[i].fields, ParseAll(items).value[i].slot, ParseAll(items).value[i].row)
      {
        ItemParses(items[i]);
        ParseMeans(items[i].fields, ParseAll(items).value[i]);
      }
    }
  }

  lemma {:induction false} ItemsParse(items: seq<Json>)
    ensures ParseAll(items).Ok? <==> forall i | 0 <= i < |items| :: ParseEntry(items[i]).Ok?
    decreases |items|
  {
    if items != [] {
      var before := items[..|items| - 1];
      ItemsParse(before);
      assert forall i | 0 <= i < |before| :: before[i] == items[i];
    }
  }

  /** Every item declares a slot, and every reference of the declaration leads somewhere. */
  ghost predicate DeclarationHolds(declaration: Json) {
    && declaration.Arr?
    && var items := declaration.items;
    && (forall i | 0 <= i < |items| ::
          items[i].Obj? && exists e: Entry :: Declares(items[i].fields, e.slot, e.row))
    && (forall i, e: Entry | 0 <= i < |items| && Declares(items[i].fields, e.slot, e.row) :: RefLeads(items, e.row))
  }

  /** The stored row of a slot is the one its last item declares. */
  lemma LastRow(items: seq<Json>, slot: string, row: SlotRow)
    requires ParseAll(items).Ok?
    ensures (slot in LastWins(ParseAll(items).value) && LastWins(ParseAll(items).value)[slot] == row) <==>
      exists i: nat :: LastDeclares(items, i, slot, row)
  {
    var entries := ParseAll(items).value;
    ParsedItems(items);
    if slot in LastWins(entries) && LastWins(entries)[slot] == row {
      var i := LastNaming(entries, slot);
      LastWinsIsLast(entries, i);
      assert entries[i].row == row;
      forall j, other | i < j < |items| && items[j].Obj? ensures !Declares(items[j].fields, slot, other) {
        OneReading(items[j].fields, entries[j], Entry(slot, other));
      }
      assert LastDeclares(items, i, slot, row);
    }
    if i: nat :| LastDeclares(items, i, slot, row) {
      OneReading(items[i].fields, entries[i], Entry(slot, row));
      forall j | i < j < |entries| ensures entries[j].slot != slot {
        assert Declares(items[j].fields, entries[j].slot, entries[j].row);
      }
      LastWinsIsLast(entries, i);
    }
  }

  lemma OneReading(fields: Fields, e: Entry, other: Entry)
    requires Declares(fields, e.slot, e.row)
    ensures Declares(fields, other.slot, other.row) ==> other == e
  {
    ParseMeans(fields, e);
    ParseMeans(fields, other);
  }

  lemma {:induction false} LastNaming(entries: seq<Entry>, slot: string) returns (i: nat)
    requires slot in LastWins(entries)
    ensures i < |entries| && entries[i].slot == slot
    ensures forall j | i < j < |entries| :: entries[j].slot != slot
    decreases |entries|
  {
    var n := |entries| - 1;
    if entries[n].slot == slot {
      i := n;
    } else {
      i := LastNaming(entries[..n], slot);
      assert forall j | 0 <= j < n :: entries[..n][j] == entries[j];
    }
  }

  lemma RefMeans(items: seq<Json>, row: SlotRow)
    requires ParseAll(items).Ok?
    ensures RefHolds(LastWins(ParseAll(items).value), row) <==> RefLeads(items, row)
  {
    var declared := LastWins(ParseAll(items).value);
    if row.ref.Some? {
      var slot := row.ref.value.slot;
      if slot in declared {
        LastRow(items, slot, declared[slot]);
        SchemaMeans(declared[slot].schema);
      }
      forall i: nat, to | LastDeclares(items, i, slot, to) ensures slot in declared && declared[slot] == to {
        LastRow(items, slot, to);
      }
    }
  }

  /** A declaration passes exactly when it holds. Of an accepted one by a registered node the count of
      items is returned and the rows are those its last items declare; a refused one changes nothing. */
  lemma ReplacedMeans(nodes: set<string>, table: SlotTable, node: string, declaration: Json, slot: string, row: SlotRow)
    ensures var (r, after) := Replaced(nodes, table, node, declaration);
      && (r.Ok? <==> DeclarationHolds(declaration) && node in nodes)
      && (r.Err? ==> after == table && (r == Err(NodeUnknown) <==> DeclarationHolds(declaration)))
      && (r.Ok? ==>
            && r.value == |declaration.items|
            && ((node in after && slot in after[node] && after[node][slot] == row) <==>
                  exists i: nat :: LastDeclares(declaration.items, i, slot, row)))
  {
    CheckMeans(declaration);
    if declaration.Arr? && ParseAll(declaration.items).Ok? {
      ParsedItems(declaration.items);
      LastRow(declaration.items, slot, row);
    }
  }

  lemma RefsMean(items: seq<Json>)
    requires ParseAll(items).Ok? && forall i | 0 <= i < |items| :: items[i].Obj?
    ensures var entries := ParseAll(items).value;
      (forall i | 0 <= i < |entries| :: RefHolds(LastWins(entries), entries[i].row)) <==>
        forall i, e: Entry | 0 <= i < |items| && Declares(items[i].fields, e.slot, e.row) :: RefLeads(items, e.row)
  {
    var entries := ParseAll(items).value;
    ParsedItems(items);
    forall i | 0 <= i < |items|
      ensures RefHolds(LastWins(entries), entries[i].row) <==> RefLeads(items, entries[i].row)
    {
      RefMeans(items, entries[i].row);
    }
    forall i, e: Entry | 0 <= i < |items| && Declares(items[i].fields, e.slot, e.row) ensures e == entries[i] {
      OneReading(items[i].fields, entries[i], e);
    }
  }

  lemma CheckMeans(declaration: Json)
    ensures CheckDeclaration(declaration).Ok? <==> DeclarationHolds(declaration)
    ensures CheckDeclaration(declaration).Ok? ==>
      declaration.Arr? && ParseAll(declaration.items) == Ok(CheckDeclaration(declaration).value)
    ensures CheckDeclaration(declaration) != Err(NodeUnknown)
  {
    if declaration.Arr? {
      if ParseAll(declaration.items).Ok? {
        ParsedHolds(declaration.items);
      } else {
        RefusedItem(declaration.items);
        RefusedHolds(declaration.items);
      }
    }
  }

  lemma ParsedHolds(items: seq<Json>)
    requires ParseAll(items).Ok?
    ensures DeclarationHolds(Arr(items)) <==>
      var entries := ParseAll(items).value;
      forall i | 0 <= i < |entries| :: RefHolds(LastWins(entries), entries[i].row)
  {
    ParsedItems(items);
    RefsMean(items);
  }

  lemma RefusedHolds(items: seq<Json>)
    requires ParseAll(items).Err?
    ensures !DeclarationHolds(Arr(items))
  {
    ParsedItems(items);
  }

  lemma {:induction false} RefusedItem(items: seq<Json>)
    requires ParseAll(items).Err?
    ensures ParseAll(items).error in {SlotInvalid, MappingInvalid}
    decreases |items|
  {
    if ParseAll(items[..|items| - 1]).Err? { RefusedItem(items[..|items| - 1]); }
  }
}
