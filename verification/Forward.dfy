/** Forward routing: the redirection of submitted stages to what their slots are mapped to. */
module ForwardRouting {
  import opened Prelude
  import opened ForwardErrors
  import opened JsonValues
  import opened Slots
  import opened Declarations
  import opened Binding
  import opened Rewrite

  const FORWARD_CAPABILITY := "forward"
  const TARGET_MAX_CHARS := 255
  const PIN_MAX_CHARS := 64

  /** A row of `forward_mappings`; a binding text that is no JSON is `Foreign`. */
  datatype Mapping = Mapping(target: string, pin: Option<string>, binding: Option<Json>)

  /** The tables forward routing reads; the catalog holds the advertised input schemas. */
  datatype Routes = Routes(
    nodes: set<string>,
    slots: SlotTable,
    mappings: map<(string, string), Mapping>,
    catalog: map<(string, string), Json>)

  /** A submitted stage; an absent payload is `Null`. */
  datatype Stage = Stage(
    name: string,
    capability: string,
    payload: Json,
    forwardSlot: Option<string>,
    targetNode: Option<string>)

  /** Where a forward stage goes. */
  datatype Target = Target(slot: string, capability: string, pin: Option<string>, binding: Option<Form>)

  function RowsOf(db: Routes, node: string): Declared {
    if node in db.slots then db.slots[node] else map[]
  }

  // ---- Value-slot defaults --------------------------------------------------------------

  predicate IsValueSlot(row: SlotRow) {
    row.slotType == Some(Text) || row.slotType == Some(Boolean)
  }

  /** The routing slot a default belongs to, `*` for all of them. */
  function FormKey(row: SlotRow): string {
    if row.ref.Some? then row.ref.value.slot else "*"
  }

  /** The payload field a default fills; an empty ref field falls back to the slot's own name. */
  function FieldName(s: string, row: SlotRow): string {
    if row.ref.Some? && row.ref.value.field != "" then row.ref.value.field else s
  }

  function DefaultsFor(defaults: map<string, Fields>, form: string): Fields {
    if form in defaults then defaults[form] else map[]
  }

  function WithDefault(defaults: map<string, Fields>, s: string, row: SlotRow): map<string, Fields> {
    if row.value.Null? then defaults
    else defaults[FormKey(row) := DefaultsFor(defaults, FormKey(row))[FieldName(s, row) := row.value]]
  }

  /** The value slots of a node, in the order the query returns them. */
  ghost predicate Enumerates(order: seq<string>, rows: Declared) {
    && NoRepeats(order)
    && forall s :: s in order <==> s in rows && rows[s].slotType in {Some(Text), Some(Boolean)}
  }

  function Defaults(rows: Declared, order: seq<string>): map<string, Fields>
    requires forall s | s in order :: s in rows
  {
    if order == [] then map[]
    else
      var last := order[|order| - 1];
      WithDefault(Defaults(rows, order[..|order| - 1]), last, rows[last])
  }

  /** Slot `s` supplies the default of `field` in `form`: its value goes to the field its ref names in
      the slot its ref names, to a field of its own name when the ref names none, and without a ref to
      the field of its own name in every slot. */
  predicate Supplies(rows: Declared, s: string, form: string, field: string)
    requires s in rows
  {
    && rows[s].value != Null
    && match rows[s].ref
       case None => form == "*" && field == s
       case Some(r) => form == r.slot && field == if r.field == "" then s else r.field
  }

  /** One more row overwrites the default it supplies and keeps every other. */
  lemma DefaultNext(defaults: map<string, Fields>, rows: Declared, s: string, form: string, field: string)
    requires s in rows
    ensures var before, after := DefaultsFor(defaults, form), DefaultsFor(WithDefault(defaults, s, rows[s]), form);
      if Supplies(rows, s, form, field) then field in after && after[field] == rows[s].value
      else (field in after <==> field in before) && (field in before ==> after[field] == before[field])
  {
  }

  /** A field has a default exactly when a value slot supplies one; of several, the last row wins. */
  lemma {:induction false} DefaultIsLast(rows: Declared, order: seq<string>, form: string, field: string)
    requires forall s | s in order :: s in rows
    ensures field in DefaultsFor(Defaults(rows, order), form) <==>
        exists s :: s in order && Supplies(rows, s, form, field)
    ensures forall i | 0 <= i < |order| && Supplies(rows, order[i], form, field)
              && (forall j | i < j < |order| :: !Supplies(rows, order[j], form, field)) ::
              DefaultsFor(Defaults(rows, order), form)[field] == rows[order[i]].value
  {
    if order != [] {
      var before := order[..|order| - 1];
      var last := order[|order| - 1];
      DefaultIsLast(rows, before, form, field);
      DefaultNext(Defaults(rows, before), rows, last, form, field);
      assert order == before + [last];
      assert forall i | 0 <= i < |before| :: before[i] == order[i];
      assert (exists s :: s in order && Supplies(rows, s, form, field)) <==>
        Supplies(rows, last, form, field) || exists s :: s in before && Supplies(rows, s, form, field);
    }
  }

  // ---- The plan of one stage ------------------------------------------------------------

  predicate IsForward(st: Stage) {
    st.capability == FORWARD_CAPABILITY
  }

  /** `payload or {}` */
  function OrEmpty(payload: Json): Json {
    if Truthy(payload) then payload else Obj(map[])
  }

  predicate DeclaredAsValue(db: Routes, node: string, slot: string) {
    slot in RowsOf(db, node) && IsValueSlot(RowsOf(db, node)[slot])
  }

  ghost function StoredForm(binding: Option<Json>): Result<Option<Form>, ForwardError> {
    if binding.None? then Ok(None) else ReadForm(binding.value)
  }

  /** Where a forward stage of `node` goes, or why it is refused. */
  ghost function Plan(db: Routes, node: string, st: Stage): Result<Target, ForwardError> {
    var payload := OrEmpty(st.payload);
    if !payload.Obj? then Err(MappingInvalid) else
    var slot :- NormalizeSlot(Get(payload.fields, "forward_slot"));
    if DeclaredAsValue(db, node, slot) then Err(SlotNotRoutable)
    else if (node, slot) !in db.mappings then Err(MappingMissing)
    else
      var m := db.mappings[(node, slot)];
      if m.target == FORWARD_CAPABILITY then Err(MappingInvalid) else
      var form :- StoredForm(m.binding);
      Ok(Target(slot, m.target, m.pin, form))
  }

  /** The refusal of the first forward stage that has one. */
  ghost function FirstRefusal(db: Routes, node: string, stages: seq<Stage>): Option<ForwardError> {
    if stages == [] then None else
    var last := stages[|stages| - 1];
    var before := FirstRefusal(db, node, stages[..|stages| - 1]);
    if before.Some? then before
    else if IsForward(last) && Plan(db, node, last).Err? then Some(Plan(db, node, last).error)
    else None
  }

  /** Submitted fields first, then the slot's defaults, then the defaults of every slot. */
  function Filled(defaults: map<string, Fields>, slot: string, payload: Json): Fields {
    var submitted := if payload.Obj? then payload.fields - {"forward_slot"} else map[];
    DefaultsFor(defaults, "*") + (DefaultsFor(defaults, slot) + submitted)
  }

  function Shaped(fields: Fields, binding: Option<Form>, dump: Dump): Fields {
    match binding
    case None => fields
    case Some(form) => Applied(fields, form.rules, form.separator, dump)
  }

  function Redirected(defaults: map<string, Fields>, dump: Dump, st: Stage, t: Target): Stage {
    st.(capability := t.capability, forwardSlot := Some(t.slot), targetNode := t.pin,
        payload := Obj(Shaped(Filled(defaults, t.slot, st.payload), t.binding, dump)))
  }

  ghost function Rewritten(db: Routes, node: string, defaults: map<string, Fields>, dump: Dump, st: Stage): Stage {
    if IsForward(st) && Plan(db, node, st).Ok? then Redirected(defaults, dump, st, Plan(db, node, st).value) else st
  }

  /** The stages after resolution, or the refusal. */
  ghost function Resolved(db: Routes, node: string, order: seq<string>, dump: Dump,
                          stages: seq<Stage>): Result<seq<Stage>, ForwardError>
    requires Enumerates(order, RowsOf(db, node))
  {
    if forall st | st in stages :: !IsForward(st) then Ok(stages)
    else if node !in db.nodes then Err(NodeUnknown)
    else
      match FirstRefusal(db, node, stages)
      case Some(e) => Err(e)
      case None =>
        var defaults := Defaults(RowsOf(db, node), order);
        Ok(seq(|stages|, i requires 0 <= i < |stages| => Rewritten(db, node, defaults, dump, stages[i])))
  }

  lemma {:induction false} NoRefusalPlansAll(db: Routes, node: string, stages: seq<Stage>)
    ensures FirstRefusal(db, node, stages).None? <==>
        forall st | st in stages && IsForward(st) :: Plan(db, node, st).Ok?
  {
    if stages != [] {
      var before := stages[..|stages| - 1];
      NoRefusalPlansAll(db, node, before);
      assert stages == before + [stages[|stages| - 1]];
    }
  }

  /** The slot is declared by the node as a text or boolean slot. */
  predicate HoldsValue(db: Routes, node: string, slot: string) {
    && node in db.slots && slot in db.slots[node]
    && db.slots[node][slot].slotType in {Some(Text), Some(Boolean)}
  }

  /** The stage goes there: its payload names the slot, which is no value slot; the node's mapping of
      that slot, not again to the pseudo-capability, has that target and pin; and the stored binding
      reads as that form. */
  ghost predicate GoesTo(db: Routes, node: string, st: Stage, t: Target) {
    && st.payload.Obj? && NamesSlot(Get(st.payload.fields, "forward_slot"), t.slot)
    && !HoldsValue(db, node, t.slot)
    && (node, t.slot) in db.mappings
    && var m := db.mappings[(node, t.slot)];
    && m.target == t.capability && m.target != "forward" && m.pin == t.pin
    && if m.binding.None? || m.binding == Some(Null) then t.binding == None
       else t.binding.Some? && Accepts(m.binding.value, t.binding.value)
  }

  lemma StoredFormMeans(binding: Option<Json>, form: Option<Form>)
    ensures StoredForm(binding) == Ok(form) <==>
      if binding.None? || binding == Some(Null) then form == None
      else form.Some? && Accepts(binding.value, form.value)
    ensures StoredForm(binding).Err? ==> StoredForm(binding) == Err(BindingInvalid)
  {
    if binding.Some? && binding.value != Null {
      if form.Some? && Accepts(binding.value, form.value) {
        AcceptsOnce(binding.value, form.value, ReadForm(binding.value).value.value);
      }
    }
  }

  lemma PlanMeans(db: Routes, node: string, st: Stage, t: Target)
    ensures Plan(db, node, st) == Ok(t) <==> GoesTo(db, node, st, t)
  {
    if st.payload.Obj? {
      NormalizeSlotNames(Get(st.payload.fields, "forward_slot"), t.slot);
    }
    assert NormalizeSlot(Get(map[], "forward_slot")).Err?;
    if (node, t.slot) in db.mappings {
      StoredFormMeans(db.mappings[(node, t.slot)].binding, t.binding);
    }
  }

  /** Without a slot name a stage is refused as invalid; one that names a slot is refused for a value
      slot, else for a missing mapping, else for one to the pseudo-capability, else for its binding. */
  lemma RefusedFor(db: Routes, node: string, st: Stage, slot: string)
    ensures (forall s :: !(st.payload.Obj? && NamesSlot(Get(st.payload.fields, "forward_slot"), s))) ==>
      Plan(db, node, st) == Err(MappingInvalid)
    ensures st.payload.Obj? && NamesSlot(Get(st.payload.fields, "forward_slot"), slot) ==>
      if HoldsValue(db, node, slot) then Plan(db, node, st) == Err(SlotNotRoutable)
      else if (node, slot) !in db.mappings then Plan(db, node, st) == Err(MappingMissing)
      else if db.mappings[(node, slot)].target == "forward" then Plan(db, node, st) == Err(MappingInvalid)
      else Plan(db, node, st).Err? ==> Plan(db, node, st) == Err(BindingInvalid)
  {
    assert NormalizeSlot(Get(map[], "forward_slot")).Err?;
    if st.payload.Obj? {
      var named := NormalizeSlot(Get(st.payload.fields, "forward_slot"));
      NormalizeSlotNames(Get(st.payload.fields, "forward_slot"), slot);
      if named.Ok? { NormalizeSlotNames(Get(st.payload.fields, "forward_slot"), named.value); }
      if (node, slot) in db.mappings { StoredFormMeans(db.mappings[(node, slot)].binding, None); }
    }
  }

  /** Stage `i` is a forward stage without a plan, and no stage before it is one. */
  ghost predicate FirstRefused(db: Routes, node: string, stages: seq<Stage>, i: nat, e: ForwardError) {
    && i < |stages| && stages[i].capability == "forward" && Plan(db, node, stages[i]) == Err(e)
    && forall k | 0 <= k < i && stages[k].capability == "forward" :: Plan(db, node, stages[k]).Ok?
  }

  lemma {:induction false} RefusalIsFirst(db: Routes, node: string, stages: seq<Stage>) returns (i: nat)
    requires FirstRefusal(db, node, stages).Some?
    ensures FirstRefused(db, node, stages, i, FirstRefusal(db, node, stages).value)
    decreases |stages|
  {
    var n := |stages| - 1;
    var before := stages[..n];
    assert forall k | 0 <= k < n :: before[k] == stages[k];
    if FirstRefusal(db, node, before).Some? {
      i := RefusalIsFirst(db, node, before);
    } else {
      i := n;
      NoRefusalPlansAll(db, node, before);
      forall k | 0 <= k < n && stages[k].capability == "forward" ensures Plan(db, node, stages[k]).Ok? {
        assert before[k] in before;
      }
    }
  }

  lemma OneIsFirst(db: Routes, node: string, stages: seq<Stage>, i: nat, e: ForwardError, j: nat, f: ForwardError)
    requires FirstRefused(db, node, stages, i, e) && FirstRefused(db, node, stages, j, f)
    ensures i == j && e == f
  {
  }

  /** The refusal of a request is that of its first stage that has one. */
  lemma FirstRefusalIsFirst(db: Routes, node: string, stages: seq<Stage>, e: ForwardError)
    ensures FirstRefusal(db, node, stages) == Some(e) <==> exists i: nat :: FirstRefused(db, node, stages, i, e)
  {
    if FirstRefusal(db, node, stages).Some? {
      var i := RefusalIsFirst(db, node, stages);
      if j: nat :| FirstRefused(db, node, stages, j, e) {
        OneIsFirst(db, node, stages, i, FirstRefusal(db, node, stages).value, j, e);
      }
    } else {
      NoRefusalPlansAll(db, node, stages);
    }
  }

  /** A request without forward stages passes as it is; with some, an unknown node refuses it, else the
      first stage without a plan. */
  lemma RequestRefused(db: Routes, node: string, order: seq<string>, dump: Dump, stages: seq<Stage>)
    requires Enumerates(order, RowsOf(db, node))
    ensures var r := Resolved(db, node, order, dump, stages);
      if forall i | 0 <= i < |stages| :: stages[i].capability != "forward" then r == Ok(stages)
      else if node !in db.nodes then r == Err(NodeUnknown)
      else forall e :: r == Err(e) <==> exists i: nat :: FirstRefused(db, node, stages, i, e)
  {
    assert forall i | 0 <= i < |stages| :: stages[i] in stages;
    assert forall st | st in stages :: exists i :: 0 <= i < |stages| && stages[i] == st;
    var r := Resolved(db, node, order, dump, stages);
    if node in db.nodes && exists i :: 0 <= i < |stages| && stages[i].capability == "forward" {
      forall e ensures r == Err(e) <==> exists i: nat :: FirstRefused(db, node, stages, i, e) {
        FirstRefusalIsFirst(db, node, stages, e);
      }
    }
  }

  /** A bound payload is the binding, with its own rules and separator, applied to what the payload
      would be without it. */
  lemma BoundPayload(defaults: map<string, Fields>, dump: Dump, st: Stage, t: Target)
    requires t.binding.Some?
    ensures Redirected(defaults, dump, st, t).payload ==
      Obj(Applied(Redirected(defaults, dump, st, t.(binding := None)).payload.fields,
                  t.binding.value.rules, t.binding.value.separator, dump))
  {
  }

  /** A planned target is never the pseudo-capability. */
  lemma PlanLeavesForward(db: Routes, node: string, st: Stage)
    requires Plan(db, node, st).Ok?
    ensures Plan(db, node, st).value.capability != FORWARD_CAPABILITY
    ensures SlotOk(Plan(db, node, st).value.slot)
  {
  }

  /** Success redirects every forward stage, away from the pseudo-capability and with its
      normalised slot and mapping pin, and keeps every other stage. */
  lemma ResolvedShape(db: Routes, node: string, order: seq<string>, dump: Dump, stages: seq<Stage>, i: nat)
    requires Enumerates(order, RowsOf(db, node)) && Resolved(db, node, order, dump, stages).Ok? && i < |stages|
    ensures var after := Resolved(db, node, order, dump, stages).value;
      && |after| == |stages|
      && after[i].capability != "forward"
      && (stages[i].capability != "forward" ==> after[i] == stages[i])
      && (stages[i].capability == "forward" ==>
            && stages[i].payload.Obj?
            && after[i].forwardSlot.Some?
            && Ok(after[i].forwardSlot.value) == NormalizeSlot(Get(stages[i].payload.fields, "forward_slot"))
            && !DeclaredAsValue(db, node, after[i].forwardSlot.value)
            && (node, after[i].forwardSlot.value) in db.mappings
            && var m := db.mappings[(node, after[i].forwardSlot.value)];
            && after[i].capability == m.target && after[i].targetNode == m.pin && after[i].name == stages[i].name)
      && (stages[i].capability == "forward" ==>
            exists t :: GoesTo(db, node, stages[i], t)
                        && after[i] == Redirected(Defaults(RowsOf(db, node), order), dump, stages[i], t))
  {
    NoRefusalPlansAll(db, node, stages);
    assert stages[i] in stages;
    if IsForward(stages[i]) {
      PlanLeavesForward(db, node, stages[i]);
      PlanMeans(db, node, stages[i], Plan(db, node, stages[i]).value);
      assert NormalizeSlot(Get(map[], "forward_slot")).Err?;
    }
  }

  /** Resolving resolved stages again, for whichever node and tables, changes nothing. */
  lemma ResolveTwice(db: Routes, node: string, order: seq<string>, dump: Dump, stages: seq<Stage>,
                     db': Routes, node': string, order': seq<string>)
    requires Enumerates(order, RowsOf(db, node)) && Enumerates(order', RowsOf(db', node'))
    requires Resolved(db, node, order, dump, stages).Ok?
    ensures var after := Resolved(db, node, order, dump, stages).value;
      Resolved(db', node', order', dump, after) == Ok(after)
  {
    var after := Resolved(db, node, order, dump, stages).value;
    forall st | st in after ensures !IsForward(st) {
      var i :| 0 <= i < |after| && after[i] == st;
      assert |after| == |stages|;
      ResolvedShape(db, node, order, dump, stages, i);
    }
  }

  /** Without a binding, a submitted field wins over the slot's default, and that over the
      default of every slot; nothing else is there. */
  lemma PlainPayload(defaults: map<string, Fields>, dump: Dump, st: Stage, t: Target, k: string)
    requires st.payload.Obj? && t.binding.None?
    ensures var fields := Redirected(defaults, dump, st, t).payload.fields;
      var own, all := DefaultsFor(defaults, t.slot), DefaultsFor(defaults, "*");
      && (k in st.payload.fields && k != "forward_slot" ==> k in fields && fields[k] == st.payload.fields[k])
      && (!(k in st.payload.fields && k != "forward_slot") && k in own ==> k in fields && fields[k] == own[k])
      && (!(k in st.payload.fields && k != "forward_slot") && k !in own && k in all ==>
          k in fields && fields[k] == all[k])
      && (!(k in st.payload.fields && k != "forward_slot") && k !in own && k !in all ==> k !in fields)
  {
  }

  /** Some value slot of the node supplies a default named like the slot key, for `slot` or for all. */
  ghost predicate KeySupplied(rows: Declared, slot: string) {
    exists s | s in rows && rows[s].slotType in {Some(Text), Some(Boolean)} ::
      Supplies(rows, s, slot, "forward_slot") || Supplies(rows, s, "*", "forward_slot")
  }

  /** Some fired rule writes a field named like the slot key, and no later fired rule consumes it. */
  ghost predicate KeyWritten(payload: Fields, rules: seq<Rule>) {
    exists j: nat | j < |rules| ::
      FiresAt(payload, rules, j) && rules[j].target == "forward_slot"
      && KeptBetween(payload, rules, j + 1, |rules|, "forward_slot")
  }

  lemma PlannedFormOk(db: Routes, node: string, st: Stage, t: Target)
    requires Plan(db, node, st) == Ok(t)
    ensures st.payload.Obj?
    ensures t.binding.Some? ==> FormOk(t.binding.value)
  {
    assert NormalizeSlot(Get(map[], "forward_slot")).Err?;
    var m := db.mappings[(node, t.slot)];
    if m.binding.Some? && t.binding.Some? { ReadFormIsOk(m.binding.value); }
  }

  lemma UnboundKey(rows: Declared, order: seq<string>, slot: string, payload: Json)
    requires Enumerates(order, rows)
    ensures "forward_slot" in Filled(Defaults(rows, order), slot, payload) <==> KeySupplied(rows, slot)
  {
    DefaultIsLast(rows, order, slot, "forward_slot");
    DefaultIsLast(rows, order, "*", "forward_slot");
  }

  lemma BoundKey(payload: Fields, form: Form, dump: Dump)
    requires FormOk(form)
    ensures "forward_slot" in Applied(payload, form.rules, form.separator, dump) <==> KeyWritten(payload, form.rules)
  {
    AppliedIsHistory(payload, form.rules, form.separator, dump, "forward_slot");
  }

  /** The `forward_slot` key is in a redirected payload exactly when, without a binding, a value slot
      supplies a default of that name; or with one, a fired rule writes it and no later one consumes
      it, told on the payload the binding is given. */
  lemma SlotKeyIsGone(db: Routes, node: string, order: seq<string>, dump: Dump, st: Stage, t: Target)
    requires Enumerates(order, RowsOf(db, node)) && Plan(db, node, st) == Ok(t)
    ensures var defaults := Defaults(RowsOf(db, node), order);
      "forward_slot" in Redirected(defaults, dump, st, t).payload.fields <==>
        match t.binding
        case None => KeySupplied(RowsOf(db, node), t.slot)
        case Some(form) => KeyWritten(Filled(defaults, t.slot, st.payload), form.rules)
  {
    var defaults := Defaults(RowsOf(db, node), order);
    PlannedFormOk(db, node, st, t);
    match t.binding
    case None => UnboundKey(RowsOf(db, node), order, t.slot, st.payload);
    case Some(form) => BoundKey(Filled(defaults, t.slot, st.payload), form, dump);
  }

  /** The node `n` declares one value slot, named like the slot key, and maps its slot `a`. */
  const KEY_ROW := SlotRow(Some(Text), Str("x"), None, Null, None, None)
  const KEY_ROUTES :=
    Routes({"n"}, map["n" := map["forward_slot" := KEY_ROW]], map[("n", "a") := Mapping("t", None, None)], map[])
  const KEY_STAGE := Stage("s", FORWARD_CAPABILITY, Obj(map["forward_slot" := Str("a")]), None, None)

  lemma KeyDefault()
    ensures Enumerates(["forward_slot"], RowsOf(KEY_ROUTES, "n"))
    ensures Defaults(RowsOf(KEY_ROUTES, "n"), ["forward_slot"]) == map["*" := map["forward_slot" := Str("x")]]
  {
    assert ["forward_slot"][..0] == [];
    assert WithDefault(map[], "forward_slot", KEY_ROW) == map["*" := map["forward_slot" := Str("x")]];
  }

  lemma KeyPlan()
    ensures Plan(KEY_ROUTES, "n", KEY_STAGE) == Ok(Target("a", "t", None, None))
  {
    SlotCharsAreTrimmed("a");
  }

  /** A value slot named like the slot key puts the key back. */
  lemma SlotKeyComesBack(dump: Dump)
    ensures Plan(KEY_ROUTES, "n", KEY_STAGE) == Ok(Target("a", "t", None, None))
    ensures Enumerates(["forward_slot"], RowsOf(KEY_ROUTES, "n"))
    ensures Redirected(Defaults(RowsOf(KEY_ROUTES, "n"), ["forward_slot"]), dump, KEY_STAGE,
                       Target("a", "t", None, None)).payload
         == Obj(map["forward_slot" := Str("x")])
  {
    KeyPlan();
    KeyDefault();
  }

  /** A default of a routing slot fills a field the slot's schema declares, unless the ref field
      is empty and the value slot's own name is undeclared. */
  lemma DefaultIsDeclared(table: SlotTable, n: string, s: string)
    requires RefsSound(table) && n in table && s in table[n] && table[n][s].ref.Some?
    ensures var row := table[n][s];
      && FormKey(row) in table[n] && SchemaFieldNames(table[n][FormKey(row)].schema).Ok?
      && var names := SchemaFieldNames(table[n][FormKey(row)].schema).value;
      && (FieldName(s, row) in names <==> row.ref.value.field != "" || s in names)
  {
    assert RefHolds(table[n], table[n][s]);
  }

  /** A sound table whose value slot `v` refers to the empty field of `a` and so fills the
      undeclared field `v`. */
  lemma EmptyRefFieldFallsBack()
    ensures var a := SlotRow(Some(Forward), Null, None, Obj(map["" := Obj(map[])]), None, None);
      var v := SlotRow(Some(Text), Str("x"), Some(SlotRef("a", "")), Null, None, None);
      var table := map["n" := map["a" := a, "v" := v]];
      && RefsSound(table) && RowsSound(table)
      && SchemaFieldNames(a.schema) == Ok({""}) && FieldName("v", v) == "v"
  {
    var specs: Fields := map["" := Obj(map[])];
    assert specs != map[] by { assert "" in specs; }
    assert "fields" !in specs;
    assert SpecOk(specs[""]) && SpecName(specs[""], "") == Some("");
    assert forall key | key in specs :: key == "";
    var names := KeyedNames(specs).value;
    assert "" in names && forall name | name in names :: name == "";
    assert names == {""};
  }
}
