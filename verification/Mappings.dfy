/**
  Mappings as an admin writes them: the checks of one write, and why resolution never refuses
  a stored binding.
 */
module ForwardMappings {
  import opened Prelude
  import opened ForwardErrors
  import opened JsonValues
  import opened Slots
  import opened Declarations
  import opened Binding
  import opened Rewrite
  import opened ForwardRouting

  /** The checks that return nothing. */
  type Check = Result<(), ForwardError>

  function Require(condition: bool, error: ForwardError): Check {
    if condition then Ok(()) else Err(error)
  }

  // ---- The checks of one write ----------------------------------------------------------

  function NormalizeTarget(target: Json): Result<string, ForwardError> {
    if !target.Str? then Err(MappingInvalid) else
    var name := Strip(target.s);
    if name == "" || |name| > TARGET_MAX_CHARS then Err(MappingInvalid)
    else if name == FORWARD_CAPABILITY then Err(RedirectSelf)
    else Ok(name)
  }

  function NormalizePin(pin: Json): Result<Option<string>, ForwardError> {
    if pin.Null? then Ok(None)
    else if !pin.Str? || |pin.s| > PIN_MAX_CHARS then Err(TargetNodeInvalid)
    else if Strip(pin.s) == "" then Ok(None)
    else Ok(Some(Strip(pin.s)))
  }

  /** A pin must exist and advertise the target itself; without one, some node must. */
  function CheckProvider(db: Routes, pin: Option<string>, target: string): Check {
    match pin
    case Some(p) =>
      if p !in db.nodes then Err(TargetNodeUnknown) else Require((p, target) in db.catalog, TargetNodeLacksCapability)
    case None => Require(exists key | key in db.catalog :: key.1 == target, TargetUnknownCapability)
  }

  function SlotSchema(db: Routes, node: string, slot: string): Json {
    if slot in RowsOf(db, node) then RowsOf(db, node)[slot].schema else Null
  }

  predicate SourcesIn(names: set<string>, r: Rule) {
    r.Copy? ==> forall s | s in r.sources :: s in names
  }

  /** The field specs `check_binding_schema` looks targets up in: the nested ones when there are
      any, else the whole object; none at all for an empty schema or one that is no object. */
  function TargetSpecs(schema: Json): Option<Fields> {
    if !schema.Obj? || schema.fields == map[] then None
    else
      var nested := Get(schema.fields, "fields");
      if nested.Obj? && nested.fields != map[] then Some(nested.fields) else Some(schema.fields)
  }

  /** A value of the declared type; an unknown type admits every value. */
  predicate MatchesType(declared: string, value: Json) {
    if declared == "string" then value.Str?
    else if declared == "boolean" then value.Bool?
    else if declared == "integer" then value.Int?
    else if declared == "number" then value.Int? || value.Float?
    else if declared == "array" then value.Arr?
    else if declared == "object" then value.Obj?
    else true
  }

  /** A constant fits a spec without a type; null fits no declared type. */
  predicate ConstFits(spec: Json, value: Json) {
    var declared := if spec.Obj? then Get(spec.fields, "type") else Null;
    declared.Str? && Strip(declared.s) != "" ==> !value.Null? && MatchesType(Strip(declared.s), value)
  }

  function CheckRuleTarget(specs: Fields, r: Rule): Check {
    if Get(specs, r.target).Null? then Err(UnknownTargetField)
    else Require(r.Const? ==> ConstFits(specs[r.target], r.value), BindingInvalid)
  }

  /** The first refused rule refuses the binding. */
  function CheckTargets(specs: Fields, rules: seq<Rule>): Check {
    if rules == [] then Ok(()) else
    var _ :- CheckTargets(specs, rules[..|rules| - 1]);
    CheckRuleTarget(specs, rules[|rules| - 1])
  }

  function CheckBindingSchema(schema: Json, rules: seq<Rule>): Check {
    match TargetSpecs(schema)
    case None => Ok(())
    case Some(specs) => CheckTargets(specs, rules)
  }

  /** The names sources are checked against: none to check when the slot declares no schema. */
  function SlotNames(schema: Json): Result<Option<set<string>>, ForwardError> {
    if schema.Null? then Ok(None) else
    var names :- SchemaFieldNames(schema);
    Ok(Some(names))
  }

  /** Sources against the slot's own schema, targets against the pin's contract, or without a
      pin against the slot's. */
  function CheckFields(db: Routes, node: string, slot: string, target: string, pin: Option<string>,
                       rules: seq<Rule>): Check {
    var schema := SlotSchema(db, node, slot);
    var names :- SlotNames(schema);
    var _ :- Require(names.Some? ==> forall r | r in rules :: SourcesIn(names.value, r), UnknownSourceField);
    match pin
    case Some(p) =>
      var _ :- Require((p, target) in db.catalog && !db.catalog[(p, target)].Null?, RequiresSchema);
      CheckBindingSchema(db.catalog[(p, target)], rules)
    case None =>
      var _ :- Require(names.Some?, RequiresSchema);
      CheckBindingSchema(schema, rules)
  }

  /** The key and row one write stores, or its refusal. */
  ghost function Upserted(db: Routes, node: string, slot: Json, target: Json, pin: Json,
                          binding: Json): Result<(string, Mapping), ForwardError> {
    var name :- NormalizeSlot(slot);
    var capability :- NormalizeTarget(target);
    var _ :- Require(node in db.nodes, NodeUnknown);
    var pinned :- NormalizePin(pin);
    var _ :- CheckProvider(db, pinned, capability);
    var stored :- CheckBinding(db, node, name, capability, pinned, binding);
    Ok((name, Mapping(capability, pinned, stored)))
  }

  /** What is stored of the binding, once its form and its fields are checked. */
  ghost function CheckBinding(db: Routes, node: string, slot: string, target: string, pin: Option<string>,
                              binding: Json): Result<Option<Json>, ForwardError> {
    var form :- ReadForm(binding);
    var _ :- if form.None? then Ok(()) else CheckFields(db, node, slot, target, pin, form.value.rules);
    Ok(StoredBinding(form))
  }

  function StoredBinding(form: Option<Form>): Option<Json> {
    match form
    case None => None
    case Some(f) => Some(FormJson(f))
  }

  // ---- What the checks mean -------------------------------------------------------------

  /** The schema a slot declares, null without one. */
  function DeclaredSchema(db: Routes, node: string, slot: string): Json {
    if node in db.slots && slot in db.slots[node] then db.slots[node][slot].schema else Null
  }

  /** The schema a binding's targets answer to: the one the pin advertises for the target, or without
      a pin the one the slot declares. */
  function Contract(db: Routes, node: string, slot: string, target: string, pin: Option<string>): Json {
    match pin
    case Some(p) => if (p, target) in db.catalog then db.catalog[(p, target)] else Null
    case None => DeclaredSchema(db, node, slot)
  }

  /** What the schema says of a target: under `fields` when that is an object with entries, else at the
      top; null when it says nothing. */
  function SpecFor(schema: Json, target: string): Json
    requires schema.Obj?
  {
    var nested := Get(schema.fields, "fields");
    if nested.Obj? && nested.fields != map[] then Get(nested.fields, target) else Get(schema.fields, target)
  }

  /** A constant has the type the spec declares, if it declares one: a known type admits its own JSON
      values, any other all but null. */
  ghost predicate ValueFits(spec: Json, value: Json) {
    spec.Obj? && Get(spec.fields, "type").Str? && !StripsTo(Get(spec.fields, "type").s, "") ==>
      var declared := Get(spec.fields, "type").s;
      && value != Null
      && (StripsTo(declared, "string") ==> value.Str?)
      && (StripsTo(declared, "boolean") ==> value.Bool?)
      && (StripsTo(declared, "integer") ==> value.Int?)
      && (StripsTo(declared, "number") ==> value.Int? || value.Float?)
      && (StripsTo(declared, "array") ==> value.Arr?)
      && (StripsTo(declared, "object") ==> value.Obj?)
  }

  /** The rule's target is said something of, and its constant fits that; any rule does without fields. */
  ghost predicate RuleFits(contract: Json, r: Rule) {
    contract.Obj? && contract.fields != map[] ==>
      && SpecFor(contract, r.target) != Null
      && (r.Const? ==> ValueFits(SpecFor(contract, r.target), r.value))
  }

  /** Every source of the rule is declared. */
  predicate SourcesDeclared(schema: Json, r: Rule) {
    r.Copy? ==> forall s | s in r.sources :: SchemaDeclares(schema, s)
  }

  /** A binding may be stored: its sources are declared by the slot if the slot declares fields,
      its targets are declared by the schema they answer to, and its constants have the
      declared types. */
  ghost predicate BindingFits(db: Routes, node: string, slot: string, target: string, pin: Option<string>, form: Form) {
    var schema := DeclaredSchema(db, node, slot);
    && (schema != Null ==> SchemaReads(schema) && forall r | r in form.rules :: SourcesDeclared(schema, r))
    && Contract(db, node, slot, target, pin) != Null
    && (forall r | r in form.rules :: RuleFits(Contract(db, node, slot, target, pin), r))
  }

  /** What a mapping must be to be stored. */
  ghost predicate Admissible(db: Routes, node: string, slot: string, m: Mapping, form: Option<Form>) {
    && node in db.nodes
    && NamesSlot(Str(slot), slot)
    && Trimmed(m.target) && 1 <= |m.target| <= 255 && m.target != "forward"
    && (match m.pin
        case Some(p) => p in db.nodes && (p, m.target) in db.catalog
        case None => exists key :: key in db.catalog && key.1 == m.target)
    && m.binding == StoredBinding(form)
    && (form.Some? ==> FormOk(form.value) && BindingFits(db, node, slot, m.target, m.pin, form.value))
  }

  lemma ConstFitsMeans(spec: Json, value: Json)
    ensures ConstFits(spec, value) <==> ValueFits(spec, value)
  {
    if spec.Obj? && Get(spec.fields, "type").Str? {
      var declared := Get(spec.fields, "type").s;
      StripCuts(declared, "");
      StripCuts(declared, "string");
      StripCuts(declared, "boolean");
      StripCuts(declared, "integer");
      StripCuts(declared, "number");
      StripCuts(declared, "array");
      StripCuts(declared, "object");
    }
  }

  lemma RuleFitsMeans(contract: Json, r: Rule)
    ensures RuleFits(contract, r) <==>
      match TargetSpecs(contract)
      case None => true
      case Some(specs) => !Get(specs, r.target).Null? && (r.Const? ==> ConstFits(specs[r.target], r.value))
  {
    match TargetSpecs(contract)
    case None =>
    case Some(specs) =>
      assert SpecFor(contract, r.target) == Get(specs, r.target);
      if r.Const? { ConstFitsMeans(Get(specs, r.target), r.value); }
  }

  lemma {:induction false} TargetsCheckOut(specs: Fields, rules: seq<Rule>)
    ensures CheckTargets(specs, rules).Ok? <==>
      forall r | r in rules :: !Get(specs, r.target).Null? && (r.Const? ==> ConstFits(specs[r.target], r.value))
  {
    if rules != [] {
      var before := rules[..|rules| - 1];
      TargetsCheckOut(specs, before);
      assert rules == before + [rules[|rules| - 1]];
    }
  }

  lemma RulesFit(contract: Json, rules: seq<Rule>)
    ensures CheckBindingSchema(contract, rules).Ok? <==> forall r | r in rules :: RuleFits(contract, r)
  {
    forall r ensures RuleFits(contract, r) <==>
      match TargetSpecs(contract)
      case None => true
      case Some(specs) => !Get(specs, r.target).Null? && (r.Const? ==> ConstFits(specs[r.target], r.value))
    {
      RuleFitsMeans(contract, r);
    }
    if TargetSpecs(contract).Some? { TargetsCheckOut(TargetSpecs(contract).value, rules); }
  }

  lemma FieldsCheckOut(db: Routes, node: string, slot: string, target: string, pin: Option<string>, form: Form)
    requires CheckProvider(db, pin, target).Ok?
    ensures CheckFields(db, node, slot, target, pin, form.rules).Ok? <==> BindingFits(db, node, slot, target, pin, form)
  {
    var schema := DeclaredSchema(db, node, slot);
    assert SlotSchema(db, node, slot) == schema;
    SchemaMeans(schema);
    RulesFit(Contract(db, node, slot, target, pin), form.rules);
    if schema != Null && SchemaFieldNames(schema).Ok? {
      assert forall r :: SourcesDeclared(schema, r) <==> SourcesIn(SchemaFieldNames(schema).value, r);
    }
  }

  /** A write succeeds exactly when its four inputs have a normal form and that is admissible;
      it then stores this normal form. */
  lemma UpsertedIsAdmissible(db: Routes, node: string, slot: Json, target: Json, pin: Json, binding: Json)
    ensures Upserted(db, node, slot, target, pin, binding).Ok? <==>
      && NormalizeSlot(slot).Ok? && NormalizeTarget(target).Ok? && NormalizePin(pin).Ok? && ReadForm(binding).Ok?
      && Admissible(db, node, NormalizeSlot(slot).value,
                    Mapping(NormalizeTarget(target).value, NormalizePin(pin).value,
                        StoredBinding(ReadForm(binding).value)),
                    ReadForm(binding).value)
  {
    if target.Str? { StripTrims(target.s); }
    if NormalizeSlot(slot).Ok? { NamedNamesItself(NormalizeSlot(slot).value); }
    if ReadForm(binding).Ok? && ReadForm(binding).value.Some? {
      ReadFormIsOk(binding);
      if NormalizeSlot(slot).Ok? && NormalizeTarget(target).Ok? && NormalizePin(pin).Ok?
        && CheckProvider(db, NormalizePin(pin).value, NormalizeTarget(target).value).Ok?
      {
        FieldsCheckOut(db, node, NormalizeSlot(slot).value, NormalizeTarget(target).value, NormalizePin(pin).value,
                       ReadForm(binding).value.value);
      }
    }
  }

  /** The name a target stands for: 1 to 255 characters once trimmed, and not the pseudo-capability. */
  ghost predicate NamesTarget(value: Json, target: string) {
    value.Str? && StripsTo(value.s, target) && 1 <= |target| <= 255 && target != "forward"
  }

  /** The node a pin stands for: none of null or of a blank text, else the trimmed text; either has at
      most 64 characters. */
  ghost predicate NamesPin(value: Json, pin: Option<string>) {
    || (value == Null && pin == None)
    || (value.Str? && |value.s| <= 64
        && match pin
           case None => StripsTo(value.s, "")
           case Some(p) => StripsTo(value.s, p) && p != "")
  }

  /** The form a binding stands for: none of null. */
  ghost predicate NamesForm(binding: Json, form: Option<Form>) {
    if binding == Null then form == None else form.Some? && Accepts(binding, form.value)
  }

  lemma TargetMeans(value: Json, target: string)
    ensures NormalizeTarget(value) == Ok(target) <==> NamesTarget(value, target)
  {
    if value.Str? { StripCuts(value.s, target); }
  }

  lemma PinMeans(value: Json, pin: Option<string>)
    ensures NormalizePin(value) == Ok(pin) <==> NamesPin(value, pin)
  {
    if value.Str? {
      StripCuts(value.s, "");
      if pin.Some? { StripCuts(value.s, pin.value); }
    }
  }

  lemma FormMeans(binding: Json, form: Option<Form>)
    ensures ReadForm(binding) == Ok(form) <==> NamesForm(binding, form)
  {
    if binding != Null && form.Some? && Accepts(binding, form.value) {
      AcceptsOnce(binding, form.value, ReadForm(binding).value.value);
    }
  }

  /** A write stores a mapping under a slot name exactly when its inputs stand for them and the
      mapping, with the form its binding stands for, is one that may be stored. */
  lemma UpsertMeans(db: Routes, node: string, slot: Json, target: Json, pin: Json, binding: Json, name: string,
                    m: Mapping)
    ensures Upserted(db, node, slot, target, pin, binding) == Ok((name, m)) <==>
      && NamesSlot(slot, name) && NamesTarget(target, m.target) && NamesPin(pin, m.pin)
      && exists form :: NamesForm(binding, form) && Admissible(db, node, name, m, form)
  {
    UpsertedIsAdmissible(db, node, slot, target, pin, binding);
    NormalizeSlotNames(slot, name);
    TargetMeans(target, m.target);
    PinMeans(pin, m.pin);
    if Upserted(db, node, slot, target, pin, binding) == Ok((name, m)) {
      FormMeans(binding, ReadForm(binding).value);
    }
    if form :| NamesForm(binding, form) && Admissible(db, node, name, m, form) {
      FormMeans(binding, form);
    }
  }

  lemma SlotRefused(slot: Json)
    ensures NormalizeSlot(slot).Err? <==> forall n :: !NamesSlot(slot, n)
    ensures NormalizeSlot(slot).Err? ==> NormalizeSlot(slot) == Err(MappingInvalid)
  {
    if NormalizeSlot(slot).Ok? {
      NormalizeSlotNames(slot, NormalizeSlot(slot).value);
    } else {
      forall n ensures !NamesSlot(slot, n) {
        NormalizeSlotNames(slot, n);
      }
    }
    NormalizeSlotNames(slot, "");
  }

  lemma TargetRefused(target: Json)
    ensures NormalizeTarget(target).Err? <==> forall t :: !NamesTarget(target, t)
    ensures NormalizeTarget(target).Err? ==>
      NormalizeTarget(target) ==
        Err(if target.Str? && StripsTo(target.s, "forward") then RedirectSelf else MappingInvalid)
  {
    if target.Str? { StripCuts(target.s, "forward"); }
    if NormalizeTarget(target).Ok? {
      TargetMeans(target, NormalizeTarget(target).value);
    } else {
      forall t ensures !NamesTarget(target, t) {
        TargetMeans(target, t);
      }
    }
  }

  lemma PinRefused(pin: Json)
    ensures NormalizePin(pin).Err? <==> forall p :: !NamesPin(pin, p)
    ensures NormalizePin(pin).Err? ==> NormalizePin(pin) == Err(TargetNodeInvalid)
  {
    if NormalizePin(pin).Ok? {
      PinMeans(pin, NormalizePin(pin).value);
    } else {
      forall p ensures !NamesPin(pin, p) {
        PinMeans(pin, p);
      }
    }
  }

  /** The first input that stands for nothing decides the refusal. */
  lemma InputRefusals(db: Routes, node: string, slot: Json, target: Json, pin: Json, binding: Json)
    ensures var r := Upserted(db, node, slot, target, pin, binding);
      if forall n :: !NamesSlot(slot, n) then r == Err(MappingInvalid)
      else if forall t :: !NamesTarget(target, t) then
        r == Err(if target.Str? && StripsTo(target.s, "forward") then RedirectSelf else MappingInvalid)
      else if node !in db.nodes then r == Err(NodeUnknown)
      else (forall p :: !NamesPin(pin, p)) ==> r == Err(TargetNodeInvalid)
  {
    SlotRefused(slot);
    TargetRefused(target);
    PinRefused(pin);
  }

  /** With inputs that stand for a name, a target and a pin, a missing provider is refused by its kind,
      then a binding without a form. */
  lemma ProviderRefusals(db: Routes, node: string, slot: Json, target: Json, pin: Json, binding: Json, name: string,
                         m: Mapping)
    requires NamesSlot(slot, name) && NamesTarget(target, m.target) && NamesPin(pin, m.pin) && node in db.nodes
    ensures var r := Upserted(db, node, slot, target, pin, binding);
      if m.pin.Some? && m.pin.value !in db.nodes then r == Err(TargetNodeUnknown)
      else if m.pin.Some? && (m.pin.value, m.target) !in db.catalog then r == Err(TargetNodeLacksCapability)
      else if m.pin.None? && forall key | key in db.catalog :: key.1 != m.target then r == Err(TargetUnknownCapability)
      else (forall form :: !NamesForm(binding, form)) ==> r == Err(BindingInvalid)
  {
    NormalizeSlotNames(slot, name);
    TargetMeans(target, m.target);
    PinMeans(pin, m.pin);
    if ReadForm(binding).Ok? { FormMeans(binding, ReadForm(binding).value); }
  }

  /** Then the fields decide: a slot schema that cannot be read, a source it does not declare, no schema
      for the targets, and of the rules the first that does not fit. */
  lemma FieldRefusals(db: Routes, node: string, slot: string, target: string, pin: Option<string>, rules: seq<Rule>)
    requires CheckProvider(db, pin, target).Ok?
    ensures var r := CheckFields(db, node, slot, target, pin, rules);
      var schema := DeclaredSchema(db, node, slot);
      var contract := Contract(db, node, slot, target, pin);
      if schema != Null && !SchemaReads(schema) then r == Err(BindingInvalid)
      else if schema != Null && !forall rule | rule in rules :: SourcesDeclared(schema, rule) then
        r == Err(UnknownSourceField)
      else if contract == Null then r == Err(RequiresSchema)
      else r == CheckBindingSchema(contract, rules)
  {
    var schema := DeclaredSchema(db, node, slot);
    assert SlotSchema(db, node, slot) == schema;
    SchemaMeans(schema);
    if schema != Null && !SchemaFieldNames(schema).Ok? { NamesRefused(schema); }
    if schema != Null && SchemaFieldNames(schema).Ok? {
      assert forall rule :: SourcesDeclared(schema, rule) <==> SourcesIn(SchemaFieldNames(schema).value, rule);
    }
  }

  lemma NamesRefused(schema: Json)
    requires SchemaFieldNames(schema).Err?
    ensures SchemaFieldNames(schema) == Err(BindingInvalid)
  {
  }

  /** A write whose inputs stand for something is refused for what its fields are refused. */
  lemma UpsertRefusedByFields(db: Routes, node: string, slot: Json, target: Json, pin: Json, binding: Json,
                              name: string, m: Mapping, form: Form)
    requires NamesSlot(slot, name) && NamesTarget(target, m.target) && NamesPin(pin, m.pin) && node in db.nodes
    requires CheckProvider(db, m.pin, m.target).Ok? && NamesForm(binding, Some(form))
    ensures CheckFields(db, node, name, m.target, m.pin, form.rules).Err? ==>
      Upserted(db, node, slot, target, pin, binding) ==
        Err(CheckFields(db, node, name, m.target, m.pin, form.rules).error)
  {
    NormalizeSlotNames(slot, name);
    TargetMeans(target, m.target);
    PinMeans(pin, m.pin);
    FormMeans(binding, Some(form));
  }

  /** The first rule that does not fit decides: an unknown target or a constant of another type. */
  lemma FirstUnfit(contract: Json, rules: seq<Rule>, i: nat)
    requires i < |rules| && !RuleFits(contract, rules[i]) && forall k | 0 <= k < i :: RuleFits(contract, rules[k])
    ensures CheckBindingSchema(contract, rules) ==
      Err(if SpecFor(contract, rules[i].target) == Null then UnknownTargetField else BindingInvalid)
  {
    RuleFitsMeans(contract, rules[i]);
    var specs := TargetSpecs(contract).value;
    RulesFit(contract, rules[..i]);
    assert rules[..i + 1][..i] == rules[..i];
    assert CheckTargets(specs, rules[..i + 1]) == CheckRuleTarget(specs, rules[i]);
    assert SpecFor(contract, rules[i].target) == Get(specs, rules[i].target);
    RefusedOnward(specs, rules, i + 1);
  }

  /** What the first rules are refused for, all are. */
  lemma {:induction false} RefusedOnward(specs: Fields, rules: seq<Rule>, i: nat)
    requires i <= |rules| && CheckTargets(specs, rules[..i]).Err?
    ensures CheckTargets(specs, rules) == CheckTargets(specs, rules[..i])
    decreases |rules|
  {
    if i < |rules| {
      assert rules[..|rules| - 1][..i] == rules[..i];
      RefusedOnward(specs, rules[..|rules| - 1], i);
    } else {
      assert rules[..i] == rules;
    }
  }

  // ---- The slot key, written by a binding -----------------------------------------------

  /** The slot `a` of node `n` declares a field named like the slot key, and its mapping writes it. */
  const KEY_FORM := Form([Const("forward_slot", Str("x"))], DEFAULT_BINDING_SEPARATOR)
  const KEY_SLOT := SlotRow(Some(Forward), Null, None, Obj(map["forward_slot" := Obj(map[])]), None, None)
  const KEY_MAPPING := Mapping("t", None, Some(FormJson(KEY_FORM)))
  const BOUND_ROUTES :=
    Routes({"n", "p"}, map["n" := map["a" := KEY_SLOT]], map[("n", "a") := KEY_MAPPING], map[("p", "t") := Null])

  lemma KeyFormOk()
    ensures FormOk(KEY_FORM)
  {
    StripTrims("forward_slot");
  }

  lemma KeyMappingAdmissible()
    ensures Admissible(BOUND_ROUTES, "n", "a", KEY_MAPPING, Some(KEY_FORM))
  {
    KeyFormOk();
    var specs: Fields := map["forward_slot" := Obj(map[])];
    assert "forward_slot" in specs && "fields" !in specs;
    assert DeclaredSchema(BOUND_ROUTES, "n", "a") == Obj(specs);
    NamedNamesItself("a");
    assert SpecFor(Obj(specs), "forward_slot") == Obj(map[]);
    assert SchemaReads(Obj(specs)) && forall r | r in KEY_FORM.rules :: RuleFits(Obj(specs), r);
    assert ("p", "t") in BOUND_ROUTES.catalog;
  }

  lemma KeyMappingPlan()
    ensures Plan(BOUND_ROUTES, "n", KEY_STAGE) == Ok(Target("a", "t", None, Some(KEY_FORM)))
  {
    KeyFormOk();
    WrittenFormReadsBack(KEY_FORM);
    SlotCharsAreTrimmed("a");
    PlanOfMapping(BOUND_ROUTES, "n", KEY_STAGE, "a", KEY_MAPPING);
  }

  /** A mapping that may be stored puts the slot key back into the payload, though no value slot
      supplies it. */
  lemma BoundKeyComesBack(dump: Dump)
    ensures Admissible(BOUND_ROUTES, "n", "a", KEY_MAPPING, Some(KEY_FORM))
    ensures Plan(BOUND_ROUTES, "n", KEY_STAGE) == Ok(Target("a", "t", None, Some(KEY_FORM)))
    ensures Enumerates([], RowsOf(BOUND_ROUTES, "n")) && !KeySupplied(RowsOf(BOUND_ROUTES, "n"), "a")
    ensures var t := Target("a", "t", None, Some(KEY_FORM));
      "forward_slot" in Redirected(Defaults(RowsOf(BOUND_ROUTES, "n"), []), dump, KEY_STAGE, t).payload.fields
  {
    KeyMappingAdmissible();
    KeyMappingPlan();
    var payload := Filled(Defaults(RowsOf(BOUND_ROUTES, "n"), []), "a", KEY_STAGE.payload);
    assert FiresAt(payload, KEY_FORM.rules, 0) && KeptBetween(payload, KEY_FORM.rules, 1, 1, "forward_slot");
    assert KeyWritten(payload, KEY_FORM.rules);
    SlotKeyIsGone(BOUND_ROUTES, "n", [], dump, KEY_STAGE, Target("a", "t", None, Some(KEY_FORM)));
  }

  // ---- Target names and declared names --------------------------------------------------

  /** The target check lets the name of a target through. */
  predicate Admits(schema: Json, target: string) {
    match TargetSpecs(schema)
    case None => true
    case Some(specs) => !Get(specs, target).Null?
  }

  /** The schema declares the field, by the names sources are checked against. */
  predicate Declares(schema: Json, field: string) {
    SchemaFieldNames(schema).Ok? && field in SchemaFieldNames(schema).value
  }

  predicate ConstOk(schema: Json, r: Rule) {
    match TargetSpecs(schema)
    case None => true
    case Some(specs) => r.Const? && r.target in specs ==> ConstFits(specs[r.target], r.value)
  }

  /** The schema check passes exactly when it admits every target and every constant fits the spec
      its target finds. */
  lemma SchemaCheckMeans(schema: Json, rules: seq<Rule>)
    ensures CheckBindingSchema(schema, rules).Ok? <==>
      forall r | r in rules :: Admits(schema, r.target) && ConstOk(schema, r)
  {
    if TargetSpecs(schema).Some? { TargetsCheckOut(TargetSpecs(schema).value, rules); }
  }

  function NonNull(specs: Fields): set<string> {
    set key | key in specs && !specs[key].Null?
  }

  /** Every key is declared as a name and every declared name is a key; specs that cannot be read
      are all null. */
  predicate NamedByKey(specs: Fields) {
    match KeyedNames(specs)
    case Ok(names) => names == specs.Keys
    case Err(_) => NonNull(specs) == {}
  }

  /** Whether targets are checked by the declared names, told by the shape of the schema: nested or
      flat specs must be named by their keys, and a list of specs must declare the non-null keys
      beside it; of anything else under `fields`, and of an empty schema, the names are not those
      admitted unless both are none. */
  predicate ChecksByName(schema: Json) {
    && schema.Obj? && schema.fields != map[]
    && var nested := Get(schema.fields, "fields");
    if nested.Obj? && nested.fields != map[] then NamedByKey(nested.fields)
    else if "fields" !in schema.fields then NamedByKey(schema.fields)
    else if nested.Arr? && ListedNames(nested.items).Ok? then ListedNames(nested.items).value == NonNull(schema.fields)
    else NonNull(schema.fields) == {}
  }

  lemma KeyedAgree(specs: Fields)
    ensures (forall target :: !Get(specs, target).Null? <==> KeyedNames(specs).Ok? && target in KeyedNames(specs).value)
       <==> NamedByKey(specs)
  {
    assert forall target :: !Get(specs, target).Null? <==> target in NonNull(specs);
    if KeyedNames(specs).Ok? {
      assert forall key | key in specs :: SpecOk(specs[key]);
      assert NonNull(specs) == specs.Keys;
      SameMembers(specs.Keys, KeyedNames(specs).value);
    } else {
      SameMembers(NonNull(specs), {});
    }
  }

  lemma SameMembers(a: set<string>, b: set<string>)
    ensures (forall x :: x in a <==> x in b) <==> a == b
  {
  }

  /** For every schema: the targets the check admits are the fields the schema declares exactly under
      that condition. */
  lemma TargetsCheckedByName(schema: Json)
    ensures (forall target :: Admits(schema, target) <==> Declares(schema, target)) <==> ChecksByName(schema)
  {
    if !schema.Obj? || schema.fields == map[] {
      assert Admits(schema, "x") && !Declares(schema, "x");
    } else {
      var nested := Get(schema.fields, "fields");
      if nested.Obj? && nested.fields != map[] {
        NestedAgree(schema, nested.fields);
      } else if "fields" !in schema.fields {
        UnnestedAgree(schema);
      } else {
        FlatAgree(schema);
      }
    }
  }

  lemma NestedAgree(schema: Json, specs: Fields)
    requires schema.Obj? && Get(schema.fields, "fields") == Obj(specs) && specs != map[]
    ensures (forall target :: Admits(schema, target) <==> Declares(schema, target)) <==> ChecksByName(schema)
  {
    assert "fields" in schema.fields && schema.fields["fields"] == Obj(specs);
    assert schema.fields != map[];
    assert TargetSpecs(schema) == Some(specs) && SchemaFieldNames(schema) == KeyedNames(specs);
    assert forall target :: Admits(schema, target) <==> !Get(specs, target).Null?;
    KeyedAgree(specs);
  }

  lemma UnnestedAgree(schema: Json)
    requires schema.Obj? && schema.fields != map[] && "fields" !in schema.fields
    ensures (forall target :: Admits(schema, target) <==> Declares(schema, target)) <==> ChecksByName(schema)
  {
    assert TargetSpecs(schema) == Some(schema.fields) && SchemaFieldNames(schema) == KeyedNames(schema.fields);
    assert forall target :: Admits(schema, target) <==> !Get(schema.fields, target).Null?;
    KeyedAgree(schema.fields);
  }

  lemma FlatAgree(schema: Json)
    requires schema.Obj? && "fields" in schema.fields
    requires !(Get(schema.fields, "fields").Obj? && Get(schema.fields, "fields").fields != map[])
    ensures (forall target :: Admits(schema, target) <==> Declares(schema, target)) <==> ChecksByName(schema)
  {
    var nested := schema.fields["fields"];
    assert TargetSpecs(schema) == Some(schema.fields);
    var names := if SchemaFieldNames(schema).Ok? then SchemaFieldNames(schema).value else {};
    assert forall target :: Admits(schema, target) <==> target in NonNull(schema.fields);
    SameMembers(NonNull(schema.fields), names);
    if nested.Obj? {
      assert forall key :: key !in nested.fields;
      assert KeyedNames(nested.fields).value == {};
    }
  }

  /** Names that are their keys are checked by name. */
  lemma UnrenamedAgrees(specs: Fields)
    requires forall key | key in specs :: SpecOk(specs[key]) && SpecName(specs[key], key) == Some(key)
    ensures NamedByKey(specs)
  {
    var names := KeyedNames(specs).value;
    assert forall key | key in specs :: SpecName(specs[key], key).value in names;
    assert names == specs.Keys;
  }

  /** A list of specs: its field is refused and the key `fields` admitted. */
  lemma ListedFieldIsRefused()
    ensures var schema := Obj(map["fields" := Arr([Obj(map["name" := Str("x")])])]);
      && SchemaFieldNames(schema) == Ok({"x"})
      && !Admits(schema, "x") && Admits(schema, "fields")
  {
    var spec := Obj(map["name" := Str("x")]);
    assert SpecOk(spec) && forall i: nat :: SpecName(spec, "field_" + Digits(i)) == Some("x");
    var names := ListedNames([spec]).value;
    assert [spec][0] == spec;
    assert "x" in names && forall name | name in names :: name == "x";
    assert names == {"x"};
    var fields: Fields := map["fields" := Arr([spec])];
    assert "fields" in fields && "x" !in fields;
  }

  /** A renamed spec: its name is refused and its key admitted. */
  lemma RenamedFieldIsRefused()
    ensures var schema := Obj(map["a" := Obj(map["name" := Str("x")])]);
      && SchemaFieldNames(schema) == Ok({"x"})
      && !Admits(schema, "x") && Admits(schema, "a")
  {
    var specs: Fields := map["a" := Obj(map["name" := Str("x")])];
    assert "a" in specs && "fields" !in specs;
    assert SpecOk(specs["a"]) && SpecName(specs["a"], "a") == Some("x");
    var names := KeyedNames(specs).value;
    assert "x" in names && forall name | name in names :: name == "x";
    assert names == {"x"};
  }

  // ---- Schemas without fields -----------------------------------------------------------

  /** The schema declares no field at all: there is none, or it is empty, nested or listed. */
  predicate Fieldless(schema: Json) {
    || schema.Null?
    || (schema.Obj?
        && (schema.fields == map[]
            || Get(schema.fields, "fields") in {Obj(map[]), Arr([]), Str("")}))
  }

  /** The rule as the comment of the check has it: no check without fields, else the declared names. */
  predicate Promised(schema: Json, target: string) {
    Fieldless(schema) || Declares(schema, target)
  }

  lemma LongName(names: set<string>) returns (long: string)
    ensures forall name | name in names :: |name| < |long|
    decreases names
  {
    if names == {} {
      long := "";
    } else {
      var name :| name in names;
      long := LongName(names - {name});
      long := long + name + "x";
    }
  }

  /** The check keeps that rule exactly for no schema, the empty one, and those checked by name. */
  lemma CommentIsKept(schema: Json)
    ensures (forall target :: Admits(schema, target) <==> Promised(schema, target)) <==>
      schema.Null? || schema == Obj(map[]) || ChecksByName(schema)
  {
    TargetsCheckedByName(schema);
    if Fieldless(schema) && schema.Obj? && schema.fields != map[] {
      var target := LongName(NonNull(schema.fields));
      assert target !in NonNull(schema.fields);
      assert !Admits(schema, target) && Promised(schema, target);
      assert "fields" in NonNull(schema.fields);
    }
  }

  /** An empty object of nested fields is read flat: the only target it admits is `fields`. */
  lemma EmptyFieldsReadFlat(target: string)
    ensures Admits(Obj(map["fields" := Obj(map[])]), target) <==> target == "fields"
  {
    var specs: Fields := map["fields" := Obj(map[])];
    assert TargetSpecs(Obj(specs)) == Some(specs) by { assert "fields" in specs; }
  }

  /** Against an empty schema nothing is checked. */
  lemma EmptySchemaAdmitsAll(rules: seq<Rule>)
    ensures CheckBindingSchema(Obj(map[]), rules).Ok?
  {
  }

  /** A null constant fits no field with a declared type, and every field without. */
  lemma NullFitsOnlyUntyped(spec: Json)
    ensures ConstFits(spec, Null) <==>
      !(spec.Obj? && Get(spec.fields, "type").Str? && Strip(Get(spec.fields, "type").s) != "")
  {
  }

  // ---- Stored mappings stay sound -------------------------------------------------------

  /** The form a stored mapping carries. */
  ghost predicate MappingSound(nodes: set<string>, key: (string, string), m: Mapping) {
    && key.0 in nodes && SlotOk(key.1)
    && m.target != "" && m.target != FORWARD_CAPABILITY
    && (m.pin.Some? ==> m.pin.value in nodes)
    && (m.binding.Some? ==> exists f :: FormOk(f) && m.binding.value == FormJson(f))
  }

  ghost predicate MappingsSound(db: Routes) {
    forall key | key in db.mappings :: MappingSound(db.nodes, key, db.mappings[key])
  }

  ghost function AfterUpsert(db: Routes, node: string, slot: Json, target: Json, pin: Json, binding: Json): Routes {
    match Upserted(db, node, slot, target, pin, binding)
    case Ok((name, m)) => db.(mappings := db.mappings[(node, name) := m])
    case Err(_) => db
  }

  /** Every stored row of the forward tables is sound. */
  ghost predicate RoutesSound(db: Routes) {
    RefsSound(db.slots) && RowsSound(db.slots) && MappingsSound(db)
  }

  lemma DeclarationKeepsSound(db: Routes, node: string, slots: Json)
    requires RoutesSound(db)
    ensures RoutesSound(db.(slots := Replaced(db.nodes, db.slots, node, slots).1))
  {
    ReplacedKeepsSound(db.nodes, db.slots, node, slots);
  }

  lemma UpsertKeepsSound(db: Routes, node: string, slot: Json, target: Json, pin: Json, binding: Json)
    requires RoutesSound(db)
    ensures RoutesSound(AfterUpsert(db, node, slot, target, pin, binding))
  {
    UpsertedIsAdmissible(db, node, slot, target, pin, binding);
  }

  /** The forward part of a node deletion: its mappings and slots go, pins at it are cleared. */
  function AfterDelete(db: Routes, node: string): Routes {
    db.(nodes := db.nodes - {node},
        slots := db.slots - {node},
        mappings := map key | key in db.mappings && key.0 != node ::
          if db.mappings[key].pin == Some(node) then db.mappings[key].(pin := None) else db.mappings[key])
  }

  lemma DeleteKeepsSound(db: Routes, node: string)
    requires RoutesSound(db)
    ensures RoutesSound(AfterDelete(db, node))
  {
  }

  /** A stored binding reads back as its form, so resolution never refuses one. */
  lemma StoredBindingReads(db: Routes, key: (string, string))
    requires MappingsSound(db) && key in db.mappings
    ensures StoredForm(db.mappings[key].binding).Ok?
    ensures db.mappings[key].binding == StoredBinding(StoredForm(db.mappings[key].binding).value)
  {
    var m := db.mappings[key];
    assert MappingSound(db.nodes, key, m);
    if m.binding.Some? {
      var f :| FormOk(f) && m.binding.value == FormJson(f);
      WrittenFormReadsBack(f);
    }
  }

  /** With sound mappings a stage is refused only for what it submits: its payload or slot is
      malformed, or the slot is a value slot or has no mapping. */
  lemma RefusalsAreTheSubmitters(db: Routes, node: string, st: Stage)
    requires MappingsSound(db)
    ensures Plan(db, node, st).Err? <==>
      var payload := OrEmpty(st.payload);
      || !payload.Obj?
      || NormalizeSlot(Get(payload.fields, "forward_slot")).Err?
      || DeclaredAsValue(db, node, NormalizeSlot(Get(payload.fields, "forward_slot")).value)
      || (node, NormalizeSlot(Get(payload.fields, "forward_slot")).value) !in db.mappings
    ensures Plan(db, node, st) != Err(BindingInvalid)
  {
    var payload := OrEmpty(st.payload);
    if payload.Obj? && NormalizeSlot(Get(payload.fields, "forward_slot")).Ok? {
      var key := (node, NormalizeSlot(Get(payload.fields, "forward_slot")).value);
      if key in db.mappings {
        StoredBindingReads(db, key);
        assert MappingSound(db.nodes, key, db.mappings[key]);
      }
    }
  }

  lemma UpsertedNormalForm(db: Routes, node: string, slot: Json, target: Json, pin: Json, binding: Json)
    requires Upserted(db, node, slot, target, pin, binding).Ok?
    ensures NormalizeSlot(slot).Ok? && NormalizeTarget(target).Ok? && NormalizePin(pin).Ok? && ReadForm(binding).Ok?
    ensures Upserted(db, node, slot, target, pin, binding).value
         == (NormalizeSlot(slot).value,
             Mapping(NormalizeTarget(target).value, NormalizePin(pin).value, StoredBinding(ReadForm(binding).value)))
    ensures NormalizeTarget(target).value != FORWARD_CAPABILITY
  {
  }

  lemma StoredFormReads(binding: Json)
    requires ReadForm(binding).Ok?
    ensures StoredForm(StoredBinding(ReadForm(binding).value)) == ReadForm(binding)
  {
    var form := ReadForm(binding).value;
    if form.Some? {
      ReadFormIsOk(binding);
      WrittenFormReadsBack(form.value);
    }
  }

  lemma PlanOfMapping(db: Routes, node: string, st: Stage, slot: string, m: Mapping)
    requires st.payload.Obj? && NormalizeSlot(Get(st.payload.fields, "forward_slot")) == Ok(slot)
    requires !DeclaredAsValue(db, node, slot)
    requires (node, slot) in db.mappings && db.mappings[(node, slot)] == m && m.target != FORWARD_CAPABILITY
    requires StoredForm(m.binding).Ok?
    ensures Plan(db, node, st) == Ok(Target(slot, m.target, m.pin, StoredForm(m.binding).value))
  {
    assert NormalizeSlot(Null).Err?;
    assert OrEmpty(st.payload) == st.payload;
  }

  /** What a write stored is where the slot's stages go, and its binding, read back from
      storage, is the form the write accepted. */
  lemma UpsertRoutes(db: Routes, node: string, slot: Json, target: Json, pin: Json, binding: Json, st: Stage)
    requires Upserted(db, node, slot, target, pin, binding).Ok?
    requires st.payload.Obj? && NormalizeSlot(Get(st.payload.fields, "forward_slot")) == NormalizeSlot(slot)
    requires NormalizeSlot(slot).Ok? && !DeclaredAsValue(db, node, NormalizeSlot(slot).value)
    ensures NormalizeTarget(target).Ok? && NormalizePin(pin).Ok? && ReadForm(binding).Ok?
    ensures Plan(AfterUpsert(db, node, slot, target, pin, binding), node, st)
         == Ok(Target(NormalizeSlot(slot).value, NormalizeTarget(target).value, NormalizePin(pin).value,
             ReadForm(binding).value))
  {
    UpsertedNormalForm(db, node, slot, target, pin, binding);
    StoredFormReads(binding);
    PlanOfMapping(AfterUpsert(db, node, slot, target, pin, binding), node, st, NormalizeSlot(slot).value,
                  Upserted(db, node, slot, target, pin, binding).value.1);
  }

  // ---- Whole runs -----------------------------------------------------------------------

  /** Everything that changes the tables forward routing reads. */
  datatype RouteCall =
    | Register(node: string)
    | Advertise(catalog: map<(string, string), Json>)
    | Declare(node: string, slots: Json)
    | Upsert(node: string, slot: Json, target: Json, pin: Json, binding: Json)
    | Unmap(key: (string, string))
    | Delete(node: string)

  ghost function AfterCall(db: Routes, call: RouteCall): Routes {
    match call
    case Register(node) => db.(nodes := db.nodes + {node})
    case Advertise(catalog) => db.(catalog := catalog)
    case Declare(node, slots) => db.(slots := Replaced(db.nodes, db.slots, node, slots).1)
    case Upsert(node, slot, target, pin, binding) => AfterUpsert(db, node, slot, target, pin, binding)
    case Unmap(key) => db.(mappings := db.mappings - {key})
    case Delete(node) => AfterDelete(db, node)
  }

  ghost function AfterCalls(db: Routes, calls: seq<RouteCall>): Routes {
    if calls == [] then db else AfterCall(AfterCalls(db, calls[..|calls| - 1]), calls[|calls| - 1])
  }

  /** Whatever is declared, mapped, advertised and deleted, accepted or refused, the stored refs
      and mappings stay sound. */
  lemma {:induction false} AlwaysSound(db: Routes, calls: seq<RouteCall>)
    requires RoutesSound(db)
    ensures RoutesSound(AfterCalls(db, calls))
  {
    if calls != [] {
      var before := AfterCalls(db, calls[..|calls| - 1]);
      AlwaysSound(db, calls[..|calls| - 1]);
      match calls[|calls| - 1]
      case Register(node) => RegisterKeepsSound(before, node);
      case Advertise(_) =>
      case Declare(node, slots) => DeclarationKeepsSound(before, node, slots);
      case Upsert(node, slot, target, pin, binding) => UpsertKeepsSound(before, node, slot, target, pin, binding);
      case Unmap(_) =>
      case Delete(node) => DeleteKeepsSound(before, node);
    }
  }

  lemma RegisterKeepsSound(db: Routes, node: string)
    requires RoutesSound(db)
    ensures RoutesSound(db.(nodes := db.nodes + {node}))
  {
    var after := db.(nodes := db.nodes + {node});
    forall key | key in after.mappings ensures MappingSound(after.nodes, key, after.mappings[key]) {
      assert MappingSound(db.nodes, key, db.mappings[key]);
    }
  }

  /** After any run, no stage of any node is ever refused for its mapping's stored binding, and
      every pin a stage is given names a registered node. */
  lemma StoredBindingsNeverRefuse(db: Routes, calls: seq<RouteCall>, node: string, st: Stage)
    requires RoutesSound(db)
    ensures Plan(AfterCalls(db, calls), node, st) != Err(BindingInvalid)
    ensures Plan(AfterCalls(db, calls), node, st).Ok? && Plan(AfterCalls(db, calls), node, st).value.pin.Some? ==>
      Plan(AfterCalls(db, calls), node, st).value.pin.value in AfterCalls(db, calls).nodes
  {
    AlwaysSound(db, calls);
    var after := AfterCalls(db, calls);
    RefusalsAreTheSubmitters(after, node, st);
    if Plan(after, node, st).Ok? {
      var key := (node, Plan(after, node, st).value.slot);
      assert MappingSound(after.nodes, key, after.mappings[key]);
    }
  }
}
