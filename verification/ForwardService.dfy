/**
  The forward service: the tables updated in place, each call proved against its
  specification and shown to keep the stored rows sound.
 */
module ForwardService {
  import opened Prelude
  import opened ForwardErrors
  import opened JsonValues
  import opened Slots
  import opened Binding
  import opened Rewrite
  import opened ForwardRouting
  import opened ForwardMappings

  class ForwardStore {
    var nodes: set<string>
    var slots: SlotTable
    var mappings: map<(string, string), Mapping>
    var catalog: map<(string, string), Json>

    function Db(): Routes
      reads this
    {
      Routes(nodes, slots, mappings, catalog)
    }

    ghost predicate Sound()
      reads this
    {
      RoutesSound(Db())
    }

    constructor (nodes: set<string>, catalog: map<(string, string), Json>)
      ensures Db() == Routes(nodes, map[], map[], catalog) && Sound()
    {
      this.nodes, this.catalog := nodes, catalog;
      slots, mappings := map[], map[];
    }

    // ---- replace_forward_slots ----------------------------------------------------------

    static method ParseEntries(items: seq<Json>) returns (r: Result<seq<Entry>, ForwardError>)
      ensures r == ParseAll(items)
    {
      var entries: seq<Entry> := [];
      for i := 0 to |items|
        invariant ParseAll(items[..i]) == Ok(entries)
      {
        assert items[..i + 1][..i] == items[..i];
        var entry := ParseEntry(items[i]);
        if entry.Err? {
          RefusedPrefix(items, i + 1);
          return Err(entry.error);
        }
        entries := entries + [entry.value];
      }
      assert items[..|items|] == items;
      return Ok(entries);
    }

    /** The type and schema maps of a declaration, and the ref check of every entry. */
    static method CheckRefs(entries: seq<Entry>) returns (declared: Declared, holds: bool)
      ensures declared == LastWins(entries)
      ensures holds <==> forall i | 0 <= i < |entries| :: RefHolds(LastWins(entries), entries[i].row)
    {
      declared := map[];
      for i := 0 to |entries|
        invariant declared == LastWins(entries[..i])
      {
        assert entries[..i + 1][..i] == entries[..i];
        declared := declared[entries[i].slot := entries[i].row];
      }
      assert entries[..|entries|] == entries;
      for i := 0 to |entries|
        invariant forall k | 0 <= k < i :: RefHolds(declared, entries[k].row)
      {
        if !RefHolds(declared, entries[i].row) { return declared, false; }
      }
      return declared, true;
    }

    /** The whole declaration, checked in memory. */
    static method CheckWhole(declaration: Json) returns (r: Result<seq<Entry>, ForwardError>)
      ensures r == CheckDeclaration(declaration)
    {
      if !declaration.Arr? { return Err(SlotInvalid); }
      r := ParseEntries(declaration.items);
      if r.Ok? {
        var _, holds := CheckRefs(r.value);
        if !holds { return Err(SlotInvalid); }
      }
    }

    /** Inserts or overwrites the row of every entry, in order. */
    static method UpsertRows(entries: seq<Entry>) returns (rows: Declared)
      ensures rows == LastWins(entries)
    {
      rows := map[];
      for i := 0 to |entries|
        invariant rows == LastWins(entries[..i])
      {
        assert entries[..i + 1][..i] == entries[..i];
        rows := rows[entries[i].slot := entries[i].row];
      }
      assert entries[..|entries|] == entries;
    }

    method ReplaceForwardSlots(node: string, declaration: Json) returns (r: Result<nat, ForwardError>)
      modifies this`slots
      ensures (r, slots) == Replaced(nodes, old(slots), node, declaration)
      ensures old(Sound()) ==> Sound()
    {
      if Sound() { DeclarationKeepsSound(Db(), node, declaration); }
      var entries := CheckWhole(declaration);
      if entries.Err? { return Err(entries.error); }
      if node !in nodes { return Err(NodeUnknown); }
      slots := slots - {node};
      if entries.value == [] { return Ok(0); }
      var rows := UpsertRows(entries.value);
      slots := slots[node := rows];
      assert slots == old(slots)[node := rows];
      return Ok(|entries.value|);
    }

    // ---- resolve_forward_stages ---------------------------------------------------------

    method CollectDefaults(node: string, order: seq<string>) returns (defaults: map<string, Fields>)
      requires Enumerates(order, RowsOf(Db(), node))
      ensures defaults == Defaults(RowsOf(Db(), node), order)
    {
      var rows := RowsOf(Db(), node);
      defaults := map[];
      for i := 0 to |order|
        invariant defaults == Defaults(rows, order[..i])
      {
        assert order[..i + 1][..i] == order[..i];
        var row := rows[order[i]];
        if !row.value.Null? {
          var fields := if FormKey(row) in defaults then defaults[FormKey(row)] else map[];
          defaults := defaults[FormKey(row) := fields[FieldName(order[i], row) := row.value]];
        }
      }
      assert order[..|order|] == order;
    }

    method PlanStage(node: string, st: Stage) returns (r: Result<Target, ForwardError>)
      ensures r == Plan(Db(), node, st)
    {
      var payload := if Truthy(st.payload) then st.payload else Obj(map[]);
      if !payload.Obj? { return Err(MappingInvalid); }
      var slot := NormalizeSlot(Get(payload.fields, "forward_slot"));
      if slot.Err? { return Err(slot.error); }
      if DeclaredAsValue(Db(), node, slot.value) { return Err(SlotNotRoutable); }
      if (node, slot.value) !in mappings { return Err(MappingMissing); }
      var m := mappings[(node, slot.value)];
      if m.target == FORWARD_CAPABILITY { return Err(MappingInvalid); }
      if m.binding.None? { return Ok(Target(slot.value, m.target, m.pin, None)); }
      var form := CheckForm(m.binding.value);
      if form.Err? { return Err(form.error); }
      return Ok(Target(slot.value, m.target, m.pin, form.value));
    }

    static method CheckForm(binding: Json) returns (r: Result<Option<Form>, ForwardError>)
      ensures r == ReadForm(binding)
    {
      r := ValidateBindingForm(binding);
      ReadFormIsUnique(binding, r);
    }

    /** `setdefault` for every default: what is there already stays. */
    static method SetDefaults(payload: Fields, defaults: Fields) returns (filled: Fields)
      ensures filled == defaults + payload
    {
      filled := payload;
      var left := defaults.Keys;
      while left != {}
        invariant left <= defaults.Keys
        invariant filled == (map k | k in defaults && k !in left :: defaults[k]) + payload
        decreases left
      {
        var k :| k in left;
        if k !in filled { filled := filled[k := defaults[k]]; }
        left := left - {k};
      }
    }

    method RewriteStage(st: Stage, t: Target, defaults: map<string, Fields>, dump: Dump) returns (after: Stage)
      ensures after == Redirected(defaults, dump, st, t)
    {
      after := st.(capability := t.capability, forwardSlot := Some(t.slot), targetNode := t.pin);
      var payload := if st.payload.Obj? then st.payload.fields else map[];
      payload := payload - {"forward_slot"};
      payload := SetDefaults(payload, DefaultsFor(defaults, t.slot));
      payload := SetDefaults(payload, DefaultsFor(defaults, "*"));
      if t.binding.Some? {
        payload := ApplyBinding(payload, t.binding.value.rules, t.binding.value.separator, dump);
      }
      after := after.(payload := Obj(payload));
    }

    /** The validation pass: a plan for every forward stage, or the first refusal. */
    method PlanStages(node: string, stages: array<Stage>) returns (r: Result<map<nat, Target>, ForwardError>)
      ensures match FirstRefusal(Db(), node, stages[..])
        case Some(e) => r == Err(e)
        case None => r.Ok? && forall k: nat | k < stages.Length && IsForward(stages[k]) ::
          k in r.value && Plan(Db(), node, stages[k]) == Ok(r.value[k])
    {
      var plans: map<nat, Target> := map[];
      for i := 0 to stages.Length
        invariant FirstRefusal(Db(), node, stages[..i]).None?
        invariant forall k: nat | k < i && IsForward(stages[k]) ::
          k in plans && Plan(Db(), node, stages[k]) == Ok(plans[k])
      {
        assert stages[..i + 1][..i] == stages[..i];
        if IsForward(stages[i]) {
          var plan := PlanStage(node, stages[i]);
          if plan.Err? {
            assert stages[..][..i + 1] == stages[..i + 1];
            RefusedForGood(Db(), node, stages[..], i + 1);
            return Err(plan.error);
          }
          plans := plans[i := plan.value];
        }
      }
      assert stages[..stages.Length] == stages[..];
      return Ok(plans);
    }

    /** The rewrite pass; `goal` is what it makes of the stages. */
    method RewriteStages(stages: array<Stage>, plans: map<nat, Target>, defaults: map<string, Fields>, dump: Dump,
                         ghost goal: seq<Stage>)
      requires |goal| == stages.Length
      requires forall k: nat | k < stages.Length :: if IsForward(stages[k])
        then k in plans && goal[k] == Redirected(defaults, dump, stages[k], plans[k]) else goal[k] == stages[k]
      modifies stages
      ensures stages[..] == goal
    {
      for i := 0 to stages.Length
        invariant forall k: nat | i <= k < stages.Length :: stages[k] == old(stages[k])
        invariant forall k: nat | k < i :: stages[k] == goal[k]
      {
        if IsForward(stages[i]) {
          stages[i] := RewriteStage(stages[i], plans[i], defaults, dump);
        }
      }
    }

    /** All or nothing: the stages are as specified, or on a refusal all as they were. `order`
        is the order in which the query returns the node's value slots. */
    method ResolveForwardStages(node: string, stages: array<Stage>, order: seq<string>, dump: Dump)
        returns (r: Result<(), ForwardError>)
      requires Enumerates(order, RowsOf(Db(), node))
      modifies stages
      ensures match Resolved(Db(), node, order, dump, old(stages[..]))
        case Ok(after) => r == Ok(()) && stages[..] == after
        case Err(e) => r == Err(e) && stages[..] == old(stages[..])
    {
      var any := HasForward(stages);
      if !any { return Ok(()); }
      if node !in nodes { return Err(NodeUnknown); }
      var defaults := CollectDefaults(node, order);
      var plans := PlanStages(node, stages);
      if plans.Err? { return Err(plans.error); }
      ghost var goal := Resolved(Db(), node, order, dump, stages[..]).value;
      PlansMeetGoal(Db(), node, defaults, dump, stages[..], plans.value, goal);
      RewriteStages(stages, plans.value, defaults, dump, goal);
      return Ok(());
    }

    static method HasForward(stages: array<Stage>) returns (any: bool)
      ensures any <==> exists st :: st in stages[..] && IsForward(st)
    {
      for i := 0 to stages.Length
        invariant forall k | 0 <= k < i :: !IsForward(stages[k])
      {
        if IsForward(stages[i]) {
          assert stages[i] in stages[..];
          return true;
        }
      }
      return false;
    }

    // ---- upsert_forward_mapping ---------------------------------------------------------

    static method CheckSources(names: set<string>, rules: seq<Rule>) returns (r: Check)
      ensures r == Require(forall rule | rule in rules :: SourcesIn(names, rule), UnknownSourceField)
    {
      for i := 0 to |rules|
        invariant forall k | 0 <= k < i :: SourcesIn(names, rules[k])
      {
        if !SourcesIn(names, rules[i]) { return Err(UnknownSourceField); }
      }
      return Ok(());
    }

    static method CheckSchema(schema: Json, rules: seq<Rule>) returns (r: Check)
      ensures r == CheckBindingSchema(schema, rules)
    {
      var specs := TargetSpecs(schema);
      if specs.None? { return Ok(()); }
      for i := 0 to |rules|
        invariant CheckTargets(specs.value, rules[..i]).Ok?
      {
        assert rules[..i + 1][..i] == rules[..i];
        var checked := CheckRuleTarget(specs.value, rules[i]);
        if checked.Err? {
          RefusedOnward(specs.value, rules, i + 1);
          return checked;
        }
      }
      assert rules[..|rules|] == rules;
      return Ok(());
    }

    method CheckBindingFields(node: string, slot: string, target: string, pin: Option<string>,
                              rules: seq<Rule>) returns (r: Check)
      ensures r == CheckFields(Db(), node, slot, target, pin, rules)
    {
      var schema := SlotSchema(Db(), node, slot);
      var names := SlotNames(schema);
      if names.Err? { return Err(names.error); }
      if names.value.Some? {
        r := CheckSources(names.value.value, rules);
        if r.Err? { return; }
      }
      if pin.Some? {
        if (pin.value, target) !in catalog || catalog[(pin.value, target)].Null? { return Err(RequiresSchema); }
        r := CheckSchema(catalog[(pin.value, target)], rules);
        return;
      }
      if names.value.None? { return Err(RequiresSchema); }
      r := CheckSchema(schema, rules);
    }

    method StoreBinding(node: string, slot: string, target: string, pin: Option<string>, binding: Json)
        returns (r: Result<Option<Json>, ForwardError>)
      ensures r == CheckBinding(Db(), node, slot, target, pin, binding)
    {
      var form := CheckForm(binding);
      if form.Err? { return Err(form.error); }
      if form.value.None? { return Ok(None); }
      var fits := CheckBindingFields(node, slot, target, pin, form.value.value.rules);
      if fits.Err? { return Err(fits.error); }
      return Ok(Some(FormJson(form.value.value)));
    }

    method UpsertForwardMapping(node: string, slot: Json, target: Json, pin: Json,
                                binding: Json) returns (r: Result<Mapping, ForwardError>)
      modifies this`mappings
      ensures match Upserted(old(Db()), node, slot, target, pin, binding)
        case Ok((name, m)) => r == Ok(m) && mappings == old(mappings)[(node, name) := m]
        case Err(e) => r == Err(e) && mappings == old(mappings)
      ensures old(Sound()) ==> Sound()
    {
      if Sound() { UpsertKeepsSound(Db(), node, slot, target, pin, binding); }
      var name := NormalizeSlot(slot);
      if name.Err? { return Err(name.error); }
      var capability := NormalizeTarget(target);
      if capability.Err? { return Err(capability.error); }
      if node !in nodes { return Err(NodeUnknown); }
      var pinned := NormalizePin(pin);
      if pinned.Err? { return Err(pinned.error); }
      var provider := CheckProvider(Db(), pinned.value, capability.value);
      if provider.Err? { return Err(provider.error); }
      var stored := StoreBinding(node, name.value, capability.value, pinned.value, binding);
      if stored.Err? { return Err(stored.error); }
      var m := Mapping(capability.value, pinned.value, stored.value);
      mappings := mappings[(node, name.value) := m];
      return Ok(m);
    }

    method DeleteForwardMapping(node: string, slot: Json) returns (r: Result<(), ForwardError>)
      modifies this`mappings
      ensures r == Ok(()) <==> NormalizeSlot(slot).Ok? && (node, NormalizeSlot(slot).value) in old(mappings)
      ensures NormalizeSlot(slot).Err? ==> r == Err(NormalizeSlot(slot).error)
      ensures NormalizeSlot(slot).Ok? && r.Err? ==> r == Err(MappingMissing)
      ensures mappings == if r.Ok? then old(mappings) - {(node, NormalizeSlot(slot).value)} else old(mappings)
      ensures old(Sound()) ==> Sound()
    {
      var name := NormalizeSlot(slot);
      if name.Err? { return Err(name.error); }
      if (node, name.value) !in mappings { return Err(MappingMissing); }
      mappings := mappings - {(node, name.value)};
      return Ok(());
    }

    /** The forward tables' share of a node deletion. */
    method DeleteNode(node: string)
      modifies this`nodes, this`slots, this`mappings
      ensures Db() == AfterDelete(old(Db()), node)
      ensures nodes == old(nodes) - {node} && slots == old(slots) - {node}
      ensures forall key :: key in mappings <==> key in old(mappings) && key.0 != node
      ensures forall key | key in mappings ::
        mappings[key] == old(mappings)[key].(
          pin := if old(mappings)[key].pin == Some(node) then None else old(mappings)[key].pin)
      ensures old(Sound()) ==> Sound()
    {
      if Sound() { DeleteKeepsSound(Db(), node); }
      ClearedInTwo(Db(), node);
      mappings := Unowned(mappings, node);
      slots := slots - {node};
      mappings := Unpinned(mappings, node);
      nodes := nodes - {node};
    }
  }

  /** `DELETE ... WHERE node_id = ?` */
  function Unowned(mappings: map<(string, string), Mapping>, node: string): map<(string, string), Mapping> {
    map key | key in mappings && key.0 != node :: mappings[key]
  }

  /** `UPDATE ... SET target_node_id = NULL WHERE target_node_id = ?` */
  function Unpinned(mappings: map<(string, string), Mapping>, node: string): map<(string, string), Mapping> {
    map key | key in mappings ::
      if mappings[key].pin == Some(node) then mappings[key].(pin := None) else mappings[key]
  }

  lemma ClearedInTwo(db: Routes, node: string)
    ensures AfterDelete(db, node).mappings == Unpinned(Unowned(db.mappings, node), node)
  {
  }

  lemma PlansMeetGoal(db: Routes, node: string, defaults: map<string, Fields>, dump: Dump, stages: seq<Stage>,
                      plans: map<nat, Target>, goal: seq<Stage>)
    requires |goal| == |stages|
    requires forall k: nat | k < |stages| :: goal[k] == Rewritten(db, node, defaults, dump, stages[k])
    requires forall k: nat | k < |stages| && IsForward(stages[k]) ::
      k in plans && Plan(db, node, stages[k]) == Ok(plans[k])
    ensures forall k: nat | k < |stages| :: if IsForward(stages[k])
      then k in plans && goal[k] == Redirected(defaults, dump, stages[k], plans[k]) else goal[k] == stages[k]
  {
    forall k: nat | k < |stages| && IsForward(stages[k])
      ensures k in plans && goal[k] == Redirected(defaults, dump, stages[k], plans[k])
    {
      PlannedIsRewritten(db, node, defaults, dump, stages[k], plans[k]);
    }
  }

  lemma PlannedIsRewritten(db: Routes, node: string, defaults: map<string, Fields>, dump: Dump, st: Stage, t: Target)
    requires IsForward(st) && Plan(db, node, st) == Ok(t)
    ensures Rewritten(db, node, defaults, dump, st) == Redirected(defaults, dump, st, t)
  {
  }

  lemma {:induction false} RefusedPrefix(items: seq<Json>, i: nat)
    requires i <= |items| && ParseAll(items[..i]).Err?
    ensures ParseAll(items) == ParseAll(items[..i])
  {
    if i < |items| {
      assert items[..|items| - 1][..i] == items[..i];
      RefusedPrefix(items[..|items| - 1], i);
    } else {
      assert items[..i] == items;
    }
  }

  lemma {:induction false} RefusedForGood(db: Routes, node: string, stages: seq<Stage>, i: nat)
    requires i <= |stages| && FirstRefusal(db, node, stages[..i]).Some?
    ensures FirstRefusal(db, node, stages) == FirstRefusal(db, node, stages[..i])
  {
    if i < |stages| {
      assert stages[..|stages| - 1][..i] == stages[..i];
      RefusedForGood(db, node, stages[..|stages| - 1], i);
    } else {
      assert stages[..i] == stages;
    }
  }

  lemma ReadFormIsUnique(binding: Json, r: Result<Option<Form>, ForwardError>)
    requires binding.Null? <==> r == Ok(None)
    requires r.Ok? && r.value.Some? ==> Accepts(binding, r.value.value)
    requires r.Err? ==> r == Err(BindingInvalid) && forall f :: !Accepts(binding, f)
    ensures r == ReadForm(binding)
  {
    if r.Ok? && r.value.Some? {
      assert ReadForm(binding).Ok? && Accepts(binding, ReadForm(binding).value.value);
      AcceptsOnce(binding, r.value.value, ReadForm(binding).value.value);
    }
  }
}
