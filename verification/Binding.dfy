/** Forward bindings: the form check that normalises a submitted binding, and the stored form that passes it again. */
module Binding {
  import opened Prelude
  import opened ForwardErrors
  import opened JsonValues

  const BINDING_STRING_MAX_CHARS := 255
  const DEFAULT_BINDING_SEPARATOR := "\n\n"

  const KNOWN_FLOW_PROMPT_FIELDS: set<string> :=
    {"task", "prompt", "question", "message", "input", "systemprompt", "taskprompt"}

  datatype Rule = Copy(sources: seq<string>, target: string) | Const(target: string, value: Json)

  datatype Form = Form(rules: seq<Rule>, separator: string)

  // ---- The form -------------------------------------------------------------------------

  predicate NameOk(name: string) {
    1 <= |name| <= BINDING_STRING_MAX_CHARS && Strip(name) == name
  }

  predicate IsName(j: Json) {
    j.Str? && NameOk(j.s)
  }

  /** A name as the form check wants it: 1 to 255 characters, no whitespace at either end. */
  predicate ProperName(name: string) {
    1 <= |name| <= 255 && !IsSpace(name[0]) && !IsSpace(name[|name| - 1])
  }

  lemma NamesAreProper(name: string)
    ensures NameOk(name) <==> ProperName(name)
  {
    StripTrims(name);
  }

  ghost predicate NoRepeats(names: seq<string>) {
    forall i, j :: 0 <= i < j < |names| ==> names[i] != names[j]
  }

  ghost predicate RuleOk(r: Rule) {
    && ProperName(r.target)
    && match r
       case Copy(sources, _) => sources != [] && (forall s | s in sources :: ProperName(s)) && NoRepeats(sources)
       case Const(_, value) => value != Foreign
  }

  ghost predicate DistinctTargets(rules: seq<Rule>) {
    forall i, j :: 0 <= i < j < |rules| ==> rules[i].target != rules[j].target
  }

  ghost predicate FormOk(f: Form) {
    && f.rules != []
    && (forall r | r in f.rules :: RuleOk(r))
    && DistinctTargets(f.rules)
  }

  // ---- Reading and writing the stored JSON ----------------------------------------------

  function RuleJson(r: Rule): Json {
    match r
    case Copy(sources, target) =>
      Obj(map["sources" := Arr(seq(|sources|, i requires 0 <= i < |sources| => Str(sources[i]))),
              "target" := Str(target)])
    case Const(target, value) => Obj(map["target" := Str(target), "value" := value])
  }

  function FormJson(f: Form): Json {
    Obj(map["rules" := Arr(seq(|f.rules|, i requires 0 <= i < |f.rules| => RuleJson(f.rules[i]))),
            "separator" := Str(f.separator)])
  }

  /** `items` spell out `names`. */
  ghost predicate Spells(items: seq<Json>, names: seq<string>) {
    |items| == |names| && forall i | 0 <= i < |items| :: items[i] == Str(names[i])
  }

  /** `j` is an object with exactly the keys of one rule class, and reads as `r`. */
  ghost predicate Reads(j: Json, r: Rule) {
    && j.Obj?
    && match r
       case Copy(sources, target) =>
         j.fields.Keys == {"sources", "target"} && j.fields["target"] == Str(target)
         && j.fields["sources"].Arr? && Spells(j.fields["sources"].items, sources)
       case Const(target, value) =>
         j.fields.Keys == {"target", "value"} && j.fields["target"] == Str(target) && j.fields["value"] == value
  }

  /** What the form check accepts: `b` reads as the well-formed `f`, an absent separator as the default. */
  ghost predicate Accepts(b: Json, f: Form) {
    && b.Obj?
    && Get(b.fields, "rules").Arr?
    && var items := Get(b.fields, "rules").items;
    && |items| == |f.rules|
    && (forall i | 0 <= i < |items| :: Reads(items[i], f.rules[i]))
    && (if "separator" in b.fields then b.fields["separator"] == Str(f.separator)
        else f.separator == "\n\n")
    && FormOk(f)
  }

  lemma ReadsOnce(j: Json, r: Rule, q: Rule)
    requires Reads(j, r) && Reads(j, q)
    ensures r == q
  {
    assert "sources" !in {"target", "value"} && "sources" in {"sources", "target"};
    if r.Copy? && q.Copy? {
      assert r.sources == q.sources;
    }
  }

  /** A binding reads as one form only. */
  lemma AcceptsOnce(b: Json, f: Form, g: Form)
    requires Accepts(b, f) && Accepts(b, g)
    ensures f == g
  {
    forall i | 0 <= i < |f.rules| ensures f.rules[i] == g.rules[i] {
      ReadsOnce(Get(b.fields, "rules").items[i], f.rules[i], g.rules[i]);
    }
    assert f.rules == g.rules;
  }

  /** What the form check makes of a binding: nothing of `null`, else the one form it reads as. */
  ghost function ReadForm(b: Json): Result<Option<Form>, ForwardError> {
    if b.Null? then Ok(None)
    else if exists f :: Accepts(b, f) then var f :| Accepts(b, f); Ok(Some(f))
    else Err(BindingInvalid)
  }

  lemma ReadFormIsOk(binding: Json)
    requires ReadForm(binding).Ok? && ReadForm(binding).value.Some?
    ensures Accepts(binding, ReadForm(binding).value.value) && FormOk(ReadForm(binding).value.value)
  {
  }

  /** The normalised form, written as JSON, is accepted and reads as itself. */
  lemma WrittenFormIsAccepted(f: Form)
    requires FormOk(f)
    ensures Accepts(FormJson(f), f)
  {
    var items := FormJson(f).fields["rules"].items;
    forall i | 0 <= i < |items| ensures Reads(items[i], f.rules[i]) {
      var j := RuleJson(f.rules[i]);
      assert f.rules[i].Copy? ==> j.fields.Keys == {"sources", "target"};
      assert f.rules[i].Const? ==> j.fields.Keys == {"target", "value"};
    }
  }

  lemma WrittenFormReadsBack(f: Form)
    requires FormOk(f)
    ensures ReadForm(FormJson(f)) == Ok(Some(f))
  {
    WrittenFormIsAccepted(f);
    assert ReadForm(FormJson(f)).Ok? && Accepts(FormJson(f), ReadForm(FormJson(f)).value.value);
    AcceptsOnce(FormJson(f), f, ReadForm(FormJson(f)).value.value);
  }

  // ---- validate_binding_form ------------------------------------------------------------

  /** One source list: distinct names. */
  method ReadSources(items: seq<Json>) returns (r: Result<seq<string>, ForwardError>)
    ensures r.Ok? ==> Spells(items, r.value) && NoRepeats(r.value) && forall s | s in r.value :: ProperName(s)
    ensures r.Err? ==> forall names :: Spells(items, names) ==>
        !(NoRepeats(names) && forall s | s in names :: ProperName(s))
  {
    var seen: set<string> := {};
    var names: seq<string> := [];
    for i := 0 to |items|
      invariant |names| == i && (forall k | 0 <= k < i :: items[k] == Str(names[k]))
      invariant forall s :: s in seen <==> s in names
      invariant NoRepeats(names) && forall s | s in names :: ProperName(s)
    {
      if items[i].Str? { NamesAreProper(items[i].s); }
      if !IsName(items[i]) {
        forall other | Spells(items, other) ensures exists s :: s in other && !ProperName(s) {
          assert items[i] == Str(other[i]) && other[i] in other;
        }
        return Err(BindingInvalid);
      }
      var name := items[i].s;
      if name in seen {
        forall other | Spells(items, other) ensures !NoRepeats(other) {
          var k :| 0 <= k < i && names[k] == name;
          assert items[k] == Str(other[k]) && items[i] == Str(other[i]);
        }
        return Err(BindingInvalid);
      }
      seen := seen + {name};
      names := names + [name];
    }
    return Ok(names);
  }

  /** One rule: a copy or a const rule by its exact key set. */
  method ReadRule(j: Json) returns (r: Result<Rule, ForwardError>)
    ensures r.Ok? ==> Reads(j, r.value) && RuleOk(r.value)
    ensures r.Err? ==> forall rule :: Reads(j, rule) ==> !RuleOk(rule)
  {
    if !j.Obj? { return Err(BindingInvalid); }
    assert "sources" !in {"target", "value"};
    if "target" in j.fields && j.fields["target"].Str? { NamesAreProper(j.fields["target"].s); }
    var isConst := j.fields.Keys == {"target", "value"};
    if !isConst && j.fields.Keys != {"sources", "target"} { return Err(BindingInvalid); }
    if isConst {
      assert "target" in j.fields.Keys && "value" in j.fields.Keys && "sources" !in j.fields.Keys;
      if !IsName(j.fields["target"]) { return Err(BindingInvalid); }
      if j.fields["value"].Foreign? { return Err(BindingInvalid); }
      return Ok(Const(j.fields["target"].s, j.fields["value"]));
    }
    assert "target" in j.fields.Keys && "sources" in j.fields.Keys;
    if !j.fields["sources"].Arr? || j.fields["sources"].items == [] { return Err(BindingInvalid); }
    var sources := ReadSources(j.fields["sources"].items);
    if sources.Err? {
      forall rule | Reads(j, rule) ensures !RuleOk(rule) {
        assert rule.Copy? && Spells(j.fields["sources"].items, rule.sources);
      }
      return Err(BindingInvalid);
    }
    if !IsName(j.fields["target"]) { return Err(BindingInvalid); }
    return Ok(Copy(sources.value, j.fields["target"].s));
  }

  /** `None` passes through; otherwise the result is the one form the binding reads as, and the
      check fails only when there is none. */
  method ValidateBindingForm(b: Json) returns (r: Result<Option<Form>, ForwardError>)
    ensures b.Null? <==> r == Ok(None)
    ensures r.Ok? && r.value.Some? ==> Accepts(b, r.value.value)
    ensures r.Err? ==> r == Err(BindingInvalid) && forall f :: !Accepts(b, f)
  {
    if b.Null? { return Ok(None); }
    if !b.Obj? { return Err(BindingInvalid); }
    var list := Get(b.fields, "rules");
    if !list.Arr? || list.items == [] { return Err(BindingInvalid); }
    var separator := DEFAULT_BINDING_SEPARATOR;
    if "separator" in b.fields {
      if !b.fields["separator"].Str? { return Err(BindingInvalid); }
      separator := b.fields["separator"].s;
    }
    var rules: seq<Rule> := [];
    var targets: set<string> := {};
    for i := 0 to |list.items|
      invariant |rules| == i && (forall k | 0 <= k < i :: Reads(list.items[k], rules[k]))
      invariant forall k | 0 <= k < i :: RuleOk(rules[k])
      invariant forall t :: t in targets <==> exists k :: 0 <= k < i && rules[k].target == t
      invariant DistinctTargets(rules)
    {
      var rule := ReadRule(list.items[i]);
      if rule.Err? {
        forall f ensures !Accepts(b, f) {
          assert |f.rules| > i ==> f.rules[i] in f.rules;
        }
        return Err(BindingInvalid);
      }
      if rule.value.target in targets {
        ghost var k :| 0 <= k < i && rules[k].target == rule.value.target;
        forall f ensures !Accepts(b, f) {
          if Accepts(b, f) {
            ReadsOnce(list.items[i], f.rules[i], rule.value);
            ReadsOnce(list.items[k], f.rules[k], rules[k]);
          }
        }
        return Err(BindingInvalid);
      }
      targets := targets + {rule.value.target};
      rules := rules + [rule.value];
    }
    return Ok(Some(Form(rules, separator)));
  }

  /** Checking the stored form again gives the same form. */
  method RevalidateStored(f: Form) returns (r: Result<Option<Form>, ForwardError>)
    requires FormOk(f)
    ensures r == Ok(Some(f))
  {
    WrittenFormReadsBack(f);
    r := ValidateBindingForm(FormJson(f));
    if r.Ok? { AcceptsOnce(FormJson(f), f, r.value.value); }
  }
}
