/**
  The payload rewrite `apply_binding`: rules run in order over a working copy, a fired rule
  writes its target and consumes its sources, and a final sweep keeps written targets and the
  reserved prompt fields.
 */
module Rewrite {
  import opened JsonValues
  import opened Binding

  /** `json.dumps`, left to the library. */
  type Dump = Json -> string

  datatype Work = Work(fields: Fields, written: set<string>)

  // ---- The operational meaning ----------------------------------------------------------

  function Present(fields: Fields, sources: seq<string>): seq<string> {
    if sources == [] then []
    else (if sources[0] in fields then [sources[0]] else []) + Present(fields, sources[1..])
  }

  function Part(dump: Dump, j: Json): string {
    if j.Str? then j.s else dump(j)
  }

  function Joined(fields: Fields, names: seq<string>, separator: string, dump: Dump): string
    requires forall s | s in names :: s in fields
  {
    if names == [] then ""
    else if |names| == 1 then Part(dump, fields[names[0]])
    else Part(dump, fields[names[0]]) + separator + Joined(fields, names[1..], separator, dump)
  }

  lemma {:induction false} PresentAreThere(fields: Fields, sources: seq<string>)
    ensures forall s :: s in Present(fields, sources) <==> s in sources && s in fields
  {
    if sources != [] {
      PresentAreThere(fields, sources[1..]);
      assert sources == [sources[0]] + sources[1..];
    }
  }

  /** A const rule always fires, a copy rule when one of its sources is there. */
  predicate Fires(fields: Fields, r: Rule) {
    r.Const? || exists s :: s in r.sources && s in fields
  }

  /** The value a fired rule writes: its constant, a verbatim copy of the only source that is
      there, or the texts of all that are, joined in list order. */
  function Value(fields: Fields, r: Rule, separator: string, dump: Dump): Json
    requires Fires(fields, r)
  {
    match r
    case Const(_, value) => value
    case Copy(sources, _) =>
      PresentAreThere(fields, sources);
      var names := Present(fields, sources);
      if |names| == 1 then fields[names[0]] else Str(Joined(fields, names, separator, dump))
  }

  /** A fired rule removes its sources, except its own target. */
  predicate Consumes(r: Rule, k: string) {
    r.Copy? && k in r.sources && k != r.target
  }

  function Consumed(r: Rule): set<string> {
    if r.Const? then {} else set s | s in r.sources && s != r.target
  }

  function RunRule(w: Work, r: Rule, separator: string, dump: Dump): Work {
    if !Fires(w.fields, r) then w
    else Work(w.fields[r.target := Value(w.fields, r, separator, dump)] - Consumed(r), w.written + {r.target})
  }

  /** The working copy after the first `i` rules. */
  function RunTo(payload: Fields, rules: seq<Rule>, separator: string, dump: Dump, i: nat): Work
    requires i <= |rules|
  {
    if i == 0 then Work(payload, {})
    else RunRule(RunTo(payload, rules, separator, dump, i - 1), rules[i - 1], separator, dump)
  }

  function Swept(w: Work): Fields {
    map k | k in w.fields && (k in w.written || k in KNOWN_FLOW_PROMPT_FIELDS) :: w.fields[k]
  }

  function Applied(payload: Fields, rules: seq<Rule>, separator: string, dump: Dump): Fields {
    Swept(RunTo(payload, rules, separator, dump, |rules|))
  }

  // ---- What a rule writes ---------------------------------------------------------------

  /** One more name adds the separator and the text of its value: a string as it is, anything else
      as `dump` renders it. */
  lemma {:induction false} JoinedNext(fields: Fields, names: seq<string>, x: string, separator: string, dump: Dump)
    requires names != [] && x in fields && forall s | s in names :: s in fields
    ensures Joined(fields, names + [x], separator, dump) ==
      Joined(fields, names, separator, dump) + separator + if fields[x].Str? then fields[x].s else dump(fields[x])
    decreases |names|
  {
    var both := names + [x];
    assert both[0] == names[0] && both[1..] == names[1..] + [x];
    if |names| == 1 {
      assert both[1..] == [x];
    } else {
      assert forall s | s in names[1..] :: s in names;
      JoinedNext(fields, names[1..], x, separator, dump);
      var first := Part(dump, fields[names[0]]) + separator;
      var rest := Joined(fields, names[1..], separator, dump);
      var text := if fields[x].Str? then fields[x].s else dump(fields[x]);
      assert first + (rest + separator + text) == first + rest + separator + text;
    }
  }

  /** `part` stands in `text` from `start` on. */
  predicate StandsAt(text: string, start: nat, part: string) {
    start + |part| <= |text| && text[start..start + |part|] == part
  }

  ghost predicate PartsStand(text: string, parts: seq<string>, starts: seq<nat>) {
    |starts| == |parts| && forall i | 0 <= i < |parts| :: StandsAt(text, starts[i], parts[i])
  }

  ghost predicate SeparatorsStand(text: string, parts: seq<string>, separator: string, starts: seq<nat>) {
    && |starts| == |parts|
    && forall i | 0 <= i < |parts| - 1 :: StandsAt(text, starts[i] + |parts[i]|, separator)
  }

  /** Each part but the first starts where the separator after the one before it ends; `size` is the
      end of the last. */
  ghost predicate Chained(parts: seq<string>, gap: nat, starts: seq<nat>, size: nat) {
    && |starts| == |parts| > 0
    && starts[0] == 0
    && (forall i | 0 < i < |parts| :: starts[i] == starts[i - 1] + |parts[i - 1]| + gap)
    && size == starts[|parts| - 1] + |parts[|parts| - 1]|
  }

  /** `text` is the parts one after the other with the separator between them; part `i` starts at
      `starts[i]`. */
  ghost predicate Laid(text: string, parts: seq<string>, separator: string, starts: seq<nat>) {
    && Chained(parts, |separator|, starts, |text|)
    && PartsStand(text, parts, starts) && SeparatorsStand(text, parts, separator, starts)
  }

  lemma StandsStill(text: string, more: string, start: nat, part: string)
    requires StandsAt(text, start, part)
    ensures StandsAt(text + more, start, part)
  {
    assert (text + more)[start..start + |part|] == text[start..start + |part|];
  }

  /** The parts with the separator between them, from the last one on. */
  function TextJoin(parts: seq<string>, separator: string): string
    requires parts != []
  {
    var n := |parts| - 1;
    if n == 0 then parts[0] else TextJoin(parts[..n], separator) + separator + parts[n]
  }

  lemma PartsNext(text: string, parts: seq<string>, starts: seq<nat>, more: string, part: string)
    requires PartsStand(text, parts, starts)
    ensures PartsStand(text + (more + part), parts + [part], starts + [|text| + |more|])
  {
    forall i | 0 <= i < |parts| ensures StandsAt(text + (more + part), starts[i], parts[i]) {
      StandsStill(text, more + part, starts[i], parts[i]);
    }
    assert StandsAt(text + (more + part), |text| + |more|, part);
  }

  lemma ChainedNext(parts: seq<string>, gap: nat, starts: seq<nat>, size: nat, part: string)
    requires Chained(parts, gap, starts, size)
    ensures Chained(parts + [part], gap, starts + [size + gap], size + gap + |part|)
  {
  }

  lemma SeparatorsNext(text: string, parts: seq<string>, separator: string, starts: seq<nat>, part: string)
    requires |parts| > 0 && SeparatorsStand(text, parts, separator, starts)
    requires |text| == starts[|parts| - 1] + |parts[|parts| - 1]|
    ensures SeparatorsStand(text + (separator + part), parts + [part], separator, starts + [|text| + |separator|])
  {
    var longer := text + (separator + part);
    forall i | 0 <= i < |parts| ensures StandsAt(longer, starts[i] + |parts[i]|, separator) {
      if i < |parts| - 1 {
        StandsStill(text, separator + part, starts[i] + |parts[i]|, separator);
      } else {
        assert longer[|text|..|text| + |separator|] == separator;
      }
    }
  }

  lemma LaidNext(text: string, parts: seq<string>, separator: string, starts: seq<nat>, part: string)
    requires Laid(text, parts, separator, starts)
    ensures Laid(text + (separator + part), parts + [part], separator, starts + [|text| + |separator|])
  {
    PartsNext(text, parts, starts, separator, part);
    ChainedNext(parts, |separator|, starts, |text|, part);
    SeparatorsNext(text, parts, separator, starts, part);
  }

  /** That text lays the parts out. */
  lemma {:induction false} TextJoinIsLaid(parts: seq<string>, separator: string) returns (starts: seq<nat>)
    requires parts != []
    ensures Laid(TextJoin(parts, separator), parts, separator, starts)
    decreases |parts|
  {
    var n := |parts| - 1;
    if n == 0 {
      starts := [0];
      assert StandsAt(TextJoin(parts, separator), 0, parts[0]);
    } else {
      var before := TextJoin(parts[..n], separator);
      starts := TextJoinIsLaid(parts[..n], separator);
      assert TextJoin(parts, separator) == before + (separator + parts[n]);
      LaidNext(before, parts[..n], separator, starts, parts[n]);
      assert parts == parts[..n] + [parts[n]];
      starts := starts + [|before| + |separator|];
    }
  }

  /** The text of a value: a string as it is, anything else as `dump` renders it. */
  function TextsOf(values: seq<Json>, dump: Dump): (texts: seq<string>)
    ensures |texts| == |values|
  {
    seq(|values|, i requires 0 <= i < |values| => if values[i].Str? then values[i].s else dump(values[i]))
  }

  function ValuesOf(fields: Fields, names: seq<string>): (values: seq<Json>)
    requires forall s | s in names :: s in fields
    ensures |values| == |names|
  {
    seq(|names|, i requires 0 <= i < |names| => fields[names[i]])
  }

  lemma TextsNext(fields: Fields, names: seq<string>, x: string, dump: Dump)
    requires x in fields && forall s | s in names :: s in fields
    ensures TextsOf(ValuesOf(fields, names + [x]), dump) ==
      TextsOf(ValuesOf(fields, names), dump) + [if fields[x].Str? then fields[x].s else dump(fields[x])]
  {
    assert ValuesOf(fields, names + [x]) == ValuesOf(fields, names) + [fields[x]];
  }

  /** A join is the join of the texts of its names in their order. */
  lemma {:induction false} JoinedIsTextJoin(fields: Fields, names: seq<string>, separator: string, dump: Dump)
    requires names != [] && forall s | s in names :: s in fields
    ensures Joined(fields, names, separator, dump) == TextJoin(TextsOf(ValuesOf(fields, names), dump), separator)
    decreases |names|
  {
    var n := |names| - 1;
    if n > 0 {
      var before := names[..n];
      var texts := TextsOf(ValuesOf(fields, names), dump);
      assert names == before + [names[n]];
      JoinedIsTextJoin(fields, before, separator, dump);
      JoinedNext(fields, before, names[n], separator, dump);
      TextsNext(fields, before, names[n], dump);
      assert texts[..n] == TextsOf(ValuesOf(fields, before), dump);
    }
  }

  /** `picks` are the positions of the sources that are there, in list order. */
  ghost predicate Picks(fields: Fields, sources: seq<string>, picks: seq<nat>) {
    && (forall k | 0 <= k < |picks| :: picks[k] < |sources| && sources[picks[k]] in fields)
    && (forall k, l | 0 <= k < l < |picks| :: picks[k] < picks[l])
    && (forall i: nat | i < |sources| && sources[i] in fields :: i in picks)
  }

  /** The values of those sources. */
  function Picked(fields: Fields, sources: seq<string>, picks: seq<nat>): (values: seq<Json>)
    requires forall k | 0 <= k < |picks| :: picks[k] < |sources| && sources[picks[k]] in fields
    ensures |values| == |picks|
  {
    seq(|picks|, k requires 0 <= k < |picks| => fields[sources[picks[k]]])
  }

  lemma {:induction false} PresentNext(fields: Fields, sources: seq<string>, x: string)
    ensures Present(fields, sources + [x]) == Present(fields, sources) + if x in fields then [x] else []
  {
    if sources == [] {
      assert [x][1..] == [];
    } else {
      assert (sources + [x])[1..] == sources[1..] + [x];
      PresentNext(fields, sources[1..], x);
    }
  }

  lemma PicksNext(fields: Fields, sources: seq<string>, picks: seq<nat>, x: string)
    requires Picks(fields, sources, picks)
    ensures Picks(fields, sources + [x], if x in fields then picks + [|sources|] else picks)
  {
    var longer := sources + [x];
    var more := if x in fields then picks + [|sources|] else picks;
    forall i: nat | i < |longer| && longer[i] in fields ensures i in more {
      if i < |sources| {
        assert sources[i] == longer[i];
        assert i in picks;
      }
    }
    forall k | 0 <= k < |picks| ensures picks[k] < |sources| && longer[picks[k]] in fields {
      assert longer[picks[k]] == sources[picks[k]];
    }
  }

  /** The names are those of the picked sources. */
  ghost predicate Named(sources: seq<string>, picks: seq<nat>, names: seq<string>) {
    && |names| == |picks|
    && forall k | 0 <= k < |picks| :: picks[k] < |sources| && names[k] == sources[picks[k]]
  }

  lemma NamedNext(sources: seq<string>, picks: seq<nat>, names: seq<string>, x: string)
    requires Named(sources, picks, names)
    ensures Named(sources + [x], picks, names)
    ensures Named(sources + [x], picks + [|sources|], names + [x])
  {
  }

  lemma {:induction false} PresentIsPicked(fields: Fields, sources: seq<string>) returns (picks: seq<nat>)
    ensures Picks(fields, sources, picks) && Named(sources, picks, Present(fields, sources))
    decreases |sources|
  {
    if sources == [] {
      picks := [];
    } else {
      var n := |sources| - 1;
      var before := sources[..n];
      assert sources == before + [sources[n]];
      picks := PresentIsPicked(fields, before);
      PresentNext(fields, before, sources[n]);
      PicksNext(fields, before, picks, sources[n]);
      NamedNext(before, picks, Present(fields, before), sources[n]);
      picks := if sources[n] in fields then picks + [n] else picks;
    }
  }

  /** What a fired rule writes, told by the fields it finds: its constant; of the only source that is
      there the value itself; of several, the text that lays out theirs in list order. */
  ghost predicate Writes(fields: Fields, r: Rule, separator: string, dump: Dump, v: Json) {
    match r
    case Const(_, value) => v == value
    case Copy(sources, _) =>
      exists picks: seq<nat> | Picks(fields, sources, picks) ::
        && picks != []
        && var values := Picked(fields, sources, picks);
        if |values| == 1 then v == values[0]
        else v.Str? && exists starts: seq<nat> :: Laid(v.s, TextsOf(values, dump), separator, starts)
  }

  lemma SeveralAreJoined(fields: Fields, r: Rule, separator: string, dump: Dump, picks: seq<nat>)
    requires r.Copy? && Picks(fields, r.sources, picks) && Named(r.sources, picks, Present(fields, r.sources))
    requires |picks| > 1
    ensures Fires(fields, r) && Value(fields, r, separator, dump).Str?
    ensures exists starts: seq<nat> ::
      Laid(Value(fields, r, separator, dump).s, TextsOf(Picked(fields, r.sources, picks), dump), separator, starts)
  {
    var names := Present(fields, r.sources);
    PresentAreThere(fields, r.sources);
    assert names[0] in names;
    assert Picked(fields, r.sources, picks) == ValuesOf(fields, names);
    JoinedIsTextJoin(fields, names, separator, dump);
    var starts := TextJoinIsLaid(TextsOf(ValuesOf(fields, names), dump), separator);
  }

  lemma ValueIsWritten(fields: Fields, r: Rule, separator: string, dump: Dump)
    requires Fires(fields, r)
    ensures Writes(fields, r, separator, dump, Value(fields, r, separator, dump))
  {
    if r.Copy? {
      PresentAreThere(fields, r.sources);
      var picks := PresentIsPicked(fields, r.sources);
      if picks == [] {
        assert false;
      } else if |picks| > 1 {
        SeveralAreJoined(fields, r, separator, dump, picks);
      }
    }
  }

  // ---- apply_binding --------------------------------------------------------------------

  /** Deletes the present sources of a fired rule, except its target. */
  method Consume(fields: Fields, present: seq<string>, target: string) returns (left: Fields)
    ensures left == fields - (set s | s in present && s != target)
  {
    left := fields;
    for k := 0 to |present|
      invariant left == fields - (set s | s in present[..k] && s != target)
    {
      assert present[..k + 1] == present[..k] + [present[k]];
      if present[k] != target { left := left - {present[k]}; }
    }
    assert present[..|present|] == present;
  }

  method ApplyRule(w: Work, rule: Rule, separator: string, dump: Dump) returns (after: Work)
    ensures after == RunRule(w, rule, separator, dump)
  {
    if rule.Const? {
      assert Consumed(rule) == {};
      return Work(w.fields[rule.target := rule.value], w.written + {rule.target});
    }
    var present := Present(w.fields, rule.sources);
    PresentAreThere(w.fields, rule.sources);
    if present == [] {
      NothingPresent(w.fields, rule.sources);
      return w;
    }
    assert present[0] in present;
    var value := if |present| == 1 then w.fields[present[0]] else Str(Joined(w.fields, present, separator, dump));
    var fields := Consume(w.fields[rule.target := value], present, rule.target);
    ghost var written := w.fields[rule.target := value];
    assert written - Consumed(rule) == written - (set s | s in present && s != rule.target);
    return Work(fields, w.written + {rule.target});
  }

  method ApplyBinding(payload: Fields, rules: seq<Rule>, separator: string, dump: Dump) returns (result: Fields)
    ensures result == Applied(payload, rules, separator, dump)
    ensures DistinctTargets(rules) ==>
      forall j: nat | j < |rules| && FiresAt(payload, rules, j) && rules[j].target in result ::
        Writes(RunTo(payload, rules, separator, dump, j).fields, rules[j], separator, dump, result[rules[j].target])
  {
    var work := Work(payload, {});
    for i := 0 to |rules|
      invariant work == RunTo(payload, rules, separator, dump, i)
    {
      work := ApplyRule(work, rules[i], separator, dump);
    }
    result := map k | k in work.fields && (k in work.written || k in KNOWN_FLOW_PROMPT_FIELDS) :: work.fields[k];
    if DistinctTargets(rules) { WrittenFields(payload, rules, separator, dump); }
  }

  lemma NothingPresent(fields: Fields, sources: seq<string>)
    requires Present(fields, sources) == []
    ensures forall s | s in sources :: s !in fields
  {
    PresentAreThere(fields, sources);
    assert forall s :: s !in Present(fields, sources);
  }

  // ---- Without a working copy -----------------------------------------------------------

  /** Whether rule `i` fires, told by the rules before it alone. */
  ghost predicate FiresAt(payload: Fields, rules: seq<Rule>, i: nat)
    requires i < |rules|
    decreases i, 1
  {
    rules[i].Const? || exists s :: s in rules[i].sources && ThereAt(payload, rules, i, s)
  }

  /** Whether field `k` is there before rule `i`: some earlier rule wrote it, or the payload had
      it, and no rule that fired since consumed it. */
  ghost predicate ThereAt(payload: Fields, rules: seq<Rule>, i: nat, k: string)
    requires i <= |rules|
    decreases i, 0
  {
    || (exists j: nat | j < i ::
          FiresAt(payload, rules, j) && rules[j].target == k && KeptBetween(payload, rules, j + 1, i, k))
    || (k in payload && KeptBetween(payload, rules, 0, i, k))
  }

  /** No rule from `a` up to `i` fires and consumes `k`. */
  ghost predicate KeptBetween(payload: Fields, rules: seq<Rule>, a: nat, i: nat, k: string)
    requires i <= |rules|
    decreases i, 0, 0
  {
    forall m: nat | a <= m < i :: !(FiresAt(payload, rules, m) && Consumes(rules[m], k))
  }

  /** Some rule below `i` fires and writes `k`. */
  ghost predicate WrittenBy(payload: Fields, rules: seq<Rule>, i: nat, k: string)
    requires i <= |rules|
  {
    exists j: nat | j < i :: FiresAt(payload, rules, j) && rules[j].target == k
  }

  lemma {:induction false} WorkingCopyIsHistory(payload: Fields, rules: seq<Rule>, separator: string, dump: Dump,
                                                i: nat, k: string)
    requires i <= |rules|
    ensures k in RunTo(payload, rules, separator, dump, i).fields <==> ThereAt(payload, rules, i, k)
    ensures k in RunTo(payload, rules, separator, dump, i).written <==> WrittenBy(payload, rules, i, k)
    decreases i, 0
  {
    if i > 0 {
      var m := i - 1;
      var w := RunTo(payload, rules, separator, dump, m);
      FiresIsHistory(payload, rules, separator, dump, m);
      WorkingCopyIsHistory(payload, rules, separator, dump, m, k);
      assert KeptBetween(payload, rules, m, i, k) <==> !(FiresAt(payload, rules, m) && Consumes(rules[m], k));
      assert k in RunTo(payload, rules, separator, dump, i).fields <==>
        if FiresAt(payload, rules, m) then k == rules[m].target || (k in w.fields && !Consumes(rules[m], k))
            else k in w.fields;
      ThereNext(payload, rules, m, k);
    }
  }

  lemma {:induction false} FiresIsHistory(payload: Fields, rules: seq<Rule>, separator: string, dump: Dump, i: nat)
    requires i < |rules|
    ensures Fires(RunTo(payload, rules, separator, dump, i).fields, rules[i]) <==> FiresAt(payload, rules, i)
    decreases i, 1
  {
    if rules[i].Copy? {
      forall s ensures s in RunTo(payload, rules, separator, dump, i).fields <==> ThereAt(payload, rules, i, s) {
        WorkingCopyIsHistory(payload, rules, separator, dump, i, s);
      }
    }
  }

  lemma ThereNext(payload: Fields, rules: seq<Rule>, m: nat, k: string)
    requires m < |rules|
    ensures ThereAt(payload, rules, m + 1, k) <==>
      if FiresAt(payload, rules, m) then k == rules[m].target
          || (ThereAt(payload, rules, m, k) && !Consumes(rules[m], k))
      else ThereAt(payload, rules, m, k)
  {
  }

  // ---- The result -----------------------------------------------------------------------

  /** What the writing rule `j` wrote, taken from the working copy it found. */
  ghost function Written(payload: Fields, rules: seq<Rule>, separator: string, dump: Dump, j: nat): Json
    requires j < |rules| && FiresAt(payload, rules, j)
  {
    FiresIsHistory(payload, rules, separator, dump, j);
    Value(RunTo(payload, rules, separator, dump, j).fields, rules[j], separator, dump)
  }

  /** Field `k` keeps the value of its one writing rule, or of the payload. */
  lemma {:induction false} WorkingValue(payload: Fields, rules: seq<Rule>, separator: string, dump: Dump, i: nat,
                                        k: string)
    requires i <= |rules| && DistinctTargets(rules) && k in RunTo(payload, rules, separator, dump, i).fields
    ensures var v := RunTo(payload, rules, separator, dump, i).fields[k];
      && (forall j: nat | j < i && FiresAt(payload, rules, j) && rules[j].target == k ::
          v == Written(payload, rules, separator, dump, j))
      && (!WrittenBy(payload, rules, i, k) ==> k in payload && v == payload[k])
    decreases i
  {
    if i > 0 {
      var m := i - 1;
      FiresIsHistory(payload, rules, separator, dump, m);
      if FiresAt(payload, rules, m) && rules[m].target == k {
      } else {
        WorkingValue(payload, rules, separator, dump, m, k);
      }
    }
  }

  /** The result, told without a working copy. With distinct targets, field `k` is there exactly
      when a fired rule writes it and no later fired rule consumes it, or no fired rule writes it,
      the payload has it, it is reserved and no fired rule consumes it; its value is what the
      writing rule wrote, or the payload's. */
  lemma AppliedIsHistory(payload: Fields, rules: seq<Rule>, separator: string, dump: Dump, k: string)
    requires DistinctTargets(rules)
    ensures var result := Applied(payload, rules, separator, dump);
      var n := |rules|;
      && (k in result <==>
            || (exists j: nat | j < n ::
                  FiresAt(payload, rules, j) && rules[j].target == k && KeptBetween(payload, rules, j + 1, n, k))
            || (!WrittenBy(payload, rules, n, k) && k in payload
                && k in {"task", "prompt", "question", "message", "input", "systemprompt", "taskprompt"}
                && KeptBetween(payload, rules, 0, n, k)))
      && (k in result ==>
            && (forall j: nat | j < n && FiresAt(payload, rules, j) && rules[j].target == k ::
                  result[k] == Written(payload, rules, separator, dump, j))
            && (!WrittenBy(payload, rules, n, k) ==> k in payload && result[k] == payload[k]))
  {
    var n := |rules|;
    WorkingCopyIsHistory(payload, rules, separator, dump, n, k);
    if k in Applied(payload, rules, separator, dump) {
      WorkingValue(payload, rules, separator, dump, n, k);
    }
    if WrittenBy(payload, rules, n, k) && k in payload && KeptBetween(payload, rules, 0, n, k) {
      var j: nat :| j < n && FiresAt(payload, rules, j) && rules[j].target == k;
      assert KeptBetween(payload, rules, j + 1, n, k);
    }
  }

  /** In the result the field of a fired rule holds what that rule writes of the fields it found. */
  lemma WrittenFields(payload: Fields, rules: seq<Rule>, separator: string, dump: Dump)
    requires DistinctTargets(rules)
    ensures var result := Applied(payload, rules, separator, dump);
      forall j: nat | j < |rules| && FiresAt(payload, rules, j) && rules[j].target in result ::
        Writes(RunTo(payload, rules, separator, dump, j).fields, rules[j], separator, dump, result[rules[j].target])
  {
    var result := Applied(payload, rules, separator, dump);
    forall j: nat | j < |rules| && FiresAt(payload, rules, j) && rules[j].target in result
      ensures
        Writes(RunTo(payload, rules, separator, dump, j).fields, rules[j], separator, dump, result[rules[j].target])
    {
      FiresIsHistory(payload, rules, separator, dump, j);
      AppliedIsHistory(payload, rules, separator, dump, rules[j].target);
      ValueIsWritten(RunTo(payload, rules, separator, dump, j).fields, rules[j], separator, dump);
    }
  }

  // ---- Rules that do not interact -------------------------------------------------------

  /** Neither rule reads what the other reads or writes, and they write different fields. */
  predicate Apart(r: Rule, q: Rule) {
    && r.target != q.target
    && (r.Copy? ==> q.target !in r.sources)
    && (q.Copy? ==> r.target !in q.sources)
    && (r.Copy? && q.Copy? ==> forall s | s in r.sources :: s !in q.sources)
  }

  ghost predicate NonInteracting(rules: seq<Rule>) {
    forall i, j :: 0 <= i < |rules| && 0 <= j < |rules| && i != j ==> Apart(rules[i], rules[j])
  }

  /** Rule `i` finds its sources as the payload had them. */
  lemma {:induction false} SourcesUntouched(payload: Fields, rules: seq<Rule>, separator: string, dump: Dump, i: nat,
                                            m: nat, s: string)
    requires NonInteracting(rules) && i < |rules| && m <= i && rules[i].Copy? && s in rules[i].sources
    ensures var w := RunTo(payload, rules, separator, dump, m).fields;
      (s in w <==> s in payload) && (s in w ==> w[s] == payload[s])
    decreases m
  {
    if m > 0 {
      SourcesUntouched(payload, rules, separator, dump, i, m - 1, s);
      assert Apart(rules[i], rules[m - 1]);
    }
  }

  lemma {:induction false} PresentSame(a: Fields, b: Fields, sources: seq<string>)
    requires forall s | s in sources :: (s in a <==> s in b) && (s in a ==> a[s] == b[s])
    ensures Present(a, sources) == Present(b, sources)
  {
    if sources != [] {
      assert forall s | s in sources[1..] :: s in sources;
      PresentSame(a, b, sources[1..]);
    }
  }

  lemma {:induction false} JoinedSame(a: Fields, b: Fields, names: seq<string>, separator: string, dump: Dump)
    requires forall s | s in names :: s in a && s in b && a[s] == b[s]
    ensures Joined(a, names, separator, dump) == Joined(b, names, separator, dump)
  {
    if |names| > 1 { JoinedSame(a, b, names[1..], separator, dump); }
  }

  lemma SameSourcesSameValue(a: Fields, b: Fields, r: Rule, separator: string, dump: Dump)
    requires r.Copy? ==> forall s | s in r.sources :: (s in a <==> s in b) && (s in a ==> a[s] == b[s])
    ensures Fires(a, r) == Fires(b, r)
    ensures Fires(a, r) ==> Value(a, r, separator, dump) == Value(b, r, separator, dump)
  {
    if r.Copy? {
      PresentSame(a, b, r.sources);
      PresentAreThere(a, r.sources);
      PresentAreThere(b, r.sources);
      JoinedSame(a, b, Present(a, r.sources), separator, dump);
    }
  }

  /** Field `k` of the result of rules that do not interact: each rule judged on the payload itself. */
  ghost predicate DirectAt(payload: Fields, rules: seq<Rule>, separator: string, dump: Dump, result: Fields,
                           k: string) {
    && (k in result <==>
          || (exists r :: r in rules && Fires(payload, r) && r.target == k)
          || (k in payload && k in KNOWN_FLOW_PROMPT_FIELDS && forall r | r in rules && Fires(payload, r) ::
              !Consumes(r, k)))
    && (k in result ==>
          && (forall r | r in rules && Fires(payload, r) && r.target == k ::
              result[k] == Value(payload, r, separator, dump))
          && ((forall r | r in rules && Fires(payload, r) :: r.target != k) ==>
              k in payload && result[k] == payload[k]))
  }

  ghost predicate DirectResult(payload: Fields, rules: seq<Rule>, separator: string, dump: Dump, result: Fields) {
    forall k :: DirectAt(payload, rules, separator, dump, result, k)
  }

  lemma JudgedOnPayload(payload: Fields, rules: seq<Rule>, separator: string, dump: Dump, i: nat)
    requires NonInteracting(rules) && i < |rules|
    ensures FiresAt(payload, rules, i) <==> Fires(payload, rules[i])
    ensures FiresAt(payload, rules, i) ==>
        Written(payload, rules, separator, dump, i) == Value(payload, rules[i], separator, dump)
  {
    var w := RunTo(payload, rules, separator, dump, i).fields;
    FiresIsHistory(payload, rules, separator, dump, i);
    if rules[i].Copy? {
      forall s | s in rules[i].sources ensures (s in w <==> s in payload) && (s in w ==> w[s] == payload[s]) {
        SourcesUntouched(payload, rules, separator, dump, i, i, s);
      }
    }
    SameSourcesSameValue(w, payload, rules[i], separator, dump);
  }

  lemma NonInteractingIsDirect(payload: Fields, rules: seq<Rule>, separator: string, dump: Dump)
    requires NonInteracting(rules)
    ensures DirectResult(payload, rules, separator, dump, Applied(payload, rules, separator, dump))
  {
    var result := Applied(payload, rules, separator, dump);
    var n := |rules|;
    forall i: nat | i < n
      ensures FiresAt(payload, rules, i) <==> Fires(payload, rules[i])
      ensures FiresAt(payload, rules, i) ==>
          Written(payload, rules, separator, dump, i) == Value(payload, rules[i], separator, dump)
    {
      JudgedOnPayload(payload, rules, separator, dump, i);
    }
    forall i, j | 0 <= i < j < n ensures rules[i].target != rules[j].target {
      assert Apart(rules[i], rules[j]);
    }
    forall k ensures DirectAt(payload, rules, separator, dump, result, k)
    {
      AppliedIsHistory(payload, rules, separator, dump, k);
      DirectField(payload, rules, k);
    }
  }

  /** Of rules that do not interact, a fired one writes of the payload itself. */
  lemma WrittenOfPayload(payload: Fields, rules: seq<Rule>, separator: string, dump: Dump, r: Rule)
    requires NonInteracting(rules) && r in rules && Fires(payload, r)
    ensures var result := Applied(payload, rules, separator, dump);
      r.target in result && Writes(payload, r, separator, dump, result[r.target])
  {
    NonInteractingIsDirect(payload, rules, separator, dump);
    assert DirectAt(payload, rules, separator, dump, Applied(payload, rules, separator, dump), r.target);
    ValueIsWritten(payload, r, separator, dump);
  }

  lemma DirectField(payload: Fields, rules: seq<Rule>, k: string)
    requires NonInteracting(rules)
    requires forall i: nat | i < |rules| :: FiresAt(payload, rules, i) <==> Fires(payload, rules[i])
    ensures (exists j: nat | j < |rules| ::
               FiresAt(payload, rules, j) && rules[j].target == k && KeptBetween(payload, rules, j + 1, |rules|, k))
      <==> (exists r :: r in rules && Fires(payload, r) && r.target == k)
    ensures WrittenBy(payload, rules, |rules|, k) <==> exists r :: r in rules && Fires(payload, r) && r.target == k
    ensures KeptBetween(payload, rules, 0, |rules|, k) <==>
        forall r | r in rules && Fires(payload, r) :: !Consumes(r, k)
  {
    forall j: nat | j < |rules| && rules[j].target == k ensures KeptBetween(payload, rules, j + 1, |rules|, k) {
      forall m: nat | j + 1 <= m < |rules| ensures !Consumes(rules[m], k) {
        assert Apart(rules[j], rules[m]);
      }
    }
  }

  lemma DirectFieldOnce(payload: Fields, rules: seq<Rule>, others: seq<Rule>, separator: string, dump: Dump,
                        a: Fields, b: Fields, k: string)
    requires DirectAt(payload, rules, separator, dump, a, k) && DirectAt(payload, others, separator, dump, b, k)
    requires forall r :: r in rules <==> r in others
    ensures k in a <==> k in b
    ensures k in a && k in b ==> a[k] == b[k]
  {
    if r :| r in rules && Fires(payload, r) && r.target == k {
      assert r in others;
    } else {
      assert forall r | r in others && Fires(payload, r) :: r in rules && r.target != k;
    }
  }

  /** Two results of the same rules on the same payload, in whatever order, are the same. */
  lemma DirectResultOnce(payload: Fields, rules: seq<Rule>, others: seq<Rule>, separator: string, dump: Dump,
                         a: Fields, b: Fields)
    requires DirectResult(payload, rules, separator, dump, a) && DirectResult(payload, others, separator, dump, b)
    requires forall r :: r in rules <==> r in others
    ensures a == b
  {
    forall k: string
      ensures k in a <==> k in b
      ensures k in a && k in b ==> a[k] == b[k]
    {
      DirectFieldOnce(payload, rules, others, separator, dump, a, b, k);
    }
  }

  lemma PermutedStayApart(rules: seq<Rule>, others: seq<Rule>)
    requires NonInteracting(rules) && multiset(rules) == multiset(others)
    ensures NonInteracting(others)
  {
    forall i, j | 0 <= i < |others| && 0 <= j < |others| && i != j ensures Apart(others[i], others[j]) {
      assert others[i] in multiset(rules) && others[j] in multiset(rules);
      var a :| 0 <= a < |rules| && rules[a] == others[i];
      var b :| 0 <= b < |rules| && rules[b] == others[j];
      if a == b {
        TwiceInMultiset(others, i, j);
        OnceInMultiset(rules, a);
      } else {
        assert Apart(rules[a], rules[b]);
      }
    }
  }

  lemma TwiceInMultiset(rules: seq<Rule>, i: nat, j: nat)
    requires i < |rules| && j < |rules| && i != j && rules[i] == rules[j]
    ensures multiset(rules)[rules[i]] >= 2
  {
    var a, b := if i < j then i else j, if i < j then j else i;
    assert rules == rules[..b] + rules[b..];
    assert rules[..b][a] in multiset(rules[..b]) && rules[b..][0] in multiset(rules[b..]);
  }

  lemma OnceInMultiset(rules: seq<Rule>, a: nat)
    requires NonInteracting(rules) && a < |rules|
    ensures multiset(rules)[rules[a]] == 1
  {
    var before, after := rules[..a], rules[a + 1..];
    assert rules == before + [rules[a]] + after;
    forall i | 0 <= i < |rules| && i != a ensures rules[i] != rules[a] {
      assert Apart(rules[i], rules[a]);
    }
    assert rules[a] !in before && rules[a] !in after;
  }

  /** Every order of rules that do not interact rewrites every payload the same way. */
  lemma OrderIsIrrelevant(payload: Fields, rules: seq<Rule>, others: seq<Rule>, separator: string, dump: Dump)
    requires NonInteracting(rules) && multiset(rules) == multiset(others)
    ensures Applied(payload, rules, separator, dump) == Applied(payload, others, separator, dump)
  {
    PermutedStayApart(rules, others);
    NonInteractingIsDirect(payload, rules, separator, dump);
    NonInteractingIsDirect(payload, others, separator, dump);
    forall r ensures r in rules <==> r in others {
      assert r in rules <==> r in multiset(rules);
      assert r in others <==> r in multiset(others);
    }
    DirectResultOnce(payload, rules, others, separator, dump,
                     Applied(payload, rules, separator, dump), Applied(payload, others, separator, dump));
  }
}
