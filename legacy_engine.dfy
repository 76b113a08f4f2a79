/** The legacy (compiled JavaScript) workflow engine. Steps carry a
    structured `input` (literal `direct` entries and `context` bindings with
    a path, a `required` flag and a default) and an `output` with a target
    key and a transform. Its rules compare with JavaScript's loose
    comparison, a rule whose target is missing is skipped, and its run has
    no step ceiling: a cycle runs forever, which the model expresses with a
    fuel bound. */
module LegacyWorkflow {
  import opened Wrappers
  import opened JsonModel
  import opened Text
  import opened Types
  import opened LegacyResolver
  import ChoiceEvaluator

  /** One entry of a step's `input.context`. */
  datatype ContextBinding = ContextBinding(path: string, required: bool, default: Option<Json>)

  /** A step's `input`: the `direct` literals and the `context` bindings in
      entry order, each absent or present. */
  datatype StepInput = StepInput(direct: Option<Object>, context: Option<seq<(string, ContextBinding)>>)

  /** A step's `output`; "" stands for an absent transform. */
  datatype StepOutput = StepOutput(target: string, transform: string)

  datatype LegacyStep = LegacyStep(
    id: string,
    kind: StepKind,
    plugin: string,
    tool: string,
    input: Option<StepInput>,
    output: Option<StepOutput>,
    choices: seq<ChoiceRule>,
    next: string,
    end: bool)

  datatype LegacyDefinition = LegacyDefinition(startAt: string, steps: seq<LegacyStep>)

  // ---------------------------------------------------------------------
  // prepareInput

  /** `result[key] = value`, where writing undefined leaves no entry. */
  function Store(result: Object, key: string, value: Option<Json>): (r: Object)
    ensures key in r <==> value.Some?
    ensures value.Some? ==> r[key] == value.value
    ensures forall k :: k != key ==> (k in r <==> k in result) && (k in r ==> r[k] == result[k])
  {
    match value
    case Some(v) => result[key := v]
    case None => result - {key}
  }

  /** The default resolved as a path: a string is resolved, an absent or
      falsy default gives undefined, and any other value has no `startsWith`
      to call, a TypeError. */
  function DefaultValue(default: Option<Json>, ctx: Object): (r: Result<Option<Json>, Error>)
    ensures (default.None? || default == Some(JNull) || default == Some(JBool(false)) || default == Some(JNum(0))) ==> r == Success(None)
    ensures default.Some? && default.value.JStr? ==> r == Success(Resolve(default.value.s, ctx))
    ensures r.Failure? <==> default.Some? && !default.value.JStr? && default.value !in {JNull, JBool(false), JNum(0)}
    ensures r.Failure? ==> r.error == TypeError
  {
    match default
    case None => Success(None)
    case Some(JStr(s)) => Success(Resolve(s, ctx))
    case Some(v) => if v == JNull || v == JBool(false) || v == JNum(0) then Success(None) else Failure(TypeError)
  }

  /** The value one context binding contributes: its path's value, the
      error when it is required and undefined, or else its default. */
  function BindingValue(key: string, binding: ContextBinding, ctx: Object): (r: Result<Option<Json>, Error>)
    ensures Resolve(binding.path, ctx).Some? ==> r == Success(Resolve(binding.path, ctx))
    ensures Resolve(binding.path, ctx).None? && binding.required ==> r == Failure(RequiredInputNotFound(key))
    ensures Resolve(binding.path, ctx).None? && !binding.required ==> r == DefaultValue(binding.default, ctx)
  {
    var value := Resolve(binding.path, ctx);
    if binding.required && value.None? then Failure(RequiredInputNotFound(key))
    else if value.Some? then Success(value)
    else DefaultValue(binding.default, ctx)
  }

  /** The bindings written in order onto `result`, stopping at the first error. */
  function ContextInputs(result: Object, bindings: seq<(string, ContextBinding)>, ctx: Object): (r: Result<Object, Error>)
    ensures r.Failure? ==> r.error.RequiredInputNotFound? || r.error == TypeError
    decreases |bindings|
  {
    if |bindings| == 0 then Success(result)
    else
      match BindingValue(bindings[0].0, bindings[0].1, ctx)
      case Failure(e) => Failure(e)
      case Success(value) => ContextInputs(Store(result, bindings[0].0, value), bindings[1..], ctx)
  }

  /** prepareInput as a value: no input gives the empty object; otherwise the
      `direct` entries, then the `context` bindings over them. */
  function InputFor(input: Option<StepInput>, ctx: Object): (r: Result<Object, Error>)
    ensures input.None? ==> r == Success(map[])
    ensures input.Some? && input.value.context.None? ==>
      r == Success(if input.value.direct.Some? then input.value.direct.value else map[])
    ensures r.Failure? ==> r.error.RequiredInputNotFound? || r.error == TypeError
  {
    match input
    case None => Success(map[])
    case Some(spec) =>
      var base := if spec.direct.Some? then spec.direct.value else map[];
      if spec.context.Some? then ContextInputs(base, spec.context.value, ctx) else Success(base)
  }

  /** The writes fail exactly when some binding fails, and then with the
      error of the first binding that fails. */
  lemma {:induction false} ContextInputsFailsAtFirst(result: Object, bindings: seq<(string, ContextBinding)>, ctx: Object)
    ensures ContextInputs(result, bindings, ctx).Failure? <==>
      exists i :: 0 <= i < |bindings| && BindingValue(bindings[i].0, bindings[i].1, ctx).Failure?
    ensures ContextInputs(result, bindings, ctx).Failure? ==>
      exists i :: (0 <= i < |bindings| && BindingValue(bindings[i].0, bindings[i].1, ctx).Failure?
        && ContextInputs(result, bindings, ctx).error == BindingValue(bindings[i].0, bindings[i].1, ctx).error
        && forall j :: 0 <= j < i ==> BindingValue(bindings[j].0, bindings[j].1, ctx).Success?)
    decreases |bindings|
  {
    if |bindings| > 0 {
      var first := BindingValue(bindings[0].0, bindings[0].1, ctx);
      if first.Success? {
        var rest := bindings[1..];
        ContextInputsFailsAtFirst(Store(result, bindings[0].0, first.value), rest, ctx);
        forall i | 1 <= i < |bindings| ensures bindings[i] == rest[i - 1] { }
        if ContextInputs(result, bindings, ctx).Failure? {
          var i :| 0 <= i < |rest| && BindingValue(rest[i].0, rest[i].1, ctx).Failure?
            && ContextInputs(result, bindings, ctx).error == BindingValue(rest[i].0, rest[i].1, ctx).error
            && forall j :: 0 <= j < i ==> BindingValue(rest[j].0, rest[j].1, ctx).Success?;
          assert bindings[i + 1] == rest[i];
          forall j | 0 <= j < i + 1 ensures BindingValue(bindings[j].0, bindings[j].1, ctx).Success? {
            if j > 0 { assert bindings[j] == rest[j - 1]; }
          }
        }
      }
    }
  }

  /** A key no binding names keeps its earlier entry, or stays absent. */
  lemma {:induction false} ContextInputsKeepsOthers(result: Object, bindings: seq<(string, ContextBinding)>, ctx: Object, key: string)
    requires ContextInputs(result, bindings, ctx).Success?
    requires forall i :: 0 <= i < |bindings| ==> bindings[i].0 != key
    ensures var r := ContextInputs(result, bindings, ctx).value;
      (key in r <==> key in result) && (key in result ==> r[key] == result[key])
    decreases |bindings|
  {
    if |bindings| > 0 {
      var first := BindingValue(bindings[0].0, bindings[0].1, ctx);
      var rest := bindings[1..];
      forall i | 0 <= i < |rest| ensures rest[i].0 != key { assert rest[i] == bindings[i + 1]; }
      ContextInputsKeepsOthers(Store(result, bindings[0].0, first.value), rest, ctx, key);
    }
  }

  /** The last binding of a key decides its entry: its value, or no entry
      when that value is undefined. */
  lemma {:induction false} ContextInputsLastWins(result: Object, bindings: seq<(string, ContextBinding)>, ctx: Object, j: nat)
    requires ContextInputs(result, bindings, ctx).Success? && j < |bindings|
    requires forall i :: j < i < |bindings| ==> bindings[i].0 != bindings[j].0
    ensures BindingValue(bindings[j].0, bindings[j].1, ctx).Success?
    ensures var r := ContextInputs(result, bindings, ctx).value;
      var value := BindingValue(bindings[j].0, bindings[j].1, ctx).value;
      (bindings[j].0 in r <==> value.Some?) && (value.Some? ==> r[bindings[j].0] == value.value)
    decreases |bindings|
  {
    var first := BindingValue(bindings[0].0, bindings[0].1, ctx);
    var rest := bindings[1..];
    if j == 0 {
      forall i | 0 <= i < |rest| ensures rest[i].0 != bindings[0].0 { assert rest[i] == bindings[i + 1]; }
      ContextInputsKeepsOthers(Store(result, bindings[0].0, first.value), rest, ctx, bindings[0].0);
    } else {
      assert rest[j - 1] == bindings[j];
      forall i | j - 1 < i < |rest| ensures rest[i].0 != rest[j - 1].0 { assert rest[i] == bindings[i + 1]; }
      ContextInputsLastWins(Store(result, bindings[0].0, first.value), rest, ctx, j - 1);
    }
  }

  /** A default that is not a `$.` path is dropped: a literal default gives
      no entry at all. */
  lemma LiteralDefaultIsDropped(key: string, binding: ContextBinding, ctx: Object)
    requires !binding.required && Resolve(binding.path, ctx).None?
    requires binding.default.Some? && binding.default.value.JStr? && !StartsWith(binding.default.value.s, ReferencePrefix)
    ensures BindingValue(key, binding, ctx) == Success(None)
  {
  }

  /** prepareInput's loop over the bindings. */
  method PrepareInput(input: Option<StepInput>, ctx: Context) returns (r: Result<Object, Error>)
    ensures r == InputFor(input, ctx.entries)
  {
    if input.None? {
      return Success(map[]);
    }
    var result: Object := map[];
    if input.value.direct.Some? {
      result := input.value.direct.value;
    }
    if input.value.context.Some? {
      var bindings := input.value.context.value;
      for i := 0 to |bindings|
        invariant ContextInputs(result, bindings[i..], ctx.entries) == InputFor(input, ctx.entries)
      {
        var (key, binding) := bindings[i];
        var value := ResolveContextPath(binding.path, ctx.entries);
        assert bindings[i..][1..] == bindings[i + 1..];
        if binding.required && value.None? {
          return Failure(RequiredInputNotFound(key));
        }
        if value.None? {
          var fallback := DefaultValue(binding.default, ctx.entries);
          if fallback.Failure? {
            return Failure(fallback.error);
          }
          value := fallback.value;
        }
        result := Store(result, key, value);
      }
      assert bindings[|bindings|..] == [];
    }
    return Success(result);
  }

  // ---------------------------------------------------------------------
  // Choice rules

  /** JavaScript's conversion of a rule value to a number for `<`, `>`, `<=`
      and `>=`; None is NaN. Null and false are 0, true is 1, and a string
      is the value of its trimmed decimal numeral, 0 when blank. */
  function LooseNumber(b: Option<Json>): (r: Option<int>)
    ensures b == None ==> r == None
    ensures forall n :: b == Some(JNum(n)) ==> r == Some(n)
    ensures b == Some(JNull) || b == Some(JBool(false)) ==> r == Some(0)
  {
    match b
    case None => None
    case Some(JNull) => Some(0)
    case Some(JBool(v)) => Some(if v then 1 else 0)
    case Some(JNum(n)) => Some(n)
    case Some(JStr(s)) => StringNumber(s)
    case Some(_) => None
  }

  function StringNumber(s: string): Option<int> {
    var t := Trim(s);
    if t == "" then Some(0)
    else if AllDigits(t) then Some(DecimalValue(t))
    else if t[0] == '-' && |t| > 1 && AllDigits(t[1..]) then Some(-(DecimalValue(t[1..]) as int))
    else None
  }

  /** compareValues on a number and a rule value: `===` and `!==` compare
      without conversion, the relational operators convert the value and are
      false against NaN, and any other operator is false. */
  function LooseCompare(a: int, b: Option<Json>, op: string): (r: bool)
    ensures op !in ChoiceEvaluator.Operators ==> !r
    ensures op == "eq" ==> (r <==> b == Some(JNum(a)))
    ensures op == "neq" ==> (r <==> b != Some(JNum(a)))
    ensures op in {"gt", "gte", "lt", "lte"} ==>
      (r <==> LooseNumber(b).Some? && ChoiceEvaluator.CompareValues(a, LooseNumber(b).value, op))
  {
    match op
    case "eq" => b == Some(JNum(a))
    case "neq" => b != Some(JNum(a))
    case "gt" => LooseNumber(b).Some? && a > LooseNumber(b).value
    case "gte" => LooseNumber(b).Some? && a >= LooseNumber(b).value
    case "lt" => LooseNumber(b).Some? && a < LooseNumber(b).value
    case "lte" => LooseNumber(b).Some? && a <= LooseNumber(b).value
    case _ => false
  }

  /** Against a number the loose comparison is the plain one. */
  lemma LooseCompareOnNumbers(a: int, m: int, op: string)
    ensures LooseCompare(a, Some(JNum(m)), op) == ChoiceEvaluator.CompareValues(a, m, op)
  {
  }

  /** A numeral string is compared by its value: `5 > "3"` holds. */
  lemma NumeralStringCompares(a: int, digits: string, op: string)
    requires AllDigits(digits) && digits != "" && op in {"gt", "gte", "lt", "lte"}
    ensures LooseCompare(a, Some(JStr(digits)), op) == ChoiceEvaluator.CompareValues(a, DecimalValue(digits), op)
  {
    TrimPadded(digits);
  }

  /** A missing rule value makes `neq` hold and every other operator fail. */
  lemma MissingValueCompares(a: int, op: string)
    ensures LooseCompare(a, None, op) <==> op == "neq"
  {
  }

  /** evaluateChoiceCondition; None stands for an undefined field. */
  function Condition(rule: ChoiceRule, fieldValue: Option<Json>): (r: bool)
    ensures rule.ruleType == ChoiceEvaluator.ValueExists ==> (r <==> fieldValue.Some? && fieldValue.value != JNull)
    ensures rule.ruleType == ChoiceEvaluator.StringLength ==>
      (r <==> fieldValue.Some? && fieldValue.value.JStr? && LooseCompare(|fieldValue.value.s|, rule.value, rule.operator))
    ensures rule.ruleType == ChoiceEvaluator.NumberCompare ==>
      (r <==> fieldValue.Some? && fieldValue.value.JNum? && LooseCompare(fieldValue.value.n, rule.value, rule.operator))
    ensures rule.ruleType == ChoiceEvaluator.StringContains ==>
      (r <==>
        && fieldValue.Some? && fieldValue.value.JStr? && rule.value.Some? && rule.value.value.JStr?
        && exists i :: 0 <= i <= |fieldValue.value.s| && StartsWith(fieldValue.value.s[i..], rule.value.value.s))
    ensures rule.ruleType == ChoiceEvaluator.StringEquals ==>
      (r <==> fieldValue.Some? && fieldValue.value.JStr? && rule.value == fieldValue)
    ensures (rule.ruleType !in {ChoiceEvaluator.StringLength, ChoiceEvaluator.NumberCompare,
      ChoiceEvaluator.StringContains, ChoiceEvaluator.StringEquals, ChoiceEvaluator.ValueExists}) ==> !r
  {
    match rule.ruleType
    case "string-length" =>
      fieldValue.Some? && fieldValue.value.JStr? && LooseCompare(|fieldValue.value.s|, rule.value, rule.operator)
    case "number-compare" =>
      fieldValue.Some? && fieldValue.value.JNum? && LooseCompare(fieldValue.value.n, rule.value, rule.operator)
    case "string-contains" =>
      fieldValue.Some? && fieldValue.value.JStr? && rule.value.Some? && rule.value.value.JStr?
      && (IncludesIsSubstring(fieldValue.value.s, rule.value.value.s); Includes(fieldValue.value.s, rule.value.value.s))
    case "string-equals" =>
      fieldValue.Some? && fieldValue.value.JStr? && rule.value.Some? && rule.value.value.JStr?
      && fieldValue.value.s == rule.value.value.s
    case "value-exists" => fieldValue.Some? && fieldValue.value != JNull
    case _ => false
  }

  /** On a defined field, and with a number as the value of a numeric rule,
      the legacy condition is the TypeScript engine's. */
  lemma ConditionAgrees(rule: ChoiceRule, v: Json)
    requires ChoiceEvaluator.NeedsOperator(rule.ruleType) ==> rule.value.Some? && rule.value.value.JNum?
    ensures Condition(rule, Some(v)) == ChoiceEvaluator.EvaluateCondition(rule, v)
  {
    if ChoiceEvaluator.NeedsOperator(rule.ruleType) {
      var m := rule.value.value.n;
      if v.JStr? { LooseCompareOnNumbers(|v.s|, m, rule.operator); }
      if v.JNum? { LooseCompareOnNumbers(v.n, m, rule.operator); }
    }
  }

  /** Without operator validation, a number-compare rule with `neq` and no
      value holds for every number, which the TypeScript engine rejects. */
  lemma NeqWithoutValueHolds(rule: ChoiceRule, n: int)
    requires rule.ruleType == ChoiceEvaluator.NumberCompare && rule.operator == "neq" && rule.value.None?
    ensures Condition(rule, Some(JNum(n)))
    ensures !ChoiceEvaluator.EvaluateCondition(rule, JNum(n))
  {
  }

  /** findStepById over the definition's steps: the first with the id. */
  function FindStep(steps: seq<LegacyStep>, id: string): (r: Option<LegacyStep>)
    ensures r.Some? ==> r.value in steps && r.value.id == id
    ensures r.None? <==> forall i :: 0 <= i < |steps| ==> steps[i].id != id
  {
    if |steps| == 0 then None
    else if steps[0].id == id then Some(steps[0])
    else FindStep(steps[1..], id)
  }

  /** With repeated ids, `steps.find` returns the earliest step that has
      the id. */
  lemma {:induction false} FindStepFirst(steps: seq<LegacyStep>, id: string, i: nat)
    requires i < |steps| && steps[i].id == id
    requires forall j :: 0 <= j < i ==> steps[j].id != id
    ensures FindStep(steps, id) == Some(steps[i])
  {
    if i > 0 {
      FindStepFirst(steps[1..], id, i - 1);
    }
  }

  /** A rule evaluateChoice accepts: its field satisfies it and its target
      exists. A rule whose target is missing raises inside the scan's
      try block and is skipped. */
  predicate Qualifies(steps: seq<LegacyStep>, rule: ChoiceRule, ctx: Object) {
    Condition(rule, Resolve(rule.field, ctx)) && FindStep(steps, rule.next).Some?
  }

  /** The target of the first rule that qualifies. */
  function Route(steps: seq<LegacyStep>, rules: seq<ChoiceRule>, ctx: Object): (r: Option<LegacyStep>)
    ensures r.Some? ==> r.value in steps
  {
    if |rules| == 0 then None
    else if Qualifies(steps, rules[0], ctx) then FindStep(steps, rules[0].next)
    else Route(steps, rules[1..], ctx)
  }

  /** No successor exactly when no rule qualifies. */
  lemma {:induction false} RouteNoneIff(steps: seq<LegacyStep>, rules: seq<ChoiceRule>, ctx: Object)
    ensures Route(steps, rules, ctx).None? <==> forall i :: 0 <= i < |rules| ==> !Qualifies(steps, rules[i], ctx)
    decreases |rules|
  {
    if |rules| > 0 {
      RouteNoneIff(steps, rules[1..], ctx);
      if !Qualifies(steps, rules[0], ctx) {
        assert forall i :: 1 <= i < |rules| ==> rules[i] == rules[1..][i - 1];
      }
    }
  }

  /** The first qualifying rule decides the successor. */
  lemma {:induction false} RouteTakesFirstQualifying(steps: seq<LegacyStep>, rules: seq<ChoiceRule>, ctx: Object, i: nat)
    requires i < |rules| && Qualifies(steps, rules[i], ctx)
    requires forall j :: 0 <= j < i ==> !Qualifies(steps, rules[j], ctx)
    ensures Route(steps, rules, ctx) == FindStep(steps, rules[i].next)
    ensures Route(steps, rules, ctx).Some?
    decreases i
  {
    if i > 0 {
      assert forall j :: 0 <= j < i - 1 ==> rules[1..][j] == rules[j + 1];
      RouteTakesFirstQualifying(steps, rules[1..], ctx, i - 1);
    }
  }

  /** getNextStep: a choice step routes by its rules; any other follows `next`. */
  function NextStep(steps: seq<LegacyStep>, current: LegacyStep, ctx: Object): (r: Option<LegacyStep>)
    ensures current.kind != Choice ==> r == (if current.next == "" then None else FindStep(steps, current.next))
    ensures current.kind == Choice ==> r == Route(steps, current.choices, ctx)
    ensures r.Some? ==> r.value in steps
  {
    if current.kind == Choice then Route(steps, current.choices, ctx)
    else if current.next != "" then FindStep(steps, current.next)
    else None
  }

  // ---------------------------------------------------------------------
  // executeStep

  /** Only a task naming both a plugin and a tool does anything. */
  predicate CallsTool(step: LegacyStep) {
    step.kind == Task && step.plugin != "" && step.tool != ""
  }

  /** The processed output written to the output's target; an undefined
      output leaves no entry under it. */
  function OutputEffect(output: StepOutput, response: Json, entries: Object): Result<Object, Error> {
    match ProcessOutput(response, output.transform)
    case Failure(e) => Failure(e)
    case Success(value) => Success(Store(entries, output.target, value))
  }

  /** executeStep as a value. */
  function StepEffect(gateway: Gateway, step: LegacyStep, entries: Object): (r: Result<Object, Error>)
    ensures !CallsTool(step) ==> r == Success(entries)
    ensures r.Success? && step.output.None? ==> r.value == entries
    ensures r.Failure? ==> r.error.RequiredInputNotFound? || r.error == TypeError || r.error.ToolCallFailed?
  {
    if !CallsTool(step) then Success(entries)
    else
      match InputFor(step.input, entries)
      case Failure(e) => Failure(e)
      case Success(input) =>
        match gateway(step.plugin, step.tool, input)
        case Failure(message) => Failure(ToolCallFailed(message))
        case Success(response) =>
          if step.output.None? then Success(entries) else OutputEffect(step.output.value, response, entries)
  }

  /** A step writes at most its output target. */
  lemma StepWritesOnlyTarget(gateway: Gateway, step: LegacyStep, entries: Object, key: string)
    requires StepEffect(gateway, step, entries).Success?
    requires step.output.None? || key != step.output.value.target
    ensures var after := StepEffect(gateway, step, entries).value;
      (key in after <==> key in entries) && (key in entries ==> after[key] == entries[key])
  {
  }

  /** A tool step without a transform stores the tool's raw response. */
  lemma StepStoresResponse(gateway: Gateway, step: LegacyStep, entries: Object)
    requires CallsTool(step) && step.output.Some? && step.output.value.transform == ""
    requires InputFor(step.input, entries).Success?
    requires gateway(step.plugin, step.tool, InputFor(step.input, entries).value).Success?
    ensures var response := gateway(step.plugin, step.tool, InputFor(step.input, entries).value).value;
      StepEffect(gateway, step, entries) == Success(entries[step.output.value.target := response])
  {
  }

  /** A transform that meets null or undefined before its end fails the step. */
  lemma StepTransformFails(gateway: Gateway, step: LegacyStep, entries: Object)
    requires CallsTool(step) && step.output.Some? && step.output.value.transform != ""
    requires InputFor(step.input, entries).Success?
    requires var response := gateway(step.plugin, step.tool, InputFor(step.input, entries).value);
      response.Success? && TransformWalk(Some(response.value), SplitOn(step.output.value.transform, {'.'})).Failure?
    ensures StepEffect(gateway, step, entries) == Failure(TypeError)
  {
    var response := gateway(step.plugin, step.tool, InputFor(step.input, entries).value).value;
    TransformIsStrictWalk(Some(response), SplitOn(step.output.value.transform, {'.'}));
  }

  // ---------------------------------------------------------------------
  // executeWorkflow

  /** How a run stands: finished at an end step, stopped by an error, or
      still running when the fuel is spent. */
  datatype RunState = Completed | Failed(error: Error) | Running

  datatype Run = Run(state: RunState, entries: Object, trace: seq<string>) {
    /** The same run, reached after the steps `ids` had started. */
    function AfterSteps(ids: seq<string>): Run {
      Run(state, entries, ids + trace)
    }
  }

  /** At most `fuel` more iterations of the loop from `current`; `trace`
      lists the ids of the steps started. */
  function RunFrom(def: LegacyDefinition, gateway: Gateway, current: LegacyStep, entries: Object, fuel: nat): Run
    decreases fuel
  {
    if fuel == 0 then Run(Running, entries, [])
    else
      match StepEffect(gateway, current, entries)
      case Failure(e) => Run(Failed(e), entries, [current.id])
      case Success(after) =>
        if current.end then Run(Completed, after, [current.id])
        else
          match NextStep(def.steps, current, after)
          case None => Run(Failed(NextStepNotFound(current.id)), after, [current.id])
          case Some(next) => RunFrom(def, gateway, next, after, fuel - 1).AfterSteps([current.id])
  }

  /** executeWorkflow with at most `fuel` iterations. */
  function RunWorkflow(def: LegacyDefinition, gateway: Gateway, entries: Object, fuel: nat): Run {
    match FindStep(def.steps, def.startAt)
    case None => Run(Failed(StartStepNotFound(def.startAt)), entries, [])
    case Some(start) => RunFrom(def, gateway, start, entries, fuel)
  }

  /** No step of a run raises the start-step error. */
  lemma {:induction false} RunFromNeverStartError(def: LegacyDefinition, gateway: Gateway, current: LegacyStep, entries: Object, fuel: nat)
    ensures !(RunFrom(def, gateway, current, entries, fuel).state.Failed?
      && RunFrom(def, gateway, current, entries, fuel).state.error.StartStepNotFound?)
    decreases fuel
  {
    if fuel > 0 {
      var effect := StepEffect(gateway, current, entries);
      if effect.Success? && !current.end {
        var next := NextStep(def.steps, current, effect.value);
        if next.Some? {
          RunFromNeverStartError(def, gateway, next.value, effect.value, fuel - 1);
        }
      }
    }
  }

  /** An unknown `startAt` fails the run before any step starts, and it is
      the only way a run can start no step or end with that error. */
  lemma LegacyStartNotFound(def: LegacyDefinition, gateway: Gateway, entries: Object, fuel: nat)
    ensures FindStep(def.steps, def.startAt).None? ==>
      RunWorkflow(def, gateway, entries, fuel) == Run(Failed(StartStepNotFound(def.startAt)), entries, [])
    ensures fuel > 0 ==>
      (RunWorkflow(def, gateway, entries, fuel).trace == [] <==> FindStep(def.steps, def.startAt).None?)
    ensures (RunWorkflow(def, gateway, entries, fuel).state.Failed?
      && RunWorkflow(def, gateway, entries, fuel).state.error.StartStepNotFound?)
      <==> FindStep(def.steps, def.startAt).None?
  {
    var start := FindStep(def.steps, def.startAt);
    if start.Some? {
      RunFromNeverStartError(def, gateway, start.value, entries, fuel);
    }
  }

  /** A run that has finished within some fuel finishes the same way with more. */
  lemma {:induction false} FuelMonotone(def: LegacyDefinition, gateway: Gateway, current: LegacyStep, entries: Object, fuel: nat, more: nat)
    requires fuel <= more
    requires RunFrom(def, gateway, current, entries, fuel).state != Running
    ensures RunFrom(def, gateway, current, entries, more) == RunFrom(def, gateway, current, entries, fuel)
    decreases fuel
  {
    var effect := StepEffect(gateway, current, entries);
    if effect.Success? && !current.end {
      var next := NextStep(def.steps, current, effect.value);
      if next.Some? {
        FuelMonotone(def, gateway, next.value, effect.value, fuel - 1, more - 1);
      }
    }
  }

  /** A run is still running exactly when it started one step per unit of fuel. */
  lemma {:induction false} RunningSpendsFuel(def: LegacyDefinition, gateway: Gateway, current: LegacyStep, entries: Object, fuel: nat)
    ensures |RunFrom(def, gateway, current, entries, fuel).trace| <= fuel
    ensures RunFrom(def, gateway, current, entries, fuel).state == Running ==>
      |RunFrom(def, gateway, current, entries, fuel).trace| == fuel
    decreases fuel
  {
    if fuel > 0 {
      var effect := StepEffect(gateway, current, entries);
      if effect.Success? && !current.end {
        var next := NextStep(def.steps, current, effect.value);
        if next.Some? {
          RunningSpendsFuel(def, gateway, next.value, effect.value, fuel - 1);
        }
      }
    }
  }

  /** A run completes only at a step marked `end`, the last it starts. */
  lemma {:induction false} CompletedAtEndStep(def: LegacyDefinition, gateway: Gateway, current: LegacyStep, entries: Object, fuel: nat)
    requires current in def.steps
    requires RunFrom(def, gateway, current, entries, fuel).state == Completed
    ensures var trace := RunFrom(def, gateway, current, entries, fuel).trace;
      |trace| > 0 && exists s :: s in def.steps && s.end && s.id == trace[|trace| - 1]
    decreases fuel
  {
    var effect := StepEffect(gateway, current, entries);
    if current.end {
      assert RunFrom(def, gateway, current, entries, fuel).trace == [current.id];
    } else {
      var next := NextStep(def.steps, current, effect.value).value;
      CompletedAtEndStep(def, gateway, next, effect.value, fuel - 1);
      var rest := RunFrom(def, gateway, next, effect.value, fuel - 1).trace;
      assert RunFrom(def, gateway, current, entries, fuel).trace == [current.id] + rest;
    }
  }

  /** A step that does nothing and names itself as `next` keeps the run
      going for as long as there is fuel, without touching the context;
      the TypeScript engine stops the same cycle at its step ceiling. */
  lemma {:induction false} SelfLoopNeverEnds(def: LegacyDefinition, gateway: Gateway, step: LegacyStep, entries: Object, fuel: nat)
    requires !CallsTool(step) && step.kind != Choice && !step.end && step.next == step.id && step.id != ""
    requires FindStep(def.steps, step.id) == Some(step)
    ensures RunFrom(def, gateway, step, entries, fuel) == Run(Running, entries, seq(fuel, _ => step.id))
    decreases fuel
  {
    if fuel > 0 {
      assert StepEffect(gateway, step, entries) == Success(entries);
      assert NextStep(def.steps, step, entries) == Some(step);
      SelfLoopNeverEnds(def, gateway, step, entries, fuel - 1);
      assert [step.id] + seq(fuel - 1, _ => step.id) == seq(fuel, _ => step.id);
    }
  }

  /** An end step that succeeds completes the run whatever its `next` says. */
  lemma EndStepCompletes(def: LegacyDefinition, gateway: Gateway, step: LegacyStep, entries: Object, fuel: nat)
    requires fuel > 0 && step.end && StepEffect(gateway, step, entries).Success?
    ensures RunFrom(def, gateway, step, entries, fuel) == Run(Completed, StepEffect(gateway, step, entries).value, [step.id])
  {
  }

  /** Any other step that succeeds and is not an end step continues at the
      step its `next` names, and the run fails with "Next step not found"
      when `next` is missing or names no step. */
  lemma NonChoiceStepFollowsNext(def: LegacyDefinition, gateway: Gateway, step: LegacyStep, entries: Object, fuel: nat, after: Object)
    requires fuel > 0 && step.kind != Choice && !step.end
    requires StepEffect(gateway, step, entries) == Success(after)
    ensures var next := if step.next == "" then None else FindStep(def.steps, step.next);
      RunFrom(def, gateway, step, entries, fuel) ==
        if next.None? then Run(Failed(NextStepNotFound(step.id)), after, [step.id])
        else RunFrom(def, gateway, next.value, after, fuel - 1).AfterSteps([step.id])
  {
  }

  /** A step that fails ends the run with its own error, with the context as
      it was before the step. */
  lemma StepFailureStops(def: LegacyDefinition, gateway: Gateway, step: LegacyStep, entries: Object, fuel: nat, e: Error)
    requires fuel > 0 && StepEffect(gateway, step, entries) == Failure(e)
    ensures RunFrom(def, gateway, step, entries, fuel) == Run(Failed(e), entries, [step.id])
  {
  }

  /** A choice step leaves the context as it was and continues at its route. */
  lemma ChoiceStepRoutes(def: LegacyDefinition, gateway: Gateway, step: LegacyStep, entries: Object, fuel: nat)
    requires fuel > 0 && step.kind == Choice && !step.end
    ensures var route := Route(def.steps, step.choices, entries);
      RunFrom(def, gateway, step, entries, fuel) ==
        if route.None? then Run(Failed(NextStepNotFound(step.id)), entries, [step.id])
        else RunFrom(def, gateway, route.value, entries, fuel - 1).AfterSteps([step.id])
  {
  }

  // ---------------------------------------------------------------------
  // The engine

  /** The legacy engine; `workflowDefinition` is set by executeWorkflow and
      read by findStepById. */
  class WorkflowEngine {
    var workflowDefinition: Option<LegacyDefinition>

    constructor ()
      ensures workflowDefinition == None
    {
      workflowDefinition := None;
    }

    /** The steps findStepById searches: none before a workflow is set. */
    function Steps(): seq<LegacyStep>
      reads this
    {
      if workflowDefinition.Some? then workflowDefinition.value.steps else []
    }

    function FindStepById(id: string): (r: Option<LegacyStep>)
      reads this
      ensures workflowDefinition.None? ==> r == None
      ensures r.Some? ==> r.value in Steps() && r.value.id == id
      ensures r.None? <==> forall i :: 0 <= i < |Steps()| ==> Steps()[i].id != id
    {
      FindStep(Steps(), id)
    }

    /** With repeated ids, findStepById returns the earliest step that has
        the id. */
    lemma FindStepByIdFirst(id: string, i: nat)
      requires i < |Steps()| && Steps()[i].id == id
      requires forall j :: 0 <= j < i ==> Steps()[j].id != id
      ensures FindStepById(id) == Some(Steps()[i])
    {
      FindStepFirst(Steps(), id, i);
    }

    /** evaluateChoice: the scan over the rules, skipping a rule whose target
        is missing. */
    method EvaluateChoice(step: LegacyStep, ctx: Context) returns (target: Option<LegacyStep>)
      ensures target == Route(Steps(), step.choices, ctx.entries)
    {
      var i := 0;
      while i < |step.choices|
        invariant 0 <= i <= |step.choices|
        invariant Route(Steps(), step.choices, ctx.entries) == Route(Steps(), step.choices[i..], ctx.entries)
      {
        var choice := step.choices[i];
        assert step.choices[i..][1..] == step.choices[i + 1..];
        var fieldValue := ResolveContextPath(choice.field, ctx.entries);
        if Condition(choice, fieldValue) {
          var found := FindStepById(choice.next);
          if found.Some? {
            return found;
          }
        }
        i := i + 1;
      }
      return None;
    }

    method GetNextStep(current: LegacyStep, ctx: Context) returns (r: Option<LegacyStep>)
      ensures r == NextStep(Steps(), current, ctx.entries)
    {
      if current.kind == Choice {
        r := EvaluateChoice(current, ctx);
        return;
      }
      if current.next != "" {
        return FindStepById(current.next);
      }
      return None;
    }

    method ExecuteStep(gateway: Gateway, step: LegacyStep, ctx: Context) returns (r: Outcome<Error>)
      modifies ctx
      ensures Applied(StepEffect(gateway, step, old(ctx.entries)), r, old(ctx.entries), ctx.entries)
    {
      if !CallsTool(step) {
        return Pass;
      }
      var input := PrepareInput(step.input, ctx);
      if input.Failure? {
        return Fail(input.error);
      }
      var response := gateway(step.plugin, step.tool, input.value);
      if response.Failure? {
        return Fail(ToolCallFailed(response.error));
      }
      if step.output.Some? {
        var output := ProcessOutput(response.value, step.output.value.transform);
        if output.Failure? {
          return Fail(output.error);
        }
        ctx.entries := Store(ctx.entries, step.output.value.target, output.value);
      }
      return Pass;
    }

    /** executeWorkflow for at most `fuel` iterations of its loop: the
        definition is kept in the engine, and `executed` lists the steps
        started. */
    method ExecuteWorkflow(def: LegacyDefinition, gateway: Gateway, ctx: Context, fuel: nat)
      returns (state: RunState, executed: seq<string>)
      modifies this, ctx
      ensures workflowDefinition == Some(def)
      ensures RunWorkflow(def, gateway, old(ctx.entries), fuel) == Run(state, ctx.entries, executed)
    {
      workflowDefinition := Some(def);
      executed := [];
      var current := FindStepById(def.startAt);
      if current.None? {
        return Failed(StartStepNotFound(def.startAt)), executed;
      }
      var step := current.value;
      var left := fuel;
      while left > 0
        invariant workflowDefinition == Some(def) && Steps() == def.steps
        invariant RunWorkflow(def, gateway, old(ctx.entries), fuel) == RunFrom(def, gateway, step, ctx.entries, left).AfterSteps(executed)
        decreases left
      {
        ghost var rest := RunFrom(def, gateway, step, ctx.entries, left);
        executed := executed + [step.id];
        var result := ExecuteStep(gateway, step, ctx);
        if result.Fail? {
          return Failed(result.error), executed;
        }
        if step.end {
          return Completed, executed;
        }
        var next := GetNextStep(step, ctx);
        if next.None? {
          return Failed(NextStepNotFound(step.id)), executed;
        }
        assert rest.trace == [step.id] + RunFrom(def, gateway, next.value, ctx.entries, left - 1).trace;
        step := next.value;
        left := left - 1;
      }
      return Running, executed;
    }
  }
}
