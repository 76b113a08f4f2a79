/** The TypeScript workflow engine: the built-in tool registry, input
    preparation, output mapping, single-step execution and the traversal
    loop with its ceiling of twice the number of steps. The tool call goes
    through an abstract gateway. */
module WorkflowEngine {
  import opened Wrappers
  import opened JsonModel
  import opened JsProperty
  import opened Types
  import opened PathResolver
  import opened ChoiceEvaluator
  import opened Routing
  import opened InputMapper

  const ContentKey := "content"
  const FirstKey := "0"
  const TextKey := "text"

  /** The built-in tool registry the engine checks bindings against. */
  const ToolRegistry: map<string, ToolDefinition> :=
    map["add_prefix" := AddPrefixTool, "to_upper" := ToUpperTool, "select_text" := SelectTextTool]

  const AddPrefixTool := ToolDefinition("Add Prefix", "Adds a prefix to the input text", [
    ToolParameter("text", "string", true, "The text to add prefix to", None),
    ToolParameter("prefix", "string", true, "The prefix to add", None)])

  const ToUpperTool := ToolDefinition("To Upper Case", "Converts text to upper case", [
    ToolParameter("text", "string", true, "The text to convert to upper case", None)])

  const SelectTextTool := ToolDefinition("Select Text", "Selects text based on a condition", [
    ToolParameter("condition", "boolean", true, "The condition to evaluate", None),
    ToolParameter("trueValue", "string", true, "The text to return if condition is true", None),
    ToolParameter("falseValue", "string", true, "The text to return if condition is false", None)])

  // ---------------------------------------------------------------------
  // prepareInput

  /** The tool input of a step: the tool must be named and registered, then
      the step's bindings are checked against its parameters. */
  function InputFor(step: Step, entries: Object): (r: Result<Object, Error>)
    ensures r.Failure? ==>
      || r.error == ToolNameRequired || r.error == ToolDefinitionNotFound(step.tool)
      || r.error.UnknownParameter? || r.error == EmptyPath || r.error.RequiredParameterNotFound?
    ensures step.tool == "" <==> r == Failure(ToolNameRequired)
    ensures step.tool != "" && step.tool !in ToolRegistry <==> r == Failure(ToolDefinitionNotFound(step.tool))
  {
    if step.tool == "" then Failure(ToolNameRequired)
    else if step.tool !in ToolRegistry then Failure(ToolDefinitionNotFound(step.tool))
    else
      var r := Bind(EngineVariant, ToolRegistry[step.tool].parameters, step.parameters, entries);
      if r.Failure? then
        BindErrors(EngineVariant, ToolRegistry[step.tool].parameters, step.parameters, entries);
        r
      else r
  }

  method PrepareInput(step: Step, ctx: Context) returns (r: Result<Object, Error>)
    ensures r == InputFor(step, ctx.entries)
  {
    if step.tool == "" {
      return Failure(ToolNameRequired);
    }
    if step.tool !in ToolRegistry {
      return Failure(ToolDefinitionNotFound(step.tool));
    }
    r := BindParameters(EngineVariant, ToolRegistry[step.tool].parameters, step.parameters, ctx);
  }

  /** Every registered parameter is required and has no default, so a
      binding whose path resolves to null makes the input fail. */
  lemma RegisteredNullBindingFails(step: Step, entries: Object, i: nat)
    requires step.tool in ToolRegistry && i < |step.parameters|
    requires FindParameter(ToolRegistry[step.tool].parameters, step.parameters[i].0).Some?
    requires step.parameters[i].1 != ""
    requires OrNull(Resolve(EngineVariant, step.parameters[i].1, entries)) == JNull
    ensures InputFor(step, entries).Failure?
  {
    var params := ToolRegistry[step.tool].parameters;
    var param := FindParameter(params, step.parameters[i].0).value;
    assert param.required;
    BindOneCases(EngineVariant, params, step.parameters[i], entries);
    BindSucceedsIff(EngineVariant, params, step.parameters, entries);
  }

  // ---------------------------------------------------------------------
  // processOutput

  /** `result.content[0]?.text`: reading `content` of null, or `[0]` of an
      undefined or null `content`, is a TypeError; None stands for undefined. */
  function FirstText(response: Json): (r: Result<Option<Json>, Error>)
    ensures response.JObj? && ContentKey in response.fields && response.fields[ContentKey].JArr?
            && |response.fields[ContentKey].items| > 0 && response.fields[ContentKey].items[0].JObj? ==>
      r == Success(Property(response.fields[ContentKey].items[0], TextKey))
    ensures response.JObj? && ContentKey !in response.fields ==> r == Failure(TypeError)
  {
    if response == JNull then Failure(TypeError)
    else
      match Property(response, ContentKey)
      case None => Failure(TypeError)
      case Some(content) =>
        if content == JNull then Failure(TypeError)
        else
          var first := Property(content, FirstKey);
          if first.None? || first.value == JNull then Success(None)
          else
            assert content.JArr? ==> NaturalKey(0) == FirstKey;
            Success(Property(first.value, TextKey))
  }

  /** The context after processOutput: without an `output` key nothing
      changes; otherwise the tool must be named and registered and the first
      content entry's text is stored under the flat key `output`. */
  function OutputEffect(step: Step, response: Json, entries: Object): Result<Object, Error> {
    if step.output == "" then Success(entries)
    else if step.tool == "" then Failure(ToolNameRequired)
    else if step.tool !in ToolRegistry then Failure(ToolDefinitionNotFound(step.tool))
    else
      match FirstText(response)
      case Failure(e) => Failure(e)
      case Success(None) => Failure(NoResult(step.tool))
      case Success(Some(text)) => Success(entries[step.output := text])
  }

  /** processOutput writes the `output` key and no other. */
  lemma OutputWritesOnlyItsKey(step: Step, response: Json, entries: Object)
    requires OutputEffect(step, response, entries).Success?
    ensures var after := OutputEffect(step, response, entries).value;
      && (step.output == "" ==> after == entries)
      && (step.output != "" ==> step.output in after && after[step.output] == FirstText(response).value.value)
      && (forall k :: k != step.output ==> (k in after <==> k in entries))
      && (forall k :: k != step.output && k in after ==> after[k] == entries[k])
  {
  }

  /** A response whose first content entry carries `text` stores that text
      under `output`, even when `output` contains dots. */
  lemma OutputStoresFirstText(step: Step, text: Json, first: map<string, Json>, rest: seq<Json>, more: map<string, Json>, entries: Object)
    requires step.output != "" && step.tool in ToolRegistry
    requires TextKey in first && first[TextKey] == text
    ensures OutputEffect(step, JObj(more[ContentKey := JArr([JObj(first)] + rest)]), entries)
      == Success(entries[step.output := text])
  {
  }

  /** A first content entry without `text` is the "returned no result" error. */
  lemma OutputWithoutTextFails(step: Step, first: map<string, Json>, rest: seq<Json>, entries: Object)
    requires step.output != "" && step.tool in ToolRegistry && TextKey !in first
    ensures OutputEffect(step, JObj(map[ContentKey := JArr([JObj(first)] + rest)]), entries)
      == Failure(NoResult(step.tool))
  {
  }

  method ProcessOutput(step: Step, response: Json, ctx: Context) returns (r: Outcome<Error>)
    modifies ctx
    ensures Applied(OutputEffect(step, response, old(ctx.entries)), r, old(ctx.entries), ctx.entries)
  {
    if step.output == "" {
      return Pass;
    }
    if step.tool == "" {
      return Fail(ToolNameRequired);
    }
    if step.tool !in ToolRegistry {
      return Fail(ToolDefinitionNotFound(step.tool));
    }
    var text := FirstText(response);
    if text.Failure? {
      return Fail(text.error);
    }
    if text.value.None? {
      return Fail(NoResult(step.tool));
    }
    ctx.entries := ctx.entries[step.output := text.value.value];
    return Pass;
  }

  // ---------------------------------------------------------------------
  // executeStep

  /** Whether executeStep calls the tool: a task naming both plugin and tool. */
  predicate CallsTool(step: Step) {
    step.kind == Task && step.plugin != "" && step.tool != ""
  }

  /** The context after executeStep. A tool-calling task prepares its input,
      calls the gateway and maps the output; a choice step with rules stores
      the boolean of its first rule under `output`; any other step changes
      nothing. */
  function StepEffect(gateway: Gateway, step: Step, entries: Object): (r: Result<Object, Error>)
    ensures r.Failure? ==> !r.error.StepLimitExceeded? && !r.error.NextStepNotFound? && !r.error.StartStepNotFound?
  {
    if CallsTool(step) then
      match InputFor(step, entries)
      case Failure(e) => Failure(e)
      case Success(input) =>
        match gateway(step.plugin, step.tool, input)
        case Failure(message) => Failure(ToolCallFailed(message))
        case Success(response) => OutputEffect(step, response, entries)
    else if step.kind == Choice && |step.choices| > 0 then
      match Resolve(EngineVariant, step.choices[0].field, entries)
      case Failure(e) => Failure(e)
      case Success(fieldValue) =>
        var value := EvaluateCondition(step.choices[0], fieldValue);
        Success(if step.output != "" then entries[step.output := JBool(value)] else entries)
    else Success(entries)
  }

  /** Only tool-calling tasks consult the gateway. */
  lemma GatewayOnlyForTasks(g1: Gateway, g2: Gateway, step: Step, entries: Object)
    requires !CallsTool(step)
    ensures StepEffect(g1, step, entries) == StepEffect(g2, step, entries)
  {
  }

  /** A task's effect depends on the gateway only through the one call it
      makes, with the prepared input. */
  lemma GatewayCalledOnce(g1: Gateway, g2: Gateway, step: Step, entries: Object)
    requires CallsTool(step) && InputFor(step, entries).Success?
    requires var input := InputFor(step, entries).value;
      g1(step.plugin, step.tool, input) == g2(step.plugin, step.tool, input)
    ensures StepEffect(g1, step, entries) == StepEffect(g2, step, entries)
  {
  }

  /** A choice step evaluates its first rule only: the remaining rules play
      no part in its effect. */
  lemma ChoiceUsesFirstRuleOnly(gateway: Gateway, step: Step, entries: Object)
    requires step.kind == Choice && |step.choices| > 0
    ensures StepEffect(gateway, step, entries) == StepEffect(gateway, step.(choices := step.choices[..1]), entries)
  {
  }

  /** A choice step with an output key stores the first rule's verdict there. */
  lemma ChoiceStoresVerdict(gateway: Gateway, step: Step, entries: Object)
    requires step.kind == Choice && |step.choices| > 0 && step.output != "" && step.choices[0].field != ""
    ensures StepEffect(gateway, step, entries) ==
      Success(entries[step.output := JBool(EvaluateCondition(step.choices[0], OrNull(Resolve(EngineVariant, step.choices[0].field, entries))))])
  {
  }

  /** Steps that neither call a tool nor hold rules leave the context as it is. */
  lemma InertStepKeepsContext(gateway: Gateway, step: Step, entries: Object)
    requires !CallsTool(step) && (step.kind != Choice || |step.choices| == 0)
    ensures StepEffect(gateway, step, entries) == Success(entries)
  {
  }

  /** A step writes at most its `output` key. */
  lemma StepWritesOnlyOutput(gateway: Gateway, step: Step, entries: Object)
    requires StepEffect(gateway, step, entries).Success?
    ensures var after := StepEffect(gateway, step, entries).value;
      && (step.output == "" ==> after == entries)
      && (forall k :: k != step.output ==> (k in after <==> k in entries))
      && (forall k :: k != step.output && k in after ==> after[k] == entries[k])
  {
    if CallsTool(step) {
      var input := InputFor(step, entries).value;
      var response := gateway(step.plugin, step.tool, input).value;
      OutputWritesOnlyItsKey(step, response, entries);
    }
  }

  method ExecuteStep(gateway: Gateway, step: Step, ctx: Context) returns (r: Outcome<Error>)
    modifies ctx
    ensures Applied(StepEffect(gateway, step, old(ctx.entries)), r, old(ctx.entries), ctx.entries)
  {
    if CallsTool(step) {
      var input := PrepareInput(step, ctx);
      if input.Failure? {
        return Fail(input.error);
      }
      var response := gateway(step.plugin, step.tool, input.value);
      if response.Failure? {
        return Fail(ToolCallFailed(response.error));
      }
      r := ProcessOutput(step, response.value, ctx);
    } else if step.kind == Choice && |step.choices| > 0 {
      var fieldValue := Resolve(EngineVariant, step.choices[0].field, ctx.entries);
      if fieldValue.Failure? {
        return Fail(fieldValue.error);
      }
      var value := EvaluateCondition(step.choices[0], fieldValue.value);
      if step.output != "" {
        ctx.entries := ctx.entries[step.output := JBool(value)];
      }
      return Pass;
    } else {
      return Pass;
    }
  }

  // ---------------------------------------------------------------------
  // executeWorkflow

  /** How a run ends, the context it leaves and the ids of the steps it
      started, in order (what the log reports). */
  datatype RunResult = RunResult(outcome: Outcome<Error>, entries: Object, trace: seq<string>) {
    /** The same run, reached after the steps `ids` had started. */
    function AfterSteps(ids: seq<string>): RunResult {
      RunResult(outcome, entries, ids + trace)
    }
  }

  function MaxSteps(def: Definition): nat {
    |def.steps| * 2
  }

  /** `current` started after `count` steps. */
  function RunFrom(def: Definition, gateway: Gateway, current: Step, entries: Object, count: nat): RunResult
    decreases MaxSteps(def) - count
  {
    if count + 1 > MaxSteps(def) then RunResult(Fail(StepLimitExceeded), entries, [])
    else
      match StepEffect(gateway, current, entries)
      case Failure(e) => RunResult(Fail(e), entries, [current.id])
      case Success(after) =>
        if current.end then RunResult(Pass, after, [current.id])
        else
          match NextStep(EngineVariant, def.steps, current, after)
          case None => RunResult(Fail(NextStepNotFound(current.id)), after, [current.id])
          case Some(next) => RunFrom(def, gateway, next, after, count + 1).AfterSteps([current.id])
  }

  /** executeWorkflow from the start step. */
  function Run(def: Definition, gateway: Gateway, entries: Object): RunResult {
    match FindStepById(def.steps, def.startAt)
    case None => RunResult(Fail(StartStepNotFound(def.startAt)), entries, [])
    case Some(start) => RunFrom(def, gateway, start, entries, 0)
  }

  method ExecuteWorkflow(def: Definition, gateway: Gateway, ctx: Context) returns (outcome: Outcome<Error>, executed: seq<string>)
    modifies ctx
    ensures Run(def, gateway, old(ctx.entries)) == RunResult(outcome, ctx.entries, executed)
  {
    executed := [];
    var current := FindStepById(def.steps, def.startAt);
    var stepCount := 0;
    var maxSteps := |def.steps| * 2;
    if current.None? {
      return Fail(StartStepNotFound(def.startAt)), executed;
    }
    var step := current.value;
    while true
      invariant 0 <= stepCount <= maxSteps
      invariant Run(def, gateway, old(ctx.entries)) == RunFrom(def, gateway, step, ctx.entries, stepCount).AfterSteps(executed)
      decreases maxSteps - stepCount
    {
      stepCount := stepCount + 1;
      if stepCount > maxSteps {
        return Fail(StepLimitExceeded), executed;
      }
      ghost var rest := RunFrom(def, gateway, step, ctx.entries, stepCount - 1);
      executed := executed + [step.id];
      var result := ExecuteStep(gateway, step, ctx);
      if result.Fail? {
        return result, executed;
      }
      if step.end {
        return Pass, executed;
      }
      var next := GetNextStep(EngineVariant, def.steps, step, ctx);
      if next.None? {
        return Fail(NextStepNotFound(step.id)), executed;
      }
      assert rest.trace == [step.id] + RunFrom(def, gateway, next.value, ctx.entries, stepCount).trace;
      step := next.value;
    }
  }

  // ---------------------------------------------------------------------
  // Properties of a run

  /** A run started after `count` steps starts at most the remaining steps. */
  lemma {:induction false} TraceBound(def: Definition, gateway: Gateway, current: Step, entries: Object, count: nat)
    ensures |RunFrom(def, gateway, current, entries, count).trace| + count <= MaxSteps(def) || count > MaxSteps(def)
    decreases MaxSteps(def) - count
  {
    if count + 1 <= MaxSteps(def) {
      var effect := StepEffect(gateway, current, entries);
      if effect.Success? && !current.end {
        var next := NextStep(EngineVariant, def.steps, current, effect.value);
        if next.Some? {
          TraceBound(def, gateway, next.value, effect.value, count + 1);
        }
      }
    }
  }

  /** A run starts at most twice as many steps as the definition has. */
  lemma RunBound(def: Definition, gateway: Gateway, entries: Object)
    ensures |Run(def, gateway, entries).trace| <= MaxSteps(def)
  {
    var start := FindStepById(def.steps, def.startAt);
    if start.Some? {
      TraceBound(def, gateway, start.value, entries, 0);
    }
  }

  /** The ceiling is reported only once every allowed step has started. */
  lemma {:induction false} LimitMeansExhausted(def: Definition, gateway: Gateway, current: Step, entries: Object, count: nat)
    requires count <= MaxSteps(def)
    requires RunFrom(def, gateway, current, entries, count).outcome == Fail(StepLimitExceeded)
    ensures |RunFrom(def, gateway, current, entries, count).trace| + count == MaxSteps(def)
    decreases MaxSteps(def) - count
  {
    if count + 1 <= MaxSteps(def) {
      var effect := StepEffect(gateway, current, entries);
      var next := NextStep(EngineVariant, def.steps, current, effect.value);
      LimitMeansExhausted(def, gateway, next.value, effect.value, count + 1);
    }
  }

  /** One iteration of the loop below the ceiling: a step that succeeds, is
      not an end step and has a successor adds its id to the trace and hands
      the updated context to that successor. */
  lemma RunContinues(def: Definition, gateway: Gateway, current: Step, entries: Object, count: nat, after: Object, next: Step)
    requires count + 1 <= MaxSteps(def) && !current.end
    requires StepEffect(gateway, current, entries) == Success(after)
    requires NextStep(EngineVariant, def.steps, current, after) == Some(next)
    ensures RunFrom(def, gateway, current, entries, count) == RunFrom(def, gateway, next, after, count + 1).AfterSteps([current.id])
  {
  }

  /** An end step that succeeds below the ceiling closes the run with a pass. */
  lemma RunEnds(def: Definition, gateway: Gateway, current: Step, entries: Object, count: nat, after: Object)
    requires count + 1 <= MaxSteps(def) && current.end
    requires StepEffect(gateway, current, entries) == Success(after)
    ensures RunFrom(def, gateway, current, entries, count) == RunResult(Pass, after, [current.id])
  {
  }

  /** A step that succeeds below the ceiling but is neither an end step nor
      has a successor ends the run with "Next step not found"; the context
      it leaves holds that step's writes. */
  lemma RunMissingSuccessor(def: Definition, gateway: Gateway, current: Step, entries: Object, count: nat, after: Object)
    requires count + 1 <= MaxSteps(def) && !current.end
    requires StepEffect(gateway, current, entries) == Success(after)
    requires NextStep(EngineVariant, def.steps, current, after) == None
    ensures RunFrom(def, gateway, current, entries, count) == RunResult(Fail(NextStepNotFound(current.id)), after, [current.id])
  {
  }

  /** A step that fails below the ceiling ends the run with its own error,
      with the context as it was before the step. */
  lemma RunStepFails(def: Definition, gateway: Gateway, current: Step, entries: Object, count: nat, e: Error)
    requires count + 1 <= MaxSteps(def)
    requires StepEffect(gateway, current, entries) == Failure(e)
    ensures RunFrom(def, gateway, current, entries, count) == RunResult(Fail(e), entries, [current.id])
  {
  }

  /** The start step is missing exactly when the run starts no step at all. */
  lemma StartNotFoundIff(def: Definition, gateway: Gateway, entries: Object)
    ensures Run(def, gateway, entries).trace == [] <==> FindStepById(def.steps, def.startAt).None?
    ensures FindStepById(def.steps, def.startAt).None? ==>
      Run(def, gateway, entries) == RunResult(Fail(StartStepNotFound(def.startAt)), entries, [])
  {
  }

  /** A run passes only at a step marked `end`, which is the last it starts. */
  lemma {:induction false} PassEndsAtEndStep(def: Definition, gateway: Gateway, current: Step, entries: Object, count: nat)
    requires current in def.steps
    requires RunFrom(def, gateway, current, entries, count).outcome == Pass
    ensures var trace := RunFrom(def, gateway, current, entries, count).trace;
      |trace| > 0 && exists s :: s in def.steps && s.end && s.id == trace[|trace| - 1]
    decreases MaxSteps(def) - count
  {
    var effect := StepEffect(gateway, current, entries);
    if !current.end {
      var next := NextStep(EngineVariant, def.steps, current, effect.value);
      PassEndsAtEndStep(def, gateway, next.value, effect.value, count + 1);
    }
  }

  /** A step marked `end` stops the run whatever its `next` says. */
  lemma EndIgnoresNext(def: Definition, gateway: Gateway, current: Step, entries: Object, count: nat, other: string)
    requires current.end
    ensures RunFrom(def, gateway, current, entries, count) == RunFrom(def, gateway, current.(next := other), entries, count)
    ensures |RunFrom(def, gateway, current, entries, count).trace| <= 1
  {
    assert StepEffect(gateway, current, entries) == StepEffect(gateway, current.(next := other), entries);
  }

  /** Steps that only pass control on to an existing `next`. */
  predicate PassThrough(def: Definition, s: Step) {
    && (s.kind == Parallel || s.kind == MapStep)
    && !s.end
    && s.next != ""
    && FindStepById(def.steps, s.next).Some?
  }

  /** A cycle of pass-through steps never ends by itself: the ceiling stops
      it after exactly twice as many steps as the definition has, with the
      context untouched. */
  lemma {:induction false} CycleHitsCeiling(def: Definition, gateway: Gateway, current: Step, entries: Object, count: nat)
    requires forall i :: 0 <= i < |def.steps| ==> PassThrough(def, def.steps[i])
    requires current in def.steps && count <= MaxSteps(def)
    ensures RunFrom(def, gateway, current, entries, count).outcome == Fail(StepLimitExceeded)
    ensures RunFrom(def, gateway, current, entries, count).entries == entries
    ensures |RunFrom(def, gateway, current, entries, count).trace| + count == MaxSteps(def)
    decreases MaxSteps(def) - count
  {
    if count + 1 <= MaxSteps(def) {
      assert PassThrough(def, current);
      var next := FindStepById(def.steps, current.next).value;
      PassThroughStep(def, gateway, current, entries, count);
      CycleHitsCeiling(def, gateway, next, entries, count + 1);
    }
  }

  /** One pass-through step: it starts, changes nothing and hands over to `next`. */
  lemma PassThroughStep(def: Definition, gateway: Gateway, current: Step, entries: Object, count: nat)
    requires PassThrough(def, current) && count + 1 <= MaxSteps(def)
    ensures RunFrom(def, gateway, current, entries, count) ==
      RunFrom(def, gateway, FindStepById(def.steps, current.next).value, entries, count + 1).AfterSteps([current.id])
  {
    InertStepKeepsContext(gateway, current, entries);
    FollowsNext(EngineVariant, def.steps, current, entries);
  }
}
