/** The step manager: the executor and router of the TypeScript engine,
    refactored around an injected tool executor. Tool definitions come from
    the executor's registry, the resolver is the step manager's copy (which
    reads `$.` alone as null), and empty or textless tool results are
    reported as two separate errors. The tool call goes through an abstract
    gateway. */
module StepManager {
  import opened Wrappers
  import opened JsonModel
  import opened Text
  import opened JsProperty
  import opened Types
  import opened PathResolver
  import opened ChoiceEvaluator
  import opened Routing
  import opened InputMapper
  import Engine = WorkflowEngine
  import TE = ToolExecutor

  const ContentKey := "content"
  const TextKey := "text"

  // ---------------------------------------------------------------------
  // prepareInput

  /** The tool input of a step: the tool must be named and registered with
      the executor, then the step's bindings are checked against its parameters. */
  function ManagerInputFor(registry: map<string, ToolDefinition>, step: Step, entries: Object): (r: Result<Object, Error>)
    ensures step.tool == "" <==> r == Failure(ToolNameRequired)
    ensures step.tool != "" && step.tool !in registry <==> r == Failure(ToolNotFound(step.tool))
    ensures r.Failure? ==>
      || r.error == ToolNameRequired || r.error == ToolNotFound(step.tool)
      || r.error.UnknownParameter? || r.error == EmptyPath || r.error.RequiredParameterNotFound?
  {
    if step.tool == "" then Failure(ToolNameRequired)
    else if step.tool !in registry then Failure(ToolNotFound(step.tool))
    else
      var r := Bind(ManagerVariant, registry[step.tool].parameters, step.parameters, entries);
      if r.Failure? then
        BindErrors(ManagerVariant, registry[step.tool].parameters, step.parameters, entries);
        r
      else r
  }

  /** With the engine's built-in registry, and a context without the key "",
      the step manager prepares the same input as the engine; the only
      difference is the error for an unregistered tool. */
  lemma InputAgreesWithEngine(step: Step, entries: Object)
    requires "" !in entries
    ensures step.tool in Engine.ToolRegistry ==>
      ManagerInputFor(Engine.ToolRegistry, step, entries) == Engine.InputFor(step, entries)
    ensures step.tool != "" && step.tool !in Engine.ToolRegistry ==>
      && ManagerInputFor(Engine.ToolRegistry, step, entries) == Failure(ToolNotFound(step.tool))
      && Engine.InputFor(step, entries) == Failure(ToolDefinitionNotFound(step.tool))
  {
    if step.tool in Engine.ToolRegistry {
      BindVariantsAgree(Engine.ToolRegistry[step.tool].parameters, step.parameters, entries);
    }
  }

  /** Binding does not depend on the resolver copy when the context has no key "". */
  lemma BindVariantsAgree(params: seq<ToolParameter>, bindings: seq<(string, string)>, entries: Object)
    requires "" !in entries
    ensures Bind(EngineVariant, params, bindings, entries) == Bind(ManagerVariant, params, bindings, entries)
  {
    var ce := Contributions(EngineVariant, params, bindings, entries);
    var cm := Contributions(ManagerVariant, params, bindings, entries);
    forall i | 0 <= i < |bindings| ensures ce[i] == cm[i] {
      VariantsAgree(bindings[i].1, entries);
    }
    assert ce == cm;
  }

  // ---------------------------------------------------------------------
  // processOutput

  /** `result.content[0]?.text`, after the check that `content` is a
      non-empty array: reading `content` of null is a TypeError, anything but
      a non-empty array is the "empty result" error, and a first entry that is
      null or has no `text` is the "no text content" error. */
  function ContentText(response: Json, tool: string): (r: Result<Json, Error>)
    ensures response.JObj? ==>
      (r == Failure(EmptyResult(tool)) <==>
        !(ContentKey in response.fields && response.fields[ContentKey].JArr? && |response.fields[ContentKey].items| > 0))
    ensures r.Success? ==>
      && response.JObj? && ContentKey in response.fields
      && response.fields[ContentKey].JArr? && |response.fields[ContentKey].items| > 0
      && Property(response.fields[ContentKey].items[0], TextKey) == Some(r.value)
    ensures r.Failure? ==> r.error == TypeError || r.error == EmptyResult(tool) || r.error == NoTextContent(tool)
    ensures r.Failure? && r.error == TypeError <==> response == JNull
  {
    if response == JNull then Failure(TypeError)
    else
      var content := Property(response, ContentKey);
      if content.None? || !content.value.JArr? || |content.value.items| == 0 then Failure(EmptyResult(tool))
      else
        var first := content.value.items[0];
        if first == JNull then Failure(NoTextContent(tool))
        else
          match Property(first, TextKey)
          case None => Failure(NoTextContent(tool))
          case Some(text) => Success(text)
  }

  /** The context after processOutput: without an `output` key nothing
      changes; otherwise the tool must be named and the first content
      entry's text is stored under the flat key `output`. */
  function ManagerOutputEffect(step: Step, response: Json, entries: Object): Result<Object, Error> {
    if step.output == "" then Success(entries)
    else if step.tool == "" then Failure(ToolNameRequired)
    else
      match ContentText(response, step.tool)
      case Failure(e) => Failure(e)
      case Success(text) => Success(entries[step.output := text])
  }

  /** processOutput writes the `output` key, with the first entry's text,
      and no other key. */
  lemma ManagerOutputWritesOnlyItsKey(step: Step, response: Json, entries: Object)
    requires ManagerOutputEffect(step, response, entries).Success?
    ensures var after := ManagerOutputEffect(step, response, entries).value;
      && (step.output == "" ==> after == entries)
      && (step.output != "" ==> step.output in after && after[step.output] == ContentText(response, step.tool).value)
      && (forall k :: k != step.output ==> (k in after <==> k in entries))
      && (forall k :: k != step.output && k in after ==> after[k] == entries[k])
  {
  }

  /** On a response whose first content entry is an object, the step manager
      and the engine store the same text, or fail alike; where the engine
      reports "no result" the step manager reports "no text content". */
  lemma OutputAgreesWithEngine(step: Step, first: map<string, Json>, rest: seq<Json>, more: map<string, Json>, entries: Object)
    requires step.tool in Engine.ToolRegistry
    ensures var response := JObj(more[ContentKey := JArr([JObj(first)] + rest)]);
      && (TextKey in first ==>
        ManagerOutputEffect(step, response, entries) == Engine.OutputEffect(step, response, entries))
      && (TextKey !in first && step.output != "" ==>
        && ManagerOutputEffect(step, response, entries) == Failure(NoTextContent(step.tool))
        && Engine.OutputEffect(step, response, entries) == Failure(NoResult(step.tool)))
  {
    var response := JObj(more[ContentKey := JArr([JObj(first)] + rest)]);
    assert Property(JArr([JObj(first)] + rest), Engine.FirstKey) == Some(JObj(first)) by {
      assert IsIndexKey(Engine.FirstKey) && DecimalValue(Engine.FirstKey) == 0;
    }
  }

  /** A response without content entries is the step manager's "empty
      result"; the engine reports an empty array as "no result" and a
      missing `content` as a TypeError. */
  lemma EmptyContentIsEmptyResult(step: Step, more: map<string, Json>, entries: Object)
    requires step.output != "" && step.tool in Engine.ToolRegistry
    ensures ManagerOutputEffect(step, JObj(more[ContentKey := JArr([])]), entries) == Failure(EmptyResult(step.tool))
    ensures Engine.OutputEffect(step, JObj(more[ContentKey := JArr([])]), entries) == Failure(NoResult(step.tool))
    ensures ManagerOutputEffect(step, JObj(more - {ContentKey}), entries) == Failure(EmptyResult(step.tool))
    ensures Engine.OutputEffect(step, JObj(more - {ContentKey}), entries) == Failure(TypeError)
  {
  }

  // ---------------------------------------------------------------------
  // executeStep

  /** The context after executeStep: as in the engine, with the step
      manager's input, output and resolver. */
  function ManagerStepEffect(gateway: Gateway, registry: map<string, ToolDefinition>, step: Step, entries: Object): (r: Result<Object, Error>)
    ensures r.Failure? ==> !r.error.StepLimitExceeded? && !r.error.NextStepNotFound? && !r.error.StartStepNotFound?
  {
    if Engine.CallsTool(step) then
      match ManagerInputFor(registry, step, entries)
      case Failure(e) => Failure(e)
      case Success(input) =>
        match gateway(step.plugin, step.tool, input)
        case Failure(message) => Failure(ToolCallFailed(message))
        case Success(response) => ManagerOutputEffect(step, response, entries)
    else if step.kind == Choice && |step.choices| > 0 then
      match Resolve(ManagerVariant, step.choices[0].field, entries)
      case Failure(e) => Failure(e)
      case Success(fieldValue) =>
        var value := EvaluateCondition(step.choices[0], fieldValue);
        Success(if step.output != "" then entries[step.output := JBool(value)] else entries)
    else Success(entries)
  }

  /** A step writes at most its `output` key. */
  lemma ManagerStepWritesOnlyOutput(gateway: Gateway, registry: map<string, ToolDefinition>, step: Step, entries: Object)
    requires ManagerStepEffect(gateway, registry, step, entries).Success?
    ensures var after := ManagerStepEffect(gateway, registry, step, entries).value;
      && (step.output == "" ==> after == entries)
      && (forall k :: k != step.output ==> (k in after <==> k in entries))
      && (forall k :: k != step.output && k in after ==> after[k] == entries[k])
  {
    if Engine.CallsTool(step) {
      var input := ManagerInputFor(registry, step, entries).value;
      var response := gateway(step.plugin, step.tool, input).value;
      ManagerOutputWritesOnlyItsKey(step, response, entries);
    }
  }

  /** Choice steps and inert steps behave as in the engine when the context
      has no key "": only tool-calling tasks can differ. */
  lemma NonTaskAgreesWithEngine(gateway: Gateway, registry: map<string, ToolDefinition>, step: Step, entries: Object)
    requires !Engine.CallsTool(step) && "" !in entries
    ensures ManagerStepEffect(gateway, registry, step, entries) == Engine.StepEffect(gateway, step, entries)
  {
    if step.kind == Choice && |step.choices| > 0 {
      VariantsAgree(step.choices[0].field, entries);
    }
  }

  /** A choice step stores the verdict of its first rule only. */
  lemma ManagerChoiceStoresVerdict(gateway: Gateway, registry: map<string, ToolDefinition>, step: Step, entries: Object)
    requires step.kind == Choice && |step.choices| > 0 && step.output != "" && step.choices[0].field != ""
    ensures ManagerStepEffect(gateway, registry, step, entries) ==
      Success(entries[step.output := JBool(EvaluateCondition(step.choices[0], OrNull(Resolve(ManagerVariant, step.choices[0].field, entries))))])
    ensures ManagerStepEffect(gateway, registry, step, entries) ==
      ManagerStepEffect(gateway, registry, step.(choices := step.choices[..1]), entries)
  {
  }

  /** The step manager, holding the tool executor it was created with. */
  class StepManager {
    const toolExecutor: TE.ToolExecutor

    constructor (executor: TE.ToolExecutor)
      ensures toolExecutor == executor
    {
      toolExecutor := executor;
    }

    method PrepareInput(step: Step, ctx: Context) returns (r: Result<Object, Error>)
      ensures r == ManagerInputFor(toolExecutor.registry, step, ctx.entries)
    {
      if step.tool == "" {
        return Failure(ToolNameRequired);
      }
      var toolDef := toolExecutor.GetTool(step.tool);
      if toolDef.Failure? {
        return Failure(toolDef.error);
      }
      r := BindParameters(ManagerVariant, toolDef.value.parameters, step.parameters, ctx);
    }

    method ProcessOutput(step: Step, response: Json, ctx: Context) returns (r: Outcome<Error>)
      modifies ctx
      ensures Applied(ManagerOutputEffect(step, response, old(ctx.entries)), r, old(ctx.entries), ctx.entries)
    {
      if step.output == "" {
        return Pass;
      }
      if step.tool == "" {
        return Fail(ToolNameRequired);
      }
      var text := ContentText(response, step.tool);
      if text.Failure? {
        return Fail(text.error);
      }
      ctx.entries := ctx.entries[step.output := text.value];
      return Pass;
    }

    method ExecuteStep(gateway: Gateway, step: Step, ctx: Context) returns (r: Outcome<Error>)
      modifies ctx
      ensures Applied(ManagerStepEffect(gateway, toolExecutor.registry, step, old(ctx.entries)), r, old(ctx.entries), ctx.entries)
    {
      if Engine.CallsTool(step) {
        var input := PrepareInput(step, ctx);
        if input.Failure? {
          return Fail(input.error);
        }
        var response := gateway(step.plugin, step.tool, input.value);
        if response.Failure? {
          return Fail(ToolCallFailed(response.error));
        }
        r := ProcessOutput(step, response.value, ctx);
      } else if step.kind == Choice && |step.choices| > 0 {
        var fieldValue := Resolve(ManagerVariant, step.choices[0].field, ctx.entries);
        if fieldValue.Failure? {
          return Fail(fieldValue.error);
        }
        var value := EvaluateCondition(step.choices[0], fieldValue.value);
        if step.output != "" {
          ctx.entries := ctx.entries[step.output := JBool(value)];
        }
        return Pass;
      } else {
        return Pass;
      }
    }

    /** evaluateChoice: the first rule, in order, that is complete, whose
        field resolves to a value, that holds and whose target exists. */
    method EvaluateChoice(def: Definition, step: Step, ctx: Context) returns (target: Option<Step>)
      ensures target == Route(ManagerVariant, def.steps, step.choices, ctx.entries)
      ensures target.Some? ==> target.value in def.steps
    {
      target := Routing.EvaluateChoice(ManagerVariant, def.steps, step, ctx);
    }

    /** getNextStep: choice steps route by their rules, other steps follow `next`. */
    method GetNextStep(def: Definition, current: Step, ctx: Context) returns (next: Option<Step>)
      ensures next == NextStep(ManagerVariant, def.steps, current, ctx.entries)
      ensures current.kind != Choice && current.next == "" ==> next == None
    {
      next := Routing.GetNextStep(ManagerVariant, def.steps, current, ctx);
    }
  }
}
