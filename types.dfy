/** The data model of the TypeScript engine and step manager: workflow
    definitions, steps, choice rules, tool definitions, the errors they raise,
    the mutable context and the tool-invocation gateway.

    Optional string fields are written as strings, with "" standing for
    "absent": every check the engine makes on them is a JavaScript truthiness
    test, under which `undefined` and "" behave alike. */
module Types {
  import opened Wrappers
  import opened JsonModel

  /** The four step kinds; only Task and Choice have behaviour. */
  datatype StepKind = Task | Choice | Parallel | MapStep

  /** A choice rule. `ruleType` and `operator` are kept as the raw strings of
      the definition, so unknown types and operators can be expressed. */
  datatype ChoiceRule = ChoiceRule(
    ruleType: string,
    field: string,
    value: Option<Json>,
    operator: string,
    next: string)

  /** A step as the TypeScript engine reads it: `parameters` binds tool
      parameter names (in entry order) to literals or path expressions, and
      `output` is the context key that receives the result. */
  datatype Step = Step(
    id: string,
    kind: StepKind,
    plugin: string,
    tool: string,
    parameters: seq<(string, string)>,
    output: string,
    choices: seq<ChoiceRule>,
    next: string,
    end: bool)

  datatype Definition = Definition(
    id: string,
    version: string,
    name: string,
    description: string,
    startAt: string,
    steps: seq<Step>)

  datatype ToolParameter = ToolParameter(
    name: string,
    paramType: string,
    required: bool,
    description: string,
    default: Option<Json>)

  datatype ToolDefinition = ToolDefinition(
    name: string,
    description: string,
    parameters: seq<ToolParameter>)

  /** Every condition the engines throw on. */
  datatype Error =
    | EmptyPath                          // "Path cannot be empty"
    | ToolNameRequired                   // "Tool name is required"
    | ToolDefinitionNotFound(tool: string)
    | ToolNotFound(tool: string)         // the tool executor's getTool
    | UnknownParameter(param: string)
    | RequiredParameterNotFound(param: string)
    | ToolCallFailed(message: string)    // a failure reported by the gateway
    | NoResult(tool: string)             // the engine: content[0].text is undefined
    | EmptyResult(tool: string)          // the step manager: no content entries
    | NoTextContent(tool: string)        // the step manager: first entry has no text
    | TypeError                          // a property read on undefined or null
    | StartStepNotFound(start: string)
    | StepLimitExceeded                  // "Maximum step execution count exceeded"
    | NextStepNotFound(step: string)
    | ListToolsFailed(plugin: string, message: string)
    | RequiredInputNotFound(input: string) // the legacy engine's prepareInput

  /** The Tool Invocation Gateway: given a plugin, a tool and the input
      payload, the raw MCP response object or the failure message. */
  type Gateway = (string, string, Object) -> Result<Json, string>

  /** How a state-changing operation reports the effect `effect` it had to
      apply to the context: on success it passes and the context becomes the
      new object; on failure it reports the error and the context is as before. */
  predicate Applied(effect: Result<Object, Error>, r: Outcome<Error>, before: Object, after: Object) {
    match effect
    case Success(updated) => r == Pass && after == updated
    case Failure(e) => r == Fail(e) && after == before
  }

  /** The mutable workflow context that the steps of a run write into. */
  class Context {
    var entries: Object

    constructor (initial: Object)
      ensures entries == initial
    {
      entries := initial;
    }
  }
}
