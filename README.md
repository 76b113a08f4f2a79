# A verified model of an MCP workflow step engine

This project models the core of a workflow platform that runs JSON workflow
definitions by calling tools on MCP (Model Context Protocol) plugin servers.
A workflow is a list of steps. Each step has an id and one of these kinds:
`task`, `choice`, `parallel` or `map`.

A run keeps a mutable **context** object:

- it starts at the step named by `startAt`;
- a task step prepares a tool input by resolving `$.`-paths against the context;
- it calls the tool and writes the tool's text reply back into the context;
- a choice step tests its rules against context values to pick the next step;
- the run ends at a step marked `end`.

The model covers four parts of the source:

- **The TypeScript workflow engine** (`src/core/workflowEngine.ts`):
  - the path resolver: literals, `$.` references read the way `lodash.get` reads them, and one-level ternaries `$.c ? $.a : $.b`;
  - the binding of tool parameters against a built-in tool registry;
  - mapping of the output text;
  - the choice rules and their six comparison operators;
  - successor selection;
  - the traversal loop, with its ceiling of twice the number of steps.
- **The step manager** (`src/core/stepManager.ts`). This is the same executor, refactored:
  - it gets tool definitions from an injected tool executor;
  - it reports an empty tool result and a result without text as two different errors;
  - its resolver copy reads `$.` alone as null.
- **The tool executor** (`src/core/toolExecutor.ts`):
  - it converts each listed tool's input schema into parameter definitions;
  - it keeps them in a registry keyed by name, where `getTool` finds them.
- **The legacy engine** (`dist/core/workflowEngine.js`). This is an older compiled engine with different semantics:
  - steps carry structured `input` (direct literals and context bindings with `required` and defaults) and `output` (target and transform);
  - its resolver has no literals and no ternaries;
  - it compares loosely, the way JavaScript does;
  - rules whose target is missing are skipped;
  - its run has no step ceiling.

Each TypeScript operation that changes state is a method that takes a
`Context` and modifies it.
Each has a pure specification function: `InputFor`, `OutputEffect`,
`StepEffect`, `Route`, `Run` and their legacy counterparts. The method's
`ensures` ties it to that function, and the lemmas state what the source
promises about it.

The tool call is an abstract **gateway**: a function from plugin, tool and
input object to a response or a failure message. It stands for the MCP
connection. The same applies to a plugin's tool listing, which
`RegisterTool` takes as an argument.

JSON values are the datatype `Json`, with integer numbers. An absent
optional string field of a step or rule is written `""`. Every check the
source makes on these fields is a JavaScript truthiness test, under which
`undefined` and `""` behave alike. "Undefined" results are `None`. Writing
undefined into an object key is modelled as the key being absent,
which is what the object serialises to.

`prepareInput` rejects a required parameter that resolves to
null even when the parameter has a default; the default is used only for
optional parameters (src/core/workflowEngine.ts:165-169).

Files (one module each):

- `wrappers.dfy`, `json.dfy`, `types.dfy`: the data model.
- `text.dfy`: the string operations.
- `property.dfy`: JavaScript property access.
- `path_resolver.dfy`, `choice_evaluator.dfy`, `routing.dfy`, `input_mapper.dfy`: the parts shared by the engine and the step manager.
- `workflow_engine.dfy`, `engine_scenario.dfy`: the engine and its test workflow.
- `step_manager.dfy`, `tool_executor.dfy`: the step manager and the tool executor.
- `legacy_resolver.dfy`, `legacy_engine.dfy`: the legacy engine.

## Model

| member | source | states |
|---|---|---|
| Text.IncludesIsSubstring | src/core/workflowEngine.ts:283-287 | `includes` holds exactly when the needle starts at some position of the string |
| Text.SplitOnPartsClean | src/core/workflowEngine.ts:90 | no piece of a split contains a separator |
| Text.ParseIntOfPrefix | dist/core/workflowEngine.js:209-210 | `parseInt` of a decimal numeral followed by a non-digit, such as `3]`, is the numeral's value |
| Text.TrimOmits | src/core/workflowEngine.ts:90 | trimming introduces no character that the string lacked |
| JsProperty.Property | dist/core/workflowEngine.js:214 | `v[key]` on an object is the member or undefined; only objects, arrays and strings have properties |
| JsProperty.ElementAt | dist/core/workflowEngine.js:211 | an array indexed by an in-range number yields that element |
| JsProperty.NegativeIndexIsUndefined | dist/core/workflowEngine.js:211 | a negative index reads nothing from an array or a string |
| JsProperty.IndexKeyRoundTrip | dist/core/workflowEngine.js:211 | every canonical index key is the decimal numeral of its value, so number keys and string keys name the same elements |
| JsProperty.NumeralsAgree | dist/core/workflowEngine.js:211 | two canonical index keys with equal value are equal strings |
| PathResolver.Lookup | src/core/workflowEngine.ts:99-100 | a remainder that is itself a context key reads that key, as `lodash.get` does |
| PathResolver.Resolve | src/core/workflowEngine.ts:79-111 | only the empty path fails, with "Path cannot be empty"; a path without `$.` is its own string value |
| PathResolver.ResolvePlain | src/core/workflowEngine.ts:79-86 | the empty path fails; a non-reference path is returned as a literal string |
| PathResolver.TernaryPartsArePlain | src/core/workflowEngine.ts:89-96 | the ternary's parts hold no `?`, so they resolve as plain paths: ternaries do not nest |
| PathResolver.TernaryPartsUnmarked | src/core/workflowEngine.ts:90 | no trimmed part of a ternary holds a `?` |
| PathResolver.TrimAllOmits | src/core/workflowEngine.ts:90 | trimming every part adds no character to any part |
| PathResolver.ReferenceLookup | src/core/workflowEngine.ts:99-106 | a reference without `?` yields what the lookup finds, null when it finds nothing |
| PathResolver.MissingReferenceIsNull | src/core/workflowEngine.ts:102-110 | a reference that matches nothing resolves to null, never to an error |
| PathResolver.NestedReference | src/core/workflowEngine.ts:99-106 | `$.a.b` reads property `b` of member `a`, null when either is missing or `a` is null |
| PathResolver.MissingNestedReferenceIsNull | src/core/workflowEngine.ts:102-110 | `$.a.b` against a context without `a` is null |
| PathResolver.MemberReference | src/core/workflowEngine.ts:99-106 | `$.a` reads the context's member `a` |
| PathResolver.TernarySelects | src/core/workflowEngine.ts:89-97 | `a ? b : c` resolves the trimmed `b` when `a` resolves to true, the trimmed `c` when it resolves to false, and null when it is not a boolean |
| PathResolver.TrimmedSelects | src/core/workflowEngine.ts:89-97 | the ternary rule, stated for parts whose trims are known |
| PathResolver.SpacedTernary | src/core/workflowEngine.ts:89-97 | `$.p ? $.q : $.r`, as definitions write it, selects `$.q` or `$.r` by the boolean at `$.p` |
| PathResolver.SpacedParts | src/core/workflowEngine.ts:90 | the pieces of a spaced ternary and their trims are the three references |
| PathResolver.ReferencePadded | src/core/workflowEngine.ts:90 | a reference padded with spaces trims back to itself |
| PathResolver.TernaryOfPlainParts | src/core/workflowEngine.ts:91-96 | the condition part picks the branch; anything but a boolean gives null |
| PathResolver.TernaryPartsOf | src/core/workflowEngine.ts:90 | splitting `a?b:c` at the markers and trimming gives the three trimmed parts |
| PathResolver.VariantsAgree | src/core/stepManager.ts:26-68 | without a context key "", the step manager's resolver equals the engine's on every path |
| PathResolver.TernaryVariantsAgree | src/core/stepManager.ts:39-49 | the two ternary resolutions agree when the context has no key "" |
| PathResolver.PlainVariantsAgree | src/core/stepManager.ts:51-63 | the two plain resolutions agree when the context has no key "" |
| PathResolver.EmptyRemainder | src/core/stepManager.ts:51-54 | `$.` alone is null for the step manager and the key "" for the engine |
| ChoiceEvaluator.CompareValues | src/core/workflowEngine.ts:305-319 | an operator outside the six is false; `eq` is equality and `lt` is less-than, which with `CompareDuality` fixes the other four |
| ChoiceEvaluator.CompareDuality | src/core/workflowEngine.ts:305-319 | `gt` mirrors `lt`; `gte`, `lte` and `neq` complement `lt`, `gt` and `eq` |
| ChoiceEvaluator.CompareTrichotomy | src/core/workflowEngine.ts:305-319 | exactly one of `lt`, `eq`, `gt` holds |
| ChoiceEvaluator.EvaluateCondition | src/core/workflowEngine.ts:246-303 | an iff for each rule type (length compare, number compare, substring, equality, existence); a numeric rule with a missing or unknown operator and an unknown type are false |
| ChoiceEvaluator.MissingTypeIsFalse | src/core/stepManager.ts:227-318 | a rule without a type never holds |
| ChoiceEvaluator.NullSatisfiesNothing | src/core/workflowEngine.ts:262-302 | no rule holds of null |
| ChoiceEvaluator.EqualsImpliesContains | src/core/workflowEngine.ts:283-294 | a string-equals match is also a string-contains match |
| ChoiceEvaluator.LengthIsNumberCompare | src/core/workflowEngine.ts:263-282 | string-length on a string is number-compare on its length |
| Routing.FindStepById | src/core/workflowEngine.ts:321-326 | the found step is in the definition and has the id; none exactly when no step has it |
| Routing.FindStepByIdFirst | src/core/stepManager.ts:343-348 | with duplicate ids the earliest step wins |
| Routing.Route | src/core/workflowEngine.ts:202-244 | a chosen successor is a step of the definition |
| Routing.RouteNoneIff | src/core/workflowEngine.ts:202-244 | there is no successor exactly when no rule is complete, resolves to non-null, holds and has an existing target |
| Routing.RouteFirstMatch | src/core/workflowEngine.ts:212-232 | a successor is the target of a qualifying rule before which none qualifies |
| Routing.RouteTakesFirstQualifying | src/core/workflowEngine.ts:212-232 | the first qualifying rule decides the successor |
| Routing.EvaluateChoice | src/core/workflowEngine.ts:202-244 | the rule-scanning loop returns the route |
| Routing.NextStep | src/core/workflowEngine.ts:328-342 | a non-choice step without `next` has no successor; a successor is a step of the definition |
| Routing.FollowsNext | src/core/workflowEngine.ts:337-339 | a non-choice step goes to the step its `next` names |
| Routing.ChoiceIgnoresNext | src/core/workflowEngine.ts:333-335 | a choice step's successor does not depend on its `next` |
| Routing.GetNextStep | src/core/workflowEngine.ts:328-342 | the method returns `NextStep` |
| InputMapper.FindParameter | src/core/workflowEngine.ts:157-159 | the found parameter is in the list and has the name; none exactly when no parameter has it |
| InputMapper.BindOneCases | src/core/workflowEngine.ts:156-170 | the three error cases: unknown name, empty path, then required and null; otherwise the value, or the default when the value is null |
| InputMapper.Contributions | src/core/workflowEngine.ts:156-170 | one contribution per binding, in order |
| InputMapper.AssembleSucceedsIff | src/core/workflowEngine.ts:155-171 | building the object succeeds exactly when every contribution does |
| InputMapper.AssembleFailsAtFirst | src/core/workflowEngine.ts:155-171 | a failure is the first failing contribution's |
| InputMapper.AssembleResult | src/core/workflowEngine.ts:169 | the object holds exactly the names with defined values, under those values |
| InputMapper.AssemblePrefixFailure | src/core/workflowEngine.ts:155-171 | once a prefix fails, the whole build fails the same way |
| InputMapper.BindSucceedsIff | src/core/workflowEngine.ts:155-171 | binding succeeds exactly when every binding does, so unbound required parameters are never checked |
| InputMapper.BindFailsAtFirst | src/core/workflowEngine.ts:155-171 | the error is the first failing binding's |
| InputMapper.BindErrors | src/core/workflowEngine.ts:160-167 | binding fails only with unknown parameter, empty path or required parameter not found |
| InputMapper.BindResult | src/core/workflowEngine.ts:153-173 | the input object holds exactly the bound names whose value is defined |
| InputMapper.BindParameters | src/core/workflowEngine.ts:153-173 | the loop builds the object `Bind` describes |
| WorkflowEngine.InputFor | src/core/workflowEngine.ts:140-174 | "Tool name is required" exactly for an unnamed tool, "Tool definition not found" exactly for an unregistered one; no other kind of error |
| WorkflowEngine.PrepareInput | src/core/workflowEngine.ts:140-174 | the method returns `InputFor` |
| WorkflowEngine.RegisteredNullBindingFails | src/config/toolRegistry.ts:1-70 | every built-in parameter is required, so a known binding that resolves to null fails |
| WorkflowEngine.FirstText | src/core/workflowEngine.ts:194 | the first content entry's `text`; a TypeError without `content` |
| WorkflowEngine.OutputWritesOnlyItsKey | src/core/workflowEngine.ts:176-200 | processOutput writes the first text under `output` and changes no other key |
| WorkflowEngine.OutputStoresFirstText | src/core/workflowEngine.ts:194-199 | a reply whose first entry has text stores it under the flat key `output` |
| WorkflowEngine.OutputWithoutTextFails | src/core/workflowEngine.ts:195-197 | a first entry without text is the "returned no result" error |
| WorkflowEngine.ProcessOutput | src/core/workflowEngine.ts:176-200 | passes with the new context, or reports the error with the context unchanged |
| WorkflowEngine.StepEffect | src/core/workflowEngine.ts:113-138 | a step's own errors are never the run-level errors |
| WorkflowEngine.GatewayOnlyForTasks | src/core/workflowEngine.ts:120-127 | only tool-calling tasks consult the gateway |
| WorkflowEngine.GatewayCalledOnce | src/core/workflowEngine.ts:120-127 | a task depends on the gateway only through its one call, with the prepared input |
| WorkflowEngine.ChoiceUsesFirstRuleOnly | src/core/workflowEngine.ts:128-134 | a choice step's effect ignores all rules but the first |
| WorkflowEngine.ChoiceStoresVerdict | src/core/workflowEngine.ts:128-134 | a choice step stores the first rule's verdict under `output` |
| WorkflowEngine.InertStepKeepsContext | src/core/workflowEngine.ts:113-138 | a step that neither calls a tool nor holds rules leaves the context as it is |
| WorkflowEngine.StepWritesOnlyOutput | src/core/workflowEngine.ts:113-138 | a step writes at most its `output` key |
| WorkflowEngine.ExecuteStep | src/core/workflowEngine.ts:113-138 | the in-place step applies `StepEffect` |
| WorkflowEngine.ExecuteWorkflow | src/core/workflowEngine.ts:344-380 | the loop ends with the outcome, context and step trace of `Run` |
| WorkflowEngine.TraceBound | src/core/workflowEngine.ts:350-361 | from step `count`, at most the remaining allowed steps start |
| WorkflowEngine.RunBound | src/core/workflowEngine.ts:351-361 | a run starts at most twice as many steps as the definition has |
| WorkflowEngine.LimitMeansExhausted | src/core/workflowEngine.ts:358-361 | "Maximum step execution count exceeded" is raised only after every allowed step has started |
| WorkflowEngine.RunContinues | src/core/workflowEngine.ts:364-376 | a successful non-end step with a successor hands the updated context to it |
| WorkflowEngine.RunEnds | src/core/workflowEngine.ts:366-369 | a successful end step closes the run with a pass |
| WorkflowEngine.RunMissingSuccessor | src/core/workflowEngine.ts:371-374 | a successful non-end step without a successor fails the run with "Next step not found", keeping that step's writes |
| WorkflowEngine.RunStepFails | src/core/workflowEngine.ts:364 | a failing step ends the run with its own error and the context as it was before it |
| WorkflowEngine.StartNotFoundIff | src/core/workflowEngine.ts:349-355 | no step starts exactly when the start step is missing, and that is the only error then |
| WorkflowEngine.PassEndsAtEndStep | src/core/workflowEngine.ts:366-369 | a run passes only at a step marked `end`, the last it starts |
| WorkflowEngine.EndIgnoresNext | src/core/workflowEngine.ts:366-369 | an end step stops the run whatever its `next` says |
| WorkflowEngine.CycleHitsCeiling | src/core/workflowEngine.ts:351-361 | a cycle of pass-through steps is stopped by the ceiling, after exactly the allowed number of steps, with the context untouched |
| WorkflowEngine.PassThroughStep | src/core/workflowEngine.ts:364-376 | a pass-through step changes nothing and hands over to `next` |
| EngineScenario.InputResolves | src/__tests__/workflow.test.ts:14-17 | `$.input.text` and `$.input.prefix` read the run's input |
| EngineScenario.GreetingInput | src/__tests__/workflow.test.ts:10-21 | the greeting step binds `text` and `prefix` |
| EngineScenario.GreetingStep | plugins/addPrefix.mjs:16-23 | the greeting step stores prefix then text under `greeting` |
| EngineScenario.StepsFound | src/__tests__/workflow.test.ts:9-66 | every step is found under its id |
| EngineScenario.RulesSplitAtFifteen | src/__tests__/workflow.test.ts:22-42 | the two rules split greetings at 15 characters |
| EngineScenario.CheckStep | src/__tests__/workflow.test.ts:22-42 | the check stores whether the greeting is longer than 15 under `isLongText` |
| EngineScenario.RulesQualify | src/__tests__/workflow.test.ts:22-42 | the long rule qualifies exactly above 15 characters, the short rule at 15 or fewer |
| EngineScenario.CheckRoutes | src/__tests__/workflow.test.ts:22-42 | the check goes to `to-upper` above 15 characters and to `add-emphasis` otherwise |
| EngineScenario.EmphasisStep | src/__tests__/workflow.test.ts:43-54 | the emphasis step stores `! ` before the greeting |
| EngineScenario.SelectorResolves | src/__tests__/workflow.test.ts:55-65 | the last step's ternary picks the greeting for long text, the emphasized text otherwise |
| EngineScenario.UpperStep | plugins/toUpperCase.mjs:13-20 | the last step stores the upper-cased selection under `final` |
| EngineScenario.TextRun | src/__tests__/workflow.test.ts:70-247 | a whole run produces the expected context and step sequence for every prefix and text |
| EngineScenario.BoundaryRows | src/__tests__/workflow.test.ts:145-180 | 15 characters are emphasized, 16 are not |
| StepManager.ManagerInputFor | src/core/stepManager.ts:114-150 | "Tool name is required" exactly for an unnamed tool; the executor's "not found" exactly for an unregistered one |
| StepManager.InputAgreesWithEngine | src/core/stepManager.ts:114-150 | with the engine's registry, the step manager prepares the engine's input; only the unregistered-tool error differs |
| StepManager.BindVariantsAgree | src/core/stepManager.ts:129-147 | binding does not depend on the resolver copy when the context has no key "" |
| StepManager.ContentText | src/core/stepManager.ts:165-176 | "empty result" exactly when `content` is not a non-empty array; the text found is the first entry's; a TypeError exactly for a null reply, which `executeTool` already rejects in the source (see "## Left out") |
| StepManager.ManagerOutputWritesOnlyItsKey | src/core/stepManager.ts:152-179 | processOutput writes the text under `output` and changes no other key |
| StepManager.OutputAgreesWithEngine | src/core/stepManager.ts:173-178 | the same text as the engine is stored; a missing text is "no text content" where the engine says "no result" |
| StepManager.EmptyContentIsEmptyResult | src/core/stepManager.ts:165-171 | an empty or missing `content` is "empty result"; the engine reports "no result" and a TypeError |
| StepManager.ManagerStepEffect | src/core/stepManager.ts:70-112 | a step's own errors are never the run-level errors |
| StepManager.ManagerStepWritesOnlyOutput | src/core/stepManager.ts:70-112 | a step writes at most its `output` key |
| StepManager.NonTaskAgreesWithEngine | src/core/stepManager.ts:97-108 | steps that call no tool behave as in the engine when the context has no key "" |
| StepManager.ManagerChoiceStoresVerdict | src/core/stepManager.ts:97-108 | a choice step stores its first rule's verdict and ignores the others |
| StepManager.StepManager.constructor | src/core/stepManager.ts:17-19 | the manager holds the executor it is given |
| StepManager.StepManager.PrepareInput | src/core/stepManager.ts:114-150 | the method returns `ManagerInputFor` over the executor's registry |
| StepManager.StepManager.ProcessOutput | src/core/stepManager.ts:152-179 | applies `ManagerOutputEffect` to the context |
| StepManager.StepManager.ExecuteStep | src/core/stepManager.ts:70-112 | applies `ManagerStepEffect` to the context |
| StepManager.StepManager.EvaluateChoice | src/core/stepManager.ts:181-225 | the scan returns the route over the step manager's resolver, a step of the definition |
| StepManager.StepManager.GetNextStep | src/core/stepManager.ts:350-364 | the method returns `NextStep`; a non-choice step without `next` has none |
| ToolExecutor.SchemaParameters | src/core/toolExecutor.ts:69-95 | one parameter per property, in order, none without properties; name, type, description and default copied; required exactly when listed in `required` |
| ToolExecutor.NoRequiredListAllOptional | src/core/toolExecutor.ts:88 | without a `required` list every parameter is optional |
| ToolExecutor.SchemaParameterNames | src/core/toolExecutor.ts:84-86 | the parameter names are the property names, in order |
| ToolExecutor.ConvertInputSchemaToParameters | src/core/toolExecutor.ts:69-95 | the push loop returns `SchemaParameters` |
| ToolExecutor.RegisteredKeys | src/core/toolExecutor.ts:55-61 | after registration the names are the earlier ones plus the listed ones |
| ToolExecutor.RegisteredLastWins | src/core/toolExecutor.ts:55-61 | a listed tool with no later namesake is found under its name with its definition |
| ToolExecutor.RegisteredNamed | src/core/toolExecutor.ts:55-61 | every listed name maps to a definition carrying that name |
| ToolExecutor.LastWithName | src/core/toolExecutor.ts:55-61 | every listed name has a last tool listed under it |
| ToolExecutor.RegisteredKeepsOthers | src/core/toolExecutor.ts:55-61 | names not listed keep their earlier definitions, or stay absent |
| ToolExecutor.ToolExecutor.constructor | src/core/toolExecutor.ts:27 | the registry starts empty |
| ToolExecutor.ToolExecutor.RegisterTool | src/core/toolExecutor.ts:52-67 | a failed listing raises its error with the registry untouched; otherwise every listed tool is set under its name, in order |
| ToolExecutor.ToolExecutor.GetTool | src/core/toolExecutor.ts:97-103 | the registered definition exactly when the name is registered, otherwise "Tool not found" |
| ToolExecutor.GetToolAfterRegister | src/core/toolExecutor.ts:52-103 | after registration getTool finds the last listed definition of each name and reports unknown names |
| LegacyResolver.Segment | dist/core/workflowEngine.js:208-215 | a segment without `[` reads one property |
| LegacyResolver.Resolve | dist/core/workflowEngine.js:192-218 | an empty path and a path without `$.` are undefined |
| LegacyResolver.ResolveContextPath | dist/core/workflowEngine.js:192-218 | the loop over the segments returns `Resolve` |
| LegacyResolver.ProcessOutput | dist/core/workflowEngine.js:171-191 | without a transform the result is returned unchanged |
| LegacyResolver.TransformIsStrictWalk | dist/core/workflowEngine.js:173-182 | where the transform succeeds it finds the resolver's value; it fails, with a TypeError, only where the resolver's walk is undefined |
| LegacyResolver.TransformFailsWhereWalkStops | dist/core/workflowEngine.js:174-181 | a transform through a missing or null member is a TypeError |
| LegacyResolver.AgreesWithLookup | dist/core/workflowEngine.js:201-217 | on paths without `[`, whose remainder is not itself a key, the legacy resolver reads what the TypeScript engine's lookup reads |
| LegacyResolver.PlainKeyPath | dist/core/workflowEngine.js:201 | segments without `[` are their own keys |
| LegacyResolver.WalkAgrees | dist/core/workflowEngine.js:203-216 | the legacy walk and the lookup walk agree on segments without `[` |
| LegacyResolver.IndexedMember | dist/core/workflowEngine.js:208-212 | `$.key[N]` reads element N of the array `key` |
| LegacyResolver.IndexedSegmentReads | dist/core/workflowEngine.js:208-212 | `key[N]` reads `key` and then index N, undefined through a missing or null `key` |
| LegacyResolver.NullMemberIsUndefined | dist/core/workflowEngine.js:204-207 | a null member makes the rest of the path undefined |
| LegacyWorkflow.Store | dist/core/workflowEngine.js:163-166 | writing a value sets the key, writing undefined leaves no entry, other keys are kept |
| LegacyWorkflow.DefaultValue | dist/core/workflowEngine.js:166 | a string default is resolved as a path; a missing or falsy default is undefined; any other default fails with a TypeError |
| LegacyWorkflow.BindingValue | dist/core/workflowEngine.js:159-166 | the path's value when defined; "Required input not found" when required and undefined; otherwise the default |
| LegacyWorkflow.InputFor | dist/core/workflowEngine.js:150-170 | no input gives `{}`; the `direct` entries are kept when there are no bindings |
| LegacyWorkflow.ContextInputsFailsAtFirst | dist/core/workflowEngine.js:157-168 | the bindings fail exactly when one does, with the first failure's error |
| LegacyWorkflow.ContextInputsKeepsOthers | dist/core/workflowEngine.js:154-168 | a key no binding names keeps its `direct` entry |
| LegacyWorkflow.ContextInputsLastWins | dist/core/workflowEngine.js:158-167 | a key's last binding decides its entry |
| LegacyWorkflow.LiteralDefaultIsDropped | dist/core/workflowEngine.js:166 | a default that is not a `$.` path gives no entry |
| LegacyWorkflow.PrepareInput | dist/core/workflowEngine.js:150-170 | the loop returns `InputFor` |
| LegacyWorkflow.LooseNumber | dist/core/workflowEngine.js:134-141 | undefined is NaN, a number is itself, null and false are 0 |
| LegacyWorkflow.LooseCompare | dist/core/workflowEngine.js:132-149 | `eq`/`neq` are strict equality and inequality with the number; the relational operators compare with the converted value and are false against NaN; others are false |
| LegacyWorkflow.LooseCompareOnNumbers | dist/core/workflowEngine.js:132-149 | against a number the loose comparison is the TypeScript one |
| LegacyWorkflow.NumeralStringCompares | dist/core/workflowEngine.js:134-141 | a numeral string compares by its value |
| LegacyWorkflow.MissingValueCompares | dist/core/workflowEngine.js:132-149 | without a value only `neq` holds |
| LegacyWorkflow.Condition | dist/core/workflowEngine.js:95-131 | an iff for each rule type; an unknown type is false |
| LegacyWorkflow.ConditionAgrees | dist/core/workflowEngine.js:95-131 | on a defined field, with a number as a numeric rule's value, the legacy condition is the TypeScript one |
| LegacyWorkflow.NeqWithoutValueHolds | dist/core/workflowEngine.js:103-108 | with no operator validation, `neq` with no value holds for every number where the TypeScript engine rejects it |
| LegacyWorkflow.FindStep | dist/core/workflowEngine.js:49-51 | the found step has the id; none exactly when no step has it |
| LegacyWorkflow.FindStepFirst | dist/core/workflowEngine.js:49-51 | with repeated ids, `steps.find` returns the earliest step that has the id |
| LegacyWorkflow.Route | dist/core/workflowEngine.js:73-94 | a chosen successor is a step of the definition |
| LegacyWorkflow.RouteNoneIff | dist/core/workflowEngine.js:73-94 | no successor exactly when no rule holds with an existing target |
| LegacyWorkflow.RouteTakesFirstQualifying | dist/core/workflowEngine.js:76-92 | the first rule that holds with an existing target decides; a missing target is skipped |
| LegacyWorkflow.NextStep | dist/core/workflowEngine.js:52-60 | a choice step routes by its rules; any other follows `next`, none without it |
| LegacyWorkflow.StepEffect | dist/core/workflowEngine.js:61-72 | a step that is not a task with plugin and tool changes nothing; nor does a step without `output`; a step fails only with a missing required input, a TypeError or the tool call's failure, never with a run-level error |
| LegacyWorkflow.StepWritesOnlyTarget | dist/core/workflowEngine.js:67-69 | a step writes at most its output target |
| LegacyWorkflow.StepStoresResponse | dist/core/workflowEngine.js:65-68 | without a transform the raw tool response is stored |
| LegacyWorkflow.StepTransformFails | dist/core/workflowEngine.js:171-182 | a transform through undefined or null fails the step with a TypeError |
| LegacyWorkflow.FuelMonotone | dist/core/workflowEngine.js:34-46 | a run that finished within some bound finishes the same way with a larger one |
| LegacyWorkflow.RunFromNeverStartError | dist/core/workflowEngine.js:34-46 | no iteration of the loop raises the start-step error |
| LegacyWorkflow.LegacyStartNotFound | dist/core/workflowEngine.js:28-33 | an unknown `startAt` fails with "Start step not found" before any step starts; a run with fuel starts no step, or ends with that error, exactly when `startAt` is unknown |
| LegacyWorkflow.RunningSpendsFuel | dist/core/workflowEngine.js:34-46 | a run still going has started one step per iteration allowed |
| LegacyWorkflow.CompletedAtEndStep | dist/core/workflowEngine.js:37-40 | a run completes only at a step marked `end`, the last it starts |
| LegacyWorkflow.SelfLoopNeverEnds | dist/core/workflowEngine.js:34-46 | a step that only names itself as `next` runs for as long as allowed, with the context untouched; there is no ceiling |
| LegacyWorkflow.EndStepCompletes | dist/core/workflowEngine.js:37-40 | a successful end step completes the run whatever its `next` |
| LegacyWorkflow.NonChoiceStepFollowsNext | dist/core/workflowEngine.js:41-45 | a successful non-end, non-choice step continues at the step its `next` names, and fails the run with "Next step not found" when `next` is missing or names no step |
| LegacyWorkflow.StepFailureStops | dist/core/workflowEngine.js:36 | a failing step ends the run with its own error and the context as it was before it |
| LegacyWorkflow.ChoiceStepRoutes | dist/core/workflowEngine.js:36-45 | a choice step keeps the context and continues at its route, failing when there is none |
| LegacyWorkflow.WorkflowEngine.constructor | dist/core/workflowEngine.js:12 | no workflow is set when the engine is created |
| LegacyWorkflow.WorkflowEngine.FindStepById | dist/core/workflowEngine.js:49-51 | nothing before a workflow is set; otherwise a found step has the id, and none exactly when no step has it; `FindStepByIdFirst` states which step wins |
| LegacyWorkflow.WorkflowEngine.FindStepByIdFirst | dist/core/workflowEngine.js:49-51 | with repeated ids the definition's earliest step with the id is returned |
| LegacyWorkflow.WorkflowEngine.EvaluateChoice | dist/core/workflowEngine.js:73-94 | the scan returns the route, skipping rules with missing targets |
| LegacyWorkflow.WorkflowEngine.GetNextStep | dist/core/workflowEngine.js:52-60 | the method returns `NextStep` |
| LegacyWorkflow.WorkflowEngine.ExecuteStep | dist/core/workflowEngine.js:61-72 | applies `StepEffect` to the context |
| LegacyWorkflow.WorkflowEngine.ExecuteWorkflow | dist/core/workflowEngine.js:28-48 | the engine keeps the definition and the loop ends as `RunWorkflow` says |

## Left out

- The gateway's `Success` stands for a truthy tool reply. The TypeScript `executeTool` throws "returned no result" on a falsy reply before `processOutput` runs (src/core/workflowEngine.ts:60-62, src/core/toolExecutor.ts:181-183). The model leaves that check to the gateway, so the null-reply TypeError branches of `FirstText` and `ContentText` stand for replies the source turns away earlier.
- The MCP transport is left out: `executeTool`, `createClient`, `listTools`, `loadPlugin` and the stdio subprocesses. Tool calls go through the gateway parameter, and `RegisterTool` takes the listing, or its failure message, as an argument.
- `ToolExecutor.initialize` and `StepManager.create` are left out: they read the server configuration file and register each configured plugin in turn, which is I/O.
- `lodash.get` is a foreign library. The lookup follows its key-then-path reading for `.` segments, and for segments that end in one bracketed canonical index (`key[N]`, or `[N]` alone). Any other bracket form is not read the way lodash reads it; the model takes the segment between dots as one literal key. These forms include:
  - non-numeric brackets such as `a[b]` and `a[]`;
  - negative, leading-zero and fractional indices such as `[-1]`, `[01]` and `[1.5]`;
  - chained, repeated or trailing brackets such as `a[0][1]`, `a[[0]` and `a[0]b`;
  - a stray `]` such as `a]b.c`;
  - quoted keys such as `a["b"]`. A quoted key containing a dot, such as `a["b.c"]`, is also split at that dot.
- The ternary split uses one `?` and one `:`. Further pieces of a path with more markers are ignored, as destructuring ignores them in the source.
- The legacy `processOutput` `filter` is left out: it compiles text with `new Function`.
- Logging, `console` output and `async`/`await` are left out; the log lines are modelled only as the trace of started step ids.
- Numbers are integers: JavaScript's floating point, NaN inputs and string lengths in UTF-16 code units are not modelled.
- Property reads see only own members, array elements, string characters and `length`; prototype members such as `toString` are not modelled.
- LegacyWorkflow.LooseNumber: converts only decimal numerals, with an optional `-`, and blank strings. Hexadecimal, exponent, fractional and `Infinity` strings are treated as NaN, and so are arrays and objects, which JavaScript converts through their string form.
- Legacy `parseInt` reads leading white space, an optional sign and the decimal digits that follow. Its hexadecimal reading of a `0x` prefix is not modelled.
- Step parameters and bindings are strings; non-string parameter values written in a definition are not modelled.
- The legacy output always has a target. An `output` without `target` writes the key "undefined" in the source.
- Object key order is the order of the sequences given. JavaScript's ordering of integer-like keys first in `Object.entries` is not modelled.
- A tool listing without a `tools` array and a tool without an `inputSchema` (both TypeErrors in the source) are not modelled.
- LegacyWorkflow.WorkflowEngine.ExecuteWorkflow: runs at most `fuel` iterations of the loop and then reports `Running`. The source loop has no bound and may not terminate; `SelfLoopNeverEnds` states that for every bound.
- A missing `next`, `id`, `field`, `operator` or rule type is written `""`. A rule without `next` therefore finds a step without `id` in the legacy engine, as `undefined === undefined` does in the source.
- The paths of the test workflow are written as concatenations of their parts, such as `"$." + "greeting"`; they are the same strings.
- The source files `src/types/types.ts` and `src/config/toolRegistry.ts` hold no behaviour. They supply only the datatype shapes and the constant registry.
- EngineScenario.AsciiUpper: the test run's plugins go through `StubGateway`. `add_prefix` is concatenation, and `to_upper` is ASCII-only upper-casing. So `TextRun`, `UpperStep` and the other run lemmas hold for every text only under that stub. The plugin's `toUpperCase` also maps characters such as `é` to `É` and `ß` to `SS`, which the stub does not.
- `src/index.ts` and `dist/index.js` are demo drivers and are not part of this model.
