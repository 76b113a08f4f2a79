/** The text-processing workflow of the engine's test suite, run end to end
    against a gateway that stands in for the two tool servers: `add_prefix`
    concatenates, `to_upper` upper-cases the ASCII letters. */
module EngineScenario {
  import opened Wrappers
  import opened JsonModel
  import opened Text
  import opened Types
  import opened PathResolver
  import opened ChoiceEvaluator
  import opened Routing
  import opened InputMapper
  import opened WorkflowEngine

  const AddGreeting := Step("add-greeting", Task, "add_prefix", "add_prefix",
    [("text", "$." + "input" + "." + "text"), ("prefix", "$." + "input" + "." + "prefix")], "greeting", [], "check-length", false)
  const LongRule := ChoiceRule("string-length", "$." + "greeting", Some(JNum(15)), "gt", "to-upper")
  const ShortRule := ChoiceRule("string-length", "$." + "greeting", Some(JNum(15)), "lte", "add-emphasis")
  const CheckLength := Step("check-length", Choice, "", "", [], "isLongText", [LongRule, ShortRule], "", false)
  const AddEmphasis := Step("add-emphasis", Task, "add_prefix", "add_prefix",
    [("text", "$." + "greeting"), ("prefix", "! ")], "emphasized", [], "to-upper", false)
  /** The selector of the last step, `$.isLongText ? $.greeting : $.emphasized`,
      written as the concatenation of its references. */
  const Selector := "$." + "isLongText" + " ? $." + "greeting" + " : $." + "emphasized"
  const ToUpper := Step("to-upper", Task, "to_upper", "to_upper", [("text", Selector)], "final", [], "", true)

  const TextWorkflow := Definition("text-processing-workflow", "1.0.0", "Text Processing Workflow",
    "Demonstrates text processing, conditional logic, and branching", "add-greeting",
    [AddGreeting, CheckLength, AddEmphasis, ToUpper])

  /** A tool server's reply carrying one text entry. */
  function Reply(text: string): Json {
    JObj(map[ContentKey := JArr([JObj(map["type" := JStr("text"), TextKey := JStr(text)])])])
  }

  function AsciiUpper(s: string): (r: string)
    ensures |r| == |s|
  {
    seq(|s|, i requires 0 <= i < |s| => if 'a' <= s[i] <= 'z' then (s[i] as int - 32) as char else s[i])
  }

  /** The two tool servers of the example, behind the gateway. */
  function StubGateway(plugin: string, tool: string, input: Object): Result<Json, string> {
    if tool == "add_prefix" && "text" in input && "prefix" in input && input["text"].JStr? && input["prefix"].JStr? then
      Success(Reply(input["prefix"].s + input["text"].s))
    else if tool == "to_upper" && "text" in input && input["text"].JStr? then
      Success(Reply(AsciiUpper(input["text"].s)))
    else Failure("unsupported call")
  }

  function InitialContext(text: string, prefix: string): Object {
    map["input" := JObj(map["text" := JStr(text), "prefix" := JStr(prefix)])]
  }

  // ---------------------------------------------------------------------
  // One lemma per step.

  lemma InputResolves(text: string, prefix: string)
    ensures Resolve(EngineVariant, "$." + "input" + "." + "text", InitialContext(text, prefix)) == Success(JStr(text))
    ensures Resolve(EngineVariant, "$." + "input" + "." + "prefix", InitialContext(text, prefix)) == Success(JStr(prefix))
  {
    var ctx := InitialContext(text, prefix);
    NestedReference(EngineVariant, "input", "text", ctx);
    NestedReference(EngineVariant, "input", "prefix", ctx);
  }

  /** Binding two known, resolved string parameters. */
  lemma BindTwo(variant: Variant, params: seq<ToolParameter>, n1: string, p1: string, n2: string, p2: string, ctx: Object, v1: Json, v2: Json)
    requires FindParameter(params, n1).Some? && FindParameter(params, n2).Some?
    requires Resolve(variant, p1, ctx) == Success(v1) && v1 != JNull
    requires Resolve(variant, p2, ctx) == Success(v2) && v2 != JNull
    ensures Bind(variant, params, [(n1, p1), (n2, p2)], ctx) == Success(map[n1 := v1][n2 := v2])
  {
    var cs := Contributions(variant, params, [(n1, p1), (n2, p2)], ctx);
    assert cs[0] == (n1, Success(Some(v1)));
    assert cs[1] == (n2, Success(Some(v2)));
    assert cs[..1][..0] == [];
    assert Assemble(cs[..1]) == Success(map[n1 := v1]);
    assert cs[..2][..1] == cs[..1];
    assert cs[..2] == cs;
  }

  lemma BindOneParameter(variant: Variant, params: seq<ToolParameter>, n1: string, p1: string, ctx: Object, v1: Json)
    requires FindParameter(params, n1).Some?
    requires Resolve(variant, p1, ctx) == Success(v1) && v1 != JNull
    ensures Bind(variant, params, [(n1, p1)], ctx) == Success(map[n1 := v1])
  {
    var cs := Contributions(variant, params, [(n1, p1)], ctx);
    assert cs[0] == (n1, Success(Some(v1)));
    assert cs[..0] == [];
    assert Assemble(cs[..0]) == Success(map[]);
    assert Assemble(cs) == Success(map[n1 := v1]);
  }

  lemma GreetingInput(text: string, prefix: string)
    ensures InputFor(AddGreeting, InitialContext(text, prefix))
      == Success(map["text" := JStr(text), "prefix" := JStr(prefix)])
  {
    InputResolves(text, prefix);
    BindTwo(EngineVariant, AddPrefixTool.parameters, "text", "$." + "input" + "." + "text", "prefix", "$." + "input" + "." + "prefix",
      InitialContext(text, prefix), JStr(text), JStr(prefix));
  }

  lemma GreetingStep(text: string, prefix: string)
    ensures StepEffect(StubGateway, AddGreeting, InitialContext(text, prefix))
      == Success(InitialContext(text, prefix)["greeting" := JStr(prefix + text)])
  {
    GreetingInput(text, prefix);
    var input := map["text" := JStr(text), "prefix" := JStr(prefix)];
    assert StubGateway("add_prefix", "add_prefix", input) == Success(Reply(prefix + text));
  }

  lemma GreetingResolves(entries: Object, greeting: string)
    requires "greeting" in entries && entries["greeting"] == JStr(greeting)
    ensures Resolve(EngineVariant, "$." + "greeting", entries) == Success(JStr(greeting))
  {
    MemberReference(EngineVariant, "greeting", entries);
  }

  /** Every step of the workflow is found under its own id. */
  lemma StepsFound()
    ensures FindStepById(TextWorkflow.steps, "add-greeting") == Some(AddGreeting)
    ensures FindStepById(TextWorkflow.steps, "check-length") == Some(CheckLength)
    ensures FindStepById(TextWorkflow.steps, "add-emphasis") == Some(AddEmphasis)
    ensures FindStepById(TextWorkflow.steps, "to-upper") == Some(ToUpper)
  {
    FindStepByIdFirst(TextWorkflow.steps, "add-greeting", 0);
    FindStepByIdFirst(TextWorkflow.steps, "check-length", 1);
    FindStepByIdFirst(TextWorkflow.steps, "add-emphasis", 2);
    FindStepByIdFirst(TextWorkflow.steps, "to-upper", 3);
  }

  /** The two rules split the greetings at 15 characters. */
  lemma RulesSplitAtFifteen(greeting: string)
    ensures EvaluateCondition(LongRule, JStr(greeting)) <==> |greeting| > 15
    ensures EvaluateCondition(ShortRule, JStr(greeting)) <==> |greeting| <= 15
  {
  }

  lemma CheckStep(entries: Object, greeting: string)
    requires "greeting" in entries && entries["greeting"] == JStr(greeting)
    ensures StepEffect(StubGateway, CheckLength, entries) == Success(entries["isLongText" := JBool(|greeting| > 15)])
  {
    GreetingResolves(entries, greeting);
    RulesSplitAtFifteen(greeting);
  }

  lemma RulesQualify(entries: Object, greeting: string)
    requires "greeting" in entries && entries["greeting"] == JStr(greeting)
    ensures Qualifies(EngineVariant, TextWorkflow.steps, LongRule, entries) <==> |greeting| > 15
    ensures Qualifies(EngineVariant, TextWorkflow.steps, ShortRule, entries) <==> |greeting| <= 15
  {
    GreetingResolves(entries, greeting);
    RulesSplitAtFifteen(greeting);
    StepsFound();
  }

  /** The check routes a greeting longer than 15 characters to `to-upper`
      and any other to `add-emphasis`. */
  lemma CheckRoutes(entries: Object, greeting: string)
    requires "greeting" in entries && entries["greeting"] == JStr(greeting)
    ensures NextStep(EngineVariant, TextWorkflow.steps, CheckLength, entries)
      == Some(if |greeting| > 15 then ToUpper else AddEmphasis)
  {
    RulesQualify(entries, greeting);
    StepsFound();
    var steps := TextWorkflow.steps;
    assert CheckLength.choices[1..] == [ShortRule];
    assert Route(EngineVariant, steps, [ShortRule], entries) ==
      if |greeting| <= 15 then Some(AddEmphasis) else Route(EngineVariant, steps, [], entries);
  }

  lemma EmphasisInput(entries: Object, greeting: string)
    requires "greeting" in entries && entries["greeting"] == JStr(greeting)
    ensures InputFor(AddEmphasis, entries) == Success(map["text" := JStr(greeting), "prefix" := JStr("! ")])
  {
    GreetingResolves(entries, greeting);
    BindTwo(EngineVariant, AddPrefixTool.parameters, "text", "$." + "greeting", "prefix", "! ", entries, JStr(greeting), JStr("! "));
  }

  lemma EmphasisStep(entries: Object, greeting: string)
    requires "greeting" in entries && entries["greeting"] == JStr(greeting)
    ensures StepEffect(StubGateway, AddEmphasis, entries) == Success(entries["emphasized" := JStr("! " + greeting)])
  {
    EmphasisInput(entries, greeting);
    var input := map["text" := JStr(greeting), "prefix" := JStr("! ")];
    assert StubGateway("add_prefix", "add_prefix", input) == Success(Reply("! " + greeting));
  }

  /** The ternary of the last step picks the greeting for long text and the
      emphasized greeting otherwise. */
  lemma SelectorResolves(entries: Object, long: bool, selected: string)
    requires "isLongText" in entries && entries["isLongText"] == JBool(long)
    requires var key := if long then "greeting" else "emphasized";
      key in entries && entries[key] == JStr(selected)
    ensures Resolve(EngineVariant, Selector, entries) == Success(JStr(selected))
  {
    SpacedTernary(EngineVariant, "isLongText", "greeting", "emphasized", entries);
    MemberReference(EngineVariant, "isLongText", entries);
    if long {
      MemberReference(EngineVariant, "greeting", entries);
    } else {
      MemberReference(EngineVariant, "emphasized", entries);
    }
  }

  lemma UpperStep(entries: Object, long: bool, selected: string)
    requires "isLongText" in entries && entries["isLongText"] == JBool(long)
    requires var key := if long then "greeting" else "emphasized";
      key in entries && entries[key] == JStr(selected)
    ensures StepEffect(StubGateway, ToUpper, entries) == Success(entries["final" := JStr(AsciiUpper(selected))])
  {
    SelectorResolves(entries, long, selected);
    BindOneParameter(EngineVariant, ToUpperTool.parameters, "text", Selector, entries, JStr(selected));
    var input := map["text" := JStr(selected)];
    assert InputFor(ToUpper, entries) == Success(input);
    assert StubGateway("to_upper", "to_upper", input) == Success(Reply(AsciiUpper(selected)));
  }

  // ---------------------------------------------------------------------
  // Whole runs.

  /** From the last step: it upper-cases the selected text and ends the run. */
  lemma UpperRun(entries: Object, long: bool, selected: string, count: nat)
    requires "isLongText" in entries && entries["isLongText"] == JBool(long)
    requires var key := if long then "greeting" else "emphasized";
      key in entries && entries[key] == JStr(selected)
    requires count < MaxSteps(TextWorkflow)
    ensures RunFrom(TextWorkflow, StubGateway, ToUpper, entries, count)
      == RunResult(Pass, entries["final" := JStr(AsciiUpper(selected))], ["to-upper"])
  {
    UpperStep(entries, long, selected);
    RunEnds(TextWorkflow, StubGateway, ToUpper, entries, count, entries["final" := JStr(AsciiUpper(selected))]);
  }

  /** From the emphasis step, third in a run. */
  lemma EmphasisRun(entries: Object, greeting: string)
    requires "greeting" in entries && entries["greeting"] == JStr(greeting)
    requires "isLongText" in entries && entries["isLongText"] == JBool(false)
    ensures var emphasized := entries["emphasized" := JStr("! " + greeting)];
      RunFrom(TextWorkflow, StubGateway, AddEmphasis, entries, 2)
        == RunResult(Pass, emphasized["final" := JStr(AsciiUpper("! " + greeting))], ["add-emphasis", "to-upper"])
  {
    var emphasized := entries["emphasized" := JStr("! " + greeting)];
    EmphasisStep(entries, greeting);
    StepsFound();
    FollowsNext(EngineVariant, TextWorkflow.steps, AddEmphasis, emphasized);
    RunContinues(TextWorkflow, StubGateway, AddEmphasis, entries, 2, emphasized, ToUpper);
    UpperRun(emphasized, false, "! " + greeting, 3);
  }

  /** From the check, second in a run: the verdict is stored and the branch taken. */
  lemma CheckRun(entries: Object, greeting: string)
    requires "greeting" in entries && entries["greeting"] == JStr(greeting)
    ensures var checked := entries["isLongText" := JBool(|greeting| > 15)];
      RunFrom(TextWorkflow, StubGateway, CheckLength, entries, 1) ==
        if |greeting| > 15 then
          RunResult(Pass, checked["final" := JStr(AsciiUpper(greeting))], ["check-length", "to-upper"])
        else
          var emphasized := checked["emphasized" := JStr("! " + greeting)];
          RunResult(Pass, emphasized["final" := JStr(AsciiUpper("! " + greeting))],
            ["check-length", "add-emphasis", "to-upper"])
  {
    var checked := entries["isLongText" := JBool(|greeting| > 15)];
    CheckStep(entries, greeting);
    CheckRoutes(checked, greeting);
    if |greeting| > 15 {
      RunContinues(TextWorkflow, StubGateway, CheckLength, entries, 1, checked, ToUpper);
      UpperRun(checked, true, greeting, 2);
    } else {
      RunContinues(TextWorkflow, StubGateway, CheckLength, entries, 1, checked, AddEmphasis);
      EmphasisRun(checked, greeting);
    }
  }

  /** A whole run: the greeting is built, checked and, when it is at most 15
      characters long, emphasized, before it is upper-cased. */
  lemma TextRun(text: string, prefix: string)
    ensures var greeting := prefix + text;
      var checked := InitialContext(text, prefix)["greeting" := JStr(greeting)]["isLongText" := JBool(|greeting| > 15)];
      Run(TextWorkflow, StubGateway, InitialContext(text, prefix)) ==
        if |greeting| > 15 then
          RunResult(Pass, checked["final" := JStr(AsciiUpper(greeting))], ["add-greeting", "check-length", "to-upper"])
        else
          var emphasized := checked["emphasized" := JStr("! " + greeting)];
          RunResult(Pass, emphasized["final" := JStr(AsciiUpper("! " + greeting))],
            ["add-greeting", "check-length", "add-emphasis", "to-upper"])
  {
    GreetingRun(text, prefix);
    CheckRun(InitialContext(text, prefix)["greeting" := JStr(prefix + text)], prefix + text);
  }

  /** A run starts with the greeting and hands the greeted context to the check. */
  lemma GreetingRun(text: string, prefix: string)
    ensures Run(TextWorkflow, StubGateway, InitialContext(text, prefix)) ==
      RunFrom(TextWorkflow, StubGateway, CheckLength, InitialContext(text, prefix)["greeting" := JStr(prefix + text)], 1)
        .AfterSteps(["add-greeting"])
  {
    var greeted := InitialContext(text, prefix)["greeting" := JStr(prefix + text)];
    GreetingStep(text, prefix);
    StepsFound();
    FollowsNext(EngineVariant, TextWorkflow.steps, AddGreeting, greeted);
    RunContinues(TextWorkflow, StubGateway, AddGreeting, InitialContext(text, prefix), 0, greeted, CheckLength);
  }

  /** The boundary rows of the table: "A" + 14 digits is 15 characters and is
      emphasized; "AB" + 14 digits is 16 and is not. */
  lemma BoundaryRows()
    ensures Run(TextWorkflow, StubGateway, InitialContext("12345678901234", "A")).trace
      == ["add-greeting", "check-length", "add-emphasis", "to-upper"]
    ensures Run(TextWorkflow, StubGateway, InitialContext("12345678901234", "AB")).trace
      == ["add-greeting", "check-length", "to-upper"]
  {
    TextRun("12345678901234", "A");
    TextRun("12345678901234", "AB");
  }
}
