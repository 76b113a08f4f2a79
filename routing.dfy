/** Step lookup and successor selection of the TypeScript engine and step
    manager: findStepById, the first-match scan of evaluateChoice, and
    getNextStep. The two copies differ only in the resolver they use. */
module Routing {
  import opened Wrappers
  import opened JsonModel
  import opened Types
  import opened PathResolver
  import opened ChoiceEvaluator

  /** findStepById: the first step, in sequence order, with the given id. */
  function FindStepById(steps: seq<Step>, id: string): (r: Option<Step>)
    ensures r.Some? ==> r.value in steps && r.value.id == id
    ensures r.None? <==> forall i :: 0 <= i < |steps| ==> steps[i].id != id
  {
    if |steps| == 0 then None
    else if steps[0].id == id then Some(steps[0])
    else FindStepById(steps[1..], id)
  }

  /** With duplicate ids the earliest step wins. */
  lemma {:induction false} FindStepByIdFirst(steps: seq<Step>, id: string, i: nat)
    requires i < |steps| && steps[i].id == id
    requires forall j :: 0 <= j < i ==> steps[j].id != id
    ensures FindStepById(steps, id) == Some(steps[i])
  {
    if i > 0 {
      FindStepByIdFirst(steps[1..], id, i - 1);
    }
  }

  /** A rule the scan accepts: it has a field and a target, the field resolves
      to a non-null value that satisfies the rule, and the target step exists.
      Rules failing any of these are skipped. */
  predicate Qualifies(variant: Variant, steps: seq<Step>, rule: ChoiceRule, ctx: Object) {
    && rule.field != ""
    && rule.next != ""
    && (var fieldValue := OrNull(Resolve(variant, rule.field, ctx));
        fieldValue != JNull && EvaluateCondition(rule, fieldValue))
    && FindStepById(steps, rule.next).Some?
  }

  /** The successor the rule scan picks: the target of the first qualifying rule. */
  function Route(variant: Variant, steps: seq<Step>, rules: seq<ChoiceRule>, ctx: Object): (r: Option<Step>)
    ensures r.Some? ==> r.value in steps
  {
    if |rules| == 0 then None
    else if Qualifies(variant, steps, rules[0], ctx) then FindStepById(steps, rules[0].next)
    else Route(variant, steps, rules[1..], ctx)
  }

  /** No successor exactly when no rule qualifies. */
  lemma {:induction false} RouteNoneIff(variant: Variant, steps: seq<Step>, rules: seq<ChoiceRule>, ctx: Object)
    ensures Route(variant, steps, rules, ctx).None? <==>
      forall i :: 0 <= i < |rules| ==> !Qualifies(variant, steps, rules[i], ctx)
  {
    if |rules| > 0 {
      RouteNoneIff(variant, steps, rules[1..], ctx);
      if Qualifies(variant, steps, rules[0], ctx) {
      } else {
        assert forall i :: 1 <= i < |rules| ==> rules[i] == rules[1..][i - 1];
      }
    }
  }

  /** A successor is the target of a qualifying rule before which none qualifies. */
  lemma {:induction false} RouteFirstMatch(variant: Variant, steps: seq<Step>, rules: seq<ChoiceRule>, ctx: Object)
    requires Route(variant, steps, rules, ctx).Some?
    ensures exists i :: (0 <= i < |rules| && Qualifies(variant, steps, rules[i], ctx)
      && (forall j :: 0 <= j < i ==> !Qualifies(variant, steps, rules[j], ctx))
      && Route(variant, steps, rules, ctx) == FindStepById(steps, rules[i].next))
  {
    if !Qualifies(variant, steps, rules[0], ctx) {
      RouteFirstMatch(variant, steps, rules[1..], ctx);
      var i :| 0 <= i < |rules[1..]| && Qualifies(variant, steps, rules[1..][i], ctx)
        && (forall j :: 0 <= j < i ==> !Qualifies(variant, steps, rules[1..][j], ctx))
        && Route(variant, steps, rules[1..], ctx) == FindStepById(steps, rules[1..][i].next);
      assert forall j :: 0 <= j < i + 1 ==> !Qualifies(variant, steps, rules[j], ctx) by {
        forall j | 0 <= j < i + 1 ensures !Qualifies(variant, steps, rules[j], ctx) {
          if j > 0 { assert rules[j] == rules[1..][j - 1]; }
        }
      }
      assert rules[i + 1] == rules[1..][i];
    }
  }

  /** Conversely, the first qualifying rule decides the successor. */
  lemma {:induction false} RouteTakesFirstQualifying(variant: Variant, steps: seq<Step>, rules: seq<ChoiceRule>, ctx: Object, i: nat)
    requires i < |rules| && Qualifies(variant, steps, rules[i], ctx)
    requires forall j :: 0 <= j < i ==> !Qualifies(variant, steps, rules[j], ctx)
    ensures Route(variant, steps, rules, ctx) == FindStepById(steps, rules[i].next)
    ensures Route(variant, steps, rules, ctx).Some?
  {
    if i > 0 {
      assert forall j :: 0 <= j < i - 1 ==> rules[1..][j] == rules[j + 1];
      RouteTakesFirstQualifying(variant, steps, rules[1..], ctx, i - 1);
    }
  }

  /** evaluateChoice: the rule scan, skipping invalid rules, null fields and
      targets that cannot be found. */
  method EvaluateChoice(variant: Variant, steps: seq<Step>, step: Step, ctx: Context) returns (target: Option<Step>)
    ensures target == Route(variant, steps, step.choices, ctx.entries)
  {
    if |step.choices| == 0 {
      return None;
    }
    var i := 0;
    while i < |step.choices|
      invariant 0 <= i <= |step.choices|
      invariant Route(variant, steps, step.choices, ctx.entries) == Route(variant, steps, step.choices[i..], ctx.entries)
    {
      var choice := step.choices[i];
      assert step.choices[i..][1..] == step.choices[i + 1..];
      if choice.field == "" || choice.next == "" {
        i := i + 1;
        continue;
      }
      var fieldValue := OrNull(Resolve(variant, choice.field, ctx.entries));
      if fieldValue == JNull {
        i := i + 1;
        continue;
      }
      if EvaluateCondition(choice, fieldValue) {
        var found := FindStepById(steps, choice.next);
        if found.Some? {
          return found;
        }
      }
      i := i + 1;
    }
    return None;
  }

  /** getNextStep: choice steps route by their rules; other steps follow
      `next`, and have no successor without one. */
  function NextStep(variant: Variant, steps: seq<Step>, current: Step, ctx: Object): (r: Option<Step>)
    ensures current.kind != Choice && current.next == "" ==> r == None
    ensures r.Some? ==> r.value in steps
  {
    if current.kind == Choice then Route(variant, steps, current.choices, ctx)
    else if current.next != "" then FindStepById(steps, current.next)
    else None
  }

  /** A step that is not a choice reaches the step its `next` names, and
      nothing when no step has that id; its rules are never consulted. */
  lemma FollowsNext(variant: Variant, steps: seq<Step>, current: Step, ctx: Object)
    requires current.kind != Choice && current.next != ""
    ensures NextStep(variant, steps, current, ctx) == FindStepById(steps, current.next)
    ensures NextStep(variant, steps, current, ctx).Some? ==> NextStep(variant, steps, current, ctx).value.id == current.next
  {
  }

  /** A choice step's successor ignores its `next`. */
  lemma ChoiceIgnoresNext(variant: Variant, steps: seq<Step>, current: Step, ctx: Object, other: string)
    requires current.kind == Choice
    ensures NextStep(variant, steps, current, ctx) == NextStep(variant, steps, current.(next := other), ctx)
  {
  }

  method GetNextStep(variant: Variant, steps: seq<Step>, current: Step, ctx: Context) returns (r: Option<Step>)
    ensures r == NextStep(variant, steps, current, ctx.entries)
  {
    if current.kind == Choice {
      r := EvaluateChoice(variant, steps, current, ctx);
      return;
    }
    if current.next != "" {
      return FindStepById(steps, current.next);
    }
    return None;
  }
}
