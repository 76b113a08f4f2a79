/** The choice-rule predicate of the TypeScript engine and step manager, and
    the comparison it uses. The two copies agree: the step manager's early
    "type is missing" check returns false, as the engine's default case does
    for the empty type. */
module ChoiceEvaluator {
  import opened Wrappers
  import opened JsonModel
  import opened Text
  import opened Types

  const Operators: set<string> := {"gt", "gte", "lt", "lte", "eq", "neq"}

  const StringLength := "string-length"
  const NumberCompare := "number-compare"
  const StringContains := "string-contains"
  const StringEquals := "string-equals"
  const ValueExists := "value-exists"

  /** compareValues: `a op b` for the six operators, false for any other. */
  function CompareValues(a: int, b: int, op: string): (r: bool)
    ensures op !in Operators ==> !r
    ensures op == "eq" ==> (r <==> a == b)
    ensures op == "lt" ==> (r <==> a < b)
  {
    match op
    case "gt" => a > b
    case "gte" => a >= b
    case "lt" => a < b
    case "lte" => a <= b
    case "eq" => a == b
    case "neq" => a != b
    case _ => false
  }

  /** The operators come in mirror pairs, and `gte`, `lte` and `neq` are the
      complements of `lt`, `gt` and `eq`. */
  lemma CompareDuality(a: int, b: int)
    ensures CompareValues(a, b, "gt") == CompareValues(b, a, "lt")
    ensures CompareValues(a, b, "gte") == CompareValues(b, a, "lte")
    ensures CompareValues(a, b, "gte") == !CompareValues(a, b, "lt")
    ensures CompareValues(a, b, "lte") == !CompareValues(a, b, "gt")
    ensures CompareValues(a, b, "neq") == !CompareValues(a, b, "eq")
    ensures CompareValues(a, b, "eq") == CompareValues(b, a, "eq")
  {
  }

  /** Exactly one of `lt`, `eq` and `gt` holds. */
  lemma CompareTrichotomy(a: int, b: int)
    ensures CompareValues(a, b, "lt") || CompareValues(a, b, "eq") || CompareValues(a, b, "gt")
    ensures !(CompareValues(a, b, "lt") && CompareValues(a, b, "gt"))
    ensures !(CompareValues(a, b, "eq") && CompareValues(a, b, "gt"))
    ensures !(CompareValues(a, b, "lt") && CompareValues(a, b, "eq"))
  {
  }

  /** The numeric rule types need a known operator. */
  predicate NeedsOperator(ruleType: string) {
    ruleType == StringLength || ruleType == NumberCompare
  }

  /** evaluateChoiceCondition: whether `fieldValue` satisfies `rule`. */
  function EvaluateCondition(rule: ChoiceRule, fieldValue: Json): (r: bool)
    ensures NeedsOperator(rule.ruleType) && rule.operator !in Operators ==> !r
    ensures rule.ruleType == ValueExists ==> (r <==> fieldValue != JNull)
    ensures rule.ruleType == StringLength ==>
      (r <==> fieldValue.JStr? && rule.value.Some? && rule.value.value.JNum?
              && CompareValues(|fieldValue.s|, rule.value.value.n, rule.operator))
    ensures rule.ruleType == NumberCompare ==>
      (r <==> fieldValue.JNum? && rule.value.Some? && rule.value.value.JNum?
              && CompareValues(fieldValue.n, rule.value.value.n, rule.operator))
    ensures rule.ruleType == StringContains ==>
      (r <==> fieldValue.JStr? && rule.value.Some? && rule.value.value.JStr?
              && exists i :: 0 <= i <= |fieldValue.s| && StartsWith(fieldValue.s[i..], rule.value.value.s))
    ensures rule.ruleType == StringEquals ==>
      (r <==> fieldValue.JStr? && rule.value == Some(fieldValue))
    ensures rule.ruleType !in {StringLength, NumberCompare, StringContains, StringEquals, ValueExists} ==> !r
  {
    if rule.ruleType == "" then false
    else if NeedsOperator(rule.ruleType) && (rule.operator == "" || rule.operator !in Operators) then false
    else
      match rule.ruleType
      case "string-length" =>
        fieldValue.JStr? && rule.value.Some? && rule.value.value.JNum?
        && CompareValues(|fieldValue.s|, rule.value.value.n, rule.operator)
      case "number-compare" =>
        fieldValue.JNum? && rule.value.Some? && rule.value.value.JNum?
        && CompareValues(fieldValue.n, rule.value.value.n, rule.operator)
      case "string-contains" =>
        if fieldValue.JStr? && rule.value.Some? && rule.value.value.JStr? then
          IncludesIsSubstring(fieldValue.s, rule.value.value.s);
          Includes(fieldValue.s, rule.value.value.s)
        else false
      case "string-equals" =>
        fieldValue.JStr? && rule.value.Some? && rule.value.value.JStr? && fieldValue.s == rule.value.value.s
      case "value-exists" => fieldValue != JNull
      case _ => false
  }

  /** A rule without a type is never satisfied. */
  lemma MissingTypeIsFalse(rule: ChoiceRule, fieldValue: Json)
    requires rule.ruleType == ""
    ensures !EvaluateCondition(rule, fieldValue)
  {
  }

  /** Null satisfies no rule: every typed rule needs a string or a number,
      and value-exists needs a value. */
  lemma NullSatisfiesNothing(rule: ChoiceRule)
    ensures !EvaluateCondition(rule, JNull)
  {
  }

  /** A string-equals rule that holds makes its field a string-contains match
      of the same value too. */
  lemma EqualsImpliesContains(rule: ChoiceRule, fieldValue: Json)
    requires rule.ruleType == StringEquals && EvaluateCondition(rule, fieldValue)
    ensures EvaluateCondition(rule.(ruleType := StringContains), fieldValue)
  {
    assert fieldValue.s[0..] == fieldValue.s;
  }

  /** A string-length rule on a string is the number-compare rule on its length. */
  lemma LengthIsNumberCompare(rule: ChoiceRule, s: string)
    requires rule.ruleType == StringLength
    ensures EvaluateCondition(rule, JStr(s)) == EvaluateCondition(rule.(ruleType := NumberCompare), JNum(|s|))
  {
  }
}
