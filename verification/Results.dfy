/** The outcome of executing one rule, with the outcomes of its children. */
module Results {
  import opened Common
  import opened Text

  datatype RuleResult = RuleResult(
    ruleName: string,
    ruleId: int,
    success: bool,
    skipped: bool,
    exception: Option<string>,
    childResults: seq<RuleResult>)
  {
    predicate IsSuccess()
    {
      success && exception.None? && !skipped
    }

    predicate IsFullySuccessful()
    {
      IsSuccess() && forall c :: c in childResults ==> c.IsFullySuccessful()
    }
  }

  /** The context key of a rule's result: its name, or "#" and the id for an unnamed rule. */
  function KeyOf(name: string, id: int): string
  {
    if name == "" then "#" + Decimal(id) else name
  }
}
