/** Validating a tool input: the schema first, then the budget, then the match. */
module ToolInput {
  import opened Prelude
  import opened CanonicalJson
  import PlainJson
  import opened InputBudget
  import opened ToolSchema
  import SchemaProblems

  datatype InputError = UnsupportedSchema | OverBudget(budget: BudgetError) | Mismatch(problem: Problem)

  /**
   * An input is accepted exactly when the schema is supported and the input is a tree of JSON
   * values within the budget that conforms to the schema.
   */
  method ValidateDevAppToolInput(numeral: Numeral, schema: Json, h: Heap,
                                 root: Value) returns (error: Option<InputError>)
    requires InputBudget.WellFormed(h, root) && IsSane(h, root) && IsJson(schema)
    ensures error.None?
            <==> ValidateSchemaNode(numeral, schema, 0, true)
                 && exists t :: IsTreeWithinBudget(h, root, t) && Conforms(numeral, schema, t)
    ensures error == Some(UnsupportedSchema) <==> !ValidateSchemaNode(numeral, schema, 0, true)
    ensures ValidateSchemaNode(numeral, schema, 0, true)
            ==> (error.Some? && error.value.OverBudget? <==> forall t :: !IsTreeWithinBudget(h, root, t))
    ensures error.Some? && error.value.Mismatch?
            ==> exists t :: && IsTreeWithinBudget(h, root, t)
                            && var Problem(path, reason) := error.value.problem;
                               SchemaProblems.Explains(numeral, schema, t, path, reason)
  {
    hide ValidateSchemaNode, IsTreeWithinBudget, Conforms, MatchSchema, IsSchema, InputBudget.WellFormed, IsSane,
         IsJson, Unfold, SchemaProblems.Explains;
    if !ValidateSchemaNode(numeral, schema, 0, true) {
      return Some(UnsupportedSchema);
    }
    TopIsSchema(numeral, schema, 0, true);
    var budget := InputBudgetError(h, root);
    if budget.Some? {
      return Some(OverBudget(budget.value));
    }
    ghost var t :| IsTreeWithinBudget(h, root, t);
    TreeIsUnfolded(h, root, t);
    forall u | IsTreeWithinBudget(h, root, u)
      ensures u == t
    {
      TreeIsUnfolded(h, root, u);
    }
    var input := Unfold(h, root, MAX_INPUT_DEPTH).value;
    PlainJson.JsonHasTokens(schema);
    PlainJson.JsonHasTokens(input);
    var problem := MatchSchema(numeral, schema, input, []);
    MatchDecides(numeral, schema, input, []);
    SchemaProblems.MatchIsReal(numeral, schema, input, []);
    assert problem.Some? ==> problem.value.path[0..] == problem.value.path;
    return if problem.Some? then Some(Mismatch(problem.value)) else None;
  }

  lemma TreeIsUnfolded(h: Heap, root: Value, t: Json)
    requires IsTreeWithinBudget(h, root, t) && IsSane(h, root)
    ensures Unfold(h, root, MAX_INPUT_DEPTH) == Some(t) && IsJson(t)
  {
    UnfoldFinds(h, root, t, MAX_INPUT_DEPTH);
    DenotesJson(h, root, t);
  }
}
