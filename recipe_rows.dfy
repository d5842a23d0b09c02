/**
 * How the services turn the form's ingredient lines and steps into child rows
 * of a recipe: `{ recipe_id, ingredient_id, quantity, unit }` and
 * `{ recipe_id, step_number, description }`, every other member dropped.
 */
module RecipeRows {
  import opened RecipeTypes
  import opened Backend

  function IngredientRow(id: RecipeId, ing: Ingredient): Row<IngredientLine> {
    Row(id, IngredientLine(ing.ingredientId, ing.quantity, ing.unit))
  }

  function StepRow(id: RecipeId, step: Step): Row<StepLine> {
    Row(id, StepLine(step.stepNumber, step.description))
  }

  /** Every ingredient line as a row of `id`, in order and without a filter. */
  function IngredientRowsOf(id: RecipeId, ings: seq<Ingredient>): (r: seq<Row<IngredientLine>>)
    ensures |r| == |ings|
    ensures forall i :: 0 <= i < |r| ==> r[i] == IngredientRow(id, ings[i])
  {
    seq(|ings|, i requires 0 <= i < |ings| => IngredientRow(id, ings[i]))
  }

  /** Every step as a row of `id`, in order and without a filter. */
  function StepRowsOf(id: RecipeId, steps: seq<Step>): (r: seq<Row<StepLine>>)
    ensures |r| == |steps|
    ensures forall i :: 0 <= i < |r| ==> r[i] == StepRow(id, steps[i])
  {
    seq(|steps|, i requires 0 <= i < |steps| => StepRow(id, steps[i]))
  }
}
