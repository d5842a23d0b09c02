/**
 * The recipe entities shared by the forms, the validator and the views
 * (src/types/recipe.ts), and the two list operations both form hooks use.
 */
module RecipeTypes {
  import opened Wrappers

  /** The `ingredients` join a row read back from the database carries. */
  datatype IngredientInfo = IngredientInfo(name: string, category: string)

  /**
   * One ingredient line of a recipe. `rowId`, `recipeId` and `info` are the
   * optional members that only rows read from the database fill in.
   */
  datatype Ingredient = Ingredient(
    rowId: Option<string>,
    recipeId: Option<string>,
    ingredientId: string,
    quantity: real,
    unit: string,
    info: Option<IngredientInfo>)

  /** One step of a recipe; `rowId` and `recipeId` as for `Ingredient`. */
  datatype Step = Step(rowId: Option<string>, recipeId: Option<string>, stepNumber: int, description: string)

  /** A recipe as read back from the database, with its joined children. */
  datatype Recipe = Recipe(
    id: string,
    userId: string,
    title: string,
    description: string,
    imageUrl: string,
    cookingTime: int,
    servings: int,
    createdAt: string,
    updatedAt: string,
    isPublic: bool,
    recipeIngredients: seq<Ingredient>,
    recipeSteps: seq<Step>)

  /** What the creation and edit forms hold. */
  datatype RecipeFormData = RecipeFormData(title: string, ingredients: seq<Ingredient>, steps: seq<Step>, isPublic: bool)

  /** An ingredient line as a form holds it: only the three edited members. */
  function FormIngredient(ingredientId: string, quantity: real, unit: string): Ingredient {
    Ingredient(None, None, ingredientId, quantity, unit, None)
  }

  /** A step as a form holds it. */
  function FormStep(stepNumber: int, description: string): Step {
    Step(None, None, stepNumber, description)
  }

  /** The `{ ingredient_id: '', quantity: 0, unit: '' }` row both forms add. */
  const BlankIngredient: Ingredient := FormIngredient("", 0.0, "")

  /** `initialFormData`: no title, one blank ingredient, one empty step numbered 1, private. */
  const InitialFormData: RecipeFormData := RecipeFormData("", [BlankIngredient], [FormStep(1, "")], false)

  /** The `field` and `value` of `handleIngredientChange(index, field, value)`, for the three edited members. */
  datatype IngredientField = IngredientIdField(id: string) | QuantityField(quantity: real) | UnitField(unit: string)

  /** `{ ...ing, [field]: value }`: the named member replaced, every other member kept. */
  function SetField(ing: Ingredient, field: IngredientField): (r: Ingredient)
    ensures r.rowId == ing.rowId && r.recipeId == ing.recipeId && r.info == ing.info
    ensures r.ingredientId == (if field.IngredientIdField? then field.id else ing.ingredientId)
    ensures r.quantity == (if field.QuantityField? then field.quantity else ing.quantity)
    ensures r.unit == (if field.UnitField? then field.unit else ing.unit)
  {
    match field
    case IngredientIdField(id) => ing.(ingredientId := id)
    case QuantityField(q) => ing.(quantity := q)
    case UnitField(u) => ing.(unit := u)
  }

  /** What both form hooks keep: steps numbered 1..N and neither list empty. */
  predicate WellFormed(f: RecipeFormData) {
    Numbered(f.steps) && |f.ingredients| >= 1 && |f.steps| >= 1
  }

  /** Steps numbered exactly 1..N in list order. */
  predicate Numbered(steps: seq<Step>) {
    forall i :: 0 <= i < |steps| ==> steps[i].stepNumber == i + 1
  }

  /** `list.filter((_, i) => i !== index)`: the element at `index`, if there is one, is dropped. */
  function RemoveAt<T>(s: seq<T>, index: int): (r: seq<T>)
    ensures !(0 <= index < |s|) ==> r == s
    ensures 0 <= index < |s| ==> |r| == |s| - 1
    ensures forall j :: 0 <= j < |r| ==> r[j] == s[if 0 <= index <= j then j + 1 else j]
  {
    if 0 <= index < |s| then s[..index] + s[index + 1..] else s
  }

  /** `steps.map((step, i) => ({ ...step, step_number: i + 1 }))`. */
  function Renumber(steps: seq<Step>): (r: seq<Step>)
    ensures |r| == |steps| && Numbered(r)
    ensures forall i :: 0 <= i < |r| ==> r[i].description == steps[i].description
    ensures forall i :: 0 <= i < |r| ==> r[i].(stepNumber := 0) == steps[i].(stepNumber := 0)
  {
    seq(|steps|, i requires 0 <= i < |steps| => steps[i].(stepNumber := i + 1))
  }

  /** Renumbering a list that is already numbered 1..N changes nothing. */
  lemma RenumberNumbered(steps: seq<Step>)
    requires Numbered(steps)
    ensures Renumber(steps) == steps
  {
  }
}
