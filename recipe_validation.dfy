/**
 * `RecipeValidator.validateForm` (src/utils/recipeValidation.ts): an ordered
 * validator that looks at the title, then at every ingredient line in list
 * order, then at every step, and reports the first problem it meets.
 */
module RecipeValidation {
  import opened Wrappers
  import opened Strings
  import opened RecipeTypes

  datatype ValidationResult = ValidationResult(isValid: bool, errorMessage: Option<string>)

  const TitleMessage := "Veuillez saisir un titre pour votre recette."
  const IngredientMessage := "Veuillez sélectionner tous les ingrédients."
  const QuantityMessage := "Les quantités doivent être supérieures à zéro."
  const UnitMessage := "Veuillez spécifier une unité pour chaque ingrédient."
  const StepMessage := "Veuillez remplir toutes les étapes."

  /** An ingredient line the validator accepts. */
  predicate IngredientComplete(ing: Ingredient) {
    ing.ingredientId != "" && ing.quantity > 0.0 && !IsBlank(ing.unit)
  }

  /** The message for one ingredient line: missing id, then quantity, then unit. */
  function IngredientError(ing: Ingredient): (r: Option<string>)
    ensures r == None <==> IngredientComplete(ing)
    ensures ing.ingredientId == "" ==> r == Some(IngredientMessage)
    ensures ing.ingredientId != "" && ing.quantity <= 0.0 ==> r == Some(QuantityMessage)
    ensures ing.ingredientId != "" && ing.quantity > 0.0 && IsBlank(ing.unit) ==> r == Some(UnitMessage)
  {
    if ing.ingredientId == "" then Some(IngredientMessage)
    else if ing.quantity <= 0.0 then Some(QuantityMessage)
    else if IsBlank(ing.unit) then Some(UnitMessage)
    else None
  }

  /** The loop over the ingredient lines with its early returns. */
  function FirstIngredientError(ings: seq<Ingredient>): (r: Option<string>)
    ensures r == None <==> forall i :: 0 <= i < |ings| ==> IngredientComplete(ings[i])
  {
    if ings == [] then None
    else if IngredientError(ings[0]).Some? then IngredientError(ings[0])
    else FirstIngredientError(ings[1..])
  }

  /** The loop over the steps. */
  function FirstStepError(steps: seq<Step>): (r: Option<string>)
    ensures r == None <==> forall i :: 0 <= i < |steps| ==> !IsBlank(steps[i].description)
    ensures r != None ==> r == Some(StepMessage)
  {
    if steps == [] then None
    else if IsBlank(steps[0].description) then Some(StepMessage)
    else FirstStepError(steps[1..])
  }

  /** A form `validateForm` accepts: every check, stated per element. */
  predicate FormComplete(f: RecipeFormData) {
    && !IsBlank(f.title)
    && (forall i :: 0 <= i < |f.ingredients| ==> IngredientComplete(f.ingredients[i]))
    && (forall i :: 0 <= i < |f.steps| ==> !IsBlank(f.steps[i].description))
  }

  /** `RecipeValidator.validateForm`. */
  function ValidateForm(f: RecipeFormData): (r: ValidationResult)
    ensures r.isValid <==> FormComplete(f)
    ensures r.isValid <==> r.errorMessage == None
    ensures IsBlank(f.title) ==> r == ValidationResult(false, Some(TitleMessage))
  {
    if IsBlank(f.title) then ValidationResult(false, Some(TitleMessage))
    else if FirstIngredientError(f.ingredients).Some? then ValidationResult(false, FirstIngredientError(f.ingredients))
    else if FirstStepError(f.steps).Some? then ValidationResult(false, FirstStepError(f.steps))
    else ValidationResult(true, None)
  }

  /**
   * The ingredient lines are checked in list order: when line `k` is the first
   * that fails, its own first failing check decides the message, whatever the
   * later lines and the steps hold.
   */
  lemma {:induction false} FirstFailingIngredientDecides(ings: seq<Ingredient>, k: nat)
    requires k < |ings|
    requires forall j :: 0 <= j < k ==> IngredientComplete(ings[j])
    requires !IngredientComplete(ings[k])
    ensures FirstIngredientError(ings) == IngredientError(ings[k])
  {
    if k > 0 {
      FirstFailingIngredientDecides(ings[1..], k - 1);
    }
  }

  /** With a title, the first failing ingredient line decides the result, before any step is looked at. */
  lemma IngredientsBeforeSteps(f: RecipeFormData, k: nat)
    requires !IsBlank(f.title)
    requires k < |f.ingredients|
    requires forall j :: 0 <= j < k ==> IngredientComplete(f.ingredients[j])
    requires !IngredientComplete(f.ingredients[k])
    ensures ValidateForm(f) == ValidationResult(false, IngredientError(f.ingredients[k]))
  {
    FirstFailingIngredientDecides(f.ingredients, k);
  }

  /** With a title and complete ingredient lines, any blank step gives the step message. */
  lemma BlankStepRejected(f: RecipeFormData, k: nat)
    requires !IsBlank(f.title)
    requires forall j :: 0 <= j < |f.ingredients| ==> IngredientComplete(f.ingredients[j])
    requires k < |f.steps| && IsBlank(f.steps[k].description)
    ensures ValidateForm(f) == ValidationResult(false, Some(StepMessage))
  {
  }

  /** Empty ingredient and step lists pass: a titled form with no lines is valid. */
  lemma EmptyListsPass(title: string, isPublic: bool)
    requires !IsBlank(title)
    ensures ValidateForm(RecipeFormData(title, [], [], isPublic)) == ValidationResult(true, None)
  {
  }
}
