/**
 * The submit gate and the close guards of the recipe edit modal
 * (src/components/RecipeEditModal/RecipeEditModal.tsx). The gate runs its own
 * checks rather than `validateForm`, and they differ on the unit: here it is
 * checked for emptiness without trimming.
 */
module RecipeEditModal {
  import opened Wrappers
  import opened Strings
  import opened RecipeTypes
  import RecipeValidation

  const TitleAlert := "Le titre de la recette est requis"
  const IngredientsAlert := "Tous les ingrédients doivent être complètement renseignés"
  const StepsAlert := "Toutes les étapes doivent avoir une description"

  /** What `handleSubmit` does: raise one alert, or call `onSubmit` once with the form data. */
  datatype SubmitOutcome = Alert(message: string) | Submit(data: RecipeFormData)

  /** The per-line test of the gate: `!ing.ingredient_id || !ing.unit || ing.quantity <= 0`. */
  predicate IngredientIncomplete(ing: Ingredient) {
    ing.ingredientId == "" || ing.unit == "" || ing.quantity <= 0.0
  }

  /** `formData.ingredients.some(...)`. */
  predicate SomeIngredientIncomplete(ings: seq<Ingredient>) {
    exists i :: 0 <= i < |ings| && IngredientIncomplete(ings[i])
  }

  /** `formData.steps.some(step => !step.description.trim())`. */
  predicate SomeStepBlank(steps: seq<Step>) {
    exists i :: 0 <= i < |steps| && IsBlank(steps[i].description)
  }

  /** `handleSubmit`: title, then ingredient lines, then steps; `onSubmit` only when all pass. */
  function HandleSubmit(f: RecipeFormData): (r: SubmitOutcome)
    ensures r.Submit? <==> !IsBlank(f.title) && !SomeIngredientIncomplete(f.ingredients) && !SomeStepBlank(f.steps)
    ensures r.Submit? ==> r.data == f
    ensures IsBlank(f.title) ==> r == Alert(TitleAlert)
    ensures !IsBlank(f.title) && SomeIngredientIncomplete(f.ingredients) ==> r == Alert(IngredientsAlert)
    ensures !IsBlank(f.title) && !SomeIngredientIncomplete(f.ingredients) && SomeStepBlank(f.steps) ==> r == Alert(StepsAlert)
    ensures r.Alert? ==> r.message in {TitleAlert, IngredientsAlert, StepsAlert}
  {
    if IsBlank(f.title) then Alert(TitleAlert)
    else if SomeIngredientIncomplete(f.ingredients) then Alert(IngredientsAlert)
    else if SomeStepBlank(f.steps) then Alert(StepsAlert)
    else Submit(f)
  }

  /** Every form `validateForm` accepts also passes the modal's gate. */
  lemma ValidFormPassesGate(f: RecipeFormData)
    requires RecipeValidation.ValidateForm(f).isValid
    ensures HandleSubmit(f) == Submit(f)
  {
    forall i | 0 <= i < |f.ingredients| ensures !IngredientIncomplete(f.ingredients[i]) {
      assert RecipeValidation.IngredientComplete(f.ingredients[i]);
      assert IsBlank("");
    }
  }

  /** The converse holds once every unit is non-blank: then the two checks agree. */
  lemma GateAgreesWhenUnitsNotBlank(f: RecipeFormData)
    requires forall i :: 0 <= i < |f.ingredients| ==> !IsBlank(f.ingredients[i].unit)
    ensures HandleSubmit(f).Submit? <==> RecipeValidation.ValidateForm(f).isValid
  {
    if HandleSubmit(f).Submit? {
      forall i | 0 <= i < |f.ingredients| ensures RecipeValidation.IngredientComplete(f.ingredients[i]) {
        assert !IngredientIncomplete(f.ingredients[i]);
      }
    }
    if RecipeValidation.ValidateForm(f).isValid {
      ValidFormPassesGate(f);
    }
  }

  /** A whitespace-only unit passes the modal's gate although `validateForm` rejects it. */
  lemma WhitespaceUnitPassesOnlyTheGate()
    ensures var f := RecipeFormData("Soupe", [FormIngredient("X", 2.0, " ")], [FormStep(1, "Bouillir")], false);
      HandleSubmit(f) == Submit(f)
      && RecipeValidation.ValidateForm(f) == RecipeValidation.ValidationResult(false, Some(RecipeValidation.UnitMessage))
  {
    var ing := FormIngredient("X", 2.0, " ");
    var f := RecipeFormData("Soupe", [ing], [FormStep(1, "Bouillir")], false);
    assert !IsWhitespace("Soupe"[0]);
    assert !IsWhitespace("Bouillir"[0]);
    assert IsBlank(ing.unit);
    assert !IngredientIncomplete(ing);
    assert !SomeIngredientIncomplete(f.ingredients);
    assert !SomeStepBlank(f.steps);
    assert RecipeValidation.IngredientError(ing) == Some(RecipeValidation.UnitMessage);
    assert RecipeValidation.FirstIngredientError(f.ingredients) == Some(RecipeValidation.UnitMessage);
  }

  /** `handleEscape`: the Escape key closes an open modal unless a submission is running. */
  predicate ClosesOnKey(key: string, isOpen: bool, isSubmitting: bool) {
    key == "Escape" && isOpen && !isSubmitting
  }

  /** `handleBackdropClick`: a click on the overlay itself closes the modal unless a submission is running. */
  predicate ClosesOnBackdrop(clickedOverlay: bool, isSubmitting: bool) {
    clickedOverlay && !isSubmitting
  }

  /** While a submission is running neither Escape nor a backdrop click closes the modal; otherwise both do. */
  lemma CloseGuards(key: string, isOpen: bool, isSubmitting: bool, clickedOverlay: bool)
    ensures isSubmitting ==> !ClosesOnKey(key, isOpen, isSubmitting) && !ClosesOnBackdrop(clickedOverlay, isSubmitting)
    ensures !isSubmitting && isOpen ==> ClosesOnKey("Escape", isOpen, isSubmitting)
    ensures !isSubmitting ==> ClosesOnBackdrop(true, isSubmitting)
  {
  }
}
