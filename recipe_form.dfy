/**
 * `useRecipeForm` (src/hooks/useRecipeForm.ts): the creation form's state.
 * The hook holds one `formData` value that every handler replaces; here it is
 * the field of an object, and each handler is a method that reassigns it.
 */
module RecipeForm {
  import opened RecipeTypes

  class RecipeFormHook {
    var formData: RecipeFormData

    /** Steps numbered 1..N, neither list empty: kept by every handler. */
    predicate Valid()
      reads this
    {
      WellFormed(formData)
    }

    /** `useState({...initialFormData})`. */
    constructor ()
      ensures formData == InitialFormData
      ensures Valid()
    {
      formData := InitialFormData;
    }

    /** `setFormData(data)`: the form's own title and visibility inputs write through it. */
    method SetFormData(data: RecipeFormData)
      modifies this
      ensures formData == data
    {
      formData := data;
    }

    /** `resetForm`: back to the initial form. */
    method ResetForm()
      modifies this
      ensures formData == InitialFormData
      ensures Valid()
    {
      formData := InitialFormData;
    }

    /** `handleAddIngredient`: one blank row appended, the existing rows untouched. */
    method AddIngredient()
      modifies this
      ensures formData == old(formData).(ingredients := old(formData.ingredients) + [BlankIngredient])
      ensures old(Valid()) ==> Valid()
    {
      formData := formData.(ingredients := formData.ingredients + [BlankIngredient]);
    }

    /** `handleIngredientChange`: the array is copied and row `index` is rewritten with one member changed. */
    method ChangeIngredient(index: nat, field: IngredientField)
      requires index < |formData.ingredients|
      modifies this
      ensures formData == old(formData).(ingredients := old(formData.ingredients)[index := SetField(old(formData.ingredients)[index], field)])
      ensures old(Valid()) ==> Valid()
    {
      var rows := formData.ingredients;
      rows := rows[index := SetField(rows[index], field)];
      formData := formData.(ingredients := rows);
    }

    /** `handleRemoveIngredient`: nothing when one row is left, otherwise row `index` is dropped. */
    method RemoveIngredient(index: int)
      modifies this
      ensures |old(formData.ingredients)| == 1 ==> formData == old(formData)
      ensures |old(formData.ingredients)| != 1 ==>
        formData == old(formData).(ingredients := RemoveAt(old(formData.ingredients), index))
      ensures old(Valid()) ==> Valid()
    {
      if |formData.ingredients| == 1 {
        return;
      }
      formData := formData.(ingredients := RemoveAt(formData.ingredients, index));
    }

    /** `handleAddStep`: an empty step numbered one past the current count. */
    method AddStep()
      modifies this
      ensures formData == old(formData).(steps := old(formData.steps) + [FormStep(|old(formData.steps)| + 1, "")])
      ensures old(Valid()) ==> Valid()
    {
      var nextNumber := |formData.steps| + 1;
      formData := formData.(steps := formData.steps + [FormStep(nextNumber, "")]);
    }

    /** `handleStepChange`: the array is copied and step `index` gets the new description. */
    method ChangeStep(index: nat, description: string)
      requires index < |formData.steps|
      modifies this
      ensures formData == old(formData).(steps := old(formData.steps)[index := old(formData.steps)[index].(description := description)])
      ensures old(Valid()) ==> Valid()
    {
      var steps := formData.steps;
      steps := steps[index := steps[index].(description := description)];
      formData := formData.(steps := steps);
    }

    /** `handleRemoveStep`: nothing when one step is left, otherwise step `index` is dropped and the rest renumbered. */
    method RemoveStep(index: int)
      modifies this
      ensures |old(formData.steps)| == 1 ==> formData == old(formData)
      ensures |old(formData.steps)| != 1 ==>
        formData == old(formData).(steps := Renumber(RemoveAt(old(formData.steps), index)))
      ensures old(Valid()) ==> Valid()
    {
      if |formData.steps| == 1 {
        return;
      }
      var newSteps := RemoveAt(formData.steps, index);
      newSteps := Renumber(newSteps);
      formData := formData.(steps := newSteps);
    }
  }
}
