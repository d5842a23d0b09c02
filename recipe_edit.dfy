/**
 * `useRecipeEdit` (src/hooks/useRecipeEdit.ts): the edit form's handlers.
 * Each one is a `prev => next` update of the form data, so each is a function
 * from the previous form to the next one.
 */
module RecipeEdit {
  import opened RecipeTypes

  /** The hook's own `initialFormData` (same contents as the shared one). */
  const EditInitialFormData: RecipeFormData := RecipeFormData("", [BlankIngredient], [FormStep(1, "")], false)

  // Sorting steps by number, as `.sort((a, b) => a.step_number - b.step_number)` does.

  predicate SortedByNumber(steps: seq<Step>) {
    forall i, j :: 0 <= i < j < |steps| ==> steps[i].stepNumber <= steps[j].stepNumber
  }

  /** `x` placed before the first step whose number is not below its own. */
  function InsertStep(x: Step, s: seq<Step>): seq<Step> {
    if s == [] || x.stepNumber <= s[0].stepNumber then [x] + s
    else [s[0]] + InsertStep(x, s[1..])
  }

  /** Inserting adds exactly `x`: nothing is lost or duplicated. */
  lemma {:induction false} InsertStepMultiset(x: Step, s: seq<Step>)
    ensures multiset(InsertStep(x, s)) == multiset(s) + multiset{x}
  {
    if s != [] && x.stepNumber > s[0].stepNumber {
      InsertStepMultiset(x, s[1..]);
      assert s == [s[0]] + s[1..];
    }
  }

  /** A lower bound on `x` and on every step of `s` bounds every step of the result. */
  lemma {:induction false} InsertStepBounded(x: Step, s: seq<Step>, b: int)
    requires b <= x.stepNumber
    requires forall i :: 0 <= i < |s| ==> b <= s[i].stepNumber
    ensures forall k :: 0 <= k < |InsertStep(x, s)| ==> b <= InsertStep(x, s)[k].stepNumber
  {
    if s != [] && x.stepNumber > s[0].stepNumber {
      var tail := s[1..];
      assert forall i :: 0 <= i < |tail| ==> tail[i] == s[i + 1];
      InsertStepBounded(x, tail, b);
    }
  }

  /** A step no greater than every step of a sorted list can go in front of it. */
  lemma ConsSorted(h: Step, t: seq<Step>)
    requires SortedByNumber(t)
    requires forall k :: 0 <= k < |t| ==> h.stepNumber <= t[k].stepNumber
    ensures SortedByNumber([h] + t)
  {
    var r := [h] + t;
    forall i, j | 0 <= i < j < |r| ensures r[i].stepNumber <= r[j].stepNumber {
      assert r[j] == t[j - 1];
      if i > 0 {
        assert r[i] == t[i - 1];
      }
    }
  }

  /** Inserting into a sorted list keeps it sorted. */
  lemma {:induction false} InsertStepSorted(x: Step, s: seq<Step>)
    requires SortedByNumber(s)
    ensures SortedByNumber(InsertStep(x, s))
  {
    if s == [] || x.stepNumber <= s[0].stepNumber {
      ConsSorted(x, s);
    } else {
      var tail := s[1..];
      assert forall i :: 0 <= i < |tail| ==> tail[i] == s[i + 1];
      InsertStepSorted(x, tail);
      InsertStepBounded(x, tail, s[0].stepNumber);
      ConsSorted(s[0], InsertStep(x, tail));
    }
  }

  /** Inserting into a sorted list keeps it sorted and adds exactly `x`. */
  lemma InsertStepCorrect(x: Step, s: seq<Step>)
    requires SortedByNumber(s)
    ensures SortedByNumber(InsertStep(x, s))
    ensures multiset(InsertStep(x, s)) == multiset(s) + multiset{x}
  {
    InsertStepSorted(x, s);
    InsertStepMultiset(x, s);
  }

  /** An insertion sort on step numbers. */
  function SortSteps(s: seq<Step>): (r: seq<Step>)
    ensures SortedByNumber(r)
    ensures multiset(r) == multiset(s)
  {
    if s == [] then []
    else
      assert s == [s[0]] + s[1..];
      var sorted := SortSteps(s[1..]);
      InsertStepCorrect(s[0], sorted);
      InsertStep(s[0], sorted)
  }

  /** `ri => ({ ingredient_id, quantity, unit })`: the database members dropped. */
  function StripIngredient(ri: Ingredient): Ingredient {
    FormIngredient(ri.ingredientId, ri.quantity, ri.unit)
  }

  /** `step => ({ step_number, description })`. */
  function StripStep(st: Step): Step {
    FormStep(st.stepNumber, st.description)
  }

  function StripSteps(s: seq<Step>): (r: seq<Step>)
    ensures |r| == |s|
    ensures forall i :: 0 <= i < |s| ==> r[i] == StripStep(s[i])
  {
    seq(|s|, i requires 0 <= i < |s| => StripStep(s[i]))
  }

  /** `initializeForm(recipe)`: the recipe's title, its ingredient lines in order, its steps by number. */
  function InitializeForm(recipe: Recipe): RecipeFormData {
    RecipeFormData(
      recipe.title,
      seq(|recipe.recipeIngredients|, i requires 0 <= i < |recipe.recipeIngredients| => StripIngredient(recipe.recipeIngredients[i])),
      StripSteps(SortSteps(recipe.recipeSteps)),
      recipe.isPublic || false)
  }

  /** `resetForm`. */
  function ResetForm(prev: RecipeFormData): (next: RecipeFormData)
    ensures WellFormed(next) && next.title == "" && !next.isPublic
    ensures next.ingredients == [BlankIngredient] && |next.steps| == 1 && next.steps[0].description == ""
  {
    EditInitialFormData
  }

  /** `handleAddIngredient`. */
  function AddIngredient(prev: RecipeFormData): RecipeFormData {
    prev.(ingredients := prev.ingredients + [BlankIngredient])
  }

  /** `handleIngredientChange`: `map` rewriting only the line at `index`. */
  function ChangeIngredient(prev: RecipeFormData, index: int, field: IngredientField): RecipeFormData {
    prev.(ingredients := seq(|prev.ingredients|, i requires 0 <= i < |prev.ingredients| =>
      if i == index then SetField(prev.ingredients[i], field) else prev.ingredients[i]))
  }

  /** `handleRemoveIngredient`. */
  function RemoveIngredient(prev: RecipeFormData, index: int): RecipeFormData {
    if |prev.ingredients| > 1 then prev.(ingredients := RemoveAt(prev.ingredients, index)) else prev
  }

  /** `Math.max(...steps.map(s => s.step_number))`, for a non-empty list. */
  function MaxStepNumber(steps: seq<Step>): (m: int)
    requires steps != []
    ensures forall i :: 0 <= i < |steps| ==> steps[i].stepNumber <= m
    ensures exists i :: 0 <= i < |steps| && steps[i].stepNumber == m
  {
    if |steps| == 1 then steps[0].stepNumber
    else
      var rest := MaxStepNumber(steps[1..]);
      assert forall i :: 1 <= i < |steps| ==> steps[i] == steps[1..][i - 1];
      if steps[0].stepNumber >= rest then steps[0].stepNumber else rest
  }

  /** `handleAddStep`: an empty step numbered one past the largest number. With no steps the source computes `-Infinity + 1`. */
  function AddStep(prev: RecipeFormData): RecipeFormData
    requires prev.steps != []
  {
    prev.(steps := prev.steps + [FormStep(MaxStepNumber(prev.steps) + 1, "")])
  }

  /** `handleStepChange`. */
  function ChangeStep(prev: RecipeFormData, index: int, description: string): RecipeFormData {
    prev.(steps := seq(|prev.steps|, i requires 0 <= i < |prev.steps| =>
      if i == index then prev.steps[i].(description := description) else prev.steps[i]))
  }

  /** `handleRemoveStep`. */
  function RemoveStep(prev: RecipeFormData, index: int): RecipeFormData {
    if |prev.steps| > 1 then prev.(steps := Renumber(RemoveAt(prev.steps, index))) else prev
  }

  // What the handlers promise.

  /** `initializeForm` copies each ingredient line's three members, in the recipe's order. */
  lemma InitializeCopiesIngredients(recipe: Recipe)
    ensures var f := InitializeForm(recipe);
      |f.ingredients| == |recipe.recipeIngredients|
      && forall i :: 0 <= i < |f.ingredients| ==>
        f.ingredients[i].ingredientId == recipe.recipeIngredients[i].ingredientId
        && f.ingredients[i].quantity == recipe.recipeIngredients[i].quantity
        && f.ingredients[i].unit == recipe.recipeIngredients[i].unit
        && f.ingredients[i].rowId.None? && f.ingredients[i].info.None?
  {
  }

  /** `initializeForm` lists the recipe's steps (stripped) by ascending number, none lost or added. */
  lemma InitializeOrdersSteps(recipe: Recipe)
    ensures var f := InitializeForm(recipe);
      SortedByNumber(f.steps)
      && multiset(f.steps) == multiset(StripSteps(recipe.recipeSteps))
      && f.title == recipe.title && f.isPublic == recipe.isPublic
  {
    StripSortPreservesMultiset(recipe.recipeSteps);
  }

  /** Stripping distributes over concatenation. */
  lemma StripAppend(a: seq<Step>, b: seq<Step>)
    ensures StripSteps(a + b) == StripSteps(a) + StripSteps(b)
  {
  }

  /** Stripping after an insertion adds exactly the stripped new step. */
  lemma {:induction false} StripInsert(x: Step, s: seq<Step>)
    ensures multiset(StripSteps(InsertStep(x, s))) == multiset(StripSteps(s)) + multiset{StripStep(x)}
  {
    if s == [] || x.stepNumber <= s[0].stepNumber {
      StripAppend([x], s);
    } else {
      StripInsert(x, s[1..]);
      StripAppend([s[0]], InsertStep(x, s[1..]));
      assert s == [s[0]] + s[1..];
      StripAppend([s[0]], s[1..]);
    }
  }

  /** Stripping a non-empty list strips its first step, then the rest. */
  lemma StripCons(s: seq<Step>)
    requires s != []
    ensures StripSteps(s) == [StripStep(s[0])] + StripSteps(s[1..])
  {
  }

  /** The sorted, stripped steps are the stripped steps, reordered. */
  lemma {:induction false} StripSortPreservesMultiset(s: seq<Step>)
    ensures multiset(StripSteps(SortSteps(s))) == multiset(StripSteps(s))
  {
    if s != [] {
      var tail := s[1..];
      var sorted := SortSteps(tail);
      StripSortPreservesMultiset(tail);
      StripInsert(s[0], sorted);
      StripCons(s);
      calc {
        multiset(StripSteps(SortSteps(s)));
        multiset(StripSteps(InsertStep(s[0], sorted)));
        multiset(StripSteps(sorted)) + multiset{StripStep(s[0])};
        multiset(StripSteps(tail)) + multiset{StripStep(s[0])};
        multiset([StripStep(s[0])] + StripSteps(tail));
        multiset(StripSteps(s));
      }
    }
  }

  /** The new step's number is strictly above every existing number. */
  lemma AddStepNumberIsFresh(prev: RecipeFormData)
    requires prev.steps != []
    ensures var next := AddStep(prev);
      |next.steps| == |prev.steps| + 1 && next.steps[..|prev.steps|] == prev.steps
      && forall i :: 0 <= i < |prev.steps| ==> prev.steps[i].stepNumber < next.steps[|prev.steps|].stepNumber
  {
  }

  /** On a list numbered 1..N the largest number is N. */
  lemma {:induction false} MaxOfNumbered(steps: seq<Step>)
    requires steps != [] && Numbered(steps)
    ensures MaxStepNumber(steps) == |steps|
  {
    var m := MaxStepNumber(steps);
    var i :| 0 <= i < |steps| && steps[i].stepNumber == m;
    assert steps[|steps| - 1].stepNumber == |steps|;
  }

  /** Every handler keeps steps numbered 1..N and both lists non-empty. */
  lemma HandlersPreserveWellFormed(prev: RecipeFormData, index: int, field: IngredientField, description: string)
    requires WellFormed(prev)
    ensures WellFormed(AddIngredient(prev))
    ensures WellFormed(ChangeIngredient(prev, index, field))
    ensures WellFormed(RemoveIngredient(prev, index))
    ensures WellFormed(AddStep(prev))
    ensures WellFormed(ChangeStep(prev, index, description))
    ensures WellFormed(RemoveStep(prev, index))
  {
    MaxOfNumbered(prev.steps);
  }

  /** `handleRemoveStep` on more than one step drops exactly step `index` and renumbers the rest `i + 1`. */
  lemma RemoveStepRenumbers(prev: RecipeFormData, index: nat)
    requires |prev.steps| > 1 && index < |prev.steps|
    ensures var next := RemoveStep(prev, index);
      |next.steps| == |prev.steps| - 1 && Numbered(next.steps)
      && forall i :: 0 <= i < |next.steps| ==>
        next.steps[i].description == prev.steps[if i < index then i else i + 1].description
  {
  }

  /** With one step or one ingredient line left, the remove handlers change nothing. */
  lemma RemoveKeepsLastElement(prev: RecipeFormData, index: int)
    ensures |prev.steps| <= 1 ==> RemoveStep(prev, index) == prev
    ensures |prev.ingredients| <= 1 ==> RemoveIngredient(prev, index) == prev
    ensures |prev.ingredients| > 1 && 0 <= index < |prev.ingredients| ==>
      RemoveIngredient(prev, index).ingredients == prev.ingredients[..index] + prev.ingredients[index + 1..]
  {
  }

  /** The change handlers touch only the element at `index`. */
  lemma ChangeTouchesOnlyIndex(prev: RecipeFormData, index: int, field: IngredientField, description: string)
    ensures var next := ChangeIngredient(prev, index, field);
      next.title == prev.title && next.steps == prev.steps && |next.ingredients| == |prev.ingredients|
      && forall i :: 0 <= i < |prev.ingredients| && i != index ==> next.ingredients[i] == prev.ingredients[i]
    ensures var next := ChangeStep(prev, index, description);
      next.title == prev.title && next.ingredients == prev.ingredients && |next.steps| == |prev.steps|
      && forall i :: 0 <= i < |prev.steps| && i != index ==> next.steps[i] == prev.steps[i]
    ensures 0 <= index < |prev.steps| ==>
      ChangeStep(prev, index, description).steps[index] == prev.steps[index].(description := description)
    ensures 0 <= index < |prev.ingredients| ==>
      ChangeIngredient(prev, index, field) == prev.(ingredients := prev.ingredients[index := SetField(prev.ingredients[index], field)])
    ensures !(0 <= index < |prev.ingredients|) ==> ChangeIngredient(prev, index, field) == prev
    ensures 0 <= index < |prev.steps| ==>
      ChangeStep(prev, index, description) == prev.(steps := prev.steps[index := prev.steps[index].(description := description)])
    ensures !(0 <= index < |prev.steps|) ==> ChangeStep(prev, index, description) == prev
  {
  }

  /** The hook's private initial form is the shared `initialFormData`. */
  lemma ResetMatchesSharedInitialForm(prev: RecipeFormData)
    ensures ResetForm(prev) == InitialFormData
  {
  }
}
