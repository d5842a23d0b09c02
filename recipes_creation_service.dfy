/**
 * Recipe creation with an explicit rollback (src/services/recipesCreationService.ts):
 * the header row first, then the ingredient rows, then the step rows; a failed
 * child insert deletes whatever the recipe has, best effort, and reports no id.
 * The header defaults and the two row filters are shared with the other
 * creation path (src/services/recipeService.ts).
 */
module RecipeCreationService {
  import opened Wrappers
  import opened Strings
  import opened RecipeTypes
  import opened Backend
  import opened RecipeRows
  import RecipeValidation

  /** The header row a new recipe gets: only the title and the visibility come from the form. */
  function NewHeader(form: RecipeFormData, userId: string): Header {
    map[
      "user_id" := Str(userId),
      "title" := Str(form.title),
      "description" := Str(""),
      "cooking_time" := Int(0),
      "servings" := Int(1),
      "is_public" := Bool(form.isPublic),
      "image_url" := Null]
  }

  /** `ing.ingredient_id && ing.quantity > 0`: the unit is not looked at. */
  predicate KeptIngredient(ing: Ingredient) {
    ing.ingredientId != "" && ing.quantity > 0.0
  }

  /** `step.description.trim() !== ''`. */
  predicate KeptStep(step: Step) {
    !IsBlank(step.description)
  }

  /** The ingredient rows inserted for recipe `id`: the kept lines, in form order. */
  function IngredientRows(id: RecipeId, ings: seq<Ingredient>): (r: seq<Row<IngredientLine>>)
    ensures |r| <= |ings|
    ensures forall i :: 0 <= i < |r| ==> r[i].recipeId == id
    ensures forall x :: x in r <==> exists ing :: ing in ings && KeptIngredient(ing) && x == IngredientRow(id, ing)
  {
    if ings == [] then []
    else (if KeptIngredient(ings[0]) then [IngredientRow(id, ings[0])] else []) + IngredientRows(id, ings[1..])
  }

  /** The step rows inserted for recipe `id`: the non-blank steps, numbers copied as they are. */
  function StepRows(id: RecipeId, steps: seq<Step>): (r: seq<Row<StepLine>>)
    ensures |r| <= |steps|
    ensures forall i :: 0 <= i < |r| ==> r[i].recipeId == id
    ensures forall x :: x in r <==> exists step :: step in steps && KeptStep(step) && x == StepRow(id, step)
  {
    if steps == [] then []
    else (if KeptStep(steps[0]) then [StepRow(id, steps[0])] else []) + StepRows(id, steps[1..])
  }

  /** The filter keeps the form order: the rows of a split list are the rows of each part, one after the other. */
  lemma {:induction false} IngredientRowsAppend(id: RecipeId, a: seq<Ingredient>, b: seq<Ingredient>)
    ensures IngredientRows(id, a + b) == IngredientRows(id, a) + IngredientRows(id, b)
  {
    if a == [] {
      assert a + b == b;
    } else {
      assert (a + b)[1..] == a[1..] + b;
      IngredientRowsAppend(id, a[1..], b);
    }
  }

  /** The same for the steps. */
  lemma {:induction false} StepRowsAppend(id: RecipeId, a: seq<Step>, b: seq<Step>)
    ensures StepRows(id, a + b) == StepRows(id, a) + StepRows(id, b)
  {
    if a == [] {
      assert a + b == b;
    } else {
      assert (a + b)[1..] == a[1..] + b;
      StepRowsAppend(id, a[1..], b);
    }
  }

  /** When every line passes the filter, every line becomes a row, in order. */
  lemma {:induction false} AllIngredientsKept(id: RecipeId, ings: seq<Ingredient>)
    requires forall i :: 0 <= i < |ings| ==> KeptIngredient(ings[i])
    ensures IngredientRows(id, ings) == IngredientRowsOf(id, ings)
  {
    if ings != [] {
      AllIngredientsKept(id, ings[1..]);
    }
  }

  /** When no step is blank, every step becomes a row, in order. */
  lemma {:induction false} AllStepsKept(id: RecipeId, steps: seq<Step>)
    requires forall i :: 0 <= i < |steps| ==> KeptStep(steps[i])
    ensures StepRows(id, steps) == StepRowsOf(id, steps)
  {
    if steps != [] {
      AllStepsKept(id, steps[1..]);
    }
  }

  /** Which backend calls are refused: the three inserts, and each delete of the rollback. */
  datatype CreateFaults = CreateFaults(
    header: bool,
    ingredients: bool,
    steps: bool,
    rollbackIngredients: bool,
    rollbackSteps: bool,
    rollbackHeader: bool)

  /** The three deletes of a rollback, in order. */
  function DeleteCalls(id: RecipeId): seq<Call> {
    [DeleteIngredientsOf(id), DeleteStepsOf(id), DeleteRecipe(id)]
  }

  /** `rollbackRecipeCreation`: the three deletes are issued whatever each one answers. */
  function RollbackSpec(db: Db, id: RecipeId, f: CreateFaults): Db {
    var db1 := Issue(db, DeleteIngredientsOf(id), !f.rollbackIngredients);
    var db2 := Issue(db1, DeleteStepsOf(id), !f.rollbackSteps);
    Issue(db2, DeleteRecipe(id), !f.rollbackHeader)
  }

  /** `createRecipe`: the backend afterwards and the id it returns, if any. */
  function CreateSpec(db: Db, form: RecipeFormData, userId: string, f: CreateFaults): Outcome<Option<RecipeId>> {
    var header := InsertRecipe(NewHeader(form, userId));
    if f.header then Outcome(Issue(db, header, false), None)
    else ChildStages(Issue(db, header, true), db.nextId, form, f)
  }

  /**
   * What follows a stored header `id`: the ingredient rows, then the step
   * rows, each list skipped when empty; a refused insert rolls back.
   */
  function ChildStages(db1: Db, id: RecipeId, form: RecipeFormData, f: CreateFaults): Outcome<Option<RecipeId>> {
    var ingredientRows := IngredientRows(id, form.ingredients);
    if ingredientRows != [] && f.ingredients then
      Outcome(RollbackSpec(Issue(db1, InsertIngredients(ingredientRows), false), id, f), None)
    else
      var db2 := if ingredientRows != [] then Issue(db1, InsertIngredients(ingredientRows), true) else db1;
      var stepRows := StepRows(id, form.steps);
      if stepRows != [] && f.steps then
        Outcome(RollbackSpec(Issue(db2, InsertSteps(stepRows), false), id, f), None)
      else
        Outcome(if stepRows != [] then Issue(db2, InsertSteps(stepRows), true) else db2, Some(id))
  }

  /** `rollbackRecipeCreation(recipeId)`. */
  method RollbackRecipeCreation(store: Store, id: RecipeId, f: CreateFaults)
    modifies store
    ensures store.State() == RollbackSpec(old(store.State()), id, f)
  {
    var _ := store.DeleteIngredientsOf(id, f.rollbackIngredients);
    var _ := store.DeleteStepsOf(id, f.rollbackSteps);
    var _ := store.DeleteRecipe(id, f.rollbackHeader);
  }

  /** `createRecipe(formData, userId)`. */
  method CreateRecipe(store: Store, form: RecipeFormData, userId: string, f: CreateFaults) returns (recipeId: Option<RecipeId>)
    modifies store
    ensures var r := CreateSpec(old(store.State()), form, userId, f); store.State() == r.db && recipeId == r.result
  {
    var inserted := store.InsertRecipe(NewHeader(form, userId), f.header);
    if inserted.None? {
      return None;
    }
    recipeId := InsertChildren(store, inserted.value, form, f);
  }

  /** The inserts after the header of `createRecipe`, for the new recipe `id`. */
  method InsertChildren(store: Store, id: RecipeId, form: RecipeFormData, f: CreateFaults) returns (recipeId: Option<RecipeId>)
    modifies store
    ensures var r := ChildStages(old(store.State()), id, form, f); store.State() == r.db && recipeId == r.result
  {
    if |form.ingredients| > 0 {
      var rows := IngredientRows(id, form.ingredients);
      if |rows| > 0 {
        var ok := store.InsertIngredients(rows, f.ingredients);
        if !ok {
          RollbackRecipeCreation(store, id, f);
          return None;
        }
      }
    }
    if |form.steps| > 0 {
      var rows := StepRows(id, form.steps);
      if |rows| > 0 {
        var ok := store.InsertSteps(rows, f.steps);
        if !ok {
          RollbackRecipeCreation(store, id, f);
          return None;
        }
      }
    }
    return Some(id);
  }

  /** The rollback issues its three deletes in order, whichever of them fail. */
  lemma RollbackIssuesAllDeletes(db: Db, id: RecipeId, f: CreateFaults)
    ensures RollbackSpec(db, id, f).trace == db.trace + DeleteCalls(id)
  {
  }

  /** A rollback whose deletes all go through leaves nothing of the recipe, and nothing else changes. */
  lemma RollbackRemovesRecipe(db: Db, id: RecipeId, f: CreateFaults)
    ensures !f.rollbackIngredients && !f.rollbackSteps && !f.rollbackHeader ==> Gone(RollbackSpec(db, id, f), id)
    ensures OthersUnchanged(db, RollbackSpec(db, id, f), id)
  {
    var db1 := Issue(db, DeleteIngredientsOf(id), !f.rollbackIngredients);
    var db2 := Issue(db1, DeleteStepsOf(id), !f.rollbackSteps);
    RowsOfDropRows(db.ingredients, id, id);
    RowsOfDropRows(db1.steps, id, id);
    IssueConfined(db, DeleteIngredientsOf(id), !f.rollbackIngredients, id);
    IssueConfined(db1, DeleteStepsOf(id), !f.rollbackSteps, id);
    IssueConfined(db2, DeleteRecipe(id), !f.rollbackHeader, id);
    OthersUnchangedTrans(db, db1, db2, id);
    OthersUnchangedTrans(db, db2, RollbackSpec(db, id, f), id);
  }

  /** A refused header insert ends the call: no id, one call issued, the tables as they were. */
  lemma HeaderFailureStops(db: Db, form: RecipeFormData, userId: string, f: CreateFaults)
    requires f.header
    ensures var r := CreateSpec(db, form, userId, f);
      && r.result == None
      && r.db.trace == db.trace + [InsertRecipe(NewHeader(form, userId))]
      && r.db.(trace := db.trace) == db
  {
  }

  /** The call succeeds exactly when the header insert and every insert it issues go through, and returns the id the database handed out. */
  lemma CreateSucceedsIff(db: Db, form: RecipeFormData, userId: string, f: CreateFaults)
    ensures var id := db.nextId; var r := CreateSpec(db, form, userId, f);
      && (r.result.Some? <==>
            !f.header
            && !(IngredientRows(id, form.ingredients) != [] && f.ingredients)
            && !(StepRows(id, form.steps) != [] && f.steps))
      && (r.result.Some? ==> r.result == Some(id))
  {
  }

  /** On success the tables have gained the header row and the kept rows, appended. */
  lemma CreatedTables(db: Db, form: RecipeFormData, userId: string, f: CreateFaults)
    ensures var id := db.nextId; var r := CreateSpec(db, form, userId, f);
      r.result.Some? ==>
        && r.db.recipes == db.recipes[id := NewHeader(form, userId)]
        && r.db.ingredients == db.ingredients + IngredientRows(id, form.ingredients)
        && r.db.steps == db.steps + StepRows(id, form.steps)
  {
    var id := db.nextId;
    var ir := IngredientRows(id, form.ingredients);
    var sr := StepRows(id, form.steps);
    if ir == [] { assert db.ingredients + ir == db.ingredients; }
    if sr == [] { assert db.steps + sr == db.steps; }
  }

  /** On success the new recipe reads back with the default header and exactly the kept rows, in form order. */
  lemma CreatedRecipeReadsBack(db: Db, form: RecipeFormData, userId: string, f: CreateFaults)
    requires FreshNextId(db)
    ensures var id := db.nextId; var r := CreateSpec(db, form, userId, f);
      r.result.Some? ==>
        ReadFullRecipe(r.db, id, false)
        == Some(FullRecipe(id, NewHeader(form, userId), IngredientRows(id, form.ingredients), StepRows(id, form.steps)))
  {
    var id := db.nextId;
    var r := CreateSpec(db, form, userId, f);
    if r.result.Some? {
      CreatedTables(db, form, userId, f);
      var after := r.db;
      var ir := IngredientRows(id, form.ingredients);
      var sr := StepRows(id, form.steps);
      assert RowsOf(after.ingredients, id) == ir by {
        RowsOfAppend(db.ingredients, ir, id);
        RowsOfUniform(ir, id, id);
      }
      assert RowsOf(after.steps, id) == sr by {
        RowsOfAppend(db.steps, sr, id);
        RowsOfUniform(sr, id, id);
      }
      assert id in after.recipes && after.recipes[id] == NewHeader(form, userId);
    }
  }

  /**
   * A refused child insert after the header went through returns no id and
   * rolls back: the three deletes are the last calls issued, and when none of
   * them is refused the recipe is gone.
   */
  lemma ChildFailureRollsBack(db: Db, form: RecipeFormData, userId: string, f: CreateFaults)
    requires !f.header
    ensures var id := db.nextId; var r := CreateSpec(db, form, userId, f);
      r.result == None ==>
        && |r.db.trace| >= 3
        && r.db.trace[|r.db.trace| - 3..] == DeleteCalls(id)
        && (!f.rollbackIngredients && !f.rollbackSteps && !f.rollbackHeader ==> Gone(r.db, id))
  {
    var id := db.nextId;
    var db1 := Issue(db, InsertRecipe(NewHeader(form, userId)), true);
    var ir := IngredientRows(id, form.ingredients);
    if ir != [] && f.ingredients {
      var pre := Issue(db1, InsertIngredients(ir), false);
      RollbackIssuesAllDeletes(pre, id, f);
      RollbackRemovesRecipe(pre, id, f);
    } else {
      var db2 := if ir != [] then Issue(db1, InsertIngredients(ir), true) else db1;
      var sr := StepRows(id, form.steps);
      if sr != [] && f.steps {
        var pre := Issue(db2, InsertSteps(sr), false);
        RollbackIssuesAllDeletes(pre, id, f);
        RollbackRemovesRecipe(pre, id, f);
      }
    }
  }

  /** Whatever happens, no recipe other than the one being created changes. */
  lemma CreateLeavesOthers(db: Db, form: RecipeFormData, userId: string, f: CreateFaults)
    ensures OthersUnchanged(db, CreateSpec(db, form, userId, f).db, db.nextId)
  {
    var id := db.nextId;
    var header := InsertRecipe(NewHeader(form, userId));
    IssueConfined(db, header, !f.header, id);
    if !f.header {
      var db1 := Issue(db, header, true);
      var ir := IngredientRows(id, form.ingredients);
      IssueConfined(db1, InsertIngredients(ir), !f.ingredients, id);
      var db2 := if ir != [] then Issue(db1, InsertIngredients(ir), !f.ingredients) else db1;
      if ir != [] {
        OthersUnchangedTrans(db, db1, db2, id);
      }
      if ir != [] && f.ingredients {
        RollbackRemovesRecipe(db2, id, f);
        OthersUnchangedTrans(db, db2, RollbackSpec(db2, id, f), id);
      } else {
        var sr := StepRows(id, form.steps);
        IssueConfined(db2, InsertSteps(sr), !f.steps, id);
        var db3 := Issue(db2, InsertSteps(sr), !f.steps);
        if sr != [] {
          OthersUnchangedTrans(db, db2, db3, id);
          if f.steps {
            RollbackRemovesRecipe(db3, id, f);
            OthersUnchangedTrans(db, db3, RollbackSpec(db3, id, f), id);
          }
        }
      }
    }
  }

  /**
   * A form the validator accepts loses nothing to the filters: when the call
   * succeeds, the recipe has one row per ingredient line and one per step,
   * in form order.
   */
  lemma ValidatedFormCreatesExactly(db: Db, form: RecipeFormData, userId: string, f: CreateFaults)
    requires RecipeValidation.ValidateForm(form).isValid
    requires FreshNextId(db)
    ensures var id := db.nextId; var r := CreateSpec(db, form, userId, f);
      r.result.Some? ==>
        && RowsOf(r.db.ingredients, id) == IngredientRowsOf(id, form.ingredients)
        && RowsOf(r.db.steps, id) == StepRowsOf(id, form.steps)
  {
    var id := db.nextId;
    assert forall i :: 0 <= i < |form.ingredients| ==> RecipeValidation.IngredientComplete(form.ingredients[i]);
    AllIngredientsKept(id, form.ingredients);
    AllStepsKept(id, form.steps);
    CreatedRecipeReadsBack(db, form, userId, f);
    RowsOfAppend(db.ingredients, IngredientRows(id, form.ingredients), id);
  }
}
