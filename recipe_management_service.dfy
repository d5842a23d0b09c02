/**
 * The management service (src/services/recipeManagementService.ts): the
 * update that filters the header columns and replaces the child rows by
 * delete-then-insert, the staged deletion, the owner check and the image
 * replacement. The deletion and the image replacement follow the same
 * specifications as in src/services/recipeService.ts.
 */
module RecipeManagementService {
  import opened Wrappers
  import opened RecipeTypes
  import opened Backend
  import opened RecipeRows
  import opened CloudinaryService
  import RecipeService

  /** `recipeColumns`: the header columns an update may write. */
  const RecipeColumns: set<string> := {"title", "description", "image_url", "cooking_time", "servings", "is_public", "updated_at"}

  /** The `filteredUpdates` object: the allowed keys of the update, with their values. */
  function FilterColumns(fields: Header): (r: Header)
    ensures forall k :: k in r <==> k in fields && k in RecipeColumns
    ensures forall k :: k in r ==> r[k] == fields[k]
  {
    map k | k in fields && k in RecipeColumns :: fields[k]
  }

  /**
   * The argument of `updateRecipe`: the header keys it carries (whatever the
   * caller put there), and the `ingredients` and `steps` lists, each present
   * or absent.
   */
  datatype RecipeUpdate = RecipeUpdate(fields: Header, ingredients: Option<seq<Ingredient>>, steps: Option<seq<Step>>)

  /** Which calls of an update are refused, and whether the final read is. */
  datatype UpdateFaults = UpdateFaults(
    header: bool,
    deleteIngredients: bool,
    insertIngredients: bool,
    deleteSteps: bool,
    insertSteps: bool,
    refetch: bool)

  /** `{ success, message, recipe? }`. */
  datatype UpdateResult = UpdateResult(success: bool, message: string, recipe: Option<FullRecipe>)

  const HeaderUpdateFailed := "Échec de la mise à jour de la recette."
  const IngredientsDeleteFailed := "Échec de la mise à jour des ingrédients."
  const IngredientsInsertFailed := "Échec de l'ajout des nouveaux ingrédients."
  const StepsDeleteFailed := "Échec de la mise à jour des étapes."
  const StepsInsertFailed := "Échec de l'ajout des nouvelles étapes."
  const RefetchFailed := "Recette mise à jour, mais récupération impossible."
  const Updated := "Recette mise à jour avec succès."

  /** Replacing the ingredient rows of `id`: delete them all, then insert the new list; the message of the stage that failed, if any. */
  function ReplaceIngredients(db: Db, id: RecipeId, ings: seq<Ingredient>, f: UpdateFaults): Outcome<Option<string>> {
    var db1 := Issue(db, DeleteIngredientsOf(id), !f.deleteIngredients);
    if f.deleteIngredients then Outcome(db1, Some(IngredientsDeleteFailed))
    else
      var db2 := Issue(db1, InsertIngredients(IngredientRowsOf(id, ings)), !f.insertIngredients);
      Outcome(db2, if f.insertIngredients then Some(IngredientsInsertFailed) else None)
  }

  /** Replacing the step rows of `id` the same way. */
  function ReplaceSteps(db: Db, id: RecipeId, steps: seq<Step>, f: UpdateFaults): Outcome<Option<string>> {
    var db1 := Issue(db, DeleteStepsOf(id), !f.deleteSteps);
    if f.deleteSteps then Outcome(db1, Some(StepsDeleteFailed))
    else
      var db2 := Issue(db1, InsertSteps(StepRowsOf(id, steps)), !f.insertSteps);
      Outcome(db2, if f.insertSteps then Some(StepsInsertFailed) else None)
  }

  /** The backend after the header stage: the update is skipped when no allowed key is present. */
  function HeaderStage(db: Db, id: RecipeId, u: RecipeUpdate, f: UpdateFaults): Db {
    var patch := FilterColumns(u.fields);
    if patch == map[] then db else Issue(db, Call.UpdateRecipe(id, patch), !f.header)
  }

  /** The list stages: the ingredients if given, then the steps if given, the second only when the first went through. */
  function ListStages(db: Db, id: RecipeId, u: RecipeUpdate, f: UpdateFaults): Outcome<Option<string>> {
    var i := if u.ingredients.Some? then ReplaceIngredients(db, id, u.ingredients.value, f) else Outcome(db, None);
    if i.result.Some? || u.steps.None? then i
    else ReplaceSteps(i.db, id, u.steps.value, f)
  }

  /** `updateRecipe(recipeId, updates)`: header, then ingredients, then steps, each stage stopping the call on failure; then the read-back. */
  function UpdateSpec(db: Db, id: RecipeId, u: RecipeUpdate, f: UpdateFaults): Outcome<UpdateResult> {
    var db1 := HeaderStage(db, id, u, f);
    if FilterColumns(u.fields) != map[] && f.header then Outcome(db1, UpdateResult(false, HeaderUpdateFailed, None))
    else
      var l := ListStages(db1, id, u, f);
      if l.result.Some? then Outcome(l.db, UpdateResult(false, l.result.value, None))
      else
        match ReadFullRecipe(l.db, id, f.refetch)
        case None => Outcome(l.db, UpdateResult(true, RefetchFailed, None))
        case Some(recipe) => Outcome(l.db, UpdateResult(true, Updated, Some(recipe)))
  }

  /** Steps 2 of `updateRecipe`: delete the recipe's ingredient rows, then insert the new list. */
  method ReplaceIngredientRows(store: Store, id: RecipeId, ings: seq<Ingredient>, f: UpdateFaults) returns (failure: Option<string>)
    modifies store
    ensures var r := ReplaceIngredients(old(store.State()), id, ings, f); store.State() == r.db && failure == r.result
  {
    var ok := store.DeleteIngredientsOf(id, f.deleteIngredients);
    if !ok {
      return Some(IngredientsDeleteFailed);
    }
    ok := store.InsertIngredients(IngredientRowsOf(id, ings), f.insertIngredients);
    if !ok {
      return Some(IngredientsInsertFailed);
    }
    return None;
  }

  /** Step 3 of `updateRecipe`: delete the recipe's step rows, then insert the new list. */
  method ReplaceStepRows(store: Store, id: RecipeId, steps: seq<Step>, f: UpdateFaults) returns (failure: Option<string>)
    modifies store
    ensures var r := ReplaceSteps(old(store.State()), id, steps, f); store.State() == r.db && failure == r.result
  {
    var ok := store.DeleteStepsOf(id, f.deleteSteps);
    if !ok {
      return Some(StepsDeleteFailed);
    }
    ok := store.InsertSteps(StepRowsOf(id, steps), f.insertSteps);
    if !ok {
      return Some(StepsInsertFailed);
    }
    return None;
  }

  /** Steps 2 and 3 of `updateRecipe`, each run only when its list is given. */
  method UpdateLists(store: Store, id: RecipeId, u: RecipeUpdate, f: UpdateFaults) returns (failure: Option<string>)
    modifies store
    ensures var r := ListStages(old(store.State()), id, u, f); store.State() == r.db && failure == r.result
  {
    failure := None;
    if u.ingredients.Some? {
      failure := ReplaceIngredientRows(store, id, u.ingredients.value, f);
      if failure.Some? {
        return;
      }
    }
    if u.steps.Some? {
      failure := ReplaceStepRows(store, id, u.steps.value, f);
    }
  }

  /** `updateRecipe(recipeId, updates)`. */
  method UpdateRecipe(store: Store, id: RecipeId, u: RecipeUpdate, f: UpdateFaults) returns (result: UpdateResult)
    modifies store
    ensures var r := UpdateSpec(old(store.State()), id, u, f); store.State() == r.db && result == r.result
  {
    var patch := FilterColumns(u.fields);
    if |patch| > 0 {
      var ok := store.UpdateRecipe(id, patch, f.header);
      if !ok {
        return UpdateResult(false, HeaderUpdateFailed, None);
      }
    }
    var failure := UpdateLists(store, id, u, f);
    if failure.Some? {
      return UpdateResult(false, failure.value, None);
    }
    var recipe := store.SelectFullRecipe(id, f.refetch);
    if recipe.None? {
      return UpdateResult(true, RefetchFailed, None);
    }
    return UpdateResult(true, Updated, recipe);
  }

  /** The allow-list never lets through the owner column, the child lists, or the edit form's camelCase visibility key. */
  lemma FilterDropsForeignKeys(fields: Header)
    ensures "user_id" !in FilterColumns(fields)
    ensures "isPublic" !in FilterColumns(fields)
    ensures "recipe_ingredients" !in FilterColumns(fields) && "recipe_steps" !in FilterColumns(fields)
  {
  }

  /** The header stage changes only the allowed columns of recipe `id`, and only when the update goes through. */
  lemma HeaderStageWrites(db: Db, id: RecipeId, u: RecipeUpdate, f: UpdateFaults)
    ensures var h := HeaderStage(db, id, u, f);
      && h.ingredients == db.ingredients && h.steps == db.steps
      && h.recipes.Keys == db.recipes.Keys
      && (forall k :: k in db.recipes && k != id ==> h.recipes[k] == db.recipes[k])
      && (id in db.recipes ==>
            h.recipes[id] == (if f.header then db.recipes[id] else db.recipes[id] + FilterColumns(u.fields)))
    ensures FilterColumns(u.fields) == map[] ==> HeaderStage(db, id, u, f) == db
    ensures FilterColumns(u.fields) != map[] ==>
      HeaderStage(db, id, u, f).trace == db.trace + [Call.UpdateRecipe(id, FilterColumns(u.fields))]
  {
  }

  /** A refused header update stops the call: one call issued, no table changed. */
  lemma HeaderFailureTouchesNothing(db: Db, id: RecipeId, u: RecipeUpdate, f: UpdateFaults)
    requires FilterColumns(u.fields) != map[] && f.header
    ensures var r := UpdateSpec(db, id, u, f);
      && r.result == UpdateResult(false, HeaderUpdateFailed, None)
      && r.db.(trace := db.trace) == db
      && r.db.trace == db.trace + [Call.UpdateRecipe(id, FilterColumns(u.fields))]
  {
  }

  /**
   * On success the stored header has the allowed keys of the update and
   * nothing else from it: any column outside the allow-list (the owner
   * `user_id`, `is_public` when only `isPublic` was sent) keeps its value.
   */
  lemma UpdateWritesOnlyAllowedColumns(db: Db, id: RecipeId, u: RecipeUpdate, f: UpdateFaults)
    requires id in db.recipes
    ensures var r := UpdateSpec(db, id, u, f);
      r.result.success ==>
        && id in r.db.recipes
        && (forall k :: k in FilterColumns(u.fields) ==> k in r.db.recipes[id] && r.db.recipes[id][k] == u.fields[k])
        && (forall k :: k !in RecipeColumns ==>
              (k in r.db.recipes[id] <==> k in db.recipes[id])
              && (k in db.recipes[id] ==> r.db.recipes[id][k] == db.recipes[id][k]))
  {
    var r := UpdateSpec(db, id, u, f);
    HeaderStageWrites(db, id, u, f);
    if r.result.success {
      UpdateRecipesAfterHeader(db, id, u, f);
    }
  }

  /** After the header stage, the child stages and the read do not touch `recipes`. */
  lemma UpdateRecipesAfterHeader(db: Db, id: RecipeId, u: RecipeUpdate, f: UpdateFaults)
    ensures UpdateSpec(db, id, u, f).db.recipes == HeaderStage(db, id, u, f).recipes
  {
    UpdateSpecStages(db, id, u, f);
    ListStagesReplaces(HeaderStage(db, id, u, f), id, u, f);
  }

  /** How the stages compose: a refused header update ends the call, otherwise the list stages decide it. */
  lemma UpdateSpecStages(db: Db, id: RecipeId, u: RecipeUpdate, f: UpdateFaults)
    ensures var r := UpdateSpec(db, id, u, f); var db1 := HeaderStage(db, id, u, f);
      && (FilterColumns(u.fields) != map[] && f.header ==> r.db == db1 && !r.result.success)
      && (!(FilterColumns(u.fields) != map[] && f.header) ==>
            var l := ListStages(db1, id, u, f); r.db == l.db && (r.result.success <==> l.result.None?))
  {
  }

  /**
   * The list stages leave `recipes` alone and a table whose list is absent
   * as it was; when they go through, each list given has replaced its rows.
   */
  lemma ListStagesReplaces(db: Db, id: RecipeId, u: RecipeUpdate, f: UpdateFaults)
    ensures var l := ListStages(db, id, u, f);
      && l.db.recipes == db.recipes
      && (u.ingredients.None? ==> l.db.ingredients == db.ingredients)
      && (u.steps.None? ==> l.db.steps == db.steps)
      && (l.result.None? && u.ingredients.Some? ==> RowsOf(l.db.ingredients, id) == IngredientRowsOf(id, u.ingredients.value))
      && (l.result.None? && u.steps.Some? ==> RowsOf(l.db.steps, id) == StepRowsOf(id, u.steps.value))
  {
    if u.ingredients.Some? {
      ReplaceIngredientsExactly(db, id, u.ingredients.value, f);
    }
    var i := if u.ingredients.Some? then ReplaceIngredients(db, id, u.ingredients.value, f) else Outcome(db, None);
    if i.result.None? && u.steps.Some? {
      ReplaceStepsExactly(i.db, id, u.steps.value, f);
    }
  }

  /** The list stages leave every other recipe as it was. */
  lemma ListStagesConfined(db: Db, id: RecipeId, u: RecipeUpdate, f: UpdateFaults)
    ensures OthersUnchanged(db, ListStages(db, id, u, f).db, id)
  {
    var i := if u.ingredients.Some? then ReplaceIngredients(db, id, u.ingredients.value, f) else Outcome(db, None);
    if u.ingredients.Some? {
      ReplaceIngredientsConfined(db, id, u.ingredients.value, f);
    }
    if i.result.None? && u.steps.Some? {
      ReplaceStepsConfined(i.db, id, u.steps.value, f);
      OthersUnchangedTrans(db, i.db, ListStages(db, id, u, f).db, id);
    }
  }

  /** A successful replacement leaves the recipe with exactly the new rows, in list order. */
  lemma ReplaceIngredientsExactly(db: Db, id: RecipeId, ings: seq<Ingredient>, f: UpdateFaults)
    ensures var r := ReplaceIngredients(db, id, ings, f);
      && r.db.steps == db.steps && r.db.recipes == db.recipes
      && (r.result == None ==> RowsOf(r.db.ingredients, id) == IngredientRowsOf(id, ings))
      && (r.result == Some(IngredientsInsertFailed) ==> RowsOf(r.db.ingredients, id) == [])
  {
    var rows := IngredientRowsOf(id, ings);
    if !f.deleteIngredients {
      var d := Issue(db, DeleteIngredientsOf(id), true);
      assert RowsOf(d.ingredients, id) == [] by {
        RowsOfDropRows(db.ingredients, id, id);
      }
      if !f.insertIngredients {
        var e := Issue(d, InsertIngredients(rows), true);
        assert RowsOf(e.ingredients, id) == rows by {
          RowsOfAppend(d.ingredients, rows, id);
          RowsOfUniform(rows, id, id);
        }
      }
    }
  }

  /** The same for the steps. */
  lemma ReplaceStepsExactly(db: Db, id: RecipeId, steps: seq<Step>, f: UpdateFaults)
    ensures var r := ReplaceSteps(db, id, steps, f);
      && r.db.ingredients == db.ingredients && r.db.recipes == db.recipes
      && (r.result == None ==> RowsOf(r.db.steps, id) == StepRowsOf(id, steps))
      && (r.result == Some(StepsInsertFailed) ==> RowsOf(r.db.steps, id) == [])
  {
    var rows := StepRowsOf(id, steps);
    if !f.deleteSteps {
      var d := Issue(db, DeleteStepsOf(id), true);
      assert RowsOf(d.steps, id) == [] by {
        RowsOfDropRows(db.steps, id, id);
      }
      if !f.insertSteps {
        var e := Issue(d, InsertSteps(rows), true);
        assert RowsOf(e.steps, id) == rows by {
          RowsOfAppend(d.steps, rows, id);
          RowsOfUniform(rows, id, id);
        }
      }
    }
  }

  /**
   * On success every list the update carries has replaced the recipe's rows
   * exactly, and a list it does not carry leaves its table as it was.
   */
  lemma UpdateReplacesLists(db: Db, id: RecipeId, u: RecipeUpdate, f: UpdateFaults)
    ensures var r := UpdateSpec(db, id, u, f);
      && (u.ingredients.None? ==> r.db.ingredients == db.ingredients)
      && (u.steps.None? ==> r.db.steps == db.steps)
      && (r.result.success && u.ingredients.Some? ==> RowsOf(r.db.ingredients, id) == IngredientRowsOf(id, u.ingredients.value))
      && (r.result.success && u.steps.Some? ==> RowsOf(r.db.steps, id) == StepRowsOf(id, u.steps.value))
  {
    HeaderStageWrites(db, id, u, f);
    UpdateSpecStages(db, id, u, f);
    ListStagesReplaces(HeaderStage(db, id, u, f), id, u, f);
  }

  /**
   * No rollback: when the new ingredient rows are refused after the header
   * update and the delete went through, the call fails, the header keeps
   * its new columns, and the recipe is left with no ingredient rows at all.
   */
  lemma IngredientInsertFailureLosesRows(db: Db, id: RecipeId, u: RecipeUpdate, f: UpdateFaults)
    requires id in db.recipes && !f.header && u.ingredients.Some?
    requires !f.deleteIngredients && f.insertIngredients
    ensures var r := UpdateSpec(db, id, u, f);
      && r.result == UpdateResult(false, IngredientsInsertFailed, None)
      && r.db.recipes[id] == db.recipes[id] + FilterColumns(u.fields)
      && RowsOf(r.db.ingredients, id) == []
  {
    var db1 := HeaderStage(db, id, u, f);
    HeaderStageWrites(db, id, u, f);
    ReplaceIngredientsExactly(db1, id, u.ingredients.value, f);
    if FilterColumns(u.fields) == map[] {
      assert db.recipes[id] + FilterColumns(u.fields) == db.recipes[id];
    }
  }

  /** A refused read-back still reports success, without the recipe. */
  lemma RefetchFailureStillSucceeds(db: Db, id: RecipeId, u: RecipeUpdate, f: UpdateFaults)
    requires f == UpdateFaults(false, false, false, false, false, true)
    ensures UpdateSpec(db, id, u, f).result == UpdateResult(true, RefetchFailed, None)
  {
  }

  /** Replacing the rows of `id` leaves every other recipe as it was. */
  lemma ReplaceIngredientsConfined(db: Db, id: RecipeId, ings: seq<Ingredient>, f: UpdateFaults)
    ensures OthersUnchanged(db, ReplaceIngredients(db, id, ings, f).db, id)
  {
    var d := Issue(db, DeleteIngredientsOf(id), !f.deleteIngredients);
    var rows := IngredientRowsOf(id, ings);
    IssueConfined(db, DeleteIngredientsOf(id), !f.deleteIngredients, id);
    IssueConfined(d, InsertIngredients(rows), !f.insertIngredients, id);
    OthersUnchangedTrans(db, d, Issue(d, InsertIngredients(rows), !f.insertIngredients), id);
  }

  /** The same for the step rows. */
  lemma ReplaceStepsConfined(db: Db, id: RecipeId, steps: seq<Step>, f: UpdateFaults)
    ensures OthersUnchanged(db, ReplaceSteps(db, id, steps, f).db, id)
  {
    var d := Issue(db, DeleteStepsOf(id), !f.deleteSteps);
    var rows := StepRowsOf(id, steps);
    IssueConfined(db, DeleteStepsOf(id), !f.deleteSteps, id);
    IssueConfined(d, InsertSteps(rows), !f.insertSteps, id);
    OthersUnchangedTrans(db, d, Issue(d, InsertSteps(rows), !f.insertSteps), id);
  }

  /** An update leaves every other recipe as it was. */
  lemma UpdateLeavesOthers(db: Db, id: RecipeId, u: RecipeUpdate, f: UpdateFaults)
    ensures OthersUnchanged(db, UpdateSpec(db, id, u, f).db, id)
  {
    var db1 := HeaderStage(db, id, u, f);
    IssueConfined(db, Call.UpdateRecipe(id, FilterColumns(u.fields)), !f.header, id);
    assert OthersUnchanged(db, db1, id);
    UpdateSpecStages(db, id, u, f);
    ListStagesConfined(db1, id, u, f);
    OthersUnchangedTrans(db, db1, ListStages(db1, id, u, f).db, id);
  }

  /** `{ success, message }` of a deletion. */
  datatype DeleteResult = DeleteResult(success: bool, message: string)

  /** The message each stage of a deletion reports. */
  function DeleteMessage(stage: RecipeService.DeleteStage): (r: DeleteResult)
    ensures r.success <==> stage == RecipeService.Deleted
  {
    match stage
    case Deleted => DeleteResult(true, "Recette supprimée avec succès !")
    case FetchFailed => DeleteResult(false, "Échec de la récupération de la recette.")
    case IngredientsFailed => DeleteResult(false, "Échec de la suppression des ingrédients.")
    case StepsFailed => DeleteResult(false, "Échec de la suppression des étapes.")
    case HeaderFailed => DeleteResult(false, "Échec de la suppression de la recette.")
  }

  /** `deleteRecipe(recipeId)`: the same stages as the other service, each reported by its own message. */
  method DeleteRecipe(store: Store, id: RecipeId, f: RecipeService.DeleteFaults, reply: ProxyReply) returns (result: DeleteResult)
    modifies store
    ensures var r := RecipeService.DeleteSpec(old(store.State()), id, f);
      store.State() == r.db && result == DeleteMessage(r.result)
  {
    var header := store.SelectRecipe(id, f.fetch);
    if header.None? {
      return DeleteMessage(RecipeService.FetchFailed);
    }
    var url := ImageUrl(header.value);
    if url.Some? {
      var _ := DeleteImageFromCloudinary(store, url.value, reply);
    }
    var ok := store.DeleteIngredientsOf(id, f.ingredients);
    if !ok {
      return DeleteMessage(RecipeService.IngredientsFailed);
    }
    ok := store.DeleteStepsOf(id, f.steps);
    if !ok {
      return DeleteMessage(RecipeService.StepsFailed);
    }
    ok := store.DeleteRecipe(id, f.header);
    return DeleteMessage(if ok then RecipeService.Deleted else RecipeService.HeaderFailed);
  }

  /** `canUserModifyRecipe(recipeId, userId)`: only the stored owner, and no answer but false on a refused read. */
  method CanUserModifyRecipe(store: Store, id: RecipeId, userId: string, fail: bool) returns (allowed: bool)
    ensures allowed <==> !fail && id in store.recipes && "user_id" in store.recipes[id] && store.recipes[id]["user_id"] == Str(userId)
  {
    var header := store.SelectRecipe(id, fail);
    if header.None? {
      return false;
    }
    allowed := "user_id" in header.value && header.value["user_id"] == Str(userId);
  }

  /** `updateRecipeImage(recipeId, newImageFile)`: the same steps as in the other service. */
  method UpdateRecipeImage(store: Store, id: RecipeId, f: RecipeService.ImageFaults, uploaded: Option<string>, reply: ProxyReply)
    returns (ok: bool)
    modifies store
    ensures var r := RecipeService.UpdateImageSpec(old(store.State()), id, f, uploaded); store.State() == r.db && ok == r.result
  {
    var header := store.SelectRecipe(id, f.fetch);
    if header.None? {
      return false;
    }
    var oldUrl := ImageUrl(header.value);
    if oldUrl.Some? {
      var _ := DeleteImageFromCloudinary(store, oldUrl.value, reply);
    }
    var newUrl := store.UploadImage(uploaded);
    if newUrl.None? || newUrl.value == "" {
      return false;
    }
    ok := store.UpdateRecipe(id, map["image_url" := Str(newUrl.value)], f.update);
  }
}
