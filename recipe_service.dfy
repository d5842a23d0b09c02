/**
 * The other recipe service (src/services/recipeService.ts): creation that
 * compensates through its own deletion, the staged deletion, the unfiltered
 * header update, and the image replacement. The deletion and the image
 * replacement are written the same way in src/services/recipeManagementService.ts,
 * whose model reuses the specifications stated here.
 */
module RecipeService {
  import opened Wrappers
  import opened RecipeTypes
  import opened Backend
  import opened CloudinaryService
  import RecipeCreationService

  /** How far a deletion got. */
  datatype DeleteStage = Deleted | FetchFailed | IngredientsFailed | StepsFailed | HeaderFailed

  /** Which reads and calls of a deletion are refused. */
  datatype DeleteFaults = DeleteFaults(fetch: bool, ingredients: bool, steps: bool, header: bool)

  /** The backend after the old image, if the header names one, is sent for deletion; the answer does not matter. */
  function CleanupImage(db: Db, header: Header): Db {
    match ImageUrl(header)
    case None => db
    case Some(url) => ImageDeletion(db, url)
  }

  /**
   * `deleteRecipe`: read the header (a refusal, or no such row, stops here),
   * send its image for deletion, then delete the ingredient rows, the step
   * rows and the header, each stage only if the one before went through.
   */
  function DeleteSpec(db: Db, id: RecipeId, f: DeleteFaults): Outcome<DeleteStage> {
    match ReadRecipe(db, id, f.fetch)
    case None => Outcome(db, FetchFailed)
    case Some(header) =>
      var db1 := Issue(CleanupImage(db, header), DeleteIngredientsOf(id), !f.ingredients);
      if f.ingredients then Outcome(db1, IngredientsFailed)
      else
        var db2 := Issue(db1, DeleteStepsOf(id), !f.steps);
        if f.steps then Outcome(db2, StepsFailed)
        else Outcome(Issue(db2, Call.DeleteRecipe(id), !f.header), if f.header then HeaderFailed else Deleted)
  }

  /** The deletion sequence shared by both services; `reply` is what the deletion proxy answers. */
  method RunDeletion(store: Store, id: RecipeId, f: DeleteFaults, reply: ProxyReply) returns (stage: DeleteStage)
    modifies store
    ensures var r := DeleteSpec(old(store.State()), id, f); store.State() == r.db && stage == r.result
  {
    var header := store.SelectRecipe(id, f.fetch);
    if header.None? {
      return FetchFailed;
    }
    var url := ImageUrl(header.value);
    if url.Some? {
      var _ := DeleteImageFromCloudinary(store, url.value, reply);
    }
    var ok := store.DeleteIngredientsOf(id, f.ingredients);
    if !ok {
      return IngredientsFailed;
    }
    ok := store.DeleteStepsOf(id, f.steps);
    if !ok {
      return StepsFailed;
    }
    ok := store.DeleteRecipe(id, f.header);
    return if ok then Deleted else HeaderFailed;
  }

  /** `deleteRecipe(recipeId)`: true only when all three deletes went through. */
  method DeleteRecipe(store: Store, id: RecipeId, f: DeleteFaults, reply: ProxyReply) returns (deleted: bool)
    modifies store
    ensures var r := DeleteSpec(old(store.State()), id, f); store.State() == r.db && deleted == (r.result == Deleted)
  {
    var stage := RunDeletion(store, id, f, reply);
    deleted := stage == Deleted;
  }

  /** Sending an image for deletion changes no table. */
  lemma CleanupLeavesTables(db: Db, header: Header)
    ensures CleanupImage(db, header).(trace := db.trace) == db
  {
  }

  /** The calls a deletion issues after the image request, for each stage it stops at. */
  function DeleteCallsUpTo(id: RecipeId, stage: DeleteStage): seq<Call> {
    var all := [DeleteIngredientsOf(id), DeleteStepsOf(id), Call.DeleteRecipe(id)];
    match stage
    case FetchFailed => []
    case IngredientsFailed => all[..1]
    case StepsFailed => all[..2]
    case HeaderFailed => all
    case Deleted => all
  }

  /** The image request, if any, comes first; then the deletes in order, up to the one that failed. */
  lemma DeleteOrder(db: Db, id: RecipeId, f: DeleteFaults)
    ensures var r := DeleteSpec(db, id, f);
      r.result != FetchFailed ==>
        r.db.trace == CleanupImage(db, db.recipes[id]).trace + DeleteCallsUpTo(id, r.result)
  {
  }

  /** A deletion succeeds exactly when the recipe exists and nothing is refused; it then leaves nothing of it. */
  lemma DeleteSucceedsIff(db: Db, id: RecipeId, f: DeleteFaults)
    ensures var r := DeleteSpec(db, id, f);
      && (r.result == Deleted <==> id in db.recipes && !f.fetch && !f.ingredients && !f.steps && !f.header)
      && (r.result == Deleted ==> Gone(r.db, id))
  {
    var r := DeleteSpec(db, id, f);
    if r.result == Deleted {
      var db0 := CleanupImage(db, db.recipes[id]);
      RowsOfDropRows(db0.ingredients, id, id);
      RowsOfDropRows(db0.steps, id, id);
    }
  }

  /** A failed read, or a recipe that does not exist, stops the deletion before any call. */
  lemma FetchFailureTouchesNothing(db: Db, id: RecipeId, f: DeleteFaults)
    requires f.fetch || id !in db.recipes
    ensures DeleteSpec(db, id, f) == Outcome(db, FetchFailed)
  {
  }

  /** A deletion that stops at the steps leaves a recipe without ingredients but with its header and steps. */
  lemma StepsFailureLeavesHalfDeleted(db: Db, id: RecipeId, f: DeleteFaults)
    ensures var r := DeleteSpec(db, id, f);
      r.result == StepsFailed ==>
        && RowsOf(r.db.ingredients, id) == []
        && RowsOf(r.db.steps, id) == RowsOf(db.steps, id)
        && id in r.db.recipes && r.db.recipes[id] == db.recipes[id]
  {
    var r := DeleteSpec(db, id, f);
    if r.result == StepsFailed {
      var db0 := CleanupImage(db, db.recipes[id]);
      RowsOfDropRows(db0.ingredients, id, id);
    }
  }

  /** A deletion leaves every other recipe as it was. */
  lemma DeleteLeavesOthers(db: Db, id: RecipeId, f: DeleteFaults)
    ensures OthersUnchanged(db, DeleteSpec(db, id, f).db, id)
  {
    if !f.fetch && id in db.recipes {
      var db0 := CleanupImage(db, db.recipes[id]);
      var db1 := Issue(db0, DeleteIngredientsOf(id), !f.ingredients);
      var db2 := Issue(db1, DeleteStepsOf(id), !f.steps);
      var db3 := Issue(db2, Call.DeleteRecipe(id), !f.header);
      CleanupLeavesTables(db, db.recipes[id]);
      IssueConfined(db0, DeleteIngredientsOf(id), !f.ingredients, id);
      IssueConfined(db1, DeleteStepsOf(id), !f.steps, id);
      IssueConfined(db2, Call.DeleteRecipe(id), !f.header, id);
      OthersUnchangedTrans(db, db0, db1, id);
      OthersUnchangedTrans(db, db1, db2, id);
      OthersUnchangedTrans(db, db2, db3, id);
    }
  }

  /** Which calls of a compensated creation are refused: the three inserts, and the deletion that compensates. */
  datatype CreateFaults = CreateFaults(header: bool, ingredients: bool, steps: bool, cleanup: DeleteFaults)

  /** `createRecipe`: as in the other service, except that a refused child insert is compensated by `deleteRecipe`. */
  function CreateSpec(db: Db, form: RecipeFormData, userId: string, f: CreateFaults): Outcome<Option<RecipeId>> {
    var header := InsertRecipe(RecipeCreationService.NewHeader(form, userId));
    if f.header then Outcome(Issue(db, header, false), None)
    else ChildStages(Issue(db, header, true), db.nextId, form, f)
  }

  /** What follows a stored header `id`: the same inserts, a refused one compensated by a deletion. */
  function ChildStages(db1: Db, id: RecipeId, form: RecipeFormData, f: CreateFaults): Outcome<Option<RecipeId>> {
    var ingredientRows := RecipeCreationService.IngredientRows(id, form.ingredients);
    if ingredientRows != [] && f.ingredients then
      Outcome(DeleteSpec(Issue(db1, InsertIngredients(ingredientRows), false), id, f.cleanup).db, None)
    else
      var db2 := if ingredientRows != [] then Issue(db1, InsertIngredients(ingredientRows), true) else db1;
      var stepRows := RecipeCreationService.StepRows(id, form.steps);
      if stepRows != [] && f.steps then
        Outcome(DeleteSpec(Issue(db2, InsertSteps(stepRows), false), id, f.cleanup).db, None)
      else
        Outcome(if stepRows != [] then Issue(db2, InsertSteps(stepRows), true) else db2, Some(id))
  }

  /** `createRecipe(formData, userId)`. */
  method CreateRecipe(store: Store, form: RecipeFormData, userId: string, f: CreateFaults, reply: ProxyReply)
    returns (recipeId: Option<RecipeId>)
    modifies store
    ensures var r := CreateSpec(old(store.State()), form, userId, f); store.State() == r.db && recipeId == r.result
  {
    var inserted := store.InsertRecipe(RecipeCreationService.NewHeader(form, userId), f.header);
    if inserted.None? {
      return None;
    }
    recipeId := InsertChildren(store, inserted.value, form, f, reply);
  }

  /** The inserts after the header of `createRecipe`, for the new recipe `id`. */
  method InsertChildren(store: Store, id: RecipeId, form: RecipeFormData, f: CreateFaults, reply: ProxyReply)
    returns (recipeId: Option<RecipeId>)
    modifies store
    ensures var r := ChildStages(old(store.State()), id, form, f); store.State() == r.db && recipeId == r.result
  {
    if |form.ingredients| > 0 {
      var rows := RecipeCreationService.IngredientRows(id, form.ingredients);
      if |rows| > 0 {
        var ok := store.InsertIngredients(rows, f.ingredients);
        if !ok {
          var _ := DeleteRecipe(store, id, f.cleanup, reply);
          return None;
        }
      }
    }
    if |form.steps| > 0 {
      var rows := RecipeCreationService.StepRows(id, form.steps);
      if |rows| > 0 {
        var ok := store.InsertSteps(rows, f.steps);
        if !ok {
          var _ := DeleteRecipe(store, id, f.cleanup, reply);
          return None;
        }
      }
    }
    return Some(id);
  }

  /** The creation fault set of the other service that refuses the same inserts. */
  function WithRollback(f: CreateFaults): RecipeCreationService.CreateFaults {
    RecipeCreationService.CreateFaults(f.header, f.ingredients, f.steps, f.cleanup.ingredients, f.cleanup.steps, f.cleanup.header)
  }

  /** Where no compensation runs, both creation paths issue the same calls and return the same id. */
  lemma SameCreationWithoutCompensation(db: Db, form: RecipeFormData, userId: string, f: CreateFaults)
    ensures var r := CreateSpec(db, form, userId, f);
      r.result.Some? || f.header ==> r == RecipeCreationService.CreateSpec(db, form, userId, WithRollback(f))
  {
  }

  /**
   * The compensation is gated by its read: when a child insert is refused
   * and that read fails, the header row stays behind although no id is
   * returned. When no step of the compensation is refused, the recipe is
   * gone; the new header has no image, so no image request is sent.
   */
  lemma CompensationIsGated(db: Db, form: RecipeFormData, userId: string, f: CreateFaults)
    requires !f.header
    ensures var id := db.nextId; var r := CreateSpec(db, form, userId, f);
      r.result == None ==>
        && (f.cleanup.fetch ==> id in r.db.recipes && r.db.recipes[id] == RecipeCreationService.NewHeader(form, userId))
        && (f.cleanup == DeleteFaults(false, false, false, false) ==> Gone(r.db, id))
        && (forall p :: DeleteImageRequest(p) in r.db.trace ==> DeleteImageRequest(p) in db.trace)
  {
    var id := db.nextId;
    var h := RecipeCreationService.NewHeader(form, userId);
    var db1 := Issue(db, InsertRecipe(h), true);
    var ir := RecipeCreationService.IngredientRows(id, form.ingredients);
    var pre: Db;
    if ir != [] && f.ingredients {
      pre := Issue(db1, InsertIngredients(ir), false);
    } else {
      var db2 := if ir != [] then Issue(db1, InsertIngredients(ir), true) else db1;
      var sr := RecipeCreationService.StepRows(id, form.steps);
      if !(sr != [] && f.steps) {
        return;
      }
      pre := Issue(db2, InsertSteps(sr), false);
    }
    assert id in pre.recipes && pre.recipes[id] == h;
    assert forall c :: c in pre.trace && c !in db.trace ==> c.InsertRecipe? || c.InsertIngredients? || c.InsertSteps?;
    CompensationFrom(db, pre, id, h, f.cleanup);
  }

  /**
   * A compensating deletion of a header `h` without image: a failed read
   * leaves `h` in place, a deletion with nothing refused leaves nothing of
   * the recipe, and no image request is added to the trace.
   */
  lemma CompensationFrom(db: Db, pre: Db, id: RecipeId, h: Header, g: DeleteFaults)
    requires id in pre.recipes && pre.recipes[id] == h && ImageUrl(h) == None
    requires forall p :: DeleteImageRequest(p) in pre.trace ==> DeleteImageRequest(p) in db.trace
    ensures var d := DeleteSpec(pre, id, g).db;
      && (g.fetch ==> id in d.recipes && d.recipes[id] == h)
      && (g == DeleteFaults(false, false, false, false) ==> Gone(d, id))
      && (forall p :: DeleteImageRequest(p) in d.trace ==> DeleteImageRequest(p) in db.trace)
  {
    var r := DeleteSpec(pre, id, g);
    DeleteSucceedsIff(pre, id, g);
    DeleteOrder(pre, id, g);
    if r.result != FetchFailed {
      assert r.db.trace == pre.trace + DeleteCallsUpTo(id, r.result);
    }
  }

  /** `updateRecipe(recipeId, updates)`: the whole object, unfiltered, in one header update. */
  function UpdateSpec(db: Db, id: RecipeId, updates: Header, fail: bool): Outcome<bool> {
    Outcome(Issue(db, Call.UpdateRecipe(id, updates), !fail), !fail)
  }

  method UpdateRecipe(store: Store, id: RecipeId, updates: Header, fail: bool) returns (ok: bool)
    modifies store
    ensures var r := UpdateSpec(old(store.State()), id, updates, fail); store.State() == r.db && ok == r.result
  {
    ok := store.UpdateRecipe(id, updates, fail);
  }

  /**
   * Nothing filters the update: every key it names overwrites the stored
   * column, the owner's `user_id` included, and every other column stays.
   */
  lemma UnfilteredUpdateOverwrites(db: Db, id: RecipeId, updates: Header, fail: bool)
    requires id in db.recipes && !fail
    ensures var r := UpdateSpec(db, id, updates, fail);
      && r.result
      && id in r.db.recipes
      && (forall k :: k in updates ==> k in r.db.recipes[id] && r.db.recipes[id][k] == updates[k])
      && (forall k :: k in db.recipes[id] && k !in updates ==> k in r.db.recipes[id] && r.db.recipes[id][k] == db.recipes[id][k])
  {
  }

  /** Which reads and calls of an image replacement are refused. */
  datatype ImageFaults = ImageFaults(fetch: bool, update: bool)

  /** `!newImageUrl`: no URL, or an empty one. */
  predicate Uploaded(url: Option<string>) {
    url.Some? && url.value != ""
  }

  /**
   * `updateRecipeImage`: read the header (a refusal, or no such row, stops
   * here), send the old image for deletion, upload the new one, and store its
   * URL only when the upload gave one.
   */
  function UpdateImageSpec(db: Db, id: RecipeId, f: ImageFaults, uploaded: Option<string>): Outcome<bool> {
    match ReadRecipe(db, id, f.fetch)
    case None => Outcome(db, false)
    case Some(header) =>
      var db1 := Issue(CleanupImage(db, header), UploadImage, true);
      if !Uploaded(uploaded) then Outcome(db1, false)
      else Outcome(Issue(db1, Call.UpdateRecipe(id, map["image_url" := Str(uploaded.value)]), !f.update), !f.update)
  }

  /** `updateRecipeImage(recipeId, newImageFile)`; `uploaded` is the URL the media host answers with, if any. */
  method UpdateRecipeImage(store: Store, id: RecipeId, f: ImageFaults, uploaded: Option<string>, reply: ProxyReply)
    returns (ok: bool)
    modifies store
    ensures var r := UpdateImageSpec(old(store.State()), id, f, uploaded); store.State() == r.db && ok == r.result
  {
    var header := store.SelectRecipe(id, f.fetch);
    if header.None? {
      return false;
    }
    var oldUrl := ImageUrl(header.value);
    if oldUrl.Some? {
      var _ := DeleteImageFromCloudinary(store, oldUrl.value, reply);
    }
    var newUrl := store.UploadImage(uploaded);
    if newUrl.None? || newUrl.value == "" {
      return false;
    }
    ok := store.UpdateRecipe(id, map["image_url" := Str(newUrl.value)], f.update);
  }

  /**
   * The old image is sent for deletion before the upload; when the upload
   * fails the call returns false and no header changes, so the row keeps
   * pointing at the image it has just asked to delete.
   */
  lemma UploadFailureKeepsImageUrl(db: Db, id: RecipeId, f: ImageFaults, uploaded: Option<string>)
    requires !f.fetch && id in db.recipes && !Uploaded(uploaded)
    ensures var r := UpdateImageSpec(db, id, f, uploaded); var url := ImageUrl(db.recipes[id]);
      && !r.result
      && r.db.recipes == db.recipes
      && (url.Some? && ExtractPublicIdFromUrl(url.value).Some? ==>
            r.db.trace == db.trace + [DeleteImageRequest(ExtractPublicIdFromUrl(url.value).value), UploadImage])
  {
  }

  /** A replacement that succeeds stores the new URL in the recipe's `image_url` and changes no other column, recipe or table. */
  lemma ImageReplaced(db: Db, id: RecipeId, f: ImageFaults, uploaded: Option<string>)
    ensures var r := UpdateImageSpec(db, id, f, uploaded);
      r.result ==>
        && Uploaded(uploaded)
        && id in db.recipes
        && r.db.recipes == db.recipes[id := db.recipes[id]["image_url" := Str(uploaded.value)]]
        && r.db.ingredients == db.ingredients && r.db.steps == db.steps
  {
    var r := UpdateImageSpec(db, id, f, uploaded);
    if r.result {
      assert db.recipes[id] + map["image_url" := Str(uploaded.value)] == db.recipes[id]["image_url" := Str(uploaded.value)];
    }
  }
}
