# Recipe planner: a verified model of its client-side logic

The application is a recipe and meal-planning web app. Users write recipes, which have ingredient lines and numbered steps. They keep a shared ingredient catalogue and plan recipes into the meals of a calendar. Their recipe images are stored on a media host. This project models the parts of the client and of its one serverless function that make decisions:

- the recipe form validator and the edit modal's own submit gate;
- the creation form hook (`useRecipeForm`) and the edit form hook (`useRecipeEdit`);
- the meal planner hook (`useMeals`): meal rows, the plan `date -> meal -> recipes`, and its re-keying when a meal is removed;
- the ingredient catalogue page: permissions, visibility, what a save stores, the search filter, the category colours;
- the three recipe services' call sequences (create, roll back or compensate, update, delete, owner check, image replacement) over an in-memory store of the three recipe tables;
- the media identifier extracted from a stored image URL, and the client call that asks the proxy to delete it;
- the deletion proxy `api/deleteImage.ts`: its status codes, its signing string and its form body.

Layout, one module per file:

| file | module | models |
|---|---|---|
| wrappers.dfy | Wrappers | `Option` |
| strings.dfy | Strings | `trim`, ASCII `toLowerCase`, `includes`, decimal rendering |
| recipe_types.dfy | RecipeTypes | src/types/recipe.ts, plus the list helpers both form hooks use |
| calendar_types.dfy | CalendarTypes | src/types/calendar.ts |
| recipe_validation.dfy | RecipeValidation | src/utils/recipeValidation.ts |
| recipe_edit_modal.dfy | RecipeEditModal | the submit gate and close guards of RecipeEditModal.tsx |
| recipe_form.dfy | RecipeForm | src/hooks/useRecipeForm.ts, as a class whose `formData` field the handlers reassign |
| recipe_edit.dfy | RecipeEdit | src/hooks/useRecipeEdit.ts, each handler a `prev -> next` function |
| meals.dfy | Meals | src/hooks/useMeals.ts, as a class; the re-keying loops are methods |
| ingredients_page.dfy | IngredientsPage | IngredientsPage.tsx: pure rules, plus a `Page` class for the handlers |
| backend.dfy | Backend | the database tables and the media host, with a trace of issued calls and a `fail` flag per call |
| recipe_rows.dfy | RecipeRows | how form lines become child rows |
| recipes_creation_service.dfy | RecipeCreationService | src/services/recipesCreationService.ts |
| recipe_service.dfy | RecipeService | src/services/recipeService.ts |
| recipe_management_service.dfy | RecipeManagementService | src/services/recipeManagementService.ts |
| cloudinary.dfy | CloudinaryService | `extractPublicIdFromUrl` and `deleteImageFromCloudinary` |
| delete_image_proxy.dfy | DeleteImageProxy | api/deleteImage.ts |

How the services are modelled:

- The backend is a `Backend.Store` object. It holds:
  - the `recipes` rows, each a map from column name to value;
  - the `recipe_ingredients` and `recipe_steps` rows, in insertion order;
  - the next id the database hands out;
  - a `trace` of every call issued, in order. This trace is how ordering and gating are stated.
- Every backend call takes a `fail` flag, so any error the backend can return is an input. A service method takes a record of these flags.
- Each service method is proved equal to a specification function. That function returns an `Outcome(db, result)`: the backend afterwards, and what the call returns.
- The lemmas state the service's properties about that function: order, gating, compensation, and "no other recipe changes".

## Model

| member | source | states |
|---|---|---|
| Strings.BlankIffTrimEmpty | src/utils/recipeValidation.ts:12 | A string is blank (all whitespace) exactly when `trim()` makes it empty, the test the code writes as `!s.trim()`. |
| Strings.Lower | src/components/IngredientsPage/IngredientsPage.tsx:191 | Lower-casing keeps the length and maps each character on its own (ASCII letters only). |
| Strings.ParseNatToString | api/deleteImage.ts:23 | The decimal rendering of a timestamp reads back as the same number. |
| Strings.NatToStringInjective | src/hooks/useMeals.ts:13 | Different numbers render to different decimal strings. |
| RecipeTypes.SetField | src/hooks/useRecipeForm.ts:38 | `{ ...ing, [field]: value }` replaces the named member and keeps every other member. |
| RecipeTypes.RemoveAt | src/hooks/useRecipeForm.ts:47 | `filter((_, i) => i !== index)` drops exactly the element at `index` and keeps the order; an index outside the list drops nothing. |
| RecipeTypes.Renumber | src/hooks/useRecipeForm.ts:76 | After renumbering the steps are numbered 1..N in order, with each description and every other member kept. |
| RecipeTypes.RenumberNumbered | src/hooks/useRecipeForm.ts:76 | Renumbering a list already numbered 1..N changes nothing. |
| RecipeValidation.IngredientError | src/utils/recipeValidation.ts:20-38 | For one ingredient line the missing id is reported first, then a quantity ≤ 0, then a blank unit; no message exactly when the line is complete. |
| RecipeValidation.FirstIngredientError | src/utils/recipeValidation.ts:20-39 | No ingredient message exactly when every line is complete. |
| RecipeValidation.FirstStepError | src/utils/recipeValidation.ts:42-49 | No step message exactly when every step is non-blank; otherwise the step message. |
| RecipeValidation.ValidateForm | src/utils/recipeValidation.ts:10-52 | Valid exactly when the title is not blank, every ingredient line is complete and every step is non-blank. Valid exactly when there is no message. A blank title gives the title message whatever else the form holds. |
| RecipeValidation.FirstFailingIngredientDecides | src/utils/recipeValidation.ts:20-39 | When line `k` is the first incomplete line, its own first failing check gives the message. |
| RecipeValidation.IngredientsBeforeSteps | src/utils/recipeValidation.ts:12-49 | With a title, the first failing ingredient line decides the result before any step is looked at. |
| RecipeValidation.BlankStepRejected | src/utils/recipeValidation.ts:42-49 | With a title and complete lines, any blank step gives the step message. |
| RecipeValidation.EmptyListsPass | src/utils/recipeValidation.ts:20-51 | A titled form with no ingredient lines and no steps is valid. |
| RecipeEditModal.HandleSubmit | src/components/RecipeEditModal/RecipeEditModal.tsx:71-94 | `onSubmit` gets the unchanged form exactly when the title is not blank, no line lacks an id or a unit or has quantity ≤ 0, and no step is blank. Otherwise the first failing check raises its alert: a blank title, then an incomplete line, then a blank step. |
| RecipeEditModal.ValidFormPassesGate | src/components/RecipeEditModal/RecipeEditModal.tsx:74-93 | Every form the validator accepts passes the gate. |
| RecipeEditModal.GateAgreesWhenUnitsNotBlank | src/components/RecipeEditModal/RecipeEditModal.tsx:79-82 | When no unit is blank, the gate and the validator accept the same forms. |
| RecipeEditModal.WhitespaceUnitPassesOnlyTheGate | src/components/RecipeEditModal/RecipeEditModal.tsx:79 | A form whose only unit is a space passes the gate, but the validator rejects it with the unit message. |
| RecipeEditModal.CloseGuards | src/components/RecipeEditModal/RecipeEditModal.tsx:52-56 | While a submission runs, neither Escape nor a backdrop click closes the modal; otherwise both do. The backdrop half is at lines 96-100. |
| RecipeForm.RecipeFormHook.constructor | src/hooks/useRecipeForm.ts:22 | The form starts as `initialFormData`, which is well formed. |
| RecipeForm.RecipeFormHook.SetFormData | src/hooks/useRecipeForm.ts:22 | The form becomes the given data. |
| RecipeForm.RecipeFormHook.ResetForm | src/hooks/useRecipeForm.ts:24-26 | The form is back to `initialFormData`: no title, one blank line, one empty step numbered 1, private. |
| RecipeForm.RecipeFormHook.AddIngredient | src/hooks/useRecipeForm.ts:29-34 | Exactly one blank line is appended and the rest of the form is kept; steps stay numbered 1..N. |
| RecipeForm.RecipeFormHook.ChangeIngredient | src/hooks/useRecipeForm.ts:36-43 | Only the named member of line `index` changes. |
| RecipeForm.RecipeFormHook.RemoveIngredient | src/hooks/useRecipeForm.ts:45-52 | Nothing changes with one line left; otherwise exactly line `index` is dropped, in order. Neither list is ever emptied. |
| RecipeForm.RecipeFormHook.AddStep | src/hooks/useRecipeForm.ts:55-61 | One empty step numbered `length + 1` is appended, which keeps the steps numbered 1..N. |
| RecipeForm.RecipeFormHook.ChangeStep | src/hooks/useRecipeForm.ts:63-70 | Only the description of step `index` changes. |
| RecipeForm.RecipeFormHook.RemoveStep | src/hooks/useRecipeForm.ts:72-81 | Nothing changes with one step left; otherwise step `index` is dropped and the rest are renumbered 1..N in order. |
| RecipeEdit.InsertStepMultiset | src/hooks/useRecipeEdit.ts:37 | Inserting a step adds exactly that step: no step is lost or duplicated. |
| RecipeEdit.InsertStepBounded | src/hooks/useRecipeEdit.ts:37 | A number at most the inserted step's and every listed step's is at most every number of the result. |
| RecipeEdit.ConsSorted | src/hooks/useRecipeEdit.ts:37 | A step numbered no higher than every step of a sorted list keeps the list sorted when put in front. |
| RecipeEdit.InsertStepSorted | src/hooks/useRecipeEdit.ts:37 | Inserting a step into a list sorted by number keeps it sorted. |
| RecipeEdit.InsertStepCorrect | src/hooks/useRecipeEdit.ts:37 | Inserting a step into a list sorted by number keeps it sorted and adds exactly that step. |
| RecipeEdit.SortSteps | src/hooks/useRecipeEdit.ts:36-37 | The steps sorted by `step_number` are sorted and are a permutation of the input. |
| RecipeEdit.StripSteps | src/hooks/useRecipeEdit.ts:38-41 | Each step is reduced to its number and description, in order. |
| RecipeEdit.InitializeForm | src/hooks/useRecipeEdit.ts:28-44 | Defines the form `initializeForm` sets: the title, the stripped ingredient lines, the steps sorted by number then stripped, and `is_public` defaulting to false. Its properties are stated by `InitializeCopiesIngredients` and `InitializeOrdersSteps`. |
| RecipeEdit.InitializeCopiesIngredients | src/hooks/useRecipeEdit.ts:28-35 | `initializeForm` copies each line's id, quantity and unit in the recipe's order, and drops the database members. |
| RecipeEdit.InitializeOrdersSteps | src/hooks/useRecipeEdit.ts:36-42 | `initializeForm` gives the stripped steps sorted by ascending number, none lost or added. It copies the title and the visibility. |
| RecipeEdit.StripAppend | src/hooks/useRecipeEdit.ts:38-41 | Stripping distributes over concatenation. |
| RecipeEdit.StripInsert | src/hooks/useRecipeEdit.ts:36-41 | Stripping after an insertion adds exactly the stripped new step. |
| RecipeEdit.StripSortPreservesMultiset | src/hooks/useRecipeEdit.ts:36-41 | Sorting then stripping gives the stripped steps, reordered. |
| RecipeEdit.StripCons | src/hooks/useRecipeEdit.ts:38-41 | Stripping a non-empty list strips its first step, then the rest. |
| RecipeEdit.ResetForm | src/hooks/useRecipeEdit.ts:46-48 | The form is back to the hook's initial form: no title, one blank line, one empty step, private. |
| RecipeEdit.AddIngredient | src/hooks/useRecipeEdit.ts:50-55 | Defines `handleAddIngredient`: one blank line appended. It keeps the form well formed (`HandlersPreserveWellFormed`). |
| RecipeEdit.ChangeIngredient | src/hooks/useRecipeEdit.ts:57-67 | Defines `handleIngredientChange`: the `map` that rewrites only line `index`. Its effect on the whole form is stated by `ChangeTouchesOnlyIndex`. |
| RecipeEdit.RemoveIngredient | src/hooks/useRecipeEdit.ts:69-79 | Defines `handleRemoveIngredient`: line `index` dropped unless only one line is left. Its effect is stated by `RemoveKeepsLastElement`. |
| RecipeEdit.AddStep | src/hooks/useRecipeEdit.ts:81-89 | Defines `handleAddStep`: a step numbered one above the highest number, with an empty description. Freshness is stated by `AddStepNumberIsFresh`, and numbering 1..N by `HandlersPreserveWellFormed`. |
| RecipeEdit.ChangeStep | src/hooks/useRecipeEdit.ts:91-101 | Defines `handleStepChange`: only the description of step `index` is rewritten. Its effect is stated by `ChangeTouchesOnlyIndex`. |
| RecipeEdit.RemoveStep | src/hooks/useRecipeEdit.ts:103-116 | Defines `handleRemoveStep`: step `index` dropped and the rest renumbered, unless only one step is left. Its effect is stated by `RemoveStepRenumbers` and `RemoveKeepsLastElement`. |
| RecipeEdit.ResetMatchesSharedInitialForm | src/hooks/useRecipeEdit.ts:18-23 | The hook's private initial form equals the shared `initialFormData` of src/types/recipe.ts:49-54. |
| RecipeEdit.MaxStepNumber | src/hooks/useRecipeEdit.ts:83 | `Math.max` of the step numbers is at least every number and is one of them. |
| RecipeEdit.AddStepNumberIsFresh | src/hooks/useRecipeEdit.ts:81-89 | With steps present, `handleAddStep` keeps the old steps and appends one numbered strictly above all of them. |
| RecipeEdit.MaxOfNumbered | src/hooks/useRecipeEdit.ts:83 | On steps numbered 1..N the largest number is N, so the new step gets N + 1. |
| RecipeEdit.HandlersPreserveWellFormed | src/hooks/useRecipeEdit.ts:50-116 | All six element handlers keep the steps numbered 1..N and neither list empty. |
| RecipeEdit.RemoveStepRenumbers | src/hooks/useRecipeEdit.ts:103-116 | With more than one step, `handleRemoveStep` drops exactly step `index` and numbers the rest `i + 1`, with their descriptions kept in order. |
| RecipeEdit.RemoveKeepsLastElement | src/hooks/useRecipeEdit.ts:69-79 | With one line or one step left, the remove handlers change nothing. Otherwise `handleRemoveIngredient` drops exactly line `index`. Steps: lines 103-116. |
| RecipeEdit.ChangeTouchesOnlyIndex | src/hooks/useRecipeEdit.ts:57-67 | For an index in range, `handleIngredientChange` gives the same form with only line `index` rewritten by the field update; out of range it gives the form unchanged. `handleStepChange` (lines 91-101) does the same with the description of step `index`. Title, the other list and `isPublic` are kept in every case. |
| Meals.MealNameInjective | src/hooks/useMeals.ts:13 | `Repas a` equals `Repas b` only when `a == b`. |
| Meals.MealNames | src/hooks/useMeals.ts:22 | The renumbered rows are `Repas 1 .. Repas n`. |
| Meals.Without | src/hooks/useMeals.ts:19 | The filtered rows hold exactly the old rows other than the removed meal. |
| Meals.WithoutAbsent | src/hooks/useMeals.ts:19 | Filtering out a meal that is not there keeps the rows. |
| Meals.WithoutUnique | src/hooks/useMeals.ts:19 | Filtering out a meal that occurs only at position `p` drops exactly position `p`. |
| Meals.RemovedMealRows | src/hooks/useMeals.ts:16-22 | On rows `Repas 1..N`, removing a present meal drops its one position, and removing an absent one drops nothing. |
| Meals.RekeyPrefixCells | src/hooks/useMeals.ts:29-35 | After the `forEach` has visited `n` rows, `Repas n` holds the list of the n-th surviving meal, when that meal had one. No other key exists. |
| Meals.RekeyDay | src/hooks/useMeals.ts:29-35 | Defines the day the `forEach` builds: `Repas n` maps to the list of the n-th surviving meal when it has one. Its cells are stated by `RekeyDayCells`, and `RekeyDayMeals` is proved to compute it. |
| Meals.RekeyPlan | src/hooks/useMeals.ts:25-43 | Defines the plan the `for…of` builds: every day re-keyed, days left empty dropped. It is stated by `RekeyPlanTidy` and `RekeyPlanCells`, and `RekeyPlannedMeals` is proved to compute it. |
| Meals.RekeyDayCells | src/hooks/useMeals.ts:29-35 | Each cell of the re-keyed day is the list of the meal that now has that number, and nothing else. |
| Meals.TidyDeterminedByCells | src/hooks/useMeals.ts:84-98 | Two plans with no empty day or cell that agree on every cell are equal. |
| Meals.RekeyPlanTidy | src/hooks/useMeals.ts:25-43 | Re-keying keeps the plan free of empty days and cells. A day survives exactly when one of its meals survives with a cell. |
| Meals.RekeyPlanCells | src/hooks/useMeals.ts:25-43 | In the re-keyed plan, cell `Repas n` of any day is the old cell of the n-th surviving meal, and no other name has a cell. |
| Meals.RemoveMealRekeys | src/hooks/useMeals.ts:16-46 | Removing the meal at position `p` moves old row `n` (up to `p`) or `n + 1` (after it) to `Repas n`. The removed meal's cells are dropped, and `Repas N` disappears from every day. |
| Meals.RekeyDayMeals | src/hooks/useMeals.ts:29-35 | The `forEach` loop builds exactly the re-keyed day. |
| Meals.RekeyPlannedMeals | src/hooks/useMeals.ts:26-42 | The `for…of` loop builds exactly the re-keyed plan, keeping only days with a cell left. |
| Meals.FindRecipe | src/hooks/useMeals.ts:63 | `find` returns the first recipe with the id, or nothing when no recipe has it. |
| Meals.AppendToCell | src/hooks/useMeals.ts:66-77 | Defines the plan `addPlannedMeal` returns: the recipe appended to cell (day, meal), creating the day and cell when absent. It is stated by `AppendToCellCells` and `AppendToCellTidy`. |
| Meals.AppendToCellCells | src/hooks/useMeals.ts:66-77 | Appending adds the recipe at the end of the (day, meal) cell only, adds at most that day, and keeps the plan tidy. |
| Meals.AppendToCellTidy | src/hooks/useMeals.ts:66-77 | Appending to a plan with no empty day and no empty cell leaves a plan with neither: the written cell holds at least the new recipe. |
| Meals.RemoveFromCell | src/hooks/useMeals.ts:86-98 | Defines the plan `removePlannedRecipe` returns: position `recipeIndex` dropped from an existing cell, then an emptied cell and an emptied day deleted. It is stated by `RemoveFromCellCells`. |
| Meals.RemoveFromCellCells | src/hooks/useMeals.ts:86-98 | Removing drops only position `recipeIndex` of the one cell, never adds a day, drops at most that day, and keeps the plan tidy. |
| Meals.MealPlanner.constructor | src/hooks/useMeals.ts:5-9 | The planner starts with `['Repas 1']`, nothing planned and nothing selected. |
| Meals.MealPlanner.AddMeal | src/hooks/useMeals.ts:11-14 | `Repas (len + 1)` is appended and nothing else changes; rows stay `Repas 1..N`. |
| Meals.MealPlanner.RemoveMeal | src/hooks/useMeals.ts:16-47 | Nothing changes with one row. Otherwise the rows are renumbered from the filtered list and the plan is re-keyed. Rows stay `Repas 1..N` with N ≥ 1, and the plan stays tidy. |
| Meals.MealPlanner.OpenRecipeModal | src/hooks/useMeals.ts:54-58 | The chosen day and meal become the selection and the picker opens. |
| Meals.MealPlanner.AddPlannedMeal | src/hooks/useMeals.ts:60-82 | Nothing changes without a selected day or a known recipe. Otherwise the recipe is appended to the selected cell and the selection is cleared. |
| Meals.MealPlanner.RemovePlannedRecipe | src/hooks/useMeals.ts:84-99 | Only position `recipeIndex` of the cell is dropped; an emptied cell, then an emptied day, is deleted. The plan stays tidy. |
| Meals.MealPlanner.GetPlannedMeals | src/hooks/useMeals.ts:101-104 | The stored list of the cell, or `[]` when it is absent; in a tidy plan the result is non-empty exactly when the cell exists. |
| IngredientsPage.CanModify | src/components/IngredientsPage/IngredientsPage.tsx:94-97 | Defines the permission both guards use (also lines 141-144): an admin, or the user who created the row. It is used by `Page.HandleSubmit` and `Page.HandleDeleteConfirm`, and stated for non-admins by `ModifiableByUserIsVisible` and `NonAdminCreatesOwnPrivateRow`. |
| IngredientsPage.VisibleTo | src/components/IngredientsPage/IngredientsPage.tsx:65-66 | Defines the `.or(...)` filter for role `user`: the row is public or created by the user. `FilterVisible` states that exactly these rows are kept. |
| IngredientsPage.IsPublicToSave | src/components/IngredientsPage/IngredientsPage.tsx:91 | The saved visibility is the form's only for an admin; anyone else saves private. |
| IngredientsPage.VisibleRows | src/components/IngredientsPage/IngredientsPage.tsx:56-77 | Nothing is fetched with no user or no role. Role `user` with an id sees exactly the public rows and its own. Any other role sees every row. |
| IngredientsPage.FilterVisible | src/components/IngredientsPage/IngredientsPage.tsx:65-66 | Keeps exactly the rows that are public or created by the user. |
| IngredientsPage.FilterIngredients | src/components/IngredientsPage/IngredientsPage.tsx:190-194 | A row is kept exactly when its name contains the search term ignoring case and the category filter is empty or equal. |
| IngredientsPage.Matches | src/components/IngredientsPage/IngredientsPage.tsx:190-194 | Defines the per-row test: the lower-cased name contains the lower-cased term, and the category filter is empty or equal. `FilterIngredients`, `SearchIgnoresCase` and `EmptyFilterKeepsAll` state its consequences. |
| IngredientsPage.CategoryColor | src/components/IngredientsPage/IngredientsPage.tsx:196-210 | Defines the colour table lookup with its `#6b7280` fallback. `CategoryColorsDistinct` states that the colours are distinct and the fallback applies. |
| IngredientsPage.CategoryColorsDistinct | src/components/IngredientsPage/IngredientsPage.tsx:196-210 | The ten categories get ten different colours, and anything else gets `#6b7280`, the colour of `Autres`. |
| IngredientsPage.EmptyFilterKeepsAll | src/components/IngredientsPage/IngredientsPage.tsx:190-194 | With no search term and no category the whole list is shown. |
| IngredientsPage.LowerIdempotent | src/components/IngredientsPage/IngredientsPage.tsx:191 | Lower-casing twice is lower-casing once. |
| IngredientsPage.SearchIgnoresCase | src/components/IngredientsPage/IngredientsPage.tsx:191 | Searching for the lower-cased term finds the same rows. |
| IngredientsPage.AllMatchingKept | src/components/IngredientsPage/IngredientsPage.tsx:190-194 | A list whose rows all match is kept whole, in order. |
| IngredientsPage.FilterIdempotent | src/components/IngredientsPage/IngredientsPage.tsx:190-194 | Filtering the filtered list changes nothing. |
| IngredientsPage.ModifiableByUserIsVisible | src/components/IngredientsPage/IngredientsPage.tsx:94-97 | A row a `user` may edit or delete is one they created, so they can see it. |
| IngredientsPage.UpdateRows | src/components/IngredientsPage/IngredientsPage.tsx:99-106 | Only the rows with the edited id get the new name, category and visibility. |
| IngredientsPage.DeleteRows | src/components/IngredientsPage/IngredientsPage.tsx:148-151 | The table keeps exactly the rows of other ids. |
| IngredientsPage.Page.constructor | src/components/IngredientsPage/IngredientsPage.tsx:26-40 | The page starts with no list, an empty form and both dialogs closed. |
| IngredientsPage.Page.FetchIngredients | src/components/IngredientsPage/IngredientsPage.tsx:56-77 | The visible rows replace the list. A missing user or role, or a refused read, keeps the old list. No other state changes. |
| IngredientsPage.Page.OpenModal | src/components/IngredientsPage/IngredientsPage.tsx:166-181 | The form is filled from the row to edit, or emptied for a new row, and the modal opens. |
| IngredientsPage.Page.CloseModal | src/components/IngredientsPage/IngredientsPage.tsx:183-188 | The modal closes, the edited row is forgotten and the form is emptied. |
| IngredientsPage.Page.HandleSubmit | src/components/IngredientsPage/IngredientsPage.tsx:86-131 | Nothing is written with a blank name or category. An edit is written only for an admin or the row's creator; a new row only with a user, owned by that user. The name is stored trimmed and the visibility per `IsPublicToSave`. A refused write keeps the modal open. An accepted one refreshes the list and closes the modal. |
| IngredientsPage.Page.HandleDeleteClick | src/components/IngredientsPage/IngredientsPage.tsx:133-136 | The row is selected and the dialog opens. |
| IngredientsPage.Page.HandleDeleteConfirm | src/components/IngredientsPage/IngredientsPage.tsx:138-159 | The selected row is deleted only for an admin or its creator, and only if the delete is accepted. The list is then refreshed and the dialog closed; otherwise nothing changes. |
| IngredientsPage.Page.HandleDeleteCancel | src/components/IngredientsPage/IngredientsPage.tsx:161-164 | The dialog closes and the selection is cleared. |
| IngredientsPage.NonAdminCreatesOwnPrivateRow | src/components/IngredientsPage/IngredientsPage.tsx:91-120 | A row a non-admin adds is private and theirs. They may edit it and see it. No other non-admin may edit it. |
| Backend.Issue | src/services/recipesCreationService.ts:10-27 | Every call is appended to the trace; a refused call changes no table. |
| Backend.ReadRecipe | src/services/recipeService.ts:102-111 | `.single()` answers only when the read is accepted and the row exists, and then with that row. |
| Backend.ReadFullRecipe | src/services/recipeManagementService.ts:174-188 | The joined read gives the header and exactly the recipe's child rows, in table order. |
| Backend.ImageUrl | src/services/recipeService.ts:114 | `recipe?.image_url` is truthy exactly when it is a non-empty string. |
| Backend.IssueConfined | src/services/recipesCreationService.ts:99-117 | A call aimed at one recipe, accepted or refused, leaves every other recipe as it was. |
| Backend.RowsOfDropRows | src/services/recipesCreationService.ts:102-105 | `.delete().eq('recipe_id', id)` leaves no row of `id` and every other recipe's rows as they were. |
| Backend.RowsOfAppend | src/services/recipesCreationService.ts:43-45 | After an insert, a recipe's rows are its old rows followed by its new ones. |
| Backend.Store.InsertRecipe | src/services/recipesCreationService.ts:10-22 | The insert is traced; when accepted it adds the header under the next id and returns that id, and when refused it returns none. |
| Backend.Store.InsertIngredients | src/services/recipesCreationService.ts:43-45 | The insert is traced and appends the rows when accepted; the result says whether it was. |
| Backend.Store.InsertSteps | src/services/recipesCreationService.ts:67-69 | The same for step rows. |
| Backend.Store.DeleteIngredientsOf | src/services/recipesCreationService.ts:102-105 | The delete is traced and removes the recipe's ingredient rows when accepted. |
| Backend.Store.DeleteStepsOf | src/services/recipesCreationService.ts:108-111 | The same for step rows. |
| Backend.Store.DeleteRecipe | src/services/recipesCreationService.ts:114-117 | The delete is traced and removes the header row when accepted. |
| Backend.Store.UpdateRecipe | src/services/recipeService.ts:161-164 | The update is traced; when accepted it overwrites the named columns of an existing row. |
| Backend.Store.SelectRecipe | src/services/recipeService.ts:102-106 | Returns the stored row exactly when the read is accepted and the row exists. |
| Backend.Store.SelectFullRecipe | src/services/recipeManagementService.ts:174-188 | Returns the joined read of the recipe. |
| Backend.Store.UploadImage | src/services/recipeService.ts:199 | The upload is traced and answers with the host's URL, if any. |
| Backend.Store.RequestImageDeletion | src/services/cloudinaryService.ts:87-94 | The request to the proxy is traced and changes no table. |
| RecipeRows.IngredientRowsOf | src/services/recipeManagementService.ts:126-131 | Every ingredient line becomes a row of the recipe, in order, with no filter. |
| RecipeRows.StepRowsOf | src/services/recipeManagementService.ts:157-161 | Every step becomes a row of the recipe, in order, with no filter. |
| RecipeCreationService.IngredientRows | src/services/recipesCreationService.ts:33-40 | The rows are exactly the lines with an id and quantity > 0 (the unit is not checked), all for the new recipe. |
| RecipeCreationService.StepRows | src/services/recipesCreationService.ts:58-64 | The rows are exactly the non-blank steps, numbers copied as they are. |
| RecipeCreationService.IngredientRowsAppend | src/services/recipesCreationService.ts:33-40 | The filter keeps form order: the rows of a split list are the rows of each part, in turn. |
| RecipeCreationService.StepRowsAppend | src/services/recipesCreationService.ts:58-64 | The same for the steps. |
| RecipeCreationService.AllIngredientsKept | src/services/recipesCreationService.ts:33-40 | When every line passes the filter, every line becomes a row, in order. |
| RecipeCreationService.AllStepsKept | src/services/recipesCreationService.ts:58-64 | When no step is blank, every step becomes a row, in order. |
| RecipeCreationService.RollbackRecipeCreation | src/services/recipesCreationService.ts:99-122 | The method does exactly what the rollback specification says. |
| RecipeCreationService.CreateRecipe | src/services/recipesCreationService.ts:7-85 | The method does exactly what the creation specification says: the backend afterwards and the returned id. |
| RecipeCreationService.InsertChildren | src/services/recipesCreationService.ts:31-80 | After the header, the method does exactly what the child stages of the specification say: an empty list is skipped and a refused insert rolls back. |
| RecipeCreationService.RollbackIssuesAllDeletes | src/services/recipesCreationService.ts:99-118 | The rollback issues its three deletes in order (ingredients, steps, header), whichever of them is refused. |
| RecipeCreationService.RollbackRemovesRecipe | src/services/recipesCreationService.ts:99-118 | A rollback with no refused delete leaves nothing of the recipe. Any rollback leaves every other recipe as it was. |
| RecipeCreationService.HeaderFailureStops | src/services/recipesCreationService.ts:24-27 | A refused header insert returns no id and issues no further call; no table changes. |
| RecipeCreationService.CreateSucceedsIff | src/services/recipesCreationService.ts:7-81 | An id is returned exactly when the header insert and every child insert actually issued go through. The id is the new one. |
| RecipeCreationService.CreatedTables | src/services/recipesCreationService.ts:10-78 | On success the tables have gained the default header and the filtered rows, appended. |
| RecipeCreationService.CreatedRecipeReadsBack | src/services/recipesCreationService.ts:13-20 | On success the new recipe reads back with `user_id`, title, empty description, 0, 1, the visibility and a null image, and exactly the filtered rows in form order. |
| RecipeCreationService.ChildFailureRollsBack | src/services/recipesCreationService.ts:47-52 | A refused child insert returns no id, and the three rollback deletes are the last calls. When none of them is refused the recipe is gone. Steps: lines 71-76. |
| RecipeCreationService.CreateLeavesOthers | src/services/recipesCreationService.ts:7-85 | Whatever is refused, no recipe other than the new one changes. |
| RecipeCreationService.ValidatedFormCreatesExactly | src/services/recipesCreationService.ts:32-78 | For a form the validator accepts, success leaves one row per line and per step, in form order. |
| RecipeService.RunDeletion | src/services/recipeService.ts:99-156 | The deletion sequence does exactly what the deletion specification says: the backend afterwards and the stage it stopped at. |
| RecipeService.DeleteRecipe | src/services/recipeService.ts:99-156 | Returns true exactly when the deletion specification reaches `Deleted`. |
| RecipeService.CleanupLeavesTables | src/services/recipeService.ts:114-116 | Sending the old image for deletion changes no table; its answer is ignored. |
| RecipeService.DeleteOrder | src/services/recipeService.ts:113-151 | The image request, if any, comes first. Then come the deletes in order (ingredients, steps, header), up to the first refused one. |
| RecipeService.DeleteSucceedsIff | src/services/recipeService.ts:99-151 | Deletion succeeds exactly when the read is accepted, the recipe exists and no delete is refused. It then leaves nothing of the recipe. |
| RecipeService.FetchFailureTouchesNothing | src/services/recipeService.ts:102-111 | A refused read, or a missing recipe, stops the deletion before any call. |
| RecipeService.StepsFailureLeavesHalfDeleted | src/services/recipeService.ts:130-138 | A deletion stopped at the steps leaves the header and the steps, but no ingredient rows. |
| RecipeService.DeleteLeavesOthers | src/services/recipeService.ts:99-156 | A deletion leaves every other recipe as it was. |
| RecipeService.CreateRecipe | src/services/recipeService.ts:8-86 | The method does exactly what this service's creation specification says. |
| RecipeService.InsertChildren | src/services/recipeService.ts:32-81 | After the header, the method does exactly what this service's child stages say: a refused insert is compensated by the deletion. |
| RecipeService.SameCreationWithoutCompensation | src/services/recipeService.ts:8-81 | Where no compensation runs, both creation paths issue the same calls and return the same id. |
| RecipeService.CompensationIsGated | src/services/recipeService.ts:51 | When a child insert is refused and the compensating read fails, the new header stays behind. With nothing refused the recipe is gone. No image request is sent. Steps: line 75. |
| RecipeService.CompensationFrom | src/services/recipeService.ts:51 | A deletion compensating a header without an image: a failed read leaves the header, a deletion with nothing refused removes the recipe, and no image request is added. |
| RecipeService.UpdateRecipe | src/services/recipeService.ts:159-176 | One unfiltered header update; true exactly when it is accepted. |
| RecipeService.UnfilteredUpdateOverwrites | src/services/recipeService.ts:161-164 | Every key of the update overwrites the stored column, the owner's `user_id` included, and every other column stays. |
| RecipeService.UpdateRecipeImage | src/services/recipeService.ts:179-220 | The method does exactly what the image replacement specification says. |
| RecipeService.UploadFailureKeepsImageUrl | src/services/recipeService.ts:193-202 | The old image is sent for deletion before the upload. When the upload gives no URL the call returns false, and the row still points at the image whose deletion it requested. |
| RecipeService.ImageReplaced | src/services/recipeService.ts:198-215 | A successful replacement had an upload URL, and writes it to that recipe's `image_url`. Nothing else changes. |
| RecipeManagementService.FilterColumns | src/services/recipeManagementService.ts:83-95 | The filtered update holds exactly the keys of the allow-list that the update carries, with their values. |
| RecipeManagementService.FilterDropsForeignKeys | src/services/recipeManagementService.ts:73-95 | `user_id`, `isPublic`, `recipe_ingredients` and `recipe_steps` never reach the header update. |
| RecipeManagementService.UpdateRecipe | src/services/recipeManagementService.ts:65-208 | The method does exactly what the update specification says: the backend afterwards and `{ success, message, recipe? }`. |
| RecipeManagementService.ReplaceIngredientRows | src/services/recipeManagementService.ts:113-141 | The method does exactly what the ingredient stage specifies: delete the recipe's rows, then insert the new ones only if the delete went through. |
| RecipeManagementService.ReplaceStepRows | src/services/recipeManagementService.ts:144-171 | The same for the step rows. |
| RecipeManagementService.UpdateLists | src/services/recipeManagementService.ts:113-171 | The method runs the ingredient stage and then, unless it failed, the step stage, each only for a list that was given. |
| RecipeManagementService.HeaderStageWrites | src/services/recipeManagementService.ts:100-110 | The header stage changes only the allowed columns of the recipe, and only when the update is accepted. With no allowed key it issues no call and changes nothing; otherwise it issues exactly one update carrying the filtered columns. |
| RecipeManagementService.HeaderFailureTouchesNothing | src/services/recipeManagementService.ts:106-109 | A refused header update returns its failure message after one call; no table changes. |
| RecipeManagementService.UpdateWritesOnlyAllowedColumns | src/services/recipeManagementService.ts:83-110 | On success the stored header has the update's allowed keys. Every column outside the allow-list keeps its value. |
| RecipeManagementService.UpdateRecipesAfterHeader | src/services/recipeManagementService.ts:112-199 | After the header stage nothing touches `recipes`. |
| RecipeManagementService.ReplaceIngredientsExactly | src/services/recipeManagementService.ts:116-140 | A successful replacement leaves exactly the new rows, in list order. A refused insert after the delete leaves none. |
| RecipeManagementService.ReplaceStepsExactly | src/services/recipeManagementService.ts:147-170 | The same for the steps. |
| RecipeManagementService.UpdateReplacesLists | src/services/recipeManagementService.ts:113-171 | An absent list leaves its table unchanged. On success each list given has replaced the recipe's rows exactly. |
| RecipeManagementService.UpdateSpecStages | src/services/recipeManagementService.ts:100-171 | A refused header update ends the call without success. Otherwise the list stages decide the backend and success. |
| RecipeManagementService.ListStagesReplaces | src/services/recipeManagementService.ts:113-171 | The list stages never touch `recipes` and leave a table alone when its list is absent. When they go through, each list given has replaced the recipe's rows. |
| RecipeManagementService.ListStagesConfined | src/services/recipeManagementService.ts:113-171 | The list stages leave every other recipe as it was. |
| RecipeManagementService.IngredientInsertFailureLosesRows | src/services/recipeManagementService.ts:121-140 | With no rollback, a refused ingredient insert fails the call but keeps the header change. The recipe is left with no ingredient rows. |
| RecipeManagementService.RefetchFailureStillSucceeds | src/services/recipeManagementService.ts:190-193 | A refused read-back still reports success, without the recipe. |
| RecipeManagementService.ReplaceIngredientsConfined | src/services/recipeManagementService.ts:116-135 | Replacing one recipe's ingredient rows leaves every other recipe as it was. |
| RecipeManagementService.ReplaceStepsConfined | src/services/recipeManagementService.ts:147-165 | The same for step rows. |
| RecipeManagementService.UpdateLeavesOthers | src/services/recipeManagementService.ts:65-208 | An update leaves every other recipe as it was. |
| RecipeManagementService.DeleteMessage | src/services/recipeManagementService.ts:265-308 | The result reports success exactly for a deletion that reached its last stage. |
| RecipeManagementService.DeleteRecipe | src/services/recipeManagementService.ts:256-313 | The same stages as the other service's deletion, with the message of the stage reached. |
| RecipeManagementService.CanUserModifyRecipe | src/services/recipeManagementService.ts:316-334 | True exactly when the read is accepted and the stored `user_id` equals the user; false on any error, and no admin override. |
| RecipeManagementService.UpdateRecipeImage | src/services/recipeManagementService.ts:212-253 | The same image replacement as the other service. |
| CloudinaryService.TrailingLetters | src/services/cloudinaryService.ts:116 | Counts exactly the ASCII letters the URL ends with. |
| CloudinaryService.LeadingDigits | src/services/cloudinaryService.ts:116 | Counts exactly the digits a string starts with. |
| CloudinaryService.ExtensionDot | src/services/cloudinaryService.ts:116 | Finds the only position where `\.[a-zA-Z]+$` can match, or none. |
| CloudinaryService.CaptureFrom | src/services/cloudinaryService.ts:116 | `(.+)\.[a-zA-Z]+$` from a position: a non-empty capture with no line terminator, up to the extension. None when no extension can be reached. |
| CloudinaryService.VersionLength | src/services/cloudinaryService.ts:116 | The `v\d+/` segment at a position: `v`, one or more digits, and a slash, or none. |
| CloudinaryService.ExtractPublicIdFromUrl | src/services/cloudinaryService.ts:113-122 | A result is non-empty, holds no line terminator, and was captured after some `/upload/`, right after it or after its version segment. |
| CloudinaryService.MatchFromCaptured | src/services/cloudinaryService.ts:116-118 | Whatever the leftmost-first search returns was captured after an `/upload/` at or after where it started. |
| CloudinaryService.NoUploadSegmentNoId | src/services/cloudinaryService.ts:116-118 | A URL with no `/upload/` yields no identifier. |
| CloudinaryService.FirstUploadDecides | src/services/cloudinaryService.ts:116-118 | The first `/upload/` after which the rest of the pattern matches decides the identifier. |
| CloudinaryService.VersionedUrl | src/services/cloudinaryService.ts:116 | After the first `/upload/`, a version segment is stripped, and so is only the last extension. |
| CloudinaryService.UnversionedUrl | src/services/cloudinaryService.ts:116 | Without a version segment, the identifier is everything between the first `/upload/` and the extension. |
| CloudinaryService.LeadingDigitsOf | src/services/cloudinaryService.ts:116 | Digits followed by a non-digit are counted exactly. |
| CloudinaryService.TrailingLettersOf | src/services/cloudinaryService.ts:116 | Letters preceded by a non-letter are counted exactly. |
| CloudinaryService.VersionedUrlParts | src/services/cloudinaryService.ts:115-118 | A URL `<pre>/upload/v<digits>/<path>.<ext>` with no earlier `/upload/` yields exactly `<path>`. |
| CloudinaryService.NoUploadBefore | src/services/cloudinaryService.ts:116 | A prefix in which no `/` is followed by `u` cannot hold the start of `/upload/`. |
| CloudinaryService.NoSlashUAround | src/services/cloudinaryService.ts:115 | A string whose only `u` follows a character other than `/` has no `/` followed by `u`; this covers the documented host `https://res.cloudinary.com/moncompte/image`. |
| CloudinaryService.DocumentedExample | src/services/cloudinaryService.ts:115 | The documented example `https://res.cloudinary.com/moncompte/image/upload/v123456/monfolder/monimage.jpg` yields `monfolder/monimage`. |
| CloudinaryService.ImageDeletion | src/services/cloudinaryService.ts:80-94 | No identifier, no request. Otherwise exactly one request, carrying the identifier. |
| CloudinaryService.DeleteImageFromCloudinary | src/services/cloudinaryService.ts:77-108 | Sends what `ImageDeletion` says. Returns true exactly when an identifier was derived and the reply is ok with `success: true`. |
| DeleteImageProxy.Timestamp | api/deleteImage.ts:22 | The whole seconds of the millisecond clock, rounded down. |
| DeleteImageProxy.StringToSign | api/deleteImage.ts:23 | Defines the signing string `public_id=<id>&timestamp=<ts><secret>`. Its layout is stated by `StringToSignLayout`, and that it determines the timestamp by `StringToSignSeparatesTimestamps`. |
| DeleteImageProxy.DestroyParams | api/deleteImage.ts:26-30 | Defines the form body sent to the destroy endpoint: `public_id`, `timestamp`, `api_key`, `signature`, in that order. `Handler` sends it with the signature of `StringToSign`. |
| DeleteImageProxy.Handler | api/deleteImage.ts:9-60 | 405 exactly for a method other than DELETE. A destroy request is sent exactly for DELETE with a non-empty string `publicId`, and then carries `public_id`, `timestamp`, `api_key` and the SHA-1 of the signing string, in that order. 200 exactly when the host answers `result: 'ok'`, and any other result gets 400. A missing, empty or non-string id gets 400. 500 exactly when there is no body, or the destroy call throws. |
| DeleteImageProxy.StringToSignSeparatesTimestamps | api/deleteImage.ts:23 | Two signing strings for the same identifier and secret are equal only when their timestamps are. |
| DeleteImageProxy.StringToSignLayout | api/deleteImage.ts:22-23 | The signing string is `public_id=`, the identifier, `&timestamp=`, and the decimal seconds of the clock, followed immediately by the secret. |
| DeleteImageProxy.CancelAround | api/deleteImage.ts:23 | A common prefix and suffix cancel: the middle of the signing string is determined. |

## Left out

- JSX rendering, toasts, alerts' display, routing, loading flags, and the `originalCategory` state of the ingredient page. They are presentation only.
- The query client itself (`.or(...)` filter syntax, row-level security).
- IngredientsPage.Page.FetchIngredients: `.order('name')` is not modelled; the fetched list keeps table order instead of being sorted by name, because sorting is a presentation of the same rows.
- Foreign keys and database constraints. The `fail` flag of each call covers every refusal the backend could give.
- Exceptions thrown by the database client. It reports errors as returned values, which the `fail` flags model. Thrown errors from `fetch`, from `response.json()` and from the destroy call are modelled.
- The upload itself (`uploadImageToCloudinary`), the environment configuration, and the network: the upload is an input giving a URL or nothing.
- SHA-1 is a function parameter. The clock is a millisecond number.
- `Date` and `toISOString` date keys: days are opaque string keys.
- Concurrency between overlapping user actions, and the order in which React applies queued updates. Each handler runs to completion, in program order.
- Meals.MealPlanner.RemovePlannedRecipe: aliasing of the nested day objects is not modelled; the source edits a shallow copy and so also the previous state's day object, while the model replaces the plan value as a whole.
- `parseFloat` coercion in the form inputs: quantities are reals.
- Unicode case mapping: `toLowerCase` is modelled on ASCII letters only.
- Keys inherited from `Object.prototype` in `getCategoryColor`'s colour table.
- Strings.Lower: models `toLowerCase` for ASCII letters only, because full Unicode case mapping is out of scope.
- RecipeEdit.AddStepNumberIsFresh: requires a non-empty step list, because `Math.max()` of no numbers is `-Infinity` and the new step number would not be an integer.
- DeleteImageProxy.Handler: the 400 body's `details` and the 200 body's `result` carry the host's `result` string rather than the whole reply object.
- DeleteImageProxy.Handler: the `details` text of the 500 body (the error message) is not modelled.
- IngredientsPage.Page.OpenModal: `is_public ?? false` is a plain boolean, because rows always carry `is_public`.
- Reads are not recorded in the backend trace; only calls that could change state, plus the proxy request and the upload, are.
- `api/deleteImage.ts` reads `publicId` only from the body and checks no bearer token (the variant `api/deleteImage copy.ts` in the same repository does both); the model follows `api/deleteImage.ts`.
- No service checks ownership before a mutating call, and `RecipeService.UpdateRecipe` writes `user_id` when given one (`RecipeService.UnfilteredUpdateOverwrites`).
- RecipeEdit.SortSteps: `recipe.recipe_steps.sort(...)` sorts the caller's array in place, so the `recipe` prop of the edit modal is reordered as a side effect; the model returns a fresh sorted list and leaves the recipe value untouched.
