/**
 * The ingredient catalogue page (src/components/IngredientsPage/IngredientsPage.tsx):
 * who may see, create, edit and delete catalogue rows, what a save stores,
 * the search and category filter, and the category colours. The page's
 * state and the `ingredients` table it reads and writes are the fields of
 * one object; every backend call takes a `fail` flag.
 */
module IngredientsPage {
  import opened Wrappers
  import opened Strings

  /** The signed-in user, as far as the page uses it. */
  datatype User = User(id: string)

  /**
   * A row of the `ingredients` table. `createdBy` is `None` for a row whose
   * `created_by` is null; a null creator never equals a user id, nor the
   * missing id of a missing user.
   */
  datatype CatalogIngredient = CatalogIngredient(id: nat, name: string, category: string, isPublic: bool, createdBy: Option<string>)

  /** The page's form: `{ name, category, is_public }`. */
  datatype IngredientForm = IngredientForm(name: string, category: string, isPublic: bool)

  const EmptyForm := IngredientForm("", "", false)

  /** `categories`, in display order. */
  const Categories: seq<string> := [
    "Legumes", "Fruits", "Viandes", "Poissons", "Produits laitiers",
    "Cereales", "Legumineuses", "Epices", "Huiles", "Autres"]

  const DefaultColor := "#6b7280"

  predicate IsAdmin(role: Option<string>) {
    role == Some("admin")
  }

  /** The check both handlers make: an admin, or the user who created the row. */
  predicate CanModify(user: Option<User>, role: Option<string>, ing: CatalogIngredient) {
    IsAdmin(role) || (user.Some? && ing.createdBy == Some(user.value.id))
  }

  /** `isPublicToSave`: the form's visibility for an admin, private for anyone else. */
  function IsPublicToSave(role: Option<string>, form: IngredientForm): (r: bool)
    ensures r ==> IsAdmin(role) && form.isPublic
    ensures IsAdmin(role) ==> r == form.isPublic
  {
    if IsAdmin(role) then form.isPublic else false
  }

  /** A row a user with role `'user'` may read: public, or created by that user. */
  predicate VisibleTo(userId: string, ing: CatalogIngredient) {
    ing.isPublic || ing.createdBy == Some(userId)
  }

  /** `fetchIngredients`: nothing when there is no user or no role; the public and own rows for role `'user'`; every row otherwise. */
  function VisibleRows(table: seq<CatalogIngredient>, user: Option<User>, role: Option<string>): (r: Option<seq<CatalogIngredient>>)
    ensures r.None? <==> user.None? || role.None? || role == Some("")
    ensures r.Some? && role == Some("user") && user.value.id != "" ==>
      forall x :: x in r.value <==> x in table && VisibleTo(user.value.id, x)
    ensures r.Some? && role != Some("user") ==> r.value == table
  {
    if user.None? || role.None? || role == Some("") then None
    else if role == Some("user") && user.value.id != "" then Some(FilterVisible(table, user.value.id))
    else Some(table)
  }

  /** The rows of `table` a user may read, in table order. */
  function FilterVisible(table: seq<CatalogIngredient>, userId: string): (r: seq<CatalogIngredient>)
    ensures forall x :: x in r <==> x in table && VisibleTo(userId, x)
  {
    if table == [] then []
    else (if VisibleTo(userId, table[0]) then [table[0]] else []) + FilterVisible(table[1..], userId)
  }

  /** The search and category test of one row. */
  predicate Matches(ing: CatalogIngredient, searchTerm: string, selectedCategory: string) {
    Contains(Lower(ing.name), Lower(searchTerm)) && (selectedCategory == "" || ing.category == selectedCategory)
  }

  /** `filteredIngredients`: the rows that match, in list order. */
  function FilterIngredients(rows: seq<CatalogIngredient>, searchTerm: string, selectedCategory: string): (r: seq<CatalogIngredient>)
    ensures |r| <= |rows|
    ensures forall x :: x in r <==> x in rows && Matches(x, searchTerm, selectedCategory)
  {
    if rows == [] then []
    else (if Matches(rows[0], searchTerm, selectedCategory) then [rows[0]] else []) + FilterIngredients(rows[1..], searchTerm, selectedCategory)
  }

  /** `getCategoryColor`. */
  function CategoryColor(category: string): string {
    match category
    case "Legumes" => "#4ade80"
    case "Fruits" => "#f59e0b"
    case "Viandes" => "#ef4444"
    case "Poissons" => "#06b6d4"
    case "Produits laitiers" => "#f3f4f6"
    case "Cereales" => "#d97706"
    case "Legumineuses" => "#84cc16"
    case "Epices" => "#dc2626"
    case "Huiles" => "#fbbf24"
    case "Autres" => "#6b7280"
    case _ => DefaultColor
  }

  /** The ten categories have ten different colours; anything else gets the grey of `'Autres'`. */
  lemma CategoryColorsDistinct(i: nat, j: nat, other: string)
    requires i < |Categories| && j < |Categories| && i != j
    requires other !in Categories
    ensures CategoryColor(Categories[i]) != CategoryColor(Categories[j])
    ensures CategoryColor(other) == DefaultColor == CategoryColor("Autres")
  {
  }

  /** With no search term and no category, the list is shown whole. */
  lemma {:induction false} EmptyFilterKeepsAll(rows: seq<CatalogIngredient>)
    ensures FilterIngredients(rows, "", "") == rows
  {
    if rows != [] {
      ContainsEmpty(Lower(rows[0].name));
      EmptyFilterKeepsAll(rows[1..]);
      assert rows == [rows[0]] + rows[1..];
    }
  }

  /** Lower-casing twice is lower-casing once. */
  lemma LowerIdempotent(s: string)
    ensures Lower(Lower(s)) == Lower(s)
  {
  }

  /** The search ignores the case of the term: searching for its lower-case form finds the same rows. */
  lemma {:induction false} SearchIgnoresCase(rows: seq<CatalogIngredient>, searchTerm: string, selectedCategory: string)
    ensures FilterIngredients(rows, Lower(searchTerm), selectedCategory) == FilterIngredients(rows, searchTerm, selectedCategory)
  {
    LowerIdempotent(searchTerm);
    if rows != [] {
      SearchIgnoresCase(rows[1..], searchTerm, selectedCategory);
    }
  }

  /** A list whose rows all match is kept whole. */
  lemma {:induction false} AllMatchingKept(rows: seq<CatalogIngredient>, searchTerm: string, selectedCategory: string)
    requires forall i :: 0 <= i < |rows| ==> Matches(rows[i], searchTerm, selectedCategory)
    ensures FilterIngredients(rows, searchTerm, selectedCategory) == rows
  {
    if rows != [] {
      AllMatchingKept(rows[1..], searchTerm, selectedCategory);
      assert rows == [rows[0]] + rows[1..];
    }
  }

  /** Filtering the filtered list changes nothing. */
  lemma FilterIdempotent(rows: seq<CatalogIngredient>, searchTerm: string, selectedCategory: string)
    ensures var r := FilterIngredients(rows, searchTerm, selectedCategory); FilterIngredients(r, searchTerm, selectedCategory) == r
  {
    var r := FilterIngredients(rows, searchTerm, selectedCategory);
    assert forall i :: 0 <= i < |r| ==> r[i] in r;
    AllMatchingKept(r, searchTerm, selectedCategory);
  }

  /** A row a non-admin may edit or delete is one they created, and so one they can see. */
  lemma ModifiableByUserIsVisible(table: seq<CatalogIngredient>, user: Option<User>, ing: CatalogIngredient)
    requires ing in table && user.Some? && user.value.id != ""
    requires CanModify(user, Some("user"), ing)
    ensures ing.createdBy == Some(user.value.id)
    ensures var r := VisibleRows(table, user, Some("user")); r.Some? && ing in r.value
  {
  }

  /** The `ingredients` table with the row `id` given a new name, category and visibility. */
  function UpdateRows(table: seq<CatalogIngredient>, id: nat, name: string, category: string, isPublic: bool): (r: seq<CatalogIngredient>)
    ensures |r| == |table|
    ensures forall i :: 0 <= i < |r| ==>
      r[i] == if table[i].id == id then table[i].(name := name, category := category, isPublic := isPublic) else table[i]
  {
    seq(|table|, i requires 0 <= i < |table| =>
      if table[i].id == id then table[i].(name := name, category := category, isPublic := isPublic) else table[i])
  }

  /** The `ingredients` table without the rows of `id`. */
  function DeleteRows(table: seq<CatalogIngredient>, id: nat): (r: seq<CatalogIngredient>)
    ensures forall x :: x in r <==> x in table && x.id != id
  {
    if table == [] then [] else (if table[0].id == id then [] else [table[0]]) + DeleteRows(table[1..], id)
  }

  class Page {
    /** The `ingredients` table and the id it hands out next. */
    var table: seq<CatalogIngredient>
    var nextId: nat
    /** What the page last fetched. */
    var ingredients: seq<CatalogIngredient>
    var formData: IngredientForm
    var editingIngredient: Option<CatalogIngredient>
    var ingredientToDelete: Option<CatalogIngredient>
    var showModal: bool
    var showDeleteModal: bool
    const user: Option<User>
    const userRole: Option<string>

    constructor (table: seq<CatalogIngredient>, nextId: nat, user: Option<User>, userRole: Option<string>)
      ensures this.table == table && this.nextId == nextId && this.user == user && this.userRole == userRole
      ensures ingredients == [] && formData == EmptyForm && editingIngredient == None && ingredientToDelete == None
      ensures !showModal && !showDeleteModal
    {
      this.table := table;
      this.nextId := nextId;
      this.user := user;
      this.userRole := userRole;
      ingredients := [];
      formData := EmptyForm;
      editingIngredient := None;
      ingredientToDelete := None;
      showModal := false;
      showDeleteModal := false;
    }

    /** `fetchIngredients()`: the visible rows replace the list, unless there is nothing to fetch or the read is refused. */
    method FetchIngredients(fail: bool)
      modifies this
      ensures var rows := VisibleRows(table, user, userRole);
        ingredients == if rows.Some? && !fail then rows.value else old(ingredients)
      ensures table == old(table) && nextId == old(nextId) && formData == old(formData)
      ensures editingIngredient == old(editingIngredient) && ingredientToDelete == old(ingredientToDelete)
      ensures showModal == old(showModal) && showDeleteModal == old(showDeleteModal)
    {
      var rows := VisibleRows(table, user, userRole);
      if rows.Some? && !fail {
        ingredients := rows.value;
      }
    }

    /** `openModal(ingredient?)`: the form filled from the row to edit, or emptied for a new one. */
    method OpenModal(ingredient: Option<CatalogIngredient>)
      modifies this
      ensures editingIngredient == ingredient && showModal
      ensures formData == match ingredient
        case None => EmptyForm
        case Some(ing) => IngredientForm(ing.name, ing.category, ing.isPublic)
      ensures table == old(table) && nextId == old(nextId) && ingredients == old(ingredients)
      ensures ingredientToDelete == old(ingredientToDelete) && showDeleteModal == old(showDeleteModal)
    {
      editingIngredient := ingredient;
      formData := match ingredient
        case None => EmptyForm
        case Some(ing) => IngredientForm(ing.name, ing.category, ing.isPublic);
      showModal := true;
    }

    /** `closeModal()`. */
    method CloseModal()
      modifies this
      ensures !showModal && editingIngredient == None && formData == EmptyForm
      ensures table == old(table) && nextId == old(nextId) && ingredients == old(ingredients)
      ensures ingredientToDelete == old(ingredientToDelete) && showDeleteModal == old(showDeleteModal)
    {
      showModal := false;
      editingIngredient := None;
      formData := EmptyForm;
    }

    /**
     * `handleSubmit`: nothing without a name and a category (both trimmed for
     * the test). An edit is refused unless `CanModify`; a new row needs a
     * user. The name is stored trimmed, the category as typed, the visibility
     * as `IsPublicToSave`. A refused write leaves the modal open; an accepted
     * one refreshes the list and closes it.
     */
    method HandleSubmit(fail: bool, fetchFail: bool)
      modifies this
      ensures var blank := IsBlank(old(formData).name) || IsBlank(old(formData).category);
        var refused := match old(editingIngredient)
          case Some(ing) => !CanModify(user, userRole, ing)
          case None => user.None?;
        var written := !blank && !refused && !fail;
        var isPublic := IsPublicToSave(userRole, old(formData));
        && table == (if !written then old(table)
                     else match old(editingIngredient)
                       case Some(ing) => UpdateRows(old(table), ing.id, Trim(old(formData).name), old(formData).category, isPublic)
                       case None => old(table) + [CatalogIngredient(old(nextId), Trim(old(formData).name), old(formData).category, isPublic, Some(user.value.id))])
        && nextId == (if written && old(editingIngredient).None? then old(nextId) + 1 else old(nextId))
        && (written ==> !showModal && editingIngredient == None && formData == EmptyForm)
        && (!written ==> showModal == old(showModal) && editingIngredient == old(editingIngredient) && formData == old(formData))
        && (!written ==> ingredients == old(ingredients))
        && (written ==> var rows := VisibleRows(table, user, userRole);
              ingredients == if rows.Some? && !fetchFail then rows.value else old(ingredients))
      ensures ingredientToDelete == old(ingredientToDelete) && showDeleteModal == old(showDeleteModal)
    {
      if IsBlank(formData.name) || IsBlank(formData.category) {
        return;
      }
      var isPublic := IsPublicToSave(userRole, formData);
      match editingIngredient {
        case Some(ing) =>
          if !CanModify(user, userRole, ing) {
            return;
          }
          if fail {
            return;
          }
          table := UpdateRows(table, ing.id, Trim(formData.name), formData.category, isPublic);
        case None =>
          if user.None? {
            return;
          }
          if fail {
            return;
          }
          table := table + [CatalogIngredient(nextId, Trim(formData.name), formData.category, isPublic, Some(user.value.id))];
          nextId := nextId + 1;
      }
      FetchIngredients(fetchFail);
      CloseModal();
    }

    /** `handleDeleteClick(ingredient)`. */
    method HandleDeleteClick(ingredient: CatalogIngredient)
      modifies this
      ensures ingredientToDelete == Some(ingredient) && showDeleteModal
      ensures table == old(table) && nextId == old(nextId) && ingredients == old(ingredients)
      ensures formData == old(formData) && editingIngredient == old(editingIngredient) && showModal == old(showModal)
    {
      ingredientToDelete := Some(ingredient);
      showDeleteModal := true;
    }

    /**
     * `handleDeleteConfirm`: nothing without a selected row; refused unless
     * `CanModify`; a refused delete changes nothing; an accepted one removes
     * the row, refreshes the list and closes the dialog.
     */
    method HandleDeleteConfirm(fail: bool, fetchFail: bool)
      modifies this
      ensures var deleted := old(ingredientToDelete).Some? && CanModify(user, userRole, old(ingredientToDelete).value) && !fail;
        && table == (if deleted then DeleteRows(old(table), old(ingredientToDelete).value.id) else old(table))
        && (deleted ==> !showDeleteModal && ingredientToDelete == None)
        && (deleted ==> var rows := VisibleRows(table, user, userRole);
              ingredients == if rows.Some? && !fetchFail then rows.value else old(ingredients))
        && (!deleted ==> ingredients == old(ingredients) && showDeleteModal == old(showDeleteModal) && ingredientToDelete == old(ingredientToDelete))
      ensures nextId == old(nextId) && formData == old(formData) && editingIngredient == old(editingIngredient) && showModal == old(showModal)
    {
      if ingredientToDelete.None? {
        return;
      }
      var ing := ingredientToDelete.value;
      if !CanModify(user, userRole, ing) || fail {
        return;
      }
      table := DeleteRows(table, ing.id);
      FetchIngredients(fetchFail);
      showDeleteModal := false;
      ingredientToDelete := None;
    }

    /** `handleDeleteCancel()`. */
    method HandleDeleteCancel()
      modifies this
      ensures !showDeleteModal && ingredientToDelete == None
      ensures table == old(table) && nextId == old(nextId) && ingredients == old(ingredients)
      ensures formData == old(formData) && editingIngredient == old(editingIngredient) && showModal == old(showModal)
    {
      showDeleteModal := false;
      ingredientToDelete := None;
    }
  }

  /**
   * A row a non-admin adds is private and theirs: they may edit it and, with
   * role `'user'`, see it; nobody else but an admin may edit it.
   */
  lemma NonAdminCreatesOwnPrivateRow(userId: string, role: Option<string>, form: IngredientForm, id: nat, other: Option<User>)
    requires !IsAdmin(role)
    requires other != Some(User(userId))
    ensures var row := CatalogIngredient(id, Trim(form.name), form.category, IsPublicToSave(role, form), Some(userId));
      && !row.isPublic
      && CanModify(Some(User(userId)), role, row)
      && VisibleTo(userId, row)
      && !CanModify(other, role, row)
  {
  }
}
