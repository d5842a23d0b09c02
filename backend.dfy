/**
 * The hosted database and the media host, as the recipe services see them.
 * The three tables the services touch (`recipes`, `recipe_ingredients`,
 * `recipe_steps`) are held in memory; every call the client issues is recorded
 * in a trace, in issue order, and each call either takes effect or is refused.
 * Whether a call is refused is not decided here: each call takes a `fail`
 * flag, so every backend error the client can observe is an input of the model.
 */
module Backend {
  import opened Wrappers

  /** The database-generated recipe id, abstracted to a counter. */
  type RecipeId = nat

  /** A column value of a `recipes` row, as the JSON objects the client sends and reads back carry it. */
  datatype Value = Str(s: string) | Int(i: int) | Bool(b: bool) | Null

  /** A `recipes` row (or a partial update of one): column name to value. The id is the table's key. */
  type Header = map<string, Value>

  /** The `ingredient_id`, `quantity` and `unit` columns of a `recipe_ingredients` row. */
  datatype IngredientLine = IngredientLine(ingredientId: string, quantity: real, unit: string)

  /** The `step_number` and `description` columns of a `recipe_steps` row. */
  datatype StepLine = StepLine(stepNumber: int, description: string)

  /** A child row: the recipe it belongs to (`recipe_id`) and its own columns. */
  datatype Row<T> = Row(recipeId: RecipeId, line: T)

  /** One call the client issues, with what it sends. */
  datatype Call =
    | InsertRecipe(header: Header)
    | InsertIngredients(ingredientRows: seq<Row<IngredientLine>>)
    | InsertSteps(stepRows: seq<Row<StepLine>>)
    | DeleteIngredientsOf(recipeId: RecipeId)
    | DeleteStepsOf(recipeId: RecipeId)
    | DeleteRecipe(recipeId: RecipeId)
    | UpdateRecipe(recipeId: RecipeId, patch: Header)
    | DeleteImageRequest(publicId: string)
    | UploadImage

  /** The three tables, the next id the database hands out, and the calls issued so far. */
  datatype Db = Db(
    recipes: map<RecipeId, Header>,
    ingredients: seq<Row<IngredientLine>>,
    steps: seq<Row<StepLine>>,
    nextId: RecipeId,
    trace: seq<Call>)

  /** A recipe read back with its joined children (`select('*, recipe_ingredients(*), recipe_steps(*)')`). */
  datatype FullRecipe = FullRecipe(
    id: RecipeId,
    header: Header,
    ingredients: seq<Row<IngredientLine>>,
    steps: seq<Row<StepLine>>)

  /** What a service call leaves behind: the backend after it, and what it returns. */
  datatype Outcome<T> = Outcome(db: Db, result: T)

  /** The rows of table `t` that belong to recipe `id`, in table order (`.eq('recipe_id', id)`). */
  function RowsOf<T(!new)>(t: seq<Row<T>>, id: RecipeId): (r: seq<Row<T>>)
    ensures forall x :: x in r <==> x in t && x.recipeId == id
    ensures |r| <= |t|
  {
    if t == [] then []
    else (if t[0].recipeId == id then [t[0]] else []) + RowsOf(t[1..], id)
  }

  /** Table `t` once the rows of recipe `id` are deleted (`.delete().eq('recipe_id', id)`). */
  function DropRows<T(!new)>(t: seq<Row<T>>, id: RecipeId): (r: seq<Row<T>>)
    ensures forall x :: x in r <==> x in t && x.recipeId != id
    ensures |r| <= |t|
  {
    if t == [] then []
    else (if t[0].recipeId == id then [] else [t[0]]) + DropRows(t[1..], id)
  }

  /** The rows of a recipe in a table grown by appending are its old rows followed by its new ones. */
  lemma {:induction false} RowsOfAppend<T(!new)>(a: seq<Row<T>>, b: seq<Row<T>>, id: RecipeId)
    ensures RowsOf(a + b, id) == RowsOf(a, id) + RowsOf(b, id)
  {
    if a != [] {
      assert (a + b)[1..] == a[1..] + b;
      RowsOfAppend(a[1..], b, id);
    } else {
      assert a + b == b;
    }
  }

  /** Deleting the rows of `id` leaves none of them and every other recipe's rows as they were. */
  lemma {:induction false} RowsOfDropRows<T(!new)>(t: seq<Row<T>>, id: RecipeId, k: RecipeId)
    ensures RowsOf(DropRows(t, id), k) == if k == id then [] else RowsOf(t, k)
  {
    if t != [] {
      RowsOfDropRows(t[1..], id, k);
      var head: seq<Row<T>> := if t[0].recipeId == id then [] else [t[0]];
      RowsOfAppend(head, DropRows(t[1..], id), k);
    }
  }

  /** Rows that all belong to `id` are exactly the rows of `id` among them, and none of any other recipe. */
  lemma {:induction false} RowsOfUniform<T(!new)>(rows: seq<Row<T>>, id: RecipeId, k: RecipeId)
    requires forall i :: 0 <= i < |rows| ==> rows[i].recipeId == id
    ensures RowsOf(rows, k) == if k == id then rows else []
  {
    if rows != [] {
      RowsOfUniform(rows[1..], id, k);
      assert rows == [rows[0]] + rows[1..];
    }
  }

  /** What a call that the backend accepts does to the tables. */
  function Apply(db: Db, c: Call): Db {
    match c
    case InsertRecipe(h) => db.(recipes := db.recipes[db.nextId := h], nextId := db.nextId + 1)
    case InsertIngredients(rows) => db.(ingredients := db.ingredients + rows)
    case InsertSteps(rows) => db.(steps := db.steps + rows)
    case DeleteIngredientsOf(id) => db.(ingredients := DropRows(db.ingredients, id))
    case DeleteStepsOf(id) => db.(steps := DropRows(db.steps, id))
    case DeleteRecipe(id) => db.(recipes := db.recipes - {id})
    case UpdateRecipe(id, patch) =>
      if id in db.recipes then db.(recipes := db.recipes[id := db.recipes[id] + patch]) else db
    case DeleteImageRequest(_) => db
    case UploadImage => db
  }

  /** Issuing call `c`: it is recorded, and it changes the tables only when `ok`. */
  function Issue(db: Db, c: Call, ok: bool): (r: Db)
    ensures r.trace == db.trace + [c]
    ensures !ok ==> r == db.(trace := db.trace + [c])
  {
    (if ok then Apply(db, c) else db).(trace := db.trace + [c])
  }

  /** Recipe `id` reads back the same from `a` and from `b`: same header row (or none), same children. */
  ghost predicate SameRecipe(a: Db, b: Db, id: RecipeId) {
    && (id in a.recipes <==> id in b.recipes)
    && (id in a.recipes && id in b.recipes ==> a.recipes[id] == b.recipes[id])
    && RowsOf(a.ingredients, id) == RowsOf(b.ingredients, id)
    && RowsOf(a.steps, id) == RowsOf(b.steps, id)
  }

  /** Every recipe other than `id` reads back the same from `a` and from `b`. */
  ghost predicate OthersUnchanged(a: Db, b: Db, id: RecipeId) {
    forall k :: k != id ==> SameRecipe(a, b, k)
  }

  /** No header row and no child row for `id`: what a reader sees of a recipe that does not exist. */
  predicate Gone(db: Db, id: RecipeId) {
    id !in db.recipes && RowsOf(db.ingredients, id) == [] && RowsOf(db.steps, id) == []
  }

  /** Nothing in the tables uses the id the database hands out next. */
  predicate FreshNextId(db: Db) {
    Gone(db, db.nextId)
  }

  /** Call `c` can change the tables for recipe `id` only. */
  predicate Confined(db: Db, c: Call, id: RecipeId) {
    match c
    case InsertRecipe(_) => db.nextId == id
    case InsertIngredients(rows) => forall i :: 0 <= i < |rows| ==> rows[i].recipeId == id
    case InsertSteps(rows) => forall i :: 0 <= i < |rows| ==> rows[i].recipeId == id
    case DeleteIngredientsOf(k) => k == id
    case DeleteStepsOf(k) => k == id
    case DeleteRecipe(k) => k == id
    case UpdateRecipe(k, _) => k == id
    case DeleteImageRequest(_) => true
    case UploadImage => true
  }

  /** A call confined to `id`, accepted or refused, leaves every other recipe as it was. */
  lemma IssueConfined(db: Db, c: Call, ok: bool, id: RecipeId)
    requires Confined(db, c, id)
    ensures OthersUnchanged(db, Issue(db, c, ok), id)
  {
    var r := Issue(db, c, ok);
    forall k | k != id ensures SameRecipe(db, r, k) {
      if ok {
        match c
        case InsertIngredients(rows) =>
          RowsOfAppend(db.ingredients, rows, k);
          RowsOfUniform(rows, id, k);
        case InsertSteps(rows) =>
          RowsOfAppend(db.steps, rows, k);
          RowsOfUniform(rows, id, k);
        case DeleteIngredientsOf(_) =>
          RowsOfDropRows(db.ingredients, id, k);
        case DeleteStepsOf(_) =>
          RowsOfDropRows(db.steps, id, k);
        case _ =>
      }
    }
  }

  /** Leaving the other recipes unchanged composes. */
  lemma OthersUnchangedTrans(a: Db, b: Db, c: Db, id: RecipeId)
    requires OthersUnchanged(a, b, id) && OthersUnchanged(b, c, id)
    ensures OthersUnchanged(a, c, id)
  {
    forall k | k != id ensures SameRecipe(a, c, k) {
      assert SameRecipe(a, b, k) && SameRecipe(b, c, k);
    }
  }

  /** `.select(...).eq('id', id).single()`: refused, or no such row, gives an error. */
  function ReadRecipe(db: Db, id: RecipeId, fail: bool): (r: Option<Header>)
    ensures r.Some? <==> !fail && id in db.recipes
    ensures r.Some? ==> r.value == db.recipes[id]
  {
    if fail || id !in db.recipes then None else Some(db.recipes[id])
  }

  /** The joined read of a recipe with its children. */
  function ReadFullRecipe(db: Db, id: RecipeId, fail: bool): (r: Option<FullRecipe>)
    ensures r.Some? <==> !fail && id in db.recipes
    ensures r.Some? ==> r.value == FullRecipe(id, db.recipes[id], RowsOf(db.ingredients, id), RowsOf(db.steps, id))
  {
    if fail || id !in db.recipes then None
    else Some(FullRecipe(id, db.recipes[id], RowsOf(db.ingredients, id), RowsOf(db.steps, id)))
  }

  /** `recipe?.image_url` when it is truthy: a non-empty string. */
  function ImageUrl(h: Header): (r: Option<string>)
    ensures r.Some? <==> "image_url" in h && h["image_url"].Str? && h["image_url"].s != ""
    ensures r.Some? ==> h["image_url"] == Str(r.value)
  {
    if "image_url" in h && h["image_url"].Str? && h["image_url"].s != "" then Some(h["image_url"].s) else None
  }

  /** The backend as the client drives it: three tables and the trace of issued calls. */
  class Store {
    var recipes: map<RecipeId, Header>
    var recipeIngredients: seq<Row<IngredientLine>>
    var recipeSteps: seq<Row<StepLine>>
    var nextId: RecipeId
    var trace: seq<Call>

    /** The tables and the trace as one value. */
    function State(): Db
      reads this
    {
      Db(recipes, recipeIngredients, recipeSteps, nextId, trace)
    }

    constructor (db: Db)
      ensures State() == db
    {
      recipes := db.recipes;
      recipeIngredients := db.ingredients;
      recipeSteps := db.steps;
      nextId := db.nextId;
      trace := db.trace;
    }

    /** `from('recipes').insert(header).select().single()`: the new id, or an error. */
    method InsertRecipe(header: Header, fail: bool) returns (id: Option<RecipeId>)
      modifies this
      ensures State() == Issue(old(State()), Call.InsertRecipe(header), !fail)
      ensures id == if fail then None else Some(old(nextId))
    {
      trace := trace + [Call.InsertRecipe(header)];
      if fail {
        return None;
      }
      recipes := recipes[nextId := header];
      id := Some(nextId);
      nextId := nextId + 1;
    }

    /** `from('recipe_ingredients').insert(rows)`: true when there was no error. */
    method InsertIngredients(rows: seq<Row<IngredientLine>>, fail: bool) returns (ok: bool)
      modifies this
      ensures State() == Issue(old(State()), Call.InsertIngredients(rows), !fail)
      ensures ok == !fail
    {
      trace := trace + [Call.InsertIngredients(rows)];
      ok := !fail;
      if ok {
        recipeIngredients := recipeIngredients + rows;
      }
    }

    /** `from('recipe_steps').insert(rows)`. */
    method InsertSteps(rows: seq<Row<StepLine>>, fail: bool) returns (ok: bool)
      modifies this
      ensures State() == Issue(old(State()), Call.InsertSteps(rows), !fail)
      ensures ok == !fail
    {
      trace := trace + [Call.InsertSteps(rows)];
      ok := !fail;
      if ok {
        recipeSteps := recipeSteps + rows;
      }
    }

    /** `from('recipe_ingredients').delete().eq('recipe_id', id)`. */
    method DeleteIngredientsOf(id: RecipeId, fail: bool) returns (ok: bool)
      modifies this
      ensures State() == Issue(old(State()), Call.DeleteIngredientsOf(id), !fail)
      ensures ok == !fail
    {
      trace := trace + [Call.DeleteIngredientsOf(id)];
      ok := !fail;
      if ok {
        recipeIngredients := DropRows(recipeIngredients, id);
      }
    }

    /** `from('recipe_steps').delete().eq('recipe_id', id)`. */
    method DeleteStepsOf(id: RecipeId, fail: bool) returns (ok: bool)
      modifies this
      ensures State() == Issue(old(State()), Call.DeleteStepsOf(id), !fail)
      ensures ok == !fail
    {
      trace := trace + [Call.DeleteStepsOf(id)];
      ok := !fail;
      if ok {
        recipeSteps := DropRows(recipeSteps, id);
      }
    }

    /** `from('recipes').delete().eq('id', id)`. */
    method DeleteRecipe(id: RecipeId, fail: bool) returns (ok: bool)
      modifies this
      ensures State() == Issue(old(State()), Call.DeleteRecipe(id), !fail)
      ensures ok == !fail
    {
      trace := trace + [Call.DeleteRecipe(id)];
      ok := !fail;
      if ok {
        recipes := recipes - {id};
      }
    }

    /** `from('recipes').update(patch).eq('id', id)`: the named columns overwritten; no row, no change and no error. */
    method UpdateRecipe(id: RecipeId, patch: Header, fail: bool) returns (ok: bool)
      modifies this
      ensures State() == Issue(old(State()), Call.UpdateRecipe(id, patch), !fail)
      ensures ok == !fail
    {
      trace := trace + [Call.UpdateRecipe(id, patch)];
      ok := !fail;
      if ok && id in recipes {
        recipes := recipes[id := recipes[id] + patch];
      }
    }

    /** The request to the deletion proxy; it does not touch the tables. */
    method RequestImageDeletion(publicId: string)
      modifies this
      ensures State() == Issue(old(State()), DeleteImageRequest(publicId), true)
    {
      trace := trace + [DeleteImageRequest(publicId)];
    }

    /** The upload to the media host; `uploaded` is the URL it answers with, or none on any failure. */
    method UploadImage(uploaded: Option<string>) returns (url: Option<string>)
      modifies this
      ensures State() == Issue(old(State()), Call.UploadImage, true)
      ensures url == uploaded
    {
      trace := trace + [Call.UploadImage];
      url := uploaded;
    }

    /** A single-row read of `recipes` (`select('image_url')`, `select('user_id')`). */
    method SelectRecipe(id: RecipeId, fail: bool) returns (header: Option<Header>)
      ensures header.Some? <==> !fail && id in recipes
      ensures header.Some? ==> header.value == recipes[id]
    {
      if fail || id !in recipes {
        return None;
      }
      return Some(recipes[id]);
    }

    /** The joined read of a recipe with its ingredient rows and step rows. */
    method SelectFullRecipe(id: RecipeId, fail: bool) returns (r: Option<FullRecipe>)
      ensures r == ReadFullRecipe(State(), id, fail)
    {
      if fail || id !in recipes {
        return None;
      }
      return Some(FullRecipe(id, recipes[id], RowsOf(recipeIngredients, id), RowsOf(recipeSteps, id)));
    }
  }
}
