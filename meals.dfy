/**
 * `useMeals` (src/hooks/useMeals.ts): the meal rows of the planner and the
 * plan `date key -> meal name -> recipes`. Each state update becomes a method
 * of `MealPlanner` that reassigns the corresponding field.
 */
module Meals {
  import opened Wrappers
  import opened Strings
  import opened RecipeTypes
  import opened CalendarTypes

  /** `` `Repas ${n}` ``. */
  function MealName(n: nat): string {
    "Repas " + NatToString(n)
  }

  /** Two meal names are equal only when their numbers are. */
  lemma MealNameInjective(a: nat, b: nat)
    ensures MealName(a) == MealName(b) <==> a == b
  {
    if MealName(a) == MealName(b) {
      assert NatToString(a) == MealName(a)[6..];
      assert NatToString(b) == MealName(b)[6..];
      NatToStringInjective(a, b);
    }
  }

  /** `'Repas 1' .. 'Repas n'`. */
  function MealNames(n: nat): (r: seq<string>)
    ensures |r| == n
    ensures forall i :: 0 <= i < n ==> r[i] == MealName(i + 1)
  {
    seq(n, i requires 0 <= i < n => MealName(i + 1))
  }

  /** The meal rows are `'Repas 1' .. 'Repas N'` with N at least 1. */
  predicate NumberedMeals(meals: seq<string>) {
    |meals| >= 1 && forall i :: 0 <= i < |meals| ==> meals[i] == MealName(i + 1)
  }

  /** `meals.filter(meal => meal !== x)`. */
  function Without(s: seq<string>, x: string): (r: seq<string>)
    ensures |r| <= |s|
    ensures forall y :: y in r <==> y in s && y != x
  {
    if s == [] then []
    else if s[0] == x then Without(s[1..], x)
    else [s[0]] + Without(s[1..], x)
  }

  /** Filtering out a name that is not there keeps the list. */
  lemma {:induction false} WithoutAbsent(s: seq<string>, x: string)
    requires x !in s
    ensures Without(s, x) == s
  {
    if s != [] {
      WithoutAbsent(s[1..], x);
      assert s == [s[0]] + s[1..];
    }
  }

  /** Filtering out a name that occurs only at `p` drops exactly position `p`. */
  lemma {:induction false} WithoutUnique(s: seq<string>, p: nat)
    requires p < |s|
    requires forall j :: 0 <= j < |s| && j != p ==> s[j] != s[p]
    ensures Without(s, s[p]) == RemoveAt(s, p)
  {
    if p == 0 {
      assert s[p] !in s[1..];
      WithoutAbsent(s[1..], s[0]);
    } else {
      var t := s[1..];
      assert t[p - 1] == s[p];
      WithoutUnique(t, p - 1);
      assert s[..p] == [s[0]] + t[..p - 1];
      assert s[p + 1..] == t[p..];
    }
  }

  /** On numbered rows, removing a present meal drops its position and removing an absent one drops nothing. */
  lemma RemovedMealRows(meals: seq<string>, mealToRemove: string)
    requires NumberedMeals(meals)
    ensures mealToRemove !in meals ==> Without(meals, mealToRemove) == meals
    ensures forall p :: 0 <= p < |meals| && meals[p] == mealToRemove ==> Without(meals, mealToRemove) == RemoveAt(meals, p)
    ensures |Without(meals, mealToRemove)| >= |meals| - 1
  {
    if mealToRemove !in meals {
      WithoutAbsent(meals, mealToRemove);
    } else {
      var p :| 0 <= p < |meals| && meals[p] == mealToRemove;
      forall j | 0 <= j < |meals| && j != p ensures meals[j] != meals[p] {
        MealNameInjective(j + 1, p + 1);
      }
      WithoutUnique(meals, p);
      forall q | 0 <= q < |meals| && meals[q] == mealToRemove ensures q == p {
        MealNameInjective(q + 1, p + 1);
      }
    }
  }

  // Re-keying a day when a meal row is removed (`updatedMeals.forEach`).

  /** `updatedDayMeals` once `forEach` has visited `upd[..i]`. */
  function RekeyPrefix(day: DayMeals, upd: seq<string>, i: nat): DayMeals
    requires i <= |upd|
  {
    if i == 0 then map[]
    else
      var m := RekeyPrefix(day, upd, i - 1);
      if upd[i - 1] in day then m[MealName(i) := day[upd[i - 1]]] else m
  }

  /** The new cells of one day after the meal rows became `upd`. */
  function RekeyDay(day: DayMeals, upd: seq<string>): DayMeals {
    RekeyPrefix(day, upd, |upd|)
  }

  /** The whole new plan: every day re-keyed, days left without cells dropped. */
  function RekeyPlan(prev: PlannedMeals, upd: seq<string>): PlannedMeals {
    map k | k in prev && RekeyDay(prev[k], upd) != map[] :: RekeyDay(prev[k], upd)
  }

  /** After visiting `upd[..i]`: `'Repas n'` holds the list of `upd[n-1]` when that meal had one, and no other key exists. */
  lemma {:induction false} RekeyPrefixCells(day: DayMeals, upd: seq<string>, i: nat)
    requires i <= |upd|
    ensures forall n :: 1 <= n <= i ==> (MealName(n) in RekeyPrefix(day, upd, i) <==> upd[n - 1] in day)
    ensures forall n :: 1 <= n <= i && upd[n - 1] in day ==> RekeyPrefix(day, upd, i)[MealName(n)] == day[upd[n - 1]]
    ensures forall k :: k in RekeyPrefix(day, upd, i) ==> exists n :: 1 <= n <= i && k == MealName(n)
  {
    if i > 0 {
      RekeyPrefixCells(day, upd, i - 1);
      forall n | 1 <= n < i {
        MealNameInjective(n, i);
      }
    }
  }

  /** Each cell of the re-keyed day is the list of the meal that now has that number. */
  lemma RekeyDayCells(day: DayMeals, upd: seq<string>)
    ensures forall n :: 1 <= n <= |upd| ==> (MealName(n) in RekeyDay(day, upd) <==> upd[n - 1] in day)
    ensures forall n :: 1 <= n <= |upd| && upd[n - 1] in day ==> RekeyDay(day, upd)[MealName(n)] == day[upd[n - 1]]
    ensures forall k :: k in RekeyDay(day, upd) ==> exists n :: 1 <= n <= |upd| && k == MealName(n)
  {
    RekeyPrefixCells(day, upd, |upd|);
  }

  // Cells of a plan.

  /** `plannedMeals[dateKey]?.[meal] || []`. */
  function Cell(plan: PlannedMeals, d: DateKey, meal: string): seq<CalendarRecipe> {
    if d in plan && meal in plan[d] then plan[d][meal] else []
  }

  /** No day without cells and no cell without recipes. */
  predicate Tidy(plan: PlannedMeals) {
    forall d :: d in plan ==> plan[d] != map[] && forall m :: m in plan[d] ==> plan[d][m] != []
  }

  /** A tidy plan is fixed by its cells: two tidy plans with the same cells are equal. */
  lemma TidyDeterminedByCells(a: PlannedMeals, b: PlannedMeals)
    requires Tidy(a) && Tidy(b)
    requires forall d, m :: Cell(a, d, m) == Cell(b, d, m)
    ensures a == b
  {
    forall d | d in a ensures d in b && a[d] == b[d] {
      var m :| m in a[d];
      assert Cell(a, d, m) != [];
      assert d in b;
      forall m | m in a[d] ensures m in b[d] && a[d][m] == b[d][m] {
        assert Cell(a, d, m) == Cell(b, d, m);
      }
      forall m | m in b[d] ensures m in a[d] {
        assert Cell(a, d, m) == Cell(b, d, m);
      }
    }
    forall d | d in b ensures d in a {
      var m :| m in b[d];
      assert Cell(a, d, m) == Cell(b, d, m);
    }
  }

  /** Re-keying keeps a plan tidy, and a day stays exactly when some surviving meal had a cell in it. */
  lemma RekeyPlanTidy(prev: PlannedMeals, upd: seq<string>)
    requires Tidy(prev)
    ensures Tidy(RekeyPlan(prev, upd))
    ensures forall d :: d in RekeyPlan(prev, upd) <==> d in prev && exists j :: 0 <= j < |upd| && upd[j] in prev[d]
  {
    var next := RekeyPlan(prev, upd);
    forall d | d in next ensures forall m :: m in next[d] ==> next[d][m] != [] {
      RekeyDayCells(prev[d], upd);
    }
    forall d ensures d in next <==> d in prev && exists j :: 0 <= j < |upd| && upd[j] in prev[d] {
      if d in prev {
        RekeyDayCells(prev[d], upd);
        if exists j :: 0 <= j < |upd| && upd[j] in prev[d] {
          var j :| 0 <= j < |upd| && upd[j] in prev[d];
          assert MealName(j + 1) in RekeyDay(prev[d], upd);
        }
      }
    }
  }

  /** In the re-keyed plan, cell `'Repas n'` of a day is the old cell of meal `upd[n-1]`, and no other meal name has a cell. */
  lemma RekeyPlanCells(prev: PlannedMeals, upd: seq<string>)
    ensures forall d, n :: 1 <= n <= |upd| ==> Cell(RekeyPlan(prev, upd), d, MealName(n)) == Cell(prev, d, upd[n - 1])
    ensures forall d, k :: d in RekeyPlan(prev, upd) && k in RekeyPlan(prev, upd)[d] ==> exists n :: 1 <= n <= |upd| && k == MealName(n)
  {
    var next := RekeyPlan(prev, upd);
    forall d, n | 1 <= n <= |upd| ensures Cell(next, d, MealName(n)) == Cell(prev, d, upd[n - 1]) {
      if d in prev {
        RekeyDayCells(prev[d], upd);
      }
    }
    forall d, k | d in next && k in next[d] ensures exists n :: 1 <= n <= |upd| && k == MealName(n) {
      RekeyDayCells(prev[d], upd);
    }
  }

  /**
   * `removeMeal` of the meal at position `p` of rows `'Repas 1' .. 'Repas N'`:
   * the meal now numbered `n` carries the list of old row `n` (up to `p`) or
   * `n + 1` (after it), `'Repas N'` disappears from every day, and no cell
   * under any other name survives.
   */
  lemma RemoveMealRekeys(meals: seq<string>, prev: PlannedMeals, p: nat)
    requires NumberedMeals(meals) && p < |meals|
    ensures Without(meals, meals[p]) == RemoveAt(meals, p)
    ensures forall d, n :: 1 <= n < |meals| ==>
      Cell(RekeyPlan(prev, Without(meals, meals[p])), d, MealName(n)) == Cell(prev, d, meals[if n <= p then n - 1 else n])
    ensures forall d, k :: d in RekeyPlan(prev, Without(meals, meals[p])) && k in RekeyPlan(prev, Without(meals, meals[p]))[d] ==>
      exists n :: 1 <= n < |meals| && k == MealName(n)
    ensures forall d :: d in RekeyPlan(prev, Without(meals, meals[p])) ==> MealName(|meals|) !in RekeyPlan(prev, Without(meals, meals[p]))[d]
  {
    RemovedMealRows(meals, meals[p]);
    var upd := Without(meals, meals[p]);
    assert |upd| == |meals| - 1;
    RekeyPlanCells(prev, upd);
    var next := RekeyPlan(prev, upd);
    forall d | d in next ensures MealName(|meals|) !in next[d] {
      if MealName(|meals|) in next[d] {
        var n :| 1 <= n <= |upd| && MealName(|meals|) == MealName(n);
        MealNameInjective(n, |meals|);
        assert false;
      }
    }
  }

  /** The inner `forEach` of `removeMeal`: one day re-keyed. */
  method RekeyDayMeals(dayMeals: DayMeals, updatedMeals: seq<string>) returns (updatedDayMeals: DayMeals)
    ensures updatedDayMeals == RekeyDay(dayMeals, updatedMeals)
  {
    updatedDayMeals := map[];
    var index := 0;
    while index < |updatedMeals|
      invariant 0 <= index <= |updatedMeals|
      invariant updatedDayMeals == RekeyPrefix(dayMeals, updatedMeals, index)
    {
      var oldMeal := updatedMeals[index];
      if oldMeal in dayMeals {
        updatedDayMeals := updatedDayMeals[MealName(index + 1) := dayMeals[oldMeal]];
      }
      index := index + 1;
    }
  }

  /** `userRecipes.find(r => r.id === recipeId)`: the first recipe with that id. */
  function FindRecipe(recipes: seq<CalendarRecipe>, id: int): (r: Option<CalendarRecipe>)
    ensures r.None? <==> forall i :: 0 <= i < |recipes| ==> recipes[i].id != id
    ensures r.Some? ==> r.value.id == id
    ensures r.Some? ==> exists i :: 0 <= i < |recipes| && recipes[i] == r.value && (forall j :: 0 <= j < i ==> recipes[j].id != id)
  {
    if recipes == [] then None
    else if recipes[0].id == id then Some(recipes[0])
    else
      FindRecipe(recipes[1..], id)
  }

  /** The outer `for…of` of `removeMeal`: every day re-keyed, and kept only when some cell is left. */
  method RekeyPlannedMeals(prev: PlannedMeals, updatedMeals: seq<string>) returns (newPlanned: PlannedMeals)
    ensures newPlanned == RekeyPlan(prev, updatedMeals)
  {
    newPlanned := map[];
    var pending := prev.Keys;
    while pending != {}
      invariant pending <= prev.Keys
      invariant newPlanned == map k | k in prev.Keys - pending && RekeyDay(prev[k], updatedMeals) != map[] :: RekeyDay(prev[k], updatedMeals)
      decreases |pending|
    {
      var dateKey :| dateKey in pending;
      var updatedDayMeals := RekeyDayMeals(prev[dateKey], updatedMeals);
      if updatedDayMeals != map[] {
        newPlanned := newPlanned[dateKey := updatedDayMeals];
      }
      pending := pending - {dateKey};
    }
    assert prev.Keys - pending == prev.Keys;
  }

  /** The plan `addPlannedMeal` returns from `prev`: `recipe` appended to cell (`d`, `meal`). */
  function AppendToCell(plan: PlannedMeals, d: DateKey, meal: string, recipe: CalendarRecipe): PlannedMeals {
    var dayMeals := if d in plan then plan[d] else map[];
    plan[d := dayMeals[meal := Cell(plan, d, meal) + [recipe]]]
  }

  /** Appending touches exactly one cell, adds at most the day `d`, and keeps the plan tidy. */
  lemma AppendToCellCells(plan: PlannedMeals, d: DateKey, meal: string, recipe: CalendarRecipe)
    ensures forall d', m ::
      Cell(AppendToCell(plan, d, meal, recipe), d', m) == (if d' == d && m == meal then Cell(plan, d, meal) + [recipe] else Cell(plan, d', m))
    ensures AppendToCell(plan, d, meal, recipe).Keys == plan.Keys + {d}
    ensures Tidy(plan) ==> Tidy(AppendToCell(plan, d, meal, recipe))
  {
    if Tidy(plan) {
      AppendToCellTidy(plan, d, meal, recipe);
    }
  }

  /** Appending to a cell of a tidy plan leaves it tidy: the cell it writes is non-empty. */
  lemma AppendToCellTidy(plan: PlannedMeals, d: DateKey, meal: string, recipe: CalendarRecipe)
    requires Tidy(plan)
    ensures Tidy(AppendToCell(plan, d, meal, recipe))
  {
    var dayMeals := if d in plan then plan[d] else map[];
    var cell := Cell(plan, d, meal) + [recipe];
    var next := plan[d := dayMeals[meal := cell]];
    assert next[d][meal] == cell && cell != [];
    forall d' | d' in next
      ensures next[d'] != map[] && forall m :: m in next[d'] ==> next[d'][m] != []
    {
      if d' == d {
        assert meal in next[d'];
      } else {
        assert next[d'] == plan[d'];
      }
    }
  }

  /**
   * The plan `removePlannedRecipe` leaves: position `index` of cell (`d`,
   * `meal`) dropped when that cell exists, then the cell deleted if it became
   * empty, then the day deleted if it has no cell left.
   */
  function RemoveFromCell(plan: PlannedMeals, d: DateKey, meal: string, index: int): PlannedMeals {
    if d in plan && meal in plan[d] then
      var cell := RemoveAt(plan[d][meal], index);
      if cell != [] then plan[d := plan[d][meal := cell]]
      else if plan[d] - {meal} != map[] then plan[d := plan[d] - {meal}]
      else plan - {d}
    else plan
  }

  /** Removing touches exactly one cell, never adds a day, drops at most day `d`, and keeps the plan tidy. */
  lemma RemoveFromCellCells(plan: PlannedMeals, d: DateKey, meal: string, index: int)
    ensures forall d', m ::
      Cell(RemoveFromCell(plan, d, meal, index), d', m) == (if d' == d && m == meal then RemoveAt(Cell(plan, d, meal), index) else Cell(plan, d', m))
    ensures RemoveFromCell(plan, d, meal, index).Keys <= plan.Keys
    ensures plan.Keys - {d} <= RemoveFromCell(plan, d, meal, index).Keys
    ensures Tidy(plan) ==> Tidy(RemoveFromCell(plan, d, meal, index))
  {
    var next := RemoveFromCell(plan, d, meal, index);
    forall d', m ensures Cell(next, d', m) == (if d' == d && m == meal then RemoveAt(Cell(plan, d, meal), index) else Cell(plan, d', m)) {
      if d' == d && d in plan && meal in plan[d] && RemoveAt(plan[d][meal], index) == [] && plan[d] - {meal} == map[] && m != meal {
        assert m !in plan[d] - {meal};
      }
    }
  }

  class MealPlanner {
    var meals: seq<string>
    var plannedMeals: PlannedMeals
    var showRecipeModal: bool
    var selectedDay: Option<DateKey>
    var selectedMeal: string

    /** Rows `'Repas 1' .. 'Repas N'`, and a plan with no empty day or cell. */
    predicate Valid()
      reads this
    {
      NumberedMeals(meals) && Tidy(plannedMeals)
    }

    /** The hook's initial state: one meal row, nothing planned, no selection. */
    constructor ()
      ensures meals == ["Repas 1"] && plannedMeals == map[]
      ensures !showRecipeModal && selectedDay == None && selectedMeal == ""
      ensures Valid()
    {
      meals := ["Repas 1"];
      plannedMeals := map[];
      showRecipeModal := false;
      selectedDay := None;
      selectedMeal := "";
      new;
      assert meals[0] == MealName(1);
    }

    /** `addMeal`: one row named after the new count appended. */
    method AddMeal()
      modifies this
      ensures meals == old(meals) + [MealName(|old(meals)| + 1)]
      ensures plannedMeals == old(plannedMeals) && showRecipeModal == old(showRecipeModal)
      ensures selectedDay == old(selectedDay) && selectedMeal == old(selectedMeal)
      ensures old(Valid()) ==> Valid()
    {
      var newMealNumber := |meals| + 1;
      meals := meals + [MealName(newMealNumber)];
    }

    /** `removeMeal`: nothing with one row; otherwise the meal is filtered out, the rows renumbered and the plan re-keyed. */
    method RemoveMeal(mealToRemove: string)
      modifies this
      ensures |old(meals)| <= 1 ==> meals == old(meals) && plannedMeals == old(plannedMeals)
      ensures |old(meals)| > 1 ==>
        && meals == MealNames(|Without(old(meals), mealToRemove)|)
        && plannedMeals == RekeyPlan(old(plannedMeals), Without(old(meals), mealToRemove))
      ensures showRecipeModal == old(showRecipeModal) && selectedDay == old(selectedDay) && selectedMeal == old(selectedMeal)
      ensures old(Valid()) ==> Valid()
    {
      if |meals| > 1 {
        var updatedMeals := Without(meals, mealToRemove);
        var renumberedMeals := MealNames(|updatedMeals|);
        var prev := plannedMeals;
        var newPlanned := RekeyPlannedMeals(prev, updatedMeals);
        if Valid() {
          RemovedMealRows(meals, mealToRemove);
          RekeyPlanTidy(prev, updatedMeals);
        }
        plannedMeals := newPlanned;
        meals := renumberedMeals;
      }
    }

    /** `openRecipeModal`: the cell the recipe picker adds to. */
    method OpenRecipeModal(day: DateKey, meal: string)
      modifies this
      ensures selectedDay == Some(day) && selectedMeal == meal && showRecipeModal
      ensures meals == old(meals) && plannedMeals == old(plannedMeals)
    {
      selectedDay := Some(day);
      selectedMeal := meal;
      showRecipeModal := true;
    }

    /** `addPlannedMeal`: nothing without a selected day or a known recipe; otherwise the recipe is appended to the selected cell and the picker closed. */
    method AddPlannedMeal(recipeId: int, userRecipes: seq<CalendarRecipe>)
      modifies this
      ensures old(selectedDay).None? || FindRecipe(userRecipes, recipeId).None? ==> unchanged(this)
      ensures old(selectedDay).Some? && FindRecipe(userRecipes, recipeId).Some? ==>
        && plannedMeals == AppendToCell(old(plannedMeals), old(selectedDay).value, old(selectedMeal), FindRecipe(userRecipes, recipeId).value)
        && !showRecipeModal && selectedDay == None && selectedMeal == ""
      ensures meals == old(meals)
      ensures old(Valid()) ==> Valid()
    {
      if selectedDay.None? {
        return;
      }
      var dateKey := selectedDay.value;
      var recipe := FindRecipe(userRecipes, recipeId);
      if recipe.None? {
        return;
      }
      var prev := plannedMeals;
      var existingDayMeals := if dateKey in prev then prev[dateKey] else map[];
      var existingMealRecipes := Cell(prev, dateKey, selectedMeal);
      var next := prev[dateKey := existingDayMeals[selectedMeal := existingMealRecipes + [recipe.value]]];
      assert next == AppendToCell(old(plannedMeals), old(selectedDay).value, old(selectedMeal), recipe.value);
      if Tidy(prev) {
        AppendToCellTidy(prev, dateKey, selectedMeal, recipe.value);
      }
      plannedMeals := next;
      showRecipeModal := false;
      selectedDay := None;
      selectedMeal := "";
    }

    /** `removePlannedRecipe`: position `recipeIndex` of the cell dropped; an emptied cell, then an emptied day, deleted. */
    method RemovePlannedRecipe(day: DateKey, meal: string, recipeIndex: int)
      modifies this
      ensures plannedMeals == RemoveFromCell(old(plannedMeals), day, meal, recipeIndex)
      ensures meals == old(meals) && showRecipeModal == old(showRecipeModal)
      ensures selectedDay == old(selectedDay) && selectedMeal == old(selectedMeal)
      ensures old(Valid()) ==> Valid()
    {
      var newPlanned: PlannedMeals := plannedMeals;
      if day in newPlanned && meal in newPlanned[day] {
        var dayMeals := newPlanned[day];
        dayMeals := dayMeals[meal := RemoveAt(dayMeals[meal], recipeIndex)];
        newPlanned := newPlanned[day := dayMeals];
        if |dayMeals[meal]| == 0 {
          dayMeals := dayMeals - {meal};
          assert dayMeals == plannedMeals[day] - {meal};
          newPlanned := newPlanned[day := dayMeals];
          if dayMeals == map[] {
            newPlanned := newPlanned - {day};
            assert newPlanned == plannedMeals - {day};
          }
        }
      }
      RemoveFromCellCells(plannedMeals, day, meal, recipeIndex);
      plannedMeals := newPlanned;
    }

    /** `getPlannedMeals`: the stored list, or nothing when the cell is absent. */
    function GetPlannedMeals(day: DateKey, meal: string): (r: seq<CalendarRecipe>)
      reads this
      ensures day in plannedMeals && meal in plannedMeals[day] ==> r == plannedMeals[day][meal]
      ensures !(day in plannedMeals && meal in plannedMeals[day]) ==> r == []
      ensures Valid() ==> (r != [] <==> day in plannedMeals && meal in plannedMeals[day])
    {
      Cell(plannedMeals, day, meal)
    }
  }
}
