/**
 * The meal planner's entities (src/types/calendar.ts). Dates are kept as
 * opaque keys: the planner only ever compares them.
 */
module CalendarTypes {
  /** A recipe as the planner stores it in a cell. */
  datatype CalendarRecipe = CalendarRecipe(id: int, name: string, cookTime: int)

  /** `DayMeals`: meal name to the recipes planned for it. */
  type DayMeals = map<string, seq<CalendarRecipe>>

  /** The `YYYY-MM-DD` key of a day. */
  type DateKey = string

  /** `PlannedMeals`: date key to that day's meals. */
  type PlannedMeals = map<DateKey, DayMeals>
}
