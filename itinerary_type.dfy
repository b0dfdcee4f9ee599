/** The shape of a generated itinerary, as the language model is asked to return it and as the
    display renders it. Money amounts are whole currency units. */
module ItineraryType {
  import opened Wrappers

  /** One activity of a day: a description, and optionally a time label, a cost and notes. */
  datatype Activity = Activity(time: Option<string>, activity: string, cost: Option<int>, notes: Option<string>)

  /** The plan for one day of the trip. */
  datatype DayPlan = DayPlan(day: int, title: string, activities: seq<Activity>)

  /** One category of the budget breakdown, with optional details. */
  datatype BudgetLine = BudgetLine(category: string, amount: int, details: Option<string>)

  /** A whole trip plan: the request echoed back, the days, the budget breakdown and the total. */
  datatype Itinerary = Itinerary(
    destination: string,
    duration: int,
    budget: int,
    itinerary: seq<DayPlan>,
    budgetBreakdown: seq<BudgetLine>,
    totalCost: int)
}
