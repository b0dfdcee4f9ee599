/** What `src/components/ItineraryDisplay.tsx` shows for an itinerary: the header, one block per
    day with one entry per activity, one row per budget line, the total and the budget indicator.
    Markup and styling are not modelled; a view is the text the component puts on the page. */
module ItineraryDisplay {
  import opened Wrappers
  import opened Text
  import opened ItineraryType

  const WithinBudgetText: string := "✓ Within budget"
  const OverBudgetLead: string := "⚠ Over budget by $"

  /** The budget indicator: within budget, or over it by a positive amount. */
  datatype BudgetStatus = WithinBudget | OverBudget(excess: int)

  /** Within budget exactly when the total cost does not exceed the budget; otherwise over it by
      the difference, which is positive. */
  function BudgetStatusOf(it: Itinerary): (s: BudgetStatus)
    ensures s.WithinBudget? <==> it.totalCost <= it.budget
    ensures s.OverBudget? ==> s.excess > 0 && it.budget + s.excess == it.totalCost
  {
    if it.totalCost <= it.budget then WithinBudget else OverBudget(it.totalCost - it.budget)
  }

  /** `toFixed(2)` of a whole number: its digits followed by ".00". */
  function FixedTwo(n: int): (r: string)
    ensures |r| >= 4 && r[|r| - 3..] == ".00" && r[..|r| - 3] == IntToDecimal(n)
    ensures DecimalToInt(r[..|r| - 3]) == n
  {
    IntDecimalRoundTrip(n);
    assert (IntToDecimal(n) + ".00")[..|IntToDecimal(n)|] == IntToDecimal(n);
    IntToDecimal(n) + ".00"
  }

  /** The indicator line. */
  function IndicatorText(s: BudgetStatus): (r: string)
    ensures s.WithinBudget? ==> r == WithinBudgetText
    ensures s.OverBudget? ==> |OverBudgetLead| < |r| && r[..|OverBudgetLead|] == OverBudgetLead
  {
    match s
    case WithinBudget => WithinBudgetText
    case OverBudget(excess) => OverBudgetLead + FixedTwo(excess)
  }

  /** The over-budget amount can be read back from the indicator: the text after "$" is the
      difference followed by ".00". */
  lemma OverAmountReadsBack(it: Itinerary)
    requires it.totalCost > it.budget
    ensures var r := IndicatorText(BudgetStatusOf(it));
      && |OverBudgetLead| + 3 <= |r|
      && r[|r| - 3..] == ".00"
      && DecimalToInt(r[|OverBudgetLead|..|r| - 3]) == it.totalCost - it.budget
  {
    var d := IntToDecimal(it.totalCost - it.budget);
    var r := IndicatorText(BudgetStatusOf(it));
    assert r == OverBudgetLead + d + ".00";
    assert r[|OverBudgetLead|..|r| - 3] == d;
    IntDecimalRoundTrip(it.totalCost - it.budget);
  }

  /** An optional text as the component shows it: only when it is present and not empty. */
  function ShowIfTruthy(x: Option<string>): (r: Option<string>)
    ensures r.Some? <==> x.Some? && x.value != ""
    ensures r.Some? ==> r == x
  {
    if x.Some? && x.value != "" then x else None
  }

  /** An amount of money as the component shows it. */
  function Money(n: int): string {
    "$" + IntToDecimal(n)
  }

  /** One rendered activity: what is shown of each field, `None` for a field left out. */
  datatype ActivityView = ActivityView(time: Option<string>, activity: string, cost: Option<string>, notes: Option<string>)

  /** One rendered day: its heading and its activities. */
  datatype DayView = DayView(heading: string, activities: seq<ActivityView>)

  /** One rendered row of the budget breakdown. */
  datatype BudgetLineView = BudgetLineView(category: string, details: Option<string>, amount: string)

  /** The whole rendered itinerary. */
  datatype View = View(
    destination: string,
    durationText: string,
    budgetText: string,
    days: seq<DayView>,
    budgetLines: seq<BudgetLineView>,
    totalText: string,
    indicator: string)

  /** The time and the notes are shown only when they are non-empty text; the cost is shown
      whenever it is defined, a cost of 0 included. */
  function ViewActivity(a: Activity): (v: ActivityView)
    ensures v.time.Some? <==> a.time.Some? && a.time.value != ""
    ensures v.notes.Some? <==> a.notes.Some? && a.notes.value != ""
    ensures v.cost.Some? <==> a.cost.Some?
    ensures v.time.Some? ==> v.time == a.time
    ensures v.notes.Some? ==> v.notes == a.notes
    ensures v.cost.Some? ==> v.cost.value == Money(a.cost.value)
    ensures v.activity == a.activity
  {
    ActivityView(ShowIfTruthy(a.time), a.activity,
                 if a.cost.Some? then Some(Money(a.cost.value)) else None,
                 ShowIfTruthy(a.notes))
  }

  /** The activities of a day, one entry per activity, in order. */
  function ViewActivities(acts: seq<Activity>): (r: seq<ActivityView>)
    ensures |r| == |acts|
    ensures forall i :: 0 <= i < |acts| ==> r[i] == ViewActivity(acts[i])
  {
    if acts == [] then [] else [ViewActivity(acts[0])] + ViewActivities(acts[1..])
  }

  /** A day's heading, "Day <n>: <title>", and one entry per activity, in order. */
  function ViewDay(d: DayPlan): (v: DayView)
    ensures |v.heading| >= 4 && v.heading[..4] == "Day "
    ensures |d.title| <= |v.heading| && v.heading[|v.heading| - |d.title|..] == d.title
    ensures |v.activities| == |d.activities|
    ensures forall i :: 0 <= i < |d.activities| ==> v.activities[i] == ViewActivity(d.activities[i])
  {
    DayView("Day " + IntToDecimal(d.day) + ": " + d.title, ViewActivities(d.activities))
  }

  /** The days, one block per day, in order. */
  function ViewDays(days: seq<DayPlan>): (r: seq<DayView>)
    ensures |r| == |days|
    ensures forall i :: 0 <= i < |days| ==> r[i] == ViewDay(days[i])
  {
    if days == [] then [] else [ViewDay(days[0])] + ViewDays(days[1..])
  }

  /** A budget line: the details are shown only when they are non-empty text. */
  function ViewBudgetLine(b: BudgetLine): (v: BudgetLineView)
    ensures v.details.Some? <==> b.details.Some? && b.details.value != ""
    ensures v.details.Some? ==> v.details == b.details
    ensures v.category == b.category && v.amount == Money(b.amount)
  {
    BudgetLineView(b.category, ShowIfTruthy(b.details), Money(b.amount))
  }

  /** The budget breakdown, one row per line, in order. */
  function ViewBudgetLines(lines: seq<BudgetLine>): (r: seq<BudgetLineView>)
    ensures |r| == |lines|
    ensures forall i :: 0 <= i < |lines| ==> r[i] == ViewBudgetLine(lines[i])
  {
    if lines == [] then [] else [ViewBudgetLine(lines[0])] + ViewBudgetLines(lines[1..])
  }

  /** `ItineraryDisplay`: the header, each day and each budget line in order, the total and the
      indicator of the budget status. */
  function Render(it: Itinerary): (v: View)
    ensures v.destination == it.destination
    ensures |v.days| == |it.itinerary| && forall d :: 0 <= d < |v.days| ==> v.days[d] == ViewDay(it.itinerary[d])
    ensures |v.budgetLines| == |it.budgetBreakdown|
    ensures forall k :: 0 <= k < |v.budgetLines| ==> v.budgetLines[k] == ViewBudgetLine(it.budgetBreakdown[k])
    ensures v.indicator == IndicatorText(BudgetStatusOf(it))
  {
    View(it.destination, IntToDecimal(it.duration) + " Days", "Budget: " + Money(it.budget),
         ViewDays(it.itinerary), ViewBudgetLines(it.budgetBreakdown), Money(it.totalCost),
         IndicatorText(BudgetStatusOf(it)))
  }

  /** Rendering the days is compositional: the days of `a + b` render as those of `a` followed by
      those of `b`, so each day is rendered on its own and in its place. */
  lemma {:induction false} ViewDaysAppend(a: seq<DayPlan>, b: seq<DayPlan>)
    ensures ViewDays(a + b) == ViewDays(a) + ViewDays(b)
  {
    if a == [] {
      assert a + b == b;
    } else {
      assert (a + b)[1..] == a[1..] + b;
      ViewDaysAppend(a[1..], b);
    }
  }

  /** Exactly one indicator is shown: "✓ Within budget" when the total cost is within the budget,
      and otherwise the over-budget line, never both. */
  lemma ExactlyOneIndicator(it: Itinerary)
    ensures Render(it).indicator == WithinBudgetText <==> it.totalCost <= it.budget
    ensures it.totalCost > it.budget ==>
      Render(it).indicator == OverBudgetLead + FixedTwo(it.totalCost - it.budget)
  {
    if it.totalCost > it.budget {
      assert |Render(it).indicator| > |OverBudgetLead| >= |WithinBudgetText|;
    }
  }

  /** Nothing the page shows for an optional text is empty: every time, note and detail on the
      page is non-empty, and every defined cost is on it. */
  lemma NoEmptyOptionalShown(it: Itinerary, d: nat, i: nat, k: nat)
    requires d < |it.itinerary| && i < |it.itinerary[d].activities| && k < |it.budgetBreakdown|
    ensures var a := Render(it).days[d].activities[i];
      && (a.time.Some? ==> a.time.value != "")
      && (a.notes.Some? ==> a.notes.value != "")
      && (a.cost.Some? <==> it.itinerary[d].activities[i].cost.Some?)
    ensures Render(it).budgetLines[k].details.Some? ==> Render(it).budgetLines[k].details.value != ""
  {
  }

  /** A total cost of 950 against a budget of 1000 is within budget. */
  lemma WithinBudgetExample(it: Itinerary)
    requires it.budget == 1000 && it.totalCost == 950
    ensures Render(it).indicator == "✓ Within budget"
  {
  }

  /** A total cost of 1200 against a budget of 1000 is over it by $200.00. */
  lemma OverBudgetExample(it: Itinerary)
    requires it.budget == 1000 && it.totalCost == 1200
    ensures Render(it).indicator == "⚠ Over budget by $200.00"
  {
    assert IntToDecimal(200) == "200";
  }

  /** A budget of 1000: a total cost of 950 is within it, a total of 1200 is over it by $200.00. */
  lemma BudgetExamples(it: Itinerary)
    requires it.budget == 1000
    ensures it.totalCost == 950 ==> Render(it).indicator == "✓ Within budget"
    ensures it.totalCost == 1200 ==> Render(it).indicator == "⚠ Over budget by $200.00"
  {
    if it.totalCost == 950 {
      WithinBudgetExample(it);
    } else if it.totalCost == 1200 {
      OverBudgetExample(it);
    }
  }
}
