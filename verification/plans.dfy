/** The two per-meal budget computations of the dashboard and the plan tier
    each one recommends (script.js, `initMealBudgetCalculator` and
    `calculatePerMealBudget`), the Gregorian month length the planner reads
    off the clock, and the two progress meters (`updateBudgetMeter` and the
    meter inside `updateExpenseSummary`). */
module Plans {
  import opened Seqs
  import opened Records
  import opened Ledger

  /** The recommended meal plans, from the cheapest situation to the most
      comfortable one. The calculator never recommends the first two and the
      planner never recommends `BelowBasic`. */
  datatype Tier = BudgetExceeded | Emergency | BelowBasic | Basic | Balanced | Standard | Better | Comfort | Premium

  /** Position of a tier on the scale from cheapest to most comfortable. */
  function Rank(t: Tier): nat {
    match t
    case BudgetExceeded => 0
    case Emergency => 1
    case BelowBasic => 2
    case Basic => 3
    case Balanced => 4
    case Standard => 5
    case Better => 6
    case Comfort => 7
    case Premium => 8
  }

  /** The calculator's classifier: below 41 a meal is "Below Basic", from 41
      to 50 inclusive "Basic", then one tier per ten units up to 90, and
      anything above 90 is "Premium". */
  function CalculatorTier(perMeal: real): (t: Tier)
    ensures t == BelowBasic <==> perMeal < 41.0
    ensures t == Basic <==> 41.0 <= perMeal <= 50.0
    ensures t == Balanced <==> 50.0 < perMeal <= 60.0
    ensures t == Standard <==> 60.0 < perMeal <= 70.0
    ensures t == Better <==> 70.0 < perMeal <= 80.0
    ensures t == Comfort <==> 80.0 < perMeal <= 90.0
    ensures t == Premium <==> 90.0 < perMeal
    ensures t != BudgetExceeded && t != Emergency
  {
    if perMeal < 41.0 then BelowBasic
    else if perMeal >= 41.0 && perMeal <= 50.0 then Basic
    else if perMeal > 50.0 && perMeal <= 60.0 then Balanced
    else if perMeal > 60.0 && perMeal <= 70.0 then Standard
    else if perMeal > 70.0 && perMeal <= 80.0 then Better
    else if perMeal > 80.0 && perMeal <= 90.0 then Comfort
    else Premium
  }

  /** The planner's classifier: nothing left is "Budget Exceeded", up to 40
      "Emergency", then one tier per ten units (upper bound inclusive) up to
      90, and anything above 90 is "Premium". */
  function PlannerTier(perMeal: real): (t: Tier)
    ensures t == BudgetExceeded <==> perMeal <= 0.0
    ensures t == Emergency <==> 0.0 < perMeal <= 40.0
    ensures t == Basic <==> 40.0 < perMeal <= 50.0
    ensures t == Balanced <==> 50.0 < perMeal <= 60.0
    ensures t == Standard <==> 60.0 < perMeal <= 70.0
    ensures t == Better <==> 70.0 < perMeal <= 80.0
    ensures t == Comfort <==> 80.0 < perMeal <= 90.0
    ensures t == Premium <==> 90.0 < perMeal
    ensures t != BelowBasic
  {
    if perMeal <= 0.0 then BudgetExceeded
    else if perMeal <= 40.0 then Emergency
    else if perMeal <= 50.0 then Basic
    else if perMeal <= 60.0 then Balanced
    else if perMeal <= 70.0 then Standard
    else if perMeal <= 80.0 then Better
    else if perMeal <= 90.0 then Comfort
    else Premium
  }

  /** A larger per-meal amount never earns a cheaper plan, in either
      classifier. */
  lemma TiersMonotone(a: real, b: real)
    requires a <= b
    ensures Rank(CalculatorTier(a)) <= Rank(CalculatorTier(b))
    ensures Rank(PlannerTier(a)) <= Rank(PlannerTier(b))
  {
  }

  /** The classifiers agree from 41 upwards, but an amount strictly between
      40 and 41 is "Below Basic" for the calculator and "Basic" for the
      planner. */
  lemma TierBoundariesDiffer(v: real)
    ensures v >= 41.0 ==> CalculatorTier(v) == PlannerTier(v)
    ensures 40.0 < v < 41.0 ==> CalculatorTier(v) == BelowBasic && PlannerTier(v) == Basic
  {
  }

  /** `parseFloat(text) || fallback`: a number that failed to parse (NaN,
      here `None`) or parsed as 0 gives way to the fallback. */
  function RealOr(parsed: Option<real>, fallback: real): (r: real)
    ensures parsed.Some? && parsed.value != 0.0 ==> r == parsed.value
    ensures parsed.None? || parsed.value == 0.0 ==> r == fallback
  {
    if parsed.Some? && parsed.value != 0.0 then parsed.value else fallback
  }

  /** `parseInt(text) || fallback`, as `RealOr` for whole numbers. */
  function IntOr(parsed: Option<int>, fallback: int): (r: int)
    ensures parsed.Some? && parsed.value != 0 ==> r == parsed.value
    ensures parsed.None? || parsed.value == 0 ==> r == fallback
  {
    if parsed.Some? && parsed.value != 0 then parsed.value else fallback
  }

  datatype BudgetReport = BudgetReport(monthly: real, days: int, mealsPerDay: int, spent: real,
                                       remaining: real, daily: real, perMeal: real, tier: Tier)

  /** The "Calculate" button of the meal budget calculator. The three inputs
      are what `parseFloat`/`parseInt` made of the form fields; spending so
      far is the total of the recorded expenses. The remaining budget is
      clamped at 0, spread evenly over the days and then over the meals of a
      day, and the per-meal amount picks the recommended tier. */
  function BudgetCalculator(budgetInput: Option<real>, daysInput: Option<int>, mealsInput: Option<int>,
                            expenses: seq<Expense>): (r: BudgetReport)
    ensures r.monthly == RealOr(budgetInput, 3000.0)
    ensures r.days == IntOr(daysInput, 30) && r.mealsPerDay == IntOr(mealsInput, 3)
    ensures r.days != 0 && r.mealsPerDay != 0
    ensures r.spent == TotalExpenses(expenses)
    ensures r.remaining >= 0.0 && r.remaining >= r.monthly - r.spent
    ensures r.remaining == 0.0 || r.remaining == r.monthly - r.spent
    ensures r.daily * r.days as real == r.remaining
    ensures r.perMeal * r.mealsPerDay as real == r.daily
    ensures r.tier == CalculatorTier(r.perMeal)
  {
    var monthly := RealOr(budgetInput, 3000.0);
    var days := IntOr(daysInput, 30);
    var meals := IntOr(mealsInput, 3);
    var spent := TotalExpenses(expenses);
    var remaining := if monthly - spent > 0.0 then monthly - spent else 0.0;
    var daily := remaining / days as real;
    var perMeal := daily / meals as real;
    BudgetReport(monthly, days, meals, spent, remaining, daily, perMeal, CalculatorTier(perMeal))
  }

  /** Once spending reaches the budget nothing is left for any meal, and the
      calculator recommends "Below Basic". */
  lemma CalculatorOverspent(budgetInput: Option<real>, daysInput: Option<int>, mealsInput: Option<int>,
                            expenses: seq<Expense>)
    requires TotalExpenses(expenses) >= RealOr(budgetInput, 3000.0)
    ensures BudgetCalculator(budgetInput, daysInput, mealsInput, expenses).perMeal == 0.0
    ensures BudgetCalculator(budgetInput, daysInput, mealsInput, expenses).tier == BelowBasic
  {
    var r := BudgetCalculator(budgetInput, daysInput, mealsInput, expenses);
    assert r.remaining == 0.0;
    assert r.daily == 0.0 / r.days as real;
  }

  /** With the defaults and nothing spent, a meal may cost 3000 / 30 / 3. */
  lemma CalculatorDefaults()
    ensures BudgetCalculator(None, None, None, []).perMeal == 3000.0 / 90.0
    ensures BudgetCalculator(None, None, None, []).tier == BelowBasic
  {
  }

  predicate IsLeapYear(year: int) {
    (year % 4 == 0 && year % 100 != 0) || year % 400 == 0
  }

  /** Number of days of a month (January is 1) in the Gregorian calendar,
      which is what `new Date(year, month, 0).getDate()` reads off. */
  function DaysInMonth(year: int, month: int): (n: int)
    requires 1 <= month <= 12
    ensures 28 <= n <= 31
    ensures month == 2 ==> (n == 29 <==> IsLeapYear(year))
  {
    if month == 2 then (if IsLeapYear(year) then 29 else 28)
    else if month == 4 || month == 6 || month == 9 || month == 11 then 30
    else 31
  }

  datatype PlanReport = PlanReport(membersCount: int, daysRemaining: int, mealsRemaining: int,
                                   perMeal: real, tier: Tier)

  /** The meal planner (`calculatePerMealBudget`) on the date `year-month-day`
      read from the clock. An empty member list counts as one member; the
      days remaining include today; every member eats three meals a day; the
      per-meal amount is the money left over the meals left, or 0 when there
      is no money left. */
  function MealPlanner(budget: real, spent: real, memberCount: nat, year: int, month: int, day: int): (r: PlanReport)
    requires 1 <= month <= 12 && 1 <= day <= DaysInMonth(year, month)
    ensures r.membersCount >= 1 && (memberCount > 0 ==> r.membersCount == memberCount)
    ensures 1 <= r.daysRemaining <= DaysInMonth(year, month)
    ensures day + r.daysRemaining == DaysInMonth(year, month) + 1
    ensures r.mealsRemaining == r.daysRemaining * r.membersCount * 3 && r.mealsRemaining >= 3
    ensures r.perMeal >= 0.0
    ensures r.perMeal > 0.0 <==> budget > spent
    ensures budget > spent ==> r.perMeal * r.mealsRemaining as real == budget - spent
    ensures r.tier == PlannerTier(r.perMeal)
    ensures r.tier == BudgetExceeded <==> budget <= spent
  {
    var members := if memberCount > 0 then memberCount else 1;
    var lastDay := DaysInMonth(year, month);
    var daysRemaining := lastDay - day + 1;
    var remaining := budget - spent;
    var mealsRemaining := daysRemaining * members * 3;
    MealsAtLeastThree(daysRemaining, members);
    ShareOfMeals(remaining, mealsRemaining);
    var perMeal := if mealsRemaining > 0 && remaining > 0.0 then remaining / mealsRemaining as real else 0.0;
    PlanReport(members, daysRemaining, mealsRemaining, perMeal, PlannerTier(perMeal))
  }

  /** Helper: at least one day and one member leave at least three meals. */
  lemma MealsAtLeastThree(days: int, members: int)
    requires days >= 1 && members >= 1
    ensures days * members * 3 >= 3
  {
    assert days * members >= 1 * members;
  }

  /** Helper: a positive amount shared over some meals is positive, and the
      shares add back up to the amount. */
  lemma ShareOfMeals(amount: real, meals: int)
    requires meals >= 1
    ensures amount > 0.0 ==> amount / meals as real > 0.0
    ensures (amount / meals as real) * meals as real == amount
  {
  }

  /** With 3000 to spend on 21 April 2025 by two members, ten days of six
      meals remain and each meal may cost 50: the "Basic Survival" plan. */
  lemma PlannerExample()
    ensures MealPlanner(3000.0, 0.0, 2, 2025, 4, 21).daysRemaining == 10
    ensures MealPlanner(3000.0, 0.0, 2, 2025, 4, 21).perMeal == 50.0
    ensures MealPlanner(3000.0, 0.0, 2, 2025, 4, 21).tier == Basic
  {
  }

  datatype Colour = Green | Orange | Red

  /** The meter's colour for a percentage of the budget spent. */
  function MeterColour(percentage: real): (c: Colour)
    ensures c == Green <==> percentage < 50.0
    ensures c == Red <==> percentage >= 80.0
  {
    if percentage < 50.0 then Green else if percentage < 80.0 then Orange else Red
  }

  datatype MeterReading = MeterReading(width: real, colour: Colour)

  /** `updateBudgetMeter`: nothing is drawn unless the budget is positive;
      the bar is as wide as the share of the budget spent, but never wider
      than the whole meter, and turns orange at half the budget and red at
      four fifths of it. */
  function BudgetMeter(spent: real, budget: real): (r: Option<MeterReading>)
    ensures r.None? <==> budget <= 0.0
    ensures r.Some? ==> r.value.width <= 100.0
    ensures r.Some? && spent <= budget ==> r.value.width * budget == spent * 100.0
    ensures r.Some? && spent >= budget ==> r.value.width == 100.0
    ensures r.Some? ==> (r.value.colour == Green <==> 2.0 * spent < budget)
    ensures r.Some? ==> (r.value.colour == Red <==> 5.0 * spent >= 4.0 * budget)
  {
    if budget <= 0.0 then None
    else
      var percentage := spent / budget * 100.0;
      PercentageScale(spent, budget, percentage);
      Some(MeterReading(if percentage < 100.0 then percentage else 100.0, MeterColour(percentage)))
  }

  /** Helper: comparing the percentage spent with a threshold is comparing
      the spend with that share of the budget. */
  lemma PercentageScale(spent: real, budget: real, percentage: real)
    requires budget > 0.0 && percentage == spent / budget * 100.0
    ensures percentage * budget == spent * 100.0
    ensures percentage < 50.0 <==> 2.0 * spent < budget
    ensures percentage >= 80.0 <==> 5.0 * spent >= 4.0 * budget
    ensures percentage < 100.0 <==> spent < budget
  {
    var q := spent / budget;
    assert q * budget == spent;
    assert percentage * budget == spent * 100.0;
    ScaleCompare(percentage, 50.0, budget);
    ScaleCompare(percentage, 80.0, budget);
    ScaleCompare(percentage, 100.0, budget);
  }

  /** Helper: multiplying by a positive amount keeps strict order. */
  lemma ScaleCompare(p: real, t: real, factor: real)
    requires factor > 0.0
    ensures p < t <==> p * factor < t * factor
  {
    if p < t {
      assert (t - p) * factor > 0.0;
    } else {
      assert (p - t) * factor >= 0.0;
    }
  }

  /** The meter drawn by the expense summary: a fixed budget of 1000 and
      no upper limit on the width. */
  function SummaryMeter(totalExpenses: real): (r: MeterReading)
    ensures r.width * 10.0 == totalExpenses
    ensures r.colour == Green <==> totalExpenses < 500.0
    ensures r.colour == Red <==> totalExpenses >= 800.0
  {
    var percentage := totalExpenses / 1000.0 * 100.0;
    MeterReading(percentage, MeterColour(percentage))
  }

  /** The two meters show the same colour against a budget of 1000, and the
      same bar until the spend passes that budget, after which only the
      summary's bar overflows. */
  lemma MetersAgree(spent: real)
    ensures BudgetMeter(spent, 1000.0).Some?
    ensures BudgetMeter(spent, 1000.0).value.colour == SummaryMeter(spent).colour
    ensures spent <= 1000.0 ==> BudgetMeter(spent, 1000.0).value == SummaryMeter(spent)
    ensures spent > 1000.0 ==> SummaryMeter(spent).width > BudgetMeter(spent, 1000.0).value.width
  {
  }
}
