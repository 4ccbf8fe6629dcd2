/** The dashboard's accounting: total spend and total meals, the meal rate,
    the inclusive date window used by the "Calculate" button, and the
    per-member meal/cost summary (script.js, `updateExpenseSummary`,
    `calculateMealRate`, `updateMemberSummary`). Amounts are exact reals. */
module Ledger {
  import opened Seqs
  import opened Text
  import opened Records

  /** The `reduce` over `amount`: 0 for no expenses. */
  function TotalExpenses(expenses: seq<Expense>): real
  {
    if expenses == [] then 0.0 else expenses[0].amount + TotalExpenses(expenses[1..])
  }

  /** The `reduce` over each meal count's stored `total`: 0 for no counts. */
  function TotalMeals(counts: seq<MealCount>): int
  {
    if counts == [] then 0 else counts[0].total + TotalMeals(counts[1..])
  }

  /** Appending expenses adds their total to the running total; in
      particular recording one expense raises the total by its amount. */
  lemma {:induction false} TotalExpensesAppend(a: seq<Expense>, b: seq<Expense>)
    ensures TotalExpenses(a + b) == TotalExpenses(a) + TotalExpenses(b)
  {
    if a != [] {
      assert (a + b)[1..] == a[1..] + b;
      TotalExpensesAppend(a[1..], b);
    } else {
      assert a + b == b;
    }
  }

  lemma {:induction false} TotalMealsAppend(a: seq<MealCount>, b: seq<MealCount>)
    ensures TotalMeals(a + b) == TotalMeals(a) + TotalMeals(b)
  {
    if a != [] {
      assert (a + b)[1..] == a[1..] + b;
      TotalMealsAppend(a[1..], b);
    } else {
      assert a + b == b;
    }
  }

  /** With no negative amount recorded, the expense total is not negative. */
  lemma {:induction false} TotalExpensesNonNegative(expenses: seq<Expense>)
    requires forall e :: e in expenses ==> e.amount >= 0.0
    ensures TotalExpenses(expenses) >= 0.0
  {
    if expenses != [] {
      assert expenses[0] in expenses;
      TotalExpensesNonNegative(expenses[1..]);
    }
  }

  /** With no negative count recorded, any selection of the counts totals
      no less than zero and no more than all of them. */
  lemma {:induction false} TotalMealsOfSelection(counts: seq<MealCount>, p: MealCount -> bool)
    requires forall c :: c in counts ==> c.total >= 0
    ensures 0 <= TotalMeals(Filter(counts, p)) <= TotalMeals(counts)
  {
    if counts != [] {
      assert counts[0] in counts;
      TotalMealsOfSelection(counts[1..], p);
      if p(counts[0]) {
        var rest := Filter(counts[1..], p);
        assert ([counts[0]] + rest)[1..] == rest;
      }
    }
  }

  /** The meal rate, with the zero-denominator guard: when there are meals
      the rate times the meals gives back the spend, otherwise it is 0. */
  function MealRate(totalExpenses: real, totalMeals: int): (rate: real)
    ensures totalMeals > 0 ==> rate * totalMeals as real == totalExpenses
    ensures totalMeals <= 0 ==> rate == 0.0
  {
    if totalMeals > 0 then totalExpenses / totalMeals as real else 0.0
  }

  datatype Totals = Totals(expenses: real, meals: int, rate: real)

  /** The three figures of the summary panel, over whatever records it is
      given. */
  function Summarize(expenses: seq<Expense>, counts: seq<MealCount>): (t: Totals)
    ensures t.expenses == TotalExpenses(expenses) && t.meals == TotalMeals(counts)
    ensures t.meals > 0 ==> t.rate * t.meals as real == t.expenses
    ensures t.meals <= 0 ==> t.rate == 0.0
  {
    var spent := TotalExpenses(expenses);
    var meals := TotalMeals(counts);
    Totals(spent, meals, MealRate(spent, meals))
  }

  /** A `YYYY-MM-DD` date lies in the window when it is, as a string, no
      smaller than `start` and no larger than `end`: both ends included. */
  predicate InRange(date: string, start: string, end: string) {
    LexLe(start, date) && LexLe(date, end)
  }

  /** A date can lie in the window only when the start is not after the end. */
  lemma InRangeOrdered(date: string, start: string, end: string)
    requires InRange(date, start, end)
    ensures LexLe(start, end)
  {
    LexLeTransitive(start, date, end);
  }

  /** The expenses whose date lies in the window, in stored order. */
  function ExpensesIn(expenses: seq<Expense>, start: string, end: string): (r: seq<Expense>)
    ensures forall e :: e in r <==> e in expenses && InRange(e.date, start, end)
  {
    Filter(expenses, (e: Expense) => InRange(e.date, start, end))
  }

  /** The meal counts whose date lies in the window, in stored order. */
  function MealCountsIn(counts: seq<MealCount>, start: string, end: string): (r: seq<MealCount>)
    ensures forall c :: c in r <==> c in counts && InRange(c.date, start, end)
  {
    Filter(counts, (c: MealCount) => InRange(c.date, start, end))
  }

  /** The window keeps the records it keeps in their stored order, and
      applying it a second time changes nothing. */
  lemma WindowLaws(expenses: seq<Expense>, counts: seq<MealCount>, start: string, end: string)
    ensures IsSubsequence(ExpensesIn(expenses, start, end), expenses)
    ensures IsSubsequence(MealCountsIn(counts, start, end), counts)
    ensures ExpensesIn(ExpensesIn(expenses, start, end), start, end) == ExpensesIn(expenses, start, end)
    ensures MealCountsIn(MealCountsIn(counts, start, end), start, end) == MealCountsIn(counts, start, end)
  {
    var pe := (e: Expense) => InRange(e.date, start, end);
    var pc := (c: MealCount) => InRange(c.date, start, end);
    FilterIsSubsequence(expenses, pe);
    FilterIsSubsequence(counts, pc);
    FilterIdempotent(expenses, pe);
    FilterIdempotent(counts, pc);
  }

  /** Both bounds belong to a well-ordered window. */
  lemma {:induction false} WindowInclusive(start: string, end: string)
    requires LexLe(start, end)
    ensures InRange(start, start, end) && InRange(end, start, end)
  {
    LexLeReflexive(start);
    LexLeReflexive(end);
  }

  /** A window whose start lies after its end keeps nothing. */
  lemma {:induction false} ReversedWindowEmpty(expenses: seq<Expense>, counts: seq<MealCount>, start: string, end: string)
    requires !LexLe(start, end)
    ensures ExpensesIn(expenses, start, end) == []
    ensures MealCountsIn(counts, start, end) == []
  {
    forall d: string | LexLe(start, d) && LexLe(d, end)
      ensures false
    {
      LexLeTransitive(start, d, end);
    }
    FilterKeepsNone(expenses, (e: Expense) => InRange(e.date, start, end));
    FilterKeepsNone(counts, (c: MealCount) => InRange(c.date, start, end));
  }

  /** The totals of the "Calculate" button (`calculateMealRate`): the
      window is applied to both collections before summing. */
  function RangeTotals(expenses: seq<Expense>, counts: seq<MealCount>, start: string, end: string): (t: Totals)
    ensures t.expenses == TotalExpenses(ExpensesIn(expenses, start, end))
    ensures t.meals == TotalMeals(MealCountsIn(counts, start, end))
    ensures t.meals > 0 ==> t.rate * t.meals as real == t.expenses
    ensures t.meals <= 0 ==> t.rate == 0.0
  {
    Summarize(ExpensesIn(expenses, start, end), MealCountsIn(counts, start, end))
  }

  /** The meals one member ate: the totals of the counts whose `memberId`
      is that member's id. */
  function MealsOf(counts: seq<MealCount>, memberId: int): int
  {
    if counts == [] then 0
    else (if counts[0].memberId == Some(memberId) then counts[0].total else 0) + MealsOf(counts[1..], memberId)
  }

  /** Counting one member's meals as it goes is filtering that member's
      counts and then summing them. */
  lemma {:induction false} MealsOfFiltered(counts: seq<MealCount>, memberId: int)
    ensures MealsOf(counts, memberId) == TotalMeals(Filter(counts, (c: MealCount) => c.memberId == Some(memberId)))
  {
    if counts != [] {
      MealsOfFiltered(counts[1..], memberId);
      var p := (c: MealCount) => c.memberId == Some(memberId);
      if p(counts[0]) {
        assert ([counts[0]] + Filter(counts[1..], p))[1..] == Filter(counts[1..], p);
      }
    }
  }

  /** A member that no count names ate nothing. */
  lemma MealsOfNobody(counts: seq<MealCount>, memberId: int)
    requires forall c :: c in counts ==> c.memberId != Some(memberId)
    ensures MealsOf(counts, memberId) == 0
  {
    MealsOfFiltered(counts, memberId);
    FilterKeepsNone(counts, (c: MealCount) => c.memberId == Some(memberId));
  }

  /** With no negative count recorded, a member's meals lie between zero
      and the total of all meals. */
  lemma MealsOfAtMostTotal(counts: seq<MealCount>, memberId: int)
    requires forall c :: c in counts ==> c.total >= 0
    ensures 0 <= MealsOf(counts, memberId) <= TotalMeals(counts)
  {
    MealsOfFiltered(counts, memberId);
    TotalMealsOfSelection(counts, (c: MealCount) => c.memberId == Some(memberId));
  }

  /** A row of the member summary. No payments are recorded anywhere, so
      `paid` is always 0 and the balance is the cost. */
  datatype SummaryRow = SummaryRow(member: Member, meals: int, cost: real, paid: real, balance: real)

  /** One member's row: the meals of the counts naming that member, charged
      at the rate, with nothing paid so that the balance is the cost. */
  function RowOf(member: Member, counts: seq<MealCount>, rate: real): SummaryRow {
    var meals := MealsOf(counts, member.id);
    var cost := meals as real * rate;
    SummaryRow(member, meals, cost, 0.0, cost - 0.0)
  }

  /** One row per member, in member order. */
  function SummaryRows(members: seq<Member>, counts: seq<MealCount>, rate: real): (rows: seq<SummaryRow>)
    ensures |rows| == |members|
  {
    if members == [] then []
    else [RowOf(members[0], counts, rate)] + SummaryRows(members[1..], counts, rate)
  }

  /** Row `i` of the summary is the row of member `i`. */
  lemma {:induction false} SummaryRowsAt(members: seq<Member>, counts: seq<MealCount>, rate: real)
    ensures forall i :: 0 <= i < |members| ==> SummaryRows(members, counts, rate)[i] == RowOf(members[i], counts, rate)
  {
    if members != [] {
      SummaryRowsAt(members[1..], counts, rate);
      var rows := SummaryRows(members, counts, rate);
      assert forall i :: 1 <= i < |members| ==> rows[i] == SummaryRows(members[1..], counts, rate)[i - 1];
    }
  }


  /** `updateMemberSummary(start, end)`: the window applies only when both
      bounds are given (a missing bound is the empty string). Each row
      charges the member's meals at the rate the panel shows for the same
      records: the "Calculate" figures of the window, or the whole-history
      summary. */
  function MemberSummary(members: seq<Member>, counts: seq<MealCount>, expenses: seq<Expense>,
                         start: string, end: string): (rows: seq<SummaryRow>)
    ensures |rows| == |members|
    ensures forall i :: 0 <= i < |rows| ==>
              rows[i].member == members[i] && rows[i].paid == 0.0 && rows[i].balance == rows[i].cost
  {
    if start != "" && end != "" then
      var window, rate := MealCountsIn(counts, start, end), RangeTotals(expenses, counts, start, end).rate;
      SummaryRowsAt(members, window, rate);
      SummaryRows(members, window, rate)
    else
      var rate := Summarize(expenses, counts).rate;
      SummaryRowsAt(members, counts, rate);
      SummaryRows(members, counts, rate)
  }

  /** With both bounds given, each member is charged for the meals in the
      window at the rate the "Calculate" panel shows for that window. */
  lemma WindowedCharges(members: seq<Member>, counts: seq<MealCount>, expenses: seq<Expense>,
                        start: string, end: string, i: int)
    requires start != "" && end != "" && 0 <= i < |members|
    ensures var row := MemberSummary(members, counts, expenses, start, end)[i];
            && row.meals == MealsOf(MealCountsIn(counts, start, end), members[i].id)
            && row.cost == row.meals as real * RangeTotals(expenses, counts, start, end).rate
  {
    RowCharge(members, MealCountsIn(counts, start, end), RangeTotals(expenses, counts, start, end).rate,
              MemberSummary(members, counts, expenses, start, end), i);
  }

  /** Without both bounds, each member is charged for all their meals at the
      rate of the whole-history summary panel. */
  lemma UnwindowedCharges(members: seq<Member>, counts: seq<MealCount>, expenses: seq<Expense>,
                          start: string, end: string, i: int)
    requires (start == "" || end == "") && 0 <= i < |members|
    ensures var row := MemberSummary(members, counts, expenses, start, end)[i];
            && row.meals == MealsOf(counts, members[i].id)
            && row.cost == row.meals as real * Summarize(expenses, counts).rate
  {
    RowCharge(members, counts, Summarize(expenses, counts).rate, MemberSummary(members, counts, expenses, start, end), i);
  }

  /** Helper: what the row of member `i` charges. */
  lemma RowCharge(members: seq<Member>, counts: seq<MealCount>, rate: real, rows: seq<SummaryRow>, i: int)
    requires rows == SummaryRows(members, counts, rate) && 0 <= i < |members|
    ensures rows[i].meals == MealsOf(counts, members[i].id) && rows[i].cost == rows[i].meals as real * rate
  {
    SummaryRowsAt(members, counts, rate);
  }

  /** With both bounds given, records dated outside the window change no
      row of the summary, however many are added. */
  lemma MemberSummaryIgnoresOutside(members: seq<Member>, counts: seq<MealCount>, expenses: seq<Expense>,
                                    moreCounts: seq<MealCount>, moreExpenses: seq<Expense>, start: string, end: string)
    requires start != "" && end != ""
    requires forall c :: c in moreCounts ==> !InRange(c.date, start, end)
    requires forall e :: e in moreExpenses ==> !InRange(e.date, start, end)
    ensures MemberSummary(members, counts + moreCounts, expenses + moreExpenses, start, end)
            == MemberSummary(members, counts, expenses, start, end)
  {
    var pc := (c: MealCount) => InRange(c.date, start, end);
    var pe := (e: Expense) => InRange(e.date, start, end);
    FilterAppend(counts, moreCounts, pc);
    FilterKeepsNone(moreCounts, pc);
    FilterAppend(expenses, moreExpenses, pe);
    FilterKeepsNone(moreExpenses, pe);
    assert MealCountsIn(counts + moreCounts, start, end) == MealCountsIn(counts, start, end);
    assert ExpensesIn(expenses + moreExpenses, start, end) == ExpensesIn(expenses, start, end);
  }

  /** Without both bounds the summary covers the whole history, whatever
      the one given bound is. */
  lemma MemberSummaryUnwindowed(members: seq<Member>, counts: seq<MealCount>, expenses: seq<Expense>,
                                start: string, end: string)
    requires start == "" || end == ""
    ensures MemberSummary(members, counts, expenses, start, end) == MemberSummary(members, counts, expenses, "", "")
    ensures MemberSummary(members, counts, expenses, start, end) == SummaryRows(members, counts, Summarize(expenses, counts).rate)
  {
  }

  function SumRowMeals(rows: seq<SummaryRow>): int {
    if rows == [] then 0 else rows[0].meals + SumRowMeals(rows[1..])
  }

  function SumRowCosts(rows: seq<SummaryRow>): real {
    if rows == [] then 0.0 else rows[0].cost + SumRowCosts(rows[1..])
  }

  function MemberIds(members: seq<Member>): set<int> {
    if members == [] then {} else {members[0].id} + MemberIds(members[1..])
  }

  predicate DistinctIds(members: seq<Member>) {
    forall i, j :: 0 <= i < j < |members| ==> members[i].id != members[j].id
  }

  /** The meals of the counts attributed to one of `ids`. */
  function AttributedMeals(counts: seq<MealCount>, ids: set<int>): int {
    TotalMeals(Filter(counts, (c: MealCount) => c.memberId.Some? && c.memberId.value in ids))
  }

  /** Helper: one member's meals join the meals attributed to the others. */
  lemma {:induction false} MealsOfJoins(counts: seq<MealCount>, id: int, ids: set<int>)
    requires id !in ids
    ensures MealsOf(counts, id) + AttributedMeals(counts, ids) == AttributedMeals(counts, ids + {id})
  {
    if counts != [] {
      MealsOfJoins(counts[1..], id, ids);
    }
  }

  /** The rows' meals add up to the meals attributed to some member: a
      count whose `memberId` is null, or names no member, is in no row,
      and no count is in two rows when member ids are distinct. */
  lemma {:induction false} RowMealsAreAttributed(members: seq<Member>, counts: seq<MealCount>, rate: real)
    requires DistinctIds(members)
    ensures SumRowMeals(SummaryRows(members, counts, rate)) == AttributedMeals(counts, MemberIds(members))
  {
    if members == [] {
      assert MemberIds(members) == {};
      AttributedNone(counts);
    } else {
      var rest := members[1..];
      assert DistinctIds(rest);
      RowMealsAreAttributed(rest, counts, rate);
      assert members[0].id !in MemberIds(rest) by {
        IdsNotIn(rest, members[0].id, members);
      }
      MealsOfJoins(counts, members[0].id, MemberIds(rest));
      var rows := SummaryRows(members, counts, rate);
      assert rows[1..] == SummaryRows(rest, counts, rate);
      assert SumRowMeals(rows) == MealsOf(counts, members[0].id) + SumRowMeals(rows[1..]);
      assert MemberIds(members) == MemberIds(rest) + {members[0].id};
    }
  }

  /** Helper: an id that differs from every id in `rest` is not among them. */
  lemma {:induction false} IdsNotIn(rest: seq<Member>, id: int, members: seq<Member>)
    requires |members| == |rest| + 1 && members[1..] == rest && members[0].id == id
    requires DistinctIds(members)
    ensures id !in MemberIds(rest)
  {
    if rest != [] {
      assert members[1].id != id;
      var shorter := [members[0]] + rest[1..];
      assert DistinctIds(shorter) by {
        forall i, j | 0 <= i < j < |shorter| ensures shorter[i].id != shorter[j].id {
          assert shorter[i] == members[if i == 0 then 0 else i + 1];
          assert shorter[j] == members[j + 1];
        }
      }
      IdsNotIn(rest[1..], id, shorter);
    }
  }

  /** Helper: nothing is attributed to an empty set of members. */
  lemma {:induction false} AttributedNone(counts: seq<MealCount>)
    ensures AttributedMeals(counts, {}) == 0
  {
    if counts != [] {
      AttributedNone(counts[1..]);
    }
  }

  /** Helper: when every count belongs to a member, all meals are
      attributed. */
  lemma {:induction false} AttributedAll(counts: seq<MealCount>, ids: set<int>)
    requires forall c :: c in counts ==> c.memberId.Some? && c.memberId.value in ids
    ensures AttributedMeals(counts, ids) == TotalMeals(counts)
  {
    FilterKeepsAll(counts, (c: MealCount) => c.memberId.Some? && c.memberId.value in ids);
  }

  /** Summing the rows' costs is applying the rate to their meals. */
  lemma {:induction false} RowCostsAreRateTimesMeals(members: seq<Member>, counts: seq<MealCount>, rate: real)
    ensures SumRowCosts(SummaryRows(members, counts, rate)) == SumRowMeals(SummaryRows(members, counts, rate)) as real * rate
  {
    if members != [] {
      RowCostsAreRateTimesMeals(members[1..], counts, rate);
      var rows := SummaryRows(members, counts, rate);
      assert rows[1..] == SummaryRows(members[1..], counts, rate);
    }
  }

  /** With distinct member ids and every meal count belonging to a member,
      the members' costs add up to the rate applied to all meals. */
  lemma AllocatedCosts(members: seq<Member>, counts: seq<MealCount>, rate: real)
    requires DistinctIds(members)
    requires forall c :: c in counts ==> c.memberId.Some? && c.memberId.value in MemberIds(members)
    ensures SumRowCosts(SummaryRows(members, counts, rate)) == TotalMeals(counts) as real * rate
  {
    RowMealsCoverAll(members, counts, rate);
    RowCostsAreRateTimesMeals(members, counts, rate);
    ScaleEqual(SumRowCosts(SummaryRows(members, counts, rate)), SumRowMeals(SummaryRows(members, counts, rate)),
               TotalMeals(counts), rate);
  }

  /** Helper: equal meal counts cost the same at one rate. */
  lemma ScaleEqual(costs: real, meals: int, total: int, rate: real)
    requires costs == meals as real * rate && meals == total
    ensures costs == total as real * rate
  {
  }

  /** Helper: when every count belongs to a member, the rows' meals are all
      the meals. */
  lemma RowMealsCoverAll(members: seq<Member>, counts: seq<MealCount>, rate: real)
    requires DistinctIds(members)
    requires forall c :: c in counts ==> c.memberId.Some? && c.memberId.value in MemberIds(members)
    ensures SumRowMeals(SummaryRows(members, counts, rate)) == TotalMeals(counts)
  {
    RowMealsAreAttributed(members, counts, rate);
    AttributedAll(counts, MemberIds(members));
  }

  /** The summary allocates the whole spend: when member ids are distinct
      and every meal count belongs to a member, then at any rate that
      charges all meals exactly the spend (which is what `MealRate`
      guarantees whenever some meals were eaten) the members' costs, and
      so their balances, add up to the spend. */
  lemma CostsCoverSpend(members: seq<Member>, counts: seq<MealCount>, spent: real, rate: real)
    requires DistinctIds(members)
    requires forall c :: c in counts ==> c.memberId.Some? && c.memberId.value in MemberIds(members)
    requires rate * TotalMeals(counts) as real == spent
    ensures SumRowCosts(SummaryRows(members, counts, rate)) == spent
  {
    AllocatedCosts(members, counts, rate);
  }
}
