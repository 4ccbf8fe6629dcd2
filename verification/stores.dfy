/** The dashboard's six record stores (script.js): the form handlers that
    validate input and append one record, the `delete…` functions that drop
    the records carrying an id, and the Complete/Reopen button of a task.
    Record ids and dates come from the clock and are parameters here. */
module Stores {
  import opened Seqs
  import opened Text
  import opened Records
  import opened Ledger

  /** The `filter(x => x.id != id)` of every `delete…` function. */
  function WithoutId<T(==,!new)>(s: seq<T>, idOf: T -> int, id: int): (r: seq<T>)
    ensures forall x :: x in r <==> x in s && idOf(x) != id
    ensures |r| <= |s|
  {
    Filter(s, (x: T) => idOf(x) != id)
  }

  /** Deleting keeps the other records in their order, deleting an id no
      record carries changes nothing, and deleting twice is deleting once. */
  lemma DeleteLaws<T(!new)>(s: seq<T>, idOf: T -> int, id: int)
    ensures IsSubsequence(WithoutId(s, idOf, id), s)
    ensures WithoutId(WithoutId(s, idOf, id), idOf, id) == WithoutId(s, idOf, id)
    ensures (forall x :: x in s ==> idOf(x) != id) ==> WithoutId(s, idOf, id) == s
  {
    FilterIsSubsequence(s, (x: T) => idOf(x) != id);
    FilterIdempotent(s, (x: T) => idOf(x) != id);
    if forall x :: x in s ==> idOf(x) != id {
      FilterKeepsAll(s, (x: T) => idOf(x) != id);
    }
  }

  /** The meal-count form's `members.find(m => m.name === memberName)`: the
      id of the first member with that name, or `null` (`None`). */
  function FirstIdByName(members: seq<Member>, name: string): (r: Option<int>)
    ensures r.None? <==> forall i :: 0 <= i < |members| ==> members[i].name != name
    ensures r.Some? ==> exists i :: 0 <= i < |members| && members[i].name == name && members[i].id == r.value
                                    && forall j :: 0 <= j < i ==> members[j].name != name
  {
    match FirstIndex(members, (m: Member) => m.name == name)
    case None => None
    case Some(i) => Some(members[i].id)
  }

  /** The tasks after `toggleTaskStatus(id)`: only the first task carrying
      the id has its status flipped; without such a task nothing changes. */
  function Toggled(tasks: seq<Task>, id: int): (r: seq<Task>)
    ensures |r| == |tasks|
    ensures forall k :: 0 <= k < |tasks| ==> r[k] == tasks[k] || r[k] == tasks[k].(status := ToggledStatus(tasks[k].status))
  {
    if tasks == [] then []
    else if tasks[0].id == id then [tasks[0].(status := ToggledStatus(tasks[0].status))] + tasks[1..]
    else [tasks[0]] + Toggled(tasks[1..], id)
  }

  /** `Toggled` is the source's `findIndex` followed by an update at the
      index found: only the first task with the id changes. */
  lemma {:induction false} ToggledFirstMatch(tasks: seq<Task>, id: int)
    ensures match FirstIndex(tasks, (t: Task) => t.id == id)
            case None => Toggled(tasks, id) == tasks
            case Some(k) => Toggled(tasks, id) == tasks[k := tasks[k].(status := ToggledStatus(tasks[k].status))]
  {
    if tasks != [] && tasks[0].id != id {
      ToggledFirstMatch(tasks[1..], id);
      var rest := FirstIndex(tasks[1..], (t: Task) => t.id == id);
      if rest.Some? {
        var k := rest.value;
        assert tasks[k + 1 := tasks[k + 1].(status := ToggledStatus(tasks[k + 1].status))]
               == [tasks[0]] + tasks[1..][k := tasks[k + 1].(status := ToggledStatus(tasks[k + 1].status))];
      } else {
        assert [tasks[0]] + tasks[1..] == tasks;
      }
    }
  }

  predicate KnownStatuses(tasks: seq<Task>) {
    forall t :: t in tasks ==> t.status == Pending || t.status == Completed
  }

  /** Toggling keeps every status pending or completed. */
  lemma {:induction false} ToggleKeepsKnown(tasks: seq<Task>, id: int)
    requires KnownStatuses(tasks)
    ensures KnownStatuses(Toggled(tasks, id))
  {
    var r := Toggled(tasks, id);
    forall t | t in r
      ensures t.status == Pending || t.status == Completed
    {
      var k :| 0 <= k < |r| && r[k] == t;
      assert tasks[k] in tasks;
    }
  }

  /** Pressing the same task's button twice restores the list. */
  lemma {:induction false} ToggleRestores(tasks: seq<Task>, id: int)
    requires KnownStatuses(tasks)
    ensures Toggled(Toggled(tasks, id), id) == tasks
  {
    if tasks != [] {
      var t, rest := tasks[0], tasks[1..];
      assert t in tasks;
      ToggleTwice(t.status);
      if t.id == id {
        var flipped := t.(status := ToggledStatus(t.status));
        assert Toggled(tasks, id) == [flipped] + rest;
        assert ([flipped] + rest)[1..] == rest;
        assert [t] + rest == tasks;
      } else {
        assert forall u :: u in rest ==> u in tasks;
        ToggleRestores(rest, id);
        assert Toggled(tasks, id) == [t] + Toggled(rest, id);
        assert ([t] + Toggled(rest, id))[1..] == Toggled(rest, id);
        assert [t] + rest == tasks;
      }
    }
  }

  /** The stores as the dashboard keeps them. */
  class MessBook {
    var members: seq<Member>
    var tasks: seq<Task>
    var debts: seq<Debt>
    var notices: seq<Notice>
    var expenses: seq<Expense>
    var mealCounts: seq<MealCount>

    /** What every handler keeps true: a meal count's total is the sum of
        its three meals, and a task is pending or completed. */
    predicate Valid()
      reads this
    {
      && (forall c :: c in mealCounts ==> c.total == c.breakfast + c.lunch + c.dinner)
      && KnownStatuses(tasks)
    }

    /** Every store starts as the empty list. */
    constructor ()
      ensures members == [] && tasks == [] && debts == [] && notices == [] && expenses == [] && mealCounts == []
      ensures Valid()
    {
      members := [];
      tasks := [];
      debts := [];
      notices := [];
      expenses := [];
      mealCounts := [];
    }

    /** The member form: a name and an email are required. */
    method AddMember(id: int, name: string, email: string, phone: string, notes: string, joinDate: string)
      returns (added: bool)
      modifies this`members
      ensures added <==> name != "" && email != ""
      ensures added ==> members == old(members) + [Member(id, name, email, phone, notes, joinDate)]
      ensures !added ==> members == old(members)
      ensures old(Valid()) ==> Valid()
    {
      if name == "" || email == "" {
        return false;
      }
      members := members + [Member(id, name, email, phone, notes, joinDate)];
      return true;
    }

    /** The task form: a name, an assignee and a due date are required, and
        a new task is pending. */
    method AddTask(id: int, name: string, assignedTo: string, dueDate: string, description: string, createdDate: string)
      returns (added: bool)
      modifies this`tasks
      ensures added <==> name != "" && assignedTo != "" && dueDate != ""
      ensures added ==> tasks == old(tasks) + [Task(id, name, assignedTo, dueDate, description, Pending, createdDate)]
      ensures !added ==> tasks == old(tasks)
      ensures old(Valid()) ==> Valid()
    {
      if name == "" || assignedTo == "" || dueDate == "" {
        return false;
      }
      tasks := tasks + [Task(id, name, assignedTo, dueDate, description, Pending, createdDate)];
      return true;
    }

    /** The debt form: name and amount are trimmed and neither may then be
        empty; `amount` is what `parseFloat` made of the trimmed amount. */
    method AddDebt(id: int, nameInput: string, amountInput: string, amount: real, date: string)
      returns (added: bool)
      modifies this`debts
      ensures added <==> Trim(nameInput) != "" && Trim(amountInput) != ""
      ensures added ==> debts == old(debts) + [Debt(id, Trim(nameInput), amount, date)]
      ensures !added ==> debts == old(debts)
      ensures old(Valid()) ==> Valid()
    {
      var name := Trim(nameInput);
      var amountText := Trim(amountInput);
      if name == "" || amountText == "" {
        return false;
      }
      debts := debts + [Debt(id, name, amount, date)];
      return true;
    }

    /** The notice board's Post button: the trimmed text may not be empty. */
    method PostNotice(id: int, textInput: string, date: string, time: string)
      returns (added: bool)
      modifies this`notices
      ensures added <==> Trim(textInput) != ""
      ensures added ==> notices == old(notices) + [Notice(id, Trim(textInput), date, time)]
      ensures !added ==> notices == old(notices)
      ensures old(Valid()) ==> Valid()
    {
      var text := Trim(textInput);
      if text == "" {
        return false;
      }
      notices := notices + [Notice(id, text, date, time)];
      return true;
    }

    /** The expense form: a date, a description and an amount are required;
        `!amount` turns away both an unparsable amount (`None`) and 0. The
        new expense raises the total spend by its amount. */
    method AddExpense(id: int, date: string, amount: Option<real>, description: string, category: string)
      returns (added: bool)
      modifies this`expenses
      ensures added <==> date != "" && amount.Some? && amount.value != 0.0 && description != ""
      ensures added ==> expenses == old(expenses) + [Expense(id, date, amount.value, description, category)]
      ensures added ==> TotalExpenses(expenses) == old(TotalExpenses(expenses)) + amount.value
      ensures !added ==> expenses == old(expenses)
      ensures old(Valid()) ==> Valid()
    {
      if date == "" || amount.None? || amount.value == 0.0 || description == "" {
        return false;
      }
      var expense := Expense(id, date, amount.value, description, category);
      TotalExpensesAppend(expenses, [expense]);
      expenses := expenses + [expense];
      return true;
    }

    /** The meal-count form: a date and a member name are required. The
        record points at the first member with that name, if any, and its
        total is the day's three meals; the total meals grow by it. */
    method AddMealCount(id: int, date: string, memberName: string, breakfast: int, lunch: int, dinner: int)
      returns (added: bool)
      modifies this`mealCounts
      ensures added <==> date != "" && memberName != ""
      ensures added ==> mealCounts == old(mealCounts) + [MealCount(id, date, FirstIdByName(members, memberName), memberName,
                                                                   breakfast, lunch, dinner, breakfast + lunch + dinner)]
      ensures added ==> TotalMeals(mealCounts) == old(TotalMeals(mealCounts)) + breakfast + lunch + dinner
      ensures !added ==> mealCounts == old(mealCounts)
      ensures old(Valid()) ==> Valid()
    {
      if date == "" || memberName == "" {
        return false;
      }
      var count := MealCount(id, date, FirstIdByName(members, memberName), memberName,
                             breakfast, lunch, dinner, breakfast + lunch + dinner);
      TotalMealsAppend(mealCounts, [count]);
      mealCounts := mealCounts + [count];
      return true;
    }

    method DeleteMember(id: int)
      modifies this`members
      ensures members == WithoutId(old(members), (m: Member) => m.id, id)
      ensures old(Valid()) ==> Valid()
    {
      members := WithoutId(members, (m: Member) => m.id, id);
    }

    method DeleteTask(id: int)
      modifies this`tasks
      ensures tasks == WithoutId(old(tasks), (t: Task) => t.id, id)
      ensures old(Valid()) ==> Valid()
    {
      tasks := WithoutId(tasks, (t: Task) => t.id, id);
    }

    method DeleteDebt(id: int)
      modifies this`debts
      ensures debts == WithoutId(old(debts), (d: Debt) => d.id, id)
      ensures old(Valid()) ==> Valid()
    {
      debts := WithoutId(debts, (d: Debt) => d.id, id);
    }

    method DeleteNotice(id: int)
      modifies this`notices
      ensures notices == WithoutId(old(notices), (n: Notice) => n.id, id)
      ensures old(Valid()) ==> Valid()
    {
      notices := WithoutId(notices, (n: Notice) => n.id, id);
    }

    method DeleteExpense(id: int)
      modifies this`expenses
      ensures expenses == WithoutId(old(expenses), (e: Expense) => e.id, id)
      ensures old(Valid()) ==> Valid()
    {
      expenses := WithoutId(expenses, (e: Expense) => e.id, id);
    }

    method DeleteMealCount(id: int)
      modifies this`mealCounts
      ensures mealCounts == WithoutId(old(mealCounts), (c: MealCount) => c.id, id)
      ensures old(Valid()) ==> Valid()
    {
      mealCounts := WithoutId(mealCounts, (c: MealCount) => c.id, id);
    }

    /** The Complete/Reopen button. */
    method ToggleTaskStatus(id: int)
      modifies this`tasks
      ensures tasks == Toggled(old(tasks), id)
      ensures old(Valid()) ==> Valid()
    {
      var found := FirstIndex(tasks, (t: Task) => t.id == id);
      ToggledFirstMatch(tasks, id);
      if old(Valid()) {
        ToggleKeepsKnown(tasks, id);
      }
      if found.Some? {
        var k := found.value;
        tasks := tasks[k := tasks[k].(status := ToggledStatus(tasks[k].status))];
      }
    }
  }
}
