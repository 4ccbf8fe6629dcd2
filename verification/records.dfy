/** The records the dashboard keeps in its six local-storage collections
    (`members`, `tasks`, `debts`, `notices`, `expenses`, `mealCounts`).
    Every record carries the integer id its form handler took from the
    clock when it was created. */
module Records {
  import opened Seqs

  datatype Member = Member(id: int, name: string, email: string, phone: string, notes: string, joinDate: string)

  datatype Task = Task(id: int, name: string, assignedTo: string, dueDate: string,
                       description: string, status: string, createdDate: string)

  datatype Debt = Debt(id: int, name: string, amount: real, date: string)

  datatype Notice = Notice(id: int, text: string, date: string, time: string)

  datatype Expense = Expense(id: int, date: string, amount: real, description: string, category: string)

  /** One day's meals for one member. `memberId` is JavaScript's `null`
      (here `None`) when no member had the selected name; `total` is the
      sum of the three counts, fixed when the record is written. */
  datatype MealCount = MealCount(id: int, date: string, memberId: Option<int>, memberName: string,
                                 breakfast: int, lunch: int, dinner: int, total: int)

  const Pending: string := "pending"
  const Completed: string := "completed"

  /** The status a task gets from its Complete/Reopen button: a completed
      task is reopened as pending, any other status becomes completed. */
  function ToggledStatus(status: string): (r: string)
    ensures r == Pending || r == Completed
    ensures r == Pending <==> status == Completed
  {
    if status == Completed then Pending else Completed
  }

  /** Pressing the button twice restores a task that was pending or
      completed; a task with any other status ends up pending instead. */
  lemma ToggleTwice(status: string)
    ensures status == Pending || status == Completed ==> ToggledStatus(ToggledStatus(status)) == status
    ensures status != Pending && status != Completed ==> ToggledStatus(ToggledStatus(status)) == Pending
  {
  }
}
