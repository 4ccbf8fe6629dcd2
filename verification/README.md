# mess-mate: the accounting engine and the sign-in flow, in Dafny

mess-mate is a browser dashboard that a shared-kitchen "mess" uses. It
keeps members, chores (tasks), debts, notices, grocery expenses and daily
meal counts in the browser's local storage. From these it computes:

- the meal rate: expenses divided by meals;
- a per-member bill;
- two per-meal budget plans, each with its own tier ladder;
- a budget meter.

A login page (login.js) signs users up and in and lets them create or join
a mess. That file wires up two independent handlers with different storage
schemas. The model keeps them apart.

The model is split into these modules:

| module | file | what it holds |
|---|---|---|
| `Seqs` | seqs.dfy | `Option`, `Outcome`, an order-keeping `Filter` and a first-match search `FirstIndex`, which are the `filter`/`find`/`findIndex` of the source |
| `Text` | text.dfy | JavaScript `trim()` white space, `startsWith`, `split`/`join` on one character, and the string order that `<=` uses on dates |
| `Records` | records.dfy | the six record types of script.js and the task-status flip |
| `Ledger` | ledger.dfy | the totals, the meal rate with its zero-meals guard, the inclusive date window and the per-member summary |
| `Plans` | plans.dfy | the budget calculator, the meal planner, both tier classifiers, the Gregorian month length and both budget meters |
| `Display` | display.dfy | the initials shown for a member, and the in-place newest-first sort of notices (on an `array`) |
| `Stores` | stores.dfy | class `MessBook`, whose six sequence fields are the six stores; each method is one form handler, delete button or toggle button |
| `Session` | session.dfy | the `currentMess` record (mess id and role) shared by both login handlers |
| `AuthByMap` | auth_map.dfy | login.js lines 4-307: class `AuthStore` holds users, a mess map, the signed-in user, the current mess and the `members:<messId>` rosters; class `DeviceStorage` holds raw storage keys for the clear-data link |
| `AuthByArray` | auth_array.dfy | login.js lines 311-483: uid-keyed users, Gmail-only signup, messes kept as an array of records |
| `AuthCompare` | auth_compare.dfy | the relation between the two login handlers |

### Modelling conventions

- **Ids** are `int` in script.js. In login.js they are `string`.
- **Money** is `real`; meal counts are `int`.
- **Dates** are `YYYY-MM-DD` strings compared in the source's string order.
- **A missing date bound** is the empty string.
- **Unparsable numbers**: an input that `parseFloat`/`parseInt` cannot read is `None`. The model treats it the same way as zero: both give the `|| default` fallback.
- **Clock values are parameters.** `Date.now()` (record ids, roster entry ids, `createdAt`) and today's date are passed in.
- **Storage key order is a parameter.** The order in which local storage enumerates its keys is passed as `keys`.
- **Failure leaves state alone.** Every handler that fails leaves the modelled state unchanged and returns the error it shows.
- **Missing session in the second handler.** When nobody is signed in, its create and join handlers throw a `TypeError` before writing anything. The model returns this as the `NoSession` outcome.

## Model

| member | source | states |
|---|---|---|
| Seqs.Filter | script.js:242 | keeps exactly the elements satisfying the predicate, never more than were there |
| Seqs.FirstIndex | script.js:379 | a found index satisfies the predicate and no earlier one does; none is found iff no element satisfies it |
| Seqs.FilterAppend | script.js:852-858 | filtering distributes over concatenation |
| Seqs.FilterIsSubsequence | script.js:852-858 | a filtered list is a subsequence of the original: relative order is kept |
| Seqs.FilterIdempotent | script.js:894-900 | filtering twice with the same predicate is filtering once |
| Seqs.FilterKeepsAll | script.js:242 | when every element passes, the list is unchanged |
| Seqs.FilterKeepsNone | script.js:852-858 | when no element passes, the result is empty |
| Seqs.SubsequenceSkipHead | script.js:852-858 | a subsequence of a tail is a subsequence of the whole list |
| Seqs.SubsequenceDropHead | script.js:852-858 | dropping the head of a subsequence leaves a subsequence |
| Text.LeadingSpace | script.js:413 | counts exactly the run of white space at the start |
| Text.TrailingSpace | script.js:413 | counts exactly the run of white space at the end |
| Text.Trim | script.js:413-414 | `trim()`: the result is empty iff the input is all white space, and otherwise starts and ends with a non-space character |
| Text.TrimIsInfix | script.js:413-414 | the trimmed string is one slice `s[i..j]` of the input with only white space before `i` and after `j` |
| Text.TrimIdempotent | script.js:467 | trimming twice is trimming once |
| Text.Split | login.js:163 | `split(sep)` yields at least one part and no part contains the separator |
| Text.JoinSplit | login.js:163 | joining the parts of a split with the same separator gives back the string |
| Text.SplitFree | script.js:211 | a string without the separator splits into itself alone |
| Text.SplitAround | script.js:211 | splitting `a + sep + b` is splitting `a`, then `b` |
| Text.SplitJoin | login.js:163 | splitting a join of separator-free parts gives back the parts |
| Text.JoinEnds | login.js:28 | a join begins with its first part and ends with its last; `AuthByMap.StorageKeyAsJoin` applies it to `base:messId` |
| Text.JoinHasSeparator | login.js:28 | when no part holds the separator, the join holds it iff there are at least two parts; `AuthByMap.StorageKeyAsJoin` applies it to storage keys |
| Text.LexLeReflexive | script.js:853 | the date order is reflexive |
| Text.LexLeTransitive | script.js:853 | the date order is transitive |
| Text.LexLeAntisymmetric | script.js:853 | the date order is antisymmetric |
| Text.LexLeTotal | script.js:853 | any two dates are comparable |
| Records.ToggledStatus | script.js:382 | `'completed'` becomes `'pending'`, anything else becomes `'completed'` |
| Records.ToggleTwice | script.js:382 | toggling twice restores a pending or completed status; an unknown status ends as pending |
| Ledger.TotalExpensesAppend | script.js:815 | the expense total of a concatenation is the sum of the totals |
| Ledger.TotalMealsAppend | script.js:816 | the meal total of a concatenation is the sum of the totals |
| Ledger.TotalExpensesNonNegative | script.js:815 | the `reduce` over amounts (also at lines 860 and 904) is not negative when no amount is |
| Ledger.TotalMealsOfSelection | script.js:816 | with no negative count, the meal total of any selection of the counts (lines 861, 905, 919) lies between 0 and the total of all |
| Ledger.InRangeOrdered | script.js:853 | a date can lie in the window only when the start is not after the end |
| Ledger.MealRate | script.js:818-821 | with meals, rate × meals = expenses; without meals, the rate is 0 |
| Ledger.Summarize | script.js:815-821 | the totals are the sums over the stores and the rate divides them, or is 0 without meals |
| Ledger.ExpensesIn | script.js:852-854 | keeps exactly the expenses whose date lies in `[start, end]` |
| Ledger.MealCountsIn | script.js:856-858 | keeps exactly the meal counts whose date lies in `[start, end]` |
| Ledger.WindowLaws | script.js:852-858 | both windows keep relative order (subsequence) and are idempotent |
| Ledger.WindowInclusive | script.js:853 | both bounds of a non-empty window are inside it |
| Ledger.ReversedWindowEmpty | script.js:853-857 | a window whose start is after its end selects nothing |
| Ledger.RangeTotals | script.js:860-866 | the windowed totals and the windowed rate, with the zero-meals guard |
| Ledger.SummaryRows | script.js:917-924 | one row per member |
| Ledger.SummaryRowsAt | script.js:917-924 | row i is member i's row, in member order: that member's meals, cost = meals × rate, paid 0, balance = cost |
| Ledger.RowCharge | script.js:918-920 | in the rows at a given rate, member i's row holds that member's meals and cost = meals × rate |
| Ledger.MemberSummary | script.js:893-924 | one row per member, in member order, naming that member, with nothing paid and the balance equal to the cost |
| Ledger.WindowedCharges | script.js:892-920 | with both bounds given, a row's meals are the member's meals among the windowed counts and its cost is those meals × the rate of the windowed totals |
| Ledger.UnwindowedCharges | script.js:889-920 | with a bound missing, a row's meals are the member's meals among all counts and its cost is those meals × the whole-history rate |
| Ledger.MemberSummaryIgnoresOutside | script.js:892-900 | with both bounds given, adding expenses and counts dated outside the window leaves every row unchanged |
| Ledger.MemberSummaryUnwindowed | script.js:892-905 | with either bound missing, the summary is the whole-history summary: the same as with no bounds at all |
| Ledger.MealsOfFiltered | script.js:918-919 | counting one member's meals is filtering the counts naming that member and summing their totals |
| Ledger.MealsOfNobody | script.js:918-919 | a member that no count names ate 0 meals |
| Ledger.MealsOfAtMostTotal | script.js:918-919 | with no negative count, a member's meals lie between 0 and the total of all meals |
| Ledger.MealsOfJoins | script.js:918-919 | one member's meals plus the meals of a disjoint id set are the meals of the union |
| Ledger.RowMealsAreAttributed | script.js:917-924 | with distinct member ids, the rows' meals add up to exactly the meals whose `memberId` is one of the members; a count with a null `memberId` reaches no row |
| Ledger.IdsNotIn | script.js:918 | with distinct ids, the head member's id is not among the rest |
| Ledger.AttributedNone | script.js:918 | no meals are attributed to the empty set of ids |
| Ledger.AttributedAll | script.js:816 | when every count names a listed member, the attributed meals are all the meals |
| Ledger.RowCostsAreRateTimesMeals | script.js:920 | the rows' costs add up to the rows' meals × the rate |
| Ledger.RowMealsCoverAll | script.js:917-919 | with distinct member ids and every count naming a member, the rows' meals add up to all the meals |
| Ledger.AllocatedCosts | script.js:917-924 | when every count names a member, the rows' costs add up to total meals × rate |
| Ledger.CostsCoverSpend | script.js:904-924 | when member ids are distinct and every meal count names a listed member (no null `memberId` from script.js:694), the members' costs at any rate with rate × meals = spend add up to the spend |
| Plans.CalculatorTier | script.js:92-113 | the calculator's tiers, by exact interval: below 41, [41,50], (50,60], …, (80,90], above 90 |
| Plans.PlannerTier | script.js:1097-1184 | the planner's tiers, by exact interval: ≤ 0 exceeded, (0,40] emergency, (40,50], …, above 90 premium |
| Plans.TiersMonotone | script.js:92-113 | a larger per-meal budget never gets a lower tier, under either classifier |
| Plans.TierBoundariesDiffer | script.js:92-95 | the classifiers agree from 41 up, but between 40 and 41 the calculator says "below basic" and the planner says "basic" |
| Plans.RealOr | script.js:39 | `parseFloat(x) \|\| d`: a nonzero reading is kept; zero or unreadable gives the default |
| Plans.IntOr | script.js:40-41 | `parseInt(x) \|\| d`: a nonzero reading is kept; zero or unreadable gives the default |
| Plans.BudgetCalculator | script.js:39-113 | defaults 3000/30/3; spent is the expense total; remaining = max(0, budget − spent); daily × days = remaining; per-meal × meals = daily; tier from the calculator ladder |
| Plans.CalculatorOverspent | script.js:48-52 | once spending reaches the budget, the per-meal budget is 0 and the tier is "below basic" |
| Plans.CalculatorDefaults | script.js:39-52 | with nothing entered and no expenses, per-meal is 3000 / 90, which is "below basic" |
| Plans.DaysInMonth | script.js:1076 | every month has 28 to 31 days, and February has 29 exactly in a leap year |
| Plans.MealPlanner | script.js:1067-1089 | members = count or 1; today + days remaining = last day + 1; meals = days × members × 3; per-meal > 0 iff budget > spent, and then per-meal × meals = budget − spent; "exceeded" iff budget ≤ spent |
| Plans.PlannerExample | script.js:1071-1112 | on 21 April 2025, 2 members and 3000 unspent give 10 days, 50 per meal, "basic" |
| Plans.MeterColour | script.js:1213-1219 | green iff below 50 %, red iff at least 80 % |
| Plans.BudgetMeter | script.js:1194-1220 | no reading unless the budget is positive; the width is the spent share capped at 100 %; green iff spent < budget/2; red iff spent ≥ 4/5 budget |
| Plans.PercentageScale | script.js:1207 | the percentage thresholds are the same as comparisons of spent with budget |
| Plans.ScaleCompare | script.js:1207 | scaling by a positive factor keeps strict order |
| Plans.SummaryMeter | script.js:829-842 | the summary meter against a fixed 1000: width = total/10, not capped; green iff below 500, red iff at least 800 |
| Plans.MetersAgree | script.js:829-842 | against a 1000 budget both meters show the same colour and agree up to 1000; above it only the summary meter overflows |
| Display.FirstLetters | script.js:211 | one letter per non-empty part, in order: the k-th letter is the first character of the k-th non-empty part; an empty part gives none, as `join` writes its `undefined` as nothing |
| Display.FirstLettersOfOne | script.js:211 | a single part gives its first letter, or nothing when it is empty |
| Display.Initials | script.js:211 | the initials never contain a space |
| Display.FirstLettersFrom | script.js:211 | the first letters of space-free parts contain no space |
| Display.InitialsOfWord | script.js:211 | a single word's initial is its first letter |
| Display.InitialsJoin | script.js:211 | the initials of `first + " " + rest` are those of `first` followed by those of `rest` |
| Display.FirstLettersAppend | script.js:211 | the first letters of concatenated part lists concatenate |
| Display.SortNewestFirst | script.js:514 | sorts the notice array in place into non-increasing id order (newest first), as a permutation |
| Display.SinkNewest | script.js:514 | one insertion step: extends the sorted prefix by one and permutes the array |
| Stores.WithoutId | script.js:242 | keeps exactly the records whose id differs from the one deleted |
| Stores.DeleteLaws | script.js:242 | deleting keeps order (subsequence), deleting twice is deleting once, and deleting an absent id changes nothing |
| Stores.FirstIdByName | script.js:689-694 | the id of the first member with the selected name, or none (null) iff no member has it |
| Stores.Toggled | script.js:377-385 | same length; each task is unchanged or has only its status flipped |
| Stores.ToggledFirstMatch | script.js:379-382 | with no task of that id nothing changes; otherwise exactly the first task with that id is flipped |
| Stores.ToggleKeepsKnown | script.js:382 | toggling keeps every status pending or completed |
| Stores.ToggleRestores | script.js:377-385 | toggling the same id twice restores the task list |
| Stores.MessBook.constructor | script.js:143-157 | all six stores start empty |
| Stores.MessBook.AddMember | script.js:166-183 | appends exactly one member iff name and email are given; otherwise nothing changes |
| Stores.MessBook.AddTask | script.js:272-290 | appends one pending task iff name, assignee and due date are given |
| Stores.MessBook.AddDebt | script.js:413-427 | appends one debt with the trimmed name iff the trimmed name and amount text are non-empty |
| Stores.MessBook.PostNotice | script.js:467-484 | appends one notice with the trimmed text iff that text is non-empty |
| Stores.MessBook.AddExpense | script.js:643-659 | appends one expense iff date, a nonzero amount and a description are given; the expense total grows by that amount |
| Stores.MessBook.AddMealCount | script.js:683-705 | appends one count iff date and member are given; `memberId` is the first same-named member's id or null; the meal total grows by breakfast + lunch + dinner |
| Stores.MessBook.DeleteMember | script.js:240-245 | the member store becomes its filter without that id |
| Stores.MessBook.DeleteTask | script.js:389-394 | the task store becomes its filter without that id |
| Stores.MessBook.DeleteDebt | script.js:581-586 | the debt store becomes its filter without that id |
| Stores.MessBook.DeleteNotice | script.js:543-548 | the notice store becomes its filter without that id |
| Stores.MessBook.DeleteExpense | script.js:939-949 | the expense store becomes its filter without that id |
| Stores.MessBook.DeleteMealCount | script.js:951-961 | the meal-count store becomes its filter without that id |
| Stores.MessBook.ToggleTaskStatus | script.js:377-386 | the task store becomes its toggled version and all statuses stay pending or completed |
| AuthByMap.StorageKey | login.js:28 | the bare base without a mess id; otherwise `base:` followed by exactly the mess id |
| AuthByMap.StorageKeyAsJoin | login.js:28 | a storage key is the `:`-join of the base and the mess id, if any: it begins with the base and ends with the id; with a `:`-free base it holds a `:` iff a mess id is given; with a `:`-free id as well it splits back into base and id |
| AuthByMap.MessIdOfKey | login.js:28 | the intended inverse of `storageKey('members', messId)`: everything after the `members:` prefix |
| AuthByMap.MessIdRoundTrip | login.js:28 | a mess's roster key and the id read back from it determine each other |
| AuthByMap.SplitRosterKey | login.js:163 | a roster key splits into "members" followed by the pieces of its mess id |
| AuthByMap.MessIdAsWritten | login.js:163 | `key.split(':')[1]`: the first `:`-free piece after the prefix |
| AuthByMap.MessIdAsWrittenRoundTrip | login.js:163 | the id is read back exactly iff it contains no `:` |
| AuthByMap.MessIdAsWrittenTruncates | login.js:163 | the roster of mess "hall:3" is read back as mess "hall" |
| AuthByMap.Enrolled | login.js:30-41 | afterwards the roster holds the email; if it already did, nothing changes; otherwise exactly one entry is appended |
| AuthByMap.EnrollIdempotent | login.js:36 | enrolling the same user again changes nothing |
| AuthByMap.EnrollKeepsDistinct | login.js:36 | no roster ever lists an email twice |
| AuthByMap.CheckSignup | login.js:106-117 | missing field or short password, then id taken, then email taken, checked in that order; passes iff none applies |
| AuthByMap.LoginUser | login.js:143-148 | only the first user whose id or email is the input is considered, and accepted iff the password matches |
| AuthByMap.DiscoveredMess | login.js:157-170 | as written, with `split(':')[1]`: the id read from the first `members:` key in `keys` whose roster holds the email, and it holds no `:`; none iff no key in `keys` claims the email |
| AuthByMap.IntendedMess | login.js:157-170 | the same search reading the whole suffix: the found key is `members:` followed by the returned id |
| AuthByMap.DiscoveryComplete | login.js:159-165 | when `keys` lists every stored roster, nothing is discovered iff no `members:` roster holds the email |
| AuthByMap.DiscoveryAgreesWithoutColons | login.js:163 | when no roster key's mess id holds a `:`, the as-written and the intended discovery agree |
| AuthByMap.DiscoveryMisreads | login.js:163 | a user enrolled only in mess "hall:3" is discovered in mess "hall", where the intended reading gives "hall:3" |
| AuthByMap.RoleOfCreator | login.js:173 | the role a login gets is manager exactly for the user recorded as the mess's creator; a mess created signed out, or an unknown mess, makes everybody a member |
| AuthByMap.ClearedRosters | login.js:275-297 | every mess roster and the eleven fixed keys are cleared, but the unscoped `members` key is not |
| AuthByMap.JoinKeyIsStorageKey | login.js:250 | the join handler's spelled-out key equals `storageKey('members', messId)` |
| AuthByMap.AuthStore.constructor | login.js:24-26 | empty users, messes and rosters; nobody signed in |
| AuthByMap.AuthStore.Signup | login.js:101-121 | the outcome follows the ordered checks; success appends one user and signs them in without the password; failure changes nothing; ids and emails stay distinct |
| AuthByMap.AuthStore.DiscoverMess | login.js:159-170 | the key loop, over a `keys` that lists every stored roster, returns `DiscoveredMess`: the `split(':')[1]` id of the first claiming key |
| AuthByMap.AuthStore.Login | login.js:140-176 | succeeds iff the lookup does; keeps a selected mess; otherwise a discovered mess whose id reads back non-empty becomes current, as manager exactly for its creator |
| AuthByMap.AuthStore.RestoreMess | login.js:156-176 | a discovered mess whose id reads back non-empty becomes current, as manager exactly for its creator; otherwise the current mess is unchanged |
| AuthByMap.AuthStore.AddSelfToMembers | login.js:30-41 | nothing without a signed-in user; otherwise enrolls them in `members:<messId>` |
| AuthByMap.AuthStore.CreateMess | login.js:209-226 | fails on a missing field, then on an existing id; otherwise stores the mess with its creator, makes the user manager and enrolls them |
| AuthByMap.AuthStore.JoinMess | login.js:235-256 | "not found" iff the id is absent, "incorrect password" iff it differs; otherwise member role and enrollment |
| AuthByMap.DeviceStorage.constructor | login.js:275-297 | storage holds the given keys |
| AuthByMap.DeviceStorage.ClearMessData | login.js:275-297 | exactly the keys the clear link selects are removed; every other key keeps its value |
| AuthByArray.GmailHasOneAt | login.js:357 | an accepted address has exactly one `@`, the one opening `@gmail.com` |
| AuthByArray.GmailExamples | login.js:357 | a plain Gmail address passes; an empty local part, a space or another domain fails |
| AuthByArray.CheckSignup | login.js:353-373 | missing field, then not Gmail, then short password, then uid taken, then email taken, checked in that order |
| AuthByArray.LoginUser | login.js:392 | the first user matching on credential and password together; none iff no user does |
| AuthByArray.LoginUserIsFirstAdmitted | login.js:392 | the first admitted user is the one found |
| AuthByArray.ExistingMess | login.js:402 | the first mess the user manages or is listed in; none iff there is none |
| AuthByArray.WithMember | login.js:469-472 | appends the uid at the end only if absent: the old members keep their places, the uid is present afterwards, at most one entry is added, and repeats stay out |
| AuthByArray.WithMemberIdempotent | login.js:469-472 | adding the same uid twice is adding it once |
| AuthByArray.AuthStore.constructor | login.js:391 | no users, no messes, nobody signed in |
| AuthByArray.AuthStore.Signup | login.js:343-381 | the outcome follows the ordered checks; success appends one user and signs them in; failure changes nothing |
| AuthByArray.AuthStore.Login | login.js:384-412 | succeeds iff the lookup does; an existing mess becomes current, as manager iff the user manages it |
| AuthByArray.AuthStore.CreateMess | login.js:427-451 | missing field, then existing id, then no session; success appends the mess, managed by and listing the user, and makes them manager |
| AuthByArray.AuthStore.JoinMess | login.js:455-476 | fails unless a mess matches on id and password and someone is signed in; success lists the uid once in the first match and sets the member role |
| AuthCompare.AsArrayUsers | login.js:375 | converts each user to the second schema, position by position |
| AuthCompare.FirstLoginImpliesSecond | login.js:143-148 | every sign-in the first handler accepts, the second accepts as the same user |
| AuthCompare.LoginHandlersDiffer | login.js:392-396 | when one user's email is another's id, only the second handler lets the second user in |

## Left out

- **Not modelled:**
  - DOM rendering, `innerHTML` templates, alerts, `confirm`, scrolling and navigation;
  - `highlightRecommendedPlan`, dropdown population and `formatDate`;
  - the `toFixed`/`toLocaleString` display formatting.

  None of these computes state.
- **Local storage and JSON.** Serialisation and parse failures are not modelled. The stores are typed sequences and maps, and a missing or unreadable item is taken to be the empty default.
- **Date.now() and new Date() are parameters.** `CreateMess` in the first handler uses one `now` for both `createdAt` and the roster entry id; the source reads the clock twice.
- **IEEE floating point.** NaN and `parseFloat`'s prefix parsing are not modelled. An unparsable number is `None`. `AddDebt` takes the parsed amount as a parameter, so a debt whose amount text does not parse (NaN in the source) is stored with whatever amount the caller passes. A NaN breakfast/lunch/dinner count is not modelled.
- **JavaScript loose equality.** The `!=` between a string `data-id` and a numeric id is not modelled; ids are `int`.
- **Strings** are sequences of characters. UTF-16 code units, surrogate pairs and their order are not modelled.
- **Storage key order** is the parameter `keys`; the browser's enumeration order is not modelled.
- **Inherited properties.** A mess id that names an inherited property of a JavaScript object (such as `constructor`) is not modelled; the mess map holds only the messes stored.
- **The runtime clash** between the two login.js handlers, which both bind the same forms with incompatible schemas, is not modelled. Each handler is modelled on its own.
- **The planner's inputs.** The planner reads `budget` and `spent` back from the page after `toFixed(2)` rounding (script.js:1037-1050). The model takes them as exact reals, and today's date and the member count as parameters.
- **Storage schema of the second handler.** Its `messes` item must already be an array, and its messes' `members` fields are assumed to be arrays.
- **index.js and meals.js** are not part of this model; they only call the init functions.
- Display.SortNewestFirst: proves sorted order and permutation but not stability. The engine's `sort` is stable; ties between equal ids keep their order in the source only.
- Ledger.CostsCoverSpend: states the exact split for any rate with rate × meals = spend, rather than for `MealRate` itself. `Ledger.MealRate` establishes that equation whenever there are meals.

## Findings

| source | as written | input that shows it | evidently intended | confidence | as-written member | corrected member |
|---|---|---|---|---|---|---|
| login.js:163 | mess discovery reads the mess id of a roster key as `key.split(':')[1]` | a user enrolled in mess "hall:3" (roster key `members:hall:3`) is sent to mess "hall" at the next login | the mess id is the whole suffix after `members:`, so that it inverts `storageKey('members', messId)` (login.js:28) | medium, not executed | AuthByMap.DiscoveryMisreads | AuthByMap.IntendedMess |

The model's login (`AuthByMap.AuthStore.Login`, via `AuthByMap.DiscoveredMess`) follows the source as written and reads the id with `AuthByMap.MessIdAsWritten`. The intended discovery, `AuthByMap.IntendedMess`, reads the whole suffix with `AuthByMap.MessIdOfKey`, which inverts `AuthByMap.StorageKey` (`AuthByMap.MessIdRoundTrip`). The two discoveries agree whenever no mess id holds a `:` (`AuthByMap.DiscoveryAgreesWithoutColons`, built on `AuthByMap.MessIdAsWrittenRoundTrip`).
