# mealtrack core, modelled in Dafny

This project models the logic at the core of mealtrack. mealtrack is a
food-service dashboard for a care facility: it tracks patients with dietary
restrictions, the meals planned for them day by day, and the kitchen
inventory. The model covers:

- **Store** (`store.dfy`): the in-memory application state. Each of the three
  collections (patients, meal plans, inventory items) has add, update-by-id
  and delete-by-id. The selected patient starts unset. The three operations
  are written once, generic over a key function, and then instantiated three
  times.
- **Meal-plan aggregator** (`meal_planning.dfy`): the save handler of the
  planning page. It fills a slot of the selected patient's plan for a date,
  or creates that plan. It then recomputes the cached nutrition totals. The
  file also holds the per-patient plan filter and the default patient
  selection.
- **Planning page** (`planning_page.dfy`) and **calendar** (`calendar.dfy`):
  - the add, edit, cancel and save handlers
  - which plan a calendar cell shows
  - whether clicking a cell adds a meal or edits one
- **Inventory table**:
  - `inventory_status.dfy`: low stock, expiring soon, expired, the row
    highlight and the three counters
  - `inventory_view.dfy`: the category list, the search and category
    filter, the sort comparator and its stable sort, and the sort-header
    toggle
- **Inventory page** (`inventory_page.dfy`): the add, edit, delete, save,
  order, place-order and cancel handlers.
- **Dashboard** (`dashboard.dfy`): the inventory-alert count and the
  statistics it overrides.
- **Reports** (`reports.dfy`, `rounding.dfy`): inventory value, meals
  served, and each dietary restriction's patient count and rounded
  percentage.
- **Nutrition compliance** (`compliance.dfy`): calorie and protein
  compliance, as the rounded percentage of summed actual over summed target.
- **Forms** (`forms.dfy`): list editing and defaults of the patient form and
  the meal form. A trimmed, non-blank input is appended to a list, and
  entries are removed by position.
- **Seed data** (`mock_data.dfy`, `seed_facts.dfy`): the mock patients,
  meals, plans, inventory, nutrition series and statistics, with lemmas
  stating what the screens compute from them.

`seqs.dfy` holds the array operations the source relies on: `filter`, `find`,
`filter(...).length`, the insertion order of a `Set`, and removal by index.
`wrappers.dfy` holds `Option`.

Representation choices:

- Timestamps are integers in milliseconds. The current time is a parameter
  named `now`.
- An inventory item's `expirationDate` is held as the UTC-midnight timestamp
  that `new Date("YYYY-MM-DD")` yields. For four-digit years, ordering those
  strings equals ordering the timestamps.
- `Math.ceil(diff / 86400000)` is written out for negative differences too
  (`InventoryStatus.CeilDays`).
- Costs are integers in cents.
- `Math.round(p / q * 100)` is round-half-up of the exact rational
  (`Rounding.RoundPercent`).

Behaviours of the code that a reader might not expect:

- Updating or deleting an unknown id silently changes nothing
  (`Store.UpdateAbsentIsNoOp`, `Store.DeleteAbsentIsNoOp`). No error is
  raised.
- Saving a snack replaces the whole snack list with that one meal
  (`MealPlanning.SnackReplacesList`).
- The seed dashboard statistic `inventoryAlerts` is 3. The dashboard
  overrides it with the computed count. On the seed inventory that count
  is 6 from the UTC day before the seed was built until 53 days after it
  (`SeedFacts.SeedDashboard`).
- The seed is built once, at the clock reading when `mockData.ts` loads
  (`loaded`). The pages classify it at their own reading (`now`). The
  per-day seed counts hold on the UTC day the seed was built, and change
  across the next midnight (`SeedFacts.SeedCountsAcrossMidnight`).

## Model

| member | source | states |
|---|---|---|
| Seqs.Count | src/components/inventory/InventoryTable.tsx:255-270 | the number of elements satisfying a predicate, as `filter(p).length` yields, and at most the length |
| Seqs.Filter | src/context/AppContext.tsx:60-62 | `filter` keeps exactly the elements satisfying the predicate, in their order, as many as satisfy it |
| Seqs.FindIndex | src/pages/MealPlanning.tsx:55-57 | the position of the first element satisfying the predicate, or nothing exactly when none does |
| Seqs.Find | src/pages/Inventory.tsx:31 | `find` returns an element satisfying the predicate that no earlier element satisfies, and returns nothing exactly when no element satisfies it |
| Seqs.Distinct | src/components/inventory/InventoryTable.tsx:27 | `Array.from(new Set(xs))` has no duplicates, loses no element, adds none, and keeps the order of first occurrence |
| Seqs.RemoveAt | src/components/patients/PatientForm.tsx:89-91 | `filter((_, i) => i !== index)` drops exactly position `index`; an index out of range changes nothing |
| Store.Add | src/context/AppContext.tsx:52-54 | the element is appended after all existing elements, which are unchanged |
| Store.Update | src/context/AppContext.tsx:56-58 | every element with the new element's id is replaced by it; every other element is unchanged; the length is kept |
| Store.Delete | src/context/AppContext.tsx:60-62 | no element with the id remains; every other element remains, in order; the length drops by the number of matches |
| Store.UpdateKeepsIds | src/context/AppContext.tsx:56-58 | an update never changes the id at any position |
| Store.UpdateAbsentIsNoOp | src/context/AppContext.tsx:56-58 | updating with an id no element carries leaves the collection as it was |
| Store.UpdateIdempotent | src/context/AppContext.tsx:56-58 | updating twice with the same element equals updating once |
| Store.UpdateUniqueIsWrite | src/context/AppContext.tsx:56-58 | with unique ids, an update is a write at the one position holding the id |
| Store.UpdateKeepsUnique | src/context/AppContext.tsx:56-58 | an update keeps ids unique |
| Store.DeleteAbsentIsNoOp | src/context/AppContext.tsx:60-62 | deleting an id no element carries leaves the collection as it was |
| Store.DeleteKeepsUnique | src/context/AppContext.tsx:60-62 | a delete keeps ids unique |
| Store.AddFreshKeepsUnique | src/context/AppContext.tsx:52-54 | adding an element whose id is new keeps ids unique |
| Store.InitialState | src/context/AppContext.tsx:43-98 | the state starts from the seed collections, the seed nutrition series and the seed statistics, with no patient selected |
| Store.AddPatient | src/context/AppContext.tsx:52-54 | appends the patient and changes no other part of the state |
| Store.UpdatePatient | src/context/AppContext.tsx:56-58 | replaces the patient by id, keeps the count, and changes no other part of the state |
| Store.DeletePatient | src/context/AppContext.tsx:60-62 | removes every patient with the id and changes no other part of the state |
| Store.AddMealPlan | src/context/AppContext.tsx:64-66 | appends the plan and changes no other part of the state |
| Store.UpdateMealPlan | src/context/AppContext.tsx:68-72 | replaces the plan by id, keeps the count, and changes no other part of the state |
| Store.DeleteMealPlan | src/context/AppContext.tsx:74-76 | removes every plan with the id and changes no other part of the state |
| Store.AddInventoryItem | src/context/AppContext.tsx:78-80 | appends the item and changes no other part of the state |
| Store.UpdateInventoryItem | src/context/AppContext.tsx:82-84 | replaces the item by id, keeps the count, and changes no other part of the state |
| Store.DeleteInventoryItem | src/context/AppContext.tsx:86-88 | removes every item with the id and changes no other part of the state |
| MealPlanning.SumMacrosAppend | src/pages/MealPlanning.tsx:69-102 | the macro sum of two meal lists joined is the sum of their sums, so the order of summation does not matter |
| MealPlanning.AddSnacks | src/pages/MealPlanning.tsx:97-102 | the `forEach` over the snacks adds the snacks' macro sum to the running totals |
| MealPlanning.RecomputeTotals | src/pages/MealPlanning.tsx:69-102 | the recomputed totals equal the macro sum over the populated breakfast, lunch and dinner slots and all snacks |
| MealPlanning.AssignSlot | src/pages/MealPlanning.tsx:60-67 | the targeted slot shows the meal; the other single slots are unchanged; a snack replaces the list with `[meal]`; any other slot keeps the snacks |
| MealPlanning.AssignSlotIdempotent | src/pages/MealPlanning.tsx:60-67 | assigning the same meal to the same slot twice equals assigning it once |
| MealPlanning.UpdatePlan | src/pages/MealPlanning.tsx:59-110 | an existing plan keeps its id, patient and date, gets the slot assigned, and has its cached totals consistent with its meals |
| MealPlanning.NewPlan | src/pages/MealPlanning.tsx:111-141 | a new plan holds exactly the one meal in the slot, for the given patient and date, and its totals equal that meal's macros |
| MealPlanning.SaveMeal | src/pages/MealPlanning.tsx:52-147 | without a patient or a date nothing changes; with a matching plan the count is kept; without one, the new plan is appended |
| MealPlanning.SaveMealRewritesFirstMatch | src/pages/MealPlanning.tsx:55-110 | with unique plan ids, saving rewrites exactly the first plan for the patient and date, and nothing else |
| MealPlanning.SaveMealKeepsTotals | src/pages/MealPlanning.tsx:52-147 | if every plan's cached totals are consistent before a save, they are consistent after it |
| MealPlanning.SaveMealOnePlanPerDay | src/pages/MealPlanning.tsx:52-147 | with at most one plan per patient and day, unique ids and a fresh id, saving keeps both invariants, and exactly one plan exists for the patient and date |
| MealPlanning.SaveMealIdempotent | src/pages/MealPlanning.tsx:52-147 | saving the same meal into the same slot twice equals saving it once |
| MealPlanning.UpdatePlanIdempotent | src/pages/MealPlanning.tsx:59-110 | updating a plan's slot twice with the same meal equals doing it once |
| MealPlanning.NewPlanIsFixed | src/pages/MealPlanning.tsx:111-141 | assigning the same meal again to a new plan changes nothing |
| MealPlanning.FirstMatchAfterUpdate | src/pages/MealPlanning.tsx:55-57 | after the first matching plan is updated with a plan that still matches, the lookup finds the updated plan |
| MealPlanning.SnackReplacesList | src/pages/MealPlanning.tsx:62-63 | a saved snack leaves the snack list as just that meal, even when saved twice |
| MealPlanning.PlansOf | src/pages/MealPlanning.tsx:193-195 | the calendar receives exactly the selected patient's plans, in their stored order, each as often as it is stored |
| MealPlanning.DefaultSelection | src/pages/MealPlanning.tsx:27-31 | a set patient stays selected; when none is set (or the id is empty) and patients exist, the first patient becomes selected; nothing else changes the selection |
| Calendar.GetMealPlanForDate | src/components/meals/MealPlannerCalendar.tsx:36-40 | returns the first plan for the patient and date, or nothing exactly when no such plan exists |
| Calendar.CellMeal | src/components/meals/MealPlannerCalendar.tsx:54-63 | a cell shows its slot's meal of the plan, the first snack in the snack row, and nothing without a plan |
| Calendar.CellClick | src/components/meals/MealPlannerCalendar.tsx:36-95 | a cell offers to add exactly when it shows no meal; an add names the cell's date and slot; an edit names the first plan of the patient for that date, whose slot is filled, as `onEditMeal(mealPlan!.id, …)` passes the looked-up plan |
| Calendar.LookupThroughPatientFilter | src/pages/MealPlanning.tsx:193-195 | looking a date up in the patient's filtered plans finds the same plan as looking it up in all plans |
| Calendar.SavedMealIsShown | src/components/meals/MealPlannerCalendar.tsx:54-63 | after a save for a patient, date and slot, the calendar shows the saved meal in that cell |
| PlanningPage.ClickCell | src/pages/MealPlanning.tsx:196-197 | a click on an empty cell goes to the add handler, a click on a filled cell to the corrected edit handler |
| PlanningPage.ClickCellAsWritten | src/pages/MealPlanning.tsx:196-197 | the same wiring with the edit handler as written |
| PlanningPage.HandleAddMeal | src/pages/MealPlanning.tsx:39-44 | opens the form on the cell's date and slot, with no plan being edited |
| PlanningPage.HandleEditMealAsWritten | src/pages/MealPlanning.tsx:46-50 | opens the form with the plan id and slot, and leaves the selected date as it was |
| PlanningPage.HandleEditMeal | src/pages/MealPlanning.tsx:46-50 | the corrected edit handler also selects the date of the plan being edited |
| PlanningPage.HandleCancelMeal | src/pages/MealPlanning.tsx:149-151 | closes the form and changes nothing else |
| PlanningPage.HandlersKeepValid | src/pages/MealPlanning.tsx:39-50 | no handler opens the form without a selected slot |
| PlanningPage.SaveForm | src/pages/MealPlanning.tsx:52-147 | without a patient or a date the page and plans are unchanged and the form stays open; otherwise the aggregator runs and the form closes, with the date, slot and editing id kept |
| PlanningPage.AddThenSaveShowsMeal | src/pages/MealPlanning.tsx:39-147 | clicking an empty cell and saving shows the meal in that cell |
| PlanningPage.EditThenSaveShowsMeal | src/pages/MealPlanning.tsx:46-147 | with the corrected edit handler, clicking a filled cell and saving shows the new meal in that cell |
| PlanningPage.EditOnFreshPageSavesNothing | src/pages/MealPlanning.tsx:46-53 | as written, an edit on a freshly opened page saves nothing and leaves the form open |
| PlanningPage.EditAfterSaveUsesKeptDate | src/pages/MealPlanning.tsx:46-146 | as written, after a save at one date, editing a cell at another date saves the next meal under the first date again |
| PlanningPage.EditAfterCancelledAddUsesStaleDate | src/pages/MealPlanning.tsx:39-57 | as written, an edit after a cancelled add saves under the date of that add |
| PlanningPage.SeedEditIsLost | src/pages/MealPlanning.tsx:46-53 | on the seed data, as written, editing patient 1's first breakfast leaves the old meal in the cell |
| PlanningPage.SeedEditIsSaved | src/pages/MealPlanning.tsx:46-147 | on the seed data, the corrected handler shows the new breakfast |
| InventoryStatus.CeilDays | src/components/inventory/InventoryTable.tsx:62 | the day count is the least integer whose days cover the time difference, negative differences included |
| InventoryStatus.DaysUntilExpiration | src/components/inventory/InventoryTable.tsx:58-62 | the whole days until expiry, rounded up: the time left lies within the last of that many days |
| InventoryStatus.IsLowStock | src/components/inventory/InventoryTable.tsx:54-56 | an item is low on stock when its quantity is below its minimum stock |
| InventoryStatus.IsExpiringSoon | src/components/inventory/InventoryTable.tsx:58-64 | an item expires soon when the rounded-up day count is between 1 and 7 |
| InventoryStatus.IsExpired | src/components/inventory/InventoryTable.tsx:66-70 | an item has expired when its expiration time is before now |
| InventoryStatus.ExpiredCount | src/components/inventory/InventoryTable.tsx:255 | the number of expired items, as the length of the filtered list |
| InventoryStatus.ExpiringSoonCount | src/components/inventory/InventoryTable.tsx:261-264 | the number of items not expired and expiring soon, as the length of the filtered list |
| InventoryStatus.LowStockCount | src/components/inventory/InventoryTable.tsx:270 | the number of low-stock items, as the length of the filtered list |
| InventoryStatus.ExpiringSoonWindow | src/components/inventory/InventoryTable.tsx:58-64 | an item is expiring soon exactly when its expiration lies strictly after now and at most seven days ahead |
| InventoryStatus.ExpiredExcludesExpiringSoon | src/components/inventory/InventoryTable.tsx:58-70 | no item is both expired and expiring soon |
| InventoryStatus.RowBackground | src/components/inventory/InventoryTable.tsx:156-171 | at most one of the red, yellow and orange classes applies, and one applies exactly when the item is expired, expiring soon or low on stock |
| InventoryStatus.RowBackgroundIsPriority | src/components/inventory/InventoryTable.tsx:156-171 | the classes follow the priority expired, then expiring soon, then low stock |
| InventoryStatus.CountersAgree | src/components/inventory/InventoryTable.tsx:255-270 | the `!isExpired` guard of the expiring-soon counter changes nothing, and the expired and expiring-soon counts add up to at most the number of items |
| InventoryView.Categories | src/components/inventory/InventoryTable.tsx:25-28 | "all" comes first, followed by each item category once, in order of first appearance, and no other value |
| InventoryView.Matches | src/components/inventory/InventoryTable.tsx:30-37 | an item matches when its lower-cased name contains the lower-cased search and its category is the selected one or the selection is "all" |
| InventoryView.FilteredItems | src/components/inventory/InventoryTable.tsx:30-37 | the kept items are those whose lower-cased name contains the lower-cased search and whose category matches or is "all", in their original order, one kept item per matching item |
| InventoryView.NoCriteriaShowsAll | src/components/inventory/InventoryTable.tsx:30-37 | an empty search with "all" shows every item |
| InventoryView.HandleSort | src/components/inventory/InventoryTable.tsx:45-52 | clicking the current column flips the direction; clicking another column sorts by it ascending |
| InventoryView.HandleSortTwiceRestores | src/components/inventory/InventoryTable.tsx:45-52 | clicking the current column twice restores the sort state |
| InventoryView.StrLessTotal | src/components/inventory/InventoryTable.tsx:40-41 | string `<` orders any two different strings one way or the other |
| InventoryView.KeyLessTrichotomy | src/components/inventory/InventoryTable.tsx:40-41 | column values of one kind are irreflexively and totally ordered |
| InventoryView.Compare | src/components/inventory/InventoryTable.tsx:39-43 | the comparator returns -1, 0 or 1; 0 exactly for equal keys; negative exactly when the first key is less in the chosen direction |
| InventoryView.CompareFlips | src/components/inventory/InventoryTable.tsx:39-43 | swapping the arguments negates the comparison |
| InventoryView.Insert | src/components/inventory/InventoryTable.tsx:39-43 | inserting one item into a list adds exactly that item, and keeps a sorted list sorted |
| InventoryView.SortItems | src/components/inventory/InventoryTable.tsx:39-43 | the sorted list is a permutation of the input, ordered by the comparator |
| InventoryView.SortIsStable | src/components/inventory/InventoryTable.tsx:39-43 | items with equal keys keep their relative order |
| InventoryView.SortedItems | src/components/inventory/InventoryTable.tsx:30-43 | the table shows a permutation of the filtered items, ordered by the comparator |
| InventoryPage.HandleAddItem | src/pages/Inventory.tsx:24-28 | opens an empty item form, closes the order panel and keeps the order snapshot |
| InventoryPage.HandleEditItem | src/pages/Inventory.tsx:30-37 | a known id opens the form on the first stored item with that id and closes the order panel; an unknown id changes nothing |
| InventoryPage.HandleOrderItem | src/pages/Inventory.tsx:45-52 | a known id opens the order panel on the first stored item with that id; an unknown id changes nothing |
| InventoryPage.HandleDeleteItem | src/pages/Inventory.tsx:39-43 | without confirmation nothing changes; with it, the store's delete runs: no item with the id remains and the others stay in order, one fewer per removed item |
| InventoryPage.HandleSaveItem | src/pages/Inventory.tsx:54-61 | while editing, the item replaces its stored version; otherwise it is added; the form closes |
| InventoryPage.HandlePlaceOrder | src/pages/Inventory.tsx:63-72 | with a snapshot, items with its id become the snapshot plus 20 units, other items are unchanged, and the panel closes with the rest of the page kept; without one nothing changes |
| InventoryPage.HandleCancel | src/pages/Inventory.tsx:74-77 | returns to the table and keeps both snapshots |
| InventoryPage.Reordered | src/pages/Inventory.tsx:63-68 | the ordered item is the snapshot with 20 more units |
| InventoryPage.EstimatedOrderCost | src/pages/Inventory.tsx:115 | the estimated cost is 20 times the unit cost, in cents |
| InventoryPage.ReorderedValue | src/pages/Inventory.tsx:113-116 | reordering raises an item's value by exactly the estimated cost of 20 units |
| InventoryPage.PlaceOrderIsWrite | src/pages/Inventory.tsx:63-72 | with unique ids and a current snapshot, placing the order writes the reordered item at its position |
| InventoryPage.OrderCostIsValueIncrease | src/pages/Inventory.tsx:63-72 | placing an order raises the inventory value by exactly the estimated order cost |
| InventoryPage.OrderItemSnapshot | src/pages/Inventory.tsx:45-52 | with unique ids, the order panel opened on an item's id holds exactly that item |
| InventoryPage.OrderThenPlace | src/pages/Inventory.tsx:45-72 | opening the order panel and placing the order adds 20 units to that item alone and returns to the table |
| InventoryPage.AddThenSave | src/pages/Inventory.tsx:24-61 | opening a blank form and saving appends the item and returns to the table |
| InventoryPage.EditThenSave | src/pages/Inventory.tsx:30-61 | opening the form on a stored item and saving replaces the items with the saved id (with unique ids and the id kept, that one item) and returns to the table |
| Dashboard.IsAlert | src/pages/Dashboard.tsx:11-17 | an item is an alert when the rounded-up day count is at most 7 or its quantity is below its minimum |
| Dashboard.InventoryAlerts | src/pages/Dashboard.tsx:11-18 | the alert count is the length of the filtered alert list |
| Dashboard.AlertWindow | src/pages/Dashboard.tsx:11-18 | an item is an alert exactly when at most seven days remain (or the date has passed), or it is low on stock |
| Dashboard.FlaggedItemsAreAlerts | src/pages/Dashboard.tsx:11-18 | every item the inventory table highlights is a dashboard alert |
| Dashboard.AlertCountBounds | src/pages/Dashboard.tsx:11-18 | the alert count is at least the low-stock count and at least the expired plus expiring-soon counts, and at most the number of items |
| Dashboard.UpdatedStats | src/pages/Dashboard.tsx:20-24 | the shown statistics take the patient count and the computed alert count; the other statistics are passed through |
| Reports.ItemValue | src/pages/Reports.tsx:10-12 | an item is worth its quantity times its unit cost |
| Reports.InventoryValue | src/pages/Reports.tsx:10-12 | the inventory value is the sum of the item values, starting from 0 |
| Reports.InventoryValueAppend | src/pages/Reports.tsx:10-12 | the value of two inventories joined is the sum of their values |
| Reports.InventoryValueNonNegative | src/pages/Reports.tsx:10-12 | with non-negative quantities and costs the value is non-negative, and an empty inventory is worth 0 |
| Reports.InventoryValueWrite | src/pages/Reports.tsx:10-12 | replacing one item changes the value by the difference of the two items' values |
| Reports.MealsServed | src/pages/Reports.tsx:14-21 | the meals served are the sum over the plans of their meal counts, starting from 0 |
| Reports.PlanMealCount | src/pages/Reports.tsx:15-19 | a plan's meal count is the number of populated slots plus the number of snacks |
| Reports.MealsServedAppend | src/pages/Reports.tsx:14-21 | the meals served by two plan lists joined is the sum of their counts |
| Reports.AllRestrictions | src/pages/Reports.tsx:66 | the restriction lists of all patients, joined in patient order |
| Reports.AllRestrictionsMembers | src/pages/Reports.tsx:66 | a restriction is in the flattened list exactly when some patient lists it |
| Reports.RestrictionList | src/pages/Reports.tsx:65-67 | each listed restriction appears once, and the list is exactly the restrictions some patient has |
| Reports.RestrictionCount | src/pages/Reports.tsx:68-70 | the number of patients listing the restriction (not the number of occurrences), as the length of the filtered patient list |
| Reports.RestrictionCountBounds | src/pages/Reports.tsx:68-70 | a listed restriction is held by between one and all of the patients |
| Reports.RowFor | src/pages/Reports.tsx:68-71 | a row names the restriction, its patient count, and that count's share of the patients rounded half up to a whole percent |
| Reports.RestrictionRows | src/pages/Reports.tsx:65-71 | there is one row per distinct restriction, and rows exist only when there are patients |
| Reports.RestrictionRowsBounds | src/pages/Reports.tsx:68-71 | each row's count lies between 1 and the number of patients, and its percentage is that share rounded, between 0 and 100 |
| Rounding.RoundPercent | src/pages/Reports.tsx:71 | the result is `p / q * 100` rounded half up |
| Rounding.RoundedPercentUnique | src/pages/Reports.tsx:71 | the rounded percentage is unique |
| Rounding.RoundPercentMonotone | src/components/dashboard/NutritionComplianceChart.tsx:92-96 | a larger numerator never gives a smaller rounded percentage |
| Rounding.RoundPercentWhole | src/components/dashboard/NutritionComplianceChart.tsx:92-96 | a numerator equal to the denominator gives 100 |
| Rounding.RoundPercentBounds | src/pages/Reports.tsx:71 | a count between 0 and the total gives a percentage between 0 and 100 |
| Compliance.ComplianceOf | src/components/dashboard/NutritionComplianceChart.tsx:92-102 | compliance is the summed actual over the summed target, as a rounded percentage |
| Compliance.CalorieCompliance | src/components/dashboard/NutritionComplianceChart.tsx:92-96 | calorie compliance is the rounded percentage of calories eaten over calories targeted |
| Compliance.ProteinCompliance | src/components/dashboard/NutritionComplianceChart.tsx:98-102 | protein compliance is the rounded percentage of protein eaten over protein targeted |
| Compliance.ComplianceOnTarget | src/components/dashboard/NutritionComplianceChart.tsx:92-96 | meeting the targets exactly in total gives 100 |
| Compliance.SumOfPointwise | src/components/dashboard/NutritionComplianceChart.tsx:93-94 | the sums respect a pointwise order, and pointwise-equal fields sum equally |
| Compliance.ComplianceMonotone | src/components/dashboard/NutritionComplianceChart.tsx:92-96 | with the targets fixed, raising the actual values never lowers compliance |
| Forms.Trim | src/components/patients/PatientForm.tsx:74 | a trimmed value neither starts nor ends with whitespace |
| Forms.TrimSplits | src/components/patients/PatientForm.tsx:79 | the input is whitespace, then the trimmed value, then whitespace |
| Forms.TrimBlank | src/components/patients/PatientForm.tsx:74 | the trimmed value is empty exactly when the input is all whitespace |
| Forms.AddEntry | src/components/patients/PatientForm.tsx:73-84 | blank input changes nothing; otherwise the trimmed, non-empty input is appended and the input cleared |
| Forms.RemoveEntry | src/components/patients/PatientForm.tsx:86-93 | removal by index drops exactly that entry and keeps the input text |
| Forms.RemoveUndoesAdd | src/components/patients/PatientForm.tsx:73-93 | removing the entry just added restores the list |
| Forms.OpenPatientForm | src/components/patients/PatientForm.tsx:11-28 | an existing patient is edited as is; a new one gets the fresh id, an empty name and room, empty lists and 2000 kcal, 75 g protein, 250 g carbs and 65 g fat |
| Forms.AddDietaryRestriction | src/components/patients/PatientForm.tsx:73-84 | the restriction list gets the add-entry behaviour, and nothing else in the form changes |
| Forms.RemoveDietaryRestriction | src/components/patients/PatientForm.tsx:86-93 | the restriction list gets the remove-entry behaviour, and nothing else in the form changes |
| Forms.AddAllergy | src/components/patients/PatientForm.tsx:95-103 | the allergy list gets the add-entry behaviour, and nothing else in the form changes |
| Forms.RemoveAllergy | src/components/patients/PatientForm.tsx:105-110 | the allergy list gets the remove-entry behaviour, and nothing else in the form changes |
| Forms.RestrictionAddRemove | src/components/patients/PatientForm.tsx:73-93 | adding a restriction and removing it again restores the patient |
| Forms.OpenMealForm | src/components/meals/MealForm.tsx:11-26 | an existing meal is edited as is; a new one is a breakfast with the fresh id, an empty name, zero macros and empty lists |
| Forms.AddIngredient | src/components/meals/MealForm.tsx:54-62 | the ingredient list gets the add-entry behaviour, and nothing else in the form changes |
| Forms.RemoveIngredient | src/components/meals/MealForm.tsx:64-69 | the ingredient list gets the remove-entry behaviour, and nothing else in the form changes |
| Forms.AddDietaryTag | src/components/meals/MealForm.tsx:71-79 | the tag list gets the add-entry behaviour, and nothing else in the form changes |
| Forms.RemoveDietaryTag | src/components/meals/MealForm.tsx:81-86 | the tag list gets the remove-entry behaviour, and nothing else in the form changes |
| Forms.IngredientEditsKeepMacros | src/components/meals/MealForm.tsx:54-86 | adding or removing an ingredient or a dietary tag never changes the meal's type or its four macros |
| MockData.Patients | src/context/mockData.ts:5-71 | the five seed patients with their rooms, restrictions, allergies and daily requirements |
| MockData.Meals | src/context/mockData.ts:74-180 | the eight seed meals with their types, macros, ingredients and tags |
| MockData.MealPlans | src/context/mockData.ts:201-254 | the three seed plans on the first two week days, with their cached totals |
| MockData.DaysFromNow | src/context/mockData.ts:264-266 | a seed expiration date: the clock reading at load plus the given days, cut to its UTC day |
| MockData.InventoryItems | src/context/mockData.ts:257-349 | the seven seed items, dated 5, 3, 2, 6, -1, 60 and 1 days from the load time, with costs in cents |
| MockData.NutritionData | src/context/mockData.ts:352-397 | the four weekly target and actual nutrition series |
| MockData.Stats | src/context/mockData.ts:400-406 | the seed dashboard statistics, including 3 inventory alerts |
| SeedFacts.SeedPlansConsistent | src/context/mockData.ts:201-254 | every seed plan's cached totals equal the sum over its meals |
| SeedFacts.SeedSlotTypes | src/context/mockData.ts:201-254 | each seed plan holds a breakfast, lunch and dinner of the matching meal type, and only snacks among its snacks |
| SeedFacts.SeedOnePlanPerDay | src/context/mockData.ts:201-254 | when the two week days differ, the seed plans have at most one plan per patient and day |
| SeedFacts.SeedIdsDistinct | src/context/mockData.ts:5-349 | seed patient, plan and inventory item ids are unique |
| SeedFacts.SeedMealsWellFormed | src/context/mockData.ts:74-180 | seed meal ids are unique and seed macros are non-negative |
| SeedFacts.SeedMealsServed | src/context/mockData.ts:201-254 | the seed plans serve 12 meals |
| SeedFacts.SeedCompliance | src/context/mockData.ts:352-397 | the seed nutrition series gives 98 percent calorie and 97 percent protein compliance |
| SeedFacts.SeedRestrictionList | src/context/mockData.ts:5-71 | the seed patients list nine distinct restrictions |
| SeedFacts.SeedRestrictionRows | src/context/mockData.ts:5-71 | each seed restriction is held by one of the five patients, 20 percent |
| SeedFacts.DaysFromNowExact | src/context/mockData.ts:264-266 | a seed date built `k` days ahead and cut to its day is `k` days away less the midnights passed since it was built, and has expired exactly when that is negative, or zero past midnight |
| SeedFacts.SeedDaysAt | src/context/mockData.ts:257-349 | viewed `d` midnights after the seed was built, the seed items expire in 5, 3, 2, 6, -1, 60 and 1 days less `d` |
| SeedFacts.SeedDays | src/context/mockData.ts:257-349 | on the UTC day the seed was built, the seed items expire in 5, 3, 2, 6, -1, 60 and 1 days, and only the fifth has expired |
| SeedFacts.SeedExpiredCount | src/context/mockData.ts:257-349 | one seed item is expired on the UTC day the seed was built |
| SeedFacts.SeedExpiringSoonCount | src/context/mockData.ts:257-349 | five seed items are expiring soon on the UTC day the seed was built |
| SeedFacts.SeedCountsAcrossMidnight | src/components/inventory/InventoryTable.tsx:255-270 | viewed two hours after a seed built an hour before midnight, two seed items are expired and four are expiring soon |
| SeedFacts.SeedLowStockCount | src/context/mockData.ts:257-349 | three seed items are low on stock |
| SeedFacts.SeedDashboard | src/context/mockData.ts:400-406 | the dashboard counts six seed alerts exactly from the UTC day before the seed was built until 53 days after it; then it shows five patients and six alerts, replacing the seed value of 3 |

## Left out

- Rendering: JSX, Chart.js charts, styling, and the cards and lists that only display values are not modelled.
- Week navigation: `generateWeekDates`, date-fns week navigation and the calendar's day columns are not modelled. The seed week days are parameters.
- Id generation: `Date.now().toString()` ids are a `freshId` parameter.
- Confirmation dialog: the browser's `window.confirm` is a boolean parameter.
- `handleChange`, `handleNumberChange` and `handleSubmit` in both forms are not modelled. They copy input fields into the form and parse numbers with `parseInt`.
- Not modelled, because they are outside the modelled screens:
  - `InventoryForm`
  - the patients page and its components
  - `DashboardStats`
  - the sidebar, header and app shell
- Costs: the source holds costs as floating-point dollars. The model holds integer cents, so `toFixed(2)` rounding is not modelled.
- Percentages: `Math.round` on floating point can differ from exact round-half-up when the quotient lands within float error of a half. The model rounds exactly.
- `trim` and `toLowerCase` are modelled over ASCII only. Unicode whitespace and non-ASCII case mapping are not.
- String `<` is modelled as lexicographic order on characters. JavaScript compares UTF-16 code units, which differs only for characters outside the Basic Multilingual Plane.
- The sort: sorting in the source happens on the sort header's five columns only, and `Array.prototype.sort` is stable. The model's stable insertion sort stands for it.
- The optional `image` field of a meal is not modelled; it is only displayed. An item's `unit` is carried as data that nothing computes on.
- Compliance.ComplianceOf: requires a positive target sum. The source divides by zero there and shows `NaN` or `Infinity`.
- PlanningPage.SaveForm: requires the form to be open with a slot chosen, which is the only way the source reaches its save handler. An unrecognised slot name cannot arise, because the slot is a `MealType`.
- Clock readings: the table's `isExpiringSoon` and `isExpired` and the dashboard's alert filter each call `new Date()` per item; the model uses one reading `now` per view. Since the clock only moves forward, the two differ only for an item whose expiry falls during the render itself.
- Reports.RestrictionRows: its rows exist only when there are patients. With no patients there are no restrictions, so the source's division by a zero patient count never runs.
- SeedFacts.SeedExpiredCount and SeedFacts.SeedExpiringSoonCount: state the counts only for a view on the UTC day the seed was built. On later days they are not single numbers; `SeedFacts.SeedDaysAt` gives every item's day count for any view time instead.

## Findings

| source | as written | input that shows it | evidently intended | confidence | as-written member | corrected member |
|---|---|---|---|---|---|---|
| src/pages/MealPlanning.tsx:46-50 | The edit handler records the plan id and the slot but not the date. The save handler (lines 52-57) finds the plan by the selected date and never reads `editingMealPlanId`. | Open the page and click patient 1's filled breakfast cell for the first seed day, then save another meal. The selected date is still `""`, so the handler returns early: the form stays open and the cell keeps the old meal. | Editing a filled cell saves the new meal into that cell's plan. | not executed | PlanningPage.SeedEditIsLost | PlanningPage.EditThenSaveShowsMeal |

`PlanningPage.EditOnFreshPageSavesNothing` and
`PlanningPage.EditAfterCancelledAddUsesStaleDate` state the as-written
behaviour for all inputs. On a fresh page the edit is lost. After a
cancelled add, the edit is saved under the date of that add.
`PlanningPage.HandleEditMeal` is the corrected handler, and
`PlanningPage.ClickCell` dispatches to it. `PlanningPage.SeedEditIsSaved`
shows the seed edit going through.
