/** The meal-planning page's handlers (src/pages/MealPlanning.tsx): a
    calendar click opens the meal form for a date and slot, and saving the
    form runs the aggregator for the selected patient and the selected date.

    As written, the edit handler records the plan id and the slot but never
    the date, and the save ignores the plan id, so saving after an edit uses
    whatever date an earlier add left behind (or "" on a fresh page, which
    saves nothing). `HandleEditMealAsWritten` keeps that behaviour for the
    lemmas that exhibit it; `HandleEditMeal` also selects the edited plan's
    date, and is what a calendar click dispatches to. */
module PlanningPage {
  import opened Wrappers
  import opened Seqs
  import opened Types
  import Store
  import MockData
  import MealPlanning
  import Calendar

  datatype PageState = PageState(
    showMealForm: bool,
    selectedDate: string,
    selectedSlot: Option<MealType>,
    editingMealPlanId: Option<Id>)

  /** No form, no date, no slot, no plan being edited. */
  const InitialPage := PageState(false, "", None, None)

  /** The meal form is only shown once a slot has been chosen. */
  ghost predicate Valid(p: PageState) {
    p.showMealForm ==> p.selectedSlot.Some?
  }

  function HandleAddMeal(p: PageState, date: string, slot: MealType): (r: PageState)
    ensures r.showMealForm && r.selectedDate == date && r.selectedSlot == Some(slot)
    ensures r.editingMealPlanId == None
  {
    PageState(true, date, Some(slot), None)
  }

  /** The edit handler as written: the date is left as it was. */
  function HandleEditMealAsWritten(p: PageState, planId: Id, slot: MealType): (r: PageState)
    ensures r.showMealForm && r.selectedSlot == Some(slot) && r.editingMealPlanId == Some(planId)
    ensures r.selectedDate == p.selectedDate
  {
    p.(editingMealPlanId := Some(planId), selectedSlot := Some(slot), showMealForm := true)
  }

  /** The edit handler with the edited plan's date selected; an id with no
      plan leaves the date as it was. */
  function HandleEditMeal(p: PageState, plans: seq<MealPlan>, planId: Id, slot: MealType): (r: PageState)
    ensures r.showMealForm && r.selectedSlot == Some(slot) && r.editingMealPlanId == Some(planId)
    ensures forall i :: 0 <= i < |plans| && plans[i].id == planId && Store.UniqueIds(plans, PlanKey)
              ==> r.selectedDate == plans[i].date
    ensures !Store.HasId(plans, planId, PlanKey) ==> r.selectedDate == p.selectedDate
  {
    var date := match Find(plans, Store.IdIs(planId, PlanKey))
                case None => p.selectedDate
                case Some(mp) => mp.date;
    PageState(true, date, Some(slot), Some(planId))
  }

  function HandleCancelMeal(p: PageState): (r: PageState)
    ensures !r.showMealForm
    ensures r.selectedDate == p.selectedDate && r.selectedSlot == p.selectedSlot
    ensures r.editingMealPlanId == p.editingMealPlanId
  {
    p.(showMealForm := false)
  }

  /** A calendar click dispatched to the page. */
  function ClickCell(p: PageState, plans: seq<MealPlan>, a: Calendar.CellAction): PageState {
    match a
    case AddMeal(date, slot) => HandleAddMeal(p, date, slot)
    case EditMeal(planId, slot) => HandleEditMeal(p, plans, planId, slot)
  }

  /** The same dispatch with the edit handler as written. */
  function ClickCellAsWritten(p: PageState, a: Calendar.CellAction): PageState {
    match a
    case AddMeal(date, slot) => HandleAddMeal(p, date, slot)
    case EditMeal(planId, slot) => HandleEditMealAsWritten(p, planId, slot)
  }

  /** Every handler keeps the form closed until a slot is chosen. */
  lemma HandlersKeepValid(p: PageState, plans: seq<MealPlan>, a: Calendar.CellAction)
    requires Valid(p)
    ensures Valid(ClickCell(p, plans, a)) && Valid(ClickCellAsWritten(p, a))
    ensures Valid(HandleCancelMeal(p))
  {
  }

  datatype Outcome = Outcome(page: PageState, plans: seq<MealPlan>)

  /** Saving the form: without a selected patient or date the handler
      returns early and the form stays open; otherwise the aggregator runs
      and the form closes, keeping the date, slot and editing id. */
  function SaveForm(p: PageState, plans: seq<MealPlan>, selected: Option<Id>,
                    meal: Meal, freshId: Id): (r: Outcome)
    requires Valid(p) && p.showMealForm
    ensures !MealPlanning.CanSave(selected, p.selectedDate) ==> r == Outcome(p, plans)
    ensures MealPlanning.CanSave(selected, p.selectedDate) ==>
              !r.page.showMealForm
              && r.plans == MealPlanning.SaveMeal(plans, selected, p.selectedDate,
                                                  p.selectedSlot.value, meal, freshId)
    ensures MealPlanning.CanSave(selected, p.selectedDate) ==> r.page == p.(showMealForm := false)
  {
    if !MealPlanning.CanSave(selected, p.selectedDate) then Outcome(p, plans)
    else
      Outcome(p.(showMealForm := false),
              MealPlanning.SaveMeal(plans, selected, p.selectedDate, p.selectedSlot.value, meal, freshId))
  }

  /** What the selected patient's calendar shows in a cell. */
  function Shown(plans: seq<MealPlan>, patientId: Id, date: string, slot: MealType): Option<Meal> {
    Calendar.CellMeal(
      Calendar.GetMealPlanForDate(MealPlanning.PlansOf(plans, patientId), patientId, date), slot)
  }

  /** Clicking an empty cell and saving fills that cell with the meal. */
  lemma AddThenSaveShowsMeal(p: PageState, plans: seq<MealPlan>, patientId: Id, date: string,
                             slot: MealType, meal: Meal, freshId: Id)
    requires MealPlanning.CanSave(Some(patientId), date)
    ensures var q := HandleAddMeal(p, date, slot);
            var r := SaveForm(q, plans, Some(patientId), meal, freshId);
            !r.page.showMealForm && Shown(r.plans, patientId, date, slot) == Some(meal)
  {
    Calendar.SavedMealIsShown(plans, patientId, date, slot, meal, freshId);
  }

  /** The id in an edit action names a plan of the patient for that date. */
  lemma EditActionPlan(plans: seq<MealPlan>, patientId: Id, date: string, slot: MealType)
    returns (k: nat)
    requires Calendar.CellClick(MealPlanning.PlansOf(plans, patientId), patientId, date, slot).EditMeal?
    ensures k < |plans|
    ensures plans[k].id == Calendar.CellClick(MealPlanning.PlansOf(plans, patientId), patientId, date, slot).planId
    ensures plans[k].date == date
  {
    var own := MealPlanning.PlansOf(plans, patientId);
    var a := Calendar.CellClick(own, patientId, date, slot);
    var i :| 0 <= i < |own| && own[i].id == a.planId && own[i].date == date
             && own[i].patientId == patientId && MealPlanning.Slot(own[i].meals, slot).Some?;
    SubseqMembers(own, plans);
    k :| 0 <= k < |plans| && plans[k] == own[i];
  }

  /** Clicking a filled cell and saving puts the new meal in that cell,
      with the corrected edit handler. */
  lemma EditThenSaveShowsMeal(p: PageState, plans: seq<MealPlan>, patientId: Id, date: string,
                              slot: MealType, meal: Meal, freshId: Id)
    requires Store.UniqueIds(plans, PlanKey)
    requires MealPlanning.CanSave(Some(patientId), date)
    requires Calendar.CellClick(MealPlanning.PlansOf(plans, patientId), patientId, date, slot).EditMeal?
    ensures var a := Calendar.CellClick(MealPlanning.PlansOf(plans, patientId), patientId, date, slot);
            var q := ClickCell(p, plans, a);
            var r := SaveForm(q, plans, Some(patientId), meal, freshId);
            !r.page.showMealForm && Shown(r.plans, patientId, date, slot) == Some(meal)
  {
    var k := EditActionPlan(plans, patientId, date, slot);
    Calendar.SavedMealIsShown(plans, patientId, date, slot, meal, freshId);
  }

  /** As written, clicking a filled cell on a freshly opened page and saving
      changes no plan and leaves the form open: the selected date is still
      "". */
  lemma EditOnFreshPageSavesNothing(plans: seq<MealPlan>, patientId: Id, a: Calendar.CellAction,
                                    meal: Meal, freshId: Id)
    requires a.EditMeal?
    ensures var q := ClickCellAsWritten(InitialPage, a);
            SaveForm(q, plans, Some(patientId), meal, freshId) == Outcome(q, plans)
  {
  }

  /** As written, after an add at one date is cancelled, editing a cell at
      another date saves the meal under the first date. */
  lemma EditAfterCancelledAddUsesStaleDate(p: PageState, plans: seq<MealPlan>, patientId: Id,
                                           d1: string, s1: MealType, a: Calendar.CellAction,
                                           meal: Meal, freshId: Id)
    requires a.EditMeal? && MealPlanning.CanSave(Some(patientId), d1)
    ensures var q := ClickCellAsWritten(HandleCancelMeal(HandleAddMeal(p, d1, s1)), a);
            SaveForm(q, plans, Some(patientId), meal, freshId).plans
            == MealPlanning.SaveMeal(plans, Some(patientId), d1, a.slot, meal, freshId)
  {
  }

  /** As written, after a meal is saved at one date, editing a cell at
      another date saves the next meal under the first date again. */
  lemma EditAfterSaveUsesKeptDate(p: PageState, plans: seq<MealPlan>, patientId: Id,
                                  d1: string, s1: MealType, a: Calendar.CellAction,
                                  m1: Meal, m2: Meal, id1: Id, id2: Id)
    requires a.EditMeal? && MealPlanning.CanSave(Some(patientId), d1)
    ensures var q := HandleAddMeal(p, d1, s1);
            var r := SaveForm(q, plans, Some(patientId), m1, id1);
            var q' := ClickCellAsWritten(r.page, a);
            SaveForm(q', r.plans, Some(patientId), m2, id2).plans
            == MealPlanning.SaveMeal(r.plans, Some(patientId), d1, a.slot, m2, id2)
  {
  }

  /** On the seed data, patient "1"'s breakfast cell for the first day shows
      a meal; editing it on a fresh page as written and saving another
      breakfast leaves the old meal in the cell. */
  lemma SeedEditIsLost(week0: string, week1: string, freshId: Id)
    requires week0 != ""
    ensures var plans := MockData.MealPlans(week0, week1);
            var a := Calendar.CellClick(MealPlanning.PlansOf(plans, "1"), "1", week0, Breakfast);
            var r := SaveForm(ClickCellAsWritten(InitialPage, a), plans, Some("1"), MockData.Meals()[1], freshId);
            a.EditMeal? && r.page.showMealForm
            && Shown(r.plans, "1", week0, Breakfast) == Some(MockData.Meals()[0])
            && MockData.Meals()[0] != MockData.Meals()[1]
  {
    SeedCellIsFilled(week0, week1);
  }

  /** Patient "1"'s breakfast cell for the first seed day shows a meal. */
  lemma SeedCellIsFilled(week0: string, week1: string)
    ensures var plans := MockData.MealPlans(week0, week1);
            Calendar.CellClick(MealPlanning.PlansOf(plans, "1"), "1", week0, Breakfast).EditMeal?
  {
    var plans := MockData.MealPlans(week0, week1);
    var own := MealPlanning.PlansOf(plans, "1");
    assert IsPlanFor("1", week0)(plans[0]);
    assert IsPlanOf("1")(plans[0]);
    assert own[0] == plans[0] by {
      FilterHead(plans, IsPlanOf("1"));
    }
  }

  lemma FilterHead<T>(xs: seq<T>, p: T -> bool)
    requires |xs| > 0 && p(xs[0])
    ensures |Filter(xs, p)| > 0 && Filter(xs, p)[0] == xs[0]
  {
  }

  /** On the seed data, the corrected handler saves the edit: the cell then
      shows the new breakfast. */
  lemma SeedEditIsSaved(week0: string, week1: string, freshId: Id)
    requires week0 != ""
    ensures var plans := MockData.MealPlans(week0, week1);
            var a := Calendar.CellClick(MealPlanning.PlansOf(plans, "1"), "1", week0, Breakfast);
            var r := SaveForm(ClickCell(InitialPage, plans, a), plans, Some("1"), MockData.Meals()[1], freshId);
            !r.page.showMealForm && Shown(r.plans, "1", week0, Breakfast) == Some(MockData.Meals()[1])
  {
    var plans := MockData.MealPlans(week0, week1);
    SeedCellIsFilled(week0, week1);
    assert Store.UniqueIds(plans, PlanKey);
    EditThenSaveShowsMeal(InitialPage, plans, "1", week0, Breakfast, MockData.Meals()[1], freshId);
  }
}
