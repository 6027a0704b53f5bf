/** The meal-planner calendar (src/components/meals/MealPlannerCalendar.tsx):
    the plan lookup for a day, what a cell shows, and whether clicking it
    adds or edits. Week navigation and date formatting are not modelled: a
    cell is identified by its `yyyy-MM-dd` date string. */
module Calendar {
  import opened Wrappers
  import opened Seqs
  import opened Types
  import Store
  import MealPlanning

  /** The first plan of the patient for the date, if any. */
  function GetMealPlanForDate(plans: seq<MealPlan>, patientId: Id, date: string): (r: Option<MealPlan>)
    ensures r.None? <==> forall j :: 0 <= j < |plans| ==>
                           !(plans[j].date == date && plans[j].patientId == patientId)
    ensures r.Some? ==> r.value.date == date && r.value.patientId == patientId
    ensures r.Some? ==> exists i :: 0 <= i < |plans| && plans[i] == r.value
                          && forall j :: 0 <= j < i ==>
                               !(plans[j].date == date && plans[j].patientId == patientId)
  {
    Find(plans, IsPlanFor(patientId, date))
  }

  /** The meal a cell shows: the slot's meal, or for the snack row the first
      snack; nothing without a plan. */
  function CellMeal(plan: Option<MealPlan>, slot: MealType): Option<Meal> {
    match plan
    case None => None
    case Some(mp) => MealPlanning.Slot(mp.meals, slot)
  }

  /** What clicking a cell asks the page to do. */
  datatype CellAction = AddMeal(date: string, slot: MealType) | EditMeal(planId: Id, slot: MealType)

  /** An empty cell offers to add a meal for its date and slot; a filled
      cell offers to edit that slot of the plan it shows, which is the first
      plan of the patient for the date. */
  function CellClick(plans: seq<MealPlan>, patientId: Id, date: string, slot: MealType): (a: CellAction)
    ensures a.slot == slot
    ensures a.AddMeal? <==> CellMeal(GetMealPlanForDate(plans, patientId, date), slot).None?
    ensures a.AddMeal? ==> a.date == date
    ensures a.EditMeal? ==> exists i :: 0 <= i < |plans| && plans[i].id == a.planId
                              && plans[i].date == date && plans[i].patientId == patientId
                              && MealPlanning.Slot(plans[i].meals, slot).Some?
                              && forall j :: 0 <= j < i ==>
                                   !(plans[j].date == date && plans[j].patientId == patientId)
  {
    var plan := GetMealPlanForDate(plans, patientId, date);
    match CellMeal(plan, slot)
    case None => AddMeal(date, slot)
    case Some(_) => EditMeal(plan.value.id, slot)
  }

  /** The calendar is handed only the selected patient's plans; the lookup
      over them finds the same plan as over all plans. */
  lemma LookupThroughPatientFilter(plans: seq<MealPlan>, patientId: Id, date: string)
    ensures GetMealPlanForDate(MealPlanning.PlansOf(plans, patientId), patientId, date)
            == GetMealPlanForDate(plans, patientId, date)
  {
    FindThroughFilter(plans, IsPlanOf(patientId), IsPlanFor(patientId, date));
  }

  /** Appending a plan that matches, when none did, makes it the first match. */
  lemma FindAppended(plans: seq<MealPlan>, p: MealPlan -> bool, x: MealPlan)
    requires FindIndex(plans, p).None? && p(x)
    ensures Find(plans + [x], p) == Some(x)
  {
    var r := plans + [x];
    assert r[|plans|] == x;
    assert forall k :: 0 <= k < |plans| ==> r[k] == plans[k];
  }

  /** After a meal is saved into a slot for (patient, date), that calendar
      cell shows the meal. */
  lemma SavedMealIsShown(plans: seq<MealPlan>, patientId: Id, date: string,
                         slot: MealType, meal: Meal, freshId: Id)
    requires MealPlanning.CanSave(Some(patientId), date)
    ensures var saved := MealPlanning.SaveMeal(plans, Some(patientId), date, slot, meal, freshId);
            CellMeal(GetMealPlanForDate(MealPlanning.PlansOf(saved, patientId), patientId, date), slot)
            == Some(meal)
  {
    var saved := MealPlanning.SaveMeal(plans, Some(patientId), date, slot, meal, freshId);
    var p := IsPlanFor(patientId, date);
    LookupThroughPatientFilter(saved, patientId, date);
    match FindIndex(plans, p)
    case Some(i) =>
      var u := MealPlanning.UpdatePlan(plans[i], slot, meal);
      var j := MealPlanning.FirstMatchAfterUpdate(plans, p, i, u);
      assert saved == Store.Update(plans, u, PlanKey);
    case None =>
      var np := MealPlanning.NewPlan(freshId, patientId, date, slot, meal);
      assert saved == plans + [np];
      FindAppended(plans, p, np);
  }
}
