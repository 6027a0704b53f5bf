/** The meal-plan aggregator (src/pages/MealPlanning.tsx, `handleSaveMeal`).

    Saving a meal into a slot for the selected patient and date either
    rewrites the first plan for that (patient, date) or appends a new plan.
    The cached `nutritionTotals` must always equal the sum of the macros of
    the populated slots; that is the central invariant of this module. */
module MealPlanning {
  import opened Wrappers
  import opened Seqs
  import opened Types
  import Store

  // ---------------------------------------------------------------------
  // Slots and the reference definition of a plan's totals.
  // ---------------------------------------------------------------------

  /** The meals of the populated slots: breakfast, lunch, dinner (each when
      present), then every snack. */
  function PresentMeals(m: PlanMeals): seq<Meal> {
    (if m.breakfast.Some? then [m.breakfast.value] else [])
    + (if m.lunch.Some? then [m.lunch.value] else [])
    + (if m.dinner.Some? then [m.dinner.value] else [])
    + m.snacks
  }

  /** The sum of the macros of a list of meals. */
  function SumMacros(ms: seq<Meal>): Macros {
    if |ms| == 0 then ZeroMacros else Plus(ms[0].MacrosOf(), SumMacros(ms[1..]))
  }

  /** The cached totals equal the sum over the populated slots. */
  ghost predicate TotalsConsistent(mp: MealPlan) {
    mp.nutritionTotals == SumMacros(PresentMeals(mp.meals))
  }

  /** What a slot shows: the breakfast, lunch or dinner meal, or for the
      snack slot the first snack. */
  function Slot(m: PlanMeals, slot: MealType): Option<Meal> {
    match slot
    case Breakfast => m.breakfast
    case Lunch => m.lunch
    case Dinner => m.dinner
    case Snack => if |m.snacks| > 0 then Some(m.snacks[0]) else None
  }

  lemma PlusAssoc(x: Macros, y: Macros, z: Macros)
    ensures Plus(x, Plus(y, z)) == Plus(Plus(x, y), z)
  {
  }

  lemma {:induction false} SumMacrosAppend(a: seq<Meal>, b: seq<Meal>)
    ensures SumMacros(a + b) == Plus(SumMacros(a), SumMacros(b))
  {
    if |a| == 0 {
      assert a + b == b;
      assert SumMacros(a) == ZeroMacros;
    } else {
      var ab := a + b;
      assert ab[0] == a[0];
      assert ab[1..] == a[1..] + b;
      assert SumMacros(ab) == Plus(a[0].MacrosOf(), SumMacros(a[1..] + b));
      SumMacrosAppend(a[1..], b);
      PlusAssoc(a[0].MacrosOf(), SumMacros(a[1..]), SumMacros(b));
    }
  }

  // ---------------------------------------------------------------------
  // The totals computation as the source performs it.
  // ---------------------------------------------------------------------

  /** Adds a slot's macros to the running totals when the slot is filled. */
  function AddSlot(acc: Macros, slot: Option<Meal>): Macros {
    if slot.Some? then Plus(acc, slot.value.MacrosOf()) else acc
  }

  /** The `forEach` over the snacks, adding each one to the running totals. */
  function AddSnacks(acc: Macros, snacks: seq<Meal>): (t: Macros)
    ensures t == Plus(acc, SumMacros(snacks))
    decreases |snacks|
  {
    if |snacks| == 0 then acc
    else AddSnacks(Plus(acc, snacks[0].MacrosOf()), snacks[1..])
  }

  /** The totals recomputed from zero: breakfast, lunch, dinner, then the
      snacks. They equal the reference sum over the populated slots. */
  function RecomputeTotals(m: PlanMeals): (t: Macros)
    ensures t == SumMacros(PresentMeals(m))
  {
    var b := if m.breakfast.Some? then [m.breakfast.value] else [];
    var l := if m.lunch.Some? then [m.lunch.value] else [];
    var d := if m.dinner.Some? then [m.dinner.value] else [];
    SumMacrosAppend(b, l);
    SumMacrosAppend(b + l, d);
    SumMacrosAppend(b + l + d, m.snacks);
    AddSnacks(AddSlot(AddSlot(AddSlot(ZeroMacros, m.breakfast), m.lunch), m.dinner), m.snacks)
  }

  // ---------------------------------------------------------------------
  // Assigning a meal to a slot.
  // ---------------------------------------------------------------------

  /** Puts `meal` into `slot`. A snack assignment replaces the whole snack
      list with `[meal]`. */
  function AssignSlot(m: PlanMeals, slot: MealType, meal: Meal): (r: PlanMeals)
    ensures Slot(r, slot) == Some(meal)
    ensures forall s :: s != slot && s != Snack ==> Slot(r, s) == Slot(m, s)
    ensures slot == Snack ==> r.snacks == [meal]
    ensures slot != Snack ==> r.snacks == m.snacks
  {
    match slot
    case Snack => m.(snacks := [meal])
    case Breakfast => m.(breakfast := Some(meal))
    case Lunch => m.(lunch := Some(meal))
    case Dinner => m.(dinner := Some(meal))
  }

  /** Assigning the same meal to the same slot twice equals doing it once. */
  lemma AssignSlotIdempotent(m: PlanMeals, slot: MealType, meal: Meal)
    ensures AssignSlot(AssignSlot(m, slot, meal), slot, meal) == AssignSlot(m, slot, meal)
  {
  }

  /** The existing-plan branch: same id, patient and date, the slot
      assigned, the totals recomputed. */
  function UpdatePlan(mp: MealPlan, slot: MealType, meal: Meal): (q: MealPlan)
    ensures q.id == mp.id && q.patientId == mp.patientId && q.date == mp.date
    ensures q.meals == AssignSlot(mp.meals, slot, meal)
    ensures TotalsConsistent(q)
  {
    var meals := AssignSlot(mp.meals, slot, meal);
    mp.(meals := meals, nutritionTotals := RecomputeTotals(meals))
  }

  /** The new-plan branch: exactly one slot populated, and the totals taken
      straight from the meal's macros, which matches the reference sum. */
  function NewPlan(id: Id, patientId: Id, date: string, slot: MealType, meal: Meal): (q: MealPlan)
    ensures q.id == id && q.patientId == patientId && q.date == date
    ensures PresentMeals(q.meals) == [meal]
    ensures Slot(q.meals, slot) == Some(meal)
    ensures TotalsConsistent(q)
  {
    var meals := AssignSlot(EmptyMeals, slot, meal);
    assert SumMacros([meal]) == meal.MacrosOf();
    MealPlan(id, patientId, date, meals, meal.MacrosOf())
  }

  // ---------------------------------------------------------------------
  // handleSaveMeal
  // ---------------------------------------------------------------------

  /** The guard of `handleSaveMeal`: a patient is selected (JavaScript treats
      null and "" alike) and a date is selected. */
  predicate CanSave(selected: Option<Id>, date: string) {
    selected.Some? && selected.value != "" && date != ""
  }

  /** Saves `meal` into `slot` of the selected patient's plan for `date`.
      `freshId` stands for `Date.now().toString()`. */
  function SaveMeal(plans: seq<MealPlan>, selected: Option<Id>, date: string,
                    slot: MealType, meal: Meal, freshId: Id): (r: seq<MealPlan>)
    ensures !CanSave(selected, date) ==> r == plans
    ensures CanSave(selected, date) && FindIndex(plans, IsPlanFor(selected.value, date)).Some?
            ==> |r| == |plans|
    ensures CanSave(selected, date) && FindIndex(plans, IsPlanFor(selected.value, date)).None?
            ==> |r| == |plans| + 1 && r[..|plans|] == plans
                && r[|plans|] == NewPlan(freshId, selected.value, date, slot, meal)
  {
    if !CanSave(selected, date) then plans
    else
      match FindIndex(plans, IsPlanFor(selected.value, date))
      case Some(i) => Store.Update(plans, UpdatePlan(plans[i], slot, meal), PlanKey)
      case None => Store.Add(plans, NewPlan(freshId, selected.value, date, slot, meal))
  }

  /** At most one plan per (patient, date). */
  ghost predicate OnePlanPerDay(plans: seq<MealPlan>) {
    forall i, j :: 0 <= i < j < |plans| ==>
      !(plans[i].patientId == plans[j].patientId && plans[i].date == plans[j].date)
  }

  /** Every plan's cached totals are consistent. */
  ghost predicate AllTotalsConsistent(plans: seq<MealPlan>) {
    forall i :: 0 <= i < |plans| ==> TotalsConsistent(plans[i])
  }

  /** With unique plan ids, saving into an existing plan rewrites exactly the
      first plan for (patient, date) and nothing else. */
  lemma SaveMealRewritesFirstMatch(plans: seq<MealPlan>, patientId: Id, date: string,
                                   slot: MealType, meal: Meal, freshId: Id, i: nat)
    requires CanSave(Some(patientId), date)
    requires Store.UniqueIds(plans, PlanKey)
    requires FindIndex(plans, IsPlanFor(patientId, date)) == Some(i)
    ensures i < |plans|
    ensures SaveMeal(plans, Some(patientId), date, slot, meal, freshId)
            == plans[i := UpdatePlan(plans[i], slot, meal)]
  {
    Store.UpdateUniqueIsWrite(plans, i, UpdatePlan(plans[i], slot, meal), PlanKey);
  }

  /** Saving keeps every plan's totals consistent. */
  lemma SaveMealKeepsTotals(plans: seq<MealPlan>, selected: Option<Id>, date: string,
                            slot: MealType, meal: Meal, freshId: Id)
    requires AllTotalsConsistent(plans)
    ensures AllTotalsConsistent(SaveMeal(plans, selected, date, slot, meal, freshId))
  {
  }

  /** Saving keeps at most one plan per (patient, date) and leaves exactly
      one for the saved (patient, date), provided ids are unique and the new
      id is fresh. */
  lemma SaveMealOnePlanPerDay(plans: seq<MealPlan>, patientId: Id, date: string,
                              slot: MealType, meal: Meal, freshId: Id)
    requires CanSave(Some(patientId), date)
    requires Store.UniqueIds(plans, PlanKey) && !Store.HasId(plans, freshId, PlanKey)
    requires OnePlanPerDay(plans)
    ensures var r := SaveMeal(plans, Some(patientId), date, slot, meal, freshId);
            OnePlanPerDay(r) && Store.UniqueIds(r, PlanKey)
            && Count(r, IsPlanFor(patientId, date)) == 1
  {
    var r := SaveMeal(plans, Some(patientId), date, slot, meal, freshId);
    var p := IsPlanFor(patientId, date);
    match FindIndex(plans, p)
    case Some(i) =>
      SaveMealRewritesFirstMatch(plans, patientId, date, slot, meal, freshId, i);
      assert r == plans[i := UpdatePlan(plans[i], slot, meal)];
      Store.UpdateKeepsUnique(plans, UpdatePlan(plans[i], slot, meal), PlanKey);
      CountOnlyAt(r, p, i);
    case None =>
      assert r == plans + [NewPlan(freshId, patientId, date, slot, meal)];
      CountNone(plans, p);
      CountAppend(plans, [NewPlan(freshId, patientId, date, slot, meal)], p);
  }

  /** Exactly one element satisfies `p` when only position `i` does. */
  lemma CountOnlyAt(xs: seq<MealPlan>, p: MealPlan -> bool, i: nat)
    requires i < |xs| && p(xs[i])
    requires forall j :: 0 <= j < |xs| && j != i ==> !p(xs[j])
    ensures Count(xs, p) == 1
  {
    assert xs == xs[..i] + [xs[i]] + xs[i + 1..];
    CountAppend(xs[..i] + [xs[i]], xs[i + 1..], p);
    CountAppend(xs[..i], [xs[i]], p);
    CountNone(xs[..i], p);
    CountNone(xs[i + 1..], p);
  }

  /** Saving the same meal into the same slot twice gives the same plans as
      saving it once. */
  lemma SaveMealIdempotent(plans: seq<MealPlan>, selected: Option<Id>, date: string,
                           slot: MealType, meal: Meal, freshId: Id)
    requires !Store.HasId(plans, freshId, PlanKey)
    ensures var once := SaveMeal(plans, selected, date, slot, meal, freshId);
            SaveMeal(once, selected, date, slot, meal, freshId) == once
  {
    if CanSave(selected, date) {
      var p := IsPlanFor(selected.value, date);
      var once := SaveMeal(plans, selected, date, slot, meal, freshId);
      match FindIndex(plans, p)
      case Some(i) =>
        var u := UpdatePlan(plans[i], slot, meal);
        assert once == Store.Update(plans, u, PlanKey);
        var j := FirstMatchAfterUpdate(plans, p, i, u);
        UpdatePlanIdempotent(plans[i], slot, meal);
        Store.UpdateIdempotent(plans, u, PlanKey);
      case None =>
        var np := NewPlan(freshId, selected.value, date, slot, meal);
        assert once == plans + [np];
        assert FindIndex(once, p) == Some(|plans|);
        NewPlanIsFixed(freshId, selected.value, date, slot, meal);
        Store.UpdateAbsentIsNoOp(plans, np, PlanKey);
    }
  }

  /** Re-assigning what a plan already holds changes nothing. */
  lemma UpdatePlanIdempotent(mp: MealPlan, slot: MealType, meal: Meal)
    ensures UpdatePlan(UpdatePlan(mp, slot, meal), slot, meal) == UpdatePlan(mp, slot, meal)
  {
    AssignSlotIdempotent(mp.meals, slot, meal);
  }

  /** A freshly created plan is unchanged by re-assigning its one meal. */
  lemma NewPlanIsFixed(id: Id, patientId: Id, date: string, slot: MealType, meal: Meal)
    ensures var np := NewPlan(id, patientId, date, slot, meal);
            UpdatePlan(np, slot, meal) == np
  {
    AssignSlotIdempotent(EmptyMeals, slot, meal);
  }

  /** After the first match for `p` is overwritten (through its id) by a plan
      that still satisfies `p`, the first match is that plan. */
  lemma FirstMatchAfterUpdate(plans: seq<MealPlan>, p: MealPlan -> bool, i: nat, u: MealPlan)
    returns (j: nat)
    requires FindIndex(plans, p) == Some(i)
    requires u.id == plans[i].id && p(u)
    ensures FindIndex(Store.Update(plans, u, PlanKey), p) == Some(j)
    ensures Store.Update(plans, u, PlanKey)[j] == u
  {
    var once := Store.Update(plans, u, PlanKey);
    assert once[i] == u && p(once[i]);
    var found := FindIndex(once, p);
    assert found.Some?;
    j := found.value;
    assert forall k :: 0 <= k < j ==> !p(once[k]);
    assert j <= i;
    if j < i {
      assert p(once[j]) && !p(plans[j]);
      assert PlanKey(plans[j]) == PlanKey(u);
    }
  }

  /** A snack assignment leaves exactly `[meal]` as the plan's snacks,
      however many snacks it held and however often it is repeated. */
  lemma SnackReplacesList(mp: MealPlan, meal: Meal)
    ensures UpdatePlan(mp, Snack, meal).meals.snacks == [meal]
    ensures UpdatePlan(UpdatePlan(mp, Snack, meal), Snack, meal).meals.snacks == [meal]
  {
  }

  // ---------------------------------------------------------------------
  // The rest of the planning page's data flow.
  // ---------------------------------------------------------------------

  /** The plans handed to the calendar: the selected patient's plans. */
  function PlansOf(plans: seq<MealPlan>, patientId: Id): (r: seq<MealPlan>)
    ensures forall i :: 0 <= i < |r| ==> r[i].patientId == patientId
    ensures forall i :: 0 <= i < |plans| && plans[i].patientId == patientId ==> plans[i] in r
    ensures IsSubseq(r, plans)
    ensures |r| == Count(plans, IsPlanOf(patientId))
  {
    Filter(plans, IsPlanOf(patientId))
  }

  /** The page's effect that selects the first patient when none is selected
      and there is at least one patient. */
  function DefaultSelection(selected: Option<Id>, patients: seq<Patient>): (r: Option<Id>)
    ensures |patients| > 0 ==> r.Some?
    ensures r != selected ==> |patients| > 0 && r == Some(patients[0].id)
    ensures selected.Some? && selected.value != "" ==> r == selected
    ensures (selected.None? || selected.value == "") && |patients| > 0 ==>
              r == Some(patients[0].id)
  {
    if (selected.None? || selected.value == "") && |patients| > 0 then Some(patients[0].id)
    else selected
  }
}
