/** Facts about the seed snapshot (src/context/mockData.ts) and what the
    pages compute from it. */
module SeedFacts {
  import opened Wrappers
  import opened Seqs
  import opened Types
  import MockData
  import Store
  import MealPlanning
  import InventoryStatus
  import Dashboard
  import Reports
  import Compliance
  import Rounding

  function MealKey(m: Meal): Id { m.id }

  /** Every seed plan's cached totals are the sum over its slots: 1400 kcal,
      95 g protein, 100 g carbs, 65 g fat for the first plan and 1100/31/180/24
      for the other two. */
  lemma SeedPlansConsistent(week0: string, week1: string)
    ensures MealPlanning.AllTotalsConsistent(MockData.MealPlans(week0, week1))
  {
    var plans := MockData.MealPlans(week0, week1);
    assert MealPlanning.TotalsConsistent(plans[0]) by {
      SumOfFour(plans[0].meals);
    }
    assert MealPlanning.TotalsConsistent(plans[1]) by {
      SumOfFour(plans[1].meals);
    }
    assert MealPlanning.TotalsConsistent(plans[2]) by {
      SumOfFour(plans[2].meals);
    }
  }

  /** The present meals of a plan with all three main slots and one snack. */
  lemma SumOfFour(m: PlanMeals)
    requires m.breakfast.Some? && m.lunch.Some? && m.dinner.Some? && |m.snacks| == 1
    ensures MealPlanning.SumMacros(MealPlanning.PresentMeals(m))
            == Plus(m.breakfast.value.MacrosOf(), Plus(m.lunch.value.MacrosOf(),
                 Plus(m.dinner.value.MacrosOf(), Plus(m.snacks[0].MacrosOf(), ZeroMacros))))
  {
    var ms := MealPlanning.PresentMeals(m);
    var s3 := [m.snacks[0]];
    var s2 := [m.dinner.value] + s3;
    var s1 := [m.lunch.value] + s2;
    assert ms == [m.breakfast.value] + s1;
    assert s3[1..] == [] && s2[1..] == s3 && s1[1..] == s2 && ms[1..] == s1;
    assert MealPlanning.SumMacros(s3) == Plus(m.snacks[0].MacrosOf(), ZeroMacros);
    assert MealPlanning.SumMacros(s2) == Plus(m.dinner.value.MacrosOf(), MealPlanning.SumMacros(s3));
    assert MealPlanning.SumMacros(s1) == Plus(m.lunch.value.MacrosOf(), MealPlanning.SumMacros(s2));
  }

  /** Every meal in a seed plan's slot has that slot's type. */
  lemma SeedSlotTypes(week0: string, week1: string)
    ensures var plans := MockData.MealPlans(week0, week1);
            forall i :: 0 <= i < |plans| ==>
              plans[i].meals.breakfast.Some? && plans[i].meals.breakfast.value.mealType == Breakfast
              && plans[i].meals.lunch.Some? && plans[i].meals.lunch.value.mealType == Lunch
              && plans[i].meals.dinner.Some? && plans[i].meals.dinner.value.mealType == Dinner
              && forall k :: 0 <= k < |plans[i].meals.snacks| ==>
                   plans[i].meals.snacks[k].mealType == Snack
  {
  }

  /** The seed plans have one plan per (patient, date) when the two week
      dates differ. */
  lemma SeedOnePlanPerDay(week0: string, week1: string)
    requires week0 != week1
    ensures MealPlanning.OnePlanPerDay(MockData.MealPlans(week0, week1))
  {
  }

  /** Seed patient, plan and inventory ids are pairwise distinct. */
  lemma SeedIdsDistinct(week0: string, week1: string, loaded: int)
    ensures Store.UniqueIds(MockData.Patients(), PatientKey)
    ensures Store.UniqueIds(MockData.MealPlans(week0, week1), PlanKey)
    ensures Store.UniqueIds(MockData.InventoryItems(loaded), ItemKey)
  {
    SeedItemIdsDistinct(loaded);
  }

  /** The seed items carry the ids "1" to "7", whatever the clock. */
  lemma SeedItemIdsDistinct(loaded: int)
    ensures Store.UniqueIds(MockData.InventoryItems(loaded), ItemKey)
  {
    var items := MockData.InventoryItems(loaded);
    assert forall i :: 0 <= i < |items| ==> items[i].id == ["1234567"[i]];
  }

  /** Seed meal ids are unique and seed macros are non-negative. */
  lemma SeedMealsWellFormed()
    ensures Store.UniqueIds(MockData.Meals(), MealKey)
    ensures forall i :: 0 <= i < |MockData.Meals()| ==>
              var m := MockData.Meals()[i];
              m.calories >= 0 && m.protein >= 0 && m.carbs >= 0 && m.fat >= 0
  {
  }

  /** The seed plans serve twelve meals. */
  lemma SeedMealsServed(week0: string, week1: string)
    ensures Reports.MealsServed(MockData.MealPlans(week0, week1)) == 12
  {
    var plans := MockData.MealPlans(week0, week1);
    assert plans[1..][1..][1..] == [];
    assert Reports.MealsServed(plans[1..][1..]) == 4;
    assert Reports.MealsServed(plans[1..]) == 8;
  }

  /** The seed series is 98 percent calorie-compliant and 97 percent
      protein-compliant. */
  lemma SeedCompliance()
    ensures Compliance.SumOf(MockData.NutritionData(), Compliance.CalorieTargetOf) == 40000
    ensures Compliance.SumOf(MockData.NutritionData(), Compliance.ProteinTargetOf) == 1400
    ensures Compliance.CalorieCompliance(MockData.NutritionData()) == 98
    ensures Compliance.ProteinCompliance(MockData.NutritionData()) == 97
  {
    var d := MockData.NutritionData();
    assert d[1..][1..][1..][1..] == [];
    assert Compliance.SumOf(d, Compliance.CalorieActualOf) == 39300;
    assert Compliance.SumOf(d, Compliance.ProteinActualOf) == 1360;
    Rounding.RoundedPercentUnique(Compliance.CalorieCompliance(d), 98, 39300, 40000);
    Rounding.RoundedPercentUnique(Compliance.ProteinCompliance(d), 97, 1360, 1400);
  }

  /** The nine restrictions of the seed patients, in first-occurrence order. */
  const SeedRestrictions: seq<string> := [
    "Gluten-Free", "Low Sodium", "Diabetic", "Vegetarian", "Pureed", "Low Cholesterol",
    "Kosher", "Low Carb", "Renal Diet"]

  /** The flattened restriction lists of the seed patients. */
  lemma SeedAllRestrictions()
    ensures Reports.AllRestrictions(MockData.Patients()) == SeedRestrictions
  {
    var ps := MockData.Patients();
    assert ps[1..][1..][1..][1..][1..] == [];
    assert Reports.AllRestrictions(ps[1..][1..][1..][1..]) == ["Renal Diet"];
    assert Reports.AllRestrictions(ps[1..][1..][1..]) == ["Kosher", "Low Carb", "Renal Diet"];
    assert Reports.AllRestrictions(ps[1..][1..])
           == ["Pureed", "Low Cholesterol", "Kosher", "Low Carb", "Renal Diet"];
    assert Reports.AllRestrictions(ps[1..])
           == ["Diabetic", "Vegetarian", "Pureed", "Low Cholesterol", "Kosher", "Low Carb", "Renal Diet"];
  }

  /** The seed patients list nine distinct restrictions. */
  lemma SeedRestrictionList()
    ensures Reports.RestrictionList(MockData.Patients()) == SeedRestrictions
  {
    SeedAllRestrictions();
    SeedRestrictionsDistinct();
    DistinctOfNoDup(SeedRestrictions);
  }

  lemma SeedRestrictionsDistinct()
    ensures NoDup(SeedRestrictions)
  {
  }

  /** Each seed restriction is listed by one patient of five, which is 20
      percent. */
  lemma SeedRestrictionRows()
    ensures var rows := Reports.RestrictionRows(MockData.Patients());
            |rows| == 9
            && forall i :: 0 <= i < |rows| ==> rows[i].count == 1 && rows[i].percentage == 20
  {
    var rows := Reports.RestrictionRows(MockData.Patients());
    SeedRestrictionList();
    forall i | 0 <= i < |rows|
      ensures rows[i].count == 1 && rows[i].percentage == 20
    {
      SeedRow(rows, i);
    }
  }

  lemma SeedRow(rows: seq<Reports.RestrictionRow>, i: nat)
    requires rows == Reports.RestrictionRows(MockData.Patients())
    requires Reports.RestrictionList(MockData.Patients()) == SeedRestrictions
    requires i < |rows|
    ensures rows[i].count == 1 && rows[i].percentage == 20
  {
    OnlyOnePatient(SeedRestrictions[i]);
    Rounding.RoundedPercentUnique(rows[i].percentage, 20, 1, 5);
  }

  /** Each seed restriction is listed by exactly one seed patient. */
  lemma OnlyOnePatient(r: string)
    requires r in SeedRestrictions
    ensures Count(MockData.Patients(), Reports.ListsRestriction(r)) == 1
  {
    var ps := MockData.Patients();
    var p := Reports.ListsRestriction(r);
    assert ps[1..][1..][1..][1..][1..] == [];
    assert Count(ps[1..][1..][1..][1..][1..], p) == 0;
  }

  // ---------------------------------------------------------------------
  // The seed inventory. The seed is built once, when the module loads, at
  // the clock reading `loaded`; the pages classify it at their own reading
  // `now`. `ElapsedDays` counts the UTC midnights between the two.
  // ---------------------------------------------------------------------

  function ElapsedDays(loaded: int, now: int): int {
    now / DAY - loaded / DAY
  }

  /** The days from expiring, at `now`, of an item built `k` days from
      `loaded`: `k` less the midnights passed since; it has expired once the
      count is negative, or zero past that midnight. */
  lemma DaysFromNowExact(loaded: int, now: int, k: int)
    ensures var d := ElapsedDays(loaded, now);
            InventoryStatus.CeilDays(MockData.DaysFromNow(loaded, k) - now) == k - d
            && (MockData.DaysFromNow(loaded, k) < now <==> k < d || (k == d && now % DAY != 0))
  {
  }

  /** Each seed item is the seed's number of days from expiring, less the
      midnights passed since the seed was built. */
  lemma SeedDaysAt(loaded: int, now: int)
    ensures var items := MockData.InventoryItems(loaded);
            var d := ElapsedDays(loaded, now);
            InventoryStatus.DaysUntilExpiration(items[0], now) == 5 - d
            && InventoryStatus.DaysUntilExpiration(items[1], now) == 3 - d
            && InventoryStatus.DaysUntilExpiration(items[2], now) == 2 - d
            && InventoryStatus.DaysUntilExpiration(items[3], now) == 6 - d
            && InventoryStatus.DaysUntilExpiration(items[4], now) == -1 - d
            && InventoryStatus.DaysUntilExpiration(items[5], now) == 60 - d
            && InventoryStatus.DaysUntilExpiration(items[6], now) == 1 - d
  {
    DaysFromNowExact(loaded, now, 5);
    DaysFromNowExact(loaded, now, 3);
    DaysFromNowExact(loaded, now, 2);
    DaysFromNowExact(loaded, now, 6);
    DaysFromNowExact(loaded, now, -1);
    DaysFromNowExact(loaded, now, 60);
    DaysFromNowExact(loaded, now, 1);
  }

  /** On the UTC day the seed was built, each seed item is as many days from
      expiring as the seed says, and only the salmon has expired. */
  lemma SeedDays(loaded: int, now: int)
    requires MidnightOf(now) == MidnightOf(loaded)
    ensures var items := MockData.InventoryItems(loaded);
            InventoryStatus.DaysUntilExpiration(items[0], now) == 5
            && InventoryStatus.DaysUntilExpiration(items[1], now) == 3
            && InventoryStatus.DaysUntilExpiration(items[2], now) == 2
            && InventoryStatus.DaysUntilExpiration(items[3], now) == 6
            && InventoryStatus.DaysUntilExpiration(items[4], now) == -1
            && InventoryStatus.DaysUntilExpiration(items[5], now) == 60
            && InventoryStatus.DaysUntilExpiration(items[6], now) == 1
            && InventoryStatus.IsExpired(items[4], now)
            && forall i :: 0 <= i < |items| && i != 4 ==> !InventoryStatus.IsExpired(items[i], now)
  {
    SameDay(loaded, now);
    SeedDaysAt(loaded, now);
    DaysFromNowExact(loaded, now, 5);
    DaysFromNowExact(loaded, now, 3);
    DaysFromNowExact(loaded, now, 2);
    DaysFromNowExact(loaded, now, 6);
    DaysFromNowExact(loaded, now, -1);
    DaysFromNowExact(loaded, now, 60);
    DaysFromNowExact(loaded, now, 1);
  }

  /** Two readings with the same UTC midnight are no midnight apart. */
  lemma SameDay(loaded: int, now: int)
    requires MidnightOf(now) == MidnightOf(loaded)
    ensures ElapsedDays(loaded, now) == 0
  {
  }

  function Ind(b: bool): nat { if b then 1 else 0 }

  /** A count over seven elements, element by element. */
  lemma CountOfSeven<T>(xs: seq<T>, p: T -> bool)
    requires |xs| == 7
    ensures Count(xs, p) == Ind(p(xs[0])) + Ind(p(xs[1])) + Ind(p(xs[2])) + Ind(p(xs[3]))
                            + Ind(p(xs[4])) + Ind(p(xs[5])) + Ind(p(xs[6]))
  {
    assert xs[6..][1..] == [];
    assert Count(xs[6..], p) == Ind(p(xs[6]));
    assert xs[5..][1..] == xs[6..];
    assert Count(xs[5..], p) == Ind(p(xs[5])) + Count(xs[6..], p);
    assert xs[4..][1..] == xs[5..];
    assert Count(xs[4..], p) == Ind(p(xs[4])) + Count(xs[5..], p);
    assert xs[3..][1..] == xs[4..];
    assert Count(xs[3..], p) == Ind(p(xs[3])) + Count(xs[4..], p);
    assert xs[2..][1..] == xs[3..];
    assert Count(xs[2..], p) == Ind(p(xs[2])) + Count(xs[3..], p);
    assert xs[1..][1..] == xs[2..];
    assert Count(xs[1..], p) == Ind(p(xs[1])) + Count(xs[2..], p);
    assert Count(xs, p) == Ind(p(xs[0])) + Count(xs[1..], p);
  }

  /** On the UTC day the seed was built, the seed inventory has one expired
      item. */
  lemma SeedExpiredCount(loaded: int, now: int)
    requires MidnightOf(now) == MidnightOf(loaded)
    ensures InventoryStatus.ExpiredCount(MockData.InventoryItems(loaded), now) == 1
  {
    SeedDays(loaded, now);
    CountOfSeven(MockData.InventoryItems(loaded), InventoryStatus.ExpiredAt(now));
  }

  /** On the UTC day the seed was built, five seed items expire within the
      week. */
  lemma SeedExpiringSoonCount(loaded: int, now: int)
    requires MidnightOf(now) == MidnightOf(loaded)
    ensures InventoryStatus.ExpiringSoonCount(MockData.InventoryItems(loaded), now) == 5
  {
    SeedDays(loaded, now);
    CountOfSeven(MockData.InventoryItems(loaded), InventoryStatus.FreshAndExpiringSoonAt(now));
  }

  /** The two day-dependent counters change across a midnight: viewed two
      hours after a seed built an hour before midnight, the fruit has
      expired too, so two items are expired and four expire soon. */
  lemma SeedCountsAcrossMidnight()
    ensures var loaded := DAY - 3600000;
            var now := loaded + 7200000;
            var items := MockData.InventoryItems(loaded);
            InventoryStatus.ExpiredCount(items, now) == 2
            && InventoryStatus.ExpiringSoonCount(items, now) == 4
  {
    var loaded := DAY - 3600000;
    var now := loaded + 7200000;
    var items := MockData.InventoryItems(loaded);
    assert ElapsedDays(loaded, now) == 1 && now % DAY == 3600000;
    SeedDaysAt(loaded, now);
    DaysFromNowExact(loaded, now, 5);
    DaysFromNowExact(loaded, now, 3);
    DaysFromNowExact(loaded, now, 2);
    DaysFromNowExact(loaded, now, 6);
    DaysFromNowExact(loaded, now, -1);
    DaysFromNowExact(loaded, now, 60);
    DaysFromNowExact(loaded, now, 1);
    CountOfSeven(items, InventoryStatus.ExpiredAt(now));
    CountOfSeven(items, InventoryStatus.FreshAndExpiringSoonAt(now));
  }

  /** Three seed items are below their minimum stock, whatever the clock. */
  lemma SeedLowStockCount(loaded: int)
    ensures InventoryStatus.LowStockCount(MockData.InventoryItems(loaded)) == 3
  {
    CountOfSeven(MockData.InventoryItems(loaded), InventoryStatus.LowStock());
  }

  /** The dashboard counts six seed alerts exactly from the UTC day before
      the seed was built until 53 days after it (when the oats come within
      the week); in that window it shows 6 alerts and 5 patients in place
      of the seed statistics' 3 alerts. */
  lemma SeedDashboard(loaded: int, now: int)
    ensures Dashboard.InventoryAlerts(MockData.InventoryItems(loaded), now) == 6
            <==> MidnightOf(loaded) - DAY <= now < MidnightOf(loaded) + 53 * DAY
    ensures MidnightOf(loaded) - DAY <= now < MidnightOf(loaded) + 53 * DAY ==>
              var st := Dashboard.UpdatedStats(MockData.Stats(), MockData.Patients(),
                                               MockData.InventoryItems(loaded), now);
              st.totalPatients == 5 && st.inventoryAlerts == 6
    ensures MockData.Stats().inventoryAlerts == 3
  {
    SeedDaysAt(loaded, now);
    CountOfSeven(MockData.InventoryItems(loaded), Dashboard.AlertAt(now));
    WindowInDays(loaded, now);
  }

  /** The dashboard's window, in midnights passed. */
  lemma WindowInDays(loaded: int, now: int)
    ensures MidnightOf(loaded) - DAY <= now < MidnightOf(loaded) + 53 * DAY
            <==> -1 <= ElapsedDays(loaded, now) < 53
  {
  }
}
