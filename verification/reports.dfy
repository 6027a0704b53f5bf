/** The aggregates of the reports page (src/pages/Reports.tsx): inventory
    value, meals served, and the dietary-restriction distribution. Costs are
    integer cents. */
module Reports {
  import opened Wrappers
  import opened Seqs
  import opened Types
  import opened Rounding
  import MealPlanning

  // ---------------------------------------------------------------------
  // Inventory value.
  // ---------------------------------------------------------------------

  function ItemValue(item: InventoryItem): int {
    item.quantity * item.cost
  }

  /** The sum of quantity times unit cost over the items. */
  function InventoryValue(items: seq<InventoryItem>): int {
    if |items| == 0 then 0 else ItemValue(items[0]) + InventoryValue(items[1..])
  }

  /** The value of a concatenation is the sum of the values. */
  lemma {:induction false} InventoryValueAppend(a: seq<InventoryItem>, b: seq<InventoryItem>)
    ensures InventoryValue(a + b) == InventoryValue(a) + InventoryValue(b)
  {
    if |a| == 0 {
      assert a + b == b;
    } else {
      assert (a + b)[0] == a[0] && (a + b)[1..] == a[1..] + b;
      InventoryValueAppend(a[1..], b);
    }
  }

  /** The value of an empty inventory is 0, and with non-negative
      quantities and costs the value is never negative. */
  lemma {:induction false} InventoryValueNonNegative(items: seq<InventoryItem>)
    requires forall i :: 0 <= i < |items| ==> items[i].quantity >= 0 && items[i].cost >= 0
    ensures InventoryValue(items) >= 0
    ensures |items| == 0 ==> InventoryValue(items) == 0
  {
    if |items| > 0 {
      InventoryValueNonNegative(items[1..]);
    }
  }

  /** Replacing one item changes the value by the difference of the two
      items' values. */
  lemma {:induction false} InventoryValueWrite(items: seq<InventoryItem>, k: nat, e: InventoryItem)
    requires k < |items|
    ensures InventoryValue(items[k := e]) == InventoryValue(items) - ItemValue(items[k]) + ItemValue(e)
  {
    var front := items[..k];
    var back := items[k + 1..];
    assert items == front + ([items[k]] + back);
    assert items[k := e] == front + ([e] + back);
    InventoryValueAppend(front, [items[k]] + back);
    InventoryValueAppend(front, [e] + back);
    assert ([items[k]] + back)[1..] == back;
    assert ([e] + back)[1..] == back;
  }

  // ---------------------------------------------------------------------
  // Meals served.
  // ---------------------------------------------------------------------

  /** The meals one plan serves: one per present main slot, plus its snacks. */
  function PlanMealCount(mp: MealPlan): (n: nat)
    ensures n == |MealPlanning.PresentMeals(mp.meals)|
    ensures |mp.meals.snacks| <= n <= 3 + |mp.meals.snacks|
  {
    (if mp.meals.breakfast.Some? then 1 else 0)
    + (if mp.meals.lunch.Some? then 1 else 0)
    + (if mp.meals.dinner.Some? then 1 else 0)
    + |mp.meals.snacks|
  }

  function MealsServed(plans: seq<MealPlan>): nat {
    if |plans| == 0 then 0 else PlanMealCount(plans[0]) + MealsServed(plans[1..])
  }

  /** The meals-served total of a concatenation is the sum of the totals. */
  lemma {:induction false} MealsServedAppend(a: seq<MealPlan>, b: seq<MealPlan>)
    ensures MealsServed(a + b) == MealsServed(a) + MealsServed(b)
  {
    if |a| == 0 {
      assert a + b == b;
    } else {
      assert (a + b)[0] == a[0] && (a + b)[1..] == a[1..] + b;
      MealsServedAppend(a[1..], b);
    }
  }

  // ---------------------------------------------------------------------
  // Dietary restrictions.
  // ---------------------------------------------------------------------

  /** `patients.flatMap(p => p.dietaryRestrictions)`. */
  function AllRestrictions(patients: seq<Patient>): seq<string> {
    if |patients| == 0 then []
    else patients[0].dietaryRestrictions + AllRestrictions(patients[1..])
  }

  /** A restriction is listed by some patient exactly when it occurs in the
      flattened list. */
  lemma {:induction false} AllRestrictionsMembers(patients: seq<Patient>, x: string)
    ensures x in AllRestrictions(patients)
            <==> exists k :: 0 <= k < |patients| && x in patients[k].dietaryRestrictions
  {
    if |patients| > 0 {
      AllRestrictionsMembers(patients[1..], x);
      if x in AllRestrictions(patients[1..]) {
        var k :| 0 <= k < |patients[1..]| && x in patients[1..][k].dietaryRestrictions;
        assert patients[k + 1] == patients[1..][k];
      }
      if exists k :: 0 <= k < |patients| && x in patients[k].dietaryRestrictions {
        var k :| 0 <= k < |patients| && x in patients[k].dietaryRestrictions;
        if k > 0 {
          assert patients[1..][k - 1] == patients[k];
        }
      }
    }
  }

  /** `Array.from(new Set(...))`: each restriction once, in first-occurrence
      order. */
  function RestrictionList(patients: seq<Patient>): (rs: seq<string>)
    ensures NoDup(rs)
    ensures forall i :: 0 <= i < |rs| ==> rs[i] in AllRestrictions(patients)
    ensures forall i :: 0 <= i < |AllRestrictions(patients)| ==> AllRestrictions(patients)[i] in rs
  {
    Distinct(AllRestrictions(patients))
  }

  function ListsRestriction(r: string): Patient -> bool {
    (p: Patient) => r in p.dietaryRestrictions
  }

  /** The number of patients listing `r` (not the number of occurrences). */
  function RestrictionCount(patients: seq<Patient>, r: string): (n: nat)
    ensures n == |Filter(patients, ListsRestriction(r))| && n <= |patients|
  {
    Count(patients, ListsRestriction(r))
  }

  /** A restriction listed somewhere is listed by between one and all of
      the patients. */
  lemma RestrictionCountBounds(patients: seq<Patient>, r: string)
    requires r in AllRestrictions(patients)
    ensures 1 <= RestrictionCount(patients, r) <= |patients|
  {
    AllRestrictionsMembers(patients, r);
    var k :| 0 <= k < |patients| && r in patients[k].dietaryRestrictions;
    CountAtLeastOne(patients, ListsRestriction(r), k);
  }

  lemma {:induction false} CountAtLeastOne<T>(xs: seq<T>, p: T -> bool, k: nat)
    requires k < |xs| && p(xs[k])
    ensures Count(xs, p) >= 1
  {
    if k > 0 {
      CountAtLeastOne(xs[1..], p, k - 1);
    }
  }

  /** One line of the restriction card. */
  datatype RestrictionRow = RestrictionRow(restriction: string, count: nat, percentage: int)

  function RowFor(patients: seq<Patient>, r: string): (row: RestrictionRow)
    requires |patients| > 0
    ensures row.restriction == r && row.count == RestrictionCount(patients, r)
    ensures IsRoundedPercent(row.percentage, row.count, |patients|)
  {
    var count := RestrictionCount(patients, r);
    RestrictionRow(r, count, RoundPercent(count, |patients|))
  }

  /** A listed restriction implies there is a patient: without patients the
      restriction list is empty, so the percentage never divides by zero. */
  lemma RestrictionsNeedPatients(patients: seq<Patient>)
    ensures |RestrictionList(patients)| > 0 ==> |patients| > 0
  {
    if |RestrictionList(patients)| > 0 {
      AllRestrictionsMembers(patients, RestrictionList(patients)[0]);
    }
  }

  /** The rows of the restriction card, one per distinct restriction. The
      percentage divides by the number of patients, which is positive
      whenever there is a row. */
  function RestrictionRows(patients: seq<Patient>): (rows: seq<RestrictionRow>)
    ensures |rows| == |RestrictionList(patients)|
    ensures forall i :: 0 <= i < |rows| ==>
              |patients| > 0 && rows[i] == RowFor(patients, RestrictionList(patients)[i])
  {
    var rs := RestrictionList(patients);
    RestrictionsNeedPatients(patients);
    seq(|rs|, i requires 0 <= i < |rs| => RowFor(patients, rs[i]))
  }

  /** Each row counts between one and all patients, and its percentage is
      the rounded share of patients, between 0 and 100. */
  lemma RestrictionRowsBounds(patients: seq<Patient>)
    ensures var rows := RestrictionRows(patients);
            forall i :: 0 <= i < |rows| ==>
              1 <= rows[i].count <= |patients|
              && IsRoundedPercent(rows[i].percentage, rows[i].count, |patients|)
              && 0 <= rows[i].percentage <= 100
  {
    var rows := RestrictionRows(patients);
    var rs := RestrictionList(patients);
    forall i | 0 <= i < |rows|
      ensures 1 <= rows[i].count <= |patients|
      ensures IsRoundedPercent(rows[i].percentage, rows[i].count, |patients|)
      ensures 0 <= rows[i].percentage <= 100
    {
      RestrictionCountBounds(patients, rs[i]);
      RoundPercentBounds(rows[i].count, |patients|);
    }
  }
}
