/** The compliance figures of the nutrition chart
    (src/components/dashboard/NutritionComplianceChart.tsx): the rounded
    percentage of the summed actual values over the summed targets. */
module Compliance {
  import opened Types
  import opened Rounding

  /** The sum of one field over the periods. */
  function SumOf(data: seq<NutritionPeriod>, f: NutritionPeriod -> int): int {
    if |data| == 0 then 0 else f(data[0]) + SumOf(data[1..], f)
  }

  function CalorieTargetOf(n: NutritionPeriod): int { n.calorieTarget }
  function CalorieActualOf(n: NutritionPeriod): int { n.calorieActual }
  function ProteinTargetOf(n: NutritionPeriod): int { n.proteinTarget }
  function ProteinActualOf(n: NutritionPeriod): int { n.proteinActual }

  /** `Math.round(Σactual / Σtarget * 100)`. The source does not guard a
      zero target sum; here it is a precondition. */
  function ComplianceOf(data: seq<NutritionPeriod>, actual: NutritionPeriod -> int,
                        target: NutritionPeriod -> int): (c: int)
    requires SumOf(data, target) > 0
    ensures IsRoundedPercent(c, SumOf(data, actual), SumOf(data, target))
  {
    RoundPercent(SumOf(data, actual), SumOf(data, target))
  }

  function CalorieCompliance(data: seq<NutritionPeriod>): (c: int)
    requires SumOf(data, CalorieTargetOf) > 0
    ensures IsRoundedPercent(c, SumOf(data, CalorieActualOf), SumOf(data, CalorieTargetOf))
  {
    ComplianceOf(data, CalorieActualOf, CalorieTargetOf)
  }

  function ProteinCompliance(data: seq<NutritionPeriod>): (c: int)
    requires SumOf(data, ProteinTargetOf) > 0
    ensures IsRoundedPercent(c, SumOf(data, ProteinActualOf), SumOf(data, ProteinTargetOf))
  {
    ComplianceOf(data, ProteinActualOf, ProteinTargetOf)
  }

  /** Meeting the targets exactly in total is 100 percent compliance. */
  lemma ComplianceOnTarget(data: seq<NutritionPeriod>, actual: NutritionPeriod -> int,
                           target: NutritionPeriod -> int)
    requires SumOf(data, target) > 0
    requires SumOf(data, actual) == SumOf(data, target)
    ensures ComplianceOf(data, actual, target) == 100
  {
    RoundPercentWhole(SumOf(data, target));
  }

  /** Sums respect a pointwise order. */
  lemma {:induction false} SumOfPointwise(d1: seq<NutritionPeriod>, d2: seq<NutritionPeriod>,
                                          f: NutritionPeriod -> int)
    requires |d1| == |d2|
    requires forall i :: 0 <= i < |d1| ==> f(d1[i]) <= f(d2[i])
    ensures SumOf(d1, f) <= SumOf(d2, f)
    ensures (forall i :: 0 <= i < |d1| ==> f(d1[i]) == f(d2[i])) ==> SumOf(d1, f) == SumOf(d2, f)
  {
    if |d1| > 0 {
      SumOfPointwise(d1[1..], d2[1..], f);
      assert forall j :: 0 <= j < |d1[1..]| ==> d1[1..][j] == d1[j + 1] && d2[1..][j] == d2[j + 1];
    }
  }

  /** With the targets fixed, raising actual values never lowers the
      compliance. */
  lemma ComplianceMonotone(d1: seq<NutritionPeriod>, d2: seq<NutritionPeriod>,
                           actual: NutritionPeriod -> int, target: NutritionPeriod -> int)
    requires |d1| == |d2|
    requires forall i :: 0 <= i < |d1| ==> target(d1[i]) == target(d2[i])
    requires forall i :: 0 <= i < |d1| ==> actual(d1[i]) <= actual(d2[i])
    requires SumOf(d1, target) > 0
    ensures SumOf(d2, target) > 0
            && ComplianceOf(d1, actual, target) <= ComplianceOf(d2, actual, target)
  {
    SumOfPointwise(d1, d2, target);
    SumOfPointwise(d1, d2, actual);
    RoundPercentMonotone(SumOf(d1, actual), SumOf(d2, actual), SumOf(d1, target));
  }
}
