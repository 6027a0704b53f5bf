/** The in-memory domain store (src/context/AppContext.tsx).

    Every collection supports the same three edits: add appends, update
    replaces every element whose id matches, delete filters out every element
    with that id. An unknown id makes update and delete silent no-ops. The
    edits are written once, generically over the element type and its key
    function, and instantiated for patients, meal plans and inventory items. */
module Store {
  import opened Wrappers
  import opened Seqs
  import opened Types
  import MockData

  /** No two elements share an id. */
  ghost predicate UniqueIds<T>(xs: seq<T>, idOf: T -> Id) {
    forall i, j :: 0 <= i < j < |xs| ==> idOf(xs[i]) != idOf(xs[j])
  }

  /** Some element carries `id`. */
  ghost predicate HasId<T>(xs: seq<T>, id: Id, idOf: T -> Id) {
    exists i :: 0 <= i < |xs| && idOf(xs[i]) == id
  }

  function IdIs<T>(id: Id, idOf: T -> Id): T -> bool {
    (x: T) => idOf(x) == id
  }

  function IdIsNot<T>(id: Id, idOf: T -> Id): T -> bool {
    (x: T) => idOf(x) != id
  }

  /** `[...xs, e]`. */
  function Add<T>(xs: seq<T>, e: T): (r: seq<T>)
    ensures |r| == |xs| + 1
    ensures r[..|xs|] == xs
    ensures r[|xs|] == e
  {
    xs + [e]
  }

  /** `xs.map(x => x.id === e.id ? e : x)`. */
  function Update<T>(xs: seq<T>, e: T, idOf: T -> Id): (r: seq<T>)
    ensures |r| == |xs|
    ensures forall i :: 0 <= i < |xs| && idOf(xs[i]) == idOf(e) ==> r[i] == e
    ensures forall i :: 0 <= i < |xs| && idOf(xs[i]) != idOf(e) ==> r[i] == xs[i]
  {
    if |xs| == 0 then []
    else [if idOf(xs[0]) == idOf(e) then e else xs[0]] + Update(xs[1..], e, idOf)
  }

  /** `xs.filter(x => x.id !== id)`. */
  function Delete<T>(xs: seq<T>, id: Id, idOf: T -> Id): (r: seq<T>)
    ensures forall i :: 0 <= i < |r| ==> idOf(r[i]) != id
    ensures forall i :: 0 <= i < |xs| && idOf(xs[i]) != id ==> xs[i] in r
    ensures IsSubseq(r, xs)
    ensures |r| == |xs| - Count(xs, IdIs(id, idOf))
  {
    CountComplement(xs, IdIs(id, idOf), IdIsNot(id, idOf));
    Filter(xs, IdIsNot(id, idOf))
  }

  // ---------------------------------------------------------------------
  // Properties of the generic edits.
  // ---------------------------------------------------------------------

  /** Update never changes an element's id. */
  lemma UpdateKeepsIds<T>(xs: seq<T>, e: T, idOf: T -> Id)
    ensures forall i :: 0 <= i < |xs| ==> idOf(Update(xs, e, idOf)[i]) == idOf(xs[i])
  {
  }

  /** Updating an id that is not present changes nothing. */
  lemma UpdateAbsentIsNoOp<T>(xs: seq<T>, e: T, idOf: T -> Id)
    requires !HasId(xs, idOf(e), idOf)
    ensures Update(xs, e, idOf) == xs
  {
  }

  /** Applying the same update twice is the same as applying it once. */
  lemma UpdateIdempotent<T>(xs: seq<T>, e: T, idOf: T -> Id)
    ensures Update(Update(xs, e, idOf), e, idOf) == Update(xs, e, idOf)
  {
  }

  /** With unique ids an update overwrites exactly the one matching slot. */
  lemma UpdateUniqueIsWrite<T>(xs: seq<T>, k: nat, e: T, idOf: T -> Id)
    requires UniqueIds(xs, idOf)
    requires k < |xs| && idOf(xs[k]) == idOf(e)
    ensures Update(xs, e, idOf) == xs[k := e]
  {
  }

  /** Update keeps ids unique. */
  lemma UpdateKeepsUnique<T>(xs: seq<T>, e: T, idOf: T -> Id)
    requires UniqueIds(xs, idOf)
    ensures UniqueIds(Update(xs, e, idOf), idOf)
  {
    UpdateKeepsIds(xs, e, idOf);
  }

  /** Deleting an id that is not present changes nothing. */
  lemma DeleteAbsentIsNoOp<T>(xs: seq<T>, id: Id, idOf: T -> Id)
    requires !HasId(xs, id, idOf)
    ensures Delete(xs, id, idOf) == xs
  {
    FilterKeepsAll(xs, IdIsNot(id, idOf));
  }

  /** A subsequence of an id-unique sequence is id-unique. */
  lemma {:induction false} SubseqKeepsUnique<T>(a: seq<T>, b: seq<T>, idOf: T -> Id)
    requires IsSubseq(a, b)
    requires UniqueIds(b, idOf)
    ensures UniqueIds(a, idOf)
    decreases |b|
  {
    if |b| > 0 {
      assert UniqueIds(b[1..], idOf);
      if |a| > 0 && a[0] == b[0] && IsSubseq(a[1..], b[1..]) {
        SubseqKeepsUnique(a[1..], b[1..], idOf);
        SubseqMembers(a[1..], b[1..]);
        forall j | 1 <= j < |a|
          ensures idOf(a[0]) != idOf(a[j])
        {
          assert a[j] == a[1..][j - 1];
          var k :| 0 <= k < |b[1..]| && b[1..][k] == a[j];
          assert b[k + 1] == a[j];
        }
        forall i, j | 0 <= i < j < |a|
          ensures idOf(a[i]) != idOf(a[j])
        {
          if i > 0 {
            assert a[i] == a[1..][i - 1] && a[j] == a[1..][j - 1];
          }
        }
      } else {
        SubseqKeepsUnique(a, b[1..], idOf);
      }
    }
  }

  /** Delete keeps ids unique. */
  lemma DeleteKeepsUnique<T>(xs: seq<T>, id: Id, idOf: T -> Id)
    requires UniqueIds(xs, idOf)
    ensures UniqueIds(Delete(xs, id, idOf), idOf)
  {
    SubseqKeepsUnique(Delete(xs, id, idOf), xs, idOf);
  }

  /** Adding an element with a fresh id keeps ids unique. */
  lemma AddFreshKeepsUnique<T>(xs: seq<T>, e: T, idOf: T -> Id)
    requires UniqueIds(xs, idOf)
    requires !HasId(xs, idOf(e), idOf)
    ensures UniqueIds(Add(xs, e), idOf)
  {
  }

  // ---------------------------------------------------------------------
  // The application state and its nine edit operations.
  // ---------------------------------------------------------------------

  datatype AppState = AppState(
    patients: seq<Patient>,
    meals: seq<Meal>,
    mealPlans: seq<MealPlan>,
    inventoryItems: seq<InventoryItem>,
    nutritionData: seq<NutritionPeriod>,
    dashboardStats: DashboardStats,
    selectedPatientId: Option<Id>)

  /** The state at start-up: the seed collections and no selected patient.
      The seed plan dates and expiration dates depend on the clock, so the
      week's first two dates and the reading `loaded` at which the seed was
      built are parameters. */
  function InitialState(week0: string, week1: string, loaded: int): (s: AppState)
    ensures s.selectedPatientId == None
    ensures s.patients == MockData.Patients() && s.meals == MockData.Meals()
    ensures s.mealPlans == MockData.MealPlans(week0, week1)
    ensures s.inventoryItems == MockData.InventoryItems(loaded)
    ensures s.nutritionData == MockData.NutritionData() && s.dashboardStats == MockData.Stats()
  {
    AppState(
      MockData.Patients(), MockData.Meals(), MockData.MealPlans(week0, week1),
      MockData.InventoryItems(loaded), MockData.NutritionData(), MockData.Stats(), None)
  }

  /** The collections other than patients, the chart data, the statistics and
      the selection are untouched. */
  ghost predicate SameExceptPatients(s: AppState, s': AppState) {
    s'.meals == s.meals && s'.mealPlans == s.mealPlans
    && s'.inventoryItems == s.inventoryItems && s'.selectedPatientId == s.selectedPatientId
    && s'.nutritionData == s.nutritionData && s'.dashboardStats == s.dashboardStats
  }

  ghost predicate SameExceptPlans(s: AppState, s': AppState) {
    s'.patients == s.patients && s'.meals == s.meals
    && s'.inventoryItems == s.inventoryItems && s'.selectedPatientId == s.selectedPatientId
    && s'.nutritionData == s.nutritionData && s'.dashboardStats == s.dashboardStats
  }

  ghost predicate SameExceptItems(s: AppState, s': AppState) {
    s'.patients == s.patients && s'.meals == s.meals
    && s'.mealPlans == s.mealPlans && s'.selectedPatientId == s.selectedPatientId
    && s'.nutritionData == s.nutritionData && s'.dashboardStats == s.dashboardStats
  }

  function AddPatient(s: AppState, p: Patient): (s': AppState)
    ensures s'.patients == Add(s.patients, p) && SameExceptPatients(s, s')
  {
    s.(patients := s.patients + [p])
  }

  function UpdatePatient(s: AppState, p: Patient): (s': AppState)
    ensures s'.patients == Update(s.patients, p, PatientKey) && SameExceptPatients(s, s')
    ensures |s'.patients| == |s.patients|
  {
    s.(patients := Update(s.patients, p, PatientKey))
  }

  function DeletePatient(s: AppState, id: Id): (s': AppState)
    ensures s'.patients == Delete(s.patients, id, PatientKey) && SameExceptPatients(s, s')
    ensures forall i :: 0 <= i < |s'.patients| ==> s'.patients[i].id != id
  {
    s.(patients := Delete(s.patients, id, PatientKey))
  }

  function AddMealPlan(s: AppState, mp: MealPlan): (s': AppState)
    ensures s'.mealPlans == Add(s.mealPlans, mp) && SameExceptPlans(s, s')
  {
    s.(mealPlans := s.mealPlans + [mp])
  }

  function UpdateMealPlan(s: AppState, mp: MealPlan): (s': AppState)
    ensures s'.mealPlans == Update(s.mealPlans, mp, PlanKey) && SameExceptPlans(s, s')
    ensures |s'.mealPlans| == |s.mealPlans|
  {
    s.(mealPlans := Update(s.mealPlans, mp, PlanKey))
  }

  function DeleteMealPlan(s: AppState, id: Id): (s': AppState)
    ensures s'.mealPlans == Delete(s.mealPlans, id, PlanKey) && SameExceptPlans(s, s')
    ensures forall i :: 0 <= i < |s'.mealPlans| ==> s'.mealPlans[i].id != id
  {
    s.(mealPlans := Delete(s.mealPlans, id, PlanKey))
  }

  function AddInventoryItem(s: AppState, item: InventoryItem): (s': AppState)
    ensures s'.inventoryItems == Add(s.inventoryItems, item) && SameExceptItems(s, s')
  {
    s.(inventoryItems := s.inventoryItems + [item])
  }

  function UpdateInventoryItem(s: AppState, item: InventoryItem): (s': AppState)
    ensures s'.inventoryItems == Update(s.inventoryItems, item, ItemKey) && SameExceptItems(s, s')
    ensures |s'.inventoryItems| == |s.inventoryItems|
  {
    s.(inventoryItems := Update(s.inventoryItems, item, ItemKey))
  }

  function DeleteInventoryItem(s: AppState, id: Id): (s': AppState)
    ensures s'.inventoryItems == Delete(s.inventoryItems, id, ItemKey) && SameExceptItems(s, s')
    ensures forall i :: 0 <= i < |s'.inventoryItems| ==> s'.inventoryItems[i].id != id
  {
    s.(inventoryItems := Delete(s.inventoryItems, id, ItemKey))
  }
}
