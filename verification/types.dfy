/** The records of the dashboard: patients, meals, day plans, inventory items,
    the weekly nutrition series and the dashboard statistics. */
module Types {
  import opened Wrappers

  type Id = string

  /** Milliseconds in a day (`1000 * 60 * 60 * 24`). */
  const DAY: int := 86400000

  /** The timestamp of the UTC midnight that starts the day containing `t`:
      what `new Date(new Date(t).toISOString().split("T")[0])` yields. */
  function MidnightOf(t: int): int {
    (t / DAY) * DAY
  }

  /** The four meal kinds; also the four slots of a day plan. */
  datatype MealType = Breakfast | Lunch | Dinner | Snack

  /** Calories, protein, carbs and fat: a meal's macros, a plan's
      `nutritionTotals` and a patient's `nutritionalRequirements`. */
  datatype Macros = Macros(calories: int, protein: int, carbs: int, fat: int)

  const ZeroMacros := Macros(0, 0, 0, 0)

  function Plus(a: Macros, b: Macros): Macros {
    Macros(a.calories + b.calories, a.protein + b.protein, a.carbs + b.carbs, a.fat + b.fat)
  }

  /** A catalog meal. The display-only `image` field is not modelled. */
  datatype Meal = Meal(
    id: Id,
    name: string,
    mealType: MealType,
    calories: int,
    protein: int,
    carbs: int,
    fat: int,
    ingredients: seq<string>,
    dietaryTags: seq<string>)
  {
    function MacrosOf(): Macros {
      Macros(calories, protein, carbs, fat)
    }
  }

  /** The slots of one day: breakfast, lunch and dinner hold at most one
      meal each, snacks hold a list. */
  datatype PlanMeals = PlanMeals(
    breakfast: Option<Meal>,
    lunch: Option<Meal>,
    dinner: Option<Meal>,
    snacks: seq<Meal>)

  const EmptyMeals := PlanMeals(None, None, None, [])

  /** A patient's plan for one date; `nutritionTotals` is a cached sum. */
  datatype MealPlan = MealPlan(
    id: Id,
    patientId: Id,
    date: string,
    meals: PlanMeals,
    nutritionTotals: Macros)

  datatype Patient = Patient(
    id: Id,
    name: string,
    room: string,
    dietaryRestrictions: seq<string>,
    allergies: seq<string>,
    nutritionalRequirements: Macros)

  /** A stock item. `expirationDate` is the millisecond timestamp the date
      string parses to; `cost` is in cents. */
  datatype InventoryItem = InventoryItem(
    id: Id,
    name: string,
    category: string,
    quantity: int,
    unit: string,
    expirationDate: int,
    location: string,
    minimumStock: int,
    cost: int)

  /** One period of the nutrition-compliance series. */
  datatype NutritionPeriod = NutritionPeriod(
    period: string,
    calorieTarget: int,
    calorieActual: int,
    proteinTarget: int,
    proteinActual: int,
    carbsTarget: int,
    carbsActual: int,
    fatTarget: int,
    fatActual: int)

  datatype DashboardStats = DashboardStats(
    totalPatients: int,
    mealsServedToday: int,
    dietaryCompliance: int,
    inventoryAlerts: int,
    patientSatisfaction: real)

  // Key functions handed to the generic store operations.
  function PatientKey(p: Patient): Id { p.id }
  function PlanKey(mp: MealPlan): Id { mp.id }
  function ItemKey(item: InventoryItem): Id { item.id }

  /** The plan lookup used by both the planner page and the calendar:
      the plan belongs to `patientId` and is for `date`. */
  function IsPlanFor(patientId: Id, date: string): MealPlan -> bool {
    (mp: MealPlan) => mp.patientId == patientId && mp.date == date
  }

  /** The per-patient plan filter. */
  function IsPlanOf(patientId: Id): MealPlan -> bool {
    (mp: MealPlan) => mp.patientId == patientId
  }
}
