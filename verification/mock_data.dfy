/** The seed snapshot the store starts from (src/context/mockData.ts). */
module MockData {
  import opened Wrappers
  import opened Types

  function Patients(): seq<Patient> {
    [
      Patient("1", "John Smith", "101A", ["Gluten-Free", "Low Sodium"], ["Peanuts", "Shellfish"],
              Macros(2000, 75, 250, 65)),
      Patient("2", "Mary Johnson", "102B", ["Diabetic", "Vegetarian"], ["Dairy"],
              Macros(1800, 65, 200, 60)),
      Patient("3", "Robert Davis", "103C", ["Pureed", "Low Cholesterol"], ["Eggs", "Tree Nuts"],
              Macros(1600, 70, 180, 50)),
      Patient("4", "Patricia Wilson", "104D", ["Kosher", "Low Carb"], [],
              Macros(1900, 80, 150, 70)),
      Patient("5", "James Brown", "105E", ["Renal Diet"], ["Soy"],
              Macros(2200, 60, 280, 75))
    ]
  }

  function Meals(): seq<Meal> {
    [
      Meal("1", "Scrambled Eggs with Toast", Breakfast, 350, 15, 30, 20,
           ["Eggs", "Milk", "Butter", "Whole Wheat Bread"], ["High Protein"]),
      Meal("2", "Oatmeal with Berries", Breakfast, 280, 8, 45, 6,
           ["Oats", "Milk", "Mixed Berries", "Honey"], ["Heart Healthy", "High Fiber"]),
      Meal("3", "Grilled Chicken Salad", Lunch, 400, 35, 20, 15,
           ["Chicken Breast", "Mixed Greens", "Tomatoes", "Cucumber", "Olive Oil"],
           ["High Protein", "Low Carb"]),
      Meal("4", "Vegetable Soup with Roll", Lunch, 320, 10, 45, 8,
           ["Vegetable Broth", "Carrots", "Celery", "Onions", "Whole Grain Roll"],
           ["Vegetarian", "Low Fat"]),
      Meal("5", "Baked Salmon with Roasted Vegetables", Dinner, 450, 30, 25, 25,
           ["Salmon Fillet", "Broccoli", "Carrots", "Olive Oil", "Herbs"],
           ["Heart Healthy", "High Protein"]),
      Meal("6", "Pasta Primavera", Dinner, 380, 12, 60, 10,
           ["Whole Wheat Pasta", "Mixed Vegetables", "Olive Oil", "Parmesan"], ["Vegetarian"]),
      Meal("7", "Greek Yogurt with Granola", Snack, 200, 15, 25, 5,
           ["Greek Yogurt", "Granola", "Honey"], ["High Protein"]),
      Meal("8", "Fresh Fruit Cup", Snack, 120, 1, 30, 0,
           ["Apple", "Orange", "Grapes", "Melon"], ["Vegan", "Low Fat"])
    ]
  }

  /** The three seed plans; `week0` and `week1` are the first two dates of
      the current week. */
  function MealPlans(week0: string, week1: string): seq<MealPlan> {
    [
      MealPlan("mp1", "1", week0,
               PlanMeals(Some(Meals()[0]), Some(Meals()[2]), Some(Meals()[4]), [Meals()[6]]),
               Macros(1400, 95, 100, 65)),
      MealPlan("mp2", "1", week1,
               PlanMeals(Some(Meals()[1]), Some(Meals()[3]), Some(Meals()[5]), [Meals()[7]]),
               Macros(1100, 31, 180, 24)),
      MealPlan("mp3", "2", week0,
               PlanMeals(Some(Meals()[1]), Some(Meals()[3]), Some(Meals()[5]), [Meals()[7]]),
               Macros(1100, 31, 180, 24))
    ]
  }

  /** The expiration date `days` days from `loaded`, truncated to its date. */
  function DaysFromNow(loaded: int, days: int): int {
    MidnightOf(loaded + days * DAY)
  }

  /** The seed inventory, built once at the clock reading `loaded` when the
      module loads; costs are in cents. */
  function InventoryItems(loaded: int): seq<InventoryItem> {
    [
      InventoryItem("1", "Chicken Breast", "Protein", 25, "lbs", DaysFromNow(loaded, 5),
                    "Freezer 1", 20, 399),
      InventoryItem("2", "Whole Wheat Bread", "Grains", 15, "loaves", DaysFromNow(loaded, 3),
                    "Pantry A", 10, 249),
      InventoryItem("3", "Mixed Vegetables", "Produce", 8, "lbs", DaysFromNow(loaded, 2),
                    "Refrigerator 2", 15, 199),
      InventoryItem("4", "Milk", "Dairy", 12, "gallons", DaysFromNow(loaded, 6),
                    "Refrigerator 1", 8, 329),
      InventoryItem("5", "Salmon Fillets", "Protein", 10, "lbs", DaysFromNow(loaded, -1),
                    "Freezer 2", 12, 899),
      InventoryItem("6", "Oats", "Grains", 30, "lbs", DaysFromNow(loaded, 60),
                    "Pantry B", 25, 179),
      InventoryItem("7", "Fresh Fruit", "Produce", 5, "lbs", DaysFromNow(loaded, 1),
                    "Refrigerator 2", 10, 299)
    ]
  }

  function NutritionData(): seq<NutritionPeriod> {
    [
      NutritionPeriod("Week 1", 10000, 9500, 350, 320, 1200, 1150, 300, 290),
      NutritionPeriod("Week 2", 10000, 9800, 350, 340, 1200, 1180, 300, 295),
      NutritionPeriod("Week 3", 10000, 9900, 350, 345, 1200, 1190, 300, 298),
      NutritionPeriod("Week 4", 10000, 10100, 350, 355, 1200, 1210, 300, 305)
    ]
  }

  function Stats(): DashboardStats {
    DashboardStats(5, 42, 94, 3, 4.2)
  }
}
