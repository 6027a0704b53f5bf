/** The dashboard's inventory-alert count and statistics merge
    (src/pages/Dashboard.tsx). */
module Dashboard {
  import opened Seqs
  import opened Types
  import opened InventoryStatus

  /** An item raises an alert when it expires within seven days (counting
      already expired items) or is below its minimum stock. */
  predicate IsAlert(item: InventoryItem, now: int) {
    DaysUntilExpiration(item, now) <= 7 || item.quantity < item.minimumStock
  }

  function AlertAt(now: int): InventoryItem -> bool {
    (item: InventoryItem) => IsAlert(item, now)
  }

  /** The length of the filtered alert list. */
  function InventoryAlerts(items: seq<InventoryItem>, now: int): (n: nat)
    ensures n == |Filter(items, AlertAt(now))| && n <= |items|
  {
    Count(items, AlertAt(now))
  }

  /** The alert rule in terms of time: at most seven days remain (or the date
      has passed), or the item is low on stock. */
  lemma AlertWindow(item: InventoryItem, now: int)
    ensures IsAlert(item, now) <==> item.expirationDate - now <= 7 * DAY || IsLowStock(item)
  {
  }

  /** Every item the inventory table flags is counted as an alert. */
  lemma FlaggedItemsAreAlerts(item: InventoryItem, now: int)
    requires IsExpired(item, now) || IsExpiringSoon(item, now) || IsLowStock(item)
    ensures IsAlert(item, now)
  {
  }

  /** The alert count lies between the low-stock count and the number of
      items, and covers the expired and expiring-soon counts together. */
  lemma AlertCountBounds(items: seq<InventoryItem>, now: int)
    ensures LowStockCount(items) <= InventoryAlerts(items, now) <= |items|
    ensures ExpiredCount(items, now) + ExpiringSoonCount(items, now) <= InventoryAlerts(items, now)
  {
    CountMonotone(items, LowStock(), AlertAt(now));
    var flagged := (item: InventoryItem) => IsExpired(item, now) || IsExpiringSoon(item, now);
    CountSplit(items, ExpiredAt(now), FreshAndExpiringSoonAt(now), flagged);
    CountMonotone(items, flagged, AlertAt(now));
  }

  /** Counting by `r` adds the counts of two disjoint predicates that together
      make up `r`. */
  lemma {:induction false} CountSplit(items: seq<InventoryItem>, p: InventoryItem -> bool,
                                      q: InventoryItem -> bool, r: InventoryItem -> bool)
    requires forall i :: 0 <= i < |items| ==> !(p(items[i]) && q(items[i]))
    requires forall i :: 0 <= i < |items| ==> r(items[i]) == (p(items[i]) || q(items[i]))
    ensures Count(items, p) + Count(items, q) == Count(items, r)
  {
    if |items| > 0 {
      CountSplit(items[1..], p, q, r);
    }
  }

  /** The stats shown on the dashboard: the seed stats with the live patient
      count and the live alert count. */
  function UpdatedStats(stats: DashboardStats, patients: seq<Patient>,
                        items: seq<InventoryItem>, now: int): (r: DashboardStats)
    ensures r.totalPatients == |patients|
    ensures r.inventoryAlerts == InventoryAlerts(items, now)
    ensures r.mealsServedToday == stats.mealsServedToday
    ensures r.dietaryCompliance == stats.dietaryCompliance
    ensures r.patientSatisfaction == stats.patientSatisfaction
  {
    stats.(totalPatients := |patients|, inventoryAlerts := InventoryAlerts(items, now))
  }
}
