/** The inventory status classifier (src/components/inventory/InventoryTable.tsx):
    low-stock, expiring-soon and expired, the row highlight, and the three
    counters under the table. Time is an integer millisecond timestamp and
    `now` is an explicit parameter. */
module InventoryStatus {
  import opened Seqs
  import opened Types

  /** `Math.ceil(d / DAY)`: Dafny's `/` rounds down for a positive divisor,
      so the ceiling is the negated floor of the negation. */
  function CeilDays(d: int): (r: int)
    ensures (r - 1) * DAY < d <= r * DAY
  {
    -((-d) / DAY)
  }

  /** Whole days until the item expires, rounded up. */
  function DaysUntilExpiration(item: InventoryItem, now: int): (r: int)
    ensures (r - 1) * DAY < item.expirationDate - now <= r * DAY
  {
    CeilDays(item.expirationDate - now)
  }

  predicate IsLowStock(item: InventoryItem) {
    item.quantity < item.minimumStock
  }

  predicate IsExpiringSoon(item: InventoryItem, now: int) {
    var diffDays := DaysUntilExpiration(item, now);
    diffDays <= 7 && diffDays > 0
  }

  predicate IsExpired(item: InventoryItem, now: int) {
    item.expirationDate < now
  }

  /** Expiring soon means the expiration lies in the next seven days:
      strictly after now, at most seven days away. */
  lemma ExpiringSoonWindow(item: InventoryItem, now: int)
    ensures IsExpiringSoon(item, now) <==> 0 < item.expirationDate - now <= 7 * DAY
  {
  }

  /** An item is never both expired and expiring soon. */
  lemma ExpiredExcludesExpiringSoon(item: InventoryItem, now: int)
    ensures !(IsExpired(item, now) && IsExpiringSoon(item, now))
  {
  }

  // ---------------------------------------------------------------------
  // Row highlight.
  // ---------------------------------------------------------------------

  /** The three background classes of a table row, each with the condition
      the source attaches to it: red, yellow and orange. */
  datatype RowClasses = RowClasses(red: bool, yellow: bool, orange: bool)

  /** The row background as the source writes it: three independent
      conditions, each guarded by the negations of the ones before it. */
  function RowBackground(item: InventoryItem, now: int): (c: RowClasses)
    ensures !(c.red && c.yellow) && !(c.red && c.orange) && !(c.yellow && c.orange)
    ensures c.red || c.yellow || c.orange
            <==> IsExpired(item, now) || IsExpiringSoon(item, now) || IsLowStock(item)
  {
    RowClasses(
      IsExpired(item, now),
      !IsExpired(item, now) && IsExpiringSoon(item, now),
      !IsExpired(item, now) && !IsExpiringSoon(item, now) && IsLowStock(item))
  }

  /** The single status a row is shown with, by priority. */
  datatype Highlight = ExpiredRow | ExpiringSoonRow | LowStockRow | Plain

  function HighlightOf(item: InventoryItem, now: int): Highlight {
    if IsExpired(item, now) then ExpiredRow
    else if IsExpiringSoon(item, now) then ExpiringSoonRow
    else if IsLowStock(item) then LowStockRow
    else Plain
  }

  /** The three row conditions implement the priority expired, then
      expiring soon, then low stock. */
  lemma RowBackgroundIsPriority(item: InventoryItem, now: int)
    ensures var c := RowBackground(item, now);
            var h := HighlightOf(item, now);
            (c.red <==> h == ExpiredRow) && (c.yellow <==> h == ExpiringSoonRow)
            && (c.orange <==> h == LowStockRow)
  {
  }

  // ---------------------------------------------------------------------
  // Counters.
  // ---------------------------------------------------------------------

  function ExpiredAt(now: int): InventoryItem -> bool {
    (item: InventoryItem) => IsExpired(item, now)
  }

  function ExpiringSoonAt(now: int): InventoryItem -> bool {
    (item: InventoryItem) => IsExpiringSoon(item, now)
  }

  /** The guard of the "Expiring Soon" counter. */
  function FreshAndExpiringSoonAt(now: int): InventoryItem -> bool {
    (item: InventoryItem) => !IsExpired(item, now) && IsExpiringSoon(item, now)
  }

  function LowStock(): InventoryItem -> bool {
    (item: InventoryItem) => IsLowStock(item)
  }

  /** `items.filter(isExpired).length`. */
  function ExpiredCount(items: seq<InventoryItem>, now: int): (n: nat)
    ensures n == |Filter(items, ExpiredAt(now))| && n <= |items|
  {
    Count(items, ExpiredAt(now))
  }

  /** `items.filter(item => !isExpired(item) && isExpiringSoon(item)).length`. */
  function ExpiringSoonCount(items: seq<InventoryItem>, now: int): (n: nat)
    ensures n == |Filter(items, FreshAndExpiringSoonAt(now))| && n <= |items|
  {
    Count(items, FreshAndExpiringSoonAt(now))
  }

  /** `items.filter(isLowStock).length`. */
  function LowStockCount(items: seq<InventoryItem>): (n: nat)
    ensures n == |Filter(items, LowStock())| && n <= |items|
  {
    Count(items, LowStock())
  }

  /** The `!isExpired` guard of the expiring-soon counter is redundant, and
      expired and expiring-soon items together are at most all items. */
  lemma CountersAgree(items: seq<InventoryItem>, now: int)
    ensures ExpiringSoonCount(items, now) == Count(items, ExpiringSoonAt(now))
    ensures ExpiredCount(items, now) + ExpiringSoonCount(items, now) <= |items|
  {
    CountSame(items, FreshAndExpiringSoonAt(now), ExpiringSoonAt(now));
    CountDisjoint(items, ExpiredAt(now), FreshAndExpiringSoonAt(now));
  }
}
