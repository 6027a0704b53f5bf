/** The handlers of the inventory page (src/pages/Inventory.tsx): which
    panel is open, and the edits they dispatch to the store. The browser's
    confirmation dialog is a boolean parameter. */
module InventoryPage {
  import opened Wrappers
  import opened Seqs
  import opened Types
  import Store
  import Reports

  /** The units a reorder adds, and the multiple of the unit cost shown as
      its estimated cost. */
  const ReorderQuantity: int := 20

  datatype PageState = PageState(
    showForm: bool,
    editingItem: Option<InventoryItem>,
    showOrderForm: bool,
    orderingItem: Option<InventoryItem>)

  const InitialPage := PageState(false, None, false, None)

  /** What the page renders: the item form, the order panel, or the table. */
  datatype View = FormView(editing: Option<InventoryItem>) | OrderView(item: InventoryItem) | TableView

  function ViewOf(p: PageState): View {
    if p.showForm then FormView(p.editingItem)
    else if p.showOrderForm && p.orderingItem.Some? then OrderView(p.orderingItem.value)
    else TableView
  }

  /** Opens a blank item form and closes the order panel. */
  function HandleAddItem(p: PageState): (r: PageState)
    ensures ViewOf(r) == FormView(None)
    ensures !r.showOrderForm
    ensures r.orderingItem == p.orderingItem
  {
    p.(editingItem := None, showForm := true, showOrderForm := false)
  }

  /** Opens the item form on the first item with the id and closes the
      order panel; an unknown id leaves the page as it was. */
  function HandleEditItem(p: PageState, items: seq<InventoryItem>, id: Id): (r: PageState)
    ensures !Store.HasId(items, id, ItemKey) ==> r == p
    ensures Store.HasId(items, id, ItemKey) ==>
              r.editingItem.Some? && r.editingItem.value in items && r.editingItem.value.id == id
              && ViewOf(r) == FormView(r.editingItem) && !r.showOrderForm
              && r.orderingItem == p.orderingItem
    ensures Store.HasId(items, id, ItemKey) ==>
              exists i :: 0 <= i < |items| && items[i] == r.editingItem.value
                          && forall j :: 0 <= j < i ==> items[j].id != id
  {
    match Find(items, Store.IdIs(id, ItemKey))
    case None => p
    case Some(item) => p.(editingItem := Some(item), showForm := true, showOrderForm := false)
  }

  /** Opens the order panel on the first item with the id; an unknown id
      leaves the page as it was. */
  function HandleOrderItem(p: PageState, items: seq<InventoryItem>, id: Id): (r: PageState)
    ensures !Store.HasId(items, id, ItemKey) ==> r == p
    ensures Store.HasId(items, id, ItemKey) ==>
              r.orderingItem.Some? && r.orderingItem.value in items && r.orderingItem.value.id == id
              && ViewOf(r) == OrderView(r.orderingItem.value) && r.editingItem == p.editingItem
    ensures Store.HasId(items, id, ItemKey) ==>
              exists i :: 0 <= i < |items| && items[i] == r.orderingItem.value
                          && forall j :: 0 <= j < i ==> items[j].id != id
  {
    match Find(items, Store.IdIs(id, ItemKey))
    case None => p
    case Some(item) => p.(orderingItem := Some(item), showOrderForm := true, showForm := false)
  }

  /** Deletes only when the user confirms, through the store's delete. */
  function HandleDeleteItem(items: seq<InventoryItem>, id: Id, confirmed: bool): (r: seq<InventoryItem>)
    ensures !confirmed ==> r == items
    ensures confirmed ==> r == Store.Delete(items, id, ItemKey)
    ensures confirmed ==> forall i :: 0 <= i < |r| ==> r[i].id != id
    ensures confirmed ==> IsSubseq(r, items) && |r| == |items| - Count(items, Store.IdIs(id, ItemKey))
    ensures forall i :: 0 <= i < |items| && items[i].id != id ==> items[i] in r
  {
    if confirmed then Store.Delete(items, id, ItemKey) else items
  }

  /** The page state and inventory after a handler. */
  datatype Outcome = Outcome(page: PageState, items: seq<InventoryItem>)

  /** Saving the form updates the item while editing and adds it otherwise;
      either way the form closes. */
  function HandleSaveItem(p: PageState, items: seq<InventoryItem>, item: InventoryItem): (r: Outcome)
    ensures p.editingItem.Some? ==> r.items == Store.Update(items, item, ItemKey) && |r.items| == |items|
    ensures p.editingItem.None? ==> r.items == Store.Add(items, item)
    ensures !r.page.showForm
    ensures r.page == p.(showForm := false)
  {
    var items' := if p.editingItem.Some? then Store.Update(items, item, ItemKey) else Store.Add(items, item);
    Outcome(p.(showForm := false), items')
  }

  /** The ordered item with its quantity raised by the reorder quantity. */
  function Reordered(item: InventoryItem): InventoryItem {
    item.(quantity := item.quantity + ReorderQuantity)
  }

  /** Placing an order writes back the snapshot taken when the panel opened,
      with 20 more units, and closes the panel; with no snapshot nothing
      happens. */
  function HandlePlaceOrder(p: PageState, items: seq<InventoryItem>): (r: Outcome)
    ensures p.orderingItem.None? ==> r == Outcome(p, items)
    ensures p.orderingItem.Some? ==>
              var o := p.orderingItem.value;
              |r.items| == |items| && !r.page.showOrderForm
              && (forall i :: 0 <= i < |items| && items[i].id != o.id ==> r.items[i] == items[i])
              && (forall i :: 0 <= i < |items| && items[i].id == o.id ==>
                    r.items[i].quantity == o.quantity + 20
                    && r.items[i].(quantity := o.quantity) == o)
    ensures p.orderingItem.Some? ==> r.page == p.(showOrderForm := false)
  {
    match p.orderingItem
    case None => Outcome(p, items)
    case Some(o) => Outcome(p.(showOrderForm := false), Store.Update(items, Reordered(o), ItemKey))
  }

  function HandleCancel(p: PageState): (r: PageState)
    ensures ViewOf(r) == TableView
    ensures r.editingItem == p.editingItem && r.orderingItem == p.orderingItem
  {
    p.(showForm := false, showOrderForm := false)
  }

  /** The estimated cost shown on the order panel, in cents. */
  function EstimatedOrderCost(item: InventoryItem): int {
    ReorderQuantity * item.cost
  }

  /** The reordered item is worth the estimated order cost more. */
  lemma ReorderedValue(o: InventoryItem)
    ensures Reports.ItemValue(Reordered(o)) == Reports.ItemValue(o) + EstimatedOrderCost(o)
  {
    assert (o.quantity + 20) * o.cost == o.quantity * o.cost + 20 * o.cost;
  }

  /** Placing an order on a snapshot that is the current stored item (ids
      unique) rewrites exactly that item. */
  lemma PlaceOrderIsWrite(p: PageState, items: seq<InventoryItem>, k: nat)
    requires Store.UniqueIds(items, ItemKey)
    requires k < |items| && p.orderingItem == Some(items[k])
    ensures HandlePlaceOrder(p, items).items == items[k := Reordered(items[k])]
  {
    Store.UpdateUniqueIsWrite(items, k, Reordered(items[k]), ItemKey);
  }

  /** When the snapshot is the current stored item (ids unique), the order
      raises the inventory value by exactly the estimated order cost. */
  lemma OrderCostIsValueIncrease(p: PageState, items: seq<InventoryItem>, k: nat)
    requires Store.UniqueIds(items, ItemKey)
    requires k < |items| && p.orderingItem == Some(items[k])
    ensures Reports.InventoryValue(HandlePlaceOrder(p, items).items)
            == Reports.InventoryValue(items) + EstimatedOrderCost(items[k])
  {
    PlaceOrderIsWrite(p, items, k);
    Reports.InventoryValueWrite(items, k, Reordered(items[k]));
    ReorderedValue(items[k]);
  }

  /** The order panel opened on an item holds exactly that item when ids
      are unique. */
  lemma OrderItemSnapshot(p: PageState, items: seq<InventoryItem>, k: nat)
    requires Store.UniqueIds(items, ItemKey)
    requires k < |items|
    ensures HandleOrderItem(p, items, items[k].id).orderingItem == Some(items[k])
  {
    var id := items[k].id;
    assert Store.IdIs(id, ItemKey)(items[k]);
    var o := HandleOrderItem(p, items, id).orderingItem.value;
    var j :| 0 <= j < |items| && items[j] == o;
    assert items[j].id == items[k].id;
  }

  /** Opening the order panel on an item and placing the order adds 20 units
      to that item and changes nothing else, and the page returns to the
      table. */
  lemma OrderThenPlace(p: PageState, items: seq<InventoryItem>, k: nat)
    requires Store.UniqueIds(items, ItemKey)
    requires k < |items|
    ensures var r := HandlePlaceOrder(HandleOrderItem(p, items, items[k].id), items);
            r.items == items[k := items[k].(quantity := items[k].quantity + 20)]
            && ViewOf(r.page) == TableView
  {
    var q := HandleOrderItem(p, items, items[k].id);
    OrderItemSnapshot(p, items, k);
    PlaceOrderIsWrite(q, items, k);
  }

  /** Opening a blank form and saving it appends the item and returns the
      page to the table. */
  lemma AddThenSave(p: PageState, items: seq<InventoryItem>, item: InventoryItem)
    ensures var r := HandleSaveItem(HandleAddItem(p), items, item);
            r.items == items + [item] && ViewOf(r.page) == TableView
  {
  }

  /** Opening the form on a stored item and saving it replaces the items
      with the saved id and returns the page to the table; with unique ids
      and the id kept, that is a write at the item's position. */
  lemma EditThenSave(p: PageState, items: seq<InventoryItem>, k: nat, item: InventoryItem)
    requires k < |items|
    ensures var r := HandleSaveItem(HandleEditItem(p, items, items[k].id), items, item);
            r.items == Store.Update(items, item, ItemKey) && ViewOf(r.page) == TableView
            && (Store.UniqueIds(items, ItemKey) && item.id == items[k].id ==> r.items == items[k := item])
  {
    if Store.UniqueIds(items, ItemKey) && item.id == items[k].id {
      Store.UpdateUniqueIsWrite(items, k, item, ItemKey);
    }
  }
}
