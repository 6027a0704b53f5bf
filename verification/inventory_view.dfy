/** The list view of the inventory table
    (src/components/inventory/InventoryTable.tsx): the category choices, the
    search and category filter, the column sort and the header-click state
    machine that picks the sort column and direction. */
module InventoryView {
  import opened Seqs
  import opened Types

  // ---------------------------------------------------------------------
  // Categories.
  // ---------------------------------------------------------------------

  /** `items.map(item => item.category)`. */
  function CategoryList(items: seq<InventoryItem>): (cs: seq<string>)
    ensures |cs| == |items|
    ensures forall k :: 0 <= k < |items| ==> cs[k] == items[k].category
  {
    seq(|items|, k requires 0 <= k < |items| => items[k].category)
  }

  /** The category choices: "all", then each distinct category once, in the
      order in which it first occurs among the items. */
  function Categories(items: seq<InventoryItem>): (r: seq<string>)
    ensures |r| >= 1 && r[0] == "all"
    ensures NoDup(r[1..])
    ensures forall i :: 1 <= i < |r| ==> exists k :: 0 <= k < |items| && items[k].category == r[i]
    ensures forall k :: 0 <= k < |items| ==> items[k].category in r[1..]
    ensures forall i, j :: 1 <= i < j < |r| ==>
              FirstIndex(CategoryList(items), r[i]) < FirstIndex(CategoryList(items), r[j])
  {
    var cs := CategoryList(items);
    var d := Distinct(cs);
    assert (["all"] + d)[1..] == d;
    assert forall i :: 1 <= i < |d| + 1 ==> (["all"] + d)[i] == d[i - 1];
    ["all"] + d
  }

  // ---------------------------------------------------------------------
  // Search and category filter.
  // ---------------------------------------------------------------------

  /** ASCII lower-casing of one character. */
  function LowerChar(c: char): char {
    if 'A' <= c <= 'Z' then (c as int + 32) as char else c
  }

  function ToLower(s: string): string {
    seq(|s|, i requires 0 <= i < |s| => LowerChar(s[i]))
  }

  predicate StartsWith(s: string, t: string) {
    |t| <= |s| && s[..|t|] == t
  }

  /** `s.includes(t)`: `t` occurs in `s` at some position. */
  predicate Contains(s: string, t: string)
    decreases |s|
  {
    StartsWith(s, t) || (|s| > 0 && Contains(s[1..], t))
  }

  predicate MatchesSearch(item: InventoryItem, search: string) {
    Contains(ToLower(item.name), ToLower(search))
  }

  predicate MatchesCategory(item: InventoryItem, category: string) {
    category == "all" || item.category == category
  }

  function Matches(search: string, category: string): InventoryItem -> bool {
    (item: InventoryItem) => MatchesSearch(item, search) && MatchesCategory(item, category)
  }

  /** The items whose name contains the search text (ignoring case) and
      whose category is the selected one, or any category for "all". */
  function FilteredItems(items: seq<InventoryItem>, search: string, category: string)
    : (r: seq<InventoryItem>)
    ensures IsSubseq(r, items)
    ensures forall i :: 0 <= i < |r| ==>
              MatchesSearch(r[i], search) && MatchesCategory(r[i], category)
    ensures forall k :: 0 <= k < |items| ==>
              (MatchesSearch(items[k], search) && MatchesCategory(items[k], category)
               <==> items[k] in r)
    ensures |r| == Count(items, Matches(search, category))
  {
    Filter(items, Matches(search, category))
  }

  /** With an empty search and the "all" category every item is shown, in
      the original order. */
  lemma NoCriteriaShowsAll(items: seq<InventoryItem>)
    ensures FilteredItems(items, "", "all") == items
  {
    forall k | 0 <= k < |items|
      ensures Matches("", "all")(items[k])
    {
      assert StartsWith(ToLower(items[k].name), ToLower(""));
    }
    FilterKeepsAll(items, Matches("", "all"));
  }

  // ---------------------------------------------------------------------
  // Sort state.
  // ---------------------------------------------------------------------

  /** The sortable columns. */
  datatype SortField = Name | Category | Quantity | ExpirationDate | Location

  datatype Direction = Asc | Desc

  datatype SortState = SortState(field: SortField, direction: Direction)

  const InitialSort := SortState(Name, Asc)

  /** A header click: the current column flips direction, another column
      becomes the sort column in ascending order. */
  function HandleSort(st: SortState, field: SortField): (r: SortState)
    ensures r.field == field
    ensures field == st.field ==> r.direction != st.direction
    ensures field != st.field ==> r.direction == Asc
  {
    if field == st.field then st.(direction := if st.direction == Asc then Desc else Asc)
    else SortState(field, Asc)
  }

  /** Clicking the current column twice restores the sort state. */
  lemma HandleSortTwiceRestores(st: SortState)
    ensures HandleSort(HandleSort(st, st.field), st.field) == st
  {
  }

  // ---------------------------------------------------------------------
  // The comparator.
  // ---------------------------------------------------------------------

  /** A column value: strings compare lexicographically, numbers numerically.
      The expiration date is compared as its timestamp, which orders
      `YYYY-MM-DD` strings the same way. */
  datatype Key = Text(s: string) | Number(n: int)

  function KeyOf(item: InventoryItem, field: SortField): Key {
    match field
    case Name => Text(item.name)
    case Category => Text(item.category)
    case Quantity => Number(item.quantity)
    case ExpirationDate => Number(item.expirationDate)
    case Location => Text(item.location)
  }

  /** JavaScript's `<` on strings: lexicographic by character code. */
  predicate StrLess(a: string, b: string)
    decreases |a|
  {
    if |a| == 0 then |b| > 0
    else if |b| == 0 then false
    else if a[0] != b[0] then a[0] < b[0]
    else StrLess(a[1..], b[1..])
  }

  predicate KeyLess(a: Key, b: Key) {
    match (a, b)
    case (Text(x), Text(y)) => StrLess(x, y)
    case (Number(x), Number(y)) => x < y
    case _ => false
  }

  lemma StrLessAsymmetric(a: string, b: string)
    ensures !(StrLess(a, b) && StrLess(b, a))
    decreases |a|
  {
    if |a| > 0 && |b| > 0 && a[0] == b[0] {
      StrLessAsymmetric(a[1..], b[1..]);
    }
  }

  lemma StrLessTotal(a: string, b: string)
    ensures a != b ==> StrLess(a, b) || StrLess(b, a)
    decreases |a|
  {
    if |a| > 0 && |b| > 0 && a[0] == b[0] {
      StrLessTotal(a[1..], b[1..]);
      assert a == [a[0]] + a[1..] && b == [b[0]] + b[1..];
    }
  }

  lemma KeyLessAsymmetric(a: Key, b: Key)
    ensures !(KeyLess(a, b) && KeyLess(b, a))
  {
    if a.Text? && b.Text? {
      StrLessAsymmetric(a.s, b.s);
    }
  }

  /** Two keys of the same column are equal or one is less. */
  lemma KeyLessTrichotomy(a: Key, b: Key)
    requires a.Text? == b.Text?
    ensures !KeyLess(a, a)
    ensures a != b ==> KeyLess(a, b) || KeyLess(b, a)
  {
    if a.Text? {
      StrLessAsymmetric(a.s, a.s);
      StrLessTotal(a.s, b.s);
    }
  }

  /** The `sort` comparator of the table, as written. */
  function Compare(a: InventoryItem, b: InventoryItem, st: SortState): (r: int)
    ensures -1 <= r <= 1
    ensures r == 0 <==> KeyOf(a, st.field) == KeyOf(b, st.field)
    ensures r < 0 <==> if st.direction == Asc then KeyLess(KeyOf(a, st.field), KeyOf(b, st.field))
                       else KeyLess(KeyOf(b, st.field), KeyOf(a, st.field))
  {
    var ka := KeyOf(a, st.field);
    var kb := KeyOf(b, st.field);
    KeyLessAsymmetric(ka, kb);
    KeyLessTrichotomy(ka, kb);
    if KeyLess(ka, kb) then (if st.direction == Asc then -1 else 1)
    else if KeyLess(kb, ka) then (if st.direction == Asc then 1 else -1)
    else 0
  }

  /** Swapping the arguments negates the comparison. */
  lemma CompareFlips(a: InventoryItem, b: InventoryItem, st: SortState)
    ensures Compare(a, b, st) == -Compare(b, a, st)
  {
    KeyLessAsymmetric(KeyOf(a, st.field), KeyOf(b, st.field));
  }

  // ---------------------------------------------------------------------
  // The sort.
  // ---------------------------------------------------------------------

  /** Neighbours are in comparator order. */
  ghost predicate Sorted(xs: seq<InventoryItem>, st: SortState) {
    forall i :: 0 <= i < |xs| - 1 ==> Compare(xs[i], xs[i + 1], st) <= 0
  }

  /** Inserts `x` before the first element it does not compare greater than. */
  function Insert(x: InventoryItem, s: seq<InventoryItem>, st: SortState): (r: seq<InventoryItem>)
    ensures multiset(r) == multiset(s) + multiset{x}
    ensures |s| > 0 ==> r[0] == x || r[0] == s[0]
    ensures |s| == 0 ==> r == [x]
    ensures Sorted(s, st) ==> Sorted(r, st)
  {
    if |s| == 0 then [x]
    else if Compare(x, s[0], st) <= 0 then
      [x] + s
    else
      var rest := Insert(x, s[1..], st);
      CompareFlips(x, s[0], st);
      assert s == [s[0]] + s[1..];
      [s[0]] + rest
  }

  /** The table's `sort`: a stable sort by the comparator. */
  function SortItems(xs: seq<InventoryItem>, st: SortState): (r: seq<InventoryItem>)
    ensures multiset(r) == multiset(xs)
    ensures Sorted(r, st)
  {
    if |xs| == 0 then []
    else
      assert xs == [xs[0]] + xs[1..];
      Insert(xs[0], SortItems(xs[1..], st), st)
  }

  /** The items whose sort key is `k`. */
  function HasKey(field: SortField, k: Key): InventoryItem -> bool {
    (item: InventoryItem) => KeyOf(item, field) == k
  }

  /** Inserting `x` puts it ahead of every element with the same key. */
  lemma {:induction false} InsertStable(x: InventoryItem, s: seq<InventoryItem>, st: SortState, k: Key)
    ensures var h := HasKey(st.field, k);
            Filter(Insert(x, s, st), h) == (if h(x) then [x] + Filter(s, h) else Filter(s, h))
  {
    var h := HasKey(st.field, k);
    if |s| > 0 {
      if Compare(x, s[0], st) <= 0 {
        assert Insert(x, s, st) == [x] + s;
        assert ([x] + s)[1..] == s;
      } else {
        InsertStable(x, s[1..], st, k);
        var rest := Insert(x, s[1..], st);
        assert Insert(x, s, st) == [s[0]] + rest;
        assert ([s[0]] + rest)[1..] == rest;
        assert h(x) ==> !h(s[0]);
      }
    }
  }

  /** Stability: the items with any given key appear in the sorted result in
      the order they had in the input. */
  lemma {:induction false} SortIsStable(xs: seq<InventoryItem>, st: SortState, k: Key)
    ensures Filter(SortItems(xs, st), HasKey(st.field, k)) == Filter(xs, HasKey(st.field, k))
  {
    if |xs| > 0 {
      SortIsStable(xs[1..], st, k);
      InsertStable(xs[0], SortItems(xs[1..], st), st, k);
    }
  }

  /** The rows of the table: the filtered items in sort order. */
  function SortedItems(items: seq<InventoryItem>, search: string, category: string,
                       st: SortState): (r: seq<InventoryItem>)
    ensures multiset(r) == multiset(FilteredItems(items, search, category))
    ensures Sorted(r, st)
  {
    SortItems(FilteredItems(items, search, category), st)
  }
}
