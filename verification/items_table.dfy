/**
 * The items table (src/components/dashboard/items-table.tsx): the three-way stock status of
 * each item, the status dot, and the location fallback text.
 */
module ItemsTable {
  import opened Wrappers
  import opened Relational
  import opened Database
  import opened Display
  import Api

  const LowLabel: string := "Baixo"
  const WarnLabel: string := "Atenção"
  const OkLabel: string := "Normal"

  const LowBadge: string := "bg-red-100 text-red-800"
  const WarnBadge: string := "bg-yellow-100 text-yellow-800"
  const OkBadge: string := "bg-green-100 text-green-800"

  const LowDot: string := "bg-red-500 animate-pulse"
  const WarnDot: string := "bg-yellow-500"
  const OkDot: string := "bg-green-500"

  const NoLocationText: string := "Localização não definida"

  /** A status badge: its label text and its colour classes. */
  datatype StockStatus = StockStatus(text: string, color: string)

  /**
   * Low at or below the minimum, a warning up to one and a half times the minimum, normal
   * above. The threshold `minimum * 1.5` is computed on reals, as the page computes it on
   * JavaScript numbers.
   */
  function GetStockStatus(current: int, minimum: int): (s: StockStatus)
    ensures s.text in {LowLabel, WarnLabel, OkLabel}
    ensures s.text == LowLabel <==> current <= minimum
    ensures s.text == OkLabel <==> current > minimum && (current as real) > (minimum as real) * 1.5
    ensures s.text == LowLabel ==> s.color == LowBadge
    ensures s.text == WarnLabel ==> s.color == WarnBadge
    ensures s.text == OkLabel ==> s.color == OkBadge
  {
    if current <= minimum then StockStatus(LowLabel, LowBadge)
    else if (current as real) <= (minimum as real) * 1.5 then StockStatus(WarnLabel, WarnBadge)
    else StockStatus(OkLabel, OkBadge)
  }

  /** On whole quantities the warning threshold is exactly `2 * current <= 3 * minimum`. */
  lemma WarnThresholdIsIntegral(current: int, minimum: int)
    ensures (current as real) <= (minimum as real) * 1.5 <==> 2 * current <= 3 * minimum
  {
    assert (minimum as real) * 1.5 == (3 * minimum) as real / 2.0;
  }

  /** The warning label is given exactly between the minimum and one and a half times it. */
  lemma WarnBand(current: int, minimum: int)
    ensures GetStockStatus(current, minimum).text == WarnLabel <==> minimum < current && 2 * current <= 3 * minimum
  {
    WarnThresholdIsIntegral(current, minimum);
  }

  /** The table's "Baixo" is the read layer's low-stock condition. */
  lemma LowLabelIsLowStock(i: Item)
    ensures GetStockStatus(i.currentStock, i.minimumStock).text == LowLabel <==> IsLowStock(i)
  {
  }

  /** A warning needs a positive minimum: with a minimum of 0 an item is low or normal. */
  lemma WarnNeedsPositiveMinimum(current: int, minimum: int)
    requires GetStockStatus(current, minimum).text == WarnLabel
    ensures minimum > 0
  {
    WarnBand(current, minimum);
  }

  /** How good a label is: Baixo below Atenção below Normal. */
  function Rank(text: string): nat {
    if text == LowLabel then 0 else if text == WarnLabel then 1 else 2
  }

  /** With the minimum fixed, more stock never gives a worse label. */
  lemma StatusMonotone(current: int, current': int, minimum: int)
    requires current <= current'
    ensures Rank(GetStockStatus(current, minimum).text) <= Rank(GetStockStatus(current', minimum).text)
  {
    WarnBand(current, minimum);
    WarnBand(current', minimum);
  }

  /** The badge colour is a function of the label, and different labels get different colours. */
  lemma ColorFollowsLabel(c: int, m: int, c': int, m': int)
    ensures GetStockStatus(c, m).text == GetStockStatus(c', m').text <==>
            GetStockStatus(c, m).color == GetStockStatus(c', m').color
  {
  }

  /** The status dot, chosen from the label alone. */
  function DotColor(text: string): (d: string)
    ensures d == LowDot <==> text == LowLabel
    ensures d == WarnDot <==> text == WarnLabel
    ensures text != LowLabel && text != WarnLabel ==> d == OkDot
  {
    if text == LowLabel then LowDot else if text == WarnLabel then WarnDot else OkDot
  }

  /** The pulsing red dot shows exactly on low-stock rows; the three dots differ. */
  lemma DotMatchesStatus(current: int, minimum: int)
    ensures DotColor(GetStockStatus(current, minimum).text) == LowDot <==> current <= minimum
    ensures LowDot != WarnDot && WarnDot != OkDot && LowDot != OkDot
  {
  }

  /** `item.location_name || 'Localização não definida'`. */
  function LocationText(i: Item): (r: string)
    ensures (i.locationName.None? || i.locationName == Some("")) ==> r == NoLocationText
    ensures (i.locationName.Some? && i.locationName.value != "") ==> r == i.locationName.value
  {
    OrText(i.locationName, NoLocationText)
  }

  /** A row an item with no joined location shows the fallback text. */
  lemma MissingLocationShowsFallback(i: Item)
    requires i.locationName.None?
    ensures LocationText(i) == NoLocationText
  {
  }

  /** What one row of the table shows besides the item's own columns. */
  datatype ItemRowView = ItemRowView(status: StockStatus, dot: string, location: string)

  /** One card of the list: the status badge, the dot chosen from its label, the location text. */
  function RenderItem(i: Item): ItemRowView {
    var status := GetStockStatus(i.currentStock, i.minimumStock);
    ItemRowView(status, DotColor(status.text), LocationText(i))
  }

  /** `items.map(...)`: one row per item, in the list's order. */
  function ItemRows(items: seq<Item>): (rows: seq<ItemRowView>)
    ensures |rows| == |items|
    ensures forall k :: 0 <= k < |items| ==> rows[k] == RenderItem(items[k])
  {
    if items == [] then [] else [RenderItem(items[0])] + ItemRows(items[1..])
  }

  predicate ShowsLow(v: ItemRowView) { v.status.text == LowLabel }

  /** The number of "Baixo" badges is the number of low-stock items in the list. */
  lemma {:induction false} LowBadgesCountLowStock(items: seq<Item>)
    ensures |Filter(ItemRows(items), ShowsLow)| == |Filter(items, IsLowStock)|
  {
    if items != [] {
      LowBadgesCountLowStock(items[1..]);
      FilterAppend([RenderItem(items[0])], ItemRows(items[1..]), ShowsLow);
      LowLabelIsLowStock(items[0]);
    }
  }

  /** Shown over the whole items table, the "Baixo" badges number the dashboard's low-stock count. */
  lemma LowBadgesMatchStats(db: Store)
    ensures |Filter(ItemRows(db.items), ShowsLow)| == Api.GetDashboardStats(db).lowStockItems
  {
    LowBadgesCountLowStock(db.items);
  }

  /**
   * On the dashboard the table shows `getItems(20)`: with unique location ids its "Baixo" badges
   * never outnumber the low-stock count, and match it when the limit covers the item table.
   */
  lemma LowBadgesOnDashboard(db: Store, limit: nat)
    requires UniqueKeys(db.locations, LocationKey)
    ensures |Filter(ItemRows(Api.GetItems(db, limit)), ShowsLow)| <= Api.GetDashboardStats(db).lowStockItems
    ensures limit >= |db.items| ==>
      |Filter(ItemRows(Api.GetItems(db, limit)), ShowsLow)| == Api.GetDashboardStats(db).lowStockItems
  {
    var r := Api.GetItems(db, limit);
    var joined := Api.ItemsWithLocations(db.items, db.locations);
    var low := Filter(db.items, IsLowStock);
    LowBadgesCountLowStock(r);
    Api.GetItemsKeepsEveryItem(db, limit);
    FilterLeftJoin(db.items, db.locations, Api.LocatedAt, Api.WithLocationName, IsLowStock, IsLowStock);
    Api.LocationJoinOneToOne(low, db.locations);
    LeftJoinOneToOne(low, db.locations, Api.LocatedAt, Api.WithLocationName);
    FilterCountMonotone(r, joined, IsLowStock);
  }
}
