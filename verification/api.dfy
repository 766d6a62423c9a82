/**
 * The read layer (src/lib/api.ts): every query as a function of the store's tables.
 * Each query acquires and releases a pooled connection around its SQL statements (five for
 * the dashboard figures, a schema probe and the query itself for the teams); the model keeps
 * the results only.
 */
module Api {
  import opened Wrappers
  import opened Relational
  import opened Database

  const DefaultItemsLimit: nat := 50
  const DefaultTransactionsLimit: nat := 20
  const DefaultUsersLimit: nat := 50
  const DefaultTeamsLimit: nat := 50

  // ================================================================ getDashboardStats

  predicate HasStock(i: Item) { i.currentStock > 0 }

  function StockValue(i: Item): int { i.currentStock * i.cost }

  /**
   * Five aggregates over the store: three table sizes, the number of low-stock items and
   * `SUM(current_stock * cost)` over items with positive stock, NULL read as 0.
   */
  function GetDashboardStats(db: Store): (s: DashboardStats)
    ensures s.totalItems == |db.items| && s.totalLocations == |db.locations|
    ensures s.totalTransactions == |db.transactions|
    ensures 0 <= s.lowStockItems <= s.totalItems
  {
    DashboardStats(
      |db.items|,
      |db.locations|,
      |db.transactions|,
      |Filter(db.items, IsLowStock)|,
      SqlSum(Filter(db.items, HasStock), StockValue).GetOr(0))
  }

  /** The low-stock figure counts exactly the items with `current_stock <= minimum_stock`. */
  lemma LowStockCountIsLowItems(db: Store)
    ensures GetDashboardStats(db).lowStockItems == |Filter(db.items, IsLowStock)|
    ensures forall i :: i in Filter(db.items, IsLowStock) <==> i in db.items && i.currentStock <= i.minimumStock
  {
  }

  /** Reference definition of the inventory value: each item in stock adds stock times cost. */
  function InventoryValue(items: seq<Item>): int {
    if items == [] then 0
    else (if items[0].currentStock > 0 then items[0].currentStock * items[0].cost else 0) + InventoryValue(items[1..])
  }

  lemma {:induction false} SumOfStockedIsInventoryValue(items: seq<Item>)
    ensures SumOf(Filter(items, HasStock), StockValue) == InventoryValue(items)
  {
    if items != [] {
      SumOfStockedIsInventoryValue(items[1..]);
      var head := if HasStock(items[0]) then [items[0]] else [];
      SumOfAppend(head, Filter(items[1..], HasStock), StockValue);
    }
  }

  /** The dashboard's total value is the inventory value, whether or not any item is in stock. */
  lemma TotalValueIsInventoryValue(db: Store)
    ensures GetDashboardStats(db).totalValue == InventoryValue(db.items)
  {
    SqlSumOrZero(Filter(db.items, HasStock), StockValue);
    SumOfStockedIsInventoryValue(db.items);
  }

  /** When no item is in stock the SUM is NULL, and the total value falls back to 0. */
  lemma TotalValueZeroWithoutStock(db: Store)
    requires forall i :: i in db.items ==> !HasStock(i)
    ensures SqlSum(Filter(db.items, HasStock), StockValue).None?
    ensures GetDashboardStats(db).totalValue == 0
  {
    FilterNone(db.items, HasStock);
  }

  lemma {:induction false} InventoryValueNonNegative(items: seq<Item>)
    requires forall i :: i in items ==> i.cost >= 0
    ensures InventoryValue(items) >= 0
  {
    if items != [] {
      InventoryValueNonNegative(items[1..]);
    }
  }

  /** With no negative cost the total value is never negative. */
  lemma TotalValueNonNegative(db: Store)
    requires forall i :: i in db.items ==> i.cost >= 0
    ensures GetDashboardStats(db).totalValue >= 0
  {
    TotalValueIsInventoryValue(db);
    InventoryValueNonNegative(db.items);
  }

  // ================================================================ getItems

  /** The join condition `i.location_id = l.id` (never true for a NULL location_id). */
  predicate LocatedAt(i: Item, l: Location) { i.locationId == Some(l.id) }

  /** `i.*, l.name AS location_name`, with NULL when no location was joined. */
  function WithLocationName(i: Item, l: Option<Location>): Item {
    i.(locationName := if l.Some? then Some(l.value.name) else None)
  }

  /** `items i LEFT JOIN locations l ON i.location_id = l.id`. */
  function ItemsWithLocations(items: seq<Item>, locations: seq<Location>): seq<Item> {
    LeftJoin(items, locations, LocatedAt, WithLocationName)
  }

  function ItemCreatedAt(i: Item): int { i.createdAt }

  /**
   * `x` is item `i` as the left join delivers it: unchanged but for `location_name`, which is
   * the name of a location whose id is `i.location_id`, or NULL exactly when there is none.
   */
  ghost predicate JoinedWithLocation(x: Item, i: Item, locations: seq<Location>) {
    x == i.(locationName := x.locationName) &&
    (x.locationName.None? <==> forall l :: l in locations ==> !LocatedAt(i, l)) &&
    (x.locationName.Some? ==> exists l :: l in locations && LocatedAt(i, l) && l.name == x.locationName.value)
  }

  lemma ItemsWithLocationsSound(items: seq<Item>, locations: seq<Location>)
    ensures forall x :: x in ItemsWithLocations(items, locations) ==>
      exists i :: i in items && JoinedWithLocation(x, i, locations)
  {
    LeftJoinRowsSound(items, locations, LocatedAt, WithLocationName);
    forall x | x in ItemsWithLocations(items, locations)
      ensures exists i :: i in items && JoinedWithLocation(x, i, locations)
    {
      var i, ol :| i in items && x == WithLocationName(i, ol) && LegalPartner(i, locations, LocatedAt, ol);
      assert JoinedWithLocation(x, i, locations);
    }
  }

  /**
   * Items with their location's name, newest first: the `limit` newest joined rows, or all of
   * them when there are fewer. Every row is an item of the table with the name of its
   * location, or none when no location matches.
   */
  function GetItems(db: Store, limit: nat := DefaultItemsLimit): (r: seq<Item>)
    ensures var n := |ItemsWithLocations(db.items, db.locations)|; |r| == if limit < n then limit else n
    ensures TopByKey(r, ItemsWithLocations(db.items, db.locations), ItemCreatedAt)
    ensures limit >= |ItemsWithLocations(db.items, db.locations)| ==>
      multiset(r) == multiset(ItemsWithLocations(db.items, db.locations))
    ensures Sorted(r, Descending(ItemCreatedAt))
    ensures forall i, j :: 0 <= i < j < |r| ==> r[i].createdAt >= r[j].createdAt
    ensures forall x :: x in r ==> exists i :: i in db.items && JoinedWithLocation(x, i, db.locations)
  {
    var joined := ItemsWithLocations(db.items, db.locations);
    KeyOrdersArePreorders(ItemCreatedAt);
    SortTakeSorted(joined, Descending(ItemCreatedAt), limit);
    SortTakeMembers(joined, Descending(ItemCreatedAt), limit);
    ItemsWithLocationsSound(db.items, db.locations);
    DescendingTakeKeepsLargest(joined, ItemCreatedAt, limit);
    DescendingTake(joined, ItemCreatedAt, limit);
    Take(Sort(joined, Descending(ItemCreatedAt)), limit)
  }

  /** Location ids are a primary key, so the location join pairs an item with at most one location. */
  lemma LocationJoinOneToOne(items: seq<Item>, locations: seq<Location>)
    requires UniqueKeys(locations, LocationKey)
    ensures AtMostOneMatch(items, locations, LocatedAt)
  {
  }

  /**
   * With location ids unique the left join keeps every item exactly once, in order, each with
   * the name of its own location, so getItems returns `limit` rows, or every item when there
   * are fewer.
   */
  lemma GetItemsKeepsEveryItem(db: Store, limit: nat)
    requires UniqueKeys(db.locations, LocationKey)
    ensures |ItemsWithLocations(db.items, db.locations)| == |db.items|
    ensures forall k :: 0 <= k < |db.items| ==>
      ItemsWithLocations(db.items, db.locations)[k] ==
        WithLocationName(db.items[k], FirstMatch(db.items[k], db.locations, LocatedAt))
    ensures |GetItems(db, limit)| == if limit < |db.items| then limit else |db.items|
  {
    LocationJoinOneToOne(db.items, db.locations);
    LeftJoinOneToOne(db.items, db.locations, LocatedAt, WithLocationName);
  }

  // ================================================================ getLocations

  /** ORDER BY name. */
  predicate ByName(a: Location, b: Location) { LexLe(a.name, b.name) }

  lemma ByNameOrders()
    ensures TotalPreorder(ByName)
  {
    forall a: Location, b: Location ensures ByName(a, b) || ByName(b, a) {
      LexLeTotal(a.name, b.name);
    }
    forall a: Location, b: Location, c: Location | ByName(a, b) && ByName(b, c) ensures ByName(a, c) {
      LexLeTransitive(a.name, b.name, c.name);
    }
  }

  /** Every location, none dropped or added, ordered by name. */
  function GetLocations(db: Store): (r: seq<Location>)
    ensures multiset(r) == multiset(db.locations)
    ensures forall i, j :: 0 <= i < j < |r| ==> LexLe(r[i].name, r[j].name)
  {
    ByNameOrders();
    SortSorted(db.locations, ByName);
    Sort(db.locations, ByName)
  }

  // ================================================================ getRecentTransactions

  /** `st.*, i.name AS item_name, i.sku`. */
  datatype TransactionRow = TransactionRow(tx: StockTransaction, itemName: string, sku: string)

  /** The join condition `st.item_id = i.id`. */
  predicate OfItem(t: StockTransaction, i: Item) { t.itemId == i.id }

  function WithItem(t: StockTransaction, i: Item): TransactionRow {
    TransactionRow(t, i.name, i.sku)
  }

  /** `stock_transactions st JOIN items i ON st.item_id = i.id`. */
  function TransactionsWithItems(db: Store): seq<TransactionRow> {
    InnerJoin(db.transactions, db.items, OfItem, WithItem)
  }

  function RowCreatedAt(r: TransactionRow): int { r.tx.createdAt }

  /**
   * Transactions joined with their item, newest first: the `limit` newest joined rows, or all
   * of them when there are fewer. Every row is a transaction of the table with the name and
   * SKU of an item it refers to: a transaction whose item_id matches no item is never listed.
   */
  function GetRecentTransactions(db: Store, limit: nat := DefaultTransactionsLimit): (r: seq<TransactionRow>)
    ensures var n := |TransactionsWithItems(db)|; |r| == if limit < n then limit else n
    ensures TopByKey(r, TransactionsWithItems(db), RowCreatedAt)
    ensures limit >= |TransactionsWithItems(db)| ==> multiset(r) == multiset(TransactionsWithItems(db))
    ensures Sorted(r, Descending(RowCreatedAt))
    ensures forall i, j :: 0 <= i < j < |r| ==> r[i].tx.createdAt >= r[j].tx.createdAt
    ensures forall x :: x in r ==>
      x.tx in db.transactions &&
      exists i :: i in db.items && i.id == x.tx.itemId && x.itemName == i.name && x.sku == i.sku
  {
    var joined := TransactionsWithItems(db);
    KeyOrdersArePreorders(RowCreatedAt);
    SortTakeSorted(joined, Descending(RowCreatedAt), limit);
    SortTakeMembers(joined, Descending(RowCreatedAt), limit);
    InnerJoinRows(db.transactions, db.items, OfItem, WithItem);
    DescendingTakeKeepsLargest(joined, RowCreatedAt, limit);
    DescendingTake(joined, RowCreatedAt, limit);
    Take(Sort(joined, Descending(RowCreatedAt)), limit)
  }

  /**
   * With a limit that does not cut the list and item ids unique, every transaction whose
   * item exists is listed, with that item's name and SKU.
   */
  lemma GetRecentTransactionsComplete(db: Store, limit: nat, t: StockTransaction, i: Item)
    requires limit >= |db.transactions|
    requires UniqueKeys(db.items, ItemKey)
    requires t in db.transactions && i in db.items && t.itemId == i.id
    ensures TransactionRow(t, i.name, i.sku) in GetRecentTransactions(db, limit)
  {
    InnerJoinRows(db.transactions, db.items, OfItem, WithItem);
    InnerJoinAtMostOne(db.transactions, db.items, OfItem, WithItem);
    var sorted := Sort(TransactionsWithItems(db), Descending(RowCreatedAt));
    assert WithItem(t, i) in multiset(sorted);
  }

  /** With item ids unique, the list is never longer than the dashboard's transaction count. */
  lemma RecentTransactionsWithinTotal(db: Store, limit: nat)
    requires UniqueKeys(db.items, ItemKey)
    ensures |GetRecentTransactions(db, limit)| <= GetDashboardStats(db).totalTransactions
  {
    InnerJoinAtMostOne(db.transactions, db.items, OfItem, WithItem);
  }

  /** A transaction the inner join keeps: its `item_id` names an item. */
  predicate HasItem(items: seq<Item>, t: StockTransaction) {
    exists i :: i in items && OfItem(t, i)
  }

  function ItemExists(db: Store): StockTransaction -> bool {
    t => HasItem(db.items, t)
  }

  /**
   * With item ids unique the join yields one row per transaction whose item exists, so the
   * list holds `limit` rows, or one per such transaction when there are fewer.
   */
  lemma RecentTransactionsCount(db: Store, limit: nat)
    requires UniqueKeys(db.items, ItemKey)
    ensures |TransactionsWithItems(db)| == |Filter(db.transactions, ItemExists(db))|
    ensures var n := |Filter(db.transactions, ItemExists(db))|;
      |GetRecentTransactions(db, limit)| == if limit < n then limit else n
  {
    assert AtMostOneMatch(db.transactions, db.items, OfItem);
    InnerJoinCount(db.transactions, db.items, OfItem, WithItem, ItemExists(db));
  }

  // ================================================================ getLowStockItems

  function Deficit(i: Item): int { i.currentStock - i.minimumStock }

  /**
   * Low-stock items with their location's name, smallest `current_stock - minimum_stock`
   * first: exactly the low-stock items, each joined with its location, in some order.
   */
  function GetLowStockItems(db: Store): (r: seq<Item>)
    ensures multiset(r) == multiset(ItemsWithLocations(Filter(db.items, IsLowStock), db.locations))
    ensures Sorted(r, Ascending(Deficit))
    ensures forall i, j :: 0 <= i < j < |r| ==>
      r[i].currentStock - r[i].minimumStock <= r[j].currentStock - r[j].minimumStock
  {
    var low := Filter(ItemsWithLocations(db.items, db.locations), IsLowStock);
    FilterLeftJoin(db.items, db.locations, LocatedAt, WithLocationName, IsLowStock, IsLowStock);
    KeyOrdersArePreorders(Deficit);
    SortSorted(low, Ascending(Deficit));
    AscendingSort(low, Deficit);
    Sort(low, Ascending(Deficit))
  }

  /** Every row of the low-stock list is at or below its minimum. */
  lemma LowStockRowsAreLow(db: Store)
    ensures forall x :: x in GetLowStockItems(db) ==> IsLowStock(x)
  {
    var low := Filter(ItemsWithLocations(db.items, db.locations), IsLowStock);
    forall x | x in GetLowStockItems(db) ensures IsLowStock(x) {
      assert x in multiset(Sort(low, Ascending(Deficit)));
    }
  }

  /** With location ids unique, the low-stock list is as long as the dashboard's low-stock count. */
  lemma LowStockListMatchesCount(db: Store)
    requires UniqueKeys(db.locations, LocationKey)
    ensures |GetLowStockItems(db)| == GetDashboardStats(db).lowStockItems
  {
    var low := Filter(db.items, IsLowStock);
    LocationJoinOneToOne(low, db.locations);
    LeftJoinOneToOne(low, db.locations, LocatedAt, WithLocationName);
    assert |multiset(GetLowStockItems(db))| == |multiset(ItemsWithLocations(low, db.locations))|;
  }

  // ================================================================ getUsers

  /** `u.*, 0 AS teams_count, 0 AS memberships_count`. */
  function WithZeroCounts(u: User): User {
    u.(teamsCount := Some(0), membershipsCount := Some(0))
  }

  function UserCreatedAt(u: User): int { u.createdAt }

  function UsersWithZeroCounts(users: seq<User>): (r: seq<User>)
    ensures |r| == |users|
    ensures forall k :: 0 <= k < |users| ==> r[k] == WithZeroCounts(users[k])
  {
    seq(|users|, k requires 0 <= k < |users| => WithZeroCounts(users[k]))
  }

  /**
   * Users newest first: the `limit` newest, or all when there are fewer, each a user of the
   * table with both counts 0 whatever the data.
   */
  function GetUsers(db: Store, limit: nat := DefaultUsersLimit): (r: seq<User>)
    ensures |r| == if limit < |db.users| then limit else |db.users|
    ensures TopByKey(r, UsersWithZeroCounts(db.users), UserCreatedAt)
    ensures limit >= |db.users| ==> multiset(r) == multiset(UsersWithZeroCounts(db.users))
    ensures Sorted(r, Descending(UserCreatedAt))
    ensures forall i, j :: 0 <= i < j < |r| ==> r[i].createdAt >= r[j].createdAt
    ensures forall x :: x in r ==> exists u :: u in db.users && x == WithZeroCounts(u)
    ensures forall x :: x in r ==> x.teamsCount == Some(0) && x.membershipsCount == Some(0)
  {
    var rows := UsersWithZeroCounts(db.users);
    KeyOrdersArePreorders(UserCreatedAt);
    SortTakeSorted(rows, Descending(UserCreatedAt), limit);
    SortTakeMembers(rows, Descending(UserCreatedAt), limit);
    DescendingTakeKeepsLargest(rows, UserCreatedAt, limit);
    DescendingTake(rows, UserCreatedAt, limit);
    Take(Sort(rows, Descending(UserCreatedAt)), limit)
  }

  // ================================================================ getTeams

  function ItemTeam(i: Item): int { i.teamId }
  function LocationTeam(l: Location): int { l.teamId }
  function MembershipTeam(m: Membership): int { m.teamId }

  /** How many rows belong to team `teamId`. */
  function TeamCount<T(!new)>(rows: seq<T>, teamOf: T -> int, teamId: int): nat {
    |Filter(rows, x => teamOf(x) == teamId)|
  }

  /**
   * The `count` the subquery `SELECT team_id, COUNT(*) ... GROUP BY team_id` has for `teamId`:
   * no group row at all when the team has no rows.
   */
  function GroupCount<T(!new)>(rows: seq<T>, teamOf: T -> int, teamId: int): (r: Option<nat>)
    ensures r.None? <==> forall x :: x in rows ==> teamOf(x) != teamId
    ensures r.GetOr(0) == TeamCount(rows, teamOf, teamId)
  {
    var n := TeamCount(rows, teamOf, teamId);
    if n == 0 then None
    else
      var ms := Filter(rows, x => teamOf(x) == teamId);
      assert ms[0] in ms;
      Some(n)
  }

  /** The join condition `t.user_id = u.id`. */
  predicate OwnedBy(t: Team, u: User) { t.userId == u.id }

  /**
   * One output row of getTeams: the team with its owner's email and the three counts, each
   * grouped count COALESCEd to 0, and the member count the constant 0 when the store has no
   * `team_memberships` table.
   */
  function TeamWithCounts(db: Store, hasTeamMemberships: bool, t: Team, owner: Option<User>): Team {
    t.(userName := if owner.Some? then Some(owner.value.email) else None,
       membersCount := Some(if hasTeamMemberships then GroupCount(db.memberships, MembershipTeam, t.id).GetOr(0) else 0),
       itemsCount := Some(GroupCount(db.items, ItemTeam, t.id).GetOr(0)),
       locationsCount := Some(GroupCount(db.locations, LocationTeam, t.id).GetOr(0)))
  }

  function TeamRowBuilder(db: Store, hasTeamMemberships: bool): (Team, Option<User>) -> Team {
    (t, owner) => TeamWithCounts(db, hasTeamMemberships, t, owner)
  }

  /** `teams t LEFT JOIN users u ON t.user_id = u.id`, plus the grouped counts. */
  function TeamsWithCounts(db: Store, hasTeamMemberships: bool): seq<Team> {
    LeftJoin(db.teams, db.users, OwnedBy, TeamRowBuilder(db, hasTeamMemberships))
  }

  function TeamCreatedAt(t: Team): int { t.createdAt }

  /**
   * `x` is team `t` as getTeams delivers it: its own columns unchanged, `user_name` the email
   * of a user whose id is `t.user_id` or NULL exactly when there is none, the item and
   * location counts those of the team's rows, and the member count the team's memberships
   * when the table exists and 0 otherwise.
   */
  ghost predicate TeamRowOf(x: Team, t: Team, db: Store, hasTeamMemberships: bool) {
    x == t.(userName := x.userName, membersCount := x.membersCount,
            itemsCount := x.itemsCount, locationsCount := x.locationsCount) &&
    (x.userName.None? <==> forall u :: u in db.users ==> !OwnedBy(t, u)) &&
    (x.userName.Some? ==> exists u :: u in db.users && OwnedBy(t, u) && u.email == x.userName.value) &&
    x.itemsCount == Some(TeamCount(db.items, ItemTeam, t.id)) &&
    x.locationsCount == Some(TeamCount(db.locations, LocationTeam, t.id)) &&
    x.membersCount == Some(if hasTeamMemberships then TeamCount(db.memberships, MembershipTeam, t.id) else 0)
  }

  lemma TeamsWithCountsSound(db: Store, hasTeamMemberships: bool)
    ensures forall x :: x in TeamsWithCounts(db, hasTeamMemberships) ==>
      exists t :: t in db.teams && TeamRowOf(x, t, db, hasTeamMemberships)
  {
    var build := TeamRowBuilder(db, hasTeamMemberships);
    LeftJoinRowsSound(db.teams, db.users, OwnedBy, build);
    forall x | x in TeamsWithCounts(db, hasTeamMemberships)
      ensures exists t :: t in db.teams && TeamRowOf(x, t, db, hasTeamMemberships)
    {
      var t, ou :| t in db.teams && x == build(t, ou) && LegalPartner(t, db.users, OwnedBy, ou);
      assert x == TeamWithCounts(db, hasTeamMemberships, t, ou);
      assert TeamRowOf(x, t, db, hasTeamMemberships);
    }
  }

  /**
   * Teams with owner email and counts, newest first: the `limit` newest joined rows, or all of
   * them when there are fewer; every row is a team of the table with its owner's email and its
   * counts.
   * `hasTeamMemberships` is the answer of the schema probe for the `team_memberships` table.
   */
  function GetTeams(db: Store, hasTeamMemberships: bool, limit: nat := DefaultTeamsLimit): (r: seq<Team>)
    ensures var n := |TeamsWithCounts(db, hasTeamMemberships)|; |r| == if limit < n then limit else n
    ensures TopByKey(r, TeamsWithCounts(db, hasTeamMemberships), TeamCreatedAt)
    ensures limit >= |TeamsWithCounts(db, hasTeamMemberships)| ==>
      multiset(r) == multiset(TeamsWithCounts(db, hasTeamMemberships))
    ensures Sorted(r, Descending(TeamCreatedAt))
    ensures forall i, j :: 0 <= i < j < |r| ==> r[i].createdAt >= r[j].createdAt
    ensures forall x :: x in r ==> exists t :: t in db.teams && TeamRowOf(x, t, db, hasTeamMemberships)
  {
    var joined := TeamsWithCounts(db, hasTeamMemberships);
    KeyOrdersArePreorders(TeamCreatedAt);
    SortTakeSorted(joined, Descending(TeamCreatedAt), limit);
    SortTakeMembers(joined, Descending(TeamCreatedAt), limit);
    TeamsWithCountsSound(db, hasTeamMemberships);
    DescendingTakeKeepsLargest(joined, TeamCreatedAt, limit);
    DescendingTake(joined, TeamCreatedAt, limit);
    Take(Sort(joined, Descending(TeamCreatedAt)), limit)
  }

  /** Without the memberships table every team reports zero members. */
  lemma GetTeamsWithoutMemberships(db: Store, limit: nat)
    ensures forall x :: x in GetTeams(db, false, limit) ==> x.membersCount == Some(0)
  {
  }

  /**
   * User ids are a primary key, so the owner join keeps every team exactly once, in order, with
   * its own owner: getTeams returns `limit` teams, or every team when there are fewer. The
   * grouped counts cannot duplicate a team here because they are looked up per team rather
   * than joined.
   */
  lemma GetTeamsOneRowPerTeam(db: Store, hasTeamMemberships: bool, limit: nat)
    requires UniqueKeys(db.users, UserKey)
    ensures |TeamsWithCounts(db, hasTeamMemberships)| == |db.teams|
    ensures forall k :: 0 <= k < |db.teams| ==>
      TeamsWithCounts(db, hasTeamMemberships)[k] ==
        TeamWithCounts(db, hasTeamMemberships, db.teams[k], FirstMatch(db.teams[k], db.users, OwnedBy))
    ensures |GetTeams(db, hasTeamMemberships, limit)| == if limit < |db.teams| then limit else |db.teams|
  {
    assert AtMostOneMatch(db.teams, db.users, OwnedBy);
    LeftJoinOneToOne(db.teams, db.users, OwnedBy, TeamRowBuilder(db, hasTeamMemberships));
  }
}
