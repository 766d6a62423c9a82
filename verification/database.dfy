/**
 * The records the dashboard reads, one datatype per table row, and the store they live in.
 * Timestamps (`created_at`, `updated_at`) are instants on an integer clock, so that ORDER BY
 * on them is integer comparison; money (`cost`, `price`) is an integer number of cents.
 */
module Database {
  import opened Wrappers

  /** The closed set of stock-transaction kinds. */
  datatype TransactionKind = StockIn | StockOut | Adjust | Move | Count

  /** How a kind is spelled in the `transaction_type` column. */
  function KindName(k: TransactionKind): string {
    match k
    case StockIn => "stock_in"
    case StockOut => "stock_out"
    case Adjust => "adjust"
    case Move => "move"
    case Count => "count"
  }

  /** The kind a column value spells, if it spells one at all. */
  function ParseKind(s: string): (r: Option<TransactionKind>)
    ensures r.Some? ==> KindName(r.value) == s
    ensures r.None? <==> forall k :: KindName(k) != s
  {
    if s == "stock_in" then Some(StockIn)
    else if s == "stock_out" then Some(StockOut)
    else if s == "adjust" then Some(Adjust)
    else if s == "move" then Some(Move)
    else if s == "count" then Some(Count)
    else None
  }

  /** Every kind has its own spelling, and reading the spelling back gives the kind. */
  lemma KindNameRoundTrip(k: TransactionKind, k': TransactionKind)
    ensures ParseKind(KindName(k)) == Some(k)
    ensures KindName(k) == KindName(k') ==> k == k'
  {
  }

  /**
   * An item. `locationId` is a nullable foreign key; `locationName` is not a column of the
   * table: it is present only on rows a query joined with their location.
   */
  datatype Item = Item(
    id: int,
    name: string,
    sku: string,
    barcode: string,
    cost: int,
    price: int,
    itemType: string,
    brand: string,
    initialQuantity: int,
    teamId: int,
    createdAt: int,
    updatedAt: int,
    currentStock: int,
    minimumStock: int,
    locationId: Option<int>,
    locationName: Option<string>)

  datatype Location = Location(
    id: int,
    name: string,
    description: Option<string>,
    teamId: int,
    createdAt: int,
    updatedAt: int)

  datatype StockTransaction = StockTransaction(
    id: int,
    itemId: int,
    teamId: int,
    transactionType: TransactionKind,
    quantity: int,
    notes: Option<string>,
    userId: int,
    createdAt: int,
    updatedAt: int,
    sourceLocationId: Option<int>,
    destinationLocationId: Option<int>)

  /** A team. The last four fields are derived by a query, absent on a bare table row. */
  datatype Team = Team(
    id: int,
    name: string,
    notes: Option<string>,
    userId: int,
    createdAt: int,
    updatedAt: int,
    userName: Option<string>,
    membersCount: Option<int>,
    itemsCount: Option<int>,
    locationsCount: Option<int>)

  /** A user. The two counts are derived by a query, absent on a bare table row. */
  datatype User = User(
    id: int,
    email: string,
    createdAt: int,
    updatedAt: int,
    teamsCount: Option<int>,
    membershipsCount: Option<int>)

  /** A row of the optional `team_memberships` table; only its team is ever read. */
  datatype Membership = Membership(teamId: int, userId: int)

  /** The dashboard's summary: four counts and one value (in cents). */
  datatype DashboardStats = DashboardStats(
    totalItems: int,
    totalLocations: int,
    totalTransactions: int,
    lowStockItems: int,
    totalValue: int)

  /** The store: one sequence of rows per table. */
  datatype Store = Store(
    items: seq<Item>,
    locations: seq<Location>,
    transactions: seq<StockTransaction>,
    users: seq<User>,
    teams: seq<Team>,
    memberships: seq<Membership>)

  /** An item at or below its minimum stock. */
  predicate IsLowStock(i: Item) {
    i.currentStock <= i.minimumStock
  }

  function ItemKey(i: Item): int { i.id }
  function LocationKey(l: Location): int { l.id }
  function UserKey(u: User): int { u.id }
}
