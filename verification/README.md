# Purple Stock dashboard — a Dafny model

Purple Stock's admin dashboard reads an inventory database and shows several views:
- headline figures: how many items, locations and stock transactions there are, how many items are low on stock, and what the stock on hand is worth;
- the newest items with their location names;
- the locations ordered by name;
- the latest stock movements with their item's name and SKU;
- the items at or below their minimum stock, most urgent first;
- the users and the teams, each with per-team counts.

The pages then render these rows: a stock-status badge per item, a label and colour per transaction kind, and header totals over the fetched teams and users.

The model treats each database table as a sequence of rows (`Database.Store`). Each query in `src/lib/api.ts` becomes a pure function over those sequences, built from relational operators, all in module `Relational` except the grouped count:

| SQL | Relational operator |
|---|---|
| `WHERE` | `Filter` |
| `COUNT(*)` | length |
| `SUM` | `SqlSum`, which is `NULL` on no rows |
| `LIMIT` | `Take` |
| `ORDER BY` | `Sort` with a comparator |
| `LEFT JOIN` | `LeftJoin`: one output row per match, or one row with a missing partner |
| `JOIN` | `InnerJoin` |
| `GROUP BY` count | `Api.GroupCount` |

The TypeScript rendering logic is modelled in separate modules (`ItemsTable`, `RecentTransactions`, `TeamsPage`, `UsersPage`), on top of the JavaScript idioms in `Display`:
- `x || fallback` is `OrText` or `OrZero`;
- `Array.prototype.reduce` is `Reduce`.

Representation choices:
- Timestamps are integers, so that later means larger.
- Money is integer cents.
- Text is ordered by code point (`LexLe`).
- The `transaction_type` column is the closed datatype `TransactionKind`, with its textual names.

## Model

| member | source | states |
|---|---|---|
| Database.ParseKind | src/types/database.ts:1 | a parsed kind prints back to the same text, and parsing fails exactly for strings that name no kind |
| Database.KindNameRoundTrip | src/types/database.ts:1 | the five transaction kinds have distinct names, and each name parses back to its kind |
| Database.KindName | src/types/database.ts:1 | the textual name of each kind; `Database.KindNameRoundTrip` states that it is injective and inverted by `ParseKind` |
| Api.GetDashboardStats | src/lib/api.ts:4-21 | the item, location and transaction totals are the table sizes, and the low-stock count lies between 0 and the item total |
| Api.LowStockCountIsLowItems | src/lib/api.ts:11 | the low-stock figure is the number of items with `current_stock <= minimum_stock`; `Api.LowStockListMatchesCount`, `ItemsTable.LowBadgesMatchStats` and `ItemsTable.LowBadgesOnDashboard` relate this count to the other views |
| Api.SumOfStockedIsInventoryValue | src/lib/api.ts:12 | summing stock × cost over items with positive stock equals the inventory value summed over all items, because items without stock contribute nothing |
| Api.TotalValueIsInventoryValue | src/lib/api.ts:12-20 | the reported total value is the inventory value of the item table, with `NULL \|\| '0'` giving 0 |
| Api.TotalValueZeroWithoutStock | src/lib/api.ts:12-20 | when no item is in stock, the SUM is NULL and the reported total value is 0 |
| Api.InventoryValueNonNegative | src/lib/api.ts:12 | with non-negative costs, the inventory value is non-negative |
| Api.TotalValueNonNegative | src/lib/api.ts:12-20 | with non-negative costs, the reported total value is non-negative |
| Api.ItemsWithLocationsSound | src/lib/api.ts:31-33 | every joined row is an item of the table whose location name comes from a location with its `location_id`, or is missing when none matches |
| Api.ItemsWithLocations | src/lib/api.ts:31-33 | the item–location LEFT JOIN; `Api.ItemsWithLocationsSound` states what its rows are, and `Api.GetItemsKeepsEveryItem` states that it is a row-by-row lookup under unique location ids |
| Api.GetItems | src/lib/api.ts:27-36 | min(limit, joined rows) rows (limit 50 by default), newest first; they are joined rows, each kept at most as often as it occurs, and no joined row left out is newer than a row kept; when the limit does not bind, the result is a permutation of the joined rows; each row is an item joined with its location |
| Api.LocationJoinOneToOne | src/lib/api.ts:33 | with unique location ids, each item matches at most one location |
| Api.GetItemsKeepsEveryItem | src/lib/api.ts:27-36 | with unique location ids, the LEFT JOIN holds exactly one row per item, in order, each the item with the name of its own location (or none), so the result has min(limit, item count) rows |
| Api.ByNameOrders | src/lib/api.ts:46 | ordering locations by name is total and transitive |
| Api.GetLocations | src/lib/api.ts:43-47 | the result is a permutation of the location table, ordered by name |
| Api.GetRecentTransactions | src/lib/api.ts:53-62 | min(limit, joined rows) rows (limit 20 by default), newest first; they are joined rows, each kept at most as often as it occurs, and no joined row left out is newer than a row kept; each row holds a transaction of the table with the name and SKU of an item whose id is the transaction's `item_id` |
| Api.TransactionsWithItems | src/lib/api.ts:57-59 | the transaction–item inner JOIN; `Api.GetRecentTransactions` and `Api.RecentTransactionsCount` state its rows and its size |
| Api.GetRecentTransactionsComplete | src/lib/api.ts:56-62 | with unique item ids and a limit covering the table, every transaction whose item exists appears with that item's name and SKU |
| Api.RecentTransactionsWithinTotal | src/lib/api.ts:53-62 | with unique item ids, the recent list never has more rows than the transaction total on the dashboard |
| Api.RecentTransactionsCount | src/lib/api.ts:53-62 | with unique item ids, the join has one row per transaction whose `item_id` names an item, so the list has min(limit, that number) rows |
| Api.GetLowStockItems | src/lib/api.ts:69-78 | the result is a permutation of the low-stock items joined with their locations, and `current_stock - minimum_stock` never decreases along it |
| Api.LowStockRowsAreLow | src/lib/api.ts:76 | every returned row has `current_stock <= minimum_stock` |
| Api.LowStockListMatchesCount | src/lib/api.ts:69-78 | with unique location ids, the low-stock list has exactly as many rows as the dashboard's low-stock count |
| Api.UsersWithZeroCounts | src/lib/api.ts:89 | each user row is the stored user with both counts set to 0, in order |
| Api.GetUsers | src/lib/api.ts:85-93 | min(limit, user count) rows (limit 50 by default), newest first; they are stored users with both counts set to 0, each at most as often as in the table, and no user left out is newer than one kept; with a limit covering the table every user appears |
| Api.GroupCount | src/lib/api.ts:138-156 | the grouped count is absent exactly when the team has no rows, and otherwise, after COALESCE to 0, it is the number of rows with that `team_id` |
| Api.TeamsWithCountsSound | src/lib/api.ts:114-156 | every row is a stored team carrying its owner's e-mail (or none) and its item and location counts; its member count is the membership count when the membership table exists, and 0 when it does not |
| Api.TeamWithCounts | src/lib/api.ts:114-131 | one getTeams row built from a team and its owner; `Api.TeamsWithCountsSound` states its columns |
| Api.TeamsWithCounts | src/lib/api.ts:129-156 | the teams LEFT JOIN users with the grouped counts; `Api.TeamsWithCountsSound` and `Api.GetTeamsOneRowPerTeam` state its rows |
| Api.GetTeams | src/lib/api.ts:100-161 | min(limit, joined rows) rows (limit 50 by default), newest first; they are joined rows, each kept at most as often as it occurs, and no joined row left out is newer than a row kept; each is a stored team with its owner and counts as above |
| Api.GetTeamsWithoutMemberships | src/lib/api.ts:123-126 | without a membership table, every team reports 0 members |
| Api.GetTeamsOneRowPerTeam | src/lib/api.ts:133-158 | with unique user ids, the owner join holds exactly one row per team, in order, each that team with its own owner and its looked-up counts, so the result has min(limit, team count) rows |
| Relational.Filter | src/lib/api.ts:11-12 | WHERE keeps exactly the rows satisfying the condition, and never more rows than the input |
| Relational.FilterAppend | src/lib/api.ts:11-12 | filtering distributes over concatenation |
| Relational.SqlSum | src/lib/api.ts:12 | SUM is NULL exactly on no rows, and otherwise is the sum |
| Relational.SqlSumOrZero | src/lib/api.ts:20 | replacing a NULL SUM by 0 gives the plain sum |
| Relational.Take | src/lib/api.ts:35 | LIMIT n keeps the first min(n, length) rows |
| Relational.Sort | src/lib/api.ts:34 | ORDER BY returns a permutation of its input |
| Relational.SortSorted | src/lib/api.ts:34 | ORDER BY with a total preorder returns a sorted sequence |
| Relational.SortTakeSorted | src/lib/api.ts:34-35 | ORDER BY followed by LIMIT is still sorted |
| Relational.SortTakeMembers | src/lib/api.ts:34-35 | ORDER BY followed by LIMIT returns only input rows |
| Relational.DescendingTake | src/lib/api.ts:34-35 | after `ORDER BY key DESC LIMIT n`, the keys never increase along the result |
| Relational.AscendingSort | src/lib/api.ts:77 | after `ORDER BY key ASC`, the keys never decrease along the result |
| Relational.DescendingTakeKeepsLargest | src/lib/api.ts:34-35 | `ORDER BY key DESC LIMIT n` returns input rows, none more often than in the input, and no row it leaves out has a larger key than a row it keeps |
| Relational.LexLeTotal | src/lib/api.ts:46 | any two names are comparable |
| Relational.LexLeTransitive | src/lib/api.ts:46 | name order is transitive |
| Relational.LexLeAntisymmetric | src/lib/api.ts:46 | names ordered both ways are equal |
| Relational.FirstMatch | src/lib/api.ts:33 | the partner is missing exactly when no right row matches, and otherwise is a matching right row |
| Relational.LeftJoin | src/lib/api.ts:33 | LEFT JOIN: one row per match, or one row without a partner; its properties are the `LeftJoin…` lemmas below |
| Relational.LeftJoinNeverDrops | src/lib/api.ts:33 | a LEFT JOIN has at least as many rows as its left input |
| Relational.LeftJoinOneToOne | src/lib/api.ts:33 | when every left row matches at most one right row, the LEFT JOIN has one row per left row, in order, combined with its match or with none |
| Relational.LeftJoinRowsSound | src/lib/api.ts:33 | each LEFT JOIN row combines a left row with a matching right row, or with none when nothing matches |
| Relational.InnerJoinRows | src/lib/api.ts:59 | an inner JOIN holds a combination exactly for each matching left and right pair |
| Relational.InnerJoin | src/lib/api.ts:59 | inner JOIN: one row per matching pair; `Relational.InnerJoinRows` and `Relational.InnerJoinCount` state its rows and size |
| Relational.InnerJoinAtMostOne | src/lib/api.ts:59 | when every left row matches at most one right row, an inner JOIN has at most one row per left row |
| Relational.InnerJoinCount | src/lib/api.ts:59 | when every left row matches at most one right row, an inner JOIN has exactly one row per left row that has a partner |
| Relational.FilterLeftJoin | src/lib/api.ts:75-76 | a WHERE on left-table columns after a LEFT JOIN equals the LEFT JOIN of the filtered left table |
| Display.OrText | src/components/dashboard/items-table.tsx:87 | `x \|\| fallback` shows the fallback for a missing or empty text, and the text itself otherwise |
| Display.OrZero | src/app/times/page.tsx:203-211 | `n \|\| 0` on a count: 0 when missing, the count otherwise |
| Display.ReduceIsSum | src/app/times/page.tsx:104 | `reduce((sum, x) => sum + f(x), acc)` is acc plus the sum of f |
| Display.Reduce | src/app/times/page.tsx:104 | the left fold of `reduce`; `Display.ReduceIsSum` states that it is the sum |
| Display.SumOfZeros | src/app/usuarios/page.tsx:105-114 | summing a quantity that is 0 on every row gives 0 |
| ItemsTable.GetStockStatus | src/components/dashboard/items-table.tsx:19-27 | the badge is one of the three labels: "Baixo" exactly when current ≤ minimum, and "Normal" exactly when current exceeds both minimum and 1.5 × minimum; "Baixo" is red, "Atenção" yellow and "Normal" green |
| ItemsTable.WarnThresholdIsIntegral | src/components/dashboard/items-table.tsx:22 | `current <= minimum * 1.5` holds exactly when 2·current ≤ 3·minimum |
| ItemsTable.WarnBand | src/components/dashboard/items-table.tsx:20-23 | "Atenção" is shown exactly when minimum < current and 2·current ≤ 3·minimum |
| ItemsTable.LowLabelIsLowStock | src/components/dashboard/items-table.tsx:20 | the "Baixo" badge agrees with the dashboard's low-stock condition |
| ItemsTable.WarnNeedsPositiveMinimum | src/components/dashboard/items-table.tsx:20-23 | "Atenção" can only appear when the minimum is positive |
| ItemsTable.StatusMonotone | src/components/dashboard/items-table.tsx:19-27 | more stock never makes the status more urgent |
| ItemsTable.ColorFollowsLabel | src/components/dashboard/items-table.tsx:19-27 | two items have the same badge colour exactly when they have the same label |
| ItemsTable.DotMatchesStatus | src/components/dashboard/items-table.tsx:70-73 | the red dot is shown exactly for low stock, and the three dot colours differ |
| ItemsTable.DotColor | src/components/dashboard/items-table.tsx:70-73 | the pulsing red dot exactly for "Baixo", the yellow dot exactly for "Atenção", and the green dot for every other label |
| ItemsTable.MissingLocationShowsFallback | src/components/dashboard/items-table.tsx:87 | an item without a location shows "Localização não definida" |
| ItemsTable.LocationText | src/components/dashboard/items-table.tsx:87 | a missing or empty location name shows "Localização não definida", any other name shows itself |
| ItemsTable.LowBadgesCountLowStock | src/components/dashboard/items-table.tsx:59-60 | the number of "Baixo" badges in the list equals the number of low-stock items in it |
| ItemsTable.LowBadgesMatchStats | src/components/dashboard/items-table.tsx:59-60 | rendering the whole item table shows as many "Baixo" badges as the dashboard's low-stock count |
| ItemsTable.LowBadgesOnDashboard | src/components/dashboard/items-table.tsx:59-60 | with unique location ids, the items the dashboard fetches through `getItems` show at most as many "Baixo" badges as the low-stock count, and exactly as many when the limit covers the item table |
| ItemsTable.ItemRows | src/components/dashboard/items-table.tsx:59-87 | one rendered row per item, in the list's order, each the card `ItemsTable.RenderItem` builds: the status badge, the dot chosen from its label, and the location text |
| RecentTransactions.LabelsIdentifyKinds | src/components/dashboard/recent-transactions.tsx:29-44 | each kind's name gets that kind's Portuguese label, distinct kinds get distinct labels, and an unknown kind is shown as its own text |
| RecentTransactions.ColorsIdentifyKinds | src/components/dashboard/recent-transactions.tsx:12-27 | each kind's name gets that kind's colour, distinct kinds get distinct colours, and gray is used exactly for unknown kinds |
| RecentTransactions.TransactionTypeColor | src/components/dashboard/recent-transactions.tsx:12-27 | the colour of a kind's name is `KindColor` of that kind, and gray exactly for text naming no kind |
| RecentTransactions.TransactionTypeLabel | src/components/dashboard/recent-transactions.tsx:29-44 | the label of a kind's name is `KindLabel` of that kind (Entrada, Saída, Ajuste, Movimentação, Contagem), and the text itself exactly for text naming no kind |
| RecentTransactions.NotesText | src/components/dashboard/recent-transactions.tsx:103 | missing or empty notes show "Sem observações", other notes show themselves |
| RecentTransactions.KindLabel | src/components/dashboard/recent-transactions.tsx:31-40 | the five labels by kind; `RecentTransactions.LabelsIdentifyKinds` states that the string switch agrees with it |
| RecentTransactions.KindColor | src/components/dashboard/recent-transactions.tsx:14-23 | the five colours by kind; `RecentTransactions.ColorsIdentifyKinds` states that the string switch agrees with it |
| RecentTransactions.RenderTransaction | src/components/dashboard/recent-transactions.tsx:103-115 | the badge has the colour `KindColor` and the label `KindLabel` of the transaction's own kind (never gray, never the raw kind name); the notes are shown when present and non-empty, and "Sem observações" otherwise; the quantity is the transaction's own |
| TeamsPage.Header | src/app/times/page.tsx:96-122 | the header shows the team count and the sums of members, items and locations, counting missing values as 0 |
| TeamsPage.CardTotalsMatchHeader | src/app/times/page.tsx:203-216 | the per-card totals add up to the three header sums together |
| TeamsPage.TeamTotal | src/app/times/page.tsx:216 | the card total of one team; `TeamsPage.CardTotalsMatchHeader` states that the totals sum to the header figures |
| TeamsPage.NoMembersWithoutMembershipTable | src/app/times/page.tsx:104 | over teams fetched without a membership table, the members header is 0 |
| UsersPage.Header | src/app/usuarios/page.tsx:97-114 | the header shows the user count and the sums of team and membership counts, counting missing values as 0 |
| UsersPage.HeaderOfFetchedUsers | src/app/usuarios/page.tsx:97-114 | for fetched users, the header counts min(limit, user count) users, and both sums are 0 |
| UsersPage.ToUpper | src/app/usuarios/page.tsx:161 | a lowercase ASCII letter becomes its capital (code point minus 32), any other character is unchanged, and the result is never ASCII lowercase |
| UsersPage.Initial | src/app/usuarios/page.tsx:161 | empty for an empty e-mail; otherwise the e-mail's first character, upper-cased when it is a lowercase ASCII letter and unchanged otherwise |
| UsersPage.InitialIgnoresCase | src/app/usuarios/page.tsx:161 | e-mails whose first letters differ only in case show the same avatar letter |

## Left out

- **Database plumbing:**
  - the connection pool and `client.release()`;
  - the concurrency of `Promise.all`;
  - how the SQL text is assembled.
  
  Each query is its result as a function of the tables.
- **Membership-table probe:** the `information_schema` check in `getTeams` (`src/lib/api.ts:104-112`) is the boolean parameter `hasTeamMemberships` of `Api.GetTeams`.
- **Money and timestamps:**
  - `parseInt`/`parseFloat` of driver strings, floating-point money and `Intl.NumberFormat` currency formatting are not modelled, because money is integer cents;
  - the `pt-BR` date formatting is not modelled;
  - timestamps are integers.
- **Tie order:** rows with equal sort keys may come back in any order in SQL. The model sorts stably, but its contracts promise only sortedness, which rows are kept (none left out is newer than one kept) and a permutation, so no tie order is relied on.
- **Collation:** name order is code-point order. A database collation (locale-aware, case-insensitive) is not modelled.
- **Primary keys:** `Api.GetItems`, `Api.GetRecentTransactions` and `Api.GetTeams` count their rows against the joined rows. These equal one row per item, per transaction with an existing item, and per team only when the joined ids are unique. `Api.GetItemsKeepsEveryItem`, `Api.RecentTransactionsCount` and `Api.GetTeamsOneRowPerTeam` state those counts under that hypothesis. Primary-key uniqueness is an assumption about the schema, not something the code enforces.
- **`Api.TeamsWithCounts`:** the three `GROUP BY team_id` subqueries are not joined as tables. Each team's counts are looked up with `Api.GroupCount`, so these grouped LEFT JOINs cannot duplicate a team by construction, which in SQL follows from each subquery holding one row per `team_id`. Only the join with `users` is a real join, and `Api.GetTeamsOneRowPerTeam` needs unique user ids for it.
- **Limits:** they are natural numbers. The HTTP routes' `parseInt` of a query parameter (a negative value or NaN) is not part of this model.
- **React state:** hooks, the loading and error states, `fetch` of the JSON routes and the markup layout are left out. Only the values the pages compute are modelled, including the class strings chosen for the status badge, the status dot and the transaction badge; all other CSS classes are left out.
- **`ItemsTable.GetStockStatus`:** `minimum * 1.5` is compared in exact real arithmetic. JavaScript double rounding above 2^53 is not modelled.
- **`UsersPage.ToUpper`:** it upper-cases a–z only and leaves any other character unchanged. `toUpperCase` also maps letters outside a–z, such as 'é' to 'É', and expands some, such as 'ß' to "SS"; neither is modelled.
- UsersPage.Initial: it reads the e-mail's first code point, while `charAt(0)` reads the first UTF-16 code unit. For an e-mail starting with a character outside the Basic Multilingual Plane (an emoji, say), the page shows a lone high surrogate, and the model shows the whole character.
- **Unknown transaction kinds:** a stored transaction's kind is one of the five `TransactionKind` values. The default branches of the label and colour switches are modelled on raw strings only (`RecentTransactions.TransactionTypeLabel`, `TransactionTypeColor`).
- TeamsPage.Header: assumes that the three counts of a team row arrive as numbers, and so does `TeamsPage.CardTotalsMatchHeader`. The query delivers them as `COUNT(*)` columns, and the pool's type parsing is not part of this model. If a driver delivered them as text, `sum + (team.items_count || 0)` and the card total would concatenate strings instead of adding.
- **What the code does and does not do:**
  - `getUsers` returns constant zero counts; the code does no per-user enrichment.
  - `getTeams` returns no member or team lists per row.
  - A non-numeric limit is not replaced by the default.
  - "Newest first" means non-increasing creation time, not strictly decreasing.
