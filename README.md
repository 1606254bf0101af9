# Sales transaction engine of a point-of-sale backend, in Dafny

This project models the core of a point-of-sale backend: the sale engine in
`src/modules/sales/sales.service.js` and the authentication gate in `src/core/auth.js`.

The engine works on a stock ledger and a sale table:

- The ledger is a map from (productId, storeId) to a quantity.
- The sale table maps an id to a sale: storeId, userId, tipoDocumento, subtotal, total, estado
  (ACTIVA or ANULADA), a deletedAt soft-delete stamp, and the ordered item lines.

The engine has these operations:

- `calcTotals` validates and prices the raw lines.
- `create` checks every line against the ledger, then inserts the sale and decrements stock.
- `update` adds the old lines back, replaces the items, re-checks and re-applies the new lines,
  and rewrites the header.
- `void` adds the items back and marks the sale ANULADA with deletedAt set.
- `getById` hides soft-deleted sales.

Each `$transaction` is one atomic step. A thrown error leaves the ledger and the table unchanged.

Files, one module each:

- `wrappers.dfy` (Wrappers): Option, Result, Outcome.
- `errors.dfy` (Errors): the errors raised, with the HTTP status and code the error middleware of
  `src/core/errores.js` answers with.
- `totals.dfy` (Totals): `calcTotals`, as the method `CalcTotals` with its loop, and the functions
  that specify it.
- `ledger.dfy` (StockLedger): the ledger, what a list of lines demands of each row, debit and
  credit, the per-line stock check (`CheckStock`) and the add-back loop (`AddBack`) that
  `create`, `update` and `void` share.
- `sales.dfy` (Sales): the sale and database values; the functions `CreateSale`, `UpdateSale`,
  `VoidSale` and `GetSale` that specify each operation on a value `Db`; and the class
  `SalesService`. The class holds the ledger, the table and the next id as fields. Its methods
  run the source's loops on a transaction copy and commit at the end. Each method is proved to
  end in exactly the state and result the matching function gives, and to change nothing when
  that function fails.
- `sales_properties.dfy` (SalesProperties): the properties of the engine.
- `auth.dfy` (Auth): token extraction, `authRequired` over a `Request` object, `requireRole`.

Money is integer cents and quantities are integers. `toFixed(2)` is then exact, so a line
subtotal is `cantidad * precio` and the sale total is the plain sum.

Some behaviour of the code is easy to misread; the model follows the code:

- Stock effects of `update` all use the sale's original store. The header's storeId is
  overwritten afterwards. The stock is not re-applied at the new store, so a later `void`
  adds the stock back at the new store (`StoreChangeMisdirectsVoid`). If the new store has no
  row for a product, `void` fails on the missing row (`StoreChangeBlocksVoid`).
- The stock floor holds only when the lines of a sale name distinct products. Each line is
  checked against the row before any decrement, so duplicate lines can overdraw a row
  (`DuplicateLinesOverdraw` for `create`, `UpdateDuplicateLinesOverdraw` for `update`).
- A second `void`, or an `update` of a voided sale, answers 404. It does not answer
  "already voided", because `void` sets deletedAt and the existence check comes first
  (`VoidIsTerminal`). The "already voided" and "only ACTIVA sales are editable" branches
  cannot be reached while ANULADA goes with deletedAt (`NotActiveRejectionsUnreachable`).
- `update` does not require a non-empty item list. An empty list empties the sale and sets its
  total to 0. An item list that is not an array fails inside `calcTotals` with a 500.

## Model

| member | source | states |
|---|---|---|
| Totals.Priced | src/modules/sales/sales.service.js:12-21 | the normalised lines are in input order, one per raw line, each with its productId, cantidad, precio and subtotal = cantidad × precio |
| Totals.CalcTotals | src/modules/sales/sales.service.js:10-25 | the whole batch is rejected (400) iff some line has a falsy productId, cantidad ≤ 0 or precio ≤ 0; otherwise the priced lines in input order with subtotal == total == the sum of the line subtotals |
| StockLedger.FirstShortfallNone | src/modules/sales/sales.service.js:38-57 | the per-line check finds nothing exactly when every line's row exists and holds at least that line's cantidad |
| StockLedger.FirstShortfallSome | src/modules/sales/sales.service.js:122-137 | a reported shortfall belongs to the first line that does not fit, every earlier line fits, and the error is "not configured" only for a missing row when create reports it so |
| StockLedger.FirstMissingNone | src/modules/sales/sales.service.js:185-195 | crediting the lines finds no missing row exactly when every line has a row at the store |
| StockLedger.CreditUndoesDebit | src/modules/sales/sales.service.js:80-88 | incrementing a store's rows by the same lines undoes a decrement, and the other way round |
| StockLedger.CheckStock | src/modules/sales/sales.service.js:37-57 | the per-line loop stops at the first line without a row ("not configured" in create, "insufficient" in update) or with too little stock, and answers nothing when every line fits |
| StockLedger.AddBack | src/modules/sales/sales.service.js:107-118 | adding the lines back fails on the first line whose row is missing at the store; otherwise every row of that store gains exactly what the lines demand of it |
| StockLedger.DebitedNonNegative | src/modules/sales/sales.service.js:38-57 | decrementing lines of distinct products, each of which fits its row, keeps every row non-negative |
| StockLedger.CreditedNonNegative | src/modules/sales/sales.service.js:108-118 | adding back lines of positive quantity keeps every row non-negative |
| Sales.SalesService.Create | src/modules/sales/sales.service.js:28-93 | create returns the new id and leaves ledger, table and next id exactly as CreateSale says; on any error nothing changes |
| Sales.SalesService.Update | src/modules/sales/sales.service.js:95-172 | update returns the rewritten sale and leaves ledger and table exactly as UpdateSale says; on any error, including a failed re-check after the add-back, nothing changes |
| Sales.SalesService.Void | src/modules/sales/sales.service.js:174-202 | void returns the voided sale and leaves ledger and table exactly as VoidSale says; on any error nothing changes |
| SalesProperties.CreateValidationIgnoresState | src/modules/sales/sales.service.js:29-35 | a missing storeId/userId, tipoDocumento or items, or an invalid line, is rejected with the same 400 error whatever the ledger and table hold |
| SalesProperties.CreateSucceedsIff | src/modules/sales/sales.service.js:29-57 | create succeeds exactly when the input is accepted and every priced line fits its row at the given store |
| SalesProperties.CreateStockError | src/modules/sales/sales.service.js:38-57 | a stock failure names the first line that does not fit: no row gives "not configured", a short row "insufficient" |
| SalesProperties.CreateRecordsSale | src/modules/sales/sales.service.js:59-78 | the new sale gets a fresh id, ACTIVA, no deletedAt, the priced lines in input order and subtotal == total == their sum; every other sale is unchanged and getById finds it |
| SalesProperties.CreateDebitsEachLine | src/modules/sales/sales.service.js:80-88 | with distinct products, each line's (productId, storeId) row goes down by exactly that line's cantidad |
| SalesProperties.CreateLeavesOtherRows | src/modules/sales/sales.service.js:80-88 | rows of other stores and of products no line names keep their key and quantity |
| SalesProperties.CreateKeepsStockNonNegative | src/modules/sales/sales.service.js:38-57 | with distinct products and a non-negative ledger, a successful create leaves every row non-negative |
| SalesProperties.DuplicateLinesOverdraw | src/modules/sales/sales.service.js:52 | two lines of 3 units of one product against a row of 5 both pass the check, and the row ends at −1 |
| SalesProperties.UpdateDuplicateLinesOverdraw | src/modules/sales/sales.service.js:122-157 | a row of 5 holding a sale of 1 unit, edited to two lines of 3 units: both lines fit the restored row of 5 and the row ends at −1 |
| SalesProperties.UpdateSucceedsIff | src/modules/sales/sales.service.js:101-137 | update succeeds exactly when the sale is live and ACTIVA, the lines are valid, every old line has a row at the sale's store, and every new line fits the ledger with the old lines added back |
| SalesProperties.UpdateNetEffect | src/modules/sales/sales.service.js:108-157 | each row of the sale's original store ends at old + old demand − new demand for its product; rows of other stores are untouched |
| SalesProperties.UpdateRewritesSale | src/modules/sales/sales.service.js:139-168 | items are replaced wholesale by the new priced lines and totals recomputed; tipoDocumento is kept only when absent; storeId is replaced when truthy; no other sale changes |
| SalesProperties.UpdateSameLinesKeepsLedger | src/modules/sales/sales.service.js:108-157 | updating a sale with its own lines leaves the ledger exactly as it was |
| SalesProperties.UpdateKeepsStockNonNegative | src/modules/sales/sales.service.js:122-157 | with distinct new products, a consistent table and a non-negative ledger, a successful update leaves every row non-negative |
| SalesProperties.CreateThenVoidRestoresLedger | src/modules/sales/sales.service.js:185-200 | voiding a sale right after creating it succeeds, marks it ANULADA, and restores the ledger exactly |
| SalesProperties.VoidKeepsStockNonNegative | src/modules/sales/sales.service.js:185-195 | in a consistent table with a non-negative ledger, a successful void leaves every row non-negative |
| Sales.GetSale | src/modules/sales/sales.service.js:204-212 | getById finds a sale exactly when its id is in the table and it has no deletedAt, returns that sale, and otherwise answers 404 |
| SalesProperties.VoidIsTerminal | src/modules/sales/sales.service.js:101-210 | after a void, the existence checks of update (line 101), void (line 181) and getById (line 210) all fail with 404 |
| SalesProperties.NotActiveRejectionsUnreachable | src/modules/sales/sales.service.js:101-103 | in a consistent table a live sale is ACTIVA: void never answers "already voided", update never "only ACTIVA", and getById only returns ACTIVA sales |
| SalesProperties.CreatePreservesValid | src/modules/sales/sales.service.js:59-78 | create keeps every sale consistent: priced lines, subtotal == total == sum of line subtotals, ANULADA iff deletedAt, ids below the next id |
| SalesProperties.UpdatePreservesValid | src/modules/sales/sales.service.js:139-168 | update keeps every sale consistent |
| SalesProperties.VoidPreservesValid | src/modules/sales/sales.service.js:197-200 | void keeps every sale consistent, setting ANULADA together with deletedAt |
| SalesProperties.StoreChangeMisdirectsVoid | src/modules/sales/sales.service.js:166 | create at store 1, update to store 2, void: store 1 stays debited by 4 and store 2 gains 4 |
| SalesProperties.StoreChangeBlocksVoid | src/modules/sales/sales.service.js:186-194 | after moving a sale to a store without a row for its product, void fails on the missing row and store 1 is never credited |
| SalesProperties.SellEditVoidExample | src/modules/sales/sales.service.js:28-202 | 100 units: selling 10 at 3.50 totals 35.00 and leaves 90; editing to 20 leaves 80; voiding restores 100 |
| SalesProperties.InsufficientStockExample | src/modules/sales/sales.service.js:52-56 | 5 units and a line of 10: create fails with insufficient stock |
| Auth.ExtractToken | src/core/auth.js:16-19 | a token is returned only from a header equal to "Bearer " + token with a non-empty token; anything else is 401 NO_TOKEN |
| Auth.TokenRoundTrip | src/core/auth.js:17 | every non-empty token behind "Bearer " is extracted exactly |
| Auth.EmptyTokensRejected | src/core/auth.js:16-19 | a header of exactly "Bearer " is NO_TOKEN, and an absent header behaves as the empty one |
| Auth.AuthRequired | src/core/auth.js:15-28 | NO_TOKEN or BAD_TOKEN leave req.user untouched; a verified token sets req.user to the decoded payload and passes |
| Auth.RequireRole | src/core/auth.js:30-38 | pass exactly when the user has a truthy role listed in roles; 401 exactly when there is no role; otherwise 403 FORBIDDEN |
| Auth.RequireRoleMonotone | src/core/auth.js:33 | enlarging the allowed roles never turns a pass into a failure |

## Left out

- Concurrency and isolation: each `$transaction` is one atomic step. The race between the
  stock check and the decrement, and `update`/`void` reading the sale outside the transaction,
  are not modelled.
- JavaScript `Number()` coercion and floating point: quantities are integers and prices integer
  cents, so `toFixed(2)` is exact; NaN quantities, fractional quantities and float rounding are
  not modelled.
- The ORM's own error for a missing stock row: it is modelled as `RowMissing` with status 500;
  its error code is not modelled.
- Referential integrity and other database errors: the model has no store or user table. Three
  inputs make the database fail with a 500 and roll the transaction back, and `CreateSale` and
  `UpdateSale` do not produce that failure: a `create` whose userId names no user, an `update`
  whose truthy storeId names no store, and a storeId that is not numeric. `CreateSucceedsIff` and
  `UpdateSucceedsIff` hold up to these failures. A productId with no stock row, or a `create`
  storeId with no stock rows, is caught by the code's own stock check as a 400, and the model
  gives that 400.
- Error messages are not modelled; only the kind, status and code of each error are.
- `createdAt`, SaleItem ids and the `product` relation that `getById` includes: the product
  catalog is not part of this model, and timestamps other than `deletedAt` (a parameter `now`)
  are not modelled.
- Sales.SalesService.Create: returns the new sale's id rather than the created row; the row is
  in the table and described by `CreateSale`.
- Sales.SalesService.Update: returns the rewritten sale with its items, while the source returns
  the updated header row, which carries no items.
- Sales.SalesService.Void: returns the voided sale with its items, while the source returns the
  updated header row, which carries no items.
- `signToken` and `jwt.verify`: token signing is not modelled, and verification is a function
  parameter that either decodes a payload or fails.
- `src/modules/sales/sales.pdf.js` (document rendering, float tax arithmetic), the route and
  wiring files, the paginated sale list, the manual stock adjustment endpoint, the ORM and
  environment setup, the auth service and the seed script are not part of this model.
