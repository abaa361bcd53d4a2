# ndms inventory dashboard — a Dafny model

This project models the logic of the ndms retail dashboard for a chain of bakeries. The model centres on the daily per-product inventory reconciliation in `components/InventoryTable.tsx`. For each day the view builds one row per product that is listed on that day. Each row holds:

- Qty Yesterday, the units restocked, Qty at Start, Qty at End and the units sold;
- the takings and the margin;
- the product's batches, each with an expiry date;
- a freshness status rolled up from the batches by strict plurality;
- a report of which prior batches were sold from.

Staff can restock a row, which appends a new batch. They can also edit the row's batches and save them, which settles the row. The model covers both operations.

Beside the inventory view, the model covers the CRUD pages for orders, products, categories, users and locations. Each page keeps a small keyed table. It allocates fresh ids as `max(0, ids) + 1`, validates its forms, and changes only the row with the matching id.

The model follows the source's own form:

- **Pure logic.** The expiry classifier, the rollup, the active-on-date filter, the opening of a day, the order total and the name lookups are datatypes and functions with lemmas.
- **Loop.** `calculateSoldBatches` is a method with a loop. It is proved equal to a recursive specification whose ordering and completeness are lemmas.
- **Mutable state.** Each page's component state is a class:
  - `InventoryTable`, `OrdersPage`, `ProductsPage`, `CategoriesPage`, `UsersPage` and `LocationsPage`;
  - each has `seq` fields for its tables and its edit buffers;
  - each event handler is a method whose postcondition gives the whole new state;
  - each class keeps a `Valid()` invariant: unique ids, and on the inventory view the per-row bookkeeping.

Other conventions:

- Dates are whole day numbers.
- Prices and quantities are integers.
- The source's random draws, the clock and the generated batch ids are parameters.

Modules:

- `Tables`: generic keyed-row helpers, namely `Option`/`Result`, fresh ids, map-by-id, filter, find and sums.
- `Expiry`: the classifier and the rollup.
- `Ledger`: batches, the stable sort by expiry, and the sold-batches report with its loop.
- `Lifecycle`: the active-on-date filter and the recently-deleted window.
- `Reconciliation`: one inventory row, covering opening, restock and settle.
- `Inventory`: the inventory view's state and handlers.
- `Orders`, `Products`, `Categories`, `Users`, `Locations`: one module per page.

## Model

| member | source | states |
|---|---|---|
| Tables.MaxOf | app/dashboard/orders/page.tsx:120 | `Math.max(0, ...ids)` is at least 0 and every id, and is either 0 or one of the ids |
| Tables.NextId | app/dashboard/orders/page.tsx:120 | the allocated id is at least 1, above every existing id and so not among them |
| Tables.NextIdIsFresh | app/dashboard/products/page.tsx:118 | every existing row's key is below the allocated id |
| Tables.UpdateWhere | app/dashboard/users/page.tsx:68 | mapping by id keeps the length, transforms exactly the rows whose key matches and leaves every other row as it was |
| Tables.UpdateWhereAt | app/dashboard/users/page.tsx:77 | with unique ids, mapping by id changes exactly the one row carrying the id |
| Tables.UpdateWhereUndo | app/dashboard/users/page.tsx:77 | a second map that undoes the first on the matching rows restores the table |
| Tables.UpdateWhereAbsent | app/dashboard/users/page.tsx:77 | mapping by an id no row carries leaves the table unchanged |
| Tables.Filter | app/dashboard/categories/page.tsx:65 | `filter` keeps exactly the rows passing the test and never lengthens the table |
| Tables.FilterAppend | components/InventoryTable.tsx:229-239 | filtering distributes over concatenation, so survivors keep their order |
| Tables.FilterKeyAt | app/dashboard/categories/page.tsx:65 | with unique ids, filtering out an id removes exactly the row at its index and keeps the rest in order |
| Tables.FilterKeyAbsent | app/dashboard/categories/page.tsx:65 | filtering out an id no row carries keeps the whole table |
| Tables.Find | components/InventoryTable.tsx:293 | `find` returns a row passing the test, or none when no row passes |
| Tables.FindFirst | components/InventoryTable.tsx:439 | `find` returns the first passing row |
| Tables.SumOf | components/InventoryTable.tsx:662 | a `reduce` sum of non-negative terms is non-negative |
| Tables.SumOfAppend | components/InventoryTable.tsx:662 | the sum over a concatenation is the sum of the sums |
| Expiry.Classify | components/InventoryTable.tsx:242-251 | expired iff at most 0 days to expiry, warning iff 1 or 2 days, safe iff more than 2 |
| Expiry.ClassifyMonotone | components/InventoryTable.tsx:242-251 | viewed on a later day a batch is never classified as fresher |
| Expiry.CountIsMultiplicity | components/InventoryTable.tsx:340-344 | counting one tier's statuses gives that tier's multiplicity |
| Expiry.CountsCoverAll | components/InventoryTable.tsx:340-344 | every status lands in exactly one counter |
| Expiry.Tally | components/InventoryTable.tsx:340-344 | the three counters add up to the number of batches |
| Expiry.TallyIsMultiplicity | components/InventoryTable.tsx:584-589 | each counter is its tier's multiplicity among the statuses |
| Expiry.Majority | components/InventoryTable.tsx:347-352 | expired iff its count beats both others, warning likewise, otherwise safe |
| Expiry.MajorityWinnerDominates | components/InventoryTable.tsx:703-715 | a non-default winner holds strictly more batches than each other tier |
| Expiry.RollupIgnoresOrder | components/InventoryTable.tsx:703-715 | the rollup depends only on the multiset of statuses |
| Expiry.MajorityDefaultsToSafe | components/InventoryTable.tsx:347-352 | no batches, or a tie at the top, reads as safe even with no safe batch |
| Ledger.SumRemainingNonNegative | components/InventoryTable.tsx:662 | stock on hand is non-negative when no batch count is negative |
| Ledger.SumRemainingAppend | components/InventoryTable.tsx:321 | the stock of previous plus new batches is the sum of the two stocks |
| Ledger.SumQuantityAppend | components/InventoryTable.tsx:580 | appending a batch adds its quantity to the restocked total |
| Ledger.SumSingle | components/InventoryTable.tsx:303-316 | a single batch's stock and quantity are its own counts |
| Ledger.Statuses | components/InventoryTable.tsx:337 | one status per batch, each the classification of that batch's expiry |
| Ledger.InsertByExpiry | components/InventoryTable.tsx:434 | inserting a batch into the ledger lengthens it by one and adds exactly that batch |
| Ledger.InsertKeepsSorted | components/InventoryTable.tsx:434 | inserting into a ledger sorted by expiry keeps it sorted |
| Ledger.InsertByExpiryPermutes | components/InventoryTable.tsx:434 | insertion adds exactly the one batch |
| Ledger.SortByExpiry | components/InventoryTable.tsx:434 | the sorted ledger has the same batches and length and is sorted by expiry |
| Ledger.SortByExpiryStable | components/InventoryTable.tsx:434 | the sort is stable: the batches expiring on any one day keep their original order |
| Ledger.InsertByExpiryStable | components/InventoryTable.tsx:434 | insertion puts the batch in front of every batch with its own expiry day, keeping their order |
| Ledger.SortByExpiryPermutes | components/InventoryTable.tsx:434 | sorting is a permutation of the ledger |
| Ledger.FindBatch | components/InventoryTable.tsx:439 | the batch found has the id and is in the current ledger, or no current batch has the id |
| Ledger.FindBatchInPrefix | components/InventoryTable.tsx:439 | a batch of yesterday's ledger, looked up by id in the opening ledger, is found unchanged |
| Ledger.SoldEntries | components/InventoryTable.tsx:437-457 | the report has at most one line per prior batch |
| Ledger.SoldEntriesDescribe | components/InventoryTable.tsx:441-456 | each line is about a prior batch: gone means all remaining units sold, a lower count means the difference sold |
| Ledger.SoldEntriesComplete | components/InventoryTable.tsx:441-456 | a prior batch gets a line exactly when it is gone or its count went down |
| Ledger.SoldEntriesAppend | components/InventoryTable.tsx:437 | the report over two stretches of prior batches is the two reports back to back |
| Ledger.SoldEntriesOrdered | components/InventoryTable.tsx:434-437 | over sorted prior batches the lines come out by non-decreasing expiry |
| Ledger.SoldEntriesNoneWhenUnchanged | components/InventoryTable.tsx:441-456 | when every prior batch is found unchanged nothing is reported |
| Ledger.OpeningReportsNoSales | components/InventoryTable.tsx:385 | the opening report, with previous batches against previous plus new, is empty |
| Ledger.SoldReportShape | components/InventoryTable.tsx:430-460 | the report is no longer than the prior list, describes prior batches, and is ordered by expiry |
| Ledger.CalculateSoldBatches | components/InventoryTable.tsx:430-460 | the loop pushes exactly the report's lines: no more lines than prior batches, each describing a prior batch, ordered by expiry |
| Lifecycle.ProductsForDate | components/InventoryTable.tsx:229-239 | exactly the catalogue products created by the date and not deleted by it |
| Lifecycle.ProductsForDateAppend | components/InventoryTable.tsx:229-239 | the selection keeps catalogue order |
| Lifecycle.ActiveWindow | components/InventoryTable.tsx:232-235 | the days a product is listed form one unbroken stretch: listed on two days, it is listed on every day between |
| Lifecycle.NotListedOutsideWindow | components/InventoryTable.tsx:232-235 | a product is never listed before its creation day, nor on or after its deletion day |
| Lifecycle.ProductsForDateBetween | components/InventoryTable.tsx:229-239 | a product the selection includes on two days is included on every day between them |
| Lifecycle.ListedRecentlyDeleted | components/InventoryTable.tsx:366-369 | a listed product flagged as recently deleted is deleted 1 to 30 days after the date |
| Reconciliation.YesterdayOf | components/InventoryTable.tsx:293 | yesterday's record found has the product's id, or no record has it |
| Reconciliation.ProductOf | components/InventoryTable.tsx:561 | the catalogue product found has the id, or none has it |
| Reconciliation.GenerateInventoryData | components/InventoryTable.tsx:268-291 | one row per product listed on the date |
| Reconciliation.OpenDayBatches | components/InventoryTable.tsx:303-322 | the previous batches are yesterday's record's batches unchanged (none without a record); a new batch of all the restocked units, entered today and expiring after the shelf life, exists exactly when something was restocked; the ledger is the two together |
| Reconciliation.OpenDayLedger | components/InventoryTable.tsx:297-325 | the opening ledger is yesterday's record's batches plus at most one new batch of the restocked units; the start is its stock; nothing is reported sold |
| Reconciliation.OpenDayProperties | components/InventoryTable.tsx:293-395 | Qty Yesterday is yesterday's end (0 without a record); start is yesterday plus restock; 0 <= end <= start; sold, sales and profit follow; the row is consistent |
| Reconciliation.GeneratedRowsConsistent | components/InventoryTable.tsx:268-395 | every generated row belongs to its product, is consistent, and is settled at that product's prices |
| Reconciliation.OpenDayAdvisory | components/InventoryTable.tsx:366-369 | a flagged opening row carries a deletion 1 to 30 days after the date |
| Reconciliation.AdvisoryWindow | components/InventoryTable.tsx:512 | the recently-deleted advisory lists only products deleted 1 to 30 days after the date |
| Reconciliation.RestockProperties | components/InventoryTable.tsx:565-597 | restocked and start rise by the quantity; one new batch is appended to the ledger and to the new batches; the status re-rolls; nothing else changes; the row stays consistent |
| Reconciliation.RestockLeavesSoldStale | components/InventoryTable.tsx:577-581 | after a restock the sold column equals start minus end minus the restocked units |
| Reconciliation.SettleOrReject | components/InventoryTable.tsx:662-718 | rejected iff the edited stock exceeds the start; otherwise end is that stock, the ledger is the edit, sold = start - end >= 0, the report is the sold entries of previous plus new batches against the edit, counts and status are re-rolled from the edit, sales and profit stay when the product is missing, and every other column is kept |
| Reconciliation.SettleKeepsFields | components/InventoryTable.tsx:676-718 | a save keeps the product, Qty Yesterday, Qty Restocked, Qty at Start, the previous and new batches and the advisory flag |
| Reconciliation.SettleKeepsConsistent | components/InventoryTable.tsx:676-718 | an accepted save keeps the row's bookkeeping |
| Reconciliation.SettleEndIsStock | components/InventoryTable.tsx:676-689 | after a save the end is the stock in the ledger and 0 <= sold <= start |
| Reconciliation.SettleSettles | components/InventoryTable.tsx:689-700 | with the product found, sales and profit follow the units sold |
| Reconciliation.SettleReport | components/InventoryTable.tsx:691 | the saved report is ordered by expiry and describes previous and new batches against the edit |
| Reconciliation.SettleIdempotent | components/InventoryTable.tsx:658-718 | saving the same edit twice gives the same row as saving it once |
| Reconciliation.CarryOver | components/InventoryTable.tsx:293-325 | a settled row handed over as end of day opens the next day with Qty Yesterday equal to its end and with its batches |
| Inventory.SettleItem | components/InventoryTable.tsx:676-718 | the row update of a save: the report from the loop, then the settled row |
| Inventory.InventoryTable.constructor | components/InventoryTable.tsx:507-513 | the view opens with the generated rows, the advisory filtered from them, nothing selected, and the invariant established |
| Inventory.InventoryTable.EditQuantity | components/InventoryTable.tsx:530-535 | selects the row and copies its batches into the edit buffer |
| Inventory.InventoryTable.Restock | components/InventoryTable.tsx:537-547 | selects the row and resets the form to 0 units, expiring after the product's shelf life |
| Inventory.InventoryTable.SetRestockQuantity | components/InventoryTable.tsx:1139 | the form's quantity field |
| Inventory.InventoryTable.SetRestockExpiry | components/InventoryTable.tsx:1164 | the form's date picker |
| Inventory.InventoryTable.SaveRestock | components/InventoryTable.tsx:550-608 | no row selected or quantity <= 0: rejected, nothing changes; else only the selected row is restocked and the selection is cleared |
| Inventory.InventoryTable.UpdateBatchQuantity | components/InventoryTable.tsx:610-620 | a negative count is ignored; otherwise only that batch's remaining changes |
| Inventory.InventoryTable.UpdateBatchExpiryDate | components/InventoryTable.tsx:622-630 | only that batch's expiry changes |
| Inventory.InventoryTable.AddNewBatch | components/InventoryTable.tsx:632-649 | appends one batch of the row's product with quantity and remaining 0 |
| Inventory.InventoryTable.RemoveBatch | components/InventoryTable.tsx:651-655 | the buffer shrinks by one, keeping the other batches in order |
| Inventory.InventoryTable.SaveQuantity | components/InventoryTable.tsx:658-728 | no row selected, or edited stock above start: rejected, nothing changes; else only the selected row is replaced by its settled form and the selection is cleared |
| Orders.OrderTotal | app/dashboard/orders/page.tsx:153-155 | the total is non-negative when no quantity or price is negative |
| Orders.OrderTotalAppend | app/dashboard/orders/page.tsx:153-155 | the total over two runs of items is the sum of their totals |
| Orders.OrderTotalSingle | app/dashboard/orders/page.tsx:153-155 | one item's total is quantity times price |
| Orders.ProductName | app/dashboard/orders/page.tsx:87-89 | the first product with that id gives its name when non-empty; otherwise, and when no product has the id, "Unknown Product"; never empty |
| Orders.ProductNameUnique | app/dashboard/orders/page.tsx:87-89 | with unique ids, a product with a non-empty name is shown under exactly that name |
| Orders.PriceOf | app/dashboard/orders/page.tsx:129 | the selling price of a product with that id, or 0 when no product has it |
| Orders.PriceOfUnique | app/dashboard/orders/page.tsx:129 | with unique ids, the price is that product's selling price |
| Orders.PagePrices | app/dashboard/orders/page.tsx:25-29 | the page's three products are priced 2000, 2500 and 3000; any other id is priced 0 |
| Orders.PriceItems | app/dashboard/orders/page.tsx:126-130 | each order item keeps its draft's product and quantity, and its price is `PriceOf` that product: the selling price, or 0 for an unknown id |
| Orders.Offered | app/dashboard/orders/page.tsx:287-313 | every offered move advances the status; delivered and cancelled offer none |
| Orders.PathRanks | app/dashboard/orders/page.tsx:287-313 | along any run of offered moves the rank rises by at least one per move |
| Orders.PathsAreShort | app/dashboard/orders/page.tsx:287-313 | a run of offered moves has at most 3 statuses and never revisits one |
| Orders.DeliveredAfterApproved | app/dashboard/orders/page.tsx:305-309 | an order reaches delivered only from approved |
| Orders.OrdersPage.constructor | app/dashboard/orders/page.tsx:63-69 | the page opens with the given orders and a blank draft at the default location |
| Orders.OrdersPage.SelectLocation | app/dashboard/orders/page.tsx:176-177 | sets the draft's location |
| Orders.OrdersPage.AddItem | app/dashboard/orders/page.tsx:91-96 | appends one blank item with quantity 1 |
| Orders.OrdersPage.RemoveItem | app/dashboard/orders/page.tsx:98-103 | removes exactly that index when more than one item remains |
| Orders.OrdersPage.ItemChange | app/dashboard/orders/page.tsx:105-109 | only the indexed item changes, and only the edited field |
| Orders.OrdersPage.CreateOrder | app/dashboard/orders/page.tsx:111-143 | an item without product or with quantity < 1 rejects; else one pending order with a fresh id, dated now, at the draft location, with lines priced by `PriceItems` from the page's catalogue (see `PagePrices`) is appended and the draft resets |
| Orders.OrdersPage.UpdateOrderStatus | app/dashboard/orders/page.tsx:145-151 | only the order with the id gets the new status |
| Products.CategoryName | app/dashboard/products/page.tsx:218-220 | the one category with that id gives its name when non-empty; "Unknown" when no category has the id; never empty |
| Products.PageCategoryNames | app/dashboard/products/page.tsx:42-46 | ids 1, 2 and 3 name Bread, Pastries and Beverages; any other id is "Unknown" |
| Products.Actions | app/dashboard/products/page.tsx:460-483 | the row being edited offers only save; otherwise edit and delete iff active, restore iff not |
| Products.DeleteIn | app/dashboard/products/page.tsx:165-184 | only the product with the id is marked inactive with the deletion day |
| Products.RestoreIn | app/dashboard/products/page.tsx:192-211 | only the product with the id is marked active with no deletion day |
| Products.RestoreUndoesDelete | app/dashboard/products/page.tsx:165-211 | deleting a listed product and restoring it gives back the same table |
| Products.DeleteRestoreStatus | app/dashboard/products/page.tsx:174-206 | delete makes a status inactive with the day; restore after delete gives the fresh status |
| Products.ProductsPage.constructor | app/dashboard/products/page.tsx:95-107 | the page opens with the given products and nothing being edited |
| Products.ProductsPage.AddProduct | app/dashboard/products/page.tsx:110-151 | an empty name or no category rejects; else one active, undeleted product with a fresh id is appended |
| Products.ProductsPage.StartEdit | app/dashboard/products/page.tsx:470 | an active row becomes the one being edited |
| Products.ProductsPage.EditFields | app/dashboard/products/page.tsx:370-455 | the edited copy's name, category, prices, shelf life and threshold change; id, image and status are kept |
| Products.ProductsPage.UpdateProduct | app/dashboard/products/page.tsx:153-162 | nothing edited or an empty name: no change; else only the row with the id is replaced and editing stops |
| Products.ProductsPage.DeleteProduct | app/dashboard/products/page.tsx:165-189 | only the product with the id is soft-deleted |
| Products.ProductsPage.RestoreProduct | app/dashboard/products/page.tsx:192-216 | only the product with the id is listed again |
| Categories.Without | app/dashboard/categories/page.tsx:65 | exactly the categories without the id remain |
| Categories.WithoutRemovesOne | app/dashboard/categories/page.tsx:65 | with unique ids, deleting removes exactly the one row, keeping the rest in order |
| Categories.WithoutAbsent | app/dashboard/categories/page.tsx:65 | deleting an id nobody carries changes nothing |
| Categories.CategoriesPage.constructor | app/dashboard/categories/page.tsx:28-31 | the page opens with the given categories and nothing being edited |
| Categories.CategoriesPage.AddCategory | app/dashboard/categories/page.tsx:34-50 | an empty name rejects; else one category with a fresh id is appended |
| Categories.CategoriesPage.StartEdit | app/dashboard/categories/page.tsx:162 | a row becomes the one being edited |
| Categories.CategoriesPage.EditFields | app/dashboard/categories/page.tsx:139-149 | the edited copy's name and description change |
| Categories.CategoriesPage.UpdateCategory | app/dashboard/categories/page.tsx:52-61 | nothing edited or an empty name: no change; else only the row with the id is replaced |
| Categories.CategoriesPage.DeleteCategory | app/dashboard/categories/page.tsx:63-70 | removes exactly the row with the id, keeping the rest in order |
| Users.ToggleIn | app/dashboard/users/page.tsx:77 | only the user with the id flips status |
| Users.ToggleTwice | app/dashboard/users/page.tsx:77 | toggling the same id twice restores the table |
| Users.UsersPage.constructor | app/dashboard/users/page.tsx:31-41 | the page opens with the given users and nothing being edited |
| Users.UsersPage.AddUser | app/dashboard/users/page.tsx:47-63 | any empty field rejects; else one active user with a fresh id is appended |
| Users.UsersPage.StartEdit | app/dashboard/users/page.tsx:277 | a row becomes the one being edited |
| Users.UsersPage.EditFields | app/dashboard/users/page.tsx:206-247 | the edited copy's name, email, role and location change |
| Users.UsersPage.UpdateUser | app/dashboard/users/page.tsx:65-74 | nothing edited or no name or email: no change; else only the row with the id is replaced |
| Users.UsersPage.ToggleUserStatus | app/dashboard/users/page.tsx:76-85 | only the user with the id flips; the notice says activated iff it is now active or no user has the id |
| Locations.ToggleIn | app/dashboard/locations/page.tsx:71 | only the location with the id flips status |
| Locations.ToggleTwice | app/dashboard/locations/page.tsx:71 | toggling the same id twice restores the table |
| Locations.LocationsPage.constructor | app/dashboard/locations/page.tsx:29-38 | the page opens with the given locations and nothing being edited |
| Locations.LocationsPage.AddLocation | app/dashboard/locations/page.tsx:41-57 | no name or address rejects; else one active location with a fresh id and 0 users is appended |
| Locations.LocationsPage.StartEdit | app/dashboard/locations/page.tsx:184 | a row becomes the one being edited |
| Locations.LocationsPage.EditFields | app/dashboard/locations/page.tsx:150-160 | the edited copy's name and address change |
| Locations.LocationsPage.UpdateLocation | app/dashboard/locations/page.tsx:59-68 | nothing edited or no name or address: no change; else only the row with the id is replaced |
| Locations.LocationsPage.ToggleLocationStatus | app/dashboard/locations/page.tsx:70-79 | only the location with the id flips; the notice says activated iff it is now active or no location has the id |

## Left out

- Rendering, dialogs, popovers, the image lightbox, colour helpers and toast notifications are user-interface only. Only the flags that notifications read are kept, as in `ToggleUserStatus`.
- Randomness, the clock and generated ids are parameters. `Math.random`, `new Date()`, `Date.now()` and the string batch ids become explicit inputs: the `DayDraw` record of each opening row, the `now`/`today` day numbers and the batch ids passed to the handlers.
- `generateBatchesForDate` and the simulated end-of-day ledger are not modelled. Yesterday's end-of-day records are an input (`YesterdayEnd`) that is required to be well formed.
- Reconciliation.OpenDayProperties: the source caps the simulated sales draw at `min(10, start)`. The model takes the draw as any natural number, so the proved bounds hold for every draw.
- Time of day is not modelled: dates are whole day numbers. `differenceInDays` truncation and `date-fns` formatting are not modelled.
- Number parsing of form strings is not modelled. The NaN results of `parseInt`/`parseFloat` and fractional prices are left out; prices and quantities are integers.
- Expiry statuses stored on batches are recomputed. The source stores a status on each batch and re-counts stored statuses on restock. The model classifies each batch's expiry against the view's date instead. This gives the same counts, because the stored statuses were computed against that same date.
- Inventory.InventoryTable.SaveRestock: the source mutates the selected row object in place, and that object is shared with the previous state array. The model replaces the row by value, so that aliasing is not captured.
- Inventory.InventoryTable.SaveRestock: a restock does not touch the end quantity, the units sold or the money columns; this is modelled as written (see `Reconciliation.RestockLeavesSoldStale`).
- Inventory.InventoryTable.SaveQuantity: the "product not found" guards are included. The row invariant proves them unreachable: every row's product is in the catalogue.
- Orders.OrdersPage.UpdateOrderStatus: like the handler, it accepts any status. Only the buttons restrict the transitions, which `Orders.Offered` states.
- Form resets after an add, dialog open/close state, the welcome page, the statistics charts, navigation, the database actions and the text-to-speech route are not part of this model.
