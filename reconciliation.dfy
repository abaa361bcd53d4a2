/** One product's row of the daily inventory view (components/InventoryTable.tsx): how the row is
    opened from yesterday's end-of-day ledger (`generateInventoryData`), what a restock does to it
    (`handleSaveRestock`) and what saving edited batches does to it (`handleSaveQuantity`).
    Dates are whole day numbers; prices and quantities are integers. */
module Reconciliation {
  import opened Tables
  import opened Expiry
  import opened Ledger
  import opened Lifecycle

  /** The per-product row of the view. */
  datatype InventoryItem = InventoryItem(
    productId: int,
    productName: string,
    qtyYesterday: int,
    qtyRestocked: int,
    quantityAtStart: int,
    quantityAtEnd: int,
    quantitySold: int,
    sales: int,
    profit: int,
    expiryStatus: Tier,
    batches: seq<Batch>,
    previousBatches: seq<Batch>,
    soldBatches: seq<SoldBatch>,
    statusCounts: Counts,
    newBatches: seq<Batch>,
    isRecentlyDeleted: bool,
    productStatus: ProductStatus)

  /** Yesterday's end-of-day state of one product, handed in from outside. */
  datatype YesterdayEnd = YesterdayEnd(productId: int, batches: seq<Batch>, quantityAtEnd: int)

  /** The values the source draws at random when it opens a product's day: the units restocked
      (`Math.floor(Math.random() * 5)`), the units sold (`Math.floor(Math.random() * maxSales)`),
      and the id of the restock batch (built from the clock). */
  datatype DayDraw = DayDraw(qtyRestocked: nat, salesDraw: nat, newBatchId: BatchId)

  /** A well-formed end-of-day record: its quantity is the stock left in its batches. */
  predicate ValidYesterday(y: YesterdayEnd)
  {
    NonNegative(y.batches) && y.quantityAtEnd == SumRemaining(y.batches)
  }

  /** `yesterdayEndInventory.find(p => p.productId === product.id)` */
  function YesterdayOf(yesterday: seq<YesterdayEnd>, productId: int): (r: Option<YesterdayEnd>)
    ensures r.Some? ==> r.value in yesterday && r.value.productId == productId
    ensures r.None? ==> forall y :: y in yesterday ==> y.productId != productId
  {
    Find(yesterday, (y: YesterdayEnd) => y.productId == productId)
  }

  /** `products.find(p => p.id === productId)` */
  function ProductOf(catalog: seq<CatalogProduct>, productId: int): (r: Option<CatalogProduct>)
    ensures r.Some? ==> r.value in catalog && r.value.id == productId
    ensures r.None? ==> forall p :: p in catalog ==> p.id != productId
  {
    Find(catalog, (p: CatalogProduct) => p.id == productId)
  }

  function Max(a: int, b: int): int { if a >= b then a else b }

  /** Takings of `sold` units at the product's selling price. */
  function Sales(sold: int, product: CatalogProduct): int { sold * product.sellingPrice }

  /** Margin of `sold` units: selling minus buying price, per unit. */
  function Profit(sold: int, product: CatalogProduct): int { sold * (product.sellingPrice - product.buyingPrice) }

  /** The opening row of one active product (the body of the second `map` in
      `generateInventoryData`). */
  function OpenDay(product: CatalogProduct, date: int, yesterday: seq<YesterdayEnd>, draw: DayDraw): InventoryItem
  {
    var prior := YesterdayOf(yesterday, product.id);
    var qtyYesterday := if prior.Some? then prior.value.quantityAtEnd else 0;
    var qtyRestocked := draw.qtyRestocked;
    var newBatches :=
      if qtyRestocked > 0
      then [Batch(draw.newBatchId, product.id, date, date + product.expiryDays, qtyRestocked, qtyRestocked, true)]
      else [];
    var previousBatches := if prior.Some? then prior.value.batches else [];
    var todayBatches := previousBatches + newBatches;
    var quantityAtStart := qtyYesterday + qtyRestocked;
    var quantityAtEnd := Max(0, quantityAtStart - draw.salesDraw);
    var quantitySold := quantityAtStart - quantityAtEnd;
    var statusCounts := Tally(Statuses(todayBatches, date));
    InventoryItem(
      product.id, product.name,
      qtyYesterday, qtyRestocked, quantityAtStart, quantityAtEnd, quantitySold,
      Sales(quantitySold, product),
      Profit(quantitySold, product),
      Majority(statusCounts),
      todayBatches, previousBatches,
      SoldEntries(SortByExpiry(previousBatches), todayBatches),
      statusCounts, newBatches,
      RecentlyDeleted(product.status, date), product.status)
  }

  /** `generateInventoryData(date, location)`: one opening row per product active on `date`,
      in catalogue order; `draws[i]` holds the random values of the i-th active product. */
  function GenerateInventoryData(catalog: seq<CatalogProduct>, date: int, yesterday: seq<YesterdayEnd>, draws: seq<DayDraw>)
    : (rows: seq<InventoryItem>)
    requires |draws| == |ProductsForDate(catalog, date)|
    ensures |rows| == |ProductsForDate(catalog, date)|
  {
    var active := ProductsForDate(catalog, date);
    seq(|active|, i requires 0 <= i < |active| => OpenDay(active[i], date, yesterday, draws[i]))
  }

  function IsRecentlyDeletedRow(item: InventoryItem): bool { item.isRecentlyDeleted }

  /** `newInventoryData.filter(item => item.isRecentlyDeleted)`: the advisory list. */
  function RecentlyDeletedRows(rows: seq<InventoryItem>): seq<InventoryItem>
  {
    Filter(rows, IsRecentlyDeletedRow)
  }

  /** The bookkeeping a row keeps through every restock and every saved edit. */
  predicate Consistent(item: InventoryItem, date: int, catalog: seq<CatalogProduct>)
  {
    && ProductOf(catalog, item.productId).Some?
    && NonNegative(item.previousBatches)
    && NonNegative(item.batches)
    && (forall b :: b in item.newBatches ==> b.isNew && b.remaining == b.quantity && 0 < b.quantity)
    && item.qtyYesterday == SumRemaining(item.previousBatches)
    && item.qtyRestocked == SumQuantity(item.newBatches)
    && item.quantityAtStart == item.qtyYesterday + item.qtyRestocked
    && 0 <= item.quantityAtEnd <= item.quantityAtStart
    && item.statusCounts == Tally(Statuses(item.batches, date))
    && item.expiryStatus == Majority(item.statusCounts)
  }

  /** Sold units and money agree with the start and end quantities and the product's prices. */
  predicate Settled(item: InventoryItem, product: CatalogProduct)
  {
    && item.quantitySold == item.quantityAtStart - item.quantityAtEnd
    && item.sales == Sales(item.quantitySold, product)
    && item.profit == Profit(item.quantitySold, product)
  }

  /** The opening row copies yesterday's batches unchanged (none without a record) and adds one
      new batch holding the restocked units, entered today and expiring after the product's
      shelf life, only when something was restocked. */
  lemma OpenDayBatches(product: CatalogProduct, date: int, yesterday: seq<YesterdayEnd>, draw: DayDraw)
    ensures var row := OpenDay(product, date, yesterday, draw);
      && row.previousBatches == (match YesterdayOf(yesterday, product.id)
                                 case Some(y) => y.batches
                                 case None => [])
      && row.newBatches == (if draw.qtyRestocked > 0
                            then [Batch(draw.newBatchId, product.id, date, date + product.expiryDays,
                                        draw.qtyRestocked, draw.qtyRestocked, true)]
                            else [])
      && |row.newBatches| <= 1
      && row.batches == row.previousBatches + row.newBatches
  {
    var row := OpenDay(product, date, yesterday, draw);
    var prior := YesterdayOf(yesterday, product.id);
    var previous := if prior.Some? then prior.value.batches else [];
    assert row.previousBatches == previous;
    assert previous == (match prior case Some(y) => y.batches case None => []);
  }

  /** The opening ledger: yesterday's batches (none without a record) followed by at most one
      new batch holding the restocked units, so the stock on hand is yesterday's end quantity
      plus the restock, and no prior batch is reported sold. */
  lemma OpenDayLedger(product: CatalogProduct, date: int, yesterday: seq<YesterdayEnd>, draw: DayDraw)
    requires forall y :: y in yesterday ==> ValidYesterday(y) && DistinctIds(y.batches)
    ensures var row := OpenDay(product, date, yesterday, draw);
      && row.previousBatches == (match YesterdayOf(yesterday, product.id)
                                 case Some(y) => y.batches
                                 case None => [])
      && |row.newBatches| == (if draw.qtyRestocked > 0 then 1 else 0)
      && row.batches == row.previousBatches + row.newBatches
      && NonNegative(row.previousBatches) && NonNegative(row.batches)
      && row.qtyYesterday == SumRemaining(row.previousBatches)
      && row.qtyRestocked == SumQuantity(row.newBatches) == draw.qtyRestocked
      && (forall b :: b in row.newBatches ==> b.isNew && b.remaining == b.quantity && 0 < b.quantity)
      && row.quantityAtStart == SumRemaining(row.batches)
      && row.soldBatches == []
  {
    var row := OpenDay(product, date, yesterday, draw);
    OpenDayBatches(product, date, yesterday, draw);
    var prior := YesterdayOf(yesterday, product.id);
    var previous := if prior.Some? then prior.value.batches else [];
    var restocked := row.newBatches;
    assert row.previousBatches == previous && row.batches == previous + restocked;
    assert NonNegative(previous) && DistinctIds(previous) && row.qtyYesterday == SumRemaining(previous) by {
      if prior.Some? {
        assert prior.value in yesterday;
      }
    }
    assert SumQuantity(restocked) == draw.qtyRestocked && SumRemaining(restocked) == draw.qtyRestocked by {
      if restocked != [] {
        SumSingle(restocked[0]);
      }
    }
    SumRemainingAppend(previous, restocked);
    OpeningReportsNoSales(previous, restocked);
  }

  /** Opening a day: Qty Yesterday is yesterday's end quantity (0 with no record), the start is
      yesterday plus the restock, which is also the stock in the opening batches, the end lies
      between 0 and the start, money follows the units sold, the row is consistent, and no prior
      batch is reported sold. */
  lemma OpenDayProperties(product: CatalogProduct, catalog: seq<CatalogProduct>, date: int,
                          yesterday: seq<YesterdayEnd>, draw: DayDraw)
    requires product in catalog
    requires forall y :: y in yesterday ==> ValidYesterday(y) && DistinctIds(y.batches)
    ensures var row := OpenDay(product, date, yesterday, draw);
      && row.productId == product.id
      && row.qtyYesterday == (match YesterdayOf(yesterday, product.id)
                              case Some(y) => y.quantityAtEnd
                              case None => 0)
      && row.quantityAtStart == row.qtyYesterday + draw.qtyRestocked
      && row.quantityAtStart == SumRemaining(row.batches)
      && 0 <= row.quantityAtEnd <= row.quantityAtStart
      && Settled(row, product)
      && Consistent(row, date, catalog)
      && row.soldBatches == []
      && row.isRecentlyDeleted == RecentlyDeleted(product.status, date)
  {
    var row := OpenDay(product, date, yesterday, draw);
    OpenDayLedger(product, date, yesterday, draw);
    SumRemainingNonNegative(row.previousBatches);
    assert ProductOf(catalog, product.id).Some?;
  }

  /** Every generated row is consistent and settled against its own product, in catalogue order. */
  lemma GeneratedRowsConsistent(catalog: seq<CatalogProduct>, date: int, yesterday: seq<YesterdayEnd>, draws: seq<DayDraw>)
    requires |draws| == |ProductsForDate(catalog, date)|
    requires forall y :: y in yesterday ==> ValidYesterday(y) && DistinctIds(y.batches)
    ensures var active := ProductsForDate(catalog, date);
      var rows := GenerateInventoryData(catalog, date, yesterday, draws);
      forall i :: 0 <= i < |rows| ==>
        rows[i].productId == active[i].id && Consistent(rows[i], date, catalog) && Settled(rows[i], active[i])
  {
    var active := ProductsForDate(catalog, date);
    var rows := GenerateInventoryData(catalog, date, yesterday, draws);
    forall i | 0 <= i < |rows|
      ensures rows[i].productId == active[i].id && Consistent(rows[i], date, catalog) && Settled(rows[i], active[i])
    {
      assert active[i] in active;
      OpenDayProperties(active[i], catalog, date, yesterday, draws[i]);
    }
  }

  /** An opening row carries its product's status, and is flagged for the advisory when that
      status has a deletion in the next 30 days. */
  lemma OpenDayAdvisory(product: CatalogProduct, date: int, yesterday: seq<YesterdayEnd>, draw: DayDraw)
    requires ActiveOn(product.status, date)
    ensures var row := OpenDay(product, date, yesterday, draw);
      row.isRecentlyDeleted ==>
        row.productStatus.deletedAt.Some? && date < row.productStatus.deletedAt.value <= date + 30
  {
    if RecentlyDeleted(product.status, date) {
      ListedRecentlyDeleted(product.status, date);
    }
  }

  /** The advisory lists only products still listed on `date` whose deletion falls in the next
      30 days (never on `date` itself, since a product deleted that day is not listed). */
  lemma AdvisoryWindow(catalog: seq<CatalogProduct>, date: int, yesterday: seq<YesterdayEnd>, draws: seq<DayDraw>)
    requires |draws| == |ProductsForDate(catalog, date)|
    ensures forall item :: item in RecentlyDeletedRows(GenerateInventoryData(catalog, date, yesterday, draws)) ==>
      item.productStatus.deletedAt.Some? && date < item.productStatus.deletedAt.value <= date + 30
  {
    var active := ProductsForDate(catalog, date);
    var rows := GenerateInventoryData(catalog, date, yesterday, draws);
    forall item | item in RecentlyDeletedRows(rows)
      ensures item.productStatus.deletedAt.Some? && date < item.productStatus.deletedAt.value <= date + 30
    {
      var i :| 0 <= i < |rows| && rows[i] == item;
      assert active[i] in active;
      OpenDayAdvisory(active[i], date, yesterday, draws[i]);
    }
  }

  /** The batch `handleSaveRestock` creates: all of its units on the shelf, marked new. */
  function RestockBatch(id: BatchId, productId: int, entryDate: int, expiryDate: int, quantity: int): Batch
  {
    Batch(id, productId, entryDate, expiryDate, quantity, quantity, true)
  }

  /** The row after an accepted restock with batch `nb`. */
  function ApplyRestock(item: InventoryItem, nb: Batch, date: int): InventoryItem
  {
    var batches := item.batches + [nb];
    var statusCounts := Tally(Statuses(batches, date));
    item.(
      qtyRestocked := item.qtyRestocked + nb.quantity,
      quantityAtStart := item.quantityAtStart + nb.quantity,
      batches := batches,
      newBatches := item.newBatches + [nb],
      statusCounts := statusCounts,
      expiryStatus := Majority(statusCounts))
  }

  /** A restock of `q > 0` units raises Qty Restocked and Qty at Start by exactly `q`, appends
      one new batch holding `q` units to the ledger and to the new batches, re-rolls the status,
      and leaves everything else alone, including the end quantity, the units sold and the money;
      the row stays consistent. */
  lemma RestockProperties(item: InventoryItem, id: BatchId, entryDate: int, expiryDate: int, q: int,
                          date: int, catalog: seq<CatalogProduct>)
    requires Consistent(item, date, catalog) && 0 < q
    ensures var nb := RestockBatch(id, item.productId, entryDate, expiryDate, q);
      var r := ApplyRestock(item, nb, date);
      && r.qtyRestocked == item.qtyRestocked + q
      && r.quantityAtStart == item.quantityAtStart + q
      && r.batches == item.batches + [nb] && nb.remaining == q && nb.isNew
      && r.newBatches == item.newBatches + [nb]
      && r.expiryStatus == Majority(Tally(Statuses(r.batches, date)))
      && r == item.(qtyRestocked := r.qtyRestocked, quantityAtStart := r.quantityAtStart,
                    batches := r.batches, newBatches := r.newBatches,
                    statusCounts := r.statusCounts, expiryStatus := r.expiryStatus)
      && Consistent(r, date, catalog)
  {
    var nb := RestockBatch(id, item.productId, entryDate, expiryDate, q);
    var r := ApplyRestock(item, nb, date);
    SumQuantityAppend(item.newBatches, [nb]);
    SumSingle(nb);
  }

  /** After a restock the units-sold column no longer equals start minus end: a restock moves the
      start but not the end, and the row is only settled again by the next saved edit. */
  lemma RestockLeavesSoldStale(item: InventoryItem, product: CatalogProduct, nb: Batch, date: int)
    requires Settled(item, product) && 0 < nb.quantity
    ensures var r := ApplyRestock(item, nb, date);
      r.quantitySold == r.quantityAtStart - r.quantityAtEnd - nb.quantity
  {
  }

  /** The row after an accepted save of the edited batches `edited`, given the sold-batches
      report; `product` is the catalogue lookup (`sales` and `profit` are recomputed only when it
      found the product). */
  function SettleWith(item: InventoryItem, edited: seq<Batch>, soldBatches: seq<SoldBatch>,
                      product: Option<CatalogProduct>, date: int): InventoryItem
  {
    var quantityAtEnd := SumRemaining(edited);
    var quantitySold := item.quantityAtStart - quantityAtEnd;
    var statusCounts := Tally(Statuses(edited, date));
    item.(
      quantityAtEnd := quantityAtEnd,
      batches := edited,
      quantitySold := quantitySold,
      soldBatches := soldBatches,
      sales := if product.Some? then Sales(quantitySold, product.value) else item.sales,
      profit := if product.Some? then Profit(quantitySold, product.value) else item.profit,
      statusCounts := statusCounts,
      expiryStatus := Majority(statusCounts))
  }

  /** The row after an accepted save, reporting the sold batches against yesterday's and today's
      new batches. */
  function SettleRow(item: InventoryItem, edited: seq<Batch>, product: Option<CatalogProduct>, date: int): InventoryItem
  {
    SettleWith(item, edited, SoldEntries(SortByExpiry(item.previousBatches + item.newBatches), edited), product, date)
  }

  /** Why an edit or a restock was turned down. */
  datatype Rejection = NoRowSelected | InvalidQuantity | UnknownProduct | NegativeSales

  /** The decision of `handleSaveQuantity` for a selected row: reject an end quantity above the start, otherwise settle. */
  function SettleOrReject(item: InventoryItem, edited: seq<Batch>, product: Option<CatalogProduct>, date: int)
    : (r: Result<InventoryItem, Rejection>)
    ensures r.Failure? <==> SumRemaining(edited) > item.quantityAtStart
    ensures r.Failure? ==> r.error == NegativeSales
    ensures r.Success? ==> r.value.quantityAtEnd == SumRemaining(edited) && r.value.batches == edited
    ensures r.Success? ==> r.value.quantitySold == r.value.quantityAtStart - r.value.quantityAtEnd >= 0
    ensures r.Success? ==>
      && r.value.soldBatches == SoldEntries(SortByExpiry(item.previousBatches + item.newBatches), edited)
      && r.value.statusCounts == Tally(Statuses(edited, date))
      && r.value.expiryStatus == Majority(r.value.statusCounts)
      && (product.None? ==> r.value.sales == item.sales && r.value.profit == item.profit)
      && r.value == item.(quantityAtEnd := r.value.quantityAtEnd, quantitySold := r.value.quantitySold,
                          batches := edited, soldBatches := r.value.soldBatches,
                          sales := r.value.sales, profit := r.value.profit,
                          statusCounts := r.value.statusCounts, expiryStatus := r.value.expiryStatus)
  {
    if SumRemaining(edited) > item.quantityAtStart then Failure(NegativeSales)
    else Success(SettleRow(item, edited, product, date))
  }

  /** An accepted save keeps the row consistent. */
  lemma SettleKeepsConsistent(item: InventoryItem, edited: seq<Batch>, product: Option<CatalogProduct>,
                              date: int, catalog: seq<CatalogProduct>)
    requires Consistent(item, date, catalog)
    requires NonNegative(edited) && SumRemaining(edited) <= item.quantityAtStart
    ensures Consistent(SettleRow(item, edited, product, date), date, catalog)
  {
    SumRemainingNonNegative(edited);
  }

  /** An accepted save makes the end quantity the stock left in the edited ledger, and the units
      sold lie between 0 and the start. */
  lemma SettleEndIsStock(item: InventoryItem, edited: seq<Batch>, product: Option<CatalogProduct>, date: int)
    requires NonNegative(edited) && SumRemaining(edited) <= item.quantityAtStart
    ensures var r := SettleRow(item, edited, product, date);
      && r.quantityAtEnd == SumRemaining(r.batches)
      && r.quantitySold == r.quantityAtStart - r.quantityAtEnd
      && 0 <= r.quantitySold <= r.quantityAtStart
  {
    SumRemainingNonNegative(edited);
  }

  /** With the product found, an accepted save settles the row against that product. */
  lemma SettleSettles(item: InventoryItem, edited: seq<Batch>, product: CatalogProduct, date: int)
    ensures Settled(SettleRow(item, edited, Some(product), date), product)
  {
    var report := SoldEntries(SortByExpiry(item.previousBatches + item.newBatches), edited);
    var r := SettleWith(item, edited, report, Some(product), date);
    assert r.quantitySold == item.quantityAtStart - SumRemaining(edited);
    assert r.sales == Sales(r.quantitySold, product);
    assert r.profit == Profit(r.quantitySold, product);
  }

  /** The sold-batches report of a save covers yesterday's and today's new batches, describes
      what the edited ledger holds of each, and is ordered by expiry. */
  lemma SettleReport(item: InventoryItem, edited: seq<Batch>, product: Option<CatalogProduct>, date: int)
    ensures var r := SettleRow(item, edited, product, date);
      && LinesByExpiry(r.soldBatches)
      && |r.soldBatches| <= |item.previousBatches| + |item.newBatches|
      && (forall e :: e in r.soldBatches ==> e.batch in item.previousBatches + item.newBatches && Describes(e, edited))
  {
    SoldReportShape(item.previousBatches + item.newBatches, edited);
  }

  /** A save touches only the columns `handleSaveQuantity` writes: the product, Qty Yesterday,
      Qty Restocked, Qty at Start, the previous and new batches and the advisory flag stay as
      they were. */
  lemma SettleKeepsFields(item: InventoryItem, edited: seq<Batch>, product: Option<CatalogProduct>, date: int)
    ensures var r := SettleRow(item, edited, product, date);
      && r.productId == item.productId && r.productName == item.productName
      && r.qtyYesterday == item.qtyYesterday && r.qtyRestocked == item.qtyRestocked
      && r.quantityAtStart == item.quantityAtStart
      && r.previousBatches == item.previousBatches && r.newBatches == item.newBatches
      && r.isRecentlyDeleted == item.isRecentlyDeleted && r.productStatus == item.productStatus
  {
  }

  /** Saving the same edited batches twice gives the same row as saving them once. */
  lemma SettleIdempotent(item: InventoryItem, edited: seq<Batch>, product: Option<CatalogProduct>, date: int)
    ensures SettleRow(SettleRow(item, edited, product, date), edited, product, date) == SettleRow(item, edited, product, date)
  {
    var report := SoldEntries(SortByExpiry(item.previousBatches + item.newBatches), edited);
    var once := SettleWith(item, edited, report, product, date);
    assert once.previousBatches + once.newBatches == item.previousBatches + item.newBatches;
    assert once.quantityAtStart == item.quantityAtStart;
    assert SettleRow(once, edited, product, date) == SettleWith(once, edited, report, product, date);
  }

  /** What the next day opens with when today's settled row is handed over as its end-of-day state. */
  function EndOfDay(item: InventoryItem): YesterdayEnd
  {
    YesterdayEnd(item.productId, item.batches, item.quantityAtEnd)
  }

  /** Carry-over law: a row settled on day N, handed over as day N+1's only end-of-day record,
      opens day N+1 with Qty Yesterday equal to day N's Qty at End and with day N's batches. */
  lemma CarryOver(item: InventoryItem, edited: seq<Batch>, product: CatalogProduct, date: int, draw: DayDraw)
    requires NonNegative(edited) && product.id == item.productId
    ensures var settled := SettleRow(item, edited, Some(product), date);
      var next := OpenDay(product, date + 1, [EndOfDay(settled)], draw);
      && ValidYesterday(EndOfDay(settled))
      && next.qtyYesterday == settled.quantityAtEnd
      && next.previousBatches == settled.batches
      && next.quantityAtStart == settled.quantityAtEnd + draw.qtyRestocked
  {
    var settled := SettleRow(item, edited, Some(product), date);
    assert YesterdayOf([EndOfDay(settled)], product.id) == Some(EndOfDay(settled));
  }
}
