/** The state of the daily inventory view (components/InventoryTable.tsx) and its event handlers:
    opening a row for editing, editing the batch ledger in the dialog, saving it, and restocking.
    The clock and the generated batch ids are parameters of the handlers that use them. */
module Inventory {
  import opened Tables
  import opened Expiry
  import opened Ledger
  import opened Lifecycle
  import opened Reconciliation

  /** The row update of `handleSaveQuantity`: report the sold batches with the loop of
      `calculateSoldBatches`, then write the edited ledger, the end quantity, the units sold,
      the money columns and the rolled-up status into the row. */
  method SettleItem(item: InventoryItem, edited: seq<Batch>, product: Option<CatalogProduct>, date: int)
    returns (updated: InventoryItem)
    ensures updated == SettleRow(item, edited, product, date)
  {
    var soldBatches := CalculateSoldBatches(item.previousBatches + item.newBatches, edited);
    updated := SettleWith(item, edited, soldBatches, product, date);
  }

  class InventoryTable {
    /** The day shown and the catalogue it is built from. */
    const date: int
    const catalog: seq<CatalogProduct>

    var inventoryData: seq<InventoryItem>
    var recentlyDeletedProducts: seq<InventoryItem>
    /** The row an edit or a restock applies to. */
    var editingRow: Option<nat>
    /** The edit dialog's working copy of that row's batches. */
    var editingBatches: seq<Batch>
    /** The restock dialog's form. */
    var restockQuantity: int
    var restockExpiry: int

    /** Every row keeps its bookkeeping, the selected row exists, and the working copy holds no
        negative count. */
    ghost predicate Valid()
      reads this
    {
      && (editingRow.Some? ==> editingRow.value < |inventoryData|)
      && (forall i :: 0 <= i < |inventoryData| ==> Consistent(inventoryData[i], date, catalog))
      && NonNegative(editingBatches)
    }

    /** The view for `date`: its rows are generated from the catalogue and yesterday's end-of-day
        ledger, and the advisory lists the rows of recently deleted products. */
    constructor (date: int, catalog: seq<CatalogProduct>, yesterday: seq<YesterdayEnd>, draws: seq<DayDraw>, now: int)
      requires |draws| == |ProductsForDate(catalog, date)|
      requires forall y :: y in yesterday ==> ValidYesterday(y) && DistinctIds(y.batches)
      ensures Valid()
      ensures this.date == date && this.catalog == catalog
      ensures inventoryData == GenerateInventoryData(catalog, date, yesterday, draws)
      ensures recentlyDeletedProducts == RecentlyDeletedRows(inventoryData)
      ensures editingRow.None? && editingBatches == []
      ensures restockQuantity == 0 && restockExpiry == now
    {
      this.date := date;
      this.catalog := catalog;
      var rows := GenerateInventoryData(catalog, date, yesterday, draws);
      GeneratedRowsConsistent(catalog, date, yesterday, draws);
      inventoryData := rows;
      recentlyDeletedProducts := RecentlyDeletedRows(rows);
      editingRow := None;
      editingBatches := [];
      restockQuantity := 0;
      restockExpiry := now;
    }

    /** `handleEditQuantity`: select the row and copy its batches into the dialog. */
    method EditQuantity(index: nat)
      requires Valid() && index < |inventoryData|
      modifies this`editingRow, this`editingBatches
      ensures Valid()
      ensures editingRow == Some(index) && editingBatches == inventoryData[index].batches
    {
      editingRow := Some(index);
      editingBatches := inventoryData[index].batches;
    }

    /** `handleRestock`: select the row and reset the form to no units, expiring the product's
        shelf life after `today`. */
    method Restock(index: nat, today: int)
      requires Valid() && index < |inventoryData|
      modifies this`editingRow, this`restockQuantity, this`restockExpiry
      ensures Valid()
      ensures editingRow == Some(index)
      ensures restockQuantity == 0
      ensures restockExpiry == today + ProductOf(catalog, inventoryData[index].productId).value.expiryDays
    {
      editingRow := Some(index);
      var product := ProductOf(catalog, inventoryData[index].productId);
      if product.Some? {
        restockQuantity := 0;
        restockExpiry := today + product.value.expiryDays;
      }
    }

    /** The restock form's quantity field. */
    method SetRestockQuantity(quantity: int)
      requires Valid()
      modifies this`restockQuantity
      ensures Valid() && restockQuantity == quantity
    {
      restockQuantity := quantity;
    }

    /** The restock form's date picker. */
    method SetRestockExpiry(expiryDate: int)
      requires Valid()
      modifies this`restockExpiry
      ensures Valid() && restockExpiry == expiryDate
    {
      restockExpiry := expiryDate;
    }

    /** `handleSaveRestock`: with a row selected and a positive quantity, add one new batch of
        that many units to the row (entered `now`, expiring on the form's date) and deselect it;
        otherwise change nothing. The updated row is returned. */
    method SaveRestock(batchId: BatchId, now: int) returns (r: Result<InventoryItem, Rejection>)
      requires Valid()
      modifies this`inventoryData, this`editingRow
      ensures Valid()
      ensures old(editingRow).None? ==>
        r == Failure(NoRowSelected) && inventoryData == old(inventoryData) && editingRow == old(editingRow)
      ensures old(editingRow).Some? && restockQuantity <= 0 ==>
        r == Failure(InvalidQuantity) && inventoryData == old(inventoryData) && editingRow == old(editingRow)
      ensures old(editingRow).Some? && restockQuantity > 0 ==>
        var i := old(editingRow).value;
        var item := old(inventoryData)[i];
        var nb := RestockBatch(batchId, item.productId, now, restockExpiry, restockQuantity);
        && r == Success(ApplyRestock(item, nb, date))
        && inventoryData == old(inventoryData)[i := r.value]
        && r.value.quantityAtStart == item.quantityAtStart + restockQuantity
        && editingRow.None?
    {
      if editingRow.None? {
        return Failure(NoRowSelected);
      }
      if restockQuantity <= 0 {
        return Failure(InvalidQuantity);
      }
      var i := editingRow.value;
      var item := inventoryData[i];
      var product := ProductOf(catalog, item.productId);
      if product.None? {
        return Failure(UnknownProduct);
      }
      var nb := RestockBatch(batchId, product.value.id, now, restockExpiry, restockQuantity);
      var updated := ApplyRestock(item, nb, date);
      RestockProperties(item, batchId, now, restockExpiry, restockQuantity, date, catalog);
      inventoryData := inventoryData[i := updated];
      editingRow := None;
      r := Success(updated);
    }

    /** `handleUpdateBatchQuantity`: set the units left in one batch of the working copy; a
        negative count is ignored. */
    method UpdateBatchQuantity(batchIndex: nat, newQuantity: int)
      requires Valid() && batchIndex < |editingBatches|
      modifies this`editingBatches
      ensures Valid()
      ensures newQuantity < 0 ==> editingBatches == old(editingBatches)
      ensures 0 <= newQuantity ==>
        editingBatches == old(editingBatches)[batchIndex := old(editingBatches)[batchIndex].(remaining := newQuantity)]
    {
      if newQuantity < 0 {
        return;
      }
      editingBatches := editingBatches[batchIndex := editingBatches[batchIndex].(remaining := newQuantity)];
    }

    /** `handleUpdateBatchExpiryDate`: move the expiry of one batch of the working copy. */
    method UpdateBatchExpiryDate(batchIndex: nat, newDate: int)
      requires Valid() && batchIndex < |editingBatches|
      modifies this`editingBatches
      ensures Valid()
      ensures editingBatches == old(editingBatches)[batchIndex := old(editingBatches)[batchIndex].(expiryDate := newDate)]
    {
      editingBatches := editingBatches[batchIndex := editingBatches[batchIndex].(expiryDate := newDate)];
    }

    /** `handleAddNewBatch`: append an empty new batch of the selected row's product, entered
        `now` and expiring after the product's shelf life. */
    method AddNewBatch(batchId: BatchId, now: int)
      requires Valid()
      modifies this`editingBatches
      ensures Valid()
      ensures old(editingRow).None? ==> editingBatches == old(editingBatches)
      ensures old(editingRow).Some? ==>
        var product := ProductOf(catalog, inventoryData[editingRow.value].productId).value;
        editingBatches == old(editingBatches) + [Batch(batchId, product.id, now, now + product.expiryDays, 0, 0, true)]
    {
      if editingRow.None? {
        return;
      }
      var product := ProductOf(catalog, inventoryData[editingRow.value].productId);
      if product.None? {
        return;
      }
      var p := product.value;
      editingBatches := editingBatches + [Batch(batchId, p.id, now, now + p.expiryDays, 0, 0, true)];
    }

    /** `handleRemoveBatch`: drop one batch from the working copy, keeping the others in order. */
    method RemoveBatch(batchIndex: nat)
      requires Valid() && batchIndex < |editingBatches|
      modifies this`editingBatches
      ensures Valid()
      ensures editingBatches == old(editingBatches)[..batchIndex] + old(editingBatches)[batchIndex + 1..]
      ensures |editingBatches| == |old(editingBatches)| - 1
    {
      editingBatches := editingBatches[..batchIndex] + editingBatches[batchIndex + 1..];
    }

    /** `handleSaveQuantity`: with a row selected, reject a working copy holding more units than
        the row started the day with; otherwise write it back as the row's ledger, settle the
        row, report the sold batches and deselect the row. The saved row is returned. */
    method SaveQuantity() returns (r: Result<InventoryItem, Rejection>)
      requires Valid()
      modifies this`inventoryData, this`editingRow
      ensures Valid()
      ensures old(editingRow).None? ==>
        r == Failure(NoRowSelected) && inventoryData == old(inventoryData) && editingRow == old(editingRow)
      ensures old(editingRow).Some? ==>
        var i := old(editingRow).value;
        var item := old(inventoryData)[i];
        var product := ProductOf(catalog, item.productId);
        && r == SettleOrReject(item, editingBatches, product, date)
        && (r.Failure? ==> inventoryData == old(inventoryData) && editingRow == old(editingRow))
        && (r.Success? ==>
              && inventoryData == old(inventoryData)[i := r.value]
              && editingRow.None?
              && r.value.quantityAtEnd == SumRemaining(editingBatches)
              && Settled(r.value, product.value))
    {
      if editingRow.None? {
        return Failure(NoRowSelected);
      }
      var i := editingRow.value;
      var item := inventoryData[i];
      var edited := editingBatches;
      var totalQuantity := SumRemaining(edited);
      if totalQuantity > item.quantityAtStart {
        return Failure(NegativeSales);
      }
      var product := ProductOf(catalog, item.productId);
      var updated := SettleItem(item, edited, product, date);
      SettleKeepsConsistent(item, edited, product, date, catalog);
      SettleSettles(item, edited, product.value, date);
      inventoryData := inventoryData[i := updated];
      editingRow := None;
      r := Success(updated);
    }
  }
}
