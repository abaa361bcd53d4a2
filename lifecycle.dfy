/** Which catalogue products exist on a given day (`getProductsForDate`) and the
    "recently deleted" advisory beside it (components/InventoryTable.tsx). */
module Lifecycle {
  import opened Tables

  /** Lifecycle of a catalogue product; days are whole day numbers. */
  datatype ProductStatus = ProductStatus(isActive: bool, deletedAt: Option<int>, createdAt: int)

  /** The inventory view's catalogue entry. */
  datatype CatalogProduct = CatalogProduct(
    id: int,
    name: string,
    categoryId: int,
    buyingPrice: int,
    sellingPrice: int,
    expiryDays: int,
    threshold: int,
    status: ProductStatus)

  /** Created on or before `date`, and not deleted by then. */
  predicate ActiveOn(s: ProductStatus, date: int)
  {
    s.createdAt <= date && (s.deletedAt.None? || s.deletedAt.value > date)
  }

  function ActiveOnDate(date: int): CatalogProduct -> bool
  {
    (p: CatalogProduct) => ActiveOn(p.status, date)
  }

  /** `getProductsForDate(date)`: the catalogue products active on `date`, in catalogue order. */
  function ProductsForDate(catalog: seq<CatalogProduct>, date: int): (r: seq<CatalogProduct>)
    ensures |r| <= |catalog|
    ensures forall p :: p in r <==> p in catalog && ActiveOn(p.status, date)
  {
    Filter(catalog, ActiveOnDate(date))
  }

  /** The filter keeps catalogue order: splitting the catalogue splits the result the same way. */
  lemma ProductsForDateAppend(a: seq<CatalogProduct>, b: seq<CatalogProduct>, date: int)
    ensures ProductsForDate(a + b, date) == ProductsForDate(a, date) + ProductsForDate(b, date)
  {
    FilterAppend(a, b, ActiveOnDate(date));
  }

  /** The days a product is listed form one unbroken stretch: listed on two days, it is listed
      on every day between them. */
  lemma ActiveWindow(s: ProductStatus, first: int, date: int, last: int)
    requires ActiveOn(s, first) && ActiveOn(s, last) && first <= date <= last
    ensures ActiveOn(s, date)
  {
  }

  /** A product is never listed before the day it was created, nor on or after the day it was
      deleted. */
  lemma NotListedOutsideWindow(s: ProductStatus, date: int)
    ensures date < s.createdAt ==> !ActiveOn(s, date)
    ensures s.deletedAt.Some? && s.deletedAt.value <= date ==> !ActiveOn(s, date)
  {
  }

  /** The selection for a day between two days on which a catalogue product is selected also
      selects it. */
  lemma ProductsForDateBetween(catalog: seq<CatalogProduct>, p: CatalogProduct, first: int, date: int, last: int)
    requires p in ProductsForDate(catalog, first) && p in ProductsForDate(catalog, last)
    requires first <= date <= last
    ensures p in ProductsForDate(catalog, date)
  {
    ActiveWindow(p.status, first, date, last);
  }

  /** `isRecentlyDeleted`: the deletion day lies between `date` and 30 days after it. */
  predicate RecentlyDeleted(s: ProductStatus, date: int)
  {
    s.deletedAt.Some? && 0 <= s.deletedAt.value - date <= 30
  }

  /** Among products that are listed on `date`, a recent deletion is strictly after `date`:
      the 0-day end of the advisory window is never reached by a listed product. */
  lemma ListedRecentlyDeleted(s: ProductStatus, date: int)
    requires ActiveOn(s, date) && RecentlyDeleted(s, date)
    ensures date < s.deletedAt.value <= date + 30
  {
  }
}
