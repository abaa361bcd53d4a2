/** The products page (app/dashboard/products/page.tsx): adding products under fresh ids, editing
    a row in place, and the soft delete and restore that keep a product's history. */
module Products {
  import opened Tables

  /** A product's lifecycle; `deletedAt` is the day of the soft delete. */
  datatype Status = Status(isActive: bool, deletedAt: Option<int>)

  datatype Product = Product(
    id: int,
    name: string,
    categoryId: int,
    buyingPrice: int,
    sellingPrice: int,
    expiryDays: int,
    threshold: int,
    image: string,
    status: Status)

  /** The add-product form; `categoryId` is None until a category is picked. */
  datatype ProductDraft = ProductDraft(
    name: string,
    categoryId: Option<int>,
    buyingPrice: int,
    sellingPrice: int,
    expiryDays: int,
    threshold: int,
    image: string)

  datatype Category = Category(id: int, name: string)

  /** The categories the page names. */
  const Categories: seq<Category> := [Category(1, "Bread"), Category(2, "Pastries"), Category(3, "Beverages")]

  /** The status of a freshly added product. */
  const Listed: Status := Status(true, None)

  function ProductId(p: Product): int { p.id }

  /** `getCategoryName`: the category's name, or "Unknown" when no category has the id (or its
      name is empty). */
  function CategoryName(categories: seq<Category>, categoryId: int): (name: string)
    ensures name != ""
    ensures name == "Unknown" || exists c :: c in categories && c.id == categoryId && c.name == name
    ensures (forall c :: c in categories ==> c.id != categoryId) ==> name == "Unknown"
    ensures forall c ::
      (c in categories && c.id == categoryId && c.name != "" &&
       forall d :: d in categories && d.id == categoryId ==> d == c) ==> name == c.name
  {
    var found := Find(categories, (c: Category) => c.id == categoryId);
    if found.Some? && found.value.name != "" then found.value.name else "Unknown"
  }

  /** The page's categories resolve by id; any other id reads "Unknown". */
  lemma PageCategoryNames()
    ensures CategoryName(Categories, 1) == "Bread"
    ensures CategoryName(Categories, 2) == "Pastries"
    ensures CategoryName(Categories, 3) == "Beverages"
    ensures forall id :: id < 1 || 3 < id ==> CategoryName(Categories, id) == "Unknown"
  {
    assert Categories[0].id == 1 && Categories[1].id == 2 && Categories[2].id == 3;
  }

  /** The buttons a product row shows. */
  datatype Action = Save | Edit | Delete | RestoreAction

  /** The row being edited shows only Save; any other row shows edit and delete while the
      product is active and restore once it is deleted, never both kinds. */
  function Actions(p: Product, editing: Option<Product>): (a: set<Action>)
    ensures Save in a <==> editing.Some? && editing.value.id == p.id
    ensures Save in a ==> a == {Save}
    ensures Edit in a <==> Save !in a && p.status.isActive
    ensures Delete in a <==> Save !in a && p.status.isActive
    ensures RestoreAction in a <==> Save !in a && !p.status.isActive
  {
    if editing.Some? && editing.value.id == p.id then {Save}
    else if p.status.isActive then {Edit, Delete}
    else {RestoreAction}
  }

  /** The status after a soft delete on day `now`. */
  function Deleted(s: Status, now: int): Status
  {
    s.(isActive := false, deletedAt := Some(now))
  }

  /** The status after a restore. */
  function Restored(s: Status): Status
  {
    s.(isActive := true, deletedAt := None)
  }

  function MarkDeleted(now: int): Product -> Product
  {
    (p: Product) => p.(status := Deleted(p.status, now))
  }

  function MarkRestored(): Product -> Product
  {
    (p: Product) => p.(status := Restored(p.status))
  }

  /** `handleDeleteProduct`'s new table: the product with the id is marked deleted on `now`. */
  function DeleteIn(rows: seq<Product>, id: int, now: int): (r: seq<Product>)
    ensures |r| == |rows|
    ensures forall i :: 0 <= i < |rows| ==>
      r[i] == if rows[i].id == id then rows[i].(status := Status(false, Some(now))) else rows[i]
  {
    UpdateWhere(rows, ProductId, id, MarkDeleted(now))
  }

  /** `handleRestoreProduct`'s new table: the product with the id is listed again. */
  function RestoreIn(rows: seq<Product>, id: int): (r: seq<Product>)
    ensures |r| == |rows|
    ensures forall i :: 0 <= i < |rows| ==>
      r[i] == if rows[i].id == id then rows[i].(status := Listed) else rows[i]
  {
    UpdateWhere(rows, ProductId, id, MarkRestored())
  }

  /** Deleting a listed product and restoring it gives back the very same table. */
  lemma RestoreUndoesDelete(rows: seq<Product>, id: int, now: int)
    requires forall p :: p in rows && p.id == id ==> p.status == Listed
    ensures RestoreIn(DeleteIn(rows, id, now), id) == rows
  {
    forall i | 0 <= i < |rows| && rows[i].id == id
      ensures MarkRestored()(MarkDeleted(now)(rows[i])) == rows[i]
    {
      assert rows[i] in rows;
    }
    UpdateWhereUndo(rows, ProductId, id, MarkDeleted(now), MarkRestored());
  }

  /** A delete marks the status inactive with the deletion day, and a restore after it gives
      back the status of a freshly listed product: the fields the inventory view reads (that a
      product is not listed from its deletion day on is `Lifecycle.NotListedOutsideWindow`). */
  lemma DeleteRestoreStatus(s: Status, now: int)
    ensures !Deleted(s, now).isActive && Deleted(s, now).deletedAt == Some(now)
    ensures Restored(Deleted(s, now)) == Listed
  {
  }

  class ProductsPage {
    var products: seq<Product>
    /** The row being edited in place. */
    var editingProduct: Option<Product>

    ghost predicate Valid()
      reads this
    {
      UniqueKeys(products, ProductId)
    }

    constructor (initialProducts: seq<Product>)
      requires UniqueKeys(initialProducts, ProductId)
      ensures Valid() && products == initialProducts && editingProduct.None?
    {
      products := initialProducts;
      editingProduct := None;
    }

    /** `handleAddProduct`: a product needs a name and a category; it is appended under a fresh
        id, listed and not deleted. */
    method AddProduct(draft: ProductDraft) returns (added: Option<Product>)
      requires Valid()
      modifies this`products
      ensures Valid()
      ensures draft.name == "" || draft.categoryId.None? ==> added.None? && products == old(products)
      ensures draft.name != "" && draft.categoryId.Some? ==>
        && added == Some(Product(NextId(Keys(old(products), ProductId)), draft.name, draft.categoryId.value,
                                 draft.buyingPrice, draft.sellingPrice, draft.expiryDays, draft.threshold,
                                 draft.image, Listed))
        && products == old(products) + [added.value]
      ensures added.Some? ==> forall p :: p in old(products) ==> p.id < added.value.id
    {
      if draft.name == "" || draft.categoryId.None? {
        return None;
      }
      var id := NextId(Keys(products, ProductId));
      var product := Product(id, draft.name, draft.categoryId.value, draft.buyingPrice, draft.sellingPrice,
                             draft.expiryDays, draft.threshold, draft.image, Listed);
      NextIdIsFresh(products, ProductId);
      UniqueAfterAppend(products, product, ProductId);
      products := products + [product];
      added := Some(product);
    }

    /** The edit button: start editing a row of the table. */
    method StartEdit(p: Product)
      requires Valid() && p in products && Edit in Actions(p, editingProduct)
      modifies this`editingProduct
      ensures Valid() && editingProduct == Some(p)
    {
      editingProduct := Some(p);
    }

    /** The inputs of the row being edited: name, category, prices, shelf life and threshold;
        the id, the image and the status are kept. */
    method EditFields(name: string, categoryId: int, buyingPrice: int, sellingPrice: int,
                      expiryDays: int, threshold: int)
      requires Valid() && editingProduct.Some?
      modifies this`editingProduct
      ensures Valid()
      ensures editingProduct == Some(old(editingProduct).value.(
        name := name, categoryId := categoryId, buyingPrice := buyingPrice,
        sellingPrice := sellingPrice, expiryDays := expiryDays, threshold := threshold))
    {
      editingProduct := Some(editingProduct.value.(
        name := name, categoryId := categoryId, buyingPrice := buyingPrice,
        sellingPrice := sellingPrice, expiryDays := expiryDays, threshold := threshold));
    }

    /** `handleUpdateProduct`: with a product being edited and a non-empty name, replace the
        row with its id and stop editing; otherwise nothing changes. */
    method UpdateProduct()
      requires Valid()
      modifies this
      ensures Valid()
      ensures old(editingProduct).None? || old(editingProduct).value.name == "" ==>
        products == old(products) && editingProduct == old(editingProduct)
      ensures old(editingProduct).Some? && old(editingProduct).value.name != "" ==>
        var e := old(editingProduct).value;
        && editingProduct.None?
        && |products| == |old(products)|
        && (forall i :: 0 <= i < |products| ==>
              products[i] == if old(products)[i].id == e.id then e else old(products)[i])
    {
      if editingProduct.None? || editingProduct.value.name == "" {
        return;
      }
      var e := editingProduct.value;
      var replace := (p: Product) => e;
      UniqueAfterUpdate(products, ProductId, e.id, replace);
      products := UpdateWhere(products, ProductId, e.id, replace);
      editingProduct := None;
    }

    /** `handleDeleteProduct`: mark the product with the id deleted on `now`; nothing else changes. */
    method DeleteProduct(id: int, now: int)
      requires Valid()
      modifies this`products
      ensures Valid()
      ensures products == DeleteIn(old(products), id, now)
      ensures forall k :: 0 <= k < |old(products)| && old(products)[k].id == id ==>
        products == old(products)[k := old(products)[k].(status := Status(false, Some(now)))]
    {
      UniqueAfterUpdate(products, ProductId, id, MarkDeleted(now));
      forall k | 0 <= k < |products| && products[k].id == id
        ensures DeleteIn(products, id, now) == products[k := products[k].(status := Status(false, Some(now)))]
      {
        UpdateWhereAt(products, ProductId, id, MarkDeleted(now), k);
      }
      products := DeleteIn(products, id, now);
    }

    /** `handleRestoreProduct`: list the product with the id again; nothing else changes. */
    method RestoreProduct(id: int)
      requires Valid()
      modifies this`products
      ensures Valid()
      ensures products == RestoreIn(old(products), id)
      ensures forall k :: 0 <= k < |old(products)| && old(products)[k].id == id ==>
        products == old(products)[k := old(products)[k].(status := Listed)]
    {
      UniqueAfterUpdate(products, ProductId, id, MarkRestored());
      forall k | 0 <= k < |products| && products[k].id == id
        ensures RestoreIn(products, id) == products[k := products[k].(status := Listed)]
      {
        UpdateWhereAt(products, ProductId, id, MarkRestored(), k);
      }
      products := RestoreIn(products, id);
    }
  }
}
