/** The orders page (app/dashboard/orders/page.tsx): the table of orders, the create-order form
    whose item lines are edited in place, order totals, and the status buttons. */
module Orders {
  import opened Tables

  datatype OrderStatus = Pending | Approved | Delivered | Cancelled

  datatype OrderItem = OrderItem(productId: int, quantity: int, price: int)

  datatype Order = Order(id: int, date: int, location: string, status: OrderStatus, items: seq<OrderItem>)

  /** A line of the create-order form; `productId` is None until a product is picked. */
  datatype DraftItem = DraftItem(productId: Option<int>, quantity: int)

  /** The page's product entry. */
  datatype OrderProduct = OrderProduct(id: int, name: string, categoryId: int, sellingPrice: int, threshold: int)

  /** The products the page offers. */
  const Products: seq<OrderProduct> := [
    OrderProduct(1, "Classic Bread", 1, 2000, 10),
    OrderProduct(2, "Bus Bread", 1, 2500, 5),
    OrderProduct(3, "Milk Bread", 1, 3000, 8)]

  /** The form's location when it opens. */
  const DefaultLocation: string := "nakawa"

  /** A fresh form line: no product picked, one unit. */
  const BlankItem: DraftItem := DraftItem(None, 1)

  function OrderId(o: Order): int { o.id }

  function ProductId(p: OrderProduct): int { p.id }

  function LineTotal(item: OrderItem): int { item.quantity * item.price }

  /** `calculateOrderTotal`: the sum of quantity times price over the order's items; never
      negative when no quantity or price is. */
  function OrderTotal(order: Order): (total: int)
    ensures (forall item :: item in order.items ==> 0 <= item.quantity && 0 <= item.price) ==> 0 <= total
  {
    assert (forall item :: item in order.items ==> 0 <= item.quantity && 0 <= item.price) ==>
      forall item :: item in order.items ==> 0 <= LineTotal(item);
    SumOf(order.items, LineTotal)
  }

  /** The total of a longer item list is the total of its parts. */
  lemma OrderTotalAppend(order: Order, more: seq<OrderItem>)
    ensures OrderTotal(order.(items := order.items + more)) == OrderTotal(order) + OrderTotal(order.(items := more))
  {
    SumOfAppend(order.items, more, LineTotal);
  }

  /** A one-line order costs quantity times price. */
  lemma OrderTotalSingle(order: Order, item: OrderItem)
    ensures OrderTotal(order.(items := [item])) == item.quantity * item.price
  {
    assert [item][1..] == [];
    assert SumOf([item][1..], LineTotal) == 0;
  }

  function FindProduct(catalog: seq<OrderProduct>, productId: int): Option<OrderProduct>
  {
    Find(catalog, (p: OrderProduct) => p.id == productId)
  }

  /** `getProductName`: the product's name, or "Unknown Product" when no product has the id
      (or its name is empty). */
  function ProductName(catalog: seq<OrderProduct>, productId: int): (name: string)
    ensures name != ""
    ensures name == "Unknown Product" || exists p :: p in catalog && p.id == productId && p.name == name
    ensures (forall p :: p in catalog ==> p.id != productId) ==> name == "Unknown Product"
    ensures FindProduct(catalog, productId).Some? && FindProduct(catalog, productId).value.name != "" ==>
      name == FindProduct(catalog, productId).value.name
  {
    var found := FindProduct(catalog, productId);
    if found.Some? && found.value.name != "" then found.value.name else "Unknown Product"
  }

  /** With unique product ids a product with a name is shown under that name. */
  lemma ProductNameUnique(catalog: seq<OrderProduct>, p: OrderProduct)
    requires UniqueKeys(catalog, ProductId) && p in catalog && p.name != ""
    ensures ProductName(catalog, p.id) == p.name
  {
    var found := FindProduct(catalog, p.id);
    UniqueKeysSame(catalog, ProductId, p, found.value);
  }

  /** The price an order line is given: the selling price of the first product with that id,
      or 0 for an unknown product. */
  function PriceOf(catalog: seq<OrderProduct>, productId: int): (price: int)
    ensures (forall p :: p in catalog ==> p.id != productId) ==> price == 0
    ensures price == 0 || exists p :: p in catalog && p.id == productId && p.sellingPrice == price
  {
    var found := FindProduct(catalog, productId);
    if found.Some? then found.value.sellingPrice else 0
  }

  /** With unique product ids a line is priced at the selling price of its one product. */
  lemma PriceOfUnique(catalog: seq<OrderProduct>, p: OrderProduct)
    requires UniqueKeys(catalog, ProductId) && p in catalog
    ensures PriceOf(catalog, p.id) == p.sellingPrice
  {
    var found := FindProduct(catalog, p.id);
    UniqueKeysSame(catalog, ProductId, p, found.value);
  }

  /** The page's own catalogue resolves the ids it offers and prices anything else at 0. */
  lemma PagePrices()
    ensures PriceOf(Products, 1) == 2000 && PriceOf(Products, 2) == 2500 && PriceOf(Products, 3) == 3000
    ensures forall id :: id < 1 || 3 < id ==> PriceOf(Products, id) == 0
  {
    assert UniqueKeys(Products, ProductId);
    PriceOfUnique(Products, Products[0]);
    PriceOfUnique(Products, Products[1]);
    PriceOfUnique(Products, Products[2]);
  }

  /** A line the form accepts: a product picked and at least one unit. */
  predicate ItemReady(item: DraftItem)
  {
    item.productId.Some? && 1 <= item.quantity
  }

  /** `newOrder.items.some(item => !item.productId || item.quantity < 1)` */
  predicate HasInvalidItem(items: seq<DraftItem>)
  {
    exists i :: 0 <= i < |items| && !ItemReady(items[i])
  }

  /** The order lines made from the form's lines, each priced from the catalogue. */
  function PriceItems(catalog: seq<OrderProduct>, items: seq<DraftItem>): (r: seq<OrderItem>)
    requires forall i :: 0 <= i < |items| ==> items[i].productId.Some?
    ensures |r| == |items|
    ensures forall i :: 0 <= i < |items| ==>
      && r[i].productId == items[i].productId.value
      && r[i].quantity == items[i].quantity
      && r[i].price == PriceOf(catalog, items[i].productId.value)
  {
    seq(|items|, i requires 0 <= i < |items| =>
      OrderItem(items[i].productId.value, items[i].quantity, PriceOf(catalog, items[i].productId.value)))
  }

  /** The status buttons an order shows: approve or cancel while pending, deliver once approved;
      each offered move goes strictly forward. */
  function Offered(s: OrderStatus): (next: set<OrderStatus>)
    ensures forall t :: t in next ==> Rank(s) < Rank(t)
    ensures s == Delivered || s == Cancelled ==> next == {}
  {
    match s
    case Pending => {Approved, Cancelled}
    case Approved => {Delivered}
    case Delivered => {}
    case Cancelled => {}
  }

  function Rank(s: OrderStatus): nat
  {
    match s
    case Pending => 0
    case Approved => 1
    case Delivered => 2
    case Cancelled => 2
  }

  /** A sequence of statuses an order can pass through by pressing the offered buttons. */
  predicate Path(ss: seq<OrderStatus>)
  {
    forall i :: 0 < i < |ss| ==> ss[i] in Offered(ss[i - 1])
  }

  /** Each button press moves an order one rank forward. */
  lemma {:induction false} PathRanks(ss: seq<OrderStatus>)
    requires Path(ss) && 0 < |ss|
    ensures Rank(ss[|ss| - 1]) >= Rank(ss[0]) + |ss| - 1
  {
    if |ss| > 1 {
      var front := ss[..|ss| - 1];
      assert Path(front) by {
        forall i | 0 < i < |front|
          ensures front[i] in Offered(front[i - 1])
        {
          assert front[i] == ss[i] && front[i - 1] == ss[i - 1];
        }
      }
      PathRanks(front);
      assert ss[|ss| - 1] in Offered(ss[|ss| - 2]);
    }
  }

  /** No order changes status more than twice, and no status is ever revisited. */
  lemma PathsAreShort(ss: seq<OrderStatus>)
    requires Path(ss)
    ensures |ss| <= 3
    ensures forall i, j :: 0 <= i < j < |ss| ==> ss[i] != ss[j]
  {
    if 0 < |ss| {
      PathRanks(ss);
    }
    forall i, j | 0 <= i < j < |ss|
      ensures ss[i] != ss[j]
    {
      var sub := ss[i..j + 1];
      assert Path(sub) by {
        forall k | 0 < k < |sub|
          ensures sub[k] in Offered(sub[k - 1])
        {
          assert sub[k] == ss[i + k] && sub[k - 1] == ss[i + k - 1];
        }
      }
      PathRanks(sub);
    }
  }

  /** An order is delivered only after being approved. */
  lemma DeliveredAfterApproved(ss: seq<OrderStatus>)
    requires Path(ss) && 1 < |ss| && ss[|ss| - 1] == Delivered
    ensures ss[|ss| - 2] == Approved
  {
    assert ss[|ss| - 1] in Offered(ss[|ss| - 2]);
  }

  /** Which field of a form line an edit sets. */
  datatype ItemEdit = SetProduct(productId: int) | SetQuantity(quantity: int)

  class OrdersPage {
    var orders: seq<Order>
    /** The create-order form. */
    var draftLocation: string
    var draftItems: seq<DraftItem>

    /** Order ids are unique and the form always shows at least one line. */
    ghost predicate Valid()
      reads this
    {
      UniqueKeys(orders, OrderId) && 1 <= |draftItems|
    }

    constructor (initialOrders: seq<Order>)
      requires UniqueKeys(initialOrders, OrderId)
      ensures Valid()
      ensures orders == initialOrders && draftLocation == DefaultLocation && draftItems == [BlankItem]
    {
      orders := initialOrders;
      draftLocation := DefaultLocation;
      draftItems := [BlankItem];
    }

    /** The form's location picker. */
    method SelectLocation(location: string)
      requires Valid()
      modifies this`draftLocation
      ensures Valid() && draftLocation == location
    {
      draftLocation := location;
    }

    /** `handleAddItem`: one more blank line at the end. */
    method AddItem()
      requires Valid()
      modifies this`draftItems
      ensures Valid()
      ensures draftItems == old(draftItems) + [BlankItem]
    {
      draftItems := draftItems + [BlankItem];
    }

    /** `handleRemoveItem`: drop exactly the line at `index`, keeping the others in order; the
        button is disabled while only one line is left. */
    method RemoveItem(index: nat)
      requires Valid() && index < |draftItems| && 1 < |draftItems|
      modifies this`draftItems
      ensures Valid()
      ensures draftItems == old(draftItems)[..index] + old(draftItems)[index + 1..]
      ensures |draftItems| == |old(draftItems)| - 1
    {
      draftItems := draftItems[..index] + draftItems[index + 1..];
    }

    /** `handleItemChange`: set the product or the quantity of one line. */
    method ItemChange(index: nat, edit: ItemEdit)
      requires Valid() && index < |draftItems|
      modifies this`draftItems
      ensures Valid()
      ensures |draftItems| == |old(draftItems)|
      ensures forall i :: 0 <= i < |draftItems| && i != index ==> draftItems[i] == old(draftItems)[i]
      ensures edit.SetProduct? ==> draftItems[index] == old(draftItems)[index].(productId := Some(edit.productId))
      ensures edit.SetQuantity? ==> draftItems[index] == old(draftItems)[index].(quantity := edit.quantity)
    {
      var updated := draftItems[index];
      match edit {
        case SetProduct(productId) => updated := updated.(productId := Some(productId));
        case SetQuantity(quantity) => updated := updated.(quantity := quantity);
      }
      draftItems := draftItems[index := updated];
    }

    /** `handleCreateOrder`: with every line ready, append a pending order under a fresh id,
        dated `now`, with the form's location and lines priced from the catalogue, then reset
        the form; otherwise change nothing. */
    method CreateOrder(now: int) returns (created: Option<Order>)
      requires Valid()
      modifies this
      ensures Valid()
      ensures HasInvalidItem(old(draftItems)) ==>
        created.None? && orders == old(orders) && draftItems == old(draftItems) && draftLocation == old(draftLocation)
      ensures !HasInvalidItem(old(draftItems)) ==>
        && created.Some?
        && created.value == Order(NextId(Keys(old(orders), OrderId)), now, old(draftLocation), Pending,
                                  PriceItems(Products, old(draftItems)))
        && orders == old(orders) + [created.value]
        && draftLocation == DefaultLocation && draftItems == [BlankItem]
      ensures created.Some? ==> forall o :: o in old(orders) ==> o.id < created.value.id
    {
      if HasInvalidItem(draftItems) {
        return None;
      }
      var id := NextId(Keys(orders, OrderId));
      var order := Order(id, now, draftLocation, Pending, PriceItems(Products, draftItems));
      NextIdIsFresh(orders, OrderId);
      UniqueAfterAppend(orders, order, OrderId);
      orders := orders + [order];
      draftLocation := DefaultLocation;
      draftItems := [BlankItem];
      created := Some(order);
    }

    /** `handleUpdateOrderStatus`: set the status of the order with that id; every other order,
        and every other field, is unchanged. */
    method UpdateOrderStatus(id: int, status: OrderStatus)
      requires Valid()
      modifies this`orders
      ensures Valid()
      ensures |orders| == |old(orders)|
      ensures forall i :: 0 <= i < |orders| ==>
        orders[i] == if old(orders)[i].id == id then old(orders)[i].(status := status) else old(orders)[i]
      ensures forall k :: 0 <= k < |old(orders)| && old(orders)[k].id == id ==>
        orders == old(orders)[k := old(orders)[k].(status := status)]
    {
      var setStatus := (o: Order) => o.(status := status);
      UniqueAfterUpdate(orders, OrderId, id, setStatus);
      forall k | 0 <= k < |orders| && orders[k].id == id
        ensures UpdateWhere(orders, OrderId, id, setStatus) == orders[k := orders[k].(status := status)]
      {
        UpdateWhereAt(orders, OrderId, id, setStatus, k);
      }
      orders := UpdateWhere(orders, OrderId, id, setStatus);
    }
  }
}
