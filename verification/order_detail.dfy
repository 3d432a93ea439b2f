/** The order-detail screen's view of one order: `toNum`, `normalizeItems`,
    `normalizeOrder`, and the totals fallback of the `order` memo. */
module OrderDetail {
  import opened Wrappers
  import opened JsText
  import opened Json

  /** `toNum(v, fallback)`: `Number(v)` unless `v` is `undefined`, `null`,
      `''`, or converts to NaN. */
  function ToNum(v: Json, fallback: real): (r: real)
    ensures Nullish(v) || v == JStr("") || ToNumber(v).None? ==> r == fallback
    ensures !Nullish(v) && v != JStr("") && ToNumber(v).Some? ==> r == ToNumber(v).value
  {
    if Nullish(v) || v == JStr("") then fallback
    else match ToNumber(v)
      case None => fallback
      case Some(n) => n
  }

  datatype Item = Item(name: Json, qty: real, price: real)

  datatype Order = Order(
    name: Json,
    address: Json,
    phone: Json,
    date: Json,
    timeIn: Json,
    timeOut: Json,
    kind: Json,
    payment: Json,
    subtotal: real,
    discount: real,
    total: real,
    items: seq<Item>)

  predicate NoPriceField(it: Json) {
    Nullish(Get(it, "price")) && Nullish(Get(it, "item_price")) && Nullish(Get(it, "unit_price")) && Nullish(Get(it, "total"))
  }

  /** One line item: the first truthy of five name fields, else 'Item';
      the quantity defaults to 1 and the price to 0. Reading `it.name` of a
      null or undefined entry throws, which is `None`. */
  function NormalizeItem(it: Json): (r: Option<Item>)
    ensures r.None? <==> Nullish(it)
    ensures r.Some? && Nullish(Get(it, "qty")) && Nullish(Get(it, "quantity")) && Nullish(Get(it, "item_qty")) ==> r.value.qty == 1.0
    ensures r.Some? && NoPriceField(it) ==> r.value.price == 0.0
    ensures r.Some? && Truthy(Get(it, "name")) ==> r.value.name == Get(it, "name")
    ensures r.Some? ==> r.value.name == JStr("Item") || Truthy(r.value.name)
  {
    if Nullish(it) then None
    else Some(Item(
      FirstTruthy([Get(it, "name"), Get(it, "item_name"), Get(it, "product_name"),
                   Get(it, "menu_name"), Get(it, "title")], JStr("Item")),
      ToNum(FirstPresent([Get(it, "qty"), Get(it, "quantity")], Get(it, "item_qty")), 1.0),
      ToNum(FirstPresent([Get(it, "price"), Get(it, "item_price"), Get(it, "unit_price")], Get(it, "total")), 0.0)))
  }

  /** `normalizeItems(rawItems)`: one item per raw entry, in order, or
      `None` when the `map` throws on a null or undefined entry. */
  function NormalizeItems(raw: seq<Json>): (r: Option<seq<Item>>)
    ensures r.None? <==> exists i | 0 <= i < |raw| :: Nullish(raw[i])
    ensures r.Some? ==> |r.value| == |raw|
    ensures r.Some? ==> forall i | 0 <= i < |raw| :: Some(r.value[i]) == NormalizeItem(raw[i])
  {
    if raw == [] then Some([])
    else if Nullish(raw[0]) then None
    else match NormalizeItems(raw[1..])
      case None => None
      case Some(rest) => Some([NormalizeItem(raw[0]).value] + rest)
  }

  /** Where the line items are found: `items`, else `order_items`, else
      `details.items`, whichever is first an array; else none. */
  function RawItems(o: Json): (r: seq<Json>)
    ensures Get(o, "items").JArr? ==> r == Get(o, "items").items
    ensures !Get(o, "items").JArr? && Get(o, "order_items").JArr? ==> r == Get(o, "order_items").items
    ensures !Get(o, "items").JArr? && !Get(o, "order_items").JArr? && Get(Get(o, "details"), "items").JArr?
            ==> r == Get(Get(o, "details"), "items").items
    ensures !Get(o, "items").JArr? && !Get(o, "order_items").JArr? && !Get(Get(o, "details"), "items").JArr?
            ==> r == []
  {
    if Get(o, "items").JArr? then Get(o, "items").items
    else if Get(o, "order_items").JArr? then Get(o, "order_items").items
    else Elements(Get(Get(o, "details"), "items"))
  }

  function AddressFields(o: Json): seq<Json> {
    [Get(o, "address"), Get(o, "address1"), Get(o, "address2"), Get(o, "city"), Get(o, "town"), Get(o, "postcode")]
  }

  /** The truthy address parts joined with ', ', or `postcode || '—'` when
      there are none. */
  function Address(o: Json): (r: Json)
    ensures (forall i | 0 <= i < 6 :: !Truthy(AddressFields(o)[i])) ==> r == JStr("—")
    ensures (exists i | 0 <= i < 6 :: Truthy(AddressFields(o)[i])) ==> r == JStr(Join(TruthyParts(AddressFields(o)), ", "))
  {
    var parts := TruthyParts(AddressFields(o));
    if |parts| > 0 then JStr(Join(parts, ", "))
    else
      assert !Truthy(AddressFields(o)[5]);
      Or(Get(o, "postcode"), JStr("—"))
  }

  /** What `normalizeOrder(o)` gives: `null` for a falsy order, a throw
      from `normalizeItems`, or the order. */
  datatype Normalized = NoOrder | Fails | Built(order: Order)

  /** `normalizeOrder(o)`: nothing for a falsy order; for any other it
      throws exactly when the line items do. */
  function NormalizeOrder(o: Json): (r: Normalized)
    ensures r.NoOrder? <==> !Truthy(o)
    ensures r.Fails? <==> Truthy(o) && NormalizeItems(RawItems(o)).None?
    ensures r.Built? ==> Some(r.order.items) == NormalizeItems(RawItems(o)) && r.order.address == Address(o)
    ensures r.Built? && Nullish(Get(o, "sub_total")) && Nullish(Get(o, "subtotal")) ==> r.order.subtotal == 0.0
    ensures r.Built? && Nullish(Get(o, "discount")) && Nullish(Get(o, "discount_amount")) ==> r.order.discount == 0.0
    ensures r.Built? && Nullish(Get(o, "grand_total")) && Nullish(Get(o, "total")) ==> r.order.total == 0.0
  {
    if !Truthy(o) then NoOrder
    else match NormalizeItems(RawItems(o))
    case None => Fails
    case Some(items) => Built(BuildOrder(o, items))
  }

  /** The object `normalizeOrder` returns once its items are known. */
  function BuildOrder(o: Json, items: seq<Item>): Order {
    Order(
      FirstTruthy([Get(o, "customer_name"), Get(o, "name"), Get(o, "customer")], JStr("Customer")),
      Address(o),
      FirstTruthy([Get(o, "customer_mobile"), Get(o, "phone"), Get(o, "customer_phone")], JStr("")),
      FirstTruthy([Get(o, "order_date"), Get(o, "date")], JStr("—")),
      FirstTruthy([Get(o, "order_in"), Get(o, "timeIn")], JStr("—")),
      FirstTruthy([Get(o, "order_out"), Get(o, "timeOut")], JStr("—")),
      FirstTruthy([Get(o, "order_type"), Get(o, "type")], JStr("—")),
      FirstTruthy([Get(o, "payment_method"), Get(o, "payment")], JStr("—")),
      ToNum(Coalesce(Get(o, "sub_total"), Get(o, "subtotal")), 0.0),
      ToNum(Coalesce(Get(o, "discount"), Get(o, "discount_amount")), 0.0),
      ToNum(Coalesce(Get(o, "grand_total"), Get(o, "total")), 0.0),
      items)
  }

  /** `Σ price × qty` over the items. */
  function LineSum(items: seq<Item>): real
  {
    if items == [] then 0.0 else LineSum(items[..|items| - 1]) + items[|items| - 1].price * items[|items| - 1].qty
  }

  predicate HasTotals(o: Order) {
    o.subtotal > 0.0 || o.total > 0.0 || o.discount > 0.0
  }

  /** The totals fallback: with no positive total and at least one item,
      the subtotal becomes the line sum and the total the subtotal less the
      discount. */
  function WithTotals(o: Order): (r: Order)
    ensures HasTotals(o) || o.items == [] ==> r == o
    ensures !HasTotals(o) && o.items != [] ==>
      r == o.(subtotal := LineSum(o.items), total := LineSum(o.items) - o.discount)
  {
    if !HasTotals(o) && |o.items| > 0 then
      var sub := LineSum(o.items);
      o.(subtotal := sub, total := sub - o.discount)
    else o
  }

  /** The built-in order shown when the route carries none. */
  const FallbackOrder: Json := JObj(map[
    "name" := JStr("Julie Bowles"),
    "address" := JStr("83 Send Road, Send, GU23 7EZ"),
    "phone" := JStr("+447860632452"),
    "date" := JStr("Jul 09, 2025"),
    "timeIn" := JStr("8:10 PM"),
    "timeOut" := JStr("8:45 PM"),
    "type" := JStr("Collection"),
    "payment" := JStr("Card"),
    "subtotal" := JNum(87.0),
    "discount" := JNum(8.7),
    "total" := JNum(78.3),
    "items" := JArr([
      FallbackItem("Butter Chicken", 15.0),
      FallbackItem("Korzai Lamb", 15.0),
      FallbackItem("Chicken Tikka Biriani", 16.0),
      FallbackItem("Lamb Tikka Biriani", 16.0),
      FallbackItem("Saag Paneer", 6.0),
      FallbackItem("Pilau Rice", 4.0),
      FallbackItem("Chilli Masala;Chicken", 15.0)])])

  function FallbackItem(name: string, price: real): Json {
    JObj(map["name" := JStr(name), "qty" := JNum(1.0), "price" := JNum(price)])
  }

  /** The `order` memo: the normalised route order with the totals
      fallback, or the normalised built-in order when the route has none;
      `None` when normalising the route order throws, which fails the
      screen's render. */
  function ShownOrder(incoming: Json): (r: Option<Order>)
    ensures r.None? <==> NormalizeOrder(incoming).Fails?
    ensures NormalizeOrder(incoming).Built? ==> r == Some(WithTotals(NormalizeOrder(incoming).order))
    ensures !Truthy(incoming) ==> r.Some? && NormalizeOrder(FallbackOrder) == Built(r.value)
  {
    match NormalizeOrder(incoming)
    case NoOrder =>
      FallbackBuilt();
      Some(NormalizeOrder(FallbackOrder).order)
    case Fails => None
    case Built(n) => Some(WithTotals(n))
  }

  /** The built-in order's items are all objects, so it normalises. */
  lemma FallbackBuilt()
    ensures NormalizeItems(RawItems(FallbackOrder)).Some?
    ensures |NormalizeItems(RawItems(FallbackOrder)).value| == 7
    ensures NormalizeOrder(FallbackOrder) == Built(BuildOrder(FallbackOrder, NormalizeItems(RawItems(FallbackOrder)).value))
  {
    var o := FallbackOrder;
    assert Truthy(o);
    var items := Get(o, "items").items;
    assert RawItems(o) == items;
    assert forall i | 0 <= i < |items| :: items[i].JObj?;
  }

  // ------------------------------------------------------------- lemmas

  /** A server total that is positive is kept whatever the items say. */
  lemma PositiveTotalsKept(incoming: Json)
    requires NormalizeOrder(incoming).Built?
    requires HasTotals(NormalizeOrder(incoming).order)
    ensures ShownOrder(incoming) == Some(NormalizeOrder(incoming).order)
  {
  }

  /** After the fallback, the total is the subtotal less the discount
      whenever no positive figure came with the order and it has items. */
  lemma FallbackTotalsConsistent(incoming: Json)
    requires NormalizeOrder(incoming).Built?
    requires !HasTotals(NormalizeOrder(incoming).order)
    requires RawItems(incoming) != []
    ensures ShownOrder(incoming).Some?
    ensures var r := ShownOrder(incoming).value;
      r.subtotal == LineSum(r.items) && r.total == r.subtotal - r.discount
      && Some(r.items) == NormalizeItems(RawItems(incoming))
  {
  }

  /** A null or undefined line item in a truthy route order makes the
      screen's normalisation throw. */
  lemma NullItemFailsScreen(incoming: Json, i: int)
    requires Truthy(incoming) && 0 <= i < |RawItems(incoming)| && Nullish(RawItems(incoming)[i])
    ensures ShownOrder(incoming).None?
  {
  }

  /** A raw line item carrying only a price and a quantity. */
  function PriceQty(p: real, q: real): Json {
    JObj(map["price" := JNum(p), "qty" := JNum(q)])
  }

  /** An order that carries two items and no figures at all. */
  function ItemsOnlyOrder(a: Json, b: Json): Json {
    JObj(map["items" := JArr([a, b])])
  }

  /** An entry with only `price` and `qty` keeps both and is named 'Item'. */
  lemma PriceQtyItem(q: real, p: real)
    ensures NormalizeItem(PriceQty(p, q)) == Some(Item(JStr("Item"), q, p))
  {
    var it := PriceQty(p, q);
    var r := NormalizeItem(it).value;
    assert Get(it, "qty") == JNum(q);
    assert Get(it, "price") == JNum(p);
    assert r.name == JStr("Item");
    assert r.qty == q;
    assert r.price == p;
  }

  /** Two normalised items are the normalisations of the two entries. */
  lemma NormalizeTwo(a: Json, b: Json)
    requires !Nullish(a) && !Nullish(b)
    ensures NormalizeItems([a, b]) == Some([NormalizeItem(a).value, NormalizeItem(b).value])
  {
    var r := NormalizeItems([a, b]).value;
    assert |r| == 2;
    assert Some(r[0]) == NormalizeItem(a) && Some(r[1]) == NormalizeItem(b);
    assert r == [r[0], r[1]];
  }

  /** The items-only order fails exactly when one of its two items is null
      or undefined, and otherwise normalises to zero figures and its two
      items. */
  lemma ItemsOnlyNormalized(a: Json, b: Json)
    ensures NormalizeOrder(ItemsOnlyOrder(a, b)).Fails? <==> Nullish(a) || Nullish(b)
    ensures var n := NormalizeOrder(ItemsOnlyOrder(a, b));
      n.Built? ==> (n.order.subtotal == 0.0 && n.order.total == 0.0 && n.order.discount == 0.0
                    && Some(n.order.items) == NormalizeItems([a, b]))
  {
    ItemsOnlyFigures(a, b);
    ItemsOnlyItems(a, b);
  }

  lemma ItemsOnlyFigures(a: Json, b: Json)
    ensures var n := NormalizeOrder(ItemsOnlyOrder(a, b));
      n.Built? ==> n.order.subtotal == 0.0 && n.order.total == 0.0 && n.order.discount == 0.0
  {
    var o := ItemsOnlyOrder(a, b);
    assert Truthy(o);
    assert Nullish(Get(o, "sub_total")) && Nullish(Get(o, "subtotal"));
    assert Nullish(Get(o, "grand_total")) && Nullish(Get(o, "total"));
    assert Nullish(Get(o, "discount")) && Nullish(Get(o, "discount_amount"));
  }

  lemma ItemsOnlyItems(a: Json, b: Json)
    ensures NormalizeOrder(ItemsOnlyOrder(a, b)).Fails? <==> Nullish(a) || Nullish(b)
    ensures var n := NormalizeOrder(ItemsOnlyOrder(a, b));
      n.Built? ==> Some(n.order.items) == NormalizeItems([a, b])
  {
    var o := ItemsOnlyOrder(a, b);
    assert Truthy(o);
    assert Get(o, "items") == JArr([a, b]);
    assert RawItems(o) == [a, b];
    if !Nullish(a) && !Nullish(b) {
      assert forall i | 0 <= i < 2 :: !Nullish([a, b][i]);
    } else {
      assert Nullish([a, b][0]) || Nullish([a, b][1]);
    }
  }

  lemma LineSumTwo(a: Item, b: Item)
    ensures LineSum([a, b]) == a.price * a.qty + b.price * b.qty
  {
    assert [a, b][..1] == [a];
    assert [a][..0] == [];
    assert LineSum([a]) == LineSum([]) + a.price * a.qty;
    assert LineSum([a, b]) == LineSum([a]) + b.price * b.qty;
  }

  lemma TwoPriceQtyLines(p1: real, q1: real, p2: real, q2: real)
    ensures LineSum([Item(JStr("Item"), q1, p1), Item(JStr("Item"), q2, p2)]) == p1 * q1 + p2 * q2
  {
    LineSumTwo(Item(JStr("Item"), q1, p1), Item(JStr("Item"), q2, p2));
  }

  /** Items (p1 × q1, p2 × q2) with no figures show the line sum as both
      subtotal and total; for (10 × 2, 5 × 1) that is 25. */
  lemma FallbackTotalsExample(p1: real, q1: real, p2: real, q2: real)
    ensures ShownOrder(ItemsOnlyOrder(PriceQty(p1, q1), PriceQty(p2, q2))).Some?
    ensures var r := ShownOrder(ItemsOnlyOrder(PriceQty(p1, q1), PriceQty(p2, q2))).value;
      r.subtotal == p1 * q1 + p2 * q2 && r.total == p1 * q1 + p2 * q2
  {
    var a, b := PriceQty(p1, q1), PriceQty(p2, q2);
    ItemsOnlyNormalized(a, b);
    NormalizeTwo(a, b);
    PriceQtyItem(q1, p1);
    PriceQtyItem(q2, p2);
    var items := [Item(JStr("Item"), q1, p1), Item(JStr("Item"), q2, p2)];
    TwoPriceQtyLines(p1, q1, p2, q2);
    var o := ItemsOnlyOrder(a, b);
    assert Truthy(o);
    var n := NormalizeOrder(o).order;
    assert n.items == items;
    assert !HasTotals(n);
    assert ShownOrder(o) == Some(WithTotals(n));
  }

  /** With no route order the screen shows the built-in order, unchanged by
      the totals fallback. */
  lemma MissingOrderShowsFallback()
    ensures ShownOrder(JUndef).Some?
    ensures ShownOrder(JUndef).value.name == JStr("Julie Bowles")
    ensures ShownOrder(JUndef).value.total == 78.3 && ShownOrder(JUndef).value.subtotal == 87.0
    ensures |ShownOrder(JUndef).value.items| == 7
  {
    FallbackNameAndItems();
    FallbackTotals();
  }

  lemma FallbackNameAndItems()
    ensures NormalizeOrder(FallbackOrder).Built?
    ensures NormalizeOrder(FallbackOrder).order.name == JStr("Julie Bowles")
    ensures |NormalizeOrder(FallbackOrder).order.items| == 7
  {
    FallbackBuilt();
    FallbackName(NormalizeItems(RawItems(FallbackOrder)).value);
  }

  /** With no `customer_name`, a truthy `name` is the order's name. */
  lemma NameField(o: Json)
    requires NormalizeOrder(o).Built? && Nullish(Get(o, "customer_name")) && Truthy(Get(o, "name"))
    ensures NormalizeOrder(o).order.name == Get(o, "name")
  {
    BuiltName(o, NormalizeItems(RawItems(o)).value);
  }

  lemma BuiltName(o: Json, items: seq<Item>)
    requires Nullish(Get(o, "customer_name")) && Truthy(Get(o, "name"))
    ensures BuildOrder(o, items).name == Get(o, "name")
  {
    var vs := [Get(o, "customer_name"), Get(o, "name"), Get(o, "customer")];
    assert !Truthy(vs[0]) && Truthy(vs[1]);
    assert NoneTruthyBefore(vs, 1);
  }

  lemma FallbackTotals()
    ensures NormalizeOrder(FallbackOrder).Built?
    ensures NormalizeOrder(FallbackOrder).order.total == 78.3
    ensures NormalizeOrder(FallbackOrder).order.subtotal == 87.0
  {
    FallbackBuilt();
    FallbackFigures(NormalizeItems(RawItems(FallbackOrder)).value);
  }

  /** The built-in order's name, whatever its items. */
  lemma FallbackName(items: seq<Item>)
    ensures BuildOrder(FallbackOrder, items).name == JStr("Julie Bowles")
  {
    var o := FallbackOrder;
    assert Get(o, "name") == JStr("Julie Bowles");
    assert Get(o, "customer_name") == JUndef;
    BuiltName(o, items);
  }

  /** The built-in order's figures, whatever its items. */
  lemma FallbackFigures(items: seq<Item>)
    ensures BuildOrder(FallbackOrder, items).total == 78.3
    ensures BuildOrder(FallbackOrder, items).subtotal == 87.0
  {
    var o := FallbackOrder;
    var t := Coalesce(Get(o, "grand_total"), Get(o, "total"));
    assert Get(o, "total") == JNum(78.3);
    assert Nullish(Get(o, "grand_total"));
    assert t == JNum(78.3);
    assert ToNum(t, 0.0) == 78.3;
    var st := Coalesce(Get(o, "sub_total"), Get(o, "subtotal"));
    assert Get(o, "subtotal") == JNum(87.0);
    assert Nullish(Get(o, "sub_total"));
    assert st == JNum(87.0);
    assert ToNum(st, 0.0) == 87.0;
  }
}
