/** The six summary figures of the online-order list, computed from the
    order-list response inside `fetchOrderList`. Each figure prefers the
    server's own value and falls back, independently of the others, to a
    figure derived from the orders. A string method that throws on the way
    sends the fetch to its catch, which shows no orders and six zeros. */
module OrderSummary {
  import opened Wrappers
  import opened JsText
  import opened Json

  datatype Summary = Summary(
    totalAmount: real,
    cashAmount: real,
    cardAmount: real,
    totalOrders: int,
    collectionOrders: int,
    deliveryOrders: int)

  const ZeroSummary := Summary(0.0, 0.0, 0.0, 0, 0, 0)

  // -------------------------------------------------- sums and counts

  /** `xs.reduce((sum, x) => sum + f(x), 0)`. */
  function Total(xs: seq<Json>, f: Json -> real): real
  {
    if xs == [] then 0.0 else f(xs[0]) + Total(xs[1..], f)
  }

  // ---------------------------------------------------------- one order

  /** `(v || '').toLowerCase() === name` when that does not throw. */
  predicate KindIs(v: Json, name: string) {
    var t := Or(v, JStr(""));
    t.JStr? && Lower(t.s) == name
  }

  /** Testing the method or type of element `o` throws: reading a field of
      `null` or `undefined`, or lower-casing a truthy value that is not
      text. */
  predicate KindThrows(o: Json, key: string) {
    Nullish(o) || StringMethodThrows(Get(o, key))
  }

  /** Some element of `xs` satisfies `p`. */
  predicate Any(xs: seq<Json>, p: Json -> bool) {
    exists i | 0 <= i < |xs| :: p(xs[i])
  }

  /** `payments.find(p => (p.payment_method || '').toLowerCase() === name)`
      throws. */
  predicate FindThrows(ps: seq<Json>, name: string)
  {
    FindReaches(ps, PaidWith(name), o => KindThrows(o, "payment_method"))
  }

  /** `parseFloat(o.grand_total) || 0`. */
  function GrandTotal(o: Json): real {
    OrZero(ParseFloat(Get(o, "grand_total")))
  }

  function PaidWith(name: string): Json -> bool {
    o => KindIs(Get(o, "payment_method"), name)
  }

  function OfType(name: string): Json -> bool {
    o => KindIs(Get(o, "order_type"), name)
  }

  // ---------------------------------------------------- server figures

  /** The response carries an order list. */
  predicate Listed(res: Json) {
    Get(res, "status") == JStr("1") && Get(res, "orders").JArr?
  }

  /** `totalAmount` before the fallback: `parseFloat(total) || 0` when
      `total` is present, else 0. */
  function ServerTotal(res: Json): real {
    if Nullish(Get(res, "total")) then 0.0 else OrZero(ParseFloat(Get(res, "total")))
  }

  /** `cashAmount` (or `cardAmount`) before the fallback: the parsed amount
      of the first payment entry of that method, possibly NaN; 0 when the
      payment list or the entry is missing. */
  function ServerPayment(res: Json, name: string): Option<real> {
    var payments := Get(res, "payment");
    if !payments.JArr? then Some(0.0)
    else match Find(payments.items, PaidWith(name))
      case None => Some(0.0)
      case Some(p) => ParseFloat(Or(Get(p, "amount"), JNum(0.0)))
  }

  /** `parseInt(v, 10) || 0` when `v` is present, else 0. */
  function ServerCount(res: Json, key: string): int {
    var v := Get(res, key);
    if Nullish(v) then 0
    else match ParseInt(v)
      case None => 0
      case Some(n) => n
  }

  // ----------------------------------------------------------- summary

  /** `totalAmount`: the server's total unless it is 0, else the sum of
      the orders' grand totals. */
  function TotalAmount(os: seq<Json>, server: real): real {
    if server != 0.0 then server else Total(os, GrandTotal)
  }

  /** `cashAmount` / `cardAmount`: the server's amount unless it is 0 or
      NaN, else the sum of grand totals over the orders paid that way. */
  function PaymentAmount(os: seq<Json>, server: Option<real>, name: string): real {
    if FalsyNumber(server) then Total(Filter(os, PaidWith(name)), GrandTotal) else server.value
  }

  /** `totalOrders`: the server's count unless it is 0, else the number of
      orders. */
  function OrderCount(os: seq<Json>, server: int): int {
    if server != 0 then server else |os|
  }

  /** `collectionOrders` / `deliveryOrders`: the server's count unless it
      is 0, else the number of orders of that type. */
  function TypeCount(os: seq<Json>, server: int, name: string): int {
    if server != 0 then server else |Filter(os, OfType(name))|
  }

  /** The server's six figures before any fallback. */
  datatype Server = Server(
    total: real,
    cash: Option<real>,
    card: Option<real>,
    count: int,
    collection: int,
    delivery: int)

  function ServerFigures(res: Json): Server {
    Server(ServerTotal(res), ServerPayment(res, "cash"), ServerPayment(res, "card"),
      ServerCount(res, "total_order"), ServerCount(res, "total_collection_order"),
      ServerCount(res, "total_delivery_order"))
  }

  /** Each figure after its own fallback. */
  function Figures(os: seq<Json>, srv: Server): Summary {
    Summary(
      TotalAmount(os, srv.total),
      PaymentAmount(os, srv.cash, "cash"),
      PaymentAmount(os, srv.card, "card"),
      OrderCount(os, srv.count),
      TypeCount(os, srv.collection, "collection"),
      TypeCount(os, srv.delivery, "delivery"))
  }

  /** For a listed response: some step of the computation throws. Each
      step is taken only when its figure needs it: the two `find`s over the
      payment list when it is an array, the grand-total sum when the server
      total is 0, the payment filters when a server amount is 0 or NaN, and
      the type filters when a server count is 0. */
  predicate Throws(res: Json)
  {
    var os := Elements(Get(res, "orders"));
    var ps := Get(res, "payment");
    (ps.JArr? && (FindThrows(ps.items, "cash") || FindThrows(ps.items, "card")))
    || (ServerTotal(res) == 0.0 && Any(os, o => Nullish(o)))
    || ((FalsyNumber(ServerPayment(res, "cash")) || FalsyNumber(ServerPayment(res, "card")))
        && Any(os, o => KindThrows(o, "payment_method")))
    || ((ServerCount(res, "total_collection_order") == 0 || ServerCount(res, "total_delivery_order") == 0)
        && Any(os, o => KindThrows(o, "order_type")))
  }

  /** The figures the screen shows for a response. */
  function Summarize(res: Json): (s: Summary)
    ensures !Listed(res) || Throws(res) ==> s == ZeroSummary
    ensures Listed(res) && !Throws(res) ==> s == Figures(Get(res, "orders").items, ServerFigures(res))
  {
    if !Listed(res) || Throws(res) then ZeroSummary
    else Figures(Get(res, "orders").items, ServerFigures(res))
  }

  /** The order list the screen shows: the response's orders, or nothing
      when the response is not listed or the catch emptied the list. */
  function OrderList(res: Json): (os: seq<Json>)
    ensures Listed(res) && !Throws(res) ==> os == Get(res, "orders").items
    ensures !Listed(res) || Throws(res) ==> os == []
  {
    if Listed(res) && !Throws(res) then Get(res, "orders").items else []
  }

  // ------------------------------------------------------------- lemmas

  /** Each figure: a non-zero server value is shown as it is; otherwise the
      figure derived from the orders is shown. A computation that throws
      shows no orders and six zeros instead. */
  lemma FiguresPreferServer(res: Json)
    requires Listed(res)
    ensures Throws(res) ==> Summarize(res) == ZeroSummary && OrderList(res) == []
    ensures !Throws(res) ==> var os := OrderList(res); var s := Summarize(res);
      os == Get(res, "orders").items
      && (ServerTotal(res) != 0.0 ==> s.totalAmount == ServerTotal(res))
      && (ServerTotal(res) == 0.0 ==> s.totalAmount == Total(os, GrandTotal))
      && (!FalsyNumber(ServerPayment(res, "cash")) ==> s.cashAmount == ServerPayment(res, "cash").value)
      && (FalsyNumber(ServerPayment(res, "cash")) ==> s.cashAmount == Total(Filter(os, PaidWith("cash")), GrandTotal))
      && (!FalsyNumber(ServerPayment(res, "card")) ==> s.cardAmount == ServerPayment(res, "card").value)
      && (FalsyNumber(ServerPayment(res, "card")) ==> s.cardAmount == Total(Filter(os, PaidWith("card")), GrandTotal))
      && (ServerCount(res, "total_order") != 0 ==> s.totalOrders == ServerCount(res, "total_order"))
      && (ServerCount(res, "total_order") == 0 ==> s.totalOrders == |os|)
      && (ServerCount(res, "total_collection_order") != 0
          ==> s.collectionOrders == ServerCount(res, "total_collection_order"))
      && (ServerCount(res, "total_collection_order") == 0
          ==> s.collectionOrders == |Filter(os, OfType("collection"))|)
      && (ServerCount(res, "total_delivery_order") != 0
          ==> s.deliveryOrders == ServerCount(res, "total_delivery_order"))
      && (ServerCount(res, "total_delivery_order") == 0
          ==> s.deliveryOrders == |Filter(os, OfType("delivery"))|)
  {
  }

  /** The payment `find` throws exactly when an entry whose test throws
      comes before any entry for the method. */
  lemma FindThrowsSpec(ps: seq<Json>, name: string)
    ensures FindThrows(ps, name)
      <==> exists i | 0 <= i < |ps| :: KindThrows(ps[i], "payment_method") && NoneBefore(ps, PaidWith(name), i)
  {
    var bad := o => KindThrows(o, "payment_method");
    FindReachesSpec(ps, PaidWith(name), bad);
    assert forall i | 0 <= i < |ps| :: bad(ps[i]) == KindThrows(ps[i], "payment_method");
  }

  /** An order whose payment method is a truthy value other than text,
      such as the number 1, makes the payment fallback throw when the
      server sends no usable cash or card amount: the screen then lists no
      order and shows six zeros. */
  lemma NonTextPaymentMethodShowsNothing(res: Json, i: int)
    requires Listed(res) && 0 <= i < |Get(res, "orders").items|
    requires StringMethodThrows(Get(Get(res, "orders").items[i], "payment_method"))
    requires FalsyNumber(ServerPayment(res, "cash")) || FalsyNumber(ServerPayment(res, "card"))
    ensures Summarize(res) == ZeroSummary && OrderList(res) == []
  {
    var os := Get(res, "orders").items;
    assert (o => KindThrows(o, "payment_method"))(os[i]);
  }

  /** Whether some element satisfies `p` does not depend on their order. */
  lemma AnyPermutation(a: seq<Json>, b: seq<Json>, p: Json -> bool)
    requires multiset(a) == multiset(b)
    ensures Any(a, p) <==> Any(b, p)
  {
    if Any(a, p) {
      var i :| 0 <= i < |a| && p(a[i]);
      assert a[i] in multiset(b);
      var j :| 0 <= j < |b| && b[j] == a[i];
    }
    if Any(b, p) {
      var j :| 0 <= j < |b| && p(b[j]);
      assert b[j] in multiset(a);
      var i :| 0 <= i < |a| && a[i] == b[j];
    }
  }

  /** The first payment entry for a method decides its server amount: an
      entry for the other method, or a later entry, plays no part. */
  lemma ServerPaymentIsFirstEntry(res: Json, name: string, i: int)
    requires Get(res, "payment").JArr?
    requires 0 <= i < |Get(res, "payment").items|
    requires PaidWith(name)(Get(res, "payment").items[i])
    requires NoneBefore(Get(res, "payment").items, PaidWith(name), i)
    ensures ServerPayment(res, name)
      == ParseFloat(Or(Get(Get(res, "payment").items[i], "amount"), JNum(0.0)))
  {
    var ps := Get(res, "payment").items;
    var r := Find(ps, PaidWith(name));
    FindSpec(ps, PaidWith(name));
    var k :| 0 <= k < |ps| && ps[k] == r.value && NoneBefore(ps, PaidWith(name), k);
    assert k == i;
  }

  /** Filter-then-reduce is the same as summing only the selected orders. */
  lemma {:induction false} FilterTotal(xs: seq<Json>, p: Json -> bool, f: Json -> real)
    ensures Total(Filter(xs, p), f) == Total(xs, Masked(p, f))
  {
    if xs != [] {
      FilterTotal(xs[1..], p, f);
      var head := if p(xs[0]) then [xs[0]] else [];
      TotalAppend(head, Filter(xs[1..], p), f);
      assert Filter(xs, p) == head + Filter(xs[1..], p);
    }
  }

  /** `f` on the elements `p` selects, 0 elsewhere. */
  function Masked(p: Json -> bool, f: Json -> real): Json -> real {
    x => if p(x) then f(x) else 0.0
  }

  lemma {:induction false} TotalAppend(a: seq<Json>, b: seq<Json>, f: Json -> real)
    ensures Total(a + b, f) == Total(a, f) + Total(b, f)
  {
    if a == [] {
      assert a + b == b;
    } else {
      assert (a + b)[1..] == a[1..] + b;
      TotalAppend(a[1..], b, f);
    }
  }

  /** A sum does not depend on the order of the orders. */
  lemma {:induction false} TotalPermutation(a: seq<Json>, b: seq<Json>, f: Json -> real)
    requires multiset(a) == multiset(b)
    ensures Total(a, f) == Total(b, f)
    decreases |a|
  {
    if a != [] {
      var x := a[0];
      assert a == [x] + a[1..];
      assert x in multiset(b);
      var k :| 0 <= k < |b| && b[k] == x;
      var rest := b[..k] + b[k + 1..];
      MultisetRemove(b, k);
      assert multiset(a[1..]) == multiset(rest);
      TotalPermutation(a[1..], rest, f);
      TotalRemove(b, k, f);
    }
  }

  /** Taking the `k`-th element out of a sequence takes one copy of it out
      of its multiset. */
  lemma MultisetRemove(b: seq<Json>, k: int)
    requires 0 <= k < |b|
    ensures multiset(b[..k] + b[k + 1..]) == multiset(b) - multiset{b[k]}
  {
    assert b == b[..k] + [b[k]] + b[k + 1..];
  }

  /** A sum is the `k`-th term plus the sum of the rest. */
  lemma {:induction false} TotalRemove(b: seq<Json>, k: int, f: Json -> real)
    requires 0 <= k < |b|
    ensures Total(b, f) == f(b[k]) + Total(b[..k] + b[k + 1..], f)
  {
    if k == 0 {
      assert b[..0] + b[1..] == b[1..];
    } else {
      var c := b[1..];
      TotalRemove(c, k - 1, f);
      assert c[k - 1] == b[k];
      var rest := b[..k] + b[k + 1..];
      assert rest[0] == b[0] && rest[1..] == c[..k - 1] + c[k..];
    }
  }

  /** A count does not depend on the order of the orders either. */
  lemma {:induction false} FilterLengthPermutation(a: seq<Json>, b: seq<Json>, p: Json -> bool)
    requires multiset(a) == multiset(b)
    ensures |Filter(a, p)| == |Filter(b, p)|
  {
    FilterLengthIsTotal(a, p);
    FilterLengthIsTotal(b, p);
    TotalPermutation(a, b, x => if p(x) then 1.0 else 0.0);
  }

  lemma {:induction false} FilterLengthIsTotal(xs: seq<Json>, p: Json -> bool)
    ensures |Filter(xs, p)| as real == Total(xs, x => if p(x) then 1.0 else 0.0)
  {
    if xs != [] {
      FilterLengthIsTotal(xs[1..], p);
    }
  }

  /** No order is both a collection and a delivery, so two derived counts
      never exceed the number of orders. */
  lemma {:induction false} TypeCountsBounded(xs: seq<Json>)
    ensures |Filter(xs, OfType("collection"))| + |Filter(xs, OfType("delivery"))| <= |xs|
  {
    if xs != [] {
      TypeCountsBounded(xs[1..]);
    }
  }

  /** When neither count comes from the server, the collection and delivery
      figures together are at most the number of orders. */
  lemma DerivedCountsBounded(res: Json)
    requires Listed(res)
    requires ServerCount(res, "total_collection_order") == 0
    requires ServerCount(res, "total_delivery_order") == 0
    ensures Summarize(res).collectionOrders + Summarize(res).deliveryOrders <= |OrderList(res)|
  {
    if !Throws(res) {
      TypeCountsBounded(OrderList(res));
    }
  }

  /** The same response with one field replaced. */
  function SetField(res: Json, key: string, v: Json): (r: Json)
    requires res.JObj?
    ensures r.JObj? && Get(r, key) == v
    ensures forall k | k != key :: Get(r, k) == Get(res, k)
  {
    JObj(res.fields[key := v])
  }

  /** Replacing a field other than `status` and `orders` keeps a listed
      response listed with the same orders; unless the new response
      throws, its figures come from those orders. */
  lemma OtherFieldsKept(res: Json, key: string, v: Json)
    requires Listed(res) && key != "status" && key != "orders"
    ensures var r := SetField(res, key, v);
      && Listed(r) && Get(r, "orders") == Get(res, "orders")
      && (!Throws(r) ==> Summarize(r) == Figures(Get(res, "orders").items, ServerFigures(r)))
  {
    var r := SetField(res, key, v);
    assert Get(r, "status") == Get(res, "status") && Get(r, "orders") == Get(res, "orders");
  }

  /** Every server figure read from another field than the one replaced
      is as it was. */
  lemma ServerFiguresKept(res: Json, key: string, v: Json)
    requires res.JObj?
    ensures var r := SetField(res, key, v);
      && (key != "total" ==> ServerTotal(r) == ServerTotal(res))
      && (key != "payment" ==>
            (ServerPayment(r, "cash") == ServerPayment(res, "cash")
             && ServerPayment(r, "card") == ServerPayment(res, "card")))
      && (key != "total_order" ==> ServerCount(r, "total_order") == ServerCount(res, "total_order"))
      && (key != "total_collection_order" ==>
            ServerCount(r, "total_collection_order") == ServerCount(res, "total_collection_order"))
      && (key != "total_delivery_order" ==>
            ServerCount(r, "total_delivery_order") == ServerCount(res, "total_delivery_order"))
  {
    if key != "total" {
      FieldKept(res, key, v, "total");
    }
    if key != "payment" {
      FieldKept(res, key, v, "payment");
    }
    if key != "total_order" {
      FieldKept(res, key, v, "total_order");
    }
    if key != "total_collection_order" {
      FieldKept(res, key, v, "total_collection_order");
    }
    if key != "total_delivery_order" {
      FieldKept(res, key, v, "total_delivery_order");
    }
  }

  /** The server figures read from field `f` see it unchanged when another
      field is replaced. */
  lemma FieldKept(res: Json, key: string, v: Json, f: string)
    requires res.JObj? && key != f
    ensures var r := SetField(res, key, v);
      && (f == "total" ==> ServerTotal(r) == ServerTotal(res))
      && (f == "payment" ==> ServerPayment(r, "cash") == ServerPayment(res, "cash")
                             && ServerPayment(r, "card") == ServerPayment(res, "card"))
      && ServerCount(r, f) == ServerCount(res, f)
  {
    var r := SetField(res, key, v);
    assert Get(r, f) == Get(res, f);
  }

  /** Replacing the server's `total` changes only `totalAmount`. */
  lemma TotalIndependent(res: Json, v: Json)
    requires Listed(res)
    ensures var s := Summarize(res); var t := Summarize(SetField(res, "total", v));
      !Throws(res) && !Throws(SetField(res, "total", v)) ==> t.(totalAmount := s.totalAmount) == s
  {
    OtherFieldsKept(res, "total", v);
    ServerFiguresKept(res, "total", v);
    var b := ServerFigures(SetField(res, "total", v));
    assert b.(total := ServerTotal(res)) == ServerFigures(res);
  }

  /** Replacing the server's `payment` list changes only the cash and card
      figures. */
  lemma PaymentIndependent(res: Json, v: Json)
    requires Listed(res)
    ensures var s := Summarize(res); var t := Summarize(SetField(res, "payment", v));
      !Throws(res) && !Throws(SetField(res, "payment", v)) ==> t.(cashAmount := s.cashAmount, cardAmount := s.cardAmount) == s
  {
    OtherFieldsKept(res, "payment", v);
    ServerFiguresKept(res, "payment", v);
    var b := ServerFigures(SetField(res, "payment", v));
    assert b.(cash := ServerPayment(res, "cash"), card := ServerPayment(res, "card")) == ServerFigures(res);
  }

  /** Replacing the server's `total_order` changes only `totalOrders`. */
  lemma OrderCountIndependent(res: Json, v: Json)
    requires Listed(res)
    ensures var s := Summarize(res); var t := Summarize(SetField(res, "total_order", v));
      !Throws(res) && !Throws(SetField(res, "total_order", v)) ==> t.(totalOrders := s.totalOrders) == s
  {
    OtherFieldsKept(res, "total_order", v);
    ServerFiguresKept(res, "total_order", v);
    var b := ServerFigures(SetField(res, "total_order", v));
    assert b.(count := ServerCount(res, "total_order")) == ServerFigures(res);
  }

  /** Replacing the server's collection count changes only
      `collectionOrders`. */
  lemma CollectionIndependent(res: Json, v: Json)
    requires Listed(res)
    ensures var s := Summarize(res); var t := Summarize(SetField(res, "total_collection_order", v));
      !Throws(res) && !Throws(SetField(res, "total_collection_order", v)) ==> t.(collectionOrders := s.collectionOrders) == s
  {
    OtherFieldsKept(res, "total_collection_order", v);
    ServerFiguresKept(res, "total_collection_order", v);
    var b := ServerFigures(SetField(res, "total_collection_order", v));
    assert b.(collection := ServerCount(res, "total_collection_order")) == ServerFigures(res);
  }

  /** Replacing the server's delivery count changes only `deliveryOrders`. */
  lemma DeliveryIndependent(res: Json, v: Json)
    requires Listed(res)
    ensures var s := Summarize(res); var t := Summarize(SetField(res, "total_delivery_order", v));
      !Throws(res) && !Throws(SetField(res, "total_delivery_order", v)) ==> t.(deliveryOrders := s.deliveryOrders) == s
  {
    OtherFieldsKept(res, "total_delivery_order", v);
    ServerFiguresKept(res, "total_delivery_order", v);
    var b := ServerFigures(SetField(res, "total_delivery_order", v));
    assert b.(delivery := ServerCount(res, "total_delivery_order")) == ServerFigures(res);
  }

  /** Each fallback figure is the same for any ordering of the orders. */
  lemma FiguresPermutation(os: seq<Json>, xs: seq<Json>, srv: Server)
    requires multiset(os) == multiset(xs)
    ensures Figures(os, srv) == Figures(xs, srv)
  {
    TotalPermutation(os, xs, GrandTotal);
    PaymentPermutation(os, xs, srv.cash, "cash");
    PaymentPermutation(os, xs, srv.card, "card");
    assert |os| == |multiset(os)| == |xs|;
    FilterLengthPermutation(os, xs, OfType("collection"));
    FilterLengthPermutation(os, xs, OfType("delivery"));
  }

  lemma PaymentPermutation(os: seq<Json>, xs: seq<Json>, server: Option<real>, name: string)
    requires multiset(os) == multiset(xs)
    ensures PaymentAmount(os, server, name) == PaymentAmount(xs, server, name)
  {
    FilterTotal(os, PaidWith(name), GrandTotal);
    FilterTotal(xs, PaidWith(name), GrandTotal);
    TotalPermutation(os, xs, Masked(PaidWith(name), GrandTotal));
  }

  /** Reordering the orders changes none of the six figures. */
  lemma SummaryOrderIndependent(res: Json, os: seq<Json>)
    requires Listed(res)
    requires multiset(os) == multiset(Get(res, "orders").items)
    ensures Summarize(SetField(res, "orders", JArr(os))) == Summarize(res)
  {
    var r := SetField(res, "orders", JArr(os));
    var xs := Get(res, "orders").items;
    assert Get(r, "status") == Get(res, "status");
    ServerFiguresKept(res, "orders", JArr(os));
    assert ServerFigures(r) == ServerFigures(res);
    assert Get(r, "payment") == Get(res, "payment");
    AnyPermutation(os, xs, o => Nullish(o));
    AnyPermutation(os, xs, o => KindThrows(o, "payment_method"));
    AnyPermutation(os, xs, o => KindThrows(o, "order_type"));
    assert Throws(r) <==> Throws(res);
    FiguresPermutation(os, xs, ServerFigures(res));
  }
}
