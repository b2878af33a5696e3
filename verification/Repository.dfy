/** `OrderRepository` of internal/repo/postgres. What the database answers to a query is a
    parameter, restricted to what the query promises; failures are parameters too. */
module Repository {
  import opened Domain
  import opened Sequences
  import opened Tables
  import opened SaveHistory
  import opened Rows
  import opened Pages
  import opened Columns

  /** The slice a loop of appends builds: nil when nothing was appended. */
  method NewSlice(items: seq<Item>) returns (a: array?<Item>)
    ensures a != null ==> fresh(a)
    ensures (if a == null then [] else a[..]) == items
  {
    if items == [] {
      return null;
    }
    var filled := new Item[|items|](i requires 0 <= i < |items| => items[i]);
    assert filled[..] == items;
    a := filled;
  }

  method ScanItems(rows: seq<ItemRow>) returns (items: seq<Item>)
    ensures items == Items(rows)
  {
    items := [];
    for i := 0 to |rows|
      invariant items == Items(rows[..i])
    {
      items := items + [rows[i].item];
    }
    assert rows[..|rows|] == rows;
  }

  /** The object holds what the queries find about `uid`, its items in some order. */
  ghost predicate IsReadOf(order: OrderObject, at: Snapshots, uid: string)
    reads order, order.items
  {
    ReadAcross(at, uid).Some? && Agree(order.Value(), ReadAcross(at, uid).value)
  }

  /** One of the reads of `LastN`: the uid, what its queries see, and the item rows they find. */
  datatype OneRead = OneRead(uid: string, at: Snapshots, rows: seq<ItemRow>)

  /** The objects hold what the queries find, with the items of these rows. */
  ghost predicate AreReads(orders: seq<OrderObject>, arrays: set<array<Item>>, found: seq<OneRead>)
    reads orders, arrays
  {
    && |orders| == |found|
    && forall i :: 0 <= i < |orders| ==>
         && (orders[i].items != null ==> orders[i].items in arrays)
         && IsReadOf(orders[i], found[i].at, found[i].uid) && orders[i].Value().items == Items(found[i].rows)
  }

  lemma NoReads()
    ensures AreReads([], {}, [])
  {}

  lemma MoreReads(orders: seq<OrderObject>, arrays: set<array<Item>>, found: seq<OneRead>, order: OrderObject,
                  r: OneRead)
    requires AreReads(orders, arrays, found)
    requires IsReadOf(order, r.at, r.uid) && order.Value().items == Items(r.rows)
    ensures AreReads(orders + [order], if order.items == null then arrays else arrays + {order.items}, found + [r])
  {
    hide IsReadOf, OrderObject.Value;
  }

  lemma AllReads(orders: seq<OrderObject>, arrays: set<array<Item>>, found: seq<OneRead>)
    requires AreReads(orders, arrays, found)
    ensures |orders| == |found|
    ensures forall i :: 0 <= i < |found| ==>
              IsReadOf(orders[i], found[i].at, found[i].uid) && orders[i].Value().items == Items(found[i].rows)
  {}

  // ----- The parts of ListByCustomer -----

  function PageUIDs(page: seq<Base>): set<string> { set b | b in page :: b.orderUID }

  /** The answer to `WHERE order_uid = ANY(uids)`: each row of those uids, and no other. */
  ghost predicate Selects<V>(rows: seq<(string, V)>, table: map<string, V>, uids: set<string>) {
    && (forall r :: r in rows ==> r.0 in uids && r.0 in table && table[r.0] == r.1)
    && (forall u :: u in uids && u in table ==> (u, table[u]) in rows)
  }

  /** `byUID` finds the object of each row of the page. */
  ghost predicate Indexes(byUID: map<string, OrderObject>, orders: seq<OrderObject>, page: seq<Base>) {
    && |orders| == |page|
    && byUID.Keys == PageUIDs(page)
    && (forall i :: 0 <= i < |page| ==> page[i].orderUID in byUID && byUID[page[i].orderUID] == orders[i])
    && (forall i, j :: 0 <= i < j < |page| ==> page[i].orderUID != page[j].orderUID && orders[i] != orders[j])
  }

  lemma IndexesNone()
    ensures Indexes(map[], [], [])
  {}

  lemma IndexesMore(byUID: map<string, OrderObject>, orders: seq<OrderObject>, page: seq<Base>, order: OrderObject,
                    b: Base)
    requires Indexes(byUID, orders, page)
    requires order !in orders && forall i :: 0 <= i < |page| ==> page[i].orderUID != b.orderUID
    ensures Indexes(byUID[b.orderUID := order], orders + [order], page + [b])
  {
    assert forall x :: x in page + [b] <==> x in page || x == b;
    assert PageUIDs(page + [b]) == PageUIDs(page) + {b.orderUID};
  }

  lemma IndexesCount(byUID: map<string, OrderObject>, orders: seq<OrderObject>, page: seq<Base>)
    requires Indexes(byUID, orders, page)
    ensures |orders| == |page|
  {}

  method ScanBases(page: seq<Base>) returns (orders: seq<OrderObject>, byUID: map<string, OrderObject>)
    requires forall i, j :: 0 <= i < j < |page| ==> page[i].orderUID != page[j].orderUID
    ensures Indexes(byUID, orders, page) && fresh(orders)
    ensures forall i :: 0 <= i < |page| ==>
              && orders[i].base == page[i] && orders[i].delivery == ZERO_DELIVERY
              && orders[i].payment == ZERO_PAYMENT && orders[i].items == null
  {
    hide Indexes;
    orders, byUID := [], map[];
    IndexesNone();
    for n := 0 to |page|
      invariant |orders| == n && Indexes(byUID, orders, page[..n]) && fresh(orders)
      invariant forall i :: 0 <= i < n ==>
                  && orders[i].base == page[i] && orders[i].delivery == ZERO_DELIVERY
                  && orders[i].payment == ZERO_PAYMENT && orders[i].items == null
    {
      var order := new OrderObject(page[n], ZERO_DELIVERY, ZERO_PAYMENT, null);
      IndexesMore(byUID, orders, page[..n], order, page[n]);
      orders := orders + [order];
      byUID := byUID[page[n].orderUID := order];
      assert page[..n + 1] == page[..n] + [page[n]];
    }
    assert page[..|page|] == page;
  }

  lemma RowSelected<V>(rows: seq<(string, V)>, table: map<string, V>, uids: set<string>, n: nat)
    requires Selects(rows, table, uids) && n < |rows|
    ensures rows[n].0 in uids && rows[n].0 in table && table[rows[n].0] == rows[n].1
  {
    assert rows[n] in rows;
  }

  lemma AllSelected<V>(rows: seq<(string, V)>, table: map<string, V>, page: seq<Base>, done: set<string>)
    requires Selects(rows, table, PageUIDs(page)) && forall k :: 0 <= k < |rows| ==> rows[k].0 in done
    ensures forall i :: 0 <= i < |page| && page[i].orderUID in table ==> page[i].orderUID in done
  {
    forall i | 0 <= i < |page| && page[i].orderUID in table ensures page[i].orderUID in done {
      assert page[i] in page;
      assert (page[i].orderUID, table[page[i].orderUID]) in rows;
    }
  }

  method FillPayments(ghost orders: seq<OrderObject>, ghost page: seq<Base>, byUID: map<string, OrderObject>,
                      rows: seq<(string, Payment)>, ghost table: map<string, Payment>)
    requires Indexes(byUID, orders, page) && Selects(rows, table, PageUIDs(page))
    requires forall i :: 0 <= i < |page| ==> orders[i].payment == ZERO_PAYMENT
    modifies orders`payment
    ensures forall i :: 0 <= i < |page| ==>
              orders[i].payment == if page[i].orderUID in table then table[page[i].orderUID] else ZERO_PAYMENT
  {
    hide Selects;
    ghost var done: set<string> := {};
    for n := 0 to |rows|
      invariant forall k :: 0 <= k < n ==> rows[k].0 in done
      invariant done <= table.Keys
      invariant forall i :: 0 <= i < |page| ==>
                  orders[i].payment == if page[i].orderUID in done then table[page[i].orderUID] else ZERO_PAYMENT
    {
      var (uid, payment) := rows[n];
      RowSelected(rows, table, PageUIDs(page), n);
      if uid in byUID {
        byUID[uid].payment := payment;
      }
      done := done + {uid};
    }
    AllSelected(rows, table, page, done);
  }

  method FillDeliveries(ghost orders: seq<OrderObject>, ghost page: seq<Base>, byUID: map<string, OrderObject>,
                        rows: seq<(string, Delivery)>, ghost table: map<string, Delivery>)
    requires Indexes(byUID, orders, page) && Selects(rows, table, PageUIDs(page))
    requires forall i :: 0 <= i < |page| ==> orders[i].delivery == ZERO_DELIVERY
    modifies orders`delivery
    ensures forall i :: 0 <= i < |page| ==>
              orders[i].delivery == if page[i].orderUID in table then table[page[i].orderUID] else ZERO_DELIVERY
  {
    hide Selects;
    ghost var done: set<string> := {};
    for n := 0 to |rows|
      invariant forall k :: 0 <= k < n ==> rows[k].0 in done
      invariant done <= table.Keys
      invariant forall i :: 0 <= i < |page| ==>
                  orders[i].delivery == if page[i].orderUID in done then table[page[i].orderUID] else ZERO_DELIVERY
    {
      var (uid, delivery) := rows[n];
      RowSelected(rows, table, PageUIDs(page), n);
      if uid in byUID {
        byUID[uid].delivery := delivery;
      }
      done := done + {uid};
    }
    AllSelected(rows, table, page, done);
  }

  lemma NoRows()
    ensures forall u :: Items(RowsOf([], u)) == []
  {}

  lemma OneMoreRow(rows: seq<ItemRow>, n: nat, u: string)
    requires n < |rows|
    ensures Items(RowsOf(rows[..n + 1], u))
            == Items(RowsOf(rows[..n], u)) + if u == rows[n].orderUID then [rows[n].item] else []
  {
    assert rows[..n + 1] == rows[..n] + [rows[n]];
    RowsOfAppend(rows[..n], [rows[n]], u);
  }

  method GroupItems(rows: seq<ItemRow>) returns (itemsByUID: map<string, seq<Item>>)
    ensures forall u :: (if u in itemsByUID then itemsByUID[u] else []) == Items(RowsOf(rows, u))
  {
    hide Items, RowsOf;
    itemsByUID := map[];
    NoRows();
    for n := 0 to |rows|
      invariant forall u :: (if u in itemsByUID then itemsByUID[u] else []) == Items(RowsOf(rows[..n], u))
    {
      var uid := rows[n].orderUID;
      itemsByUID := itemsByUID[uid := (if uid in itemsByUID then itemsByUID[uid] else []) + [rows[n].item]];
      forall u ensures Items(RowsOf(rows[..n + 1], u))
                       == Items(RowsOf(rows[..n], u)) + if u == uid then [rows[n].item] else []
      {
        OneMoreRow(rows, n, u);
      }
    }
    assert rows[..|rows|] == rows;
  }

  method Attach(orders: seq<OrderObject>, ghost page: seq<Base>, itemsByUID: map<string, seq<Item>>)
    requires |orders| == |page| && forall i, j :: 0 <= i < j < |orders| ==> orders[i] != orders[j]
    requires forall i :: 0 <= i < |page| ==> orders[i].base == page[i] && orders[i].items == null
    modifies orders`items
    ensures forall i :: 0 <= i < |page| ==>
              orders[i].Value().items == if page[i].orderUID in itemsByUID then itemsByUID[page[i].orderUID] else []
  {
    for n := 0 to |orders|
      invariant forall i :: n <= i < |page| ==> orders[i].items == null
      invariant forall i :: 0 <= i < n ==>
                  orders[i].Value().items == if page[i].orderUID in itemsByUID then itemsByUID[page[i].orderUID] else []
    {
      var uid := orders[n].base.orderUID;
      if uid in itemsByUID && 0 < |itemsByUID[uid]| {
        var items := NewSlice(itemsByUID[uid]);
        orders[n].items := items;
      }
    }
  }

  lemma PageKeys(t: Tables, nextID: nat, customerID: string, limit: int, offset: int)
    requires Consistent(t, nextID)
    ensures
      var page := Page(t, customerID, limit, offset);
      && (forall i, j :: 0 <= i < j < |page| ==> page[i].orderUID != page[j].orderUID)
      && (forall i :: 0 <= i < |page| ==> page[i].orderUID in t.orders && t.orders[page[i].orderUID] == page[i])
  {
    PageRows(t, customerID, limit, offset);
    var page := Page(t, customerID, limit, offset);
    forall i, j | 0 <= i < j < |page| ensures page[i].orderUID != page[j].orderUID {
      assert page[i] in page && page[j] in page;
      BeforeOrder(page[i], page[j], page[i]);
    }
    assert forall i :: 0 <= i < |page| ==> page[i] in page;
  }

  /** The page by position. */
  lemma PageListed(t: Tables, nextID: nat, customerID: string, limit: int, offset: int)
    requires Consistent(t, nextID)
    ensures
      var page := Page(t, customerID, limit, offset);
      && (forall i, j :: 0 <= i < j < |page| ==>
            && page[j].dateCreated <= page[i].dateCreated
            && (page[i].dateCreated == page[j].dateCreated ==> Larger(page[i].orderUID, page[j].orderUID)))
      && var skip, count := if offset < 0 then 0 else offset, if limit <= 0 then 20 else limit;
      && (forall b: Base ::
            (exists i :: 0 <= i < |page| && page[i] == b)
            <==> (b.orderUID in t.orders && t.orders[b.orderUID] == b && b.customerID == customerID
                  && skip <= |Ahead(t, customerID, b)| < skip + count))
  {
    hide Page, Larger, Ahead;
    PageExact(t, customerID, limit, offset);
    var page := Page(t, customerID, limit, offset);
    forall b ensures b in page <==> exists i :: 0 <= i < |page| && page[i] == b {}
  }

  /** The object has the row of the page, and the delivery and the payment found for it. */
  ghost predicate HasSides(order: OrderObject, b: Base, at: Snapshots)
    reads order`base, order`delivery, order`payment
  {
    var u := b.orderUID;
    && order.base == b
    && order.delivery == (if u in at.delivery.deliveries then at.delivery.deliveries[u] else ZERO_DELIVERY)
    && order.payment == (if u in at.payment.payments then at.payment.payments[u] else ZERO_PAYMENT)
  }

  /** Gives every object of the page its delivery and its payment; query `failAt` fails. */
  method FillSides(orders: seq<OrderObject>, ghost page: seq<Base>, byUID: map<string, OrderObject>,
                   ghost at: Snapshots,
                   payments: seq<(string, Payment)>, deliveries: seq<(string, Delivery)>, failAt: nat)
    returns (ok: bool)
    requires Indexes(byUID, orders, page)
    requires Selects(payments, at.payment.payments, PageUIDs(page))
    requires Selects(deliveries, at.delivery.deliveries, PageUIDs(page))
    requires forall i :: 0 <= i < |page| ==>
               orders[i].base == page[i] && orders[i].delivery == ZERO_DELIVERY && orders[i].payment == ZERO_PAYMENT
    modifies orders`delivery, orders`payment
    ensures ok <==> failAt != 1 && failAt != 2
    ensures ok ==> forall i :: 0 <= i < |page| ==> HasSides(orders[i], page[i], at)
  {
    hide Selects, Indexes, PageUIDs;
    IndexesCount(byUID, orders, page);
    if failAt == 1 { return false; }
    FillPayments(orders, page, byUID, payments, at.payment.payments);
    if failAt == 2 { return false; }
    FillDeliveries(orders, page, byUID, deliveries, at.delivery.deliveries);
    ok := true;
  }

  /** Groups the item rows and gives every object of the page its items. */
  method AttachItems(orders: seq<OrderObject>, ghost page: seq<Base>, items: seq<ItemRow>)
    requires |orders| == |page| && forall i, j :: 0 <= i < j < |orders| ==> orders[i] != orders[j]
    requires forall i :: 0 <= i < |page| ==> orders[i].base == page[i] && orders[i].items == null
    modifies orders`items
    ensures forall i :: 0 <= i < |page| ==> orders[i].Value().items == Items(RowsOf(items, page[i].orderUID))
  {
    hide Items, RowsOf, OrderObject.Value;
    var itemsByUID := GroupItems(items);
    Attach(orders, page, itemsByUID);
  }

  lemma Assembled(at: Snapshots, page: seq<Base>, items: seq<ItemRow>, i: nat, order: OrderObject)
    requires i < |page| && HasSides(order, page[i], at)
    requires order.Value().items == Items(RowsOf(items, page[i].orderUID))
    requires Listing(items, RowsIn(at.items.items, PageUIDs(page))) && SortedWithinOrders(items)
    requires page[i].orderUID in at.base.orders && at.base.orders[page[i].orderUID] == page[i]
    ensures order.base == page[i] && IsReadOf(order, at, page[i].orderUID)
    ensures SortedItems(order.Value().items)
  {
    var u := page[i].orderUID;
    assert page[i] in page;
    ListingOfOne(items, at.items.items, PageUIDs(page), u);
    ListingItems(RowsOf(items, u), RowsOf(at.items.items, u));
    SortedRowsOf(items, u);
  }

  class OrderRepository {
    var store: Store

    constructor ()
      ensures store == EMPTY_STORE
    {
      store := EMPTY_STORE;
    }

    /** Gives the transaction up. The id sequence keeps the values it handed out. */
    method Rollback(burned: nat)
      modifies this
      ensures store == old(store).(nextID := old(store).nextID + burned)
    {
      store := store.(nextID := store.nextID + burned);
    }

    /** Saves an order in one transaction, statement by statement. It succeeds exactly on
        savable orders when nothing breaks; otherwise, lost answers apart, no table changes. */
    method Save(order: OrderObject?, fault: Fault, burned: nat, ghost value: Order) returns (ok: bool)
      requires order != null ==> order.Value() == value
      modifies this
      ensures order == null ==> !ok && store == old(store)
      ensures order != null ==>
                && store == Apply(old(store), Attempt(value, fault, burned))
                && (ok <==> Succeeds(old(store), Attempt(value, fault, burned)))
      ensures fault != NoFault ==> !ok
      ensures fault.BrokenAt? ==> store.tables == old(store).tables
      ensures order != null && (value.base.orderUID == "" || value.base.customerID == "") ==> store == old(store)
      ensures order != null && fault == NoFault ==>
                (ok <==>
                  && value.base.orderUID != "" && value.base.customerID != ""
                  && -2_147_483_648 <= value.base.smID <= 2_147_483_647
                  && 0 <= value.payment.amount <= 2_147_483_647 && 0 <= value.payment.paymentDT
                  && 0 <= value.payment.deliveryCost <= 2_147_483_647
                  && 0 <= value.payment.goodsTotal <= 2_147_483_647 && 0 <= value.payment.customFee <= 2_147_483_647
                  && (forall i :: i in value.items ==>
                        && -2_147_483_648 <= i.chrtID <= 2_147_483_647 && -2_147_483_648 <= i.nmID <= 2_147_483_647
                        && -2_147_483_648 <= i.status <= 2_147_483_647 && 0 <= i.price <= 2_147_483_647
                        && 0 <= i.sale <= 2_147_483_647 && 0 <= i.totalPrice <= 2_147_483_647)
                  && (value.base.orderUID in old(store).tables.payments
                      || forall u :: u in old(store).tables.payments ==>
                           old(store).tables.payments[u].transaction != value.payment.transaction))
    {
      if order == null || order.base.orderUID == "" {
        return false;
      }
      if order.base.customerID == "" {
        return false;
      }
      // begin
      var tx := store.tables;
      if fault == BrokenAt(0) { Rollback(burned); return false; }
      // 1) customers
      var r := InsertCustomer(tx, order.base.customerID);
      if fault == BrokenAt(1) || r == None { Rollback(burned); return false; }
      tx := r.value;
      // 2) orders
      r := UpsertOrder(tx, order.base);
      if fault == BrokenAt(2) || r == None { Rollback(burned); return false; }
      tx := r.value;
      // 3) deliveries
      r := UpsertDelivery(tx, order.base.orderUID, order.delivery);
      if fault == BrokenAt(3) || r == None { Rollback(burned); return false; }
      tx := r.value;
      // 4) payments
      r := UpsertPayment(tx, order.base.orderUID, order.payment);
      if fault == BrokenAt(4) || r == None { Rollback(burned); return false; }
      tx := r.value;
      // 5) items
      r := DeleteItems(tx, order.base.orderUID);
      if fault == BrokenAt(5) || r == None { Rollback(burned); return false; }
      tx := r.value;
      var items := if order.items == null then [] else order.items[..];
      if 0 < |items| {
        r := CopyItems(tx, order.base.orderUID, items, store.nextID);
        if fault == BrokenAt(6) || r == None { Rollback(burned); return false; }
        tx := r.value;
      }
      // commit
      if fault.BrokenAt? { Rollback(burned); return false; }
      store := Store(tx, store.nextID + |items|);
      ok := fault == NoFault;
    }

    /** Reads one order in four queries, each of which sees the database of its moment, given
        by `at`; query `failAt` fails, if there are that many. `rows` is the answer to the item
        query. */
    method GetByUID(uid: string, at: Snapshots, rows: seq<ItemRow>, failAt: nat) returns (order: OrderObject?, ok: bool)
      requires Listing(rows, RowsOf(at.items.items, uid))
      ensures ok <==> failAt != 0 && (uid in at.base.orders ==> 4 <= failAt)
      ensures order != null <==> ok && uid in at.base.orders
      ensures order != null ==>
                && fresh(order) && (order.items != null ==> fresh(order.items))
                && IsReadOf(order, at, uid) && order.Value().items == Items(rows)
      ensures order != null ==>
                && order.base == at.base.orders[uid]
                && order.delivery == (if uid in at.delivery.deliveries then at.delivery.deliveries[uid]
                                      else Delivery("", "", "", "", "", "", ""))
                && order.payment == (if uid in at.payment.payments then at.payment.payments[uid]
                                     else Payment("", "", "", "", 0, 0, "", 0, 0, 0))
    {
      hide Listing, RowsOf, Items;
      if failAt == 0 { return null, false; }
      if uid !in at.base.orders {
        return null, true;
      }
      var base := at.base.orders[uid];
      order := new OrderObject(base, ZERO_DELIVERY, ZERO_PAYMENT, null);
      if failAt == 1 { return null, false; }
      if uid in at.delivery.deliveries {
        order.delivery := at.delivery.deliveries[uid];
      }
      if failAt == 2 { return null, false; }
      if uid in at.payment.payments {
        order.payment := at.payment.payments[uid];
      }
      if failAt == 3 { return null, false; }
      var items := ScanItems(rows);
      order.items := NewSlice(items);
      ListingItems(rows, RowsOf(at.items.items, uid));
      ok := true;
    }

    /** One page of a customer's orders, assembled in memory from four queries, each of which
        sees the database of its moment, given by `at`; query `failAt` fails, if there are that
        many. `page`, `payments`, `deliveries` and `items` are the answers, all but the first in
        any order, the items sorted within each order. */
    method ListByCustomer(customerID: string, limit: int, offset: int, at: Snapshots, ghost nextID: nat,
                          page: seq<Base>, payments: seq<(string, Payment)>,
                          deliveries: seq<(string, Delivery)>, items: seq<ItemRow>, failAt: nat)
      returns (orders: seq<OrderObject>, ok: bool)
      requires Consistent(at.base, nextID) && page == Page(at.base, customerID, limit, offset)
      requires Selects(payments, at.payment.payments, PageUIDs(page))
      requires Selects(deliveries, at.delivery.deliveries, PageUIDs(page))
      requires Listing(items, RowsIn(at.items.items, PageUIDs(page))) && SortedWithinOrders(items)
      ensures ok <==> failAt != 0 && (page != [] ==> 4 <= failAt)
      ensures fresh(orders) && |orders| == if ok then |page| else 0
      ensures ok ==> forall i :: 0 <= i < |page| ==>
                && orders[i].base == page[i]
                && IsReadOf(orders[i], at, page[i].orderUID)
                && SortedItems(orders[i].Value().items)
      ensures ok ==> forall i, j :: 0 <= i < j < |orders| ==>
                && orders[j].base.dateCreated <= orders[i].base.dateCreated
                && (orders[i].base.dateCreated == orders[j].base.dateCreated ==>
                      Larger(orders[i].base.orderUID, orders[j].base.orderUID))
      ensures ok ==>
                var skip, count := if offset < 0 then 0 else offset, if limit <= 0 then 20 else limit;
                forall b: Base ::
                  (exists i :: 0 <= i < |orders| && orders[i].base == b)
                  <==> (b.orderUID in at.base.orders && at.base.orders[b.orderUID] == b && b.customerID == customerID
                        && skip <= |Ahead(at.base, customerID, b)| < skip + count)
      ensures ok ==> forall i :: 0 <= i < |orders| ==>
                var items := orders[i].Value().items;
                forall j, k :: 0 <= j < k < |items| ==> items[j].chrtID <= items[k].chrtID
    {
      hide Larger, Ahead;
      hide Consistent, Page, Selects, Listing, RowsIn, RowsOf, SortedWithinOrders, SortedItems, Items;
      hide OrderObject.Value;
      hide HasSides, IsReadOf, PageUIDs;
      PageKeys(at.base, nextID, customerID, limit, offset);
      PageListed(at.base, nextID, customerID, limit, offset);
      if failAt == 0 { return [], false; }
      var byUID: map<string, OrderObject>;
      orders, byUID := ScanBases(page);
      if |orders| == 0 {
        return orders, true;
      }
      ok := FillSides(orders, page, byUID, at, payments, deliveries, failAt);
      if !ok || failAt == 3 { return [], false; }
      AttachItems(orders, page, items);
      forall i | 0 <= i < |page|
        ensures orders[i].base == page[i]
        ensures IsReadOf(orders[i], at, page[i].orderUID)
        ensures SortedItems(orders[i].Value().items)
      {
        Assembled(at, page, items, i, orders[i]);
      }
      forall i | 0 <= i < |orders|
        ensures
          var items := orders[i].Value().items;
          forall j, k :: 0 <= j < k < |items| ==> items[j].chrtID <= items[k].chrtID
      {
        SortedColumns(orders[i].Value().items);
      }
      ok := true;
    }

    /** The last `n` orders, read one by one, each in four queries. `found` lists the uids that
        the first query answers, and for each what its queries see and find; step `failAt`
        fails, the first query being step 0. Orders are never deleted, so each is still there. */
    method LastN(n: int, found: seq<OneRead>, failAt: nat) returns (orders: seq<OrderObject>, ok: bool)
      requires 0 < n ==> LastUIDs(store.tables, n, UIDsOf(found))
      requires 0 < n ==> forall r :: r in found ==>
                 r.uid in r.at.base.orders && Listing(r.rows, RowsOf(r.at.items.items, r.uid))
      ensures ok <==> n <= 0 || |found| < failAt
      ensures n <= 0 || !ok ==> orders == []
      ensures 0 < n && ok ==> |orders| == |found|
      ensures fresh(orders)
      ensures 0 < n && ok ==> forall i :: 0 <= i < |found| ==>
                IsReadOf(orders[i], found[i].at, found[i].uid) && orders[i].Value().items == Items(found[i].rows)
      ensures 0 < n && ok ==>
                |orders| == if n <= |store.tables.orders| then n else |store.tables.orders|
      ensures 0 < n && ok && (forall r :: r in found ==> r.at == AtOnce(store.tables)) ==>
                && (forall i :: 0 <= i < |orders| ==>
                      found[i].uid in store.tables.orders && orders[i].base == store.tables.orders[found[i].uid])
                && (forall i, j :: 0 <= i < j < |orders| ==>
                      found[i].uid != found[j].uid && orders[j].base.dateCreated <= orders[i].base.dateCreated)
                && (forall u, i :: u in store.tables.orders && (forall r :: r in found ==> r.uid != u)
                                   && 0 <= i < |orders| ==>
                      store.tables.orders[u].dateCreated <= orders[i].base.dateCreated)
    {
      hide LastUIDs, IsReadOf, ReadAcross, Listing, RowsOf, OrderObject.Value, Items, AreReads;
      orders := [];
      if n <= 0 {
        return [], true;
      }
      if failAt == 0 {
        return [], false;
      }
      ghost var arrays: set<array<Item>> := {};
      NoReads();
      for i := 0 to |found|
        invariant i < failAt && |orders| == i && fresh(orders) && fresh(arrays)
        invariant AreReads(orders, arrays, found[..i])
      {
        var r := found[i];
        var order, read := GetByUID(r.uid, r.at, r.rows, if failAt == i + 1 then 0 else 4);
        if !read {
          return [], false;
        }
        if order != null {
          MoreReads(orders, arrays, found[..i], order, r);
          assert found[..i + 1] == found[..i] + [r];
          arrays := if order.items == null then arrays else arrays + {order.items};
          orders := orders + [order];
        }
      }
      assert found[..|found|] == found;
      AllReads(orders, arrays, found);
      LastCount(store.tables, n, found);
      if forall r :: r in found ==> r.at == AtOnce(store.tables) {
        forall i | 0 <= i < |orders|
          ensures found[i].uid in store.tables.orders && orders[i].base == store.tables.orders[found[i].uid]
        {
          BaseRead(store.tables, orders[i], found[i].uid);
        }
        LastColumns(store.tables, n, found);
      }
      ok := true;
    }
  }

  lemma BaseRead(t: Tables, order: OrderObject, uid: string)
    requires IsReadOf(order, AtOnce(t), uid)
    ensures uid in t.orders && order.base == t.orders[uid]
  {}

  lemma LastCount(t: Tables, n: nat, found: seq<OneRead>)
    requires LastUIDs(t, n, UIDsOf(found))
    ensures |found| == if n <= |t.orders| then n else |t.orders|
  {}

  lemma NotRead(found: seq<OneRead>, uid: string)
    requires forall r :: r in found ==> r.uid != uid
    ensures uid !in UIDsOf(found)
  {
    assert forall k :: 0 <= k < |found| ==> found[k] in found;
  }

  /** The last orders, on the columns: no newer one is left out, newest first. */
  lemma LastColumns(t: Tables, n: nat, found: seq<OneRead>)
    requires LastUIDs(t, n, UIDsOf(found))
    ensures forall i :: 0 <= i < |found| ==> found[i].uid in t.orders
    ensures forall i, j :: 0 <= i < j < |found| ==>
              found[i].uid != found[j].uid && t.orders[found[j].uid].dateCreated <= t.orders[found[i].uid].dateCreated
    ensures forall u, i :: u in t.orders && (forall r :: r in found ==> r.uid != u) && 0 <= i < |found| ==>
              t.orders[u].dateCreated <= t.orders[found[i].uid].dateCreated
  {
    var uids := UIDsOf(found);
    assert forall i :: 0 <= i < |found| ==> uids[i] == found[i].uid && uids[i] in uids;
    forall u, i | u in t.orders && (forall r :: r in found ==> r.uid != u) && 0 <= i < |found|
      ensures t.orders[u].dateCreated <= t.orders[found[i].uid].dateCreated
    {
      NotRead(found, u);
    }
  }

  /** The uids of the reads. */
  function UIDsOf(found: seq<OneRead>): seq<string> {
    seq(|found|, i requires 0 <= i < |found| => found[i].uid)
  }
}
