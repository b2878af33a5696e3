/** The five tables of the schema in migrations/, the effect of each SQL statement of
    `OrderRepository.Save` on them, and the constraints that can make it fail. */
module Tables {
  import opened Domain

  datatype ItemRow = ItemRow(id: nat, orderUID: string, item: Item)

  /** Customers, orders, deliveries and payments by key (`order_uid` is UNIQUE in payments);
      items as rows. `customers.created_at` is not modelled. */
  datatype Tables = Tables(
    customers: set<string>,
    orders: map<string, Base>,
    deliveries: map<string, Delivery>,
    payments: map<string, Payment>,
    items: seq<ItemRow>)

  const EMPTY_TABLES := Tables({}, map[], map[], map[], [])

  /** INTEGER columns hold 32-bit values; the Go fields are 64-bit. */
  predicate Int32(x: int) { -0x8000_0000 <= x < 0x8000_0000 }

  predicate Amount(x: int) { 0 <= x < 0x8000_0000 }

  /** CHECK constraints and column ranges of payments. */
  predicate PaymentChecks(p: Payment) {
    && Amount(p.amount) && 0 <= p.paymentDT
    && Amount(p.deliveryCost) && Amount(p.goodsTotal) && Amount(p.customFee)
  }

  /** CHECK constraints and column ranges of items. */
  predicate ItemChecks(i: Item) {
    && Int32(i.chrtID) && Amount(i.price) && Amount(i.sale)
    && Amount(i.totalPrice) && Int32(i.nmID) && Int32(i.status)
  }

  /** Another order already has this payment transaction. */
  predicate TransactionTaken(t: Tables, uid: string, transaction: string) {
    exists u :: u in t.payments && u != uid && t.payments[u].transaction == transaction
  }

  // ----- The statements of Save. None: the statement fails. -----

  function InsertCustomer(t: Tables, id: string): Option<Tables> {
    Some(t.(customers := t.customers + {id}))
  }

  function UpsertOrder(t: Tables, b: Base): Option<Tables> {
    if b.customerID in t.customers && Int32(b.smID)
    then Some(t.(orders := t.orders[b.orderUID := b]))
    else None
  }

  function UpsertDelivery(t: Tables, uid: string, d: Delivery): Option<Tables> {
    if uid in t.orders then Some(t.(deliveries := t.deliveries[uid := d])) else None
  }

  /** ON CONFLICT (order_uid) updates every column but `transaction` and `order_uid`. The
      primary key on `transaction` can only be violated by an insert. */
  function UpsertPayment(t: Tables, uid: string, p: Payment): Option<Tables> {
    if !(PaymentChecks(p) && uid in t.orders) then None
    else if uid in t.payments then
      Some(t.(payments := t.payments[uid := p.(transaction := t.payments[uid].transaction)]))
    else if TransactionTaken(t, uid, p.transaction) then None
    else Some(t.(payments := t.payments[uid := p]))
  }

  function RowsBut(rows: seq<ItemRow>, uid: string): seq<ItemRow> {
    if rows == [] then []
    else (if rows[0].orderUID == uid then [] else [rows[0]]) + RowsBut(rows[1..], uid)
  }

  function DeleteItems(t: Tables, uid: string): Option<Tables> {
    Some(t.(items := RowsBut(t.items, uid)))
  }

  /** The rows COPY writes; ids come from the sequence, starting at `firstID`. */
  function NewRows(uid: string, items: seq<Item>, firstID: nat): seq<ItemRow> {
    seq(|items|, i requires 0 <= i < |items| => ItemRow(firstID + i, uid, items[i]))
  }

  function CopyItems(t: Tables, uid: string, items: seq<Item>, firstID: nat): Option<Tables> {
    if uid in t.orders && (forall i :: i in items ==> ItemChecks(i))
    then Some(t.(items := t.items + NewRows(uid, items, firstID)))
    else None
  }

  // ----- What a whole Save is for -----

  /** A `Save` without infrastructure trouble succeeds exactly on these orders. */
  predicate Savable(t: Tables, o: Order) {
    && o.UID() != "" && o.base.customerID != ""
    && Int32(o.base.smID) && PaymentChecks(o.payment)
    && (forall i :: i in o.items ==> ItemChecks(i))
    && (o.UID() in t.payments || !TransactionTaken(t, o.UID(), o.payment.transaction))
  }

  /** The tables after a successful `Save`. The first saved transaction of an order stays. */
  function Saved(t: Tables, o: Order, firstID: nat): Tables {
    var uid := o.UID();
    var payment := if uid in t.payments then o.payment.(transaction := t.payments[uid].transaction) else o.payment;
    Tables(
      t.customers + {o.base.customerID},
      t.orders[uid := o.base],
      t.deliveries[uid := o.delivery],
      t.payments[uid := payment],
      RowsBut(t.items, uid) + NewRows(uid, o.items, firstID))
  }

  // ----- Reading one order -----

  function RowsOf(rows: seq<ItemRow>, uid: string): seq<ItemRow> {
    if rows == [] then []
    else (if rows[0].orderUID == uid then [rows[0]] else []) + RowsOf(rows[1..], uid)
  }

  function Items(rows: seq<ItemRow>): seq<Item> {
    seq(|rows|, i requires 0 <= i < |rows| => rows[i].item)
  }

  /** The items of an order, in row order. */
  function ItemsOf(t: Tables, uid: string): seq<Item> { Items(RowsOf(t.items, uid)) }

  /** The tables as each of the queries for one order sees them: other transactions may commit
      between two of them. */
  datatype Snapshots = Snapshots(base: Tables, delivery: Tables, payment: Tables, items: Tables)

  /** All queries see the same tables. */
  function AtOnce(t: Tables): Snapshots { Snapshots(t, t, t, t) }

  /** The order that separate queries find. */
  function ReadAcross(at: Snapshots, uid: string): Option<Order> {
    if uid !in at.base.orders then None
    else Some(Order(
      at.base.orders[uid],
      if uid in at.delivery.deliveries then at.delivery.deliveries[uid] else ZERO_DELIVERY,
      if uid in at.payment.payments then at.payment.payments[uid] else ZERO_PAYMENT,
      ItemsOf(at.items, uid)))
  }

  /** `GetByUID` on tables nobody changes meanwhile. Missing side rows leave zero values. */
  function Read(t: Tables, uid: string): Option<Order> { ReadAcross(AtOnce(t), uid) }

  // ----- Constraints every reachable state keeps -----

  /** All foreign keys; one delivery and one payment per order; unique transactions; unique
      item row ids, all below `nextID`; the CHECK constraints. */
  ghost predicate Consistent(t: Tables, nextID: nat) {
    && t.deliveries.Keys == t.orders.Keys && t.payments.Keys == t.orders.Keys
    && Keyed(t)
    && (forall u :: u in t.orders ==> t.orders[u].customerID in t.customers && Int32(t.orders[u].smID))
    && "" !in t.customers
    && (forall u :: u in t.payments ==> PaymentChecks(t.payments[u]))
    && UniqueTransactions(t.payments)
    && RowsConsistent(t, nextID)
  }

  /** The key of each order row. */
  ghost predicate Keyed(t: Tables) {
    forall u :: u in t.orders ==> u != "" && t.orders[u].orderUID == u
  }

  ghost predicate UniqueTransactions(payments: map<string, Payment>) {
    forall u, v :: u in payments && v in payments && u != v ==> payments[u].transaction != payments[v].transaction
  }

  ghost predicate RowsConsistent(t: Tables, nextID: nat) {
    && (forall r :: r in t.items ==> r.orderUID in t.orders && r.id < nextID && ItemChecks(r.item))
    && DistinctIDs(t.items)
  }

  ghost predicate DistinctIDs(rows: seq<ItemRow>) {
    forall i, j :: 0 <= i < j < |rows| ==> rows[i].id != rows[j].id
  }

  lemma {:induction false} RowsButIn(rows: seq<ItemRow>, uid: string)
    ensures forall r :: r in RowsBut(rows, uid) <==> r in rows && r.orderUID != uid
  {
    if rows == [] {
    } else {
      RowsButIn(rows[1..], uid);
      assert rows == [rows[0]] + rows[1..];
    }
  }

  lemma {:induction false} RowsButDistinct(rows: seq<ItemRow>, uid: string)
    requires DistinctIDs(rows)
    ensures DistinctIDs(RowsBut(rows, uid))
  {
    if rows == [] {
    } else {
      var rest := RowsBut(rows[1..], uid);
      RowsButDistinct(rows[1..], uid);
      RowsButIn(rows[1..], uid);
      forall r | r in rest ensures r.id != rows[0].id {
        assert r in rows[1..];
        var j :| 1 <= j < |rows| && rows[j] == r;
      }
      PushDistinct(rows[0], rest);
      assert [] + rest == rest;
    }
  }

  lemma PushDistinct(r: ItemRow, rest: seq<ItemRow>)
    requires DistinctIDs(rest) && forall x :: x in rest ==> x.id != r.id
    ensures DistinctIDs([r] + rest)
  {
    var all := [r] + rest;
    forall i, j | 0 <= i < j < |all| ensures all[i].id != all[j].id {
      assert all[j] == rest[j - 1];
      if 0 < i { assert all[i] == rest[i - 1]; }
    }
  }

  lemma SavedRows(t: Tables, o: Order, nextID: nat)
    requires RowsConsistent(t, nextID) && Savable(t, o)
    ensures RowsConsistent(Saved(t, o, nextID), nextID + |o.items|)
  {
    RowsButIn(t.items, o.UID());
    RowsButDistinct(t.items, o.UID());
    var kept, added := RowsBut(t.items, o.UID()), NewRows(o.UID(), o.items, nextID);
    assert forall r :: r in kept + added <==> r in kept || r in added;
    forall r | r in added ensures nextID <= r.id < nextID + |o.items| && ItemChecks(r.item) {
      var i :| 0 <= i < |added| && added[i] == r;
      assert o.items[i] in o.items;
    }
  }

  /** A successful `Save` keeps every constraint. */
  lemma SavedConsistent(t: Tables, o: Order, nextID: nat)
    requires Consistent(t, nextID) && Savable(t, o)
    ensures Consistent(Saved(t, o, nextID), nextID + |o.items|)
  {
    hide RowsConsistent, UniqueTransactions, ItemChecks, PaymentChecks;
    SavedRows(t, o, nextID);
    SavedTransactions(t, o, nextID);
    assert PaymentChecks(Saved(t, o, nextID).payments[o.UID()]) by { ChecksIgnoreTransaction(o.payment); }
  }

  lemma ChecksIgnoreTransaction(p: Payment)
    ensures forall x :: PaymentChecks(p.(transaction := x)) == PaymentChecks(p)
  {}

  lemma SavedTransactions(t: Tables, o: Order, firstID: nat)
    requires UniqueTransactions(t.payments) && Savable(t, o)
    ensures UniqueTransactions(Saved(t, o, firstID).payments)
  {
    var uid := o.UID();
    if uid !in t.payments {
      assert forall u :: u in t.payments ==> t.payments[u].transaction != o.payment.transaction;
    }
  }

  // ----- One order at a time -----

  /** All that the tables say about one uid, row ids aside. */
  datatype View = View(base: Option<Base>, delivery: Option<Delivery>, payment: Option<Payment>, items: seq<Item>)

  function Lookup<V>(m: map<string, V>, k: string): Option<V> { if k in m then Some(m[k]) else None }

  function ViewOf(t: Tables, uid: string): View {
    View(Lookup(t.orders, uid), Lookup(t.deliveries, uid), Lookup(t.payments, uid), ItemsOf(t, uid))
  }

  /** What a `Save` of `o` makes of the view of its uid. */
  function Overwritten(v: View, o: Order): View {
    View(Some(o.base), Some(o.delivery),
         Some(if v.payment.Some? then o.payment.(transaction := v.payment.value.transaction) else o.payment),
         o.items)
  }

  lemma {:induction false} RowsOfAppend(a: seq<ItemRow>, b: seq<ItemRow>, uid: string)
    ensures RowsOf(a + b, uid) == RowsOf(a, uid) + RowsOf(b, uid)
  {
    if a == [] {
      assert a + b == b;
    } else {
      assert (a + b)[0] == a[0] && (a + b)[1..] == a[1..] + b;
      RowsOfAppend(a[1..], b, uid);
      var head := if a[0].orderUID == uid then [a[0]] else [];
      assert RowsOf(a, uid) == head + RowsOf(a[1..], uid);
      assert RowsOf(a + b, uid) == head + RowsOf(a[1..] + b, uid);
    }
  }

  lemma {:induction false} RowsOfBut(rows: seq<ItemRow>, uid: string, u: string)
    ensures RowsOf(RowsBut(rows, uid), u) == if u == uid then [] else RowsOf(rows, u)
  {
    if rows == [] {
    } else {
      RowsOfBut(rows[1..], uid, u);
      RowsOfAppend(if rows[0].orderUID == uid then [] else [rows[0]], RowsBut(rows[1..], uid), u);
    }
  }

  lemma {:induction false} RowsOfSame(rows: seq<ItemRow>, uid: string, u: string)
    requires forall r :: r in rows ==> r.orderUID == uid
    ensures RowsOf(rows, u) == if u == uid then rows else []
  {
    if rows == [] {
    } else {
      RowsOfSame(rows[1..], uid, u);
    }
  }

  lemma ItemsOfSaved(t: Tables, o: Order, firstID: nat, u: string)
    ensures ItemsOf(Saved(t, o, firstID), u) == if u == o.UID() then o.items else ItemsOf(t, u)
  {
    hide RowsOf, RowsBut;
    var kept, added := RowsBut(t.items, o.UID()), NewRows(o.UID(), o.items, firstID);
    RowsOfAppend(kept, added, u);
    RowsOfBut(t.items, o.UID(), u);
    RowsOfSame(added, o.UID(), u);
    assert [] + added == added;
    assert RowsOf(t.items, u) + [] == RowsOf(t.items, u);
    assert Items(added) == o.items;
  }

  /** A saved order is read back as it was saved if and only if the row of its uid had the same
      payment transaction, or there was none. */
  lemma ReadsBackIff(t: Tables, o: Order, firstID: nat)
    ensures Read(Saved(t, o, firstID), o.UID()) == Some(o)
            <==> (o.UID() in t.payments ==> t.payments[o.UID()].transaction == o.payment.transaction)
  {
    ItemsOfSaved(t, o, firstID, o.UID());
  }

  /** A `Save` rewrites the view of its own uid and leaves every other uid as it was. */
  lemma ViewOfSaved(t: Tables, o: Order, firstID: nat, u: string)
    ensures ViewOf(Saved(t, o, firstID), u) == if u == o.UID() then Overwritten(ViewOf(t, u), o) else ViewOf(t, u)
  {
    ItemsOfSaved(t, o, firstID, u);
  }

  /** Equal up to item row ids (and the place of an order's rows among those of others). */
  ghost predicate Equivalent(a: Tables, b: Tables) {
    a.customers == b.customers && forall u :: ViewOf(a, u) == ViewOf(b, u)
  }

  /** Saving an order twice is saving it once. */
  lemma SaveIdempotent(t: Tables, o: Order, firstID: nat, nextID: nat)
    ensures Equivalent(Saved(Saved(t, o, firstID), o, nextID), Saved(t, o, firstID))
  {
    var once := Saved(t, o, firstID);
    forall u ensures ViewOf(Saved(once, o, nextID), u) == ViewOf(once, u) {
      ViewOfSaved(t, o, firstID, u);
      ViewOfSaved(once, o, nextID, u);
    }
  }
}
