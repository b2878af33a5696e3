/** The columns of migrations/ in numbers: which orders they take, and what every stored row keeps. */
module Columns {
  import opened Domain
  import opened Tables
  import opened SaveHistory

  /** The orders the tables take: uid and customer given, every INTEGER within 32 bits and those
      with a CHECK not negative, and a transaction that no other order has, unless the order has
      a payment row already. */
  lemma SavableColumns(t: Tables, o: Order)
    ensures Savable(t, o) <==>
              && o.base.orderUID != "" && o.base.customerID != ""
              && -2_147_483_648 <= o.base.smID <= 2_147_483_647
              && 0 <= o.payment.amount <= 2_147_483_647 && 0 <= o.payment.paymentDT
              && 0 <= o.payment.deliveryCost <= 2_147_483_647
              && 0 <= o.payment.goodsTotal <= 2_147_483_647 && 0 <= o.payment.customFee <= 2_147_483_647
              && (forall i :: i in o.items ==>
                    && -2_147_483_648 <= i.chrtID <= 2_147_483_647 && -2_147_483_648 <= i.nmID <= 2_147_483_647
                    && -2_147_483_648 <= i.status <= 2_147_483_647 && 0 <= i.price <= 2_147_483_647
                    && 0 <= i.sale <= 2_147_483_647 && 0 <= i.totalPrice <= 2_147_483_647)
              && (o.base.orderUID in t.payments
                  || forall u :: u in t.payments ==> t.payments[u].transaction != o.payment.transaction)
  {}

  /** After any sequence of `Save` calls every stored row is within these bounds, each order has a
      customer row, one delivery and one payment, and each item belongs to an order. */
  lemma StoredColumns(attempts: seq<Attempt>)
    ensures
      var t := RunSaves(EMPTY_STORE, attempts).tables;
      && t.deliveries.Keys == t.orders.Keys && t.payments.Keys == t.orders.Keys
      && (forall u :: u in t.orders ==>
            && u != "" && t.orders[u].orderUID == u
            && t.orders[u].customerID != "" && t.orders[u].customerID in t.customers
            && -2_147_483_648 <= t.orders[u].smID <= 2_147_483_647)
      && (forall u :: u in t.payments ==>
            && 0 <= t.payments[u].amount <= 2_147_483_647 && 0 <= t.payments[u].paymentDT
            && 0 <= t.payments[u].deliveryCost <= 2_147_483_647
            && 0 <= t.payments[u].goodsTotal <= 2_147_483_647 && 0 <= t.payments[u].customFee <= 2_147_483_647)
      && (forall r :: r in t.items ==>
            && r.orderUID in t.orders
            && -2_147_483_648 <= r.item.chrtID <= 2_147_483_647 && -2_147_483_648 <= r.item.nmID <= 2_147_483_647
            && -2_147_483_648 <= r.item.status <= 2_147_483_647 && 0 <= r.item.price <= 2_147_483_647
            && 0 <= r.item.sale <= 2_147_483_647 && 0 <= r.item.totalPrice <= 2_147_483_647)
  {
    hide RunSaves;
    RunRecords(attempts);
  }
}
