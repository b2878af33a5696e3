/** The entities of internal/domain/order.go as values, and the one heap object the
    service passes around: a pointer to an order whose fields can be overwritten. */
module Domain {

  datatype Option<+T> = None | Some(value: T)

  datatype Delivery = Delivery(
    name: string, phone: string, zip: string, city: string,
    address: string, region: string, email: string)

  datatype Payment = Payment(
    transaction: string, requestID: string, currency: string, provider: string,
    amount: int, paymentDT: int, bank: string,
    deliveryCost: int, goodsTotal: int, customFee: int)

  datatype Item = Item(
    chrtID: int, trackNumber: string, price: int, rid: string, name: string,
    sale: int, size: string, totalPrice: int, nmID: int, brand: string, status: int)

  /** The scalar columns of an order: one row of table "orders".
      Dates are microseconds. */
  datatype Base = Base(
    orderUID: string, trackNumber: string, entry: string, locale: string,
    internalSignature: string, customerID: string, deliveryService: string,
    shardKey: string, smID: int, dateCreated: int, oofShard: string)

  datatype Order = Order(base: Base, delivery: Delivery, payment: Payment, items: seq<Item>) {
    function UID(): string { base.orderUID }
  }

  const ZERO_DELIVERY := Delivery("", "", "", "", "", "", "")
  const ZERO_PAYMENT := Payment("", "", "", "", 0, 0, "", 0, 0, 0)

  /** Same order up to the order of its items and the payment transaction. */
  ghost predicate AgreeExceptTransaction(a: Order, b: Order) {
    && a.base == b.base
    && a.delivery == b.delivery
    && a.payment.(transaction := "") == b.payment.(transaction := "")
    && multiset(a.items) == multiset(b.items)
  }

  /** Same order up to the order of its items. */
  ghost predicate Agree(a: Order, b: Order) {
    AgreeExceptTransaction(a, b) && a.payment.transaction == b.payment.transaction
  }

  /** An order reached through a pointer. A nil item slice is a null array. */
  class OrderObject {
    var base: Base
    var delivery: Delivery
    var payment: Payment
    var items: array?<Item>

    constructor (base: Base, delivery: Delivery, payment: Payment, items: array?<Item>)
      ensures this.base == base && this.delivery == delivery
      ensures this.payment == payment && this.items == items
    {
      this.base, this.delivery, this.payment, this.items := base, delivery, payment, items;
    }

    /** The content of the object now; nil and empty item slices are the same content. */
    ghost function Value(): Order
      reads this, items
    {
      Order(base, delivery, payment, if items == null then [] else items[..])
    }
  }
}
