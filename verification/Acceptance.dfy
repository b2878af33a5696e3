/** Which messages the service accepts, rejects for good and leaves to be retried, field by field,
    and what the database therefore holds. */
module Acceptance {
  import opened Domain
  import opened Tables
  import opened SaveHistory
  import opened ServiceSpec
  import Coherence
  import LruSpec

  /** A message is invalid if and only if it is decoded and one of these fields is wrong. */
  lemma InvalidIff(s: Store, m: Message, fault: Fault)
    ensures SaveOutcome(s, m, fault) == Invalid <==>
              && m.Decoded?
              && var o := m.order;
              || o.base.orderUID == "" || o.base.trackNumber == "" || o.base.entry == ""
              || o.base.dateCreated < 946_684_800_000_000
              || o.payment.transaction == "" || o.payment.currency == "" || o.payment.amount < 0
              || o.delivery.email == "" || !m.emailParses || o.items == []
              || exists i :: i in o.items && (i.name == "" || i.price < 0 || i.totalPrice < 0)
  {}

  /** It is saved if and only if nothing breaks, these fields are given and in range, and no other
      order has its transaction, unless the order has a payment row already. */
  lemma SuccessIff(s: Store, m: Message, fault: Fault)
    ensures SaveOutcome(s, m, fault) == Success <==>
              && fault == NoFault && m.Decoded? && m.emailParses
              && var o, t := m.order, s.tables;
              && o.base.orderUID != "" && o.base.trackNumber != "" && o.base.entry != "" && o.base.customerID != ""
              && 946_684_800_000_000 <= o.base.dateCreated && -2_147_483_648 <= o.base.smID <= 2_147_483_647
              && o.payment.transaction != "" && o.payment.currency != "" && o.delivery.email != ""
              && 0 <= o.payment.amount <= 2_147_483_647 && 0 <= o.payment.paymentDT
              && 0 <= o.payment.deliveryCost <= 2_147_483_647
              && 0 <= o.payment.goodsTotal <= 2_147_483_647 && 0 <= o.payment.customFee <= 2_147_483_647
              && o.items != []
              && (forall i :: i in o.items ==>
                    && i.name != "" && 0 <= i.price <= 2_147_483_647 && 0 <= i.totalPrice <= 2_147_483_647
                    && 0 <= i.sale <= 2_147_483_647 && -2_147_483_648 <= i.chrtID <= 2_147_483_647
                    && -2_147_483_648 <= i.nmID <= 2_147_483_647 && -2_147_483_648 <= i.status <= 2_147_483_647)
              && (o.base.orderUID in t.payments
                  || forall u :: u in t.payments ==> t.payments[u].transaction != o.payment.transaction)
  {}

  // ----- What is stored -----

  /** The row of `uid` with its side rows and its items, field by field. */
  ghost predicate Complete(t: Tables, uid: string) {
    && uid in t.orders && uid in t.deliveries && uid in t.payments
    && var b, d, p := t.orders[uid], t.deliveries[uid], t.payments[uid];
    && uid != "" && b.orderUID == uid && b.trackNumber != "" && b.entry != ""
    && b.customerID != "" && b.customerID in t.customers
    && 946_684_800_000_000 <= b.dateCreated && -2_147_483_648 <= b.smID <= 2_147_483_647
    && d.email != "" && p.transaction != "" && p.currency != ""
    && 0 <= p.amount <= 2_147_483_647 && 0 <= p.paymentDT && 0 <= p.deliveryCost <= 2_147_483_647
    && 0 <= p.goodsTotal <= 2_147_483_647 && 0 <= p.customFee <= 2_147_483_647
    && ItemsOf(t, uid) != []
    && (forall i :: i in ItemsOf(t, uid) ==>
          && i.name != "" && 0 <= i.price <= 2_147_483_647 && 0 <= i.totalPrice <= 2_147_483_647
          && 0 <= i.sale <= 2_147_483_647 && -2_147_483_648 <= i.chrtID <= 2_147_483_647
          && -2_147_483_648 <= i.nmID <= 2_147_483_647 && -2_147_483_648 <= i.status <= 2_147_483_647)
  }

  ghost predicate AllComplete(s: Store) {
    && Consistent(s.tables, s.nextID)
    && forall u :: u in s.tables.orders ==> Complete(s.tables, u)
  }

  lemma SavedComplete(t: Tables, o: Order, nextID: nat, emailParses: bool, uid: string)
    requires Consistent(t, nextID) && Savable(t, o) && ValidOrder(o, emailParses)
    requires uid == o.UID() || Complete(t, uid)
    requires o.UID() in t.orders ==> Complete(t, o.UID())
    ensures Complete(Saved(t, o, nextID), uid)
  {
    hide ItemsOf, RowsBut, RowsConsistent;
    ItemsOfSaved(t, o, nextID, uid);
  }

  lemma StepComplete(cfg: ValidConfig, s: State, e: Event)
    requires Possible(s, e) && AllComplete(s.store)
    ensures AllComplete(Next(cfg, s, e).store)
  {
    hide LruSpec.Set, LruSpec.Get, LruSpec.Run, CacheAcross, Complete, Consistent, Saved, Savable;
    if e.SaveEvent? && ValidMessage(e.m) {
      var a := Attempt(e.m.order, e.fault, e.burned);
      Coherence.ApplyKeepsConsistent(s.store, a);
      if Commits(s.store, a) {
        var after := Saved(s.store.tables, a.order, s.store.nextID);
        SavedKeys(s.store.tables, a.order, s.store.nextID);
        forall u | u in after.orders ensures Complete(after, u) {
          SavedComplete(s.store.tables, a.order, s.store.nextID, e.m.emailParses, u);
        }
      }
    }
  }

  lemma SavedKeys(t: Tables, o: Order, firstID: nat)
    ensures Saved(t, o, firstID).orders.Keys == t.orders.Keys + {o.UID()}
  {}

  /** In every reachable state of the service every stored order has all of it: at least one item
      with a name, an email, a transaction, a customer, a date from the year 2000 on, and so on. */
  lemma {:induction false} RunStoresComplete(cfg: ValidConfig, states: seq<State>, events: seq<Event>, n: nat)
    requires IsRun(cfg, states, events) && n < |states|
    ensures
      var s := states[n].store;
      AllComplete(s)
  {
    hide AllComplete, Next, Possible;
    if n == 0 {
      EmptyComplete();
    } else {
      RunStoresComplete(cfg, states, events, n - 1);
      StepComplete(cfg, states[n - 1], events[n - 1]);
    }
  }

  lemma EmptyComplete()
    ensures AllComplete(EMPTY_STORE)
  {
    EmptyRecords();
  }
}
