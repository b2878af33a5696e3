/** `OrderService` of internal/usecase, over the repository and the cache it is built with. */
module Service {
  import opened Domain
  import opened Tables
  import opened SaveHistory
  import opened Rows
  import opened Repository
  import opened LruCache
  import opened ServiceSpec
  import LruSpec
  import Pages
  import Coherence
  import LruRecency
  import Acceptance

  /** A strictly decoded message is a fresh object. */
  method Decode(m: Message) returns (order: OrderObject?)
    ensures order == null <==> m.Undecodable?
    ensures order != null ==>
              fresh(order) && (order.items != null ==> fresh(order.items)) && order.Value() == m.order
  {
    if m.Undecodable? {
      return null;
    }
    var items := NewSlice(m.order.items);
    order := new OrderObject(m.order.base, m.order.delivery, m.order.payment, items);
  }

  class OrderService {
    const repo: OrderRepository
    const cache: LRUCacheTTL

    constructor (repo: OrderRepository, cache: LRUCacheTTL)
      ensures this.repo == repo && this.cache == cache
    {
      this.repo, this.cache := repo, cache;
    }

    ghost function State(): ServiceSpec.State
      reads repo, cache
    {
      ServiceSpec.State(repo.store, cache.Contents())
    }

    /** Reads through the cache. If the database is asked, `at` is what its queries see and `rows`
        answers the item query; `now` and `later` are the clock readings of the two cache calls. */
    method GetOrder(uid: string, now: int, later: int, at: Snapshots, rows: seq<ItemRow>, failAt: nat)
      returns (order: OrderObject?, ok: bool)
      requires cache.Valid() && Listing(rows, RowsOf(at.items.items, uid))
      modifies cache.Footprint()
      ensures cache.Valid() && fresh(cache.Footprint() - old(cache.Footprint()))
      ensures
        var dbOK := failAt != 0 && (uid in at.base.orders ==> 4 <= failAt);
        var answer := AnswerAcross(cache.Config(), old(cache.Contents()), uid, now, at, Items(rows), dbOK);
        && cache.Contents()
           == CacheAcross(cache.Config(), old(cache.Contents()), uid, now, at, Items(rows), dbOK, later)
        && (at == AtOnce(repo.store.tables) ==>
              && answer == Answer(cache.Config(), old(State()), uid, now, Items(rows), dbOK)
              && State() == ServiceSpec.GetOrder(cache.Config(), old(State()), uid, now, Items(rows), dbOK, later))
        && (ok <==> dbOK || answer.Some?)
        && (order == null <==> answer == None)
        && (order != null ==> answer == Some(order.Value()))
    {
      hide LRUCacheTTL.Valid, LruSpec.Get, LruSpec.Set, LruSpec.Lookup, OrderObject.Value;
      hide ReadAcross, IsReadOf, Listing, Items;
      cache.ValidConfigured();
      order := cache.Get(uid, now);
      if order != null {
        return order, true;
      }
      order, ok := repo.GetByUID(uid, at, rows, failAt);
      if !ok {
        return null, false;
      }
      ReadMissing(at, uid, Items(rows));
      if order != null {
        ReadFound(at, uid, order);
        cache.NoOrders(order);
        var _ := cache.Set(order, later);
      }
    }

    /** Decodes, validates, saves and caches one message. */
    method SaveFromMessage(m: Message, fault: Fault, burned: nat, now: int) returns (outcome: Outcome)
      requires cache.Valid()
      modifies repo, cache.Footprint()
      ensures cache.Valid() && fresh(cache.Footprint() - old(cache.Footprint()))
      ensures outcome == SaveOutcome(old(repo.store), m, fault)
      ensures State() == SaveMessage(cache.Config(), old(State()), m, fault, burned, now)
      ensures outcome == Invalid <==>
                && m.Decoded?
                && var o := m.order;
                || o.base.orderUID == "" || o.base.trackNumber == "" || o.base.entry == ""
                || o.base.dateCreated < 946_684_800_000_000
                || o.payment.transaction == "" || o.payment.currency == "" || o.payment.amount < 0
                || o.delivery.email == "" || !m.emailParses || o.items == []
                || exists i :: i in o.items && (i.name == "" || i.price < 0 || i.totalPrice < 0)
      ensures m.Undecodable? || (fault != NoFault && outcome != Invalid) ==> outcome == Temporary
      ensures outcome == Success <==>
                && fault == NoFault && m.Decoded? && m.emailParses
                && var o, t := m.order, old(repo.store.tables);
                && o.base.orderUID != "" && o.base.trackNumber != "" && o.base.entry != "" && o.base.customerID != ""
                && 946_684_800_000_000 <= o.base.dateCreated && -2_147_483_648 <= o.base.smID <= 2_147_483_647
                && o.payment.transaction != "" && o.payment.currency != "" && o.delivery.email != ""
                && 0 <= o.payment.amount <= 2_147_483_647 && 0 <= o.payment.paymentDT
                && 0 <= o.payment.deliveryCost <= 2_147_483_647
                && 0 <= o.payment.goodsTotal <= 2_147_483_647 && 0 <= o.payment.customFee <= 2_147_483_647
                && o.items != []
                && (forall i :: i in o.items ==>
                      && i.name != "" && 0 <= i.price <= 2_147_483_647 && 0 <= i.totalPrice <= 2_147_483_647
                      && 0 <= i.sale <= 2_147_483_647 && -2_147_483_648 <= i.chrtID <= 2_147_483_647
                      && -2_147_483_648 <= i.nmID <= 2_147_483_647 && -2_147_483_648 <= i.status <= 2_147_483_647)
                && (o.base.orderUID in t.payments
                    || forall u :: u in t.payments ==> t.payments[u].transaction != o.payment.transaction)
    {
      hide LRUCacheTTL.Valid, LruSpec.Set, OrderObject.Value, ValidOrder, Savable, Saved;
      cache.ValidConfigured();
      Acceptance.InvalidIff(repo.store, m, fault);
      Acceptance.SuccessIff(repo.store, m, fault);
      var order := Decode(m);
      if order == null {
        return Temporary;
      }
      if !ValidOrder(m.order, m.emailParses) {
        return Invalid;
      }
      var ok := SaveAndCache(order, fault, burned, now, m.order);
      outcome := if ok then Success else Temporary;
    }

    /** Saves an order, and caches it if its save is answered. */
    method SaveAndCache(order: OrderObject, fault: Fault, burned: nat, now: int, ghost value: Order)
      returns (ok: bool)
      requires cache.Valid() && order.Value() == value
      modifies repo, cache.Footprint()
      ensures cache.Valid() && fresh(cache.Footprint() - old(cache.Footprint()))
      ensures ok <==> Succeeds(old(repo.store), Attempt(value, fault, burned))
      ensures repo.store == Apply(old(repo.store), Attempt(value, fault, burned))
      ensures cache.Contents() == if ok then LruSpec.Set(cache.Config(), old(cache.Contents()), value, now)
                                  else old(cache.Contents())
    {
      hide LRUCacheTTL.Valid, LruSpec.Set, OrderObject.Value, Savable, Apply, Succeeds;
      cache.ValidConfigured();
      ok := repo.Save(order, fault, burned, value);
      if ok {
        var _ := cache.Set(order, now);
      }
    }

    /** Fills the cache from the last `n` orders; `found` lists the reads it makes, each with what
        its queries see, `cancelAt` is when the context ends. */
    method WarmUpCache(n: int, found: seq<OneRead>, failAt: nat, nows: seq<int>, cancelAt: nat) returns (ok: bool)
      requires cache.Valid()
      requires 0 < n ==> Pages.LastUIDs(repo.store.tables, n, UIDsOf(found)) && |found| == |nows|
      requires 0 < n ==> forall r :: r in found ==>
                 Keyed(r.at.base) && r.uid in r.at.base.orders && Listing(r.rows, RowsOf(r.at.items.items, r.uid))
      modifies cache.Footprint()
      ensures cache.Valid() && fresh(cache.Footprint() - old(cache.Footprint()))
      ensures ok <==> n <= 0 || |found| < failAt
      ensures n <= 0 || !ok ==> State() == old(State())
      ensures 0 < n && ok ==>
                cache.Contents() == FilledCache(cache.Config(), old(cache.Contents()), found, nows, cancelAt)
      ensures 0 < n && ok && AllAtOnce(found, repo.store.tables) ==>
                && (forall u :: u in UIDsOf(found) ==> u in repo.store.tables.orders)
                && State() == WarmUp(cache.Config(), old(State()), UIDsOf(found), ItemLists(found), nows,
                                     if cancelAt <= |found| then cancelAt else |found|)
      ensures 0 < n && ok && AllAtOnce(found, repo.store.tables) && old(cache.Contents()) == LruSpec.EMPTY_CACHE
              && |found| <= cancelAt && (0 < cache.ttl ==> LruRecency.Nondecreasing(nows)) ==>
                Coherence.HoldsNewest(cache.Config(), repo.store.tables, n, UIDsOf(found), nows, cache.Contents().slots)
    {
      hide LRUCacheTTL.Valid, Listing, Keyed, Pages.LastUIDs, RowsOf;
      hide ItemLists, UIDsOf, AllAtOnce, Coherence.HoldsNewest;
      hide LruRecency.Nondecreasing, FilledCache, WarmUp;
      cache.ValidConfigured();
      ghost var start := State();
      if n <= 0 {
        return true;
      }
      ok := ReadAndFill(n, found, failAt, nows, cancelAt);
      if ok && AllAtOnce(found, repo.store.tables) {
        WarmedAtOnce(cache.Config(), start, n, found, nows, cancelAt);
      }
    }

    /** Reads the last `n` orders and stores them, unless the read fails. */
    method ReadAndFill(n: nat, found: seq<OneRead>, failAt: nat, nows: seq<int>, cancelAt: nat) returns (ok: bool)
      requires cache.Valid() && 0 < n
      requires Pages.LastUIDs(repo.store.tables, n, UIDsOf(found)) && |found| == |nows|
      requires forall r :: r in found ==>
                 Keyed(r.at.base) && r.uid in r.at.base.orders && Listing(r.rows, RowsOf(r.at.items.items, r.uid))
      modifies cache.Footprint()
      ensures cache.Valid() && fresh(cache.Footprint() - old(cache.Footprint()))
      ensures ok <==> |found| < failAt
      ensures cache.Contents() == if ok then FilledCache(cache.Config(), old(cache.Contents()), found, nows, cancelAt)
                                  else old(cache.Contents())
    {
      hide LRUCacheTTL.Valid, OrderObject.Value, Listing, Keyed, Pages.LastUIDs, RowsOf;
      hide IsReadOf, Items, OrdersRead, UIDsOf, AllAtOnce, FilledCache, AtOnce, LRUCacheTTL.Linked;
      cache.ValidConfigured();
      var orders: seq<OrderObject>;
      orders, ok := repo.LastN(n, found, failAt);
      if ok {
        FillCache(found, orders, nows, cancelAt);
      }
    }

    /** Stores the orders read until the context ends. */
    method FillCache(ghost found: seq<OneRead>, orders: seq<OrderObject>, nows: seq<int>, cancelAt: nat)
      requires cache.Valid() && |found| == |nows| == |orders|
      requires forall r :: r in found ==> Keyed(r.at.base) && r.uid in r.at.base.orders
      requires forall i :: 0 <= i < |found| ==>
                 IsReadOf(orders[i], found[i].at, found[i].uid) && orders[i].Value().items == Items(found[i].rows)
      modifies cache.Footprint()
      ensures cache.Valid() && fresh(cache.Footprint() - old(cache.Footprint()))
      ensures cache.Contents() == FilledCache(cache.Config(), old(cache.Contents()), found, nows, cancelAt)
    {
      hide LRUCacheTTL.Valid, LruSpec.Run, LruSpec.WarmUpOps, OrderObject.Value, Keyed, IsReadOf, OrdersRead;
      cache.ValidConfigured();
      ghost var values := ReadValues(found, orders);
      var end, done := cache.WarmUp(orders, nows, cancelAt, values);
    }

    lemma ReadValues(found: seq<OneRead>, orders: seq<OrderObject>) returns (values: seq<Order>)
      requires |found| == |orders| && forall r :: r in found ==> Keyed(r.at.base) && r.uid in r.at.base.orders
      requires forall i :: 0 <= i < |found| ==>
                 IsReadOf(orders[i], found[i].at, found[i].uid) && orders[i].Value().items == Items(found[i].rows)
      ensures values == OrdersRead(found) && |values| == |found|
      ensures forall i :: 0 <= i < |found| ==>
                orders[i].Value() == values[i] && values[i].UID() == found[i].uid && found[i].uid != ""
    {
      hide Items, ReadAcrossAs, Keyed;
      values := OrdersRead(found);
      forall i | 0 <= i < |found|
        ensures orders[i].Value() == values[i] && values[i].UID() == found[i].uid && found[i].uid != ""
      {
        assert found[i] in found;
        ReadFound(found[i].at, found[i].uid, orders[i]);
        KeyRead(found[i].at, found[i].uid, Items(found[i].rows));
      }
    }
  }

  /** What the reads of a warm-up find. */
  function OrdersRead(found: seq<OneRead>): seq<Order>
    requires forall r :: r in found ==> r.uid in r.at.base.orders
  {
    seq(|found|, i requires 0 <= i < |found| =>
      assert found[i] in found; ReadAcrossAs(found[i].at, found[i].uid, Items(found[i].rows)).value)
  }

  /** The cache after those of the orders read that are reached before the context ends are stored. */
  function FilledCache(cfg: LruSpec.Config, c: LruSpec.Cache, found: seq<OneRead>, nows: seq<int>, cancelAt: nat)
    : LruSpec.Cache
    requires |nows| == |found| && forall r :: r in found ==> r.uid in r.at.base.orders
  {
    var done := if cancelAt <= |found| then cancelAt else |found|;
    LruSpec.Run(cfg, c, LruSpec.WarmUpOps(OrdersRead(found)[..done], nows[..done]))
  }

  /** The item lists of the reads. */
  function ItemLists(found: seq<OneRead>): seq<seq<Item>> {
    seq(|found|, i requires 0 <= i < |found| => Items(found[i].rows))
  }

  /** Nothing is committed during the reads. */
  ghost predicate AllAtOnce(found: seq<OneRead>, t: Tables) {
    forall r :: r in found ==> r.at == AtOnce(t)
  }

  lemma KeyRead(at: Snapshots, uid: string, items: seq<Item>)
    requires Keyed(at.base) && uid in at.base.orders
    ensures ReadAcrossAs(at, uid, items).Some? && ReadAcrossAs(at, uid, items).value.UID() == uid && uid != ""
  {}

  lemma ReadAtOnce(t: Tables, found: seq<OneRead>)
    requires AllAtOnce(found, t) && forall r :: r in found ==> r.uid in r.at.base.orders
    ensures |UIDsOf(found)| == |ItemLists(found)| == |found| && forall u :: u in UIDsOf(found) ==> u in t.orders
    ensures OrdersRead(found) == ReadAll(t, UIDsOf(found), ItemLists(found))
  {
    hide Items, ReadAcrossAs;
    forall i | 0 <= i < |found| ensures found[i].at == AtOnce(t) && found[i].uid in t.orders {
      assert found[i] in found;
    }
  }

  /** A warm-up during which nothing is committed. */
  lemma WarmedAtOnce(cfg: ValidConfig, s: ServiceSpec.State, n: nat, found: seq<OneRead>, nows: seq<int>,
                     cancelAt: nat)
    requires AllAtOnce(found, s.store.tables) && Pages.LastUIDs(s.store.tables, n, UIDsOf(found))
    requires |nows| == |found| && forall r :: r in found ==> Keyed(r.at.base) && r.uid in r.at.base.orders
    ensures |UIDsOf(found)| == |ItemLists(found)| == |found|
    ensures forall u :: u in UIDsOf(found) ==> u in s.store.tables.orders
    ensures s.(cache := FilledCache(cfg, s.cache, found, nows, cancelAt))
            == WarmUp(cfg, s, UIDsOf(found), ItemLists(found), nows,
                      if cancelAt <= |found| then cancelAt else |found|)
    ensures s.cache == LruSpec.EMPTY_CACHE && |found| <= cancelAt
            && (0 < cfg.ttl ==> LruRecency.Nondecreasing(nows)) ==>
              Coherence.HoldsNewest(cfg, s.store.tables, n, UIDsOf(found), nows,
                                    FilledCache(cfg, s.cache, found, nows, cancelAt).slots)
  {
    hide Pages.LastUIDs, Keyed, Coherence.HoldsNewest, LruSpec.Run, LruSpec.WarmUpOps, ReadAll, ItemLists;
    ReadAtOnce(s.store.tables, found);
    if found != [] { assert found[0] in found; }
    if s.cache == LruSpec.EMPTY_CACHE && |found| <= cancelAt && (0 < cfg.ttl ==> LruRecency.Nondecreasing(nows)) {
      Coherence.WarmedAreNewest(cfg, s.store.tables, n, UIDsOf(found), ItemLists(found), nows);
      assert OrdersRead(found)[..|found|] == OrdersRead(found) && nows[..|found|] == nows;
    }
  }

  lemma ReadFound(at: Snapshots, uid: string, order: OrderObject)
    requires IsReadOf(order, at, uid)
    ensures uid in at.base.orders && ReadAcrossAs(at, uid, order.Value().items) == Some(order.Value())
  {}

  lemma ReadMissing(at: Snapshots, uid: string, items: seq<Item>)
    ensures uid !in at.base.orders <==> ReadAcrossAs(at, uid, items) == None
  {}
}
