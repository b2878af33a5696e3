/** What internal/app puts together: the service with its warmed cache, and the consumer loop with
    the configured delays. */
module App {
  import opened Domain
  import opened Tables
  import opened Rows
  import opened Repository
  import opened LruCache
  import opened ServiceSpec
  import opened ConsumerSpec
  import LruSpec
  import Pages
  import Service
  import Coherence
  import CommitSafety
  import Consumer

  /** The service with a new cache, warmed with the last `warmUpN` orders; a failed warm-up is only
      logged. `found`, `failAt`, `nows` and `cancelAt` are as for `WarmUpCache`. If nothing is
      committed meanwhile, the capacity holds the orders read and none expires before the last is
      stored, the cache holds the newest orders of the tables. */
  method StartService(repo: OrderRepository, capacity: int, ttl: int, warmUpN: int,
                      found: seq<OneRead>, failAt: nat, nows: seq<int>, cancelAt: nat)
    returns (service: Service.OrderService)
    requires 0 < warmUpN ==> Pages.LastUIDs(repo.store.tables, warmUpN, UIDsOf(found)) && |found| == |nows|
    requires 0 < warmUpN ==> forall r :: r in found ==>
               Keyed(r.at.base) && r.uid in r.at.base.orders && Listing(r.rows, RowsOf(r.at.items.items, r.uid))
    ensures service.repo == repo && service.cache.Valid() && fresh(service.cache.Footprint())
    ensures service.cache.capacity == (if capacity <= 0 then 1 else capacity) && service.cache.ttl == ttl
    ensures warmUpN <= 0 || failAt <= |found| ==> service.cache.Contents() == LruSpec.EMPTY_CACHE
    ensures
      var t, slots := repo.store.tables, service.cache.Contents().slots;
      0 < warmUpN && |found| < failAt && |found| <= cancelAt && Service.AllAtOnce(found, t)
      && (0 < ttl ==> forall i, j :: 0 <= i < j < |nows| ==> nows[i] <= nows[j]) ==>
        && (forall x :: x in slots ==> x.id in t.orders && x.order.base == t.orders[x.id])
        && (|found| <= capacity && (0 < ttl && nows != [] ==> nows[|nows| - 1] <= nows[0] + ttl) ==>
              && |slots| == (if warmUpN <= |t.orders| then warmUpN else |t.orders|)
              && (forall u, x :: u in t.orders && x in slots && (forall y :: y in slots ==> y.id != u) ==>
                    t.orders[u].dateCreated <= x.order.base.dateCreated))
  {
    hide LRUCacheTTL.Valid, LRUCacheTTL.Linked, Keyed, Listing, RowsOf, Pages.LastUIDs;
    hide LruSpec.Ids, LruSpec.Run, LruSpec.WarmUpOps, WarmUp, UIDsOf, Service.AllAtOnce, Service.OrdersRead;
    hide Service.ItemLists, Service.FilledCache, Coherence.HoldsNewest;
    var cache := new LRUCacheTTL(capacity, ttl);
    service := new Service.OrderService(repo, cache);
    if 0 < warmUpN {
      var ok := service.WarmUpCache(warmUpN, found, failAt, nows, cancelAt);
      if ok && Coherence.HoldsNewest(cache.Config(), repo.store.tables, warmUpN, UIDsOf(found), nows, cache.slots) {
        NewestHeld(cache.Config(), repo.store.tables, warmUpN, found, nows, cache.slots);
      }
    }
  }

  lemma NewestHeld(cfg: LruSpec.Config, t: Tables, n: nat, found: seq<OneRead>, nows: seq<int>,
                   slots: seq<LruSpec.Slot>)
    requires Coherence.HoldsNewest(cfg, t, n, UIDsOf(found), nows, slots)
    ensures forall x :: x in slots ==> x.id in t.orders && x.order.base == t.orders[x.id]
    ensures |found| <= cfg.capacity && (0 < cfg.ttl && nows != [] ==> nows[|nows| - 1] <= nows[0] + cfg.ttl) ==>
              && |slots| == (if n <= |t.orders| then n else |t.orders|)
              && (forall u, x :: u in t.orders && x in slots && (forall y :: y in slots ==> y.id != u) ==>
                    t.orders[u].dateCreated <= x.order.base.dateCreated)
  {}

  /** The consumer loop of a new consumer, with the delays in nanoseconds. A session whose first
      fetch fails starts with a retry; each first retry sleeps between half and all of the
      configured initial delay (one second if none is configured), each pause after a temporary
      failure at most half a second. */
  method RunConsumer(reader: Consumer.Reader, service: Service.OrderService, retryInitial: int, retryMax: int,
                     ticks: seq<Tick>)
    returns (consumer: Consumer.Consumer)
    requires service.cache.Valid() && reader.next == reader.position
    modifies reader, service.repo, service.cache.Footprint()
    ensures service.cache.Valid()
    ensures
      var initial := if 0 < retryInitial then retryInitial else 1_000_000_000;
      var largest := if 0 < retryMax then retryMax else 30_000_000_000;
      var trace := consumer.trace;
      && (ticks != [] && ticks[0].FetchFails? && !ticks[0].cancelled ==> trace != [] && trace[0].RetryIn?)
      && (forall k :: 0 <= k < |trace| && trace[k].RetryIn? ==>
            trace[k].sleep <= initial || trace[k].sleep <= largest)
      && (forall k {:trigger trace[k]} ::
            0 <= k < |trace| && trace[k].RetryIn? && (k == 0 || !trace[k - 1].RetryIn?) ==>
              initial / 2 <= trace[k].sleep <= initial)
      && (forall k :: 0 <= k < |trace| && trace[k].Paused? ==>
            && trace[k].sleep <= initial && trace[k].sleep <= 500_000_000
            && (initial / 2 <= trace[k].sleep || 250_000_000 <= trace[k].sleep))
  {
    hide LRUCacheTTL.Valid, LRUCacheTTL.Linked, ConsumerSpec.Run;
    consumer := new Consumer.Consumer(reader, service, retryInitial, retryMax);
    ghost var state, position := service.State(), reader.position;
    var retry, stopped := consumer.Run(ticks);
    CommitSafety.SessionPauses(consumer.settings, reader.log, state, position, ticks);
    CommitSafety.SessionRetries(consumer.settings, reader.log, state, position, ticks);
  }
}
