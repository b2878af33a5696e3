/** HTTP readers and the Kafka writer interleaved. `GetOrder` is a cache lookup, four separate
    selects and a cache store; `SaveFromMessage` is a commit and a cache store; any number of
    each run at once, one atomic step at a time, and any of them may stop between two steps. */
module Interleaving {
  import opened Domain
  import opened Tables
  import opened SaveHistory
  import opened ServiceSpec
  import LruSpec
  import Coherence

  /** Where a reader is, and what it has read. `b`, `d`, `p` and `i` number the version of the
      order each part was read from; the program does not have them. */
  datatype Reader =
    | Start(uid: string)
    | AskBase(uid: string)
    | AskDelivery(uid: string, base: Base, b: nat)
    | AskPayment(uid: string, base: Base, delivery: Delivery, b: nat, d: nat)
    | AskItems(uid: string, base: Base, delivery: Delivery, payment: Payment, b: nat, d: nat, p: nat)
    | ToStore(uid: string, order: Order, b: nat, d: nat, p: nat, i: nat)
    | Answered(uid: string, answer: Option<Order>)

  datatype Writer = ToCommit(order: Order) | ToCache(order: Order, k: nat) | Done

  /** `history` lists the committed orders; the program does not have it. */
  datatype World = World(
    store: Store, history: seq<Order>, cache: LruSpec.Cache,
    readers: map<nat, Reader>, writers: map<nat, Writer>)

  const EMPTY_WORLD := World(EMPTY_STORE, [], LruSpec.EMPTY_CACHE, map[], map[])

  datatype Event =
    | BeginRead(tid: nat, uid: string, warm: bool)     // warm: `LastN` reads without a lookup
    | ReaderStep(tid: nat, now: int, items: seq<Item>) // items: the answer, if items are asked
    | BeginWrite(tid: nat, order: Order)
    | Commit(tid: nat, fault: Fault, burned: nat)
    | CacheStore(tid: nat, now: int)

  /** The versions of one order, oldest first. */
  function Versions(os: seq<Order>, uid: string): seq<Order> {
    if os == [] then []
    else Versions(os[..|os| - 1], uid) + if os[|os| - 1].UID() == uid then [os[|os| - 1]] else []
  }

  /** The newest version's number; 0 when there is none. */
  function Newest(w: World, uid: string): nat {
    var n := |Versions(w.history, uid)|;
    if n == 0 then 0 else n - 1
  }

  function StepReader(cfg: Config, w: World, r: Reader, now: int, items: seq<Item>): (World, Reader) {
    var t := w.store.tables;
    match r
    case Start(uid) =>
      var hit := LruSpec.Lookup(cfg, w.cache, uid, now);
      (w.(cache := LruSpec.Get(cfg, w.cache, uid, now)), if hit.Some? then Answered(uid, hit) else AskBase(uid))
    case AskBase(uid) =>
      (w, if uid in t.orders then AskDelivery(uid, t.orders[uid], Newest(w, uid)) else Answered(uid, None))
    case AskDelivery(uid, base, b) =>
      (w, AskPayment(uid, base, if uid in t.deliveries then t.deliveries[uid] else ZERO_DELIVERY, b, Newest(w, uid)))
    case AskPayment(uid, base, delivery, b, d) =>
      (w, AskItems(uid, base, delivery, if uid in t.payments then t.payments[uid] else ZERO_PAYMENT,
                   b, d, Newest(w, uid)))
    case AskItems(uid, base, delivery, payment, b, d, p) =>
      (w, if multiset(items) == multiset(ItemsOf(t, uid))
          then ToStore(uid, Order(base, delivery, payment, items), b, d, p, Newest(w, uid)) else r)
    case ToStore(uid, order, b, d, p, i) =>
      (w.(cache := LruSpec.Set(cfg, w.cache, order, now)), Answered(uid, Some(order)))
    case Answered(_, _) => (w, r)
  }

  /** An event that cannot happen in `w` changes nothing. */
  function Next(cfg: Config, w: World, e: Event): World {
    match e
    case BeginRead(tid, uid, warm) =>
      if tid in w.readers then w
      else w.(readers := w.readers[tid := if warm then AskBase(uid) else Start(uid)])
    case ReaderStep(tid, now, items) =>
      if tid !in w.readers then w
      else
        var (after, r) := StepReader(cfg, w, w.readers[tid], now, items);
        after.(readers := w.readers[tid := r])
    case BeginWrite(tid, order) =>
      if tid in w.writers then w else w.(writers := w.writers[tid := ToCommit(order)])
    case Commit(tid, fault, burned) =>
      if tid !in w.writers || !w.writers[tid].ToCommit? then w
      else
        var a := Attempt(w.writers[tid].order, fault, burned);
        var after := w.(store := Apply(w.store, a));
        if !Commits(w.store, a) then after.(writers := w.writers[tid := Done])
        else after.(history := w.history + [a.order],
                    writers := w.writers[tid := if fault == NoFault
                                                then ToCache(a.order, |Versions(w.history, a.order.UID())|) else Done])
    case CacheStore(tid, now) =>
      if tid !in w.writers || !w.writers[tid].ToCache? then w
      else w.(cache := LruSpec.Set(cfg, w.cache, w.writers[tid].order, now), writers := w.writers[tid := Done])
  }

  function Run(cfg: Config, events: seq<Event>): World {
    if events == [] then EMPTY_WORLD
    else Next(cfg, Run(cfg, events[..|events| - 1]), events[|events| - 1])
  }

  // ----- What an order can be made of -----

  /** Each part of `o` comes from a version in `vs`, the parts selected later from versions no
      older. The transaction is the first version's or that of the payment's version. */
  ghost predicate Assembled(vs: seq<Order>, o: Order, b: nat, d: nat, p: nat, i: nat) {
    && b <= d <= p <= i < |vs|
    && o.base == vs[b].base && o.delivery == vs[d].delivery
    && SamePayment(vs, o.payment, p)
    && multiset(o.items) == multiset(vs[i].items)
  }

  ghost predicate SamePayment(vs: seq<Order>, payment: Payment, p: nat) {
    && p < |vs|
    && payment.(transaction := "") == vs[p].payment.(transaction := "")
    && (payment.transaction == vs[0].payment.transaction || payment.transaction == vs[p].payment.transaction)
  }

  ghost predicate FromHistory(os: seq<Order>, uid: string, o: Order) {
    exists b, d, p, i :: Assembled(Versions(os, uid), o, b, d, p, i)
  }

  ghost predicate ReaderOK(os: seq<Order>, r: Reader) {
    var vs := Versions(os, r.uid);
    match r
    case Start(_) => true
    case AskBase(_) => true
    case AskDelivery(_, base, b) => b < |vs| && base == vs[b].base
    case AskPayment(_, base, delivery, b, d) =>
      b <= d < |vs| && base == vs[b].base && delivery == vs[d].delivery
    case AskItems(_, base, delivery, payment, b, d, p) =>
      b <= d <= p < |vs| && base == vs[b].base && delivery == vs[d].delivery && SamePayment(vs, payment, p)
    case ToStore(uid, order, b, d, p, i) => uid != "" && order.UID() == uid && Assembled(vs, order, b, d, p, i)
    case Answered(uid, answer) => answer.Some? ==> FromHistory(os, uid, answer.value)
  }

  ghost predicate WriterOK(os: seq<Order>, x: Writer) {
    x.ToCache? ==>
      x.order.UID() != "" && x.k < |Versions(os, x.order.UID())| && Versions(os, x.order.UID())[x.k] == x.order
  }

  ghost predicate CacheOK(os: seq<Order>, c: LruSpec.Cache) {
    forall s :: s in c.slots ==> FromHistory(os, s.id, s.order)
  }

  ghost predicate Inv(cfg: ValidConfig, w: World) {
    && Records(w.store.tables, w.history)
    && Consistent(w.store.tables, w.store.nextID)
    && LruSpec.WellFormed(cfg, w.cache)
    && CacheOK(w.history, w.cache)
    && (forall tid :: tid in w.readers ==> ReaderOK(w.history, w.readers[tid]))
    && (forall tid :: tid in w.writers ==> WriterOK(w.history, w.writers[tid]))
  }

  // ----- Versions -----

  lemma VersionsOne(os: seq<Order>, o: Order, u: string)
    ensures Versions(os + [o], u) == Versions(os, u) + if o.UID() == u then [o] else []
  {
    assert (os + [o])[..|os|] == os;
  }

  lemma {:induction false} VersionsOf(os: seq<Order>, u: string)
    ensures forall k :: 0 <= k < |Versions(os, u)| ==> Versions(os, u)[k].UID() == u && Versions(os, u)[k] in os
    ensures LastOf(os, u) == (if Versions(os, u) == [] then None else Some(Versions(os, u)[|Versions(os, u)| - 1]))
    ensures FirstOf(os, u) == (if Versions(os, u) == [] then None else Some(Versions(os, u)[0]))
  {
    if os == [] {
    } else {
      var before, o := os[..|os| - 1], os[|os| - 1];
      VersionsOf(before, u);
      assert os == before + [o];
      FirstOfOne(before, o, u);
      LastOfOne(before, o, u);
    }
  }

  /** What the tables say about a uid is its newest version, with the first's transaction. */
  lemma TablesAreNewest(w: World, u: string)
    requires Records(w.store.tables, w.history)
    ensures
      var vs, t := Versions(w.history, u), w.store.tables;
      && (u in t.orders <==> vs != [])
      && (vs != [] ==>
            var v := vs[Newest(w, u)];
            && t.orders[u] == v.base
            && u in t.deliveries && t.deliveries[u] == v.delivery
            && u in t.payments && t.payments[u] == v.payment.(transaction := vs[0].payment.transaction)
            && ItemsOf(t, u) == v.items)
  {
    VersionsOf(w.history, u);
    assert ViewOf(w.store.tables, u) == ViewFrom(Latest(w.history, u));
  }

  // ----- Commits only add versions -----

  lemma HistoryGrows(os: seq<Order>, o: Order, u: string)
    ensures forall x :: FromHistory(os, u, x) ==> FromHistory(os + [o], u, x)
  {
    VersionsOne(os, o, u);
    forall x | FromHistory(os, u, x) ensures FromHistory(os + [o], u, x) {
      var b, d, p, i :| Assembled(Versions(os, u), x, b, d, p, i);
      assert Assembled(Versions(os + [o], u), x, b, d, p, i);
    }
  }

  lemma ReaderLater(os: seq<Order>, o: Order, r: Reader)
    requires ReaderOK(os, r)
    ensures ReaderOK(os + [o], r)
  {
    VersionsOne(os, o, r.uid);
    HistoryGrows(os, o, r.uid);
  }

  lemma WriterLater(os: seq<Order>, o: Order, x: Writer)
    requires WriterOK(os, x)
    ensures WriterOK(os + [o], x)
  {
    if x.ToCache? { VersionsOne(os, o, x.order.UID()); }
  }

  lemma CacheLater(os: seq<Order>, o: Order, c: LruSpec.Cache)
    requires CacheOK(os, c)
    ensures CacheOK(os + [o], c)
  {
    forall s | s in c.slots ensures FromHistory(os + [o], s.id, s.order) {
      HistoryGrows(os, o, s.id);
    }
  }

  // ----- Cache steps -----

  lemma CacheAfterGet(cfg: ValidConfig, os: seq<Order>, c: LruSpec.Cache, uid: string, now: int)
    requires LruSpec.WellFormed(cfg, c) && CacheOK(os, c)
    ensures LruSpec.WellFormed(cfg, LruSpec.Get(cfg, c, uid, now)) && CacheOK(os, LruSpec.Get(cfg, c, uid, now))
    ensures
      var hit := LruSpec.Lookup(cfg, c, uid, now);
      hit.Some? ==> FromHistory(os, uid, hit.value)
  {
    hide FromHistory;
    LruSpec.GetKeepsWellFormed(cfg, c, uid, now);
    forall s | s in LruSpec.Get(cfg, c, uid, now).slots ensures FromHistory(os, s.id, s.order) {
      Coherence.AfterGet(cfg, c, uid, now, s);
    }
    var k := LruSpec.Find(c.slots, uid);
    if k < |c.slots| { assert c.slots[k] in c.slots; }
  }

  lemma CacheAfterSet(cfg: ValidConfig, os: seq<Order>, c: LruSpec.Cache, o: Order, now: int)
    requires LruSpec.WellFormed(cfg, c) && CacheOK(os, c) && FromHistory(os, o.UID(), o)
    ensures LruSpec.WellFormed(cfg, LruSpec.Set(cfg, c, o, now)) && CacheOK(os, LruSpec.Set(cfg, c, o, now))
  {
    hide FromHistory;
    LruSpec.SetKeepsWellFormed(cfg, c, o, now);
    forall s | s in LruSpec.Set(cfg, c, o, now).slots ensures FromHistory(os, s.id, s.order) {
      Coherence.AfterSet(cfg, c, o, now, s);
    }
  }

  // ----- Every step keeps the invariant -----

  lemma ReaderKeeps(cfg: ValidConfig, w: World, r: Reader, now: int, items: seq<Item>)
    requires Inv(cfg, w) && ReaderOK(w.history, r)
    ensures
      var (after, next) := StepReader(cfg, w, r, now, items);
      && after == w.(cache := after.cache)
      && LruSpec.WellFormed(cfg, after.cache) && CacheOK(w.history, after.cache)
      && ReaderOK(w.history, next)
  {
    hide Inv, LruSpec.Get, LruSpec.Set, LruSpec.Lookup, LruSpec.WellFormed, CacheOK, Records, Consistent, FromHistory;
    InvFacts(cfg, w);
    match r
    case Start(uid) => CacheAfterGet(cfg, w.history, w.cache, uid, now);
    case ToStore(uid, order, b, d, p, i) =>
      IsFromHistory(w.history, uid, order, b, d, p, i);
      CacheAfterSet(cfg, w.history, w.cache, order, now);
    case Answered(_, _) =>
    case _ => SelectKeeps(cfg, w, r, now, items);
  }

  predicate Selects(r: Reader) { r.AskBase? || r.AskDelivery? || r.AskPayment? || r.AskItems? }

  /** A select reads the newest version. */
  lemma SelectKeeps(cfg: ValidConfig, w: World, r: Reader, now: int, items: seq<Item>)
    requires Inv(cfg, w) && ReaderOK(w.history, r) && Selects(r)
    ensures StepReader(cfg, w, r, now, items).0 == w
    ensures ReaderOK(w.history, StepReader(cfg, w, r, now, items).1)
  {
    hide Inv, LruSpec.WellFormed, CacheOK, Records, Consistent, FromHistory, Versions, ItemsOf;
    InvFacts(cfg, w);
    TablesAreNewest(w, r.uid);
    VersionsOf(w.history, r.uid);
    if Versions(w.history, r.uid) != [] { NoEmptyUID(cfg, w, r.uid); }
  }

  lemma InvFacts(cfg: ValidConfig, w: World)
    requires Inv(cfg, w)
    ensures Records(w.store.tables, w.history) && Consistent(w.store.tables, w.store.nextID)
    ensures LruSpec.WellFormed(cfg, w.cache) && CacheOK(w.history, w.cache)
  {}

  lemma IsFromHistory(os: seq<Order>, uid: string, o: Order, b: nat, d: nat, p: nat, i: nat)
    requires Assembled(Versions(os, uid), o, b, d, p, i)
    ensures FromHistory(os, uid, o)
  {}

  lemma NoEmptyUID(cfg: ValidConfig, w: World, uid: string)
    requires Inv(cfg, w) && Versions(w.history, uid) != []
    ensures uid != ""
  {
    TablesAreNewest(w, uid);
  }

  /** A commit adds one version and makes no earlier reading wrong. */
  lemma CommitKeeps(cfg: ValidConfig, w: World, tid: nat, fault: Fault, burned: nat)
    requires Inv(cfg, w)
    ensures Inv(cfg, Next(cfg, w, Commit(tid, fault, burned)))
  {
    hide Records, Consistent, LruSpec.WellFormed, CacheOK, ReaderOK, WriterOK, Savable, Saved;
    if tid in w.writers && w.writers[tid].ToCommit? {
      var a := Attempt(w.writers[tid].order, fault, burned);
      Coherence.ApplyKeepsConsistent(w.store, a);
      WriterDone(w.history);
      if Commits(w.store, a) {
        var os := w.history + [a.order];
        RecordsSaved(w.store.tables, w.history, a.order, w.store.nextID);
        CacheLater(w.history, a.order, w.cache);
        forall t | t in w.readers ensures ReaderOK(os, w.readers[t]) { ReaderLater(w.history, a.order, w.readers[t]); }
        forall t | t in w.writers ensures WriterOK(os, w.writers[t]) { WriterLater(w.history, a.order, w.writers[t]); }
        WriterCommitted(w, a);
        WriterDone(os);
      }
    }
  }

  lemma WriterDone(os: seq<Order>)
    ensures WriterOK(os, Done) && forall o :: WriterOK(os, ToCommit(o))
  {}

  lemma WriterCommitted(w: World, a: Attempt)
    requires Commits(w.store, a)
    ensures WriterOK(w.history + [a.order], ToCache(a.order, |Versions(w.history, a.order.UID())|))
  {
    VersionsOne(w.history, a.order, a.order.UID());
  }

  lemma NextKeeps(cfg: ValidConfig, w: World, e: Event)
    requires Inv(cfg, w)
    ensures Inv(cfg, Next(cfg, w, e))
  {
    hide Records, Consistent, LruSpec.WellFormed, CacheOK, ReaderOK, WriterOK, LruSpec.Set, StepReader;
    match e
    case BeginRead(tid, uid, warm) =>
      ReaderBegins(w.history, uid);
    case ReaderStep(tid, now, items) =>
      if tid in w.readers { ReaderKeeps(cfg, w, w.readers[tid], now, items); }
    case BeginWrite(tid, order) =>
      WriterDone(w.history);
    case Commit(tid, fault, burned) =>
      CommitKeeps(cfg, w, tid, fault, burned);
    case CacheStore(tid, now) =>
      WriterDone(w.history);
      if tid in w.writers && w.writers[tid].ToCache? {
        WriterStores(w.history, w.writers[tid]);
        CacheAfterSet(cfg, w.history, w.cache, w.writers[tid].order, now);
      }
  }

  lemma ReaderBegins(os: seq<Order>, uid: string)
    ensures ReaderOK(os, Start(uid)) && ReaderOK(os, AskBase(uid))
  {}

  lemma WriterStores(os: seq<Order>, x: Writer)
    requires WriterOK(os, x) && x.ToCache?
    ensures FromHistory(os, x.order.UID(), x.order)
  {
    assert Assembled(Versions(os, x.order.UID()), x.order, x.k, x.k, x.k, x.k);
  }

  lemma {:induction false} RunInv(cfg: ValidConfig, events: seq<Event>)
    ensures Inv(cfg, Run(cfg, events))
  {
    if events == [] {
      EmptyRecords();
    } else {
      RunInv(cfg, events[..|events| - 1]);
      NextKeeps(cfg, Run(cfg, events[..|events| - 1]), events[|events| - 1]);
    }
  }

  // ----- The theorems -----

  /** No invented data: in every interleaving, every cached order and every order a reader was
      given is assembled from committed versions of its own uid, base row, delivery, payment
      and items each whole, from versions that never get older in the order of the selects. */
  lemma NothingInvented(cfg: ValidConfig, events: seq<Event>)
    ensures
      var w := Run(cfg, events);
      && (forall s :: s in w.cache.slots ==> FromHistory(w.history, s.id, s.order))
      && (forall tid :: tid in w.readers && w.readers[tid].Answered? && w.readers[tid].answer.Some? ==>
            FromHistory(w.history, w.readers[tid].uid, w.readers[tid].answer.value))
  {
    hide Run, FromHistory;
    RunInv(cfg, events);
    var w := Run(cfg, events);
    forall tid | tid in w.readers && w.readers[tid].Answered? && w.readers[tid].answer.Some?
      ensures FromHistory(w.history, w.readers[tid].uid, w.readers[tid].answer.value)
    {
      assert ReaderOK(w.history, w.readers[tid]);
    }
  }

  // ----- Alone, the steps are the atomic call -----

  /** A reader that runs from start to answer with nobody else between its steps. */
  function SoloRead(cfg: Config, w: World, r: Reader, now: int, items: seq<Item>, steps: nat): (World, Reader)
    decreases steps
  {
    if steps == 0 then (w, r)
    else
      var (after, next) := StepReader(cfg, w, r, now, items);
      SoloRead(cfg, after, next, now, items, steps - 1)
  }

  /** One lookup, then at most five steps at a later clock reading: the result is `GetOrder`. */
  lemma SoloReadIsGetOrder(cfg: ValidConfig, w: World, uid: string, now: int, items: seq<Item>, later: int)
    requires multiset(items) == multiset(ItemsOf(w.store.tables, uid))
    ensures
      var s := ServiceSpec.State(w.store, w.cache);
      var (first, r) := StepReader(cfg, w, Start(uid), now, items);
      var (last, end) := SoloRead(cfg, first, r, later, items, 5);
      && ServiceSpec.State(last.store, last.cache) == GetOrder(cfg, s, uid, now, items, true, later)
      && end == Answered(uid, Answer(cfg, s, uid, now, items, true))
  {
    hide LruSpec.Get, LruSpec.Set, LruSpec.Lookup, ItemsOf;
    var (w1, r1) := StepReader(cfg, w, Start(uid), now, items);
    var (w2, r2) := StepReader(cfg, w1, r1, later, items);
    var (w3, r3) := StepReader(cfg, w2, r2, later, items);
    var (w4, r4) := StepReader(cfg, w3, r3, later, items);
    var (w5, r5) := StepReader(cfg, w4, r4, later, items);
    var (w6, r6) := StepReader(cfg, w5, r5, later, items);
    SoloSteps(cfg, w1, r1, later, items);
  }

  lemma SoloSteps(cfg: Config, w: World, r: Reader, now: int, items: seq<Item>)
    ensures
      var (w1, r1) := StepReader(cfg, w, r, now, items);
      var (w2, r2) := StepReader(cfg, w1, r1, now, items);
      var (w3, r3) := StepReader(cfg, w2, r2, now, items);
      var (w4, r4) := StepReader(cfg, w3, r3, now, items);
      SoloRead(cfg, w, r, now, items, 5) == StepReader(cfg, w4, r4, now, items)
  {
    hide StepReader;
    var (w1, r1) := StepReader(cfg, w, r, now, items);
    var (w2, r2) := StepReader(cfg, w1, r1, now, items);
    var (w3, r3) := StepReader(cfg, w2, r2, now, items);
    var (w4, r4) := StepReader(cfg, w3, r3, now, items);
    assert SoloRead(cfg, w4, r4, now, items, 1) == StepReader(cfg, w4, r4, now, items);
    assert SoloRead(cfg, w3, r3, now, items, 2) == SoloRead(cfg, w4, r4, now, items, 1);
    assert SoloRead(cfg, w2, r2, now, items, 3) == SoloRead(cfg, w3, r3, now, items, 2);
  }

  /** A reader whose selects see the database at four moments holds what `GetByUID` reads there,
      whatever was committed in between. */
  lemma ReaderIsGetByUID(cfg: ValidConfig, w0: World, w1: World, w2: World, w3: World, uid: string, now: int,
                         items: seq<Item>)
    requires multiset(items) == multiset(ItemsOf(w3.store.tables, uid))
    ensures
      var at := Snapshots(w0.store.tables, w1.store.tables, w2.store.tables, w3.store.tables);
      var r1 := StepReader(cfg, w0, AskBase(uid), now, []).1;
      var r2 := StepReader(cfg, w1, r1, now, []).1;
      var r3 := StepReader(cfg, w2, r2, now, []).1;
      var r4 := StepReader(cfg, w3, r3, now, items).1;
      && (ReadAcross(at, uid) == None ==> r1 == Answered(uid, None))
      && (ReadAcross(at, uid).Some? ==>
            r4.ToStore? && Agree(r4.order, ReadAcross(at, uid).value) && r4.order.items == items)
  {
    hide ItemsOf, Newest;
  }

  /** A commit and the cache store after it are `SaveFromMessage` on a valid message. */
  lemma SoloWriteIsSave(cfg: ValidConfig, w: World, tid: nat, m: Message, fault: Fault, burned: nat, now: int)
    requires ValidMessage(m) && tid in w.writers && w.writers[tid] == ToCommit(m.order)
    ensures
      var last := Next(cfg, Next(cfg, w, Commit(tid, fault, burned)), CacheStore(tid, now));
      && ServiceSpec.State(last.store, last.cache)
         == SaveMessage(cfg, ServiceSpec.State(w.store, w.cache), m, fault, burned, now)
      && last.writers[tid] == Done
  {
    hide LruSpec.Set, Savable, Saved, ValidOrder;
  }
}
