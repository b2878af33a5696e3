/** The cache never tells a different story from the database: reading through it refines
    reading the database. */
module Coherence {
  import opened Domain
  import opened Tables
  import opened SaveHistory
  import opened ServiceSpec
  import LruSpec
  import LruExpiry
  import LruRecency
  import Pages

  /** A cached order is what the database would answer, up to the order of items and the
      payment transaction (the upsert keeps the first, the cache holds the latest). */
  ghost predicate Mirrors(t: Tables, s: LruSpec.Slot) {
    Read(t, s.id).Some? && AgreeExceptTransaction(s.order, Read(t, s.id).value)
  }

  ghost predicate Coherent(s: State) {
    forall x :: x in s.cache.slots ==> Mirrors(s.store.tables, x)
  }

  /** Row and cached order of `uid`, as far as there are any, have this payment transaction. */
  ghost predicate Carries(s: State, uid: string, tx: string) {
    && (uid in s.store.tables.payments ==> s.store.tables.payments[uid].transaction == tx)
    && (forall x :: x in s.cache.slots && x.id == uid ==> x.order.payment.transaction == tx)
  }

  ghost predicate Sound(cfg: ValidConfig, s: State) {
    LruSpec.WellFormed(cfg, s.cache) && Consistent(s.store.tables, s.store.nextID)
  }

  // ----- The cache alone -----

  /** After a `Get` every slot has the id and the order of a slot before it. */
  lemma AfterGet(cfg: ValidConfig, c: LruSpec.Cache, id: string, now: int, x: LruSpec.Slot)
    requires LruSpec.WellFormed(cfg, c) && x in LruSpec.Get(cfg, c, id, now).slots
    ensures exists y :: y in c.slots && y.id == x.id && y.order == x.order
  {
    LruRecency.StepContents(cfg, c, LruSpec.GetOp(id, now), x);
  }

  lemma AfterSet(cfg: ValidConfig, c: LruSpec.Cache, order: Order, now: int, x: LruSpec.Slot)
    requires LruSpec.WellFormed(cfg, c) && x in LruSpec.Set(cfg, c, order, now).slots
    ensures
      (x.id == order.UID() && x.order == order)
      || (x.id != order.UID() && exists y :: y in c.slots && y.id == x.id && y.order == x.order)
  {
    LruRecency.StepContents(cfg, c, LruSpec.SetOp(order, now), x);
  }

  /** Reading the cache changes no content. */
  lemma GetKeeps(cfg: ValidConfig, s: State, id: string, now: int)
    requires Sound(cfg, s) && Coherent(s)
    ensures Sound(cfg, s.(cache := LruSpec.Get(cfg, s.cache, id, now)))
    ensures Coherent(s.(cache := LruSpec.Get(cfg, s.cache, id, now)))
    ensures forall u, tx :: Carries(s, u, tx) ==> Carries(s.(cache := LruSpec.Get(cfg, s.cache, id, now)), u, tx)
  {
    LruSpec.GetKeepsWellFormed(cfg, s.cache, id, now);
    forall x | x in LruSpec.Get(cfg, s.cache, id, now).slots
      ensures exists y :: y in s.cache.slots && y.id == x.id && y.order == x.order
    {
      AfterGet(cfg, s.cache, id, now, x);
    }
  }

  /** Storing an order the database agrees with. */
  lemma SetKeeps(cfg: ValidConfig, s: State, order: Order, now: int)
    requires Sound(cfg, s) && Coherent(s)
    requires Read(s.store.tables, order.UID()).Some?
    requires AgreeExceptTransaction(order, Read(s.store.tables, order.UID()).value)
    ensures Sound(cfg, s.(cache := LruSpec.Set(cfg, s.cache, order, now)))
    ensures Coherent(s.(cache := LruSpec.Set(cfg, s.cache, order, now)))
    ensures forall u, tx :: Carries(s, u, tx) && (order.UID() == u ==> order.payment.transaction == tx) ==>
              Carries(s.(cache := LruSpec.Set(cfg, s.cache, order, now)), u, tx)
  {
    LruSpec.SetKeepsWellFormed(cfg, s.cache, order, now);
    forall x | x in LruSpec.Set(cfg, s.cache, order, now).slots
      ensures (x.id == order.UID() && x.order == order)
              || exists y :: y in s.cache.slots && y.id == x.id && y.order == x.order
    {
      AfterSet(cfg, s.cache, order, now, x);
    }
  }

  // ----- The database alone -----

  /** What the database answers for an order after a `Save` of it, and for any other order. */
  lemma ReadAfterSaved(t: Tables, o: Order, firstID: nat, u: string)
    ensures u != o.UID() ==> Read(Saved(t, o, firstID), u) == Read(t, u)
    ensures u == o.UID() ==>
              && Read(Saved(t, o, firstID), u).Some?
              && AgreeExceptTransaction(o, Read(Saved(t, o, firstID), u).value)
  {
    ItemsOfSaved(t, o, firstID, u);
  }

  lemma ApplyKeepsConsistent(s: Store, a: Attempt)
    requires Consistent(s.tables, s.nextID)
    ensures Consistent(Apply(s, a).tables, Apply(s, a).nextID)
  {
    if Commits(s, a) {
      SavedConsistent(s.tables, a.order, s.nextID);
    } else {
      ConsistentLater(s.tables, s.nextID, Apply(s, a).nextID);
    }
  }

  // ----- The calls -----

  /** The save was committed although its caller saw an error. */
  predicate LostAnswer(s: State, m: Message, fault: Fault) {
    ValidMessage(m) && fault == AckLost && Commits(s.store, Attempt(m.order, fault, 0))
  }

  /** No slot of the saved uid is out of date. */
  ghost predicate NoStaleSlot(s: State, o: Order) {
    forall x :: x in s.cache.slots && x.id == o.UID() ==> AgreeExceptTransaction(x.order, o)
  }

  /** The database after a committed save, under a cache not yet told. */
  lemma SavedUnderCache(s: State, o: Order)
    requires Coherent(s)
    ensures forall x :: x in s.cache.slots && x.id != o.UID() ==> Mirrors(Saved(s.store.tables, o, s.store.nextID), x)
    ensures Coherent(s.(store := Store(Saved(s.store.tables, o, s.store.nextID), s.store.nextID + |o.items|)))
            <==> NoStaleSlot(s, o)
  {
    var t := Saved(s.store.tables, o, s.store.nextID);
    forall x | x in s.cache.slots
      ensures x.id != o.UID() ==> Mirrors(t, x)
      ensures x.id == o.UID() ==> (Mirrors(t, x) <==> AgreeExceptTransaction(x.order, o))
    {
      ReadAfterSaved(s.store.tables, o, s.store.nextID, x.id);
    }
  }

  /** A save that stores its order: the new slot mirrors the new row, the others are untouched. */
  lemma SuccessKeeps(cfg: ValidConfig, s: State, o: Order, now: int)
    requires Sound(cfg, s) && Coherent(s) && o.UID() != ""
    ensures Coherent(State(Store(Saved(s.store.tables, o, s.store.nextID), s.store.nextID + |o.items|),
                           LruSpec.Set(cfg, s.cache, o, now)))
  {
    hide AgreeExceptTransaction;
    var t := Saved(s.store.tables, o, s.store.nextID);
    SavedUnderCache(s, o);
    ReadAfterSaved(s.store.tables, o, s.store.nextID, o.UID());
    forall x | x in LruSpec.Set(cfg, s.cache, o, now).slots ensures Mirrors(t, x) {
      AfterSet(cfg, s.cache, o, now, x);
      if x.id != o.UID() {
        var y :| y in s.cache.slots && y.id == x.id && y.order == x.order;
        assert Mirrors(t, y);
      }
    }
  }

  /** `SaveFromMessage` keeps the cache coherent, with one exception that is stated exactly: a
      committed save whose answer was lost leaves it coherent if and only if the cache held
      nothing older for that uid. */
  lemma SaveKeeps(cfg: ValidConfig, s: State, m: Message, fault: Fault, burned: nat, now: int)
    requires Sound(cfg, s) && Coherent(s)
    ensures Sound(cfg, SaveMessage(cfg, s, m, fault, burned, now))
    ensures Coherent(SaveMessage(cfg, s, m, fault, burned, now))
            <==> (LostAnswer(s, m, fault) ==> NoStaleSlot(s, m.order))
  {
    hide Savable, Saved, LruSpec.Set, LruSpec.WellFormed, Consistent, NoStaleSlot, Coherent, ValidOrder;
    if ValidMessage(m) {
      var a := Attempt(m.order, fault, burned);
      ApplyKeepsConsistent(s.store, a);
      LruSpec.SetKeepsWellFormed(cfg, s.cache, m.order, now);
      UIDPresent(m);
      if Succeeds(s.store, a) {
        SuccessKeeps(cfg, s, m.order, now);
      } else if Commits(s.store, a) {
        SavedUnderCache(s, m.order);
      } else {
        SameTables(s, Apply(s.store, a).nextID);
      }
    }
  }

  lemma UIDPresent(m: Message)
    requires ValidMessage(m)
    ensures m.order.UID() != ""
  {}

  lemma SameTables(s: State, nextID: nat)
    requires Coherent(s)
    ensures Coherent(s.(store := s.store.(nextID := nextID)))
  {}

  /** Reading an order as the database returned it. */
  lemma ReadAsAgrees(t: Tables, uid: string, items: seq<Item>)
    requires multiset(items) == multiset(ItemsOf(t, uid))
    ensures ReadAs(t, uid, items).Some? <==> Read(t, uid).Some?
    ensures Read(t, uid).Some? ==> Agree(ReadAs(t, uid, items).value, Read(t, uid).value)
  {}

  lemma ReadUID(s: State, uid: string, items: seq<Item>)
    requires Consistent(s.store.tables, s.store.nextID) && ReadAs(s.store.tables, uid, items).Some?
    ensures ReadAs(s.store.tables, uid, items).value.UID() == uid && uid != ""
    ensures forall tx :: Carries(s, uid, tx) ==>
              ReadAs(s.store.tables, uid, items).value.payment.transaction == tx
  {
    assert uid in s.store.tables.payments;
  }

  /** `GetOrder` keeps the cache coherent. */
  lemma GetOrderKeeps(cfg: ValidConfig, s: State, uid: string, now: int, items: seq<Item>, dbOK: bool, later: int)
    requires Sound(cfg, s) && Coherent(s) && multiset(items) == multiset(ItemsOf(s.store.tables, uid))
    ensures Sound(cfg, GetOrder(cfg, s, uid, now, items, dbOK, later))
    ensures Coherent(GetOrder(cfg, s, uid, now, items, dbOK, later))
    ensures forall u, tx :: Carries(s, u, tx) ==> Carries(GetOrder(cfg, s, uid, now, items, dbOK, later), u, tx)
  {
    hide Carries, LruSpec.Get, LruSpec.Set, Coherent, Sound, Consistent, ReadAcrossAs, Read;
    GetKeeps(cfg, s, uid, now);
    var seen := s.(cache := LruSpec.Get(cfg, s.cache, uid, now));
    var order := ReadAs(s.store.tables, uid, items);
    if order.Some? {
      SoundConsistent(cfg, s);
      ReadUID(s, uid, items);
      ReadAsAgrees(s.store.tables, uid, items);
      SetKeeps(cfg, seen, order.value, later);
    }
  }

  lemma SoundConsistent(cfg: ValidConfig, s: State)
    requires Sound(cfg, s)
    ensures Consistent(s.store.tables, s.store.nextID)
  {}

  /** `WarmUpCache` keeps the cache coherent, wherever it stops. */
  lemma {:induction false} WarmUpKeeps(cfg: ValidConfig, s: State, uids: seq<string>, items: seq<seq<Item>>,
                                        nows: seq<int>, done: nat)
    requires Sound(cfg, s) && Coherent(s) && Possible(s, WarmUpEvent(uids, items, nows, done))
    ensures Sound(cfg, WarmUp(cfg, s, uids, items, nows, done))
    ensures Coherent(WarmUp(cfg, s, uids, items, nows, done))
    ensures forall u, tx :: Carries(s, u, tx) ==> Carries(WarmUp(cfg, s, uids, items, nows, done), u, tx)
  {
    hide Carries, LruSpec.Set, Coherent, Sound, Consistent, ReadAs, Read;
    var orders := ReadAll(s.store.tables, uids, items);
    if done == 0 {
      assert WarmUp(cfg, s, uids, items, nows, done) == s;
    } else {
      var n := done - 1;
      var before := WarmUp(cfg, s, uids, items, nows, n);
      WarmUpKeeps(cfg, s, uids, items, nows, n);
      assert LruSpec.WarmUpOps(orders[..done], nows[..done])[..n] == LruSpec.WarmUpOps(orders[..n], nows[..n]);
      assert uids[n] in uids;
      ReadFound(s.store.tables, uids[n], items[n]);
      SoundConsistent(cfg, s);
      ReadUID(s, uids[n], items[n]);
      ReadAsAgrees(s.store.tables, uids[n], items[n]);
      SetKeeps(cfg, before, orders[n], nows[n]);
    }
  }

  lemma ReadFound(t: Tables, uid: string, items: seq<Item>)
    requires uid in t.orders
    ensures ReadAs(t, uid, items).Some?
  {}

  lemma SaveCarries(cfg: ValidConfig, s: State, m: Message, fault: Fault, burned: nat, now: int, uid: string,
                    tx: string)
    requires Sound(cfg, s) && Carries(s, uid, tx)
    requires
      ValidMessage(m) && m.order.UID() == uid && Commits(s.store, Attempt(m.order, fault, burned)) ==>
        m.order.payment.transaction == tx
    ensures Carries(SaveMessage(cfg, s, m, fault, burned, now), uid, tx)
  {
    if ValidMessage(m) && Commits(s.store, Attempt(m.order, fault, burned)) {
      forall x | x in LruSpec.Set(cfg, s.cache, m.order, now).slots && x.id == uid
        ensures x.order.payment.transaction == tx
      {
        AfterSet(cfg, s.cache, m.order, now, x);
      }
    }
  }

  // ----- Whole runs -----

  /** Where an answer of `GetOrder` comes from: a slot of the uid that has not expired, or, when there
      is none, the rows that the four queries find. */
  lemma AnswerComesFrom(cfg: ValidConfig, c: LruSpec.Cache, uid: string, now: int,
                        at: Snapshots, items: seq<Item>, dbOK: bool)
    requires LruSpec.WellFormed(cfg, c)
    ensures
      var answer := AnswerAcross(cfg, c, uid, now, at, items, dbOK);
      && (forall s :: s in c.slots && s.id == uid && (cfg.ttl <= 0 || now <= s.expiresAt) ==> answer == Some(s.order))
      && ((forall s :: s in c.slots && s.id == uid ==> 0 < cfg.ttl && s.expiresAt < now) ==>
            && (answer.Some? <==> dbOK && uid in at.base.orders)
            && (answer.Some? ==>
                  && answer.value.base == at.base.orders[uid]
                  && (uid in at.delivery.deliveries ==> answer.value.delivery == at.delivery.deliveries[uid])
                  && (uid in at.payment.payments ==> answer.value.payment == at.payment.payments[uid])
                  && answer.value.items == items))
  {
    var i := LruSpec.Find(c.slots, uid);
    if i < |c.slots| {
      assert c.slots[i] in c.slots;
    }
  }

  /** No save of the run commits and loses its answer. */
  ghost predicate NoLostAnswers(states: seq<State>, events: seq<Event>)
    requires |states| == |events| + 1
  {
    forall i :: 0 <= i < |events| && events[i].SaveEvent? ==> !LostAnswer(states[i], events[i].m, events[i].fault)
  }

  lemma StepKeeps(cfg: ValidConfig, s: State, e: Event)
    requires Sound(cfg, s) && Coherent(s) && Possible(s, e)
    requires e.SaveEvent? ==> !LostAnswer(s, e.m, e.fault)
    ensures Sound(cfg, Next(cfg, s, e)) && Coherent(Next(cfg, s, e))
  {
    hide Sound, Coherent;
    match e
    case SaveEvent(m, fault, burned, now) => SaveKeeps(cfg, s, m, fault, burned, now);
    case GetEvent(uid, now, items, dbOK, later) => GetOrderKeeps(cfg, s, uid, now, items, dbOK, later);
    case WarmUpEvent(uids, items, nows, done) => WarmUpKeeps(cfg, s, uids, items, nows, done);
  }

  /** In every run in which a `Save` error means that nothing was committed, every cached order
      mirrors the database in every state. */
  lemma {:induction false} RunCoherent(cfg: ValidConfig, states: seq<State>, events: seq<Event>, n: nat)
    requires IsRun(cfg, states, events) && NoLostAnswers(states, events) && n <= |events|
    ensures Sound(cfg, states[n]) && Coherent(states[n])
  {
    if n == 0 {
      EmptyRecords();
    } else {
      RunCoherent(cfg, states, events, n - 1);
      StepKeeps(cfg, states[n - 1], events[n - 1]);
    }
  }

  /** The orders of `uid` committed in the first `n` steps have this payment transaction. */
  ghost predicate OneTransaction(states: seq<State>, events: seq<Event>, n: nat, uid: string, tx: string)
    requires |states| == |events| + 1 && n <= |events|
  {
    forall i :: 0 <= i < n && SavesIn(states[i], events[i], uid) ==> events[i].m.order.payment.transaction == tx
  }

  /** Event `e` commits an order of `uid`. */
  predicate SavesIn(s: State, e: Event, uid: string) {
    && e.SaveEvent? && ValidMessage(e.m) && e.m.order.UID() == uid
    && Commits(s.store, Attempt(e.m.order, e.fault, e.burned))
  }

  lemma {:induction false} RunCarries(cfg: ValidConfig, states: seq<State>, events: seq<Event>, n: nat,
                                      uid: string, tx: string)
    requires IsRun(cfg, states, events) && NoLostAnswers(states, events) && n <= |events|
    requires OneTransaction(states, events, n, uid, tx)
    ensures Carries(states[n], uid, tx)
  {
    hide Sound, Coherent, SaveMessage, GetOrder, WarmUp, Savable, Carries;
    if n == 0 {
      NothingCarried(uid, tx);
    } else {
      var s, e := states[n - 1], events[n - 1];
      RunCarries(cfg, states, events, n - 1, uid, tx);
      RunCoherent(cfg, states, events, n - 1);
      match e
      case SaveEvent(m, fault, burned, now) => SaveCarries(cfg, s, m, fault, burned, now, uid, tx);
      case GetEvent(u, now, items, dbOK, later) => GetOrderKeeps(cfg, s, u, now, items, dbOK, later);
      case WarmUpEvent(uids, items, nows, done) => WarmUpKeeps(cfg, s, uids, items, nows, done);
    }
  }

  lemma NothingCarried(uid: string, tx: string)
    ensures Carries(EMPTY_STATE, uid, tx)
  {}

  lemma AnswerAgrees(cfg: ValidConfig, s: State, uid: string, now: int, items: seq<Item>, dbOK: bool)
    requires Coherent(s) && multiset(items) == multiset(ItemsOf(s.store.tables, uid))
    ensures
      var row := Read(s.store.tables, uid);
      var answer := Answer(cfg, s, uid, now, items, dbOK);
      && (dbOK ==> (answer.Some? <==> row.Some?))
      && (answer.Some? ==> row.Some? && AgreeExceptTransaction(answer.value, row.value))
      && (forall tx :: answer.Some? && uid in s.store.tables.payments && Carries(s, uid, tx) ==>
            Agree(answer.value, row.value))
  {
    hide ItemsOf, ReadAcross, ReadAcrossAs;
    ReadAsAgrees(s.store.tables, uid, items);
    var i := LruSpec.Find(s.cache.slots, uid);
    if i < |s.cache.slots| {
      assert s.cache.slots[i] in s.cache.slots;
      assert Mirrors(s.store.tables, s.cache.slots[i]);
    }
    RowTransaction(s.store.tables, uid);
  }

  lemma RowTransaction(t: Tables, uid: string)
    ensures Read(t, uid).Some? && uid in t.payments ==> Read(t, uid).value.payment == t.payments[uid]
  {}

  lemma HasPayment(cfg: ValidConfig, s: State, uid: string)
    requires Sound(cfg, s) && Read(s.store.tables, uid).Some?
    ensures uid in s.store.tables.payments
  {}

  /** Reading through the cache refines reading the database: at every point of such a run
      `GetOrder` answers what `GetByUID` would, up to the order of items and the payment
      transaction; if the orders of that uid committed so far share one, up to the order of
      items. */
  lemma ReadThrough(cfg: ValidConfig, states: seq<State>, events: seq<Event>, n: nat,
                    uid: string, now: int, items: seq<Item>, dbOK: bool, tx: string)
    requires IsRun(cfg, states, events) && NoLostAnswers(states, events) && n <= |events|
    requires multiset(items) == multiset(ItemsOf(states[n].store.tables, uid))
    ensures
      var t := states[n].store.tables;
      var answer := Answer(cfg, states[n], uid, now, items, dbOK);
      && (dbOK ==> (answer.Some? <==> Read(t, uid).Some?))
      && (answer.Some? ==> Read(t, uid).Some? && AgreeExceptTransaction(answer.value, Read(t, uid).value))
      && (answer.Some? && OneTransaction(states, events, n, uid, tx) ==> Agree(answer.value, Read(t, uid).value))
  {
    hide Sound, Coherent, Carries, Answer, Read, Agree, AgreeExceptTransaction, ItemsOf, Next;
    RunCoherent(cfg, states, events, n);
    AnswerAgrees(cfg, states[n], uid, now, items, dbOK);
    if OneTransaction(states, events, n, uid, tx) { RunCarries(cfg, states, events, n, uid, tx); }
    if Read(states[n].store.tables, uid).Some? { HasPayment(cfg, states[n], uid); }
  }

  // ----- What the calls leave in the cache -----

  /** A successful `SaveFromMessage` makes its order the answer to the next `GetOrder`, with no
      database read, for as long as the TTL lasts. */
  lemma SavedIsHit(cfg: ValidConfig, s: State, m: Message, fault: Fault, burned: nat, now: int, t: int)
    requires Sound(cfg, s) && SaveOutcome(s.store, m, fault) == Success
    ensures
      var after := SaveMessage(cfg, s, m, fault, burned, now);
      && Read(after.store.tables, m.order.UID()).Some?
      && LruSpec.Lookup(cfg, after.cache, m.order.UID(), t)
         == if cfg.ttl <= 0 || t <= now + cfg.ttl then Some(m.order) else None
  {
    UIDPresent(m);
    ReadAfterSaved(s.store.tables, m.order, s.store.nextID, m.order.UID());
    LruExpiry.TouchExtends(cfg, s.cache, LruSpec.SetOp(m.order, now), t);
  }

  /** An answer of `GetOrder`, from the cache or from the database, is a hit afterwards, for as
      long as the TTL counted from the clock reading of the call that stored or renewed it. */
  lemma AnswerIsHit(cfg: ValidConfig, s: State, uid: string, now: int, items: seq<Item>, dbOK: bool, later: int, t: int)
    requires Sound(cfg, s) && Answer(cfg, s, uid, now, items, dbOK).Some?
    ensures
      var touched := if LruSpec.Lookup(cfg, s.cache, uid, now).Some? then now else later;
      LruSpec.Lookup(cfg, GetOrder(cfg, s, uid, now, items, dbOK, later).cache, uid, t)
      == if cfg.ttl <= 0 || t <= touched + cfg.ttl then Answer(cfg, s, uid, now, items, dbOK) else None
  {
    if LruSpec.Lookup(cfg, s.cache, uid, now).Some? {
      LruExpiry.TouchExtends(cfg, s.cache, LruSpec.GetOp(uid, now), t);
    } else {
      ReadUID(s, uid, items);
      var seen := LruSpec.Get(cfg, s.cache, uid, now);
      LruSpec.GetKeepsWellFormed(cfg, s.cache, uid, now);
      LruExpiry.TouchExtends(cfg, seen, LruSpec.SetOp(ReadAs(s.store.tables, uid, items).value, later), t);
    }
  }

  // ----- Where cache and database differ -----

  /** Two savable orders of one uid, as the messages bring them. */
  ghost predicate TwoSaves(a: Order, b: Order) {
    && a.UID() == b.UID()
    && ValidOrder(a, true) && ValidOrder(b, true)
    && Savable(EMPTY_TABLES, a) && Savable(EMPTY_TABLES, b)
  }

  /** `a` is saved, then `b`. */
  function TwoSaveEvents(a: Order, b: Order, fault: Fault, now: int): seq<Event> {
    [SaveEvent(Decoded(a, true), NoFault, 0, now), SaveEvent(Decoded(b, true), fault, 0, now)]
  }

  function TwoSaveStates(cfg: Config, a: Order, b: Order, fault: Fault, now: int): seq<State> {
    var s := SaveMessage(cfg, EMPTY_STATE, Decoded(a, true), NoFault, 0, now);
    [EMPTY_STATE, s, SaveMessage(cfg, s, Decoded(b, true), fault, 0, now)]
  }

  lemma TwoSavesRun(cfg: ValidConfig, a: Order, b: Order, fault: Fault, now: int)
    requires TwoSaves(a, b)
    ensures IsRun(cfg, TwoSaveStates(cfg, a, b, fault, now), TwoSaveEvents(a, b, fault, now))
    ensures
      var s := TwoSaveStates(cfg, a, b, fault, now)[1];
      && Sound(cfg, s) && Coherent(s) && s.cache.slots == [LruSpec.Slot(a.UID(), a, LruSpec.ExpiryFrom(cfg.ttl, now))]
      && s.store.tables == Saved(EMPTY_TABLES, a, 0) && Savable(s.store.tables, b)
  {
    hide Coherent, Sound, LruSpec.Set, Saved;
    EmptyRecords();
    NothingCached(cfg);
    SaveKeeps(cfg, EMPTY_STATE, Decoded(a, true), NoFault, 0, now);
    FirstSlot(cfg, a, now);
    StillSavable(a, b);
  }

  lemma NothingCached(cfg: ValidConfig)
    ensures Sound(cfg, EMPTY_STATE) && Coherent(EMPTY_STATE)
  {
    EmptyRecords();
  }

  lemma FirstSlot(cfg: ValidConfig, o: Order, now: int)
    requires o.UID() != ""
    ensures LruSpec.Set(cfg, LruSpec.EMPTY_CACHE, o, now).slots
            == [LruSpec.Slot(o.UID(), o, LruSpec.ExpiryFrom(cfg.ttl, now))]
  {}

  lemma StillSavable(a: Order, b: Order)
    requires TwoSaves(a, b)
    ensures Savable(Saved(EMPTY_TABLES, a, 0), b)
  {}

  /** A save that is committed and loses its answer leaves the older order in the cache. */
  lemma LostAnswerLeavesStale(cfg: ValidConfig, a: Order, b: Order, now: int)
    requires TwoSaves(a, b) && !AgreeExceptTransaction(a, b)
    ensures
      var states := TwoSaveStates(cfg, a, b, AckLost, now);
      IsRun(cfg, states, TwoSaveEvents(a, b, AckLost, now)) && Coherent(states[1]) && !Coherent(states[2])
  {
    hide IsRun, Coherent, Sound, SaveMessage, Savable;
    TwoSavesRun(cfg, a, b, AckLost, now);
    var s := TwoSaveStates(cfg, a, b, AckLost, now)[1];
    SaveKeeps(cfg, s, Decoded(b, true), AckLost, 0, now);
    assert s.cache.slots[0] in s.cache.slots;
  }

  /** After a successful message the cached order is the row up to the order of its items, its
      transaction included, if and only if the row had this transaction before, or none. */
  lemma SavedAgreesIff(cfg: ValidConfig, s: State, m: Message, fault: Fault, burned: nat, now: int)
    requires Sound(cfg, s) && SaveOutcome(s.store, m, fault) == Success
    ensures
      var uid := m.order.UID();
      var after := SaveMessage(cfg, s, m, fault, burned, now);
      && LruSpec.Lookup(cfg, after.cache, uid, now) == Some(m.order) && Read(after.store.tables, uid).Some?
      && (Agree(m.order, Read(after.store.tables, uid).value)
          <==> (uid in s.store.tables.payments ==>
                  s.store.tables.payments[uid].transaction == m.order.payment.transaction))
  {
    hide LruSpec.Lookup, LruSpec.Set;
    SavedIsHit(cfg, s, m, fault, burned, now, now);
    ReadAfterSaved(s.store.tables, m.order, s.store.nextID, m.order.UID());
  }

  /** Two saves that bring different transactions: the cache answers the second one, the database
      keeps the first, and once the entry has expired `GetOrder` answers and caches the first. */
  lemma TransactionFlips(cfg: ValidConfig, a: Order, b: Order, now: int, later: int)
    requires TwoSaves(a, b) && a.payment.transaction != b.payment.transaction
    ensures
      var states := TwoSaveStates(cfg, a, b, NoFault, now);
      var s, uid := states[2], a.UID();
      && IsRun(cfg, states, TwoSaveEvents(a, b, NoFault, now))
      && LruSpec.Lookup(cfg, s.cache, uid, now) == Some(b)
      && Read(s.store.tables, uid) == Some(b.(payment := b.payment.(transaction := a.payment.transaction)))
      && (0 < cfg.ttl && now + cfg.ttl < later ==>
            var after := GetOrder(cfg, s, uid, later, b.items, true, later);
            && Answer(cfg, s, uid, later, b.items, true) == Read(s.store.tables, uid)
            && LruSpec.Lookup(cfg, after.cache, uid, later) == Read(s.store.tables, uid))
  {
    hide IsRun, LruSpec.Set, LruSpec.Get, LruSpec.Lookup;
    TwoSavesRun(cfg, a, b, NoFault, now);
    var states := TwoSaveStates(cfg, a, b, NoFault, now);
    SavedIsHit(cfg, states[1], Decoded(b, true), NoFault, 0, now, now);
    SavedIsHit(cfg, states[1], Decoded(b, true), NoFault, 0, now, later);
    SaveKeeps(cfg, states[1], Decoded(b, true), NoFault, 0, now);
    ItemsOfSaved(states[1].store.tables, b, states[1].store.nextID, b.UID());
    if 0 < cfg.ttl && now + cfg.ttl < later {
      AnswerIsHit(cfg, states[2], a.UID(), later, b.items, true, later, later);
    }
  }

  // ----- Warm-up -----

  /** Warming a new cache from `LastN(n)`: each order read is a hit afterwards if and only if it
      is among the last `capacity` of the list and was stored no longer than the TTL ago. So
      with n <= capacity they all are for as long as the TTL, and with more the newest ones are
      not. A hit is the order as the database has it. */
  lemma WarmUpMakesHits(cfg: ValidConfig, s: State, n: nat, uids: seq<string>, items: seq<seq<Item>>,
                        nows: seq<int>, i: nat, now: int)
    requires s.cache == LruSpec.EMPTY_CACHE && Consistent(s.store.tables, s.store.nextID)
    requires Pages.LastUIDs(s.store.tables, n, uids) && i < |uids|
    requires Possible(s, WarmUpEvent(uids, items, nows, |uids|))
    requires 0 < cfg.ttl ==> LruRecency.Nondecreasing(nows) && nows[|nows| - 1] <= now
    ensures
      var hit := LruSpec.Lookup(cfg, WarmUp(cfg, s, uids, items, nows, |uids|).cache, uids[i], now);
      var live := LruRecency.StillLive(cfg.ttl, nows[i], now);
      && (hit.Some? <==> |uids| - cfg.capacity <= i && live)
      && (n <= cfg.capacity && live ==> hit.Some?)
      && (hit.Some? ==>
            Read(s.store.tables, uids[i]).Some? && Agree(hit.value, Read(s.store.tables, uids[i]).value))
  {
    hide LruSpec.Run, LruSpec.Lookup, LruSpec.WarmUpOps, Pages.LastUIDs, Consistent, Agree, Read, ReadAs;
    hide LruRecency.DistinctOrders, LruRecency.Nondecreasing, LruRecency.StillLive;
    var orders := ReadAll(s.store.tables, uids, items);
    assert orders[..|uids|] == orders && nows[..|uids|] == nows;
    LastUIDsCount(s.store.tables, n, uids);
    ReadAllDistinct(s, n, uids, items);
    LruRecency.WarmUpHits(cfg, orders, nows, i, now);
    assert uids[i] in uids;
    ReadFound(s.store.tables, uids[i], items[i]);
    ReadUID(s, uids[i], items[i]);
    ReadAsAgrees(s.store.tables, uids[i], items[i]);
  }

  lemma LastUIDsCount(t: Tables, n: nat, uids: seq<string>)
    requires Pages.LastUIDs(t, n, uids)
    ensures |uids| <= n
  {}

  lemma ReadAllDistinct(s: State, n: nat, uids: seq<string>, items: seq<seq<Item>>)
    requires Consistent(s.store.tables, s.store.nextID) && Pages.LastUIDs(s.store.tables, n, uids)
    requires |items| == |uids| && forall u :: u in uids ==> u in s.store.tables.orders
    ensures LruRecency.DistinctOrders(ReadAll(s.store.tables, uids, items))
  {
    hide ReadAs, Read, Consistent;
    var orders := ReadAll(s.store.tables, uids, items);
    forall j | 0 <= j < |uids| ensures orders[j].UID() == uids[j] && uids[j] != "" {
      assert uids[j] in uids;
      ReadFound(s.store.tables, uids[j], items[j]);
      ReadUID(s, uids[j], items[j]);
    }
  }

  /** The rows of the orders read. */
  lemma ReadRows(t: Tables, uids: seq<string>, items: seq<seq<Item>>)
    requires (uids != [] ==> Keyed(t)) && |items| == |uids| && forall u :: u in uids ==> u in t.orders
    ensures
      var orders := ReadAll(t, uids, items);
      |orders| == |uids| && forall j :: 0 <= j < |uids| ==>
        uids[j] in t.orders && orders[j].base == t.orders[uids[j]] && orders[j].UID() == uids[j] && uids[j] != ""
  {
    assert forall j :: 0 <= j < |uids| ==> uids[j] in uids;
  }

  /** The ids of the list are those of the last `count` uids. */
  lemma WarmedIDs(ttl: int, slots: seq<LruSpec.Slot>, orders: seq<Order>, uids: seq<string>, nows: seq<int>)
    requires |nows| == |orders| == |uids| && forall j :: 0 <= j < |uids| ==> orders[j].UID() == uids[j]
    requires LruRecency.Backwards(ttl, slots, orders, nows)
    ensures |slots| <= |uids|
    ensures forall i :: |uids| - |slots| <= i < |uids| ==> uids[i] in LruSpec.Ids(slots)
    ensures forall x :: x in slots ==>
              exists i :: |uids| - |slots| <= i < |uids| && x.id == uids[i] && x.order == orders[i]
  {
    var n := |uids|;
    forall i | n - |slots| <= i < n ensures uids[i] in LruSpec.Ids(slots) {
      assert slots[n - 1 - i] in slots && slots[n - 1 - i].id == uids[i];
    }
    forall x | x in slots ensures exists i :: n - |slots| <= i < n && x.id == uids[i] && x.order == orders[i] {
      var j :| 0 <= j < |slots| && slots[j] == x;
      assert x.id == uids[n - 1 - j] && x.order == orders[n - 1 - j];
    }
  }

  /** How many of the uids are cached if none expires meanwhile and the capacity suffices. */
  lemma AllWarmed(cfg: ValidConfig, count: nat, nows: seq<int>)
    requires LruRecency.HoldsLast(cfg, count, nows) && count <= |nows| <= cfg.capacity
    requires 0 < cfg.ttl && nows != [] ==> nows[|nows| - 1] <= nows[0] + cfg.ttl
    ensures count == |nows|
  {
    if nows != [] {
      assert LruRecency.StillLive(cfg.ttl, nows[0], nows[|nows| - 1]);
    }
  }

  /** The list holds rows of the tables. If the capacity holds all the uids and none expires
      meanwhile, no order that is not listed is newer than a listed one; otherwise those of the
      uids that are not listed are the newest. */
  ghost predicate HoldsNewest(cfg: Config, t: Tables, n: nat, uids: seq<string>, nows: seq<int>,
                              slots: seq<LruSpec.Slot>)
  {
    var allLive := 0 < cfg.ttl && nows != [] ==> nows[|nows| - 1] <= nows[0] + cfg.ttl;
    && (forall x :: x in slots ==> x.id in t.orders && x.order.base == t.orders[x.id])
    && (|uids| <= cfg.capacity && allLive ==>
          && |slots| == (if n <= |t.orders| then n else |t.orders|)
          && (forall u, x :: u in t.orders && u !in LruSpec.Ids(slots) && x in slots ==>
                t.orders[u].dateCreated <= x.order.base.dateCreated))
    && (forall u, x :: u in uids && u in t.orders && u !in LruSpec.Ids(slots) && x in slots ==>
          x.order.base.dateCreated <= t.orders[u].dateCreated)
  }

  /** What warming a new cache from `LastN(n)` leaves. */
  lemma WarmedAreNewest(cfg: ValidConfig, t: Tables, n: nat, uids: seq<string>, items: seq<seq<Item>>, nows: seq<int>)
    requires (uids != [] ==> Keyed(t)) && Pages.LastUIDs(t, n, uids) && |items| == |uids| == |nows|
    requires forall u :: u in uids ==> u in t.orders
    requires 0 < cfg.ttl ==> forall i, j :: 0 <= i < j < |nows| ==> nows[i] <= nows[j]
    ensures
      var warmed := LruSpec.Run(cfg, LruSpec.EMPTY_CACHE, LruSpec.WarmUpOps(ReadAll(t, uids, items), nows));
      HoldsNewest(cfg, t, n, uids, nows, warmed.slots)
  {
    hide LruSpec.Run, LruSpec.WarmUpOps, LruSpec.Ids, LruRecency.HoldsLast, LruRecency.Backwards, Keyed, ReadAll;
    var orders := ReadAll(t, uids, items);
    ReadRows(t, uids, items);
    LruRecency.WarmUpContents(cfg, orders, nows);
    var slots := LruSpec.Run(cfg, LruSpec.EMPTY_CACHE, LruSpec.WarmUpOps(orders, nows)).slots;
    WarmedIDs(cfg.ttl, slots, orders, uids, nows);
    if |uids| <= cfg.capacity && (0 < cfg.ttl && nows != [] ==> nows[|nows| - 1] <= nows[0] + cfg.ttl) {
      AllWarmed(cfg, |slots|, nows);
    }
  }
}
