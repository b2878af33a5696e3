/** When reads and saves that interleave leave the cache telling what the database tells: the
    exact condition on the versions read, a schedule under which it always holds, and a run of
    the program in which it fails. */
module Freshness {
  import opened Domain
  import opened Tables
  import opened SaveHistory
  import opened Interleaving
  import LruSpec
  import ServiceSpec
  import Coherence

  type Config = LruSpec.Config
  type ValidConfig = LruSpec.ValidConfig

  /** The version each part of an order was read from, in the order of the selects. */
  datatype Origin = Origin(b: nat, d: nat, p: nat, i: nat)

  ghost predicate AssembledFrom(vs: seq<Order>, order: Order, o: Origin) {
    Assembled(vs, order, o.b, o.d, o.p, o.i)
  }

  /** In each part the newest version says what the version it was read from said. */
  ghost predicate Current(vs: seq<Order>, o: Origin)
    requires o.b <= o.d <= o.p <= o.i < |vs|
  {
    var newest := vs[|vs| - 1];
    && vs[o.b].base == newest.base
    && vs[o.d].delivery == newest.delivery
    && vs[o.p].payment.(transaction := "") == newest.payment.(transaction := "")
    && multiset(vs[o.i].items) == multiset(newest.items)
  }

  /** No two versions have the same row in table "orders". */
  ghost predicate DistinctBases(vs: seq<Order>) {
    forall j, k :: 0 <= j < k < |vs| ==> vs[j].base != vs[k].base
  }

  // ----- Exactly when what was read is what the database says -----

  lemma ReaderAt(cfg: ValidConfig, w: World, tid: nat)
    requires Inv(cfg, w) && tid in w.readers
    ensures ReaderOK(w.history, w.readers[tid])
  {}

  lemma AgreesIff(w: World, uid: string, order: Order, o: Origin)
    requires Records(w.store.tables, w.history) && AssembledFrom(Versions(w.history, uid), order, o)
    ensures
      var vs, row := Versions(w.history, uid), Read(w.store.tables, uid);
      && row.Some?
      && (AgreeExceptTransaction(order, row.value) <==> Current(vs, o))
      && (o.b == |vs| - 1 ==> Current(vs, o))
      && (DistinctBases(vs) && Current(vs, o) ==> o.b == |vs| - 1)
  {
    hide Records, Versions, ItemsOf;
    TablesAreNewest(w, uid);
  }

  /** The order a reader is about to store is what the database says now if and only if no part
      it read has changed since; when every save changes the base row, if and only if no save
      was committed since its first select. */
  lemma HeldIsCurrentIff(cfg: ValidConfig, events: seq<Event>, tid: nat)
    requires tid in Run(cfg, events).readers && Run(cfg, events).readers[tid].ToStore?
    ensures
      var w := Run(cfg, events);
      var r := w.readers[tid];
      var vs, row := Versions(w.history, r.uid), Read(w.store.tables, r.uid);
      && r.b <= r.d <= r.p <= r.i < |vs| && row.Some?
      && (AgreeExceptTransaction(r.order, row.value) <==> Current(vs, Origin(r.b, r.d, r.p, r.i)))
      && (DistinctBases(vs) ==> (AgreeExceptTransaction(r.order, row.value) <==> r.b == Newest(w, r.uid)))
  {
    hide Run, Inv, Records, Consistent, LruSpec.WellFormed, CacheOK, AgreeExceptTransaction, Current, DistinctBases;
    RunInv(cfg, events);
    var w := Run(cfg, events);
    InvFacts(cfg, w);
    ReaderAt(cfg, w, tid);
    var r := w.readers[tid];
    AgreesIff(w, r.uid, r.order, Origin(r.b, r.d, r.p, r.i));
  }

  // ----- Exactly when a cached order is what the database says -----

  /** Where the order comes from that event `e` stores under `uid`, if it stores one. */
  function StoredBy(w: World, e: Event, uid: string): Option<Origin> {
    match e
    case ReaderStep(tid, _, _) =>
      if tid in w.readers && w.readers[tid].ToStore? && w.readers[tid].uid == uid
      then Some(Origin(w.readers[tid].b, w.readers[tid].d, w.readers[tid].p, w.readers[tid].i)) else None
    case CacheStore(tid, _) =>
      if tid in w.writers && w.writers[tid].ToCache? && w.writers[tid].order.UID() == uid
      then Some(Origin(w.writers[tid].k, w.writers[tid].k, w.writers[tid].k, w.writers[tid].k)) else None
    case _ => None
  }

  /** The same of the latest event that stored an order under `uid`. */
  function LastStored(cfg: Config, events: seq<Event>, uid: string): Option<Origin> {
    if events == [] then None
    else
      var before := events[..|events| - 1];
      var stored := StoredBy(Run(cfg, before), events[|events| - 1], uid);
      if stored.Some? then stored else LastStored(cfg, before, uid)
  }

  ghost predicate Traced(cfg: Config, events: seq<Event>) {
    var w := Run(cfg, events);
    forall s :: s in w.cache.slots ==>
      var o := LastStored(cfg, events, s.id);
      o.Some? && AssembledFrom(Versions(w.history, s.id), s.order, o.value)
  }

  /** A slot after an event was there before or is what the event stored. */
  lemma SlotAfter(cfg: ValidConfig, w: World, e: Event, s: LruSpec.Slot)
    requires Inv(cfg, w) && s in Interleaving.Next(cfg, w, e).cache.slots
    ensures
      var stored := StoredBy(w, e, s.id);
      if stored.Some? then AssembledFrom(Versions(w.history, s.id), s.order, stored.value)
      else exists y :: y in w.cache.slots && y.id == s.id && y.order == s.order
  {
    hide Records, Consistent, LruSpec.WellFormed, CacheOK, ReaderOK, WriterOK, LruSpec.Get, LruSpec.Set;
    hide Versions, Assembled;
    match e
    case ReaderStep(tid, now, items) =>
      if tid in w.readers {
        match w.readers[tid] {
          case Start(uid) => Coherence.AfterGet(cfg, w.cache, uid, now, s);
          case ToStore(uid, order, b, d, p, i) =>
            ReaderHolds(w.history, w.readers[tid]);
            Coherence.AfterSet(cfg, w.cache, order, now, s);
          case _ =>
        }
      }
    case CacheStore(tid, now) =>
      if tid in w.writers && w.writers[tid].ToCache? {
        WriterHolds(w.history, w.writers[tid]);
        Coherence.AfterSet(cfg, w.cache, w.writers[tid].order, now, s);
      }
    case _ =>
  }

  lemma ReaderHolds(os: seq<Order>, r: Reader)
    requires ReaderOK(os, r) && r.ToStore?
    ensures r.order.UID() == r.uid && AssembledFrom(Versions(os, r.uid), r.order, Origin(r.b, r.d, r.p, r.i))
  {}

  lemma WriterHolds(os: seq<Order>, x: Writer)
    requires WriterOK(os, x) && x.ToCache?
    ensures AssembledFrom(Versions(os, x.order.UID()), x.order, Origin(x.k, x.k, x.k, x.k))
  {}

  /** What an event does to the history: one more order, or nothing. */
  lemma HistoryAfter(cfg: ValidConfig, w: World, e: Event, uid: string, order: Order, o: Origin)
    requires AssembledFrom(Versions(w.history, uid), order, o)
    ensures AssembledFrom(Versions(Interleaving.Next(cfg, w, e).history, uid), order, o)
  {
    hide Versions, LruSpec.Get, LruSpec.Set, Savable, Saved;
    if e.Commit? && e.tid in w.writers && w.writers[e.tid].ToCommit? {
      VersionsOne(w.history, w.writers[e.tid].order, uid);
    }
  }

  lemma {:induction false} RunTraced(cfg: ValidConfig, events: seq<Event>)
    ensures Traced(cfg, events)
  {
    if events == [] {
    } else {
      var before, e := events[..|events| - 1], events[|events| - 1];
      var w := Run(cfg, before);
      RunTraced(cfg, before);
      RunInv(cfg, before);
      forall s | s in Run(cfg, events).cache.slots
        ensures
          var o := LastStored(cfg, events, s.id);
          o.Some? && AssembledFrom(Versions(Run(cfg, events).history, s.id), s.order, o.value)
      {
        hide Interleaving.Next, Inv, StoredBy, AssembledFrom, Versions;
        SlotAfter(cfg, w, e, s);
        HistoryAfter(cfg, w, e, s.id, s.order, LastStored(cfg, events, s.id).value);
      }
    }
  }

  /** In every interleaving: a cached order is what the database says if and only if none of the
      parts it was stored with has changed since they were read. When every save changes the
      base row, that is: no save of the uid was committed after the first select of the reader,
      or after the commit of the writer, that stored it last. */
  lemma CachedIsCurrentIff(cfg: ValidConfig, events: seq<Event>, s: LruSpec.Slot)
    requires s in Run(cfg, events).cache.slots
    ensures
      var w := Run(cfg, events);
      var vs, last := Versions(w.history, s.id), LastStored(cfg, events, s.id);
      && last.Some?
      && var o := last.value;
      && o.b <= o.d <= o.p <= o.i < |vs|
      && (Coherence.Mirrors(w.store.tables, s) <==> Current(vs, o))
      && (DistinctBases(vs) ==> (Coherence.Mirrors(w.store.tables, s) <==> o.b == Newest(w, s.id)))
  {
    hide Run, Inv, Records, Consistent, LruSpec.WellFormed, CacheOK, AgreeExceptTransaction, Current, DistinctBases;
    hide LastStored;
    RunInv(cfg, events);
    RunTraced(cfg, events);
    var w := Run(cfg, events);
    InvFacts(cfg, w);
    AgreesIff(w, s.id, s.order, LastStored(cfg, events, s.id).value);
  }

  /** So the whole cache mirrors the database if and only if each cached order was last stored with
      parts that have not changed since they were read. */
  lemma CoherentIff(cfg: ValidConfig, events: seq<Event>)
    ensures
      var w := Run(cfg, events);
      Coherence.Coherent(ServiceSpec.State(w.store, w.cache))
      <==> forall s :: s in w.cache.slots ==> LastIsCurrent(cfg, events, s.id)
  {
    hide Run, LastStored, Coherence.Mirrors, Versions, Current;
    var w := Run(cfg, events);
    forall s | s in w.cache.slots
      ensures Coherence.Mirrors(w.store.tables, s) <==> LastIsCurrent(cfg, events, s.id)
    {
      CachedIsCurrentIff(cfg, events, s);
    }
  }

  /** The parts last stored under `uid` have not changed since they were read. */
  ghost predicate LastIsCurrent(cfg: Config, events: seq<Event>, uid: string) {
    var vs, last := Versions(Run(cfg, events).history, uid), LastStored(cfg, events, uid);
    && last.Some?
    && last.value.b <= last.value.d <= last.value.p <= last.value.i < |vs|
    && Current(vs, last.value)
  }

  /** When every save changes the base row, that is: each cached order was last stored from a first
      select, or a commit, after which no save of its uid was committed. */
  lemma CoherentWhenBasesDiffer(cfg: ValidConfig, events: seq<Event>)
    requires forall u :: DistinctBases(Versions(Run(cfg, events).history, u))
    ensures
      var w := Run(cfg, events);
      Coherence.Coherent(ServiceSpec.State(w.store, w.cache))
      <==> forall s :: s in w.cache.slots ==>
             LastStored(cfg, events, s.id).Some? && LastStored(cfg, events, s.id).value.b == Newest(w, s.id)
  {
    hide Run, DistinctBases, LastStored, Coherence.Mirrors, Versions, Newest;
    var w := Run(cfg, events);
    forall s | s in w.cache.slots
      ensures
        Coherence.Mirrors(w.store.tables, s)
        <==> LastStored(cfg, events, s.id).Some? && LastStored(cfg, events, s.id).value.b == Newest(w, s.id)
    {
      CachedIsCurrentIff(cfg, events, s);
    }
  }

  // ----- A schedule under which the cache is always right -----

  ghost predicate AllDone(w: World) { forall t :: t in w.writers ==> w.writers[t].Done? }

  /** Writers run one at a time, as the consumer handles one message at a time. */
  ghost predicate Serial(cfg: Config, events: seq<Event>) {
    forall n :: 0 <= n < |events| && events[n].BeginWrite? ==> AllDone(Run(cfg, events[..n]))
  }

  /** The order event `e` commits, if it commits one. */
  function CommittedBy(w: World, e: Event): Option<Order> {
    if e.Commit? && e.tid in w.writers && w.writers[e.tid].ToCommit?
       && Commits(w.store, Attempt(w.writers[e.tid].order, e.fault, e.burned))
    then Some(w.writers[e.tid].order) else None
  }

  /** Between its first select and its store. */
  predicate Open(r: Reader) { r.AskDelivery? || r.AskPayment? || r.AskItems? || r.ToStore? }

  /** If `e` commits an order, no reader of its uid is open, and the commit does not lose its
      answer over a slot that differs. */
  ghost predicate Undisturbing(w: World, e: Event) {
    var o := CommittedBy(w, e);
    o.Some? ==>
      && (forall t :: t in w.readers && Open(w.readers[t]) ==> w.readers[t].uid != o.value.UID())
      && (e.fault == AckLost ==> Coherence.NoStaleSlot(ServiceSpec.State(w.store, w.cache), o.value))
  }

  ghost predicate Undisturbed(cfg: Config, events: seq<Event>) {
    forall n :: 0 <= n < |events| ==> Undisturbing(Run(cfg, events[..n]), events[n])
  }

  /** A committed order of `uid` has yet to reach the cache. */
  ghost predicate Pending(w: World, uid: string) {
    exists t :: t in w.writers && w.writers[t].ToCache? && w.writers[t].order.UID() == uid
  }

  ghost predicate OneWriter(w: World) {
    forall t, u :: t in w.writers && u in w.writers && t != u ==> w.writers[t].Done? || w.writers[u].Done?
  }

  ghost predicate CacheFresh(w: World) {
    forall s :: s in w.cache.slots ==> Coherence.Mirrors(w.store.tables, s) || Pending(w, s.id)
  }

  ghost predicate ReaderFresh(w: World, r: Reader) { Open(r) ==> r.b == Newest(w, r.uid) }

  ghost predicate WriterFresh(w: World, x: Writer) { x.ToCache? ==> x.k == Newest(w, x.order.UID()) }

  ghost predicate Fresh(w: World) {
    && OneWriter(w)
    && CacheFresh(w)
    && (forall t :: t in w.readers ==> ReaderFresh(w, w.readers[t]))
    && (forall t :: t in w.writers ==> WriterFresh(w, w.writers[t]))
  }

  lemma AgreeTransitive(a: Order, b: Order, c: Order)
    requires AgreeExceptTransaction(a, b) && AgreeExceptTransaction(b, c)
    ensures AgreeExceptTransaction(a, c)
  {}

  lemma CommitFresh(cfg: ValidConfig, w: World, tid: nat, fault: Fault, burned: nat)
    requires Inv(cfg, w) && Fresh(w) && Undisturbing(w, Commit(tid, fault, burned))
    requires CommittedBy(w, Commit(tid, fault, burned)).Some?
    ensures Fresh(Interleaving.Next(cfg, w, Commit(tid, fault, burned)))
  {
    hide Records, Consistent, LruSpec.WellFormed, CacheOK, ReaderOK, WriterOK, Savable, Saved, Read, Versions;
    hide AgreeExceptTransaction;
    var o := w.writers[tid].order;
    var after := Interleaving.Next(cfg, w, Commit(tid, fault, burned));
    assert after.history == w.history + [o];
    forall u: string
      ensures u != o.UID() ==> Newest(after, u) == Newest(w, u)
      ensures u == o.UID() ==> Newest(after, u) == |Versions(w.history, u)|
    {
      VersionsOne(w.history, o, u);
    }
    forall s | s in after.cache.slots ensures Coherence.Mirrors(after.store.tables, s) || Pending(after, s.id) {
      Coherence.ReadAfterSaved(w.store.tables, o, w.store.nextID, s.id);
      if s.id == o.UID() {
        if fault == NoFault {
          assert after.writers[tid].ToCache?;
        } else {
          AgreeTransitive(s.order, o, Read(after.store.tables, s.id).value);
        }
      }
    }
  }

  /** Putting an order that agrees with the database into the cache. */
  lemma StoreFresh(cfg: ValidConfig, w: World, order: Order, now: int, x: World)
    requires LruSpec.WellFormed(cfg, w.cache) && CacheFresh(w)
    requires Read(w.store.tables, order.UID()).Some?
    requires AgreeExceptTransaction(order, Read(w.store.tables, order.UID()).value)
    requires x.store == w.store && x.cache == LruSpec.Set(cfg, w.cache, order, now)
    requires forall u :: u != order.UID() && Pending(w, u) ==> Pending(x, u)
    ensures CacheFresh(x)
  {
    hide LruSpec.WellFormed, LruSpec.Set, AgreeExceptTransaction, Read, Pending;
    forall s | s in x.cache.slots ensures Coherence.Mirrors(x.store.tables, s) || Pending(x, s.id) {
      Coherence.AfterSet(cfg, w.cache, order, now, s);
      if s.id != order.UID() {
        var y :| y in w.cache.slots && y.id == s.id && y.order == s.order;
        assert Coherence.Mirrors(w.store.tables, y) || Pending(w, y.id);
      }
    }
  }

  /** Reading the cache changes no content. */
  lemma LookupFresh(cfg: ValidConfig, w: World, uid: string, now: int, x: World)
    requires LruSpec.WellFormed(cfg, w.cache) && CacheFresh(w)
    requires x.store == w.store && x.writers == w.writers && x.cache == LruSpec.Get(cfg, w.cache, uid, now)
    ensures CacheFresh(x)
  {
    hide LruSpec.WellFormed, LruSpec.Get, AgreeExceptTransaction, Read;
    forall s | s in x.cache.slots ensures Coherence.Mirrors(x.store.tables, s) || Pending(x, s.id) {
      Coherence.AfterGet(cfg, w.cache, uid, now, s);
      var y :| y in w.cache.slots && y.id == s.id && y.order == s.order;
      assert Coherence.Mirrors(w.store.tables, y) || Pending(w, y.id);
    }
  }

  /** A reader or writer all of whose parts are of the newest version holds the row. */
  lemma NewestAgrees(w: World, uid: string, order: Order, o: Origin)
    requires Records(w.store.tables, w.history) && AssembledFrom(Versions(w.history, uid), order, o)
    requires o.b == Newest(w, uid)
    ensures Read(w.store.tables, uid).Some? && AgreeExceptTransaction(order, Read(w.store.tables, uid).value)
  {
    hide Records, Versions, AgreeExceptTransaction, Current, DistinctBases;
    AgreesIff(w, uid, order, o);
  }

  lemma ReaderStepCache(cfg: ValidConfig, w: World, tid: nat, now: int, items: seq<Item>)
    requires Inv(cfg, w) && CacheFresh(w) && tid in w.readers && ReaderFresh(w, w.readers[tid])
    ensures CacheFresh(Interleaving.Next(cfg, w, ReaderStep(tid, now, items)))
  {
    hide Records, Consistent, LruSpec.WellFormed, CacheOK, WriterOK, LruSpec.Get, LruSpec.Set, Versions;
    hide AgreeExceptTransaction, Read, CacheFresh, ReaderOK;
    var r := w.readers[tid];
    var after := Interleaving.Next(cfg, w, ReaderStep(tid, now, items));
    match r {
      case Start(uid) => LookupFresh(cfg, w, uid, now, after);
      case ToStore(uid, order, b, d, p, i) =>
        ReaderAt(cfg, w, tid);
        ReaderHolds(w.history, r);
        NewestAgrees(w, uid, order, Origin(b, d, p, i));
        StoreFresh(cfg, w, order, now, after);
      case _ => SameFresh(w, after);
    }
  }

  lemma ReaderStepFresh(cfg: ValidConfig, w: World, tid: nat, now: int, items: seq<Item>)
    requires Inv(cfg, w) && Fresh(w) && tid in w.readers
    ensures Fresh(Interleaving.Next(cfg, w, ReaderStep(tid, now, items)))
  {
    hide Inv, LruSpec.Get, LruSpec.Set, LruSpec.Lookup, ItemsOf, Versions, CacheFresh, OneWriter;
    var after := Interleaving.Next(cfg, w, ReaderStep(tid, now, items));
    assert ReaderFresh(w, w.readers[tid]);
    ReaderStepCache(cfg, w, tid, now, items);
    assert after.history == w.history && after.writers == w.writers && after.store == w.store;
    forall t | t in after.readers ensures ReaderFresh(after, after.readers[t]) {
      if t != tid { assert ReaderFresh(w, w.readers[t]); }
    }
    forall t | t in after.writers ensures WriterFresh(after, after.writers[t]) {
      assert WriterFresh(w, w.writers[t]);
    }
    assert OneWriter(after) by { SameWriters(w, after); }
  }

  lemma SameFresh(w: World, x: World)
    requires CacheFresh(w) && x.store.tables == w.store.tables && x.cache == w.cache
    requires forall u :: Pending(w, u) ==> Pending(x, u)
    ensures CacheFresh(x)
  {}

  lemma SameWriters(w: World, x: World)
    requires OneWriter(w) && x.writers == w.writers
    ensures OneWriter(x)
  {}

  lemma CacheStoreFresh(cfg: ValidConfig, w: World, tid: nat, now: int)
    requires Inv(cfg, w) && Fresh(w) && tid in w.writers && w.writers[tid].ToCache?
    ensures Fresh(Interleaving.Next(cfg, w, CacheStore(tid, now)))
  {
    hide Records, Consistent, LruSpec.WellFormed, CacheOK, ReaderOK, WriterOK, LruSpec.Set, Versions;
    hide AgreeExceptTransaction, Read, CacheFresh;
    var x := w.writers[tid];
    var after := Interleaving.Next(cfg, w, CacheStore(tid, now));
    assert WriterFresh(w, x);
    assert WriterOK(w.history, x);
    WriterHolds(w.history, x);
    NewestAgrees(w, x.order.UID(), x.order, Origin(x.k, x.k, x.k, x.k));
    StoreFresh(cfg, w, x.order, now, after);
    forall t | t in after.readers ensures ReaderFresh(after, after.readers[t]) {
      assert ReaderFresh(w, w.readers[t]);
    }
  }

  lemma StillPending(w: World, x: World, u: string)
    requires Pending(w, u)
    requires forall t :: t in w.writers && w.writers[t].ToCache? ==> t in x.writers && x.writers[t] == w.writers[t]
    ensures Pending(x, u)
  {
    var t :| t in w.writers && w.writers[t].ToCache? && w.writers[t].order.UID() == u;
    assert x.writers[t] == w.writers[t];
  }

  lemma SameNewest(w: World, x: World, u: string)
    requires x.history == w.history
    ensures Newest(x, u) == Newest(w, u)
  {}

  /** The events that neither store nor commit: a thread begins, or a commit fails. */
  lemma QuietFresh(cfg: ValidConfig, w: World, e: Event)
    requires Fresh(w) && (e.BeginWrite? ==> AllDone(w))
    requires
      match e
      case BeginRead(_, _, _) => true
      case ReaderStep(tid, _, _) => tid !in w.readers
      case BeginWrite(_, _) => true
      case Commit(_, _, _) => CommittedBy(w, e) == None
      case CacheStore(tid, _) => tid !in w.writers || !w.writers[tid].ToCache?
    ensures Fresh(Interleaving.Next(cfg, w, e))
  {
    hide Savable, Saved, Newest, CacheFresh, LruSpec.Set, StepReader, Pending;
    var after := Interleaving.Next(cfg, w, e);
    assert after.store.tables == w.store.tables && after.history == w.history && after.cache == w.cache;
    forall u | Pending(w, u) ensures Pending(after, u) { StillPending(w, after, u); }
    SameFresh(w, after);
    forall u ensures Newest(after, u) == Newest(w, u) { SameNewest(w, after, u); }
  }

  lemma StepFresh(cfg: ValidConfig, w: World, e: Event)
    requires Inv(cfg, w) && Fresh(w) && Undisturbing(w, e) && (e.BeginWrite? ==> AllDone(w))
    ensures Fresh(Interleaving.Next(cfg, w, e))
  {
    hide Inv, Fresh, Undisturbing, AllDone, CommittedBy, Interleaving.Next;
    if e.ReaderStep? && e.tid in w.readers {
      ReaderStepFresh(cfg, w, e.tid, e.now, e.items);
    } else if e.CacheStore? && e.tid in w.writers && w.writers[e.tid].ToCache? {
      CacheStoreFresh(cfg, w, e.tid, e.now);
    } else if e.Commit? && CommittedBy(w, e).Some? {
      CommitFresh(cfg, w, e.tid, e.fault, e.burned);
    } else {
      QuietFresh(cfg, w, e);
    }
  }

  lemma {:induction false} RunFresh(cfg: ValidConfig, events: seq<Event>)
    requires Serial(cfg, events) && Undisturbed(cfg, events)
    ensures Fresh(Run(cfg, events))
  {
    hide Inv, Fresh, Undisturbing, Interleaving.Next;
    if events == [] {
      NothingThere();
    } else {
      var n := |events| - 1;
      assert forall m :: 0 <= m < n ==> events[..n][..m] == events[..m];
      RunFresh(cfg, events[..n]);
      RunInv(cfg, events[..n]);
      StepFresh(cfg, Run(cfg, events[..n]), events[n]);
    }
  }

  lemma NothingThere()
    ensures Fresh(EMPTY_WORLD)
  {}

  /** Writers one at a time, no commit of a uid while a reader of it is open, and no answer lost
      over an older slot: then in every state each cached order is what the database says, or a
      writer is about to replace it; and all are once the writers are done. */
  lemma QuietScheduleIsCoherent(cfg: ValidConfig, events: seq<Event>)
    requires Serial(cfg, events) && Undisturbed(cfg, events)
    ensures
      var w := Run(cfg, events);
      && (forall s :: s in w.cache.slots ==> Coherence.Mirrors(w.store.tables, s) || Pending(w, s.id))
      && (AllDone(w) ==> Coherence.Coherent(ServiceSpec.State(w.store, w.cache)))
  {
    hide Run, Serial, Undisturbed, Coherence.Mirrors;
    RunFresh(cfg, events);
  }

  // ----- A run of the program that leaves the cache wrong -----

  lemma RunOneMore(cfg: Config, events: seq<Event>, e: Event)
    ensures Run(cfg, events + [e]) == Interleaving.Next(cfg, Run(cfg, events), e)
  {
    assert (events + [e])[..|events|] == events;
  }

  function RunFrom(cfg: Config, w: World, events: seq<Event>): World {
    if events == [] then w
    else Interleaving.Next(cfg, RunFrom(cfg, w, events[..|events| - 1]), events[|events| - 1])
  }

  lemma RunFromOne(cfg: Config, w: World, events: seq<Event>, e: Event)
    ensures RunFrom(cfg, w, events + [e]) == Interleaving.Next(cfg, RunFrom(cfg, w, events), e)
    ensures RunFrom(cfg, w, [e]) == Interleaving.Next(cfg, w, e)
  {
    assert (events + [e])[..|events|] == events;
    assert [e][..0] == [];
  }

  lemma {:induction false} RunAppend(cfg: Config, a: seq<Event>, b: seq<Event>)
    ensures Run(cfg, a + b) == RunFrom(cfg, Run(cfg, a), b)
  {
    if b == [] {
      assert a + b == a;
    } else {
      var n := |b| - 1;
      assert a + b == (a + b[..n]) + [b[n]];
      RunOneMore(cfg, a + b[..n], b[n]);
      RunAppend(cfg, a, b[..n]);
    }
  }

  /** One uid, saved as `o1` and then as `o2`. */
  ghost predicate TwoVersions(o1: Order, o2: Order) {
    && o1.UID() == o2.UID() && Savable(EMPTY_TABLES, o1) && Savable(EMPTY_TABLES, o2)
  }

  /** `o1` is committed, and its answer is lost; then a request misses in the cache and selects
      the base row. */
  function EarlyEvents(o1: Order, now: int): seq<Event> {
    [BeginWrite(0, o1)] + [Commit(0, AckLost, 0)]
    + [BeginRead(0, o1.UID(), false)] + [ReaderStep(0, now, [])] + [ReaderStep(0, now, [])]
  }

  /** The consumer commits `o2` and puts it into the cache. */
  function MiddleEvents(o2: Order, now: int): seq<Event> {
    [BeginWrite(1, o2)] + [Commit(1, NoFault, 0)] + [CacheStore(1, now)]
  }

  /** The request goes on with its other selects and stores what it assembled. */
  function LateEvents(o2: Order, now: int): seq<Event> {
    [ReaderStep(0, now, [])] + [ReaderStep(0, now, [])] + [ReaderStep(0, now, o2.items)] + [ReaderStep(0, now, [])]
  }

  lemma CommitRun(cfg: ValidConfig, o1: Order)
    requires Savable(EMPTY_TABLES, o1)
    ensures
      var w := Run(cfg, [BeginWrite(0, o1)] + [Commit(0, AckLost, 0)]);
      && w.store.tables == Saved(EMPTY_TABLES, o1, 0)
      && w.history == [o1] && w.cache == LruSpec.EMPTY_CACHE && w.readers == map[] && w.writers == map[0 := Done]
  {
    hide Saved, Savable, Versions, StepReader;
    var e := BeginWrite(0, o1);
    RunOneMore(cfg, [], e);
    assert [] + [e] == [e] && Run(cfg, []) == EMPTY_WORLD;
    RunOneMore(cfg, [e], Commit(0, AckLost, 0));
    assert [] + [o1] == [o1];
  }

  lemma EarlyRun(cfg: ValidConfig, o1: Order, now: int)
    requires Savable(EMPTY_TABLES, o1)
    ensures
      var w := Run(cfg, EarlyEvents(o1, now));
      && w.store.tables == Saved(EMPTY_TABLES, o1, 0)
      && w.history == [o1] && w.cache.slots == []
      && w.readers == map[0 := AskDelivery(o1.UID(), o1.base, 0)] && w.writers == map[0 := Done]
  {
    hide Saved, Savable, Run, Versions, Apply, Commits, ItemsOf;
    var e2 := [BeginWrite(0, o1)] + [Commit(0, AckLost, 0)];
    var e3 := e2 + [BeginRead(0, o1.UID(), false)];
    CommitRun(cfg, o1);
    RunOneMore(cfg, e2, BeginRead(0, o1.UID(), false));
    RunOneMore(cfg, e3, ReaderStep(0, now, []));
    RunOneMore(cfg, e3 + [ReaderStep(0, now, [])], ReaderStep(0, now, []));
    OneVersion(o1);
    SavedRow(EMPTY_TABLES, o1, 0);
  }

  lemma OneVersion(o: Order)
    ensures |Versions([o], o.UID())| == 1
  {
    VersionsOne([], o, o.UID());
    assert [] + [o] == [o];
  }

  lemma SavedRow(t: Tables, o: Order, firstID: nat)
    ensures o.UID() in Saved(t, o, firstID).orders && Saved(t, o, firstID).orders[o.UID()] == o.base
  {}

  lemma SavableAgain(o1: Order, o2: Order)
    requires TwoVersions(o1, o2)
    ensures Savable(Saved(EMPTY_TABLES, o1, 0), o2)
  {}

  lemma MiddleRun(cfg: ValidConfig, w: World, o1: Order, o2: Order, now: int)
    requires TwoVersions(o1, o2) && w.store.tables == Saved(EMPTY_TABLES, o1, 0)
    requires w.history == [o1] && w.writers == map[0 := Done]
    ensures
      var x := RunFrom(cfg, w, MiddleEvents(o2, now));
      && x.store.tables == Saved(w.store.tables, o2, w.store.nextID) && x.history == [o1] + [o2]
      && x.cache == LruSpec.Set(cfg, w.cache, o2, now) && x.readers == w.readers && AllDone(x)
  {
    hide Saved, Savable, LruSpec.Set, Interleaving.Next, RunFrom, Run;
    SavableAgain(o1, o2);
    RunFromOne(cfg, w, [], BeginWrite(1, o2));
    RunFromOne(cfg, w, [BeginWrite(1, o2)], Commit(1, NoFault, 0));
    RunFromOne(cfg, w, [BeginWrite(1, o2)] + [Commit(1, NoFault, 0)], CacheStore(1, now));
    SaveSteps(cfg, w, o2, now);
  }

  /** The three steps of a writer that nothing breaks. */
  lemma SaveSteps(cfg: ValidConfig, w: World, o: Order, now: int)
    requires Savable(w.store.tables, o) && w.writers == map[0 := Done]
    ensures
      var begun := Interleaving.Next(cfg, w, BeginWrite(1, o));
      var committed := Interleaving.Next(cfg, begun, Commit(1, NoFault, 0));
      var x := Interleaving.Next(cfg, committed, CacheStore(1, now));
      && x.store.tables == Saved(w.store.tables, o, w.store.nextID) && x.history == w.history + [o]
      && x.cache == LruSpec.Set(cfg, w.cache, o, now) && x.readers == w.readers && AllDone(x)
  {
    hide Saved, Savable, LruSpec.Set, Versions;
  }

  lemma LateRun(cfg: ValidConfig, w: World, o1: Order, o2: Order, now: int)
    requires 0 in w.readers && w.readers[0] == AskDelivery(o1.UID(), o1.base, 0)
    requires ItemsOf(w.store.tables, o1.UID()) == o2.items
    ensures
      var x := RunFrom(cfg, w, LateEvents(o2, now));
      && x.store == w.store && x.writers == w.writers
      && exists torn: Order :: torn.base == o1.base && torn.items == o2.items
           && x.cache == LruSpec.Set(cfg, w.cache, torn, now)
           && 0 in x.readers && x.readers[0] == Answered(o1.UID(), Some(torn))
  {
    hide LruSpec.Set, ItemsOf;
    var e := ReaderStep(0, now, []);
    RunFromOne(cfg, w, [], e);
    RunFromOne(cfg, w, [e], e);
    RunFromOne(cfg, w, [e] + [e], ReaderStep(0, now, o2.items));
    RunFromOne(cfg, w, [e] + [e] + [ReaderStep(0, now, o2.items)], e);
    var x := RunFrom(cfg, w, [e] + [e] + [ReaderStep(0, now, o2.items)]);
    assert x.readers[0].ToStore? && x.readers[0].order.base == o1.base && x.readers[0].order.items == o2.items;
  }

  function TearingEvents(o1: Order, o2: Order, now: int): seq<Event> {
    EarlyEvents(o1, now) + MiddleEvents(o2, now) + LateEvents(o2, now)
  }

  lemma NobodyYet(cfg: Config)
    ensures AllDone(Run(cfg, []))
  {}

  /** The run is one of the program: the writers run one after the other, and the reader is a
      request that looks the order up first. */
  lemma TearingIsSerial(cfg: ValidConfig, o1: Order, o2: Order, now: int)
    requires Savable(EMPTY_TABLES, o1)
    ensures Serial(cfg, TearingEvents(o1, o2, now))
    ensures forall e :: e in TearingEvents(o1, o2, now) && e.BeginRead? ==> !e.warm
  {
    hide Run, TearingEvents, Savable;
    EarlyRun(cfg, o1, now);
    NobodyYet(cfg);
    TearingBegins(o1, o2, now);
  }

  lemma TearingBegins(o1: Order, o2: Order, now: int)
    ensures
      var events := TearingEvents(o1, o2, now);
      && 5 < |events| && events[..0] == [] && events[..5] == EarlyEvents(o1, now)
      && (forall n :: 0 <= n < |events| && events[n].BeginWrite? ==> n == 0 || n == 5)
      && (forall e :: e in events && e.BeginRead? ==> !e.warm)
  {
    var events := TearingEvents(o1, o2, now);
    assert events[..5] == EarlyEvents(o1, now);
    forall n | 0 <= n < |events| && events[n].BeginRead? ensures !events[n].warm {}
  }

  /** A slow request can leave a torn order in the cache, over the newer one the consumer put
      there, with nobody left to correct it: the base row of one version with the items of the
      next, for any two versions. If the base rows differ the cache contradicts the database. */
  lemma SlowReaderTears(cfg: ValidConfig, o1: Order, o2: Order, now: int)
    requires TwoVersions(o1, o2)
    ensures
      var w := Run(cfg, TearingEvents(o1, o2, now));
      && AllDone(w) && 0 in w.readers && w.readers[0].Answered?
      && w.cache.slots != [] && w.cache.slots[0].id == o1.UID()
      && w.cache.slots[0].order.base == o1.base && w.cache.slots[0].order.items == o2.items
      && Read(w.store.tables, o1.UID()).Some? && Read(w.store.tables, o1.UID()).value.base == o2.base
      && (o1.base != o2.base ==> !Coherence.Mirrors(w.store.tables, w.cache.slots[0]))
    ensures Serial(cfg, TearingEvents(o1, o2, now))
    ensures forall e :: e in TearingEvents(o1, o2, now) && e.BeginRead? ==> !e.warm
  {
    hide Run, RunFrom, EarlyEvents, MiddleEvents, LateEvents, Savable, Saved, LruSpec.Set, Serial, AllDone;
    TearingIsSerial(cfg, o1, o2, now);
    EarlyRun(cfg, o1, now);
    var early := Run(cfg, EarlyEvents(o1, now));
    RunAppend(cfg, EarlyEvents(o1, now), MiddleEvents(o2, now));
    RunAppend(cfg, EarlyEvents(o1, now) + MiddleEvents(o2, now), LateEvents(o2, now));
    MiddleRun(cfg, early, o1, o2, now);
    var middle := RunFrom(cfg, early, MiddleEvents(o2, now));
    ItemsOfSaved(early.store.tables, o2, early.store.nextID, o2.UID());
    SavedRow(early.store.tables, o2, early.store.nextID);
    LateRun(cfg, middle, o1, o2, now);
    var last := RunFrom(cfg, middle, LateEvents(o2, now));
    var torn: Order :| torn.base == o1.base && torn.items == o2.items
                       && last.cache == LruSpec.Set(cfg, middle.cache, torn, now)
                       && 0 in last.readers && last.readers[0] == Answered(o1.UID(), Some(torn));
    SavableUID(o1);
    SetInFront(cfg, middle.cache, torn, now);
    SameDone(middle, last);
  }

  lemma SameDone(w: World, x: World)
    requires AllDone(w) && x.writers == w.writers
    ensures AllDone(x)
  {}

  lemma SetInFront(cfg: ValidConfig, c: LruSpec.Cache, o: Order, now: int)
    requires o.UID() != ""
    ensures
      var slots := LruSpec.Set(cfg, c, o, now).slots;
      slots != [] && slots[0].id == o.UID() && slots[0].order == o
  {}

  lemma SavableUID(o: Order)
    requires Savable(EMPTY_TABLES, o)
    ensures o.UID() != ""
  {}
}
