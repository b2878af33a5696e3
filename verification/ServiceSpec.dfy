/** The use cases of internal/usecase/order_service.go, on values: the database and the cache
    together, each call one step. Class `Service.OrderService` is proved against these. */
module ServiceSpec {
  import opened Domain
  import opened Tables
  import opened SaveHistory
  import LruSpec

  type Config = LruSpec.Config
  type ValidConfig = LruSpec.ValidConfig

  /** The raw bytes of a message, as far as the strict JSON decoder and `mail.ParseAddress`
      tell them apart. */
  datatype Message = Undecodable | Decoded(order: Order, emailParses: bool)

  /** 2000-01-01 UTC in microseconds since the Unix epoch. */
  const YEAR_2000 := 946_684_800_000_000

  /** `OrderValidator.Validate` finds nothing wrong. */
  predicate ValidOrder(o: Order, emailParses: bool) {
    && o.base.orderUID != "" && o.base.trackNumber != "" && o.base.entry != ""
    && YEAR_2000 <= o.base.dateCreated
    && o.payment.transaction != "" && o.payment.currency != "" && 0 <= o.payment.amount
    && o.delivery.email != "" && emailParses
    && o.items != []
    && (forall i :: i in o.items ==> i.name != "" && 0 <= i.price && 0 <= i.totalPrice)
  }

  predicate ValidMessage(m: Message) { m.Decoded? && ValidOrder(m.order, m.emailParses) }

  /** What the caller of `SaveFromMessage` can tell: no error, an error that wraps
      `ErrInvalidOrder`, or any other error. */
  datatype Outcome = Success | Invalid | Temporary

  datatype State = State(store: Store, cache: LruSpec.Cache)

  const EMPTY_STATE := State(EMPTY_STORE, LruSpec.EMPTY_CACHE)

  function SaveOutcome(s: Store, m: Message, fault: Fault): Outcome {
    if m.Undecodable? then Temporary
    else if !ValidMessage(m) then Invalid
    else if Succeeds(s, Attempt(m.order, fault, 0)) then Success
    else Temporary
  }

  function SaveMessage(cfg: Config, s: State, m: Message, fault: Fault, burned: nat, now: int): State {
    if !ValidMessage(m) then s
    else State(
      Apply(s.store, Attempt(m.order, fault, burned)),
      if SaveOutcome(s.store, m, fault) == Success then LruSpec.Set(cfg, s.cache, m.order, now) else s.cache)
  }

  /** `GetByUID` whose queries see these tables, with the items in the order the database happened
      to return them. */
  function ReadAcrossAs(at: Snapshots, uid: string, items: seq<Item>): Option<Order> {
    match ReadAcross(at, uid)
    case None => None
    case Some(o) => Some(o.(items := items))
  }

  /** The same when nothing is committed between the queries. */
  function ReadAs(t: Tables, uid: string, items: seq<Item>): Option<Order> { ReadAcrossAs(AtOnce(t), uid, items) }

  /** What `GetOrder` answers; `dbOK` is false when the database read fails. */
  function AnswerAcross(cfg: Config, c: LruSpec.Cache, uid: string, now: int,
                        at: Snapshots, items: seq<Item>, dbOK: bool): Option<Order>
  {
    var hit := LruSpec.Lookup(cfg, c, uid, now);
    if hit.Some? then hit else if dbOK then ReadAcrossAs(at, uid, items) else None
  }

  function Answer(cfg: Config, s: State, uid: string, now: int, items: seq<Item>, dbOK: bool): Option<Order> {
    AnswerAcross(cfg, s.cache, uid, now, AtOnce(s.store.tables), items, dbOK)
  }

  /** The cache that `GetOrder` leaves. */
  function CacheAcross(cfg: Config, c: LruSpec.Cache, uid: string, now: int,
                       at: Snapshots, items: seq<Item>, dbOK: bool, later: int): LruSpec.Cache
  {
    var seen := LruSpec.Get(cfg, c, uid, now);
    var order := ReadAcrossAs(at, uid, items);
    if LruSpec.Lookup(cfg, c, uid, now).Some? || !dbOK || order == None then seen
    else LruSpec.Set(cfg, seen, order.value, later)
  }

  function GetOrder(cfg: Config, s: State, uid: string, now: int, items: seq<Item>, dbOK: bool, later: int): State {
    s.(cache := CacheAcross(cfg, s.cache, uid, now, AtOnce(s.store.tables), items, dbOK, later))
  }

  /** The orders `LastN` reads for the uids it found. */
  function ReadAll(t: Tables, uids: seq<string>, items: seq<seq<Item>>): seq<Order>
    requires |items| == |uids| && forall u :: u in uids ==> u in t.orders
  {
    seq(|uids|, i requires 0 <= i < |uids| => assert uids[i] in uids; ReadAs(t, uids[i], items[i]).value)
  }

  /** `WarmUpCache` when the read succeeds and `done` orders are stored before the context ends. */
  function WarmUp(cfg: Config, s: State, uids: seq<string>, items: seq<seq<Item>>, nows: seq<int>, done: nat): State
    requires |items| == |uids| == |nows| && done <= |uids|
    requires forall u :: u in uids ==> u in s.store.tables.orders
  {
    var orders := ReadAll(s.store.tables, uids, items);
    s.(cache := LruSpec.Run(cfg, s.cache, LruSpec.WarmUpOps(orders[..done], nows[..done])))
  }

  // ----- Runs -----

  /** One call, with everything the environment decides about it. */
  datatype Event =
    | SaveEvent(m: Message, fault: Fault, burned: nat, now: int)
    | GetEvent(uid: string, now: int, items: seq<Item>, dbOK: bool, later: int)
    | WarmUpEvent(uids: seq<string>, itemLists: seq<seq<Item>>, nows: seq<int>, done: nat)

  /** What the database promises about its answers. */
  ghost predicate Possible(s: State, e: Event) {
    match e
    case SaveEvent(_, _, _, _) => true
    case GetEvent(uid, _, items, _, _) => multiset(items) == multiset(ItemsOf(s.store.tables, uid))
    case WarmUpEvent(uids, items, nows, done) =>
      && |items| == |uids| == |nows| && done <= |uids|
      && (forall u :: u in uids ==> u in s.store.tables.orders)
      && (forall i :: 0 <= i < |uids| ==> multiset(items[i]) == multiset(ItemsOf(s.store.tables, uids[i])))
  }

  ghost function Next(cfg: Config, s: State, e: Event): State
    requires Possible(s, e)
  {
    match e
    case SaveEvent(m, fault, burned, now) => SaveMessage(cfg, s, m, fault, burned, now)
    case GetEvent(uid, now, items, dbOK, later) => GetOrder(cfg, s, uid, now, items, dbOK, later)
    case WarmUpEvent(uids, items, nows, done) => WarmUp(cfg, s, uids, items, nows, done)
  }

  /** `states` is a run of the service from an empty database and an empty cache. */
  ghost predicate IsRun(cfg: Config, states: seq<State>, events: seq<Event>) {
    && |states| == |events| + 1
    && states[0] == EMPTY_STATE
    && forall i :: 0 <= i < |events| ==>
         Possible(states[i], events[i]) && states[i + 1] == Next(cfg, states[i], events[i])
  }
}
