/** The cache under clients that keep every pointer they ever had and write through it. */
module CopyIsolation {
  import opened Domain
  import opened LruSpec
  import opened LruCache
  import LruRecency

  /** What a client does next. `h` and `g` name objects it holds, by number. */
  datatype Command =
    | Create(content: Order)                              // a new object of its own
    | Overwrite(h: nat, base: Base, delivery: Delivery, payment: Payment)
    | SetItem(h: nat, i: nat, item: Item)                 // writes into the item array in place
    | ShareItems(h: nat, g: nat)                          // two objects, one item array
    | Store(h: nat, now: int)                             // cache.Set
    | Fetch(id: string, now: int)                         // cache.Get; a hit is one more object held

  /** What call `i` of a run answers; a `Set` answers nothing. */
  function Answer(cfg: Config, c: Cache, ops: seq<Op>, i: nat): Option<Order>
    requires i < |ops|
  {
    if ops[i].GetOp? then Lookup(cfg, Run(cfg, c, ops[..i]), ops[i].id, ops[i].now) else None
  }

  ghost predicate Answered(cfg: Config, c: Cache, ops: seq<Op>, answers: seq<Option<Order>>) {
    |answers| == |ops| && forall i :: 0 <= i < |ops| ==> answers[i] == Answer(cfg, c, ops, i)
  }

  lemma RunOneMore(cfg: Config, c: Cache, ops: seq<Op>, answers: seq<Option<Order>>, op: Op, answer: Option<Order>)
    requires Answered(cfg, c, ops, answers)
    requires answer == if op.GetOp? then Lookup(cfg, Run(cfg, c, ops), op.id, op.now) else None
    ensures Run(cfg, c, ops + [op]) == Step(cfg, Run(cfg, c, ops), op)
    ensures Answered(cfg, c, ops + [op], answers + [answer])
  {
    assert (ops + [op])[..|ops|] == ops;
    assert forall i :: 0 <= i < |ops| ==> (ops + [op])[..i] == ops[..i];
  }

  /** Every item array reached from a held object is one of `arrays`. */
  ghost predicate Reaches(held: seq<OrderObject>, arrays: set<array<Item>>)
    reads held
  {
    forall o :: o in held && o.items != null ==> o.items in arrays
  }

  /** The client holds nothing the cache owns. */
  ghost predicate Apart(held: seq<OrderObject>, arrays: set<array<Item>>, owned: Owned) {
    (forall o :: o in held ==> o !in owned.orders) && arrays !! owned.arrays
  }

  ghost function Items(o: OrderObject): set<array<Item>>
    reads o
  {
    if o.items == null then {} else {o.items}
  }

  method Snapshot(o: OrderObject) returns (content: Order)
    ensures content == o.Value()
  {
    content := Order(o.base, o.delivery, o.payment, if o.items == null then [] else o.items[..]);
  }

  method Make(content: Order) returns (o: OrderObject)
    ensures fresh(o) && (o.items != null ==> fresh(o.items)) && o.Value() == content
  {
    var items := new Item[|content.items|](i requires 0 <= i < |content.items| => content.items[i]);
    o := new OrderObject(content.base, content.delivery, content.payment, items);
  }

  /** A write through a pointer the client holds; the other commands write nothing. */
  method Write(held: seq<OrderObject>, ghost arrays: set<array<Item>>, command: Command)
    requires Reaches(held, arrays)
    modifies held, arrays
    ensures Reaches(held, arrays)
  {
    match command
    case Overwrite(h, base, delivery, payment) =>
      if h < |held| {
        held[h].base, held[h].delivery, held[h].payment := base, delivery, payment;
      }
    case SetItem(h, i, item) =>
      if h < |held| && held[h].items != null && i < held[h].items.Length {
        var items := held[h].items;
        items[i] := item;
      }
    case ShareItems(h, g) =>
      if h < |held| && g < |held| {
        held[h].items := held[g].items;
      }
    case _ =>
  }

  method CallSet(cache: LRUCacheTTL, held: seq<OrderObject>, ghost arrays: set<array<Item>>, h: nat, now: int)
    returns (content: Order)
    requires cache.Valid() && h < |held| && Reaches(held, arrays) && Apart(held, arrays, cache.owned)
    modifies cache.Footprint()
    ensures cache.Valid() && fresh(cache.Footprint() - old(cache.Footprint()))
    ensures Reaches(held, arrays) && Apart(held, arrays, cache.owned)
    ensures content == old(held[h].Value())
    ensures cache.Contents() == Set(cache.Config(), old(cache.Contents()), content, now)
  {
    hide LRUCacheTTL.Valid, Set, OrderObject.Value;
    content := Snapshot(held[h]);
    KeepApart(cache, held);
    var _ := cache.Set(held[h], now);
  }

  method CallGet(cache: LRUCacheTTL, held: seq<OrderObject>, ghost arrays: set<array<Item>>, id: string, now: int)
    returns (o: OrderObject?)
    requires cache.Valid() && Reaches(held, arrays) && Apart(held, arrays, cache.owned)
    modifies cache.Footprint()
    ensures cache.Valid() && fresh(cache.Footprint() - old(cache.Footprint()))
    ensures Reaches(held, arrays) && Apart(held, arrays, cache.owned)
    ensures cache.Contents() == Get(cache.Config(), old(cache.Contents()), id, now)
    ensures o == null <==> Lookup(cache.Config(), old(cache.Contents()), id, now) == None
    ensures o != null ==>
              && fresh(o) && fresh(Items(o)) && o !in cache.owned.orders && Items(o) !! cache.owned.arrays
              && Lookup(cache.Config(), old(cache.Contents()), id, now) == Some(o.Value())
  {
    hide LRUCacheTTL.Valid, Get, Lookup, OrderObject.Value;
    KeepApart(cache, held);
    o := cache.Get(id, now);
  }

  /** Runs a client. The trace lists the calls it made, each `Set` with the content its
      argument had at that moment. The answers are exactly those of the value cache on that
      trace: nothing a client writes, to its own objects or to those it was handed, before or
      after, changes what the cache holds. On a new cache every hit is therefore the content
      of the latest `Set` of its id, as it was at that call. */
  method RunClient(cache: LRUCacheTTL, commands: seq<Command>) returns (trace: seq<Op>, answers: seq<Option<Order>>)
    requires cache.Valid()
    modifies cache.Footprint()
    ensures cache.Valid()
    ensures cache.Contents() == Run(cache.Config(), old(cache.Contents()), trace)
    ensures Answered(cache.Config(), old(cache.Contents()), trace, answers)
    ensures old(cache.Contents()) == EMPTY_CACHE ==>
              forall i :: 0 <= i < |trace| && answers[i].Some? ==>
                trace[i].GetOp? && answers[i] == LruRecency.LatestSet(trace[..i], trace[i].id)
  {
    hide LRUCacheTTL.Valid, Set, Get, Lookup, OrderObject.Value, Answered, Run, Reaches, Answer;
    var held: seq<OrderObject> := [];
    ghost var arrays: set<array<Item>> := {};
    trace, answers := [], [];
    cache.ValidConfigured();
    ghost var start, footprint := cache.Contents(), cache.Footprint();
    NothingHeld();
    NothingAnswered(cache.Config(), cache.Contents());
    for n := 0 to |commands|
      invariant cache.Valid() && fresh(cache.Footprint() - footprint)
      invariant fresh(held) && fresh(arrays) && Reaches(held, arrays) && Apart(held, arrays, cache.owned)
      invariant cache.Contents() == Run(cache.Config(), start, trace)
      invariant Answered(cache.Config(), start, trace, answers)
    {
      match commands[n]
      case Create(content) =>
        var o := Make(content);
        HeldMore(held, arrays, o);
        arrays := arrays + Items(o);
        held := held + [o];
      case Store(h, now) =>
        if h < |held| {
          var content := CallSet(cache, held, arrays, h, now);
          RunOneMore(cache.Config(), start, trace, answers, SetOp(content, now), None);
          trace, answers := trace + [SetOp(content, now)], answers + [None];
        }
      case Fetch(id, now) =>
        ghost var answer := Lookup(cache.Config(), cache.Contents(), id, now);
        RunOneMore(cache.Config(), start, trace, answers, GetOp(id, now), answer);
        var o := CallGet(cache, held, arrays, id, now);
        trace := trace + [GetOp(id, now)];
        if o == null {
          answers := answers + [None];
        } else {
          var content := Snapshot(o);
          answers := answers + [Some(content)];
          HeldMore(held, arrays, o);
          arrays := arrays + Items(o);
          held := held + [o];
        }
      case _ =>
        Write(held, arrays, commands[n]);
    }
    if start == EMPTY_CACHE {
      AnswersAreLatest(cache.Config(), trace, answers);
    }
  }

  lemma HeldMore(held: seq<OrderObject>, arrays: set<array<Item>>, o: OrderObject)
    requires Reaches(held, arrays)
    ensures Reaches(held + [o], arrays + Items(o))
  {}

  lemma NothingHeld()
    ensures Reaches([], {})
  {}

  lemma NothingAnswered(cfg: Config, c: Cache)
    ensures Answered(cfg, c, [], []) && Run(cfg, c, []) == c
  {}

  /** A call of the cache writes none of the client's objects. */
  lemma KeepApart(cache: LRUCacheTTL, held: seq<OrderObject>)
    ensures forall o :: o in held ==> o !in cache.Footprint() && (o.items != null ==> o.items !in cache.Footprint())
  {
    forall o | o in held ensures o !in cache.Footprint() && (o.items != null ==> o.items !in cache.Footprint()) {
      cache.NoOrders(o);
    }
  }

  lemma AnswersAreLatest(cfg: ValidConfig, ops: seq<Op>, answers: seq<Option<Order>>)
    requires Answered(cfg, EMPTY_CACHE, ops, answers)
    ensures |answers| == |ops|
    ensures forall i :: 0 <= i < |ops| && answers[i].Some? ==>
              ops[i].GetOp? && answers[i] == LruRecency.LatestSet(ops[..i], ops[i].id)
  {
    forall i | 0 <= i < |ops| && answers[i].Some?
      ensures ops[i].GetOp? && answers[i] == LruRecency.LatestSet(ops[..i], ops[i].id)
    {
      assert answers[i] == Answer(cfg, EMPTY_CACHE, ops, i);
      LruRecency.HitIsLatest(cfg, ops[..i], ops[i].id, ops[i].now);
    }
  }
}
