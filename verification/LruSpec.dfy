/** The LRU cache with sliding TTL, on values: what one call of `Get` or `Set` does to the
    recency list (front first) and to the metrics. Class `LruCache.LRUCacheTTL` is proved
    against these functions; the other Lru modules prove what they are for. */
module LruSpec {
  import opened Domain
  import opened Sequences

  /** Instants are integers counted from Go's zero time. */
  const ZERO_TIME := 0

  datatype Config = Config(capacity: int, ttl: int)

  /** `NewLRUCacheTTL` never builds a cache with a smaller capacity. */
  type ValidConfig = c: Config | 1 <= c.capacity witness Config(1, 0)

  datatype Slot = Slot(id: string, order: Order, expiresAt: int)

  /** cache_operations_total by label, and the cache_size gauge. */
  datatype Stats = Stats(hit: nat, miss: nat, expired: nat, evicted: nat, size: nat)

  datatype Cache = Cache(slots: seq<Slot>, stats: Stats)

  const EMPTY_CACHE := Cache([], Stats(0, 0, 0, 0, 0))

  function ExpiryFrom(ttl: int, now: int): int {
    if ttl <= 0 then ZERO_TIME else now + ttl
  }

  predicate IsExpired(ttl: int, s: Slot, now: int) {
    0 < ttl && s.expiresAt < now
  }

  /** Position of the first slot of `id`, or |slots|. */
  function Find(slots: seq<Slot>, id: string): (i: nat)
    ensures i <= |slots|
    ensures i < |slots| ==> slots[i].id == id
    ensures forall j :: 0 <= j < i ==> slots[j].id != id
  {
    if slots == [] then 0 else if slots[0].id == id then 0 else 1 + Find(slots[1..], id)
  }

  /** Drops expired slots from the back, up to the first live one. */
  function Prune(ttl: int, slots: seq<Slot>, now: int): (r: seq<Slot>)
    ensures r <= slots
    ensures forall i :: |r| <= i < |slots| ==> IsExpired(ttl, slots[i], now)
    ensures r != [] ==> !IsExpired(ttl, r[|r| - 1], now)
  {
    if slots == [] || !IsExpired(ttl, slots[|slots| - 1], now) then slots
    else Prune(ttl, slots[..|slots| - 1], now)
  }

  /** What `Get(id)` answers. */
  function Lookup(cfg: Config, c: Cache, id: string, now: int): Option<Order> {
    var i := Find(c.slots, id);
    if id == "" || i == |c.slots| || IsExpired(cfg.ttl, c.slots[i], now) then None
    else Some(c.slots[i].order)
  }

  /** What `Get(id)` leaves behind. */
  function Get(cfg: Config, c: Cache, id: string, now: int): Cache {
    var i := Find(c.slots, id);
    if id == "" || i == |c.slots| then
      c.(stats := c.stats.(miss := c.stats.miss + 1))
    else if IsExpired(cfg.ttl, c.slots[i], now) then
      var rest := Without(c.slots, i);
      Cache(rest, c.stats.(expired := c.stats.expired + 1, size := |rest|))
    else
      var s := c.slots[i];
      Cache([s.(expiresAt := if 0 < cfg.ttl then now + cfg.ttl else s.expiresAt)] + Without(c.slots, i),
            c.stats.(hit := c.stats.hit + 1))
  }

  /** What `Set(order)` leaves behind. An empty uid is refused. */
  function Set(cfg: Config, c: Cache, order: Order, now: int): Cache {
    var i := Find(c.slots, order.UID());
    var stored := Slot(order.UID(), order, ExpiryFrom(cfg.ttl, now));
    if order.UID() == "" then c
    else if i < |c.slots| then
      Cache([stored] + Without(c.slots, i), c.stats)
    else
      var kept := Prune(cfg.ttl, c.slots, now);
      var pushed := [stored] + kept;
      var expired := c.stats.expired + (|c.slots| - |kept|);
      if cfg.capacity < |pushed| then
        Cache(pushed[..|pushed| - 1],
              c.stats.(expired := expired, evicted := c.stats.evicted + 1, size := |pushed| - 1))
      else
        Cache(pushed, c.stats.(expired := expired, size := |pushed|))
  }

  /** One timed call. `now` is the clock value the call read. */
  datatype Op = GetOp(id: string, now: int) | SetOp(order: Order, now: int)

  function Step(cfg: Config, c: Cache, op: Op): Cache {
    match op
    case GetOp(id, now) => Get(cfg, c, id, now)
    case SetOp(order, now) => Set(cfg, c, order, now)
  }

  function Run(cfg: Config, c: Cache, ops: seq<Op>): Cache {
    if ops == [] then c
    else Step(cfg, Run(cfg, c, ops[..|ops| - 1]), ops[|ops| - 1])
  }

  /** The calls `WarmUp` makes for `orders`, with the clock readings it gets. */
  function WarmUpOps(orders: seq<Order>, nows: seq<int>): seq<Op>
    requires |nows| == |orders|
  {
    seq(|orders|, i requires 0 <= i < |orders| => SetOp(orders[i], nows[i]))
  }

  // ----- The representation invariant, on values -----

  function Ids(slots: seq<Slot>): set<string> { set s | s in slots :: s.id }

  ghost predicate Distinct(slots: seq<Slot>) {
    forall i, j :: 0 <= i < j < |slots| ==> slots[i].id != slots[j].id
  }

  ghost predicate Proper(slots: seq<Slot>) {
    && Distinct(slots)
    && (forall s :: s in slots ==> s.id != "" && s.order.UID() == s.id)
  }

  ghost predicate WellFormed(cfg: Config, c: Cache) {
    && Proper(c.slots)
    && |c.slots| <= cfg.capacity
    && c.stats.size == |c.slots|
  }

  lemma FindAbsent(slots: seq<Slot>, id: string)
    ensures Find(slots, id) == |slots| <==> id !in Ids(slots)
  {
    if Find(slots, id) < |slots| {
      assert slots[Find(slots, id)] in slots;
    }
  }

  lemma WithoutKeeps(slots: seq<Slot>, i: nat)
    requires Distinct(slots) && i < |slots|
    ensures Distinct(Without(slots, i))
    ensures Ids(Without(slots, i)) == Ids(slots) - {slots[i].id}
    ensures forall s :: s in Without(slots, i) ==> s in slots && s.id != slots[i].id
  {
    var rest := Without(slots, i);
    WithoutAt(slots, i);
    forall s ensures s in rest <==> s in slots && s.id != slots[i].id { WithoutHas(slots, i, s); }
    hide Without;
    assert forall s :: s in slots && s.id == slots[i].id ==> s == slots[i];
  }

  lemma WithoutHas(slots: seq<Slot>, i: nat, s: Slot)
    requires Distinct(slots) && i < |slots|
    ensures s in Without(slots, i) <==> s in slots && s.id != slots[i].id
  {
    var before, after := slots[..i], slots[i + 1..];
    assert slots == before + [slots[i]] + after;
    assert s in slots <==> s in before || s == slots[i] || s in after;
    if s in before {
      var j :| 0 <= j < i && slots[j] == s;
    } else if s in after {
      var j :| i < j < |slots| && slots[j] == s;
    }
  }

  lemma {:induction false} IdsCount(slots: seq<Slot>)
    requires Distinct(slots)
    ensures |Ids(slots)| == |slots|
  {
    if slots == [] {
      assert Ids(slots) == {};
    } else {
      var n := |slots| - 1;
      IdsCount(slots[..n]);
      assert slots == slots[..n] + [slots[n]];
      assert Ids(slots) == Ids(slots[..n]) + {slots[n].id};
    }
  }

  lemma ProperDistinct(slots: seq<Slot>)
    requires Proper(slots)
    ensures Distinct(slots)
  {}

  lemma PrefixKeeps(slots: seq<Slot>, prefix: seq<Slot>)
    requires Proper(slots) && prefix <= slots
    ensures Proper(prefix)
  {}

  lemma PushKeeps(slots: seq<Slot>, s: Slot)
    requires Proper(slots) && s.id != "" && s.order.UID() == s.id
    requires forall t :: t in slots ==> t.id != s.id
    ensures Proper([s] + slots)
  {
    assert forall j :: 1 <= j < |[s] + slots| ==> ([s] + slots)[j] == slots[j - 1] && slots[j - 1] in slots;
  }

  lemma GetKeepsWellFormed(cfg: ValidConfig, c: Cache, id: string, now: int)
    requires WellFormed(cfg, c)
    ensures WellFormed(cfg, Get(cfg, c, id, now))
  {
    var i := Find(c.slots, id);
    if i < |c.slots| {
      assert c.slots[i] in c.slots;
      WithoutKeeps(c.slots, i);
      var s := c.slots[i];
      PushKeeps(Without(c.slots, i), s.(expiresAt := if 0 < cfg.ttl then now + cfg.ttl else s.expiresAt));
    }
  }

  lemma SetKeepsWellFormed(cfg: ValidConfig, c: Cache, order: Order, now: int)
    requires WellFormed(cfg, c)
    ensures WellFormed(cfg, Set(cfg, c, order, now))
  {
    var i := Find(c.slots, order.UID());
    if order.UID() != "" {
      var stored := Slot(order.UID(), order, ExpiryFrom(cfg.ttl, now));
      if i < |c.slots| {
        WithoutKeeps(c.slots, i);
        PushKeeps(Without(c.slots, i), stored);
      } else {
        var kept := Prune(cfg.ttl, c.slots, now);
        PrefixKeeps(c.slots, kept);
        PushKeeps(kept, stored);
        PrefixKeeps([stored] + kept, ([stored] + kept)[..|kept|]);
      }
    }
  }

  /** Every call keeps the list free of duplicates and within capacity, and the gauge exact. */
  lemma StepKeepsWellFormed(cfg: ValidConfig, c: Cache, op: Op)
    requires WellFormed(cfg, c)
    ensures WellFormed(cfg, Step(cfg, c, op))
  {
    match op
    case GetOp(id, now) => GetKeepsWellFormed(cfg, c, id, now);
    case SetOp(order, now) => SetKeepsWellFormed(cfg, c, order, now);
  }

  lemma {:induction false} RunWellFormed(cfg: ValidConfig, c: Cache, ops: seq<Op>)
    requires WellFormed(cfg, c)
    ensures WellFormed(cfg, Run(cfg, c, ops))
  {
    if ops == [] {
    } else {
      RunWellFormed(cfg, c, ops[..|ops| - 1]);
      StepKeepsWellFormed(cfg, Run(cfg, c, ops[..|ops| - 1]), ops[|ops| - 1]);
    }
  }
}
