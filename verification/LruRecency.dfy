/** What the list holds: without a TTL exactly the most recently touched keys, and for every
    key the content of its latest `Set`. */
module LruRecency {
  import opened Domain
  import opened Sequences
  import opened LruSpec

  function IndexOf(r: seq<string>, k: string): (i: nat)
    ensures i <= |r|
    ensures i < |r| ==> r[i] == k
    ensures forall j :: 0 <= j < i ==> r[j] != k
  {
    if r == [] then 0 else if r[0] == k then 0 else 1 + IndexOf(r[1..], k)
  }

  function Keys(slots: seq<Slot>): seq<string> {
    seq(|slots|, i requires 0 <= i < |slots| => slots[i].id)
  }

  function Promote(r: seq<string>, k: string): seq<string> {
    var i := IndexOf(r, k);
    [k] + (if i < |r| then Without(r, i) else r)
  }

  /** The key a call touches, if it touches one. */
  function Touched(cfg: Config, c: Cache, op: Op): seq<string> {
    match op
    case SetOp(order, _) => if order.UID() == "" then [] else [order.UID()]
    case GetOp(id, now) => if Lookup(cfg, c, id, now).Some? then [id] else []
  }

  /** The keys a run touches, oldest first: each accepted `Set` and each `Get` that hits. */
  function Touches(cfg: Config, ops: seq<Op>): seq<string> {
    if ops == [] then []
    else
      var before := ops[..|ops| - 1];
      Touches(cfg, before) + Touched(cfg, Run(cfg, EMPTY_CACHE, before), ops[|ops| - 1])
  }

  /** The distinct keys of `touches`, most recently touched first. */
  function Recent(touches: seq<string>): seq<string> {
    if touches == [] then []
    else Promote(Recent(touches[..|touches| - 1]), touches[|touches| - 1])
  }

  lemma FindIsIndexOf(slots: seq<Slot>, id: string)
    ensures Find(slots, id) == IndexOf(Keys(slots), id)
  {
    var i, j := Find(slots, id), IndexOf(Keys(slots), id);
    assert i < |slots| ==> Keys(slots)[i] == id;
    assert j < |slots| ==> slots[j].id == Keys(slots)[j];
  }

  lemma KeysPush(slots: seq<Slot>, s: Slot, i: nat)
    requires i < |slots|
    ensures Keys([s] + Without(slots, i)) == [s.id] + Without(Keys(slots), i)
    ensures Keys([s] + slots) == [s.id] + Keys(slots)
  {}

  lemma IndexOfTake(n: nat, r: seq<string>, k: string)
    ensures
      var i, top := IndexOf(r, k), Take(n, r);
      IndexOf(top, k) == if i < |top| then i else |top|
  {
    var top := Take(n, r);
    assert forall m :: 0 <= m < |top| ==> top[m] == r[m];
    assert IndexOf(r, k) < |top| ==> top[IndexOf(r, k)] == r[IndexOf(r, k)];
  }

  lemma TakeWithout(n: nat, r: seq<string>, i: nat)
    requires 1 <= n
    ensures i < |Take(n, r)| ==> i < |r| && Without(Take(n, r), i) == Take(n - 1, Without(r, i))
    ensures |Take(n, r)| <= i < |r| ==> Take(n - 1, Without(r, i)) == Take(n - 1, r)
  {}

  lemma TakeCons(n: nat, k: string, s: seq<string>)
    requires 1 <= n
    ensures Take(n, [k] + s) == [k] + Take(n - 1, s)
    ensures Take(n - 1, Take(n, s)) == Take(n - 1, s)
    ensures |Take(n, s)| <= |s|
  {}

  lemma TakePromote(n: nat, r: seq<string>, k: string)
    requires 1 <= n
    ensures
      var top := Take(n, r);
      Take(n, Promote(r, k))
      == if IndexOf(top, k) < |top| then Promote(top, k) else Take(n, [k] + top)
  {
    hide IndexOf, Take, Without;
    var i, top := IndexOf(r, k), Take(n, r);
    IndexOfTake(n, r, k);
    TakeWithout(n, r, i);
    TakeCons(n, k, if i < |r| then Without(r, i) else r);
    TakeCons(n, k, top);
    TakeCons(n, k, r);
  }

  lemma KeysLength(slots: seq<Slot>)
    ensures |Keys(slots)| == |slots|
  {}

  lemma KeysCons(slots: seq<Slot>, s: Slot)
    ensures Keys([s] + slots) == [s.id] + Keys(slots)
  {}

  lemma KeysTake(n: nat, slots: seq<Slot>)
    ensures Keys(Take(n, slots)) == Take(n, Keys(slots))
  {}

  /** Moving the slot of a listed key to the front. */
  lemma TouchRecent(n: nat, slots: seq<Slot>, s: Slot, r: seq<string>)
    requires 1 <= n && Keys(slots) == Take(n, r) && Find(slots, s.id) < |slots|
    ensures Keys([s] + Without(slots, Find(slots, s.id))) == Take(n, Promote(r, s.id))
  {
    FindIsIndexOf(slots, s.id);
    TakePromote(n, r, s.id);
    KeysPush(slots, s, Find(slots, s.id));
  }

  /** Pushing a new key and evicting over capacity. */
  lemma PushRecent(n: nat, slots: seq<Slot>, s: Slot, r: seq<string>)
    requires 1 <= n && Keys(slots) == Take(n, r) && Find(slots, s.id) == |slots|
    ensures Keys(Take(n, [s] + slots)) == Take(n, Promote(r, s.id))
  {
    hide Keys, Promote, Take;
    FindIsIndexOf(slots, s.id);
    KeysLength(slots);
    TakePromote(n, r, s.id);
    KeysCons(slots, s);
    KeysTake(n, [s] + slots);
  }

  lemma StepRecent(cfg: ValidConfig, c: Cache, op: Op, r: seq<string>)
    requires cfg.ttl <= 0 && |c.slots| <= cfg.capacity && Keys(c.slots) == Take(cfg.capacity, r)
    ensures
      var k := Touched(cfg, c, op);
      Keys(Step(cfg, c, op).slots) == Take(cfg.capacity, if k == [] then r else Promote(r, k[0]))
  {
    hide Keys, Promote;
    match op
    case GetOp(id, now) =>
      var i := Find(c.slots, id);
      if id != "" && i < |c.slots| {
        TouchRecent(cfg.capacity, c.slots, c.slots[i], r);
      }
    case SetOp(order, now) =>
      var stored := Slot(order.UID(), order, ZERO_TIME);
      if order.UID() == "" {
      } else if Find(c.slots, order.UID()) < |c.slots| {
        TouchRecent(cfg.capacity, c.slots, stored, r);
      } else {
        PushRecent(cfg.capacity, c.slots, stored, r);
        assert Prune(cfg.ttl, c.slots, now) == c.slots;
        assert |c.slots| < cfg.capacity ==> Take(cfg.capacity, [stored] + c.slots) == [stored] + c.slots;
      }
  }

  lemma RecentOfAppend(t: seq<string>, k: string)
    ensures Recent(t + [k]) == Promote(Recent(t), k)
  {
    assert (t + [k])[..|t|] == t;
  }

  /** Without a TTL, after any run the list is exactly the `capacity` most recently touched
      distinct keys, in recency order. */
  lemma {:induction false} ExactContents(cfg: ValidConfig, ops: seq<Op>)
    requires cfg.ttl <= 0
    ensures Keys(Run(cfg, EMPTY_CACHE, ops).slots) == Take(cfg.capacity, Recent(Touches(cfg, ops)))
  {
    if ops == [] {
    } else {
      var before := ops[..|ops| - 1];
      var c, t := Run(cfg, EMPTY_CACHE, before), Touches(cfg, before);
      var k := Touched(cfg, c, ops[|ops| - 1]);
      ExactContents(cfg, before);
      RunWellFormed(cfg, EMPTY_CACHE, before);
      StepRecent(cfg, c, ops[|ops| - 1], Recent(t));
      if k == [] { assert t + k == t; } else { assert k == [k[0]]; RecentOfAppend(t, k[0]); }
    }
  }

  // ----- The same, without lists: stack distance -----

  /** The keys touched after the last touch of `k` (all of them if `k` was never touched). */
  function TouchedAfter(touches: seq<string>, k: string): set<string> {
    if touches == [] || touches[|touches| - 1] == k then {}
    else TouchedAfter(touches[..|touches| - 1], k) + {touches[|touches| - 1]}
  }

  ghost predicate NoRepeats(r: seq<string>) { forall i, j :: 0 <= i < j < |r| ==> r[i] != r[j] }

  lemma PromoteKeys(r: seq<string>, x: string)
    ensures forall k :: k in Promote(r, x) <==> k in r || k == x
  {
    var i := IndexOf(r, x);
    if i < |r| { assert r == r[..i] + [x] + r[i + 1..]; }
  }

  lemma PushNoRepeats(r: seq<string>, x: string)
    requires NoRepeats(r) && forall j :: 0 <= j < |r| ==> r[j] != x
    ensures NoRepeats([x] + r)
  {
    assert forall j :: 1 <= j < |[x] + r| ==> ([x] + r)[j] == r[j - 1];
  }

  lemma WithoutNoRepeats(r: seq<string>, i: nat)
    requires NoRepeats(r) && i < |r|
    ensures NoRepeats(Without(r, i)) && forall j :: 0 <= j < |r| - 1 ==> Without(r, i)[j] != r[i]
  {
    var rest := Without(r, i);
    assert forall j :: 0 <= j < |rest| ==> rest[j] == r[if j < i then j else j + 1];
  }

  lemma PromoteNoRepeats(r: seq<string>, x: string)
    requires NoRepeats(r)
    ensures NoRepeats(Promote(r, x))
  {
    hide NoRepeats;
    var i := IndexOf(r, x);
    if i < |r| {
      WithoutNoRepeats(r, i);
      PushNoRepeats(Without(r, i), x);
    } else {
      PushNoRepeats(r, x);
    }
  }

  /** In front of `k` in the recency list stand exactly the keys touched after it. */
  lemma {:induction false} RecentPrefix(touches: seq<string>, k: string)
    ensures NoRepeats(Recent(touches))
    ensures forall x :: x in Recent(touches) <==> x in touches
    ensures k in touches ==>
      forall x :: x in Recent(touches)[..IndexOf(Recent(touches), k)] <==> x in TouchedAfter(touches, k)
  {
    if touches == [] {
    } else {
      var t, x := touches[..|touches| - 1], touches[|touches| - 1];
      var r := Recent(t);
      RecentPrefix(t, k);
      PromoteKeys(r, x);
      PromoteNoRepeats(r, x);
      assert touches == t + [x];
      if x != k && k in t {
        PromotePrefix(r, x, k);
      }
    }
  }

  lemma UniqueIndex(r: seq<string>, k: string, m: nat)
    requires NoRepeats(r) && m < |r| && r[m] == k
    ensures IndexOf(r, k) == m
  {}

  lemma PromoteIndex(r: seq<string>, x: string, k: string)
    requires NoRepeats(r) && x != k && k in r
    ensures
      var i, j := IndexOf(r, x), IndexOf(r, k);
      IndexOf(Promote(r, x), k) == if i < j then j else j + 1
  {
    var i, j := IndexOf(r, x), IndexOf(r, k);
    PromoteNoRepeats(r, x);
    assert i < |r| ==> Without(r, i)[if i < j then j - 1 else j] == k;
    UniqueIndex(Promote(r, x), k, if i < j then j else j + 1);
  }

  lemma CutOut(r: seq<string>, i: nat, y: string)
    requires i < |r|
    ensures y in r <==> y in r[..i] + r[i + 1..] || y == r[i]
  {
    assert r == r[..i] + [r[i]] + r[i + 1..];
  }

  lemma PromoteFront(r: seq<string>, x: string, j: nat)
    requires j < |r| && j != IndexOf(r, x)
    ensures
      var i := IndexOf(r, x);
      Promote(r, x)[..if i < j then j else j + 1] == [x] + if i < j then r[..j][..i] + r[..j][i + 1..] else r[..j]
  {}

  lemma PromotePrefix(r: seq<string>, x: string, k: string)
    requires NoRepeats(r) && x != k && k in r
    ensures
      var p := Promote(r, x);
      forall y :: y in p[..IndexOf(p, k)] <==> y in r[..IndexOf(r, k)] || y == x
  {
    var i, j := IndexOf(r, x), IndexOf(r, k);
    hide Promote, NoRepeats;
    PromoteIndex(r, x, k);
    PromoteFront(r, x, j);
    if i < j {
      forall y ensures y in r[..j] <==> y in r[..j][..i] + r[..j][i + 1..] || y == x {
        CutOut(r[..j], i, y);
      }
    }
  }

  lemma {:induction false} SetOfNoRepeats(r: seq<string>, s: set<string>)
    requires NoRepeats(r) && forall x :: x in r <==> x in s
    ensures |s| == |r|
  {
    if r == [] {
      assert s == {};
    } else {
      var n := |r| - 1;
      assert r[n] in r;
      forall x ensures x in r[..n] <==> x in s - {r[n]} {
        if x in s - {r[n]} { var j :| 0 <= j < |r| && r[j] == x; assert r[..n][j] == x; }
      }
      SetOfNoRepeats(r[..n], s - {r[n]});
    }
  }

  /** Without a TTL a key is cached if and only if it was touched and fewer than `capacity`
      other keys were touched since. */
  lemma CachedIffRecent(cfg: ValidConfig, ops: seq<Op>, k: string)
    requires cfg.ttl <= 0
    ensures
      var touches := Touches(cfg, ops);
      k in Keys(Run(cfg, EMPTY_CACHE, ops).slots)
      <==> k in touches && |TouchedAfter(touches, k)| < cfg.capacity
  {
    var touches := Touches(cfg, ops);
    var r := Recent(touches);
    var i := IndexOf(r, k);
    ExactContents(cfg, ops);
    RecentPrefix(touches, k);
    if k in touches {
      assert k in r;
      SetOfNoRepeats(r[..i], TouchedAfter(touches, k));
      if i < cfg.capacity { assert Take(cfg.capacity, r)[i] == k; }
    }
  }

  // ----- Contents -----

  /** The content passed to the latest accepted `Set` of `id`. */
  function LatestSet(ops: seq<Op>, id: string): Option<Order> {
    if ops == [] || id == "" then None
    else
      var op := ops[|ops| - 1];
      if op.SetOp? && op.order.UID() == id then Some(op.order) else LatestSet(ops[..|ops| - 1], id)
  }

  lemma StepContents(cfg: ValidConfig, c: Cache, op: Op, s: Slot)
    requires WellFormed(cfg, c) && s in Step(cfg, c, op).slots
    ensures
      (op.SetOp? && op.order.UID() == s.id && s.order == op.order)
      || (!(op.SetOp? && op.order.UID() == s.id) && exists t :: t in c.slots && t.id == s.id && t.order == s.order)
  {
    var id := if op.GetOp? then op.id else op.order.UID();
    var i := Find(c.slots, id);
    if id != "" && i < |c.slots| {
      WithoutKeeps(c.slots, i);
      assert c.slots[i] in c.slots;
    }
  }

  /** A listed order is the content of the latest `Set` of its id, with or without a TTL. */
  lemma {:induction false} ContentsAreLatest(cfg: ValidConfig, ops: seq<Op>)
    ensures forall s :: s in Run(cfg, EMPTY_CACHE, ops).slots ==> LatestSet(ops, s.id) == Some(s.order)
  {
    RunWellFormed(cfg, EMPTY_CACHE, ops);
    if ops == [] {
    } else {
      var before, op := ops[..|ops| - 1], ops[|ops| - 1];
      var c := Run(cfg, EMPTY_CACHE, before);
      ContentsAreLatest(cfg, before);
      RunWellFormed(cfg, EMPTY_CACHE, before);
      forall s | s in Run(cfg, EMPTY_CACHE, ops).slots ensures LatestSet(ops, s.id) == Some(s.order) {
        StepContents(cfg, c, op, s);
      }
    }
  }

  /** Whatever a `Get` answers is the content of the latest `Set` of that id. */
  lemma HitIsLatest(cfg: ValidConfig, ops: seq<Op>, id: string, now: int)
    ensures
      var hit := Lookup(cfg, Run(cfg, EMPTY_CACHE, ops), id, now);
      hit.Some? ==> LatestSet(ops, id) == hit
  {
    ContentsAreLatest(cfg, ops);
    var c := Run(cfg, EMPTY_CACHE, ops);
    var i := Find(c.slots, id);
    if i < |c.slots| { assert c.slots[i] in c.slots; }
  }

  // ----- Warm-up -----

  ghost predicate DistinctOrders(orders: seq<Order>) {
    && (forall i :: 0 <= i < |orders| ==> orders[i].UID() != "")
    && (forall i, j :: 0 <= i < j < |orders| ==> orders[i].UID() != orders[j].UID())
  }

  /** The clock does not go back. */
  ghost predicate Nondecreasing(nows: seq<int>) {
    forall i, j :: 0 <= i < j < |nows| ==> nows[i] <= nows[j]
  }

  /** What has been stored at `since` is still answered at `now`. */
  predicate StillLive(ttl: int, since: int, now: int) { ttl <= 0 || now <= since + ttl }

  /** The list is the end of the orders, backwards. */
  ghost predicate Backwards(ttl: int, slots: seq<Slot>, orders: seq<Order>, nows: seq<int>)
    requires |nows| == |orders|
  {
    var n := |orders|;
    && |slots| <= n
    && forall j :: 0 <= j < |slots| ==>
         slots[j] == Slot(orders[n - 1 - j].UID(), orders[n - 1 - j], ExpiryFrom(ttl, nows[n - 1 - j]))
  }

  /** The last `count` orders are those among the last `capacity` that had not expired when the
      last one was stored. */
  ghost predicate HoldsLast(cfg: Config, count: nat, nows: seq<int>) {
    var n := |nows|;
    forall i :: 0 <= i < n ==>
      (n - count <= i <==> n - cfg.capacity <= i && StillLive(cfg.ttl, nows[i], nows[n - 1]))
  }

  /** Warming an empty cache leaves the last of the orders, as many as capacity and TTL allow,
      the last one in front: of a newest-first list longer than the capacity, the newest orders
      are the ones evicted. */
  lemma {:induction false} WarmUpContents(cfg: ValidConfig, orders: seq<Order>, nows: seq<int>)
    requires |nows| == |orders| && DistinctOrders(orders) && (0 < cfg.ttl ==> Nondecreasing(nows))
    ensures
      var slots := Run(cfg, EMPTY_CACHE, WarmUpOps(orders, nows)).slots;
      Backwards(cfg.ttl, slots, orders, nows) && HoldsLast(cfg, |slots|, nows)
  {
    if orders == [] {
    } else {
      hide Set, HoldsLast, Backwards;
      var n := |orders| - 1;
      var ops := WarmUpOps(orders, nows);
      assert ops[..n] == WarmUpOps(orders[..n], nows[..n]);
      WarmUpContents(cfg, orders[..n], nows[..n]);
      RunWellFormed(cfg, EMPTY_CACHE, ops[..n]);
      WarmUpStep(cfg, Run(cfg, EMPTY_CACHE, ops[..n]), orders, nows);
    }
  }

  /** Pruning keeps exactly the orders stored no longer than the TTL ago. */
  lemma PruneBackwards(ttl: int, slots: seq<Slot>, orders: seq<Order>, nows: seq<int>, now: int)
    requires |nows| == |orders| && Backwards(ttl, slots, orders, nows) && (0 < ttl ==> Nondecreasing(nows))
    ensures
      var kept := Prune(ttl, slots, now);
      && Backwards(ttl, kept, orders, nows)
      && forall i :: |nows| - |slots| <= i < |nows| ==> (|nows| - |kept| <= i <==> StillLive(ttl, nows[i], now))
  {
    var kept, n := Prune(ttl, slots, now), |nows|;
    forall i | n - |slots| <= i < n ensures n - |kept| <= i <==> StillLive(ttl, nows[i], now) {
      assert slots[n - 1 - i].expiresAt == ExpiryFrom(ttl, nows[i]);
      if 0 < ttl && n - |kept| <= i {
        assert kept[|kept| - 1] == slots[|kept| - 1];
        assert n - |kept| < i ==> nows[n - |kept|] <= nows[i];
      }
    }
  }

  lemma PushBackwards(ttl: int, slots: seq<Slot>, orders: seq<Order>, nows: seq<int>, kept: nat)
    requires |nows| == |orders| && orders != []
    requires Backwards(ttl, slots, orders[..|orders| - 1], nows[..|nows| - 1])
    requires kept <= |slots| + 1
    ensures
      var n := |orders| - 1;
      Backwards(ttl, ([Slot(orders[n].UID(), orders[n], ExpiryFrom(ttl, nows[n]))] + slots)[..kept], orders, nows)
  {}

  lemma NewToList(ttl: int, slots: seq<Slot>, orders: seq<Order>, nows: seq<int>)
    requires |nows| == |orders| && orders != [] && DistinctOrders(orders)
    requires Backwards(ttl, slots, orders[..|orders| - 1], nows[..|nows| - 1])
    ensures Find(slots, orders[|orders| - 1].UID()) == |slots|
  {}

  lemma StepHoldsLast(cfg: ValidConfig, nows: seq<int>, before: nat, kept: nat, after: nat)
    requires nows != [] && before < |nows| && kept <= before && (0 < cfg.ttl ==> Nondecreasing(nows))
    requires HoldsLast(cfg, before, nows[..|nows| - 1])
    requires forall i :: |nows| - 1 - before <= i < |nows| - 1 ==>
               (|nows| - 1 - kept <= i <==> StillLive(cfg.ttl, nows[i], nows[|nows| - 1]))
    requires after == if cfg.capacity < kept + 1 then cfg.capacity else kept + 1
    ensures HoldsLast(cfg, after, nows)
  {
    var n := |nows|;
    var earlier := nows[..n - 1];
    forall i | 0 <= i < n
      ensures n - after <= i <==> n - cfg.capacity <= i && StillLive(cfg.ttl, nows[i], nows[n - 1])
    {
      if i < n - 1 {
        assert earlier[i] == nows[i] && earlier[n - 2] == nows[n - 2];
        assert n - 1 - before <= i <==> n - 1 - cfg.capacity <= i && StillLive(cfg.ttl, nows[i], nows[n - 2]);
      }
    }
  }

  lemma WarmUpStep(cfg: ValidConfig, c: Cache, orders: seq<Order>, nows: seq<int>)
    requires |nows| == |orders| && orders != [] && DistinctOrders(orders) && (0 < cfg.ttl ==> Nondecreasing(nows))
    requires Backwards(cfg.ttl, c.slots, orders[..|orders| - 1], nows[..|nows| - 1])
    requires |c.slots| <= cfg.capacity && HoldsLast(cfg, |c.slots|, nows[..|nows| - 1])
    ensures
      var slots := Set(cfg, c, orders[|orders| - 1], nows[|nows| - 1]).slots;
      Backwards(cfg.ttl, slots, orders, nows) && HoldsLast(cfg, |slots|, nows)
  {
    hide HoldsLast, Backwards, StillLive, Set, Prune;
    var n := |orders| - 1;
    var kept := Prune(cfg.ttl, c.slots, nows[n]);
    var slots := Set(cfg, c, orders[n], nows[n]).slots;
    NewToList(cfg.ttl, c.slots, orders, nows);
    PushedSlots(cfg, c, orders[n], nows[n]);
    BackwardsCount(cfg.ttl, c.slots, orders[..n], nows[..n]);
    PruneBackwards(cfg.ttl, c.slots, orders[..n], nows[..n], nows[n]);
    PushBackwards(cfg.ttl, kept, orders, nows, |slots|);
    StepHoldsLast(cfg, nows, |c.slots|, |kept|, |slots|);
  }

  /** The list after a new id is stored. */
  lemma PushedSlots(cfg: ValidConfig, c: Cache, order: Order, now: int)
    requires order.UID() != "" && Find(c.slots, order.UID()) == |c.slots| && |c.slots| <= cfg.capacity
    ensures
      var slots, kept := Set(cfg, c, order, now).slots, Prune(cfg.ttl, c.slots, now);
      var pushed := [Slot(order.UID(), order, ExpiryFrom(cfg.ttl, now))] + kept;
      && |kept| <= |c.slots|
      && |slots| == (if cfg.capacity < |pushed| then cfg.capacity else |pushed|)
      && slots == pushed[..|slots|]
  {}

  lemma BackwardsCount(ttl: int, slots: seq<Slot>, orders: seq<Order>, nows: seq<int>)
    requires |nows| == |orders| && Backwards(ttl, slots, orders, nows)
    ensures |slots| <= |orders|
  {}

  /** So an order of the warm-up list is a hit afterwards if and only if it is among the last
      `capacity` ones and was stored no longer than the TTL ago. */
  lemma WarmUpHits(cfg: ValidConfig, orders: seq<Order>, nows: seq<int>, i: nat, now: int)
    requires |nows| == |orders| && DistinctOrders(orders) && i < |orders|
    requires 0 < cfg.ttl ==> Nondecreasing(nows) && nows[|nows| - 1] <= now
    ensures
      var hit := Lookup(cfg, Run(cfg, EMPTY_CACHE, WarmUpOps(orders, nows)), orders[i].UID(), now);
      hit == if |orders| - cfg.capacity <= i && StillLive(cfg.ttl, nows[i], now) then Some(orders[i]) else None
  {
    hide Set, Run, WarmUpOps;
    WarmUpContents(cfg, orders, nows);
    var slots := Run(cfg, EMPTY_CACHE, WarmUpOps(orders, nows)).slots;
    var n, k := |orders|, Find(slots, orders[i].UID());
    if n - |slots| <= i {
      assert slots[n - 1 - i].id == orders[i].UID();
    }
    if k < |slots| {
      assert orders[n - 1 - k].UID() == orders[i].UID();
      assert k == n - 1 - i;
    }
  }
}
