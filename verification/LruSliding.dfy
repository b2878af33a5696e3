/** Which ids the cache answers when entries expire: with a TTL and a clock that does not go
    back, those touched recently enough in time and in number. */
module LruSliding {
  import opened Domain
  import opened Sequences
  import opened LruSpec
  import opened LruRecency
  import opened LruExpiry

  /** The clock reading of the latest call that touched `k`. */
  function LastTouch(cfg: Config, ops: seq<Op>, k: string): Option<int> {
    if ops == [] then None
    else
      var before, op := ops[..|ops| - 1], ops[|ops| - 1];
      if Touched(cfg, Run(cfg, EMPTY_CACHE, before), op) == [k] then Some(op.now) else LastTouch(cfg, before, k)
  }

  /** `k` was last touched at `last`, and since then the ids in `after` were: its slot has the
      expiry that belongs to it; and while `k` is live, it is listed unless `capacity` others
      came after it, and exactly those stand in front of it. */
  ghost predicate Tracks(cfg: Config, slots: seq<Slot>, k: string, last: Option<int>, after: set<string>, clock: int) {
    var i := Find(slots, k);
    && (i < |slots| ==> last == Some(slots[i].expiresAt - cfg.ttl))
    && (last.Some? && clock <= last.value + cfg.ttl ==>
          && (i < |slots| ==> Ids(slots[..i]) == after)
          && (|after| < cfg.capacity ==> i < |slots|))
  }

  // ----- Lists -----

  lemma FindUnique(slots: seq<Slot>, k: string, i: nat)
    requires Distinct(slots) && i < |slots| && slots[i].id == k
    ensures Find(slots, k) == i
  {}

  lemma FindNone(slots: seq<Slot>, k: string)
    requires forall j :: 0 <= j < |slots| ==> slots[j].id != k
    ensures Find(slots, k) == |slots|
  {}

  lemma FindPush(slots: seq<Slot>, s: Slot, k: string)
    ensures Find([s] + slots, k) == if s.id == k then 0 else 1 + Find(slots, k)
    ensures s.id != k ==> Ids(([s] + slots)[..Find([s] + slots, k)]) == Ids(slots[..Find(slots, k)]) + {s.id}
  {
    assert ([s] + slots)[1..] == slots;
    var i := Find(slots, k);
    assert ([s] + slots)[..1 + i] == [s] + slots[..i];
  }

  lemma WithoutSplit(slots: seq<Slot>, j: nat, i: nat)
    requires j < |slots| && i < |slots| && i != j
    ensures
      var m := if i < j then i else i - 1;
      && m < |Without(slots, j)| && Without(slots, j)[m] == slots[i]
      && Without(slots, j)[..m] == if i < j then slots[..i] else Without(slots[..i], j)
  {}

  lemma FrontWithout(slots: seq<Slot>, j: nat, i: nat)
    requires Distinct(slots) && j < |slots| && i < |slots| && i != j
    ensures
      var m := if i < j then i else i - 1;
      Ids(Without(slots, j)[..m]) == Ids(slots[..i]) - {slots[j].id}
  {
    hide Without;
    WithoutSplit(slots, j, i);
    if i < j {
      assert forall n :: 0 <= n < i ==> slots[n].id != slots[j].id;
    } else {
      WithoutKeeps(slots[..i], j);
    }
  }

  /** Where a slot stands once another one is taken out. */
  lemma FindWithout(slots: seq<Slot>, j: nat, k: string)
    requires Distinct(slots) && j < |slots| && slots[j].id != k
    ensures
      var i, rest := Find(slots, k), Without(slots, j);
      var m := Find(rest, k);
      && (i < |slots| <==> m < |rest|)
      && (i < |slots| ==> m == (if i < j then i else i - 1) && rest[m] == slots[i]
                          && Ids(rest[..m]) == Ids(slots[..i]) - {slots[j].id})
  {
    hide Distinct, Without, Ids;
    var i, rest := Find(slots, k), Without(slots, j);
    WithoutKeeps(slots, j);
    if i < |slots| {
      WithoutSplit(slots, j, i);
      FrontWithout(slots, j, i);
      FindUnique(rest, k, if i < j then i else i - 1);
    } else {
      forall n | 0 <= n < |rest| ensures rest[n].id != k { assert rest[n] in rest; }
      FindNone(rest, k);
    }
  }

  // ----- One call -----

  /** Moving a slot to the front, with a new expiry. */
  lemma TouchTracks(cfg: ValidConfig, slots: seq<Slot>, j: nat, s: Slot, k: string,
                    last: Option<int>, after: set<string>, clock: int, now: int)
    requires Distinct(slots) && j < |slots| && s.id == slots[j].id && s.expiresAt == now + cfg.ttl && clock <= now
    requires Tracks(cfg, slots, k, last, after, clock)
    ensures Tracks(cfg, [s] + Without(slots, j), k, if k == s.id then Some(now) else last,
                   if k == s.id then {} else after + {s.id}, now)
  {
    hide Without, Distinct, Ids;
    var i, rest := Find(slots, k), Without(slots, j);
    FindPush(rest, s, k);
    if k == s.id {
      InFront(cfg, [s] + rest, k, now);
    } else {
      FindWithout(slots, j, k);
      assert (Ids(slots[..i]) - {s.id}) + {s.id} == Ids(slots[..i]) + {s.id};
      Fewer(after, s.id);
      var m := Find(rest, k);
      assert m < |rest| ==> ([s] + rest)[1 + m] == rest[m];
    }
  }

  /** The id touched last. */
  lemma InFront(cfg: ValidConfig, slots: seq<Slot>, k: string, now: int)
    requires slots != [] && slots[0].id == k && slots[0].expiresAt == now + cfg.ttl
    ensures Tracks(cfg, slots, k, Some(now), {}, now)
  {
    assert Find(slots, k) == 0;
    assert Ids(slots[..0]) == {};
  }

  lemma Fewer(after: set<string>, id: string)
    ensures |after| <= |after + {id}|
  {
    if id in after { assert after + {id} == after; }
  }

  /** Dropping an expired slot. */
  lemma DropTracks(cfg: ValidConfig, slots: seq<Slot>, j: nat, k: string,
                   last: Option<int>, after: set<string>, clock: int, now: int)
    requires Distinct(slots) && ExpiryOrdered(slots, 0) && j < |slots| && slots[j].expiresAt < now && clock <= now
    requires Tracks(cfg, slots, k, last, after, clock)
    ensures Tracks(cfg, Without(slots, j), k, last, after, now)
  {
    hide Without, Distinct, Ids;
    var i := Find(slots, k);
    if k == slots[j].id {
      FindUnique(slots, k, j);
      DropsOut(slots, j);
    } else {
      FindWithout(slots, j, k);
      if i < |slots| && last.Some? && now <= last.value + cfg.ttl {
        assert i < j;
        WithoutSplit(slots, j, i);
      }
    }
  }

  lemma DropsOut(slots: seq<Slot>, j: nat)
    requires Distinct(slots) && j < |slots|
    ensures Find(Without(slots, j), slots[j].id) == |slots| - 1
  {
    WithoutKeeps(slots, j);
    var rest := Without(slots, j);
    forall n | 0 <= n < |rest| ensures rest[n].id != slots[j].id { assert rest[n] in rest; }
    FindNone(rest, slots[j].id);
  }

  /** Pruning before a new id is stored. */
  lemma PruneTracks(cfg: ValidConfig, slots: seq<Slot>, k: string,
                    last: Option<int>, after: set<string>, clock: int, now: int)
    requires 0 < cfg.ttl && Distinct(slots) && clock <= now
    requires Tracks(cfg, slots, k, last, after, clock)
    ensures Tracks(cfg, Prune(cfg.ttl, slots, now), k, last, after, now)
  {
    hide Ids;
    var i, kept := Find(slots, k), Prune(cfg.ttl, slots, now);
    if i < |kept| {
      FindUnique(kept, k, i);
      assert kept[..i] == slots[..i];
    } else {
      FindNone(kept, k);
    }
  }

  /** Pushing a new id, and evicting over capacity. */
  lemma PushTracks(cfg: ValidConfig, slots: seq<Slot>, s: Slot, k: string,
                   last: Option<int>, after: set<string>, now: int)
    requires Distinct(slots) && |slots| <= cfg.capacity && s.expiresAt == now + cfg.ttl
    requires Find(slots, s.id) == |slots| && Tracks(cfg, slots, k, last, after, now)
    ensures Tracks(cfg, Take(cfg.capacity, [s] + slots), k, if k == s.id then Some(now) else last,
                   if k == s.id then {} else after + {s.id}, now)
  {
    hide Ids, Distinct, Find, Take;
    var i, pushed := Find(slots, k), [s] + slots;
    var listed := Take(cfg.capacity, pushed);
    TakeFirst(cfg.capacity, pushed);
    FindPush(slots, s, k);
    if k == s.id {
      InFront(cfg, listed, k, now);
    } else {
      Fewer(after, s.id);
      if 1 + i < |listed| {
        FindListed(pushed, cfg.capacity, k);
      } else {
        FindGone(pushed, cfg.capacity, k);
        if i < |slots| { FrontCount(slots, i, s.id); }
      }
    }
  }

  lemma TakeFirst(n: nat, slots: seq<Slot>)
    requires 1 <= n && slots != []
    ensures Take(n, slots) != [] && Take(n, slots)[0] == slots[0]
    ensures |Take(n, slots)| == if n <= |slots| then n else |slots|
    ensures forall i :: 0 <= i < |Take(n, slots)| ==> Take(n, slots)[i] == slots[i]
    ensures forall i :: 0 <= i < |Take(n, slots)| ==> Take(n, slots)[..i] == slots[..i]
  {}

  lemma FindListed(slots: seq<Slot>, n: nat, k: string)
    requires Find(slots, k) < |Take(n, slots)|
    ensures Find(Take(n, slots), k) == Find(slots, k)
  {
    var i, listed := Find(slots, k), Take(n, slots);
    assert listed[i] == slots[i] && forall j :: 0 <= j < i ==> listed[j] == slots[j];
  }

  lemma FindGone(slots: seq<Slot>, n: nat, k: string)
    requires |Take(n, slots)| <= Find(slots, k)
    ensures Find(Take(n, slots), k) == |Take(n, slots)|
  {
    FindNone(Take(n, slots), k);
  }

  /** The ids in front of a slot, and one that is not listed. */
  lemma FrontCount(slots: seq<Slot>, i: nat, id: string)
    requires Distinct(slots) && i < |slots| && Find(slots, id) == |slots|
    ensures |Ids(slots[..i]) + {id}| == i + 1
  {
    IdsCount(slots[..i]);
    FindAbsent(slots, id);
    assert forall s :: s in slots[..i] ==> s in slots;
  }

  lemma TakeAll(n: nat, slots: seq<Slot>)
    ensures |slots| <= n ==> Take(n, slots) == slots
    ensures n < |slots| ==> Take(n, slots) == slots[..n]
  {}

  /** Time passing changes nothing about which entries are listed. */
  lemma WaitTracks(cfg: ValidConfig, slots: seq<Slot>, k: string,
                   last: Option<int>, after: set<string>, clock: int, now: int)
    requires Tracks(cfg, slots, k, last, after, clock) && clock <= now
    ensures Tracks(cfg, slots, k, last, after, now)
  {}

  lemma GetTracks(cfg: ValidConfig, c: Cache, id: string, k: string,
                  last: Option<int>, after: set<string>, clock: int, now: int)
    requires 0 < cfg.ttl && Distinct(c.slots) && ExpiryOrdered(c.slots, 0) && clock <= now
    requires Tracks(cfg, c.slots, k, last, after, clock)
    ensures
      var hit := Lookup(cfg, c, id, now).Some?;
      Tracks(cfg, Get(cfg, c, id, now).slots, k, if hit && k == id then Some(now) else last,
             if !hit then after else if k == id then {} else after + {id}, now)
  {
    hide Tracks, Distinct, ExpiryOrdered, Without;
    var j := Find(c.slots, id);
    if id == "" || j == |c.slots| {
      WaitTracks(cfg, c.slots, k, last, after, clock, now);
    } else if IsExpired(cfg.ttl, c.slots[j], now) {
      DropTracks(cfg, c.slots, j, k, last, after, clock, now);
    } else {
      TouchTracks(cfg, c.slots, j, c.slots[j].(expiresAt := now + cfg.ttl), k, last, after, clock, now);
    }
  }

  lemma SetTracks(cfg: ValidConfig, c: Cache, order: Order, k: string,
                  last: Option<int>, after: set<string>, clock: int, now: int)
    requires 0 < cfg.ttl && Proper(c.slots) && |c.slots| <= cfg.capacity && clock <= now && order.UID() != ""
    requires Tracks(cfg, c.slots, k, last, after, clock)
    ensures Tracks(cfg, Set(cfg, c, order, now).slots, k, if k == order.UID() then Some(now) else last,
                   if k == order.UID() then {} else after + {order.UID()}, now)
  {
    hide Tracks, Distinct, Without, Take;
    var id := order.UID();
    var j, stored := Find(c.slots, id), Slot(id, order, now + cfg.ttl);
    if j < |c.slots| {
      TouchTracks(cfg, c.slots, j, stored, k, last, after, clock, now);
    } else {
      var kept := Prune(cfg.ttl, c.slots, now);
      PrefixKeeps(c.slots, kept);
      PruneTracks(cfg, c.slots, k, last, after, clock, now);
      FindNone(kept, id);
      PushTracks(cfg, kept, stored, k, last, after, now);
      TakeAll(cfg.capacity, [stored] + kept);
    }
  }

  // ----- Runs -----

  lemma TouchedOne(t: seq<string>, x: string, k: string)
    ensures TouchedAfter(t + [x], k) == if x == k then {} else TouchedAfter(t, k) + {x}
  {
    assert (t + [x])[..|t|] == t;
  }

  /** What a call touches, and the slots it leaves. */
  lemma StepTracks(cfg: ValidConfig, c: Cache, op: Op, k: string, last: Option<int>, t: seq<string>, clock: int)
    requires 0 < cfg.ttl && WellFormed(cfg, c) && ExpiryOrdered(c.slots, 0) && clock <= op.now
    requires Tracks(cfg, c.slots, k, last, TouchedAfter(t, k), clock)
    ensures
      var touched := Touched(cfg, c, op);
      && |touched| <= 1
      && Tracks(cfg, Step(cfg, c, op).slots, k, if touched == [k] then Some(op.now) else last,
                TouchedAfter(t + touched, k), op.now)
  {
    hide Tracks, Proper, ExpiryOrdered, Get, Set, TouchedAfter;
    var touched := Touched(cfg, c, op);
    if touched == [] { assert t + touched == t; } else { assert touched == [touched[0]]; TouchedOne(t, touched[0], k); }
    match op
    case GetOp(id, now) =>
      ProperDistinct(c.slots);
      GetTracks(cfg, c, id, k, last, TouchedAfter(t, k), clock, now);
    case SetOp(order, now) =>
      if order.UID() == "" {
        SetRefused(cfg, c, order, now);
        WaitTracks(cfg, c.slots, k, last, TouchedAfter(t, k), clock, now);
      } else {
        SetTracks(cfg, c, order, k, last, TouchedAfter(t, k), clock, now);
      }
  }

  lemma SetRefused(cfg: ValidConfig, c: Cache, order: Order, now: int)
    requires order.UID() == ""
    ensures Set(cfg, c, order, now) == c
  {}

  lemma {:induction false} RunTracks(cfg: ValidConfig, ops: seq<Op>, k: string, clock: int)
    requires 0 < cfg.ttl && ClockWithin(ops, 0) && (ops != [] ==> clock == ops[|ops| - 1].now)
    ensures
      Tracks(cfg, Run(cfg, EMPTY_CACHE, ops).slots, k, LastTouch(cfg, ops, k),
             TouchedAfter(Touches(cfg, ops), k), clock)
  {
    hide Tracks, ExpiryOrdered, Touched, TouchedAfter, Step, WellFormed;
    if ops == [] {
      NothingTracked(cfg, k, clock);
    } else {
      var before, op := ops[..|ops| - 1], ops[|ops| - 1];
      var earlier := if before == [] then op.now else before[|before| - 1].now;
      assert before != [] ==> ops[|before| - 1].now <= op.now;
      RunTracks(cfg, before, k, earlier);
      RunKeepsOrder(cfg, before, 0);
      RunWellFormed(cfg, EMPTY_CACHE, before);
      StepTracks(cfg, Run(cfg, EMPTY_CACHE, before), op, k, LastTouch(cfg, before, k), Touches(cfg, before), earlier);
    }
  }

  lemma NothingTracked(cfg: ValidConfig, k: string, clock: int)
    ensures Tracks(cfg, [], k, None, TouchedAfter([], k), clock)
  {}

  /** The clock of a run that may expire entries does not go back, up to `now`. */
  ghost predicate ClockUpTo(cfg: Config, ops: seq<Op>, now: int) {
    0 < cfg.ttl ==> ClockWithin(ops, 0) && (ops != [] ==> ops[|ops| - 1].now <= now)
  }

  /** An id is answered at `now` if and only if it was touched, its last touch is no longer than
      the TTL ago, and fewer than `capacity` other ids were touched since. */
  lemma AnsweredIff(cfg: ValidConfig, ops: seq<Op>, k: string, now: int)
    requires ClockUpTo(cfg, ops, now)
    ensures
      var touches, last := Touches(cfg, ops), LastTouch(cfg, ops, k);
      && (last.Some? <==> k in touches)
      && (Lookup(cfg, Run(cfg, EMPTY_CACHE, ops), k, now).Some?
          <==> last.Some? && StillLive(cfg.ttl, last.value, now) && |TouchedAfter(touches, k)| < cfg.capacity)
  {
    hide ClockWithin, Touches, LastTouch, TouchedAfter, Run, WellFormed;
    var c := Run(cfg, EMPTY_CACHE, ops);
    RunWellFormed(cfg, EMPTY_CACHE, ops);
    TouchedHasTime(cfg, ops, k);
    if 0 < cfg.ttl {
      var clock := if ops == [] then now else ops[|ops| - 1].now;
      RunTracks(cfg, ops, k, clock);
      ListedAnswers(cfg, c, k, LastTouch(cfg, ops, k), TouchedAfter(Touches(cfg, ops), k), clock, now);
    } else {
      CachedIffRecent(cfg, ops, k);
      ListedForever(cfg, c, k, now);
    }
  }

  lemma {:induction false} TouchedHasTime(cfg: ValidConfig, ops: seq<Op>, k: string)
    ensures LastTouch(cfg, ops, k).Some? <==> k in Touches(cfg, ops)
  {
    if ops == [] {
    } else {
      TouchedHasTime(cfg, ops[..|ops| - 1], k);
    }
  }

  lemma ListedAnswers(cfg: ValidConfig, c: Cache, k: string,
                      last: Option<int>, after: set<string>, clock: int, now: int)
    requires 0 < cfg.ttl && WellFormed(cfg, c) && Tracks(cfg, c.slots, k, last, after, clock) && clock <= now
    ensures Lookup(cfg, c, k, now).Some? <==> last.Some? && now <= last.value + cfg.ttl && |after| < cfg.capacity
  {
    var i := Find(c.slots, k);
    if i < |c.slots| {
      assert c.slots[i] in c.slots;
      IdsCount(c.slots[..i]);
    }
  }

  lemma ListedForever(cfg: ValidConfig, c: Cache, k: string, now: int)
    requires cfg.ttl <= 0 && WellFormed(cfg, c)
    ensures Lookup(cfg, c, k, now).Some? <==> k in Keys(c.slots)
  {
    var i := Find(c.slots, k);
    assert forall j :: 0 <= j < |c.slots| ==> Keys(c.slots)[j] == c.slots[j].id;
    if i < |c.slots| { assert c.slots[i] in c.slots && Keys(c.slots)[i] == k; }
  }
}
