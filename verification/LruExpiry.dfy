/** The order of expiry times in the recency list when clock readings may go back a little:
    `now` is read before the lock is taken, so calls can enter in another order. */
module LruExpiry {
  import opened Domain
  import opened Sequences
  import opened LruSpec

  /** A slot nearer the front expires at most `skew` before any slot behind it. */
  ghost predicate ExpiryOrdered(slots: seq<Slot>, skew: int) {
    forall i, j :: 0 <= i < j < |slots| ==> slots[j].expiresAt - skew <= slots[i].expiresAt
  }

  /** No slot outlives one set at the latest clock reading. */
  ghost predicate ExpiryBounded(ttl: int, slots: seq<Slot>, latest: int) {
    forall s :: s in slots ==> s.expiresAt <= latest + ttl
  }

  /** Each clock reading is at least the largest earlier one less `skew`. */
  ghost predicate ClockWithin(ops: seq<Op>, skew: int) {
    forall i, j :: 0 <= i < j < |ops| ==> ops[i].now - skew <= ops[j].now
  }

  /** The largest clock reading of a run. */
  function Latest(ops: seq<Op>): (m: int)
    requires ops != []
    ensures forall i :: 0 <= i < |ops| ==> ops[i].now <= m
    ensures exists i :: 0 <= i < |ops| && ops[i].now == m
  {
    var last := ops[|ops| - 1].now;
    if |ops| == 1 then last
    else
      var before := ops[..|ops| - 1];
      var m := Latest(before);
      assert forall i :: 0 <= i < |before| ==> before[i] == ops[i];
      if m <= last then last else m
  }

  ghost predicate InOrder(ttl: int, slots: seq<Slot>, skew: int, latest: int) {
    ExpiryOrdered(slots, skew) && ExpiryBounded(ttl, slots, latest)
  }

  function Later(a: int, b: int): int { if a <= b then b else a }

  lemma PushKeepsOrder(ttl: int, slots: seq<Slot>, s: Slot, now: int, skew: nat, latest: int)
    requires InOrder(ttl, slots, skew, latest) && latest - skew <= now && s.expiresAt == now + ttl
    ensures InOrder(ttl, [s] + slots, skew, Later(latest, now))
  {
    var pushed := [s] + slots;
    forall i, j | 0 <= i < j < |pushed| ensures pushed[j].expiresAt - skew <= pushed[i].expiresAt {
      assert pushed[j] == slots[j - 1] && pushed[j] in slots;
      if 0 < i { assert pushed[i] == slots[i - 1]; }
    }
  }

  lemma SomeKeepOrder(ttl: int, slots: seq<Slot>, r: seq<Slot>, i: nat, skew: nat, latest: int, later: int)
    requires InOrder(ttl, slots, skew, latest) && latest <= later
    requires r <= slots || (i < |slots| && r == Without(slots, i))
    ensures InOrder(ttl, r, skew, latest) && InOrder(ttl, r, skew, later)
  {
    var at := (j: int) => if r <= slots || j < i then j else j + 1;
    assert forall j :: 0 <= j < |r| ==> r[j] == slots[at(j)];
    assert forall j :: 0 <= j < |r| ==> r[j] in slots;
  }

  lemma GetKeepsOrder(cfg: ValidConfig, c: Cache, id: string, now: int, skew: nat, latest: int)
    requires 0 < cfg.ttl && latest - skew <= now && InOrder(cfg.ttl, c.slots, skew, latest)
    ensures InOrder(cfg.ttl, Get(cfg, c, id, now).slots, skew, Later(latest, now))
  {
    hide InOrder;
    var i := Find(c.slots, id);
    if id != "" && i < |c.slots| {
      var rest := Without(c.slots, i);
      SomeKeepOrder(cfg.ttl, c.slots, rest, i, skew, latest, Later(latest, now));
      if !IsExpired(cfg.ttl, c.slots[i], now) {
        PushKeepsOrder(cfg.ttl, rest, c.slots[i].(expiresAt := now + cfg.ttl), now, skew, latest);
      }
    } else {
      SomeKeepOrder(cfg.ttl, c.slots, c.slots, 0, skew, latest, Later(latest, now));
    }
  }

  lemma SetKeepsOrder(cfg: ValidConfig, c: Cache, order: Order, now: int, skew: nat, latest: int)
    requires 0 < cfg.ttl && latest - skew <= now && InOrder(cfg.ttl, c.slots, skew, latest)
    ensures InOrder(cfg.ttl, Set(cfg, c, order, now).slots, skew, Later(latest, now))
  {
    hide InOrder;
    var i := Find(c.slots, order.UID());
    var stored := Slot(order.UID(), order, now + cfg.ttl);
    var later := Later(latest, now);
    if order.UID() == "" {
      SomeKeepOrder(cfg.ttl, c.slots, c.slots, 0, skew, latest, later);
    } else if i < |c.slots| {
      SomeKeepOrder(cfg.ttl, c.slots, Without(c.slots, i), i, skew, latest, later);
      PushKeepsOrder(cfg.ttl, Without(c.slots, i), stored, now, skew, latest);
    } else {
      var kept := Prune(cfg.ttl, c.slots, now);
      SomeKeepOrder(cfg.ttl, c.slots, kept, 0, skew, latest, later);
      PushKeepsOrder(cfg.ttl, kept, stored, now, skew, latest);
      SomeKeepOrder(cfg.ttl, [stored] + kept, ([stored] + kept)[..|kept|], 0, skew, later, later);
    }
  }

  /** Over every run whose clock goes back by at most `skew`, the list stays ordered by
      expiry up to `skew`. */
  lemma {:induction false} RunKeepsOrder(cfg: ValidConfig, ops: seq<Op>, skew: nat)
    requires 0 < cfg.ttl && ClockWithin(ops, skew)
    ensures
      var c := Run(cfg, EMPTY_CACHE, ops);
      ExpiryOrdered(c.slots, skew) && (ops != [] ==> ExpiryBounded(cfg.ttl, c.slots, Latest(ops)))
  {
    if ops == [] {
    } else {
      var before, op := ops[..|ops| - 1], ops[|ops| - 1];
      var c := Run(cfg, EMPTY_CACHE, before);
      RunKeepsOrder(cfg, before, skew);
      var latest := op.now;
      if before != [] {
        latest := Latest(before);
        var i :| 0 <= i < |before| && before[i].now == latest;
        assert ops[i].now - skew <= op.now;
      }
      assert InOrder(cfg.ttl, c.slots, skew, latest);
      match op {
        case GetOp(id, now) => GetKeepsOrder(cfg, c, id, now, skew, latest);
        case SetOp(order, now) => SetKeepsOrder(cfg, c, order, now, skew, latest);
      }
    }
  }

  /** Pruning a list ordered up to `skew` leaves nothing that expired more than `skew` ago. */
  lemma PruneLeavesLive(ttl: int, slots: seq<Slot>, now: int, skew: nat)
    requires 0 < ttl && ExpiryOrdered(slots, skew)
    ensures forall s :: s in Prune(ttl, slots, now) ==> now - skew <= s.expiresAt
  {
    var kept := Prune(ttl, slots, now);
    forall s | s in kept ensures now - skew <= s.expiresAt {
      var i :| 0 <= i < |kept| && kept[i] == s;
      assert now <= kept[|kept| - 1].expiresAt;
      assert slots[|kept| - 1] == kept[|kept| - 1] && slots[i] == s;
    }
  }

  /** After any run with clock skew at most `skew`, the pruning done by the next `Set` leaves
      only slots with expiresAt >= now - skew; with a monotone clock, no expired slot. */
  lemma PruneAfterRun(cfg: ValidConfig, ops: seq<Op>, skew: nat, now: int)
    requires 0 < cfg.ttl && ClockWithin(ops, skew)
    ensures
      var kept := Prune(cfg.ttl, Run(cfg, EMPTY_CACHE, ops).slots, now);
      && (forall s :: s in kept ==> now - skew <= s.expiresAt)
      && (skew == 0 ==> forall s :: s in kept ==> !IsExpired(cfg.ttl, s, now))
  {
    RunKeepsOrder(cfg, ops, skew);
    PruneLeavesLive(cfg.ttl, Run(cfg, EMPTY_CACHE, ops).slots, now, skew);
  }

  /** With skew the bound is tight: one reading that goes back by `skew` leaves a slot that
      expired `skew` ago in front of a live one, and pruning stops at the live one. */
  lemma SkewLeavesExpired(a: Order, b: Order, ttl: int, skew: int)
    requires a.UID() != "" && b.UID() != "" && a.UID() != b.UID() && 0 < skew && 0 < ttl
    ensures
      var cfg := Config(2, ttl);
      var ops := [SetOp(a, skew), SetOp(b, 0)];
      && ClockWithin(ops, skew)
      && exists s :: s in Prune(ttl, Run(cfg, EMPTY_CACHE, ops).slots, ttl + skew)
                     && s.expiresAt == ttl && IsExpired(ttl, s, ttl + skew)
  {
    var cfg := Config(2, ttl);
    var ops := [SetOp(a, skew), SetOp(b, 0)];
    var sa, sb := Slot(a.UID(), a, skew + ttl), Slot(b.UID(), b, ttl);
    assert ops[..1] == [SetOp(a, skew)];
    assert Run(cfg, EMPTY_CACHE, [SetOp(a, skew)][..0]) == EMPTY_CACHE;
    var c1 := Run(cfg, EMPTY_CACHE, ops[..1]);
    assert c1.slots == [sa];
    assert Find(c1.slots, b.UID()) == 1;
    var c2 := Run(cfg, EMPTY_CACHE, ops);
    assert c2.slots == [sb, sa];
    assert sb in Prune(ttl, c2.slots, ttl + skew);
  }

  /** The TTL slides: once an accepted `Set` or a `Get` hit touches an id at `op.now`, the id
      answers the same order at `t` if and only if `t` is at most the TTL later. */
  lemma TouchExtends(cfg: ValidConfig, c: Cache, op: Op, t: int)
    requires WellFormed(cfg, c)
    requires match op
             case SetOp(order, _) => order.UID() != ""
             case GetOp(id, now) => Lookup(cfg, c, id, now).Some?
    ensures
      var id := if op.SetOp? then op.order.UID() else op.id;
      var content := if op.SetOp? then Some(op.order) else Lookup(cfg, c, op.id, op.now);
      Lookup(cfg, Step(cfg, c, op), id, t) == if cfg.ttl <= 0 || t <= op.now + cfg.ttl then content else None
  {
    if op.GetOp? && cfg.ttl <= 0 {
      assert !IsExpired(cfg.ttl, Step(cfg, c, op).slots[0], t);
    }
  }
}
