/** Inclusion: two caches with the same TTL, fed the same timed calls under a monotone clock,
    stay nested. What the smaller cache holds, the larger one holds too, in the same order,
    with the same orders and the same expiry times. */
module LruInclusion {
  import opened Domain
  import opened Sequences
  import opened LruSpec
  import opened LruExpiry

  /** The slots whose id is in `ids`, in order. */
  function Restrict(slots: seq<Slot>, ids: set<string>): seq<Slot> {
    if slots == [] then []
    else (if slots[0].id in ids then [slots[0]] else []) + Restrict(slots[1..], ids)
  }

  /** `small` is the subsequence of `large` made of the ids `small` has. */
  ghost predicate Nested(small: seq<Slot>, large: seq<Slot>) {
    small == Restrict(large, Ids(small))
  }

  function LiveIds(ttl: int, slots: seq<Slot>, now: int): set<string> {
    set s | s in slots && !IsExpired(ttl, s, now) :: s.id
  }

  /** The live ids only the larger cache has. */
  function Surplus(ttl: int, small: seq<Slot>, large: seq<Slot>, now: int): set<string> {
    LiveIds(ttl, large, now) - Ids(small)
  }

  // ----- Restriction is set algebra on ids -----

  lemma {:induction false} RestrictAppend(a: seq<Slot>, b: seq<Slot>, ids: set<string>)
    ensures Restrict(a + b, ids) == Restrict(a, ids) + Restrict(b, ids)
  {
    if a == [] {
      assert a + b == b;
    } else {
      assert (a + b)[1..] == a[1..] + b;
      RestrictAppend(a[1..], b, ids);
    }
  }

  lemma {:induction false} RestrictTwice(s: seq<Slot>, a: set<string>, b: set<string>)
    ensures Restrict(Restrict(s, a), b) == Restrict(s, a * b)
  {
    if s == [] {
    } else {
      RestrictTwice(s[1..], a, b);
      RestrictAppend(if s[0].id in a then [s[0]] else [], Restrict(s[1..], a), b);
    }
  }

  lemma {:induction false} RestrictSame(s: seq<Slot>, a: set<string>, b: set<string>)
    requires Ids(s) * a == Ids(s) * b
    ensures Restrict(s, a) == Restrict(s, b)
  {
    if s == [] {
    } else {
      assert s[0].id in Ids(s);
      assert Ids(s[1..]) <= Ids(s);
      forall id | id in Ids(s[1..]) ensures id in a <==> id in b {
        assert id in Ids(s) * a <==> id in Ids(s) * b;
      }
      assert s[0].id in Ids(s) * a <==> s[0].id in Ids(s) * b;
      RestrictSame(s[1..], a, b);
    }
  }

  lemma {:induction false} RestrictAll(s: seq<Slot>, ids: set<string>)
    ensures Ids(s) <= ids ==> Restrict(s, ids) == s
    ensures Ids(s) !! ids ==> Restrict(s, ids) == []
  {
    if s == [] {
    } else {
      assert s[0].id in Ids(s) && Ids(s[1..]) <= Ids(s);
      RestrictAll(s[1..], ids);
    }
  }

  lemma {:induction false} RestrictIds(s: seq<Slot>, ids: set<string>)
    ensures Ids(Restrict(s, ids)) == Ids(s) * ids
    ensures forall t :: t in Restrict(s, ids) <==> t in s && t.id in ids
  {
    if s == [] {
    } else {
      RestrictIds(s[1..], ids);
      assert s == [s[0]] + s[1..];
    }
  }

  // ----- The list operations are restrictions -----

  lemma IdsAppend(a: seq<Slot>, b: seq<Slot>)
    ensures Ids(a + b) == Ids(a) + Ids(b)
  {
    assert forall s :: s in a + b <==> s in a || s in b;
  }

  lemma SplitDisjoint(s: seq<Slot>, i: nat)
    requires Distinct(s) && i <= |s|
    ensures Ids(s[..i]) !! Ids(s[i..])
  {
    forall x, y | x in s[..i] && y in s[i..] ensures x.id != y.id {
      var j :| 0 <= j < i && s[j] == x;
      var k :| i <= k < |s| && s[k] == y;
    }
  }

  lemma PrefixRestricts(s: seq<Slot>, i: nat)
    requires Distinct(s) && i <= |s|
    ensures s[..i] == Restrict(s, Ids(s[..i]))
  {
    SplitDisjoint(s, i);
    assert s == s[..i] + s[i..];
    RestrictAppend(s[..i], s[i..], Ids(s[..i]));
    RestrictAll(s[..i], Ids(s[..i]));
    RestrictAll(s[i..], Ids(s[..i]));
  }

  lemma {:induction false} WithoutRestricts(s: seq<Slot>, i: nat)
    requires Distinct(s) && i < |s|
    ensures Without(s, i) == Restrict(s, Ids(s) - {s[i].id})
  {
    var ids := Ids(s) - {s[i].id};
    assert s[0] in s && Ids(s[1..]) <= Ids(s);
    if i == 0 {
      assert forall t :: t in s[1..] ==> t.id != s[0].id;
      RestrictAll(s[1..], ids);
    } else {
      WithoutRestricts(s[1..], i - 1);
      assert Without(s, i) == [s[0]] + Without(s[1..], i - 1);
      RestrictSame(s[1..], ids, Ids(s[1..]) - {s[i].id});
    }
  }

  lemma PruneKeepsLive(ttl: int, s: seq<Slot>, now: int)
    requires 0 < ttl ==> ExpiryOrdered(s, 0)
    ensures forall t :: t in Prune(ttl, s, now) <==> t in s && !IsExpired(ttl, t, now)
  {
    var kept := Prune(ttl, s, now);
    if 0 < ttl { PruneLeavesLive(ttl, s, now, 0); }
    forall t | t in s && !IsExpired(ttl, t, now) ensures t in kept {
      var i :| 0 <= i < |s| && s[i] == t;
      assert i < |kept| && kept[i] == t;
    }
    forall t | t in kept ensures t in s && !IsExpired(ttl, t, now) {
      var i :| 0 <= i < |kept| && kept[i] == t;
      assert s[i] == t;
    }
  }

  /** In a list ordered by expiry, pruning the tail drops every expired slot. */
  lemma PruneRestricts(ttl: int, s: seq<Slot>, now: int)
    requires Distinct(s) && (0 < ttl ==> ExpiryOrdered(s, 0))
    ensures Ids(Prune(ttl, s, now)) == LiveIds(ttl, s, now)
    ensures Prune(ttl, s, now) == Restrict(s, LiveIds(ttl, s, now))
  {
    PruneKeepsLive(ttl, s, now);
    var kept := Prune(ttl, s, now);
    assert Ids(kept) == LiveIds(ttl, s, now);
    assert kept == s[..|kept|];
    PrefixRestricts(s, |kept|);
  }

  /** An insertion prunes before it evicts: afterwards no slot is expired, and a slot is evicted
      if and only if the list held `capacity` live ones. */
  lemma EvictsOnlyLive(cfg: ValidConfig, ops: seq<Op>, order: Order, now: int)
    requires 0 < cfg.ttl && ClockWithin(ops + [SetOp(order, now)], 0) && order.UID() != ""
    requires order.UID() !in Ids(Run(cfg, EMPTY_CACHE, ops).slots)
    ensures
      var c := Run(cfg, EMPTY_CACHE, ops);
      var d := Set(cfg, c, order, now);
      && (forall s :: s in d.slots ==> !IsExpired(cfg.ttl, s, now))
      && d.stats.evicted == c.stats.evicted
                            + (if cfg.capacity <= |LiveIds(cfg.ttl, c.slots, now)| then 1 else 0)
  {
    hide Run, LiveIds, Restrict;
    var all := ops + [SetOp(order, now)];
    assert forall i :: 0 <= i < |ops| ==> ops[i] == all[i];
    var c := Run(cfg, EMPTY_CACHE, ops);
    RunWellFormed(cfg, EMPTY_CACHE, ops);
    RunKeepsOrder(cfg, ops, 0);
    FindAbsent(c.slots, order.UID());
    PruneRestricts(cfg.ttl, c.slots, now);
    PruneKeepsLive(cfg.ttl, c.slots, now);
    PrefixKeeps(c.slots, Prune(cfg.ttl, c.slots, now));
    IdsCount(Prune(cfg.ttl, c.slots, now));
  }

  // ----- Nesting is kept -----

  lemma NestedRestrict(small: seq<Slot>, large: seq<Slot>, a: set<string>, b: set<string>)
    requires Nested(small, large) && Ids(small) * a <= b
    ensures Nested(Restrict(small, a), Restrict(large, b))
  {
    RestrictIds(small, a);
    RestrictTwice(large, Ids(small), a);
    RestrictTwice(large, b, Ids(small) * a);
    assert b * (Ids(small) * a) == Ids(small) * a;
  }

  lemma NestedPush(small: seq<Slot>, large: seq<Slot>, s: Slot)
    requires Nested(small, large) && s.id !in Ids(large)
    ensures Nested([s] + small, [s] + large)
  {
    IdsAppend([s], small);
    assert s in [s];
    assert ([s] + large)[1..] == large;
    RestrictSame(large, Ids(small), Ids([s] + small));
  }

  lemma NestedIds(small: seq<Slot>, large: seq<Slot>)
    requires Nested(small, large)
    ensures Ids(small) <= Ids(large)
    ensures forall s :: s in small ==> s in large
  {
    RestrictIds(large, Ids(small));
  }

  /** A slot of the larger list with an id of the smaller one is the same slot there. */
  lemma SameSlot(small: seq<Slot>, large: seq<Slot>, id: string)
    requires Nested(small, large) && Distinct(small) && Distinct(large) && id in Ids(small)
    ensures Find(small, id) < |small| && Find(large, id) < |large|
    ensures small[Find(small, id)] == large[Find(large, id)]
  {
    NestedIds(small, large);
    FindAbsent(small, id);
    FindAbsent(large, id);
    var s := small[Find(small, id)];
    assert s in large;
    var k :| 0 <= k < |large| && large[k] == s;
  }

  lemma IdsDropLast(s: seq<Slot>)
    requires Distinct(s) && s != []
    ensures Ids(s[..|s| - 1]) == Ids(s) - {s[|s| - 1].id}
  {
    var n := |s| - 1;
    assert s == s[..n] + [s[n]] && s[n..] == [s[n]];
    SplitDisjoint(s, n);
    IdsAppend(s[..n], [s[n]]);
    assert Ids([s[n]]) == {s[n].id} by { assert s[n] in [s[n]]; }
  }

  /** Evicting from the smaller cache alone. */
  lemma NestedDropSmall(small: seq<Slot>, large: seq<Slot>)
    requires Nested(small, large) && Distinct(small) && small != []
    ensures Nested(small[..|small| - 1], large)
  {
    IdsDropLast(small);
    PrefixRestricts(small, |small| - 1);
    NestedIds(small, large);
    NestedRestrict(small, large, Ids(small[..|small| - 1]), Ids(large));
    RestrictAll(large, Ids(large));
  }

  lemma LastShared(small: seq<Slot>, large: seq<Slot>)
    requires Nested(small, large) && small != [] && large != []
    requires large[|large| - 1].id in Ids(small)
    ensures small[|small| - 1] == large[|large| - 1]
  {
    var m := |large| - 1;
    assert large == large[..m] + [large[m]];
    RestrictAppend(large[..m], [large[m]], Ids(small));
  }

  /** Evicting from both: if the larger cache evicts a slot the smaller one has, that slot is
      the smaller one's last as well. */
  lemma NestedDropBoth(small: seq<Slot>, large: seq<Slot>)
    requires Nested(small, large) && Distinct(small) && Distinct(large) && small != [] && large != []
    ensures Nested(small[..|small| - 1], large[..|large| - 1])
  {
    var n, m := |small| - 1, |large| - 1;
    NestedIds(small, large);
    IdsDropLast(small);
    IdsDropLast(large);
    PrefixRestricts(small, n);
    PrefixRestricts(large, m);
    assert Ids(small) * Ids(small[..n]) <= Ids(large[..m]) by {
      if large[m].id in Ids(small) { LastShared(small, large); }
    }
    NestedRestrict(small, large, Ids(small[..n]), Ids(large[..m]));
  }

  // ----- How far apart the two caches can drift -----

  lemma SubsetCard<T>(a: set<T>, b: set<T>)
    requires a <= b
    ensures |b - a| == |b| - |a|
  {
    assert b == a + (b - a);
  }

  /** An id both caches have is live in both or in neither. */
  lemma SharedLive(ttl: int, small: seq<Slot>, large: seq<Slot>, now: int)
    requires Nested(small, large) && Distinct(small) && Distinct(large)
    ensures LiveIds(ttl, large, now) * Ids(small) == LiveIds(ttl, small, now)
  {
    NestedIds(small, large);
    forall t | t in large && t.id in Ids(small) ensures t in small {
      SameSlot(small, large, t.id);
      var k :| 0 <= k < |large| && large[k] == t;
      var i := Find(small, t.id);
      assert small[i] in small;
    }
    forall t | t in small ensures t.id in Ids(small) && t in large {}
  }

  /** The invariant of the two runs. `now` is the latest clock reading. */
  ghost predicate Included(ttl: int, c1: int, c2: int, small: seq<Slot>, large: seq<Slot>, now: int) {
    && 1 <= c1 <= c2
    && Proper(small) && |small| <= c1
    && Proper(large) && |large| <= c2
    && (0 < ttl ==> ExpiryOrdered(small, 0) && ExpiryOrdered(large, 0))
    && Nested(small, large)
    && |Surplus(ttl, small, large, now)| <= c2 - c1
  }

  lemma TimePasses(ttl: int, c1: int, c2: int, small: seq<Slot>, large: seq<Slot>, now: int, later: int)
    requires Included(ttl, c1, c2, small, large, now) && (0 < ttl ==> now <= later)
    ensures Included(ttl, c1, c2, small, large, later)
  {
    SubsetCard(Surplus(ttl, small, large, later), Surplus(ttl, small, large, now));
  }

  /** Removing the slot of `id` from both lists. */
  lemma RemoveBoth(small: seq<Slot>, large: seq<Slot>, id: string)
    requires Nested(small, large) && Distinct(small) && Distinct(large) && id in Ids(small)
    ensures Find(small, id) < |small| && Find(large, id) < |large|
    ensures Nested(Without(small, Find(small, id)), Without(large, Find(large, id)))
  {
    SameSlot(small, large, id);
    WithoutRestricts(small, Find(small, id));
    WithoutRestricts(large, Find(large, id));
    NestedIds(small, large);
    NestedRestrict(small, large, Ids(small) - {id}, Ids(large) - {id});
  }

  /** Removing from the larger list an id the smaller one does not have. */
  lemma RemoveLarge(small: seq<Slot>, large: seq<Slot>, id: string)
    requires Nested(small, large) && Distinct(large) && id in Ids(large) && id !in Ids(small)
    ensures Find(large, id) < |large|
    ensures Nested(small, Without(large, Find(large, id)))
  {
    FindAbsent(large, id);
    WithoutRestricts(large, Find(large, id));
    NestedIds(small, large);
    NestedRestrict(small, large, Ids(small), Ids(large) - {id});
    RestrictAll(small, Ids(small));
  }

  lemma PushLarge(small: seq<Slot>, large: seq<Slot>, s: Slot)
    requires Nested(small, large) && s.id !in Ids(small)
    ensures Nested(small, [s] + large)
  {
    assert ([s] + large)[1..] == large;
  }

  // ----- One call on both caches -----

  ghost predicate Close(ttl: int, slack: int, small: seq<Slot>, large: seq<Slot>, now: int) {
    Nested(small, large) && |Surplus(ttl, small, large, now)| <= slack
  }

  lemma IncludedIsClose(ttl: int, c1: int, c2: int, small: seq<Slot>, large: seq<Slot>, now: int)
    requires Included(ttl, c1, c2, small, large, now)
    ensures Close(ttl, c2 - c1, small, large, now) && Nested(small, large)
    ensures Proper(small) && Distinct(small) && |small| <= c1
    ensures Proper(large) && Distinct(large) && |large| <= c2
    ensures 0 < ttl ==> ExpiryOrdered(small, 0) && ExpiryOrdered(large, 0)
  {}

  lemma FewerSurplus(ttl: int, slack: int, s: seq<Slot>, l: seq<Slot>, s': seq<Slot>, l': seq<Slot>, now: int)
    requires Close(ttl, slack, s, l, now) && Nested(s', l')
    requires Surplus(ttl, s', l', now) <= Surplus(ttl, s, l, now)
    ensures Close(ttl, slack, s', l', now)
  {
    SubsetCard(Surplus(ttl, s', l', now), Surplus(ttl, s, l, now));
  }

  lemma LiveAfterPush(ttl: int, l: seq<Slot>, s: Slot, now: int)
    ensures LiveIds(ttl, [s] + l, now) <= LiveIds(ttl, l, now) + {s.id}
    ensures Ids([s] + l) == Ids(l) + {s.id}
  {
    assert forall t :: t in [s] + l <==> t == s || t in l;
  }

  lemma LiveAfterRemove(ttl: int, l: seq<Slot>, i: nat, now: int)
    requires Distinct(l) && i < |l|
    ensures LiveIds(ttl, Without(l, i), now) <= LiveIds(ttl, l, now) - {l[i].id}
    ensures Ids(Without(l, i)) == Ids(l) - {l[i].id}
  {
    WithoutKeeps(l, i);
  }

  function Front(s: Option<Slot>): seq<Slot> { if s.Some? then [s.value] else [] }

  /** The id is in both caches: both drop its slot, or both move it to the front as `s`. */
  lemma TouchBoth(ttl: int, slack: int, small: seq<Slot>, large: seq<Slot>, id: string, s: Option<Slot>, now: int)
    requires Close(ttl, slack, small, large, now) && Distinct(small) && Distinct(large)
    requires id in Ids(small) && (s.Some? ==> s.value.id == id)
    ensures Find(small, id) < |small| && Find(large, id) < |large|
    ensures Close(ttl, slack, Front(s) + Without(small, Find(small, id)),
                  Front(s) + Without(large, Find(large, id)), now)
  {
    RemoveBoth(small, large, id);
    var i, j := Find(small, id), Find(large, id);
    LiveAfterRemove(ttl, small, i, now);
    LiveAfterRemove(ttl, large, j, now);
    var s', l' := Without(small, i), Without(large, j);
    if s.None? {
      assert [] + s' == s' && [] + l' == l';
      FewerSurplus(ttl, slack, small, large, s', l', now);
    } else {
      NestedPush(s', l', s.value);
      LiveAfterPush(ttl, s', s.value, now);
      LiveAfterPush(ttl, l', s.value, now);
      FewerSurplus(ttl, slack, small, large, [s.value] + s', [s.value] + l', now);
    }
  }

  /** The id is in the larger cache only, which alone drops or refreshes it. */
  lemma TouchLarge(ttl: int, slack: int, small: seq<Slot>, large: seq<Slot>, id: string, s: Option<Slot>, now: int)
    requires Close(ttl, slack, small, large, now) && Distinct(small) && Distinct(large)
    requires id in Ids(large) && id !in Ids(small)
    requires s.Some? ==> s.value.id == id && id in LiveIds(ttl, large, now)
    ensures Find(large, id) < |large|
    ensures Close(ttl, slack, small, Front(s) + Without(large, Find(large, id)), now)
  {
    RemoveLarge(small, large, id);
    var j := Find(large, id);
    LiveAfterRemove(ttl, large, j, now);
    var l' := Without(large, j);
    if s.None? {
      assert [] + l' == l';
      FewerSurplus(ttl, slack, small, large, small, l', now);
    } else {
      PushLarge(small, l', s.value);
      LiveAfterPush(ttl, l', s.value, now);
      FewerSurplus(ttl, slack, small, large, small, [s.value] + l', now);
    }
  }

  /** What a `Get` puts at the front when it finds `found`. */
  function Renewed(ttl: int, found: Slot, now: int): Option<Slot> {
    if IsExpired(ttl, found, now) then None
    else Some(found.(expiresAt := if 0 < ttl then now + ttl else found.expiresAt))
  }

  lemma GetTouches(cfg: ValidConfig, c: Cache, id: string, now: int)
    ensures
      var i := Find(c.slots, id);
      Get(cfg, c, id, now).slots
      == if id == "" || i == |c.slots| then c.slots else Front(Renewed(cfg.ttl, c.slots[i], now)) + Without(c.slots, i)
  {
    var i := Find(c.slots, id);
    if i < |c.slots| && IsExpired(cfg.ttl, c.slots[i], now) {
      assert [] + Without(c.slots, i) == Without(c.slots, i);
    }
  }

  /** A hit in the smaller cache is the same hit in the larger. */
  lemma LookupIncluded(c1: ValidConfig, c2: ValidConfig, a: Cache, b: Cache, id: string, now: int)
    requires c1.ttl == c2.ttl && Included(c1.ttl, c1.capacity, c2.capacity, a.slots, b.slots, now)
    ensures Lookup(c1, a, id, now).Some? ==> Lookup(c2, b, id, now) == Lookup(c1, a, id, now)
  {
    hide Nested, ExpiryOrdered, Close, Distinct, Proper, Included;
    IncludedIsClose(c1.ttl, c1.capacity, c2.capacity, a.slots, b.slots, now);
    FindAbsent(a.slots, id);
    if id in Ids(a.slots) { SameSlot(a.slots, b.slots, id); }
  }

  /** `Get` keeps the caches nested. */
  lemma GetIncluded(c1: ValidConfig, c2: ValidConfig, a: Cache, b: Cache, id: string, now: int)
    requires c1.ttl == c2.ttl && Included(c1.ttl, c1.capacity, c2.capacity, a.slots, b.slots, now)
    ensures Close(c1.ttl, c2.capacity - c1.capacity, Get(c1, a, id, now).slots, Get(c2, b, id, now).slots, now)
  {
    hide Nested, ExpiryOrdered, Close, Distinct, Proper, Get, Included, Find, Ids, Without;
    IncludedIsClose(c1.ttl, c1.capacity, c2.capacity, a.slots, b.slots, now);
    var slack := c2.capacity - c1.capacity;
    GetTouches(c1, a, id, now);
    GetTouches(c2, b, id, now);
    if id != "" {
      FindAbsent(a.slots, id);
      FindAbsent(b.slots, id);
      NestedIds(a.slots, b.slots);
      var j := Find(b.slots, id);
      if id in Ids(a.slots) {
        SameSlot(a.slots, b.slots, id);
        TouchBoth(c1.ttl, slack, a.slots, b.slots, id, Renewed(c1.ttl, b.slots[j], now), now);
      } else if id in Ids(b.slots) {
        assert b.slots[j] in b.slots;
        TouchLarge(c1.ttl, slack, a.slots, b.slots, id, Renewed(c1.ttl, b.slots[j], now), now);
      }
    }
  }

  // ----- `Set` of an id new to the smaller cache -----

  /** What the larger cache has in front of which the new slot is pushed: the list without
      the id when it is there, else the pruned list. */
  function Cleared(ttl: int, large: seq<Slot>, id: string, now: int): seq<Slot> {
    var j := Find(large, id);
    if j < |large| then Without(large, j) else Prune(ttl, large, now)
  }

  lemma ClearedLarge(ttl: int, small: seq<Slot>, large: seq<Slot>, id: string, now: int)
    requires Nested(small, large) && Distinct(small) && Distinct(large) && id !in Ids(small)
    requires 0 < ttl ==> ExpiryOrdered(small, 0) && ExpiryOrdered(large, 0)
    ensures Nested(Prune(ttl, small, now), Cleared(ttl, large, id, now))
    ensures id !in Ids(Cleared(ttl, large, id, now))
    ensures LiveIds(ttl, Cleared(ttl, large, id, now), now) <= LiveIds(ttl, large, now)
    ensures Ids(Prune(ttl, small, now)) == LiveIds(ttl, small, now)
  {
    SharedLive(ttl, small, large, now);
    FindAbsent(large, id);
    PruneRestricts(ttl, small, now);
    var live := LiveIds(ttl, small, now);
    var j := Find(large, id);
    if j < |large| {
      WithoutRestricts(large, j);
      LiveAfterRemove(ttl, large, j, now);
      NestedIds(small, large);
      NestedRestrict(small, large, live, Ids(large) - {id});
    } else {
      PruneRestricts(ttl, large, now);
      PruneKeepsLive(ttl, large, now);
      NestedRestrict(small, large, live, LiveIds(ttl, large, now));
    }
  }

  /** The last slot goes if the list is over capacity. */
  function Trim(capacity: int, slots: seq<Slot>): seq<Slot> {
    if capacity < |slots| && slots != [] then slots[..|slots| - 1] else slots
  }

  lemma SetTrims(cfg: ValidConfig, c: Cache, order: Order, now: int)
    requires order.UID() != "" && |c.slots| <= cfg.capacity
    ensures
      var stored := Slot(order.UID(), order, ExpiryFrom(cfg.ttl, now));
      Set(cfg, c, order, now).slots == Trim(cfg.capacity, [stored] + Cleared(cfg.ttl, c.slots, order.UID(), now))
  {}

  lemma PushCleared(ttl: int, slots: seq<Slot>, s: Slot, now: int)
    requires Proper(slots) && s.id != "" && s.order.UID() == s.id
    ensures Proper([s] + Cleared(ttl, slots, s.id, now)) && Distinct([s] + Cleared(ttl, slots, s.id, now))
  {
    var j := Find(slots, s.id);
    if j < |slots| { WithoutKeeps(slots, j); } else { PrefixKeeps(slots, Prune(ttl, slots, now)); }
    PushKeeps(Cleared(ttl, slots, s.id, now), s);
  }

  lemma FullIsClose(ttl: int, c1: int, c2: int, small: seq<Slot>, large: seq<Slot>, now: int)
    requires Nested(small, large) && Distinct(small) && Distinct(large)
    requires |small| == c1 && |large| <= c2
    ensures Close(ttl, c2 - c1, small, large, now)
  {
    NestedIds(small, large);
    IdsCount(small);
    IdsCount(large);
    SubsetCard(Ids(small), Ids(large));
    SubsetCard(Surplus(ttl, small, large, now), Ids(large) - Ids(small));
  }

  /** If pruning leaves the smaller cache room, the larger one has room as well: this is what
      the bound on the surplus is for. */
  lemma RoomInLarge(ttl: int, c1: int, c2: int, small: seq<Slot>, large: seq<Slot>, id: string, now: int)
    requires Included(ttl, c1, c2, small, large, now) && id !in Ids(small)
    requires |Prune(ttl, small, now)| < c1
    ensures |Cleared(ttl, large, id, now)| < c2
  {
    hide Nested, ExpiryOrdered, Distinct, Restrict;
    if Find(large, id) == |large| {
      var kept, cleared := Prune(ttl, small, now), Prune(ttl, large, now);
      PrefixKeeps(large, cleared);
      PrefixKeeps(small, kept);
      IdsCount(cleared);
      IdsCount(kept);
      PruneRestricts(ttl, small, now);
      PruneRestricts(ttl, large, now);
      SharedLive(ttl, small, large, now);
      SubsetCard(LiveIds(ttl, small, now), LiveIds(ttl, large, now));
      assert LiveIds(ttl, large, now) - LiveIds(ttl, small, now) == Surplus(ttl, small, large, now);
    }
  }

  lemma PushBoth(ttl: int, slack: int, small: seq<Slot>, large: seq<Slot>, s: Slot, now: int)
    requires Close(ttl, slack, small, large, now) && s.id !in Ids(small)
    requires Distinct(small) && Distinct(large)
    requires 0 < ttl ==> ExpiryOrdered(small, 0) && ExpiryOrdered(large, 0)
    ensures Close(ttl, slack, [s] + Prune(ttl, small, now), [s] + Cleared(ttl, large, s.id, now), now)
  {
    var kept, cleared := Prune(ttl, small, now), Cleared(ttl, large, s.id, now);
    SharedLive(ttl, small, large, now);
    ClearedLarge(ttl, small, large, s.id, now);
    NestedPush(kept, cleared, s);
    LiveAfterPush(ttl, cleared, s, now);
    LiveAfterPush(ttl, kept, s, now);
    FewerSurplus(ttl, slack, small, large, [s] + kept, [s] + cleared, now);
  }

  lemma PushWhenFull(ttl: int, c1: int, c2: int, small: seq<Slot>, large: seq<Slot>, s: Slot, now: int)
    requires Proper(small) && Proper(large) && Nested(small, large) && 1 <= c1 <= c2
    requires 0 < ttl ==> ExpiryOrdered(small, 0) && ExpiryOrdered(large, 0)
    requires s.id !in Ids(small) && s.id != "" && s.order.UID() == s.id
    requires |Prune(ttl, small, now)| == c1 && |Cleared(ttl, large, s.id, now)| <= c2
    ensures Close(ttl, c2 - c1, Trim(c1, [s] + Prune(ttl, small, now)),
                  Trim(c2, [s] + Cleared(ttl, large, s.id, now)), now)
  {
    hide Nested, ExpiryOrdered, Close, Distinct, Proper, Prune, Find, Ids;
    ProperDistinct(small);
    ProperDistinct(large);
    var kept, cleared := [s] + Prune(ttl, small, now), [s] + Cleared(ttl, large, s.id, now);
    FindAbsent(small, s.id);
    ClearedLarge(ttl, small, large, s.id, now);
    NestedPush(Prune(ttl, small, now), Cleared(ttl, large, s.id, now), s);
    PushCleared(ttl, small, s, now);
    PushCleared(ttl, large, s, now);
    var a, b := Trim(c1, kept), Trim(c2, cleared);
    PrefixKeeps(kept, a);
    PrefixKeeps(cleared, b);
    if c2 < |cleared| { NestedDropBoth(kept, cleared); } else { NestedDropSmall(kept, cleared); }
    FullIsClose(ttl, c1, c2, a, b, now);
  }

  /** `Set` of an id the smaller cache does not have. */
  lemma SetNewIncluded(c1: ValidConfig, c2: ValidConfig, a: Cache, b: Cache, order: Order, now: int)
    requires c1.ttl == c2.ttl && Included(c1.ttl, c1.capacity, c2.capacity, a.slots, b.slots, now)
    requires order.UID() != "" && order.UID() !in Ids(a.slots)
    ensures Close(c1.ttl, c2.capacity - c1.capacity, Set(c1, a, order, now).slots, Set(c2, b, order, now).slots, now)
  {
    var stored := Slot(order.UID(), order, ExpiryFrom(c1.ttl, now));
    FindAbsent(a.slots, order.UID());
    SetTrims(c1, a, order, now);
    SetTrims(c2, b, order, now);
    if |Prune(c1.ttl, a.slots, now)| < c1.capacity {
      RoomInLarge(c1.ttl, c1.capacity, c2.capacity, a.slots, b.slots, stored.id, now);
      PushBoth(c1.ttl, c2.capacity - c1.capacity, a.slots, b.slots, stored, now);
    } else {
      PushWhenFull(c1.ttl, c1.capacity, c2.capacity, a.slots, b.slots, stored, now);
    }
  }

  lemma SetIncluded(c1: ValidConfig, c2: ValidConfig, a: Cache, b: Cache, order: Order, now: int)
    requires c1.ttl == c2.ttl && Included(c1.ttl, c1.capacity, c2.capacity, a.slots, b.slots, now)
    requires WellFormed(c1, a) && WellFormed(c2, b)
    ensures Close(c1.ttl, c2.capacity - c1.capacity, Set(c1, a, order, now).slots, Set(c2, b, order, now).slots, now)
  {
    hide Nested, ExpiryOrdered, Close, Distinct, Proper, Included;
    IncludedIsClose(c1.ttl, c1.capacity, c2.capacity, a.slots, b.slots, now);
    if order.UID() != "" {
      if order.UID() in Ids(a.slots) {
        var stored := Slot(order.UID(), order, ExpiryFrom(c1.ttl, now));
        TouchBoth(c1.ttl, c2.capacity - c1.capacity, a.slots, b.slots, order.UID(), Some(stored), now);
      } else {
        SetNewIncluded(c1, c2, a, b, order, now);
      }
    }
  }

  // ----- Whole runs -----

  /** The clock never goes back. It is only asked for when there is a TTL to compare it with. */
  ghost predicate Monotone(ops: seq<Op>) { ClockWithin(ops, 0) }

  lemma {:induction false} RunIncluded(c1: ValidConfig, c2: ValidConfig, ops: seq<Op>, now: int)
    requires c1.ttl == c2.ttl && c1.capacity <= c2.capacity
    requires 0 < c1.ttl ==> Monotone(ops) && forall i :: 0 <= i < |ops| ==> ops[i].now <= now
    ensures Included(c1.ttl, c1.capacity, c2.capacity,
                     Run(c1, EMPTY_CACHE, ops).slots, Run(c2, EMPTY_CACHE, ops).slots, now)
  {
    RunWellFormed(c1, EMPTY_CACHE, ops);
    RunWellFormed(c2, EMPTY_CACHE, ops);
    if 0 < c1.ttl {
      RunKeepsOrder(c1, ops, 0);
      RunKeepsOrder(c2, ops, 0);
    }
    if ops == [] {
    } else {
      var before, op := ops[..|ops| - 1], ops[|ops| - 1];
      var a, b := Run(c1, EMPTY_CACHE, before), Run(c2, EMPTY_CACHE, before);
      RunIncluded(c1, c2, before, op.now);
      RunWellFormed(c1, EMPTY_CACHE, before);
      RunWellFormed(c2, EMPTY_CACHE, before);
      match op {
        case GetOp(id, _) => GetIncluded(c1, c2, a, b, id, op.now);
        case SetOp(order, _) => SetIncluded(c1, c2, a, b, order, op.now);
      }
      TimePasses(c1.ttl, c1.capacity, c2.capacity,
                 Run(c1, EMPTY_CACHE, ops).slots, Run(c2, EMPTY_CACHE, ops).slots, op.now, now);
    }
  }

  /** The theorem. After any run of timed calls under a monotone clock the list of the smaller
      cache is a subsequence of the larger one's, slot for slot, and whatever the next `Get`
      finds in the smaller cache it finds in the larger one. */
  lemma Inclusion(c1: ValidConfig, c2: ValidConfig, ops: seq<Op>, id: string, now: int)
    requires c1.ttl == c2.ttl && c1.capacity <= c2.capacity
    requires 0 < c1.ttl ==> Monotone(ops + [GetOp(id, now)])
    ensures
      var a, b := Run(c1, EMPTY_CACHE, ops), Run(c2, EMPTY_CACHE, ops);
      && a.slots == Restrict(b.slots, Ids(a.slots))
      && |LiveIds(c1.ttl, b.slots, now) - Ids(a.slots)| <= c2.capacity - c1.capacity
      && (Lookup(c1, a, id, now).Some? ==> Lookup(c2, b, id, now) == Lookup(c1, a, id, now))
  {
    var all := ops + [GetOp(id, now)];
    assert forall i :: 0 <= i < |ops| ==> ops[i] == all[i];
    assert 0 < c1.ttl ==> forall i :: 0 <= i < |ops| ==> all[i].now - 0 <= all[|ops|].now;
    RunIncluded(c1, c2, ops, now);
    LookupIncluded(c1, c2, Run(c1, EMPTY_CACHE, ops), Run(c2, EMPTY_CACHE, ops), id, now);
  }
}
