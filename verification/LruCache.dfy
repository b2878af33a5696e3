/** `LRUCacheTTL` of internal/cache/memory, with its list nodes, its index and its entries on
    the heap. Every method is proved against `LruSpec`. The clock reading `now` a call makes
    before taking the lock is a parameter; a call is one atomic step. */
module LruCache {
  import opened Domain
  import opened Sequences
  import opened LinkedList
  import opened LruSpec

  class Entry {
    const id: string
    var order: OrderObject
    var expiresAt: int

    constructor (id: string, order: OrderObject, expiresAt: int)
      ensures this.id == id && this.order == order && this.expiresAt == expiresAt
    {
      this.id, this.order, this.expiresAt := id, order, expiresAt;
    }
  }

  /** What container/list stores in an element; the cache expects entries. */
  datatype Any = EntryValue(entry: Entry) | OtherValue

  /** A copy that shares neither the object nor the item array; no items give a nil slice, and
      no order gives none. */
  method CloneOrder(order: OrderObject?) returns (clone: OrderObject?)
    ensures clone == null <==> order == null
    ensures order != null ==>
              fresh(clone) && (clone.items != null ==> fresh(clone.items)) && clone.Value() == order.Value()
  {
    if order == null {
      return null;
    }
    clone := new OrderObject(order.base, order.delivery, order.payment, null);
    if order.items != null && order.items.Length != 0 {
      var source := order.items;
      var copy := new Item[source.Length](i requires 0 <= i < source.Length reads source => source[i]);
      clone.items := copy;
      assert copy[..] == source[..];
    }
  }

  /** The objects a cache owns beside its list: nobody else holds a pointer to them. */
  datatype Owned = Owned(
    nodes: set<Element<Any>>, entries: set<Entry>, orders: set<OrderObject>, arrays: set<array<Item>>)

  /** The entry has the content of `s`, all of it owned by the cache. */
  ghost predicate Stores(e: Entry, s: Slot, owned: Owned)
    reads owned.entries, owned.orders, owned.arrays
  {
    && e in owned.entries && e.id == s.id && e.expiresAt == s.expiresAt
    && e.order in owned.orders && (e.order.items != null ==> e.order.items in owned.arrays)
    && e.order.Value() == s.order
  }

  ghost predicate Holds(n: Element<Any>, s: Slot, owned: Owned)
    reads owned.entries, owned.orders, owned.arrays
  {
    n.value.EntryValue? && Stores(n.value.entry, s, owned)
  }

  ghost predicate Matches(nodes: seq<Element<Any>>, slots: seq<Slot>, owned: Owned)
    reads owned.entries, owned.orders, owned.arrays
  {
    |nodes| == |slots| && forall i :: 0 <= i < |slots| ==> Holds(nodes[i], slots[i], owned)
  }

  /** The index maps each id to the node holding it, and nothing else. */
  ghost predicate Indexed(index: map<string, Element<Any>>, nodes: seq<Element<Any>>, slots: seq<Slot>) {
    && |nodes| == |slots|
    && index.Keys == Ids(slots)
    && forall i :: 0 <= i < |slots| ==> slots[i].id in index && index[slots[i].id] == nodes[i]
  }

  ghost predicate Within(a: Owned, b: Owned) {
    a.nodes <= b.nodes && a.entries <= b.entries && a.orders <= b.orders && a.arrays <= b.arrays
  }

  lemma EntryAt(nodes: seq<Element<Any>>, slots: seq<Slot>, owned: Owned, k: nat)
    requires Matches(nodes, slots, owned) && k < |slots|
    ensures k < |nodes| && Holds(nodes[k], slots[k], owned)
    ensures nodes[k].value.EntryValue? && nodes[k].value.entry.id == slots[k].id
  {}

  lemma MatchesWithout(nodes: seq<Element<Any>>, slots: seq<Slot>, owned: Owned, k: nat)
    requires Matches(nodes, slots, owned) && k < |slots|
    ensures k < |nodes| && Matches(Without(nodes, k), Without(slots, k), owned)
  {}

  /** All nodes but the one at `k`, over the entries other than its own. */
  ghost predicate MatchesBut(nodes: seq<Element<Any>>, slots: seq<Slot>, owned: Owned, k: nat)
    reads owned.entries, owned.orders, owned.arrays
  {
    |nodes| == |slots| && forall i :: 0 <= i < |slots| && i != k ==> Holds(nodes[i], slots[i], owned)
  }

  /** No other node shares the entry at `k`, because ids are distinct. */
  lemma MatchesSplit(nodes: seq<Element<Any>>, slots: seq<Slot>, owned: Owned, k: nat)
    requires Matches(nodes, slots, owned) && Proper(slots)
    requires k < |slots| && k < |nodes| && nodes[k].value.EntryValue?
    ensures MatchesBut(nodes, slots, owned.(entries := owned.entries - {nodes[k].value.entry}), k)
  {
    forall i | 0 <= i < |slots| && i != k
      ensures Holds(nodes[i], slots[i], owned.(entries := owned.entries - {nodes[k].value.entry}))
    {
      assert slots[i].id != slots[k].id;
      assert Holds(nodes[i], slots[i], owned) && Holds(nodes[k], slots[k], owned);
    }
  }

  lemma MatchesJoin(nodes: seq<Element<Any>>, slots: seq<Slot>, part: Owned, owned: Owned, k: nat, s: Slot)
    requires MatchesBut(nodes, slots, part, k) && Within(part, owned)
    requires k < |slots| && Holds(nodes[k], s, owned)
    ensures Matches(nodes, slots[k := s], owned)
  {}

  lemma MatchesGrows(nodes: seq<Element<Any>>, slots: seq<Slot>, owned: Owned, more: Owned)
    requires Matches(nodes, slots, owned) && Within(owned, more)
    ensures Matches(nodes, slots, more)
  {}

  lemma MatchesPush(nodes: seq<Element<Any>>, slots: seq<Slot>, owned: Owned, n: Element<Any>, s: Slot)
    requires Matches(nodes, slots, owned) && Holds(n, s, owned)
    ensures Matches([n] + nodes, [s] + slots, owned)
  {}

  lemma IndexedPush(index: map<string, Element<Any>>, nodes: seq<Element<Any>>, slots: seq<Slot>, n: Element<Any>,
                    s: Slot)
    requires Indexed(index, nodes, slots) && Proper(slots) && s.id !in Ids(slots)
    requires s.id != "" && s.order.UID() == s.id
    ensures Indexed(index[s.id := n], [n] + nodes, [s] + slots)
    ensures Proper([s] + slots)
  {
    PushKeeps(slots, s);
    var all := [s] + slots;
    assert Ids(all) == Ids(slots) + {s.id} by { assert forall t :: t in all <==> t == s || t in slots; }
    forall i | 0 <= i < |all|
      ensures all[i].id in index[s.id := n] && index[s.id := n][all[i].id] == ([n] + nodes)[i]
    {
      if 0 < i { assert all[i] == slots[i - 1] && slots[i - 1] in slots; }
    }
  }

  lemma IndexedWithout(index: map<string, Element<Any>>, nodes: seq<Element<Any>>, slots: seq<Slot>, k: nat)
    requires Indexed(index, nodes, slots) && Proper(slots) && k < |slots|
    ensures k < |nodes| && Indexed(index - {slots[k].id}, Without(nodes, k), Without(slots, k))
    ensures Proper(Without(slots, k))
  {
    WithoutKeeps(slots, k);
    var rest := Without(slots, k);
    forall i | 0 <= i < |rest|
      ensures rest[i].id in index - {slots[k].id} && index[rest[i].id] == Without(nodes, k)[i]
    {
      assert rest[i] in rest;
      assert rest[i] == slots[if i < k then i else i + 1];
    }
  }

  /** Moving a node to the front leaves the index as it is. */
  lemma IndexedMove(index: map<string, Element<Any>>, nodes: seq<Element<Any>>, slots: seq<Slot>, k: nat)
    requires Indexed(index, nodes, slots) && Proper(slots) && k < |slots|
    ensures k < |nodes| && Indexed(index, [nodes[k]] + Without(nodes, k), [slots[k]] + Without(slots, k))
    ensures Proper([slots[k]] + Without(slots, k))
  {
    var id := slots[k].id;
    assert slots[k] in slots;
    IndexedWithout(index, nodes, slots, k);
    IndexedPush(index - {id}, Without(nodes, k), Without(slots, k), nodes[k], slots[k]);
    assert (index - {id})[id := nodes[k]] == index;
  }

  /** Replacing the content of a slot leaves the index as it is. */
  lemma IndexedReplace(index: map<string, Element<Any>>, nodes: seq<Element<Any>>, slots: seq<Slot>, k: nat, s: Slot)
    requires Indexed(index, nodes, slots) && Proper(slots) && k < |slots|
    requires s.id == slots[k].id && s.order.UID() == s.id
    ensures Indexed(index, nodes, slots[k := s])
    ensures Proper(slots[k := s])
  {
    var after := slots[k := s];
    assert forall i :: 0 <= i < |slots| ==> after[i].id == slots[i].id;
    assert slots[k] in slots;
    SubIds(slots, after);
    SubIds(after, slots);
  }

  lemma SubIds(a: seq<Slot>, b: seq<Slot>)
    requires |a| == |b| && forall i :: 0 <= i < |a| ==> a[i].id == b[i].id
    ensures Ids(a) <= Ids(b)
  {
    forall s | s in a ensures s.id in Ids(b) {
      var i :| 0 <= i < |a| && a[i] == s;
      assert b[i] in b;
    }
  }

  lemma WithoutSubset<T>(s: seq<T>, k: nat)
    requires k < |s|
    ensures forall x :: x in Without(s, k) ==> x in s
  {}

  lemma PruneStep(ttl: int, slots: seq<Slot>, now: int)
    ensures slots == [] || !IsExpired(ttl, slots[|slots| - 1], now) ==> Prune(ttl, slots, now) == slots
    ensures slots != [] && IsExpired(ttl, slots[|slots| - 1], now) ==>
              Prune(ttl, slots, now) == Prune(ttl, Without(slots, |slots| - 1), now)
  {
    if slots != [] { assert Without(slots, |slots| - 1) == slots[..|slots| - 1]; }
  }

  lemma ValueUID(order: OrderObject)
    ensures order.Value().UID() == order.base.orderUID
  {}

  lemma SetRefuses(cfg: ValidConfig, c: Cache, order: Order, now: int)
    ensures order.UID() == "" ==> LruSpec.Set(cfg, c, order, now) == c
  {}

  /** The end of a `Set` of a new id, from what pruning, pushing and evicting leave. */
  lemma SetOfNew(cfg: ValidConfig, c: Cache, order: Order, now: int, after: Cache)
    requires order.UID() != "" && Find(c.slots, order.UID()) == |c.slots|
    requires
      var kept := Prune(cfg.ttl, c.slots, now);
      var pushed := [Slot(order.UID(), order, ExpiryFrom(cfg.ttl, now))] + kept;
      var pruned := c.stats.(expired := c.stats.expired + (|c.slots| - |kept|));
      after == if cfg.capacity < |pushed|
               then Cache(pushed[..|pushed| - 1], pruned.(evicted := pruned.evicted + 1, size := |pushed| - 1))
               else Cache(pushed, pruned.(size := |pushed|))
    ensures after == LruSpec.Set(cfg, c, order, now)
  {}

  /** The content of each order there is. */
  ghost predicate AreValues(orders: seq<OrderObject?>, values: seq<Order>)
    reads set o | o in orders && o != null :: o
    reads set o | o in orders && o != null && o.items != null :: o.items
  {
    |orders| == |values| && forall i :: 0 <= i < |orders| && orders[i] != null ==> orders[i].Value() == values[i]
  }

  datatype WarmUpEnd = Warmed | Cancelled | Refused

  lemma WarmUpNone(cfg: ValidConfig, c: Cache, values: seq<Order>, nows: seq<int>)
    ensures Run(cfg, c, WarmUpOps(values[..0], nows[..0])) == c
  {}

  lemma WarmUpMore(cfg: ValidConfig, c: Cache, values: seq<Order>, nows: seq<int>, n: nat)
    requires |nows| == |values| && n < |values|
    ensures
      Run(cfg, c, WarmUpOps(values[..n + 1], nows[..n + 1]))
      == LruSpec.Set(cfg, Run(cfg, c, WarmUpOps(values[..n], nows[..n])), values[n], nows[n])
  {
    assert WarmUpOps(values[..n + 1], nows[..n + 1])[..n] == WarmUpOps(values[..n], nows[..n]);
  }

  class LRUCacheTTL {
    const capacity: int
    const ttl: int
    const ll: List<Any>
    var cache: map<string, Element<Any>>
    /** The Prometheus counters and gauge. */
    var stats: Stats

    /** The list as values. */
    ghost var slots: seq<Slot>
    ghost var owned: Owned

    function Config(): ValidConfig
      requires 1 <= capacity
    {
      LruSpec.Config(capacity, ttl)
    }

    /** The list holds these slots, in entries the cache owns, and this index finds them. */
    ghost predicate LinkedBy(index: map<string, Element<Any>>, slots: seq<Slot>, owned: Owned)
      reads ll, ll.nodes, owned.entries, owned.orders, owned.arrays
    {
      && 1 <= capacity
      && ll.Valid()
      && (forall n :: n in ll.nodes ==> n in owned.nodes)
      && Matches(ll.nodes, slots, owned)
      && Proper(slots)
      && Indexed(index, ll.nodes, slots)
    }

    ghost predicate Linked()
      reads `cache, `slots, `owned, ll, ll.nodes, owned.entries, owned.orders, owned.arrays
    {
      LinkedBy(cache, slots, owned)
    }

    ghost predicate Valid()
      reads this, ll, ll.nodes, owned.entries, owned.orders, owned.arrays
    {
      Linked() && WellFormed(Config(), Contents())
    }

    ghost function Contents(): Cache
      reads this
    {
      Cache(slots, stats)
    }

    /** The objects a call may write to. Stored orders and item arrays are not among them. */
    ghost function Footprint(): set<object>
      reads this, ll
    {
      {this, ll} + owned.nodes + owned.entries
    }

    /** The stored orders and item arrays. */
    ghost function Stored(): set<object>
      reads `owned
    {
      owned.orders + owned.arrays
    }

    constructor (capacity: int, ttl: int)
      ensures Valid() && fresh(Footprint()) && owned == Owned({}, {}, {}, {})
      ensures this.capacity == (if capacity <= 0 then 1 else capacity) && this.ttl == ttl
      ensures Contents() == EMPTY_CACHE
    {
      this.capacity := if capacity <= 0 then 1 else capacity;
      this.ttl := ttl;
      ll := new List<Any>();
      cache, stats, slots, owned := map[], EMPTY_CACHE.stats, [], Owned({}, {}, {}, {});
    }

    /** What the linked structure says about the last node, and about the length. */
    lemma AtBack()
      requires Linked()
      ensures |ll.nodes| == |slots| == ll.len
      ensures slots == [] ==> ll.tail == null
      ensures slots != [] ==>
                && ll.tail == ll.nodes[|slots| - 1] && ll.tail.value.EntryValue?
                && ll.tail.value.entry in owned.entries
                && ll.tail.value.entry.expiresAt == slots[|slots| - 1].expiresAt
    {
      if slots != [] { EntryAt(ll.nodes, slots, owned, |slots| - 1); }
    }

    lemma AtLeastOne()
      requires Linked()
      ensures 1 <= capacity
    {}

    lemma ValidConfigured()
      requires Valid()
      ensures 1 <= capacity
    {}

    /** What the linked structure says about the node at position `k`. */
    lemma AtNode(k: nat)
      requires Linked() && k < |slots|
      ensures |ll.nodes| == |slots| && ll.nodes[k].value.EntryValue?
      ensures
        var ent := ll.nodes[k].value.entry;
        && ent in owned.entries && ent.id == slots[k].id && ent.expiresAt == slots[k].expiresAt
        && ent.order in owned.orders && ent.order.Value() == slots[k].order
        && (ent.order.items != null ==> ent.order.items in owned.arrays)
        && ent.order.base.orderUID == slots[k].id
    {
      EntryAt(ll.nodes, slots, owned, k);
      assert slots[k] in slots;
    }

    /** What the index says about an id. */
    lemma AtId(id: string)
      requires Linked()
      ensures |ll.nodes| == |slots|
      ensures var k := Find(slots, id); id in cache <==> k < |slots|
      ensures var k := Find(slots, id); k < |slots| ==> cache[id] == ll.nodes[k]
    {
      FindAbsent(slots, id);
    }

    /** Deletes a node from the list and its id from the index. */
    method RemoveElement(elem: Element<Any>, ghost k: nat)
      requires Linked() && k < |slots| && k < |ll.nodes| && ll.nodes[k] == elem
      modifies this`cache, this`slots, ll, owned.nodes
      ensures Linked()
      ensures slots == Without(old(slots), k) && ll.nodes == Without(old(ll.nodes), k)
    {
      hide Matches, Indexed, Proper, Holds, List.Valid;
      EntryAt(ll.nodes, slots, owned, k);
      MatchesWithout(ll.nodes, slots, owned, k);
      IndexedWithout(cache, ll.nodes, slots, k);
      WithoutSubset(ll.nodes, k);
      if elem.value.EntryValue? {
        cache := cache - {elem.value.entry.id};
      }
      ll.Remove(elem, k);
      slots := Without(slots, k);
      assert unchanged(owned.entries) && unchanged(owned.orders) && unchanged(owned.arrays);
    }

    /** Moves a node to the front; the index does not change. */
    method Promote(elem: Element<Any>, ghost k: nat)
      requires Linked() && k < |slots| && k < |ll.nodes| && ll.nodes[k] == elem
      modifies this`slots, ll, owned.nodes
      ensures Linked()
      ensures slots == [old(slots)[k]] + Without(old(slots), k)
      ensures ll.nodes == [elem] + Without(old(ll.nodes), k)
    {
      hide Matches, Indexed, Proper, Holds, List.Valid;
      EntryAt(ll.nodes, slots, owned, k);
      MatchesWithout(ll.nodes, slots, owned, k);
      MatchesPush(Without(ll.nodes, k), Without(slots, k), owned, elem, slots[k]);
      IndexedMove(cache, ll.nodes, slots, k);
      WithoutSubset(ll.nodes, k);
      ll.MoveToFront(elem, k);
      slots := [slots[k]] + Without(slots, k);
      assert unchanged(owned.entries) && unchanged(owned.orders) && unchanged(owned.arrays);
    }

    /** Overwrites the fields of the entry at position `k`. No other node shares the entry,
        because ids are distinct. */
    method UpdateEntry(ent: Entry, order: OrderObject, expiresAt: int, ghost k: nat)
      requires Linked() && k < |slots| && k < |ll.nodes| && ll.nodes[k].value == EntryValue(ent)
      requires order in owned.orders && (order.items != null ==> order.items in owned.arrays)
      requires order.base.orderUID == ent.id
      modifies this`slots, ent
      ensures Linked()
      ensures slots == old(slots)[k := Slot(ent.id, order.Value(), expiresAt)]
    {
      hide Matches, MatchesBut, Indexed, Proper;
      ghost var s := Slot(ent.id, order.Value(), expiresAt);
      ghost var part := owned.(entries := owned.entries - {ent});
      EntryAt(ll.nodes, slots, owned, k);
      MatchesSplit(ll.nodes, slots, owned, k);
      IndexedReplace(cache, ll.nodes, slots, k, s);
      ent.order, ent.expiresAt := order, expiresAt;
      assert unchanged(part.entries) && unchanged(part.orders) && unchanged(part.arrays);
      MatchesJoin(ll.nodes, slots, part, owned, k, s);
      slots := slots[k := s];
    }

    /** Evicts the least recently used element. */
    method EvictLRU()
      requires Linked()
      modifies this`cache, this`slots, this`stats, ll, owned.nodes
      ensures Linked()
      ensures old(slots) == [] ==> slots == [] && stats == old(stats)
      ensures old(slots) != [] ==>
                && slots == old(slots)[..|old(slots)| - 1]
                && stats == old(stats).(evicted := old(stats).evicted + 1, size := |slots|)
    {
      hide Linked;
      AtBack();
      var back := ll.tail;
      if back != null {
        RemoveElement(back, |slots| - 1);
        AtBack();
        stats := stats.(evicted := stats.evicted + 1, size := ll.len);
      }
    }

    /** Deletes the last element if it has expired. */
    method DropExpiredBack(now: int) returns (dropped: bool)
      requires Linked() && 0 < ttl
      modifies this`cache, this`slots, this`stats, ll, owned.nodes
      ensures Linked()
      ensures dropped <==> old(slots) != [] && IsExpired(ttl, old(slots)[|old(slots)| - 1], now)
      ensures !dropped ==> slots == old(slots) && stats == old(stats)
      ensures dropped ==>
                && slots == Without(old(slots), |old(slots)| - 1)
                && stats == old(stats).(expired := old(stats).expired + 1, size := |slots|)
    {
      hide Linked, List.Valid;
      AtBack();
      var back := ll.tail;
      if back == null {
        return false;
      }
      if !back.value.EntryValue? {
        assert false;
      }
      if back.value.entry.expiresAt < now {
        RemoveElement(back, |slots| - 1);
        AtBack();
        stats := stats.(expired := stats.expired + 1, size := ll.len);
        dropped := true;
      } else {
        dropped := false;
      }
    }

    /** Deletes expired elements from the back, up to the first live one. */
    method PruneExpiredFromBack(now: int)
      requires Linked()
      modifies this`cache, this`slots, this`stats, ll, owned.nodes
      ensures Linked()
      ensures slots == Prune(ttl, old(slots), now)
      ensures stats == old(stats).(expired := old(stats).expired + (|old(slots)| - |slots|),
                                   size := if |slots| < |old(slots)| then |slots| else old(stats).size)
    {
      hide Linked, Prune, List.Valid;
      PruneStep(ttl, slots, now);
      if ttl <= 0 {
        return;
      }
      ghost var all, before := slots, stats;
      var more := true;
      while more
        invariant Linked()
        invariant Prune(ttl, slots, now) == Prune(ttl, all, now)
        invariant !more ==> slots == Prune(ttl, slots, now)
        invariant |slots| <= |all|
        invariant stats == before.(expired := before.expired + (|all| - |slots|),
                                   size := if |slots| < |all| then |slots| else before.size)
        decreases |slots| + if more then 1 else 0
      {
        PruneStep(ttl, slots, now);
        more := DropExpiredBack(now);
      }
    }

    /** Stores a private copy of the caller's order. */
    method Adopt(order: OrderObject) returns (clone: OrderObject)
      requires Linked()
      modifies `owned
      ensures Linked() && owned == old(owned).(orders := owned.orders, arrays := owned.arrays)
      ensures fresh(owned.orders - old(owned).orders) && fresh(owned.arrays - old(owned).arrays)
      ensures clone in owned.orders && (clone.items != null ==> clone.items in owned.arrays)
      ensures clone.Value() == order.Value()
    {
      hide Matches, Indexed, Proper, OrderObject.Value, List.Valid;
      var copy := CloneOrder(order);
      clone := copy;
      ghost var arrays: set<array<Item>> := if clone.items == null then {} else {clone.items};
      ghost var more := owned.(orders := owned.orders + {clone}, arrays := owned.arrays + arrays);
      MatchesGrows(ll.nodes, slots, owned, more);
      owned := more;
    }

    method NewEntry(id: string, order: OrderObject, expiresAt: int) returns (ent: Entry)
      requires Linked()
      modifies `owned
      ensures Linked()
      ensures fresh(ent) && owned == old(owned).(entries := old(owned).entries + {ent})
      ensures ent.id == id && ent.order == order && ent.expiresAt == expiresAt
    {
      hide Matches, Indexed, Proper;
      ent := new Entry(id, order, expiresAt);
      ghost var more := owned.(entries := owned.entries + {ent});
      MatchesGrows(ll.nodes, slots, owned, more);
      owned := more;
    }

    lemma IsStored(ent: Entry, s: Slot)
      requires s == Slot(ent.id, ent.order.Value(), ent.expiresAt) && ent in owned.entries && ent.order in owned.orders
      requires ent.order.items != null ==> ent.order.items in owned.arrays
      ensures Stores(ent, s, owned)
    {}

    /** Links a new node for an entry in front of the others. */
    method PushEntry(ent: Entry, ghost s: Slot) returns (elem: Element<Any>)
      requires Linked() && ent.id != "" && Find(slots, ent.id) == |slots|
      requires s == Slot(ent.id, ent.order.Value(), ent.expiresAt) && s.order.UID() == s.id
      requires ent in owned.entries && ent.order in owned.orders
      requires ent.order.items != null ==> ent.order.items in owned.arrays
      modifies ll, owned.nodes
      ensures fresh(elem)
      ensures LinkedBy(cache[ent.id := elem], [s] + slots, owned.(nodes := owned.nodes + {elem}))
    {
      hide Matches, Indexed, Proper, Stores, List.Valid;
      FindAbsent(slots, ent.id);
      ghost var nodes := ll.nodes;
      IsStored(ent, s);
      elem := ll.PushFront(EntryValue(ent));
      assert unchanged(owned.entries) && unchanged(owned.orders) && unchanged(owned.arrays);
      MatchesPush(nodes, slots, owned, elem, s);
      IndexedPush(cache, nodes, slots, elem, s);
      MatchesGrows(ll.nodes, [s] + slots, owned, owned.(nodes := owned.nodes + {elem}));
    }

    /** Puts an entry in front. */
    method Insert(ent: Entry, ghost s: Slot)
      requires Linked() && ent.id != "" && Find(slots, ent.id) == |slots|
      requires s == Slot(ent.id, ent.order.Value(), ent.expiresAt) && s.order.UID() == s.id
      requires ent in owned.entries && ent.order in owned.orders
      requires ent.order.items != null ==> ent.order.items in owned.arrays
      modifies `cache, `slots, `owned, ll, owned.nodes
      ensures Linked()
      ensures slots == [s] + old(slots)
      ensures owned == old(owned).(nodes := owned.nodes) && fresh(owned.nodes - old(owned).nodes)
    {
      hide LinkedBy, OrderObject.Value;
      var elem := PushEntry(ent, s);
      cache, slots, owned := cache[ent.id := elem], [s] + slots, owned.(nodes := owned.nodes + {elem});
    }

    /** What a hit does: to the front, and with a TTL a new expiry. */
    method Renew(elem: Element<Any>, ent: Entry, now: int, ghost k: nat)
      requires Linked() && k < |slots| && k < |ll.nodes| && ll.nodes[k] == elem && elem.value == EntryValue(ent)
      modifies this`slots, ll, owned.nodes, ent
      ensures Linked() && ent.order in owned.orders && ent.order.Value() == old(slots)[k].order
      ensures
        var found := old(slots)[k];
        slots == [found.(expiresAt := if 0 < ttl then now + ttl else found.expiresAt)] + Without(old(slots), k)
    {
      hide Linked, OrderObject.Value;
      AtNode(k);
      Promote(elem, k);
      AtNode(0);
      if 0 < ttl {
        UpdateEntry(ent, ent.order, ExpiryFrom(ttl, now), 0);
        AtNode(0);
      }
    }

    /** The order stored under `id`, as a copy nobody else has; nothing when the id is empty,
        unknown or expired. A hit moves the entry to the front and renews its expiry. */
    method Get(id: string, now: int) returns (order: OrderObject?)
      requires Valid()
      modifies Footprint()
      ensures Valid() && owned == old(owned) && fresh(Footprint() - old(Footprint()))
      ensures Contents() == LruSpec.Get(Config(), old(Contents()), id, now)
      ensures order == null <==> Lookup(Config(), old(Contents()), id, now) == None
      ensures order != null ==>
                && fresh(order) && (order.items != null ==> fresh(order.items))
                && Lookup(Config(), old(Contents()), id, now) == Some(order.Value())
    {
      hide Linked, WellFormed, Find, Without, OrderObject.Value;
      ghost var k := Find(slots, id);
      AtId(id);
      GetKeepsWellFormed(Config(), Contents(), id, now);
      if id == "" || id !in cache {
        stats := stats.(miss := stats.miss + 1);
        return null;
      }
      var elem := cache[id];
      AtNode(k);
      if !elem.value.EntryValue? {
        assert false;
      }
      var ent := elem.value.entry;
      if 0 < ttl && ent.expiresAt < now {
        stats := stats.(expired := stats.expired + 1);
        RemoveElement(elem, k);
        AtBack();
        stats := stats.(size := ll.len);
        return null;
      }
      Renew(elem, ent, now, k);
      stats := stats.(hit := stats.hit + 1);
      order := CloneOrder(ent.order);
    }

    /** `Set` of a listed id: new content, new expiry, to the front. Nothing is pruned. */
    method Overwrite(id: string, order: OrderObject, now: int, ghost value: Order)
      requires Linked() && id != "" && id in cache && order.Value() == value && value.UID() == id
      requires order in owned.orders && (order.items != null ==> order.items in owned.arrays)
      modifies `slots, ll, owned.nodes, owned.entries
      ensures Linked()
      ensures 1 <= capacity && Contents() == LruSpec.Set(Config(), old(Contents()), value, now)
    {
      hide Linked, OrderObject.Value, Find, Prune;
      AtLeastOne();
      ghost var k := Find(slots, id);
      AtId(id);
      AtNode(k);
      var elem := cache[id];
      if !elem.value.EntryValue? {
        assert false;
      }
      ValueUID(order);
      UpdateEntry(elem.value.entry, order, ExpiryFrom(ttl, now), k);
      Promote(elem, k);
    }

    /** Puts a new entry in front and sets the gauge. */
    method PushOrder(id: string, order: OrderObject, now: int, ghost value: Order)
      requires Linked() && id != "" && Find(slots, id) == |slots| && order.Value() == value && value.UID() == id
      requires order in owned.orders && (order.items != null ==> order.items in owned.arrays)
      modifies `cache, `slots, `stats, `owned, ll, owned.nodes
      ensures Linked() && owned == old(owned).(nodes := owned.nodes, entries := owned.entries)
      ensures fresh(owned.nodes - old(owned).nodes) && fresh(owned.entries - old(owned).entries)
      ensures slots == [Slot(id, value, ExpiryFrom(ttl, now))] + old(slots)
      ensures stats == old(stats).(size := |slots|)
    {
      hide Linked, Find, OrderObject.Value, List.Valid;
      var ent := NewEntry(id, order, ExpiryFrom(ttl, now));
      Insert(ent, Slot(id, value, ExpiryFrom(ttl, now)));
      AtBack();
      stats := stats.(size := ll.len);
    }

    /** `Set` of a new id: prune, push, and evict over capacity. */
    method PushNew(id: string, order: OrderObject, now: int, ghost value: Order)
      requires Linked() && id != "" && Find(slots, id) == |slots| && order.Value() == value && value.UID() == id
      requires order in owned.orders && (order.items != null ==> order.items in owned.arrays)
      modifies `cache, `slots, `stats, `owned, ll, owned.nodes
      ensures Linked() && owned == old(owned).(nodes := owned.nodes, entries := owned.entries)
      ensures fresh(owned.nodes - old(owned).nodes) && fresh(owned.entries - old(owned).entries)
      ensures 1 <= capacity && Contents() == LruSpec.Set(Config(), old(Contents()), value, now)
    {
      hide Linked, Find, Without, Prune, OrderObject.Value, List.Valid, LruSpec.Set;
      AtLeastOne();
      ghost var before := Contents();
      PruneExpiredFromBack(now);
      PushOrder(id, order, now, value);
      AtBack();
      if capacity < ll.len {
        EvictLRU();
      }
      SetOfNew(Config(), before, value, now, Contents());
    }

    /** Stores an order the cache owns. */
    method SetOwned(id: string, order: OrderObject, now: int, ghost value: Order)
      requires Linked() && id != "" && order.Value() == value && value.UID() == id
      requires order in owned.orders && (order.items != null ==> order.items in owned.arrays)
      modifies `cache, `slots, `stats, `owned, ll, owned.nodes, owned.entries
      ensures Linked() && owned == old(owned).(nodes := owned.nodes, entries := owned.entries)
      ensures fresh(owned.nodes - old(owned).nodes) && fresh(owned.entries - old(owned).entries)
      ensures 1 <= capacity && Contents() == LruSpec.Set(Config(), old(Contents()), value, now)
    {
      hide Linked, LruSpec.Set, OrderObject.Value;
      AtId(id);
      if id in cache {
        Overwrite(id, order, now, value);
      } else {
        PushNew(id, order, now, value);
      }
    }

    /** Stores a private copy of the caller's order in front, under its uid; refused when
        there is no order or no uid. */
    method Set(order: OrderObject?, now: int) returns (ok: bool)
      requires Valid()
      modifies Footprint()
      ensures Valid() && fresh(Footprint() - old(Footprint()))
      ensures fresh(owned.orders - old(owned).orders) && fresh(owned.arrays - old(owned).arrays)
      ensures ok <==> order != null && old(order.base.orderUID) != ""
      ensures Contents() == if order == null then old(Contents())
                            else LruSpec.Set(Config(), old(Contents()), old(order.Value()), now)
    {
      hide Linked, WellFormed, LruSpec.Set, OrderObject.Value;
      if order == null {
        return false;
      }
      ghost var value, id := order.Value(), order.base.orderUID;
      ValueUID(order);
      if order.base.orderUID == "" {
        SetRefuses(Config(), Contents(), value, now);
        return false;
      }
      SetKeepsWellFormed(Config(), Contents(), value, now);
      var clone := Adopt(order);
      SetOwned(order.base.orderUID, clone, now, value);
      ok := true;
    }

    /** The objects a call writes to are never orders or item arrays. */
    lemma NoOrders(o: OrderObject)
      ensures o !in Footprint() && (o.items != null ==> o.items !in Footprint())
    {}

    /** One `Set` of a warm-up; the orders still to come keep their content. */
    method StoreOne(orders: seq<OrderObject?>, i: nat, now: int, ghost values: seq<Order>) returns (ok: bool)
      requires Valid() && AreValues(orders, values) && i < |orders|
      modifies Footprint()
      ensures Valid() && fresh(Footprint() - old(Footprint()))
      ensures fresh(Stored() - old(Stored()))
      ensures AreValues(orders, values)
      ensures ok <==> orders[i] != null && values[i].UID() != ""
      ensures ok ==> Contents() == LruSpec.Set(Config(), old(Contents()), values[i], now)
      ensures !ok ==> Contents() == old(Contents())
    {
      hide Linked, WellFormed, Valid, LruSpec.Set, OrderObject.Value;
      ValidConfigured();
      if orders[i] != null {
        ValueUID(orders[i]);
        SetRefuses(Config(), Contents(), values[i], now);
      }
      forall j | 0 <= j < |orders| && orders[j] != null
        ensures orders[j] !in Footprint() && (orders[j].items != null ==> orders[j].items !in Footprint())
      {
        NoOrders(orders[j]);
      }
      ok := Set(orders[i], now);
    }

    /** Stores the orders one by one, until the context is done (seen before order `cancelAt`)
        or an order is refused. `nows[i]` is the clock reading of the i-th `Set`. */
    method WarmUp(orders: seq<OrderObject?>, nows: seq<int>, cancelAt: nat, ghost values: seq<Order>)
      returns (end: WarmUpEnd, done: nat)
      requires Valid() && |nows| == |orders| == |values| && AreValues(orders, values)
      modifies Footprint()
      ensures Valid() && fresh(Footprint() - old(Footprint()))
      ensures fresh(Stored() - old(Stored()))
      ensures done <= |orders| && done <= cancelAt
      ensures forall i :: 0 <= i < done ==> orders[i] != null && values[i].UID() != ""
      ensures Contents() == Run(Config(), old(Contents()), WarmUpOps(values[..done], nows[..done]))
      ensures match end
              case Warmed => done == |orders|
              case Cancelled => done == cancelAt && done < |orders|
              case Refused => done < |orders| && (orders[done] == null || values[done].UID() == "")
    {
      hide Linked, WellFormed, Valid, LruSpec.Set, OrderObject.Value, WarmUpOps, Run, AreValues;
      done := 0;
      ValidConfigured();
      WarmUpNone(Config(), Contents(), values, nows);
      while done < |orders|
        invariant Valid() && fresh(Footprint() - old(Footprint()))
        invariant fresh(Stored() - old(Stored()))
        invariant done <= |orders| && done <= cancelAt
        invariant AreValues(orders, values)
        invariant forall i :: 0 <= i < done ==> orders[i] != null && values[i].UID() != ""
        invariant Contents() == Run(Config(), old(Contents()), WarmUpOps(values[..done], nows[..done]))
      {
        if done == cancelAt {
          return Cancelled, done;
        }
        WarmUpMore(Config(), old(Contents()), values, nows, done);
        var ok := StoreOne(orders, done, nows[done], values);
        if !ok {
          return Refused, done;
        }
        done := done + 1;
      }
      end := Warmed;
    }
  }
}
