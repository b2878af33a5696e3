/** What the metrics mean: conservation laws over whole runs. */
module LruCounters {
  import opened Domain
  import opened Sequences
  import opened LruSpec

  /** A `Set` that puts a new slot into the list. */
  predicate Inserts(c: Cache, op: Op) {
    op.SetOp? && op.order.UID() != "" && Find(c.slots, op.order.UID()) == |c.slots|
  }

  /** The slots the call drops by pruning the tail. */
  function PrunedBy(cfg: Config, c: Cache, op: Op): nat {
    if Inserts(c, op) then |c.slots| - |Prune(cfg.ttl, c.slots, op.now)| else 0
  }

  function Insertions(cfg: Config, ops: seq<Op>): nat {
    if ops == [] then 0
    else
      var before := ops[..|ops| - 1];
      Insertions(cfg, before) + if Inserts(Run(cfg, EMPTY_CACHE, before), ops[|ops| - 1]) then 1 else 0
  }

  function Pruned(cfg: Config, ops: seq<Op>): nat {
    if ops == [] then 0
    else
      var before := ops[..|ops| - 1];
      Pruned(cfg, before) + PrunedBy(cfg, Run(cfg, EMPTY_CACHE, before), ops[|ops| - 1])
  }

  function Gets(ops: seq<Op>): nat {
    if ops == [] then 0 else Gets(ops[..|ops| - 1]) + if ops[|ops| - 1].GetOp? then 1 else 0
  }

  /** Every `Get` adds one to exactly one of hit, miss and expired; it is a hit if and only
      if an order is answered, and a miss if and only if the id has no slot. */
  lemma GetCountsOnce(cfg: ValidConfig, c: Cache, id: string, now: int)
    requires WellFormed(cfg, c)
    ensures
      var s, t := c.stats, Get(cfg, c, id, now).stats;
      && t.hit == s.hit + (if Lookup(cfg, c, id, now).Some? then 1 else 0)
      && t.miss == s.miss + (if id !in Ids(c.slots) then 1 else 0)
      && t.hit + t.miss + t.expired == s.hit + s.miss + s.expired + 1
      && t.evicted == s.evicted
  {
    FindAbsent(c.slots, id);
  }

  lemma StepConserves(cfg: ValidConfig, c: Cache, op: Op)
    requires WellFormed(cfg, c)
    ensures
      var d := Step(cfg, c, op);
      && |d.slots| + d.stats.evicted + d.stats.expired
         == |c.slots| + c.stats.evicted + c.stats.expired + (if Inserts(c, op) then 1 else 0)
      && d.stats.hit + d.stats.miss + d.stats.expired
         == c.stats.hit + c.stats.miss + c.stats.expired + PrunedBy(cfg, c, op) + (if op.GetOp? then 1 else 0)
  {}

  /** Nothing is lost and nothing is counted twice: every slot ever inserted is still listed,
      was evicted, or expired; and every expiry was found by a `Get` or pruned by a `Set`. */
  lemma {:induction false} Conservation(cfg: ValidConfig, ops: seq<Op>)
    ensures
      var c := Run(cfg, EMPTY_CACHE, ops);
      && Insertions(cfg, ops) == c.stats.size + c.stats.evicted + c.stats.expired
      && Gets(ops) + Pruned(cfg, ops) == c.stats.hit + c.stats.miss + c.stats.expired
  {
    RunWellFormed(cfg, EMPTY_CACHE, ops);
    if ops == [] {
    } else {
      var before := ops[..|ops| - 1];
      Conservation(cfg, before);
      RunWellFormed(cfg, EMPTY_CACHE, before);
      StepConserves(cfg, Run(cfg, EMPTY_CACHE, before), ops[|ops| - 1]);
    }
  }
}
