/** `Consumer` of internal/kafka with its counters, over a reader of one partition and the
    order service. `Run` is proved against `ConsumerSpec.Run`. */
module Consumer {
  import opened Domain
  import opened SaveHistory
  import opened ServiceSpec
  import opened Backoff
  import opened ConsumerSpec
  import Service
  import LruCache

  /** The reader of a consumer group: what it fetches next, and the position the broker keeps. */
  class Reader {
    const log: seq<Message>
    var next: nat
    var position: nat

    constructor (log: seq<Message>, position: nat)
      ensures this.log == log && next == position && this.position == position
    {
      this.log, this.next, this.position := log, position, position;
    }

    /** Without a commit; None when the log is exhausted and the fetch would block. */
    method FetchMessage() returns (m: Option<Message>, offset: nat)
      modifies `next
      ensures offset == old(next)
      ensures old(next) < |log| ==> m == Some(log[old(next)]) && next == old(next) + 1
      ensures |log| <= old(next) ==> m == None && next == old(next)
    {
      offset := next;
      if next < |log| {
        m, next := Some(log[next]), next + 1;
      } else {
        m := None;
      }
    }

    /** Cumulative: everything up to the offset counts as committed, if the broker records it. */
    method CommitMessages(offset: nat, recorded: bool)
      modifies `position
      ensures position == if recorded then offset + 1 else old(position)
    {
      if recorded {
        position := offset + 1;
      }
    }
  }

  class Consumer {
    const reader: Reader
    const service: Service.OrderService
    const settings: Settings
    var consumed: nat
    var processed: nat
    var failed: nat
    /** What the loop did. */
    ghost var trace: seq<LoopEvent>

    constructor (reader: Reader, service: Service.OrderService, retryInitial: int, retryMax: int)
      requires service.cache.Valid()
      ensures this.reader == reader && this.service == service
      ensures settings.retryInitial == (if 0 < retryInitial then retryInitial else 1_000_000_000)
      ensures settings.retryMax == (if 0 < retryMax then retryMax else 30_000_000_000)
      ensures settings.cache == service.cache.Config()
      ensures consumed == processed == failed == 0 && trace == []
    {
      this.reader, this.service := reader, service;
      settings := Settings(if retryInitial <= 0 then SECOND else retryInitial,
                           if retryMax <= 0 then 30 * SECOND else retryMax,
                           service.cache.Config());
      consumed, processed, failed, trace := 0, 0, 0, [];
    }

    ghost function State(retry: int, stopped: bool): Loop
      reads this, reader, service.repo, service.cache
    {
      Loop(service.State(), reader.next, reader.position, retry, consumed, processed, failed, trace, stopped)
    }

    ghost predicate Valid()
      reads service.cache, service.cache.ll, service.cache.ll.nodes
      reads service.cache.owned.entries, service.cache.owned.orders, service.cache.owned.arrays
    {
      service.cache.Valid() && settings.cache == service.cache.Config()
    }

    /** Handles one message and tells whether its offset is to be committed. */
    method HandleMessage(m: Message, offset: nat, tick: Tick) returns (shouldCommit: bool, ghost outcome: Outcome)
      requires Valid() && tick.Deliver?
      modifies this`processed, this`failed, service.repo, service.cache.Footprint()
      ensures Valid() && fresh(service.cache.Footprint() - old(service.cache.Footprint()))
      ensures outcome == SaveOutcome(old(service.repo.store), m, tick.fault)
      ensures shouldCommit <==> outcome != Temporary
      ensures service.State() == SaveMessage(settings.cache, old(service.State()), m, tick.fault, tick.burned, tick.now)
      ensures processed == old(processed) + (if outcome == Success then 1 else 0)
      ensures failed == old(failed) + (if outcome == Success then 0 else 1)
    {
      hide LruCache.LRUCacheTTL.Valid;
      var result := service.SaveFromMessage(m, tick.fault, tick.burned, tick.now);
      outcome := result;
      match result
      case Success =>
        processed := processed + 1;
        shouldCommit := true;
      case Invalid =>
        failed := failed + 1;
        shouldCommit := true;
      case Temporary =>
        failed := failed + 1;
        shouldCommit := false;
    }

    /** The main loop, over the rounds the environment gives it: fetch without committing, handle,
        commit unless the failure is temporary, and back off when the fetch fails. */
    method Run(ticks: seq<Tick>) returns (retry: int, stopped: bool)
      requires Valid()
      modifies this, reader, service.repo, service.cache.Footprint()
      ensures Valid()
      ensures State(retry, stopped)
              == ConsumerSpec.Run(settings, reader.log, old(State(settings.retryInitial, false)), ticks)
      ensures old(trace) == [] && old(consumed) == old(processed) == old(failed) == 0
              && old(reader.next) == old(reader.position) ==>
                State(retry, stopped)
                == ConsumerSpec.Run(settings, reader.log,
                                     Begin(settings, old(service.State()), old(reader.position)), ticks)
    {
      hide SaveMessage, SaveOutcome, IsApplied, WithJitterEqual, NextBackoff, LruCache.LRUCacheTTL.Valid;
      retry, stopped := settings.retryInitial, false;
      ghost var start := State(retry, stopped);
      for n := 0 to |ticks|
        invariant Valid() && fresh(service.cache.Footprint() - old(service.cache.Footprint()))
        invariant State(retry, stopped) == ConsumerSpec.Run(settings, reader.log, start, ticks[..n])
      {
        ghost var l := State(retry, stopped);
        assert ticks[..n + 1][..n] == ticks[..n];
        if !stopped {
          retry, stopped := OneRound(ticks[n], retry);
        }
        assert State(retry, stopped) == ConsumerSpec.Step(settings, reader.log, l, ticks[n]);
      }
      assert ticks[..|ticks|] == ticks;
    }

    method OneRound(tick: Tick, before: int) returns (retry: int, stopped: bool)
      requires Valid()
      modifies this, reader, service.repo, service.cache.Footprint()
      ensures Valid() && fresh(service.cache.Footprint() - old(service.cache.Footprint()))
      ensures State(retry, stopped) == ConsumerSpec.Step(settings, reader.log, old(State(before, false)), tick)
    {
      hide SaveMessage, SaveOutcome, IsApplied, NextBackoff, LruCache.LRUCacheTTL.Valid, Round;
      retry, stopped := before, false;
      match tick
      case FetchFails(cancelled, seed, interrupted) =>
        if cancelled {
          return retry, true;
        }
        var sleep := WithJitterEqual(retry, seed);
        trace := trace + [RetryIn(sleep)];
        if interrupted {
          return retry, true;
        }
        retry := NextBackoff(retry, settings.retryMax);
      case Deliver(_, _, _, _, _) =>
        ghost var l := State(before, false);
        var m, offset := reader.FetchMessage();
        if m.Some? {
          retry := settings.retryInitial;
          consumed := consumed + 1;
          Process(m.value, offset, tick, l);
        }
    }

    /** Handles a fetched message, then commits or pauses. */
    method Process(m: Message, offset: nat, tick: Tick, ghost l: Loop)
      requires Valid() && tick.Deliver?
      requires l.next == offset && State(settings.retryInitial, false) == l.(
                 next := offset + 1, consumed := l.consumed + 1, retry := settings.retryInitial, stopped := false)
      modifies this`processed, this`failed, this`trace, reader`position, service.repo, service.cache.Footprint()
      ensures Valid() && fresh(service.cache.Footprint() - old(service.cache.Footprint()))
      ensures State(settings.retryInitial, false) == Round(settings, l, m, tick)
    {
      hide SaveMessage, SaveOutcome, IsApplied, LruCache.LRUCacheTTL.Valid, WithJitterEqual;
      var shouldCommit, outcome := HandleMessage(m, offset, tick);
      ghost var h := Handled(offset, outcome, IsApplied(l.state.store, m, tick.fault), l.state, service.State());
      if shouldCommit {
        reader.CommitMessages(offset, tick.recorded);
        trace := trace + [Fetched(offset), h, CommitCalled(offset, tick.recorded)];
      } else {
        var sleep := WithJitterEqual(MinDuration(settings.retryInitial, HALF_SECOND), tick.seed);
        trace := trace + [Fetched(offset), h, Paused(sleep)];
      }
    }
  }
}
