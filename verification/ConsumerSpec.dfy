/** The consumer loop of internal/kafka on values: one partition of a topic, a cumulative
    committed position, and everything the environment decides given tick by tick. */
module ConsumerSpec {
  import opened Domain
  import opened Tables
  import opened SaveHistory
  import opened ServiceSpec
  import opened Backoff

  datatype Settings = Settings(retryInitial: int, retryMax: int, cache: ValidConfig)

  const SECOND := 1_000_000_000
  const HALF_SECOND := 500_000_000

  /** What one round of the loop meets: a failed fetch (the context may be done, or end during
      the sleep), or a message, with the fate of its save and of its commit at the broker. */
  datatype Tick =
    | FetchFails(cancelled: bool, seed: nat, interrupted: bool)
    | Deliver(fault: Fault, burned: nat, now: int, recorded: bool, seed: nat)

  /** What the loop does, in order. `before` and `after` are the service around the handling
      of a message, `applied` says that its order was committed to the database. */
  datatype LoopEvent =
    | RetryIn(sleep: int)
    | Fetched(offset: nat)
    | Handled(offset: nat, outcome: Outcome, applied: bool, before: State, after: State)
    | CommitCalled(offset: nat, recorded: bool)
    | Paused(sleep: int)

  datatype Loop = Loop(
    state: State,
    next: nat,        // the offset the next fetch returns
    position: nat,    // the committed position: a new session starts here
    retry: int,
    consumed: nat, processed: nat, failed: nat,
    trace: seq<LoopEvent>,
    stopped: bool)

  /** A session begins: the reader resumes at the committed position. */
  function Begin(settings: Settings, state: State, position: nat): Loop {
    Loop(state, position, position, settings.retryInitial, 0, 0, 0, [], false)
  }

  predicate IsApplied(s: Store, m: Message, fault: Fault) {
    ValidMessage(m) && Commits(s, Attempt(m.order, fault, 0))
  }

  function Handling(settings: Settings, l: Loop, m: Message, tick: Tick): LoopEvent
    requires tick.Deliver?
  {
    Handled(l.next, SaveOutcome(l.state.store, m, tick.fault), IsApplied(l.state.store, m, tick.fault),
            l.state, SaveMessage(settings.cache, l.state, m, tick.fault, tick.burned, tick.now))
  }

  /** What the round does after the message is handled. */
  function Ending(settings: Settings, l: Loop, outcome: Outcome, tick: Tick): LoopEvent
    requires tick.Deliver?
  {
    if outcome != Temporary then CommitCalled(l.next, tick.recorded)
    else Paused(WithJitterEqual(MinDuration(settings.retryInitial, HALF_SECOND), tick.seed))
  }

  function Round(settings: Settings, l: Loop, m: Message, tick: Tick): Loop
    requires tick.Deliver?
  {
    var h := Handling(settings, l, m, tick);
    var ok := h.outcome == Success;
    Loop(h.after, l.next + 1,
         if h.outcome != Temporary && tick.recorded then l.next + 1 else l.position,
         settings.retryInitial,
         l.consumed + 1, l.processed + (if ok then 1 else 0), l.failed + (if ok then 0 else 1),
         l.trace + [Fetched(l.next), h, Ending(settings, l, h.outcome, tick)],
         false)
  }

  /** One round of `Run`. At the end of the log the fetch blocks. */
  function Step(settings: Settings, log: seq<Message>, l: Loop, tick: Tick): Loop {
    if l.stopped then l
    else match tick
      case FetchFails(cancelled, seed, interrupted) =>
        var sleep := WithJitterEqual(l.retry, seed);
        if cancelled then l.(stopped := true)
        else if interrupted then l.(stopped := true, trace := l.trace + [RetryIn(sleep)])
        else l.(retry := NextBackoff(l.retry, settings.retryMax), trace := l.trace + [RetryIn(sleep)])
      case Deliver(_, _, _, _, _) =>
        if l.next < |log| then Round(settings, l, log[l.next], tick) else l
  }

  function Run(settings: Settings, log: seq<Message>, l: Loop, ticks: seq<Tick>): Loop {
    if ticks == [] then l
    else Step(settings, log, Run(settings, log, l, ticks[..|ticks| - 1]), ticks[|ticks| - 1])
  }
}
