/** What every session of the consumer loop guarantees about commits, counters and delays. */
module CommitSafety {
  import opened Domain
  import opened Tables
  import opened SaveHistory
  import opened ServiceSpec
  import opened Backoff
  import opened ConsumerSpec

  /** The message was dealt with for good: its order was committed to the database, or it was
      rejected as invalid and left database and cache untouched. */
  ghost predicate DealtWith(log: seq<Message>, e: LoopEvent) {
    && e.Handled? && e.offset < |log|
    && var m := log[e.offset];
    match e.outcome
    case Success =>
      && ValidMessage(m) && e.applied
      && e.after.store.tables == Saved(e.before.store.tables, m.order, e.before.store.nextID)
    case Invalid => m.Decoded? && !ValidMessage(m) && !e.applied && e.after == e.before
    case Temporary => false
  }

  /** The call at `k` commits the message fetched two steps before and dealt with just before. */
  ghost predicate SafeCommit(log: seq<Message>, trace: seq<LoopEvent>, k: nat)
    requires k < |trace| && trace[k].CommitCalled?
  {
    && 2 <= k
    && trace[k - 2] == Fetched(trace[k].offset)
    && trace[k - 1].Handled? && trace[k - 1].offset == trace[k].offset
    && DealtWith(log, trace[k - 1])
  }

  ghost predicate SafeCommits(log: seq<Message>, trace: seq<LoopEvent>) {
    forall k :: 0 <= k < |trace| && trace[k].CommitCalled? ==> SafeCommit(log, trace, k)
  }

  /** Offsets appear in fetch order, each once as fetched, once as handled, at most once as
      committed; a temporarily failed offset is not committed. */
  ghost predicate InFetchOrder(trace: seq<LoopEvent>, next: nat) {
    AllBelow(trace, next) && OffsetsAscend(trace) && CommitsAscend(trace) && FailuresUncommitted(trace)
  }

  ghost predicate AllBelow(trace: seq<LoopEvent>, next: nat) {
    forall k :: 0 <= k < |trace| ==> Offset(trace[k]) < next as int
  }

  ghost predicate OffsetsAscend(trace: seq<LoopEvent>) {
    forall j, k :: 0 <= j < k < |trace| && 0 <= Offset(trace[j]) && 0 <= Offset(trace[k]) ==>
      Offset(trace[j]) <= Offset(trace[k])
  }

  ghost predicate CommitsAscend(trace: seq<LoopEvent>) {
    forall j, k :: 0 <= j < k < |trace| && trace[j].CommitCalled? && trace[k].CommitCalled? ==>
      trace[j].offset < trace[k].offset
  }

  ghost predicate FailuresUncommitted(trace: seq<LoopEvent>) {
    forall j, k :: 0 <= j < |trace| && 0 <= k < |trace| && IsTemporary(trace[j]) && trace[k].CommitCalled? ==>
      trace[j].offset != trace[k].offset
  }

  function Offset(e: LoopEvent): int {
    match e
    case Fetched(o) => o
    case Handled(o, _, _, _, _) => o
    case CommitCalled(o, _) => o
    case _ => -1
  }

  predicate IsTemporary(e: LoopEvent) { e.Handled? && e.outcome == Temporary }

  lemma HandlingDealsWith(settings: Settings, log: seq<Message>, l: Loop, tick: Tick)
    requires tick.Deliver? && l.next < |log|
    ensures
      var h := Handling(settings, l, log[l.next], tick);
      h.outcome != Temporary ==> DealtWith(log, h)
  {}

  lemma StepSafe(settings: Settings, log: seq<Message>, l: Loop, tick: Tick)
    requires SafeCommits(log, l.trace)
    ensures SafeCommits(log, Step(settings, log, l, tick).trace)
  {
    hide DealtWith;
    var after := Step(settings, log, l, tick).trace;
    if tick.Deliver? && l.next < |log| {
      HandlingDealsWith(settings, log, l, tick);
    }
    forall k | 0 <= k < |after| && after[k].CommitCalled? ensures SafeCommit(log, after, k) {
      if k < |l.trace| { assert SafeCommit(log, l.trace, k); }
    }
  }

  /** The events of `block` are about `next` or later offsets, or about none. */
  ghost predicate AllFrom(block: seq<LoopEvent>, next: nat) {
    forall k :: 0 <= k < |block| ==> Offset(block[k]) == -1 || next <= Offset(block[k])
  }

  /** Events about `next` after events about offsets below it. */
  lemma OrderedAppend(t: seq<LoopEvent>, block: seq<LoopEvent>, next: nat, later: nat)
    requires InFetchOrder(t, next) && InFetchOrder(block, later) && next <= later && AllFrom(block, next)
    ensures InFetchOrder(t + block, later)
  {
    hide OffsetsAscend, CommitsAscend, FailuresUncommitted, Offset;
    OffsetsAppend(t, block, next);
    CommitsAppend(t, block, next);
    FailuresAppend(t, block, next);
  }

  lemma OffsetsAppend(t: seq<LoopEvent>, block: seq<LoopEvent>, next: nat)
    requires AllBelow(t, next) && AllFrom(block, next) && OffsetsAscend(t) && OffsetsAscend(block)
    ensures OffsetsAscend(t + block)
  {
    hide Offset;
  }

  lemma CommitsAppend(t: seq<LoopEvent>, block: seq<LoopEvent>, next: nat)
    requires AllBelow(t, next) && AllFrom(block, next) && CommitsAscend(t) && CommitsAscend(block)
    ensures CommitsAscend(t + block)
  {
    var all := t + block;
    forall j, k | 0 <= j < k < |all| && all[j].CommitCalled? && all[k].CommitCalled?
      ensures all[j].offset < all[k].offset
    {
      assert Offset(all[j]) == all[j].offset && Offset(all[k]) == all[k].offset;
    }
  }

  lemma FailuresAppend(t: seq<LoopEvent>, block: seq<LoopEvent>, next: nat)
    requires AllBelow(t, next) && AllFrom(block, next) && FailuresUncommitted(t) && FailuresUncommitted(block)
    ensures FailuresUncommitted(t + block)
  {
    var all := t + block;
    forall j, k | 0 <= j < |all| && 0 <= k < |all| && IsTemporary(all[j]) && all[k].CommitCalled?
      ensures all[j].offset != all[k].offset
    {
      assert Offset(all[j]) == all[j].offset && Offset(all[k]) == all[k].offset;
    }
  }

  lemma QuietOrdered(next: nat, e: LoopEvent)
    requires e.RetryIn?
    ensures InFetchOrder([e], next) && AllFrom([e], next)
  {}

  /** What one round appends. */
  lemma BlockOrdered(next: nat, h: LoopEvent, e: LoopEvent)
    requires h.Handled? && h.offset == next
    requires e.Paused? || (e.CommitCalled? && e.offset == next && !IsTemporary(h))
    ensures InFetchOrder([Fetched(next), h, e], next + 1) && AllFrom([Fetched(next), h, e], next)
  {}

  lemma StepOrdered(settings: Settings, log: seq<Message>, l: Loop, tick: Tick)
    requires InFetchOrder(l.trace, l.next)
    ensures InFetchOrder(Step(settings, log, l, tick).trace, Step(settings, log, l, tick).next)
  {
    hide SaveMessage, SaveOutcome, IsApplied, InFetchOrder, AllFrom, WithJitterEqual;
    if tick.FetchFails? {
      var e := RetryIn(WithJitterEqual(l.retry, tick.seed));
      QuietOrdered(l.next, e);
      OrderedAppend(l.trace, [e], l.next, l.next);
    } else if l.next < |log| {
      var h := Handling(settings, l, log[l.next], tick);
      var e := Ending(settings, l, h.outcome, tick);
      BlockOrdered(l.next, h, e);
      OrderedAppend(l.trace, [Fetched(l.next), h, e], l.next, l.next + 1);
    }
  }

  /** In every session: commits are safe and in fetch order, no temporarily failed message is
      committed, and consumed = processed + failed = messages fetched. */
  lemma {:induction false} SessionSafe(settings: Settings, log: seq<Message>, state: State, position: nat,
                                       ticks: seq<Tick>)
    ensures
      var l := Run(settings, log, Begin(settings, state, position), ticks);
      && SafeCommits(log, l.trace)
      && InFetchOrder(l.trace, l.next)
      && l.consumed == l.processed + l.failed
      && l.next == position + l.consumed
      && position <= l.position <= l.next
  {
    hide SafeCommits, InFetchOrder, SaveMessage, SaveOutcome, IsApplied;
    var start := Begin(settings, state, position);
    if ticks == [] {
      NoEvents(log, position);
    } else {
      SessionSafe(settings, log, state, position, ticks[..|ticks| - 1]);
      var l := Run(settings, log, start, ticks[..|ticks| - 1]);
      StepSafe(settings, log, l, ticks[|ticks| - 1]);
      StepOrdered(settings, log, l, ticks[|ticks| - 1]);
    }
  }

  /** How many messages were handled with this outcome. */
  function Handlings(trace: seq<LoopEvent>, outcome: Outcome): nat {
    if trace == [] then 0
    else
      var e := trace[|trace| - 1];
      Handlings(trace[..|trace| - 1], outcome) + if e.Handled? && e.outcome == outcome then 1 else 0
  }

  lemma OneMoreEvent(trace: seq<LoopEvent>, e: LoopEvent)
    ensures forall x :: Handlings(trace + [e], x)
              == Handlings(trace, x) + if e.Handled? && e.outcome == x then 1 else 0
  {
    assert (trace + [e])[..|trace|] == trace;
  }

  lemma RoundHandlings(trace: seq<LoopEvent>, f: LoopEvent, h: LoopEvent, e: LoopEvent)
    requires f.Fetched? && h.Handled? && !e.Handled?
    ensures forall x :: Handlings(trace + [f, h, e], x) == Handlings(trace, x) + if h.outcome == x then 1 else 0
  {
    OneMoreEvent(trace, f);
    OneMoreEvent(trace + [f], h);
    OneMoreEvent(trace + [f] + [h], e);
    assert trace + [f, h, e] == trace + [f] + [h] + [e];
  }

  /** The counters: a message counts as processed if it was saved, and as failed if it was invalid
      or failed for the time being. */
  lemma {:induction false} SessionCounts(settings: Settings, log: seq<Message>, state: State, position: nat,
                                         ticks: seq<Tick>)
    ensures
      var l := Run(settings, log, Begin(settings, state, position), ticks);
      && l.processed == Handlings(l.trace, Success)
      && l.failed == Handlings(l.trace, Invalid) + Handlings(l.trace, Temporary)
  {
    hide SaveMessage, SaveOutcome, IsApplied, WithJitterEqual, Handlings;
    if ticks == [] {
      NoHandlings();
    } else {
      SessionCounts(settings, log, state, position, ticks[..|ticks| - 1]);
      var l := Run(settings, log, Begin(settings, state, position), ticks[..|ticks| - 1]);
      var tick := ticks[|ticks| - 1];
      if tick.FetchFails? {
        OneMoreEvent(l.trace, RetryIn(WithJitterEqual(l.retry, tick.seed)));
      } else if l.next < |log| {
        var h := Handling(settings, l, log[l.next], tick);
        RoundHandlings(l.trace, Fetched(l.next), h, Ending(settings, l, h.outcome, tick));
      }
    }
  }

  lemma NoHandlings()
    ensures forall outcome :: Handlings([], outcome) == 0
  {}

  lemma NoEvents(log: seq<Message>, next: nat)
    ensures SafeCommits(log, []) && InFetchOrder([], next)
  {}

  // ----- Delays -----

  /** Failed fetches the loop survives. */
  predicate Survived(ticks: seq<Tick>) {
    forall i :: 0 <= i < |ticks| ==> ticks[i].FetchFails? && !ticks[i].cancelled && !ticks[i].interrupted
  }

  lemma {:induction false} RetryAfter(settings: Settings, log: seq<Message>, l: Loop, fails: seq<Tick>)
    requires !l.stopped && l.retry == settings.retryInitial && Survived(fails)
    ensures
      var after := Run(settings, log, l, fails);
      !after.stopped && after.retry == Delay(settings.retryInitial, settings.retryMax, |fails|)
  {
    if fails == [] {
    } else {
      RetryAfter(settings, log, l, fails[..|fails| - 1]);
    }
  }

  lemma {:induction false} RunAppend(settings: Settings, log: seq<Message>, l: Loop, a: seq<Tick>, b: seq<Tick>)
    ensures Run(settings, log, l, a + b) == Run(settings, log, Run(settings, log, l, a), b)
  {
    hide Step;
    if b == [] {
      assert a + b == a;
    } else {
      var n := |b| - 1;
      assert (a + b)[..|a + b| - 1] == a + b[..n];
      RunAppend(settings, log, l, a, b[..n]);
    }
  }

  /** The last of these rounds fetched a message, or there are none. */
  predicate EndsInFetch(settings: Settings, log: seq<Message>, start: Loop, ticks: seq<Tick>) {
    ticks == []
    || (var before := Run(settings, log, start, ticks[..|ticks| - 1]);
        !before.stopped && before.next < |log| && ticks[|ticks| - 1].Deliver?)
  }

  /** Every successful fetch resets the delay. */
  lemma FetchResets(settings: Settings, log: seq<Message>, l: Loop, tick: Tick)
    requires !l.stopped && tick.Deliver? && l.next < |log|
    ensures
      var after := Step(settings, log, l, tick);
      after.retry == settings.retryInitial && !after.stopped && after.consumed == l.consumed + 1
  {}

  /** In every session: after the last successful fetch, or the start, the k-th consecutive failed
      fetch sleeps between half of the intended delay and all of it. */
  lemma BackoffInLoop(settings: Settings, log: seq<Message>, state: State, position: nat,
                      earlier: seq<Tick>, fails: seq<Tick>, tick: Tick)
    requires EndsInFetch(settings, log, Begin(settings, state, position), earlier)
    requires Survived(fails) && tick.FetchFails? && !tick.cancelled
    requires 1 <= settings.retryInitial <= MAX64 / 2 && 1 <= settings.retryMax <= MAX64 / 2
    ensures
      var before := Run(settings, log, Begin(settings, state, position), earlier + fails);
      var after := Step(settings, log, before, tick);
      var base := Intended(settings.retryInitial, settings.retryMax, |fails|);
      && |after.trace| == |before.trace| + 1
      && var e := after.trace[|before.trace|];
      && e.RetryIn? && base / 2 <= e.sleep <= base
  {
    hide Round, Delay, Intended, WithJitterEqual;
    var start := Begin(settings, state, position);
    var l := Run(settings, log, start, earlier);
    if earlier != [] {
      FetchResets(settings, log, Run(settings, log, start, earlier[..|earlier| - 1]), earlier[|earlier| - 1]);
    }
    RunAppend(settings, log, start, earlier, fails);
    RetryAfter(settings, log, l, fails);
    DelayIsIntended(settings.retryInitial, settings.retryMax, |fails|);
    JitterRange(Delay(settings.retryInitial, settings.retryMax, |fails|), 0);
  }

  // ----- Pauses -----

  /** The pause at `k` follows a temporary failure of the message just fetched, and lies between
      half of the bound and all of it. */
  ghost predicate PausedRight(trace: seq<LoopEvent>, bound: int, k: nat)
    requires k < |trace| && trace[k].Paused?
  {
    && 2 <= k && IsTemporary(trace[k - 1]) && trace[k - 2] == Fetched(trace[k - 1].offset)
    && bound / 2 <= trace[k].sleep <= bound
  }

  ghost predicate PausesRight(trace: seq<LoopEvent>, bound: int) {
    && (forall k :: 0 <= k < |trace| && trace[k].Paused? ==> PausedRight(trace, bound, k))
    && (forall k :: 0 <= k < |trace| && IsTemporary(trace[k]) ==> k + 1 < |trace| && trace[k + 1].Paused?)
  }

  /** More events that pause right. */
  lemma PausesAppend(t: seq<LoopEvent>, block: seq<LoopEvent>, bound: int)
    requires PausesRight(t, bound) && PausesRight(block, bound)
    ensures PausesRight(t + block, bound)
  {
    var all := t + block;
    assert forall k :: 0 <= k < |t| ==> all[k] == t[k];
    assert forall k :: 0 <= k < |block| ==> all[|t| + k] == block[k];
    forall k | 0 <= k < |all| && all[k].Paused? ensures PausedRight(all, bound, k) {
      if k < |t| { assert PausedRight(t, bound, k); } else { assert PausedRight(block, bound, k - |t|); }
    }
    forall k | 0 <= k < |all| && IsTemporary(all[k]) ensures k + 1 < |all| && all[k + 1].Paused? {
      if k < |t| { assert t[k + 1].Paused?; } else { assert block[k - |t| + 1].Paused?; }
    }
  }

  lemma BlockPauses(settings: Settings, log: seq<Message>, l: Loop, tick: Tick)
    requires tick.Deliver? && l.next < |log| && 1 <= settings.retryInitial
    ensures
      var h := Handling(settings, l, log[l.next], tick);
      PausesRight([Fetched(l.next), h, Ending(settings, l, h.outcome, tick)],
                  MinDuration(settings.retryInitial, HALF_SECOND))
  {
    hide SaveMessage, SaveOutcome, IsApplied, WithJitterEqual;
    JitterRange(MinDuration(settings.retryInitial, HALF_SECOND), 0);
  }

  lemma QuietPauses(e: LoopEvent, bound: int)
    requires e.RetryIn?
    ensures PausesRight([e], bound)
  {}

  /** In every session the loop pauses right. */
  lemma {:induction false} LoopPauses(settings: Settings, log: seq<Message>, state: State, position: nat,
                                      ticks: seq<Tick>)
    requires 1 <= settings.retryInitial
    ensures PausesRight(Run(settings, log, Begin(settings, state, position), ticks).trace,
                        MinDuration(settings.retryInitial, HALF_SECOND))
  {
    hide PausesRight, WithJitterEqual, MinDuration, Ending, SaveMessage, SaveOutcome, IsApplied;
    var bound := MinDuration(settings.retryInitial, HALF_SECOND);
    if ticks == [] {
      NoPauses(bound);
    } else {
      var before, tick := ticks[..|ticks| - 1], ticks[|ticks| - 1];
      var l := Run(settings, log, Begin(settings, state, position), before);
      var after := Step(settings, log, l, tick);
      LoopPauses(settings, log, state, position, before);
      if !l.stopped && tick.Deliver? && l.next < |log| {
        var h := Handling(settings, l, log[l.next], tick);
        BlockPauses(settings, log, l, tick);
        PausesAppend(l.trace, [Fetched(l.next), h, Ending(settings, l, h.outcome, tick)], bound);
      } else if after.trace != l.trace {
        var e := after.trace[|l.trace|];
        assert after.trace == l.trace + [e];
        QuietPauses(e, bound);
        PausesAppend(l.trace, [e], bound);
      }
    }
  }

  lemma NoPauses(bound: int)
    ensures PausesRight([], bound)
  {}

  /** In every session the loop pauses exactly after temporary failures of the message just
      fetched, each time no longer than `retryInitial` and than half a second, and at least half
      as long as one of the two. In nanoseconds. */
  lemma SessionPauses(settings: Settings, log: seq<Message>, state: State, position: nat, ticks: seq<Tick>)
    requires 1 <= settings.retryInitial
    ensures
      var trace := Run(settings, log, Begin(settings, state, position), ticks).trace;
      && (forall k :: 0 <= k < |trace| && trace[k].Paused? ==>
            && 2 <= k && trace[k - 1].Handled? && trace[k - 1].outcome == Temporary
            && trace[k - 2] == Fetched(trace[k - 1].offset)
            && trace[k].sleep <= settings.retryInitial && trace[k].sleep <= 500_000_000
            && (settings.retryInitial / 2 <= trace[k].sleep || 250_000_000 <= trace[k].sleep))
      && (forall k :: 0 <= k < |trace| && trace[k].Handled? && trace[k].outcome == Temporary ==>
            k + 1 < |trace| && trace[k + 1].Paused?)
  {
    hide Run, Begin;
    LoopPauses(settings, log, state, position, ticks);
    var trace := Run(settings, log, Begin(settings, state, position), ticks).trace;
    forall k | 0 <= k < |trace| && trace[k].Paused?
      ensures PausedRight(trace, MinDuration(settings.retryInitial, HALF_SECOND), k)
    {}
    forall k | 0 <= k < |trace| && trace[k].Handled? && trace[k].outcome == Temporary ensures IsTemporary(trace[k]) {}
  }

  // ----- Retries -----

  /** The delay is back at `retryInitial` whenever the last event was no retry. */
  ghost predicate DelayReset(settings: Settings, l: Loop) {
    && l.retry <= MaxDuration(settings.retryInitial, settings.retryMax)
    && (l.trace == [] || !l.trace[|l.trace| - 1].RetryIn? ==> l.stopped || l.retry == settings.retryInitial)
  }

  function MaxDuration(a: int, b: int): int { if a < b then b else a }

  /** A retry at `k` sleeps no longer than the larger setting, and the first one in a row between
      half of `retryInitial` and all of it. */
  ghost predicate RetriedRight(settings: Settings, trace: seq<LoopEvent>, k: nat)
    requires k < |trace| && trace[k].RetryIn?
  {
    && trace[k].sleep <= MaxDuration(settings.retryInitial, settings.retryMax)
    && (k == 0 || !trace[k - 1].RetryIn? ==>
          settings.retryInitial / 2 <= trace[k].sleep <= settings.retryInitial)
  }

  lemma StepRetries(settings: Settings, log: seq<Message>, l: Loop, tick: Tick)
    requires 1 <= settings.retryInitial && DelayReset(settings, l)
    ensures DelayReset(settings, Step(settings, log, l, tick))
    ensures
      var after := Step(settings, log, l, tick).trace;
      && l.trace <= after
      && forall k :: |l.trace| <= k < |after| && after[k].RetryIn? ==> RetriedRight(settings, after, k)
  {
    hide SaveMessage, SaveOutcome, IsApplied, WithJitterEqual;
    if tick.FetchFails? {
      JitterRange(l.retry, 0);
    }
  }

  lemma {:induction false} LoopRetries(settings: Settings, log: seq<Message>, state: State, position: nat,
                                       ticks: seq<Tick>)
    requires 1 <= settings.retryInitial
    ensures
      var l := Run(settings, log, Begin(settings, state, position), ticks);
      && DelayReset(settings, l)
      && forall k :: 0 <= k < |l.trace| && l.trace[k].RetryIn? ==> RetriedRight(settings, l.trace, k)
  {
    hide Step, DelayReset;
    if ticks == [] {
      StartsReset(settings, state, position);
    } else {
      LoopRetries(settings, log, state, position, ticks[..|ticks| - 1]);
      var l := Run(settings, log, Begin(settings, state, position), ticks[..|ticks| - 1]);
      StepRetries(settings, log, l, ticks[|ticks| - 1]);
      var after := Step(settings, log, l, ticks[|ticks| - 1]).trace;
      forall k | 0 <= k < |after| && after[k].RetryIn? ensures RetriedRight(settings, after, k) {
        if k < |l.trace| { assert RetriedRight(settings, l.trace, k); }
      }
    }
  }

  lemma StartsReset(settings: Settings, state: State, position: nat)
    ensures DelayReset(settings, Begin(settings, state, position))
  {}

  lemma {:induction false} FirstRetry(settings: Settings, log: seq<Message>, state: State, position: nat,
                                      ticks: seq<Tick>)
    requires ticks != [] && ticks[0].FetchFails? && !ticks[0].cancelled
    ensures
      var trace := Run(settings, log, Begin(settings, state, position), ticks).trace;
      trace != [] && trace[0].RetryIn?
  {
    hide SaveMessage, SaveOutcome, IsApplied, WithJitterEqual, NextBackoff;
    if |ticks| == 1 {
      assert ticks[..0] == [];
    } else {
      FirstRetry(settings, log, state, position, ticks[..|ticks| - 1]);
    }
  }

  /** In every session: no retry sleeps longer than both settings; the first one after the start
      or after a fetched message sleeps between half of `retryInitial` and all of it; and a
      session whose first fetch fails starts with such a retry. */
  lemma SessionRetries(settings: Settings, log: seq<Message>, state: State, position: nat, ticks: seq<Tick>)
    requires 1 <= settings.retryInitial
    ensures
      var trace := Run(settings, log, Begin(settings, state, position), ticks).trace;
      && (forall k :: 0 <= k < |trace| && trace[k].RetryIn? ==>
            trace[k].sleep <= settings.retryInitial || trace[k].sleep <= settings.retryMax)
      && (forall k {:trigger trace[k]} ::
            0 <= k < |trace| && trace[k].RetryIn? && (k == 0 || !trace[k - 1].RetryIn?) ==>
              settings.retryInitial / 2 <= trace[k].sleep <= settings.retryInitial)
      && (ticks != [] && ticks[0].FetchFails? && !ticks[0].cancelled ==> trace != [] && trace[0].RetryIn?)
  {
    hide Run, Begin;
    LoopRetries(settings, log, state, position, ticks);
    if ticks != [] && ticks[0].FetchFails? && !ticks[0].cancelled {
      FirstRetry(settings, log, state, position, ticks);
    }
  }

  /** Once the context is done the loop does nothing more, and commits nothing. */
  lemma {:induction false} CancelStops(settings: Settings, log: seq<Message>, l: Loop, tick: Tick, later: seq<Tick>)
    requires tick.FetchFails? && (tick.cancelled || tick.interrupted) && !l.stopped
    ensures
      var end := Run(settings, log, Step(settings, log, l, tick), later);
      && end == Step(settings, log, l, tick) && end.stopped
      && end.state == l.state && end.position == l.position && end.next == l.next
      && end.consumed == l.consumed && end.processed == l.processed && end.failed == l.failed
      && (tick.cancelled ==> end.trace == l.trace)
      && (!tick.cancelled ==> |end.trace| == |l.trace| + 1 && l.trace < end.trace && end.trace[|l.trace|].RetryIn?)
  {
    if later == [] {
    } else {
      CancelStops(settings, log, l, tick, later[..|later| - 1]);
    }
  }

  // ----- Overtaking -----

  /** No recorded commit comes after a temporary failure. */
  ghost predicate FailuresLast(trace: seq<LoopEvent>) {
    forall j, k :: 0 <= j < k < |trace| && IsTemporary(trace[j]) && trace[k].CommitCalled? ==> !trace[k].recorded
  }

  /** The message at `offset` was given up in this session although it only failed temporarily:
      the position moved past it, so no later session fetches it. */
  ghost predicate Overtaken(l: Loop, offset: nat) {
    offset < l.position && exists j :: 0 <= j < |l.trace| && IsTemporary(l.trace[j]) && l.trace[j].offset == offset
  }

  /** The position is one past the last recorded commit, or where the session started. */
  ghost predicate PositionRecorded(l: Loop, start: nat) {
    && (l.position == start || exists k: nat :: RecordedAt(l, k))
    && (forall k :: 0 <= k < |l.trace| && l.trace[k].CommitCalled? && l.trace[k].recorded ==>
          l.trace[k].offset < l.position)
    && (forall k :: 0 <= k < |l.trace| && 0 <= Offset(l.trace[k]) ==> start <= Offset(l.trace[k]))
  }

  /** The recorded commit at `k` set the position. */
  ghost predicate RecordedAt(l: Loop, k: nat) {
    k < |l.trace| && l.trace[k].CommitCalled? && l.trace[k].recorded && l.trace[k].offset + 1 == l.position
  }

  /** More events, with the commit they record, if any. */
  lemma PositionAppend(l: Loop, start: nat, after: Loop, block: seq<LoopEvent>, recorded: nat)
    requires PositionRecorded(l, start) && l.position <= l.next && start <= l.next
    requires after.trace == l.trace + block && l.position <= after.position
    requires AllFrom(block, l.next)
    requires forall k :: 0 <= k < |block| && block[k].CommitCalled? && block[k].recorded ==>
               block[k].offset < after.position
    requires after.position != l.position ==>
               recorded < |block| && block[recorded].CommitCalled? && block[recorded].recorded
               && block[recorded].offset + 1 == after.position
    ensures PositionRecorded(after, start)
  {
    assert forall k :: 0 <= k < |l.trace| ==> after.trace[k] == l.trace[k];
    assert forall k :: |l.trace| <= k < |after.trace| ==> after.trace[k] == block[k - |l.trace|];
    if after.position != l.position {
      assert RecordedAt(after, |l.trace| + recorded);
    } else if after.position != start {
      var k: nat :| RecordedAt(l, k);
      assert RecordedAt(after, k);
    }
  }

  lemma StepPosition(settings: Settings, log: seq<Message>, l: Loop, tick: Tick, start: nat)
    requires PositionRecorded(l, start) && start <= l.position <= l.next
    ensures PositionRecorded(Step(settings, log, l, tick), start)
  {
    hide SaveMessage, SaveOutcome, IsApplied, PositionRecorded, AllFrom, WithJitterEqual, InFetchOrder;
    var after := Step(settings, log, l, tick);
    if l.stopped || (tick.FetchFails? && tick.cancelled) || (tick.Deliver? && |log| <= l.next) {
      SameRecorded(l, after, start);
    } else if tick.FetchFails? {
      var e := RetryIn(WithJitterEqual(l.retry, tick.seed));
      QuietOrdered(l.next, e);
      PositionAppend(l, start, after, [e], 0);
    } else {
      var h := Handling(settings, l, log[l.next], tick);
      var e := Ending(settings, l, h.outcome, tick);
      BlockOrdered(l.next, h, e);
      PositionAppend(l, start, after, [Fetched(l.next), h, e], 2);
    }
  }

  lemma SameRecorded(l: Loop, after: Loop, start: nat)
    requires PositionRecorded(l, start) && after.trace == l.trace && after.position == l.position
    ensures PositionRecorded(after, start)
  {
    if l.position != start {
      var k: nat :| RecordedAt(l, k);
      assert RecordedAt(after, k);
    }
  }

  lemma {:induction false} SessionPosition(settings: Settings, log: seq<Message>, state: State, position: nat,
                                           ticks: seq<Tick>)
    ensures PositionRecorded(Run(settings, log, Begin(settings, state, position), ticks), position)
  {
    hide PositionRecorded;
    if ticks == [] {
      NoCommits(settings, state, position);
    } else {
      var before := ticks[..|ticks| - 1];
      SessionPosition(settings, log, state, position, before);
      SessionSafe(settings, log, state, position, before);
      var l := Run(settings, log, Begin(settings, state, position), before);
      StepPosition(settings, log, l, ticks[|ticks| - 1], position);
    }
  }

  lemma NoCommits(settings: Settings, state: State, position: nat)
    ensures PositionRecorded(Begin(settings, state, position), position)
  {}

  /** "Temporary errors are retried" holds of a session exactly when no recorded commit comes
      after a temporary failure: only then does no position move past a failed message. */
  lemma NothingOvertakenIff(settings: Settings, log: seq<Message>, state: State, position: nat, ticks: seq<Tick>)
    ensures
      var l := Run(settings, log, Begin(settings, state, position), ticks);
      (forall offset: nat :: !Overtaken(l, offset)) <==> FailuresLast(l.trace)
  {
    hide Run, Begin;
    var l := Run(settings, log, Begin(settings, state, position), ticks);
    SessionSafe(settings, log, state, position, ticks);
    SessionPosition(settings, log, state, position, ticks);
    hide FailuresLast, InFetchOrder, PositionRecorded, SafeCommits, Overtaken;
    if !FailuresLast(l.trace) {
      var offset := BreakOvertakes(l, position);
    } else {
      forall offset: nat ensures !Overtaken(l, offset) {
        if Overtaken(l, offset) { OvertakenBreaks(l, position, offset); }
      }
    }
  }

  lemma BreakOvertakes(l: Loop, start: nat) returns (offset: nat)
    requires InFetchOrder(l.trace, l.next) && PositionRecorded(l, start) && !FailuresLast(l.trace)
    ensures Overtaken(l, offset)
  {
    var j, k :| 0 <= j < k < |l.trace| && IsTemporary(l.trace[j]) && l.trace[k].CommitCalled? && l.trace[k].recorded;
    assert Offset(l.trace[j]) <= Offset(l.trace[k]);
    offset := l.trace[j].offset;
  }

  lemma OvertakenBreaks(l: Loop, start: nat, offset: nat)
    requires InFetchOrder(l.trace, l.next) && PositionRecorded(l, start) && Overtaken(l, offset)
    ensures !FailuresLast(l.trace)
  {
    var j :| 0 <= j < |l.trace| && IsTemporary(l.trace[j]) && l.trace[j].offset == offset;
    assert start <= Offset(l.trace[j]) == offset;
    assert l.position != start;
    var k: nat :| RecordedAt(l, k);
    assert Offset(l.trace[k]) == l.trace[k].offset;
    assert j < k;
  }

  /** It does not always hold: a message that is not JSON fails temporarily each time; if the
      next one does not, and its commit is recorded, the position moves past both. */
  lemma BadJSONIsOvertaken(settings: Settings, log: seq<Message>, state: State, position: nat, first: Tick,
                           second: Tick)
    requires position + 1 < |log| && log[position].Undecodable?
    requires first.Deliver? && second.Deliver? && second.recorded
    requires SaveOutcome(state.store, log[position + 1], second.fault) != Temporary
    ensures
      var l := Run(settings, log, Begin(settings, state, position), [first, second]);
      l.position == position + 2 && Overtaken(l, position) && l.failed != 0
  {
    var l0 := Begin(settings, state, position);
    assert [first, second][..1] == [first] && [first][..0] == [];
    assert Run(settings, log, l0, []) == l0;
    var l1 := Run(settings, log, l0, [first]);
    assert l1 == Step(settings, log, l0, first) && l1.state == state;
    var l := Run(settings, log, l0, [first, second]);
    assert l == Step(settings, log, l1, second);
    assert IsTemporary(l.trace[1]) && l.trace[1].offset == position;
  }
}
