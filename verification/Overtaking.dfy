/** Which failed messages are retried, told from what the sessions meet: the messages of the log,
    what happens to each save, and which commits the broker records. */
module Overtaking {
  import opened Domain
  import opened Tables
  import opened SaveHistory
  import opened ServiceSpec
  import opened ConsumerSpec
  import opened CommitSafety

  predicate Stops(tick: Tick) { tick.FetchFails? && (tick.cancelled || tick.interrupted) }

  predicate Stopped(ticks: seq<Tick>) { exists t :: t in ticks && Stops(t) }

  /** The rounds of a session that deliver a message; the k-th one delivers `log[start + k]`. */
  function Deliveries(log: seq<Message>, start: nat, ticks: seq<Tick>): (ds: seq<Tick>)
    ensures start <= |log| ==> start + |ds| <= |log|
    ensures forall d :: d in ds ==> d.Deliver?
  {
    if ticks == [] then []
    else
      var before, tick := ticks[..|ticks| - 1], ticks[|ticks| - 1];
      var ds := Deliveries(log, start, before);
      if tick.Deliver? && !Stopped(before) && start + |ds| < |log| then ds + [tick] else ds
  }

  /** Messages from `start` on, and what happens to each. */
  predicate Delivered(log: seq<Message>, start: nat, ds: seq<Tick>) {
    start + |ds| <= |log| && forall d :: d in ds ==> d.Deliver?
  }

  /** The database after saving the valid ones among the messages, and nothing else. */
  function StoreAfter(s: Store, log: seq<Message>, start: nat, ds: seq<Tick>): Store
    requires Delivered(log, start, ds)
  {
    if ds == [] then s
    else
      var n := |ds| - 1;
      Saving(StoreAfter(s, log, start, ds[..n]), log[start + n], ds[n])
  }

  function Saving(s: Store, m: Message, d: Tick): Store
    requires d.Deliver?
  {
    if ValidMessage(m) then Apply(s, Attempt(m.order, d.fault, d.burned)) else s
  }

  /** Which of the messages have their orders committed to the database. */
  function Applications(s: Store, log: seq<Message>, start: nat, ds: seq<Tick>): (applied: seq<bool>)
    requires Delivered(log, start, ds)
    ensures |applied| == |ds|
  {
    if ds == [] then []
    else
      var n := |ds| - 1;
      Applications(s, log, start, ds[..n])
      + [IsApplied(StoreAfter(s, log, start, ds[..n]), log[start + n], ds[n].fault)]
  }

  /** Which of the messages fail temporarily: not JSON, or valid and not saved without trouble. */
  function Failures(s: Store, log: seq<Message>, start: nat, ds: seq<Tick>): (fails: seq<bool>)
    requires Delivered(log, start, ds)
    ensures |fails| == |ds|
  {
    if ds == [] then []
    else
      var n := |ds| - 1;
      Failures(s, log, start, ds[..n])
      + [SaveOutcome(StoreAfter(s, log, start, ds[..n]), log[start + n], ds[n].fault) == Temporary]
  }

  /** The commit of the k-th message is called, and recorded. */
  predicate Passes(fails: seq<bool>, ds: seq<Tick>, k: nat)
    requires |fails| == |ds| && k < |ds| && ds[k].Deliver?
  {
    !fails[k] && ds[k].recorded
  }

  ghost predicate AllDeliver(ds: seq<Tick>) { forall k :: 0 <= k < |ds| ==> ds[k].Deliver? }

  /** No message that passes comes after one that fails. */
  ghost predicate FailingLast(fails: seq<bool>, ds: seq<Tick>)
    requires |fails| == |ds| && AllDeliver(ds)
  {
    forall j, k :: 0 <= j < k < |ds| && fails[j] ==> !Passes(fails, ds, k)
  }

  /** One past the last message that passes. */
  ghost function PositionAfter(start: nat, fails: seq<bool>, ds: seq<Tick>): (p: nat)
    requires |fails| == |ds| && AllDeliver(ds)
    ensures start <= p <= start + |ds|
  {
    if ds == [] then start
    else
      var n := |ds| - 1;
      if Passes(fails, ds, n) then start + n + 1 else PositionAfter(start, fails[..n], ds[..n])
  }

  /** It is one past a message that passes, unless none does, and past all that do. */
  lemma {:induction false} PositionIs(start: nat, fails: seq<bool>, ds: seq<Tick>)
    requires |fails| == |ds| && AllDeliver(ds)
    ensures
      var p := PositionAfter(start, fails, ds);
      && (start < p ==> Passes(fails, ds, p - 1 - start))
      && forall k :: 0 <= k < |ds| && Passes(fails, ds, k) ==> start + k < p
  {
    if ds == [] {
    } else {
      var n := |ds| - 1;
      PositionIs(start, fails[..n], ds[..n]);
      forall k | 0 <= k < n ensures Passes(fails[..n], ds[..n], k) == Passes(fails, ds, k) {}
    }
  }

  // ----- What a trace says -----

  ghost predicate NoFailure(trace: seq<LoopEvent>) {
    forall k :: 0 <= k < |trace| ==> !IsTemporary(trace[k])
  }

  /** The order of the message at `offset` was committed to the database. */
  ghost predicate WasApplied(trace: seq<LoopEvent>, offset: nat) {
    exists k :: 0 <= k < |trace| && AppliesAt(trace[k], offset)
  }

  predicate AppliesAt(e: LoopEvent, offset: nat) { e.Handled? && e.applied && e.offset == offset }

  // ----- One round -----

  /** One more message. */
  lemma FailuresOne(s: Store, log: seq<Message>, start: nat, ds: seq<Tick>, d: Tick)
    requires Delivered(log, start, ds) && start + |ds| < |log| && d.Deliver?
    ensures Delivered(log, start, ds + [d])
    ensures StoreAfter(s, log, start, ds + [d]) == Saving(StoreAfter(s, log, start, ds), log[start + |ds|], d)
    ensures Failures(s, log, start, ds + [d])
            == Failures(s, log, start, ds)
               + [SaveOutcome(StoreAfter(s, log, start, ds), log[start + |ds|], d.fault) == Temporary]
    ensures Applications(s, log, start, ds + [d])
            == Applications(s, log, start, ds) + [IsApplied(StoreAfter(s, log, start, ds), log[start + |ds|], d.fault)]
  {
    assert (ds + [d])[..|ds|] == ds;
  }

  lemma FailingLastOne(start: nat, fails: seq<bool>, ds: seq<Tick>, fail: bool, d: Tick)
    requires |fails| == |ds| && AllDeliver(ds) && d.Deliver?
    ensures AllDeliver(ds + [d])
    ensures FailingLast(fails + [fail], ds + [d])
            <==> FailingLast(fails, ds) && (!fail && d.recorded ==> true !in fails)
    ensures PositionAfter(start, fails + [fail], ds + [d])
            == if !fail && d.recorded then start + |ds| + 1 else PositionAfter(start, fails, ds)
  {
    var more, all := ds + [d], fails + [fail];
    assert more[..|ds|] == ds && all[..|ds|] == fails;
    assert forall k :: 0 <= k < |ds| ==> more[k] == ds[k] && all[k] == fails[k];
    assert AllDeliver(more) && Passes(all, more, |ds|) == (!fail && d.recorded);
    forall k | 0 <= k < |ds| ensures Passes(all, more, k) == Passes(fails, ds, k) {}
    if true in fails {
      var j :| 0 <= j < |ds| && fails[j];
      assert all[j];
    }
    if FailingLast(all, more) {
      forall j, k | 0 <= j < k < |ds| && fails[j] ensures !Passes(fails, ds, k) { assert all[j]; }
    }
  }

  lemma FailuresLastBlock(t: seq<LoopEvent>, f: LoopEvent, h: LoopEvent, e: LoopEvent)
    requires f.Fetched? && h.Handled? && (e.CommitCalled? || e.Paused?) && (e.CommitCalled? ==> !IsTemporary(h))
    ensures FailuresLast(t + [f, h, e])
            <==> FailuresLast(t) && (e.CommitCalled? && e.recorded ==> NoFailure(t))
    ensures NoFailure(t + [f, h, e]) <==> NoFailure(t) && !IsTemporary(h)
  {
    var all := t + [f, h, e];
    assert forall k :: 0 <= k < |t| ==> all[k] == t[k];
    assert all[|t|] == f && all[|t| + 1] == h && all[|t| + 2] == e;
  }

  lemma AppliedAppend(t: seq<LoopEvent>, block: seq<LoopEvent>, offset: nat)
    ensures WasApplied(t + block, offset) <==> WasApplied(t, offset) || WasApplied(block, offset)
  {
    var all := t + block;
    if WasApplied(t, offset) {
      var k :| 0 <= k < |t| && AppliesAt(t[k], offset);
      assert AppliesAt(all[k], offset);
    }
    if WasApplied(block, offset) {
      var k :| 0 <= k < |block| && AppliesAt(block[k], offset);
      assert AppliesAt(all[|t| + k], offset);
    }
  }

  lemma AppliedBlock(next: nat, h: LoopEvent, e: LoopEvent, offset: nat)
    requires h.Handled? && (e.CommitCalled? || e.Paused?)
    ensures WasApplied([Fetched(next), h, e], offset) <==> h.applied && h.offset == offset
  {
    assert [Fetched(next), h, e][1] == h;
  }

  lemma FailuresLastQuiet(t: seq<LoopEvent>, e: LoopEvent)
    requires e.RetryIn?
    ensures FailuresLast(t + [e]) <==> FailuresLast(t)
    ensures NoFailure(t + [e]) <==> NoFailure(t)
  {
    assert forall k :: 0 <= k < |t| ==> (t + [e])[k] == t[k];
    assert (t + [e])[|t|] == e;
  }

  // ----- One session -----

  /** The loop did what the deliveries say. */
  ghost predicate Follows(s: Store, log: seq<Message>, start: nat, ds: seq<Tick>, l: Loop)
    requires Delivered(log, start, ds)
  {
    var fails := Failures(s, log, start, ds);
    && l.next == start + |ds|
    && l.state.store == StoreAfter(s, log, start, ds)
    && l.position == PositionAfter(start, fails, ds)
    && (NoFailure(l.trace) <==> true !in fails)
    && (FailuresLast(l.trace) <==> FailingLast(fails, ds))
    && AppliedAre(l.trace, start, Applications(s, log, start, ds))
  }

  /** The trace committed exactly the marked messages. */
  ghost predicate AppliedAre(trace: seq<LoopEvent>, start: nat, applied: seq<bool>) {
    forall i: nat :: WasApplied(trace, i) <==> start <= i < start + |applied| && applied[i - start]
  }

  lemma AppliedRound(t: seq<LoopEvent>, start: nat, applied: seq<bool>, next: nat, h: LoopEvent, e: LoopEvent)
    requires AppliedAre(t, start, applied) && next == start + |applied|
    requires h.Handled? && h.offset == next && (e.CommitCalled? || e.Paused?)
    ensures AppliedAre(t + [Fetched(next), h, e], start, applied + [h.applied])
  {
    hide WasApplied;
    var all := t + [Fetched(next), h, e];
    forall i: nat
      ensures WasApplied(all, i) <==> start <= i < start + |applied| + 1 && (applied + [h.applied])[i - start]
    {
      AppliedAppend(t, [Fetched(next), h, e], i);
      AppliedBlock(next, h, e, i);
    }
  }

  lemma RoundFollows(settings: Settings, s: Store, log: seq<Message>, l: Loop, tick: Tick, start: nat, ds: seq<Tick>)
    requires Delivered(log, start, ds) && Follows(s, log, start, ds, l)
    requires tick.Deliver? && l.next < |log|
    ensures Delivered(log, start, ds + [tick])
    ensures Follows(s, log, start, ds + [tick], Round(settings, l, log[l.next], tick))
  {
    hide ValidMessage, SaveOutcome, IsApplied, NoFailure, FailuresLast, FailingLast, PositionAfter, Failures;
    hide StoreAfter, Apply, Applications, AppliedAre;
    var m, h := log[l.next], Handling(settings, l, log[l.next], tick);
    var fails, fail := Failures(s, log, start, ds), h.outcome == Temporary;
    FailuresOne(s, log, start, ds, tick);
    FailingLastOne(start, fails, ds, fail, tick);
    FailuresLastBlock(l.trace, Fetched(l.next), h, Ending(settings, l, h.outcome, tick));
    assert true in fails + [fail] <==> true in fails || fail;
    AppliedRound(l.trace, start, Applications(s, log, start, ds), l.next, h, Ending(settings, l, h.outcome, tick));
  }

  lemma QuietFollows(settings: Settings, s: Store, log: seq<Message>, l: Loop, tick: Tick, start: nat, ds: seq<Tick>)
    requires Delivered(log, start, ds) && Follows(s, log, start, ds, l)
    requires l.stopped || !tick.Deliver? || |log| <= l.next
    ensures Follows(s, log, start, ds, Step(settings, log, l, tick))
  {
    hide NoFailure, FailuresLast, FailingLast, PositionAfter, Failures, StoreAfter, Round, WasApplied;
    var after := Step(settings, log, l, tick);
    if after.trace != l.trace {
      var e := after.trace[|l.trace|];
      assert after.trace == l.trace + [e] && e.RetryIn?;
      FailuresLastQuiet(l.trace, e);
      forall i: nat ensures WasApplied(after.trace, i) <==> WasApplied(l.trace, i) {
        AppliedAppend(l.trace, [e], i);
        NothingApplied(e, i);
      }
    }
  }

  lemma NothingApplied(e: LoopEvent, offset: nat)
    requires e.RetryIn?
    ensures !WasApplied([e], offset)
  {}

  lemma StoppedOne(ticks: seq<Tick>)
    requires ticks != []
    ensures Stopped(ticks) <==> Stopped(ticks[..|ticks| - 1]) || Stops(ticks[|ticks| - 1])
  {
    assert ticks == ticks[..|ticks| - 1] + [ticks[|ticks| - 1]];
  }

  lemma DeliveriesDelivered(log: seq<Message>, start: nat, ticks: seq<Tick>)
    requires start <= |log|
    ensures Delivered(log, start, Deliveries(log, start, ticks))
  {}

  /** A session does what the messages it meets, and what happens to them, make it do. */
  lemma {:induction false} SessionFollows(settings: Settings, log: seq<Message>, state: State, start: nat,
                                          ticks: seq<Tick>)
    requires start <= |log|
    ensures
      var l, ds := Run(settings, log, Begin(settings, state, start), ticks), Deliveries(log, start, ticks);
      && (l.stopped <==> Stopped(ticks))
      && Delivered(log, start, ds) && Follows(state.store, log, start, ds, l)
  {
    hide Follows, Delivered, Round, Stopped;
    DeliveriesDelivered(log, start, ticks);
    if ticks == [] {
      FollowsNothing(settings, log, state, start);
    } else {
      var n := |ticks| - 1;
      var l, ds := Run(settings, log, Begin(settings, state, start), ticks[..n]), Deliveries(log, start, ticks[..n]);
      SessionFollows(settings, log, state, start, ticks[..n]);
      StoppedOne(ticks);
      FollowsNext(state.store, log, start, ds, l);
      if !l.stopped && ticks[n].Deliver? && l.next < |log| {
        RoundFollows(settings, state.store, log, l, ticks[n], start, ds);
        RoundRuns(settings, l, log[l.next], ticks[n]);
      } else {
        QuietFollows(settings, state.store, log, l, ticks[n], start, ds);
      }
    }
  }

  lemma RoundRuns(settings: Settings, l: Loop, m: Message, tick: Tick)
    requires tick.Deliver?
    ensures !Round(settings, l, m, tick).stopped
  {}

  lemma FollowsNext(s: Store, log: seq<Message>, start: nat, ds: seq<Tick>, l: Loop)
    requires Delivered(log, start, ds) && Follows(s, log, start, ds, l)
    ensures l.next == start + |ds|
  {}

  lemma FollowsNothing(settings: Settings, log: seq<Message>, state: State, start: nat)
    requires start <= |log|
    ensures Delivered(log, start, []) && Follows(state.store, log, start, [], Begin(settings, state, start))
    ensures !Stopped([])
  {}

  /** "Temporary errors are retried" holds of a session exactly when no message whose commit is
      called and recorded is delivered after one that fails: only then does no position move past
      a failed message. The condition is about the database before the session, the messages,
      and what happens to their saves and commits, not about what the loop does. */
  lemma FailuresRetriedIff(settings: Settings, log: seq<Message>, state: State, start: nat, ticks: seq<Tick>)
    requires start <= |log|
    ensures
      var l, ds := Run(settings, log, Begin(settings, state, start), ticks), Deliveries(log, start, ticks);
      && Delivered(log, start, ds)
      && var fails := Failures(state.store, log, start, ds);
      && ((forall offset: nat :: !Overtaken(l, offset)) <==> FailingLast(fails, ds))
      && l.position == PositionAfter(start, fails, ds)
  {
    hide Run, Begin, FailuresLast, FailingLast, Overtaken, Failures, PositionAfter;
    SessionFollows(settings, log, state, start, ticks);
    NothingOvertakenIff(settings, log, state, start, ticks);
  }
}
