/** Any number of sessions of the consumer over one log, and exactly when every message they leave
    behind has been saved at least once. */
module Sessions {
  import opened Domain
  import opened Tables
  import opened SaveHistory
  import opened ServiceSpec
  import opened ConsumerSpec
  import opened CommitSafety
  import opened Overtaking
  import LruSpec

  /** One session. As long as the group has committed nothing, it joins the log at `joinAt`: the
      beginning when the start offset is "first", else the end the log had at that moment. */
  datatype Session = Session(joinAt: nat, ticks: seq<Tick>)

  function StartOf(log: seq<Message>, committed: Option<nat>, session: Session): nat {
    match committed
    case Some(p) => p
    case None => if session.joinAt <= |log| then session.joinAt else |log|
  }

  /** The database and the committed position after the sessions. The cache does not survive. */
  function RunSessions(settings: Settings, log: seq<Message>, sessions: seq<Session>): (Store, Option<nat>) {
    if sessions == [] then (EMPTY_STORE, None)
    else
      var last := sessions[|sessions| - 1];
      var (store, committed) := RunSessions(settings, log, sessions[..|sessions| - 1]);
      var l := LastLoop(settings, log, store, committed, last);
      (l.state.store, if l.position == StartOf(log, committed, last) then committed else Some(l.position))
  }

  function LastLoop(settings: Settings, log: seq<Message>, store: Store, committed: Option<nat>,
                    session: Session): Loop
  {
    var start := StartOf(log, committed, session);
    Run(settings, log, Begin(settings, State(store, LruSpec.EMPTY_CACHE), start), session.ticks)
  }

  /** The n-th session. */
  function LoopOf(settings: Settings, log: seq<Message>, sessions: seq<Session>, n: nat): Loop
    requires n < |sessions|
  {
    var (store, committed) := RunSessions(settings, log, sessions[..n]);
    LastLoop(settings, log, store, committed, sessions[n])
  }

  /** The database that the n-th session finds. */
  function StoreBefore(settings: Settings, log: seq<Message>, sessions: seq<Session>, n: nat): Store
    requires n <= |sessions|
  {
    RunSessions(settings, log, sessions[..n]).0
  }

  /** The committed position that the n-th session finds. */
  function CommittedBefore(settings: Settings, log: seq<Message>, sessions: seq<Session>, n: nat): Option<nat>
    requires n <= |sessions|
  {
    RunSessions(settings, log, sessions[..n]).1
  }

  /** Where the n-th session starts. */
  function StartIn(settings: Settings, log: seq<Message>, sessions: seq<Session>, n: nat): nat
    requires n < |sessions|
  {
    StartOf(log, CommittedBefore(settings, log, sessions, n), sessions[n])
  }

  /** What is delivered in the n-th session. */
  function MeetsIn(settings: Settings, log: seq<Message>, sessions: seq<Session>, n: nat): seq<Tick>
    requires n < |sessions|
  {
    Deliveries(log, StartIn(settings, log, sessions, n), sessions[n].ticks)
  }

  // ----- One session after others -----

  predicate Below(i: nat, committed: Option<nat>) { committed.Some? && i < committed.value }

  lemma {:induction false} CommittedWithin(settings: Settings, log: seq<Message>, sessions: seq<Session>)
    ensures
      var committed := RunSessions(settings, log, sessions).1;
      committed.Some? ==> committed.value <= |log|
  {
    hide Run, PositionAfter, Failures, StoreAfter, Applications;
    if sessions == [] {
    } else {
      var n := |sessions| - 1;
      CommittedWithin(settings, log, sessions[..n]);
      var (store, committed) := RunSessions(settings, log, sessions[..n]);
      var start := StartOf(log, committed, sessions[n]);
      SessionFollows(settings, log, State(store, LruSpec.EMPTY_CACHE), start, sessions[n].ticks);
    }
  }

  /** What the n-th session does, from what it finds and what it meets. */
  lemma SessionIs(settings: Settings, log: seq<Message>, sessions: seq<Session>, n: nat)
    requires n < |sessions|
    ensures
      var s, start := StoreBefore(settings, log, sessions, n), StartIn(settings, log, sessions, n);
      var ds := MeetsIn(settings, log, sessions, n);
      && start <= |log| && Delivered(log, start, ds) && AllDeliver(ds)
      && AppliedAre(LoopOf(settings, log, sessions, n).trace, start, Applications(s, log, start, ds))
      && StoreBefore(settings, log, sessions, n + 1) == StoreAfter(s, log, start, ds)
      && var p := PositionAfter(start, Failures(s, log, start, ds), ds);
      && CommittedBefore(settings, log, sessions, n + 1)
         == if p == start then CommittedBefore(settings, log, sessions, n) else Some(p)
  {
    hide Run, PositionAfter, Failures, StoreAfter, Applications, AppliedAre, Deliveries;
    CommittedWithin(settings, log, sessions[..n]);
    var (store, committed) := RunSessions(settings, log, sessions[..n]);
    var start := StartOf(log, committed, sessions[n]);
    SessionFollows(settings, log, State(store, LruSpec.EMPTY_CACHE), start, sessions[n].ticks);
    assert sessions[..n + 1][..n] == sessions[..n];
    DeliversAll(log, StartIn(settings, log, sessions, n), MeetsIn(settings, log, sessions, n));
  }

  lemma DeliversAll(log: seq<Message>, start: nat, ds: seq<Tick>)
    requires Delivered(log, start, ds)
    ensures AllDeliver(ds)
  {
    assert forall k :: 0 <= k < |ds| ==> ds[k] in ds;
  }

  /** The position never moves back. */
  lemma {:induction false} CommittedGrows(settings: Settings, log: seq<Message>, sessions: seq<Session>, m: nat, n: nat)
    requires m <= n <= |sessions|
    ensures
      var a, b := CommittedBefore(settings, log, sessions, m), CommittedBefore(settings, log, sessions, n);
      a.Some? ==> b.Some? && a.value <= b.value
  {
    hide CommittedBefore, StoreBefore, MeetsIn, Delivered, AppliedAre;
    if m == n {
    } else {
      CommittedGrows(settings, log, sessions, m, n - 1);
      SessionIs(settings, log, sessions, n - 1);
    }
  }

  /** Where a session begins: the messages it has consumed end where its next fetch goes, and they
      start at the committed position, or, while nothing is committed, where the session joins. */
  lemma SessionBegins(settings: Settings, log: seq<Message>, sessions: seq<Session>, n: nat)
    requires n < |sessions|
    ensures
      var l, committed := LoopOf(settings, log, sessions, n), CommittedBefore(settings, log, sessions, n);
      && (committed.Some? ==> l.next == committed.value + l.consumed)
      && (committed.None? && sessions[n].joinAt <= |log| ==> l.next == sessions[n].joinAt + l.consumed)
      && (committed.None? && |log| < sessions[n].joinAt ==> l.next == |log| && l.consumed == 0)
  {
    hide Run, RunSessions;
    CommittedWithin(settings, log, sessions[..n]);
    var (store, committed) := RunSessions(settings, log, sessions[..n]);
    SessionSafe(settings, log, State(store, LruSpec.EMPTY_CACHE), StartOf(log, committed, sessions[n]),
                sessions[n].ticks);
    AtEnd(settings, log, State(store, LruSpec.EMPTY_CACHE), StartOf(log, committed, sessions[n]), sessions[n].ticks);
  }

  lemma {:induction false} AtEnd(settings: Settings, log: seq<Message>, state: State, start: nat, ticks: seq<Tick>)
    requires start <= |log|
    ensures Run(settings, log, Begin(settings, state, start), ticks).next <= |log|
  {
    if ticks == [] {
    } else {
      AtEnd(settings, log, state, start, ticks[..|ticks| - 1]);
    }
  }

  // ----- At least once -----

  /** The n-th session commits the order of the message at `i` to the database. */
  ghost predicate SavedIn(settings: Settings, log: seq<Message>, sessions: seq<Session>, n: nat, i: nat)
    requires n < |sessions|
  {
    WasApplied(LoopOf(settings, log, sessions, n).trace, i)
  }

  /** One of the first `n` sessions does. */
  ghost predicate SavedWithin(settings: Settings, log: seq<Message>, sessions: seq<Session>, n: nat, i: nat)
    requires n <= |sessions|
  {
    exists m: nat :: m < n && SavedIn(settings, log, sessions, m, i)
  }

  /** In the n-th session the committed position moves past `i`. */
  ghost predicate MovesPast(settings: Settings, log: seq<Message>, sessions: seq<Session>, n: nat, i: nat)
    requires n < |sessions|
  {
    && Below(i, CommittedBefore(settings, log, sessions, n + 1))
    && !Below(i, CommittedBefore(settings, log, sessions, n))
  }

  /** The position moves past `i`, and the session did not commit its order to the database. */
  ghost predicate Misses(settings: Settings, log: seq<Message>, sessions: seq<Session>, n: nat, i: nat)
    requires n < |sessions|
  {
    MovesPast(settings, log, sessions, n, i) && !SavedIn(settings, log, sessions, n, i)
  }

  /** Each of these messages that lies below the committed position was saved by some session. */
  ghost predicate AtLeastOnce(settings: Settings, log: seq<Message>, sessions: seq<Session>, wanted: set<nat>) {
    forall i: nat :: i in wanted && Below(i, RunSessions(settings, log, sessions).1) ==>
      SavedWithin(settings, log, sessions, |sessions|, i)
  }

  /** Some session moved the position past each offset below it. */
  lemma {:induction false} MovedPast(settings: Settings, log: seq<Message>, sessions: seq<Session>, n: nat, i: nat)
    returns (m: nat)
    requires n <= |sessions| && Below(i, CommittedBefore(settings, log, sessions, n))
    ensures m < n && MovesPast(settings, log, sessions, m, i)
  {
    if n == 0 || !Below(i, CommittedBefore(settings, log, sessions, n - 1)) {
      m := n - 1;
    } else {
      m := MovedPast(settings, log, sessions, n - 1, i);
    }
  }

  /** A session after the position moved past `i` does not meet it again. */
  lemma NotMetAgain(settings: Settings, log: seq<Message>, sessions: seq<Session>, n: nat, m: nat, i: nat)
    requires n < m < |sessions| && MovesPast(settings, log, sessions, n, i)
    ensures !SavedIn(settings, log, sessions, m, i)
  {
    hide CommittedBefore, StoreBefore, MeetsIn, Delivered, LoopOf, WasApplied;
    CommittedGrows(settings, log, sessions, n + 1, m);
    SessionIs(settings, log, sessions, m);
  }

  lemma MissedBelow(settings: Settings, log: seq<Message>, sessions: seq<Session>, n: nat, i: nat)
    requires n < |sessions| && Misses(settings, log, sessions, n, i)
    ensures Below(i, RunSessions(settings, log, sessions).1)
    ensures MovesPast(settings, log, sessions, n, i) && !SavedIn(settings, log, sessions, n, i)
  {
    CommittedGrows(settings, log, sessions, n + 1, |sessions|);
    assert sessions[..|sessions|] == sessions;
  }

  /** "At least once" holds, of whatever messages one cares about, exactly when each of them that a
      session missed was saved by an earlier one. */
  lemma AtLeastOnceIff(settings: Settings, log: seq<Message>, sessions: seq<Session>, wanted: set<nat>)
    ensures AtLeastOnce(settings, log, sessions, wanted)
            <==> forall n, i: nat :: 0 <= n < |sessions| && i in wanted && Misses(settings, log, sessions, n, i) ==>
                   SavedWithin(settings, log, sessions, n, i)
  {
    hide SavedIn, MovesPast, RunSessions;
    if AtLeastOnce(settings, log, sessions, wanted) {
      forall n, i: nat | 0 <= n < |sessions| && i in wanted && Misses(settings, log, sessions, n, i)
        ensures SavedWithin(settings, log, sessions, n, i)
      {
        MissedBelow(settings, log, sessions, n, i);
        var m: nat :| m < |sessions| && SavedIn(settings, log, sessions, m, i);
        if n < m { NotMetAgain(settings, log, sessions, n, m, i); }
      }
    } else {
      var i: nat :| i in wanted && Below(i, RunSessions(settings, log, sessions).1)
                    && !SavedWithin(settings, log, sessions, |sessions|, i);
      assert sessions[..|sessions|] == sessions;
      var n := MovedPast(settings, log, sessions, |sessions|, i);
      assert Misses(settings, log, sessions, n, i) && !SavedWithin(settings, log, sessions, n, i);
    }
  }

  /** Where the position goes in one session, in terms of what it finds and meets. */
  lemma MovesPastIff(settings: Settings, log: seq<Message>, sessions: seq<Session>, n: nat, i: nat)
    requires n < |sessions|
    ensures
      var s, start := StoreBefore(settings, log, sessions, n), StartIn(settings, log, sessions, n);
      var ds := MeetsIn(settings, log, sessions, n);
      && Delivered(log, start, ds) && AllDeliver(ds)
      && var p := PositionAfter(start, Failures(s, log, start, ds), ds);
      && (MovesPast(settings, log, sessions, n, i)
          <==> start < p && i < p && (CommittedBefore(settings, log, sessions, n) == None || start <= i))
  {
    hide CommittedBefore, StoreBefore, MeetsIn, Delivered, LoopOf, AppliedAre, PositionAfter, Failures, Applications;
    SessionIs(settings, log, sessions, n);
  }

  /** If the session moves the position, it skipped none of these messages when it joined the log. */
  ghost predicate SkipsNone(settings: Settings, log: seq<Message>, sessions: seq<Session>, n: nat, wanted: set<nat>)
    requires n < |sessions|
  {
    var start, ds := StartIn(settings, log, sessions, n), MeetsIn(settings, log, sessions, n);
    CommittedBefore(settings, log, sessions, n) == None && PassesSome(settings, log, sessions, n) ==>
      forall i: nat :: i < start ==> i !in wanted
  }

  /** In the n-th session the commit of the k-th delivered message is called, and recorded. */
  ghost predicate PassesIn(settings: Settings, log: seq<Message>, sessions: seq<Session>, n: nat, k: nat)
    requires n < |sessions|
  {
    var s, start := StoreBefore(settings, log, sessions, n), StartIn(settings, log, sessions, n);
    var ds := MeetsIn(settings, log, sessions, n);
    Delivered(log, start, ds) && k < |ds| && AllDeliver(ds) && Passes(Failures(s, log, start, ds), ds, k)
  }

  ghost predicate PassesSome(settings: Settings, log: seq<Message>, sessions: seq<Session>, n: nat)
    requires n < |sessions|
  {
    exists k: nat :: PassesIn(settings, log, sessions, n, k)
  }

  /** In the n-th session the order of the j-th delivered message is not committed. */
  ghost predicate Unsaved(settings: Settings, log: seq<Message>, sessions: seq<Session>, n: nat, j: nat)
    requires n < |sessions|
  {
    var s, start := StoreBefore(settings, log, sessions, n), StartIn(settings, log, sessions, n);
    var ds := MeetsIn(settings, log, sessions, n);
    Delivered(log, start, ds) && j < |ds| && !Applications(s, log, start, ds)[j]
  }

  /** No message whose commit is called and recorded is, or comes after, one of these messages that
      the session did not save. */
  ghost predicate UnsavedLast(settings: Settings, log: seq<Message>, sessions: seq<Session>, n: nat, wanted: set<nat>)
    requires n < |sessions|
  {
    var start := StartIn(settings, log, sessions, n);
    forall j: nat, k: nat :: j <= k && start + j in wanted && Unsaved(settings, log, sessions, n, j) ==>
      !PassesIn(settings, log, sessions, n, k)
  }

  /** The position in terms of what passes, and what is saved. */
  lemma SessionMoves(settings: Settings, log: seq<Message>, sessions: seq<Session>, n: nat, i: nat)
    requires n < |sessions|
    ensures
      var start := StartIn(settings, log, sessions, n);
      && (MovesPast(settings, log, sessions, n, i)
          <==> (CommittedBefore(settings, log, sessions, n) == None || start <= i)
               && exists k: nat :: i <= start + k && PassesIn(settings, log, sessions, n, k))
      && (start <= i && MovesPast(settings, log, sessions, n, i) ==>
            (SavedIn(settings, log, sessions, n, i) <==> !Unsaved(settings, log, sessions, n, i - start)))
      && (i < start ==> !SavedIn(settings, log, sessions, n, i))
  {
    hide CommittedBefore, StoreBefore, MeetsIn, Delivered, LoopOf, PositionAfter, Failures, Applications;
    hide WasApplied, StartIn;
    var s, start := StoreBefore(settings, log, sessions, n), StartIn(settings, log, sessions, n);
    var ds := MeetsIn(settings, log, sessions, n);
    SessionIs(settings, log, sessions, n);
    MovesPastIff(settings, log, sessions, n, i);
    PositionIs(start, Failures(s, log, start, ds), ds);
    var p := PositionAfter(start, Failures(s, log, start, ds), ds);
    if start < p { assert PassesIn(settings, log, sessions, n, p - 1 - start); }
  }

  /** A session misses none of these messages exactly when it skips none as it joins the log, and
      nothing that passes comes after one that was not saved. */
  lemma MissesNoneIff(settings: Settings, log: seq<Message>, sessions: seq<Session>, n: nat, wanted: set<nat>)
    requires n < |sessions|
    ensures (forall i: nat :: i in wanted ==> !Misses(settings, log, sessions, n, i))
            <==> SkipsNone(settings, log, sessions, n, wanted) && UnsavedLast(settings, log, sessions, n, wanted)
  {
    hide MovesPast, SavedIn, PassesIn, Unsaved, CommittedBefore, StartIn, MeetsIn;
    var start := StartIn(settings, log, sessions, n);
    if !SkipsNone(settings, log, sessions, n, wanted) {
      var i: nat :| i < start && i in wanted;
      SessionMoves(settings, log, sessions, n, i);
    } else if !UnsavedLast(settings, log, sessions, n, wanted) {
      var j: nat, k: nat :| j <= k && Unsaved(settings, log, sessions, n, j) && start + j in wanted
                            && PassesIn(settings, log, sessions, n, k);
      SessionMoves(settings, log, sessions, n, start + j);
    } else {
      forall i: nat | i in wanted ensures !Misses(settings, log, sessions, n, i) {
        SessionMoves(settings, log, sessions, n, i);
      }
    }
  }

  /** So when every session does that, each of these messages below the position is saved. */
  lemma AllAreSaved(settings: Settings, log: seq<Message>, sessions: seq<Session>, wanted: set<nat>)
    requires forall n :: 0 <= n < |sessions| ==>
               SkipsNone(settings, log, sessions, n, wanted) && UnsavedLast(settings, log, sessions, n, wanted)
    ensures AtLeastOnce(settings, log, sessions, wanted)
  {
    hide SkipsNone, UnsavedLast, Misses, SavedWithin, AtLeastOnce;
    AtLeastOnceIff(settings, log, sessions, wanted);
    forall n, i: nat | 0 <= n < |sessions| && i in wanted ensures !Misses(settings, log, sessions, n, i) {
      MissesNoneIff(settings, log, sessions, n, wanted);
    }
  }

  /** The messages a caller may expect to be saved. */
  function ValidOffsets(log: seq<Message>): set<nat> { set i: nat | i < |log| && ValidMessage(log[i]) }

  /** A valid message that does not fail temporarily is committed to the database. */
  lemma {:induction false} PassingIsApplied(s: Store, log: seq<Message>, start: nat, ds: seq<Tick>, k: nat)
    requires Delivered(log, start, ds) && k < |ds| && ValidMessage(log[start + k])
    requires !Failures(s, log, start, ds)[k]
    ensures Applications(s, log, start, ds)[k]
  {
    hide Savable, ValidOrder;
    var n := |ds| - 1;
    if k == n {
    } else {
      PassingIsApplied(s, log, start, ds[..n], k);
    }
  }

  /** In the n-th session no message that passes comes after a valid one that was not saved. */
  ghost predicate NoValidUnsaved(settings: Settings, log: seq<Message>, sessions: seq<Session>, n: nat)
    requires n < |sessions|
  {
    var start := StartIn(settings, log, sessions, n);
    forall j: nat, k: nat :: j < k && start + j in ValidOffsets(log) && Unsaved(settings, log, sessions, n, j) ==>
      !PassesIn(settings, log, sessions, n, k)
  }

  /** For the valid messages: a session misses none exactly when it skips none as it joins, and no
      message whose commit is called and recorded comes after a valid one it did not save. */
  lemma MissesNoValidIff(settings: Settings, log: seq<Message>, sessions: seq<Session>, n: nat)
    requires n < |sessions|
    ensures (forall i: nat :: i in ValidOffsets(log) ==> !Misses(settings, log, sessions, n, i))
            <==> SkipsNone(settings, log, sessions, n, ValidOffsets(log)) && NoValidUnsaved(settings, log, sessions, n)
  {
    hide Misses, SkipsNone, StartIn, MeetsIn, StoreBefore, Failures, Applications, Passes, ValidMessage;
    MissesNoneIff(settings, log, sessions, n, ValidOffsets(log));
    var s, start := StoreBefore(settings, log, sessions, n), StartIn(settings, log, sessions, n);
    var ds := MeetsIn(settings, log, sessions, n);
    forall k: nat | start + k in ValidOffsets(log) && PassesIn(settings, log, sessions, n, k)
      ensures !Unsaved(settings, log, sessions, n, k)
    {
      PassesDoesNotFail(Failures(s, log, start, ds), ds, k);
      PassingIsApplied(s, log, start, ds, k);
    }
  }

  lemma PassesDoesNotFail(fails: seq<bool>, ds: seq<Tick>, k: nat)
    requires |fails| == |ds| && k < |ds| && ds[k].Deliver? && Passes(fails, ds, k)
    ensures !fails[k]
  {}

  // ----- What is saved is in the database -----

  lemma SavingStays(s: Store, m: Message, d: Tick, uid: string)
    requires d.Deliver?
    ensures uid in s.tables.orders ==> uid in Saving(s, m, d).tables.orders
    ensures IsApplied(s, m, d.fault) ==> m.order.UID() in Saving(s, m, d).tables.orders
  {
    hide Savable, ValidOrder, RowsBut, NewRows;
  }

  lemma {:induction false} AppliedStays(s: Store, log: seq<Message>, start: nat, ds: seq<Tick>, uid: string)
    requires Delivered(log, start, ds)
    ensures uid in s.tables.orders ==> uid in StoreAfter(s, log, start, ds).tables.orders
    ensures forall k :: 0 <= k < |ds| && Applications(s, log, start, ds)[k] ==>
              && ValidMessage(log[start + k])
              && (log[start + k].order.UID() == uid ==> uid in StoreAfter(s, log, start, ds).tables.orders)
  {
    hide Saving, ValidOrder, Savable;
    if ds == [] {
    } else {
      var n := |ds| - 1;
      AppliedStays(s, log, start, ds[..n], uid);
      SavingStays(StoreAfter(s, log, start, ds[..n]), log[start + n], ds[n], uid);
    }
  }

  /** No session takes an order away. */
  lemma {:induction false} OrdersStay(settings: Settings, log: seq<Message>, sessions: seq<Session>,
                                      m: nat, n: nat, uid: string)
    requires m <= n <= |sessions| && uid in StoreBefore(settings, log, sessions, m).tables.orders
    ensures uid in StoreBefore(settings, log, sessions, n).tables.orders
  {
    hide StoreBefore, StartIn, MeetsIn, CommittedBefore, Delivered;
    if m == n {
    } else {
      OrdersStay(settings, log, sessions, m, n - 1, uid);
      SessionIs(settings, log, sessions, n - 1);
      AppliedStays(StoreBefore(settings, log, sessions, n - 1), log, StartIn(settings, log, sessions, n - 1),
                   MeetsIn(settings, log, sessions, n - 1), uid);
    }
  }

  /** An order that was saved at least once is found under its uid after all sessions. */
  lemma SavedIsFound(settings: Settings, log: seq<Message>, sessions: seq<Session>, i: nat)
    requires SavedWithin(settings, log, sessions, |sessions|, i)
    ensures i < |log| && ValidMessage(log[i])
    ensures Read(RunSessions(settings, log, sessions).0.tables, log[i].order.UID()).Some?
  {
    hide RunSessions, StartIn, MeetsIn, CommittedBefore, ValidOrder, WasApplied, LoopOf, StoreAfter, Applications;
    var m: nat :| m < |sessions| && SavedIn(settings, log, sessions, m, i);
    var start, ds := StartIn(settings, log, sessions, m), MeetsIn(settings, log, sessions, m);
    SessionIs(settings, log, sessions, m);
    assert sessions[..|sessions|] == sessions;
    AppliedStays(StoreBefore(settings, log, sessions, m), log, start, ds, "");
    var uid := log[start + (i - start)].order.UID();
    AppliedStays(StoreBefore(settings, log, sessions, m), log, start, ds, uid);
    OrdersStay(settings, log, sessions, m + 1, |sessions|, uid);
  }
}
