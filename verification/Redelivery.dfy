/** What any number of sessions over one log leave in the database: which acceptable orders are
    there at least once, and when the tables are those of one clean pass. */
module Redelivery {
  import opened Domain
  import opened Tables
  import opened SaveHistory
  import opened ServiceSpec
  import opened ConsumerSpec
  import opened CommitSafety
  import opened Overtaking
  import opened SessionEffects
  import opened Sessions
  import LruSpec

  // ----- Told from what the sessions meet -----

  /** The committed position, when each uid has one transaction of its own. */
  ghost function CommittedOf(log: seq<Message>, sessions: seq<Session>): (c: Option<nat>)
    ensures c.Some? ==> c.value <= |log|
  {
    if sessions == [] then None
    else
      var before := CommittedOf(log, sessions[..|sessions| - 1]);
      var start := StartOf(log, before, sessions[|sessions| - 1]);
      var p := Reached(log, start, Deliveries(log, start, sessions[|sessions| - 1].ticks));
      if p == start then before else Some(p)
  }

  /** Where the n-th session starts. */
  ghost function StartAt(log: seq<Message>, sessions: seq<Session>, n: nat): (start: nat)
    requires n < |sessions|
    ensures start <= |log|
  {
    StartOf(log, CommittedOf(log, sessions[..n]), sessions[n])
  }

  /** What is delivered in the n-th session. */
  ghost function Meets(log: seq<Message>, sessions: seq<Session>, n: nat): (ds: seq<Tick>)
    requires n < |sessions|
    ensures Delivered(log, StartAt(log, sessions, n), ds)
  {
    Deliveries(log, StartAt(log, sessions, n), sessions[n].ticks)
  }

  /** All that the sessions bring to the database, oldest first. */
  ghost function HistoryOf(log: seq<Message>, sessions: seq<Session>): seq<Order> {
    if sessions == [] then []
    else
      var n := |sessions| - 1;
      HistoryOf(log, sessions[..n]) + Kept(log, StartAt(log, sessions, n), Meets(log, sessions, n))
  }

  lemma CommittedOne(log: seq<Message>, sessions: seq<Session>)
    requires sessions != []
    ensures
      var n := |sessions| - 1;
      var start, p := StartAt(log, sessions, n), Reached(log, StartAt(log, sessions, n), Meets(log, sessions, n));
      CommittedOf(log, sessions) == if p == start then CommittedOf(log, sessions[..n]) else Some(p)
  {}

  /** After any sessions whatever the committed position and the database are what the messages,
      their saves and their commits make them. */
  lemma {:induction false} SessionsRecord(settings: Settings, log: seq<Message>, sessions: seq<Session>)
    requires TransactionPerUID(GoodOrders(log))
    ensures
      var (store, committed) := RunSessions(settings, log, sessions);
      && committed == CommittedOf(log, sessions)
      && Records(store.tables, HistoryOf(log, sessions))
      && (forall o :: o in HistoryOf(log, sessions) ==> o in GoodOrders(log))
  {
    hide Records, TransactionPerUID, GoodOrders, Run, Kept, Deliveries, PositionAfter, Failures, Expected;
    hide StoreAfter, Applications;
    if sessions == [] {
      EmptyRecords();
    } else {
      var n := |sessions| - 1;
      SessionsRecord(settings, log, sessions[..n]);
      var (store, committed) := RunSessions(settings, log, sessions[..n]);
      var start, ds := StartAt(log, sessions, n), Meets(log, sessions, n);
      SessionFollows(settings, log, State(store, LruSpec.EMPTY_CACHE), start, sessions[n].ticks);
      SessionRecords(store, HistoryOf(log, sessions[..n]), GoodOrders(log), log, start, ds);
    }
  }

  // ----- At least once -----

  /** The n-th session commits the order of the message at `i` to the database, when each uid has
      one transaction of its own. */
  ghost predicate SavedAt(log: seq<Message>, sessions: seq<Session>, n: nat, i: nat)
    requires n < |sessions|
  {
    var start, ds := StartAt(log, sessions, n), Meets(log, sessions, n);
    start <= i < start + |ds| && Good(log[i]) && !ds[i - start].fault.BrokenAt?
  }

  /** One of the first `n` sessions does. */
  ghost predicate SavedBy(log: seq<Message>, sessions: seq<Session>, n: nat, i: nat)
    requires n <= |sessions|
  {
    exists m: nat :: m < n && SavedAt(log, sessions, m, i)
  }

  /** The position moves past a good message that the session skipped or whose save broke. */
  ghost predicate Missed(log: seq<Message>, sessions: seq<Session>, n: nat, i: nat)
    requires n < |sessions|
  {
    && Below(i, CommittedOf(log, sessions[..n + 1])) && !Below(i, CommittedOf(log, sessions[..n]))
    && Good(log[i]) && !SavedAt(log, sessions, n, i)
  }

  function GoodOffsets(log: seq<Message>): set<nat> { set i: nat | i < |log| && Good(log[i]) }

  /** What a session finds and does is what the messages, their saves and their commits make it. */
  lemma SessionMeets(settings: Settings, log: seq<Message>, sessions: seq<Session>, n: nat)
    requires TransactionPerUID(GoodOrders(log)) && n < |sessions|
    ensures
      var s, start := StoreBefore(settings, log, sessions, n), StartAt(log, sessions, n);
      var ds := Meets(log, sessions, n);
      && CommittedBefore(settings, log, sessions, n) == CommittedOf(log, sessions[..n])
      && StartIn(settings, log, sessions, n) == start && MeetsIn(settings, log, sessions, n) == ds
      && Failures(s, log, start, ds) == Expected(log, start, ds)
      && Unbroken(log, start, ds, Applications(s, log, start, ds))
      && AppliedAre(LoopOf(settings, log, sessions, n).trace, start, Applications(s, log, start, ds))
  {
    hide Records, TransactionPerUID, GoodOrders, Run, Kept, Deliveries, Failures, Expected, StoreAfter, Applications;
    hide RunSessions, CommittedOf, LoopOf, AppliedAre, Unbroken;
    SessionsRecord(settings, log, sessions[..n]);
    SessionIs(settings, log, sessions, n);
    SessionRecords(StoreBefore(settings, log, sessions, n), HistoryOf(log, sessions[..n]), GoodOrders(log), log,
                   StartAt(log, sessions, n), Meets(log, sessions, n));
  }

  /** The loop's own trace says the same about what it saved. */
  lemma SavedInTrace(settings: Settings, log: seq<Message>, sessions: seq<Session>, n: nat, i: nat)
    requires TransactionPerUID(GoodOrders(log)) && n < |sessions|
    ensures SavedAt(log, sessions, n, i) <==> SavedIn(settings, log, sessions, n, i)
  {
    hide TransactionPerUID, GoodOrders, StartAt, Meets, WasApplied, Good, LoopOf, Applications, Failures, Expected;
    SessionMeets(settings, log, sessions, n);
  }

  lemma MissesGood(settings: Settings, log: seq<Message>, sessions: seq<Session>, n: nat, i: nat)
    requires TransactionPerUID(GoodOrders(log)) && n < |sessions|
    ensures i in GoodOffsets(log) && Misses(settings, log, sessions, n, i) <==> Missed(log, sessions, n, i)
  {
    hide TransactionPerUID, GoodOrders, SavedAt, SavedIn, RunSessions, CommittedOf, Good;
    SessionsRecord(settings, log, sessions[..n]);
    SessionsRecord(settings, log, sessions[..n + 1]);
    SavedInTrace(settings, log, sessions, n, i);
  }

  lemma SavedByIff(settings: Settings, log: seq<Message>, sessions: seq<Session>, n: nat, i: nat)
    requires TransactionPerUID(GoodOrders(log)) && n <= |sessions|
    ensures SavedBy(log, sessions, n, i) <==> SavedWithin(settings, log, sessions, n, i)
  {
    hide TransactionPerUID, GoodOrders, SavedAt, SavedIn;
    forall m: nat | m < n ensures SavedAt(log, sessions, m, i) <==> SavedIn(settings, log, sessions, m, i) {
      SavedInTrace(settings, log, sessions, m, i);
    }
  }

  /** With one transaction per uid, whether every good message below the position was saved at least
      once depends on the messages, their saves and their commits alone. */
  lemma GoodAtLeastOnceIff(settings: Settings, log: seq<Message>, sessions: seq<Session>)
    requires TransactionPerUID(GoodOrders(log))
    ensures AtLeastOnce(settings, log, sessions, GoodOffsets(log))
            <==> forall n, i: nat :: 0 <= n < |sessions| && Missed(log, sessions, n, i) ==> SavedBy(log, sessions, n, i)
  {
    hide TransactionPerUID, GoodOrders, GoodOffsets, AtLeastOnce, Misses, Missed, SavedBy, SavedWithin;
    AtLeastOnceIff(settings, log, sessions, GoodOffsets(log));
    forall n, i: nat | 0 <= n < |sessions|
      ensures i in GoodOffsets(log) && Misses(settings, log, sessions, n, i) <==> Missed(log, sessions, n, i)
      ensures SavedBy(log, sessions, n, i) <==> SavedWithin(settings, log, sessions, n, i)
    {
      MissesGood(settings, log, sessions, n, i);
      SavedByIff(settings, log, sessions, n, i);
    }
  }

  /** If the session moves the position, it skipped no good message when it joined the log. */
  ghost predicate NothingSkipped(log: seq<Message>, sessions: seq<Session>, n: nat)
    requires n < |sessions|
  {
    var start := StartAt(log, sessions, n);
    Reached(log, start, Meets(log, sessions, n)) != start && CommittedOf(log, sessions[..n]) == None ==>
      forall i :: 0 <= i < start ==> !Good(log[i])
  }

  /** The n-th session joins where nothing good is skipped, and in it no message whose commit is
      called and recorded comes after one whose save broke. */
  ghost predicate Careful(log: seq<Message>, sessions: seq<Session>, n: nat)
    requires n < |sessions|
  {
    NothingSkipped(log, sessions, n) && LostLast(log, StartAt(log, sessions, n), Meets(log, sessions, n))
  }

  lemma SkipsIff(settings: Settings, log: seq<Message>, sessions: seq<Session>, n: nat)
    requires TransactionPerUID(GoodOrders(log)) && n < |sessions|
    ensures NothingSkipped(log, sessions, n) <==> SkipsNone(settings, log, sessions, n, GoodOffsets(log))
  {
    hide TransactionPerUID, GoodOrders, StartAt, Meets, StartIn, MeetsIn, CommittedBefore, CommittedOf, StoreBefore;
    hide LoopOf, AppliedAre, Failures, Applications, Expected, Reached, Good, PassesSome;
    SessionMeets(settings, log, sessions, n);
    PassesGood(settings, log, sessions, n);
    forall i: nat | i < StartAt(log, sessions, n) ensures Good(log[i]) <==> i in GoodOffsets(log) {}
  }

  lemma LastIff(settings: Settings, log: seq<Message>, sessions: seq<Session>, n: nat)
    requires TransactionPerUID(GoodOrders(log)) && n < |sessions|
    ensures LostLast(log, StartAt(log, sessions, n), Meets(log, sessions, n))
            <==> UnsavedLast(settings, log, sessions, n, GoodOffsets(log))
  {
    hide TransactionPerUID, GoodOrders, StartAt, Meets, StartIn, MeetsIn, CommittedBefore, CommittedOf, StoreBefore;
    hide LoopOf, AppliedAre, Failures, Applications, Expected, GoodOffsets, Lost, PassesIn, Unsaved;
    var start, ds := StartAt(log, sessions, n), Meets(log, sessions, n);
    SessionMeets(settings, log, sessions, n);
    PassesGood(settings, log, sessions, n);
    UnsavedGood(settings, log, sessions, n);
    if LostLast(log, start, ds) {
      forall j: nat, k: nat | j <= k && start + j in GoodOffsets(log) && Unsaved(settings, log, sessions, n, j)
        ensures !PassesIn(settings, log, sessions, n, k)
      {
        LostNotPassed(log, start, ds, j);
      }
    } else {
      var j, k :| 0 <= j < k < |ds| && Lost(log[start + j], ds[j].fault) && Passes(Expected(log, start, ds), ds, k);
      assert PassesIn(settings, log, sessions, n, k) && Unsaved(settings, log, sessions, n, j);
    }
  }

  lemma CarefulIff(settings: Settings, log: seq<Message>, sessions: seq<Session>, n: nat)
    requires TransactionPerUID(GoodOrders(log)) && n < |sessions|
    ensures Careful(log, sessions, n)
            <==> SkipsNone(settings, log, sessions, n, GoodOffsets(log))
                 && UnsavedLast(settings, log, sessions, n, GoodOffsets(log))
  {
    hide NothingSkipped, SkipsNone, LostLast, UnsavedLast;
    SkipsIff(settings, log, sessions, n);
    LastIff(settings, log, sessions, n);
  }

  /** With one transaction per uid, exactly careful sessions miss no good message. */
  lemma GoodMissesNoneIff(settings: Settings, log: seq<Message>, sessions: seq<Session>, n: nat)
    requires TransactionPerUID(GoodOrders(log)) && n < |sessions|
    ensures (forall i: nat :: i in GoodOffsets(log) ==> !Misses(settings, log, sessions, n, i))
            <==> Careful(log, sessions, n)
  {
    hide TransactionPerUID, GoodOrders, GoodOffsets, Misses, Careful, SkipsNone, UnsavedLast;
    MissesNoneIff(settings, log, sessions, n, GoodOffsets(log));
    CarefulIff(settings, log, sessions, n);
  }

  lemma PassesGood(settings: Settings, log: seq<Message>, sessions: seq<Session>, n: nat)
    requires TransactionPerUID(GoodOrders(log)) && n < |sessions|
    ensures
      var start, ds := StartAt(log, sessions, n), Meets(log, sessions, n);
      && AllDeliver(ds)
      && (forall k: nat :: PassesIn(settings, log, sessions, n, k)
                           <==> k < |ds| && Passes(Expected(log, start, ds), ds, k))
      && (PassesSome(settings, log, sessions, n) <==> Reached(log, start, ds) != start)
  {
    hide TransactionPerUID, GoodOrders, StartAt, Meets, StartIn, MeetsIn, CommittedBefore, CommittedOf, StoreBefore;
    hide LoopOf, AppliedAre, Failures, Applications, Expected, PositionAfter;
    var start, ds := StartAt(log, sessions, n), Meets(log, sessions, n);
    SessionMeets(settings, log, sessions, n);
    DeliversAll(log, start, ds);
    PositionIs(start, Expected(log, start, ds), ds);
    var p := Reached(log, start, ds);
    if start < p { assert PassesIn(settings, log, sessions, n, p - 1 - start); }
  }

  lemma UnsavedGood(settings: Settings, log: seq<Message>, sessions: seq<Session>, n: nat)
    requires TransactionPerUID(GoodOrders(log)) && n < |sessions|
    ensures
      var start, ds := StartAt(log, sessions, n), Meets(log, sessions, n);
      forall j: nat :: start + j in GoodOffsets(log) && Unsaved(settings, log, sessions, n, j)
                       <==> j < |ds| && Lost(log[start + j], ds[j].fault)
  {
    hide TransactionPerUID, GoodOrders, StartAt, Meets, StartIn, MeetsIn, CommittedBefore, CommittedOf, StoreBefore;
    hide LoopOf, AppliedAre, Failures, Applications, Expected, Good;
    SessionMeets(settings, log, sessions, n);
  }

  lemma LostNotPassed(log: seq<Message>, start: nat, ds: seq<Tick>, j: nat)
    requires Delivered(log, start, ds) && j < |ds| && Lost(log[start + j], ds[j].fault) && ds[j].Deliver?
    ensures !Passes(Expected(log, start, ds), ds, j)
  {}

  /** So careful sessions save every good message below the position. */
  lemma CarefulSessionsSaveAll(settings: Settings, log: seq<Message>, sessions: seq<Session>)
    requires TransactionPerUID(GoodOrders(log))
    requires forall n :: 0 <= n < |sessions| ==> Careful(log, sessions, n)
    ensures AtLeastOnce(settings, log, sessions, GoodOffsets(log))
  {
    hide TransactionPerUID, GoodOrders, GoodOffsets, Careful, SkipsNone, UnsavedLast, AtLeastOnce;
    forall n | 0 <= n < |sessions|
      ensures SkipsNone(settings, log, sessions, n, GoodOffsets(log))
      ensures UnsavedLast(settings, log, sessions, n, GoodOffsets(log))
    {
      CarefulIff(settings, log, sessions, n);
    }
    AllAreSaved(settings, log, sessions, GoodOffsets(log));
  }

  // ----- One clean pass -----

  /** The reference: these orders saved once each, in order, with nothing going wrong. */
  function CleanPass(os: seq<Order>): seq<Attempt> {
    seq(|os|, i requires 0 <= i < |os| => Attempt(os[i], NoFault, 0))
  }

  /** In a clean pass every save succeeds. */
  lemma {:induction false} CleanPassSucceeds(os: seq<Order>, all: seq<Order>)
    requires TransactionPerUID(all) && forall o :: o in os ==> o in all && Acceptable(o)
    ensures Committed(EMPTY_STORE, CleanPass(os)) == os
    ensures Records(RunSaves(EMPTY_STORE, CleanPass(os)).tables, os)
  {
    hide Records, TransactionPerUID, TransactionTaken;
    if os == [] {
      EmptyRecords();
    } else {
      var n := |os| - 1;
      assert CleanPass(os)[..n] == CleanPass(os[..n]);
      assert os == os[..n] + [os[n]];
      CleanPassSucceeds(os[..n], all);
      var s := RunSaves(EMPTY_STORE, CleanPass(os[..n]));
      assert os[n] in os;
      TransactionFree(s.tables, os[..n], all, os[n]);
      assert Commits(s, CleanPass(os)[n]);
      RecordsSaved(s.tables, os[..n], os[n], s.nextID);
    }
  }

  lemma LatestIsLast(os: seq<Order>, all: seq<Order>, u: string)
    requires TransactionPerUID(all) && forall o :: o in os ==> o in all
    ensures Latest(os, u) == LastOf(os, u)
  {
    OfMember(os, u);
  }

  lemma {:induction false} GoodAcceptable(log: seq<Message>)
    ensures forall o :: o in GoodOrders(log) ==> Acceptable(o)
  {
    if log == [] {
    } else {
      GoodAcceptable(log[..|log| - 1]);
    }
  }

  /** The history names the same customers as the log, and of every uid the same last order. */
  ghost predicate EndsAs(os: seq<Order>, all: seq<Order>) {
    Customers(os) == Customers(all) && forall u :: LastOf(os, u) == LastOf(all, u)
  }

  lemma RecordsEquivalentIff(a: Tables, os: seq<Order>, b: Tables, all: seq<Order>)
    requires Records(a, os) && Records(b, all)
    requires TransactionPerUID(all) && forall o :: o in os ==> o in all
    ensures Equivalent(a, b) <==> EndsAs(os, all)
  {
    hide Latest, LastOf, TransactionPerUID;
    forall u ensures ViewOf(a, u) == ViewOf(b, u) <==> LastOf(os, u) == LastOf(all, u) {
      LatestIsLast(os, all, u);
      LatestIsLast(all, all, u);
      SameViewFrom(Latest(os, u), Latest(all, u));
    }
  }

  lemma SameViewFrom(a: Option<Order>, b: Option<Order>)
    ensures ViewFrom(a) == ViewFrom(b) <==> a == b
  {}

  /** Exactly when the database ends as after one clean pass over the good messages. */
  lemma CleanIff(settings: Settings, log: seq<Message>, sessions: seq<Session>)
    requires TransactionPerUID(GoodOrders(log))
    ensures Equivalent(RunSessions(settings, log, sessions).0.tables,
                       RunSaves(EMPTY_STORE, CleanPass(GoodOrders(log))).tables)
            <==> EndsAs(HistoryOf(log, sessions), GoodOrders(log))
    ensures Committed(EMPTY_STORE, CleanPass(GoodOrders(log))) == GoodOrders(log)
  {
    hide Records, RunSessions, TransactionPerUID, GoodOrders, RunSaves, HistoryOf, Acceptable, Equivalent, EndsAs;
    SessionsRecord(settings, log, sessions);
    GoodAcceptable(log);
    CleanPassSucceeds(GoodOrders(log), GoodOrders(log));
    RecordsEquivalentIff(RunSessions(settings, log, sessions).0.tables, HistoryOf(log, sessions),
                         RunSaves(EMPTY_STORE, CleanPass(GoodOrders(log))).tables, GoodOrders(log));
  }

  // ----- Careful sessions end as one clean pass -----

  /** What is still to come after position `p` completes the history: of every uid the last
      order is the last of the log, and nothing good below `p` is missing. */
  ghost predicate OnTrack(log: seq<Message>, p: nat, os: seq<Order>) {
    && p <= |log|
    && (forall o :: o in os ==> o in GoodOrders(log))
    && (forall o :: o in GoodOrders(log[..p]) ==> o in os)
    && (forall u :: LastOf(os + GoodOrders(log[p..]), u) == LastOf(GoodOrders(log), u))
  }

  /** Processing messages again that are still to come changes nothing about the last orders. */
  lemma Absorbed(os: seq<Order>, again: seq<Order>, rest: seq<Order>, u: string)
    requires forall o :: o in again ==> o in rest
    ensures LastOf((os + again) + rest, u) == LastOf(os + rest, u)
  {
    LastOfAppend(os + again, rest, u);
    LastOfAppend(os, again, u);
    LastOfAppend(os, rest, u);
    OfMember(again, u);
    OfMember(rest, u);
  }

  lemma SessionOnTrack(log: seq<Message>, p: nat, position: nat, next: nat, os: seq<Order>, kept: seq<Order>)
    requires OnTrack(log, p, os) && Covers(log, p, position, next, kept)
    ensures OnTrack(log, position, os + kept)
  {
    hide GoodOrders, LastOf;
    var done := GoodOrders(log[p..position]);
    var again := kept[|done|..];
    assert kept == done + again;
    LogPieces(log, p, position, next);
    SessionLast(log, p, position, os, done, again);
  }

  lemma SessionLast(log: seq<Message>, p: nat, position: nat, os: seq<Order>, done: seq<Order>, again: seq<Order>)
    requires p <= position <= |log| && done == GoodOrders(log[p..position])
    requires forall o :: o in again ==> o in GoodOrders(log[position..])
    requires forall u :: LastOf(os + GoodOrders(log[p..]), u) == LastOf(GoodOrders(log), u)
    ensures forall u :: LastOf((os + (done + again)) + GoodOrders(log[position..]), u) == LastOf(GoodOrders(log), u)
  {
    hide GoodOrders, LastOf;
    var rest := GoodOrders(log[position..]);
    LogPieces(log, p, position, position);
    assert os + (done + again) == (os + done) + again;
    assert (os + done) + rest == os + (done + rest);
    forall u ensures LastOf((os + (done + again)) + rest, u) == LastOf(GoodOrders(log), u) {
      Absorbed(os + done, again, rest, u);
    }
  }

  /** The committed position, or the beginning of the log. */
  ghost function PositionOf(log: seq<Message>, sessions: seq<Session>): (p: nat)
    ensures p <= |log|
  {
    var c := CommittedOf(log, sessions);
    if c.Some? then c.value else 0
  }

  /** Seen from the committed position, which the start may be past. */
  lemma CoversFrom(log: seq<Message>, p: nat, start: nat, position: nat, next: nat, kept: seq<Order>)
    requires p <= start && Covers(log, start, position, next, kept)
    requires position == start || forall i :: p <= i < start ==> !Good(log[i])
    ensures Covers(log, p, if position == start then p else position, next, kept)
  {
    hide GoodOrders, Good;
    MiddlePieces(log, p, start, position);
    if position == start {
      MiddlePieces(log, p, start, next);
      assert log[p..p] == [] && log[start..start] == [];
      NoGoodOrders(log[p..p]);
      NoGoodOrders(log[start..start]);
    } else {
      NoGoodOrders(log[p..start]);
    }
  }

  lemma MiddlePieces(log: seq<Message>, i: nat, j: nat, k: nat)
    requires i <= j <= k <= |log|
    ensures GoodOrders(log[i..k]) == GoodOrders(log[i..j]) + GoodOrders(log[j..k])
  {
    assert log[i..k] == log[i..j] + log[j..k];
    GoodOrdersAppend(log[i..j], log[j..k]);
  }

  /** After careful sessions the rest of the log would complete the history. */
  lemma {:induction false} SessionsOnTrack(log: seq<Message>, sessions: seq<Session>)
    requires forall n :: 0 <= n < |sessions| ==> Careful(log, sessions, n)
    ensures OnTrack(log, PositionOf(log, sessions), HistoryOf(log, sessions))
  {
    hide OnTrack, Careful, GoodOrders, Kept, Reached, Meets, CommittedOf, Good;
    if sessions == [] {
      TrackBegins(log);
    } else {
      var n := |sessions| - 1;
      forall m | 0 <= m < n ensures Careful(log, sessions[..n], m) { CarefulEarlier(log, sessions, m); }
      SessionsOnTrack(log, sessions[..n]);
      var start, ds := StartAt(log, sessions, n), Meets(log, sessions, n);
      var p, position := PositionOf(log, sessions[..n]), Reached(log, start, ds);
      CarefulSession(log, sessions, n);
      SessionCovers(log, start, ds);
      CoversFrom(log, p, start, position, start + |ds|, Kept(log, start, ds));
      CommittedOne(log, sessions);
      SessionOnTrack(log, p, if position == start then p else position, start + |ds|,
                     HistoryOf(log, sessions[..n]), Kept(log, start, ds));
    }
  }

  lemma CarefulSession(log: seq<Message>, sessions: seq<Session>, n: nat)
    requires n < |sessions| && Careful(log, sessions, n)
    ensures
      var start, ds := StartAt(log, sessions, n), Meets(log, sessions, n);
      && PositionOf(log, sessions[..n]) <= start
      && LostLast(log, start, ds)
      && (Reached(log, start, ds) == start
          || forall i :: PositionOf(log, sessions[..n]) <= i < start ==> !Good(log[i]))
  {
    hide Reached, LostLast, Good, Meets, CommittedOf;
  }

  lemma CarefulEarlier(log: seq<Message>, sessions: seq<Session>, m: nat)
    requires m < |sessions| - 1
    ensures Careful(log, sessions, m) <==> Careful(log, sessions[..|sessions| - 1], m)
  {
    assert sessions[..|sessions| - 1][..m] == sessions[..m];
  }

  lemma TrackBegins(log: seq<Message>)
    ensures OnTrack(log, 0, []) && PositionOf(log, []) == 0 && HistoryOf(log, []) == []
  {
    assert log[..0] == [] && log[0..] == log && [] + GoodOrders(log) == GoodOrders(log);
  }

  /** The theorem. Take any sessions over one log, each resuming at the committed position, with
      crashes, saves that break or lose their answer, commits that are not recorded, and any
      messages that can never be processed. If the good messages give each uid one transaction of
      its own, every session is careful, and no good message lies beyond the position, the database
      equals, row ids aside, that of one clean pass in which every good message is saved once, in
      order, successfully. */
  lemma OnceOnly(settings: Settings, log: seq<Message>, sessions: seq<Session>)
    requires TransactionPerUID(GoodOrders(log))
    requires forall n :: 0 <= n < |sessions| ==> Careful(log, sessions, n)
    requires forall i :: PositionOf(log, sessions) <= i < |log| ==> !Good(log[i])
    ensures Equivalent(RunSessions(settings, log, sessions).0.tables,
                       RunSaves(EMPTY_STORE, CleanPass(GoodOrders(log))).tables)
    ensures Committed(EMPTY_STORE, CleanPass(GoodOrders(log))) == GoodOrders(log)
  {
    hide RunSessions, TransactionPerUID, Careful, PositionOf, HistoryOf, RunSaves, Committed, Equivalent, OnTrack;
    SessionsOnTrack(log, sessions);
    TrackEnds(log, PositionOf(log, sessions), HistoryOf(log, sessions));
    CleanIff(settings, log, sessions);
  }

  lemma TrackEnds(log: seq<Message>, p: nat, os: seq<Order>)
    requires OnTrack(log, p, os) && forall i :: p <= i < |log| ==> !Good(log[i])
    ensures EndsAs(os, GoodOrders(log))
  {
    hide LastOf, GoodOrders, Good;
    NoGoodOrders(log[p..]);
    LogPieces(log, p, p, p);
    assert os + [] == os && GoodOrders(log[..p]) + [] == GoodOrders(log[..p]);
    assert forall o :: o in GoodOrders(log) <==> o in os;
  }

  // ----- A run that loses an order -----

  /** The first save breaks, the second message is saved and its commit recorded. */
  function LosingSession(first: Tick, second: Tick): seq<Session> { [Session(0, [first, second])] }

  lemma BrokenThenSaved(settings: Settings, a: Message, b: Message, first: Tick, second: Tick)
    requires Good(a) && Good(b) && a.order.UID() != b.order.UID()
    requires first.Deliver? && first.fault.BrokenAt? && second.Deliver? && second.fault == NoFault && second.recorded
    ensures
      var l := Run(settings, [a, b], Begin(settings, EMPTY_STATE, 0), [first, second]);
      && l.position == 2 && l.state.store.tables == Saved(EMPTY_TABLES, b.order, first.burned)
  {
    hide Savable, ValidOrder, Saved, LruSpec.Set;
    var log, l0 := [a, b], Begin(settings, EMPTY_STATE, 0);
    assert [first, second][..1] == [first] && [first][..0] == [];
    assert Run(settings, log, l0, []) == l0;
    var l1 := Run(settings, log, l0, [first]);
    assert l1 == Step(settings, log, l0, first);
    AcceptedUID(a);
    assert l1.state.store == Store(EMPTY_TABLES, first.burned);
    assert Run(settings, log, l0, [first, second]) == Step(settings, log, l1, second);
  }

  lemma AcceptedUID(m: Message)
    requires Good(m)
    ensures !Refused(m.order)
  {}

  /** At least once is not guaranteed: when the save of one order breaks and the next message is
      saved and recorded, the position is at the end of the log and the order is nowhere. */
  lemma BrokenSaveIsLost(settings: Settings, a: Message, b: Message, first: Tick, second: Tick)
    requires Good(a) && Good(b) && a.order.UID() != b.order.UID()
    requires first.Deliver? && first.fault.BrokenAt? && second.Deliver? && second.fault == NoFault && second.recorded
    ensures
      var (store, committed) := RunSessions(settings, [a, b], LosingSession(first, second));
      && committed == Some(2)
      && Read(store.tables, a.order.UID()) == None && Read(store.tables, b.order.UID()).Some?
  {
    hide Run, ValidOrder, Acceptable, Saved;
    BrokenThenSaved(settings, a, b, first, second);
    var sessions := LosingSession(first, second);
    assert sessions[..0] == [] && RunSessions(settings, [a, b], []) == (EMPTY_STORE, None);
    OnlyOne(b.order, first.burned, a.order.UID());
    OnlyOne(b.order, first.burned, b.order.UID());
  }

  lemma OnlyOne(o: Order, firstID: nat, u: string)
    ensures u in Saved(EMPTY_TABLES, o, firstID).orders <==> u == o.UID()
  {}

  // ----- Two orders with one transaction -----

  /** The payment of `b` has the transaction of `a`, and the orders are different ones. */
  predicate SharesTransaction(a: Message, b: Message) {
    && Good(a) && Good(b) && a.order.UID() != b.order.UID()
    && a.order.payment.transaction == b.order.payment.transaction
  }

  /** Nothing goes wrong with the save, and the commit is recorded. */
  predicate Smooth(tick: Tick) { tick.Deliver? && tick.fault == NoFault && tick.recorded }

  lemma SharedIsRefused(a: Message, b: Message, tick: Tick)
    requires SharesTransaction(a, b) && Smooth(tick)
    ensures
      var s := Saving(EMPTY_STORE, a, tick);
      && SaveOutcome(EMPTY_STORE, a, NoFault) == Success && s == Store(Saved(EMPTY_TABLES, a.order, 0), |a.order.items|)
      && SaveOutcome(s, b, NoFault) == Temporary && Saving(s, b, tick).tables == s.tables
      && (forall nextID: nat :: SaveOutcome(Store(s.tables, nextID), a, NoFault) == Success)
  {
    hide ValidOrder;
    assert a.order.UID() in Saved(EMPTY_TABLES, a.order, 0).payments;
  }

  lemma SharedRun(settings: Settings, a: Message, b: Message, tick: Tick)
    requires SharesTransaction(a, b) && Smooth(tick)
    ensures
      var l := Run(settings, [a, b, a], Begin(settings, EMPTY_STATE, 0), [tick, tick, tick]);
      && l.position == 3
      && exists nextID: nat :: l.state.store.tables == Saved(Saved(EMPTY_TABLES, a.order, 0), a.order, nextID)
  {
    hide Savable, ValidOrder, Saved, LruSpec.Set;
    var log, l0 := [a, b, a], Begin(settings, EMPTY_STATE, 0);
    var ticks := [tick, tick, tick];
    assert ticks[..2] == [tick, tick] && [tick, tick][..1] == [tick] && [tick][..0] == [];
    assert Run(settings, log, l0, []) == l0;
    SharedIsRefused(a, b, tick);
    var l1 := Run(settings, log, l0, [tick]);
    assert l1 == Step(settings, log, l0, tick) && l1.next == 1;
    var l2 := Run(settings, log, l0, [tick, tick]);
    assert l2 == Step(settings, log, l1, tick) && l2.next == 2 && l2.state.store.tables == l1.state.store.tables;
    assert Run(settings, log, l0, ticks) == Step(settings, log, l2, tick);
  }

  /** When two orders share a transaction the later one is refused each time, although every session
      is careful: the next commit moves the position past it, and it is in no table. */
  lemma SharedTransactionIsLost(settings: Settings, a: Message, b: Message, tick: Tick)
    requires SharesTransaction(a, b) && Smooth(tick)
    ensures
      var log, sessions := [a, b, a], [Session(0, [tick, tick, tick])];
      var (store, committed) := RunSessions(settings, log, sessions);
      && Good(log[1]) && (forall n :: 0 <= n < |sessions| ==> Careful(log, sessions, n))
      && committed == Some(3)
      && Read(store.tables, a.order.UID()).Some? && Read(store.tables, b.order.UID()) == None
      && !AtLeastOnce(settings, log, sessions, GoodOffsets(log))
  {
    hide Run, ValidOrder, Acceptable, Saved;
    var log, sessions := [a, b, a], [Session(0, [tick, tick, tick])];
    SharedRun(settings, a, b, tick);
    assert sessions[..0] == [] && RunSessions(settings, log, []) == (EMPTY_STORE, None);
    var l := LastLoop(settings, log, EMPTY_STORE, None, sessions[0]);
    var nextID: nat :| l.state.store.tables == Saved(Saved(EMPTY_TABLES, a.order, 0), a.order, nextID);
    OnlyThat(a.order, nextID, a.order.UID());
    OnlyThat(a.order, nextID, b.order.UID());
    NobodyLoses(settings, log, sessions, tick);
    if AtLeastOnce(settings, log, sessions, GoodOffsets(log)) {
      assert 1 in GoodOffsets(log);
      SavedIsFound(settings, log, sessions, 1);
    }
  }

  lemma OnlyThat(o: Order, firstID: nat, u: string)
    ensures u in Saved(Saved(EMPTY_TABLES, o, 0), o, firstID).orders <==> u == o.UID()
  {}

  /** In one session from the beginning of the log in which no save breaks nothing is lost. */
  lemma NobodyLoses(settings: Settings, log: seq<Message>, sessions: seq<Session>, tick: Tick)
    requires Smooth(tick) && |sessions| == 1 && sessions[0] == Session(0, [tick, tick, tick])
    ensures forall n :: 0 <= n < |sessions| ==> Careful(log, sessions, n)
  {
    hide Reached, Good;
    assert sessions[..0] == [] && CommittedOf(log, []) == None;
    var ds := Meets(log, sessions, 0);
    DeliveriesAmong(log, 0, sessions[0].ticks);
    assert forall d :: d in sessions[0].ticks ==> d == tick;
    assert forall j :: 0 <= j < |ds| ==> ds[j] in ds;
  }

  lemma {:induction false} DeliveriesAmong(log: seq<Message>, start: nat, ticks: seq<Tick>)
    ensures forall d :: d in Deliveries(log, start, ticks) ==> d in ticks
  {
    if ticks == [] {
    } else {
      DeliveriesAmong(log, start, ticks[..|ticks| - 1]);
      assert ticks == ticks[..|ticks| - 1] + [ticks[|ticks| - 1]];
    }
  }
}
