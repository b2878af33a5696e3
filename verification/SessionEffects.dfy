/** What one session does to the database, told from the messages it meets: which of them can be
    saved, which are lost, and what part of the log is covered. */
module SessionEffects {
  import opened Domain
  import opened Tables
  import opened SaveHistory
  import opened ServiceSpec
  import opened ConsumerSpec
  import opened CommitSafety
  import opened Overtaking

  /** `Savable`, as far as it does not depend on the tables. */
  predicate Acceptable(o: Order) { Savable(EMPTY_TABLES, o) }

  /** The message brings an order that can be saved. All others, messages that are not JSON,
      invalid orders and orders some constraint refuses, never reach the database. */
  predicate Good(m: Message) { ValidMessage(m) && Acceptable(m.order) }

  /** The save of a good message breaks before its commit. */
  predicate Lost(m: Message, fault: Fault) { Good(m) && fault.BrokenAt? }

  /** Handling `m` ends in a temporary failure: it is not JSON, or it is valid and can never be
      saved, or something goes wrong with its save. */
  predicate Fails(m: Message, fault: Fault) {
    m.Undecodable? || (ValidMessage(m) && !(Acceptable(m.order) && fault == NoFault))
  }

  /** The orders of the good messages, in log order. */
  function GoodOrders(log: seq<Message>): seq<Order> {
    if log == [] then []
    else
      var m := log[|log| - 1];
      GoodOrders(log[..|log| - 1]) + if Good(m) then [m.order] else []
  }

  /** In this log the payment transaction is an injective function of the uid. */
  ghost predicate TransactionPerUID(os: seq<Order>) {
    forall a, b :: a in os && b in os ==>
      (a.UID() == b.UID() <==> a.payment.transaction == b.payment.transaction)
  }

  // ----- Logs -----

  lemma {:induction false} GoodOrdersAppend(a: seq<Message>, b: seq<Message>)
    ensures GoodOrders(a + b) == GoodOrders(a) + GoodOrders(b)
  {
    if b == [] {
      assert a + b == a;
    } else {
      var n := |b| - 1;
      assert (a + b)[..|a + b| - 1] == a + b[..n];
      GoodOrdersAppend(a, b[..n]);
    }
  }

  lemma GoodOrdersOne(log: seq<Message>, i: nat, j: nat)
    requires i <= j < |log|
    ensures GoodOrders(log[i..j + 1]) == GoodOrders(log[i..j]) + if Good(log[j]) then [log[j].order] else []
  {
    assert log[i..j + 1][..j - i] == log[i..j];
  }

  lemma {:induction false} GoodOrdersIn(log: seq<Message>, k: nat)
    requires k < |log| && Good(log[k])
    ensures log[k].order in GoodOrders(log)
  {
    var n := |log| - 1;
    if k == n {
      assert GoodOrders(log) == GoodOrders(log[..n]) + [log[k].order];
    } else {
      GoodOrdersIn(log[..n], k);
    }
  }

  lemma {:induction false} NoGoodOrders(log: seq<Message>)
    requires forall k :: 0 <= k < |log| ==> !Good(log[k])
    ensures GoodOrders(log) == []
  {
    if log == [] {
    } else {
      NoGoodOrders(log[..|log| - 1]);
    }
  }

  lemma LogPieces(log: seq<Message>, p: nat, position: nat, next: nat)
    requires p <= position <= next <= |log|
    ensures GoodOrders(log[p..]) == GoodOrders(log[p..position]) + GoodOrders(log[position..])
    ensures GoodOrders(log[position..]) == GoodOrders(log[position..next]) + GoodOrders(log[next..])
    ensures GoodOrders(log[..position]) == GoodOrders(log[..p]) + GoodOrders(log[p..position])
    ensures GoodOrders(log) == GoodOrders(log[..position]) + GoodOrders(log[position..])
  {
    hide GoodOrders;
    SuffixPieces(log, p, position);
    SuffixPieces(log, position, next);
    PrefixPieces(log, p, position);
    SuffixPieces(log, 0, position);
    assert log[0..] == log && log[0..position] == log[..position];
  }

  lemma SuffixPieces(log: seq<Message>, i: nat, j: nat)
    requires i <= j <= |log|
    ensures GoodOrders(log[i..]) == GoodOrders(log[i..j]) + GoodOrders(log[j..])
  {
    assert log[i..] == log[i..j] + log[j..];
    GoodOrdersAppend(log[i..j], log[j..]);
  }

  lemma PrefixPieces(log: seq<Message>, i: nat, j: nat)
    requires i <= j <= |log|
    ensures GoodOrders(log[..j]) == GoodOrders(log[..i]) + GoodOrders(log[i..j])
  {
    assert log[..j] == log[..i] + log[i..j];
    GoodOrdersAppend(log[..i], log[i..j]);
  }

  // ----- One message -----

  lemma TransactionFree(t: Tables, os: seq<Order>, all: seq<Order>, o: Order)
    requires Records(t, os) && TransactionPerUID(all) && o in all && forall x :: x in os ==> x in all
    ensures !TransactionTaken(t, o.UID(), o.payment.transaction)
  {
    forall u | u in t.payments && u != o.UID() ensures t.payments[u].transaction != o.payment.transaction {
      assert ViewOf(t, u) == ViewFrom(Latest(os, u));
      OfMember(os, u);
    }
  }

  /** With one transaction per uid, what becomes of a message depends on itself and on its save,
      not on the orders saved before. */
  lemma OutcomeExpected(s: Store, os: seq<Order>, all: seq<Order>, m: Message, fault: Fault)
    requires Records(s.tables, os) && TransactionPerUID(all) && forall x :: x in os ==> x in all
    requires Good(m) ==> m.order in all
    ensures SaveOutcome(s, m, fault) == Temporary <==> Fails(m, fault)
    ensures IsApplied(s, m, fault) <==> Good(m) && !fault.BrokenAt?
  {
    hide Records, TransactionPerUID, ValidOrder, TransactionTaken;
    if Good(m) {
      TransactionFree(s.tables, os, all, m.order);
    }
    if m.Decoded? { NothingTaken(m.order); }
  }

  lemma NothingTaken(o: Order)
    ensures !TransactionTaken(EMPTY_TABLES, o.UID(), o.payment.transaction)
  {}

  // ----- One session -----

  /** Which of the messages fail, told from the messages and their saves. */
  function Expected(log: seq<Message>, start: nat, ds: seq<Tick>): (fails: seq<bool>)
    requires Delivered(log, start, ds)
    ensures |fails| == |ds|
  {
    seq(|ds|, k requires 0 <= k < |ds| => assert ds[k] in ds; Fails(log[start + k], ds[k].fault))
  }

  /** The orders these messages bring to the database. */
  function Kept(log: seq<Message>, start: nat, ds: seq<Tick>): seq<Order>
    requires Delivered(log, start, ds)
  {
    if ds == [] then []
    else
      var n := |ds| - 1;
      Kept(log, start, ds[..n]) + Keeps(log[start + n], ds[n])
  }

  function Keeps(m: Message, d: Tick): seq<Order>
    requires d.Deliver?
  {
    if Good(m) && !d.fault.BrokenAt? then [m.order] else []
  }

  ghost predicate NoneLost(log: seq<Message>, start: nat, ds: seq<Tick>)
    requires Delivered(log, start, ds)
  {
    forall j :: 0 <= j < |ds| ==> !Lost(log[start + j], ds[j].fault)
  }

  /** No message whose commit is called and recorded comes after a lost one. */
  ghost predicate LostLast(log: seq<Message>, start: nat, ds: seq<Tick>)
    requires Delivered(log, start, ds)
  {
    forall j, k :: 0 <= j < k < |ds| && Lost(log[start + j], ds[j].fault) ==>
      !Passes(Expected(log, start, ds), ds, k)
  }

  /** The position the session commits. */
  ghost function Reached(log: seq<Message>, start: nat, ds: seq<Tick>): (p: nat)
    requires Delivered(log, start, ds)
    ensures start <= p <= start + |ds|
  {
    PositionAfter(start, Expected(log, start, ds), ds)
  }

  lemma SavingRecords(s: Store, os: seq<Order>, m: Message, d: Tick)
    requires Records(s.tables, os) && d.Deliver?
    requires IsApplied(s, m, d.fault) <==> Good(m) && !d.fault.BrokenAt?
    ensures Records(Saving(s, m, d).tables, os + Keeps(m, d))
  {
    hide Records, Savable, Saved;
    if IsApplied(s, m, d.fault) {
      RecordsSaved(s.tables, os, m.order, s.nextID);
    } else {
      assert os + [] == os;
    }
  }

  lemma KeepsOwn(m: Message, d: Tick)
    requires d.Deliver?
    ensures forall o :: o in Keeps(m, d) ==> Good(m) && o == m.order
  {}

  /** The message at the end of `ds + [d]` has its commit called and recorded. */
  predicate PassesNext(log: seq<Message>, start: nat, ds: seq<Tick>, d: Tick)
    requires start + |ds| < |log| && d.Deliver?
  {
    !Fails(log[start + |ds|], d.fault) && d.recorded
  }

  lemma ExpectedOne(log: seq<Message>, start: nat, ds: seq<Tick>, d: Tick)
    requires Delivered(log, start, ds) && start + |ds| < |log| && d.Deliver?
    ensures Delivered(log, start, ds + [d])
    ensures Expected(log, start, ds + [d]) == Expected(log, start, ds) + [Fails(log[start + |ds|], d.fault)]
    ensures forall k :: 0 <= k <= |ds| ==>
              Passes(Expected(log, start, ds + [d]), ds + [d], k)
              == if k < |ds| then Passes(Expected(log, start, ds), ds, k) else PassesNext(log, start, ds, d)
  {
    hide Fails;
    var more := ds + [d];
    assert forall k :: 0 <= k <= |ds| ==> more[k] == if k < |ds| then ds[k] else d;
    assert forall k :: 0 <= k <= |ds| ==> more[k] in more;
  }

  lemma KeptOne(log: seq<Message>, start: nat, ds: seq<Tick>, d: Tick)
    requires Delivered(log, start, ds) && start + |ds| < |log| && d.Deliver?
    ensures Delivered(log, start, ds + [d])
    ensures Kept(log, start, ds + [d]) == Kept(log, start, ds) + Keeps(log[start + |ds|], d)
  {
    assert (ds + [d])[..|ds|] == ds;
  }

  /** The marked messages are the good ones whose saves do not break. */
  ghost predicate Unbroken(log: seq<Message>, start: nat, ds: seq<Tick>, applied: seq<bool>)
    requires Delivered(log, start, ds) && |applied| == |ds|
  {
    forall k :: 0 <= k < |ds| ==> (applied[k] <==> Good(log[start + k]) && !ds[k].fault.BrokenAt?)
  }

  lemma UnbrokenOne(log: seq<Message>, start: nat, ds: seq<Tick>, applied: seq<bool>, d: Tick, a: bool)
    requires Delivered(log, start, ds) && |applied| == |ds| && start + |ds| < |log| && d.Deliver?
    requires Unbroken(log, start, ds, applied) && (a <==> Good(log[start + |ds|]) && !d.fault.BrokenAt?)
    ensures Delivered(log, start, ds + [d]) && Unbroken(log, start, ds + [d], applied + [a])
  {
    hide Good;
  }

  /** One more message. */
  lemma SessionRecordsOne(s: Store, before: seq<Order>, all: seq<Order>,
                          log: seq<Message>, start: nat, ds: seq<Tick>, d: Tick)
    requires Delivered(log, start, ds) && start + |ds| < |log| && d.Deliver?
    requires TransactionPerUID(all) && (forall o :: o in before ==> o in all)
    requires forall o :: o in GoodOrders(log) ==> o in all
    requires Records(StoreAfter(s, log, start, ds).tables, before + Kept(log, start, ds))
    requires forall o :: o in Kept(log, start, ds) ==> o in GoodOrders(log)
    ensures Delivered(log, start, ds + [d])
    ensures
      var m, earlier := log[start + |ds|], StoreAfter(s, log, start, ds);
      && Records(StoreAfter(s, log, start, ds + [d]).tables, before + Kept(log, start, ds + [d]))
      && (forall o :: o in Kept(log, start, ds + [d]) ==> o in GoodOrders(log))
      && (SaveOutcome(earlier, m, d.fault) == Temporary <==> Fails(m, d.fault))
      && (IsApplied(earlier, m, d.fault) <==> Good(m) && !d.fault.BrokenAt?)
  {
    hide Records, TransactionPerUID, Good, Fails, SaveOutcome, IsApplied, Saving, GoodOrders, Keeps, Kept, StoreAfter;
    var m, earlier := log[start + |ds|], StoreAfter(s, log, start, ds);
    var os := before + Kept(log, start, ds);
    if Good(m) { GoodOrdersIn(log, start + |ds|); }
    OutcomeExpected(earlier, os, all, m, d.fault);
    SavingRecords(earlier, os, m, d);
    KeepsOwn(m, d);
    KeptOne(log, start, ds, d);
    FailuresOne(s, log, start, ds, d);
    assert os + Keeps(m, d) == before + Kept(log, start, ds + [d]);
  }

  /** A session adds to the database exactly the good orders whose saves do not break, in order;
      and which of its messages fail, and which are committed to the database, depends on the
      messages and their saves alone. */
  lemma {:induction false} SessionRecords(s: Store, before: seq<Order>, all: seq<Order>,
                                          log: seq<Message>, start: nat, ds: seq<Tick>)
    requires Delivered(log, start, ds)
    requires Records(s.tables, before) && TransactionPerUID(all) && forall o :: o in before ==> o in all
    requires forall o :: o in GoodOrders(log) ==> o in all
    ensures Records(StoreAfter(s, log, start, ds).tables, before + Kept(log, start, ds))
    ensures forall o :: o in Kept(log, start, ds) ==> o in GoodOrders(log)
    ensures Failures(s, log, start, ds) == Expected(log, start, ds)
    ensures Unbroken(log, start, ds, Applications(s, log, start, ds))
  {
    hide Records, TransactionPerUID, Good, Fails, SaveOutcome, IsApplied, Saving, GoodOrders, Keeps, Unbroken, Expected;
    if ds == [] {
      assert before + [] == before;
      NothingYet(s, log, start);
    } else {
      var n := |ds| - 1;
      var earlier, d := ds[..n], ds[n];
      assert ds == earlier + [d];
      hide Kept, Failures, Applications, StoreAfter;
      SessionRecords(s, before, all, log, start, earlier);
      SessionRecordsOne(s, before, all, log, start, earlier, d);
      FailuresOne(s, log, start, earlier, d);
      ExpectedOne(log, start, earlier, d);
      UnbrokenOne(log, start, earlier, Applications(s, log, start, earlier), d,
                  IsApplied(StoreAfter(s, log, start, earlier), log[start + n], d.fault));
    }
  }

  lemma NothingYet(s: Store, log: seq<Message>, start: nat)
    requires start <= |log|
    ensures Delivered(log, start, []) && Expected(log, start, []) == []
    ensures Unbroken(log, start, [], Applications(s, log, start, []))
  {}

  // ----- What one session covers -----

  /** `kept` is the good part of the log from `start` to the position, then orders from between
      the position and the next offset. */
  ghost predicate Covers(log: seq<Message>, start: nat, position: nat, next: nat, kept: seq<Order>) {
    && start <= position <= next <= |log|
    && GoodOrders(log[start..position]) <= kept
    && forall o :: o in kept[|GoodOrders(log[start..position])|..] ==> o in GoodOrders(log[position..next])
  }

  lemma CoversMore(log: seq<Message>, start: nat, position: nat, next: nat, kept: seq<Order>, d: Tick)
    requires Covers(log, start, position, next, kept) && next < |log| && d.Deliver?
    ensures Covers(log, start, position, next + 1, kept + Keeps(log[next], d))
  {
    GoodOrdersOne(log, position, next);
    var done, more := |GoodOrders(log[start..position])|, Keeps(log[next], d);
    assert (kept + more)[done..] == kept[done..] + more;
  }

  lemma CoversAll(log: seq<Message>, start: nat, next: nat)
    requires start <= next <= |log|
    ensures Covers(log, start, next, next, GoodOrders(log[start..next]))
  {}

  lemma NoneLostOne(log: seq<Message>, start: nat, ds: seq<Tick>, d: Tick)
    requires Delivered(log, start, ds) && start + |ds| < |log| && d.Deliver?
    ensures Delivered(log, start, ds + [d])
    ensures NoneLost(log, start, ds + [d]) <==> NoneLost(log, start, ds) && !Lost(log[start + |ds|], d.fault)
  {
    hide Lost;
    var more, n := ds + [d], |ds|;
    assert more[n] == d && forall k :: 0 <= k < n ==> more[k] == ds[k];
    if NoneLost(log, start, more) {
      assert !Lost(log[start + n], more[n].fault);
      forall j | 0 <= j < n ensures !Lost(log[start + j], ds[j].fault) {
        assert !Lost(log[start + j], more[j].fault);
      }
    }
  }

  lemma LostLastOne(log: seq<Message>, start: nat, ds: seq<Tick>, d: Tick)
    requires Delivered(log, start, ds) && start + |ds| < |log| && d.Deliver?
    ensures Delivered(log, start, ds + [d])
    ensures LostLast(log, start, ds + [d])
            <==> LostLast(log, start, ds) && (PassesNext(log, start, ds, d) ==> NoneLost(log, start, ds))
  {
    hide Lost, Fails, Expected, PassesNext;
    var more, n := ds + [d], |ds|;
    ExpectedOne(log, start, ds, d);
    assert forall k :: 0 <= k < n ==> more[k] == ds[k] && ds[k] in ds;
    assert more[n] == d;
    if LostLast(log, start, more) {
      forall j, k | 0 <= j < k < n && Lost(log[start + j], ds[j].fault)
        ensures !Passes(Expected(log, start, ds), ds, k)
      {
        assert Lost(log[start + j], more[j].fault);
      }
      forall j | 0 <= j < n && PassesNext(log, start, ds, d) ensures !Lost(log[start + j], ds[j].fault) {
        assert Passes(Expected(log, start, more), more, n);
      }
    }
  }

  lemma ReachedOne(log: seq<Message>, start: nat, ds: seq<Tick>, d: Tick)
    requires Delivered(log, start, ds) && start + |ds| < |log| && d.Deliver?
    ensures Delivered(log, start, ds + [d])
    ensures Reached(log, start, ds + [d])
            == if PassesNext(log, start, ds, d) then start + |ds| + 1 else Reached(log, start, ds)
  {
    hide Fails, Expected, PositionAfter;
    ExpectedOne(log, start, ds, d);
    assert forall k :: 0 <= k < |ds| ==> ds[k] in ds;
    FailingLastOne(start, Expected(log, start, ds), ds, Fails(log[start + |ds|], d.fault), d);
  }

  /** A session in which nothing passes after a lost message covers the log up to its position. */
  lemma {:induction false} SessionCovers(log: seq<Message>, start: nat, ds: seq<Tick>)
    requires Delivered(log, start, ds) && LostLast(log, start, ds)
    ensures Covers(log, start, Reached(log, start, ds), start + |ds|, Kept(log, start, ds))
    ensures NoneLost(log, start, ds) ==> Kept(log, start, ds) == GoodOrders(log[start..start + |ds|])
  {
    hide Covers, LostLast, NoneLost, Reached, Kept, Good, GoodOrders, Fails;
    if ds == [] {
      CoversNothing(log, start);
    } else {
      var n := |ds| - 1;
      var before, d := ds[..n], ds[n];
      assert ds == before + [d];
      LostLastOne(log, start, before, d);
      NoneLostOne(log, start, before, d);
      ReachedOne(log, start, before, d);
      KeptOne(log, start, before, d);
      SessionCovers(log, start, before);
      GoodOrdersOne(log, start, start + n);
      if PassesNext(log, start, before, d) {
        PassingKeeps(log[start + n], d);
        CoversAll(log, start, start + n + 1);
      } else {
        CoversMore(log, start, Reached(log, start, before), start + n, Kept(log, start, before), d);
      }
    }
  }

  lemma CoversNothing(log: seq<Message>, start: nat)
    requires start <= |log|
    ensures Delivered(log, start, [])
    ensures Covers(log, start, Reached(log, start, []), start, Kept(log, start, []))
    ensures Kept(log, start, []) == GoodOrders(log[start..start]) == []
  {
    assert log[start..start] == [];
  }

  lemma PassingKeeps(m: Message, d: Tick)
    requires d.Deliver? && !Fails(m, d.fault)
    ensures Keeps(m, d) == (if Good(m) then [m.order] else []) && !Lost(m, d.fault)
  {}
}
