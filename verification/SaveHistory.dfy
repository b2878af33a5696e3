/** Sequences of `Save` calls, with the failures the environment can cause, and what they
    leave to read. */
module SaveHistory {
  import opened Domain
  import opened Tables

  /** The database: the committed tables and the item id sequence, which no rollback resets. */
  datatype Store = Store(tables: Tables, nextID: nat)

  const EMPTY_STORE := Store(EMPTY_TABLES, 0)

  /** What the environment does to a `Save`: nothing; break off at a step before the commit
      takes effect; or commit, and lose the answer. */
  datatype Fault = NoFault | BrokenAt(step: nat) | AckLost

  /** One call. `burned` counts the ids the sequence skips when the call fails. */
  datatype Attempt = Attempt(order: Order, fault: Fault, burned: nat)

  predicate Commits(s: Store, a: Attempt) { Savable(s.tables, a.order) && !a.fault.BrokenAt? }

  /** The caller sees no error. */
  predicate Succeeds(s: Store, a: Attempt) { Savable(s.tables, a.order) && a.fault == NoFault }

  /** Refused before a transaction is opened. */
  predicate Refused(o: Order) { o.UID() == "" || o.base.customerID == "" }

  function Apply(s: Store, a: Attempt): Store {
    if Commits(s, a) then Store(Saved(s.tables, a.order, s.nextID), s.nextID + |a.order.items|)
    else if Refused(a.order) then s
    else s.(nextID := s.nextID + a.burned)
  }

  function RunSaves(s: Store, attempts: seq<Attempt>): Store {
    if attempts == [] then s
    else Apply(RunSaves(s, attempts[..|attempts| - 1]), attempts[|attempts| - 1])
  }

  /** The orders that were committed, oldest first. */
  function Committed(s: Store, attempts: seq<Attempt>): seq<Order> {
    if attempts == [] then []
    else
      var before, a := attempts[..|attempts| - 1], attempts[|attempts| - 1];
      Committed(s, before) + if Commits(RunSaves(s, before), a) then [a.order] else []
  }

  // ----- The history of a uid -----

  function LastOf(os: seq<Order>, uid: string): Option<Order> {
    if os == [] then None
    else if os[|os| - 1].UID() == uid then Some(os[|os| - 1])
    else LastOf(os[..|os| - 1], uid)
  }

  function FirstOf(os: seq<Order>, uid: string): Option<Order> {
    if os == [] then None
    else if os[0].UID() == uid then Some(os[0])
    else FirstOf(os[1..], uid)
  }

  function Customers(os: seq<Order>): set<string> { set o | o in os :: o.base.customerID }

  /** The last committed order of `uid`, with the transaction of the first. */
  function Latest(os: seq<Order>, uid: string): Option<Order> {
    match LastOf(os, uid)
    case None => None
    case Some(o) =>
      match FirstOf(os, uid)
      case None => None
      case Some(f) => Some(o.(payment := o.payment.(transaction := f.payment.transaction)))
  }

  function ViewFrom(latest: Option<Order>): View {
    match latest
    case None => View(None, None, None, [])
    case Some(o) => View(Some(o.base), Some(o.delivery), Some(o.payment), o.items)
  }

  /** The tables hold exactly what the history says. */
  ghost predicate Records(t: Tables, os: seq<Order>) {
    && t.customers == Customers(os)
    && forall u :: ViewOf(t, u) == ViewFrom(Latest(os, u))
  }

  lemma LastOfOne(os: seq<Order>, o: Order, u: string)
    ensures LastOf(os + [o], u) == if o.UID() == u then Some(o) else LastOf(os, u)
  {
    assert (os + [o])[..|os|] == os;
  }

  lemma {:induction false} LastOfAppend(a: seq<Order>, b: seq<Order>, u: string)
    ensures LastOf(a + b, u) == if LastOf(b, u).Some? then LastOf(b, u) else LastOf(a, u)
  {
    if b == [] {
      assert a + b == a;
    } else {
      var n := |b| - 1;
      assert a + b == (a + b[..n]) + [b[n]];
      LastOfOne(a + b[..n], b[n], u);
      LastOfAppend(a, b[..n], u);
    }
  }

  lemma {:induction false} FirstOfOne(os: seq<Order>, o: Order, u: string)
    ensures FirstOf(os + [o], u)
            == if FirstOf(os, u).Some? then FirstOf(os, u) else if o.UID() == u then Some(o) else None
  {
    if os == [] {
      assert os + [o] == [o];
    } else {
      assert (os + [o])[1..] == os[1..] + [o];
      FirstOfOne(os[1..], o, u);
    }
  }

  lemma {:induction false} OfMember(os: seq<Order>, u: string)
    ensures LastOf(os, u).Some? <==> exists o :: o in os && o.UID() == u
    ensures LastOf(os, u).Some? ==> LastOf(os, u).value in os && LastOf(os, u).value.UID() == u
    ensures FirstOf(os, u).Some? <==> LastOf(os, u).Some?
    ensures FirstOf(os, u).Some? ==> FirstOf(os, u).value in os && FirstOf(os, u).value.UID() == u
  {
    if os == [] {
    } else {
      var n := |os| - 1;
      OfMember(os[..n], u);
      assert os == os[..n] + [os[n]];
      FirstOfOne(os[..n], os[n], u);
    }
  }

  lemma LatestOfOne(os: seq<Order>, o: Order, u: string)
    ensures ViewFrom(Latest(os + [o], u))
            == if o.UID() == u then Overwritten(ViewFrom(Latest(os, u)), o) else ViewFrom(Latest(os, u))
  {
    LastOfOne(os, o, u);
    FirstOfOne(os, o, u);
    OfMember(os, u);
  }

  /** One more committed order. */
  lemma RecordsSaved(t: Tables, os: seq<Order>, o: Order, firstID: nat)
    requires Records(t, os)
    ensures Records(Saved(t, o, firstID), os + [o])
  {
    forall u ensures ViewOf(Saved(t, o, firstID), u) == ViewFrom(Latest(os + [o], u)) {
      ViewOfSaved(t, o, firstID, u);
      LatestOfOne(os, o, u);
    }
    assert forall x :: x in os + [o] <==> x in os || x == o;
  }

  lemma EmptyRecords()
    ensures Records(EMPTY_TABLES, []) && Consistent(EMPTY_TABLES, 0)
  {}

  lemma ConsistentLater(t: Tables, nextID: nat, later: nat)
    requires Consistent(t, nextID) && nextID <= later
    ensures Consistent(t, later)
  {}

  /** After any sequence of `Save` calls the tables are exactly the history of the committed
      ones, and every constraint holds. A call that fails before its commit changes no table. */
  lemma {:induction false} RunRecords(attempts: seq<Attempt>)
    ensures
      var s := RunSaves(EMPTY_STORE, attempts);
      && Records(s.tables, Committed(EMPTY_STORE, attempts))
      && Consistent(s.tables, s.nextID)
  {
    hide Records, Consistent, Savable, Saved;
    EmptyRecords();
    if attempts == [] {
    } else {
      var before, a := attempts[..|attempts| - 1], attempts[|attempts| - 1];
      var s, os := RunSaves(EMPTY_STORE, before), Committed(EMPTY_STORE, before);
      RunRecords(before);
      if Commits(s, a) {
        RecordsSaved(s.tables, os, a.order, s.nextID);
        SavedConsistent(s.tables, a.order, s.nextID);
      } else {
        ConsistentLater(s.tables, s.nextID, Apply(s, a).nextID);
        assert os + [] == os;
      }
    }
  }

  /** Read of an order whose history is recorded. */
  lemma ReadsLatest(t: Tables, os: seq<Order>, uid: string)
    requires Records(t, os)
    ensures Read(t, uid) == Latest(os, uid)
  {
    assert ViewOf(t, uid) == ViewFrom(Latest(os, uid));
  }

  /** `GetByUID(u)` answers the last order saved for u, with the transaction of the first
      save, and nothing when there was none. */
  lemma ReadAfterSaves(attempts: seq<Attempt>, uid: string)
    ensures
      var os := Committed(EMPTY_STORE, attempts);
      && Read(RunSaves(EMPTY_STORE, attempts).tables, uid) == Latest(os, uid)
      && (Latest(os, uid).Some? <==> exists o :: o in os && o.UID() == uid)
  {
    RunRecords(attempts);
    var os := Committed(EMPTY_STORE, attempts);
    ReadsLatest(RunSaves(EMPTY_STORE, attempts).tables, os, uid);
    OfMember(os, uid);
  }
}
