/** The query behind `ListByCustomer`: a customer's orders by (date_created, order_uid), both
    descending, cut into pages. Uids are compared as sequences of characters. */
module Pages {
  import opened Domain
  import opened Sequences
  import opened Tables

  predicate Less(a: string, b: string) {
    b != [] && (a == [] || a[0] < b[0] || (a[0] == b[0] && Less(a[1..], b[1..])))
  }

  lemma {:induction false} LessTotal(a: string, b: string)
    ensures Less(a, b) || a == b || Less(b, a)
    ensures !(Less(a, b) && Less(b, a)) && !Less(a, a)
  {
    if a == [] {
    } else {
      LessTotal(a[1..], a[1..]);
      if b != [] {
        LessTotal(a[1..], b[1..]);
        if a[0] == b[0] && a[1..] == b[1..] {
          assert a == [a[0]] + a[1..] && b == [b[0]] + b[1..];
        }
      }
    }
  }

  lemma {:induction false} LessTransitive(a: string, b: string, c: string)
    requires Less(a, b) && Less(b, c)
    ensures Less(a, c)
  {
    if a != [] && a[0] == b[0] == c[0] {
      LessTransitive(a[1..], b[1..], c[1..]);
    }
  }

  /** ORDER BY date_created DESC, order_uid DESC puts `a` before `b`. */
  predicate Before(a: Base, b: Base) {
    b.dateCreated < a.dateCreated || (a.dateCreated == b.dateCreated && Less(b.orderUID, a.orderUID))
  }

  lemma BeforeOrder(a: Base, b: Base, c: Base)
    ensures a.orderUID != b.orderUID ==> Before(a, b) || Before(b, a)
    ensures !(Before(a, b) && Before(b, a)) && !Before(a, a)
    ensures Before(a, b) && Before(b, c) ==> Before(a, c)
  {
    LessTotal(a.orderUID, b.orderUID);
    LessTotal(a.orderUID, a.orderUID);
    if Before(a, b) && Before(b, c) && a.dateCreated == b.dateCreated == c.dateCreated {
      LessTransitive(c.orderUID, b.orderUID, a.orderUID);
    }
  }

  ghost predicate Descending(rows: seq<Base>) {
    forall i, j :: 0 <= i < j < |rows| ==> Before(rows[i], rows[j])
  }

  /** `a` sorts after `b`: it is larger where they first differ, or goes on where `b` ends. */
  ghost predicate Larger(a: string, b: string) {
    exists k :: LargerFrom(a, b, k)
  }

  predicate LargerFrom(a: string, b: string, k: int) {
    0 <= k < |a| && k <= |b| && a[..k] == b[..k] && (k == |b| || b[k] < a[k])
  }

  lemma {:induction false} LargerIff(a: string, b: string)
    ensures Larger(a, b) <==> Less(b, a)
  {
    if a == [] {
    } else if b == [] || b[0] != a[0] {
      if Less(b, a) { assert LargerFrom(a, b, 0); }
      if k: int :| LargerFrom(a, b, k) {
        if 0 < k { assert a[..k][0] == b[..k][0]; }
      }
    } else {
      LargerIff(a[1..], b[1..]);
      assert a == [a[0]] + a[1..] && b == [b[0]] + b[1..];
      if Less(b, a) {
        var k :| LargerFrom(a[1..], b[1..], k);
        assert a[..k + 1] == [a[0]] + a[1..][..k] && b[..k + 1] == [b[0]] + b[1..][..k];
        assert LargerFrom(a, b, k + 1);
      }
      if k: int :| LargerFrom(a, b, k) {
        assert k != 0;
        assert a[1..][..k - 1] == a[..k][1..] && b[1..][..k - 1] == b[..k][1..];
        assert LargerFrom(a[1..], b[1..], k - 1);
      }
    }
  }

  lemma BeforeColumns(a: Base, b: Base)
    ensures Before(a, b)
            <==> b.dateCreated < a.dateCreated || (b.dateCreated == a.dateCreated && Larger(a.orderUID, b.orderUID))
  {
    LargerIff(a.orderUID, b.orderUID);
  }

  /** Newest first, and the larger uid first among orders of one date. */
  lemma DescendingColumns(rows: seq<Base>)
    ensures Descending(rows)
            <==> forall i, j :: 0 <= i < j < |rows| ==>
                   && rows[j].dateCreated <= rows[i].dateCreated
                   && (rows[j].dateCreated == rows[i].dateCreated ==> Larger(rows[i].orderUID, rows[j].orderUID))
  {
    hide Before, Larger;
    forall i, j | 0 <= i < j < |rows|
      ensures Before(rows[i], rows[j])
              <==> && rows[j].dateCreated <= rows[i].dateCreated
                   && (rows[j].dateCreated == rows[i].dateCreated ==> Larger(rows[i].orderUID, rows[j].orderUID))
    {
      BeforeColumns(rows[i], rows[j]);
    }
  }

  /** The rows a customer has. */
  function CustomerRows(t: Tables, customerID: string): set<Base> {
    set u | u in t.orders && t.orders[u].customerID == customerID :: t.orders[u]
  }

  /** `order_uid` is a key. */
  ghost predicate Keyed(rows: set<Base>) {
    forall a, b :: a in rows && b in rows && a.orderUID == b.orderUID ==> a == b
  }

  function Insert(sorted: seq<Base>, b: Base): seq<Base> {
    if sorted == [] || Before(b, sorted[0]) then [b] + sorted
    else [sorted[0]] + Insert(sorted[1..], b)
  }

  ghost function OrderBy(rows: set<Base>): seq<Base> {
    if rows == {} then []
    else
      var b :| b in rows;
      Insert(OrderBy(rows - {b}), b)
  }

  lemma {:induction false} InsertSorts(sorted: seq<Base>, b: Base)
    requires Descending(sorted) && forall x :: x in sorted ==> x.orderUID != b.orderUID
    ensures Descending(Insert(sorted, b))
    ensures forall x :: x in Insert(sorted, b) <==> x in sorted || x == b
  {
    if sorted == [] {
    } else {
      var head, rest := sorted[0], sorted[1..];
      assert sorted == [head] + rest;
      BeforeOrder(b, head, head);
      if Before(b, head) {
        PushBefore(sorted, b);
      } else {
        InsertSorts(rest, b);
        forall x | x in Insert(rest, b) ensures Before(head, x) {
          if x != b { var j :| 0 <= j < |rest| && rest[j] == x; assert sorted[j + 1] == x; }
        }
        PushAll(Insert(rest, b), head);
      }
    }
  }

  lemma PushAll(rows: seq<Base>, b: Base)
    requires Descending(rows) && forall x :: x in rows ==> Before(b, x)
    ensures Descending([b] + rows)
  {
    var all := [b] + rows;
    forall i, j | 0 <= i < j < |all| ensures Before(all[i], all[j]) {
      assert all[j] == rows[j - 1] && rows[j - 1] in rows;
      if 0 < i { assert all[i] == rows[i - 1]; }
    }
  }

  lemma PushBefore(rows: seq<Base>, b: Base)
    requires Descending(rows) && rows != [] && Before(b, rows[0])
    ensures Descending([b] + rows)
  {
    forall x | x in rows ensures Before(b, x) {
      var j :| 0 <= j < |rows| && rows[j] == x;
      BeforeOrder(b, rows[0], x);
    }
    PushAll(rows, b);
  }

  lemma {:induction false} OrderBySorts(rows: set<Base>)
    requires Keyed(rows)
    ensures Descending(OrderBy(rows))
    ensures forall b :: b in OrderBy(rows) <==> b in rows
  {
    if rows != {} {
      var b :| b in rows && OrderBy(rows) == Insert(OrderBy(rows - {b}), b);
      OrderBySorts(rows - {b});
      InsertSorts(OrderBy(rows - {b}), b);
    }
  }

  /** There is one way to answer the query: the key breaks every tie. */
  lemma {:induction false} OrderUnique(a: seq<Base>, b: seq<Base>)
    requires Descending(a) && Descending(b) && forall x :: x in a <==> x in b
    ensures a == b
  {
    assert a != [] ==> a[0] in a;
    assert b != [] ==> b[0] in b;
    if a == [] {
    } else {
      HeadIsFirst(a, b[0]);
      HeadIsFirst(b, a[0]);
      BeforeOrder(a[0], b[0], a[0]);
      assert a[0] == b[0];
      TailWithout(a);
      TailWithout(b);
      OrderUnique(a[1..], b[1..]);
      assert a == [a[0]] + a[1..] && b == [b[0]] + b[1..];
    }
  }

  lemma HeadIsFirst(a: seq<Base>, x: Base)
    requires Descending(a) && x in a
    ensures a[0] == x || Before(a[0], x)
  {
    var i :| 0 <= i < |a| && a[i] == x;
  }

  lemma TailWithout(a: seq<Base>)
    requires Descending(a) && a != []
    ensures forall x :: x in a[1..] <==> x in a && x != a[0]
  {
    assert a == [a[0]] + a[1..];
    forall x | x in a[1..] ensures x != a[0] {
      var i :| 1 <= i < |a| && a[i] == x;
      BeforeOrder(a[0], x, x);
    }
  }

  /** What the customer's query answers without LIMIT and OFFSET. */
  ghost function CustomerOrders(t: Tables, customerID: string): seq<Base> {
    OrderBy(CustomerRows(t, customerID))
  }

  /** LIMIT and OFFSET, after the defaults of `ListByCustomer`. */
  ghost function Page(t: Tables, customerID: string, limit: int, offset: int): seq<Base> {
    var n := if limit <= 0 then 20 else limit;
    var skip := if offset < 0 then 0 else offset;
    var all := CustomerOrders(t, customerID);
    if |all| < skip then [] else Take(n, all[skip..])
  }

  lemma CustomerOrdersSorted(t: Tables, customerID: string)
    requires forall u :: u in t.orders ==> t.orders[u].orderUID == u
    ensures Descending(CustomerOrders(t, customerID))
    ensures
      var rows := CustomerOrders(t, customerID);
      forall i, j :: 0 <= i < j < |rows| ==>
        && rows[j].dateCreated <= rows[i].dateCreated
        && (rows[j].dateCreated == rows[i].dateCreated ==> Larger(rows[i].orderUID, rows[j].orderUID))
    ensures forall b :: b in CustomerOrders(t, customerID)
              <==> b.orderUID in t.orders && t.orders[b.orderUID] == b && b.customerID == customerID
  {
    OrderBySorts(CustomerRows(t, customerID));
    DescendingColumns(CustomerOrders(t, customerID));
  }

  lemma PageRows(t: Tables, customerID: string, limit: int, offset: int)
    requires forall u :: u in t.orders ==> t.orders[u].orderUID == u
    ensures Descending(Page(t, customerID, limit, offset))
    ensures forall b :: b in Page(t, customerID, limit, offset) ==>
              b.orderUID in t.orders && t.orders[b.orderUID] == b && b.customerID == customerID
  {
    CustomerOrdersSorted(t, customerID);
  }

  function Concat(pages: seq<seq<Base>>): seq<Base> {
    if pages == [] then [] else Concat(pages[..|pages| - 1]) + pages[|pages| - 1]
  }

  lemma Product(m: nat, k: nat)
    ensures 0 <= m * k && (m + 1) * k == m * k + k
  {}

  lemma TakeMore(s: seq<Base>, n: nat, k: nat)
    ensures Take(n + k, s) == Take(n, s) + if |s| < n then [] else Take(k, s[n..])
  {}

  lemma {:induction false} ConcatPages(t: Tables, customerID: string, k: int, pages: seq<seq<Base>>)
    requires 1 <= k && forall i :: 0 <= i < |pages| ==> pages[i] == Page(t, customerID, k, i * k)
    ensures Concat(pages) == Take(|pages| * k, CustomerOrders(t, customerID))
  {
    if pages == [] {
    } else {
      var m := |pages| - 1;
      ConcatPages(t, customerID, k, pages[..m]);
      Product(m, k);
      TakeMore(CustomerOrders(t, customerID), m * k, k);
    }
  }

  /** Pages of `k` at offsets 0, k, 2k, ... up to the first empty one hold each order of the
      customer exactly once, in the one order the query has. */
  lemma PagesPartition(t: Tables, customerID: string, k: int, pages: seq<seq<Base>>, all: seq<Base>)
    requires forall u :: u in t.orders ==> t.orders[u].orderUID == u
    requires 1 <= k && pages != [] && pages[|pages| - 1] == []
    requires forall i :: 0 <= i < |pages| ==> pages[i] == Page(t, customerID, k, i * k)
    requires Descending(all) && forall b :: b in all <==> b in CustomerRows(t, customerID)
    ensures Concat(pages) == all
    ensures
      var rows := Concat(pages);
      forall i, j :: 0 <= i < j < |rows| ==>
        && rows[i].orderUID != rows[j].orderUID && Before(rows[i], rows[j])
        && rows[j].dateCreated <= rows[i].dateCreated
        && (rows[j].dateCreated == rows[i].dateCreated ==> Larger(rows[i].orderUID, rows[j].orderUID))
  {
    DescendingColumns(all);
    ConcatPages(t, customerID, k, pages);
    CustomerOrdersSorted(t, customerID);
    OrderUnique(all, CustomerOrders(t, customerID));
    var m := |pages| - 1;
    Product(m, k);
    assert |all| <= m * k <= |pages| * k;
    forall i, j | 0 <= i < j < |all| ensures all[i].orderUID != all[j].orderUID {
      assert all[i] in all && all[j] in all;
      BeforeOrder(all[i], all[j], all[i]);
    }
  }

  // ----- What a page is, on the columns -----

  /** The customer's orders that the answer lists before row `r`: later, or as late with a larger uid. */
  ghost function Ahead(t: Tables, customerID: string, r: Base): set<string> {
    set u | u in t.orders && t.orders[u].customerID == customerID
            && (r.dateCreated < t.orders[u].dateCreated
                || (r.dateCreated == t.orders[u].dateCreated && Larger(u, r.orderUID)))
  }

  lemma {:induction false} CountUIDs(rows: seq<Base>, s: set<string>)
    requires forall i, j :: 0 <= i < j < |rows| ==> rows[i].orderUID != rows[j].orderUID
    requires forall u :: u in s <==> exists i :: 0 <= i < |rows| && rows[i].orderUID == u
    ensures |s| == |rows|
  {
    if rows == [] {
      assert s == {};
    } else {
      var n := |rows| - 1;
      var last := rows[n].orderUID;
      forall u ensures u in s - {last} <==> exists i :: 0 <= i < |rows[..n]| && rows[..n][i].orderUID == u {
        if u in s - {last} {
          var i :| 0 <= i < |rows| && rows[i].orderUID == u;
          assert rows[..n][i].orderUID == u;
        }
        if i :| 0 <= i < |rows[..n]| && rows[..n][i].orderUID == u { assert rows[i].orderUID == u; }
      }
      CountUIDs(rows[..n], s - {last});
      assert last in s;
    }
  }

  lemma DistinctUIDs(t: Tables, rows: seq<Base>)
    requires Descending(rows) && forall b :: b in rows ==> b.orderUID in t.orders && t.orders[b.orderUID] == b
    ensures forall i, j :: 0 <= i < j < |rows| ==> rows[i].orderUID != rows[j].orderUID
  {
    hide Before;
    forall i, j | 0 <= i < j < |rows| ensures rows[i].orderUID != rows[j].orderUID {
      assert rows[i] in rows && rows[j] in rows;
      BeforeOrder(rows[i], rows[j], rows[i]);
    }
  }

  /** Ahead of a row are the rows in front of it. */
  lemma AheadIs(t: Tables, customerID: string, all: seq<Base>, i: nat, u: string)
    requires forall v :: v in t.orders ==> t.orders[v].orderUID == v
    requires Descending(all) && i < |all|
    requires forall b :: b in all <==> b.orderUID in t.orders && t.orders[b.orderUID] == b && b.customerID == customerID
    ensures u in Ahead(t, customerID, all[i]) <==> exists j :: 0 <= j < |all[..i]| && all[..i][j].orderUID == u
  {
    hide Before, Larger;
    if u in Ahead(t, customerID, all[i]) {
      assert t.orders[u] in all;
      var j :| 0 <= j < |all| && all[j] == t.orders[u];
      BeforeColumns(all[j], all[i]);
      BeforeOrder(all[j], all[i], all[j]);
      assert j < i;
      assert all[..i][j].orderUID == u;
    }
    if j :| 0 <= j < |all[..i]| && all[..i][j].orderUID == u {
      assert all[..i][j] == all[j] && all[j] in all;
      BeforeColumns(all[j], all[i]);
    }
  }

  /** So ahead of the i-th row of the whole answer are i rows. */
  lemma AheadCount(t: Tables, customerID: string, i: nat)
    requires forall u :: u in t.orders ==> t.orders[u].orderUID == u
    requires i < |CustomerOrders(t, customerID)|
    ensures |Ahead(t, customerID, CustomerOrders(t, customerID)[i])| == i
  {
    hide CustomerOrders, Before, Larger, Ahead, Descending;
    CustomerOrdersSorted(t, customerID);
    var all := CustomerOrders(t, customerID);
    DistinctUIDs(t, all);
    forall u
      ensures u in Ahead(t, customerID, all[i]) <==> exists j :: 0 <= j < |all[..i]| && all[..i][j].orderUID == u
    {
      AheadIs(t, customerID, all, i, u);
    }
    CountUIDs(all[..i], Ahead(t, customerID, all[i]));
  }

  /** A page, on the columns: newest first, larger uids first among orders of one date; and it holds
      exactly the customer's orders with at least `offset` and fewer than `offset + limit` ahead of
      them, where the limit is 20 if none is given and a negative offset is 0. */
  lemma PageExact(t: Tables, customerID: string, limit: int, offset: int)
    requires forall u :: u in t.orders ==> t.orders[u].orderUID == u
    ensures
      var page := Page(t, customerID, limit, offset);
      var skip, count := if offset < 0 then 0 else offset, if limit <= 0 then 20 else limit;
      && (forall i, j :: 0 <= i < j < |page| ==>
            && page[j].dateCreated <= page[i].dateCreated
            && (page[i].dateCreated == page[j].dateCreated ==> Larger(page[i].orderUID, page[j].orderUID)))
      && (forall b :: b in page <==>
            && b.orderUID in t.orders && t.orders[b.orderUID] == b && b.customerID == customerID
            && skip <= |Ahead(t, customerID, b)| < skip + count)
  {
    hide CustomerOrders, Before, Larger, Ahead;
    CustomerOrdersSorted(t, customerID);
    PageRows(t, customerID, limit, offset);
    var page, all := Page(t, customerID, limit, offset), CustomerOrders(t, customerID);
    var skip, count := if offset < 0 then 0 else offset, if limit <= 0 then 20 else limit;
    DescendingColumns(page);
    forall b | b in all ensures b in page <==> skip <= |Ahead(t, customerID, b)| < skip + count {
      var i :| 0 <= i < |all| && all[i] == b;
      AheadCount(t, customerID, i);
      InPage(t, customerID, limit, offset, i);
    }
  }

  lemma InPage(t: Tables, customerID: string, limit: int, offset: int, i: nat)
    requires forall u :: u in t.orders ==> t.orders[u].orderUID == u
    requires i < |CustomerOrders(t, customerID)|
    ensures
      var skip, count := if offset < 0 then 0 else offset, if limit <= 0 then 20 else limit;
      CustomerOrders(t, customerID)[i] in Page(t, customerID, limit, offset) <==> skip <= i < skip + count
  {
    hide CustomerOrders, Before, Descending, Larger;
    CustomerOrdersSorted(t, customerID);
    var page, all := Page(t, customerID, limit, offset), CustomerOrders(t, customerID);
    var skip, count := if offset < 0 then 0 else offset, if limit <= 0 then 20 else limit;
    DistinctUIDs(t, all);
    if skip <= i < skip + count { assert page[i - skip] == all[i]; }
    if all[i] in page {
      var j :| 0 <= j < |page| && page[j] == all[i];
      assert page[j] == all[skip + j];
      assert i == skip + j;
    }
  }

  // ----- LastN -----

  /** An answer to the query behind `LastN`: ORDER BY date_created DESC LIMIT n leaves ties open. */
  ghost predicate LastUIDs(t: Tables, n: nat, uids: seq<string>) {
    && |uids| == (if n <= |t.orders| then n else |t.orders|)
    && (forall u :: u in uids ==> u in t.orders)
    && (forall i, j :: 0 <= i < j < |uids| ==>
          uids[i] != uids[j] && t.orders[uids[j]].dateCreated <= t.orders[uids[i]].dateCreated)
    && (forall u, v :: u in t.orders && u !in uids && v in uids ==>
          t.orders[u].dateCreated <= t.orders[v].dateCreated)
  }
}
