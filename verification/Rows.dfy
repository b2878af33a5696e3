/** Item rows as a query returns them: any order the database likes, unless it is asked for one. */
module Rows {
  import opened Domain
  import opened Sequences
  import opened Tables

  /** The rows of the given uids. */
  function RowsIn(rows: seq<ItemRow>, uids: set<string>): seq<ItemRow> {
    if rows == [] then []
    else (if rows[0].orderUID in uids then [rows[0]] else []) + RowsIn(rows[1..], uids)
  }

  /** The same rows, in some order. */
  ghost predicate Listing(rows: seq<ItemRow>, expected: seq<ItemRow>) { multiset(rows) == multiset(expected) }

  /** ORDER BY order_uid, chrt_id, as far as the rows of one order are concerned. */
  ghost predicate SortedWithinOrders(rows: seq<ItemRow>) {
    forall i, j :: 0 <= i < j < |rows| && rows[i].orderUID == rows[j].orderUID ==>
      rows[i].item.chrtID <= rows[j].item.chrtID
  }

  ghost predicate SortedItems(items: seq<Item>) {
    forall i, j :: 0 <= i < j < |items| ==> items[i].chrtID <= items[j].chrtID
  }

  lemma SortedColumns(items: seq<Item>)
    requires SortedItems(items)
    ensures forall j, k :: 0 <= j < k < |items| ==> items[j].chrtID <= items[k].chrtID
  {}

  lemma {:induction false} CountRowsOf(rows: seq<ItemRow>, uid: string, r: ItemRow)
    ensures multiset(RowsOf(rows, uid))[r] == if r.orderUID == uid then multiset(rows)[r] else 0
  {
    if rows == [] {
    } else {
      CountRowsOf(rows[1..], uid, r);
      assert rows == [rows[0]] + rows[1..];
    }
  }

  lemma {:induction false} CountRowsIn(rows: seq<ItemRow>, uids: set<string>, r: ItemRow)
    ensures multiset(RowsIn(rows, uids))[r] == if r.orderUID in uids then multiset(rows)[r] else 0
  {
    if rows == [] {
    } else {
      CountRowsIn(rows[1..], uids, r);
      assert rows == [rows[0]] + rows[1..];
    }
  }

  /** Picking one order's rows out of any listing of several orders' rows gives a listing of
      that order's rows. */
  lemma ListingOfOne(rows: seq<ItemRow>, all: seq<ItemRow>, uids: set<string>, uid: string)
    requires Listing(rows, RowsIn(all, uids)) && uid in uids
    ensures Listing(RowsOf(rows, uid), RowsOf(all, uid))
  {
    forall r ensures multiset(RowsOf(rows, uid))[r] == multiset(RowsOf(all, uid))[r] {
      CountRowsOf(rows, uid, r);
      CountRowsOf(all, uid, r);
      CountRowsIn(all, uids, r);
    }
  }

  lemma PullOut(b: seq<ItemRow>, j: nat)
    requires j < |b|
    ensures multiset(b) == multiset(Without(b, j)) + multiset{b[j]}
    ensures multiset(Items(b)) == multiset(Items(Without(b, j))) + multiset{b[j].item}
  {
    assert b == b[..j] + [b[j]] + b[j + 1..];
    assert Items(b) == Items(b[..j]) + [b[j].item] + Items(b[j + 1..]);
    assert Items(Without(b, j)) == Items(b[..j]) + Items(b[j + 1..]);
  }

  lemma {:induction false} ListingItems(a: seq<ItemRow>, b: seq<ItemRow>)
    requires Listing(a, b)
    ensures multiset(Items(a)) == multiset(Items(b))
  {
    if a == [] {
      assert |multiset(b)| == 0;
      assert b == [];
    } else {
      assert a[0] in multiset(b);
      var j :| 0 <= j < |b| && b[j] == a[0];
      PullOut(a, 0);
      PullOut(b, j);
      assert multiset(Without(a, 0)) == multiset(a) - multiset{a[0]};
      assert multiset(Without(b, j)) == multiset(b) - multiset{b[j]};
      ListingItems(Without(a, 0), Without(b, j));
    }
  }

  lemma SortedPush(first: Item, rest: seq<ItemRow>)
    requires SortedItems(Items(rest)) && forall k :: 0 <= k < |rest| ==> first.chrtID <= rest[k].item.chrtID
    ensures SortedItems([first] + Items(rest))
  {}

  lemma {:induction false} RowsOfIn(rows: seq<ItemRow>, uid: string)
    ensures forall r :: r in RowsOf(rows, uid) <==> r in rows && r.orderUID == uid
  {
    if rows == [] {
    } else {
      RowsOfIn(rows[1..], uid);
      assert rows == [rows[0]] + rows[1..];
    }
  }

  lemma FirstIsLeast(rows: seq<ItemRow>, uid: string, rest: seq<ItemRow>)
    requires SortedWithinOrders(rows) && rows != [] && rows[0].orderUID == uid && rest == RowsOf(rows[1..], uid)
    ensures forall k :: 0 <= k < |rest| ==> rows[0].item.chrtID <= rest[k].item.chrtID
  {
    RowsOfIn(rows[1..], uid);
    forall k | 0 <= k < |rest| ensures rows[0].item.chrtID <= rest[k].item.chrtID {
      assert rest[k] in rows[1..] && rest[k].orderUID == uid;
      var j :| 1 <= j < |rows| && rows[j] == rest[k];
    }
  }

  lemma {:induction false} SortedRowsOf(rows: seq<ItemRow>, uid: string)
    requires SortedWithinOrders(rows)
    ensures SortedItems(Items(RowsOf(rows, uid)))
  {
    if rows == [] {
    } else {
      var rest := RowsOf(rows[1..], uid);
      assert forall k :: 0 <= k < |rows[1..]| ==> rows[1..][k] == rows[k + 1];
      SortedRowsOf(rows[1..], uid);
      if rows[0].orderUID == uid {
        FirstIsLeast(rows, uid, rest);
        SortedPush(rows[0].item, rest);
        assert Items(RowsOf(rows, uid)) == [rows[0].item] + Items(rest);
      } else {
        assert RowsOf(rows, uid) == rest;
      }
    }
  }
}
