/**
 The saved scan history: the newest item first, an older item with the same id dropped, at most
 twenty kept. It is compared with a history that is never cut.
 */
module ScanHistory {
  /** An item is its id and everything else shown about it. */
  datatype Item = Item(id: string, shown: string)

  const LIMIT: nat := 20

  function Without(items: seq<Item>, id: string): seq<Item> {
    if items == [] then []
    else (if items[0].id == id then [] else [items[0]]) + Without(items[1..], id)
  }

  function Take(items: seq<Item>, n: nat): seq<Item> {
    if |items| <= n then items else items[..n]
  }

  /** saveScanHistory's next list. */
  function Save(current: seq<Item>, item: Item): seq<Item> {
    Take([item] + Without(current, item.id), LIMIT)
  }

  /** The list after saving items in order, starting from `first`. */
  function Saved(first: seq<Item>, items: seq<Item>): seq<Item> {
    if items == [] then first else Save(Saved(first, items[..|items| - 1]), items[|items| - 1])
  }

  /** All items, newest first, each id only with its newest item. */
  function NewestFirst(items: seq<Item>): seq<Item> {
    if items == [] then []
    else
      var n := |items| - 1;
      [items[n]] + Without(NewestFirst(items[..n]), items[n].id)
  }

  predicate UniqueIds(items: seq<Item>) {
    forall i, j :: 0 <= i < j < |items| ==> items[i].id != items[j].id
  }

  lemma {:induction false} WithoutMembers(items: seq<Item>, id: string)
    ensures forall x :: x in Without(items, id) <==> x in items && x.id != id
    ensures UniqueIds(items) ==> UniqueIds(Without(items, id))
  {
    if items != [] {
      WithoutMembers(items[1..], id);
      assert forall x :: x in items <==> x == items[0] || x in items[1..];
    }
  }

  lemma {:induction false} WithoutAbsent(items: seq<Item>, id: string)
    requires forall x :: x in items ==> x.id != id
    ensures Without(items, id) == items
  {
    if items != [] {
      WithoutAbsent(items[1..], id);
    }
  }

  /** Dropping one id from a list with unique ids removes at most one item, so cutting the list
      first loses nothing that the shorter list should show. */
  lemma {:induction false} CutFirst(items: seq<Item>, id: string, n: nat)
    requires UniqueIds(items) && n > 0
    ensures Take(Without(Take(items, n), id), n - 1) == Take(Without(items, id), n - 1)
  {
    if items == [] {
    } else if items[0].id == id {
      CutAtHead(items, id, n);
    } else if n > 1 {
      CutFirst(items[1..], id, n - 1);
      hide *;
      assert items == [items[0]] + items[1..];
      TakeCons(items[0], items[1..], n);
      WithoutCons(items[0], items[1..], id);
      WithoutCons(items[0], Take(items[1..], n - 1), id);
      TakeCons(items[0], Without(Take(items[1..], n - 1), id), n - 1);
      TakeCons(items[0], Without(items[1..], id), n - 1);
    }
  }

  lemma CutAtHead(items: seq<Item>, id: string, n: nat)
    requires items != [] && UniqueIds(items) && items[0].id == id && n > 0
    ensures Take(Without(Take(items, n), id), n - 1) == Take(Without(items, id), n - 1)
  {
    var rest := items[1..];
    forall x | x in rest
      ensures x.id != id
    {
      var k :| 0 <= k < |rest| && rest[k] == x;
      assert items[k + 1] == x;
    }
    WithoutAbsent(rest, id);
    WithoutAbsent(Take(rest, n - 1), id);
    assert items == [items[0]] + rest;
    TakeCons(items[0], rest, n);
    WithoutCons(items[0], rest, id);
    WithoutCons(items[0], Take(rest, n - 1), id);
    TakeTwice(rest, n - 1);
  }

  lemma WithoutCons(x: Item, items: seq<Item>, id: string)
    ensures Without([x] + items, id) == (if x.id == id then [] else [x]) + Without(items, id)
  {
    assert ([x] + items)[1..] == items;
  }

  lemma TakeTwice(items: seq<Item>, n: nat)
    ensures Take(Take(items, n), n) == Take(items, n)
  {}

  lemma TakeCons(x: Item, items: seq<Item>, n: nat)
    requires n > 0
    ensures Take([x] + items, n) == [x] + Take(items, n - 1)
  {}

  lemma {:induction false} NewestFirstUnique(items: seq<Item>)
    ensures UniqueIds(NewestFirst(items))
  {
    if items != [] {
      var n := |items| - 1;
      NewestFirstUnique(items[..n]);
      WithoutMembers(NewestFirst(items[..n]), items[n].id);
      var rest := Without(NewestFirst(items[..n]), items[n].id);
      assert forall k :: 0 <= k < |rest| ==> rest[k] in rest;
    }
  }

  /** After any saves from an empty history, the list is the first twenty of the uncut one: ids are
      unique and cutting early never loses an item that should be shown. */
  lemma {:induction false} HistoryIsNewestTwenty(items: seq<Item>)
    ensures Saved([], items) == Take(NewestFirst(items), 20)
    ensures UniqueIds(Saved([], items))
  {
    NewestFirstUnique(items);
    if items != [] {
      var n := |items| - 1;
      var before, item := NewestFirst(items[..n]), items[n];
      HistoryIsNewestTwenty(items[..n]);
      NewestFirstUnique(items[..n]);
      CutFirst(before, item.id, LIMIT);
      TakeCons(item, Without(Take(before, LIMIT), item.id), LIMIT);
      TakeCons(item, Without(before, item.id), LIMIT);
    }
  }

  /** items[k] is the newest item of its id. */
  predicate Newest(items: seq<Item>, k: nat) {
    k < |items| && forall m :: k < m < |items| ==> items[m].id != items[k].id
  }

  predicate NewestOfItsId(items: seq<Item>, x: Item) {
    exists k :: 0 <= k < |items| && items[k] == x && Newest(items, k)
  }

  lemma OneMoreItem(items: seq<Item>, x: Item)
    requires items != []
    ensures var n := |items| - 1;
            NewestOfItsId(items, x) <==> x == items[n] || (NewestOfItsId(items[..n], x) && x.id != items[n].id)
  {
    var n := |items| - 1;
    var older := items[..n];
    assert Newest(items, n);
    if x.id != items[n].id && NewestOfItsId(older, x) {
      var k :| 0 <= k < |older| && older[k] == x && Newest(older, k);
      assert forall m :: k < m < n ==> older[m] == items[m];
      assert items[k] == x && Newest(items, k);
    }
    if x != items[n] && NewestOfItsId(items, x) {
      var k :| 0 <= k < |items| && items[k] == x && Newest(items, k);
      assert older[k] == x && Newest(older, k);
    }
  }

  /** The uncut list holds the newest item of every saved id, and nothing else. */
  lemma {:induction false} NewestFirstMeans(items: seq<Item>, x: Item)
    ensures x in NewestFirst(items) <==> NewestOfItsId(items, x)
  {
    hide NewestOfItsId;
    if items == [] {
      assert !NewestOfItsId(items, x) by {
        NothingNewest(x);
      }
    } else {
      NewestFirstMeans(items[..|items| - 1], x);
      WithoutMembers(NewestFirst(items[..|items| - 1]), items[|items| - 1].id);
      OneMoreItem(items, x);
    }
  }

  lemma NothingNewest(x: Item)
    ensures !NewestOfItsId([], x)
  {}

  /** The place of the last save of this id. */
  function LastSave(items: seq<Item>, id: string): int {
    if items == [] then -1
    else if items[|items| - 1].id == id then |items| - 1
    else LastSave(items[..|items| - 1], id)
  }

  lemma {:induction false} LastSaveBounds(items: seq<Item>, id: string)
    ensures -1 <= LastSave(items, id) < |items|
    ensures LastSave(items, id) >= 0 ==> items[LastSave(items, id)].id == id
    ensures forall n :: LastSave(items, id) < n < |items| ==> items[n].id != id
  {
    if items != [] && items[|items| - 1].id != id {
      LastSaveBounds(items[..|items| - 1], id);
    }
  }

  predicate ByRecency(items: seq<Item>, shown: seq<Item>) {
    forall i, j :: 0 <= i < j < |shown| ==> LastSave(items, shown[i].id) > LastSave(items, shown[j].id)
  }

  /** Dropping items keeps the order of the others. */
  lemma {:induction false} WithoutKeepsOrder(items: seq<Item>, shown: seq<Item>, id: string)
    requires ByRecency(items, shown)
    ensures ByRecency(items, Without(shown, id))
  {
    if shown != [] {
      var rest := shown[1..];
      assert forall i :: 0 <= i < |rest| ==> rest[i] == shown[i + 1];
      WithoutKeepsOrder(items, rest, id);
      WithoutMembers(rest, id);
      assert forall x :: x in Without(rest, id) ==> x in rest;
      forall j | 0 <= j < |Without(rest, id)|
        ensures LastSave(items, shown[0].id) > LastSave(items, Without(rest, id)[j].id)
      {
        var x := Without(rest, id)[j];
        assert x in Without(rest, id);
        var k :| 0 <= k < |rest| && rest[k] == x;
        assert shown[k + 1] == x;
      }
    }
  }

  /** The uncut list runs from the most recently saved item to the least. */
  lemma {:induction false} NewestComesFirst(items: seq<Item>)
    ensures ByRecency(items, NewestFirst(items))
  {
    if items != [] {
      var n := |items| - 1;
      var before, item := items[..n], items[n];
      var held := NewestFirst(before);
      NewestComesFirst(before);
      WithoutKeepsOrder(before, held, item.id);
      WithoutMembers(held, item.id);
      var rest := Without(held, item.id);
      forall j | 0 <= j < |rest|
        ensures rest[j].id != item.id && LastSave(items, rest[j].id) == LastSave(before, rest[j].id) < n
      {
        assert rest[j] in rest;
        LastSaveBounds(before, rest[j].id);
      }
      hide LastSave, Without;
      LastSaveIs(items);
      assert NewestFirst(items) == [item] + rest;
    }
  }

  lemma LastSaveIs(items: seq<Item>)
    requires items != []
    ensures LastSave(items, items[|items| - 1].id) == |items| - 1
  {}
}
