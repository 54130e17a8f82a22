/** ReorderItems checks length and membership only; these lemmas say exactly when that is enough. */
module Reordering {
  import opened Domain
  import opened ChecklistSpec
  import opened Finite

  /** An item without its position. */
  function Content(item: Item): Item {
    item.(position := 0)
  }

  function Contents(items: seq<Item>): (r: seq<Item>)
    ensures |r| == |items|
  {
    seq(|items|, k requires 0 <= k < |items| => Content(items[k]))
  }

  lemma FoundMeansListed(items: seq<Item>, x: int)
    ensures FindById(items, x).Some? <==> x in Elements(Ids(items))
  {
    var ids := Ids(items);
    if FindById(items, x).Some? {
      var k :| 0 <= k < |items| && items[k] == FindById(items, x).value;
      assert ids[k] == x;
    }
    if x in ids {
      var k :| 0 <= k < |ids| && ids[k] == x;
      assert items[k].id == x;
    }
  }

  lemma AllFoundMeansSubset(items: seq<Item>, order: seq<int>)
    ensures AllFound(items, order) <==> Elements(order) <= Elements(Ids(items))
  {
    forall k | 0 <= k < |order|
      ensures FindById(items, order[k]).Some? <==> order[k] in Elements(Ids(items))
    {
      FoundMeansListed(items, order[k]);
    }
    if AllFound(items, order) {
      forall x | x in order ensures x in Elements(Ids(items)) {
        var k :| 0 <= k < |order| && order[k] == x;
      }
    } else {
      var k :| 0 <= k < |order| && FindById(items, order[k]).None?;
      assert order[k] in Elements(order);
    }
  }

  /**
   An accepted order mentions every item exactly when it repeats none, that is, exactly when
   it is a permutation of the current ids; a duplicate-free order is accepted from the
   creator exactly when it is such a permutation.
   */
  lemma ReorderIsPermutation(c: ChecklistState, actor: int, order: seq<int>)
    requires DistinctIds(c.items)
    ensures var done := ReorderItems(c, actor, order).Done?;
            && (NoDuplicates(order) ==> (done <==>
                 actor == c.head.creatorId && multiset(order) == multiset(Ids(c.items))))
            && (done ==> (NoDuplicates(order) <==> multiset(order) == multiset(Ids(c.items))))
            && (done ==> (NoDuplicates(order) <==> forall k :: 0 <= k < |c.items| ==> c.items[k].id in order))
  {
    var ids := Ids(c.items);
    assert NoDuplicates(ids);
    AllFoundMeansSubset(c.items, order);
    PermutationOfDistinct(order, ids);
    if Elements(order) == Elements(ids) && NoDuplicates(order) {
      DuplicateFreeByCount(order);
      DuplicateFreeByCount(ids);
    }
    if |order| == |ids| && Elements(order) <= Elements(ids) {
      Pigeonhole(order, ids);
      if forall k :: 0 <= k < |c.items| ==> c.items[k].id in order {
        assert Elements(ids) <= Elements(order);
      }
      if Elements(ids) <= Elements(order) {
        forall k | 0 <= k < |c.items| ensures c.items[k].id in order {
          assert ids[k] in Elements(ids);
        }
      }
    }
  }

  lemma FoundIsTheOne(items: seq<Item>, k: int)
    requires DistinctIds(items) && 0 <= k < |items|
    ensures FindById(items, items[k].id) == Some(items[k])
  {
    var found := FindById(items, items[k].id).value;
    var j :| 0 <= j < |items| && items[j] == found;
    assert j == k;
  }

  lemma ArrangeKeepsContents(items: seq<Item>, order: seq<int>)
    requires DistinctIds(items) && AllFound(items, order)
    requires forall k :: 0 <= k < |items| ==> items[k].id in order
    ensures Elements(Contents(Arrange(items, order))) == Elements(Contents(items))
  {
    var s, t := Contents(Arrange(items, order)), Contents(items);
    forall k | 0 <= k < |order|
      ensures s[k] in t
    {
      var found := FindById(items, order[k]).value;
      var j :| 0 <= j < |items| && items[j] == found;
      assert t[j] == s[k];
    }
    forall j | 0 <= j < |items|
      ensures t[j] in s
    {
      var k :| 0 <= k < |order| && order[k] == items[j].id;
      FoundIsTheOne(items, j);
      assert s[k] == t[j];
    }
  }

  /** An accepted permutation follows the order and keeps every item's contents: none lost, none invented. */
  lemma ReorderKeepsContents(c: ChecklistState, actor: int, order: seq<int>)
    requires DistinctIds(c.items) && NoDuplicates(order) && ReorderItems(c, actor, order).Done?
    ensures var items := ReorderItems(c, actor, order).state.items;
            && Ids(items) == order
            && (forall k :: 0 <= k < |items| ==> items[k].position == k)
            && multiset(Contents(items)) == multiset(Contents(c.items))
  {
    var items := ReorderItems(c, actor, order).state.items;
    ReorderIsPermutation(c, actor, order);
    ArrangeKeepsContents(c.items, order);
    var s, t := Contents(items), Contents(c.items);
    assert forall k :: 0 <= k < |s| ==> s[k].id == order[k];
    assert forall k :: 0 <= k < |t| ==> t[k].id == c.items[k].id;
    assert NoDuplicates(s) && NoDuplicates(t);
    DistinctWithSameElements(s, t);
  }

  function TwoItems(): ChecklistState {
    var h := Header(7, 1, 1, "", 5, None, None, false, None, Open, 0);
    var a := Item(1, 7, "a", 0, false, None, None, "", None);
    ChecklistState(h, [a, a.(id := 2, position := 1)])
  }

  /** Length and membership do not make a permutation: this order is accepted and loses item 2. */
  lemma RepeatedIdLosesAnItem()
    ensures DistinctIds(TwoItems().items)
    ensures ReorderItems(TwoItems(), 5, [1, 1]).Done?
    ensures Ids(ReorderItems(TwoItems(), 5, [1, 1]).state.items) == [1, 1]
  {
    var items := TwoItems().items;
    assert FindById(items[..1], 1) == Some(items[0]);
    assert FindById(items, 1) == Some(items[0]);
  }
}
