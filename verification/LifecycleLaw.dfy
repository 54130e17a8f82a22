/** The lifecycle invariant of a checklist, and that every request keeps it. */
module LifecycleLaw {
  import opened Domain
  import opened ChecklistSpec

  /** An item is checked exactly when its checker and its check time are set. */
  ghost predicate CheckFieldsAgree(item: Item) {
    item.checked == item.checkedBy.Some? == item.checkedAt.Some?
  }

  /**
   The lifecycle invariant. A checklist that left open has items, all of them checked; check
   fields agree; ids are distinct; the item at index i has position i.
   */
  ghost predicate Lifecycle(c: ChecklistState) {
    && (c.head.status != Open ==> AllItemsChecked(c.items))
    && WellFormedItems(c.head.id, c.items)
  }

  /** A checklist as Get returns it: every item has an id. */
  ghost predicate Loaded(c: ChecklistState) {
    Lifecycle(c) && forall k :: 0 <= k < |c.items| ==> c.items[k].id > 0
  }

  ghost predicate DuplicateFree(m: Mutation) {
    m.DoReorder? ==> NoDuplicates(m.order)
  }

  /** The part of the invariant that does not mention the status. */
  ghost predicate WellFormedItems(cid: int, items: seq<Item>) {
    && DistinctIds(items)
    && (forall k :: 0 <= k < |items| ==> items[k].position == k && items[k].checklistId == cid)
    && (forall k :: 0 <= k < |items| ==> CheckFieldsAgree(items[k]))
  }

  lemma UpdateKeepsItems(cid: int, items: seq<Item>, i: int, item: Item)
    requires WellFormedItems(cid, items) && 0 <= i < |items|
    requires item.id == items[i].id && item.position == i && item.checklistId == cid && CheckFieldsAgree(item)
    ensures WellFormedItems(cid, items[i := item])
  {
  }

  lemma WithoutKeepsItems(cid: int, items: seq<Item>, i: int)
    requires WellFormedItems(cid, items) && 0 <= i < |items|
    ensures WellFormedItems(cid, Without(items, i))
  {
    var r := Without(items, i);
    forall j, k | 0 <= j < k < |r|
      ensures r[j].id != r[k].id
    {
      assert r[j].id == items[if j < i then j else j + 1].id;
      assert r[k].id == items[if k < i then k else k + 1].id;
    }
  }

  lemma ArrangeKeepsItems(cid: int, items: seq<Item>, order: seq<int>)
    requires WellFormedItems(cid, items) && AllFound(items, order) && NoDuplicates(order)
    ensures WellFormedItems(cid, Arrange(items, order))
  {
    var r := Arrange(items, order);
    assert forall k :: 0 <= k < |r| ==> r[k].id == order[k];
  }

  lemma AddKeepsItems(cid: int, items: seq<Item>, item: Item)
    requires WellFormedItems(cid, items) && (forall k :: 0 <= k < |items| ==> items[k].id != item.id)
    requires item.position == |items| && item.checklistId == cid && CheckFieldsAgree(item)
    ensures WellFormedItems(cid, items + [item])
  {
  }

  lemma KickBackKeepsItems(cid: int, items: seq<Item>, indices: set<int>)
    requires WellFormedItems(cid, items)
    ensures WellFormedItems(cid, KickBackAt(items, indices))
  {
  }

  lemma {:induction false} ApplyKeepsItems(c: ChecklistState, m: Mutation)
    requires Loaded(c) && DuplicateFree(m) && Apply(c, m).Done?
    ensures WellFormedItems(c.head.id, Apply(c, m).state.items)
  {
    var cid, items := c.head.id, c.items;
    match m
    case DoApprove(actor) =>
    case DoReject(actor, ids) =>
      var indices := ResolveIndices(items, ids).value;
      KickBackKeepsItems(cid, items, set k | 0 <= k < |indices| :: indices[k]);
    case DoAddItem(actor, name, ref) =>
      AddKeepsItems(cid, items, NewItem(cid, name, |items|, ref));
    case DoReorder(actor, order) =>
      ArrangeKeepsItems(cid, items, order);
    case DoRemoveItem(actor, id) =>
      WithoutKeepsItems(cid, items, ItemIndex(items, id).value);
    case DoCheckItem(id, actor, now) =>
      var i := ItemIndex(items, id).value;
      UpdateKeepsItems(cid, items, i, Check(items[i], actor, now));
    case DoSetItemChecked(actor, id, checked, now) =>
      var i := ItemIndex(items, id).value;
      UpdateKeepsItems(cid, items, i, if checked then Check(items[i], actor, now) else Uncheck(items[i]));
  }

  /** No request changes anything in the header but the status. */
  lemma ApplyKeepsHeader(c: ChecklistState, m: Mutation)
    requires Apply(c, m).Done?
    ensures Apply(c, m).state.head == c.head.(status := Apply(c, m).state.head.status)
  {
  }

  lemma ApplyLeavesOpenOnlyWhenChecked(c: ChecklistState, m: Mutation)
    requires Lifecycle(c) && Apply(c, m).Done?
    ensures Apply(c, m).state.head.status != Open ==> AllItemsChecked(Apply(c, m).state.items)
  {
  }

  /** Every request on a loaded checklist keeps the lifecycle invariant. */
  lemma {:induction false} ApplyKeepsLifecycle(c: ChecklistState, m: Mutation)
    requires Loaded(c) && DuplicateFree(m) && Apply(c, m).Done?
    ensures Lifecycle(Apply(c, m).state)
  {
    ApplyKeepsItems(c, m);
    ApplyKeepsHeader(c, m);
    ApplyLeavesOpenOnlyWhenChecked(c, m);
  }
}
