/**
 The checklist object the domain methods mutate in place. Every method is proved to
 leave the state, and report the events or the error, that ChecklistSpec says.
 */
module ChecklistObject {
  import opened Domain
  import Spec = ChecklistSpec

  /** A method that refuses reports the error and leaves the checklist alone. */
  ghost predicate Carries(o: Spec.Outcome, before: ChecklistState, after: ChecklistState, r: Result<seq<Event>>) {
    match o
    case Done(s, events) => after == s && r == Ok(events)
    case Refused(e) => after == before && r == Err(e)
  }

  lemma ShiftedIsWithout(before: seq<Item>, i: nat, after: seq<Item>)
    requires i < |before| && |after| == |before| - 1
    requires forall k :: 0 <= k < |after| ==> after[k] == (before[..i] + before[i + 1..])[k].(position := k)
    ensures after == Spec.Without(before, i)
  {
  }

  /** The map holds, for each id, the last item with that id. */
  ghost predicate Finds(byId: map<int, Item>, items: seq<Item>) {
    forall x :: Spec.FindById(items, x) == if x in byId then Some(byId[x]) else None
  }

  lemma FindsOneMore(byId: map<int, Item>, items: seq<Item>, i: nat)
    requires i < |items| && Finds(byId, items[..i])
    ensures Finds(byId[items[i].id := items[i]], items[..i + 1])
  {
    assert items[..i + 1][..i] == items[..i];
  }

  method IndexById(items: seq<Item>) returns (byId: map<int, Item>)
    ensures Finds(byId, items)
  {
    byId := map[];
    for i := 0 to |items|
      invariant Finds(byId, items[..i])
    {
      FindsOneMore(byId, items, i);
      byId := byId[items[i].id := items[i]];
    }
    assert items[..|items|] == items;
  }

  class Checklist {
    const id: int
    const tenantId: int
    const templateId: int
    const name: string
    const creatorId: int
    const assignedGroupId: Option<int>
    const assignedUserId: Option<int>
    const hidden: bool
    const approverId: Option<int>
    const createdAt: int
    var status: Status
    var items: seq<Item>

    constructor (h: Header, items: seq<Item>)
      ensures State() == ChecklistState(h, items)
    {
      id, tenantId, templateId, name, creatorId := h.id, h.tenantId, h.templateId, h.name, h.creatorId;
      assignedGroupId, assignedUserId, hidden, approverId :=
          h.assignedGroupId, h.assignedUserId, h.hidden, h.approverId;
      createdAt, status := h.createdAt, h.status;
      this.items := items;
    }

    function State(): ChecklistState
      reads this
    {
      ChecklistState(
        Header(id, tenantId, templateId, name, creatorId, assignedGroupId, assignedUserId, hidden, approverId, status,
            createdAt),
        items)
    }

    method AllItemsChecked() returns (all: bool)
      ensures all == Spec.AllItemsChecked(items)
    {
      if |items| == 0 {
        return false;
      }
      for i := 0 to |items|
        invariant forall k :: 0 <= k < i ==> items[k].checked
      {
        if !items[i].checked {
          return false;
        }
      }
      return true;
    }

    method ItemIndex(itemId: int) returns (index: nat, ok: bool)
      ensures Spec.ItemIndex(items, itemId) == if ok then Some(index) else None
      ensures ok ==> index < |items|
    {
      for i := 0 to |items|
        invariant forall k :: 0 <= k < i ==> items[k].id != itemId
      {
        if items[i].id == itemId {
          return i, true;
        }
      }
      return 0, false;
    }

    method VisibleTo(user: int, isGroupMember: bool) returns (visible: bool)
      ensures visible == Spec.VisibleTo(State().head, user, isGroupMember)
    {
      if !hidden {
        return true;
      }
      if creatorId == user {
        return true;
      }
      if approverId.Some? && approverId.value == user {
        return true;
      }
      if assignedUserId.Some? {
        return assignedUserId.value == user;
      }
      return isGroupMember;
    }

    method CheckItem(itemIndex: int, actor: int, now: int) returns (r: Result<seq<Event>>)
      requires 0 <= itemIndex < |items|
      modifies this
      ensures Carries(Spec.CheckItem(old(State()), itemIndex, actor, now), old(State()), State(), r)
    {
      if status != Open {
        return Err(ErrChecklistNotOpen);
      }
      var item := items[itemIndex];
      var responsible := Spec.ResponsibleUserFor(State(), item);
      if responsible.None? {
        return Err(ErrUnclaimed);
      }
      if responsible.value != actor {
        return Err(ErrNotAssignee);
      }

      items := items[itemIndex := item.(checked := true, checkedBy := Some(actor), checkedAt := Some(now))];
      var events := [Event(tenantId, id, Some(item.id), actor, ItemChecked, NoDetail)];

      var all := AllItemsChecked();
      if all {
        if approverId.Some? {
          status := Validating;
          events := events + [Event(tenantId, id, None, actor, SubmittedForValidation, NoDetail)];
        } else {
          status := Complete;
          events := events + [Event(tenantId, id, None, actor, Completed, NoDetail)];
        }
      }
      assert events == Spec.CheckItem(old(State()), itemIndex, actor, now).events;
      return Ok(events);
    }

    method Approve(actor: int) returns (r: Result<seq<Event>>)
      modifies this
      ensures Carries(Spec.Approve(old(State()), actor), old(State()), State(), r)
    {
      if status != Validating {
        return Err(ErrNotValidating);
      }
      if approverId.None? || approverId.value != actor {
        return Err(ErrNotApprover);
      }
      status := Complete;
      return Ok([Event(tenantId, id, None, actor, Approved, NoDetail),
                 Event(tenantId, id, None, actor, Completed, NoDetail)]);
    }

    /** Walks the indices one by one; a repeated index meets an item whose checker is already gone. */
    method Reject(actor: int, itemIndices: seq<int>) returns (r: Result<seq<Event>>)
      requires forall k :: 0 <= k < |itemIndices| ==> 0 <= itemIndices[k] < |items|
      modifies this
      ensures Carries(Spec.Reject(old(State()), actor, itemIndices), old(State()), State(), r)
    {
      if status != Validating {
        return Err(ErrNotValidating);
      }
      if approverId.None? || approverId.value != actor {
        return Err(ErrNotApprover);
      }
      var events: seq<Event> := [];
      ghost var before := State();
      for n := 0 to |itemIndices|
        invariant status == before.head.status
        invariant items == Spec.KickBackAt(before.items, set k | 0 <= k < n :: itemIndices[k])
        invariant events == Spec.UncheckEvents(before, actor, itemIndices[..n])
      {
        var i := itemIndices[n];
        var item := items[i];
        if item.checkedBy.Some? {
          item := item.(assigneeOverride := Some(item.checkedBy.value));
        }
        item := item.(checked := false, checkedBy := None, checkedAt := None);
        ghost var seen := set k | 0 <= k < n :: itemIndices[k];
        assert (set k | 0 <= k < n + 1 :: itemIndices[k]) == seen + {i};
        items := items[i := item];
        events := events + [Event(tenantId, id, Some(item.id), actor, ItemUnchecked, NoDetail)];
      }
      assert itemIndices[..|itemIndices|] == itemIndices;
      status := Open;
      events := events + [Event(tenantId, id, None, actor, Rejected, NoDetail)];
      return Ok(events);
    }

    method ForceReopen(actor: int) returns (events: seq<Event>)
      modifies this`status
      ensures status == Open
      ensures events == Spec.ReopenEvents(old(State()).head, actor)
    {
      if status == Open {
        return [];
      }
      var prev := status;
      status := Open;
      return [Event(tenantId, id, None, actor, Reopened, PreviousStatus(prev))];
    }

    method AddItem(actor: int, itemName: string, validationRef: string) returns (r: Result<seq<Event>>)
      modifies this
      ensures Carries(Spec.AddItem(old(State()), actor, itemName, validationRef), old(State()), State(), r)
    {
      if actor != creatorId {
        return Err(ErrNotCreator);
      }
      items := items + [Item(0, id, itemName, |items|, false, None, None, validationRef, None)];
      var events := [Event(tenantId, id, None, actor, ItemAdded, ItemName(itemName))];
      var reopened := ForceReopen(actor);
      return Ok(events + reopened);
    }

    method RemoveItem(actor: int, itemIndex: int) returns (r: Result<seq<Event>>)
      requires 0 <= itemIndex < |items|
      modifies this
      ensures Carries(Spec.RemoveItem(old(State()), actor, itemIndex), old(State()), State(), r)
    {
      if actor != creatorId {
        return Err(ErrNotCreator);
      }
      ghost var before := items;
      var removed := items[itemIndex];
      items := items[..itemIndex] + items[itemIndex + 1..];
      ghost var shifted := items;
      for i := 0 to |items|
        invariant status == old(status) && |items| == |shifted|
        invariant forall k :: 0 <= k < |items| ==> items[k] == if k < i then shifted[k].(position := k) else shifted[k]
      {
        items := items[i := items[i].(position := i)];
      }
      ShiftedIsWithout(before, itemIndex, items);
      var events := [Event(tenantId, id, Some(removed.id), actor, ItemRemoved, NoDetail)];
      var reopened := ForceReopen(actor);
      return Ok(events + reopened);
    }

    /** Indexes the items by id, then picks them up in the requested order. */
    method ReorderItems(actor: int, newOrder: seq<int>) returns (r: Result<seq<Event>>)
      modifies this
      ensures Carries(Spec.ReorderItems(old(State()), actor, newOrder), old(State()), State(), r)
    {
      if actor != creatorId {
        return Err(ErrNotCreator);
      }
      if |newOrder| != |items| {
        return Err(ErrInvalidReorder);
      }
      var byId := IndexById(items);
      var reordered: seq<Item> := [];
      for i := 0 to |newOrder|
        invariant |reordered| == i
        invariant Spec.AllFound(items, newOrder[..i]) && reordered == Spec.Arrange(items, newOrder[..i])
      {
        if newOrder[i] !in byId {
          assert Spec.FindById(items, newOrder[i]).None?;
          return Err(ErrInvalidReorder);
        }
        reordered := reordered + [byId[newOrder[i]].(position := i)];
      }
      assert newOrder[..|newOrder|] == newOrder;
      items := reordered;
      var events := [Event(tenantId, id, None, actor, ItemsReordered, NoDetail)];
      var reopened := ForceReopen(actor);
      return Ok(events + reopened);
    }

    method SetItemChecked(actor: int, itemIndex: int, checked: bool, now: int) returns (r: Result<seq<Event>>)
      requires 0 <= itemIndex < |items|
      modifies this
      ensures Carries(Spec.SetItemChecked(old(State()), actor, itemIndex, checked, now), old(State()), State(), r)
    {
      if actor != creatorId {
        return Err(ErrNotCreator);
      }
      var item := items[itemIndex];
      var action := ItemUnchecked;
      if checked {
        action := ItemChecked;
        item := item.(checked := true, checkedBy := Some(actor), checkedAt := Some(now));
      } else {
        item := item.(checked := false, checkedBy := None, checkedAt := None);
      }
      items := items[itemIndex := item];
      var events := [Event(tenantId, id, Some(item.id), actor, action, NoDetail)];
      var reopened := ForceReopen(actor);
      return Ok(events + reopened);
    }

    /** The closure a handler passes to the transaction: resolve ids, then one domain method. */
    method Mutate(m: Spec.Mutation) returns (r: Result<seq<Event>>)
      modifies this
      ensures Carries(Spec.Apply(old(State()), m), old(State()), State(), r)
    {
      match m
      case DoApprove(actor) =>
        r := Approve(actor);
      case DoAddItem(actor, itemName, ref) =>
        r := AddItem(actor, itemName, ref);
      case DoReorder(actor, order) =>
        r := ReorderItems(actor, order);
      case DoCheckItem(itemId, actor, now) =>
        var i, ok := ItemIndex(itemId);
        if !ok { return Err(ErrItemNotFound); }
        r := CheckItem(i, actor, now);
      case DoRemoveItem(actor, itemId) =>
        var i, ok := ItemIndex(itemId);
        if !ok { return Err(ErrItemNotFound); }
        r := RemoveItem(actor, i);
      case DoSetItemChecked(actor, itemId, checked, now) =>
        var i, ok := ItemIndex(itemId);
        if !ok { return Err(ErrItemNotFound); }
        r := SetItemChecked(actor, i, checked, now);
      case DoReject(actor, itemIds) =>
        var indices: seq<int> := [];
        for n := 0 to |itemIds|
          invariant |indices| == n
          invariant forall k :: 0 <= k < n ==> Spec.ItemIndex(items, itemIds[k]) == Some(indices[k])
          invariant State() == old(State())
        {
          var i, ok := ItemIndex(itemIds[n]);
          if !ok { return Err(ErrItemNotFound); }
          indices := indices + [i];
        }
        assert indices == Spec.ResolveIndices(items, itemIds).value;
        r := Reject(actor, indices);
    }
  }
}
