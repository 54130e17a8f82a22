/**
 What each method of the checklist state machine does, as a function of the checklist
 before the call. The class in Checklist.dfy runs the methods step by step and is proved
 against these functions; the theorems are proved about the functions.
 */
module ChecklistSpec {
  import opened Domain

  /** A domain method either changes the checklist and reports events, or refuses and changes nothing. */
  datatype Outcome = Done(state: ChecklistState, events: seq<Event>) | Refused(error: Error)

  function ResponsibleUserFor(c: ChecklistState, item: Item): Option<int> {
    if item.assigneeOverride.Some? then item.assigneeOverride else c.head.assignedUserId
  }

  predicate AllItemsChecked(items: seq<Item>) {
    |items| > 0 && forall k | 0 <= k < |items| :: items[k].checked
  }

  function ChecklistEvent(h: Header, actor: int, action: Action): Event {
    Event(h.tenantId, h.id, None, actor, action, NoDetail)
  }

  function ItemEvent(h: Header, itemId: int, actor: int, action: Action): Event {
    Event(h.tenantId, h.id, Some(itemId), actor, action, NoDetail)
  }

  function Check(item: Item, actor: int, now: int): Item {
    item.(checked := true, checkedBy := Some(actor), checkedAt := Some(now))
  }

  function Uncheck(item: Item): Item {
    item.(checked := false, checkedBy := None, checkedAt := None)
  }

  /** An unchecked item handed back to whoever had checked it. */
  function KickBack(item: Item): Item {
    Uncheck(item).(assigneeOverride := if item.checkedBy.Some? then item.checkedBy else item.assigneeOverride)
  }

  function CheckItem(c: ChecklistState, i: int, actor: int, now: int): Outcome
    requires 0 <= i < |c.items|
  {
    if c.head.status != Open then Refused(ErrChecklistNotOpen)
    else match ResponsibleUserFor(c, c.items[i])
      case None => Refused(ErrUnclaimed)
      case Some(u) =>
        if u != actor then Refused(ErrNotAssignee)
        else
          var items := c.items[i := Check(c.items[i], actor, now)];
          var checked := ItemEvent(c.head, c.items[i].id, actor, ItemChecked);
          if !AllItemsChecked(items) then
            Done(c.(items := items), [checked])
          else if c.head.approverId.Some? then
            Done(ChecklistState(c.head.(status := Validating), items),
                 [checked, ChecklistEvent(c.head, actor, SubmittedForValidation)])
          else
            Done(ChecklistState(c.head.(status := Complete), items),
                 [checked, ChecklistEvent(c.head, actor, Completed)])
  }

  function Approve(c: ChecklistState, actor: int): Outcome {
    if c.head.status != Validating then Refused(ErrNotValidating)
    else if c.head.approverId != Some(actor) then Refused(ErrNotApprover)
    else Done(c.(head := c.head.(status := Complete)),
              [ChecklistEvent(c.head, actor, Approved), ChecklistEvent(c.head, actor, Completed)])
  }

  /** The items after a rejection: it depends on the set of indices only. */
  function KickBackAt(items: seq<Item>, indices: set<int>): (r: seq<Item>)
    ensures |r| == |items|
  {
    seq(|items|, k requires 0 <= k < |items| => if k in indices then KickBack(items[k]) else items[k])
  }

  function UncheckEvents(c: ChecklistState, actor: int, indices: seq<int>): (r: seq<Event>)
    requires forall k :: 0 <= k < |indices| ==> 0 <= indices[k] < |c.items|
    ensures |r| == |indices|
  {
    seq(|indices|, k requires 0 <= k < |indices| => ItemEvent(c.head, c.items[indices[k]].id, actor, ItemUnchecked))
  }

  function Reject(c: ChecklistState, actor: int, indices: seq<int>): Outcome
    requires forall k :: 0 <= k < |indices| ==> 0 <= indices[k] < |c.items|
  {
    if c.head.status != Validating then Refused(ErrNotValidating)
    else if c.head.approverId != Some(actor) then Refused(ErrNotApprover)
    else Done(ChecklistState(c.head.(status := Open), KickBackAt(c.items, set k | 0 <= k < |indices| :: indices[k])),
              UncheckEvents(c, actor, indices) + [ChecklistEvent(c.head, actor, Rejected)])
  }

  function ReopenEvents(h: Header, actor: int): seq<Event> {
    if h.status == Open then []
    else [ChecklistEvent(h, actor, Reopened).(detail := PreviousStatus(h.status))]
  }

  /** A creator override: new items, one event, and the checklist forced back to open. */
  function Override(c: ChecklistState, items: seq<Item>, event: Event, actor: int): Outcome {
    Done(ChecklistState(c.head.(status := Open), items), [event] + ReopenEvents(c.head, actor))
  }

  function NewItem(checklistId: int, name: string, position: int, validationRef: string): Item {
    Item(0, checklistId, name, position, false, None, None, validationRef, None)
  }

  function AddItem(c: ChecklistState, actor: int, name: string, validationRef: string): Outcome {
    if actor != c.head.creatorId then Refused(ErrNotCreator)
    else Override(c, c.items + [NewItem(c.head.id, name, |c.items|, validationRef)],
                  ChecklistEvent(c.head, actor, ItemAdded).(detail := ItemName(name)), actor)
  }

  function Without(items: seq<Item>, i: int): (r: seq<Item>)
    requires 0 <= i < |items|
    ensures |r| == |items| - 1
  {
    seq(|items| - 1, k requires 0 <= k < |items| - 1 =>
      (if k < i then items[k] else items[k + 1]).(position := k))
  }

  function RemoveItem(c: ChecklistState, actor: int, i: int): Outcome
    requires 0 <= i < |c.items|
  {
    if actor != c.head.creatorId then Refused(ErrNotCreator)
    else Override(c, Without(c.items, i), ItemEvent(c.head, c.items[i].id, actor, ItemRemoved), actor)
  }

  /** The item a lookup by id finds; of several items with one id, the last. */
  function FindById(items: seq<Item>, id: int): (r: Option<Item>)
    ensures r.Some? ==> r.value in items && r.value.id == id
    ensures r.None? ==> forall k :: 0 <= k < |items| ==> items[k].id != id
  {
    if |items| == 0 then None
    else if items[|items| - 1].id == id then Some(items[|items| - 1])
    else FindById(items[..|items| - 1], id)
  }

  predicate AllFound(items: seq<Item>, order: seq<int>) {
    forall k | 0 <= k < |order| :: FindById(items, order[k]).Some?
  }

  function Arrange(items: seq<Item>, order: seq<int>): (r: seq<Item>)
    requires AllFound(items, order)
    ensures |r| == |order|
  {
    seq(|order|, k requires 0 <= k < |order| => FindById(items, order[k]).value.(position := k))
  }

  function ReorderItems(c: ChecklistState, actor: int, order: seq<int>): Outcome {
    if actor != c.head.creatorId then Refused(ErrNotCreator)
    else if |order| != |c.items| || !AllFound(c.items, order) then Refused(ErrInvalidReorder)
    else Override(c, Arrange(c.items, order), ChecklistEvent(c.head, actor, ItemsReordered), actor)
  }

  function SetItemChecked(c: ChecklistState, actor: int, i: int, checked: bool, now: int): Outcome
    requires 0 <= i < |c.items|
  {
    if actor != c.head.creatorId then Refused(ErrNotCreator)
    else Override(c, c.items[i := if checked then Check(c.items[i], actor, now) else Uncheck(c.items[i])],
                  ItemEvent(c.head, c.items[i].id, actor, if checked then ItemChecked else ItemUnchecked), actor)
  }

  /** The first index holding the id, for callers that address items by id. */
  function ItemIndex(items: seq<Item>, id: int): (r: Option<nat>)
    ensures r.Some? ==> r.value < |items| && items[r.value].id == id
    ensures r.Some? ==> forall k :: 0 <= k < r.value ==> items[k].id != id
    ensures r.None? ==> forall k :: 0 <= k < |items| ==> items[k].id != id
  {
    if |items| == 0 then None
    else if items[0].id == id then Some(0)
    else match ItemIndex(items[1..], id)
      case None =>
        assert forall k :: 0 < k < |items| ==> items[k] == items[1..][k - 1];
        None
      case Some(k) =>
        assert forall j :: 0 < j < |items| ==> items[j] == items[1..][j - 1];
        Some(k + 1)
  }

  function ResolveIndices(items: seq<Item>, ids: seq<int>): (r: Option<seq<int>>)
    ensures r.Some? <==> forall k :: 0 <= k < |ids| ==> ItemIndex(items, ids[k]).Some?
    ensures r.Some? ==> |r.value| == |ids| && forall k :: 0 <= k < |ids| ==>
            ItemIndex(items, ids[k]) == Some(r.value[k])
  {
    if |ids| == 0 then Some([])
    else
      var last := |ids| - 1;
      match (ResolveIndices(items, ids[..last]), ItemIndex(items, ids[last]))
      case (Some(front), Some(i)) => Some(front + [i])
      case _ => None
  }

  /** Hidden checklists are for their people: creator, approver, holder, or, unclaimed, the group. */
  predicate VisibleTo(h: Header, user: int, isGroupMember: bool) {
    || !h.hidden
    || h.creatorId == user
    || h.approverId == Some(user)
    || h.assignedUserId == Some(user)
    || (h.assignedUserId.None? && isGroupMember)
  }

  /** One state-changing request, as the HTTP handlers pass it on: items are named by id. */
  datatype Mutation =
    | DoCheckItem(itemId: int, actor: int, now: int)
    | DoApprove(actor: int)
    | DoReject(actor: int, itemIds: seq<int>)
    | DoAddItem(actor: int, name: string, validationRef: string)
    | DoRemoveItem(actor: int, itemId: int)
    | DoReorder(actor: int, order: seq<int>)
    | DoSetItemChecked(actor: int, itemId: int, checked: bool, now: int)

  predicate CreatorOverride(m: Mutation) {
    m.DoAddItem? || m.DoRemoveItem? || m.DoReorder? || m.DoSetItemChecked?
  }

  /** What a handler does with the checklist it loaded: resolve item ids, then call the domain method. */
  function Apply(c: ChecklistState, m: Mutation): Outcome {
    match m
    case DoApprove(actor) => Approve(c, actor)
    case DoAddItem(actor, name, ref) => AddItem(c, actor, name, ref)
    case DoReorder(actor, order) => ReorderItems(c, actor, order)
    case DoReject(actor, ids) =>
      (match ResolveIndices(c.items, ids)
       case None => Refused(ErrItemNotFound)
       case Some(indices) => Reject(c, actor, indices))
    case DoCheckItem(id, actor, now) =>
      (match ItemIndex(c.items, id)
       case None => Refused(ErrItemNotFound)
       case Some(i) => CheckItem(c, i, actor, now))
    case DoRemoveItem(actor, id) =>
      (match ItemIndex(c.items, id)
       case None => Refused(ErrItemNotFound)
       case Some(i) => RemoveItem(c, actor, i))
    case DoSetItemChecked(actor, id, checked, now) =>
      (match ItemIndex(c.items, id)
       case None => Refused(ErrItemNotFound)
       case Some(i) => SetItemChecked(c, actor, i, checked, now))
  }
}
