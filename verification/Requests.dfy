/**
 The seven requests told from outside: who gets through and who is told what, what becomes of
 every single item, and what the log is told. Items are named by id, as a caller names them.
 */
module Requests {
  import opened Domain
  import opened ChecklistSpec
  import opened LifecycleLaw
  import Approval

  ghost predicate OnList(items: seq<Item>, id: int) {
    exists k :: 0 <= k < |items| && items[k].id == id
  }

  /** The user an item was handed to is responsible for it; without one, whoever holds the checklist. */
  predicate IsResponsible(h: Header, item: Item, user: int) {
    item.assigneeOverride == Some(user) || (item.assigneeOverride == None && h.assignedUserId == Some(user))
  }

  predicate NobodyResponsible(h: Header, item: Item) {
    item.assigneeOverride == None && h.assignedUserId == None
  }

  /** For every checklist, item, user and time: only the responsible user checks, and only while open. */
  lemma WhoMayCheck(c: ChecklistState, i: int, actor: int, now: int)
    requires 0 <= i < |c.items|
    ensures var o := CheckItem(c, i, actor, now);
            && (o.Done? <==> c.head.status == Open && IsResponsible(c.head, c.items[i], actor))
            && (o == Refused(ErrChecklistNotOpen) <==> c.head.status != Open)
            && (o == Refused(ErrUnclaimed) <==> c.head.status == Open && NobodyResponsible(c.head, c.items[i]))
            && (o == Refused(ErrNotAssignee) <==>
                 && c.head.status == Open && !NobodyResponsible(c.head, c.items[i])
                 && !IsResponsible(c.head, c.items[i], actor))
  {
  }

  // ---- Who gets through ----

  /** An item id in the URL that the checklist does not have. */
  ghost predicate NamesUnknownItem(c: ChecklistState, m: Mutation) {
    match m
    case DoCheckItem(id, _, _) => !OnList(c.items, id)
    case DoReject(_, ids) => exists k :: 0 <= k < |ids| && !OnList(c.items, ids[k])
    case DoRemoveItem(_, id) => !OnList(c.items, id)
    case DoSetItemChecked(_, id, _, _) => !OnList(c.items, id)
    case _ => false
  }

  ghost predicate MayCheck(c: ChecklistState, id: int, user: int) {
    exists k :: 0 <= k < |c.items| && c.items[k].id == id && IsResponsible(c.head, c.items[k], user)
  }

  ghost predicate Unclaimed(c: ChecklistState, id: int) {
    exists k :: 0 <= k < |c.items| && c.items[k].id == id && NobodyResponsible(c.head, c.items[k])
  }

  predicate ApproverDecides(m: Mutation) {
    m.DoApprove? || m.DoReject?
  }

  ghost predicate OrderFits(items: seq<Item>, order: seq<int>) {
    |order| == |items| && forall k :: 0 <= k < |order| ==> OnList(items, order[k])
  }

  /** What a request asks of the checklist and of the user who makes it. */
  ghost predicate Accepted(c: ChecklistState, m: Mutation) {
    && !NamesUnknownItem(c, m)
    && match m
       case DoCheckItem(id, actor, _) => c.head.status == Open && MayCheck(c, id, actor)
       case DoApprove(actor) => c.head.status == Validating && c.head.approverId == Some(actor)
       case DoReject(actor, _) => c.head.status == Validating && c.head.approverId == Some(actor)
       case DoAddItem(actor, _, _) => c.head.creatorId == actor
       case DoRemoveItem(actor, _) => c.head.creatorId == actor
       case DoReorder(actor, order) => c.head.creatorId == actor && OrderFits(c.items, order)
       case DoSetItemChecked(actor, _, _, _) => c.head.creatorId == actor
  }

  /** The error of a request that is not accepted; an unknown item is reported before anything else. */
  ghost predicate Tells(c: ChecklistState, m: Mutation, e: Error) {
    var known := !NamesUnknownItem(c, m);
    match e
    case ErrItemNotFound => !known
    case ErrChecklistNotOpen => known && m.DoCheckItem? && c.head.status != Open
    case ErrUnclaimed => m.DoCheckItem? && c.head.status == Open && Unclaimed(c, m.itemId)
    case ErrNotAssignee =>
      known && m.DoCheckItem? && c.head.status == Open && !Unclaimed(c, m.itemId) && !MayCheck(c, m.itemId, m.actor)
    case ErrNotValidating => known && ApproverDecides(m) && c.head.status != Validating
    case ErrNotApprover =>
      known && ApproverDecides(m) && c.head.status == Validating && c.head.approverId != Some(m.actor)
    case ErrNotCreator => known && CreatorOverride(m) && c.head.creatorId != m.actor
    case ErrInvalidReorder => m.DoReorder? && c.head.creatorId == m.actor && !OrderFits(c.items, m.order)
    case _ => false
  }

  lemma FoundExactly(items: seq<Item>, id: int)
    ensures ItemIndex(items, id).Some? <==> OnList(items, id)
    ensures FindById(items, id).Some? <==> OnList(items, id)
  {
    if FindById(items, id).Some? {
      var k :| 0 <= k < |items| && items[k] == FindById(items, id).value;
      assert items[k].id == id;
    }
  }

  lemma TheItem(items: seq<Item>, id: int)
    requires DistinctIds(items) && ItemIndex(items, id).Some?
    ensures forall k :: 0 <= k < |items| && items[k].id == id ==> k == ItemIndex(items, id).value
  {
  }

  lemma AllFoundExactly(items: seq<Item>, order: seq<int>)
    ensures AllFound(items, order) <==> forall k :: 0 <= k < |order| ==> OnList(items, order[k])
  {
    forall k | 0 <= k < |order|
      ensures FindById(items, order[k]).Some? <==> OnList(items, order[k])
    {
      FoundExactly(items, order[k]);
    }
  }

  lemma ResolvesExactly(items: seq<Item>, ids: seq<int>)
    ensures ResolveIndices(items, ids).Some? <==> forall k :: 0 <= k < |ids| ==> OnList(items, ids[k])
  {
    forall k | 0 <= k < |ids|
      ensures ItemIndex(items, ids[k]).Some? <==> OnList(items, ids[k])
    {
      FoundExactly(items, ids[k]);
    }
  }

  /** It goes through if and only if it is accepted, and a refusal tells exactly its reason. */
  ghost predicate AnsweredExactly(c: ChecklistState, m: Mutation, o: Outcome) {
    (o.Done? <==> Accepted(c, m)) && forall e :: o == Refused(e) <==> Tells(c, m, e)
  }

  lemma CheckAnswered(c: ChecklistState, m: Mutation)
    requires DistinctIds(c.items) && m.DoCheckItem?
    ensures AnsweredExactly(c, m, Apply(c, m))
  {
    FoundExactly(c.items, m.itemId);
    if OnList(c.items, m.itemId) {
      var i := ItemIndex(c.items, m.itemId).value;
      TheItem(c.items, m.itemId);
      WhoMayCheck(c, i, m.actor, m.now);
      assert MayCheck(c, m.itemId, m.actor) <==> IsResponsible(c.head, c.items[i], m.actor);
      assert Unclaimed(c, m.itemId) <==> NobodyResponsible(c.head, c.items[i]);
    }
  }

  lemma ApproverAnswered(c: ChecklistState, m: Mutation)
    requires ApproverDecides(m)
    ensures AnsweredExactly(c, m, Apply(c, m))
  {
    if m.DoReject? {
      ResolvesExactly(c.items, m.itemIds);
    }
  }

  lemma ReorderAnswered(c: ChecklistState, actor: int, order: seq<int>)
    ensures AnsweredExactly(c, DoReorder(actor, order), ReorderItems(c, actor, order))
  {
    AllFoundExactly(c.items, order);
  }

  lemma RemoveAnswered(c: ChecklistState, actor: int, id: int)
    ensures AnsweredExactly(c, DoRemoveItem(actor, id), Apply(c, DoRemoveItem(actor, id)))
  {
    FoundExactly(c.items, id);
  }

  lemma SetAnswered(c: ChecklistState, m: Mutation)
    requires m.DoSetItemChecked?
    ensures AnsweredExactly(c, m, Apply(c, m))
  {
    FoundExactly(c.items, m.itemId);
  }

  /** Every request goes through if and only if it is accepted, and a refusal tells exactly its reason. */
  lemma {:induction false} AcceptedExactly(c: ChecklistState, m: Mutation)
    requires DistinctIds(c.items)
    ensures Apply(c, m).Done? <==> Accepted(c, m)
    ensures forall e :: Apply(c, m) == Refused(e) <==> Tells(c, m, e)
  {
    assert AnsweredExactly(c, m, Apply(c, m)) by {
      match m
      case DoApprove(_) => ApproverAnswered(c, m);
      case DoReject(_, _) => ApproverAnswered(c, m);
      case DoAddItem(_, _, _) =>
      case DoReorder(actor, order) => ReorderAnswered(c, actor, order);
      case DoRemoveItem(actor, id) => RemoveAnswered(c, actor, id);
      case DoSetItemChecked(_, _, _, _) => SetAnswered(c, m);
      case DoCheckItem(_, _, _) => CheckAnswered(c, m);
    }
  }

  // ---- What becomes of the items ----

  function Checked(item: Item, user: int, now: int): Item {
    Item(item.id, item.checklistId, item.name, item.position, true, Some(user), Some(now),
         item.validationRef, item.assigneeOverride)
  }

  function Unchecked(item: Item, responsible: Option<int>): Item {
    Item(item.id, item.checklistId, item.name, item.position, false, None, None, item.validationRef, responsible)
  }

  function At(item: Item, position: int): Item {
    Item(item.id, item.checklistId, item.name, position, item.checked, item.checkedBy, item.checkedAt,
         item.validationRef, item.assigneeOverride)
  }

  /** The items named change as given, the others stay; nothing moves. */
  ghost predicate OnlyNamed(before: seq<Item>, after: seq<Item>, ids: set<int>, change: Item -> Item) {
    && |after| == |before|
    && forall k :: 0 <= k < |before| ==> after[k] == if before[k].id in ids then change(before[k]) else before[k]
  }

  /** One item is gone, and those behind it have moved up. */
  ghost predicate TakenOut(before: seq<Item>, after: seq<Item>, id: int) {
    exists i :: 0 <= i < |before| && before[i].id == id && |after| == |before| - 1
                && forall k :: 0 <= k < |after| ==> after[k] == At(before[if k < i then k else k + 1], k)
  }

  ghost predicate IsAmong(items: seq<Item>, item: Item, position: int) {
    exists j :: 0 <= j < |items| && item == At(items[j], position)
  }

  /** What an accepted request leaves, item by item, and the status. */
  ghost predicate Leaves(c: ChecklistState, m: Mutation, c': ChecklistState) {
    var items, items', status := c.items, c'.items, c'.head.status;
    match m
    case DoCheckItem(id, actor, now) =>
      && OnlyNamed(items, items', {id}, item => Checked(item, actor, now))
      && status == (if exists k :: 0 <= k < |items'| && !items'[k].checked then Open
                    else if c.head.approverId == None then Complete else Validating)
    case DoApprove(_) => items' == items && status == Complete
    case DoReject(_, ids) =>
      OnlyNamed(items, items', (set x | x in ids), (item: Item) => Unchecked(item, item.checkedBy)) && status == Open
    case DoAddItem(_, name, ref) =>
      items' == items + [Item(0, c.head.id, name, |items|, false, None, None, ref, None)] && status == Open
    case DoRemoveItem(_, id) => TakenOut(items, items', id) && status == Open
    case DoReorder(_, order) =>
      && |items'| == |order| && status == Open
      && forall k :: 0 <= k < |order| ==> items'[k].id == order[k] && IsAmong(items, items'[k], k)
    case DoSetItemChecked(actor, id, true, now) =>
      OnlyNamed(items, items', {id}, item => Checked(item, actor, now)) && status == Open
    case DoSetItemChecked(_, id, false, _) =>
      OnlyNamed(items, items', {id}, (item: Item) => Unchecked(item, item.assigneeOverride)) && status == Open
  }

  lemma CheckLeaves(c: ChecklistState, i: int, actor: int, now: int)
    requires DistinctIds(c.items) && 0 <= i < |c.items| && CheckItem(c, i, actor, now).Done?
    ensures Leaves(c, DoCheckItem(c.items[i].id, actor, now), CheckItem(c, i, actor, now).state)
  {
    assert forall k :: 0 <= k < |c.items| && c.items[k].id == c.items[i].id ==> k == i;
  }

  lemma SetCheckedLeaves(c: ChecklistState, i: int, actor: int, checked: bool, now: int)
    requires DistinctIds(c.items) && 0 <= i < |c.items| && SetItemChecked(c, actor, i, checked, now).Done?
    ensures Leaves(c, DoSetItemChecked(actor, c.items[i].id, checked, now),
                   SetItemChecked(c, actor, i, checked, now).state)
  {
    assert forall k :: 0 <= k < |c.items| && c.items[k].id == c.items[i].id ==> k == i;
  }

  lemma RejectLeaves(c: ChecklistState, actor: int, ids: seq<int>)
    requires Lifecycle(c) && Apply(c, DoReject(actor, ids)).Done?
    ensures Leaves(c, DoReject(actor, ids), Apply(c, DoReject(actor, ids)).state)
  {
    var items', indices := Apply(c, DoReject(actor, ids)).state.items, ResolveIndices(c.items, ids).value;
    forall k | 0 <= k < |c.items|
      ensures items'[k] == if c.items[k].id in ids then Unchecked(c.items[k], c.items[k].checkedBy) else c.items[k]
    {
      Approval.ResolvedSet(c.items, ids, k);
      assert CheckFieldsAgree(c.items[k]);
    }
  }

  lemma ReorderLeaves(c: ChecklistState, actor: int, order: seq<int>)
    requires ReorderItems(c, actor, order).Done?
    ensures Leaves(c, DoReorder(actor, order), ReorderItems(c, actor, order).state)
  {
    var items' := ReorderItems(c, actor, order).state.items;
    forall k | 0 <= k < |order|
      ensures items'[k].id == order[k] && IsAmong(c.items, items'[k], k)
    {
      var j :| 0 <= j < |c.items| && c.items[j] == FindById(c.items, order[k]).value;
      assert items'[k] == At(c.items[j], k);
    }
  }

  lemma RemoveLeaves(c: ChecklistState, i: int, actor: int)
    requires 0 <= i < |c.items| && RemoveItem(c, actor, i).Done?
    ensures Leaves(c, DoRemoveItem(actor, c.items[i].id), RemoveItem(c, actor, i).state)
  {
    var items' := RemoveItem(c, actor, i).state.items;
    assert forall k :: 0 <= k < |items'| ==> items'[k] == At(c.items[if k < i then k else k + 1], k);
  }

  /** Every item of the result is what the request says of it, on every checklist that keeps the lifecycle. */
  lemma {:induction false} ResultItemByItem(c: ChecklistState, m: Mutation)
    requires Lifecycle(c) && Apply(c, m).Done?
    ensures Leaves(c, m, Apply(c, m).state)
    ensures Apply(c, m).state.head == c.head.(status := Apply(c, m).state.head.status)
  {
    match m
    case DoApprove(_) =>
    case DoAddItem(_, _, _) =>
    case DoCheckItem(id, actor, now) => CheckLeaves(c, ItemIndex(c.items, id).value, actor, now);
    case DoSetItemChecked(actor, id, checked, now) =>
      SetCheckedLeaves(c, ItemIndex(c.items, id).value, actor, checked, now);
    case DoReject(actor, ids) => RejectLeaves(c, actor, ids);
    case DoReorder(actor, order) => ReorderLeaves(c, actor, order);
    case DoRemoveItem(actor, id) => RemoveLeaves(c, ItemIndex(c.items, id).value, actor);
  }

  // ---- What the log is told ----

  /** A line of the log without what all lines of a request share. */
  datatype Line = Line(itemId: Option<int>, action: Action, detail: Detail)

  function Unchecks(ids: seq<int>): (lines: seq<Line>)
    ensures |lines| == |ids|
  {
    seq(|ids|, k requires 0 <= k < |ids| => Line(Some(ids[k]), ItemUnchecked, NoDetail))
  }

  function First(m: Mutation): Line
    requires CreatorOverride(m)
  {
    match m
    case DoAddItem(_, name, _) => Line(None, ItemAdded, ItemName(name))
    case DoRemoveItem(_, id) => Line(Some(id), ItemRemoved, NoDetail)
    case DoReorder(_, _) => Line(None, ItemsReordered, NoDetail)
    case DoSetItemChecked(_, id, checked, _) => Line(Some(id), if checked then ItemChecked else ItemUnchecked, NoDetail)
  }

  /** The story of a request that took the checklist from one status to another. */
  function Story(m: Mutation, before: Status, after: Status): seq<Line> {
    match m
    case DoCheckItem(id, _, _) =>
      [Line(Some(id), ItemChecked, NoDetail)] +
      (match after
       case Open => []
       case Validating => [Line(None, SubmittedForValidation, NoDetail)]
       case Complete => [Line(None, Completed, NoDetail)])
    case DoApprove(_) => [Line(None, Approved, NoDetail), Line(None, Completed, NoDetail)]
    case DoReject(_, ids) => Unchecks(ids) + [Line(None, Rejected, NoDetail)]
    case _ => [First(m)] + if before == Open then [] else [Line(None, Reopened, PreviousStatus(before))]
  }

  ghost predicate TellsStory(h: Header, actor: int, events: seq<Event>, story: seq<Line>) {
    && |events| == |story|
    && forall k :: 0 <= k < |events| ==>
         events[k] == Event(h.tenantId, h.id, story[k].itemId, actor, story[k].action, story[k].detail)
  }

  lemma CheckTellsStory(c: ChecklistState, i: int, m: Mutation)
    requires m.DoCheckItem? && 0 <= i < |c.items| && c.items[i].id == m.itemId && CheckItem(c, i, m.actor, m.now).Done?
    ensures var o := CheckItem(c, i, m.actor, m.now);
            TellsStory(c.head, m.actor, o.events, Story(m, c.head.status, o.state.head.status))
  {
  }

  lemma RejectTellsStory(c: ChecklistState, m: Mutation)
    requires m.DoReject? && Apply(c, m).Done?
    ensures TellsStory(c.head, m.actor, Apply(c, m).events, Story(m, c.head.status, Open))
  {
    var indices, events := ResolveIndices(c.items, m.itemIds).value, Apply(c, m).events;
    forall k | 0 <= k < |m.itemIds|
      ensures events[k] == ItemEvent(c.head, m.itemIds[k], m.actor, ItemUnchecked)
    {
      assert ItemIndex(c.items, m.itemIds[k]) == Some(indices[k]);
      assert events[k] == UncheckEvents(c, m.actor, indices)[k];
    }
  }

  lemma OverrideTellsStory(c: ChecklistState, m: Mutation)
    requires CreatorOverride(m) && Apply(c, m).Done?
    ensures TellsStory(c.head, m.actor, Apply(c, m).events, Story(m, c.head.status, Open))
  {
    match m
    case DoRemoveItem(_, id) => assert c.items[ItemIndex(c.items, id).value].id == id;
    case DoSetItemChecked(_, id, _, _) => assert c.items[ItemIndex(c.items, id).value].id == id;
    case _ =>
  }

  /** The events of a request, one by one: whose they are, which items they name, what they say. */
  lemma {:induction false} EventsTellTheStory(c: ChecklistState, m: Mutation)
    requires Apply(c, m).Done?
    ensures var o := Apply(c, m);
            TellsStory(c.head, m.actor, o.events, Story(m, c.head.status, o.state.head.status))
  {
    match m
    case DoApprove(_) =>
    case DoReject(_, _) => RejectTellsStory(c, m);
    case DoCheckItem(id, _, _) => CheckTellsStory(c, ItemIndex(c.items, id).value, m);
    case _ => OverrideTellsStory(c, m);
  }
}
