/**
 The values the checklist server passes around: checklist headers and items, audit
 events, notifications, and the errors the domain and the store report.
 Times are integers on one clock; a pointer that may be nil is an Option.
 */
module Domain {

  datatype Option<+T> = None | Some(value: T)

  datatype Error =
    | ErrChecklistNotOpen
    | ErrNotAssignee
    | ErrUnclaimed
    | ErrNotValidating
    | ErrNotApprover
    | ErrNotCreator
    | ErrInvalidReorder
    | ErrItemNotFound      // a URL-supplied item id is not on the checklist
    | ErrNoRows            // a tenant-scoped lookup found nothing
    | ErrTrigger           // the group-membership trigger raised an exception

  datatype Result<+T> = Ok(value: T) | Err(error: Error)

  datatype Status = Open | Validating | Complete

  /** One checklist item. An id of 0 marks an item that has no row yet. */
  datatype Item = Item(
    id: int,
    checklistId: int,
    name: string,
    position: int,
    checked: bool,
    checkedBy: Option<int>,
    checkedAt: Option<int>,
    validationRef: string,
    assigneeOverride: Option<int>)

  /** A checklists row, which is also a checklist without its items. */
  datatype Header = Header(
    id: int,
    tenantId: int,
    templateId: int,
    name: string,
    creatorId: int,
    assignedGroupId: Option<int>,
    assignedUserId: Option<int>,
    hidden: bool,
    approverId: Option<int>,
    status: Status,
    createdAt: int)

  datatype ChecklistState = ChecklistState(head: Header, items: seq<Item>)

  datatype Action =
    | Created | AssigneeChanged | ApproverChanged
    | ItemChecked | ItemUnchecked
    | SubmittedForValidation | Rejected | Approved | Completed
    | Claimed | ClaimLost
    | ItemAdded | ItemRemoved | ItemsReordered | Reopened

  datatype Detail = NoDetail | ItemName(name: string) | PreviousStatus(status: Status) | UserDeactivated

  datatype Event = Event(
    tenantId: int,
    checklistId: int,
    itemId: Option<int>,
    actor: int,
    action: Action,
    detail: Detail)

  datatype Notification = Notification(
    tenantId: int,
    recipient: int,
    kind: Action,
    checklistId: int,
    actor: Option<int>)

  ghost predicate NoDuplicates<T>(s: seq<T>) {
    forall j, k :: 0 <= j < k < |s| ==> s[j] != s[k]
  }

  function Ids(items: seq<Item>): (ids: seq<int>)
    ensures |ids| == |items|
    ensures forall k :: 0 <= k < |items| ==> ids[k] == items[k].id
  {
    seq(|items|, k requires 0 <= k < |items| => items[k].id)
  }

  ghost predicate DistinctIds(items: seq<Item>) {
    forall j, k :: 0 <= j < k < |items| ==> items[j].id != items[k].id
  }

  ghost function IdSet(items: seq<Item>): set<int> {
    set k | 0 <= k < |items| :: items[k].id
  }
}
