/** Folding the audit log: what the events alone say about a checklist. */
module Replay {
  import opened Domain
  import opened ChecklistSpec
  import opened LifecycleLaw
  import opened Reordering

  datatype Replayed = Replayed(
    status: Status,
    checkedBy: map<int, int>,
    removed: set<int>,
    assignee: Option<int>,
    approver: Option<int>)

  /** Before any event: what the row holds right after it was inserted. */
  function AtBirth(h: Header): Replayed {
    Replayed(h.status, map[], {}, h.assignedUserId, h.approverId)
  }

  function ReplayOne(r: Replayed, e: Event): Replayed {
    match e.action
    case ItemChecked => if e.itemId.Some? then r.(checkedBy := r.checkedBy[e.itemId.value := e.actor]) else r
    case ItemUnchecked => if e.itemId.Some? then r.(checkedBy := r.checkedBy - {e.itemId.value}) else r
    case ItemRemoved => if e.itemId.Some? then r.(removed := r.removed + {e.itemId.value}) else r
    case SubmittedForValidation => r.(status := Validating)
    case Completed => r.(status := Complete)
    case Rejected => r.(status := Open)
    case Reopened => r.(status := Open)
    case Claimed => r.(assignee := Some(e.actor))
    case AssigneeChanged => r.(assignee := None)
    case ApproverChanged => r.(approver := None)
    case _ => r
  }

  /** The fold over the events of one checklist, oldest first. */
  function ReplayLog(r: Replayed, log: seq<Event>, cid: int): Replayed {
    if |log| == 0 then r
    else
      var p := ReplayLog(r, log[..|log| - 1], cid);
      var e := log[|log| - 1];
      if e.checklistId == cid then ReplayOne(p, e) else p
  }

  lemma {:induction false} ReplayConcat(r: Replayed, a: seq<Event>, b: seq<Event>, cid: int)
    ensures ReplayLog(r, a + b, cid) == ReplayLog(ReplayLog(r, a, cid), b, cid)
  {
    if |b| == 0 {
      assert a + b == a;
    } else {
      ReplayConcat(r, a, b[..|b| - 1], cid);
      assert (a + b)[..|a + b| - 1] == a + b[..|b| - 1];
    }
  }

  lemma ReplaySingle(r: Replayed, e: Event, cid: int)
    ensures ReplayLog(r, [e], cid) == if e.checklistId == cid then ReplayOne(r, e) else r
  {
    assert [e][..0] == [];
  }

  lemma ReplayTwo(r: Replayed, d: Event, e: Event, cid: int)
    requires d.checklistId == cid && e.checklistId == cid
    ensures ReplayLog(r, [d, e], cid) == ReplayOne(ReplayOne(r, d), e)
  {
    assert [d, e] == [d] + [e];
    ReplayConcat(r, [d], [e], cid);
    ReplaySingle(r, d, cid);
    ReplaySingle(ReplayOne(r, d), e, cid);
  }

  /** Events of other checklists do not count. */
  lemma {:induction false} ReplayIgnoresOthers(r: Replayed, log: seq<Event>, cid: int)
    requires forall k :: 0 <= k < |log| ==> log[k].checklistId != cid
    ensures ReplayLog(r, log, cid) == r
  {
    if |log| == 0 {
    } else {
      ReplayIgnoresOthers(r, log[..|log| - 1], cid);
    }
  }

  function Checker(r: Replayed, itemId: int): Option<int> {
    if itemId in r.checkedBy then Some(r.checkedBy[itemId]) else None
  }

  /** The replayed log agrees with the checklist in memory. */
  ghost predicate Mirrors(r: Replayed, c: ChecklistState) {
    && r.status == c.head.status
    && r.assignee == c.head.assignedUserId
    && r.approver == c.head.approverId
    && forall k :: 0 <= k < |c.items| ==> Checker(r, c.items[k].id) == c.items[k].checkedBy
  }

  lemma {:induction false} ReplayUnchecks(r: Replayed, c: ChecklistState, actor: int, indices: seq<int>)
    requires forall k :: 0 <= k < |indices| ==> 0 <= indices[k] < |c.items|
    ensures ReplayLog(r, UncheckEvents(c, actor, indices), c.head.id) ==
            r.(checkedBy := r.checkedBy - set k | 0 <= k < |indices| :: c.items[indices[k]].id)
  {
    var ids := set k | 0 <= k < |indices| :: c.items[indices[k]].id;
    if |indices| == 0 {
      assert r.checkedBy - ids == r.checkedBy;
    } else {
      var n := |indices| - 1;
      var front := indices[..n];
      ReplayUnchecks(r, c, actor, front);
      assert UncheckEvents(c, actor, indices)[..n] == UncheckEvents(c, actor, front);
      var before := set k | 0 <= k < n :: c.items[front[k]].id;
      assert ids == before + {c.items[indices[n]].id};
      assert r.checkedBy - before - {c.items[indices[n]].id} == r.checkedBy - ids;
    }
  }

  /** What replaying a request's events does to the replayed state. */
  ghost predicate Follows(r: Replayed, c: ChecklistState, r': Replayed, c': ChecklistState) {
    && r'.status == c'.head.status && r'.assignee == r.assignee && r'.approver == r.approver
    && (forall k :: 0 <= k < |c'.items| && c'.items[k].id != 0 ==> Checker(r', c'.items[k].id) == c'.items[k].checkedBy)
    && (forall id :: id == 0 || id !in IdSet(c'.items) ==> Checker(r', id) == Checker(r, id))
    && (forall id :: id in IdSet(c.items) && id !in IdSet(c'.items) ==> id in r'.removed)
    && (forall id :: id in r'.removed ==> id in r.removed || (id in IdSet(c.items) && id !in IdSet(c'.items)))
    && r.removed <= r'.removed
  }

  /** A creator override reports its event, and the reopening if there was one. */
  lemma ReplayOverride(r: Replayed, h: Header, e: Event, actor: int)
    requires r.status == h.status && e.checklistId == h.id && ReplayOne(r, e).status == r.status
    ensures ReplayLog(r, [e] + ReopenEvents(h, actor), h.id) == ReplayOne(r, e).(status := Open)
  {
    ReplaySingle(r, e, h.id);
    if h.status == Open {
      assert [e] + ReopenEvents(h, actor) == [e];
    } else {
      assert [e] + ReopenEvents(h, actor) == [e, ReopenEvents(h, actor)[0]];
      ReplayTwo(r, e, ReopenEvents(h, actor)[0], h.id);
    }
  }

  /** One item is replaced by a version with another checker. */
  lemma FollowsMark(r: Replayed, c: ChecklistState, i: int, item: Item, r': Replayed, c': ChecklistState)
    requires Loaded(c) && Mirrors(r, c) && 0 <= i < |c.items|
    requires item.id == c.items[i].id && c'.items == c.items[i := item]
    requires r'.status == c'.head.status && r'.assignee == r.assignee && r'.approver == r.approver &&
             r'.removed == r.removed
    requires Checker(r', item.id) == item.checkedBy
    requires forall id :: id != item.id ==> Checker(r', id) == Checker(r, id)
    ensures Follows(r, c, r', c')
  {
    assert c'.items[i].id == item.id;
    assert forall k :: 0 <= k < |c.items| ==> c'.items[k].id == c.items[k].id;
  }

  lemma FollowsRejection(r: Replayed, c: ChecklistState, indices: seq<int>, r': Replayed, c': ChecklistState)
    requires Loaded(c) && Mirrors(r, c) && (forall k :: 0 <= k < |indices| ==> 0 <= indices[k] < |c.items|)
    requires c'.items == KickBackAt(c.items, set k | 0 <= k < |indices| :: indices[k])
    requires r' == r.(status := c'.head.status,
                      checkedBy := r.checkedBy - set k | 0 <= k < |indices| :: c.items[indices[k]].id)
    ensures Follows(r, c, r', c')
  {
    var named := set k | 0 <= k < |indices| :: c.items[indices[k]].id;
    forall k | 0 <= k < |c.items|
      ensures c'.items[k].id == c.items[k].id && Checker(r', c.items[k].id) == c'.items[k].checkedBy
    {
      assert c.items[k].id in named <==> k in (set n | 0 <= n < |indices| :: indices[n]);
    }
    forall id | id == 0 || id !in IdSet(c'.items)
      ensures id !in named
    {
      assert forall n :: 0 <= n < |indices| ==> c'.items[indices[n]].id == c.items[indices[n]].id;
    }
    SameIds(c.items, c'.items);
  }

  lemma SameIds(s: seq<Item>, t: seq<Item>)
    requires |s| == |t| && forall k :: 0 <= k < |s| ==> s[k].id == t[k].id
    ensures IdSet(s) == IdSet(t)
  {
  }

  lemma IdStays(items: seq<Item>, i: int, k: int)
    requires 0 <= i < |items| && 0 <= k < |items| && k != i
    ensures items[k].id in IdSet(Without(items, i))
  {
    var j := if k < i then k else k - 1;
    assert Without(items, i)[j].id == items[k].id;
  }

  lemma IdWasThere(items: seq<Item>, i: int, j: int)
    requires DistinctIds(items) && 0 <= i < |items| && 0 <= j < |items| - 1
    ensures Without(items, i)[j].id in IdSet(items) - {items[i].id}
  {
    var k := if j < i then j else j + 1;
    assert items[k].id == Without(items, i)[j].id;
    assert if k < i then items[k].id != items[i].id else items[i].id != items[k].id;
  }

  lemma IdsWithout(items: seq<Item>, i: int)
    requires DistinctIds(items) && 0 <= i < |items|
    ensures IdSet(Without(items, i)) == IdSet(items) - {items[i].id}
  {
    forall x | x in IdSet(items) && x != items[i].id
      ensures x in IdSet(Without(items, i))
    {
      var k :| 0 <= k < |items| && items[k].id == x;
      IdStays(items, i, k);
    }
    forall x | x in IdSet(Without(items, i))
      ensures x in IdSet(items) - {items[i].id}
    {
      var j :| 0 <= j < |items| - 1 && Without(items, i)[j].id == x;
      IdWasThere(items, i, j);
    }
  }

  /** No check mark changed; some items are gone. */
  lemma FollowsByIds(r: Replayed, c: ChecklistState, r': Replayed, c': ChecklistState, gone: set<int>)
    requires r' == r.(status := c'.head.status, removed := r.removed + gone)
    requires gone <= IdSet(c.items) && IdSet(c'.items) == IdSet(c.items) - gone
    requires forall k :: 0 <= k < |c'.items| ==> Checker(r, c'.items[k].id) == c'.items[k].checkedBy
    ensures Follows(r, c, r', c')
  {
  }

  lemma FollowsRemoval(r: Replayed, c: ChecklistState, i: int, r': Replayed, c': ChecklistState)
    requires DistinctIds(c.items) && Mirrors(r, c) && 0 <= i < |c.items| && c'.items == Without(c.items, i)
    requires r' == r.(status := c'.head.status, removed := r.removed + {c.items[i].id})
    ensures Follows(r, c, r', c')
  {
    IdsWithout(c.items, i);
    assert c.items[i].id in IdSet(c.items);
    forall k | 0 <= k < |c'.items|
      ensures Checker(r, c'.items[k].id) == c'.items[k].checkedBy
    {
      assert Checker(r, c.items[if k < i then k else k + 1].id) == c.items[if k < i then k else k + 1].checkedBy;
    }
    FollowsByIds(r, c, r', c', {c.items[i].id});
  }

  lemma FollowsReorder(r: Replayed, c: ChecklistState, order: seq<int>, r': Replayed, c': ChecklistState)
    requires Mirrors(r, c) && AllFound(c.items, order) && c'.items == Arrange(c.items, order)
    requires forall k :: 0 <= k < |c.items| ==> c.items[k].id in order
    requires r' == r.(status := c'.head.status)
    ensures Follows(r, c, r', c')
  {
    forall x
      ensures x in IdSet(c'.items) <==> x in IdSet(c.items)
    {
      if x in IdSet(c.items) {
        var k :| 0 <= k < |order| && order[k] == x;
        assert c'.items[k].id == x;
      }
    }
    forall k | 0 <= k < |c'.items|
      ensures Checker(r, c'.items[k].id) == c'.items[k].checkedBy
    {
      var j :| 0 <= j < |c.items| && c.items[j] == FindById(c.items, order[k]).value;
    }
    assert r.removed + {} == r.removed;
    FollowsByIds(r, c, r', c', {});
  }

  lemma RejectTells(c: ChecklistState, actor: int, indices: seq<int>, r: Replayed)
    requires forall k :: 0 <= k < |indices| ==> 0 <= indices[k] < |c.items|
    requires Loaded(c) && Mirrors(r, c) && Reject(c, actor, indices).Done?
    ensures var o := Reject(c, actor, indices); Follows(r, c, ReplayLog(r, o.events, c.head.id), o.state)
  {
    var o := Reject(c, actor, indices);
    var rejected := ChecklistEvent(c.head, actor, Rejected);
    var mid := ReplayLog(r, UncheckEvents(c, actor, indices), c.head.id);
    ReplayConcat(r, UncheckEvents(c, actor, indices), [rejected], c.head.id);
    ReplaySingle(mid, rejected, c.head.id);
    ReplayUnchecks(r, c, actor, indices);
    FollowsRejection(r, c, indices, ReplayLog(r, o.events, c.head.id), o.state);
  }

  lemma CheckTells(c: ChecklistState, i: int, actor: int, now: int, r: Replayed)
    requires Loaded(c) && Mirrors(r, c) && 0 <= i < |c.items| && CheckItem(c, i, actor, now).Done?
    ensures var o := CheckItem(c, i, actor, now); Follows(r, c, ReplayLog(r, o.events, c.head.id), o.state)
  {
    var o := CheckItem(c, i, actor, now);
    var e := ItemEvent(c.head, c.items[i].id, actor, ItemChecked);
    if o.state.head.status == Open {
      ReplaySingle(r, e, c.head.id);
    } else {
      ReplayTwo(r, e, o.events[1], c.head.id);
      assert o.events == [e, o.events[1]];
    }
    FollowsMark(r, c, i, Check(c.items[i], actor, now), ReplayLog(r, o.events, c.head.id), o.state);
  }

  lemma SetCheckedTells(c: ChecklistState, i: int, actor: int, checked: bool, now: int, r: Replayed)
    requires Loaded(c) && Mirrors(r, c) && 0 <= i < |c.items| && SetItemChecked(c, actor, i, checked, now).Done?
    ensures var o := SetItemChecked(c, actor, i, checked, now);
            Follows(r, c, ReplayLog(r, o.events, c.head.id), o.state)
  {
    var o := SetItemChecked(c, actor, i, checked, now);
    var action := if checked then ItemChecked else ItemUnchecked;
    ReplayOverride(r, c.head, ItemEvent(c.head, c.items[i].id, actor, action), actor);
    FollowsMark(r, c, i, o.state.items[i], ReplayLog(r, o.events, c.head.id), o.state);
  }

  lemma AddTells(c: ChecklistState, actor: int, name: string, ref: string, r: Replayed)
    requires Loaded(c) && Mirrors(r, c) && AddItem(c, actor, name, ref).Done?
    ensures var o := AddItem(c, actor, name, ref); Follows(r, c, ReplayLog(r, o.events, c.head.id), o.state)
  {
    var o := AddItem(c, actor, name, ref);
    ReplayOverride(r, c.head, ChecklistEvent(c.head, actor, ItemAdded).(detail := ItemName(name)), actor);
    assert forall k :: 0 <= k < |c.items| ==> o.state.items[k] == c.items[k];
    assert o.state.items[|c.items|].id == 0;
    assert IdSet(o.state.items) == IdSet(c.items) + {0};
  }

  lemma ApproveTells(c: ChecklistState, actor: int, r: Replayed)
    requires Loaded(c) && Mirrors(r, c) && Approve(c, actor).Done?
    ensures var o := Approve(c, actor); Follows(r, c, ReplayLog(r, o.events, c.head.id), o.state)
  {
    ReplayTwo(r, ChecklistEvent(c.head, actor, Approved), ChecklistEvent(c.head, actor, Completed), c.head.id);
  }

  lemma RemoveTells(c: ChecklistState, actor: int, i: int, r: Replayed)
    requires Loaded(c) && Mirrors(r, c) && 0 <= i < |c.items| && RemoveItem(c, actor, i).Done?
    ensures var o := RemoveItem(c, actor, i); Follows(r, c, ReplayLog(r, o.events, c.head.id), o.state)
  {
    var o := RemoveItem(c, actor, i);
    ReplayOverride(r, c.head, ItemEvent(c.head, c.items[i].id, actor, ItemRemoved), actor);
    FollowsRemoval(r, c, i, ReplayLog(r, o.events, c.head.id), o.state);
  }

  lemma ReorderTells(c: ChecklistState, actor: int, order: seq<int>, r: Replayed)
    requires Loaded(c) && Mirrors(r, c) && NoDuplicates(order) && ReorderItems(c, actor, order).Done?
    ensures var o := ReorderItems(c, actor, order); Follows(r, c, ReplayLog(r, o.events, c.head.id), o.state)
  {
    var o := ReorderItems(c, actor, order);
    ReplayOverride(r, c.head, ChecklistEvent(c.head, actor, ItemsReordered), actor);
    ReorderIsPermutation(c, actor, order);
    FollowsReorder(r, c, order, ReplayLog(r, o.events, c.head.id), o.state);
  }

  /** The events a request reports tell all it did to status, check marks and presence of items. */
  lemma EventsTellAll(c: ChecklistState, m: Mutation, r: Replayed)
    requires Loaded(c) && DuplicateFree(m) && Mirrors(r, c) && Apply(c, m).Done?
    ensures Follows(r, c, ReplayLog(r, Apply(c, m).events, c.head.id), Apply(c, m).state)
  {
    match m
    case DoApprove(actor) => ApproveTells(c, actor, r);
    case DoCheckItem(id, actor, now) => CheckTells(c, ItemIndex(c.items, id).value, actor, now, r);
    case DoSetItemChecked(actor, id, checked, now) =>
        SetCheckedTells(c, ItemIndex(c.items, id).value, actor, checked, now, r);
    case DoAddItem(actor, name, ref) => AddTells(c, actor, name, ref, r);
    case DoReject(actor, ids) => RejectTells(c, actor, ResolveIndices(c.items, ids).value, r);
    case DoRemoveItem(actor, id) => RemoveTells(c, actor, ItemIndex(c.items, id).value, r);
    case DoReorder(actor, order) => ReorderTells(c, actor, order, r);
  }
}
