/**
 The repositories over the database tables, statement by statement. Each transaction is
 proved to leave the tables exactly as Database says, whatever order a map is walked in.
 */
module Store {
  import opened Domain
  import opened ItemStore
  import opened Finite
  import opened Query
  import Spec = ChecklistSpec
  import D = Database
  import opened ChecklistObject

  lemma SoftDeleteOneMore(rows: Rows, ids: set<int>, id: int)
    ensures SoftDelete(rows, ids + {id}) ==
            if id in rows then SoftDelete(rows, ids)[id := rows[id].(deleted := true)] else SoftDelete(rows, ids)
  {
  }

  lemma SaveEachOneMore(rows: Rows, next: int, cid: int, items: seq<Item>, i: nat)
    requires i < |items|
    ensures SaveEach(rows, next, cid, items[..i + 1]) == SaveOne(SaveEach(rows, next, cid, items[..i]), cid, items[i])
  {
    assert items[..i + 1][..i] == items[..i];
  }

  /** Writing an item back in place extends what the loop has done by it, and leaves what it has still to do. */
  lemma WriteBack(items: seq<Item>, given: seq<Item>, i: nat, item: Item)
    requires i < |items| == |given| && forall k :: i <= k < |given| ==> items[k] == given[k]
    ensures items[i := item][..i + 1] == items[..i] + [item]
    ensures forall k :: i < k < |given| ==> items[i := item][k] == given[k]
  {
  }

  lemma IdSetGrows(items: seq<Item>, item: Item)
    ensures IdSet(items + [item]) == IdSet(items) + {item.id}
  {
    var all := items + [item];
    assert all[|items|].id == item.id;
    assert forall k :: 0 <= k < |items| ==> all[k] == items[k];
  }

  /** The matching ids of a scan so far, in the order of the scan. */
  ghost predicate Scanned(walk: seq<int>, matching: set<int>, ids: seq<int>) {
    && (forall x :: x in ids <==> x in walk && x in matching)
    && (Sorted(walk, D.IdLess) ==> Sorted(ids, D.IdLess))
  }

  lemma ScannedOneMore(walk: seq<int>, i: nat, matching: set<int>, ids: seq<int>)
    requires i < |walk| && Scanned(walk[..i], matching, ids) && Sorted(walk, D.IdLess)
    ensures walk[i] !in ids
    ensures Scanned(walk[..i + 1], matching, if walk[i] in matching then ids + [walk[i]] else ids)
  {
    assert walk[..i + 1] == walk[..i] + [walk[i]];
    forall x | x in walk[..i]
      ensures x < walk[i]
    {
      var k :| 0 <= k < i && walk[k] == x;
      assert D.IdLess(walk[k], walk[i]);
    }
    forall k | 0 <= k < |ids|
      ensures D.IdLess(ids[k], walk[i])
    {
      assert ids[k] in ids;
    }
  }

  function NoApprover(h: Header): Header {
    h.(approverId := None)
  }

  function NoAssignee(h: Header): Header {
    h.(assignedUserId := None)
  }

  /** An UPDATE has reached these rows. */
  ghost predicate Reached(before: map<int, Header>, after: map<int, Header>, ids: seq<int>, update: Header -> Header) {
    && after.Keys == before.Keys
    && (forall id :: id in ids ==> id in before)
    && (forall id :: id in before ==> after[id] == if id in ids then update(before[id]) else before[id])
  }

  lemma ReachedOneMore(before: map<int, Header>, after: map<int, Header>, ids: seq<int>, update: Header -> Header,
      id: int)
    requires Reached(before, after, ids, update) && id in before && id !in ids
    ensures Reached(before, after[id := update(after[id])], ids + [id], update)
  {
    var ids', after' := ids + [id], after[id := update(after[id])];
    forall x | x in before
      ensures after'[x] == if x in ids' then update(before[x]) else before[x]
    {
      assert x in ids' <==> x in ids || x == id;
    }
  }

  lemma ApproversUpdated(before: map<int, Header>, after: map<int, Header>, ids: seq<int>, matching: set<int>)
    requires Reached(before, after, ids, NoApprover) && forall x :: x in ids <==> x in matching
    ensures after == D.WithoutApprover(before, matching)
  {
    var cleared := D.WithoutApprover(before, matching);
    forall id | id in before
      ensures after[id] == cleared[id]
    {
    }
    assert after.Keys == cleared.Keys;
  }

  /** The trigger looks at each new row by itself. */
  lemma TriggerRowByRow(db: D.Db, matching: set<int>)
    requires forall id :: id in matching ==> id in db.checklists
    ensures D.TriggerAllowsAll(db, D.WithoutApprover(db.checklists, matching), matching)
            <==> forall id :: id in matching ==> D.TriggerAllows(db.members, NoApprover(db.checklists[id]))
  {
    var cleared := D.WithoutApprover(db.checklists, matching);
    assert forall id :: id in matching ==> cleared[id] == NoApprover(db.checklists[id]);
  }

  lemma AssigneesUpdated(before: map<int, Header>, after: map<int, Header>, ids: seq<int>, matching: set<int>)
    requires Reached(before, after, ids, NoAssignee) && forall x :: x in ids <==> x in matching
    ensures after == D.WithoutAssignee(before, matching)
  {
    var cleared := D.WithoutAssignee(before, matching);
    forall id | id in before
      ensures after[id] == cleared[id]
    {
    }
    assert after.Keys == cleared.Keys;
  }

  lemma ScannedAll(walk: seq<int>, matching: set<int>, ids: seq<int>)
    requires Scanned(walk, matching, ids) && Sorted(walk, D.IdLess)
    requires forall x :: x in matching ==> x in walk
    ensures ids == D.Returning(matching) && forall x :: x in ids <==> x in matching
  {
    OrderByIsUnique(ids, D.Returning(matching), matching, D.IdLess);
  }

  /** The UPDATE itself: visits the rows one by one, the trigger before each write, and collects the ids. */
  method UpdateApprovers(rows: map<int, Header>, members: set<(int, int)>, tenantId: int, user: int, walk: seq<int>)
    returns (after: map<int, Header>, ids: seq<int>, allowed: bool)
    requires forall id :: id in walk ==> id in rows
    requires Sorted(walk, D.IdLess)
    ensures var matching := set id | id in rows && rows[id].tenantId == tenantId && rows[id].approverId == Some(user);
            if allowed then
              Reached(rows, after, ids, NoApprover) && Scanned(walk, matching, ids)
              && forall id :: id in ids ==> D.TriggerAllows(members, NoApprover(rows[id]))
            else exists id :: id in matching && !D.TriggerAllows(members, NoApprover(rows[id]))
  {
    ghost var matching := set id | id in rows && rows[id].tenantId == tenantId && rows[id].approverId == Some(user);
    after, ids, allowed := rows, [], true;
    for i := 0 to |walk|
      invariant Reached(rows, after, ids, NoApprover)
      invariant Scanned(walk[..i], matching, ids)
      invariant forall id :: id in ids ==> D.TriggerAllows(members, NoApprover(rows[id]))
    {
      var id := walk[i];
      assert id in walk;
      ScannedOneMore(walk, i, matching, ids);
      assert after[id] == rows[id];
      if after[id].tenantId == tenantId && after[id].approverId == Some(user) {
        var row := after[id].(approverId := None);
        if !D.TriggerAllows(members, row) {
          allowed := false;
          return;
        }
        ReachedOneMore(rows, after, ids, NoApprover, id);
        after, ids := after[id := row], ids + [id];
      }
    }
    assert walk[..|walk|] == walk;
  }

  method CopyLines(cid: int, lines: seq<D.TemplateLine>) returns (list: seq<Item>)
    ensures list == D.NewItems(cid, lines)
  {
    list := [];
    for i := 0 to |lines|
      invariant list == D.NewItems(cid, lines)[..i]
    {
      var line := lines[i];
      list := list + [Item(0, cid, line.name, i, false, None, None, line.validationRef, None)];
    }
  }

  class Store {
    var checklists: map<int, Header>
    var items: Rows
    var log: seq<Event>
    var notifications: seq<Notification>
    var members: set<(int, int)>
    var templates: map<int, D.TemplateInfo>
    var nextChecklist: int
    var nextItem: int

    constructor ()
      ensures State() == D.Db(map[], map[], [], [], {}, map[], 1, 1)
    {
      checklists, items, log, notifications := map[], map[], [], [];
      members, templates, nextChecklist, nextItem := {}, map[], 1, 1;
    }

    function State(): D.Db
      reads this
    {
      D.Db(checklists, items, log, notifications, members, templates, nextChecklist, nextItem)
    }

    /** Back to a snapshot: what rolling a transaction back does. */
    method Rollback(db: D.Db)
      modifies this
      ensures State() == db
    {
      checklists, items, log, notifications := db.checklists, db.items, db.log, db.notifications;
      members, templates, nextChecklist, nextItem := db.members, db.templates, db.nextChecklist, db.nextItem;
    }

    /** Append-only: events go to the end of the log one by one. */
    method Append(events: seq<Event>)
      modifies this`log
      ensures log == old(log) + events
    {
      for i := 0 to |events|
        invariant log == old(log) + events[..i]
      {
        log := log + [events[i]];
      }
      assert events[..|events|] == events;
    }

    method Get(tenantId: int, id: int) returns (r: Result<Checklist>)
      requires Keyed(items)
      ensures r.Ok? <==> D.Exists(State(), tenantId, id)
      ensures r.Ok? ==> fresh(r.value) && r.value.State() == D.Load(checklists[id], items)
      ensures r.Err? ==> r.error == ErrNoRows
    {
      if id !in checklists || checklists[id].tenantId != tenantId {
        return Err(ErrNoRows);
      }
      var rows := ReadItems(items, checklists[id].id);
      var list: seq<Item> := [];
      for i := 0 to |rows|
        invariant list == rows[..i]
      {
        list := list + [rows[i]];
      }
      assert rows[..|rows|] == rows;
      var c := new Checklist(checklists[id], list);
      return Ok(c);
    }

    method Claim(tenantId: int, id: int, user: int, expected: Option<int>) returns (r: Result<bool>)
      modifies this
      ensures (State(), r) == D.Claim(old(State()), tenantId, id, user, expected)
    {
      if id in checklists && checklists[id].tenantId == tenantId && checklists[id].assignedUserId == expected {
        var row := checklists[id].(assignedUserId := Some(user));
        if !D.TriggerAllows(members, row) {
          return Err(ErrTrigger);
        }
        checklists := checklists[id := row];
        Append([Event(tenantId, id, None, user, Claimed, NoDetail)]);
        return Ok(true);
      }
      if id !in checklists || checklists[id].tenantId != tenantId {
        return Err(ErrNoRows);
      }
      var currentAssignee := checklists[id].assignedUserId;
      notifications := notifications + [Notification(tenantId, user, ClaimLost, id, currentAssignee)];
      return Ok(false);
    }

    /** INSERT ... RETURNING id. */
    method InsertItem(cid: int, item: Item) returns (id: int)
      modifies this`items, this`nextItem
      ensures id == old(nextItem) && nextItem == id + 1
      ensures items == old(items)[id := NewRow(id, cid, item)]
    {
      id := nextItem;
      var row := Item(id, cid, item.name, item.position, false, None, None, item.validationRef, None);
      items := items[id := ItemRow(row, false)];
      nextItem := nextItem + 1;
    }

    /** INSERT when the item has no id yet, then UPDATE by id. */
    method SaveItem(cid: int, item: Item, ghost front: seq<Item>) returns (saved: Item)
      modifies this`items, this`nextItem
      ensures Saved(items, nextItem, front + [saved]) == SaveOne(Saved(old(items), old(nextItem), front), cid, item)
    {
      saved := item;
      if saved.id == 0 {
        var id := InsertItem(cid, item);
        saved := saved.(id := id, checklistId := cid);
      }
      if saved.id in items {
        items := items[saved.id := items[saved.id].(item := items[saved.id].item.(
          name := saved.name, position := saved.position, checked := saved.checked, checkedBy := saved.checkedBy,
          checkedAt := saved.checkedAt, assigneeOverride := saved.assigneeOverride))];
      }
    }

    /** Save's loop over the items: writes each, fills in the ids of new ones, collects the kept ids. */
    method SaveItemLoop(c: Checklist) returns (keptIds: set<int>)
      modifies this`items, this`nextItem, c`items
      ensures Saved(items, nextItem, c.items) == SaveEach(old(items), old(nextItem), c.id, old(c.items))
      ensures keptIds == IdSet(c.items)
    {
      keptIds := {};
      ghost var given := c.items;
      for i := 0 to |c.items|
        invariant |c.items| == |given| && forall k :: i <= k < |given| ==> c.items[k] == given[k]
        invariant Saved(items, nextItem, c.items[..i]) == SaveEach(old(items), old(nextItem), c.id, given[..i])
        invariant keptIds == IdSet(c.items[..i])
      {
        ghost var front := c.items[..i];
        SaveEachOneMore(old(items), old(nextItem), c.id, given, i);
        assert c.items[i] == given[i];
        var item := SaveItem(c.id, c.items[i], front);
        WriteBack(c.items, given, i, item);
        c.items := c.items[i := item];
        keptIds := keptIds + {item.id};
        IdSetGrows(front, item);
      }
      assert given[..|given|] == given && c.items[..|c.items|] == c.items;
    }

    /** Reconciles the items with the rows: write those present, soft-delete those absent. */
    method SaveItemRows(c: Checklist, walk: seq<int>)
      requires Elements(walk) == LiveIds(items, c.id)
      modifies this`items, this`nextItem, c`items
      ensures Saved(items, nextItem, c.items) == SaveItems(old(items), old(nextItem), c.id, old(c.items))
    {
      var keptIds := SaveItemLoop(c);
      SoftDeleteAbsent(walk, keptIds);
    }

    /** walk is the order in which Go happens to range over the map of the ids present before. */
    method Save(c: Checklist, events: seq<Event>, walk: seq<int>) returns (r: Result<()>)
      requires c.id in checklists
      requires Elements(walk) == LiveIds(items, c.id)
      modifies this, c`items
      ensures match D.Save(old(State()), old(c.State()), events)
              case Ok((db, saved)) => r == Ok(()) && State() == db && c.items == saved
              case Err(e) => r == Err(e) && State() == old(State()) && c.items == old(c.items)
    {
      var row := checklists[c.id].(status := c.status);
      if !D.TriggerAllows(members, row) {
        return Err(ErrTrigger);
      }
      checklists := checklists[c.id := row];
      SaveItemRows(c, walk);
      Append(events);
      Notify(c, events);
      return Ok(());
    }

    /** Walks the ids present before, in whatever order the map yields them. */
    method SoftDeleteAbsent(walk: seq<int>, keptIds: set<int>)
      modifies this`items
      ensures items == SoftDelete(old(items), Elements(walk) - keptIds)
    {
      ghost var before := items;
      for i := 0 to |walk|
        invariant items == SoftDelete(before, Elements(walk[..i]) - keptIds)
      {
        ghost var seen := Elements(walk[..i]);
        assert walk[..i + 1] == walk[..i] + [walk[i]];
        assert Elements(walk[..i + 1]) == seen + {walk[i]};
        assert (seen + {walk[i]}) - keptIds ==
               if walk[i] in keptIds then seen - keptIds else (seen - keptIds) + {walk[i]};
        SoftDeleteOneMore(before, seen - keptIds, walk[i]);
        if walk[i] !in keptIds && walk[i] in items {
          items := items[walk[i] := items[walk[i]].(deleted := true)];
        }
      }
      assert walk[..|walk|] == walk;
    }

    method Notify(c: Checklist, events: seq<Event>)
      modifies this`notifications
      ensures notifications == old(notifications) + D.NotificationsFor(c.State().head, events)
    {
      for i := 0 to |events|
        invariant notifications == old(notifications) + D.NotificationsFor(c.State().head, events[..i])
      {
        assert events[..i + 1][..i] == events[..i];
        var n := D.NotificationFor(c.State().head, events[i]);
        if n.Some? {
          notifications := notifications + [n.value];
        }
      }
      assert events[..|events|] == events;
    }

    /** Get, mutate, Save inside one transaction; any error rolls back. */
    method WithChecklistMutation(tenantId: int, id: int, m: Spec.Mutation) returns (r: Result<ChecklistState>)
      requires D.DbOk(State())
      modifies this
      ensures (State(), r) == D.Mutate(old(State()), tenantId, id, m)
    {
      var begun := State();
      var got := Get(tenantId, id);
      if got.Err? {
        return Err(got.error);
      }
      var c := got.value;
      var events := c.Mutate(m);
      if events.Err? {
        Rollback(begun);
        return Err(events.error);
      }
      D.ApplyKeepsId(D.Load(checklists[id], items), m);
      assert c.id == c.State().head.id;
      var saved := Save(c, events.value, D.Returning(LiveIds(items, id)));
      if saved.Err? {
        Rollback(begun);
        return Err(saved.error);
      }
      return Ok(c.State());
    }

    /** UPDATE ... SET approver_id = NULL ... RETURNING id, row by row; one refused row undoes them all. */
    method ClearApprover(tenantId: int, user: int) returns (r: Result<seq<int>>)
      modifies this`checklists
      ensures var ids := D.Approving(old(State()), tenantId, user);
              var cleared := D.WithoutApprover(old(checklists), ids);
              if D.TriggerAllowsAll(old(State()), cleared, ids)
              then r == Ok(D.Returning(ids)) && checklists == cleared
              else r == Err(ErrTrigger) && checklists == old(checklists)
    {
      ghost var matching := D.Approving(State(), tenantId, user);
      TriggerRowByRow(State(), matching);
      var after, ids, allowed := UpdateApprovers(checklists, members, tenantId, user, D.Returning(checklists.Keys));
      if !allowed {
        return Err(ErrTrigger);
      }
      ScannedAll(D.Returning(checklists.Keys), matching, ids);
      ApproversUpdated(checklists, after, ids, matching);
      checklists := after;
      return Ok(ids);
    }

    /** UPDATE ... SET assigned_user_id = NULL ... RETURNING id; the trigger passes rows without an assignee. */
    method ClearAssignee(tenantId: int, user: int) returns (r: seq<int>)
      modifies this`checklists
      ensures var ids := D.Holding(old(State()), tenantId, user);
              r == D.Returning(ids) && checklists == D.WithoutAssignee(old(checklists), ids)
    {
      ghost var before := checklists;
      var walk := D.Returning(checklists.Keys);
      ghost var matching := D.Holding(State(), tenantId, user);
      r := [];
      for i := 0 to |walk|
        invariant Reached(before, checklists, r, NoAssignee)
        invariant Scanned(walk[..i], matching, r)
      {
        var id := walk[i];
        assert id in walk;
        ScannedOneMore(walk, i, matching, r);
        if checklists[id].tenantId == tenantId && checklists[id].assignedUserId == Some(user) {
          ReachedOneMore(before, checklists, r, NoAssignee, id);
          checklists := checklists[id := checklists[id].(assignedUserId := None)];
          r := r + [id];
        }
      }
      assert walk[..|walk|] == walk;
      ScannedAll(walk, matching, r);
      AssigneesUpdated(before, checklists, r, matching);
    }

    method ClearUserAssignments(tenantId: int, user: int) returns (r: Result<()>)
      modifies this
      ensures (State(), r) == D.Clear(old(State()), tenantId, user)
    {
      var begun := State();
      ghost var approving := D.Approving(begun, tenantId, user);
      ghost var holding := D.Holding(begun, tenantId, user);
      var approverIds := ClearApprover(tenantId, user);
      if approverIds.Err? {
        Rollback(begun);
        return Err(approverIds.error);
      }
      assert D.Holding(State(), tenantId, user) == holding;
      var events: seq<Event> := [];
      for i := 0 to |approverIds.value|
        invariant events == D.ClearedEvents(tenantId, user, approverIds.value[..i], ApproverChanged)
      {
        events := events + [Event(tenantId, approverIds.value[i], None, user, ApproverChanged, UserDeactivated)];
      }
      assert approverIds.value[..|approverIds.value|] == approverIds.value;
      ghost var first := events;

      var assigneeIds := ClearAssignee(tenantId, user);
      for i := 0 to |assigneeIds|
        invariant events == first + D.ClearedEvents(tenantId, user, assigneeIds[..i], AssigneeChanged)
      {
        events := events + [Event(tenantId, assigneeIds[i], None, user, AssigneeChanged, UserDeactivated)];
      }
      assert assigneeIds[..|assigneeIds|] == assigneeIds;
      Append(events);
      assert log == begun.log + D.ClearedEvents(tenantId, user, approverIds.value, ApproverChanged)
                              + D.ClearedEvents(tenantId, user, assigneeIds, AssigneeChanged);
      return Ok(());
    }

    method InsertItems(cid: int, list: seq<Item>)
      modifies this`items, this`nextItem
      ensures var s := D.InsertEach(old(items), old(nextItem), cid, list);
              items == s.rows && nextItem == s.next
    {
      for i := 0 to |list|
        invariant var s := D.InsertEach(old(items), old(nextItem), cid, list[..i]);
                  items == s.rows && nextItem == s.next
      {
        assert list[..i + 1][..i] == list[..i];
        var itemId := InsertItem(cid, list[i]);
      }
      assert list[..|list|] == list;
    }

    method Create(n: D.NewChecklist, now: int) returns (r: Result<int>)
      modifies this
      ensures (State(), r) == D.Create(old(State()), n, now)
    {
      if n.templateId !in templates || templates[n.templateId].tenantId != n.tenantId {
        return Err(ErrNoRows);
      }
      var template := templates[n.templateId];
      var name := n.name;
      if name == "" {
        name := template.name;
      }
      var id := nextChecklist;
      var row := Header(id, n.tenantId, n.templateId, name, n.creatorId, n.assignedGroupId, n.assignedUserId,
                        n.hidden, n.approverId, Open, now);
      if !D.TriggerAllows(members, row) {
        return Err(ErrTrigger);
      }
      checklists, nextChecklist := checklists[id := row], id + 1;

      var list := CopyLines(id, template.lines);
      InsertItems(id, list);
      Append([Event(n.tenantId, id, None, n.creatorId, Created, NoDetail)]);
      return Ok(id);
    }
  }
}
