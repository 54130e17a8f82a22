/**
 What holds of every stored checklist: its rows are a loaded checklist that keeps the
 lifecycle, its audit log replays to exactly its row and item rows, and every checker and
 override it names is backed by an earlier item_checked event.
 */
module StoredLaw {
  import opened Domain
  import opened ChecklistSpec
  import opened LifecycleLaw
  import opened ItemStore
  import opened Replay
  import opened Database

  /** Replaying the log from the row as created gives the row and the item rows as they are, deleted ones too. */
  ghost predicate LogAgrees(h: Header, rows: Rows, r: Replayed) {
    && r.status == h.status && r.assignee == h.assignedUserId && r.approver == h.approverId
    && (forall id :: id in rows && rows[id].item.checklistId == h.id ==>
         && Checker(r, id) == rows[id].item.checkedBy
         && CheckFieldsAgree(rows[id].item)
         && (id in r.removed <==> rows[id].deleted))
    && (forall id :: id in r.checkedBy || id in r.removed ==> id in rows)
  }

  /** Some event of the log has this user check this item. */
  ghost predicate CheckLogged(log: seq<Event>, cid: int, itemId: int, user: int) {
    exists k :: 0 <= k < |log| && log[k].checklistId == cid && log[k].itemId == Some(itemId)
                && log[k].action == ItemChecked && log[k].actor == user
  }

  ghost predicate Justified(item: Item, log: seq<Event>) {
    && (item.checkedBy.Some? ==> CheckLogged(log, item.checklistId, item.id, item.checkedBy.value))
    && (item.assigneeOverride.Some? ==> CheckLogged(log, item.checklistId, item.id, item.assigneeOverride.value))
  }

  ghost predicate StoredOk(h: Header, rows: Rows, log: seq<Event>, born: Header)
    requires Keyed(rows)
  {
    && Represents(rows, h.id, ReadItems(rows, h.id))
    && Loaded(Load(h, rows))
    && LogAgrees(h, rows, ReplayLog(AtBirth(born), log, h.id))
    && (forall id :: id in rows && rows[id].item.checklistId == h.id ==> Justified(rows[id].item, log))
    && h == born.(status := h.status, approverId := h.approverId, assignedUserId := h.assignedUserId)
  }

  lemma LogAgreesMirrors(h: Header, rows: Rows, r: Replayed)
    requires Keyed(rows) && Represents(rows, h.id, ReadItems(rows, h.id)) && LogAgrees(h, rows, r)
    ensures Mirrors(r, Load(h, rows))
  {
  }

  /** Any one request on a stored checklist hands Save a list it can reconcile. */
  lemma {:induction false} ApplyIsSavable(h: Header, rows: Rows, m: Mutation)
    requires Keyed(rows) && Represents(rows, h.id, ReadItems(rows, h.id)) && Loaded(Load(h, rows))
    requires DuplicateFree(m) && Apply(Load(h, rows), m).Done?
    ensures Savable(rows, h.id, Apply(Load(h, rows), m).state.items)
  {
    var c := Load(h, rows);
    var c' := Apply(c, m).state;
    ApplyKeepsItems(c, m);
    forall k | 0 <= k < |c'.items| && c'.items[k].id != 0
      ensures exists j :: 0 <= j < |c.items|
                          && c.items[j].id == c'.items[k].id && c.items[j].validationRef == c'.items[k].validationRef
    {
      ItemComesFrom(c, m, k);
    }
  }

  /** Where an item of the result comes from, and why its checker and override are what they are. */
  lemma ItemComesFrom(c: ChecklistState, m: Mutation, k: int)
    requires Apply(c, m).Done? && 0 <= k < |Apply(c, m).state.items|
    ensures var o := Apply(c, m);
            var it := o.state.items[k];
            || (m.DoAddItem? && it.id == 0 && it.checkedBy.None? && it.checkedAt.None? && it.assigneeOverride.None?)
            || exists j :: 0 <= j < |c.items| && CameFrom(c.items[j], it, o.events, c.head.id)
  {
    var o := Apply(c, m);
    var items := o.state.items;
    match m
    case DoRemoveItem(actor, id) =>
      var i := ItemIndex(c.items, id).value;
      assert CameFrom(c.items[if k < i then k else k + 1], items[k], o.events, c.head.id);
    case DoReorder(actor, order) =>
      var j :| 0 <= j < |c.items| && c.items[j] == FindById(c.items, order[k]).value;
      assert CameFrom(c.items[j], items[k], o.events, c.head.id);
    case DoAddItem(actor, name, ref) =>
      if k < |c.items| {
        assert CameFrom(c.items[k], items[k], o.events, c.head.id);
      }
    case DoCheckItem(id, actor, now) =>
      assert o.events[0] == ItemEvent(c.head, id, actor, ItemChecked);
      assert CameFrom(c.items[k], items[k], o.events, c.head.id);
    case DoSetItemChecked(actor, id, checked, now) =>
      assert o.events[0] == ItemEvent(c.head, id, actor, if checked then ItemChecked else ItemUnchecked);
      assert CameFrom(c.items[k], items[k], o.events, c.head.id);
    case _ =>
      assert CameFrom(c.items[k], items[k], o.events, c.head.id);
  }

  ghost predicate CameFrom(before: Item, after: Item, events: seq<Event>, cid: int) {
    && after.id == before.id && after.validationRef == before.validationRef
    && (after.checkedBy.Some? ==>
         after.checkedBy == before.checkedBy || CheckLogged(events, cid, after.id, after.checkedBy.value))
    && (after.assigneeOverride.Some? ==>
         after.assigneeOverride == before.assigneeOverride || after.assigneeOverride == before.checkedBy)
  }

  lemma LiveIdsAreItemIds(rows: Rows, cid: int, items: seq<Item>)
    requires Represents(rows, cid, items)
    ensures LiveIds(rows, cid) == IdSet(items)
  {
    forall id
      ensures id in LiveIds(rows, cid) <==> id in IdSet(items)
    {
      if id in LiveIds(rows, cid) {
        var k :| 0 <= k < |items| && items[k].id == id;
      }
    }
  }

  lemma OldIdsAmongSaved(rows: Rows, next: int, items: seq<Item>, saved: seq<Item>, next': int, id: int)
    requires TableOk(rows, next) && FreshIdsFilled(items, saved, next, next')
    ensures id != 0 && id in IdSet(items) ==> HasId(saved, id)
    ensures id < next ==> (HasId(saved, id) ==> id in IdSet(items))
  {
    if id != 0 && id in IdSet(items) {
      var k :| 0 <= k < |items| && items[k].id == id;
      assert saved[k].id == id;
    }
    if id < next && HasId(saved, id) {
      var k :| 0 <= k < |saved| && saved[k].id == id;
      assert items[k].id == id;
    }
  }

  /** After Save the log, extended by the request's events, agrees with the rows again. */
  lemma SavedLogAgrees(h: Header, rows: Rows, next: int, r: Replayed, c: ChecklistState, r': Replayed,
      c': ChecklistState, s: Saved)
    requires TableOk(rows, next) && c.head == h && Represents(rows, h.id, c.items) && LogAgrees(h, rows, r)
    requires Follows(r, c, r', c') && WellFormedItems(h.id, c'.items) && Savable(rows, h.id, c'.items)
    requires c'.head == h.(status := c'.head.status)
    requires forall k :: 0 <= k < |c'.items| && c'.items[k].id == 0 ==> c'.items[k].checkedBy.None?
    requires FreshIdsFilled(c'.items, s.items, next, s.next)
    requires Represents(s.rows, h.id, s.items) && OthersUntouched(rows, s.rows, h.id, s.items)
    ensures LogAgrees(c'.head, s.rows, r')
  {
    LiveIdsAreItemIds(rows, h.id, c.items);
    forall id | id in s.rows && s.rows[id].item.checklistId == h.id
      ensures Checker(r', id) == s.rows[id].item.checkedBy && CheckFieldsAgree(s.rows[id].item)
      ensures id in r'.removed <==> s.rows[id].deleted
    {
      RowAgrees(h, rows, next, r, c, r', c', s, id);
    }
    forall id | id in r'.checkedBy || id in r'.removed
      ensures id in s.rows
    {
      OldIdsAmongSaved(rows, next, c'.items, s.items, s.next, id);
      assert Checker(r', id).Some? || id in r.removed || id in IdSet(c.items);
    }
  }

  lemma RowAgrees(h: Header, rows: Rows, next: int, r: Replayed, c: ChecklistState, r': Replayed, c': ChecklistState,
      s: Saved, id: int)
    requires TableOk(rows, next) && LiveIds(rows, h.id) == IdSet(c.items) && LogAgrees(h, rows, r)
    requires Follows(r, c, r', c') && WellFormedItems(h.id, c'.items) && Savable(rows, h.id, c'.items)
    requires forall k :: 0 <= k < |c'.items| && c'.items[k].id == 0 ==> c'.items[k].checkedBy.None?
    requires FreshIdsFilled(c'.items, s.items, next, s.next)
    requires Represents(s.rows, h.id, s.items) && OthersUntouched(rows, s.rows, h.id, s.items)
    requires id in s.rows && s.rows[id].item.checklistId == h.id
    ensures Checker(r', id) == s.rows[id].item.checkedBy && CheckFieldsAgree(s.rows[id].item)
    ensures id in r'.removed <==> s.rows[id].deleted
  {
    OldIdsAmongSaved(rows, next, c'.items, s.items, s.next, id);
    if HasId(s.items, id) {
      var k :| 0 <= k < |s.items| && s.items[k].id == id;
      if c'.items[k].id == 0 {
        assert id !in rows;
        assert forall j :: 0 <= j < |c'.items| ==> c'.items[j].id != id;
      } else {
        assert c'.items[k].id == id;
      }
    } else {
      assert id in rows && (id == 0 || id !in IdSet(c'.items));
    }
  }

  lemma LogOnlyGrows(log: seq<Event>, more: seq<Event>, cid: int, itemId: int, user: int)
    requires CheckLogged(log, cid, itemId, user) || CheckLogged(more, cid, itemId, user)
    ensures CheckLogged(log + more, cid, itemId, user)
  {
    if CheckLogged(log, cid, itemId, user) {
      var k :| 0 <= k < |log| && log[k].checklistId == cid && log[k].itemId == Some(itemId)
               && log[k].action == ItemChecked && log[k].actor == user;
      assert (log + more)[k] == log[k];
    } else {
      var k :| 0 <= k < |more| && more[k].checklistId == cid && more[k].itemId == Some(itemId)
               && more[k].action == ItemChecked && more[k].actor == user;
      assert (log + more)[|log| + k] == more[k];
    }
  }

  lemma JustifiedGrows(item: Item, log: seq<Event>, more: seq<Event>)
    requires Justified(item, log)
    ensures Justified(item, log + more)
  {
    if item.checkedBy.Some? {
      LogOnlyGrows(log, more, item.checklistId, item.id, item.checkedBy.value);
    }
    if item.assigneeOverride.Some? {
      LogOnlyGrows(log, more, item.checklistId, item.id, item.assigneeOverride.value);
    }
  }

  lemma JustifiedByOrigin(before: Item, after: Item, log: seq<Event>, more: seq<Event>, cid: int)
    requires Justified(before, log) && CameFrom(before, after, more, cid)
    requires before.checklistId == cid && after.checklistId == cid
    ensures Justified(after, log + more)
  {
    JustifiedGrows(before, log, more);
    if after.checkedBy.Some? && after.checkedBy != before.checkedBy {
      LogOnlyGrows(log, more, cid, after.id, after.checkedBy.value);
    }
  }

  lemma SavedJustified(h: Header, rows: Rows, next: int, log: seq<Event>, m: Mutation, s: Saved)
    requires TableOk(rows, next) && Represents(rows, h.id, ReadItems(rows, h.id)) && Loaded(Load(h, rows))
    requires forall id :: id in rows && rows[id].item.checklistId == h.id ==> Justified(rows[id].item, log)
    requires Apply(Load(h, rows), m).Done?
    requires var items := Apply(Load(h, rows), m).state.items;
             WellFormedItems(h.id, items) && FreshIdsFilled(items, s.items, next, s.next)
    requires Represents(s.rows, h.id, s.items) && OthersUntouched(rows, s.rows, h.id, s.items)
    ensures forall id :: id in s.rows && s.rows[id].item.checklistId == h.id ==>
              Justified(s.rows[id].item, log + Apply(Load(h, rows), m).events)
  {
    var c := Load(h, rows);
    var o := Apply(c, m);
    forall id | id in s.rows && s.rows[id].item.checklistId == h.id
      ensures Justified(s.rows[id].item, log + o.events)
    {
      if HasId(s.items, id) {
        var k :| 0 <= k < |s.items| && s.items[k].id == id;
        ItemComesFrom(c, m, k);
        if j :| 0 <= j < |c.items| && CameFrom(c.items[j], o.state.items[k], o.events, h.id) {
          assert Justified(c.items[j], log);
          JustifiedByOrigin(c.items[j], o.state.items[k], log, o.events, h.id);
        }
      } else {
        JustifiedGrows(rows[id].item, log, o.events);
      }
    }
  }

  /** One request on a checklist keeps everything that is promised of its stored form. */
  lemma {:induction false} MutateKeepsStored(h: Header, rows: Rows, next: int, log: seq<Event>, born: Header,
      m: Mutation)
    requires TableOk(rows, next) && StoredOk(h, rows, log, born) && DuplicateFree(m)
    requires Apply(Load(h, rows), m).Done?
    ensures var o := Apply(Load(h, rows), m);
            var s := SaveItems(rows, next, h.id, o.state.items);
            TableOk(s.rows, s.next) && StoredOk(o.state.head, s.rows, log + o.events, born)
  {
    var c := Load(h, rows);
    var o := Apply(c, m);
    var s := SaveItems(rows, next, h.id, o.state.items);
    var r := ReplayLog(AtBirth(born), log, h.id);
    ApplyIsSavable(h, rows, m);
    SaveGetRoundTrip(rows, next, h.id, o.state.items);
    ApplyKeepsLifecycle(c, m);
    ApplyKeepsHeader(c, m);
    LogAgreesMirrors(h, rows, r);
    EventsTellAll(c, m, r);
    ReplayConcat(AtBirth(born), log, o.events, h.id);
    NewItemsAreUnchecked(c, m);
    SavedLogAgrees(h, rows, next, r, c, ReplayLog(r, o.events, h.id), o.state, s);
    SavedJustified(h, rows, next, log, m, s);
    SavedIsLoaded(o.state, s.items, next, s.next);
  }

  lemma NewItemsAreUnchecked(c: ChecklistState, m: Mutation)
    requires Loaded(c) && Apply(c, m).Done?
    ensures var items := Apply(c, m).state.items;
            forall k :: 0 <= k < |items| && items[k].id == 0 ==> items[k].checkedBy.None?
  {
    var items := Apply(c, m).state.items;
    forall k | 0 <= k < |items| && items[k].id == 0
      ensures items[k].checkedBy.None?
    {
      ItemComesFrom(c, m, k);
    }
  }

  lemma SavedIsLoaded(c: ChecklistState, saved: seq<Item>, next: int, next': int)
    requires Lifecycle(c) && FreshIdsFilled(c.items, saved, next, next') && next > 0
    requires forall k :: 0 <= k < |c.items| ==> c.items[k].id >= 0
    ensures Loaded(c.(items := saved))
  {
  }
}
