/** What the runs mean for a reader of one checklist: its faithful log, and the one unsafe request. */
module RunLaws {
  import opened Domain
  import opened Finite
  import opened ChecklistSpec
  import opened LifecycleLaw
  import opened ItemStore
  import opened Replay
  import opened Database
  import opened StoredLaw
  import opened Reordering
  import opened Runs

  /** A checklist as a request finds it. */
  function Current(w: World, id: int): ChecklistState
    requires DbOk(w.db) && id in w.db.checklists
  {
    Load(w.db.checklists[id], w.db.items)
  }

  /**
   In every reachable state each checklist keeps the lifecycle, and folding its events over
   the row it was created with gives back its status, its people, the checker of every item
   row it ever had, and which of those rows are soft-deleted; every override names a user
   some earlier event has checking that very item.
   */
  lemma {:induction false} EveryRunIsFaithful(ops: seq<Op>, id: int)
    requires forall k :: 0 <= k < |ops| ==> DuplicateFreeOp(ops[k])
    requires id in Run(EMPTY, ops).db.checklists
    ensures var w := Run(EMPTY, ops);
            var h := w.db.checklists[id];
            && id in w.born && Lifecycle(Current(w, id))
            && var r := ReplayLog(AtBirth(w.born[id]), w.db.log, id);
            && r.status == h.status && r.assignee == h.assignedUserId && r.approver == h.approverId
            && (forall k :: k in w.db.items && w.db.items[k].item.checklistId == id ==>
                 && Checker(r, k) == w.db.items[k].item.checkedBy
                 && w.db.items[k].item.checked == (k in r.checkedBy)
                 && w.db.items[k].deleted == (k in r.removed)
                 && (w.db.items[k].item.assigneeOverride.Some? ==>
                      CheckLogged(w.db.log, id, k, w.db.items[k].item.assigneeOverride.value)))
  {
    RunKeepsWorld(EMPTY, ops);
  }

  // ---- The unsafe request: a reorder that repeats an id ----

  lemma {:induction false} SaveEachOfOld(rows: Rows, next: int, cid: int, items: seq<Item>)
    requires forall k :: 0 <= k < |items| ==> items[k].id != 0 && items[k].id in rows
    ensures var s := SaveEach(rows, next, cid, items);
            && s.items == items && s.rows.Keys == rows.Keys
            && (|items| > 0 ==> s.rows[items[|items| - 1].id].item.position == items[|items| - 1].position)
            && forall id :: id in rows ==>
                 s.rows[id].item.checklistId == rows[id].item.checklistId && s.rows[id].deleted == rows[id].deleted
  {
    if |items| == 0 {
    } else {
      SaveEachOfOld(rows, next, cid, items[..|items| - 1]);
    }
  }

  lemma ArrangedIds(rows: Rows, cid: int, items: seq<Item>, order: seq<int>)
    requires Keyed(rows) && (forall id :: id in rows ==> id > 0)
    requires Represents(rows, cid, items) && AllFound(items, order)
    ensures var arranged := Arrange(items, order);
            forall k :: 0 <= k < |order| ==>
              arranged[k].id == order[k] && order[k] != 0 && order[k] in LiveIds(rows, cid)
  {
    forall k | 0 <= k < |order|
      ensures Arrange(items, order)[k].id == order[k] && order[k] != 0 && order[k] in LiveIds(rows, cid)
    {
      assert FindById(items, order[k]).Some?;
      var j :| 0 <= j < |items| && items[j] == FindById(items, order[k]).value;
    }
  }

  /** Which rows are live after an accepted reorder is saved: the ids named, nothing else. */
  lemma ArrangedRows(rows: Rows, next: int, cid: int, items: seq<Item>, order: seq<int>)
    requires TableOk(rows, next) && Represents(rows, cid, items) && AllFound(items, order)
    ensures var s := SaveItems(rows, next, cid, Arrange(items, order));
            && s.rows.Keys == rows.Keys
            && LiveIds(s.rows, cid) == Elements(order)
            && (forall id :: id in rows ==> s.rows[id].item.checklistId == rows[id].item.checklistId)
            && (|order| > 0 ==> order[|order| - 1] in rows && s.rows[order[|order| - 1]].item.position == |order| - 1)
  {
    ArrangedIds(rows, cid, items, order);
    SavedOrder(rows, next, cid, Arrange(items, order), order);
  }

  lemma SavedOrder(rows: Rows, next: int, cid: int, items: seq<Item>, order: seq<int>)
    requires |items| == |order|
    requires forall k :: 0 <= k < |order| ==>
               items[k].id == order[k] && items[k].position == k && order[k] != 0 && order[k] in LiveIds(rows, cid)
    ensures var s := SaveItems(rows, next, cid, items);
            && s.rows.Keys == rows.Keys
            && LiveIds(s.rows, cid) == Elements(order)
            && (forall id :: id in rows ==> s.rows[id].item.checklistId == rows[id].item.checklistId)
            && (|order| > 0 ==> order[|order| - 1] in rows && s.rows[order[|order| - 1]].item.position == |order| - 1)
  {
    SaveEachOfOld(rows, next, cid, items);
    IdsOfOrder(items, order);
    KeptStayLive(rows, SaveEach(rows, next, cid, items).rows, cid, set k | 0 <= k < |items| :: items[k].id);
  }

  lemma IdsOfOrder(items: seq<Item>, order: seq<int>)
    requires |items| == |order| && forall k :: 0 <= k < |order| ==> items[k].id == order[k]
    ensures (set k | 0 <= k < |items| :: items[k].id) == Elements(order)
  {
    var ids := set k | 0 <= k < |items| :: items[k].id;
    forall x | x in order
      ensures x in ids
    {
      var k :| 0 <= k < |order| && order[k] == x;
      assert items[k].id == x;
    }
  }

  lemma KeptStayLive(rows: Rows, rows': Rows, cid: int, kept: set<int>)
    requires rows'.Keys == rows.Keys && kept <= LiveIds(rows, cid)
    requires forall id :: id in rows ==>
               rows'[id].item.checklistId == rows[id].item.checklistId && rows'[id].deleted == rows[id].deleted
    ensures LiveIds(SoftDelete(rows', LiveIds(rows, cid) - kept), cid) == kept
  {
    var r := SoftDelete(rows', LiveIds(rows, cid) - kept);
    forall x
      ensures x in LiveIds(r, cid) <==> x in kept
    {
      assert x in kept ==> x in LiveIds(rows, cid);
    }
  }

  /**
   Of all requests only a reorder can break what every run relies on, and it does exactly
   when the requested order repeats an id: then the positions have a gap, and the log knows
   nothing of the item that was soft-deleted.
   */
  lemma {:induction false} ReorderIsSafeExactlyWithoutDuplicates(w: World, tenant: int, id: int, actor: int,
      order: seq<int>)
    requires WorldOk(w) && Mutate(w.db, tenant, id, DoReorder(actor, order)).1.Ok?
    ensures var w' := WorldStep(w, MutateOp(tenant, id, DoReorder(actor, order)));
            && id in w'.born && id in w'.db.checklists
            && (Lifecycle(Current(w', id)) <==> NoDuplicates(order))
            && (LogAgrees(w'.db.checklists[id], w'.db.items, ReplayLog(AtBirth(w'.born[id]), w'.db.log, id)) <==>
                 NoDuplicates(order))
  {
    var op := MutateOp(tenant, id, DoReorder(actor, order));
    MutateEffect(w.db, tenant, id, DoReorder(actor, order));
    KeepsBorn(w, op, id);
    if NoDuplicates(order) {
      StepKeepsStored(w, op, id);
    } else {
      assert StoredIn(w.db, id, w.born[id]);
      ReorderBreaksBoth(w.db, tenant, id, actor, order, w.born[id]);
    }
  }

  lemma KeepsBorn(w: World, op: Op, id: int)
    requires DbOk(w.db) && id in w.born && id in Step(w.db, op).checklists
    ensures id in WorldStep(w, op).born && WorldStep(w, op).born[id] == w.born[id]
  {
  }

  lemma ReorderBreaksBoth(db: Db, tenant: int, id: int, actor: int, order: seq<int>, born: Header)
    requires StoredIn(db, id, born) && Mutate(db, tenant, id, DoReorder(actor, order)).1.Ok? && !NoDuplicates(order)
    ensures var db' := Mutate(db, tenant, id, DoReorder(actor, order)).0;
            && id in db'.checklists && Keyed(db'.items)
            && !Lifecycle(Load(db'.checklists[id], db'.items))
            && !LogAgrees(db'.checklists[id], db'.items, ReplayLog(AtBirth(born), db'.log, id))
  {
    MutateEffect(db, tenant, id, DoReorder(actor, order));
    DuplicatesBreakBoth(db.checklists[id], db.items, db.nextItem, db.log, born, actor, order);
  }

  lemma DuplicatesBreakBoth(h: Header, rows: Rows, next: int, log: seq<Event>, born: Header, actor: int,
      order: seq<int>)
    requires TableOk(rows, next) && StoredOk(h, rows, log, born)
    requires ReorderItems(Load(h, rows), actor, order).Done? && !NoDuplicates(order)
    ensures var o := ReorderItems(Load(h, rows), actor, order);
            var rows' := SaveItems(rows, next, h.id, o.state.items).rows;
            && Keyed(rows') && !Lifecycle(Load(o.state.head, rows'))
            && !LogAgrees(o.state.head, rows', ReplayLog(AtBirth(born), log + o.events, h.id))
  {
    var c := Load(h, rows);
    var lost := LostItem(c, actor, order);
    DuplicatesLeaveGap(rows, next, h.id, c.items, order);
    DuplicatesLoseItem(h, rows, next, log, born, c.items, actor, order, lost);
  }

  lemma DuplicatesLeaveGap(rows: Rows, next: int, cid: int, items: seq<Item>, order: seq<int>)
    requires TableOk(rows, next) && Represents(rows, cid, items) && AllFound(items, order) && !NoDuplicates(order)
    ensures var rows' := SaveItems(rows, next, cid, Arrange(items, order)).rows;
            Keyed(rows') && !WellFormedItems(cid, ReadItems(rows', cid))
  {
    SaveEachKeepsTable(rows, next, cid, Arrange(items, order));
    ArrangedRows(rows, next, cid, items, order);
    GapInPositions(SaveItems(rows, next, cid, Arrange(items, order)).rows, cid, order);
  }

  lemma DuplicatesLoseItem(h: Header, rows: Rows, next: int, log: seq<Event>, born: Header, items: seq<Item>,
      actor: int, order: seq<int>, lost: int)
    requires TableOk(rows, next) && Represents(rows, h.id, items) && AllFound(items, order)
    requires LogAgrees(h, rows, ReplayLog(AtBirth(born), log, h.id))
    requires lost in IdSet(items) && lost !in Elements(order)
    ensures var events := [ChecklistEvent(h, actor, ItemsReordered)] + ReopenEvents(h, actor);
            var rows' := SaveItems(rows, next, h.id, Arrange(items, order)).rows;
            !LogAgrees(h.(status := Open), rows', ReplayLog(AtBirth(born), log + events, h.id))
  {
    LiveIdsAreItemIds(rows, h.id, items);
    ArrangedRows(rows, next, h.id, items, order);
    LostItemIsNotLogged(h, rows, SaveItems(rows, next, h.id, Arrange(items, order)).rows, log, born, actor, lost);
  }

  lemma LostItem(c: ChecklistState, actor: int, order: seq<int>) returns (lost: int)
    requires DistinctIds(c.items) && ReorderItems(c, actor, order).Done? && !NoDuplicates(order)
    ensures lost in IdSet(c.items) && lost !in Elements(order)
  {
    ReorderIsPermutation(c, actor, order);
    var k :| 0 <= k < |c.items| && c.items[k].id !in order;
    lost := c.items[k].id;
  }

  lemma GapInPositions(rows: Rows, id: int, order: seq<int>)
    requires Keyed(rows) && LiveIds(rows, id) == Elements(order) && !NoDuplicates(order)
    requires order[|order| - 1] in rows && rows[order[|order| - 1]].item.position == |order| - 1
    ensures !WellFormedItems(id, ReadItems(rows, id))
  {
    var items := ReadItems(rows, id);
    var n := |order|;
    var last := order[n - 1];
    assert last in LiveIds(rows, id);
    assert rows[last].item in LiveItems(rows, id);
    var j :| 0 <= j < |items| && items[j] == rows[last].item;
    if WellFormedItems(id, items) {
      assert j == n - 1;
      var ids := Ids(items);
      DuplicateFreeByCount(ids);
      DuplicateFreeByCount(order);
      forall x | x in ids
        ensures x in Elements(order)
      {
        var k :| 0 <= k < |ids| && ids[k] == x;
        assert items[k] in items;
      }
      SubsetSize(Elements(ids), Elements(order));
    }
  }

  /** The reorder's own events mention no item, so a row it soft-deletes is live in the log. */
  lemma LostItemIsNotLogged(h: Header, rows: Rows, rows': Rows, log: seq<Event>, born: Header, actor: int, lost: int)
    requires Keyed(rows) && LogAgrees(h, rows, ReplayLog(AtBirth(born), log, h.id))
    requires lost in LiveIds(rows, h.id) && lost in rows' && lost !in LiveIds(rows', h.id)
    requires rows'[lost].item.checklistId == h.id
    ensures var events := [ChecklistEvent(h, actor, ItemsReordered)] + ReopenEvents(h, actor);
            !LogAgrees(h.(status := Open), rows', ReplayLog(AtBirth(born), log + events, h.id))
  {
    var events := [ChecklistEvent(h, actor, ItemsReordered)] + ReopenEvents(h, actor);
    ReorderRemovesNothing(h, ReplayLog(AtBirth(born), log, h.id), actor);
    ReplayConcat(AtBirth(born), log, events, h.id);
    assert lost !in ReplayLog(AtBirth(born), log + events, h.id).removed;
    assert rows'[lost].deleted;
  }

  lemma ReorderRemovesNothing(h: Header, r: Replayed, actor: int)
    requires r.status == h.status
    ensures var events := [ChecklistEvent(h, actor, ItemsReordered)] + ReopenEvents(h, actor);
            ReplayLog(r, events, h.id).removed == r.removed
  {
    ReplayOverride(r, h, ChecklistEvent(h, actor, ItemsReordered), actor);
  }
}
