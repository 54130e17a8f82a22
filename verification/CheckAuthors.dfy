/** Every check mark in the database goes back to someone who had the right to set it, over whole runs. */
module CheckAuthors {
  import opened Domain
  import opened ChecklistSpec
  import opened LifecycleLaw
  import opened ItemStore
  import opened Database
  import opened StoredLaw
  import opened Requests
  import opened Runs
  import opened RunLaws

  /** The item's row, deleted or not, names user as its checker. */
  predicate CheckedBy(db: Db, id: int, itemId: int, user: int) {
    && itemId in db.items && db.items[itemId].item.checklistId == id
    && db.items[itemId].item.checkedBy == Some(user)
  }

  /** The transaction is a check by the item's responsible user while open, or the creator's override. */
  ghost predicate Checks(c: ChecklistState, op: Op, itemId: int, user: int) {
    && op.MutateOp? && op.id == c.head.id && op.m.actor == user && OnList(c.items, itemId)
    && match op.m
       case DoCheckItem(x, _, _) => x == itemId && c.head.status == Open && MayCheck(c, itemId, user)
       case DoSetItemChecked(_, x, checked, _) => x == itemId && checked && c.head.creatorId == user
       case _ => false
  }

  /** The request itself is such a check. */
  ghost predicate Rightful(c: ChecklistState, m: Mutation, itemId: int) {
    forall tenant :: Checks(c, MutateOp(tenant, c.head.id, m), itemId, m.actor)
  }

  ghost predicate WithChecker(items: seq<Item>, id: int, checker: Option<int>) {
    exists j :: 0 <= j < |items| && items[j].id == id && items[j].checkedBy == checker
  }

  ghost predicate CheckerExplained(c: ChecklistState, m: Mutation, item: Item) {
    || item.checkedBy == None
    || WithChecker(c.items, item.id, item.checkedBy)
    || (item.checkedBy == Some(m.actor) && Rightful(c, m, item.id))
  }

  lemma MovedItems(c: ChecklistState, m: Mutation, c': ChecklistState, k: int)
    requires Leaves(c, m, c') && (m.DoRemoveItem? || m.DoReorder?) && 0 <= k < |c'.items|
    ensures WithChecker(c.items, c'.items[k].id, c'.items[k].checkedBy)
  {
    if m.DoReorder? {
      assert IsAmong(c.items, c'.items[k], k);
      var j :| 0 <= j < |c.items| && c'.items[k] == At(c.items[j], k);
    } else {
      var i :| 0 <= i < |c.items| && c.items[i].id == m.itemId && |c'.items| == |c.items| - 1
               && forall j :: 0 <= j < |c'.items| ==> c'.items[j] == At(c.items[if j < i then j else j + 1], j);
      assert c'.items[k] == At(c.items[if k < i then k else k + 1], k);
    }
  }

  lemma StandingItems(c: ChecklistState, m: Mutation, c': ChecklistState, k: int)
    requires Leaves(c, m, c') && Accepted(c, m) && 0 <= k < |c'.items| && !m.DoRemoveItem? && !m.DoReorder?
    ensures CheckerExplained(c, m, c'.items[k])
  {
    if k < |c.items| {
      assert c.items[k].id == c'.items[k].id;
      assert OnList(c.items, c'.items[k].id);
      if c'.items[k].checkedBy != c.items[k].checkedBy && c'.items[k].checkedBy.Some? {
        assert m.DoCheckItem? || m.DoSetItemChecked?;
        assert m.itemId == c'.items[k].id;
      }
    }
  }

  /** In memory: an item is unchecked, or has the checker it had, or was checked by this request rightfully. */
  lemma {:induction false} CheckerComesFrom(c: ChecklistState, m: Mutation, k: int)
    requires Lifecycle(c) && Apply(c, m).Done? && 0 <= k < |Apply(c, m).state.items|
    ensures CheckerExplained(c, m, Apply(c, m).state.items[k])
  {
    var c' := Apply(c, m).state;
    AcceptedExactly(c, m);
    ResultItemByItem(c, m);
    if m.DoRemoveItem? || m.DoReorder? {
      MovedItems(c, m, c', k);
    } else {
      StandingItems(c, m, c', k);
    }
  }

  lemma NotWithChecker(rows: Rows, cid: int, itemId: int, user: int)
    requires Keyed(rows)
    requires itemId in rows && rows[itemId].item.checklistId == cid ==> rows[itemId].item.checkedBy != Some(user)
    ensures !WithChecker(ReadItems(rows, cid), itemId, Some(user))
  {
    var items := ReadItems(rows, cid);
    forall j | 0 <= j < |items| && items[j].id == itemId
      ensures items[j].checkedBy != Some(user)
    {
      assert items[j] in items;
    }
  }

  /** A checker that Save wrote is one of the list it was handed. */
  lemma WrittenChecker(
    rows: Rows, next: int, cid: int, items: seq<Item>, s: Saved, itemId: int, user: int) returns (k: int)
    requires TableOk(rows, next) && FreshIdsFilled(items, s.items, next, s.next)
    requires Represents(s.rows, cid, s.items) && OthersUntouched(rows, s.rows, cid, s.items)
    requires forall j :: 0 <= j < |items| && items[j].id == 0 ==> items[j].checkedBy.None?
    requires itemId in s.rows && s.rows[itemId].item.checklistId == cid && s.rows[itemId].item.checkedBy == Some(user)
    requires itemId in rows && rows[itemId].item.checklistId == cid ==> rows[itemId].item.checkedBy != Some(user)
    ensures 0 <= k < |items| && items[k].id == itemId && items[k].checkedBy == Some(user)
  {
    assert HasId(s.items, itemId);
    k :| 0 <= k < |s.items| && s.items[k].id == itemId;
  }

  lemma SavedRow(h: Header, rows: Rows, next: int, m: Mutation, itemId: int, user: int)
    requires TableOk(rows, next) && Represents(rows, h.id, ReadItems(rows, h.id)) && Loaded(Load(h, rows))
    requires DuplicateFree(m) && Apply(Load(h, rows), m).Done?
    requires var s := SaveItems(rows, next, h.id, Apply(Load(h, rows), m).state.items);
             itemId in s.rows && s.rows[itemId].item.checklistId == h.id && s.rows[itemId].item.checkedBy == Some(user)
    requires itemId in rows && rows[itemId].item.checklistId == h.id ==> rows[itemId].item.checkedBy != Some(user)
    ensures m.actor == user && Rightful(Load(h, rows), m, itemId)
  {
    var c, items := Load(h, rows), Apply(Load(h, rows), m).state.items;
    var s := SaveItems(rows, next, h.id, items);
    ApplyIsSavable(h, rows, m);
    SaveGetRoundTrip(rows, next, h.id, items);
    NewItemsAreUnchecked(c, m);
    var k := WrittenChecker(rows, next, h.id, items, s, itemId, user);
    CheckerComesFrom(c, m, k);
    NotWithChecker(rows, h.id, itemId, user);
  }

  lemma NewlyCheckedBy(db: Db, op: Op, id: int, itemId: int, user: int, born: Header)
    requires StoredIn(db, id, born) && op.MutateOp? && op.id == id && DuplicateFreeOp(op)
    requires !CheckedBy(db, id, itemId, user) && CheckedBy(Step(db, op), id, itemId, user)
    ensures Checks(Load(db.checklists[id], db.items), op, itemId, user)
  {
    if Mutate(db, op.tenant, id, op.m).1.Ok? {
      MutateEffect(db, op.tenant, id, op.m);
      SavedRow(db.checklists[id], db.items, db.nextItem, op.m, itemId, user);
    } else {
      RefusalChangesNothing(db, op.tenant, id, op.m);
    }
  }

  /** Of all transactions only such a check makes user the checker of the item. */
  lemma {:induction false} StepChecks(w: World, op: Op, id: int, itemId: int, user: int)
    requires WorldOk(w) && DuplicateFreeOp(op)
    requires !CheckedBy(w.db, id, itemId, user) && CheckedBy(Step(w.db, op), id, itemId, user)
    ensures id in w.db.checklists && Checks(Current(w, id), op, itemId, user)
  {
    if id in w.db.checklists {
      WorldStores(w, id);
      if op.MutateOp? && op.id == id {
        NewlyCheckedBy(w.db, op, id, itemId, user, w.born[id]);
      } else {
        OthersKeepRows(w, op, id);
      }
    } else {
      NewAreUnchecked(w.db, op, id, itemId);
    }
  }

  lemma MutateKeepsRows(db: Db, tenant: int, cid: int, m: Mutation, id: int, born: Header)
    requires DbOk(db) && DuplicateFree(m) && id in db.checklists && cid != id
    requires cid in db.checklists ==> StoredIn(db, cid, born)
    ensures OwnRowsSame(db.items, Mutate(db, tenant, cid, m).0.items, id)
  {
    if Mutate(db, tenant, cid, m).1.Ok? {
      MutateEffect(db, tenant, cid, m);
      MutateFramesOthers(db, tenant, cid, m, id);
    } else {
      RefusalChangesNothing(db, tenant, cid, m);
    }
  }

  lemma CreateKeepsRows(db: Db, n: NewChecklist, now: int, id: int)
    requires DbOk(db) && id in db.checklists
    ensures OwnRowsSame(db.items, Create(db, n, now).0.items, id)
  {
    if Create(db, n, now).1.Ok? {
      CreateEffect(db, n, now);
      InsertKeepsOthers(db.items, db.nextItem, db.nextChecklist, db.templates[n.templateId].lines, id);
    }
  }

  lemma PeopleKeepRows(db: Db, op: Op)
    requires DbOk(db) && (op.ClaimOp? || op.ClearOp? || op.TablesOp?)
    ensures Step(db, op).items == db.items
  {
  }

  lemma OpKeepsRows(db: Db, op: Op, id: int, born: Header)
    requires DbOk(db) && DuplicateFreeOp(op) && id in db.checklists && !(op.MutateOp? && op.id == id)
    requires TargetStored(db, op, born)
    ensures OwnRowsSame(db.items, Step(db, op).items, id)
  {
    match op
    case MutateOp(tenant, cid, m) => MutateKeepsRows(db, tenant, cid, m, id, born);
    case CreateOp(n, now) => CreateKeepsRows(db, n, now, id);
    case _ => PeopleKeepRows(db, op);
  }

  /** Transactions on other checklists leave this one's item rows alone. */
  lemma OthersKeepRows(w: World, op: Op, id: int)
    requires WorldOk(w) && DuplicateFreeOp(op) && id in w.db.checklists && !(op.MutateOp? && op.id == id)
    ensures OwnRowsSame(w.db.items, Step(w.db, op).items, id)
  {
    var target := if op.MutateOp? && op.id in w.db.checklists then op.id else id;
    WorldStores(w, target);
    OpKeepsRows(w.db, op, id, w.born[target]);
  }

  /** A new checklist has no checkers. */
  lemma NewAreUnchecked(db: Db, op: Op, id: int, itemId: int)
    requires DbOk(db) && id !in db.checklists
    ensures itemId in Step(db, op).items && Step(db, op).items[itemId].item.checklistId == id ==>
              Step(db, op).items[itemId].item.checkedBy == None
  {
    match op
    case CreateOp(n, now) =>
      if Create(db, n, now).1.Ok? {
        CreateEffect(db, n, now);
        var lines := db.templates[n.templateId].lines;
        InsertedUnchecked(db.items, db.nextItem, db.nextChecklist, lines, id, itemId);
      }
    case MutateOp(tenant, cid, m) =>
      if Mutate(db, tenant, cid, m).1.Ok? {
        MutateEffect(db, tenant, cid, m);
      }
    case _ =>
  }

  lemma InsertedUnchecked(rows: Rows, next: int, cid: int, lines: seq<TemplateLine>, id: int, itemId: int)
    requires TableOk(rows, next) && forall x :: x in rows ==> rows[x].item.checklistId != cid
    requires forall x :: x in rows ==> rows[x].item.checklistId != id
    ensures var rows' := InsertEach(rows, next, cid, NewItems(cid, lines)).rows;
            itemId in rows' && rows'[itemId].item.checklistId == id ==> rows'[itemId].item.checkedBy == None
  {
    InsertStoresLines(rows, next, cid, lines);
    var s := InsertEach(rows, next, cid, NewItems(cid, lines));
    if itemId in s.rows && itemId !in rows {
      var k :| 0 <= k < |s.items| && s.items[k].id == itemId;
    }
  }

  /** Transaction number at of the run is such a check. */
  ghost predicate CheckedAt(w: World, ops: seq<Op>, id: int, itemId: int, user: int, at: int)
    requires DbOk(w.db)
  {
    && 0 <= at < |ops| && id in Run(w, ops[..at]).db.checklists
    && Checks(Current(Run(w, ops[..at]), id), ops[at], itemId, user)
    && CheckedBy(Run(w, ops[..at + 1]).db, id, itemId, user)
  }

  lemma CheckedBefore(w: World, ops: seq<Op>, id: int, itemId: int, user: int, at: int)
    requires DbOk(w.db) && |ops| > 0 && CheckedAt(w, ops[..|ops| - 1], id, itemId, user, at)
    ensures CheckedAt(w, ops, id, itemId, user, at)
  {
    assert ops[..|ops| - 1][..at] == ops[..at] && ops[..|ops| - 1][..at + 1] == ops[..at + 1];
  }

  lemma CheckedLast(w: World, ops: seq<Op>, id: int, itemId: int, user: int)
    requires DbOk(w.db) && |ops| > 0 && id in Run(w, ops[..|ops| - 1]).db.checklists
    requires Checks(Current(Run(w, ops[..|ops| - 1]), id), ops[|ops| - 1], itemId, user)
    requires CheckedBy(Run(w, ops).db, id, itemId, user)
    ensures CheckedAt(w, ops, id, itemId, user, |ops| - 1)
  {
    assert ops[..|ops| - 1 + 1] == ops;
  }

  /**
   In any run, whoever has become the checker of an item, also of one that was removed since,
   checked it in some transaction of the run that went through, as the responsible user of an
   open checklist or as its creator.
   */
  lemma {:induction false} CheckerHadTheRight(w: World, ops: seq<Op>, id: int, itemId: int, user: int)
    returns (at: int)
    requires WorldOk(w) && forall k :: 0 <= k < |ops| ==> DuplicateFreeOp(ops[k])
    requires !CheckedBy(w.db, id, itemId, user) && CheckedBy(Run(w, ops).db, id, itemId, user)
    ensures CheckedAt(w, ops, id, itemId, user, at)
  {
    var n := |ops| - 1;
    if CheckedBy(Run(w, ops[..n]).db, id, itemId, user) {
      at := CheckerHadTheRight(w, ops[..n], id, itemId, user);
      CheckedBefore(w, ops, id, itemId, user, at);
    } else {
      at := n;
      RunKeepsWorld(w, ops[..n]);
      StepChecks(Run(w, ops[..n]), ops[n], id, itemId, user);
      CheckedLast(w, ops, id, itemId, user);
    }
  }
}
