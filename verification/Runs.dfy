/** Theorems about every run: any sequence of transactions, from an empty database on. */
module Runs {
  import opened Domain
  import opened ChecklistSpec
  import opened LifecycleLaw
  import opened ItemStore
  import opened Replay
  import opened Database
  import opened StoredLaw

  /** The database, and the rows of its checklists as they were created. */
  datatype World = World(db: Db, born: map<int, Header>)

  /** A checklist the database keeps as promised, given the row it was created with. */
  ghost predicate StoredIn(db: Db, id: int, born: Header) {
    && DbOk(db) && id in db.checklists
    && StoredOk(db.checklists[id], db.items, db.log, born)
  }

  ghost predicate WorldOk(w: World) {
    && DbOk(w.db)
    && w.born.Keys == w.db.checklists.Keys
    && forall id :: id in w.db.checklists ==> StoredIn(w.db, id, w.born[id])
  }

  function WorldStep(w: World, op: Op): World
    requires DbOk(w.db)
  {
    var db' := Step(w.db, op);
    World(db', map id | id in db'.checklists :: if id in w.born then w.born[id] else db'.checklists[id])
  }

  function Run(w: World, ops: seq<Op>): (w': World)
    requires DbOk(w.db)
    ensures DbOk(w'.db)
  {
    if |ops| == 0 then w else WorldStep(Run(w, ops[..|ops| - 1]), ops[|ops| - 1])
  }

  ghost predicate DuplicateFreeOp(op: Op) {
    op.MutateOp? ==> DuplicateFree(op.m)
  }

  const EMPTY: World := World(Db(map[], map[], [], [], {}, map[], 1, 1), map[])

  /** Rows and events of other checklists do not matter. */
  lemma StoredFrame(h: Header, rows: Rows, rows': Rows, log: seq<Event>, more: seq<Event>, born: Header)
    requires Keyed(rows) && Keyed(rows') && OwnRowsSame(rows, rows', h.id)
    requires forall id :: id in rows ==> id in rows'
    requires StoredOk(h, rows, log, born)
    requires forall k :: 0 <= k < |more| ==> more[k].checklistId != h.id
    ensures StoredOk(h, rows', log + more, born)
  {
    ReadDependsOnOwnRows(rows, rows', h.id);
    ReplayConcat(AtBirth(born), log, more, h.id);
    ReplayIgnoresOthers(ReplayLog(AtBirth(born), log, h.id), more, h.id);
    forall id | id in rows' && rows'[id].item.checklistId == h.id
      ensures Justified(rows'[id].item, log + more)
    {
      JustifiedGrows(rows[id].item, log, more);
    }
  }

  /** The row changes in its people only, and the log says so. */
  lemma StoredPeople(h: Header, h': Header, rows: Rows, log: seq<Event>, more: seq<Event>, born: Header)
    requires Keyed(rows) && StoredOk(h, rows, log, born)
    requires h' == h.(approverId := h'.approverId, assignedUserId := h'.assignedUserId)
    requires var r := ReplayLog(AtBirth(born), log, h.id);
             ReplayLog(r, more, h.id) == r.(assignee := h'.assignedUserId, approver := h'.approverId)
    ensures StoredOk(h', rows, log + more, born)
  {
    ReplayConcat(AtBirth(born), log, more, h.id);
    forall id | id in rows && rows[id].item.checklistId == h.id
      ensures Justified(rows[id].item, log + more)
    {
      JustifiedGrows(rows[id].item, log, more);
    }
  }

  lemma {:induction false} ReplayCleared(r: Replayed, tenant: int, user: int, ids: seq<int>, action: Action, cid: int)
    requires action == ApproverChanged || action == AssigneeChanged
    ensures ReplayLog(r, ClearedEvents(tenant, user, ids, action), cid) ==
            if cid !in ids then r
            else if action == ApproverChanged then r.(approver := None) else r.(assignee := None)
  {
    if |ids| == 0 {
    } else {
      var n := |ids| - 1;
      ReplayCleared(r, tenant, user, ids[..n], action, cid);
      assert ClearedEvents(tenant, user, ids, action)[..n] == ClearedEvents(tenant, user, ids[..n], action);
      assert ids == ids[..n] + [ids[n]];
    }
  }

  lemma ClearOnRow(db: Db, tenant: int, user: int, id: int)
    requires DbOk(db) && id in db.checklists && Clear(db, tenant, user).1.Ok?
    ensures var db' := Clear(db, tenant, user).0;
            var a, b := Returning(Approving(db, tenant, user)), Returning(Holding(db, tenant, user));
            var h := db.checklists[id];
            && id in db'.checklists && db'.items == db.items
            && db'.checklists[id] == h.(approverId := if id in a then None else h.approverId,
                                        assignedUserId := if id in b then None else h.assignedUserId)
            && db'.log == db.log + (ClearedEvents(tenant, user, a, ApproverChanged) +
                 ClearedEvents(tenant, user, b, AssigneeChanged))
  {
    var a, b := Returning(Approving(db, tenant, user)), Returning(Holding(db, tenant, user));
    var ea, eb := ClearedEvents(tenant, user, a, ApproverChanged), ClearedEvents(tenant, user, b, AssigneeChanged);
    assert db.log + ea + eb == db.log + (ea + eb);
  }

  lemma ClearKeepsStored(db: Db, tenant: int, user: int, id: int, born: Header)
    requires StoredIn(db, id, born)
    ensures StoredIn(Clear(db, tenant, user).0, id, born)
  {
    ClearKeepsDbOk(db, tenant, user);
    var db' := Clear(db, tenant, user).0;
    if Clear(db, tenant, user).1.Ok? {
      ClearOnRow(db, tenant, user, id);
      var a, b := Returning(Approving(db, tenant, user)), Returning(Holding(db, tenant, user));
      var ea, eb := ClearedEvents(tenant, user, a, ApproverChanged), ClearedEvents(tenant, user, b, AssigneeChanged);
      var r := ReplayLog(AtBirth(born), db.log, id);
      ReplayConcat(r, ea, eb, id);
      ReplayCleared(r, tenant, user, a, ApproverChanged, id);
      ReplayCleared(ReplayLog(r, ea, id), tenant, user, b, AssigneeChanged, id);
      StoredPeople(db.checklists[id], db'.checklists[id], db.items, db.log, ea + eb, born);
    }
  }

  lemma ClaimKeepsStored(db: Db, tenant: int, cid: int, user: int, expected: Option<int>, id: int, born: Header)
    requires StoredIn(db, id, born)
    ensures StoredIn(Claim(db, tenant, cid, user, expected).0, id, born)
  {
    var (db', res) := Claim(db, tenant, cid, user, expected);
    var e := ClaimedEvent(tenant, cid, user);
    if res == Ok(true) {
      ClaimedDbOk(db, tenant, cid, user, expected);
      if id == cid {
        ReplaySingle(ReplayLog(AtBirth(born), db.log, id), e, id);
        StoredPeople(db.checklists[id], db'.checklists[id], db.items, db.log, [e], born);
      } else {
        StoredFrame(db.checklists[id], db.items, db.items, db.log, [e], born);
      }
    }
  }

  lemma ClaimedDbOk(db: Db, tenant: int, cid: int, user: int, expected: Option<int>)
    requires DbOk(db)
    ensures DbOk(Claim(db, tenant, cid, user, expected).0)
  {
  }

  /** What a committed request did, in terms of Save. */
  lemma {:induction false} MutateEffect(db: Db, tenant: int, id: int, m: Mutation)
    requires DbOk(db) && Mutate(db, tenant, id, m).1.Ok?
    ensures Exists(db, tenant, id) && Apply(Load(db.checklists[id], db.items), m).Done?
    ensures var db' := Mutate(db, tenant, id, m).0;
            var o := Apply(Load(db.checklists[id], db.items), m);
            var s := SaveItems(db.items, db.nextItem, id, o.state.items);
            && db'.checklists == db.checklists[id := o.state.head]
            && db'.items == s.rows && db'.log == db.log + o.events && db'.nextItem == s.next
            && o.state.head == db.checklists[id].(status := o.state.head.status)
            && (forall k :: 0 <= k < |o.events| ==> o.events[k].checklistId == id)
  {
    ApplyKeepsHeader(Load(db.checklists[id], db.items), m);
    EventsAreOwn(Load(db.checklists[id], db.items), m);
  }

  lemma MutateFramesOthers(db: Db, tenant: int, id: int, m: Mutation, other: int)
    requires DbOk(db) && id in db.checklists && DuplicateFree(m) && Mutate(db, tenant, id, m).1.Ok?
    requires Represents(db.items, id, ReadItems(db.items, id)) && Loaded(Load(db.checklists[id], db.items))
    requires other in db.checklists && other != id
    ensures var db' := Mutate(db, tenant, id, m).0;
            && other in db'.checklists && db'.checklists[other] == db.checklists[other]
            && Keyed(db'.items) && OwnRowsSame(db.items, db'.items, other)
            && (forall k :: k in db.items ==> k in db'.items)
  {
    MutateEffect(db, tenant, id, m);
    var items := Apply(Load(db.checklists[id], db.items), m).state.items;
    ApplyIsSavable(db.checklists[id], db.items, m);
    SaveGetRoundTrip(db.items, db.nextItem, id, items);
    var s := SaveItems(db.items, db.nextItem, id, items);
    SavedFramesOthers(db.items, s.rows, id, s.items, other);
  }

  lemma MutateKeepsOthers(db: Db, tenant: int, id: int, m: Mutation, other: int, born: Header, bornOther: Header)
    requires StoredIn(db, id, born) && StoredIn(db, other, bornOther) && other != id
    requires DuplicateFree(m) && Mutate(db, tenant, id, m).1.Ok?
    ensures var db' := Mutate(db, tenant, id, m).0;
            && StoredIn(db', other, bornOther)
            && db'.checklists[other] == db.checklists[other]
            && ReadItems(db'.items, other) == ReadItems(db.items, other)
  {
    var db' := Mutate(db, tenant, id, m).0;
    MutateKeepsDbOk(db, tenant, id, m);
    MutateFramesOthers(db, tenant, id, m, other);
    MutateEffect(db, tenant, id, m);
    ReadDependsOnOwnRows(db.items, db'.items, other);
    StoredFrame(db.checklists[other], db.items, db'.items, db.log,
                Apply(Load(db.checklists[id], db.items), m).events, bornOther);
  }

  lemma MutateKeepsOwn(db: Db, tenant: int, id: int, m: Mutation, born: Header)
    requires StoredIn(db, id, born)
    requires DuplicateFree(m) && Mutate(db, tenant, id, m).1.Ok?
    ensures StoredIn(Mutate(db, tenant, id, m).0, id, born)
  {
    MutateKeepsDbOk(db, tenant, id, m);
    MutateEffect(db, tenant, id, m);
    MutateKeepsStored(db.checklists[id], db.items, db.nextItem, db.log, born, m);
  }

  lemma SavedFramesOthers(rows: Rows, rows': Rows, cid: int, saved: seq<Item>, other: int)
    requires Represents(rows', cid, saved) && OthersUntouched(rows, rows', cid, saved) && other != cid
    ensures OwnRowsSame(rows, rows', other)
    ensures forall id :: id in rows ==> id in rows'
  {
    forall id | id in rows && !HasId(saved, id)
      ensures id in rows' && (rows[id].item.checklistId == other ==> rows'[id] == rows[id])
    {
    }
    forall id | HasId(saved, id)
      ensures id in rows' && rows'[id].item.checklistId == cid
    {
      var k :| 0 <= k < |saved| && saved[k].id == id;
    }
    forall id | id in rows' && rows'[id].item.checklistId == other
      ensures id in rows && rows[id].item.checklistId == other
    {
      assert !HasId(saved, id);
    }
  }

  /** A creation writes the template's lines the way Save writes new items. */
  lemma InsertStoresLines(rows: Rows, next: int, cid: int, lines: seq<TemplateLine>)
    requires TableOk(rows, next) && forall id :: id in rows ==> rows[id].item.checklistId != cid
    ensures var s := InsertEach(rows, next, cid, NewItems(cid, lines));
            && TableOk(s.rows, s.next)
            && FreshIdsFilled(NewItems(cid, lines), s.items, next, s.next)
            && Represents(s.rows, cid, s.items) && ReadItems(s.rows, cid) == s.items
            && OthersUntouched(rows, s.rows, cid, s.items)
  {
    InsertIsSaveItems(rows, next, cid, lines);
    SaveGetRoundTrip(rows, next, cid, NewItems(cid, lines));
  }

  lemma InsertIsSaveItems(rows: Rows, next: int, cid: int, lines: seq<TemplateLine>)
    requires TableOk(rows, next) && forall id :: id in rows ==> rows[id].item.checklistId != cid
    ensures InsertEach(rows, next, cid, NewItems(cid, lines)) == SaveItems(rows, next, cid, NewItems(cid, lines))
  {
    var items := NewItems(cid, lines);
    InsertIsSave(rows, next, cid, lines, |lines|);
    assert items[..|lines|] == items;
    var s := SaveEach(rows, next, cid, items);
    forall id
      ensures id !in LiveIds(rows, cid)
    {
    }
    assert SoftDelete(s.rows, {}) == s.rows;
    assert LiveIds(rows, cid) - (set k | 0 <= k < |s.items| :: s.items[k].id) == {};
  }

  lemma CreatedReplay(h: Header, log: seq<Event>, e: Event)
    requires e.checklistId == h.id && e.action == Created
    requires forall k :: 0 <= k < |log| ==> log[k].checklistId != h.id
    ensures ReplayLog(AtBirth(h), log + [e], h.id) == AtBirth(h)
  {
    ReplayIgnoresOthers(AtBirth(h), log, h.id);
    ReplayConcat(AtBirth(h), log, [e], h.id);
    ReplaySingle(AtBirth(h), e, h.id);
  }

  /** What a creation that goes through does to the tables. */
  lemma CreateEffect(db: Db, n: NewChecklist, now: int)
    requires DbOk(db) && Create(db, n, now).1.Ok?
    ensures n.templateId in db.templates
    ensures var db' := Create(db, n, now).0;
            var id := db.nextChecklist;
            var s := InsertEach(db.items, db.nextItem, id, NewItems(id, db.templates[n.templateId].lines));
            && id !in db.checklists && db'.checklists.Keys == db.checklists.Keys + {id}
            && db'.checklists[id].id == id && db'.checklists[id].status == Open
            && db'.items == s.rows && db'.nextItem == s.next
            && db'.log == db.log + [Event(n.tenantId, id, None, n.creatorId, Created, NoDetail)]
            && (forall k :: k in db.items ==> db.items[k].item.checklistId != id)
            && (forall k :: 0 <= k < |db.log| ==> db.log[k].checklistId != id)
  {
  }

  lemma CreateStoresNew(db: Db, n: NewChecklist, now: int)
    requires DbOk(db) && Create(db, n, now).1.Ok?
    ensures var db' := Create(db, n, now).0;
            && db'.checklists.Keys == db.checklists.Keys + {db.nextChecklist}
            && StoredIn(db', db.nextChecklist, db'.checklists[db.nextChecklist])
  {
    CreateKeepsDbOk(db, n, now);
    CreateEffect(db, n, now);
    var db' := Create(db, n, now).0;
    var id := db.nextChecklist;
    NewStored(db'.checklists[id], db.items, db.nextItem, db.log, db'.log[|db.log|], db.templates[n.templateId].lines);
  }

  lemma NewStored(h: Header, rows: Rows, next: int, log: seq<Event>, e: Event, lines: seq<TemplateLine>)
    requires TableOk(rows, next) && h.status == Open && forall id :: id in rows ==> rows[id].item.checklistId != h.id
    requires e.checklistId == h.id && e.action == Created && forall k :: 0 <= k < |log| ==> log[k].checklistId != h.id
    ensures var rows' := InsertEach(rows, next, h.id, NewItems(h.id, lines)).rows;
            Keyed(rows') && StoredOk(h, rows', log + [e], h)
  {
    var s := InsertEach(rows, next, h.id, NewItems(h.id, lines));
    InsertStoresLines(rows, next, h.id, lines);
    CreatedReplay(h, log, e);
    NewRowsStored(h, rows, s.rows, next, s.next, log + [e], s.items, lines);
  }

  /** A new checklist starts with the template's lines, in order, unchecked, each in a row of its own. */
  lemma CreateCopiesTemplate(db: Db, n: NewChecklist, now: int)
    requires DbOk(db) && Create(db, n, now).1.Ok?
    ensures n.templateId in db.templates && Keyed(Create(db, n, now).0.items)
    ensures var db' := Create(db, n, now).0;
            var items := ReadItems(db'.items, db.nextChecklist);
            var lines := db.templates[n.templateId].lines;
            && |items| == |lines| && DistinctIds(items)
            && forall k :: 0 <= k < |lines| ==>
                 && items[k].name == lines[k].name && items[k].validationRef == lines[k].validationRef
                 && items[k].position == k && !items[k].checked && items[k].checkedBy.None? &&
                      items[k].assigneeOverride.None?
                 && items[k].id !in db.items
  {
    InsertStoresLines(db.items, db.nextItem, db.nextChecklist, db.templates[n.templateId].lines);
  }

  lemma InsertKeepsOthers(rows: Rows, next: int, cid: int, lines: seq<TemplateLine>, other: int)
    requires TableOk(rows, next) && (forall id :: id in rows ==> rows[id].item.checklistId != cid) && other != cid
    ensures var rows' := InsertEach(rows, next, cid, NewItems(cid, lines)).rows;
            && Keyed(rows') && OwnRowsSame(rows, rows', other) && (forall id :: id in rows ==> id in rows')
            && ReadItems(rows', other) == ReadItems(rows, other)
  {
    InsertStoresLines(rows, next, cid, lines);
    var s := InsertEach(rows, next, cid, NewItems(cid, lines));
    SavedFramesOthers(rows, s.rows, cid, s.items, other);
    ReadDependsOnOwnRows(rows, s.rows, other);
  }

  lemma CreateKeepsOthers(db: Db, n: NewChecklist, now: int, other: int, born: Header)
    requires StoredIn(db, other, born) && Create(db, n, now).1.Ok?
    ensures var db' := Create(db, n, now).0;
            && StoredIn(db', other, born)
            && db'.checklists[other] == db.checklists[other]
            && ReadItems(db'.items, other) == ReadItems(db.items, other)
  {
    CreateKeepsDbOk(db, n, now);
    var id := db.nextChecklist;
    var created := Event(n.tenantId, id, None, n.creatorId, Created, NoDetail);
    InsertKeepsOthers(db.items, db.nextItem, id, db.templates[n.templateId].lines, other);
    StoredFrame(db.checklists[other], db.items, Create(db, n, now).0.items, db.log, [created], born);
  }

  lemma NewRowsStored(h: Header, rows: Rows, rows': Rows, next: int, next': int, log: seq<Event>, saved: seq<Item>,
      lines: seq<TemplateLine>)
    requires TableOk(rows, next) && TableOk(rows', next') && h.status == Open
    requires forall id :: id in rows ==> rows[id].item.checklistId != h.id
    requires FreshIdsFilled(NewItems(h.id, lines), saved, next, next')
    requires Represents(rows', h.id, saved) && ReadItems(rows', h.id) == saved
    requires OthersUntouched(rows, rows', h.id, saved)
    requires ReplayLog(AtBirth(h), log, h.id) == AtBirth(h)
    ensures StoredOk(h, rows', log, h)
  {
    forall id | id in rows' && rows'[id].item.checklistId == h.id
      ensures HasId(saved, id)
      ensures Checker(AtBirth(h), id) == rows'[id].item.checkedBy && CheckFieldsAgree(rows'[id].item) &&
              !rows'[id].deleted
      ensures Justified(rows'[id].item, log)
    {
      var k :| 0 <= k < |saved| && saved[k].id == id;
      assert saved[k] == NewItems(h.id, lines)[k].(id := id);
    }
  }

  /** A request also rests on the checklist it is for. */
  ghost predicate TargetStored(db: Db, op: Op, born: Header) {
    op.MutateOp? && op.id in db.checklists ==> StoredIn(db, op.id, born)
  }

  lemma OpKeepsStored(db: Db, op: Op, id: int, born: Header, bornTarget: Header)
    requires StoredIn(db, id, born) && TargetStored(db, op, bornTarget) && DuplicateFreeOp(op)
    ensures StoredIn(Step(db, op), id, born)
  {
    match op
    case CreateOp(n, now) => CreateStepKeepsStored(db, n, now, id, born);
    case MutateOp(tenant, cid, m) => MutateStepKeepsStored(db, tenant, cid, m, id, born, bornTarget);
    case ClaimOp(tenant, cid, user, expected) => ClaimKeepsStored(db, tenant, cid, user, expected, id, born);
    case ClearOp(tenant, user) => ClearKeepsStored(db, tenant, user, id, born);
    case TablesOp(members, templates) => TablesKeepStored(db, members, templates, id, born);
  }

  lemma StepKeepsStored(w: World, op: Op, id: int)
    requires WorldOk(w) && DuplicateFreeOp(op) && id in w.db.checklists
    ensures id in w.born && StoredIn(Step(w.db, op), id, w.born[id])
  {
    WorldStores(w, id);
    var target := if op.MutateOp? && op.id in w.db.checklists then op.id else id;
    WorldStores(w, target);
    OpKeepsStored(w.db, op, id, w.born[id], w.born[target]);
  }

  lemma WorldStores(w: World, id: int)
    requires WorldOk(w) && id in w.db.checklists
    ensures id in w.born && StoredIn(w.db, id, w.born[id])
  {
  }

  lemma CreateStepKeepsStored(db: Db, n: NewChecklist, now: int, id: int, born: Header)
    requires StoredIn(db, id, born)
    ensures StoredIn(Create(db, n, now).0, id, born)
  {
    if Create(db, n, now).1.Ok? {
      CreateKeepsOthers(db, n, now, id, born);
    } else {
      assert Create(db, n, now).0 == db;
    }
  }

  lemma TablesKeepStored(db: Db, members: set<(int, int)>, templates: map<int, TemplateInfo>, id: int, born: Header)
    requires StoredIn(db, id, born)
    ensures StoredIn(db.(members := members, templates := templates), id, born)
  {
  }

  lemma MutateStepKeepsStored(db: Db, tenant: int, cid: int, m: Mutation, id: int, born: Header, bornTarget: Header)
    requires StoredIn(db, id, born) && DuplicateFree(m)
    requires cid in db.checklists ==> StoredIn(db, cid, bornTarget)
    ensures StoredIn(Mutate(db, tenant, cid, m).0, id, born)
  {
    if Mutate(db, tenant, cid, m).1.Ok? {
      MutateEffect(db, tenant, cid, m);
      if cid == id {
        MutateKeepsOwn(db, tenant, id, m, born);
      } else {
        MutateKeepsOthers(db, tenant, cid, m, id, bornTarget, born);
      }
    } else {
      RefusalChangesNothing(db, tenant, cid, m);
    }
  }

  lemma RefusalChangesNothing(db: Db, tenant: int, id: int, m: Mutation)
    requires DbOk(db) && Mutate(db, tenant, id, m).1.Err?
    ensures Mutate(db, tenant, id, m).0 == db
  {
  }

  /** Only a creation adds a checklist, and it adds a stored one. */
  lemma StepAddsStored(db: Db, op: Op, id: int)
    requires DbOk(db) && id !in db.checklists && id in Step(db, op).checklists
    ensures StoredIn(Step(db, op), id, Step(db, op).checklists[id])
  {
    match op
    case CreateOp(n, now) =>
      CreateStoresNew(db, n, now);
    case MutateOp(tenant, cid, m) =>
      MutateEffect(db, tenant, cid, m);
      assert false;
    case _ =>
      assert false;
  }

  lemma {:induction false} StepKeepsWorld(w: World, op: Op)
    requires WorldOk(w) && DuplicateFreeOp(op)
    ensures WorldOk(WorldStep(w, op))
  {
    var w' := WorldStep(w, op);
    forall id | id in w'.db.checklists
      ensures StoredIn(w'.db, id, w'.born[id])
    {
      if id in w.db.checklists {
        StepKeepsStored(w, op, id);
      } else {
        StepAddsStored(w.db, op, id);
      }
    }
  }

  lemma {:induction false} RunKeepsWorld(w: World, ops: seq<Op>)
    requires WorldOk(w) && forall k :: 0 <= k < |ops| ==> DuplicateFreeOp(ops[k])
    ensures WorldOk(Run(w, ops))
  {
    if |ops| == 0 {
    } else {
      RunKeepsWorld(w, ops[..|ops| - 1]);
      StepKeepsWorld(Run(w, ops[..|ops| - 1]), ops[|ops| - 1]);
    }
  }
}
