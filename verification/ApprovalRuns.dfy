/** The approval protocol over whole runs, with every other transaction of the database in between. */
module ApprovalRuns {
  import opened Domain
  import opened ChecklistSpec
  import opened LifecycleLaw
  import opened ItemStore
  import opened Database
  import opened StoredLaw
  import opened Approval
  import opened Runs
  import opened RunLaws

  predicate Targets(op: Op, id: int) {
    op.MutateOp? && op.id == id
  }

  /** What a transaction that is not a request on this checklist may do to it: change its people. */
  ghost predicate OnlyPeopleChanged(c: ChecklistState, c': ChecklistState) {
    && c'.items == c.items
    && c'.head == c.head.(approverId := c'.head.approverId, assignedUserId := c'.head.assignedUserId)
    && (c'.head.approverId == c.head.approverId || c'.head.approverId == None)
  }

  /** The request went through: the row follows it, and items it left alone are read back as they were. */
  ghost predicate RequestDone(c: ChecklistState, m: Mutation, c': ChecklistState) {
    var o := Apply(c, m);
    && o.Done?
    && c'.head == o.state.head
    && (o.state.items == c.items ==> c'.items == c.items)
  }

  lemma UnchangedItemsStay(rows: Rows, next: int, cid: int, items: seq<Item>)
    requires TableOk(rows, next) && Savable(rows, cid, items)
    requires forall k :: 0 <= k < |items| ==> items[k].id != 0
    ensures var s := SaveItems(rows, next, cid, items); Keyed(s.rows) && ReadItems(s.rows, cid) == items
  {
    SaveGetRoundTrip(rows, next, cid, items);
    assert SaveItems(rows, next, cid, items).items == items;
  }

  lemma RequestOnChecklist(db: Db, tenant: int, id: int, m: Mutation, born: Header)
    requires StoredIn(db, id, born) && DuplicateFree(m) && Mutate(db, tenant, id, m).1.Ok?
    ensures EffectOn(db, MutateOp(tenant, id, m), id, Mutate(db, tenant, id, m).0)
  {
    MutateEffect(db, tenant, id, m);
    MutateKeepsDbOk(db, tenant, id, m);
    var c := Load(db.checklists[id], db.items);
    if Apply(c, m).state.items == c.items {
      NothingToSave(db.checklists[id], db.items, db.nextItem, m);
    }
  }

  lemma NothingToSave(h: Header, rows: Rows, next: int, m: Mutation)
    requires TableOk(rows, next) && Represents(rows, h.id, ReadItems(rows, h.id)) && Loaded(Load(h, rows))
    requires DuplicateFree(m) && Apply(Load(h, rows), m).Done?
    requires Apply(Load(h, rows), m).state.items == Load(h, rows).items
    ensures var s := SaveItems(rows, next, h.id, Load(h, rows).items);
            Keyed(s.rows) && ReadItems(s.rows, h.id) == Load(h, rows).items
  {
    ApplyIsSavable(h, rows, m);
    UnchangedItemsStay(rows, next, h.id, Load(h, rows).items);
  }

  /** What one transaction, of whatever kind, does to this checklist. */
  ghost predicate StepEffect(c: ChecklistState, op: Op, id: int, c': ChecklistState) {
    OnlyPeopleChanged(c, c') || (Targets(op, id) && RequestDone(c, op.m, c'))
  }

  ghost predicate EffectOn(db: Db, op: Op, id: int, db': Db) {
    && DbOk(db) && DbOk(db') && id in db.checklists && id in db'.checklists
    && StepEffect(Load(db.checklists[id], db.items), op, id, Load(db'.checklists[id], db'.items))
  }

  lemma UnchangedHasEffect(db: Db, op: Op, id: int, db': Db)
    requires DbOk(db) && DbOk(db') && id in db.checklists && id in db'.checklists
    requires db'.checklists[id] == db.checklists[id] && ReadItems(db'.items, id) == ReadItems(db.items, id)
    ensures EffectOn(db, op, id, db')
  {
  }

  lemma PeopleHaveEffect(db: Db, op: Op, id: int, db': Db)
    requires DbOk(db) && DbOk(db') && id in db.checklists && id in db'.checklists && db'.items == db.items
    requires var h, h' := db.checklists[id], db'.checklists[id];
             && h' == h.(approverId := h'.approverId, assignedUserId := h'.assignedUserId)
             && (h'.approverId == h.approverId || h'.approverId == None)
    ensures EffectOn(db, op, id, db')
  {
  }

  lemma EffectOnStored(db: Db, op: Op, id: int, born: Header, bornTarget: Header)
    requires StoredIn(db, id, born) && TargetStored(db, op, bornTarget) && DuplicateFreeOp(op)
    ensures EffectOn(db, op, id, Step(db, op))
  {
    match op
    case MutateOp(tenant, target, m) => MutateOnChecklist(db, tenant, target, m, id, born, bornTarget);
    case CreateOp(n, now) => CreateOnChecklist(db, n, now, id, born);
    case ClaimOp(tenant, target, user, expected) => ClaimOnChecklist(db, tenant, target, user, expected, id);
    case ClearOp(tenant, user) => ClearOnChecklist(db, tenant, user, id);
    case TablesOp(members, templates) => UnchangedHasEffect(db, op, id, Step(db, op));
  }

  /** Each transaction either carries out a request on the checklist or leaves all but its people alone. */
  lemma {:induction false} StepOnChecklist(w: World, op: Op, id: int)
    requires WorldOk(w) && DuplicateFreeOp(op) && id in w.db.checklists
    ensures EffectOn(w.db, op, id, Step(w.db, op))
  {
    WorldStores(w, id);
    var target := if op.MutateOp? && op.id in w.db.checklists then op.id else id;
    WorldStores(w, target);
    EffectOnStored(w.db, op, id, w.born[id], w.born[target]);
  }

  lemma CreateOnChecklist(db: Db, n: NewChecklist, now: int, id: int, born: Header)
    requires StoredIn(db, id, born)
    ensures EffectOn(db, CreateOp(n, now), id, Create(db, n, now).0)
  {
    CreateKeepsDbOk(db, n, now);
    if Create(db, n, now).1.Ok? {
      CreateKeepsOthers(db, n, now, id, born);
    } else {
      assert Create(db, n, now).0 == db;
    }
    UnchangedHasEffect(db, CreateOp(n, now), id, Create(db, n, now).0);
  }

  lemma ClaimOnChecklist(db: Db, tenant: int, target: int, user: int, expected: Option<int>, id: int)
    requires DbOk(db) && id in db.checklists
    ensures EffectOn(db, ClaimOp(tenant, target, user, expected), id, Claim(db, tenant, target, user, expected).0)
  {
    ClaimedDbOk(db, tenant, target, user, expected);
    PeopleHaveEffect(db, ClaimOp(tenant, target, user, expected), id, Claim(db, tenant, target, user, expected).0);
  }

  lemma ClearOnChecklist(db: Db, tenant: int, user: int, id: int)
    requires DbOk(db) && id in db.checklists
    ensures EffectOn(db, ClearOp(tenant, user), id, Clear(db, tenant, user).0)
  {
    ClearKeepsDbOk(db, tenant, user);
    if Clear(db, tenant, user).1.Ok? {
      ClearOnRow(db, tenant, user, id);
    }
    PeopleHaveEffect(db, ClearOp(tenant, user), id, Clear(db, tenant, user).0);
  }

  lemma MutateOnChecklist(db: Db, tenant: int, target: int, m: Mutation, id: int, born: Header, bornTarget: Header)
    requires StoredIn(db, id, born) && DuplicateFree(m)
    requires target in db.checklists ==> StoredIn(db, target, bornTarget)
    ensures EffectOn(db, MutateOp(tenant, target, m), id, Mutate(db, tenant, target, m).0)
  {
    var op, db' := MutateOp(tenant, target, m), Mutate(db, tenant, target, m).0;
    MutateKeepsDbOk(db, tenant, target, m);
    if Mutate(db, tenant, target, m).1.Ok? {
      MutateEffect(db, tenant, target, m);
      if target == id {
        RequestOnChecklist(db, tenant, id, m, born);
      } else {
        MutateKeepsOthers(db, tenant, target, m, id, bornTarget, born);
        UnchangedHasEffect(db, op, id, db');
      }
    } else {
      RefusalChangesNothing(db, tenant, target, m);
      UnchangedHasEffect(db, op, id, db');
    }
  }

  /** The last transaction of a run, seen from one checklist. */
  lemma LastStep(w: World, ops: seq<Op>, id: int)
    requires WorldOk(w) && id in w.db.checklists && |ops| > 0
    requires forall k :: 0 <= k < |ops| ==> DuplicateFreeOp(ops[k])
    ensures var v := Run(w, ops[..|ops| - 1]);
            var w' := Run(w, ops);
            && id in v.db.checklists && id in w'.db.checklists
            && StepEffect(Current(v, id), ops[|ops| - 1], id, Current(w', id))
  {
    ChecklistsStay(w, ops[..|ops| - 1], id);
    StepOnChecklist(Run(w, ops[..|ops| - 1]), ops[|ops| - 1], id);
  }

  lemma {:induction false} ChecklistsStay(w: World, ops: seq<Op>, id: int)
    requires WorldOk(w) && id in w.db.checklists
    requires forall k :: 0 <= k < |ops| ==> DuplicateFreeOp(ops[k])
    ensures WorldOk(Run(w, ops)) && id in Run(w, ops).db.checklists
  {
    if |ops| == 0 {
    } else {
      var v := Run(w, ops[..|ops| - 1]);
      ChecklistsStay(w, ops[..|ops| - 1], id);
      StepKeepsWorld(v, ops[|ops| - 1]);
      StepKeepsStored(v, ops[|ops| - 1], id);
    }
  }

  /**
   The transaction that makes the checklist complete: an approval by its approver that goes
   through, or, without an approver, a last check by the item's responsible user that does.
   */
  ghost predicate Completes(c: ChecklistState, op: Op, id: int, c': ChecklistState) {
    && Targets(op, id) && RequestDone(c, op.m, c')
    && c.head.status != Complete && c'.head.status == Complete
    && match c.head.approverId
       case Some(a) => op.m == DoApprove(a) && c.head.status == Validating
       case None =>
         op.m.DoCheckItem? && c.head.status == Open && ItemIndex(c.items, op.m.itemId).Some?
         && ResponsibleUserFor(c, c.items[ItemIndex(c.items, op.m.itemId).value]) == Some(op.m.actor)
  }

  /** Transaction number at of the run completes the checklist. */
  ghost predicate CompletedAt(w: World, ops: seq<Op>, id: int, at: int)
    requires DbOk(w.db)
  {
    && 0 <= at < |ops|
    && id in Run(w, ops[..at]).db.checklists && id in Run(w, ops[..at + 1]).db.checklists
    && Completes(Current(Run(w, ops[..at]), id), ops[at], id, Current(Run(w, ops[..at + 1]), id))
  }

  lemma CompletedBefore(w: World, ops: seq<Op>, id: int, at: int)
    requires DbOk(w.db) && |ops| > 0 && CompletedAt(w, ops[..|ops| - 1], id, at)
    ensures CompletedAt(w, ops, id, at)
  {
    assert ops[..|ops| - 1][..at] == ops[..at];
    assert ops[..|ops| - 1][..at + 1] == ops[..at + 1];
  }

  lemma CompletedLast(w: World, ops: seq<Op>, id: int)
    requires DbOk(w.db) && |ops| > 0
    requires id in Run(w, ops[..|ops| - 1]).db.checklists && id in Run(w, ops).db.checklists
    requires Completes(Current(Run(w, ops[..|ops| - 1]), id), ops[|ops| - 1], id, Current(Run(w, ops), id))
    ensures CompletedAt(w, ops, id, |ops| - 1)
  {
    assert ops[..|ops| - 1 + 1] == ops;
  }

  lemma StepCompletes(c: ChecklistState, op: Op, id: int, c': ChecklistState)
    requires StepEffect(c, op, id, c') && c.head.status != Complete && c'.head.status == Complete
    ensures Completes(c, op, id, c')
  {
    WhoCompletes(c, op.m);
  }

  lemma CompletedByLast(w: World, ops: seq<Op>, id: int)
    requires WorldOk(w) && id in w.db.checklists && |ops| > 0
    requires forall k :: 0 <= k < |ops| ==> DuplicateFreeOp(ops[k])
    ensures var v, w' := Run(w, ops[..|ops| - 1]), Run(w, ops);
            && id in v.db.checklists && id in w'.db.checklists
            && (v.db.checklists[id].status != Complete && w'.db.checklists[id].status == Complete
                ==> CompletedAt(w, ops, id, |ops| - 1))
  {
    LastStep(w, ops, id);
    var c, c' := Current(Run(w, ops[..|ops| - 1]), id), Current(Run(w, ops), id);
    if c.head.status != Complete && c'.head.status == Complete {
      StepCompletes(c, ops[|ops| - 1], id, c');
      CompletedLast(w, ops, id);
    }
  }

  /** No run completes a checklist any other way. */
  lemma {:induction false} CompletionHasAnAuthor(w: World, ops: seq<Op>, id: int) returns (at: int)
    requires WorldOk(w) && id in w.db.checklists && w.db.checklists[id].status != Complete
    requires forall k :: 0 <= k < |ops| ==> DuplicateFreeOp(ops[k])
    requires id in Run(w, ops).db.checklists && Run(w, ops).db.checklists[id].status == Complete
    ensures CompletedAt(w, ops, id, at)
  {
    var n := |ops| - 1;
    CompletedByLast(w, ops, id);
    if Run(w, ops[..n]).db.checklists[id].status == Complete {
      at := CompletionHasAnAuthor(w, ops[..n], id);
      CompletedBefore(w, ops, id, at);
    } else {
      at := n;
    }
  }

  /** A creator override by the creator, or a rejection by the given approver, of this checklist. */
  predicate MayUnfreeze(op: Op, id: int, creator: int, approver: Option<int>) {
    Targets(op, id) &&
    ((CreatorOverride(op.m) && op.m.actor == creator) || (op.m.DoReject? && approver == Some(op.m.actor)))
  }

  ghost predicate NoneMayUnfreeze(ops: seq<Op>, id: int, h: Header) {
    forall k :: 0 <= k < |ops| ==> DuplicateFreeOp(ops[k]) && !MayUnfreeze(ops[k], id, h.creatorId, h.approverId)
  }

  predicate ApprovedBy(op: Op, id: int, approver: Option<int>) {
    Targets(op, id) && op.m.DoApprove? && approver == Some(op.m.actor)
  }

  /** Some approval of this approver went through and completed the checklist. */
  ghost predicate ApprovedDuring(w: World, ops: seq<Op>, id: int, approver: Option<int>)
    requires DbOk(w.db)
  {
    exists k :: CompletedAt(w, ops, id, k) && ApprovedBy(ops[k], id, approver)
  }

  lemma ApprovedBefore(w: World, ops: seq<Op>, id: int, approver: Option<int>, k: int)
    requires DbOk(w.db) && |ops| > 0
    requires CompletedAt(w, ops[..|ops| - 1], id, k) && ApprovedBy(ops[..|ops| - 1][k], id, approver)
    ensures CompletedAt(w, ops, id, k) && ApprovedBy(ops[k], id, approver)
  {
    CompletedBefore(w, ops, id, k);
  }

  /** As the checklist c that awaited approval, but for its status, and for its approver, who may have been cleared. */
  ghost predicate SameButStatus(c: ChecklistState, c': ChecklistState) {
    && c'.items == c.items
    && c'.head.creatorId == c.head.creatorId
    && (c'.head.approverId == c.head.approverId || c'.head.approverId == None)
    && c'.head.status != Open
  }

  lemma StaysFrozen(c: ChecklistState, v: ChecklistState, op: Op, id: int, c': ChecklistState)
    requires SameButStatus(c, v) && StepEffect(v, op, id, c')
    requires !MayUnfreeze(op, id, c.head.creatorId, c.head.approverId)
    ensures SameButStatus(c, c')
    ensures c'.head.status == v.head.status
            || (Completes(v, op, id, c') && ApprovedBy(op, id, c.head.approverId))
  {
    if !OnlyPeopleChanged(v, c') {
      if v.head.status == Validating {
        WhoChangesItemsWhileValidating(v, op.m);
        WhoEndsValidating(v, op.m);
      } else {
        OnlyTheCreatorUnfreezes(v, op.m);
      }
    }
  }

  /** What a run without an unfreezing leaves of a checklist that awaited approval. */
  ghost predicate Frozen(w: World, ops: seq<Op>, id: int)
    requires DbOk(w.db) && id in w.db.checklists
  {
    var w' := Run(w, ops);
    && id in w'.db.checklists
    && SameButStatus(Current(w, id), Current(w', id))
    && (w'.db.checklists[id].status == Complete ==> ApprovedDuring(w, ops, id, w.db.checklists[id].approverId))
  }

  lemma FrozenOneMore(w: World, ops: seq<Op>, id: int)
    requires WorldOk(w) && id in w.db.checklists && |ops| > 0
    requires NoneMayUnfreeze(ops, id, w.db.checklists[id])
    requires Frozen(w, ops[..|ops| - 1], id)
    ensures Frozen(w, ops, id)
  {
    LastStep(w, ops, id);
    var n, c := |ops| - 1, Current(w, id);
    var v, c' := Current(Run(w, ops[..n]), id), Current(Run(w, ops), id);
    StaysFrozen(c, v, ops[n], id, c');
    if v.head.status == Complete {
      var k :| CompletedAt(w, ops[..n], id, k) && ApprovedBy(ops[..n][k], id, c.head.approverId);
      ApprovedBefore(w, ops, id, c.head.approverId, k);
    } else if c'.head.status == Complete {
      CompletedLast(w, ops, id);
    }
  }

  /**
   While a checklist awaits approval, whatever else happens in the database, its items stay
   as they are until its creator overrides or its approver rejects; it completes only by an
   approval of that approver that goes through; and if the approver is cleared before that,
   it stays put.
   */
  lemma {:induction false} AwaitingApprovalIsFrozen(w: World, ops: seq<Op>, id: int)
    requires WorldOk(w) && id in w.db.checklists && w.db.checklists[id].status == Validating
    requires NoneMayUnfreeze(ops, id, w.db.checklists[id])
    ensures Frozen(w, ops, id)
  {
    if |ops| == 0 {
    } else {
      AwaitingApprovalIsFrozen(w, ops[..|ops| - 1], id);
      FrozenOneMore(w, ops, id);
    }
  }

  lemma WhoEndsValidating(c: ChecklistState, m: Mutation)
    requires Apply(c, m).Done? && c.head.status == Validating
    ensures (m.DoApprove? && ByApprover(c, m) && Apply(c, m).state.head == c.head.(status := Complete))
            || (m.DoReject? && ByApprover(c, m)) || ByCreator(c, m)
  {
  }
}
