/** Tenants do not see each other: what one of them does leaves no trace in what another can read. */
module Tenants {
  import opened Domain
  import opened ChecklistSpec
  import opened ItemStore
  import opened Database
  import opened Requests
  import opened Answers
  import opened Runs
  import opened CheckAuthors
  import opened Notices
  import opened ListQuery

  /** A transaction in the name of another tenant; the tables all tenants share stay as they are. */
  predicate Foreign(op: Op, tenant: int) {
    match op
    case CreateOp(n, _) => n.tenantId != tenant
    case MutateOp(t, _, _) => t != tenant
    case ClaimOp(t, _, _, _) => t != tenant
    case ClearOp(t, _) => t != tenant
    case TablesOp(_, _) => false
  }

  predicate Owns(db: Db, tenant: int, id: int) {
    id in db.checklists && db.checklists[id].tenantId == tenant
  }

  /** Every line of the log is filed under the tenant of the checklist it is about. */
  ghost predicate FiledByTenant(db: Db) {
    forall k :: 0 <= k < |db.log| ==> Owns(db, db.log[k].tenantId, db.log[k].checklistId)
  }

  /** The lines of the log that are the tenant's. */
  function TenantLog(log: seq<Event>, tenant: int): seq<Event> {
    if |log| == 0 then []
    else
      TenantLog(log[..|log| - 1], tenant) +
      if log[|log| - 1].tenantId == tenant then [log[|log| - 1]] else []
  }

  function TenantNotices(notices: seq<Notification>, tenant: int): seq<Notification> {
    if |notices| == 0 then []
    else
      TenantNotices(notices[..|notices| - 1], tenant) +
      if notices[|notices| - 1].tenantId == tenant then [notices[|notices| - 1]] else []
  }

  /** What there is of one tenant is the same in both databases: rows, items, log and notifications. */
  ghost predicate SameFor(db: Db, db': Db, tenant: int)
    requires Keyed(db.items) && Keyed(db'.items)
  {
    && (forall id :: Owns(db', tenant, id) <==> Owns(db, tenant, id))
    && (forall id :: Owns(db, tenant, id) ==>
         db'.checklists[id] == db.checklists[id] && ReadItems(db'.items, id) == ReadItems(db.items, id))
    && TenantLog(db'.log, tenant) == TenantLog(db.log, tenant)
    && TenantNotices(db'.notifications, tenant) == TenantNotices(db.notifications, tenant)
    && db'.members == db.members
  }

  lemma {:induction false} TenantLogConcat(a: seq<Event>, b: seq<Event>, tenant: int)
    requires forall k :: 0 <= k < |b| ==> b[k].tenantId != tenant
    ensures TenantLog(a + b, tenant) == TenantLog(a, tenant)
  {
    if |b| == 0 {
      assert a + b == a;
    } else {
      TenantLogConcat(a, b[..|b| - 1], tenant);
      assert (a + b)[..|a + b| - 1] == a + b[..|b| - 1];
    }
  }

  lemma {:induction false} TenantNoticesConcat(a: seq<Notification>, b: seq<Notification>, tenant: int)
    requires forall k :: 0 <= k < |b| ==> b[k].tenantId != tenant
    ensures TenantNotices(a + b, tenant) == TenantNotices(a, tenant)
  {
    if |b| == 0 {
      assert a + b == a;
    } else {
      TenantNoticesConcat(a, b[..|b| - 1], tenant);
      assert (a + b)[..|a + b| - 1] == a + b[..|b| - 1];
    }
  }

  // ---- What a transaction adds is its tenant's ----

  predicate TenantOf(op: Op, tenant: int) {
    match op
    case CreateOp(n, _) => n.tenantId == tenant
    case MutateOp(t, _, _) => t == tenant
    case ClaimOp(t, _, _, _) => t == tenant
    case ClearOp(t, _) => t == tenant
    case TablesOp(_, _) => true
  }

  /** Rows keep their tenant, new lines are about rows of the given one, and so are new notifications. */
  ghost predicate AddsFor(db: Db, db': Db, tenant: int) {
    && db.log <= db'.log
    && (forall id :: id in db.checklists ==>
         id in db'.checklists && db'.checklists[id].tenantId == db.checklists[id].tenantId)
    && (forall k :: |db.log| <= k < |db'.log| ==>
         db'.log[k].tenantId == tenant && Owns(db', tenant, db'.log[k].checklistId))
    && db.notifications <= db'.notifications
    && (forall k :: |db.notifications| <= k < |db'.notifications| ==> db'.notifications[k].tenantId == tenant)
  }

  lemma RequestLogs(db: Db, tenant: int, id: int, m: Mutation)
    requires DbOk(db) && Mutate(db, tenant, id, m).1.Ok?
    ensures var db' := Mutate(db, tenant, id, m).0;
            && Owns(db, tenant, id) && db'.checklists.Keys == db.checklists.Keys
            && (forall x :: x in db.checklists ==> db'.checklists[x].tenantId == db.checklists[x].tenantId)
            && db.log <= db'.log
            && forall k :: |db.log| <= k < |db'.log| ==>
                 db'.log[k].tenantId == tenant && db'.log[k].checklistId == id
  {
    MutateEffect(db, tenant, id, m);
    EventsTellTheStory(Load(db.checklists[id], db.items), m);
  }

  lemma RequestNotices(db: Db, tenant: int, id: int, m: Mutation)
    requires DbOk(db) && Mutate(db, tenant, id, m).1.Ok?
    ensures var db' := Mutate(db, tenant, id, m).0;
            && db.notifications <= db'.notifications
            && forall k :: |db.notifications| <= k < |db'.notifications| ==> db'.notifications[k].tenantId == tenant
  {
    RequestNotifies(db, tenant, id, m);
    var db' := Mutate(db, tenant, id, m).0;
    var told := Expected(db.checklists[id], db.checklists[id].status, db'.checklists[id].status, m);
    assert forall k :: 0 <= k < |told| ==> told[k].tenantId == tenant;
  }

  lemma RequestAdds(db: Db, tenant: int, id: int, m: Mutation)
    requires DbOk(db)
    ensures AddsFor(db, Mutate(db, tenant, id, m).0, tenant)
  {
    if Mutate(db, tenant, id, m).1.Ok? {
      RequestLogs(db, tenant, id, m);
      RequestNotices(db, tenant, id, m);
    } else {
      RefusalChangesNothing(db, tenant, id, m);
    }
  }

  lemma CreationAdds(db: Db, n: NewChecklist, now: int)
    requires DbOk(db)
    ensures AddsFor(db, Create(db, n, now).0, n.tenantId)
  {
    CreationIsAnswered(db, n, now);
    if Create(db, n, now).1.Ok? {
      CreatedRow(db, n, now);
      CreateEffect(db, n, now);
    }
  }

  lemma ClaimAdds(db: Db, tenant: int, id: int, user: int, expected: Option<int>)
    ensures AddsFor(db, Claim(db, tenant, id, user, expected).0, tenant)
  {
    ClaimIsAnswered(db, tenant, id, user, expected);
  }

  lemma SuspensionAdds(db: Db, tenant: int, user: int)
    ensures AddsFor(db, Clear(db, tenant, user).0, tenant)
  {
    SuspensionIsAnswered(db, tenant, user);
    if Clear(db, tenant, user).1.Ok? {
      SuspensionIsLogged(db, tenant, user);
    }
  }

  lemma StepAdds(db: Db, op: Op, tenant: int)
    requires DbOk(db) && TenantOf(op, tenant)
    ensures AddsFor(db, Step(db, op), tenant)
  {
    match op
    case CreateOp(n, now) => CreationAdds(db, n, now);
    case MutateOp(t, id, m) => RequestAdds(db, t, id, m);
    case ClaimOp(t, id, user, expected) => ClaimAdds(db, t, id, user, expected);
    case ClearOp(t, user) => SuspensionAdds(db, t, user);
    case TablesOp(_, _) =>
  }

  function SomeTenant(op: Op): (tenant: int)
    ensures TenantOf(op, tenant)
  {
    match op
    case CreateOp(n, _) => n.tenantId
    case MutateOp(t, _, _) => t
    case ClaimOp(t, _, _, _) => t
    case ClearOp(t, _) => t
    case TablesOp(_, _) => 0
  }

  /** In every reachable state each line of the log is filed under the tenant of its checklist. */
  lemma {:induction false} LogIsFiledByTenant(ops: seq<Op>)
    ensures FiledByTenant(Run(EMPTY, ops).db)
  {
    if |ops| == 0 {
    } else {
      var n := |ops| - 1;
      var db := Run(EMPTY, ops[..n]).db;
      LogIsFiledByTenant(ops[..n]);
      StepAdds(db, ops[n], SomeTenant(ops[n]));
    }
  }

  // ---- Isolation ----

  lemma ForeignCreation(db: Db, n: NewChecklist, now: int, tenant: int)
    requires DbOk(db) && n.tenantId != tenant
    ensures var db' := Create(db, n, now).0;
            && (forall id :: Owns(db', tenant, id) <==> Owns(db, tenant, id))
            && (forall id :: Owns(db, tenant, id) ==> db'.checklists[id] == db.checklists[id])
            && db'.members == db.members
  {
    CreationIsAnswered(db, n, now);
    if Create(db, n, now).1.Ok? {
      CreatedRow(db, n, now);
    }
  }

  lemma ForeignRequest(db: Db, t: int, id: int, m: Mutation, tenant: int)
    requires DbOk(db) && t != tenant
    ensures var db' := Mutate(db, t, id, m).0;
            && (forall x :: Owns(db', tenant, x) <==> Owns(db, tenant, x))
            && (forall x :: Owns(db, tenant, x) ==> db'.checklists[x] == db.checklists[x])
            && db'.members == db.members
  {
    if Mutate(db, t, id, m).1.Ok? {
      MutateEffect(db, t, id, m);
    } else {
      RefusalChangesNothing(db, t, id, m);
    }
  }

  lemma ForeignRows(db: Db, op: Op, tenant: int)
    requires DbOk(db) && Foreign(op, tenant)
    ensures var db' := Step(db, op);
            && (forall id :: Owns(db', tenant, id) <==> Owns(db, tenant, id))
            && (forall id :: Owns(db, tenant, id) ==> db'.checklists[id] == db.checklists[id])
            && db'.members == db.members
  {
    match op
    case CreateOp(n, now) => ForeignCreation(db, n, now, tenant);
    case MutateOp(t, id, m) => ForeignRequest(db, t, id, m, tenant);
    case ClaimOp(t, id, user, expected) => ClaimIsAnswered(db, t, id, user, expected);
    case ClearOp(t, user) => SuspensionIsAnswered(db, t, user);
  }

  /** A request of another tenant cannot even name this tenant's checklist. */
  lemma ForeignItems(w: World, op: Op, tenant: int, id: int)
    requires WorldOk(w) && DuplicateFreeOp(op) && Foreign(op, tenant) && Owns(w.db, tenant, id)
    ensures ReadItems(Step(w.db, op).items, id) == ReadItems(w.db.items, id)
  {
    if op.MutateOp? && op.id == id {
      WorldStores(w, id);
      RequestIsAnswered(w.db, op.tenant, id, op.m, w.born[id]);
    } else {
      OthersKeepRows(w, op, id);
      ReadDependsOnOwnRows(w.db.items, Step(w.db, op).items, id);
    }
  }

  lemma ForeignAdditions(db: Db, db': Db, t: int, tenant: int)
    requires AddsFor(db, db', t) && t != tenant
    ensures TenantLog(db'.log, tenant) == TenantLog(db.log, tenant)
    ensures TenantNotices(db'.notifications, tenant) == TenantNotices(db.notifications, tenant)
  {
    var more, notices := db'.log[|db.log|..], db'.notifications[|db.notifications|..];
    assert db'.log == db.log + more && db'.notifications == db.notifications + notices;
    TenantLogConcat(db.log, more, tenant);
    TenantNoticesConcat(db.notifications, notices, tenant);
  }

  lemma ForeignStep(w: World, op: Op, tenant: int)
    requires WorldOk(w) && DuplicateFreeOp(op) && Foreign(op, tenant)
    ensures SameFor(w.db, Step(w.db, op), tenant)
  {
    var db' := Step(w.db, op);
    ForeignRows(w.db, op, tenant);
    forall id | Owns(w.db, tenant, id)
      ensures ReadItems(db'.items, id) == ReadItems(w.db.items, id)
    {
      ForeignItems(w, op, tenant, id);
    }
    StepAdds(w.db, op, SomeTenant(op));
    ForeignAdditions(w.db, db', SomeTenant(op), tenant);
  }

  lemma SameForBoth(a: Db, b: Db, c: Db, tenant: int)
    requires Keyed(a.items) && Keyed(b.items) && Keyed(c.items)
    requires SameFor(a, b, tenant) && SameFor(b, c, tenant)
    ensures SameFor(a, c, tenant)
  {
    forall id | Owns(a, tenant, id)
      ensures c.checklists[id] == a.checklists[id] && ReadItems(c.items, id) == ReadItems(a.items, id)
    {
      assert Owns(b, tenant, id);
    }
  }

  /**
   Whatever all other tenants do, in any run, a tenant's checklists, their items, its log and
   its notifications are what they were.
   */
  lemma {:induction false} OtherTenantsAreInvisible(w: World, ops: seq<Op>, tenant: int)
    requires WorldOk(w) && forall k :: 0 <= k < |ops| ==> DuplicateFreeOp(ops[k]) && Foreign(ops[k], tenant)
    ensures SameFor(w.db, Run(w, ops).db, tenant)
  {
    if |ops| == 0 {
    } else {
      var n := |ops| - 1;
      OtherTenantsAreInvisible(w, ops[..n], tenant);
      RunKeepsWorld(w, ops[..n]);
      var v := Run(w, ops[..n]);
      ForeignStep(v, ops[n], tenant);
      SameForBoth(w.db, v.db, Step(v.db, ops[n]), tenant);
    }
  }

  lemma SameListFor(db: Db, db': Db, f: Filter)
    requires DbOk(db) && DbOk(db') && SameFor(db, db', f.tenantId)
    ensures List(db', f) == List(db, f)
  {
    forall h
      ensures h in Selected(db', f) <==> h in Selected(db, f)
    {
      if h in Selected(db, f) {
        var id :| id in db.checklists && db.checklists[id] == h && h.tenantId == f.tenantId;
        assert Owns(db, f.tenantId, id);
      }
      if h in Selected(db', f) {
        var id :| id in db'.checklists && db'.checklists[id] == h && h.tenantId == f.tenantId;
        assert Owns(db', f.tenantId, id);
      }
    }
    assert Selected(db', f) == Selected(db, f);
  }

  /** So are its lists. */
  lemma OtherTenantsAreNotListed(w: World, ops: seq<Op>, f: Filter)
    requires WorldOk(w) && forall k :: 0 <= k < |ops| ==> DuplicateFreeOp(ops[k]) && Foreign(ops[k], f.tenantId)
    ensures List(Run(w, ops).db, f) == List(w.db, f)
  {
    OtherTenantsAreInvisible(w, ops, f.tenantId);
    SameListFor(w.db, Run(w, ops).db, f);
  }
}
