/**
 What each transaction of the database is answered, and what its answer means for the rows:
 creations, requests, claims and suspensions; and who can come to hold a checklist.
 */
module Answers {
  import opened Domain
  import opened ChecklistSpec
  import opened LifecycleLaw
  import opened ItemStore
  import opened Database
  import opened StoredLaw
  import opened Requests
  import opened Runs

  /** Whoever holds a checklist that is assigned to a group is a member of the group. */
  predicate HolderBelongs(members: set<(int, int)>, h: Header) {
    match (h.assignedUserId, h.assignedGroupId)
    case (Some(user), Some(group)) => (user, group) in members
    case _ => true
  }

  // ---- Creation ----

  /** The template the creation names, if the tenant has it. */
  predicate TemplateOf(db: Db, n: NewChecklist) {
    n.templateId in db.templates && db.templates[n.templateId].tenantId == n.tenantId
  }

  predicate MayStart(db: Db, n: NewChecklist) {
    match (n.assignedUserId, n.assignedGroupId)
    case (Some(user), Some(group)) => (user, group) in db.members
    case _ => true
  }

  /** A creation goes through, is answered and is refused exactly so; a refusal changes nothing. */
  lemma CreationIsAnswered(db: Db, n: NewChecklist, now: int)
    ensures var (db', r) := Create(db, n, now);
            && (r == Ok(db.nextChecklist) <==> TemplateOf(db, n) && MayStart(db, n))
            && (r == Err(ErrNoRows) <==> !TemplateOf(db, n))
            && (r == Err(ErrTrigger) <==> TemplateOf(db, n) && !MayStart(db, n))
            && (r.Err? ==> db' == db)
  {
  }

  /** The row of a new checklist, field by field, and that nothing else in the table changed. */
  lemma CreatedRow(db: Db, n: NewChecklist, now: int)
    requires DbOk(db) && Create(db, n, now).1.Ok?
    ensures var (db', r) := Create(db, n, now);
            && r.value !in db.checklists && r.value in db'.checklists
            && (forall id :: id in db.checklists ==> id in db'.checklists && db'.checklists[id] == db.checklists[id])
            && (forall id :: id in db'.checklists ==> id in db.checklists || id == r.value)
            && var h := db'.checklists[r.value];
            && h.id == r.value && h.createdAt == now && h.status == Open
            && h.tenantId == n.tenantId && h.templateId == n.templateId && h.creatorId == n.creatorId
            && h.assignedUserId == n.assignedUserId && h.assignedGroupId == n.assignedGroupId
            && h.approverId == n.approverId && h.hidden == n.hidden
            && (n.name != "" ==> h.name == n.name)
            && (n.name == "" ==> n.templateId in db.templates && h.name == db.templates[n.templateId].name)
  {
  }

  // ---- Requests ----

  lemma StoredIdsDiffer(db: Db, id: int, born: Header)
    requires StoredIn(db, id, born)
    ensures DistinctIds(Load(db.checklists[id], db.items).items)
  {
  }

  /** The tables are left alone by whatever is not answered with success. */
  ghost predicate RefusedAs(db: Db, db': Db, r: Result<ChecklistState>, e: Error) {
    r == Err(e) && db' == db
  }

  lemma OwnRequestIsAnswered(db: Db, id: int, m: Mutation)
    requires DbOk(db) && id in db.checklists && DistinctIds(Load(db.checklists[id], db.items).items)
    ensures var c := Load(db.checklists[id], db.items);
            var (db', r) := Mutate(db, c.head.tenantId, id, m);
            && (r.Ok? <==> Accepted(c, m) && HolderBelongs(db.members, c.head))
            && (Accepted(c, m) && !HolderBelongs(db.members, c.head) ==> RefusedAs(db, db', r, ErrTrigger))
            && (forall e :: Tells(c, m, e) ==> RefusedAs(db, db', r, e))
  {
    var c := Load(db.checklists[id], db.items);
    AcceptedExactly(c, m);
    if Apply(c, m).Done? {
      ApplyKeepsHeader(c, m);
    }
  }

  /** A request to the database goes through if and only if the domain accepts it on what is stored. */
  lemma RequestIsAnswered(db: Db, tenant: int, id: int, m: Mutation, born: Header)
    requires DbOk(db) && (id in db.checklists ==> StoredIn(db, id, born))
    ensures var (db', r) := Mutate(db, tenant, id, m);
            if !(id in db.checklists && db.checklists[id].tenantId == tenant) then RefusedAs(db, db', r, ErrNoRows)
            else
              var c := Load(db.checklists[id], db.items);
              && (r.Ok? <==> Accepted(c, m) && HolderBelongs(db.members, c.head))
              && (Accepted(c, m) && !HolderBelongs(db.members, c.head) ==> RefusedAs(db, db', r, ErrTrigger))
              && (forall e :: Tells(c, m, e) ==> RefusedAs(db, db', r, e))
  {
    if id in db.checklists && db.checklists[id].tenantId == tenant {
      StoredIdsDiffer(db, id, born);
      OwnRequestIsAnswered(db, id, m);
    }
  }

  /** The answer to a request is the checklist as the next reader finds it, new ids included. */
  lemma AnswerIsWhatIsStored(db: Db, tenant: int, id: int, m: Mutation, born: Header)
    requires StoredIn(db, id, born) && DuplicateFree(m) && Mutate(db, tenant, id, m).1.Ok?
    ensures var (db', r) := Mutate(db, tenant, id, m);
            && Keyed(db'.items) && id in db'.checklists
            && r.value == Load(db'.checklists[id], db'.items)
  {
    MutateEffect(db, tenant, id, m);
    ApplyIsSavable(db.checklists[id], db.items, m);
    SaveGetRoundTrip(db.items, db.nextItem, id, Apply(Load(db.checklists[id], db.items), m).state.items);
  }

  // ---- Claims ----

  /** A claim wins, loses or fails exactly so, and what it writes. */
  lemma ClaimIsAnswered(db: Db, tenant: int, id: int, user: int, expected: Option<int>)
    ensures var (db', r) := Claim(db, tenant, id, user, expected);
            if !(id in db.checklists && db.checklists[id].tenantId == tenant) then r == Err(ErrNoRows) && db' == db
            else
              var h := db.checklists[id];
              if h.assignedUserId != expected then
                r == Ok(false) && db' == db.(notifications := db.notifications +
                                              [Notification(tenant, user, ClaimLost, id, h.assignedUserId)])
              else if h.assignedGroupId.Some? && (user, h.assignedGroupId.value) !in db.members then
                r == Err(ErrTrigger) && db' == db
              else
                && r == Ok(true) && db'.checklists.Keys == db.checklists.Keys
                && db'.checklists[id].assignedUserId == Some(user)
                && db'.checklists[id] == h.(assignedUserId := Some(user))
                && (forall x :: x in db.checklists && x != id ==> db'.checklists[x] == db.checklists[x])
                && db'.items == db.items && db'.notifications == db.notifications
                && db'.log == db.log + [Event(tenant, id, None, user, Claimed, NoDetail)]
  {
  }

  // ---- Suspension ----

  /** A row that has the user to approve it, and a holder whose membership has lapsed. */
  predicate Lapsed(db: Db, tenant: int, user: int, h: Header) {
    h.tenantId == tenant && h.approverId == Some(user) && !HolderBelongs(db.members, h)
  }

  predicate Cleared(h: Header, h': Header, tenant: int, user: int) {
    if h.tenantId != tenant then h' == h
    else h' == h.(approverId := if h.approverId == Some(user) then None else h.approverId,
                  assignedUserId := if h.assignedUserId == Some(user) then None else h.assignedUserId)
  }

  /**
   A suspension goes through unless a row the user approves has a lapsed holder; then the user
   approves and holds nothing in the tenant any more, and nothing else has changed.
   */
  lemma SuspensionIsAnswered(db: Db, tenant: int, user: int)
    ensures var (db', r) := Clear(db, tenant, user);
            && (r == Err(ErrTrigger) <==>
                 exists id :: id in db.checklists && Lapsed(db, tenant, user, db.checklists[id]))
            && (r != Ok(()) ==> r == Err(ErrTrigger) && db' == db)
            && (r == Ok(()) ==>
                 && db'.checklists.Keys == db.checklists.Keys && db'.items == db.items
                 && db'.notifications == db.notifications
                 && forall id :: id in db.checklists ==>
                      Cleared(db.checklists[id], db'.checklists[id], tenant, user))
  {
    var approving := Approving(db, tenant, user);
    var cleared := WithoutApprover(db.checklists, approving);
    forall id | id in db.checklists
      ensures id in approving && !TriggerAllows(db.members, cleared[id])
              <==> Lapsed(db, tenant, user, db.checklists[id])
    {
    }
  }

  lemma SuspendedHoldsNothing(db: Db, tenant: int, user: int)
    requires Clear(db, tenant, user).1.Ok?
    ensures var db' := Clear(db, tenant, user).0;
            forall id :: id in db'.checklists && db'.checklists[id].tenantId == tenant ==>
              db'.checklists[id].approverId != Some(user) && db'.checklists[id].assignedUserId != Some(user)
  {
    SuspensionIsAnswered(db, tenant, user);
  }

  /** One event for each row that had the user as its approver, and one for each that it held; no others. */
  lemma SuspensionIsLogged(db: Db, tenant: int, user: int)
    requires Clear(db, tenant, user).1.Ok?
    ensures var db' := Clear(db, tenant, user).0;
            && db.log <= db'.log
            && (forall k :: |db.log| <= k < |db'.log| ==>
                 ClearingOf(db, tenant, user, db'.log[k]))
            && (forall id :: id in db.checklists && db.checklists[id].tenantId == tenant ==>
                 && (db.checklists[id].approverId == Some(user) ==>
                      LoggedFrom(db'.log, |db.log|, Event(tenant, id, None, user, ApproverChanged, UserDeactivated)))
                 && (db.checklists[id].assignedUserId == Some(user) ==>
                      LoggedFrom(db'.log, |db.log|, Event(tenant, id, None, user, AssigneeChanged, UserDeactivated))))
  {
    var a, b := Returning(Approving(db, tenant, user)), Returning(Holding(db, tenant, user));
    var ea, eb := ClearedEvents(tenant, user, a, ApproverChanged), ClearedEvents(tenant, user, b, AssigneeChanged);
    var log := Clear(db, tenant, user).0.log;
    assert log == db.log + ea + eb;
    forall k | |db.log| <= k < |log|
      ensures ClearingOf(db, tenant, user, log[k])
    {
      if k < |db.log| + |a| {
        assert log[k] == ea[k - |db.log|] && a[k - |db.log|] in a;
      } else {
        assert log[k] == eb[k - |db.log| - |a|] && b[k - |db.log| - |a|] in b;
      }
    }
    forall id | id in Approving(db, tenant, user)
      ensures LoggedFrom(log, |db.log|, Event(tenant, id, None, user, ApproverChanged, UserDeactivated))
    {
      assert id in a;
      var k :| 0 <= k < |a| && a[k] == id;
      assert log[|db.log| + k] == ea[k];
    }
    forall id | id in Holding(db, tenant, user)
      ensures LoggedFrom(log, |db.log|, Event(tenant, id, None, user, AssigneeChanged, UserDeactivated))
    {
      assert id in b;
      var k :| 0 <= k < |b| && b[k] == id;
      assert log[|db.log| + |a| + k] == eb[k];
    }
  }

  ghost predicate LoggedFrom(log: seq<Event>, from: nat, e: Event) {
    exists k :: from <= k < |log| && log[k] == e
  }

  /** The event is about a row that had the user. */
  predicate ClearingOf(db: Db, tenant: int, user: int, e: Event) {
    && e.checklistId in db.checklists && db.checklists[e.checklistId].tenantId == tenant
    && e.tenantId == tenant && e.actor == user && e.itemId == None && e.detail == UserDeactivated
    && match e.action
       case ApproverChanged => db.checklists[e.checklistId].approverId == Some(user)
       case AssigneeChanged => db.checklists[e.checklistId].assignedUserId == Some(user)
       case _ => false
  }

  // ---- Who can come to hold a checklist ----

  ghost predicate AllBelong(db: Db) {
    forall id :: id in db.checklists ==> HolderBelongs(db.members, db.checklists[id])
  }

  /** Memberships may be added between transactions, not taken away. */
  predicate KeepsMembers(db: Db, op: Op) {
    op.TablesOp? ==> db.members <= op.members
  }

  lemma RequestKeepsHolders(db: Db, tenant: int, id: int, m: Mutation)
    requires DbOk(db) && AllBelong(db)
    ensures AllBelong(Mutate(db, tenant, id, m).0) && Mutate(db, tenant, id, m).1 != Err(ErrTrigger)
    ensures Mutate(db, tenant, id, m).0.members == db.members
  {
    if id in db.checklists {
      var c := Load(db.checklists[id], db.items);
      if Apply(c, m).Done? {
        ApplyKeepsHeader(c, m);
      }
      if Mutate(db, tenant, id, m).1.Ok? {
        MutateEffect(db, tenant, id, m);
      }
    }
  }

  lemma StepKeepsHolders(db: Db, op: Op)
    requires DbOk(db) && AllBelong(db) && KeepsMembers(db, op)
    ensures AllBelong(Step(db, op))
  {
    match op
    case CreateOp(n, now) =>
      if Create(db, n, now).1.Ok? {
        CreationIsAnswered(db, n, now);
        CreatedRow(db, n, now);
      }
    case MutateOp(tenant, id, m) => RequestKeepsHolders(db, tenant, id, m);
    case ClaimOp(tenant, id, user, expected) => ClaimIsAnswered(db, tenant, id, user, expected);
    case ClearOp(tenant, user) => SuspensionIsAnswered(db, tenant, user);
    case TablesOp(members, templates) =>
  }

  ghost predicate MembershipsOnlyGrow(w: World, ops: seq<Op>)
    requires DbOk(w.db)
  {
    forall k :: 0 <= k < |ops| ==> KeepsMembers(Run(w, ops[..k]).db, ops[k])
  }

  lemma {:induction false} HoldersStayMembers(ops: seq<Op>)
    requires MembershipsOnlyGrow(EMPTY, ops)
    ensures AllBelong(Run(EMPTY, ops).db)
  {
    if |ops| == 0 {
    } else {
      var n := |ops| - 1;
      assert forall k :: 0 <= k < n ==> ops[..n][..k] == ops[..k];
      HoldersStayMembers(ops[..n]);
      StepKeepsHolders(Run(EMPTY, ops[..n]).db, ops[n]);
    }
  }

  /**
   As long as nobody leaves a group, in every reachable state whoever holds a checklist of a
   group is a member of it, so the trigger refuses no request, and no suspension.
   */
  lemma HoldersBelongThroughout(ops: seq<Op>, tenant: int, id: int, m: Mutation, user: int)
    requires MembershipsOnlyGrow(EMPTY, ops)
    ensures AllBelong(Run(EMPTY, ops).db)
    ensures Mutate(Run(EMPTY, ops).db, tenant, id, m).1 != Err(ErrTrigger)
    ensures Clear(Run(EMPTY, ops).db, tenant, user).1 == Ok(())
  {
    HoldersStayMembers(ops);
    RequestKeepsHolders(Run(EMPTY, ops).db, tenant, id, m);
    SuspensionIsAnswered(Run(EMPTY, ops).db, tenant, user);
  }
}
