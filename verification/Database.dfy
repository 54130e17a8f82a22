/**
 The database the checklist repository works on, and what each transaction does to it, as
 a function of the database before. Store.dfy runs the same transactions statement by
 statement and is proved against these functions.
 */
module Database {
  import opened Domain
  import opened ChecklistSpec
  import opened ItemStore
  import opened Query
  import opened Finite

  datatype TemplateLine = TemplateLine(name: string, validationRef: string)
  datatype TemplateInfo = TemplateInfo(tenantId: int, name: string, lines: seq<TemplateLine>)

  datatype Db = Db(
    checklists: map<int, Header>,
    items: Rows,
    log: seq<Event>,
    notifications: seq<Notification>,
    members: set<(int, int)>,             // (user, group)
    templates: map<int, TemplateInfo>,
    nextChecklist: int,
    nextItem: int)

  ghost predicate DbOk(db: Db) {
    && TableOk(db.items, db.nextItem)
    && db.nextChecklist > 0
    && (forall id :: id in db.checklists ==> db.checklists[id].id == id && 0 < id < db.nextChecklist)
    && (forall id :: id in db.items ==> db.items[id].item.checklistId in db.checklists)
    && (forall k :: 0 <= k < |db.log| ==> db.log[k].checklistId in db.checklists)
  }

  /** The trigger on every INSERT or UPDATE of a checklists row. */
  predicate TriggerAllows(members: set<(int, int)>, h: Header) {
    h.assignedGroupId.Some? && h.assignedUserId.Some? ==> (h.assignedUserId.value, h.assignedGroupId.value) in members
  }

  predicate Exists(db: Db, tenant: int, id: int) {
    id in db.checklists && db.checklists[id].tenantId == tenant
  }

  function Load(h: Header, rows: Rows): ChecklistState
    requires Keyed(rows)
  {
    ChecklistState(h, ReadItems(rows, h.id))
  }

  function NotificationFor(h: Header, e: Event): Option<Notification> {
    match e.action
    case SubmittedForValidation =>
      if h.approverId.None? then None
      else Some(Notification(h.tenantId, h.approverId.value, e.action, h.id, Some(e.actor)))
    case Rejected =>
      if h.assignedUserId.None? then None
      else Some(Notification(h.tenantId, h.assignedUserId.value, e.action, h.id, Some(e.actor)))
    case Reopened =>
      if h.assignedUserId.None? || h.assignedUserId.value == e.actor then None
      else Some(Notification(h.tenantId, h.assignedUserId.value, e.action, h.id, Some(e.actor)))
    case _ => None
  }

  function NotificationsFor(h: Header, events: seq<Event>): seq<Notification> {
    if |events| == 0 then []
    else
      NotificationsFor(h, events[..|events| - 1]) +
      match NotificationFor(h, events[|events| - 1])
      case None => []
      case Some(n) => [n]
  }

  /** Save: the status, the item rows, the events and the notifications they imply; or the trigger's error. */
  function Save(db: Db, c: ChecklistState, events: seq<Event>): (r: Result<(Db, seq<Item>)>)
    requires c.head.id in db.checklists
  {
    var row := db.checklists[c.head.id].(status := c.head.status);
    if !TriggerAllows(db.members, row) then Err(ErrTrigger)
    else
      var s := SaveItems(db.items, db.nextItem, c.head.id, c.items);
      Ok((db.(checklists := db.checklists[c.head.id := row],
              items := s.rows, nextItem := s.next,
              log := db.log + events,
              notifications := db.notifications + NotificationsFor(c.head, events)),
          s.items))
  }

  /** Get, one request, Save, in one transaction: an error rolls everything back. */
  function Mutate(db: Db, tenant: int, id: int, m: Mutation): (r: (Db, Result<ChecklistState>))
    requires DbOk(db)
  {
    if !Exists(db, tenant, id) then (db, Err(ErrNoRows))
    else match Apply(Load(db.checklists[id], db.items), m)
      case Refused(e) => (db, Err(e))
      case Done(c, events) =>
        ApplyKeepsId(Load(db.checklists[id], db.items), m);
        match Save(db, c, events)
        case Err(e) => (db, Err(e))
        case Ok((db', items)) => (db', Ok(c.(items := items)))
  }

  lemma ApplyKeepsId(c: ChecklistState, m: Mutation)
    requires Apply(c, m).Done?
    ensures Apply(c, m).state.head.id == c.head.id
  {
  }

  function ClaimedEvent(tenant: int, id: int, user: int): Event {
    Event(tenant, id, None, user, Claimed, NoDetail)
  }

  /** Compare-and-swap on the assignee; a loser is told who holds the checklist now. */
  function Claim(db: Db, tenant: int, id: int, user: int, expected: Option<int>): (Db, Result<bool>) {
    if Exists(db, tenant, id) && db.checklists[id].assignedUserId == expected then
      var row := db.checklists[id].(assignedUserId := Some(user));
      if !TriggerAllows(db.members, row) then (db, Err(ErrTrigger))
      else (db.(checklists := db.checklists[id := row], log := db.log + [ClaimedEvent(tenant, id, user)]), Ok(true))
    else if !Exists(db, tenant, id) then (db, Err(ErrNoRows))
    else (db.(notifications := db.notifications +
                [Notification(tenant, user, ClaimLost, id, db.checklists[id].assignedUserId)]), Ok(false))
  }

  function Approving(db: Db, tenant: int, user: int): set<int> {
    set id | id in db.checklists && db.checklists[id].tenantId == tenant && db.checklists[id].approverId == Some(user)
  }

  function Holding(db: Db, tenant: int, user: int): set<int> {
    set id | id in db.checklists && db.checklists[id].tenantId == tenant &&
        db.checklists[id].assignedUserId == Some(user)
  }

  predicate IdLess(a: int, b: int) {
    a < b
  }

  /** The ids an UPDATE ... RETURNING id reports; their order is not promised, ascending here. */
  function Returning(ids: set<int>): (r: seq<int>)
    ensures forall x :: x in r <==> x in ids
    ensures NoDuplicates(r) && Elements(r) == ids && Sorted(r, IdLess)
  {
    ListingHasElements(OrderBy(ids, IdLess), ids);
    OrderBy(ids, IdLess)
  }

  function ClearedEvents(tenant: int, user: int, ids: seq<int>, action: Action): (r: seq<Event>)
    ensures |r| == |ids|
  {
    seq(|ids|, k requires 0 <= k < |ids| => Event(tenant, ids[k], None, user, action, UserDeactivated))
  }

  function WithoutApprover(checklists: map<int, Header>, ids: set<int>): map<int, Header> {
    map id | id in checklists :: if id in ids then checklists[id].(approverId := None) else checklists[id]
  }

  function WithoutAssignee(checklists: map<int, Header>, ids: set<int>): map<int, Header> {
    map id | id in checklists :: if id in ids then checklists[id].(assignedUserId := None) else checklists[id]
  }

  predicate TriggerAllowsAll(db: Db, checklists: map<int, Header>, ids: set<int>) {
    forall id :: id in ids && id in checklists ==> TriggerAllows(db.members, checklists[id])
  }

  /** Suspension clears the user as approver, then as assignee, wherever the tenant has them. */
  function Clear(db: Db, tenant: int, user: int): (Db, Result<()>) {
    var approving := Approving(db, tenant, user);
    var holding := Holding(db, tenant, user);
    var cleared := WithoutApprover(db.checklists, approving);
    var cleared' := WithoutAssignee(cleared, holding);
    // The trigger has nothing to say about the second UPDATE: its rows have no assignee left.
    if !TriggerAllowsAll(db, cleared, approving) then (db, Err(ErrTrigger))
    else
      (db.(checklists := cleared',
           log := db.log + ClearedEvents(tenant, user, Returning(approving), ApproverChanged)
                         + ClearedEvents(tenant, user, Returning(holding), AssigneeChanged)), Ok(()))
  }

  /** The fields of a checklist a caller of Create fills in; no status and no name are allowed. */
  datatype NewChecklist = NewChecklist(
    tenantId: int, templateId: int, name: string, creatorId: int,
    assignedGroupId: Option<int>, assignedUserId: Option<int>, hidden: bool, approverId: Option<int>)

  function NewItems(cid: int, lines: seq<TemplateLine>): (r: seq<Item>)
    ensures |r| == |lines|
  {
    seq(|lines|, k requires 0 <= k < |lines| => NewItem(cid, lines[k].name, k, lines[k].validationRef))
  }

  /** Insert the row, copy the template's lines into item rows, log the creation. */
  function Create(db: Db, n: NewChecklist, now: int): (Db, Result<int>) {
    if n.templateId !in db.templates || db.templates[n.templateId].tenantId != n.tenantId then (db, Err(ErrNoRows))
    else
      var t := db.templates[n.templateId];
      var id := db.nextChecklist;
      var row := Header(id, n.tenantId, n.templateId, if n.name == "" then t.name else n.name, n.creatorId,
                        n.assignedGroupId, n.assignedUserId, n.hidden, n.approverId, Open, now);
      if !TriggerAllows(db.members, row) then (db, Err(ErrTrigger))
      else
        var s := InsertEach(db.items, db.nextItem, id, NewItems(id, t.lines));
        (db.(checklists := db.checklists[id := row], nextChecklist := id + 1,
             items := s.rows, nextItem := s.next,
             log := db.log + [Event(n.tenantId, id, None, n.creatorId, Created, NoDetail)]), Ok(id))
  }

  /** Create's loop: one INSERT per copied line. */
  function InsertEach(rows: Rows, next: int, cid: int, items: seq<Item>): (s: Saved)
    ensures |s.items| == |items|
  {
    if |items| == 0 then Saved(rows, next, [])
    else
      var p := InsertEach(rows, next, cid, items[..|items| - 1]);
      var it := items[|items| - 1];
      Saved(p.rows[p.next := NewRow(p.next, cid, it)], p.next + 1, p.items + [it.(id := p.next, checklistId := cid)])
  }

  /** One committed or rolled-back transaction, or a change of the tables checklists only read. */
  datatype Op =
    | CreateOp(n: NewChecklist, now: int)
    | MutateOp(tenant: int, id: int, m: Mutation)
    | ClaimOp(tenant: int, id: int, user: int, expected: Option<int>)
    | ClearOp(tenant: int, user: int)
    | TablesOp(members: set<(int, int)>, templates: map<int, TemplateInfo>)

  lemma {:induction false} SaveEachKeepsTable(rows: Rows, next: int, cid: int, items: seq<Item>)
    requires TableOk(rows, next)
    ensures var s := SaveEach(rows, next, cid, items);
            && TableOk(s.rows, s.next) && next <= s.next
            && (forall id :: id in rows ==> id in s.rows && s.rows[id].item.checklistId == rows[id].item.checklistId)
            && (forall id :: id in s.rows && id !in rows ==> s.rows[id].item.checklistId == cid)
  {
    if |items| == 0 {
    } else {
      SaveEachKeepsTable(rows, next, cid, items[..|items| - 1]);
    }
  }

  /** Creating copies through the same INSERTs that Save uses for new items. */
  lemma {:induction false} InsertIsSave(rows: Rows, next: int, cid: int, lines: seq<TemplateLine>, n: int)
    requires TableOk(rows, next) && 0 <= n <= |lines|
    ensures InsertEach(rows, next, cid, NewItems(cid, lines)[..n]) ==
            SaveEach(rows, next, cid, NewItems(cid, lines)[..n])
  {
    if n > 0 {
      InsertIsSave(rows, next, cid, lines, n - 1);
      var items := NewItems(cid, lines);
      assert items[..n][..n - 1] == items[..n - 1];
    }
  }

  lemma SaveKeepsDbOk(db: Db, c: ChecklistState, events: seq<Event>)
    requires DbOk(db) && c.head.id in db.checklists && Save(db, c, events).Ok?
    requires forall k :: 0 <= k < |events| ==> events[k].checklistId == c.head.id
    ensures DbOk(Save(db, c, events).value.0)
  {
    SaveEachKeepsTable(db.items, db.nextItem, c.head.id, c.items);
  }

  lemma MutateKeepsDbOk(db: Db, tenant: int, id: int, m: Mutation)
    requires DbOk(db)
    ensures DbOk(Mutate(db, tenant, id, m).0)
  {
    if Mutate(db, tenant, id, m).1.Ok? {
      var c := Load(db.checklists[id], db.items);
      ApplyKeepsId(c, m);
      EventsAreOwn(c, m);
      SaveKeepsDbOk(db, Apply(c, m).state, Apply(c, m).events);
    }
  }

  lemma EventsAreOwn(c: ChecklistState, m: Mutation)
    requires Apply(c, m).Done?
    ensures forall k :: 0 <= k < |Apply(c, m).events| ==> Apply(c, m).events[k].checklistId == c.head.id
  {
  }

  lemma CreateKeepsDbOk(db: Db, n: NewChecklist, now: int)
    requires DbOk(db)
    ensures DbOk(Create(db, n, now).0)
  {
    var (db', r) := Create(db, n, now);
    if r.Ok? {
      var lines := db.templates[n.templateId].lines;
      var id := db.nextChecklist;
      InsertIsSave(db.items, db.nextItem, id, lines, |lines|);
      assert NewItems(id, lines)[..|lines|] == NewItems(id, lines);
      SaveEachKeepsTable(db.items, db.nextItem, id, NewItems(id, lines));
    }
  }

  lemma ClearKeepsDbOk(db: Db, tenant: int, user: int)
    requires DbOk(db)
    ensures DbOk(Clear(db, tenant, user).0)
  {
    var approving := Returning(Approving(db, tenant, user));
    var holding := Returning(Holding(db, tenant, user));
    forall k | 0 <= k < |approving| ensures approving[k] in db.checklists {
      assert approving[k] in approving;
    }
    forall k | 0 <= k < |holding| ensures holding[k] in db.checklists {
      assert holding[k] in holding;
    }
  }

  lemma StepKeepsDbOk(db: Db, op: Op)
    requires DbOk(db)
    ensures DbOk(StepUnchecked(db, op))
  {
    match op
    case CreateOp(n, now) => CreateKeepsDbOk(db, n, now);
    case MutateOp(tenant, id, m) => MutateKeepsDbOk(db, tenant, id, m);
    case ClaimOp(tenant, id, user, expected) =>
    case ClearOp(tenant, user) => ClearKeepsDbOk(db, tenant, user);
    case TablesOp(members, templates) =>
  }

  function Step(db: Db, op: Op): (db': Db)
    requires DbOk(db)
    ensures DbOk(db')
  {
    StepKeepsDbOk(db, op);
    StepUnchecked(db, op)
  }

  function StepUnchecked(db: Db, op: Op): Db
    requires DbOk(db)
  {
    match op
    case CreateOp(n, now) => Create(db, n, now).0
    case MutateOp(tenant, id, m) => Mutate(db, tenant, id, m).0
    case ClaimOp(tenant, id, user, expected) => Claim(db, tenant, id, user, expected).0
    case ClearOp(tenant, user) => Clear(db, tenant, user).0
    case TablesOp(members, templates) => db.(members := members, templates := templates)
  }
}
