/** Whom a request notifies, told from what it did to the checklist's status. */
module Notices {
  import opened Domain
  import opened ChecklistSpec
  import opened Database
  import opened Runs

  lemma {:induction false} QuietEvents(h: Header, events: seq<Event>)
    requires forall k :: 0 <= k < |events| ==> NotificationFor(h, events[k]).None?
    ensures NotificationsFor(h, events) == []
  {
    if |events| == 0 {
    } else {
      QuietEvents(h, events[..|events| - 1]);
    }
  }

  /** Only the last event of a request can be one that notifies. */
  lemma LastSpeaks(h: Header, quiet: seq<Event>, last: Event)
    requires forall k :: 0 <= k < |quiet| ==> NotificationFor(h, quiet[k]).None?
    ensures NotificationsFor(h, quiet + [last]) == match NotificationFor(h, last) case None => [] case Some(n) => [n]
  {
    QuietEvents(h, quiet);
    assert (quiet + [last])[..|quiet|] == quiet;
  }

  /** What people hear of a request that took the checklist from status before to status after. */
  function Expected(h: Header, before: Status, after: Status, m: Mutation): seq<Notification> {
    if before == Open && after == Validating && h.approverId.Some? then
      [Notification(h.tenantId, h.approverId.value, SubmittedForValidation, h.id, Some(m.actor))]
    else if before == Validating && after == Open && m.DoReject? && h.assignedUserId.Some? then
      [Notification(h.tenantId, h.assignedUserId.value, Rejected, h.id, Some(m.actor))]
    else if before != Open && after == Open && !m.DoReject?
            && h.assignedUserId.Some? && h.assignedUserId != Some(m.actor) then
      [Notification(h.tenantId, h.assignedUserId.value, Reopened, h.id, Some(m.actor))]
    else []
  }

  lemma OverrideShape(c: ChecklistState, m: Mutation) returns (e: Event)
    requires CreatorOverride(m) && Apply(c, m).Done?
    ensures Apply(c, m).events == [e] + ReopenEvents(c.head, m.actor)
    ensures Apply(c, m).state.head == c.head.(status := Open)
    ensures forall h :: NotificationFor(h, e).None?
  {
    e := Apply(c, m).events[0];
  }

  lemma OverrideNotices(before: Header, e: Event, m: Mutation)
    requires CreatorOverride(m) && forall h :: NotificationFor(h, e).None?
    ensures NotificationsFor(before.(status := Open), [e] + ReopenEvents(before, m.actor))
            == Expected(before, before.status, Open, m)
  {
    var h := before.(status := Open);
    if before.status == Open {
      QuietEvents(h, [e]);
      assert [e] + [] == [e];
    } else {
      LastSpeaks(h, [e], ReopenEvents(before, m.actor)[0]);
    }
  }

  lemma RejectEventsNotify(c: ChecklistState, actor: int, indices: seq<int>, h: Header)
    requires forall k :: 0 <= k < |indices| ==> 0 <= indices[k] < |c.items|
    ensures var e := ChecklistEvent(c.head, actor, Rejected);
            NotificationsFor(h, UncheckEvents(c, actor, indices) + [e]) ==
            match NotificationFor(h, e) case None => [] case Some(n) => [n]
  {
    var unchecks := UncheckEvents(c, actor, indices);
    forall k | 0 <= k < |unchecks|
      ensures NotificationFor(h, unchecks[k]).None?
    {
      assert unchecks[k].action == ItemUnchecked;
    }
    LastSpeaks(h, unchecks, ChecklistEvent(c.head, actor, Rejected));
  }

  lemma RejectNotices(c: ChecklistState, actor: int, indices: seq<int>, m: Mutation)
    requires forall k :: 0 <= k < |indices| ==> 0 <= indices[k] < |c.items|
    requires m.DoReject? && m.actor == actor && Reject(c, actor, indices).Done?
    ensures NotificationsFor(Reject(c, actor, indices).state.head, Reject(c, actor, indices).events)
            == Expected(c.head, c.head.status, Open, m)
  {
    RejectEventsNotify(c, actor, indices, c.head.(status := Open));
  }

  lemma CheckNotices(c: ChecklistState, i: int, m: Mutation)
    requires m.DoCheckItem? && 0 <= i < |c.items| && CheckItem(c, i, m.actor, m.now).Done?
    ensures var o := CheckItem(c, i, m.actor, m.now);
            NotificationsFor(o.state.head, o.events) == Expected(c.head, c.head.status, o.state.head.status, m)
  {
    var o := CheckItem(c, i, m.actor, m.now);
    if o.state.head.status == Open {
      QuietEvents(o.state.head, o.events);
    } else {
      LastSpeaks(o.state.head, [o.events[0]], o.events[1]);
      assert o.events == [o.events[0]] + [o.events[1]];
    }
  }

  lemma ApplyNotifies(c: ChecklistState, m: Mutation)
    requires Apply(c, m).Done?
    ensures var o := Apply(c, m);
            NotificationsFor(o.state.head, o.events) == Expected(c.head, c.head.status, o.state.head.status, m)
  {
    match m
    case DoApprove(actor) => QuietEvents(Apply(c, m).state.head, Apply(c, m).events);
    case DoReject(actor, ids) => RejectNotices(c, actor, ResolveIndices(c.items, ids).value, m);
    case DoCheckItem(itemId, _, _) => CheckNotices(c, ItemIndex(c.items, itemId).value, m);
    case _ =>
      var e := OverrideShape(c, m);
      OverrideNotices(c.head, e, m);
  }

  lemma MutateAppends(db: Db, tenant: int, id: int, m: Mutation)
    requires DbOk(db) && Mutate(db, tenant, id, m).1.Ok?
    ensures id in db.checklists && Apply(Load(db.checklists[id], db.items), m).Done?
    ensures var o := Apply(Load(db.checklists[id], db.items), m);
            Mutate(db, tenant, id, m).0.notifications == db.notifications + NotificationsFor(o.state.head, o.events)
  {
  }

  /**
   A request leaves at most one notice: a submission goes to the approver, a rejection to
   the holder, a creator's reopening to the holder unless the creator holds it, and nothing
   else is announced.
   */
  lemma RequestNotifies(db: Db, tenant: int, id: int, m: Mutation)
    requires DbOk(db) && Mutate(db, tenant, id, m).1.Ok?
    ensures var db' := Mutate(db, tenant, id, m).0;
            && id in db.checklists && id in db'.checklists
            && var h := db.checklists[id];
            db'.notifications == db.notifications + Expected(h, h.status, db'.checklists[id].status, m)
  {
    MutateEffect(db, tenant, id, m);
    MutateAppends(db, tenant, id, m);
    ApplyNotifies(Load(db.checklists[id], db.items), m);
  }
}
