/** Who can finish a checklist, who can touch it while it awaits approval, and what a rejection does. */
module Approval {
  import opened Domain
  import opened ChecklistSpec
  import opened LifecycleLaw

  function Actor(m: Mutation): int {
    m.actor
  }

  /** A creator-only override, requested by the creator. */
  predicate ByCreator(c: ChecklistState, m: Mutation) {
    CreatorOverride(m) && Actor(m) == c.head.creatorId
  }

  predicate ByApprover(c: ChecklistState, m: Mutation) {
    c.head.approverId == Some(Actor(m))
  }

  /** Only the approver completes a checklist that has one; otherwise only an item's responsible user does. */
  lemma WhoCompletes(c: ChecklistState, m: Mutation)
    requires Apply(c, m).Done? && c.head.status != Complete
    requires Apply(c, m).state.head.status == Complete
    ensures c.head.approverId.Some? ==> m == DoApprove(c.head.approverId.value) && c.head.status == Validating
    ensures c.head.approverId.None? ==>
              && m.DoCheckItem? && c.head.status == Open && ItemIndex(c.items, m.itemId).Some?
              && ResponsibleUserFor(c, c.items[ItemIndex(c.items, m.itemId).value]) == Some(m.actor)
  {
  }

  /** While validating, items change only by the approver's rejection or a creator override. */
  lemma WhoChangesItemsWhileValidating(c: ChecklistState, m: Mutation)
    requires Apply(c, m).Done? && c.head.status == Validating
    ensures Apply(c, m).state.items != c.items ==> (m.DoReject? && ByApprover(c, m)) || ByCreator(c, m)
  {
  }

  /** Without an approver to act, a validating checklist answers to its creator only; so does a complete one. */
  lemma OnlyTheCreatorUnfreezes(c: ChecklistState, m: Mutation)
    requires Apply(c, m).Done?
    requires c.head.status == Complete || (c.head.status == Validating && c.head.approverId.None?)
    ensures ByCreator(c, m) && Apply(c, m).state.head.status == Open
  {
  }

  lemma ResolvedSet(items: seq<Item>, ids: seq<int>, k: int)
    requires DistinctIds(items) && ResolveIndices(items, ids).Some? && 0 <= k < |items|
    ensures k in ResolveIndices(items, ids).value <==> items[k].id in ids
  {
    var indices := ResolveIndices(items, ids).value;
    if items[k].id in ids {
      var n :| 0 <= n < |ids| && ids[n] == items[k].id;
      assert indices[n] == k;
    }
    if k in indices {
      var n :| 0 <= n < |indices| && indices[n] == k;
      assert ids[n] == items[k].id;
    }
  }

  /**
   A rejection depends on the set of named items only. On a checklist that keeps the
   lifecycle every named item is unchecked and handed to its former checker, and the other
   items stay as they were.
   */
  lemma {:induction false} RejectNamesASet(c: ChecklistState, actor: int, ids: seq<int>)
    requires Lifecycle(c) && Apply(c, DoReject(actor, ids)).Done?
    ensures var c' := Apply(c, DoReject(actor, ids)).state;
            && c'.head == c.head.(status := Open) && |c'.items| == |c.items|
            && forall k :: 0 <= k < |c.items| ==>
                 c'.items[k] ==
                   if c.items[k].id in ids then Uncheck(c.items[k]).(assigneeOverride := c.items[k].checkedBy)
                   else c.items[k]
  {
    var indices := ResolveIndices(c.items, ids).value;
    forall k | 0 <= k < |c.items|
      ensures k in (set n | 0 <= n < |indices| :: indices[n]) <==> c.items[k].id in ids
    {
      ResolvedSet(c.items, ids, k);
    }
  }

  lemma ResolvesBySet(items: seq<Item>, ids: seq<int>)
    ensures ResolveIndices(items, ids).Some? <==> forall x :: x in ids ==> ItemIndex(items, x).Some?
  {
    if ResolveIndices(items, ids).Some? {
      forall x | x in ids
        ensures ItemIndex(items, x).Some?
      {
        var k :| 0 <= k < |ids| && ids[k] == x;
      }
    } else {
      var k :| 0 <= k < |ids| && ItemIndex(items, ids[k]).None?;
      assert ids[k] in ids;
    }
  }

  /** So repeating or permuting the named items changes nothing. */
  lemma RejectIgnoresRepetition(c: ChecklistState, actor: int, ids: seq<int>, ids': seq<int>)
    requires Lifecycle(c) && (forall x :: x in ids <==> x in ids')
    ensures var a, b := Apply(c, DoReject(actor, ids)), Apply(c, DoReject(actor, ids'));
            && a.Done? == b.Done?
            && (a.Done? ==> a.state == b.state)
            && (a.Refused? ==> a == b)
  {
    var items := c.items;
    ResolvesBySet(items, ids);
    ResolvesBySet(items, ids');
    if Apply(c, DoReject(actor, ids)).Done? {
      RejectNamesASet(c, actor, ids);
      RejectNamesASet(c, actor, ids');
      assert Apply(c, DoReject(actor, ids)).state.items == Apply(c, DoReject(actor, ids')).state.items;
    }
  }
}
