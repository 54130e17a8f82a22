/**
 Concurrent transactions on one checklist, statement by statement: row lock, reads, writes
 kept private until commit, commit or rollback. Any interleaving ends as if the committed
 transactions had run one at a time, in the order of their commits.
 */
module LockRefinement {
  import opened Domain
  import opened ChecklistSpec
  import opened ItemStore
  import opened Database
  import opened StoredLaw
  import opened Replay
  import opened LifecycleLaw
  import opened Runs

  /** What is committed: the checklist's row, the item rows, and the audit log. */
  datatype Slice = Slice(head: Header, rows: Rows, log: seq<Event>)

  datatype Program =
    | Request(m: Mutation)                            // Get ... FOR UPDATE, domain method, Save
    | Claiming(user: int, expected: Option<int>)      // compare-and-swap UPDATE, claimed event
    | Clearing(user: int)                             // approver UPDATE, assignee UPDATE, events

  /** Row versions and events a transaction has written but not committed. */
  datatype Writes = Writes(head: Header, rows: Rows, events: seq<Event>)

  datatype Phase =
    | Begun
    | Locked(head: Header)
    | Read(c: ChecklistState)
    | Decided(c: ChecklistState, events: seq<Event>)
    | HalfCleared(pending: Option<Writes>)
    | Wrote(writes: Writes, base: int)
    | Untouched                                       // its UPDATEs matched nothing here
    | Committed(wrote: bool)
    | RolledBack

  datatype Tx = Tx(program: Program, phase: Phase)

  /** A committed transaction, with the first id the sequence gave it. */
  datatype Entry = Entry(t: int, program: Program, base: int)

  datatype System = System(
    committed: Slice,
    lock: Option<int>,
    txs: map<int, Tx>,
    next: int,                                        // the id sequence; rollbacks do not return ids
    history: seq<Entry>)

  datatype Act =
    | TakeLock(t: int)
    | ReadRows(t: int)
    | CallDomain(t: int)
    | SaveAll(t: int)
    | TryClaim(t: int)
    | ClearApprover(t: int)
    | ClearAssignee(t: int)
    | Commit(t: int)
    | Rollback(t: int)
    | UseSequence(n: nat)                             // other sessions draw ids

  // ---- One transaction on its own ----

  ghost function View(s: Slice): ChecklistState {
    ChecklistState(s.head, if Keyed(s.rows) then ReadItems(s.rows, s.head.id) else [])
  }

  ghost function SaveSlice(s: Slice, c: ChecklistState, events: seq<Event>, base: int): Slice {
    Slice(s.head.(status := c.head.status), SaveItems(s.rows, base, s.head.id, c.items).rows, s.log + events)
  }

  ghost function ClearApproverOf(s: Slice, user: int): Slice {
    if s.head.approverId != Some(user) then s
    else Slice(s.head.(approverId := None), s.rows,
               s.log + [Event(s.head.tenantId, s.head.id, None, user, ApproverChanged, UserDeactivated)])
  }

  ghost function ClearAssigneeOf(s: Slice, user: int): Slice {
    if s.head.assignedUserId != Some(user) then s
    else Slice(s.head.(assignedUserId := None), s.rows,
               s.log + [Event(s.head.tenantId, s.head.id, None, user, AssigneeChanged, UserDeactivated)])
  }

  /** The whole transaction in one step. */
  ghost function Serial(s: Slice, p: Program, base: int): Slice {
    match p
    case Request(m) =>
      (match Apply(View(s), m)
       case Refused(_) => s
       case Done(c, events) => SaveSlice(s, c, events, base))
    case Claiming(user, expected) =>
      if s.head.assignedUserId != expected then s
      else Slice(s.head.(assignedUserId := Some(user)), s.rows, s.log +
          [ClaimedEvent(s.head.tenantId, s.head.id, user)])
    case Clearing(user) => ClearAssigneeOf(ClearApproverOf(s, user), user)
  }

  ghost function SerialRun(s: Slice, history: seq<Entry>): Slice {
    if |history| == 0 then s
    else
      var e := history[|history| - 1];
      Serial(SerialRun(s, history[..|history| - 1]), e.program, e.base)
  }

  // ---- The interleaved system ----

  /** The row versions by which one table differs from another. */
  ghost function Changed(before: Rows, after: Rows): Rows {
    map id | id in after && (id !in before || before[id] != after[id]) :: after[id]
  }

  ghost function Publish(s: Slice, w: Writes): Slice {
    Slice(w.head, s.rows + w.rows, s.log + w.events)
  }

  ghost function Begin(s: System, t: int, phase: Phase): System
    requires t in s.txs
  {
    s.(txs := s.txs[t := s.txs[t].(phase := phase)])
  }

  ghost function LockAnd(s: System, t: int, phase: Phase): System
    requires t in s.txs
  {
    Begin(s, t, phase).(lock := Some(t))
  }

  predicate Free(s: System, t: int) {
    s.lock.None? || s.lock == Some(t)
  }

  /** One statement of one transaction. A statement that must wait, or is not due, does nothing. */
  ghost function Do(s: System, act: Act): System {
    match act
    case UseSequence(n) => s.(next := s.next + n)
    case TakeLock(t) =>
      if t in s.txs && s.txs[t].program.Request? && s.txs[t].phase.Begun? && s.lock.None?
      then LockAnd(s, t, Locked(s.committed.head)) else s
    case ReadRows(t) =>
      if t in s.txs && s.txs[t].phase.Locked?
      then Begin(s, t, Read(ChecklistState(s.txs[t].phase.head, View(s.committed).items))) else s
    case CallDomain(t) =>
      if t in s.txs && s.txs[t].phase.Read? && s.txs[t].program.Request?
      then match Apply(s.txs[t].phase.c, s.txs[t].program.m)
           case Refused(_) => s                       // nothing left but to roll back
           case Done(c, events) => Begin(s, t, Decided(c, events))
      else s
    case SaveAll(t) =>
      if t in s.txs && s.txs[t].phase.Decided? then
        var p := s.txs[t].phase;
        var saved := SaveItems(s.committed.rows, s.next, s.committed.head.id, p.c.items);
        var w := Writes(s.committed.head.(status := p.c.head.status), Changed(s.committed.rows, saved.rows), p.events);
        Begin(s, t, Wrote(w, s.next)).(next := if saved.next > s.next then saved.next else s.next)
      else s
    case TryClaim(t) =>
      if t in s.txs && s.txs[t].phase.Begun? && s.txs[t].program.Claiming? then
        var p := s.txs[t].program;
        if s.committed.head.assignedUserId != p.expected then Begin(s, t, Untouched)
        else if !s.lock.None? then s
        else LockAnd(s, t, Wrote(Writes(s.committed.head.(assignedUserId := Some(p.user)), map[],
                                        [ClaimedEvent(s.committed.head.tenantId, s.committed.head.id, p.user)]),
                                 s.next))
      else s
    case ClearApprover(t) =>
      if t in s.txs && s.txs[t].phase.Begun? && s.txs[t].program.Clearing? then
        var user := s.txs[t].program.user;
        if s.committed.head.approverId != Some(user) then Begin(s, t, HalfCleared(None))
        else if !s.lock.None? then s
        else LockAnd(s, t, HalfCleared(Some(Pending(s.committed, ClearApproverOf(s.committed, user)))))
      else s
    case ClearAssignee(t) =>
      if t in s.txs && s.txs[t].phase.HalfCleared? && s.txs[t].program.Clearing? then
        var user := s.txs[t].program.user;
        var pending := s.txs[t].phase.pending;
        var mine := if pending.Some? then Publish(s.committed, pending.value) else s.committed;
        if mine.head.assignedUserId != Some(user) then
          Begin(s, t, if pending.Some? then Wrote(pending.value, s.next) else Untouched)
        else if !Free(s, t) then s
        else LockAnd(s, t, Wrote(Pending(s.committed, ClearAssigneeOf(mine, user)), s.next))
      else s
    case Commit(t) =>
      if t !in s.txs then s
      else if s.txs[t].phase.Wrote? then
        Begin(s, t, Committed(true)).(committed := Publish(s.committed, s.txs[t].phase.writes), lock := None,
                                      history := s.history + [Entry(t, s.txs[t].program, s.txs[t].phase.base)])
      else if s.txs[t].phase.Untouched? then Begin(s, t, Committed(false))
      else s
    case Rollback(t) =>
      if t in s.txs && !s.txs[t].phase.Committed? && !s.txs[t].phase.RolledBack?
      then Begin(s, t, RolledBack).(lock := if s.lock == Some(t) then None else s.lock) else s
  }

  /** The uncommitted writes that turn one slice into another with the same item rows. */
  ghost function Pending(before: Slice, after: Slice): Writes {
    Writes(after.head, map[], if |before.log| <= |after.log| then after.log[|before.log|..] else [])
  }

  ghost function RunActs(s: System, acts: seq<Act>): System {
    if |acts| == 0 then s else Do(RunActs(s, acts[..|acts| - 1]), acts[|acts| - 1])
  }

  ghost function Start(slice: Slice, programs: map<int, Program>, next: int): System {
    System(slice, None, map t | t in programs :: Tx(programs[t], Begun), next, [])
  }

  // ---- The invariant ----

  /** What a transaction in flight may rely on: the lock holder's reads and writes are current. */
  ghost predicate TxOk(s: System, t: int)
    requires t in s.txs
  {
    var p := s.txs[t].program;
    var held := s.lock == Some(t);
    match s.txs[t].phase
    case Begun => !held
    case Locked(h) => held && p.Request? && h == s.committed.head
    case Read(c) => held && p.Request? && c == View(s.committed)
    case Decided(c, events) => held && p.Request? && Apply(View(s.committed), p.m) == Done(c, events)
    case HalfCleared(pending) =>
      && p.Clearing?
      && (if pending.Some? then
            held && s.committed.head.approverId == Some(p.user)
            && Publish(s.committed, pending.value) == ClearApproverOf(s.committed, p.user)
          else !held && s.committed.head.approverId != Some(p.user))
    case Wrote(w, base) =>
      && held
      && TableOk(s.committed.rows, base)
      && Publish(s.committed, w) == Serial(s.committed, p, base)
      && TableOk(Publish(s.committed, w).rows, s.next)
    case Untouched => !held && !p.Request? && (p.Clearing? ==> s.committed.head.approverId != Some(p.user))
    case Committed(_) => !held
    case RolledBack => !held
  }

  /** The committed slice is what the history gives; the id sequence is ahead of it. */
  ghost predicate SerialSoFar(s: System, initial: Slice) {
    TableOk(s.committed.rows, s.next) && s.committed == SerialRun(initial, s.history)
  }

  /** The history lists each committed writer once, and nobody else. */
  ghost predicate HistoryOk(s: System) {
    && (forall k :: 0 <= k < |s.history| ==>
         s.history[k].t in s.txs && s.txs[s.history[k].t] == Tx(s.history[k].program, Committed(true)))
    && (forall j, k :: 0 <= j < k < |s.history| ==> s.history[j].t != s.history[k].t)
    && (forall t :: t in s.txs && s.txs[t].phase == Committed(true) ==>
         exists k :: 0 <= k < |s.history| && s.history[k].t == t)
  }

  ghost predicate TxsOk(s: System, programs: map<int, Program>) {
    && s.txs.Keys == programs.Keys && (forall t :: t in programs ==> s.txs[t].program == programs[t])
    && (s.lock.Some? ==> s.lock.value in s.txs)
    && (forall t :: t in s.txs ==> TxOk(s, t))
  }

  ghost predicate SystemOk(s: System, initial: Slice, programs: map<int, Program>) {
    SerialSoFar(s, initial) && HistoryOk(s) && TxsOk(s, programs)
  }

  // ---- Every act keeps it ----

  /** An act that changes one transaction's phase, and the lock only on its behalf. */
  lemma PhaseChange(s: System, s': System, t: int, initial: Slice, programs: map<int, Program>)
    requires SystemOk(s, initial, programs) && t in s.txs && t in s'.txs
    requires s'.committed == s.committed && s'.history == s.history && s.next <= s'.next
    requires s'.txs == s.txs[t := s.txs[t].(phase := s'.txs[t].phase)]
    requires s'.lock == s.lock || (Free(s, t) && (s'.lock == Some(t) || s'.lock == None))
    requires !s.txs[t].phase.Committed? && s'.txs[t].phase != Committed(true)
    requires TxOk(s', t)
    ensures SystemOk(s', initial, programs)
  {
    forall u | u in s'.txs && u != t
      ensures TxOk(s', u)
    {
      assert TxOk(s, u);
    }
  }

  lemma ChangedRows(before: Rows, after: Rows)
    requires forall id :: id in before ==> id in after
    ensures before + Changed(before, after) == after
  {
    var sum := before + Changed(before, after);
    forall id
      ensures id in sum <==> id in after
    {
      assert id in after && id !in before ==> id in Changed(before, after);
    }
    forall id | id in after
      ensures sum[id] == after[id]
    {
    }
  }

  lemma SavePublishes(s: Slice, c: ChecklistState, events: seq<Event>, next: int)
    requires TableOk(s.rows, next)
    ensures var saved := SaveItems(s.rows, next, s.head.id, c.items);
            var w := Writes(s.head.(status := c.head.status), Changed(s.rows, saved.rows), events);
            && Publish(s, w) == SaveSlice(s, c, events, next)
            && TableOk(Publish(s, w).rows, saved.next) && next <= saved.next
  {
    SaveEachKeepsTable(s.rows, next, s.head.id, c.items);
    ChangedRows(s.rows, SaveItems(s.rows, next, s.head.id, c.items).rows);
  }

  lemma PendingPublishes(s: Slice, after: Slice)
    requires after.rows == s.rows && s.log <= after.log
    ensures Publish(s, Pending(s, after)) == after
  {
    assert s.rows + map[] == s.rows;
  }

  lemma RequestActs(s: System, act: Act, initial: Slice, programs: map<int, Program>)
    requires SystemOk(s, initial, programs) && (act.TakeLock? || act.ReadRows? || act.CallDomain?)
    ensures SystemOk(Do(s, act), initial, programs)
  {
    if Do(s, act) != s {
      assert TxOk(s, act.t);
      PhaseChange(s, Do(s, act), act.t, initial, programs);
    }
  }

  lemma SaveAct(s: System, t: int, initial: Slice, programs: map<int, Program>)
    requires SystemOk(s, initial, programs)
    ensures SystemOk(Do(s, SaveAll(t)), initial, programs)
  {
    if t in s.txs && s.txs[t].phase.Decided? {
      assert TxOk(s, t);
      var p := s.txs[t].phase;
      SavePublishes(s.committed, p.c, p.events, s.next);
      PhaseChange(s, Do(s, SaveAll(t)), t, initial, programs);
    }
  }

  lemma ClaimAct(s: System, t: int, initial: Slice, programs: map<int, Program>)
    requires SystemOk(s, initial, programs)
    ensures SystemOk(Do(s, TryClaim(t)), initial, programs)
  {
    if Do(s, TryClaim(t)) != s {
      ClaimIsOk(s, t);
      PhaseChange(s, Do(s, TryClaim(t)), t, initial, programs);
    }
  }

  lemma ClaimIsOk(s: System, t: int)
    requires t in s.txs && TxOk(s, t) && Do(s, TryClaim(t)) != s && TableOk(s.committed.rows, s.next)
    ensures t in Do(s, TryClaim(t)).txs && TxOk(Do(s, TryClaim(t)), t)
  {
    assert s.committed.rows + map[] == s.committed.rows;
  }

  lemma ClearApproverAct(s: System, t: int, initial: Slice, programs: map<int, Program>)
    requires SystemOk(s, initial, programs)
    ensures SystemOk(Do(s, ClearApprover(t)), initial, programs)
  {
    if Do(s, ClearApprover(t)) != s {
      assert TxOk(s, t);
      PendingPublishes(s.committed, ClearApproverOf(s.committed, s.txs[t].program.user));
      PhaseChange(s, Do(s, ClearApprover(t)), t, initial, programs);
    }
  }

  lemma ClearAssigneeAct(s: System, t: int, initial: Slice, programs: map<int, Program>)
    requires SystemOk(s, initial, programs)
    ensures SystemOk(Do(s, ClearAssignee(t)), initial, programs)
  {
    if Do(s, ClearAssignee(t)) != s {
      assert TxOk(s, t);
      var user := s.txs[t].program.user;
      PendingPublishes(s.committed, ClearAssigneeOf(s.committed, user));
      PendingPublishes(s.committed, ClearAssigneeOf(ClearApproverOf(s.committed, user), user));
      PhaseChange(s, Do(s, ClearAssignee(t)), t, initial, programs);
    }
  }

  lemma RollbackAct(s: System, t: int, initial: Slice, programs: map<int, Program>)
    requires SystemOk(s, initial, programs)
    ensures SystemOk(Do(s, Rollback(t)), initial, programs)
  {
    if Do(s, Rollback(t)) != s {
      PhaseChange(s, Do(s, Rollback(t)), t, initial, programs);
    }
  }

  /** No transaction ever appoints an approver, so a cleared or foreign approver stays so. */
  lemma ApproverOnlyLeaves(s: Slice, p: Program, base: int)
    ensures Serial(s, p, base).head.approverId == s.head.approverId || Serial(s, p, base).head.approverId == None
  {
  }

  lemma CommitKeepsTxs(s: System, t: int, programs: map<int, Program>)
    requires TxsOk(s, programs) && t in s.txs && s.txs[t].phase.Wrote?
    ensures TxsOk(Do(s, Commit(t)), programs)
  {
    var s' := Do(s, Commit(t));
    assert TxOk(s, t);
    ApproverOnlyLeaves(s.committed, s.txs[t].program, s.txs[t].phase.base);
    forall u | u in s.txs
      ensures TxOk(s', u)
    {
      assert TxOk(s, u);
    }
  }

  lemma CommitKeepsHistory(s: System, t: int)
    requires HistoryOk(s) && t in s.txs && s.txs[t].phase.Wrote?
    ensures HistoryOk(Do(s, Commit(t)))
  {
    var s' := Do(s, Commit(t));
    assert s'.history[|s.history|].t == t;
    assert forall k :: 0 <= k < |s.history| ==> s'.history[k] == s.history[k];
    forall u | u in s'.txs && s'.txs[u].phase == Committed(true)
      ensures exists k :: 0 <= k < |s'.history| && s'.history[k].t == u
    {
      if u != t {
        var k :| 0 <= k < |s.history| && s.history[k].t == u;
        assert s'.history[k].t == u;
      }
    }
  }

  lemma CommitIsSerial(s: System, t: int, initial: Slice)
    requires SerialSoFar(s, initial) && t in s.txs && s.txs[t].phase.Wrote? && TxOk(s, t)
    ensures SerialSoFar(Do(s, Commit(t)), initial)
  {
    assert Do(s, Commit(t)).history[..|s.history|] == s.history;
  }

  lemma CommitAct(s: System, t: int, initial: Slice, programs: map<int, Program>)
    requires SystemOk(s, initial, programs)
    ensures SystemOk(Do(s, Commit(t)), initial, programs)
  {
    var s' := Do(s, Commit(t));
    if t in s.txs && s.txs[t].phase.Wrote? {
      assert TxOk(s, t);
      CommitKeepsTxs(s, t, programs);
      CommitKeepsHistory(s, t);
      CommitIsSerial(s, t, initial);
    } else if s' != s {
      assert TxOk(s, t);
      PhaseChange(s, s', t, initial, programs);
    }
  }

  lemma {:induction false} ActKeepsSystem(s: System, act: Act, initial: Slice, programs: map<int, Program>)
    requires SystemOk(s, initial, programs)
    ensures SystemOk(Do(s, act), initial, programs)
  {
    match act
    case TakeLock(_) => RequestActs(s, act, initial, programs);
    case ReadRows(_) => RequestActs(s, act, initial, programs);
    case CallDomain(_) => RequestActs(s, act, initial, programs);
    case SaveAll(t) => SaveAct(s, t, initial, programs);
    case TryClaim(t) => ClaimAct(s, t, initial, programs);
    case ClearApprover(t) => ClearApproverAct(s, t, initial, programs);
    case ClearAssignee(t) => ClearAssigneeAct(s, t, initial, programs);
    case Commit(t) => CommitAct(s, t, initial, programs);
    case Rollback(t) => RollbackAct(s, t, initial, programs);
    case UseSequence(n) =>
      forall u | u in s.txs
        ensures TxOk(Do(s, act), u)
      {
        assert TxOk(s, u);
      }
  }

  lemma {:induction false} RunKeepsSystem(s: System, acts: seq<Act>, initial: Slice, programs: map<int, Program>)
    requires SystemOk(s, initial, programs)
    ensures SystemOk(RunActs(s, acts), initial, programs)
  {
    if |acts| == 0 {
    } else {
      RunKeepsSystem(s, acts[..|acts| - 1], initial, programs);
      ActKeepsSystem(RunActs(s, acts[..|acts| - 1]), acts[|acts| - 1], initial, programs);
    }
  }

  /**
   Serializability. However the statements of the transactions interleave, the row, the item
   rows and the log are what the committed writers give when run one after the other in the
   order they committed; each of them is there exactly once, and nobody else is.
   */
  lemma {:induction false} InterleavingsAreSerial(slice: Slice, programs: map<int, Program>, next: int, acts: seq<Act>)
    requires TableOk(slice.rows, next)
    ensures var s := RunActs(Start(slice, programs, next), acts);
            && s.committed == SerialRun(slice, s.history)
            && (forall k :: 0 <= k < |s.history| ==>
                 && s.history[k].t in s.txs
                 && s.history[k].t in programs && s.history[k].program == programs[s.history[k].t]
                 && s.txs[s.history[k].t].phase == Committed(true))
            && (forall j, k :: 0 <= j < k < |s.history| ==> s.history[j].t != s.history[k].t)
            && (forall t :: t in s.txs && s.txs[t].phase == Committed(true) ==>
                 exists k :: 0 <= k < |s.history| && s.history[k].t == t)
  {
    RunKeepsSystem(Start(slice, programs, next), acts, slice, programs);
  }

  // ---- What it gives ----

  lemma SerialKeepsStored(s: Slice, p: Program, base: int, born: Header)
    requires TableOk(s.rows, base) && StoredOk(s.head, s.rows, s.log, born)
    requires p.Request? ==> DuplicateFree(p.m)
    ensures var s' := Serial(s, p, base); Keyed(s'.rows) && StoredOk(s'.head, s'.rows, s'.log, born)
  {
    match p
    case Request(m) =>
      if Apply(View(s), m).Done? {
        ApplyKeepsHeader(View(s), m);
        MutateKeepsStored(s.head, s.rows, base, s.log, born, m);
      }
    case Claiming(user, expected) =>
      var e := ClaimedEvent(s.head.tenantId, s.head.id, user);
      ReplaySingle(ReplayLog(AtBirth(born), s.log, s.head.id), e, s.head.id);
      if s.head.assignedUserId == expected {
        StoredPeople(s.head, Serial(s, p, base).head, s.rows, s.log, [e], born);
      }
    case Clearing(user) =>
      var mid := ClearApproverOf(s, user);
      ClearKeepsStored(s, mid, Event(s.head.tenantId, s.head.id, None, user, ApproverChanged, UserDeactivated), born);
      ClearKeepsStored(mid, ClearAssigneeOf(mid, user),
          Event(s.head.tenantId, s.head.id, None, user, AssigneeChanged, UserDeactivated), born);
  }

  lemma ClearKeepsStored(s: Slice, s': Slice, e: Event, born: Header)
    requires Keyed(s.rows) && StoredOk(s.head, s.rows, s.log, born) && e.checklistId == s.head.id
    requires s' == s || (s'.rows == s.rows && s'.log == s.log + [e] &&
               ((e.action == ApproverChanged && s'.head == s.head.(approverId := None))
                || (e.action == AssigneeChanged && s'.head == s.head.(assignedUserId := None))))
    ensures StoredOk(s'.head, s'.rows, s'.log, born)
  {
    if s' != s {
      ReplaySingle(ReplayLog(AtBirth(born), s.log, s.head.id), e, s.head.id);
      StoredPeople(s.head, s'.head, s.rows, s.log, [e], born);
    }
  }

  lemma ActKeepsStored(s: System, act: Act, programs: map<int, Program>, born: Header)
    requires TxsOk(s, programs) && Keyed(s.committed.rows)
    requires StoredOk(s.committed.head, s.committed.rows, s.committed.log, born)
    requires forall t :: t in programs && programs[t].Request? ==> DuplicateFree(programs[t].m)
    ensures var c := Do(s, act).committed; Keyed(c.rows) && StoredOk(c.head, c.rows, c.log, born)
  {
    if act.Commit? && act.t in s.txs && s.txs[act.t].phase.Wrote? {
      var tx := s.txs[act.t];
      assert TxOk(s, act.t);
      SerialKeepsStored(s.committed, tx.program, tx.phase.base, born);
    } else {
      assert Do(s, act).committed == s.committed;
    }
  }

  /** Interleaved or not, the committed checklist keeps the lifecycle and its log stays faithful. */
  lemma {:induction false} InterleavingsKeepStored(slice: Slice, programs: map<int, Program>, next: int,
      acts: seq<Act>, born: Header)
    requires TableOk(slice.rows, next) && StoredOk(slice.head, slice.rows, slice.log, born)
    requires forall t :: t in programs && programs[t].Request? ==> DuplicateFree(programs[t].m)
    ensures var c := RunActs(Start(slice, programs, next), acts).committed;
            Keyed(c.rows) && StoredOk(c.head, c.rows, c.log, born)
  {
    if |acts| == 0 {
    } else {
      var n := |acts| - 1;
      InterleavingsKeepStored(slice, programs, next, acts[..n], born);
      RunKeepsSystem(Start(slice, programs, next), acts[..n], slice, programs);
      ActKeepsStored(RunActs(Start(slice, programs, next), acts[..n]), acts[n], programs, born);
    }
  }

  /** What such a transaction's UPDATEs would still find nothing to match in. */
  predicate Fits(head: Header, p: Program) {
    match p
    case Request(_) => false
    case Claiming(_, expected) => head.assignedUserId != expected
    case Clearing(user) => head.assignedUserId != Some(user)
  }

  /**
   A transaction whose UPDATEs matched nothing holds no lock, so others can commit before it
   does. At any moment until then it would do nothing exactly when it fits what is committed;
   that no approver has appeared needs no check.
   */
  lemma MissedFits(s: System, t: int, base: int)
    requires t in s.txs && TxOk(s, t) && s.txs[t].phase.Untouched?
    ensures Serial(s.committed, s.txs[t].program, base) == s.committed <==> Fits(s.committed.head, s.txs[t].program)
  {
    var s' := Serial(s.committed, s.txs[t].program, base);
    if s.txs[t].program.Claiming? && !Fits(s.committed.head, s.txs[t].program) {
      assert |s'.log| == |s.committed.log| + 1;
    }
  }

  const UNCLAIMED: Slice :=
    Slice(Header(7, 1, 1, "", 5, None, None, false, None, Open, 0), map[], [])

  const CLAIM_DURING_SUSPENSION: map<int, Program> := map[0 := Claiming(9, None), 1 := Clearing(9)]

  lemma RunTwo(s: System, a: Act, b: Act)
    ensures RunActs(s, [a, b]) == Do(Do(s, a), b)
  {
    assert [a][..0] == [];
    assert RunActs(s, [a]) == Do(s, a);
    assert [a, b][..1] == [a];
  }

  lemma {:induction false} RunConcat(s: System, a: seq<Act>, b: seq<Act>)
    ensures RunActs(s, a + b) == RunActs(RunActs(s, a), b)
  {
    if |b| == 0 {
      assert a + b == a;
    } else {
      RunConcat(s, a, b[..|b| - 1]);
      assert (a + b)[..|a + b| - 1] == a + b[..|b| - 1];
    }
  }

  const SUSPENSION: seq<Act> := [ClearApprover(1), ClearAssignee(1)]
  const LATE_CLAIM: seq<Act> := [TryClaim(0), Commit(0)]

  lemma SuspensionFindsNothing()
    ensures var s := RunActs(Start(UNCLAIMED, CLAIM_DURING_SUSPENSION, 1), SUSPENSION);
            && s.committed == UNCLAIMED && s.lock == None && s.txs.Keys == {0, 1}
            && s.txs[0] == Tx(Claiming(9, None), Begun) && s.txs[1] == Tx(Clearing(9), Untouched)
  {
    RunTwo(Start(UNCLAIMED, CLAIM_DURING_SUSPENSION, 1), ClearApprover(1), ClearAssignee(1));
  }

  lemma ClaimGoesThrough(s: System)
    requires s.committed == UNCLAIMED && s.lock == None && 0 in s.txs && s.txs[0] == Tx(Claiming(9, None), Begun)
    ensures var s' := RunActs(s, LATE_CLAIM);
            && s'.txs == s.txs[0 := s.txs[0].(phase := Committed(true))]
            && s'.committed.head == UNCLAIMED.head.(assignedUserId := Some(9))
  {
    RunTwo(s, TryClaim(0), Commit(0));
  }

  /** Such a run: user 9 is suspended and still ends up holding the checklist. */
  lemma SuspendedUserHolds()
    ensures var s := RunActs(Start(UNCLAIMED, CLAIM_DURING_SUSPENSION, 1), SUSPENSION + LATE_CLAIM + [Commit(1)]);
            && s.txs.Keys == {0, 1} && s.txs[0].phase.Committed? && s.txs[1].phase.Committed?
            && s.committed.head.assignedUserId == Some(9)
            && Serial(s.committed, Clearing(9), 1).head.assignedUserId == None
  {
    var start := Start(UNCLAIMED, CLAIM_DURING_SUSPENSION, 1);
    RunConcat(start, SUSPENSION + LATE_CLAIM, [Commit(1)]);
    RunConcat(start, SUSPENSION, LATE_CLAIM);
    SuspensionFindsNothing();
    ClaimGoesThrough(RunActs(start, SUSPENSION));
    assert [Commit(1)][..0] == [];
  }

  // ---- The same transactions on the whole database ----

  /** A checklist's events, oldest first. */
  function OwnLog(log: seq<Event>, cid: int): seq<Event> {
    if |log| == 0 then []
    else OwnLog(log[..|log| - 1], cid) + if log[|log| - 1].checklistId == cid then [log[|log| - 1]] else []
  }

  lemma {:induction false} OwnLogConcat(a: seq<Event>, b: seq<Event>, cid: int)
    ensures OwnLog(a + b, cid) == OwnLog(a, cid) + OwnLog(b, cid)
  {
    if |b| == 0 {
      assert a + b == a;
    } else {
      OwnLogConcat(a, b[..|b| - 1], cid);
      assert (a + b)[..|a + b| - 1] == a + b[..|b| - 1];
    }
  }

  lemma {:induction false} OwnLogAll(b: seq<Event>, cid: int)
    requires forall k :: 0 <= k < |b| ==> b[k].checklistId == cid
    ensures OwnLog(b, cid) == b
  {
    if |b| == 0 {
    } else {
      OwnLogAll(b[..|b| - 1], cid);
    }
  }

  lemma {:induction false} OwnLogCleared(tenant: int, user: int, ids: seq<int>, action: Action, cid: int)
    requires NoDuplicates(ids)
    ensures OwnLog(ClearedEvents(tenant, user, ids, action), cid) ==
            if cid in ids then [Event(tenant, cid, None, user, action, UserDeactivated)] else []
  {
    if |ids| == 0 {
    } else {
      var n := |ids| - 1;
      var front, e := ClearedEvents(tenant, user, ids[..n], action), ClearedEvents(tenant, user, ids, action)[n];
      OwnLogCleared(tenant, user, ids[..n], action, cid);
      OwnLogOneMore(front, e, cid);
      assert ClearedEvents(tenant, user, ids, action) == front + [e];
      InLastOrFront(ids, cid);
    }
  }

  lemma OwnLogOneMore(log: seq<Event>, e: Event, cid: int)
    ensures OwnLog(log + [e], cid) == OwnLog(log, cid) + if e.checklistId == cid then [e] else []
  {
    assert (log + [e])[..|log|] == log;
  }

  lemma InLastOrFront(ids: seq<int>, x: int)
    requires |ids| > 0 && NoDuplicates(ids)
    ensures var n := |ids| - 1;
            && (x in ids <==> x in ids[..n] || x == ids[n])
            && NoDuplicates(ids[..n]) && ids[n] !in ids[..n]
  {
    assert ids == ids[..|ids| - 1] + [ids[|ids| - 1]];
  }

  ghost function SliceOf(db: Db, id: int): Slice
    requires id in db.checklists
  {
    Slice(db.checklists[id], db.items, OwnLog(db.log, id))
  }

  /** The one-step transactions above are the database's transactions, seen from one checklist. */
  lemma SerialIsMutate(db: Db, tenant: int, id: int, m: Mutation)
    requires DbOk(db) && Mutate(db, tenant, id, m).1.Ok?
    ensures id in db.checklists && id in Mutate(db, tenant, id, m).0.checklists
    ensures SliceOf(Mutate(db, tenant, id, m).0, id) == Serial(SliceOf(db, id), Request(m), db.nextItem)
  {
    MutateEffect(db, tenant, id, m);
    var events := Apply(Load(db.checklists[id], db.items), m).events;
    OwnLogConcat(db.log, events, id);
    OwnLogAll(events, id);
  }

  lemma SerialIsClaim(db: Db, tenant: int, id: int, user: int, expected: Option<int>)
    requires DbOk(db) && Claim(db, tenant, id, user, expected).1.Ok?
    ensures id in db.checklists && id in Claim(db, tenant, id, user, expected).0.checklists
    ensures SliceOf(Claim(db, tenant, id, user, expected).0, id) ==
            Serial(SliceOf(db, id), Claiming(user, expected), db.nextItem)
  {
    OwnLogConcat(db.log, [ClaimedEvent(tenant, id, user)], id);
    OwnLogAll([ClaimedEvent(tenant, id, user)], id);
  }

  lemma OwnLogOfClear(log: seq<Event>, tenant: int, user: int, a: seq<int>, b: seq<int>, id: int)
    requires NoDuplicates(a) && NoDuplicates(b)
    ensures OwnLog(log + ClearedEvents(tenant, user, a, ApproverChanged) +
            ClearedEvents(tenant, user, b, AssigneeChanged), id) ==
            OwnLog(log, id)
            + (if id in a then [Event(tenant, id, None, user, ApproverChanged, UserDeactivated)] else [])
            + (if id in b then [Event(tenant, id, None, user, AssigneeChanged, UserDeactivated)] else [])
  {
    var ea := ClearedEvents(tenant, user, a, ApproverChanged);
    OwnLogConcat(log + ea, ClearedEvents(tenant, user, b, AssigneeChanged), id);
    OwnLogConcat(log, ea, id);
    OwnLogCleared(tenant, user, a, ApproverChanged, id);
    OwnLogCleared(tenant, user, b, AssigneeChanged, id);
  }

  lemma SerialIsClear(db: Db, tenant: int, user: int, id: int)
    requires DbOk(db) && Clear(db, tenant, user).1.Ok? && Exists(db, tenant, id)
    ensures id in Clear(db, tenant, user).0.checklists
    ensures SliceOf(Clear(db, tenant, user).0, id) == Serial(SliceOf(db, id), Clearing(user), db.nextItem)
  {
    var a := Returning(Approving(db, tenant, user));
    var b := Returning(Holding(db, tenant, user));
    OwnLogOfClear(db.log, tenant, user, a, b, id);
    var own := OwnLog(db.log, id);
    assert own + [] == own;
  }
}
