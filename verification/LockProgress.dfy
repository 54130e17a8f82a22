/**
 The interleaved transactions get somewhere: alone, a transaction does in its own statements
 what it does in one step; whoever holds the lock can go on; and from every state any run
 reaches, all transactions can be brought to an end.
 */
module LockProgress {
  import opened Domain
  import opened ChecklistSpec
  import opened ItemStore
  import opened LockRefinement

  // ---- One transaction alone ----

  /** The transaction's own statements, in order. */
  function Script(t: int, p: Program): seq<Act> {
    match p
    case Request(_) => [TakeLock(t), ReadRows(t), CallDomain(t), SaveAll(t), Commit(t)]
    case Claiming(_, _) => [TryClaim(t), Commit(t)]
    case Clearing(_) => [ClearApprover(t), ClearAssignee(t), Commit(t)]
  }

  /** Whether the transaction finds anything to do on what is committed. */
  ghost predicate HasEffect(s: Slice, p: Program) {
    match p
    case Request(m) => Apply(View(s), m).Done?
    case Claiming(_, expected) => s.head.assignedUserId == expected
    case Clearing(user) => s.head.approverId == Some(user) || s.head.assignedUserId == Some(user)
  }

  ghost predicate Waiting(s: System, t: int, initial: Slice, programs: map<int, Program>) {
    SystemOk(s, initial, programs) && s.lock.None? && t in s.txs && s.txs[t].phase.Begun?
  }

  /** Committed, with what the transaction does in one step; the lock is free again. */
  ghost predicate Finished(s: System, t: int, s': System) {
    && t in s.txs && t in s'.txs && s'.txs[t].phase == Committed(true)
    && s'.committed == Serial(s.committed, s.txs[t].program, s.next)
    && s'.history == s.history + [Entry(t, s.txs[t].program, s.next)]
    && s'.lock.None? && s'.txs == s.txs[t := s'.txs[t]]
  }

  lemma RunOneMore(s: System, acts: seq<Act>, act: Act)
    ensures RunActs(s, acts + [act]) == Do(RunActs(s, acts), act)
  {
    assert (acts + [act])[..|acts|] == acts;
  }

  lemma RunOne(s: System, act: Act)
    ensures RunActs(s, [act]) == Do(s, act)
  {
    assert [act][..0] == [];
  }

  /** It has written, in its own name: what it commits is its one step. */
  ghost predicate AboutToCommit(s: System, t: int, s': System) {
    && t in s.txs && t in s'.txs && s'.txs == s.txs[t := s'.txs[t]] && s'.txs[t].program == s.txs[t].program
    && s'.txs[t].phase.Wrote? && s'.txs[t].phase.base == s.next
    && s'.committed == s.committed && s'.history == s.history
  }

  lemma CommitFinishes(s: System, t: int, s': System, initial: Slice, programs: map<int, Program>)
    requires AboutToCommit(s, t, s') && SystemOk(s', initial, programs)
    ensures Finished(s, t, Do(s', Commit(t)))
  {
    assert TxOk(s', t);
  }

  /** The request holds the lock, has read what is committed, and nobody else has moved. */
  ghost predicate HasRead(s: System, t: int, read: System) {
    && t in s.txs && t in read.txs && read.txs == s.txs[t := read.txs[t]]
    && read.txs[t] == Tx(s.txs[t].program, Read(View(s.committed))) && read.lock == Some(t)
    && read.committed == s.committed && read.history == s.history && read.next == s.next
  }

  lemma RequestReads(s: System, t: int, initial: Slice, programs: map<int, Program>)
    requires Waiting(s, t, initial, programs) && s.txs[t].program.Request?
    ensures var read := Do(Do(s, TakeLock(t)), ReadRows(t));
            HasRead(s, t, read) && SystemOk(read, initial, programs)
  {
    ActKeepsSystem(s, TakeLock(t), initial, programs);
    ActKeepsSystem(Do(s, TakeLock(t)), ReadRows(t), initial, programs);
    assert TxOk(Do(s, TakeLock(t)), t);
  }

  lemma RequestSaves(s: System, t: int, read: System)
    requires HasRead(s, t, read) && s.txs[t].program.Request? && HasEffect(s.committed, s.txs[t].program)
    ensures AboutToCommit(s, t, Do(Do(read, CallDomain(t)), SaveAll(t)))
  {
    var decided := Do(read, CallDomain(t));
    assert decided.txs == s.txs[t := decided.txs[t]] && decided.txs[t].phase.Decided?;
  }

  lemma RequestStays(s: System, t: int, read: System)
    requires HasRead(s, t, read) && s.txs[t].program.Request? && !HasEffect(s.committed, s.txs[t].program)
    ensures Do(Do(Do(read, CallDomain(t)), SaveAll(t)), Commit(t)) == read
  {
    assert Do(read, CallDomain(t)) == read;
  }

  lemma RunFive(s: System, a: Act, b: Act, c: Act, d: Act, e: Act)
    ensures RunActs(s, [a, b, c, d, e]) == Do(Do(Do(Do(Do(s, a), b), c), d), e)
  {
    RunTwo(s, a, b);
    RunOneMore(s, [a, b], c);
    RunOneMore(s, [a, b, c], d);
    RunOneMore(s, [a, b, c, d], e);
    assert [a, b] + [c] == [a, b, c] && [a, b, c] + [d] == [a, b, c, d] && [a, b, c, d] + [e] == [a, b, c, d, e];
  }

  lemma RunThree(s: System, a: Act, b: Act, c: Act)
    ensures RunActs(s, [a, b, c]) == Do(Do(Do(s, a), b), c)
  {
    RunTwo(s, a, b);
    RunOneMore(s, [a, b], c);
    assert [a, b] + [c] == [a, b, c];
  }

  /** Nothing to do: nothing is committed, and nobody else notices. */
  ghost predicate NoEffect(s: System, t: int, s': System) {
    && t in s.txs && t in s'.txs && s'.txs == s.txs[t := s'.txs[t]]
    && s'.committed == s.committed && s'.history == s.history
    && match s.txs[t].program
       case Request(_) => s'.txs[t].phase == Read(View(s.committed)) && s'.lock == Some(t)
       case _ => s'.txs[t].phase == Committed(false) && s'.lock.None?
  }

  /** What its own statements make of the transaction. */
  ghost predicate Ends(s: System, t: int, s': System) {
    t in s.txs && if HasEffect(s.committed, s.txs[t].program) then Finished(s, t, s') else NoEffect(s, t, s')
  }

  lemma AloneRequest(s: System, t: int, initial: Slice, programs: map<int, Program>)
    requires Waiting(s, t, initial, programs) && s.txs[t].program.Request?
    ensures Ends(s, t, RunActs(s, Script(t, s.txs[t].program)))
  {
    RunFive(s, TakeLock(t), ReadRows(t), CallDomain(t), SaveAll(t), Commit(t));
    RequestReads(s, t, initial, programs);
    var read := Do(Do(s, TakeLock(t)), ReadRows(t));
    if HasEffect(s.committed, s.txs[t].program) {
      RequestSaves(s, t, read);
      ActKeepsSystem(read, CallDomain(t), initial, programs);
      ActKeepsSystem(Do(read, CallDomain(t)), SaveAll(t), initial, programs);
      CommitFinishes(s, t, Do(Do(read, CallDomain(t)), SaveAll(t)), initial, programs);
    } else {
      RequestStays(s, t, read);
    }
  }

  lemma ClaimWrites(s: System, t: int)
    requires t in s.txs && s.txs[t].phase.Begun? && s.txs[t].program.Claiming? && s.lock.None?
    ensures var s' := Do(s, TryClaim(t));
            if HasEffect(s.committed, s.txs[t].program) then AboutToCommit(s, t, s')
            else s' == Begin(s, t, Untouched)
  {
  }

  lemma MissCommits(s: System, t: int)
    requires t in s.txs && !s.txs[t].program.Request? && s.lock.None?
    ensures NoEffect(s, t, Do(Begin(s, t, Untouched), Commit(t)))
  {
  }

  lemma AloneClaim(s: System, t: int, initial: Slice, programs: map<int, Program>)
    requires Waiting(s, t, initial, programs) && s.txs[t].program.Claiming?
    ensures Ends(s, t, RunActs(s, Script(t, s.txs[t].program)))
  {
    RunTwo(s, TryClaim(t), Commit(t));
    ActKeepsSystem(s, TryClaim(t), initial, programs);
    ClaimWrites(s, t);
    WriteOrMiss(s, t, Do(s, TryClaim(t)), initial, programs);
  }

  /** Having written, or found nothing to write, it commits. */
  lemma WriteOrMiss(s: System, t: int, s': System, initial: Slice, programs: map<int, Program>)
    requires t in s.txs && !s.txs[t].program.Request? && s.lock.None? && SystemOk(s', initial, programs)
    requires if HasEffect(s.committed, s.txs[t].program) then AboutToCommit(s, t, s') else s' == Begin(s, t, Untouched)
    ensures Ends(s, t, Do(s', Commit(t)))
  {
    MissCommits(s, t);
    if HasEffect(s.committed, s.txs[t].program) {
      CommitFinishes(s, t, s', initial, programs);
    }
  }

  lemma ClearWrites(s: System, t: int, initial: Slice, programs: map<int, Program>)
    requires Waiting(s, t, initial, programs) && s.txs[t].program.Clearing?
    ensures var s' := Do(Do(s, ClearApprover(t)), ClearAssignee(t));
            && SystemOk(s', initial, programs)
            && if HasEffect(s.committed, s.txs[t].program) then AboutToCommit(s, t, s')
               else s' == Begin(s, t, Untouched)
  {
    var half := Do(s, ClearApprover(t));
    ActKeepsSystem(s, ClearApprover(t), initial, programs);
    ActKeepsSystem(half, ClearAssignee(t), initial, programs);
    HalfClear(s, t);
    RestClear(s, t, half);
  }

  /** The first UPDATE: the approver is cleared, in the transaction's own name, or nothing is. */
  ghost predicate ApproverDone(s: System, t: int, half: System) {
    && t in s.txs && t in half.txs && half == s.(txs := half.txs, lock := half.lock)
    && half.txs == s.txs[t := half.txs[t]] && half.txs[t].program == s.txs[t].program
    && half.txs[t].phase.HalfCleared? && Free(half, t) && s.txs[t].program.Clearing?
    && (half.txs[t].phase.pending.Some? <==> s.committed.head.approverId == Some(s.txs[t].program.user))
    && (half.txs[t].phase.pending.Some? ==>
         Publish(s.committed, half.txs[t].phase.pending.value).head.assignedUserId == s.committed.head.assignedUserId)
    && (half.txs[t].phase.pending.None? ==> half.lock == s.lock)
  }

  lemma HalfClear(s: System, t: int)
    requires t in s.txs && s.txs[t].phase.Begun? && s.txs[t].program.Clearing? && s.lock.None?
    ensures ApproverDone(s, t, Do(s, ClearApprover(t)))
  {
  }

  lemma RestClear(s: System, t: int, half: System)
    requires ApproverDone(s, t, half) && s.lock.None?
    ensures var s' := Do(half, ClearAssignee(t));
            if HasEffect(s.committed, s.txs[t].program) then AboutToCommit(s, t, s')
            else s' == Begin(s, t, Untouched)
  {
  }

  lemma AloneClear(s: System, t: int, initial: Slice, programs: map<int, Program>)
    requires Waiting(s, t, initial, programs) && s.txs[t].program.Clearing?
    ensures Ends(s, t, RunActs(s, Script(t, s.txs[t].program)))
  {
    RunThree(s, ClearApprover(t), ClearAssignee(t), Commit(t));
    ClearWrites(s, t, initial, programs);
    WriteOrMiss(s, t, Do(Do(s, ClearApprover(t)), ClearAssignee(t)), initial, programs);
  }

  /**
   Alone with a free lock, the transaction's own statements commit it with exactly what it does
   in one step, if and only if it has an effect on what is committed: a request when the domain
   accepts it, a claim when its expectation holds, a suspension when the checklist has the user.
   Otherwise nothing is committed; a request then holds the lock until it is rolled back.
   */
  lemma {:induction false} AloneItFinishes(s: System, t: int, initial: Slice, programs: map<int, Program>)
    requires Waiting(s, t, initial, programs)
    ensures var s' := RunActs(s, Script(t, s.txs[t].program));
            && t in s'.txs
            && (HasEffect(s.committed, s.txs[t].program) <==> s'.txs[t].phase == Committed(true))
            && (HasEffect(s.committed, s.txs[t].program) ==> Finished(s, t, s'))
            && (!HasEffect(s.committed, s.txs[t].program) ==> NoEffect(s, t, s'))
  {
    match s.txs[t].program
    case Request(_) => AloneRequest(s, t, initial, programs);
    case Claiming(_, _) => AloneClaim(s, t, initial, programs);
    case Clearing(_) => AloneClear(s, t, initial, programs);
  }

  // ---- In the middle of any interleaving ----

  predicate Over(phase: Phase) {
    phase.Committed? || phase.RolledBack?
  }

  /** The statement the transaction has next; a request the domain refuses can only be rolled back. */
  ghost function Next(s: System, t: int): Act
    requires t in s.txs
  {
    match s.txs[t].phase
    case Begun =>
      (match s.txs[t].program
       case Request(_) => TakeLock(t)
       case Claiming(_, _) => TryClaim(t)
       case Clearing(_) => ClearApprover(t))
    case Locked(_) => ReadRows(t)
    case Read(c) =>
      if s.txs[t].program.Request? && Apply(c, s.txs[t].program.m).Done? then CallDomain(t) else Rollback(t)
    case Decided(_, _) => SaveAll(t)
    case HalfCleared(_) => ClearAssignee(t)
    case _ => Commit(t)
  }

  /** How many statements are left at most. */
  function Left(phase: Phase): nat {
    match phase
    case Begun => 5
    case Locked(_) => 4
    case Read(_) => 3
    case Decided(_, _) => 2
    case HalfCleared(_) => 2
    case Wrote(_, _) => 1
    case Untouched => 1
    case _ => 0
  }

  /** One statement nearer to its end, without anyone else having moved. */
  ghost predicate GotOn(s: System, t: int, s': System) {
    && t in s.txs && t in s'.txs && Left(s'.txs[t].phase) < Left(s.txs[t].phase) && Free(s', t)
    && s'.txs == s.txs[t := s'.txs[t]] && s'.txs[t].program == s.txs[t].program
    && (Over(s'.txs[t].phase) ==> s'.lock.None?)
  }

  /** The domain refuses the request on what is committed. */
  ghost predicate RefusedNow(s: System, t: int) {
    && t in s.txs && s.txs[t].program.Request?
    && Apply(View(s.committed), s.txs[t].program.m).Refused?
  }

  lemma RequestGoesOn(s: System, t: int)
    requires t in s.txs && s.txs[t].program.Request? && !Over(s.txs[t].phase) && Free(s, t)
    requires !s.txs[t].phase.HalfCleared? && !s.txs[t].phase.Untouched?
    requires if s.txs[t].phase.Begun? then s.lock.None? else s.lock == Some(t)
    requires s.txs[t].phase.Read? ==> s.txs[t].phase.c == View(s.committed)
    ensures GotOn(s, t, Do(s, Next(s, t)))
    ensures s.txs[t].phase.Read? ==> Next(s, t) == if RefusedNow(s, t) then Rollback(t) else CallDomain(t)
    ensures Do(s, Next(s, t)).txs[t].phase.RolledBack? ==> s.txs[t].phase.Read?
  {
    match s.txs[t].phase
    case Read(_) => ReadGoesOn(s, t);
    case Decided(_, _) => SaveGoesOn(s, t);
    case _ =>
  }

  lemma ReadGoesOn(s: System, t: int)
    requires t in s.txs && s.txs[t].program.Request? && s.txs[t].phase == Read(View(s.committed)) && s.lock == Some(t)
    ensures GotOn(s, t, Do(s, Next(s, t)))
    ensures Next(s, t) == if RefusedNow(s, t) then Rollback(t) else CallDomain(t)
  {
  }

  lemma SaveGoesOn(s: System, t: int)
    requires t in s.txs && s.txs[t].phase.Decided? && s.lock == Some(t)
    ensures GotOn(s, t, Do(s, SaveAll(t))) && !Do(s, SaveAll(t)).txs[t].phase.RolledBack?
  {
  }

  /**
   In every state any interleaving reaches, a transaction that holds the lock, or finds it
   free, gets on with its next statement. A request that has read is decided, unless the domain
   refuses it on what is committed; only then is it rolled back.
   */
  lemma NeverStuck(s: System, t: int, initial: Slice, programs: map<int, Program>)
    requires SystemOk(s, initial, programs) && t in s.txs && !Over(s.txs[t].phase) && Free(s, t)
    ensures GotOn(s, t, Do(s, Next(s, t)))
    ensures s.txs[t].phase.Read? ==> Next(s, t) == if RefusedNow(s, t) then Rollback(t) else CallDomain(t)
    ensures Do(s, Next(s, t)).txs[t].phase.RolledBack? ==> Next(s, t) == Rollback(t) && RefusedNow(s, t)
  {
    assert TxOk(s, t);
    if s.txs[t].program.Request? {
      RequestGoesOn(s, t);
    } else if s.txs[t].phase.HalfCleared? {
      HalfGoesOn(s, t);
    }
  }

  lemma HalfGoesOn(s: System, t: int)
    requires t in s.txs && s.txs[t].phase.HalfCleared? && s.txs[t].program.Clearing? && Free(s, t)
    ensures GotOn(s, t, Do(s, ClearAssignee(t))) && !Do(s, ClearAssignee(t)).txs[t].phase.RolledBack?
  {
  }

  /** At some point of the run t, a request, was rolled back because the domain refused it. */
  ghost predicate RefusedIn(s: System, acts: seq<Act>, t: int) {
    exists k :: 0 <= k < |acts| && acts[k] == Rollback(t) && RefusedNow(RunActs(s, acts[..k]), t)
  }

  lemma RefusedEarlier(s: System, first: seq<Act>, rest: seq<Act>, t: int)
    requires RefusedIn(s, first, t)
    ensures RefusedIn(s, first + rest, t)
  {
    var k :| 0 <= k < |first| && first[k] == Rollback(t) && RefusedNow(RunActs(s, first[..k]), t);
    assert (first + rest)[..k] == first[..k] && (first + rest)[k] == first[k];
  }

  lemma RefusedLater(s: System, first: seq<Act>, rest: seq<Act>, t: int)
    requires RefusedIn(RunActs(s, first), rest, t)
    ensures RefusedIn(s, first + rest, t)
  {
    var k :| 0 <= k < |rest| && rest[k] == Rollback(t) && RefusedNow(RunActs(RunActs(s, first), rest[..k]), t);
    var n := |first| + k;
    RunConcat(s, first, rest[..k]);
    assert (first + rest)[..n] == first + rest[..k] && (first + rest)[n] == rest[k];
  }

  lemma RefusedAtOnce(s: System, t: int)
    requires RefusedNow(s, t)
    ensures RefusedIn(s, [Rollback(t)], t)
  {
    assert [Rollback(t)][..0] == [];
  }

  /** It is over, and rolled back only if it was refused. */
  ghost predicate EndedBy(s: System, t: int, acts: seq<Act>) {
    var s' := RunActs(s, acts);
    && t in s.txs && t in s'.txs && Over(s'.txs[t].phase) && s'.lock.None? && s'.txs == s.txs[t := s'.txs[t]]
    && (s'.txs[t].phase.RolledBack? ==> RefusedIn(s, acts, t))
  }

  lemma LastStatement(s: System, t: int, act: Act)
    requires GotOn(s, t, Do(s, act)) && Over(Do(s, act).txs[t].phase)
    requires Do(s, act).txs[t].phase.RolledBack? ==> act == Rollback(t) && RefusedNow(s, t)
    ensures EndedBy(s, t, [act]) && RunActs(s, [act]) == Do(s, act)
  {
    RunOne(s, act);
    if Do(s, act).txs[t].phase.RolledBack? {
      RefusedAtOnce(s, t);
    }
  }

  lemma OneBefore(s: System, t: int, act: Act, s1: System, rest: seq<Act>)
    requires RunActs(s, [act]) == s1 && GotOn(s, t, s1) && EndedBy(s1, t, rest)
    ensures EndedBy(s, t, [act] + rest) && RunActs(s, [act] + rest) == RunActs(s1, rest)
  {
    RunConcat(s, [act], rest);
    if RefusedIn(s1, rest, t) {
      RefusedLater(s, [act], rest, t);
    }
  }

  /** The transaction's remaining statements end it, whatever state it is in. */
  lemma {:induction false} ItCanFinish(s: System, t: int, initial: Slice, programs: map<int, Program>)
    returns (acts: seq<Act>)
    requires SystemOk(s, initial, programs) && t in s.txs && !Over(s.txs[t].phase) && Free(s, t)
    ensures EndedBy(s, t, acts) && SystemOk(RunActs(s, acts), initial, programs)
    decreases Left(s.txs[t].phase)
  {
    var act := Next(s, t);
    var s1 := Do(s, act);
    NeverStuck(s, t, initial, programs);
    ActKeepsSystem(s, act, initial, programs);
    if Over(s1.txs[t].phase) {
      acts := [act];
      LastStatement(s, t, act);
    } else {
      var rest := ItCanFinish(s1, t, initial, programs);
      acts := [act] + rest;
      RunOne(s, act);
      OneBefore(s, t, act, s1, rest);
    }
  }

  ghost function Unfinished(s: System): set<int> {
    set t | t in s.txs && !Over(s.txs[t].phase)
  }

  /** Everyone has finished; whoever was rolled back on the way is a request that was refused. */
  ghost predicate AllOver(s: System, acts: seq<Act>) {
    var s' := RunActs(s, acts);
    && s'.lock.None? && s'.txs.Keys == s.txs.Keys
    && forall t :: t in s'.txs ==>
         && Over(s'.txs[t].phase)
         && (Over(s.txs[t].phase) ==> s'.txs[t] == s.txs[t])
         && (s'.txs[t].phase.RolledBack? ==> s.txs[t].phase.RolledBack? || RefusedIn(s, acts, t))
  }

  lemma AllOverAfter(s: System, t: int, first: seq<Act>, rest: seq<Act>)
    requires EndedBy(s, t, first) && !Over(s.txs[t].phase) && AllOver(RunActs(s, first), rest)
    ensures AllOver(s, first + rest)
  {
    var s1 := RunActs(s, first);
    RunConcat(s, first, rest);
    forall u | u in s.txs && RunActs(s1, rest).txs[u].phase.RolledBack? && !s.txs[u].phase.RolledBack?
      ensures RefusedIn(s, first + rest, u)
    {
      if RefusedIn(s1, rest, u) {
        RefusedLater(s, first, rest, u);
      } else {
        RefusedEarlier(s, first, rest, u);
      }
    }
  }

  lemma {:induction false} EveryoneCanFinishFrom(s: System, initial: Slice, programs: map<int, Program>)
    returns (acts: seq<Act>)
    requires SystemOk(s, initial, programs)
    ensures AllOver(s, acts)
    decreases |Unfinished(s)|
  {
    if Unfinished(s) == {} {
      acts := [];
      NobodyHoldsOn(s, initial, programs);
    } else {
      var t := Turn(s, initial, programs);
      var first := ItCanFinish(s, t, initial, programs);
      var s1 := RunActs(s, first);
      assert Unfinished(s1) == Unfinished(s) - {t};
      var rest := EveryoneCanFinishFrom(s1, initial, programs);
      acts := first + rest;
      AllOverAfter(s, t, first, rest);
    }
  }

  lemma NobodyHoldsOn(s: System, initial: Slice, programs: map<int, Program>)
    requires SystemOk(s, initial, programs) && Unfinished(s) == {}
    ensures s.lock.None? && forall t :: t in s.txs ==> Over(s.txs[t].phase)
  {
    forall t | t in s.txs
      ensures Over(s.txs[t].phase) && s.lock != Some(t)
    {
      assert t !in Unfinished(s);
      assert TxOk(s, t);
    }
  }

  lemma Someone<T>(a: set<T>) returns (x: T)
    requires a != {}
    ensures x in a
  {
    x :| x in a;
  }

  /** Whose turn it is: the lock's holder's, or anyone's. */
  lemma Turn(s: System, initial: Slice, programs: map<int, Program>) returns (t: int)
    requires SystemOk(s, initial, programs) && Unfinished(s) != {}
    ensures t in s.txs && !Over(s.txs[t].phase) && Free(s, t)
  {
    t := Someone(Unfinished(s));
    if s.lock.Some? {
      t := s.lock.value;
      assert TxOk(s, t);
    }
  }

  /**
   No deadlock. Whatever a run has come to, it can go on so that every transaction finishes:
   claims and suspensions commit, and so does every request the domain does not refuse when
   its turn comes.
   */
  lemma EveryoneCanFinish(slice: Slice, programs: map<int, Program>, next: int, acts: seq<Act>)
    returns (more: seq<Act>)
    requires TableOk(slice.rows, next)
    ensures AllOver(RunActs(Start(slice, programs, next), acts), more)
  {
    var start := Start(slice, programs, next);
    RunKeepsSystem(start, acts, slice, programs);
    more := EveryoneCanFinishFrom(RunActs(start, acts), slice, programs);
  }
}
