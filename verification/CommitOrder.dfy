/**
 The transactions that committed without having matched the checklist: suspensions of people
 it does not have, and claims that lost. They hold no lock, so where they belong in the serial
 order is a question of its own: always where their last UPDATE ran, and in the order of the
 commits exactly when each of them still fits at its commit.
 */
module CommitOrder {
  import opened ItemStore
  import opened LockRefinement

  predicate Missed(s: System, act: Act) {
    act.Commit? && act.t in s.txs && s.txs[act.t].phase.Untouched?
  }

  predicate Writes(s: System, act: Act) {
    act.Commit? && act.t in s.txs && s.txs[act.t].phase.Wrote?
  }

  function WriterOf(s: System, act: Act): Entry
    requires Writes(s, act)
  {
    Entry(act.t, s.txs[act.t].program, s.txs[act.t].phase.base)
  }

  lemma TxsStayOk(slice: Slice, programs: map<int, Program>, next: int, acts: seq<Act>)
    requires TableOk(slice.rows, next)
    ensures var s := RunActs(Start(slice, programs, next), acts);
            s.txs.Keys == programs.Keys && forall t :: t in s.txs ==> TxOk(s, t)
  {
    RunKeepsSystem(Start(slice, programs, next), acts, slice, programs);
  }

  // ---- In the order of the commits ----

  ghost function CommitOf(s: System, act: Act): seq<Entry> {
    if Writes(s, act) then [WriterOf(s, act)]
    else if Missed(s, act) then [Entry(act.t, s.txs[act.t].program, s.next)]
    else []
  }

  /** Every committed transaction, whether it wrote or not, in the order of the commits. */
  ghost function Commits(s: System, acts: seq<Act>): seq<Entry> {
    if |acts| == 0 then []
    else Commits(s, acts[..|acts| - 1]) + CommitOf(RunActs(s, acts[..|acts| - 1]), acts[|acts| - 1])
  }

  /** Every transaction that matched nothing still fits when it commits. */
  ghost predicate MissedFit(s: System, acts: seq<Act>) {
    |acts| > 0 ==>
      var before, act := RunActs(s, acts[..|acts| - 1]), acts[|acts| - 1];
      && MissedFit(s, acts[..|acts| - 1])
      && (Missed(before, act) ==> Fits(before.committed.head, before.txs[act.t].program))
  }

  /** At every point of the run, what is committed is what the commits so far give one after the other. */
  ghost predicate SerialThroughout(slice: Slice, s: System, acts: seq<Act>) {
    && RunActs(s, acts).committed == SerialRun(slice, Commits(s, acts))
    && (|acts| > 0 ==> SerialThroughout(slice, s, acts[..|acts| - 1]))
  }

  lemma SerialOneMore(slice: Slice, history: seq<Entry>, e: Entry)
    ensures SerialRun(slice, history + [e]) == Serial(SerialRun(slice, history), e.program, e.base)
  {
    assert (history + [e])[..|history|] == history;
  }

  lemma OnlyWritersChange(s: System, act: Act)
    ensures !Writes(s, act) ==> Do(s, act).committed == s.committed
  {
  }

  lemma WriterIsSerial(s: System, act: Act)
    requires Writes(s, act) && TxOk(s, act.t)
    ensures Do(s, act).committed == Serial(s.committed, WriterOf(s, act).program, WriterOf(s, act).base)
  {
  }

  lemma CommitStep(s: System, act: Act, slice: Slice, history: seq<Entry>)
    requires s.committed == SerialRun(slice, history) && forall t :: t in s.txs ==> TxOk(s, t)
    ensures Do(s, act).committed == SerialRun(slice, history + CommitOf(s, act))
            <==> (Missed(s, act) ==> Fits(s.committed.head, s.txs[act.t].program))
  {
    OnlyWritersChange(s, act);
    if Writes(s, act) {
      WriterIsSerial(s, act);
      SerialOneMore(slice, history, WriterOf(s, act));
    } else if Missed(s, act) {
      MissedFits(s, act.t, s.next);
      SerialOneMore(slice, history, Entry(act.t, s.txs[act.t].program, s.next));
    } else {
      assert history + [] == history;
    }
  }

  /**
   The committed transactions, all of them, run one at a time in the order of their commits
   give what is committed, at every point of the run, if and only if every transaction that
   matched nothing still fits when it commits.
   */
  lemma {:induction false} CommitOrderIsSerialExactlyWhenMissedFit(
    slice: Slice, programs: map<int, Program>, next: int, acts: seq<Act>)
    requires TableOk(slice.rows, next)
    ensures SerialThroughout(slice, Start(slice, programs, next), acts) <==>
            MissedFit(Start(slice, programs, next), acts)
  {
    if |acts| == 0 {
    } else {
      var n := |acts| - 1;
      var s := Start(slice, programs, next);
      CommitOrderIsSerialExactlyWhenMissedFit(slice, programs, next, acts[..n]);
      TxsStayOk(slice, programs, next, acts[..n]);
      if SerialThroughout(slice, s, acts[..n]) {
        CommitStep(RunActs(s, acts[..n]), acts[n], slice, Commits(s, acts[..n]));
      }
    }
  }

  // ---- At the UPDATE that matched nothing ----

  /** The statement after which the transaction has nothing left to do but commit. */
  ghost predicate Misses(s: System, act: Act) {
    && (act.TryClaim? || act.ClearAssignee?) && act.t in s.txs
    && !s.txs[act.t].phase.Untouched? && Do(s, act).txs[act.t].phase.Untouched?
  }

  ghost function PlaceOf(s: System, act: Act, done: set<int>): seq<Entry> {
    if Writes(s, act) then [WriterOf(s, act)]
    else if Misses(s, act) && act.t in done then [Entry(act.t, s.txs[act.t].program, s.next)]
    else []
  }

  /** Writers at their commit; of the others those of done, at their last UPDATE. */
  ghost function Places(s: System, acts: seq<Act>, done: set<int>): seq<Entry> {
    if |acts| == 0 then []
    else Places(s, acts[..|acts| - 1], done) + PlaceOf(RunActs(s, acts[..|acts| - 1]), acts[|acts| - 1], done)
  }

  lemma MissIsSerial(s: System, act: Act)
    requires Misses(s, act) && TxOk(s, act.t)
    ensures Serial(s.committed, s.txs[act.t].program, s.next) == s.committed
  {
  }

  lemma PlaceStep(s: System, act: Act, done: set<int>, slice: Slice, history: seq<Entry>)
    requires s.committed == SerialRun(slice, history) && forall t :: t in s.txs ==> TxOk(s, t)
    ensures Do(s, act).committed == SerialRun(slice, history + PlaceOf(s, act, done))
  {
    OnlyWritersChange(s, act);
    if Writes(s, act) {
      WriterIsSerial(s, act);
      SerialOneMore(slice, history, WriterOf(s, act));
    } else if Misses(s, act) && act.t in done {
      MissIsSerial(s, act);
      SerialOneMore(slice, history, Entry(act.t, s.txs[act.t].program, s.next));
    } else {
      assert history + [] == history;
    }
  }

  lemma {:induction false} PlacesAreSerial(
    slice: Slice, programs: map<int, Program>, next: int, acts: seq<Act>, done: set<int>)
    requires TableOk(slice.rows, next)
    ensures var s := Start(slice, programs, next);
            RunActs(s, acts).committed == SerialRun(slice, Places(s, acts, done))
  {
    if |acts| == 0 {
    } else {
      var n := |acts| - 1;
      var s := Start(slice, programs, next);
      PlacesAreSerial(slice, programs, next, acts[..n], done);
      TxsStayOk(slice, programs, next, acts[..n]);
      PlaceStep(RunActs(s, acts[..n]), acts[n], done, slice, Places(s, acts[..n], done));
    }
  }

  /** It has committed, or matched nothing and may still commit. */
  predicate Listed(phase: Phase, mayMiss: bool) {
    phase == Committed(true) || (mayMiss && (phase.Untouched? || phase == Committed(false)))
  }

  predicate MayHavePlace(phase: Phase, mayMiss: bool) {
    Listed(phase, mayMiss) || (mayMiss && phase.RolledBack?)
  }

  ghost predicate PlacedOnce(s: System, places: seq<Entry>, done: set<int>) {
    && (forall k :: 0 <= k < |places| ==>
         && places[k].t in s.txs && s.txs[places[k].t].program == places[k].program
         && MayHavePlace(s.txs[places[k].t].phase, places[k].t in done))
    && (forall j, k :: 0 <= j < k < |places| ==> places[j].t != places[k].t)
    && (forall t :: t in s.txs && Listed(s.txs[t].phase, t in done) ==> HasPlace(places, t))
  }

  ghost predicate HasPlace(places: seq<Entry>, t: int) {
    exists k :: 0 <= k < |places| && places[k].t == t
  }

  /** How a phase can change: commits and rollbacks are final, and there is one way into each of the listed phases. */
  lemma PhaseMoves(s: System, act: Act, done: set<int>, t: int)
    requires t in s.txs
    ensures var s' := Do(s, act);
            && t in s'.txs && s'.txs[t].program == s.txs[t].program
            && (MayHavePlace(s.txs[t].phase, t in done) ==> MayHavePlace(s'.txs[t].phase, t in done))
            && (PlaceOf(s, act, done) != [] && act.t == t ==>
                 !MayHavePlace(s.txs[t].phase, t in done) && Listed(s'.txs[t].phase, t in done))
            && (Listed(s'.txs[t].phase, t in done) ==>
                 Listed(s.txs[t].phase, t in done) || (PlaceOf(s, act, done) != [] && act.t == t))
  {
  }

  lemma PlacesStep(s: System, act: Act, done: set<int>, places: seq<Entry>)
    requires PlacedOnce(s, places, done) && Do(s, act).txs.Keys == s.txs.Keys
    ensures PlacedOnce(Do(s, act), places + PlaceOf(s, act, done), done)
  {
    var s', more := Do(s, act), PlaceOf(s, act, done);
    var all := places + more;
    forall k | 0 <= k < |all|
      ensures all[k].t in s'.txs && s'.txs[all[k].t].program == all[k].program
      ensures MayHavePlace(s'.txs[all[k].t].phase, all[k].t in done)
      ensures k == |places| ==> forall j :: 0 <= j < k ==> all[j].t != all[k].t
    {
      PhaseMoves(s, act, done, all[k].t);
    }
    forall t | t in s'.txs && Listed(s'.txs[t].phase, t in done)
      ensures HasPlace(all, t)
    {
      PhaseMoves(s, act, done, t);
      if more != [] && act.t == t {
        assert all[|places|].t == t;
      } else {
        var k :| 0 <= k < |places| && places[k].t == t;
        assert all[k].t == t;
      }
    }
  }

  lemma {:induction false} EveryoneIsPlacedOnce(
    slice: Slice, programs: map<int, Program>, next: int, acts: seq<Act>, done: set<int>)
    requires TableOk(slice.rows, next)
    ensures var s := Start(slice, programs, next);
            PlacedOnce(RunActs(s, acts), Places(s, acts, done), done)
  {
    if |acts| == 0 {
    } else {
      var n := |acts| - 1;
      var s := Start(slice, programs, next);
      EveryoneIsPlacedOnce(slice, programs, next, acts[..n], done);
      TxsStayOk(slice, programs, next, acts[..n]);
      TxsStayOk(slice, programs, next, acts);
      PlacesStep(RunActs(s, acts[..n]), acts[n], done, Places(s, acts[..n], done));
    }
  }

  ghost function CommittedOf(s: System): set<int> {
    set t | t in s.txs && s.txs[t].phase.Committed?
  }

  /**
   Serializability of everything that committed: with each transaction that matched nothing
   at its last UPDATE, and each writer at its commit, the committed transactions, each exactly
   once and nobody else, run one at a time give the row, the item rows and the log.
   */
  lemma EveryCommitHasItsPlace(slice: Slice, programs: map<int, Program>, next: int, acts: seq<Act>)
    requires TableOk(slice.rows, next)
    ensures var s := RunActs(Start(slice, programs, next), acts);
            var order := Places(Start(slice, programs, next), acts, CommittedOf(s));
            && s.committed == SerialRun(slice, order)
            && (forall k :: 0 <= k < |order| ==>
                 order[k].t in programs && order[k].program == programs[order[k].t] && order[k].t in CommittedOf(s))
            && (forall j, k :: 0 <= j < k < |order| ==> order[j].t != order[k].t)
            && (forall t :: t in CommittedOf(s) ==> HasPlace(order, t))
  {
    var s0 := Start(slice, programs, next);
    var s := RunActs(s0, acts);
    PlacesAreSerial(slice, programs, next, acts, CommittedOf(s));
    EveryoneIsPlacedOnce(slice, programs, next, acts, CommittedOf(s));
    RunKeepsSystem(s0, acts, slice, programs);
    forall t | t in CommittedOf(s)
      ensures Listed(s.txs[t].phase, t in CommittedOf(s))
    {
    }
  }
}
