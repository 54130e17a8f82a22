/** Claims that race statement by statement for an unclaimed checklist: one of them gets it. */
module ClaimInterleavings {
  import opened Domain
  import opened Database
  import opened LockRefinement

  /** Everyone claims the checklist as they saw it: unclaimed. */
  function Claims(users: map<int, int>): map<int, Program> {
    map t | t in users :: Claiming(users[t], None)
  }

  /** The checklist as its claimant leaves it. */
  function WonBy(slice: Slice, user: int): Slice {
    Slice(slice.head.(assignedUserId := Some(user)), slice.rows,
          slice.log + [ClaimedEvent(slice.head.tenantId, slice.head.id, user)])
  }

  /** What a claim by user can have come to. */
  ghost predicate MayBe(s: System, slice: Slice, t: int, user: int, winner: Option<int>)
    requires t in s.txs
  {
    match s.txs[t].phase
    case Begun => true
    case Wrote(w, _) => winner.None? && s.lock == Some(t) && Publish(slice, w) == WonBy(slice, user)
    case Untouched => winner.Some?
    case Committed(wrote) => winner.Some? && (wrote <==> winner.value == t)
    case RolledBack => winner != Some(t)
    case _ => false
  }

  /** Nobody has won yet, and nobody was told otherwise; or one has, and all others have lost or will find out. */
  ghost predicate Race(s: System, slice: Slice, users: map<int, int>, winner: Option<int>) {
    && s.txs.Keys == users.Keys
    && (forall t :: t in users ==> s.txs[t].program == Claiming(users[t], None) && MayBe(s, slice, t, users[t], winner))
    && (winner.Some? ==> winner.value in users && s.txs[winner.value].phase == Committed(true))
    && s.committed == (if winner.Some? then WonBy(slice, users[winner.value]) else slice)
  }

  lemma PublishClaim(slice: Slice, user: int)
    ensures Publish(slice, Writes(slice.head.(assignedUserId := Some(user)), map[],
                                  [ClaimedEvent(slice.head.tenantId, slice.head.id, user)])) == WonBy(slice, user)
  {
    assert slice.rows + map[] == slice.rows;
  }

  ghost function Wins(s: System, act: Act, winner: Option<int>): Option<int> {
    if act.Commit? && act.t in s.txs && s.txs[act.t].phase.Wrote? then Some(act.t) else winner
  }

  lemma OthersMayBe(
    s: System, act: Act, slice: Slice, users: map<int, int>, winner: Option<int>, t: int)
    requires Race(s, slice, users, winner) && t in users && slice.head.assignedUserId == None
    requires act.UseSequence? || act.t != t
    ensures var s' := Do(s, act);
            t in s'.txs && s'.txs[t] == s.txs[t] && MayBe(s', slice, t, users[t], Wins(s, act, winner))
  {
    if !act.UseSequence? && act.t in users {
      assert MayBe(s, slice, act.t, users[act.t], winner);
    }
    assert MayBe(s, slice, t, users[t], winner);
  }

  lemma OwnMayBe(s: System, act: Act, slice: Slice, users: map<int, int>, winner: Option<int>)
    requires Race(s, slice, users, winner) && !act.UseSequence? && act.t in users && slice.head.assignedUserId == None
    ensures var s' := Do(s, act);
            && act.t in s'.txs && s'.txs[act.t].program == s.txs[act.t].program
            && MayBe(s', slice, act.t, users[act.t], Wins(s, act, winner))
  {
    assert MayBe(s, slice, act.t, users[act.t], winner);
    PublishClaim(slice, users[act.t]);
  }

  lemma EveryoneMayBe(s: System, act: Act, slice: Slice, users: map<int, int>, winner: Option<int>, t: int)
    requires Race(s, slice, users, winner) && t in users && slice.head.assignedUserId == None
    ensures var s' := Do(s, act);
            && t in s'.txs && s'.txs[t].program == s.txs[t].program
            && MayBe(s', slice, t, users[t], Wins(s, act, winner))
  {
    if act.UseSequence? || act.t != t {
      OthersMayBe(s, act, slice, users, winner, t);
    } else {
      OwnMayBe(s, act, slice, users, winner);
    }
  }

  lemma RowGoesOn(s: System, act: Act, slice: Slice, users: map<int, int>, winner: Option<int>)
    requires Race(s, slice, users, winner) && slice.head.assignedUserId == None
    ensures var s', winner' := Do(s, act), Wins(s, act, winner);
            && s'.txs.Keys == users.Keys
            && (winner'.Some? ==> winner'.value in users && s'.txs[winner'.value].phase == Committed(true))
            && s'.committed == (if winner'.Some? then WonBy(slice, users[winner'.value]) else slice)
  {
    if !act.UseSequence? && act.t in users {
      assert MayBe(s, slice, act.t, users[act.t], winner);
    }
  }

  lemma RaceGoesOn(s: System, act: Act, slice: Slice, users: map<int, int>, winner: Option<int>)
    requires Race(s, slice, users, winner) && slice.head.assignedUserId == None
    ensures Race(Do(s, act), slice, users, Wins(s, act, winner))
  {
    var s' := Do(s, act);
    RowGoesOn(s, act, slice, users, winner);
    forall t | t in users
      ensures t in s'.txs && s'.txs[t].program == s.txs[t].program
      ensures MayBe(s', slice, t, users[t], Wins(s, act, winner))
    {
      EveryoneMayBe(s, act, slice, users, winner, t);
    }
  }

  lemma {:induction false} RaceThroughout(slice: Slice, users: map<int, int>, next: int, acts: seq<Act>)
    returns (winner: Option<int>)
    requires slice.head.assignedUserId == None
    ensures Race(RunActs(Start(slice, Claims(users), next), acts), slice, users, winner)
  {
    if |acts| == 0 {
      winner := None;
    } else {
      var n := |acts| - 1;
      var s := RunActs(Start(slice, Claims(users), next), acts[..n]);
      winner := RaceThroughout(slice, users, next, acts[..n]);
      RaceGoesOn(s, acts[n], slice, users, winner);
      winner := Wins(s, acts[n], winner);
    }
  }

  /** The claims that have committed, whether they won or lost, and those that won. */
  ghost function Answered(s: System): set<int> {
    set t | t in s.txs && s.txs[t].phase.Committed?
  }

  ghost function Winners(s: System): set<int> {
    set t | t in s.txs && s.txs[t].phase == Committed(true)
  }

  lemma OneWon(s: System, slice: Slice, users: map<int, int>, winner: int)
    requires Race(s, slice, users, Some(winner))
    ensures Winners(s) == {winner} && winner in Answered(s)
  {
    forall t | t in s.txs && s.txs[t].phase == Committed(true)
      ensures t == winner
    {
      assert MayBe(s, slice, t, users[t], Some(winner));
    }
  }

  lemma NobodyAnswered(s: System, slice: Slice, users: map<int, int>)
    requires Race(s, slice, users, None)
    ensures Answered(s) == {}
  {
    forall t | t in s.txs
      ensures !s.txs[t].phase.Committed?
    {
      assert MayBe(s, slice, t, users[t], None);
    }
  }

  /**
   Any number of claims on an unclaimed checklist, however their statements interleave with
   each other, with rollbacks and with others who use the id sequence: as soon as one of them
   is answered exactly one has won; the row names its user, the log has its event and no
   other, and nothing else has changed.
   */
  lemma InterleavedClaimsHaveOneWinner(slice: Slice, users: map<int, int>, next: int, acts: seq<Act>)
    requires slice.head.assignedUserId == None
    ensures var s := RunActs(Start(slice, Claims(users), next), acts);
            if Answered(s) == {} then s.committed == slice
            else exists t :: t in users && Winners(s) == {t} && s.committed == WonBy(slice, users[t])
  {
    var s := RunActs(Start(slice, Claims(users), next), acts);
    var winner := RaceThroughout(slice, users, next, acts);
    if winner.Some? {
      OneWon(s, slice, users, winner.value);
    } else {
      NobodyAnswered(s, slice, users);
    }
  }
}
