/** Many users claim one checklist: who wins, what the losers are told, and what the log counts. */
module ClaimRace {
  import opened Domain
  import opened Database

  datatype Attempt = Attempt(user: int, expected: Option<int>)

  /** The database after the attempts, and what each of them was answered. */
  function ClaimRun(db: Db, tenant: int, id: int, attempts: seq<Attempt>): (r: (Db, seq<Result<bool>>))
    ensures |r.1| == |attempts|
  {
    if |attempts| == 0 then (db, [])
    else
      var n := |attempts| - 1;
      var (d, answers) := ClaimRun(db, tenant, id, attempts[..n]);
      var (d', answer) := Claim(d, tenant, id, attempts[n].user, attempts[n].expected);
      (d', answers + [answer])
  }

  function Answered(answers: seq<Result<bool>>): nat {
    if |answers| == 0 then 0
    else Answered(answers[..|answers| - 1]) + if answers[|answers| - 1].Ok? then 1 else 0
  }

  function Won(answers: seq<Result<bool>>): nat {
    if |answers| == 0 then 0
    else Won(answers[..|answers| - 1]) + if answers[|answers| - 1] == Ok(true) then 1 else 0
  }

  /** From db on: a claimed event for each win, a claim_lost notification for each other answer, and nothing else. */
  ghost predicate Recorded(db: Db, db': Db, id: int, wins: nat, answered: nat) {
    && db.log <= db'.log && db.notifications <= db'.notifications
    && (forall k :: |db.log| <= k < |db'.log| ==> db'.log[k].action == Claimed && db'.log[k].checklistId == id)
    && (forall k :: |db.notifications| <= k < |db'.notifications| ==>
         db'.notifications[k].kind == ClaimLost && db'.notifications[k].checklistId == id)
    && |db'.log| - |db.log| == wins
    && (|db'.log| - |db.log|) + (|db'.notifications| - |db.notifications|) == answered
    && db' == db.(checklists := db'.checklists, log := db'.log, notifications := db'.notifications)
  }

  lemma ClaimIsRecorded(db: Db, d: Db, tenant: int, id: int, a: Attempt, wins: nat, answered: nat)
    requires Recorded(db, d, id, wins, answered)
    ensures var (d', answer) := Claim(d, tenant, id, a.user, a.expected);
            Recorded(db, d', id, wins + if answer == Ok(true) then 1 else 0, answered + if answer.Ok? then 1 else 0)
  {
  }

  /**
   Whatever the attempts expect: each one that is answered adds one claimed event or one
   claim_lost notification, wins are what the log counts, and an error leaves no trace.
   */
  lemma {:induction false} EveryAnswerIsRecorded(db: Db, tenant: int, id: int, attempts: seq<Attempt>)
    ensures var (db', answers) := ClaimRun(db, tenant, id, attempts);
            Recorded(db, db', id, Won(answers), Answered(answers))
  {
    if |attempts| == 0 {
    } else {
      var n := |attempts| - 1;
      var (d, front) := ClaimRun(db, tenant, id, attempts[..n]);
      var answers := ClaimRun(db, tenant, id, attempts).1;
      EveryAnswerIsRecorded(db, tenant, id, attempts[..n]);
      ClaimIsRecorded(db, d, tenant, id, attempts[n], Won(front), Answered(front));
      assert answers[..n] == front;
    }
  }

  predicate MayHold(db: Db, id: int, user: int)
    requires id in db.checklists
  {
    TriggerAllows(db.members, db.checklists[id].(assignedUserId := Some(user)))
  }

  /** How many attempts come before the first by a user who may hold the checklist. */
  function TurnedAway(db: Db, id: int, users: seq<int>): (n: nat)
    requires id in db.checklists
    ensures n <= |users|
    ensures n < |users| ==> MayHold(db, id, users[n])
    ensures forall k :: 0 <= k < n ==> !MayHold(db, id, users[k])
  {
    if |users| == 0 then 0
    else
      var n := TurnedAway(db, id, users[..|users| - 1]);
      if n < |users| - 1 || MayHold(db, id, users[|users| - 1]) then n else n + 1
  }

  function AllExpectUnclaimed(users: seq<int>): (r: seq<Attempt>)
    ensures |r| == |users|
  {
    seq(|users|, k requires 0 <= k < |users| => Attempt(users[k], None))
  }

  function LostTo(tenant: int, id: int, winner: int, losers: seq<int>): (r: seq<Notification>)
    ensures |r| == |losers|
  {
    seq(|losers|, k requires 0 <= k < |losers| => Notification(tenant, losers[k], ClaimLost, id, Some(winner)))
  }

  function RaceAnswer(turnedAway: nat, k: int): Result<bool> {
    if k < turnedAway then Err(ErrTrigger) else if k == turnedAway then Ok(true) else Ok(false)
  }

  /** The race's outcome: the first user allowed to hold the checklist has it, everyone after is told so. */
  function RaceOutcome(db: Db, tenant: int, id: int, users: seq<int>): Db
    requires id in db.checklists
  {
    var w := TurnedAway(db, id, users);
    if w == |users| then db
    else db.(checklists := db.checklists[id := db.checklists[id].(assignedUserId := Some(users[w]))],
             log := db.log + [ClaimedEvent(tenant, id, users[w])],
             notifications := db.notifications + LostTo(tenant, id, users[w], users[w + 1..]))
  }

  lemma LoserIsTold(d: Db, tenant: int, id: int, user: int, holder: int)
    requires Exists(d, tenant, id) && d.checklists[id].assignedUserId == Some(holder)
    ensures Claim(d, tenant, id, user, None) ==
            (d.(notifications := d.notifications + [Notification(tenant, user, ClaimLost, id, Some(holder))]),
                Ok(false))
  {
  }

  lemma LostToOneMore(tenant: int, id: int, winner: int, users: seq<int>, w: nat)
    requires w < |users| - 1
    ensures var n := |users| - 1;
            LostTo(tenant, id, winner, users[w + 1..])
            == LostTo(tenant, id, winner, users[..n][w + 1..]) +
                [Notification(tenant, users[n], ClaimLost, id, Some(winner))]
  {
  }

  lemma RaceStepAfterWin(db: Db, tenant: int, id: int, users: seq<int>)
    requires Exists(db, tenant, id) && |users| > 0 && TurnedAway(db, id, users[..|users| - 1]) < |users| - 1
    ensures var n := |users| - 1;
            Claim(RaceOutcome(db, tenant, id, users[..n]), tenant, id, users[n], None) ==
                (RaceOutcome(db, tenant, id, users), Ok(false))
  {
    var n := |users| - 1;
    var w := TurnedAway(db, id, users[..n]);
    LoserIsTold(RaceOutcome(db, tenant, id, users[..n]), tenant, id, users[n], users[w]);
    LostToOneMore(tenant, id, users[w], users, w);
    assert db.notifications + LostTo(tenant, id, users[w], users[w + 1..])
        == db.notifications + LostTo(tenant, id, users[w], users[..n][w + 1..]) +
            [Notification(tenant, users[n], ClaimLost, id, Some(users[w]))];
  }

  lemma RaceStep(db: Db, tenant: int, id: int, users: seq<int>)
    requires Exists(db, tenant, id) && db.checklists[id].assignedUserId.None? && |users| > 0
    ensures var n := |users| - 1;
            Claim(RaceOutcome(db, tenant, id, users[..n]), tenant, id, users[n], None)
            == (RaceOutcome(db, tenant, id, users), RaceAnswer(TurnedAway(db, id, users), n))
  {
    var n := |users| - 1;
    if TurnedAway(db, id, users[..n]) < n {
      RaceStepAfterWin(db, tenant, id, users);
    } else if MayHold(db, id, users[n]) {
      assert db.notifications + LostTo(tenant, id, users[n], users[n + 1..]) == db.notifications;
    }
  }

  /**
   Any number of users, in any order, all claiming an unclaimed checklist: exactly one
   winner, one claimed event, and a claim_lost notification naming the winner for everyone
   after; attempts of users the group rule refuses fail and leave no trace.
   */
  lemma {:induction false} OneWinner(db: Db, tenant: int, id: int, users: seq<int>)
    requires Exists(db, tenant, id) && db.checklists[id].assignedUserId.None?
    ensures ClaimRun(db, tenant, id, AllExpectUnclaimed(users)).0 == RaceOutcome(db, tenant, id, users)
    ensures var answers := ClaimRun(db, tenant, id, AllExpectUnclaimed(users)).1;
            forall k :: 0 <= k < |users| ==> answers[k] == RaceAnswer(TurnedAway(db, id, users), k)
  {
    if |users| == 0 {
    } else {
      var n := |users| - 1;
      OneWinner(db, tenant, id, users[..n]);
      assert AllExpectUnclaimed(users)[..n] == AllExpectUnclaimed(users[..n]);
      RaceStep(db, tenant, id, users);
      SameTurn(db, id, users);
    }
  }

  lemma SameTurn(db: Db, id: int, users: seq<int>)
    requires id in db.checklists && |users| > 0
    ensures var n := |users| - 1;
            forall k :: 0 <= k < n ==>
              RaceAnswer(TurnedAway(db, id, users), k) == RaceAnswer(TurnedAway(db, id, users[..n]), k)
  {
  }

  /** Without a group nobody is turned away: of N claims one wins and N - 1 are notified. */
  lemma OneWinnerAmongAll(db: Db, tenant: int, id: int, users: seq<int>)
    requires Exists(db, tenant, id) && db.checklists[id].assignedUserId.None? && db.checklists[id].assignedGroupId.None?
    requires |users| >= 1
    ensures var (db', answers) := ClaimRun(db, tenant, id, AllExpectUnclaimed(users));
            && id in db'.checklists && db'.checklists[id].assignedUserId == Some(users[0])
            && db'.log == db.log + [ClaimedEvent(tenant, id, users[0])]
            && db'.notifications == db.notifications + LostTo(tenant, id, users[0], users[1..])
            && answers[0] == Ok(true) && forall k :: 1 <= k < |users| ==> answers[k] == Ok(false)
  {
    OneWinner(db, tenant, id, users);
    assert MayHold(db, id, users[0]);
  }
}
