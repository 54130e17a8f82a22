/**
 Runs in which each request is resolved before the next begins: how long sessions last, how
 often they are written, and why the expiry sweep cannot be noticed. Such a run is the race
 in which the two statements of every request are next to each other.
 */
module SessionRuns {
  import opened Sessions
  import Races = SessionRaces
  import Fates = SessionFates
  import Renewal = SessionRenewals

  datatype Op =
    | Start(token: string, userId: int, now: int)
    | Use(token: string, users: map<int, bool>, now: int)
    | Logout(token: string, now: int)
    | Reset(userId: int, now: int)          // a password reset drops the user's sessions
    | Sweep(now: int)

  function Step(t: Table, op: Op): (Table, Answer) {
    match op
    case Start(token, userId, now) => Login(t, token, userId, now)
    case Use(token, users, now) => CurrentUser(t, users, token, now)
    case Logout(token, _) => (t - {token}, Removed)
    case Reset(userId, _) => (WithoutUser(t, userId), Removed)
    case Sweep(now) => (WithoutExpired(t, now), Removed)
  }

  function Run(t: Table, ops: seq<Op>): Table {
    if |ops| == 0 then t else Step(Run(t, ops[..|ops| - 1]), ops[|ops| - 1]).0
  }

  ghost predicate ClockRuns(ops: seq<Op>, from: int) {
    && (forall k :: 0 <= k < |ops| ==> from <= ops[k].now)
    && (forall j, k :: 0 <= j < k < |ops| ==> ops[j].now <= ops[k].now)
  }

  // ---- The life of one session ----

  /** When the session was last used, counting its start. */
  function LastUse(ops: seq<Op>, token: string, start: int): int {
    if |ops| == 0 then start
    else if ops[|ops| - 1].Use? && ops[|ops| - 1].token == token then ops[|ops| - 1].now
    else LastUse(ops[..|ops| - 1], token, start)
  }

  ghost predicate LeavesAlone(op: Op, token: string, userId: int) {
    !(op.Logout? && op.token == token) && !(op.Reset? && op.userId == userId)
  }

  /** Nothing removes the session on purpose, and whatever happens, it was used at most half a lifetime ago. */
  ghost predicate KeptInUse(ops: seq<Op>, token: string, userId: int, start: int) {
    forall k :: 0 <= k < |ops| ==>
      LeavesAlone(ops[k], token, userId) && ops[k].now - LastUse(ops[..k], token, start) <= RENEW_THRESHOLD
  }

  /** Right after a use at least half the lifetime, and never more than the whole, is left. */
  ghost predicate LivesOn(t: Table, token: string, userId: int, lastUse: int) {
    token in t && t[token].userId == userId && RENEW_THRESHOLD <= t[token].expiresAt - lastUse <= SESSION_TTL
  }

  lemma {:induction false} LastUseIsPast(ops: seq<Op>, token: string, start: int, now: int)
    requires start <= now && forall k :: 0 <= k < |ops| ==> ops[k].now <= now
    ensures LastUse(ops, token, start) <= now
  {
    if |ops| == 0 {
    } else {
      LastUseIsPast(ops[..|ops| - 1], token, start, now);
    }
  }

  lemma StepLivesOn(t: Table, op: Op, token: string, userId: int, lastUse: int)
    requires LivesOn(t, token, userId, lastUse) && LeavesAlone(op, token, userId)
    requires lastUse <= op.now <= lastUse + RENEW_THRESHOLD
    ensures LivesOn(Step(t, op).0, token, userId, if op.Use? && op.token == token then op.now else lastUse)
  {
  }

  /** A session used at least every half lifetime never expires, with or without sweeps. */
  lemma {:induction false} UsedSessionLives(t: Table, ops: seq<Op>, token: string, userId: int, start: int)
    requires LivesOn(t, token, userId, start) && ClockRuns(ops, start) && KeptInUse(ops, token, userId, start)
    ensures LivesOn(Run(t, ops), token, userId, LastUse(ops, token, start))
  {
    if |ops| == 0 {
    } else {
      var n := |ops| - 1;
      assert forall k :: 0 <= k < n ==> ops[..n][..k] == ops[..k];
      UsedSessionLives(t, ops[..n], token, userId, start);
      LastUseIsPast(ops[..n], token, start, ops[n].now);
      StepLivesOn(Run(t, ops[..n]), ops[n], token, userId, LastUse(ops[..n], token, start));
    }
  }

  /** So each of its uses by an active user is accepted. */
  lemma UsedSessionIsAccepted(t: Table, ops: seq<Op>, token: string, userId: int, start: int)
    requires LivesOn(t, token, userId, start) && ClockRuns(ops, start) && KeptInUse(ops, token, userId, start)
    requires |ops| > 0
    requires var last := ops[|ops| - 1]; last.Use? && last.token == token && userId in last.users && last.users[userId]
    ensures var a := Step(Run(t, ops[..|ops| - 1]), ops[|ops| - 1]).1; a.Accepted? && a.userId == userId
  {
    var n := |ops| - 1;
    assert forall k :: 0 <= k < n ==> ops[..n][..k] == ops[..k];
    UsedSessionLives(t, ops[..n], token, userId, start);
  }

  /** A login starts such a life. */
  lemma LoggedInSessionIsAccepted(before: Table, ops: seq<Op>, token: string, userId: int, start: int)
    requires token !in before && ClockRuns(ops, start) && KeptInUse(ops, token, userId, start)
    requires |ops| > 0
    requires var last := ops[|ops| - 1]; last.Use? && last.token == token && userId in last.users && last.users[userId]
    ensures var t := Login(before, token, userId, start).0;
            var a := Step(Run(t, ops[..|ops| - 1]), ops[|ops| - 1]).1;
            a.Accepted? && a.userId == userId
  {
    var t := Login(before, token, userId, start).0;
    assert LivesOn(t, token, userId, start);
    UsedSessionIsAccepted(t, ops, token, userId, start);
  }

  ghost predicate NotRestarted(ops: seq<Op>, token: string) {
    forall k :: 0 <= k < |ops| ==> !(ops[k].Start? && ops[k].token == token)
  }

  /** Once gone or expired, a session is rejected for ever. */
  lemma {:induction false} DeadStaysDead(t: Table, ops: seq<Op>, token: string, now: int)
    requires Fates.DeadBy(t, token, now) && ClockRuns(ops, now) && NotRestarted(ops, token)
    ensures Fates.DeadBy(Run(t, ops), token, now)
    ensures |ops| > 0 && ops[|ops| - 1].Use? && ops[|ops| - 1].token == token ==>
              Step(Run(t, ops[..|ops| - 1]), ops[|ops| - 1]).1 == NotFound
  {
    if |ops| == 0 {
    } else {
      DeadStaysDead(t, ops[..|ops| - 1], token, now);
    }
  }

  /** While nobody uses the token or logs in under it, its expiry stays what it was. */
  lemma {:induction false} IdleKeepsExpiry(t: Table, gap: seq<Op>, token: string)
    requires forall k :: 0 <= k < |gap| && (gap[k].Use? || gap[k].Start?) ==> gap[k].token != token
    ensures token in Run(t, gap) ==> token in t && Run(t, gap)[token] == t[token]
  {
    if |gap| == 0 {
    } else {
      IdleKeepsExpiry(t, gap[..|gap| - 1], token);
    }
  }

  /** A session left idle for longer than its lifetime, whatever other sessions do, is rejected from then on. */
  lemma IdleSessionIsDead(t: Table, gap: seq<Op>, ops: seq<Op>, token: string, userId: int, lastUse: int, now: int)
    requires LivesOn(t, token, userId, lastUse) && now > lastUse + SESSION_TTL
    requires forall k :: 0 <= k < |gap| && (gap[k].Use? || gap[k].Start?) ==> gap[k].token != token
    requires ClockRuns(ops, now) && NotRestarted(ops, token)
    requires |ops| > 0 && ops[|ops| - 1].Use? && ops[|ops| - 1].token == token
    ensures Step(Run(Run(t, gap), ops[..|ops| - 1]), ops[|ops| - 1]).1 == NotFound
  {
    IdleKeepsExpiry(t, gap, token);
    DeadStaysDead(Run(t, gap), ops, token, now);
  }

  /** The request uses the session and writes a new expiry. */
  predicate Renews(before: Table, op: Op, token: string) {
    op.Use? && op.token == token && token in before && op.now <= before[token].expiresAt &&
        NeedsRenewal(before[token], op.now)
  }

  function Renewals(t: Table, ops: seq<Op>, token: string): seq<int> {
    if |ops| == 0 then []
    else
      Renewals(t, ops[..|ops| - 1], token) +
      if Renews(Run(t, ops[..|ops| - 1]), ops[|ops| - 1], token) then [ops[|ops| - 1].now] else []
  }

  lemma StepExpiry(before: Table, op: Op, token: string)
    requires !(op.Start? && op.token == token) && token in Step(before, op).0
    ensures token in before
    ensures Step(before, op).0[token].expiresAt ==
            if Renews(before, op, token) then op.now + SESSION_TTL else before[token].expiresAt
    ensures Renews(before, op, token) ==> before[token].expiresAt < op.now + RENEW_THRESHOLD
  {
  }

  /** From the expiry start on: it never went down, the last renewal decides it, and renewals are spaced. */
  ghost predicate RenewedFrom(start: int, t: Table, token: string, r: seq<int>) {
    && Renewal.Spaced(r)
    && (token in t ==>
         && start <= t[token].expiresAt
         && t[token].expiresAt == if |r| == 0 then start else r[|r| - 1] + SESSION_TTL)
  }

  lemma StepRenews(start: int, before: Table, op: Op, token: string, r: seq<int>)
    requires RenewedFrom(start, before, token, r) && !(op.Start? && op.token == token)
    ensures RenewedFrom(start, Step(before, op).0, token, r + if Renews(before, op, token) then [op.now] else [])
  {
    if Renews(before, op, token) {
      assert token in Step(before, op).0;
      StepExpiry(before, op, token);
      Renewal.SpacedOneMore(r, op.now);
    } else {
      assert r + [] == r;
      if token in Step(before, op).0 {
        StepExpiry(before, op, token);
      }
    }
  }

  /**
   The stored expiry never goes down, the last renewal decides it, and renewals are more
   than half a lifetime apart.
   */
  lemma {:induction false} RenewalsAreApart(t: Table, ops: seq<Op>, token: string)
    requires token in t && NotRestarted(ops, token)
    ensures RenewedFrom(t[token].expiresAt, Run(t, ops), token, Renewals(t, ops, token))
  {
    if |ops| == 0 {
    } else {
      var n := |ops| - 1;
      RenewalsAreApart(t, ops[..n], token);
      StepRenews(t[token].expiresAt, Run(t, ops[..n]), ops[n], token, Renewals(t, ops[..n], token));
    }
  }

  lemma {:induction false} RenewalsWithin(t: Table, ops: seq<Op>, token: string, from: int)
    requires ClockRuns(ops, from)
    ensures forall k :: 0 <= k < |Renewals(t, ops, token)| ==> from <= Renewals(t, ops, token)[k] <= ops[|ops| - 1].now
  {
    if |ops| == 0 {
    } else {
      RenewalsWithin(t, ops[..|ops| - 1], token, from);
    }
  }

  /** So renewal writes are bounded by the time they span: at most one more than it has half lifetimes. */
  lemma {:induction false} RenewalWritesAreBounded(t: Table, ops: seq<Op>, token: string, from: int)
    requires token in t && ClockRuns(ops, from) && NotRestarted(ops, token) && |ops| > 0
    ensures (|Renewals(t, ops, token)| - 1) * RENEW_THRESHOLD <= ops[|ops| - 1].now - from
  {
    RenewalsAreApart(t, ops, token);
    RenewalsWithin(t, ops, token, from);
    Renewal.SpacedWithin(Renewals(t, ops, token), from, ops[|ops| - 1].now);
  }

  // ---- The sweep ----

  function WithoutSweeps(ops: seq<Op>): seq<Op> {
    if |ops| == 0 then [] else (if ops[0].Sweep? then [] else [ops[0]]) + WithoutSweeps(ops[1..])
  }

  /** What the requests are answered; a sweep answers nobody. */
  function Answers(t: Table, ops: seq<Op>): seq<Answer>
    decreases |ops|
  {
    if |ops| == 0 then []
    else (if ops[0].Sweep? then [] else [Step(t, ops[0]).1]) + Answers(Step(t, ops[0]).0, ops[1..])
  }

  /** Tokens are random: none is drawn twice. */
  ghost predicate FreshTokens(t: Table, ops: seq<Op>) {
    && (forall k :: 0 <= k < |ops| && ops[k].Start? ==> ops[k].token !in t)
    && (forall j, k :: 0 <= j < k < |ops| && ops[j].Start? && ops[k].Start? ==> ops[j].token != ops[k].token)
  }

  // ---- Runs are races without overlap ----

  function Statements(op: Op): seq<Races.Statement> {
    match op
    case Start(token, userId, now) => [Races.Insert(token, userId, now)]
    case Use(token, users, now) => [Races.Read(0, token, users, now), Races.Refresh(0, users)]
    case Logout(token, _) => [Races.Delete(token)]
    case Reset(userId, _) => [Races.DeleteOfUser(userId)]
    case Sweep(now) => [Races.DeleteExpired(now)]
  }

  function Serial(ops: seq<Op>): seq<Races.Statement> {
    if |ops| == 0 then [] else Statements(ops[0]) + Serial(ops[1..])
  }

  function AtRest(t: Table): Races.Racing {
    Races.Racing(t, map[])
  }

  lemma OneRequest(t: Table, op: Op)
    ensures Races.Run(AtRest(t), Statements(op)) == AtRest(Step(t, op).0)
    ensures Races.Replies(AtRest(t), Statements(op)) == if op.Sweep? then [] else [Step(t, op).1]
  {
    var ss := Statements(op);
    var r := Races.After(AtRest(t), ss[0]);
    if op.Use? {
      assert ss[1..] == [ss[1]] && ss[1..][1..] == [];
      var r' := Races.After(r, ss[1]);
      assert r'.pending == map[];
      assert Races.Replies(r, ss[1..]) == Races.Reply(r, ss[1]) + [];
      assert Races.Run(r, ss[1..]) == r';
    } else {
      assert ss[1..] == [];
      assert Races.Replies(AtRest(t), ss) == Races.Reply(AtRest(t), ss[0]) + [];
    }
  }

  lemma {:induction false} RunFromFirst(t: Table, ops: seq<Op>)
    requires |ops| > 0
    ensures Run(t, ops) == Run(Step(t, ops[0]).0, ops[1..])
  {
    var n := |ops| - 1;
    if n == 0 {
      assert ops[..0] == [] && ops[1..] == [];
    } else {
      RunFromFirst(t, ops[..n]);
      assert ops[..n][1..] == ops[1..][..n - 1];
    }
  }

  /** The tables and the answers of a run are those of the race. */
  lemma {:induction false} RunsAreRaces(t: Table, ops: seq<Op>)
    ensures Races.Run(AtRest(t), Serial(ops)) == AtRest(Run(t, ops))
    ensures Races.Replies(AtRest(t), Serial(ops)) == Answers(t, ops)
    decreases |ops|
  {
    if |ops| == 0 {
    } else {
      var t' := Step(t, ops[0]).0;
      OneRequest(t, ops[0]);
      Races.RunConcat(AtRest(t), Statements(ops[0]), Serial(ops[1..]));
      RunFromFirst(t, ops);
      RunsAreRaces(t', ops[1..]);
    }
  }

  /** The clock after a request; logouts and resets do not read it. */
  function ClockAfter(op: Op, clock: int): int {
    if op.Logout? || op.Reset? then clock else op.now
  }

  lemma ReadAndRefreshFirst(t: Table, op: Op, rest: seq<Races.Statement>, clock: int)
    requires op.Use? && clock <= op.now
    ensures var ss := Statements(op) + rest;
            && (Races.ClockRuns(rest, op.now) ==> Races.ClockRuns(ss, clock))
            && (Fates.SweepsHarmless(AtRest(Step(t, op).0), rest) ==> Fates.SweepsHarmless(AtRest(t), ss))
            && Fates.WithoutSweeps(ss) == Statements(op) + Fates.WithoutSweeps(rest)
  {
    var ss := Statements(op) + rest;
    var s0, s1 := Statements(op)[0], Statements(op)[1];
    assert ss[1..] == [s1] + rest && ([s1] + rest)[1..] == rest;
    assert Races.After(Races.After(AtRest(t), s0), s1) == AtRest(Step(t, op).0) by {
      assert Races.After(Races.After(AtRest(t), s0), s1).pending == map[];
    }
    assert Fates.WithoutSweeps(ss) == [s0] + Fates.WithoutSweeps([s1] + rest);
  }

  lemma StatementFirst(t: Table, op: Op, rest: seq<Races.Statement>, clock: int)
    requires !op.Use? && clock <= op.now
    ensures var ss := Statements(op) + rest;
            && (Races.ClockRuns(rest, ClockAfter(op, clock)) ==> Races.ClockRuns(ss, clock))
            && (Fates.SweepsHarmless(AtRest(Step(t, op).0), rest) ==> Fates.SweepsHarmless(AtRest(t), ss))
            && Fates.WithoutSweeps(ss) == (if op.Sweep? then [] else Statements(op)) + Fates.WithoutSweeps(rest)
  {
    var ss := Statements(op) + rest;
    assert ss[1..] == rest;
    assert Races.After(AtRest(t), ss[0]) == AtRest(Step(t, op).0);
  }

  lemma {:induction false} SerialFits(t: Table, ops: seq<Op>, from: int)
    requires ClockRuns(ops, from)
    ensures Races.ClockRuns(Serial(ops), from) && Fates.SweepsHarmless(AtRest(t), Serial(ops))
    ensures Fates.WithoutSweeps(Serial(ops)) == Serial(WithoutSweeps(ops))
    decreases |ops|
  {
    if |ops| == 0 {
    } else {
      SerialFits(Step(t, ops[0]).0, ops[1..], ClockAfter(ops[0], from));
      SerialWithoutFirst(ops);
      if ops[0].Use? {
        ReadAndRefreshFirst(t, ops[0], Serial(ops[1..]), from);
      } else {
        StatementFirst(t, ops[0], Serial(ops[1..]), from);
      }
    }
  }

  lemma SerialWithoutFirst(ops: seq<Op>)
    requires |ops| > 0
    ensures Serial(WithoutSweeps(ops)) == (if ops[0].Sweep? then [] else Statements(ops[0])) +
            Serial(WithoutSweeps(ops[1..]))
  {
    if ops[0].Sweep? {
      assert WithoutSweeps(ops) == WithoutSweeps(ops[1..]);
    } else {
      assert WithoutSweeps(ops)[1..] == WithoutSweeps(ops[1..]);
    }
  }

  /** Where an insertion of the race comes from. */
  lemma {:induction false} LoginOf(ops: seq<Op>, k: int) returns (j: int)
    requires 0 <= k < |Serial(ops)| && Serial(ops)[k].Insert?
    ensures 0 <= j < |ops| && ops[j].Start? && ops[j].token == Serial(ops)[k].token
  {
    var n := |Statements(ops[0])|;
    if k < n {
      j := 0;
    } else {
      j := LoginOf(ops[1..], k - n);
      j := j + 1;
    }
  }

  lemma {:induction false} SerialIsFresh(t: Table, ops: seq<Op>)
    requires FreshTokens(t, ops)
    ensures Races.FreshTokens(t, Serial(ops))
  {
    var ss := Serial(ops);
    if |ops| == 0 {
    } else {
      var n, rest := |Statements(ops[0])|, Serial(ops[1..]);
      SerialIsFresh(t, ops[1..]);
      assert ss == Statements(ops[0]) + rest;
      forall j, k | 0 <= j < k < |ss| && ss[j].Insert? && ss[k].Insert?
        ensures ss[j].token != ss[k].token
      {
        if j < n {
          var i := LoginOf(ops[1..], k - n);
          assert ops[1..][i] == ops[i + 1];
        } else {
          assert ss[j] == rest[j - n] && ss[k] == rest[k - n];
        }
      }
      assert forall k :: n <= k < |ss| ==> ss[k] == rest[k - n];
    }
  }

  /** Sweeping expired sessions at any points of any run changes no answer. */
  lemma SweepIsUnobservable(t: Table, ops: seq<Op>, from: int)
    requires ClockRuns(ops, from) && FreshTokens(t, ops)
    ensures Answers(t, WithoutSweeps(ops)) == Answers(t, ops)
  {
    SerialFits(t, ops, from);
    SerialIsFresh(t, ops);
    Fates.HarmlessSweepsAreUnnoticed(AtRest(t), AtRest(t), Serial(ops), from);
    RunsAreRaces(t, ops);
    RunsAreRaces(t, WithoutSweeps(ops));
  }
}
