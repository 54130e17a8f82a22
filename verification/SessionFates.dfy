/**
 What becomes of dead and swept sessions when requests race. What holds of every interleaving
 is proved as such; what needs a condition is given with the exact one.
 */
module SessionFates {
  import opened Sessions
  import opened SessionRaces

  // ---- Dead sessions ----

  predicate DeadBy(t: Table, token: string, now: int) {
    token in t ==> t[token].expiresAt < now
  }

  /** No refresh on its way would give the token an expiry that is not over by now. */
  predicate NoRefreshDue(r: Racing, token: string, now: int) {
    forall q | q in r.pending :: r.pending[q].token == token ==> Expiry(r.pending[q]) < now
  }

  predicate Gone(r: Racing, token: string, now: int) {
    DeadBy(r.table, token, now) && (token in r.table ==> NoRefreshDue(r, token, now))
  }

  lemma StaysGone(r: Racing, s: Statement, token: string, now: int)
    requires Gone(r, token, now) && (Timed(s) ==> now <= s.now)
    requires !(s.Insert? && s.token == token)
    ensures Gone(After(r, s), token, now)
    ensures s.Read? && s.token == token && s.request !in r.pending ==> Reply(r, s) == [NotFound]
  {
  }

  /** Every request that asks for the token is told there is no such session. */
  predicate Rejected(r: Racing, ss: seq<Statement>, token: string)
    decreases |ss|
  {
    |ss| > 0 ==>
      && (ss[0].Read? && ss[0].token == token && ss[0].request !in r.pending ==> Reply(r, ss[0]) == [NotFound])
      && Rejected(After(r, ss[0]), ss[1..], token)
  }

  lemma {:induction false} GoneIsRejected(r: Racing, ss: seq<Statement>, token: string, now: int, clock: int)
    requires Gone(r, token, now) && now <= clock && ClockRuns(ss, clock) && NotInserted(ss, token)
    ensures Rejected(r, ss, token)
    decreases |ss|
  {
    if |ss| == 0 {
    } else {
      StaysGone(r, ss[0], token, now);
      GoneIsRejected(After(r, ss[0]), ss[1..], token, now, Tick(ss[0], clock));
    }
  }

  /** Idle: whatever else runs, nobody uses the token or logs in under it. */
  predicate Idle(ss: seq<Statement>, token: string) {
    forall k | 0 <= k < |ss| :: (ss[k].Read? || ss[k].Insert?) ==> ss[k].token != token
  }

  /** What is stored, and what is on its way, comes from uses up to lastUse. */
  predicate UsedUpTo(r: Racing, token: string, lastUse: int) {
    && (token in r.table ==> r.table[token].expiresAt <= lastUse + SESSION_TTL)
    && (forall q | q in r.pending :: r.pending[q].token == token ==> r.pending[q].at <= lastUse)
  }

  lemma {:induction false} IdleKeepsLastUse(r: Racing, ss: seq<Statement>, token: string, lastUse: int)
    requires UsedUpTo(r, token, lastUse) && Idle(ss, token)
    ensures UsedUpTo(Run(r, ss), token, lastUse)
    decreases |ss|
  {
    if |ss| == 0 {
    } else {
      assert UsedUpTo(After(r, ss[0]), token, lastUse);
      IdleKeepsLastUse(After(r, ss[0]), ss[1..], token, lastUse);
    }
  }

  /** Left idle for longer than its lifetime a session is rejected for ever, in any interleaving. */
  lemma IdleSessionIsRejected(
    r: Racing, idle: seq<Statement>, later: seq<Statement>, token: string, lastUse: int, now: int)
    requires UsedUpTo(r, token, lastUse) && Idle(idle, token) && now > lastUse + SESSION_TTL
    requires ClockRuns(later, now) && NotInserted(later, token)
    ensures Rejected(Run(r, idle), later, token)
  {
    IdleKeepsLastUse(r, idle, token, lastUse);
    GoneIsRejected(Run(r, idle), later, token, now, now);
  }

  ghost predicate RejectedForEver(r: Racing, token: string, now: int) {
    forall ss :: ClockRuns(ss, now) && NotInserted(ss, token) ==> Rejected(r, ss, token)
  }

  /** The refresh on its way, then a use. */
  function LateRefresh(q: int, token: string, now: int): seq<Statement> {
    [Refresh(q, map[]), Read(q, token, map[], now)]
  }

  lemma LateRefreshFits(q: int, t: Table, token: string, now: int)
    ensures var ss := LateRefresh(q, token, now);
            ClockRuns(ss, now) && NotInserted(ss, token) && FreshTokens(t, ss)
  {
    var ss := LateRefresh(q, token, now);
    assert ss[1..] == [ss[1]] && ss[1..][1..] == [];
  }

  lemma LateRefreshRevives(r: Racing, q: int, token: string, now: int)
    requires q in r.pending && r.pending[q].token == token && Expiry(r.pending[q]) >= now && token in r.table
    ensures !Rejected(r, LateRefresh(q, token, now), token)
    ensures |Replies(r, LateRefresh(q, token, now))| >= 1
    ensures Replies(r, LateRefresh(q, token, now))[1..] != [NotFound]
  {
    var ss := LateRefresh(q, token, now);
    assert ss[1..] == [ss[1]] && ss[1..][1..] == [];
    var r' := After(r, ss[0]);
    assert Live(r'.table, token, now);
    assert Replies(r', ss[1..]) == Reply(r', ss[1]) + [];
    assert Replies(r, ss)[1..] == Reply(r', ss[1]);
    assert Reply(r', ss[1]) != [NotFound];
  }

  /**
   An expired or missing session is rejected for ever, whatever runs, if and only if no
   refresh of it that reaches beyond now is on its way.
   */
  lemma DeadForEverExactlyWithoutRefreshDue(r: Racing, token: string, now: int)
    requires DeadBy(r.table, token, now)
    ensures RejectedForEver(r, token, now) <==> token !in r.table || NoRefreshDue(r, token, now)
  {
    if token !in r.table || NoRefreshDue(r, token, now) {
      forall ss | ClockRuns(ss, now) && NotInserted(ss, token)
        ensures Rejected(r, ss, token)
      {
        GoneIsRejected(r, ss, token, now, now);
      }
    } else {
      var q :| q in r.pending && r.pending[q].token == token && Expiry(r.pending[q]) >= now;
      LateRefreshFits(q, r.table, token, now);
      LateRefreshRevives(r, q, token, now);
    }
  }

  /** However refreshes race with logout, reset and sweep, a deleted session does not come back. */
  lemma {:induction false} RefreshNeverRevives(r: Racing, ss: seq<Statement>, token: string)
    requires token !in r.table && NotInserted(ss, token)
    ensures token !in Run(r, ss).table
    decreases |ss|
  {
    if |ss| == 0 {
    } else {
      RefreshNeverRevives(After(r, ss[0]), ss[1..], token);
    }
  }

  // ---- The sweep ----

  function Swept(r: Racing, now: int): Racing {
    After(r, DeleteExpired(now))
  }

  /** The sweep deletes no token with a refresh on its way that reaches beyond now. */
  predicate Harmless(r: Racing, now: int) {
    forall token | token in r.table :: r.table[token].expiresAt < now ==> NoRefreshDue(r, token, now)
  }

  /** The swept state lacks sessions only that are gone for good. */
  predicate Covers(full: Racing, swept: Racing, now: int) {
    && full.pending == swept.pending
    && (forall token | token in swept.table :: token in full.table && full.table[token] == swept.table[token])
    && (forall token | token in full.table :: token !in swept.table ==> Gone(full, token, now))
  }

  lemma StatementsMatch(full: Racing, swept: Racing, s: Statement, now: int)
    requires Covers(full, swept, now) && (Timed(s) ==> now <= s.now)
    requires s.Insert? ==> s.token !in full.table
    ensures Reply(full, s) == Reply(swept, s)
    ensures Covers(After(full, s), After(swept, s), Tick(s, now))
  {
    var f, w := After(full, s), After(swept, s);
    forall token | token in f.table && token !in w.table
      ensures Gone(f, token, now)
    {
      assert token in full.table && token !in swept.table;
      StaysGone(full, s, token, now);
    }
  }

  lemma SweepMatches(full: Racing, swept: Racing, now: int, later: int)
    requires Covers(full, swept, now) && now <= later && Harmless(swept, later)
    ensures Covers(full, Swept(swept, later), later)
  {
    forall token | token in full.table && token !in Swept(swept, later).table
      ensures Gone(full, token, later)
    {
      if token in swept.table {
        assert swept.table[token].expiresAt < later;
      }
    }
  }

  lemma {:induction false} RunsMatch(full: Racing, swept: Racing, ss: seq<Statement>, now: int)
    requires Covers(full, swept, now) && ClockRuns(ss, now) && FreshTokens(full.table, ss)
    ensures Replies(full, ss) == Replies(swept, ss)
    decreases |ss|
  {
    if |ss| == 0 {
    } else {
      StatementsMatch(full, swept, ss[0], now);
      StaysFresh(full, ss);
      RunsMatch(After(full, ss[0]), After(swept, ss[0]), ss[1..], Tick(ss[0], now));
    }
  }

  lemma StaysFresh(r: Racing, ss: seq<Statement>)
    requires FreshTokens(r.table, ss) && |ss| > 0
    ensures FreshTokens(After(r, ss[0]).table, ss[1..])
  {
    var t := After(r, ss[0]).table;
    forall k | 0 <= k < |ss[1..]| && ss[1..][k].Insert?
      ensures ss[1..][k].token !in t
    {
      assert ss[1..][k] == ss[k + 1];
    }
  }

  ghost predicate Unnoticed(r: Racing, now: int) {
    forall ss :: ClockRuns(ss, now) && FreshTokens(r.table, ss) ==> Replies(r, ss) == Replies(Swept(r, now), ss)
  }

  /** Whatever requests follow, they are answered as without the sweep, if and only if the sweep was harmless. */
  lemma SweepIsUnnoticedExactlyWhenHarmless(r: Racing, now: int)
    ensures Unnoticed(r, now) <==> Harmless(r, now)
  {
    if Harmless(r, now) {
      SweepMatches(r, r, now, now);
      forall ss | ClockRuns(ss, now) && FreshTokens(r.table, ss)
        ensures Replies(r, ss) == Replies(Swept(r, now), ss)
      {
        RunsMatch(r, Swept(r, now), ss, now);
      }
    } else {
      var token :| token in r.table && r.table[token].expiresAt < now && !NoRefreshDue(r, token, now);
      var q :| q in r.pending && r.pending[q].token == token && Expiry(r.pending[q]) >= now;
      LateRefreshFits(q, r.table, token, now);
      LateRefreshRevives(r, q, token, now);
      SweptStaysDead(Swept(r, now), q, token, now);
    }
  }

  lemma SweptStaysDead(r: Racing, q: int, token: string, now: int)
    requires q in r.pending && r.pending[q].token == token && token !in r.table
    ensures |Replies(r, LateRefresh(q, token, now))| >= 1
    ensures Replies(r, LateRefresh(q, token, now))[1..] == [NotFound]
  {
    var ss := LateRefresh(q, token, now);
    assert ss[1..] == [ss[1]] && ss[1..][1..] == [];
    var r' := After(r, ss[0]);
    assert Replies(r', ss[1..]) == Reply(r', ss[1]) + [];
  }

  function WithoutSweeps(ss: seq<Statement>): seq<Statement> {
    if |ss| == 0 then []
    else (if ss[0].DeleteExpired? then [] else [ss[0]]) + WithoutSweeps(ss[1..])
  }

  predicate SweepsHarmless(r: Racing, ss: seq<Statement>)
    decreases |ss|
  {
    |ss| > 0 ==>
      && (ss[0].DeleteExpired? ==> Harmless(r, ss[0].now))
      && SweepsHarmless(After(r, ss[0]), ss[1..])
  }

  lemma SweepDropped(full: Racing, ss: seq<Statement>)
    requires |ss| > 0 && ss[0].DeleteExpired? && FreshTokens(full.table, ss)
    ensures WithoutSweeps(ss) == WithoutSweeps(ss[1..]) && FreshTokens(full.table, ss[1..])
  {
    assert [] + WithoutSweeps(ss[1..]) == WithoutSweeps(ss[1..]);
    assert forall k :: 0 <= k < |ss[1..]| ==> ss[1..][k] == ss[k + 1];
  }

  lemma StatementKept(full: Racing, ss: seq<Statement>)
    requires |ss| > 0 && !ss[0].DeleteExpired?
    ensures Replies(full, WithoutSweeps(ss)) ==
            Reply(full, ss[0]) + Replies(After(full, ss[0]), WithoutSweeps(ss[1..]))
  {
    var kept := WithoutSweeps(ss);
    assert kept[0] == ss[0] && kept[1..] == WithoutSweeps(ss[1..]);
  }

  /** Any number of harmless sweeps at any points of any interleaving change no answer. */
  lemma {:induction false} HarmlessSweepsAreUnnoticed(full: Racing, swept: Racing, ss: seq<Statement>, now: int)
    requires Covers(full, swept, now) && ClockRuns(ss, now) && FreshTokens(full.table, ss)
    requires SweepsHarmless(swept, ss)
    ensures Replies(full, WithoutSweeps(ss)) == Replies(swept, ss)
    decreases |ss|
  {
    if |ss| == 0 {
    } else if ss[0].DeleteExpired? {
      SweepMatches(full, swept, now, ss[0].now);
      SweepDropped(full, ss);
      HarmlessSweepsAreUnnoticed(full, After(swept, ss[0]), ss[1..], ss[0].now);
    } else {
      StatementsMatch(full, swept, ss[0], now);
      StaysFresh(full, ss);
      StatementKept(full, ss);
      HarmlessSweepsAreUnnoticed(After(full, ss[0]), After(swept, ss[0]), ss[1..], Tick(ss[0], now));
    }
  }
}
