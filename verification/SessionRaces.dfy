/**
 Requests that race on the sessions table. Resolving a user is two statements, a read and,
 in the second half of a session's life, a refresh with an expiry computed from the read;
 logins, logouts, resets, sweeps and other requests may run in between.
 */
module SessionRaces {
  import opened Sessions

  /** A request between its read and its refresh: what it read, and when. */
  datatype Reading = Reading(token: string, session: Session, at: int)

  function Expiry(reading: Reading): int {
    reading.at + SESSION_TTL
  }

  datatype Racing = Racing(table: Table, pending: map<int, Reading>)

  datatype Statement =
    | Read(request: int, token: string, users: map<int, bool>, now: int)
    | Refresh(request: int, users: map<int, bool>)
    | Insert(token: string, userId: int, now: int)
    | Delete(token: string)
    | DeleteOfUser(userId: int)
    | DeleteExpired(now: int)

  predicate Live(t: Table, token: string, now: int) {
    token in t && now <= t[token].expiresAt
  }

  /** UPDATE by token: a token that is gone stays gone. */
  function Refreshed(t: Table, token: string, expiry: int): Table {
    if token in t then t[token := t[token].(expiresAt := expiry)] else t
  }

  /** The request is free, finds the session, and is going to renew it. */
  predicate Renews(r: Racing, s: Statement) {
    s.Read? && s.request !in r.pending && Live(r.table, s.token, s.now) && NeedsRenewal(r.table[s.token], s.now)
  }

  function After(r: Racing, s: Statement): Racing {
    match s
    case Read(q, token, _, now) =>
      if Renews(r, s) then r.(pending := r.pending[q := Reading(token, r.table[token], now)]) else r
    case Refresh(q, _) =>
      if q !in r.pending then r
      else Racing(Refreshed(r.table, r.pending[q].token, Expiry(r.pending[q])), r.pending - {q})
    case Insert(token, userId, now) => r.(table := Login(r.table, token, userId, now).0)
    case Delete(token) => r.(table := r.table - {token})
    case DeleteOfUser(userId) => r.(table := WithoutUser(r.table, userId))
    case DeleteExpired(now) => r.(table := WithoutExpired(r.table, now))
  }

  /** What the statement lets its request answer; one that goes on, or is busy, answers later. */
  function Reply(r: Racing, s: Statement): seq<Answer> {
    match s
    case Read(q, token, users, now) =>
      if q in r.pending then []
      else if !Live(r.table, token, now) then [NotFound]
      else if NeedsRenewal(r.table[token], now) then []
      else [UserAnswer(users, r.table[token], false)]
    case Refresh(q, users) =>
      if q !in r.pending then []
      else [UserAnswer(users, r.pending[q].session.(expiresAt := Expiry(r.pending[q])), true)]
    case Insert(token, userId, now) => [Login(r.table, token, userId, now).1]
    case Delete(_) => [Removed]
    case DeleteOfUser(_) => [Removed]
    case DeleteExpired(_) => []
  }

  function Run(r: Racing, ss: seq<Statement>): Racing
    decreases |ss|
  {
    if |ss| == 0 then r else Run(After(r, ss[0]), ss[1..])
  }

  function Replies(r: Racing, ss: seq<Statement>): seq<Answer>
    decreases |ss|
  {
    if |ss| == 0 then [] else Reply(r, ss[0]) + Replies(After(r, ss[0]), ss[1..])
  }

  lemma {:induction false} RunConcat(r: Racing, a: seq<Statement>, b: seq<Statement>)
    ensures Run(r, a + b) == Run(Run(r, a), b)
    ensures Replies(r, a + b) == Replies(r, a) + Replies(Run(r, a), b)
    decreases |a|
  {
    if |a| == 0 {
      assert a + b == b;
    } else {
      RunConcat(After(r, a[0]), a[1..], b);
      assert (a + b)[1..] == a[1..] + b;
    }
  }

  predicate Timed(s: Statement) {
    s.Read? || s.Insert? || s.DeleteExpired?
  }

  function Tick(s: Statement, clock: int): int {
    if Timed(s) then s.now else clock
  }

  /** The clock never goes back. */
  predicate ClockRuns(ss: seq<Statement>, clock: int) {
    |ss| > 0 ==> clock <= Tick(ss[0], clock) && ClockRuns(ss[1..], Tick(ss[0], clock))
  }

  predicate NotInserted(ss: seq<Statement>, token: string) {
    forall k | 0 <= k < |ss| :: ss[k].Insert? ==> ss[k].token != token
  }

  /** Tokens are random: none is drawn twice. */
  predicate FreshTokens(t: Table, ss: seq<Statement>) {
    && (forall k | 0 <= k < |ss| :: ss[k].Insert? ==> ss[k].token !in t)
    && (forall j, k | 0 <= j < k < |ss| :: ss[j].Insert? && ss[k].Insert? ==> ss[j].token != ss[k].token)
  }
}
