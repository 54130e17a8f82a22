/** The sessions table, and the requests that create, use, renew and remove sessions. */
module Sessions {
  import opened Domain

  /** Seven days, in the microseconds that expires_at keeps; a session used in its second half is renewed. */
  const SESSION_TTL: int := 7 * 24 * 3600 * 1_000_000
  const RENEW_THRESHOLD: int := SESSION_TTL / 2

  datatype Session = Session(userId: int, createdAt: int, expiresAt: int)
  type Table = map<string, Session>

  datatype Answer =
    | NotFound                     // missing or expired
    | NoUser                       // the session's user cannot be read
    | Inactive
    | InvalidCredentials           // no such user, or another password
    | Accepted(userId: int, expiresAt: int, renewed: bool)
    | LoggedIn(expiresAt: int)
    | Collision                    // the token is taken
    | Removed

  predicate NeedsRenewal(s: Session, now: int) {
    s.expiresAt - now < RENEW_THRESHOLD
  }

  function Renewed(s: Session, now: int): Session {
    if NeedsRenewal(s, now) then s.(expiresAt := now + SESSION_TTL) else s
  }

  /** users maps each readable user to whether it is active. */
  function UserAnswer(users: map<int, bool>, s: Session, renewed: bool): Answer {
    if s.userId !in users then NoUser
    else if !users[s.userId] then Inactive
    else Accepted(s.userId, s.expiresAt, renewed)
  }

  function CurrentUser(t: Table, users: map<int, bool>, token: string, now: int): (Table, Answer) {
    if token !in t || now > t[token].expiresAt then (t, NotFound)
    else (t[token := Renewed(t[token], now)], UserAnswer(users, Renewed(t[token], now), NeedsRenewal(t[token], now)))
  }

  datatype Account = Account(id: int, isActive: bool)

  function Login(t: Table, token: string, userId: int, now: int): (Table, Answer) {
    if token in t then (t, Collision)
    else (t[token := Session(userId, now, now + SESSION_TTL)], LoggedIn(now + SESSION_TTL))
  }

  function WithoutExpired(t: Table, now: int): (r: Table)
    ensures forall token :: token in r <==> token in t && t[token].expiresAt >= now
    ensures forall token :: token in r ==> r[token] == t[token]
  {
    map token | token in t && t[token].expiresAt >= now :: t[token]
  }

  function WithoutUser(t: Table, userId: int): (r: Table)
    ensures forall token :: token in r <==> token in t && t[token].userId != userId
    ensures forall token :: token in r ==> r[token] == t[token]
  {
    map token | token in t && t[token].userId != userId :: t[token]
  }

  class SessionRepo {
    var sessions: Table

    constructor ()
      ensures sessions == map[]
    {
      sessions := map[];
    }

    method Create(token: string, s: Session) returns (ok: bool)
      modifies this
      ensures ok == (token !in old(sessions))
      ensures sessions == if ok then old(sessions)[token := s] else old(sessions)
    {
      ok := token !in sessions;
      if ok {
        sessions := sessions[token := s];
      }
    }

    method Get(token: string) returns (s: Option<Session>)
      ensures s == if token in sessions then Some(sessions[token]) else None
    {
      if token in sessions {
        s := Some(sessions[token]);
      } else {
        s := None;
      }
    }

    /** UPDATE by token: a token that is gone stays gone. */
    method Refresh(token: string, newExpiresAt: int)
      modifies this
      ensures sessions ==
              if token in old(sessions) then old(sessions)[token := old(sessions)[token].(expiresAt := newExpiresAt)]
              else old(sessions)
    {
      if token in sessions {
        sessions := sessions[token := sessions[token].(expiresAt := newExpiresAt)];
      }
    }

    method Delete(token: string)
      modifies this
      ensures sessions == old(sessions) - {token}
    {
      sessions := sessions - {token};
    }

    method DeleteExpired(now: int) returns (removed: int)
      modifies this
      ensures sessions == WithoutExpired(old(sessions), now)
      ensures removed == |old(sessions)| - |sessions|
    {
      var before := |sessions|;
      sessions := map token | token in sessions && sessions[token].expiresAt >= now :: sessions[token];
      removed := before - |sessions|;
    }

    method DeleteByUserID(userId: int)
      modifies this
      ensures sessions == WithoutUser(old(sessions), userId)
    {
      sessions := map token | token in sessions && sessions[token].userId != userId :: sessions[token];
    }

    /** The last step of a login whose password was right: store a session under a new token. */
    method StartSession(token: string, userId: int, now: int) returns (r: Answer)
      modifies this
      ensures (sessions, r) == Login(old(sessions), token, userId, now)
    {
      var s := Session(userId, now, now + SESSION_TTL);
      var ok := Create(token, s);
      if !ok {
        return Collision;
      }
      return LoggedIn(s.expiresAt);
    }

    /** The account under the given name, if any, and whether the password is its own, come from outside. */
    method LogIn(account: Option<Account>, passwordMatches: bool, token: string, now: int) returns (r: Answer)
      modifies this
      ensures r == InvalidCredentials <==> account.None? || (account.value.isActive && !passwordMatches)
      ensures r == Inactive <==> account.Some? && !account.value.isActive
      ensures if r == InvalidCredentials || r == Inactive then sessions == old(sessions)
              else (sessions, r) == Login(old(sessions), token, account.value.id, now)
    {
      if account.None? {
        return InvalidCredentials;
      }
      if !account.value.isActive {
        return Inactive;
      }
      if !passwordMatches {
        return InvalidCredentials;
      }
      r := StartSession(token, account.value.id, now);
    }

    method ResolveUser(users: map<int, bool>, token: string, now: int) returns (r: Answer)
      modifies this
      ensures (sessions, r) == CurrentUser(old(sessions), users, token, now)
    {
      var got := Get(token);
      if got.None? {
        return NotFound;
      }
      var s := got.value;
      if now > s.expiresAt {
        return NotFound;
      }
      var renewed := false;
      if s.expiresAt - now < RENEW_THRESHOLD {
        var newExpiry := now + SESSION_TTL;
        Refresh(token, newExpiry);
        s := s.(expiresAt := newExpiry);
        renewed := true;
      }
      assert sessions == old(sessions)[token := s];
      if s.userId !in users {
        return NoUser;
      }
      if !users[s.userId] {
        return Inactive;
      }
      return Accepted(s.userId, s.expiresAt, renewed);
    }
  }
}
